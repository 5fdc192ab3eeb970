/**
 * The order in which site assignment and circuit attachment visit the nodes: every level by name,
 * and a top level that consists of CPU bins by bin number.
 */
module NodeOrder {
  import opened Common
  import TopologyTree
  import opened RatePasses
  import opened SiteAssignment
  import BuilderStream

  type NameOrder = (string, string) -> bool

  /** What int() makes of a name after the bin prefix, None when it is no bin or no number. */
  type BinNumbers = string -> Option<int>

  ghost predicate IsOrder(le: NameOrder) {
    && (forall a, b :: le(a, b) || le(b, a))
    && (forall a, b, c :: le(a, b) && le(b, c) ==> le(a, c))
  }

  function NumberOf(number: BinNumbers, name: string): (n: int) {
    if number(name).None? then 0 else number(name).value
  }

  function ByName(): (le: NameOrder) {
    (a, b) => LexLe(a, b)
  }

  function ByNumber(number: BinNumbers): (le: NameOrder) {
    (a, b) => NumberOf(number, a) <= NumberOf(number, b)
  }

  lemma OrdersAreOrders(number: BinNumbers)
    ensures IsOrder(ByName()) && IsOrder(ByNumber(number))
  {
    var le := ByName();
    forall a, b ensures le(a, b) || le(b, a) { LexTotal(a, b); }
    forall a, b, c | le(a, b) && le(b, c) ensures le(a, c) { LexTransitive(a, b, c); }
  }

  // ----- Sorting one level, stably -----

  function Insert(le: NameOrder, n: Node, f: seq<Node>): (r: seq<Node>)
    ensures multiset(r) == multiset(f) + multiset{n}
  {
    if f == [] || le(n.name, f[0].name) then [n] + f
    else
      assert f == [f[0]] + f[1..];
      [f[0]] + Insert(le, n, f[1..])
  }

  function SortLevel(le: NameOrder, f: seq<Node>): (r: seq<Node>)
    ensures multiset(r) == multiset(f)
  {
    if f == [] then []
    else
      assert f == [f[0]] + f[1..];
      Insert(le, f[0], SortLevel(le, f[1..]))
  }

  ghost predicate Sorted(le: NameOrder, f: seq<Node>) {
    forall i, j :: 0 <= i < j < |f| ==> le(f[i].name, f[j].name)
  }

  lemma {:induction false} InsertSorts(le: NameOrder, n: Node, f: seq<Node>)
    requires IsOrder(le) && Sorted(le, f)
    ensures Sorted(le, Insert(le, n, f))
  {
    if f == [] {
    } else if le(n.name, f[0].name) {
      forall j | 0 <= j < |f| ensures le(n.name, f[j].name) {
        if j > 0 { assert le(f[0].name, f[j].name); }
      }
    } else {
      var r := Insert(le, n, f[1..]);
      InsertSorts(le, n, f[1..]);
      forall j | 0 <= j < |r| ensures le(f[0].name, r[j].name) {
        assert r[j] in multiset(r);
        assert r[j] == n || r[j] in f[1..];
      }
    }
  }

  lemma {:induction false} SortLevelSorts(le: NameOrder, f: seq<Node>)
    requires IsOrder(le)
    ensures Sorted(le, SortLevel(le, f))
  {
    if f == [] {
    } else {
      SortLevelSorts(le, f[1..]);
      InsertSorts(le, f[0], SortLevel(le, f[1..]));
    }
  }

  // ----- The whole tree -----

  /** sorted_node_keys at depth 0. */
  function TopOrder(number: BinNumbers, f: seq<Node>): (le: NameOrder) {
    if f != [] && forall n :: n in f ==> number(n.name).Some? then ByNumber(number) else ByName()
  }

  function Arrange(number: BinNumbers, f: seq<Node>): (r: seq<Node>) {
    SortLevel(TopOrder(number, f), ArrangeEach(f))
  }

  function ArrangeLevel(f: seq<Node>): (r: seq<Node>)
    decreases f, 1
  {
    SortLevel(ByName(), ArrangeEach(f))
  }

  function ArrangeEach(f: seq<Node>): (r: seq<Node>)
    decreases f, 0
  {
    if f == [] then [] else [ArrangeNode(f[0])] + ArrangeEach(f[1..])
  }

  function ArrangeNode(n: Node): (r: Node)
    ensures r.name == n.name && r.attrs == n.attrs
    decreases n, 2
  {
    if n.Leaf? then n else TopologyTree.Branch(n.name, n.attrs, ArrangeLevel(n.kids))
  }

  /** Every level is in order. */
  ghost predicate InOrder(le: NameOrder, f: seq<Node>)
    decreases f
  {
    Sorted(le, f) && forall i :: 0 <= i < |f| && f[i].Branch? ==> InOrder(ByName(), f[i].kids)
  }

  lemma {:induction false} ArrangedKidsInOrder(n: Node)
    requires n.Branch?
    ensures InOrder(ByName(), ArrangeNode(n).kids)
    decreases n, 2
  {
    OrdersAreOrders(_ => None);
    SortedInOrder(ByName(), n.kids);
  }

  lemma {:induction false} SortedInOrder(le: NameOrder, f: seq<Node>)
    requires IsOrder(le)
    ensures InOrder(le, SortLevel(le, ArrangeEach(f)))
    decreases f, 1
  {
    var e := ArrangeEach(f);
    var r := SortLevel(le, e);
    SortLevelSorts(le, e);
    forall i | 0 <= i < |r| && r[i].Branch? ensures InOrder(ByName(), r[i].kids) {
      assert r[i] in multiset(r);
      assert r[i] in e;
      ArrangedMember(f, r[i]);
    }
  }

  lemma {:induction false} ArrangedMember(f: seq<Node>, m: Node)
    requires m in ArrangeEach(f) && m.Branch?
    ensures InOrder(ByName(), m.kids)
    decreases f, 0
  {
    if m == ArrangeNode(f[0]) {
      ArrangedKidsInOrder(f[0]);
    } else {
      ArrangedMember(f[1..], m);
    }
  }

  /** Below the top every level is in lexicographic order of the names. */
  predicate KidsByName(n: Node)
    decreases n
  {
    n.Branch? ==> NamesAscend(n.kids) && forall m :: m in n.kids ==> KidsByName(m)
  }

  predicate NamesAscend(f: seq<Node>) {
    forall i, j :: 0 <= i < j < |f| ==> LexLe(f[i].name, f[j].name)
  }

  /** A top level of bins ascends by bin number, any other by name. */
  predicate TreeInOrder(number: BinNumbers, f: seq<Node>) {
    && (forall n :: n in f ==> KidsByName(n))
    && if forall n :: n in f ==> number(n.name).Some?
       then forall i, j :: 0 <= i < j < |f| ==> number(f[i].name).value <= number(f[j].name).value
       else NamesAscend(f)
  }

  lemma {:induction false} OrderedKids(n: Node)
    requires n.Branch? ==> InOrder(ByName(), n.kids)
    ensures KidsByName(n)
    decreases n
  {
    if n.Branch? {
      forall m | m in n.kids ensures KidsByName(m) {
        var i :| 0 <= i < |n.kids| && n.kids[i] == m;
        OrderedKids(m);
      }
    }
  }

  /** The arranged tree is in order, level by level. */
  lemma ArrangedInOrder(number: BinNumbers, f: seq<Node>)
    ensures TreeInOrder(number, Arrange(number, f))
  {
    var le, r := TopOrder(number, f), Arrange(number, f);
    OrdersAreOrders(number);
    SortedInOrder(le, f);
    forall n | n in r ensures KidsByName(n) {
      var i :| 0 <= i < |r| && r[i] == n;
      OrderedKids(n);
    }
    ArrangedTops(number, f);
  }

  lemma ArrangedTops(number: BinNumbers, f: seq<Node>)
    ensures (forall n :: n in Arrange(number, f) ==> number(n.name).Some?) <==>
      (forall n :: n in f ==> number(n.name).Some?)
    ensures Arrange(number, f) == [] <==> f == []
  {
    var e, r := ArrangeEach(f), Arrange(number, f);
    assert multiset(r) == multiset(e);
    EachKeepsNames(f);
    assert |multiset(r)| == |r| && |multiset(e)| == |e|;
    forall n | n in r ensures n in e { assert n in multiset(r); }
    forall n | n in e ensures n in r { assert n in multiset(e); }
    if forall n :: n in f ==> number(n.name).Some? {
      forall n | n in r ensures number(n.name).Some? {
        var i :| 0 <= i < |e| && e[i] == n;
        assert f[i] in f;
      }
    }
    if forall n :: n in r ==> number(n.name).Some? {
      forall n | n in f ensures number(n.name).Some? {
        var i :| 0 <= i < |f| && f[i] == n;
        assert e[i] in e;
      }
    }
  }

  lemma {:induction false} EachKeepsNames(f: seq<Node>)
    ensures |ArrangeEach(f)| == |f| && forall i :: 0 <= i < |f| ==> ArrangeEach(f)[i].name == f[i].name
  {
    if f == [] {
    } else {
      EachKeepsNames(f[1..]);
    }
  }

  // ----- Capping rates and arranging commute -----

  lemma {:induction false} InsertApplied(pass: Pass, le: NameOrder, n: Node, f: seq<Node>, parent: NodeRates)
    ensures Apply(pass, Insert(le, n, f), parent) == Insert(le, ApplyNode(pass, n, parent), Apply(pass, f, parent))
  {
    var m, g := ApplyNode(pass, n, parent), Apply(pass, f, parent);
    if f == [] {
      ApplyCons(pass, n, f, parent);
    } else {
      ApplyHead(pass, f, parent);
      InsertStep(le, n, f);
      InsertStep(le, m, g);
      if le(n.name, f[0].name) {
        ApplyCons(pass, n, f, parent);
      } else {
        InsertApplied(pass, le, n, f[1..], parent);
        ApplyCons(pass, f[0], Insert(le, n, f[1..]), parent);
      }
    }
  }

  lemma InsertStep(le: NameOrder, n: Node, f: seq<Node>)
    requires f != []
    ensures Insert(le, n, f) == if le(n.name, f[0].name) then [n] + f else [f[0]] + Insert(le, n, f[1..])
  {
  }

  lemma ApplyHead(pass: Pass, f: seq<Node>, parent: NodeRates)
    requires f != []
    ensures var g := Apply(pass, f, parent);
      && g != [] && g[0] == ApplyNode(pass, f[0], parent) && g[1..] == Apply(pass, f[1..], parent)
      && g[0].name == f[0].name
  {
  }

  lemma ApplyCons(pass: Pass, n: Node, f: seq<Node>, parent: NodeRates)
    ensures Apply(pass, [n] + f, parent) == [ApplyNode(pass, n, parent)] + Apply(pass, f, parent)
  {
    assert ([n] + f)[1..] == f;
  }

  lemma {:induction false} SortApplied(pass: Pass, le: NameOrder, f: seq<Node>, parent: NodeRates)
    ensures Apply(pass, SortLevel(le, f), parent) == SortLevel(le, Apply(pass, f, parent))
  {
    if f == [] {
    } else {
      SortApplied(pass, le, f[1..], parent);
      InsertApplied(pass, le, f[0], SortLevel(le, f[1..]), parent);
      ApplyHead(pass, f, parent);
    }
  }

  lemma {:induction false} ArrangeApplied(pass: Pass, f: seq<Node>, parent: NodeRates)
    ensures Apply(pass, ArrangeEach(f), parent) == ArrangeEach(Apply(pass, f, parent))
    decreases f, 0
  {
    if f == [] {
    } else {
      ArrangeNodeApplied(pass, f[0], parent);
      ArrangeApplied(pass, f[1..], parent);
      ApplyCons(pass, ArrangeNode(f[0]), ArrangeEach(f[1..]), parent);
      ApplyHead(pass, f, parent);
    }
  }

  lemma {:induction false} ArrangeNodeApplied(pass: Pass, n: Node, parent: NodeRates)
    ensures ApplyNode(pass, ArrangeNode(n), parent) == ArrangeNode(ApplyNode(pass, n, parent))
    decreases n, 2
  {
    if n.Branch? {
      var rates := StepOf(pass, n.attrs.rates, parent);
      ArrangeApplied(pass, n.kids, rates);
      SortApplied(pass, ByName(), ArrangeEach(n.kids), rates);
    }
  }

  lemma {:induction false} TopOrderApplied(pass: Pass, number: BinNumbers, f: seq<Node>, parent: NodeRates)
    ensures (forall n :: n in Apply(pass, f, parent) ==> number(n.name).Some?) <==>
      (forall n :: n in f ==> number(n.name).Some?)
    ensures Apply(pass, f, parent) == [] <==> f == []
  {
    if f == [] {
    } else {
      TopOrderApplied(pass, number, f[1..], parent);
      assert f == [f[0]] + f[1..];
    }
  }

  /** The capped tree in order is the ordered tree capped: rates do not depend on the order of the visits. */
  lemma ArrangeCommutes(pass: Pass, number: BinNumbers, f: seq<Node>, parent: NodeRates)
    ensures Arrange(number, Apply(pass, f, parent)) == Apply(pass, Arrange(number, f), parent)
  {
    TopOrderApplied(pass, number, f, parent);
    ArrangeApplied(pass, f, parent);
    SortApplied(pass, TopOrder(number, f), ArrangeEach(f), parent);
  }

  // ----- Arranging keeps the circuits -----

  lemma {:induction false} InsertedIds(le: NameOrder, n: Node, f: seq<Node>, plan: Planned)
    ensures ChosenIds(Insert(le, n, f), plan) == NodeChosenIds(n, plan) + ChosenIds(f, plan)
  {
    if f == [] || le(n.name, f[0].name) {
      assert ([n] + f)[1..] == f;
    } else {
      InsertedIds(le, n, f[1..], plan);
      assert ([f[0]] + Insert(le, n, f[1..]))[1..] == Insert(le, n, f[1..]);
    }
  }

  lemma {:induction false} SortedIds(le: NameOrder, f: seq<Node>, plan: Planned)
    ensures ChosenIds(SortLevel(le, f), plan) == ChosenIds(f, plan)
  {
    if f == [] {
    } else {
      SortedIds(le, f[1..], plan);
      InsertedIds(le, f[0], SortLevel(le, f[1..]), plan);
    }
  }

  lemma {:induction false} ArrangedIds(f: seq<Node>, plan: Planned)
    ensures ChosenIds(ArrangeEach(f), plan) == ChosenIds(f, plan)
    decreases f, 0
  {
    if f == [] {
    } else {
      ArrangedNodeIds(f[0], plan);
      ArrangedIds(f[1..], plan);
      assert ArrangeEach(f)[1..] == ArrangeEach(f[1..]);
    }
  }

  lemma {:induction false} ArrangedNodeIds(n: Node, plan: Planned)
    ensures NodeChosenIds(ArrangeNode(n), plan) == NodeChosenIds(n, plan)
    decreases n, 2
  {
    if n.Branch? {
      ArrangedIds(n.kids, plan);
      SortedIds(ByName(), ArrangeEach(n.kids), plan);
    }
  }

  // ----- Arranging keeps the tree -----

  lemma {:induction false} InsertedRows(le: NameOrder, n: Node, f: seq<Node>, prefix: TopologyTree.Path)
    ensures multiset(TopologyTree.Rows(Insert(le, n, f), prefix)) ==
      multiset(TopologyTree.NodeRows(n, prefix)) + multiset(TopologyTree.Rows(f, prefix))
  {
    if f == [] || le(n.name, f[0].name) {
      assert ([n] + f)[1..] == f;
    } else {
      var rest := Insert(le, n, f[1..]);
      InsertedRows(le, n, f[1..], prefix);
      InsertStep(le, n, f);
      assert ([f[0]] + rest)[1..] == rest;
      assert TopologyTree.Rows([f[0]] + rest, prefix) ==
        TopologyTree.NodeRows(f[0], prefix) + TopologyTree.Rows(rest, prefix);
    }
  }

  lemma {:induction false} SortedRows(le: NameOrder, f: seq<Node>, prefix: TopologyTree.Path)
    ensures multiset(TopologyTree.Rows(SortLevel(le, f), prefix)) == multiset(TopologyTree.Rows(f, prefix))
  {
    if f == [] {
    } else {
      SortedRows(le, f[1..], prefix);
      InsertedRows(le, f[0], SortLevel(le, f[1..]), prefix);
    }
  }

  lemma {:induction false} EachRows(f: seq<Node>, prefix: TopologyTree.Path)
    ensures multiset(TopologyTree.Rows(ArrangeEach(f), prefix)) == multiset(TopologyTree.Rows(f, prefix))
    decreases f, 0
  {
    if f == [] {
    } else {
      ArrangedNodeRows(f[0], prefix);
      EachRows(f[1..], prefix);
      assert ArrangeEach(f)[1..] == ArrangeEach(f[1..]);
    }
  }

  lemma {:induction false} ArrangedNodeRows(n: Node, prefix: TopologyTree.Path)
    ensures multiset(TopologyTree.NodeRows(ArrangeNode(n), prefix)) == multiset(TopologyTree.NodeRows(n, prefix))
    decreases n, 2
  {
    if n.Branch? {
      var p := prefix + [TopologyTree.Entry(n.name, n.attrs)];
      EachRows(n.kids, p);
      SortedRows(ByName(), ArrangeEach(n.kids), p);
    }
  }

  /** Arranging is a rearrangement: every path of the tree, with all its fields, as often as before. */
  lemma ArrangedRows(number: BinNumbers, f: seq<Node>, prefix: TopologyTree.Path)
    ensures multiset(TopologyTree.Rows(Arrange(number, f), prefix)) == multiset(TopologyTree.Rows(f, prefix))
  {
    EachRows(f, prefix);
    SortedRows(TopOrder(number, f), ArrangeEach(f), prefix);
  }

  // ----- The attachment -----

  /**
   * apply_site_assignments and attach_circuits on the whole tree: rates are capped, the nodes are
   * visited in order, each chosen circuit is hung once and below its node's rates.
   */
  method AttachCircuits(f: seq<Node>, parent: NodeRates, plan: Planned, number: BinNumbers)
    returns (r: seq<BuilderStream.Site>)
    ensures r == Attach(Arrange(number, Apply(RecapPass, f, parent)), plan, Progress({}, {})).0
    ensures TreeInOrder(number, Arrange(number, Apply(RecapPass, f, parent)))
    ensures var g := Apply(RecapPass, f, parent);
      && multiset(TopologyTree.Rows(Arrange(number, g), [])) == multiset(TopologyTree.Rows(g, []))
      && exists p :: SitesOf(plan, Arrange(number, g), r, Progress({}, {}), p)
    ensures forall s :: s in r ==> SiteUnder(s, Ceilings(parent))
    ensures Distinct(SitesIds(r)) && forall x :: x in SitesIds(r) <==> x in ChosenIds(Apply(RecapPass, f, parent), plan)
  {
    var g := Apply(RecapPass, f, parent);
    var walk := new Attachment();
    r := walk.Walk(Arrange(number, g), plan);
    ArrangedInOrder(number, g);
    ArrangeCommutes(RecapPass, number, f, parent);
    AssignedUnder(Arrange(number, f), parent, plan, Progress({}, {}));
    CircuitsOnce(Arrange(number, g), plan, Progress({}, {}));
    SitesAreOf(Arrange(number, g), plan, Progress({}, {}));
    ArrangedRows(number, g, []);
    ArrangedIds(g, plan);
    SortedIds(TopOrder(number, g), ArrangeEach(g), plan);
  }
}
