/**
 * Virtual-node promotion: virtual nodes exist only in the logical tree; the physical (HTB) tree
 * hangs their children one level up.
 */
module VirtualNodes {
  import opened Common
  import opened TopologyTree

  function LowerChar(c: char): (r: char) {
    if 'A' <= c <= 'Z' then ((c as int) + 32) as char else c
  }

  function Lower(s: string): (r: string) {
    if s == [] then [] else [LowerChar(s[0])] + Lower(s[1..])
  }

  predicate IsVirtual(a: Attr) {
    a.virtual == Some(true) || Lower(a.kind) == "virtual"
  }

  /** The letter c of a word, in either case. */
  predicate EitherCase(c: char, lower: char, upper: char) {
    c == lower || c == upper
  }

  /** Two markers: the flag, and the type "virtual" in any letter case. */
  lemma VirtualMarkers(a: Attr)
    ensures IsVirtual(a) <==>
      || a.virtual == Some(true)
      || (|a.kind| == 7 && EitherCase(a.kind[0], 'v', 'V') && EitherCase(a.kind[1], 'i', 'I')
          && EitherCase(a.kind[2], 'r', 'R') && EitherCase(a.kind[3], 't', 'T') && EitherCase(a.kind[4], 'u', 'U')
          && EitherCase(a.kind[5], 'a', 'A') && EitherCase(a.kind[6], 'l', 'L'))
  {
    LowerPointwise(a.kind);
    if |a.kind| == 7 {
      var t := Lower(a.kind);
      assert t == [t[0], t[1], t[2], t[3], t[4], t[5], t[6]];
    }
  }

  lemma {:induction false} LowerPointwise(s: string)
    ensures |Lower(s)| == |s| && forall i :: 0 <= i < |s| ==> Lower(s)[i] == LowerChar(s[i])
  {
    if s == [] {
    } else {
      LowerPointwise(s[1..]);
    }
  }

  function Strip(a: Attr): (r: Attr)
    ensures IsVirtual(r) ==> IsVirtual(a)
  {
    a.(virtual := None)
  }

  // ----- What the code does, dictionary step by dictionary step -----

  /** The promotion loop over an already promoted child level: a taken name raises. */
  function Merge(d: seq<Node>, promoted: seq<Node>): (r: Result<seq<Node>, string>)
    decreases |promoted|
  {
    if promoted == [] then Ok(d)
    else if IndexOf(d, promoted[0].name) < |d| then Err(promoted[0].name)
    else Merge(d + [promoted[0]], promoted[1..])
  }

  function Physical(f: seq<Node>): (r: Result<seq<Node>, string>)
    decreases f, 1
  {
    Collect(f, [])
  }

  function Collect(f: seq<Node>, d: seq<Node>): (r: Result<seq<Node>, string>)
    decreases f, 0
  {
    if f == [] then Ok(d)
    else
      var d' := CollectNode(f[0], d);
      if d'.Err? then d' else Collect(f[1..], d'.value)
  }

  function CollectNode(n: Node, d: seq<Node>): (r: Result<seq<Node>, string>)
    decreases n, 0
  {
    match n
    case Leaf(name, attrs) => Ok(if IsVirtual(attrs) then d else Put(d, Leaf(name, Strip(attrs))))
    case Branch(name, attrs, kids) =>
      var below := Physical(kids);
      if below.Err? then below
      else if IsVirtual(attrs) then Merge(d, below.value)
      else Ok(Put(d, Hang(name, attrs, below.value)))
  }

  /** A real node over its physical children; an empty "children" is dropped. */
  function Hang(name: string, attrs: Attr, kids: seq<Node>): (n: Node) {
    if kids == [] then Leaf(name, Strip(attrs)) else Branch(name, Strip(attrs), kids)
  }

  /** build_physical_network as written: a dictionary filled in a loop, recursing into children. */
  method BuildPhysicalNetwork(f: seq<Node>) returns (r: Result<seq<Node>, string>)
    ensures r == Physical(f)
    decreases f, 1
  {
    var d := [];
    var i := 0;
    while i < |f|
      invariant i <= |f|
      invariant Collect(f[i..], d) == Physical(f)
    {
      var n := f[i];
      assert f[i..][0] == n && f[i..][1..] == f[i + 1..];
      if n.Branch? {
        var below := BuildPhysicalNetwork(n.kids);
        if below.Err? {
          return below;
        }
        if IsVirtual(n.attrs) {
          var merged := MergeLoop(d, below.value);
          if merged.Err? {
            return merged;
          }
          d := merged.value;
        } else {
          d := Put(d, Hang(n.name, n.attrs, below.value));
        }
      } else if !IsVirtual(n.attrs) {
        d := Put(d, Leaf(n.name, Strip(n.attrs)));
      }
      i := i + 1;
    }
    r := Ok(d);
  }

  method MergeLoop(d: seq<Node>, promoted: seq<Node>) returns (r: Result<seq<Node>, string>)
    ensures r == Merge(d, promoted)
  {
    var out := d;
    var j := 0;
    while j < |promoted|
      invariant j <= |promoted|
      invariant Merge(out, promoted[j..]) == Merge(d, promoted)
    {
      assert promoted[j..][0] == promoted[j] && promoted[j..][1..] == promoted[j + 1..];
      if IndexOf(out, promoted[j].name) < |out| {
        return Err(promoted[j].name);
      }
      out := out + [promoted[j]];
      j := j + 1;
    }
    r := Ok(out);
  }

  // ----- What promotion means -----

  /** Promotion without dictionaries: replace each virtual node by its promoted children. */
  function Promoted(f: seq<Node>): (r: seq<Node>)
    decreases f
  {
    if f == [] then [] else PromotedNode(f[0]) + Promoted(f[1..])
  }

  function PromotedNode(n: Node): (r: seq<Node>)
    decreases n
  {
    var below := if n.Leaf? then [] else Promoted(n.kids);
    if IsVirtual(n.attrs) then below else [Hang(n.name, n.attrs, below)]
  }

  /** The physical form of a path: virtual entries dropped, markers removed. */
  function PhysPath(p: Path): (r: Path) {
    if p == [] then []
    else PhysPath(p[..|p| - 1]) + if IsVirtual(Last(p).attrs) then [] else [Entry(Last(p).name, Strip(Last(p).attrs))]
  }

  predicate OnVirtual(p: Path) {
    p != [] && IsVirtual(Last(p).attrs)
  }

  /** The physical form of a list of rows: rows of virtual nodes dropped, the others mapped. */
  function PhysRows(rows: seq<Path>): (r: seq<Path>) {
    if rows == [] then [] else (if OnVirtual(rows[0]) then [] else [PhysPath(rows[0])]) + PhysRows(rows[1..])
  }

  lemma {:induction false} PhysRowsAppend(a: seq<Path>, b: seq<Path>)
    ensures PhysRows(a + b) == PhysRows(a) + PhysRows(b)
  {
    if a == [] {
      assert a + b == b;
    } else {
      assert (a + b)[1..] == a[1..] + b;
      PhysRowsAppend(a[1..], b);
    }
  }

  /**
   * Exactly the real nodes survive, once each and in order, each below exactly those of its
   * ancestors that are real.
   */
  lemma {:induction false} PromotionRows(f: seq<Node>, prefix: Path)
    ensures Rows(Promoted(f), PhysPath(prefix)) == PhysRows(Rows(f, prefix))
    decreases f
  {
    if f == [] {
    } else {
      NodePromotionRows(f[0], prefix);
      PromotionRows(f[1..], prefix);
      PhysRowsAppend(NodeRows(f[0], prefix), Rows(f[1..], prefix));
      RowsAppend(PromotedNode(f[0]), Promoted(f[1..]), PhysPath(prefix));
    }
  }

  lemma PhysRowsCons(p: Path, rest: seq<Path>)
    ensures PhysRows([p] + rest) == (if OnVirtual(p) then [] else [PhysPath(p)]) + PhysRows(rest)
  {
    assert ([p] + rest)[1..] == rest;
  }

  lemma PhysPathSnoc(p: Path, e: Entry)
    ensures PhysPath(p + [e]) == PhysPath(p) + if IsVirtual(e.attrs) then [] else [Entry(e.name, Strip(e.attrs))]
  {
    assert (p + [e])[..|p|] == p;
  }

  lemma {:induction false} NodePromotionRows(n: Node, prefix: Path)
    ensures Rows(PromotedNode(n), PhysPath(prefix)) == PhysRows(NodeRows(n, prefix))
    decreases n
  {
    var e := Entry(n.name, n.attrs);
    var p := prefix + [e];
    var below := if n.Leaf? then [] else Rows(n.kids, p);
    var promoted := if n.Leaf? then [] else Promoted(n.kids);
    assert Rows(promoted, PhysPath(p)) == PhysRows(below) by {
      if n.Branch? { PromotionRows(n.kids, p); }
    }
    assert OnVirtual(p) == IsVirtual(n.attrs);
    PhysRowsCons(p, below);
    PhysPathSnoc(prefix, e);
    if IsVirtual(n.attrs) {
      assert PhysPath(p) == PhysPath(prefix);
    } else {
      HangRows(n.name, n.attrs, promoted, PhysPath(prefix));
    }
  }

  lemma HangRows(name: string, attrs: Attr, kids: seq<Node>, prefix: Path)
    ensures var p := prefix + [Entry(name, Strip(attrs))];
            Rows([Hang(name, attrs, kids)], prefix) == [p] + Rows(kids, p)
  {
    RowsSingle(Hang(name, attrs, kids), prefix);
  }

  // ----- When the dictionaries hold the promoted tree -----

  /** No level below a real node promotes a name twice. */
  ghost predicate KidsApart(f: seq<Node>)
    decreases f
  {
    f == [] || (NodeApart(f[0]) && KidsApart(f[1..]))
  }

  ghost predicate NodeApart(n: Node)
    decreases n
  {
    n.Branch? ==> KidsApart(n.kids) && (IsVirtual(n.attrs) || Distinct(Tops(Promoted(n.kids))))
  }

  /** No physical level, at the top or below a real node, gets a name twice. */
  ghost predicate LevelsApart(f: seq<Node>) {
    Distinct(Tops(Promoted(f))) && KidsApart(f)
  }

  lemma {:induction false} MergeFresh(d: seq<Node>, promoted: seq<Node>)
    requires Distinct(Tops(d + promoted))
    ensures Merge(d, promoted) == Ok(d + promoted)
    decreases |promoted|
  {
    if promoted == [] {
      assert d + promoted == d;
    } else {
      var d', rest := d + [promoted[0]], promoted[1..];
      assert d' + rest == d + promoted;
      NameOnce(d, promoted);
      MergeFresh(d', rest);
    }
  }

  /** In a level without repetitions a name is not met before its own position. */
  lemma {:induction false} NameOnce(d: seq<Node>, e: seq<Node>)
    requires e != [] && Distinct(Tops(d + e))
    ensures IndexOf(d, e[0].name) == |d|
  {
    TopsAppend(d, e);
    DistinctSplit(Tops(d), Tops(e));
    assert forall i :: 0 <= i < |d| ==> Tops(d)[i] != Tops(e)[0];
  }

  lemma DistinctTopsPrefix(a: seq<Node>, b: seq<Node>)
    requires Distinct(Tops(a + b))
    ensures Distinct(Tops(a)) && Distinct(Tops(b))
  {
    TopsAppend(a, b);
    DistinctSplit(Tops(a), Tops(b));
  }

  lemma {:induction false} CollectIsPromoted(f: seq<Node>, d: seq<Node>)
    requires KidsApart(f) && Distinct(Tops(d + Promoted(f)))
    ensures Collect(f, d) == Ok(d + Promoted(f))
    decreases f, 0
  {
    if f == [] {
      assert d + Promoted(f) == d;
    } else {
      var first, rest := PromotedNode(f[0]), Promoted(f[1..]);
      Regroup(d, first, rest);
      DistinctTopsPrefix(d + first, rest);
      CollectNodeIsPromoted(f[0], d);
      CollectIsPromoted(f[1..], d + first);
    }
  }

  lemma {:induction false} CollectNodeIsPromoted(n: Node, d: seq<Node>)
    requires NodeApart(n) && Distinct(Tops(d + PromotedNode(n)))
    ensures CollectNode(n, d) == Ok(d + PromotedNode(n))
    decreases n, 0
  {
    var below := if n.Leaf? then [] else Promoted(n.kids);
    if n.Branch? {
      if IsVirtual(n.attrs) { DistinctTopsPrefix(d, below); }
      assert [] + below == below;
      CollectIsPromoted(n.kids, []);
    }
    if IsVirtual(n.attrs) {
      MergeFresh(d, below);
    } else {
      var out := Hang(n.name, n.attrs, below);
      NameOnce(d, [out]);
    }
  }

  /** Every dictionary that is built has each name once. */
  lemma {:induction false} MergedOnce(d: seq<Node>, promoted: seq<Node>)
    requires Distinct(Tops(d)) && Merge(d, promoted).Ok?
    ensures Merge(d, promoted).value == d + promoted && Distinct(Tops(d + promoted))
    decreases |promoted|
  {
    if promoted == [] {
      assert d + promoted == d;
    } else {
      var d', rest := d + [promoted[0]], promoted[1..];
      assert d' + rest == d + promoted;
      MergedOnce(d', rest);
    }
  }

  lemma PutOnce(d: seq<Node>, n: Node)
    requires Distinct(Tops(d))
    ensures Distinct(Tops(Put(d, n))) && |d| <= |Put(d, n)| <= |d| + 1
    ensures forall i :: 0 <= i < |d| ==> Put(d, n)[i].name == d[i].name && (d[i].name != n.name ==>
      Put(d, n)[i] == d[i])
  {
    var r := Put(d, n);
    forall i, j | 0 <= i < j < |r| ensures Tops(r)[i] != Tops(r)[j] {
      assert j < |d| ==> Tops(d)[i] != Tops(d)[j];
    }
  }

  /** From d to r: names once each, what was there keeps its place and, unless overwritten, its value. */
  ghost predicate Grows(d: seq<Node>, r: seq<Node>, promoted: seq<Node>) {
    && Distinct(Tops(r)) && |d| <= |r| <= |d| + |promoted|
    && forall i :: 0 <= i < |d| ==> r[i].name == d[i].name && (d[i].name in Tops(promoted) || r[i] == d[i])
  }

  lemma {:induction false} CollectGrows(f: seq<Node>, d: seq<Node>)
    requires Distinct(Tops(d)) && Collect(f, d).Ok?
    ensures Grows(d, Collect(f, d).value, Promoted(f))
    decreases f, 0
  {
    if f == [] {
    } else {
      var d' := CollectNode(f[0], d).value;
      CollectNodeGrows(f[0], d);
      CollectGrows(f[1..], d');
      TopsAppend(PromotedNode(f[0]), Promoted(f[1..]));
    }
  }

  lemma {:induction false} CollectNodeGrows(n: Node, d: seq<Node>)
    requires Distinct(Tops(d)) && CollectNode(n, d).Ok?
    ensures Grows(d, CollectNode(n, d).value, PromotedNode(n))
    decreases n, 0
  {
    var below := if n.Leaf? then [] else Physical(n.kids).value;
    if n.Branch? { CollectGrows(n.kids, []); }
    if IsVirtual(n.attrs) {
      if n.Branch? { MergedOnce(d, below); }
    } else {
      var out := Hang(n.name, n.attrs, below);
      PutOnce(d, out);
      assert Tops(PromotedNode(n))[0] == n.name;
    }
  }

  /** If the dictionary ends as the promoted tree, so did every step on the way. */
  lemma StepWasExact(d: seq<Node>, d': seq<Node>, first: seq<Node>, rest: seq<Node>)
    requires Grows(d, d', first) && Grows(d', d + (first + rest), rest)
    ensures d' == d + first && Distinct(Tops(d + first))
  {
    var r := d + (first + rest);
    assert |d'| == |d| + |first|;
    Regroup(d, first, rest);
    TopsAppend(d + first, rest);
    DistinctSplit(Tops(d + first), Tops(rest));
    forall i | 0 <= i < |d'| ensures d'[i] == r[i] {
      assert Tops(d + first)[i] == r[i].name == d'[i].name;
      assert d'[i].name !in Tops(rest);
    }
    assert d' == r[..|d'|] == d + first;
  }

  lemma {:induction false} ExactIsApart(f: seq<Node>, d: seq<Node>)
    requires Distinct(Tops(d)) && Collect(f, d) == Ok(d + Promoted(f))
    ensures KidsApart(f)
    decreases f, 0
  {
    if f == [] {
    } else {
      var d' := CollectNode(f[0], d).value;
      CollectNodeGrows(f[0], d);
      CollectGrows(f[1..], d');
      StepWasExact(d, d', PromotedNode(f[0]), Promoted(f[1..]));
      ExactNodeIsApart(f[0], d);
      Regroup(d, PromotedNode(f[0]), Promoted(f[1..]));
      ExactIsApart(f[1..], d');
    }
  }

  lemma {:induction false} ExactNodeIsApart(n: Node, d: seq<Node>)
    requires Distinct(Tops(d)) && Distinct(Tops(d + PromotedNode(n))) && CollectNode(n, d) == Ok(d + PromotedNode(n))
    ensures NodeApart(n)
    decreases n, 0
  {
    if n.Branch? {
      var below := Physical(n.kids).value;
      var meant := Promoted(n.kids);
      if IsVirtual(n.attrs) {
        MergedOnce(d, below);
        assert below == (d + below)[|d|..] && meant == (d + meant)[|d|..];
      } else {
        var out := Hang(n.name, n.attrs, meant);
        NameOnce(d, [out]);
        assert (d + [out])[|d|] == out && (d + [Hang(n.name, n.attrs, below)])[|d|] == Hang(n.name, n.attrs, below);
      }
      assert below == meant && [] + meant == meant;
      CollectGrows(n.kids, []);
      ExactIsApart(n.kids, []);
    }
  }

  /** Exactly when the code neither raises nor loses a node: no physical level gets a name twice. */
  lemma PromotionExactIff(f: seq<Node>)
    ensures Physical(f) == Ok(Promoted(f)) <==> LevelsApart(f)
  {
    assert [] + Promoted(f) == Promoted(f);
    if Physical(f) == Ok(Promoted(f)) {
      CollectGrows(f, []);
      ExactIsApart(f, []);
    }
    if LevelsApart(f) { CollectIsPromoted(f, []); }
  }

  // ----- With unique names the code never raises and never overwrites -----

  /** Promotion only keeps names, and keeps them distinct. */
  lemma {:induction false} PromotedTops(f: seq<Node>)
    ensures forall i :: 0 <= i < |Promoted(f)| ==> Promoted(f)[i].name in Names(f)
    ensures UniqueNames(f) ==> LevelsApart(f)
    decreases f
  {
    if f == [] {
    } else {
      NodePromotedTops(f[0]);
      PromotedTops(f[1..]);
      if UniqueNames(f) {
        DistinctSplit(NodeNames(f[0]), Names(f[1..]));
        TopsApart(PromotedNode(f[0]), Promoted(f[1..]), NodeNames(f[0]), Names(f[1..]));
      }
    }
  }

  lemma TopsApart(a: seq<Node>, b: seq<Node>, na: seq<string>, nb: seq<string>)
    requires Distinct(Tops(a)) && Distinct(Tops(b))
    requires forall i :: 0 <= i < |a| ==> a[i].name in na
    requires forall i :: 0 <= i < |b| ==> b[i].name in nb
    requires forall i, j :: 0 <= i < |na| && 0 <= j < |nb| ==> na[i] != nb[j]
    ensures Distinct(Tops(a + b))
  {
    assert Tops(a + b) == Tops(a) + Tops(b);
  }

  lemma {:induction false} NodePromotedTops(n: Node)
    ensures forall i :: 0 <= i < |PromotedNode(n)| ==> PromotedNode(n)[i].name in NodeNames(n)
    ensures Distinct(NodeNames(n)) ==> Distinct(Tops(PromotedNode(n))) && NodeApart(n)
    decreases n
  {
    if n.Branch? {
      PromotedTops(n.kids);
      if Distinct(NodeNames(n)) { DistinctSplit([n.name], Names(n.kids)); }
    }
  }

  /** On every tree with unique names the code never raises and builds the promoted tree. */
  lemma PromotionNeverRaises(f: seq<Node>)
    requires UniqueNames(f)
    ensures Physical(f) == Ok(Promoted(f))
  {
    PromotedTops(f);
    PromotionExactIff(f);
  }

  /** Without unique names a real node overwrites a child promoted before it. */
  lemma RealNodeOverwritesPromotedChild(v: Attr, a: Attr, b: Attr)
    requires IsVirtual(v) && !IsVirtual(a) && !IsVirtual(b)
    ensures Physical([Branch("V", v, [Leaf("x", a)]), Leaf("x", b)]) == Ok([Leaf("x", Strip(b))])
    ensures |Promoted([Branch("V", v, [Leaf("x", a)]), Leaf("x", b)])| == 2
  {
    var f := [Branch("V", v, [Leaf("x", a)]), Leaf("x", b)];
    var kids := [Leaf("x", a)];
    assert f[1..] == [Leaf("x", b)] && f[1..][1..] == [] && kids[1..] == [];
    var d, e := [Leaf("x", Strip(a))], [Leaf("x", Strip(b))];
    PutAt([], Leaf("x", Strip(a)));
    assert CollectNode(kids[0], []) == Ok(d);
    assert Collect(kids, []) == Collect([], d) == Ok(d);
    assert Merge([], d) == Merge(d, []) by { assert d[1..] == [] && [] + [d[0]] == d; }
    assert CollectNode(f[0], []) == Ok(d);
    PutAt(d, Leaf("x", Strip(b)));
    assert CollectNode(f[1], d) == Ok(e);
    assert Collect(f[1..], d) == Collect([], e) == Ok(e);
    assert Promoted(kids) == PromotedNode(kids[0]) + Promoted([]);
    assert Promoted(f[1..]) == PromotedNode(f[1]) + Promoted([]);
  }

  lemma PutAt(d: seq<Node>, n: Node)
    requires |d| <= 1 && (d != [] ==> d[0].name == n.name)
    ensures Put(d, n) == [n]
  {
  }

  // ----- Promotion is idempotent -----

  /** A physical level: names once each, no virtual node, no marker, no empty "children". */
  ghost predicate Tidy(f: seq<Node>)
    decreases f
  {
    Distinct(Tops(f)) && forall i :: 0 <= i < |f| ==> TidyNode(f[i])
  }

  ghost predicate TidyNode(n: Node)
    decreases n
  {
    !IsVirtual(n.attrs) && n.attrs.virtual.None? && (n.Branch? ==> n.kids != [] && Tidy(n.kids))
  }

  lemma {:induction false} CollectTidies(f: seq<Node>, d: seq<Node>)
    requires Tidy(d) && Collect(f, d).Ok?
    ensures Tidy(Collect(f, d).value)
    decreases f, 0
  {
    if f == [] {
    } else {
      CollectNodeTidies(f[0], d);
      CollectTidies(f[1..], CollectNode(f[0], d).value);
    }
  }

  lemma {:induction false} CollectNodeTidies(n: Node, d: seq<Node>)
    requires Tidy(d) && CollectNode(n, d).Ok?
    ensures Tidy(CollectNode(n, d).value)
    decreases n, 0
  {
    var below := if n.Leaf? then [] else Physical(n.kids).value;
    if n.Branch? { CollectTidies(n.kids, []); }
    if !IsVirtual(n.attrs) {
      PutOnce(d, Hang(n.name, n.attrs, below));
    } else if n.Branch? {
      MergedOnce(d, below);
    }
  }

  lemma {:induction false} TidyIsFixed(f: seq<Node>)
    requires forall i :: 0 <= i < |f| ==> TidyNode(f[i])
    ensures Promoted(f) == f && KidsApart(f)
    decreases f, 0
  {
    if f == [] {
    } else {
      TidyNodeIsFixed(f[0]);
      TidyIsFixed(f[1..]);
      assert f == [f[0]] + f[1..];
    }
  }

  lemma {:induction false} TidyNodeIsFixed(n: Node)
    requires TidyNode(n)
    ensures PromotedNode(n) == [n] && NodeApart(n)
    decreases n, 1
  {
    if n.Branch? {
      assert Tidy(n.kids);
      TidyIsFixed(n.kids);
    }
  }

  /** Whenever promotion succeeds, even with lost nodes, promoting its result gives it back. */
  lemma PromotionIsIdempotent(f: seq<Node>)
    requires Physical(f).Ok?
    ensures Physical(Physical(f).value) == Physical(f)
  {
    var r := Physical(f).value;
    CollectTidies(f, []);
    TidyIsFixed(r);
    PromotionExactIff(r);
  }

  // ----- The logical-to-physical map -----

  function MapForest(f: seq<Node>, near: Option<string>,
                     m: map<string, Option<string>>): (r: map<string, Option<string>>)
    decreases f
  {
    if f == [] then m else MapForest(f[1..], near, MapNode(f[0], near, m))
  }

  function MapNode(n: Node, near: Option<string>, m: map<string, Option<string>>): (r: map<string, Option<string>>)
    decreases n
  {
    var image := if IsVirtual(n.attrs) then near else Some(n.name);
    var m' := m[n.name := image];
    if n.Leaf? then m' else MapForest(n.kids, image, m')
  }

  function VirtualNames(f: seq<Node>): (r: seq<string>)
    decreases f
  {
    if f == [] then [] else NodeVirtualNames(f[0]) + VirtualNames(f[1..])
  }

  function NodeVirtualNames(n: Node): (r: seq<string>)
    decreases n
  {
    (if IsVirtual(n.attrs) then [n.name] else []) + if n.Leaf? then [] else VirtualNames(n.kids)
  }

  /** The nested function that fills the shared dictionary and list. */
  class NodeMapBuilder {
    var mapping: map<string, Option<string>>
    var virtualNodes: seq<string>

    constructor ()
      ensures mapping == map[] && virtualNodes == []
    {
      mapping, virtualNodes := map[], [];
    }

    method Recurse(level: seq<Node>, nearest: Option<string>)
      modifies this
      ensures mapping == MapForest(level, nearest, old(mapping))
      ensures virtualNodes == old(virtualNodes) + VirtualNames(level)
      decreases level
    {
      var i := 0;
      while i < |level|
        invariant i <= |level|
        invariant MapForest(level[i..], nearest, mapping) == MapForest(level, nearest, old(mapping))
        invariant virtualNodes + VirtualNames(level[i..]) == old(virtualNodes) + VirtualNames(level)
      {
        assert level[i..][0] == level[i] && level[i..][1..] == level[i + 1..];
        ghost var had := virtualNodes;
        Visit(level[i], nearest);
        Regroup(had, NodeVirtualNames(level[i]), VirtualNames(level[i + 1..]));
        i := i + 1;
      }
    }

    /** The body of the loop for one node. */
    method Visit(n: Node, nearest: Option<string>)
      modifies this
      ensures mapping == MapNode(n, nearest, old(mapping))
      ensures virtualNodes == old(virtualNodes) + NodeVirtualNames(n)
      decreases n
    {
      var image := if IsVirtual(n.attrs) then nearest else Some(n.name);
      mapping := mapping[n.name := image];
      if IsVirtual(n.attrs) {
        virtualNodes := virtualNodes + [n.name];
      }
      if n.Branch? {
        Recurse(n.kids, image);
      }
    }
  }

  /** Nearest real entry of a path, itself included. */
  function NearestReal(p: Path): (r: Option<string>) {
    if p == [] then None
    else if IsVirtual(Last(p).attrs) then NearestReal(p[..|p| - 1])
    else Some(Last(p).name)
  }

  ghost predicate MapsRows(m: map<string, Option<string>>, rows: seq<Path>) {
    forall i :: 0 <= i < |rows| ==>
      rows[i] != [] && Last(rows[i]).name in m && m[Last(rows[i]).name] == NearestReal(rows[i])
  }

  lemma {:induction false} MapForestFrame(f: seq<Node>, near: Option<string>, m: map<string, Option<string>>)
    ensures forall x :: x in m && x !in Names(f) ==> x in MapForest(f, near, m) && MapForest(f, near, m)[x] == m[x]
    ensures forall x :: x in MapForest(f, near, m) ==> x in m || x in Names(f)
    decreases f
  {
    if f == [] {
    } else {
      MapNodeFrame(f[0], near, m);
      MapForestFrame(f[1..], near, MapNode(f[0], near, m));
    }
  }

  lemma {:induction false} MapNodeFrame(n: Node, near: Option<string>, m: map<string, Option<string>>)
    ensures forall x :: x in m && x !in NodeNames(n) ==> x in MapNode(n, near, m) && MapNode(n, near, m)[x] == m[x]
    ensures forall x :: x in MapNode(n, near, m) ==> x in m || x in NodeNames(n)
    decreases n
  {
    if n.Branch? {
      var image := if IsVirtual(n.attrs) then near else Some(n.name);
      MapForestFrame(n.kids, image, m[n.name := image]);
    }
  }

  lemma {:induction false} RowNames(f: seq<Node>, prefix: Path)
    ensures forall i :: 0 <= i < |Rows(f, prefix)| ==>
      Rows(f, prefix)[i] != [] && Last(Rows(f, prefix)[i]).name in Names(f)
    decreases f
  {
    if f == [] {
    } else {
      NodeRowNames(f[0], prefix);
      RowNames(f[1..], prefix);
    }
  }

  lemma {:induction false} NodeRowNames(n: Node, prefix: Path)
    ensures forall i :: 0 <= i < |NodeRows(n, prefix)| ==>
      NodeRows(n, prefix)[i] != [] && Last(NodeRows(n, prefix)[i]).name in NodeNames(n)
    decreases n
  {
    if n.Branch? { RowNames(n.kids, prefix + [Entry(n.name, n.attrs)]); }
  }

  /** Every node is mapped to the nearest real node on its own path. */
  lemma {:induction false} MapIsNearestReal(f: seq<Node>, prefix: Path, m: map<string, Option<string>>)
    requires UniqueNames(f)
    ensures MapsRows(MapForest(f, NearestReal(prefix), m), Rows(f, prefix))
    decreases f
  {
    if f == [] {
    } else {
      var near := NearestReal(prefix);
      var m' := MapNode(f[0], near, m);
      DistinctSplit(NodeNames(f[0]), Names(f[1..]));
      NodeMapIsNearestReal(f[0], prefix, m);
      MapIsNearestReal(f[1..], prefix, m');
      MapForestFrame(f[1..], near, m');
      NodeRowNames(f[0], prefix);
      StillMapped(m', MapForest(f[1..], near, m'), NodeRows(f[0], prefix), NodeNames(f[0]), Names(f[1..]));
    }
  }

  lemma StillMapped(m: map<string, Option<string>>, m': map<string, Option<string>>, rows: seq<Path>,
                    mine: seq<string>, others: seq<string>)
    requires MapsRows(m, rows)
    requires forall i :: 0 <= i < |rows| ==> rows[i] != [] && Last(rows[i]).name in mine
    requires forall i, j :: 0 <= i < |mine| && 0 <= j < |others| ==> mine[i] != others[j]
    requires forall x :: x in m && x !in others ==> x in m' && m'[x] == m[x]
    ensures MapsRows(m', rows)
  {
  }

  lemma {:induction false} NodeMapIsNearestReal(n: Node, prefix: Path, m: map<string, Option<string>>)
    requires Distinct(NodeNames(n))
    ensures MapsRows(MapNode(n, NearestReal(prefix), m), NodeRows(n, prefix))
    decreases n
  {
    var p := prefix + [Entry(n.name, n.attrs)];
    assert p[..|p| - 1] == prefix && Last(p) == Entry(n.name, n.attrs);
    var image := NearestReal(p);
    var m' := m[n.name := image];
    if n.Branch? {
      DistinctSplit([n.name], Names(n.kids));
      assert n.name !in Names(n.kids) by { assert [n.name][0] == n.name; }
      MapIsNearestReal(n.kids, p, m');
      MapForestFrame(n.kids, image, m');
    }
  }

  // ----- Parents and ancestors -----

  function ParentName(p: Path): (r: Option<string>) {
    if |p| < 2 then None else Some(p[|p| - 2].name)
  }

  lemma {:induction false} NearestIsLastPhysical(p: Path)
    ensures NearestReal(p) == if PhysPath(p) == [] then None else Some(Last(PhysPath(p)).name)
  {
    if p == [] {
    } else {
      NearestIsLastPhysical(p[..|p| - 1]);
    }
  }

  lemma {:induction false} PhysRowOf(rows: seq<Path>, i: nat)
    requires i < |rows| && !OnVirtual(rows[i])
    ensures PhysPath(rows[i]) in PhysRows(rows)
  {
    if i > 0 { PhysRowOf(rows[1..], i - 1); }
  }

  /** Every node's parent has a row of its own. */
  lemma {:induction false} RowsPrefixClosed(f: seq<Node>, prefix: Path, p: Path)
    requires p in Rows(f, prefix) && |p| > |prefix| + 1
    ensures p[..|p| - 1] in Rows(f, prefix)
    decreases f
  {
    if p in NodeRows(f[0], prefix) {
      NodeRowsPrefixClosed(f[0], prefix, p);
    } else {
      RowsPrefixClosed(f[1..], prefix, p);
    }
  }

  lemma {:induction false} NodeRowsPrefixClosed(n: Node, prefix: Path, p: Path)
    requires p in NodeRows(n, prefix) && |p| > |prefix| + 1
    ensures p[..|p| - 1] in NodeRows(n, prefix)
    decreases n
  {
    var q := prefix + [Entry(n.name, n.attrs)];
    assert p in Rows(n.kids, q);
    RowsExtendPrefix(n.kids, q);
    if |p| > |q| + 1 {
      RowsPrefixClosed(n.kids, q, p);
    } else {
      assert p[..|p| - 1] == q;
    }
  }

  /** The row of a real node has its physical form among the rows of the physical tree. */
  lemma RealNodeSurvives(f: seq<Node>, p: Path)
    requires p in Rows(f, []) && !OnVirtual(p)
    ensures PhysPath(p) in Rows(Promoted(f), [])
    ensures p != [] ==>
      && PhysPath(p) != [] && Last(PhysPath(p)).name == Last(p).name
      && var a, b := Last(PhysPath(p)).attrs, Last(p).attrs;
         a.virtual.None? && a.kind == b.kind && a.rates == b.rates && a.rest == b.rest
  {
    var rows := Rows(f, []);
    PromotionRows(f, []);
    var i :| 0 <= i < |rows| && rows[i] == p;
    PhysRowOf(rows, i);
    assert PhysPath([]) == [];
  }

  lemma MapOfRow(f: seq<Node>, p: Path)
    requires UniqueNames(f) && p in Rows(f, [])
    ensures p != [] && Last(p).name in MapForest(f, None, map[])
    ensures MapForest(f, None, map[])[Last(p).name] == NearestReal(p)
  {
    var rows := Rows(f, []);
    MapIsNearestReal(f, [], map[]);
    assert NearestReal([]) == None;
    var k :| 0 <= k < |rows| && rows[k] == p;
  }

  /**
   * The parent of a real node in the physical tree is the image of its logical parent under the
   * logical-to-physical map (None: top level).
   */
  lemma PhysicalParentIsMapImage(f: seq<Node>, p: Path)
    requires UniqueNames(f) && p in Rows(f, []) && !OnVirtual(p)
    ensures var m := MapForest(f, None, map[]);
            |p| >= 2 ==> p[|p| - 2].name in m && ParentName(PhysPath(p)) == m[p[|p| - 2].name]
    ensures |p| < 2 ==> ParentName(PhysPath(p)) == None
  {
    assert p != [] by { RowsExtendPrefix(f, []); }
    var up := p[..|p| - 1];
    NearestIsLastPhysical(up);
    assert PhysPath(p) == PhysPath(up) + [Entry(Last(p).name, Strip(Last(p).attrs))];
    if |p| >= 2 {
      RowsPrefixClosed(f, [], p);
      MapOfRow(f, up);
      assert Last(up) == p[|p| - 2];
    }
  }

  /** A real node of this name is on the path. */
  ghost predicate HasReal(p: Path, a: string) {
    exists j :: 0 <= j < |p| && p[j].name == a && !IsVirtual(p[j].attrs)
  }

  ghost predicate HasName(p: Path, a: string) {
    exists k :: 0 <= k < |p| && p[k].name == a
  }

  lemma HasRealSnoc(p: Path, e: Entry, a: string)
    ensures HasReal(p + [e], a) <==> HasReal(p, a) || (e.name == a && !IsVirtual(e.attrs))
  {
    var r := p + [e];
    assert r[|p|] == e;
    assert forall j :: 0 <= j < |p| ==> r[j] == p[j];
  }

  lemma HasNameSnoc(p: Path, e: Entry, a: string)
    ensures HasName(p + [e], a) <==> HasName(p, a) || e.name == a
  {
    var r := p + [e];
    assert r[|p|] == e;
    assert forall j :: 0 <= j < |p| ==> r[j] == p[j];
  }

  /** A name stands on a path physically exactly when a real node of that name does logically. */
  lemma {:induction false} AncestryUnchanged(p: Path, a: string)
    ensures HasReal(p, a) <==> HasName(PhysPath(p), a)
  {
    if p == [] {
    } else {
      var up, e := p[..|p| - 1], Last(p);
      AncestryUnchanged(up, a);
      assert p == up + [e];
      HasRealSnoc(up, e, a);
      HasNameSnoc(PhysPath(up), Entry(e.name, Strip(e.attrs)), a);
      assert PhysPath(up) + [] == PhysPath(up);
    }
  }
}
