/**
 * A network tree as the shaper keeps it: nested dictionaries, here ordered lists of named nodes.
 * A tree is described by its rows: the preorder list of root-to-node paths.
 */
module TopologyTree {
  import opened Common

  /** Rates of a node in Mbps: ceilings and guaranteed minimums, both directions. */
  datatype Rates = Rates(dl: real, ul: real, dlMin: real, ulMin: real)

  /** The fields of a node: its virtual markers, its rates, and everything else it carries. */
  datatype Attr = Attr(virtual: Option<bool>, kind: string, rates: Rates, rest: map<string, string>)

  /** A Branch has a "children" dictionary (perhaps empty), a Leaf has none. */
  datatype Node =
    | Leaf(name: string, attrs: Attr)
    | Branch(name: string, attrs: Attr, kids: seq<Node>)

  datatype Entry = Entry(name: string, attrs: Attr)

  type Path = seq<Entry>

  function Rows(f: seq<Node>, prefix: Path): (rows: seq<Path>)
    decreases f
  {
    if f == [] then [] else NodeRows(f[0], prefix) + Rows(f[1..], prefix)
  }

  function NodeRows(n: Node, prefix: Path): (rows: seq<Path>)
    decreases n
  {
    var p := prefix + [Entry(n.name, n.attrs)];
    [p] + if n.Leaf? then [] else Rows(n.kids, p)
  }

  /** All names of a forest, preorder. */
  function Names(f: seq<Node>): (names: seq<string>)
    decreases f
  {
    if f == [] then [] else NodeNames(f[0]) + Names(f[1..])
  }

  function NodeNames(n: Node): (names: seq<string>)
    decreases n
  {
    [n.name] + if n.Leaf? then [] else Names(n.kids)
  }

  /** Validation of network.json: no name occurs twice anywhere in the tree. */
  ghost predicate UniqueNames(f: seq<Node>) {
    Distinct(Names(f))
  }

  function Tops(f: seq<Node>): (names: seq<string>)
    ensures |names| == |f| && forall i :: 0 <= i < |f| ==> names[i] == f[i].name
  {
    seq(|f|, i requires 0 <= i < |f| => f[i].name)
  }

  lemma RowsAppend(f: seq<Node>, g: seq<Node>, prefix: Path)
    ensures Rows(f + g, prefix) == Rows(f, prefix) + Rows(g, prefix)
    decreases |f|
  {
    if f == [] {
      assert f + g == g;
    } else {
      assert (f + g)[1..] == f[1..] + g;
      RowsAppend(f[1..], g, prefix);
    }
  }

  lemma RowsSingle(n: Node, prefix: Path)
    ensures Rows([n], prefix) == NodeRows(n, prefix)
  {
    assert [n][1..] == [];
    assert Rows([n], prefix) == NodeRows(n, prefix) + Rows([], prefix);
  }

  /** Every row extends the prefix by at least one entry. */
  lemma {:induction false} RowsExtendPrefix(f: seq<Node>, prefix: Path)
    ensures forall r :: r in Rows(f, prefix) ==> |prefix| < |r| && prefix == r[..|prefix|]
    decreases f
  {
    if f == [] {
    } else {
      NodeRowsExtendPrefix(f[0], prefix);
      RowsExtendPrefix(f[1..], prefix);
    }
  }

  lemma {:induction false} NodeRowsExtendPrefix(n: Node, prefix: Path)
    ensures forall r :: r in NodeRows(n, prefix) ==> |prefix| < |r| && prefix == r[..|prefix|]
    decreases n
  {
    var p := prefix + [Entry(n.name, n.attrs)];
    if n.Branch? {
      RowsExtendPrefix(n.kids, p);
      forall r | r in Rows(n.kids, p) ensures prefix == r[..|prefix|] {
        assert p == r[..|p|];
        assert prefix == p[..|prefix|] == r[..|p|][..|prefix|];
      }
    }
  }

  function Last(p: Path): (e: Entry)
    requires p != []
  {
    p[|p| - 1]
  }

  // ----- Dictionaries as ordered lists -----

  /** Position of a key, or the length when it is absent. */
  function IndexOf(d: seq<Node>, name: string): (i: nat)
    ensures i <= |d|
    ensures i < |d| ==> d[i].name == name
    ensures i == |d| ==> forall j :: 0 <= j < |d| ==> d[j].name != name
  {
    if d == [] then 0
    else if d[0].name == name then 0
    else
      var i := IndexOf(d[1..], name);
      assert forall j :: 1 <= j < |d| ==> d[j] == d[1..][j - 1];
      i + 1
  }

  /** d[n.name] = n: overwrites in place or appends. */
  function Put(d: seq<Node>, n: Node): (r: seq<Node>) {
    var i := IndexOf(d, n.name);
    if i < |d| then d[i := n] else d + [n]
  }

  ghost predicate Clash(d: seq<Node>, names: seq<string>) {
    exists i, j :: 0 <= i < |d| && 0 <= j < |names| && d[i].name == names[j]
  }

  lemma PutFresh(d: seq<Node>, n: Node, names: seq<string>)
    requires !Clash(d, names) && n.name in names
    ensures Put(d, n) == d + [n]
  {
    var j :| 0 <= j < |names| && names[j] == n.name;
    assert forall i :: 0 <= i < |d| ==> d[i].name != names[j];
  }

  lemma ClashParts(d: seq<Node>, a: seq<string>, b: seq<string>)
    requires !Clash(d, a + b)
    ensures !Clash(d, a) && !Clash(d, b)
  {
    var c := a + b;
    assert forall i :: 0 <= i < |a| ==> c[i] == a[i];
    assert forall j :: 0 <= j < |b| ==> c[|a| + j] == b[j];
  }

  lemma NoNewClash(d: seq<Node>, e: seq<Node>, a: seq<string>, b: seq<string>)
    requires !Clash(d, b)
    requires forall i :: 0 <= i < |e| ==> e[i].name in a
    requires forall i, j :: 0 <= i < |a| && 0 <= j < |b| ==> a[i] != b[j]
    ensures !Clash(d + e, b)
  {
  }

  /** Storing a node named in `a` is an append, and leaves room for all of `b`. */
  lemma PutStep(d: seq<Node>, n: Node, a: seq<string>, b: seq<string>)
    requires Distinct(a + b) && !Clash(d, a + b) && n.name in a
    ensures Put(d, n) == d + [n]
    ensures Distinct(a) && Distinct(b) && !Clash(d + [n], b)
  {
    DistinctSplit(a, b);
    ClashParts(d, a, b);
    PutFresh(d, n, a);
    NoNewClash(d, [n], a, b);
  }

  lemma TopsAppend(f: seq<Node>, g: seq<Node>)
    ensures Tops(f + g) == Tops(f) + Tops(g)
  {
  }

  /** Appending a level leaves room for names apart from its own. */
  lemma AppendStep(d: seq<Node>, e: seq<Node>, b: seq<string>)
    requires Distinct(Tops(e) + b) && !Clash(d, Tops(e) + b)
    ensures Distinct(Tops(e)) && Distinct(b) && !Clash(d, Tops(e)) && !Clash(d + e, b)
  {
    DistinctSplit(Tops(e), b);
    ClashParts(d, Tops(e), b);
    forall i | 0 <= i < |e| ensures e[i].name in Tops(e) { assert Tops(e)[i] == e[i].name; }
    NoNewClash(d, e, Tops(e), b);
  }
}
