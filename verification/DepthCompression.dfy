/**
 * Depth compression (flattenA / flattenB) and the CPU bin layer: whatever the depth of the tree,
 * the classes below an HTB root stay within the kernel's 8 levels.
 */
module DepthCompression {
  import opened Common
  import opened TopologyTree

  const HTB_MAX_DEPTH := 8

  // ----- The code: dictionaries filled in loops -----

  function WithoutKids(n: Node): (r: Node) {
    Leaf(n.name, n.attrs)
  }

  /** newDict.update(result) */
  function Update(d: seq<Node>, r: seq<Node>): (d': seq<Node>)
    decreases |r|
  {
    if r == [] then d else Update(Put(d, r[0]), r[1..])
  }

  function FlatB(f: seq<Node>, d: seq<Node>): (r: seq<Node>)
    decreases f
  {
    if f == [] then d else FlatB(f[1..], FlatBNode(f[0], d))
  }

  function FlatBNode(n: Node, d: seq<Node>): (r: seq<Node>)
    decreases n
  {
    var d' := Put(d, WithoutKids(n));
    if n.Leaf? then d' else Update(d', FlatB(n.kids, []))
  }

  function FlatA(f: seq<Node>, depth: nat, d: seq<Node>): (r: seq<Node>)
    decreases f
  {
    if f == [] then d else FlatA(f[1..], depth, Put(d, FlatANode(f[0], depth)))
  }

  function FlatANode(n: Node, depth: nat): (r: Node)
    decreases n
  {
    if n.Leaf? then n
    else Branch(n.name, n.attrs, if depth <= 8 then FlatA(n.kids, depth + 2, []) else FlatB(n.kids, []))
  }

  method FlattenB(f: seq<Node>) returns (r: seq<Node>)
    ensures r == FlatB(f, [])
    decreases f
  {
    r := [];
    var i := 0;
    while i < |f|
      invariant i <= |f|
      invariant FlatB(f[i..], r) == FlatB(f, [])
    {
      var n := f[i];
      assert f[i..][0] == n && f[i..][1..] == f[i + 1..];
      r := Put(r, WithoutKids(n));
      if n.Branch? {
        var below := FlattenB(n.kids);
        r := Update(r, below);
      }
      i := i + 1;
    }
  }

  method FlattenA(f: seq<Node>, depth: nat) returns (r: seq<Node>)
    ensures r == FlatA(f, depth, [])
    decreases f
  {
    r := [];
    var i := 0;
    while i < |f|
      invariant i <= |f|
      invariant FlatA(f[i..], depth, r) == FlatA(f, depth, [])
    {
      var n := f[i];
      assert f[i..][0] == n && f[i..][1..] == f[i + 1..];
      if n.Leaf? {
        r := Put(r, n);
      } else {
        var below := FlattenA(n.kids, depth + 2);
        if depth > 8 {
          below := FlattenB(n.kids);
        }
        r := Put(r, Branch(n.name, n.attrs, below));
      }
      i := i + 1;
    }
  }

  // ----- The meaning: no dictionary, no overwriting -----

  /** Every node of the forest, preorder, as siblings. */
  function Spread(f: seq<Node>): (r: seq<Node>)
    decreases f
  {
    if f == [] then [] else SpreadNode(f[0]) + Spread(f[1..])
  }

  function SpreadNode(n: Node): (r: seq<Node>)
    decreases n
  {
    [WithoutKids(n)] + if n.Leaf? then [] else Spread(n.kids)
  }

  function Compress(f: seq<Node>, depth: nat): (r: seq<Node>)
    decreases f
  {
    if f == [] then [] else [CompressNode(f[0], depth)] + Compress(f[1..], depth)
  }

  function CompressNode(n: Node, depth: nat): (r: Node)
    decreases n
  {
    if n.Leaf? then n
    else Branch(n.name, n.attrs, if depth <= 8 then Compress(n.kids, depth + 2) else Spread(n.kids))
  }

  // ----- With unique names the code computes the meaning -----

  lemma {:induction false} UpdateFresh(d: seq<Node>, r: seq<Node>)
    requires Distinct(Tops(r)) && !Clash(d, Tops(r))
    ensures Update(d, r) == d + r
    decreases |r|
  {
    if r == [] {
      assert d + r == d;
    } else {
      var n, rest := r[0], r[1..];
      assert Tops(r) == [n.name] + Tops(rest);
      PutStep(d, n, [n.name], Tops(rest));
      UpdateFresh(d + [n], rest);
      Regroup(d, [n], rest);
      assert [n] + rest == r;
    }
  }

  /** Spreading keeps exactly the names, in preorder. */
  lemma {:induction false} SpreadTops(f: seq<Node>)
    ensures Tops(Spread(f)) == Names(f)
    decreases f
  {
    if f == [] {
    } else {
      SpreadNodeTops(f[0]);
      SpreadTops(f[1..]);
      TopsAppend(SpreadNode(f[0]), Spread(f[1..]));
    }
  }

  lemma {:induction false} SpreadNodeTops(n: Node)
    ensures Tops(SpreadNode(n)) == NodeNames(n)
    decreases n
  {
    var kids := if n.Leaf? then [] else Spread(n.kids);
    if n.Branch? { SpreadTops(n.kids); }
    TopsAppend([WithoutKids(n)], kids);
    assert Tops([WithoutKids(n)]) == [n.name];
  }

  lemma {:induction false} FlatBIsSpread(f: seq<Node>, d: seq<Node>)
    requires UniqueNames(f) && !Clash(d, Names(f))
    ensures FlatB(f, d) == d + Spread(f)
    decreases f
  {
    if f == [] {
      assert d + Spread(f) == d;
    } else {
      var e := SpreadNode(f[0]);
      SpreadNodeTops(f[0]);
      AppendStep(d, e, Names(f[1..]));
      FlatBNodeIsSpread(f[0], d);
      FlatBIsSpread(f[1..], d + e);
      Regroup(d, e, Spread(f[1..]));
    }
  }

  lemma UpdateCons(d: seq<Node>, n: Node, r: seq<Node>)
    ensures Update(d, [n] + r) == Update(Put(d, n), r)
  {
    assert ([n] + r)[1..] == r;
  }

  lemma {:induction false} FlatBNodeIsSpread(n: Node, d: seq<Node>)
    requires Distinct(NodeNames(n)) && !Clash(d, NodeNames(n))
    ensures FlatBNode(n, d) == d + SpreadNode(n)
    decreases n
  {
    var kids := if n.Leaf? then [] else Spread(n.kids);
    if n.Branch? {
      DistinctSplit([n.name], Names(n.kids));
      FlatBIsSpread(n.kids, []);
      assert [] + kids == kids;
    }
    UpdateCons(d, WithoutKids(n), kids);
    SpreadNodeTops(n);
    UpdateFresh(d, SpreadNode(n));
  }

  lemma {:induction false} FlatAIsCompress(f: seq<Node>, depth: nat, d: seq<Node>)
    requires UniqueNames(f) && !Clash(d, Names(f))
    ensures FlatA(f, depth, d) == d + Compress(f, depth)
    decreases f
  {
    if f == [] {
      assert d + Compress(f, depth) == d;
    } else {
      var n := CompressNode(f[0], depth);
      assert n.name in NodeNames(f[0]) by { assert NodeNames(f[0])[0] == f[0].name; }
      PutStep(d, n, NodeNames(f[0]), Names(f[1..]));
      FlatANodeIsCompress(f[0], depth);
      FlatAIsCompress(f[1..], depth, d + [n]);
      Regroup(d, [n], Compress(f[1..], depth));
    }
  }

  lemma {:induction false} FlatANodeIsCompress(n: Node, depth: nat)
    requires Distinct(NodeNames(n))
    ensures FlatANode(n, depth) == CompressNode(n, depth)
    decreases n
  {
    if n.Branch? {
      DistinctSplit([n.name], Names(n.kids));
      FlatAIsCompress(n.kids, depth + 2, []);
      FlatBIsSpread(n.kids, []);
      assert [] + Compress(n.kids, depth + 2) == Compress(n.kids, depth + 2);
      assert [] + Spread(n.kids) == Spread(n.kids);
    }
  }

  // ----- What compression does to every path -----

  /** The five outermost ancestors stay; a deeper node hangs directly below them. */
  function CompressPath(p: Path): (r: Path) {
    if |p| <= 6 then p else p[..5] + [Last(p)]
  }

  /** The compressed path ends in the same node, and its parent there was one of its ancestors. */
  lemma CompressPathKeepsAncestry(p: Path)
    requires p != []
    ensures var r := CompressPath(p);
            && 0 < |r| <= 6 && Last(r) == Last(p)
            && (|p| == 1 ==> |r| == 1)
            && (|p| >= 2 ==> |r| >= 2 && exists j :: 0 <= j < |p| - 1 && p[j] == r[|r| - 2])
  {
    if |p| >= 2 {
      var r := CompressPath(p);
      assert p[|r| - 2] == r[|r| - 2];
    }
  }

  function CompressRows(rows: seq<Path>): (r: seq<Path>) {
    seq(|rows|, i requires 0 <= i < |rows| => CompressPath(rows[i]))
  }

  /** Rows of siblings hung under q. */
  function HangRows(rows: seq<Path>, q: Path): (r: seq<Path>) {
    seq(|rows|, i requires 0 <= i < |rows| => if rows[i] == [] then q else q + [Last(rows[i])])
  }

  lemma HangRowsAppend(a: seq<Path>, b: seq<Path>, q: Path)
    ensures HangRows(a + b, q) == HangRows(a, q) + HangRows(b, q)
  {
  }

  lemma {:induction false} SpreadRows(f: seq<Node>, q: Path, prefix: Path)
    ensures Rows(Spread(f), q) == HangRows(Rows(f, prefix), q)
    decreases f
  {
    if f == [] {
    } else {
      SpreadNodeRows(f[0], q, prefix);
      SpreadRows(f[1..], q, prefix);
      RowsAppend(SpreadNode(f[0]), Spread(f[1..]), q);
      HangRowsAppend(NodeRows(f[0], prefix), Rows(f[1..], prefix), q);
    }
  }

  lemma {:induction false} SpreadNodeRows(n: Node, q: Path, prefix: Path)
    ensures Rows(SpreadNode(n), q) == HangRows(NodeRows(n, prefix), q)
    decreases n
  {
    var p := prefix + [Entry(n.name, n.attrs)];
    var below := if n.Leaf? then [] else Rows(n.kids, p);
    var spread := if n.Leaf? then [] else Spread(n.kids);
    if n.Branch? { SpreadRows(n.kids, q, p); }
    assert Rows(spread, q) == HangRows(below, q);
    RowsAppend([WithoutKids(n)], spread, q);
    RowsSingle(WithoutKids(n), q);
    HangSingle(p, below, q);
  }

  lemma HangSingle(p: Path, rest: seq<Path>, q: Path)
    requires p != []
    ensures HangRows([p] + rest, q) == [q + [Last(p)]] + HangRows(rest, q)
  {
  }

  lemma CompressRowsAppend(a: seq<Path>, b: seq<Path>)
    ensures CompressRows(a + b) == CompressRows(a) + CompressRows(b)
  {
  }

  /**
   * Every node and its attributes are kept exactly once and in order; each path becomes its
   * compressed form, so the depth is at most 6 and every new parent was an ancestor.
   */
  lemma {:induction false} CompressionRows(f: seq<Node>, prefix: Path)
    requires |prefix| <= 4
    ensures Rows(Compress(f, 1 + 2 * |prefix|), prefix) == CompressRows(Rows(f, prefix))
    decreases f
  {
    if f == [] {
    } else {
      var depth := 1 + 2 * |prefix|;
      var n := CompressNode(f[0], depth);
      CompressionNodeRows(f[0], prefix);
      CompressionRows(f[1..], prefix);
      CompressRowsAppend(NodeRows(f[0], prefix), Rows(f[1..], prefix));
      RowsAppend([n], Compress(f[1..], depth), prefix);
      RowsSingle(n, prefix);
    }
  }

  lemma {:induction false} CompressionNodeRows(n: Node, prefix: Path)
    requires |prefix| <= 4
    ensures NodeRows(CompressNode(n, 1 + 2 * |prefix|), prefix) == CompressRows(NodeRows(n, prefix))
    decreases n
  {
    var p := prefix + [Entry(n.name, n.attrs)];
    if n.Branch? {
      CompressRowsAppend([p], Rows(n.kids, p));
      if |prefix| < 4 {
        CompressionRows(n.kids, p);
      } else {
        SpreadRows(n.kids, p, p);
        DeepRows(n.kids, p);
      }
    }
  }

  lemma DeepRow(p: Path, r: Path)
    requires |p| == 5 && |r| > 5 && p == r[..5]
    ensures CompressPath(r) == p + [Last(r)]
  {
    assert |r| == 6 ==> r == r[..5] + [Last(r)];
  }

  lemma DeepRows(f: seq<Node>, p: Path)
    requires |p| == 5
    ensures CompressRows(Rows(f, p)) == HangRows(Rows(f, p), p)
  {
    var rows := Rows(f, p);
    RowsExtendPrefix(f, p);
    forall i | 0 <= i < |rows| ensures CompressRows(rows)[i] == HangRows(rows, p)[i] {
      assert rows[i] in rows;
      DeepRow(p, rows[i]);
    }
  }

  /** The compressed tree, for every input tree with unique names. */
  lemma FlattenKeepsNodesAndBoundsDepth(f: seq<Node>)
    requires UniqueNames(f)
    ensures Rows(FlatA(f, 1, []), []) == CompressRows(Rows(f, []))
    ensures forall r :: r in Rows(FlatA(f, 1, []), []) ==> |r| <= 6
  {
    FlatAIsCompress(f, 1, []);
    assert [] + Compress(f, 1) == Compress(f, 1);
    CompressionRows(f, []);
    var rows := Rows(f, []);
    forall r | r in CompressRows(rows) ensures |r| <= 6 {
      var i :| 0 <= i < |rows| && CompressRows(rows)[i] == r;
    }
  }
}
