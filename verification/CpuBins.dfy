/**
 * The CPU bin layer: every top-level node of the compressed tree is moved below the class of one
 * CPU queue, and circuits become leaf classes below their nodes.
 */
module CpuBins {
  import opened Common
  import opened TopologyTree
  import opened DepthCompression

  /** The nodes among the first k that go to bin b, in order. */
  function BinKids(f: seq<Node>, at: seq<nat>, b: nat, k: nat): (r: seq<Node>)
    requires k <= |f| && k <= |at|
  {
    if k == 0 then []
    else BinKids(f, at, b, k - 1) + if at[k - 1] == b then [f[k - 1]] else []
  }

  function Binned(f: seq<Node>, at: seq<nat>, keys: seq<string>, attrs: Attr): (r: seq<Node>)
    requires |f| == |at|
    ensures |r| == |keys| && forall b :: 0 <= b < |keys| ==> r[b] == Branch(keys[b], attrs, BinKids(f, at, b, |f|))
  {
    seq(|keys|, b requires 0 <= b < |keys| => Branch(keys[b], attrs, BinKids(f, at, b, |f|)))
  }

  lemma {:induction false} BinKidsNames(f: seq<Node>, at: seq<nat>, b: nat, k: nat)
    requires k <= |f| && k <= |at|
    ensures forall n :: n in BinKids(f, at, b, k) ==> exists i :: 0 <= i < k && f[i] == n && at[i] == b
  {
    if k == 0 {
    } else {
      BinKidsNames(f, at, b, k - 1);
      forall n | n in BinKids(f, at, b, k) ensures exists i :: 0 <= i < k && f[i] == n && at[i] == b {
        if n !in BinKids(f, at, b, k - 1) { assert n == f[k - 1] && at[k - 1] == b; }
      }
    }
  }

  lemma PutIntoBin(f: seq<Node>, at: seq<nat>, b: nat, k: nat)
    requires k < |f| && k < |at| && at[k] == b && Distinct(Tops(f))
    ensures Put(BinKids(f, at, b, k), f[k]) == BinKids(f, at, b, k + 1)
  {
    var d := BinKids(f, at, b, k);
    BinKidsNames(f, at, b, k);
    forall i | 0 <= i < |d| ensures d[i].name != f[k].name {
      assert d[i] in d;
      var j :| 0 <= j < k && f[j] == d[i];
      assert Tops(f)[j] != Tops(f)[k];
    }
  }

  /** The loop that distributes the top-level nodes over the bins. */
  method BinNetwork(f: seq<Node>, at: seq<nat>, keys: seq<string>, attrs: Attr) returns (r: seq<Node>)
    requires |f| == |at| && (forall i :: 0 <= i < |at| ==> at[i] < |keys|) && Distinct(Tops(f))
    ensures r == Binned(f, at, keys, attrs)
  {
    r := seq(|keys|, b requires 0 <= b < |keys| => Branch(keys[b], attrs, []));
    for k := 0 to |f|
      invariant |r| == |keys|
      invariant forall b :: 0 <= b < |keys| ==> r[b] == Branch(keys[b], attrs, BinKids(f, at, b, k))
    {
      var t := at[k];
      PutIntoBin(f, at, t, k);
      r := r[t := Branch(keys[t], attrs, Put(r[t].kids, f[k]))];
    }
  }

  lemma {:induction false} RowsOfMember(f: seq<Node>, prefix: Path, r: Path) returns (i: nat)
    requires r in Rows(f, prefix)
    ensures i < |f| && r in NodeRows(f[i], prefix)
    decreases |f|
  {
    if r in NodeRows(f[0], prefix) {
      i := 0;
    } else {
      var j := RowsOfMember(f[1..], prefix, r);
      i := j + 1;
    }
  }

  lemma {:induction false} MemberRows(f: seq<Node>, prefix: Path, i: nat, r: Path)
    requires i < |f| && r in NodeRows(f[i], prefix)
    ensures r in Rows(f, prefix)
    decreases |f|
  {
    if i > 0 { MemberRows(f[1..], prefix, i - 1, r); }
  }

  /** Rows below another prefix are the same rows with the prefix exchanged. */
  lemma {:induction false} RowsRebase(f: seq<Node>, prefix: Path, extra: Path)
    ensures |Rows(f, extra + prefix)| == |Rows(f, prefix)|
    ensures forall i :: 0 <= i < |Rows(f, prefix)| ==> Rows(f, extra + prefix)[i] == extra + Rows(f, prefix)[i]
    decreases f
  {
    if f == [] {
    } else {
      NodeRowsRebase(f[0], prefix, extra);
      RowsRebase(f[1..], prefix, extra);
    }
  }

  lemma {:induction false} NodeRowsRebase(n: Node, prefix: Path, extra: Path)
    ensures |NodeRows(n, extra + prefix)| == |NodeRows(n, prefix)|
    ensures forall i :: 0 <= i < |NodeRows(n, prefix)| ==>
      NodeRows(n, extra + prefix)[i] == extra + NodeRows(n, prefix)[i]
    decreases n
  {
    var e := [Entry(n.name, n.attrs)];
    assert extra + prefix + e == extra + (prefix + e);
    if n.Branch? { RowsRebase(n.kids, prefix + e, extra); }
  }

  /** Path r of the binned tree is path r[1..] of top-level node j, below the bin j was given. */
  predicate FromNode(f: seq<Node>, at: seq<nat>, keys: seq<string>, attrs: Attr, r: Path, j: nat) {
    && j < |f| && j < |at| && at[j] < |keys| && r != []
    && r[0] == Entry(keys[at[j]], attrs) && r[1..] in NodeRows(f[j], [])
  }

  /** Binning loses no path and invents none: beside the bins themselves, exactly the old paths, each below its bin. */
  lemma BinnedRowIff(f: seq<Node>, at: seq<nat>, keys: seq<string>, attrs: Attr, r: Path)
    requires |f| == |at| && forall i :: 0 <= i < |at| ==> at[i] < |keys|
    ensures r in Rows(Binned(f, at, keys, attrs), []) <==>
      (exists b :: 0 <= b < |keys| && r == [Entry(keys[b], attrs)]) || (exists j :: FromNode(f, at, keys, attrs, r, j))
  {
    var g := Binned(f, at, keys, attrs);
    if r in Rows(g, []) { BinnedRow(f, at, keys, attrs, r); }
    if b :| 0 <= b < |keys| && r == [Entry(keys[b], attrs)] {
      assert [] + [Entry(keys[b], attrs)] == r;
      MemberRows(g, [], b, r);
    }
    if j :| FromNode(f, at, keys, attrs, r, j) { RowReachesBin(f, at, keys, attrs, r, j); }
  }

  lemma BinnedRow(f: seq<Node>, at: seq<nat>, keys: seq<string>, attrs: Attr, r: Path)
    requires |f| == |at|
    requires r in Rows(Binned(f, at, keys, attrs), [])
    ensures || (exists b :: 0 <= b < |keys| && r == [Entry(keys[b], attrs)])
            || (exists j :: FromNode(f, at, keys, attrs, r, j))
  {
    var g := Binned(f, at, keys, attrs);
    var b := RowsOfMember(g, [], r);
    var e := [Entry(keys[b], attrs)];
    assert [] + e == e;
    if r != e {
      var kids := g[b].kids;
      assert r in Rows(kids, e);
      var i := RowsOfMember(kids, e, r);
      BinKidsNames(f, at, b, |f|);
      assert kids[i] in kids;
      var j :| 0 <= j < |f| && f[j] == kids[i] && at[j] == b;
      UnderBin(f[j], e, r);
      assert FromNode(f, at, keys, attrs, r, j);
    }
  }

  lemma UnderBin(n: Node, e: Path, r: Path)
    requires |e| == 1
    ensures r in NodeRows(n, e) <==> r != [] && r[0] == e[0] && r[1..] in NodeRows(n, [])
  {
    assert e + [] == e;
    NodeRowsRebase(n, [], e);
    var rows, under := NodeRows(n, []), NodeRows(n, e);
    if r in under {
      var k :| 0 <= k < |under| && under[k] == r;
      assert r == e + rows[k];
      assert r[1..] == rows[k];
    }
    if r != [] && r[0] == e[0] && r[1..] in rows {
      var k :| 0 <= k < |rows| && rows[k] == r[1..];
      assert r == e + rows[k] && under[k] == r;
    }
  }

  lemma RowReachesBin(f: seq<Node>, at: seq<nat>, keys: seq<string>, attrs: Attr, r: Path, j: nat)
    requires |f| == |at| && FromNode(f, at, keys, attrs, r, j)
    ensures r in Rows(Binned(f, at, keys, attrs), [])
  {
    var g, b := Binned(f, at, keys, attrs), at[j];
    var e := [Entry(keys[b], attrs)];
    assert [] + e == e;
    UnderBin(f[j], e, r);
    var i := InBin(f, at, b, |f|, j);
    MemberRows(g[b].kids, e, i, r);
    MemberRows(g, [], b, r);
  }

  lemma {:induction false} InBin(f: seq<Node>, at: seq<nat>, b: nat, k: nat, j: nat) returns (i: nat)
    requires k <= |f| && k <= |at| && j < k && at[j] == b
    ensures i < |BinKids(f, at, b, k)| && BinKids(f, at, b, k)[i] == f[j]
  {
    if j == k - 1 {
      i := |BinKids(f, at, b, k - 1)|;
    } else {
      i := InBin(f, at, b, k - 1, j);
    }
  }

  /**
   * For every input tree with unique names, however deep: with the bin layer above and a circuit
   * class below, no chain of classes exceeds the kernel's limit.
   */
  lemma ClassChainsFitHtb(f: seq<Node>, at: seq<nat>, keys: seq<string>, attrs: Attr, r: Path)
    requires UniqueNames(f)
    requires var g := FlatA(f, 1, []); |g| == |at| && (r in Rows(g, []) || r in Rows(Binned(g, at, keys, attrs), []))
    ensures |r| + 1 <= HTB_MAX_DEPTH
  {
    var g := FlatA(f, 1, []);
    FlattenKeepsNodesAndBoundsDepth(f);
    if r in Rows(Binned(g, at, keys, attrs), []) {
      BinnedRow(g, at, keys, attrs, r);
      if j :| FromNode(g, at, keys, attrs, r, j) {
        MemberRows(g, [], j, r[1..]);
        assert r[1..] in Rows(g, []);
      }
    }
  }
}
