/**
 * The rate passes of a shaper refresh: ceilings are capped by the parent's, minimums are forced
 * strictly below ceilings, and site assignment caps once more. All three walk the tree top down
 * and rewrite each node from its own rates and its parent's new ones.
 */
module RatePasses {
  import opened Common
  import opened TopologyTree
  import opened DepthCompression

  // ----- One direction of one node -----

  function Min(a: real, b: real): (r: real) {
    if a <= b then a else b
  }

  /** Python's int(): truncation towards zero. */
  function Int(x: real): (n: int)
    ensures x >= 0.0 ==> 0 <= n && n as real <= x < n as real + 1.0
    ensures x < 0.0 ==> n <= 0 && n as real - 1.0 < x <= n as real
  {
    if x >= 0.0 then x.Floor else -((-x).Floor)
  }

  function Trunc(x: real): (r: real) {
    Int(x) as real
  }

  /** adjust(): keep the minimum strictly below the maximum. */
  function Adjust(low: real, high: real): (r: real) {
    if low >= high then
      if high >= 1.0 then high - 1.0
      else if 0.01 >= high - 0.01 then 0.01 else high - 0.01
    else low
  }

  /** inheritBandwidthMaxes at one node. */
  function Inherit(a: Rates, parent: Rates): (r: Rates) {
    var dl := Min(Trunc(a.dl), Trunc(parent.dl));
    var ul := Min(Trunc(a.ul), Trunc(parent.ul));
    Rates(dl, ul,
          Min(Min(Trunc(a.dlMin), Trunc(dl)), Trunc(parent.dlMin)),
          Min(Min(Trunc(a.ulMin), Trunc(ul)), Trunc(parent.ulMin)))
  }

  /** ensure_min_less_than_max at one node; the parent plays no part. */
  function Repair(a: Rates, parent: Rates): (r: Rates) {
    a.(dlMin := Adjust(a.dlMin, a.dl), ulMin := Adjust(a.ulMin, a.ul))
  }

  /** The rate part of apply_site_assignments at one node. */
  function Recap(a: Rates, parent: Rates): (r: Rates) {
    var dl := Min(a.dl, parent.dl);
    var ul := Min(a.ul, parent.ul);
    Rates(dl, ul, Min(Min(a.dlMin, dl), parent.dlMin), Min(Min(a.ulMin, ul), parent.ulMin))
  }

  datatype Pass = InheritPass | RepairPass | RecapPass

  function StepOf(pass: Pass, a: Rates, parent: Rates): (r: Rates) {
    match pass
    case InheritPass => Inherit(a, parent)
    case RepairPass => Repair(a, parent)
    case RecapPass => Recap(a, parent)
  }

  // ----- A pass over a tree, as a value -----

  function Apply(pass: Pass, f: seq<Node>, parent: Rates): (r: seq<Node>)
    decreases f
  {
    if f == [] then [] else [ApplyNode(pass, f[0], parent)] + Apply(pass, f[1..], parent)
  }

  function ApplyNode(pass: Pass, n: Node, parent: Rates): (r: Node)
    decreases n
  {
    var a := n.attrs.(rates := StepOf(pass, n.attrs.rates, parent));
    if n.Leaf? then Leaf(n.name, a) else Branch(n.name, a, Apply(pass, n.kids, a.rates))
  }

  // ----- The pass as the code runs it: rates rewritten in place -----

  /** The tree with the rates that a table of current values gives each node. */
  function Decorate(f: seq<Node>, rates: map<string, Rates>): (r: seq<Node>)
    decreases f
  {
    if f == [] then [] else [DecorateNode(f[0], rates)] + Decorate(f[1..], rates)
  }

  function DecorateNode(n: Node, rates: map<string, Rates>): (r: Node)
    decreases n
  {
    var a := if n.name in rates then n.attrs.(rates := rates[n.name]) else n.attrs;
    if n.Leaf? then Leaf(n.name, a) else Branch(n.name, a, Decorate(n.kids, rates))
  }

  ghost predicate Covers(rates: map<string, Rates>, names: seq<string>) {
    forall x :: x in names ==> x in rates
  }

  function TableAfter(pass: Pass, f: seq<Node>, parent: Rates, rates: map<string, Rates>): (r: map<string, Rates>)
    requires Covers(rates, Names(f))
    ensures r.Keys == rates.Keys
    ensures forall x :: x in rates && x !in Names(f) ==> r[x] == rates[x]
    decreases f
  {
    if f == [] then rates
    else
      assert Covers(rates, NodeNames(f[0])) && Covers(rates, Names(f[1..]));
      TableAfter(pass, f[1..], parent, TableAfterNode(pass, f[0], parent, rates))
  }

  function TableAfterNode(pass: Pass, n: Node, parent: Rates, rates: map<string, Rates>): (r: map<string, Rates>)
    requires Covers(rates, NodeNames(n))
    ensures r.Keys == rates.Keys
    ensures forall x :: x in rates && x !in NodeNames(n) ==> r[x] == rates[x]
    decreases n
  {
    assert n.name in NodeNames(n);
    var mine := StepOf(pass, rates[n.name], parent);
    var t := rates[n.name := mine];
    if n.Leaf? then t else TableAfter(pass, n.kids, mine, t)
  }

  /** The nested dictionaries of the tree; node names are globally unique keys. */
  class RateTable {
    var rates: map<string, Rates>

    constructor (initial: map<string, Rates>)
      ensures rates == initial
    {
      rates := initial;
    }

    method Run(pass: Pass, level: seq<Node>, parent: Rates)
      requires Covers(rates, Names(level))
      modifies this
      ensures rates == TableAfter(pass, level, parent, old(rates))
      decreases level
    {
      var i := 0;
      while i < |level|
        invariant i <= |level|
        invariant Covers(rates, Names(level[i..]))
        invariant TableAfter(pass, level[i..], parent, rates) == TableAfter(pass, level, parent, old(rates))
      {
        assert level[i..][0] == level[i] && level[i..][1..] == level[i + 1..];
        assert Names(level[i..]) == NodeNames(level[i]) + Names(level[i + 1..]);
        Visit(pass, level[i], parent);
        i := i + 1;
      }
    }

    /** One node: rewrite its rates, then recurse with the new ones as the parent's. */
    method Visit(pass: Pass, n: Node, parent: Rates)
      requires Covers(rates, NodeNames(n))
      modifies this
      ensures rates == TableAfterNode(pass, n, parent, old(rates))
      decreases n
    {
      assert n.name in NodeNames(n);
      var mine := StepOf(pass, rates[n.name], parent);
      rates := rates[n.name := mine];
      if n.Branch? {
        Run(pass, n.kids, mine);
      }
    }
  }

  lemma {:induction false} DecorateFrame(f: seq<Node>, s: map<string, Rates>, t: map<string, Rates>)
    requires forall x :: x in Names(f) ==> x in s && x in t && s[x] == t[x]
    ensures Decorate(f, s) == Decorate(f, t)
    decreases f
  {
    if f == [] {
    } else {
      assert Names(f) == NodeNames(f[0]) + Names(f[1..]);
      DecorateNodeFrame(f[0], s, t);
      DecorateFrame(f[1..], s, t);
    }
  }

  lemma {:induction false} DecorateNodeFrame(n: Node, s: map<string, Rates>, t: map<string, Rates>)
    requires forall x :: x in NodeNames(n) ==> x in s && x in t && s[x] == t[x]
    ensures DecorateNode(n, s) == DecorateNode(n, t)
    decreases n
  {
    assert n.name in NodeNames(n);
    if n.Branch? { DecorateFrame(n.kids, s, t); }
  }

  /** In place and by value agree: the rewritten table describes the rewritten tree. */
  lemma {:induction false} InPlaceIsApply(pass: Pass, f: seq<Node>, parent: Rates, rates: map<string, Rates>)
    requires UniqueNames(f) && Covers(rates, Names(f))
    ensures Decorate(f, TableAfter(pass, f, parent, rates)) == Apply(pass, Decorate(f, rates), parent)
    decreases f
  {
    if f == [] {
    } else {
      var n, rest := f[0], f[1..];
      assert Covers(rates, NodeNames(n)) && Covers(rates, Names(rest));
      DistinctSplit(NodeNames(n), Names(rest));
      NamesApart(NodeNames(n), Names(rest));
      var t := TableAfterNode(pass, n, parent, rates);
      NodeInPlaceIsApply(pass, n, parent, rates);
      InPlaceIsApply(pass, rest, parent, t);
      DecorateNodeFrame(n, t, TableAfter(pass, rest, parent, t));
      DecorateFrame(rest, rates, t);
      assert Decorate(f, rates)[1..] == Decorate(rest, rates);
    }
  }

  lemma NamesApart(a: seq<string>, b: seq<string>)
    requires forall i, j :: 0 <= i < |a| && 0 <= j < |b| ==> a[i] != b[j]
    ensures forall x :: x in a ==> x !in b
    ensures forall x :: x in b ==> x !in a
  {
  }

  lemma {:induction false} NodeInPlaceIsApply(pass: Pass, n: Node, parent: Rates, rates: map<string, Rates>)
    requires Distinct(NodeNames(n)) && Covers(rates, NodeNames(n))
    ensures DecorateNode(n, TableAfterNode(pass, n, parent, rates)) == ApplyNode(pass, DecorateNode(n, rates), parent)
    decreases n
  {
    assert n.name in NodeNames(n);
    if n.Branch? {
      var mine := StepOf(pass, rates[n.name], parent);
      var t := rates[n.name := mine];
      DistinctSplit([n.name], Names(n.kids));
      NamesApart([n.name], Names(n.kids));
      InPlaceIsApply(pass, n.kids, mine, t);
      DecorateFrame(n.kids, rates, t);
    }
  }

  // ----- What a pass does to every path -----

  /** A pass along one root-to-node path: a prefix scan. */
  function Scan(pass: Pass, p: Path, top: Rates): (r: Path)
    ensures |r| == |p|
  {
    if p == [] then []
    else
      var up := Scan(pass, p[..|p| - 1], top);
      var e := Last(p);
      up + [Entry(e.name, e.attrs.(rates := StepOf(pass, e.attrs.rates, RatesAbove(up, top))))]
  }

  function RatesAbove(up: Path, top: Rates): (r: Rates) {
    if up == [] then top else Last(up).attrs.rates
  }

  function ScanRows(pass: Pass, rows: seq<Path>, top: Rates): (r: seq<Path>) {
    seq(|rows|, i requires 0 <= i < |rows| => Scan(pass, rows[i], top))
  }

  lemma ScanRowsAppend(pass: Pass, a: seq<Path>, b: seq<Path>, top: Rates)
    ensures ScanRows(pass, a + b, top) == ScanRows(pass, a, top) + ScanRows(pass, b, top)
  {
  }

  lemma ScanSnoc(pass: Pass, p: Path, e: Entry, top: Rates)
    ensures var up := Scan(pass, p, top);
            Scan(pass, p + [e], top) == up +
              [Entry(e.name, e.attrs.(rates := StepOf(pass, e.attrs.rates, RatesAbove(up, top))))]
  {
    assert (p + [e])[..|p|] == p;
  }

  lemma {:induction false} ApplyRows(pass: Pass, f: seq<Node>, prefix: Path, top: Rates)
    ensures var up := Scan(pass, prefix, top);
            Rows(Apply(pass, f, RatesAbove(up, top)), up) == ScanRows(pass, Rows(f, prefix), top)
    decreases f
  {
    if f == [] {
    } else {
      var up := Scan(pass, prefix, top);
      var parent := RatesAbove(up, top);
      ApplyNodeRows(pass, f[0], prefix, top);
      ApplyRows(pass, f[1..], prefix, top);
      ScanRowsAppend(pass, NodeRows(f[0], prefix), Rows(f[1..], prefix), top);
      RowsAppend([ApplyNode(pass, f[0], parent)], Apply(pass, f[1..], parent), up);
      RowsSingle(ApplyNode(pass, f[0], parent), up);
    }
  }

  lemma {:induction false} ApplyNodeRows(pass: Pass, n: Node, prefix: Path, top: Rates)
    ensures var up := Scan(pass, prefix, top);
            NodeRows(ApplyNode(pass, n, RatesAbove(up, top)), up) == ScanRows(pass, NodeRows(n, prefix), top)
    decreases n
  {
    var e := Entry(n.name, n.attrs);
    var p := prefix + [e];
    ScanSnoc(pass, prefix, e, top);
    var below := if n.Leaf? then [] else Rows(n.kids, p);
    if n.Branch? { ApplyRows(pass, n.kids, p, top); }
    ScanRowsAppend(pass, [p], below, top);
  }

  // ----- One direction at a time -----

  datatype Direction = Down | Up

  function Ceil(r: Rates, d: Direction): (x: real) {
    if d.Down? then r.dl else r.ul
  }

  function Low(r: Rates, d: Direction): (x: real) {
    if d.Down? then r.dlMin else r.ulMin
  }

  ghost predicate Whole(x: real) {
    x == Trunc(x)
  }

  lemma TruncIsWhole(x: real)
    ensures Whole(Trunc(x))
  {
    var n := Int(x);
    assert Int(n as real) == n;
  }

  /** Two whole rates, one below the other, are at least 1 Mbps apart. */
  lemma WholeGap(x: real, y: real)
    requires Whole(x) && Whole(y) && x < y
    ensures x + 1.0 <= y
  {
    var m, n := Int(x), Int(y);
    assert m < n;
    assert (m + 1) as real <= n as real;
  }

  lemma InheritedRates(a: Rates, parent: Rates, d: Direction)
    ensures var r := Inherit(a, parent);
            && Ceil(r, d) == Min(Trunc(Ceil(a, d)), Trunc(Ceil(parent, d)))
            && Whole(Ceil(r, d)) && Whole(Low(r, d))
            && Low(r, d) <= Ceil(r, d) && Low(r, d) <= Trunc(Low(parent, d)) && Low(r, d) <= Trunc(Low(a, d))
            && (Low(r, d) == Trunc(Low(a, d)) || Low(r, d) == Ceil(r, d) || Low(r, d) == Trunc(Low(parent, d)))
  {
    TruncIsWhole(Ceil(a, d));
    TruncIsWhole(Ceil(parent, d));
    TruncIsWhole(Low(a, d));
    TruncIsWhole(Low(parent, d));
  }

  // ----- The ceiling of a node is the minimum along its original path -----

  /** The smallest whole ceiling among the capacity and the nodes of a path. */
  function PathCeil(p: Path, top: Rates, d: Direction): (x: real)
    ensures Whole(x) && x <= Trunc(Ceil(top, d))
    ensures forall i :: 0 <= i < |p| ==> x <= Trunc(Ceil(p[i].attrs.rates, d))
    ensures x == Trunc(Ceil(top, d)) || exists i :: 0 <= i < |p| && x == Trunc(Ceil(p[i].attrs.rates, d))
  {
    TruncIsWhole(Ceil(top, d));
    if p == [] then Trunc(Ceil(top, d))
    else
      TruncIsWhole(Ceil(Last(p).attrs.rates, d));
      Min(Trunc(Ceil(Last(p).attrs.rates, d)), PathCeil(p[..|p| - 1], top, d))
  }

  lemma {:induction false} InheritedCeiling(p: Path, top: Rates, d: Direction)
    ensures var r := RatesAbove(Scan(InheritPass, p, top), top);
            Trunc(Ceil(r, d)) == PathCeil(p, top, d) && (p != [] ==> Ceil(r, d) == PathCeil(p, top, d))
  {
    if p == [] {
    } else {
      var up := Scan(InheritPass, p[..|p| - 1], top);
      InheritedCeiling(p[..|p| - 1], top, d);
      InheritedRates(Last(p).attrs.rates, RatesAbove(up, top), d);
    }
  }

  /** The smallest whole guaranteed rate among the capacity and the nodes of a path. */
  function PathLow(p: Path, top: Rates, d: Direction): (x: real)
    ensures Whole(x) && x <= Trunc(Low(top, d))
    ensures forall i :: 0 <= i < |p| ==> x <= Trunc(Low(p[i].attrs.rates, d))
    ensures x == Trunc(Low(top, d)) || exists i :: 0 <= i < |p| && x == Trunc(Low(p[i].attrs.rates, d))
  {
    TruncIsWhole(Low(top, d));
    if p == [] then Trunc(Low(top, d))
    else
      TruncIsWhole(Low(Last(p).attrs.rates, d));
      Min(Trunc(Low(Last(p).attrs.rates, d)), PathLow(p[..|p| - 1], top, d))
  }

  /** The guaranteed rate of a node is the smallest on its path, held by the path's ceiling. */
  lemma {:induction false} InheritedMinimum(p: Path, top: Rates, d: Direction)
    ensures var r := RatesAbove(Scan(InheritPass, p, top), top);
            && (p == [] ==> Trunc(Low(r, d)) == PathLow(p, top, d))
            && (p != [] ==> Low(r, d) == Min(PathLow(p, top, d), PathCeil(p, top, d)))
  {
    if p == [] {
    } else {
      var up := p[..|p| - 1];
      InheritedMinimum(up, top, d);
      InheritedCeiling(p, top, d);
      var above := RatesAbove(Scan(InheritPass, up, top), top);
      InheritedRates(Last(p).attrs.rates, above, d);
      assert Whole(PathLow(up, top, d)) && Whole(PathCeil(up, top, d));
    }
  }

  // ----- Along a path, ceilings and minimums only fall -----

  /** A child that asks for no more than its parent, in both rates. */
  ghost predicate Below(child: Rates, parent: Rates, d: Direction) {
    Ceil(child, d) <= Ceil(parent, d) && Low(child, d) <= Low(parent, d)
  }

  ghost predicate Descends(p: Path, d: Direction) {
    forall i, j :: 0 <= i <= j < |p| ==> Below(p[j].attrs.rates, p[i].attrs.rates, d)
  }

  ghost predicate MinBelowCeiling(p: Path, d: Direction) {
    forall i :: 0 <= i < |p| ==> Low(p[i].attrs.rates, d) < Ceil(p[i].attrs.rates, d)
  }

  ghost predicate WholeRates(p: Path, d: Direction) {
    forall i :: 0 <= i < |p| ==>
      && Whole(Ceil(p[i].attrs.rates, d)) && Whole(Low(p[i].attrs.rates, d))
      && Low(p[i].attrs.rates, d) <= Ceil(p[i].attrs.rates, d)
  }

  lemma {:induction false} InheritedDescends(p: Path, top: Rates, d: Direction)
    ensures var s := Scan(InheritPass, p, top);
            && Descends(s, d) && WholeRates(s, d) && LowsWithin(s, d, Trunc(Low(top, d)))
  {
    if p == [] {
    } else {
      var up := Scan(InheritPass, p[..|p| - 1], top);
      InheritedDescends(p[..|p| - 1], top, d);
      var s := Scan(InheritPass, p, top);
      InheritedRates(Last(p).attrs.rates, RatesAbove(up, top), d);
      assert up != [] ==> Low(Last(up).attrs.rates, d) <= Trunc(Low(top, d));
      ExtendDescent(up, s, d);
      ExtendRates(up, s, d, Trunc(Low(top, d)));
    }
  }

  ghost predicate LowsWithin(p: Path, d: Direction, bound: real) {
    forall i :: 0 <= i < |p| ==> Low(p[i].attrs.rates, d) <= bound
  }

  lemma ExtendRates(up: Path, s: Path, d: Direction, bound: real)
    requires |s| == |up| + 1 && s[..|up|] == up && WholeRates(up, d) && LowsWithin(up, d, bound)
    requires var r := Last(s).attrs.rates;
      Whole(Ceil(r, d)) && Whole(Low(r, d)) && Low(r, d) <= Ceil(r, d) && Low(r, d) <= bound
    ensures WholeRates(s, d) && LowsWithin(s, d, bound)
  {
    assert forall i :: 0 <= i < |up| ==> s[i] == s[..|up|][i];
  }

  lemma ExtendDescent(up: Path, s: Path, d: Direction)
    requires |s| == |up| + 1 && s[..|up|] == up && Descends(up, d) && WholeRates(up, d)
    requires up != [] ==> Below(Last(s).attrs.rates, Last(up).attrs.rates, d)
    ensures Descends(s, d)
    ensures forall i :: 0 <= i < |up| ==> s[i] == up[i]
  {
    assert forall i :: 0 <= i < |up| ==> s[i] == s[..|up|][i];
  }

  lemma {:induction false} RepairIsPointwise(s: Path, top: Rates)
    ensures var r := Scan(RepairPass, s, top);
            forall i :: 0 <= i < |s| ==> r[i] == Entry(s[i].name, s[i].attrs.(rates := Repair(s[i].attrs.rates, top)))
  {
    if s == [] {
    } else {
      RepairIsPointwise(s[..|s| - 1], top);
    }
  }

  /** Lowering a minimum to ceiling - 1 keeps whole rates ordered. */
  lemma RepairKeepsOrder(child: Rates, parent: Rates, top: Rates, d: Direction)
    requires Below(child, parent, d) && Ceil(child, d) >= 1.0
    requires Whole(Ceil(child, d)) && Whole(Low(child, d)) && Low(child, d) <= Ceil(child, d)
    requires Whole(Ceil(parent, d)) && Whole(Low(parent, d)) && Low(parent, d) <= Ceil(parent, d)
    ensures Below(Repair(child, top), Repair(parent, top), d)
    ensures Low(Repair(child, top), d) < Ceil(Repair(child, top), d)
    ensures Low(Repair(child, top), d) <= Low(child, d)
  {
    if Low(child, d) < Ceil(parent, d) { WholeGap(Low(child, d), Ceil(parent, d)); }
  }

  lemma RepairedDescends(s: Path, top: Rates, d: Direction)
    requires Descends(s, d) && WholeRates(s, d) && (s != [] ==> Ceil(Last(s).attrs.rates, d) >= 1.0)
    ensures var r := Scan(RepairPass, s, top);
            && Descends(r, d) && MinBelowCeiling(r, d)
            && (forall i :: 0 <= i < |s| ==> Ceil(r[i].attrs.rates, d) == Ceil(s[i].attrs.rates, d))
            && (forall i :: 0 <= i < |s| ==> Low(r[i].attrs.rates, d) <= Low(s[i].attrs.rates, d))
  {
    var r := Scan(RepairPass, s, top);
    RepairIsPointwise(s, top);
    forall i, j | 0 <= i <= j < |s|
      ensures Below(r[j].attrs.rates, r[i].attrs.rates, d)
      ensures Low(r[j].attrs.rates, d) < Ceil(r[j].attrs.rates, d)
      ensures Low(r[j].attrs.rates, d) <= Low(s[j].attrs.rates, d)
    {
      assert Below(s[|s| - 1].attrs.rates, s[j].attrs.rates, d);
      assert Below(s[j].attrs.rates, s[i].attrs.rates, d);
      RepairKeepsOrder(s[j].attrs.rates, s[i].attrs.rates, top, d);
    }
  }

  // ----- The two passes together, on one path -----

  function Shaped(p: Path, top: Rates): (r: Path)
    ensures |r| == |p|
  {
    Scan(RepairPass, Scan(InheritPass, p, top), top)
  }

  /**
   * With whole ceilings of at least 1 Mbps along the path: the ceiling is the path's minimum,
   * every guaranteed rate is strictly below its ceiling, and nothing grows on the way down.
   */
  lemma ShapedRates(p: Path, top: Rates, d: Direction)
    requires PathCeil(p, top, d) >= 1.0
    ensures var r := Shaped(p, top);
            && Descends(r, d) && MinBelowCeiling(r, d)
            && (p != [] ==> Ceil(Last(r).attrs.rates, d) == PathCeil(p, top, d))
            && LowsWithin(r, d, Trunc(Low(top, d)))
  {
    var s := Scan(InheritPass, p, top);
    InheritedCeiling(p, top, d);
    InheritedDescends(p, top, d);
    RepairedDescends(s, top, d);
    LowsShrink(s, Shaped(p, top), d, Trunc(Low(top, d)));
  }

  lemma LowsShrink(s: Path, r: Path, d: Direction, bound: real)
    requires |s| == |r| && LowsWithin(s, d, bound)
    requires forall i :: 0 <= i < |s| ==> Low(r[i].attrs.rates, d) <= Low(s[i].attrs.rates, d)
    ensures LowsWithin(r, d, bound)
  {
    forall i | 0 <= i < |r| ensures Low(r[i].attrs.rates, d) <= bound {
      assert Low(s[i].attrs.rates, d) <= bound;
    }
  }

  /**
   * The repaired guaranteed rate: the smallest on the path where that is below the path's ceiling,
   * otherwise 1 Mbps below the ceiling, or 0.01 where the ceiling is below 1.
   */
  lemma ShapedMinimum(p: Path, top: Rates, d: Direction)
    requires p != []
    ensures var low, ceil := PathLow(p, top, d), PathCeil(p, top, d);
            Low(Last(Shaped(p, top)).attrs.rates, d) ==
              if low < ceil then low else if ceil >= 1.0 then ceil - 1.0 else 0.01
  {
    var s := Scan(InheritPass, p, top);
    InheritedCeiling(p, top, d);
    InheritedMinimum(p, top, d);
    RepairIsPointwise(s, top);
    var ceil := PathCeil(p, top, d);
    assert Whole(0.0) && Whole(1.0);
    if 0.0 < ceil < 1.0 { WholeGap(0.0, ceil); }
  }

  /** A minimum that is not negative stays so through the capping. */
  lemma {:induction false} InheritedNotNegative(p: Path, top: Rates, d: Direction)
    requires Low(top, d) >= 0.0 && PathCeil(p, top, d) >= 0.0
    requires forall i :: 0 <= i < |p| ==> Low(p[i].attrs.rates, d) >= 0.0
    ensures Low(RatesAbove(Scan(InheritPass, p, top), top), d) >= 0.0
  {
    if p == [] {
    } else {
      var up := p[..|p| - 1];
      InheritedCeiling(p, top, d);
      InheritedNotNegative(up, top, d);
      InheritedRates(Last(p).attrs.rates, RatesAbove(Scan(InheritPass, up, top), top), d);
    }
  }

  /**
   * When exactly the repair achieves its purpose: the guaranteed rate ends strictly below the
   * ceiling if and only if truncation left the path's ceiling at 1 Mbps or more.
   */
  lemma MinStrictlyBelowIff(p: Path, top: Rates, d: Direction)
    requires p != [] && Low(top, d) >= 0.0 && PathCeil(p, top, d) >= 0.0
    requires forall i :: 0 <= i < |p| ==> Low(p[i].attrs.rates, d) >= 0.0
    ensures var rates := Last(Shaped(p, top)).attrs.rates;
            Low(rates, d) < Ceil(rates, d) <==> PathCeil(p, top, d) >= 1.0
  {
    var s := Scan(InheritPass, p, top);
    if PathCeil(p, top, d) >= 1.0 {
      ShapedRates(p, top, d);
    } else {
      InheritedCeiling(p, top, d);
      InheritedNotNegative(p, top, d);
      RepairIsPointwise(s, top);
      assert Whole(0.0) && Whole(1.0);
      if PathCeil(p, top, d) > 0.0 { WholeGap(0.0, PathCeil(p, top, d)); }
    }
  }

  // ----- Capping once more changes nothing -----

  /** A path that falls from the capacity downwards, minimums strictly below ceilings. */
  ghost predicate Settled(p: Path, top: Rates, d: Direction) {
    && Descends(p, d) && MinBelowCeiling(p, d)
    && (p != [] ==> Below(p[0].attrs.rates, top, d))
  }

  lemma SettledPrefix(p: Path, top: Rates, d: Direction)
    requires p != [] && Settled(p, top, d)
    ensures Settled(p[..|p| - 1], top, d)
    ensures Below(Last(p).attrs.rates, RatesAbove(p[..|p| - 1], top), d)
    ensures Low(Last(p).attrs.rates, d) < Ceil(Last(p).attrs.rates, d)
  {
    var up := p[..|p| - 1];
    assert forall i :: 0 <= i < |up| ==> up[i] == p[i];
    if |p| >= 2 { assert Below(p[|p| - 1].attrs.rates, p[|p| - 2].attrs.rates, d); }
  }

  lemma {:induction false} RecapIsNoOp(p: Path, top: Rates)
    requires Settled(p, top, Down) && Settled(p, top, Up)
    ensures Scan(RecapPass, p, top) == p
  {
    if p == [] {
    } else {
      var up := p[..|p| - 1];
      SettledPrefix(p, top, Down);
      SettledPrefix(p, top, Up);
      RecapIsNoOp(up, top);
      RecapFixes(Last(p).attrs.rates, RatesAbove(up, top));
      assert p == up + [Last(p)];
    }
  }

  lemma RecapFixes(e: Rates, parent: Rates)
    requires forall d: Direction :: Below(e, parent, d)
    requires forall d: Direction :: Low(e, d) < Ceil(e, d)
    ensures Recap(e, parent) == e
  {
    assert Below(e, parent, Down) && Below(e, parent, Up);
    assert Low(e, Down) < Ceil(e, Down) && Low(e, Up) < Ceil(e, Up);
  }

  lemma CompressedStaysSettled(p: Path, top: Rates, d: Direction)
    requires Settled(p, top, d)
    ensures Settled(CompressPath(p), top, d)
  {
    var r := CompressPath(p);
    if |p| > 6 {
      assert forall i :: 0 <= i < 5 ==> r[i] == p[i];
      assert r[5] == p[|p| - 1];
    }
  }

  lemma ShapedIsSettled(p: Path, top: Rates, d: Direction)
    requires PathCeil(p, top, d) >= 1.0 && Low(top, d) >= 0.0
    ensures Settled(Shaped(p, top), top, d)
  {
    ShapedRates(p, top, d);
    if p != [] {
      var r := Shaped(p, top);
      FirstCeiling(p, top, d);
      assert Ceil(top, d) >= 0.0;
    }
  }

  lemma FirstCeiling(p: Path, top: Rates, d: Direction)
    requires p != [] && PathCeil(p, top, d) >= 1.0
    ensures Ceil(Shaped(p, top)[0].attrs.rates, d) <= Trunc(Ceil(top, d)) && Ceil(top, d) >= 0.0
  {
    var s := Scan(InheritPass, p, top);
    RepairIsPointwise(s, top);
    FirstInherited(p, top);
    InheritedRates(p[0].attrs.rates, top, d);
  }

  lemma {:induction false} FirstInherited(p: Path, top: Rates)
    requires p != []
    ensures Scan(InheritPass, p, top)[0].attrs.rates == Inherit(p[0].attrs.rates, top)
  {
    if |p| > 1 { FirstInherited(p[..|p| - 1], top); }
  }

  // ----- The whole refresh, on the whole tree -----

  /** inherit, repair, flatten: the tree that site assignment receives. */
  function Prepared(f: seq<Node>, top: Rates): (g: seq<Node>) {
    FlatA(Apply(RepairPass, Apply(InheritPass, f, top), top), 1, [])
  }

  lemma {:induction false} ApplyKeepsNames(pass: Pass, f: seq<Node>, parent: Rates)
    ensures Names(Apply(pass, f, parent)) == Names(f)
    decreases f
  {
    if f == [] {
    } else {
      ApplyNodeKeepsNames(pass, f[0], parent);
      ApplyKeepsNames(pass, f[1..], parent);
      assert Apply(pass, f, parent)[1..] == Apply(pass, f[1..], parent);
    }
  }

  lemma {:induction false} ApplyNodeKeepsNames(pass: Pass, n: Node, parent: Rates)
    ensures NodeNames(ApplyNode(pass, n, parent)) == NodeNames(n)
    decreases n
  {
    if n.Branch? { ApplyKeepsNames(pass, n.kids, StepOf(pass, n.attrs.rates, parent)); }
  }

  function PreparedRows(rows: seq<Path>, top: Rates): (r: seq<Path>) {
    seq(|rows|, i requires 0 <= i < |rows| => CompressPath(Shaped(rows[i], top)))
  }

  /** Node by node: the prepared tree is the original one with every path shaped and compressed. */
  lemma PreparedTree(f: seq<Node>, top: Rates)
    requires UniqueNames(f)
    ensures Rows(Prepared(f, top), []) == PreparedRows(Rows(f, []), top)
  {
    var f1 := Apply(InheritPass, f, top);
    var f2 := Apply(RepairPass, f1, top);
    ApplyKeepsNames(InheritPass, f, top);
    ApplyKeepsNames(RepairPass, f1, top);
    FlattenKeepsNodesAndBoundsDepth(f2);
    ApplyRows(InheritPass, f, [], top);
    ApplyRows(RepairPass, f1, [], top);
    assert Rows(f2, []) == ScanRows(RepairPass, ScanRows(InheritPass, Rows(f, []), top), top);
    assert CompressRows(Rows(f2, [])) == PreparedRows(Rows(f, []), top);
  }

  /** Every ceiling on every path, and the capacity, is at least 1 Mbps. */
  ghost predicate AtLeastOneMbps(rows: seq<Path>, top: Rates) {
    && Low(top, Down) >= 0.0 && Low(top, Up) >= 0.0
    && forall i :: 0 <= i < |rows| ==> PathCeil(rows[i], top, Down) >= 1.0 && PathCeil(rows[i], top, Up) >= 1.0
  }

  /**
   * On every edge of the prepared tree the child asks for no more than the parent, every minimum
   * is strictly below its ceiling and every ceiling is the minimum of the node's original path.
   */
  lemma PreparedRates(f: seq<Node>, top: Rates, i: nat, d: Direction)
    requires UniqueNames(f) && AtLeastOneMbps(Rows(f, []), top) && i < |Rows(f, [])|
    ensures i < |Rows(Prepared(f, top), [])|
    ensures var r := Rows(Prepared(f, top), [])[i];
            && Settled(r, top, d)
            && r != [] && Ceil(Last(r).attrs.rates, d) == PathCeil(Rows(f, [])[i], top, d)
            && var low, ceil := PathLow(Rows(f, [])[i], top, d), PathCeil(Rows(f, [])[i], top, d);
               Low(Last(r).attrs.rates, d) == if low < ceil then low else ceil - 1.0
  {
    PreparedTree(f, top);
    var p := Rows(f, [])[i];
    assert p in Rows(f, []);
    RowsExtendPrefix(f, []);
    if d.Down? { assert PathCeil(p, top, Down) >= 1.0; } else { assert PathCeil(p, top, Up) >= 1.0; }
    PreparedPath(p, top, d);
  }

  lemma PreparedPath(p: Path, top: Rates, d: Direction)
    requires p != [] && PathCeil(p, top, d) >= 1.0 && Low(top, d) >= 0.0
    ensures var r := CompressPath(Shaped(p, top));
            && Settled(r, top, d) && r != [] && Ceil(Last(r).attrs.rates, d) == PathCeil(p, top, d)
            && var low, ceil := PathLow(p, top, d), PathCeil(p, top, d);
               Low(Last(r).attrs.rates, d) == if low < ceil then low else ceil - 1.0
  {
    ShapedIsSettled(p, top, d);
    ShapedRates(p, top, d);
    ShapedMinimum(p, top, d);
    CompressedStaysSettled(Shaped(p, top), top, d);
    CompressPathKeepsAncestry(Shaped(p, top));
  }

  /** The later capping during site assignment changes no rate of an unbinned tree. */
  lemma SiteAssignmentKeepsRates(f: seq<Node>, top: Rates)
    requires UniqueNames(f) && AtLeastOneMbps(Rows(f, []), top)
    ensures Rows(Apply(RecapPass, Prepared(f, top), top), []) == Rows(Prepared(f, top), [])
  {
    var g := Prepared(f, top);
    var rows := Rows(g, []);
    ApplyRows(RecapPass, g, [], top);
    PreparedTree(f, top);
    forall i | 0 <= i < |rows| ensures Scan(RecapPass, rows[i], top) == rows[i] {
      PreparedRates(f, top, i, Down);
      PreparedRates(f, top, i, Up);
      RecapIsNoOp(rows[i], top);
    }
  }

  /** x is the least ceiling on the path and above it. */
  ghost predicate LeastCeil(x: real, p: Path, top: Rates, d: Direction) {
    && x <= Ceil(top, d) && (forall i :: 0 <= i < |p| ==> x <= Ceil(p[i].attrs.rates, d))
    && (x == Ceil(top, d) || exists i :: 0 <= i < |p| && x == Ceil(p[i].attrs.rates, d))
  }

  /** x is the least of the guaranteed rates on the path and above it, and of the given ceiling. */
  ghost predicate LeastLow(x: real, p: Path, top: Rates, d: Direction, ceil: real) {
    && x <= ceil && x <= Low(top, d) && (forall i :: 0 <= i < |p| ==> x <= Low(p[i].attrs.rates, d))
    && (x == ceil || x == Low(top, d) || exists i :: 0 <= i < |p| && x == Low(p[i].attrs.rates, d))
  }

  lemma LeastExtends(p: Path, e: Entry, top: Rates, d: Direction, ceil: real, low: real)
    requires LeastCeil(ceil, p, top, d) && (LeastLow(low, p, top, d, ceil) || (p == [] && low == Low(top, d)))
    ensures var c := Min(Ceil(e.attrs.rates, d), ceil);
      LeastCeil(c, p + [e], top, d) && LeastLow(Min(Min(Low(e.attrs.rates, d), c), low), p + [e], top, d, c)
  {
    var q, c := p + [e], Min(Ceil(e.attrs.rates, d), ceil);
    assert q[|p|] == e && forall i :: 0 <= i < |p| ==> q[i] == p[i];
    var x := Min(Min(Low(e.attrs.rates, d), c), low);
    if p != [] && x != c && x != Low(top, d) && x != Low(e.attrs.rates, d) {
      var i :| 0 <= i < |p| && x == Low(p[i].attrs.rates, d);
      assert q[i] == p[i];
    }
  }

  ghost predicate Recapped(r: Rates, p: Path, top: Rates, d: Direction) {
    LeastCeil(Ceil(r, d), p, top, d) && (LeastLow(Low(r, d), p, top, d, Ceil(r, d)) || (p == [] && r == top))
  }

  lemma RecapExtends(up: Path, e: Entry, top: Rates, d: Direction)
    requires Recapped(RatesAbove(Scan(RecapPass, up, top), top), up, top, d)
    ensures Recapped(RatesAbove(Scan(RecapPass, up + [e], top), top), up + [e], top, d)
  {
    var r := RatesAbove(Scan(RecapPass, up, top), top);
    ScanSnoc(RecapPass, up, e, top);
    assert RatesAbove(Scan(RecapPass, up + [e], top), top) == Recap(e.attrs.rates, r);
    LeastExtends(up, e, top, d, Ceil(r, d), Low(r, d));
  }

  /**
   * Whatever tree site assignment receives, binned or not: a node's ceiling becomes the least on
   * its path and the capacity, its guaranteed rate the least of those on the path and its ceiling.
   */
  lemma {:induction false} RecapBoundsCeilings(p: Path, top: Rates, d: Direction)
    ensures Recapped(RatesAbove(Scan(RecapPass, p, top), top), p, top, d)
  {
    if p == [] {
    } else {
      var up := p[..|p| - 1];
      RecapBoundsCeilings(up, top, d);
      RecapExtends(up, Last(p), top, d);
      assert up + [Last(p)] == p;
    }
  }
}
