/**
 * The greedy CPU balancer: items are taken largest first and each goes to the bin with the
 * smallest (load, name). Bins are addressed by position in the list of generated parent nodes.
 */
module CpuBalancer {
  import opened Common

  datatype Item = Item(id: string, weight: real)

  // ----- Sums over the first k items -----

  /** Sum of the first k values. */
  function Prefix(f: seq<real>, k: nat): (s: real)
    requires k <= |f|
  {
    if k == 0 then 0.0 else Prefix(f, k - 1) + f[k - 1]
  }

  /** Sum of those of the first k values whose item sits in bin b. */
  function BinSum(f: seq<real>, at: seq<nat>, b: nat, k: nat): (s: real)
    requires k <= |f| && k <= |at|
  {
    if k == 0 then 0.0
    else BinSum(f, at, b, k - 1) + (if at[k - 1] == b then f[k - 1] else 0.0)
  }

  /** Sum of BinSum over bins 0..m-1. */
  function AllBins(f: seq<real>, at: seq<nat>, m: nat, k: nat): (s: real)
    requires k <= |f| && k <= |at|
  {
    if m == 0 then 0.0 else AllBins(f, at, m - 1, k) + BinSum(f, at, m - 1, k)
  }

  ghost predicate InBins(at: seq<nat>, m: nat) {
    forall i :: 0 <= i < |at| ==> at[i] < m
  }

  lemma {:induction false} AllBinsStep(f: seq<real>, at: seq<nat>, m: nat, k: nat)
    requires k < |f| && k < |at|
    ensures AllBins(f, at, m, k + 1) == AllBins(f, at, m, k) + (if at[k] < m then f[k] else 0.0)
  {
    if m == 0 {
    } else {
      AllBinsStep(f, at, m - 1, k);
    }
  }

  lemma {:induction false} AllBinsEmpty(f: seq<real>, at: seq<nat>, m: nat)
    ensures AllBins(f, at, m, 0) == 0.0
  {
    if m == 0 {
    } else {
      AllBinsEmpty(f, at, m - 1);
    }
  }

  /** Nothing is lost and nothing is counted twice: the bins together hold every item. */
  lemma {:induction false} BinsConserveWeight(f: seq<real>, at: seq<nat>, m: nat, k: nat)
    requires k <= |f| && k <= |at| && InBins(at, m)
    ensures AllBins(f, at, m, k) == Prefix(f, k)
  {
    if k == 0 {
      AllBinsEmpty(f, at, m);
    } else {
      BinsConserveWeight(f, at, m, k - 1);
      AllBinsStep(f, at, m, k - 1);
    }
  }

  lemma {:induction false} BinSumDependsOnPrefix(f: seq<real>, at: seq<nat>, f': seq<real>, at': seq<nat>, b: nat,
                                                 k: nat)
    requires k <= |f| && k <= |at| && k <= |f'| && k <= |at'|
    requires forall i :: 0 <= i < k ==> f[i] == f'[i] && at[i] == at'[i]
    ensures BinSum(f, at, b, k) == BinSum(f', at', b, k)
  {
    if k == 0 {
    } else {
      BinSumDependsOnPrefix(f, at, f', at', b, k - 1);
    }
  }

  lemma {:induction false} BinSumMonotone(f: seq<real>, at: seq<nat>, b: nat, j: nat, k: nat)
    requires j <= k <= |f| && k <= |at|
    requires forall i :: 0 <= i < |f| ==> f[i] >= 0.0
    ensures 0.0 <= BinSum(f, at, b, j) <= BinSum(f, at, b, k)
  {
    if k == 0 {
    } else {
      if j == k { BinSumMonotone(f, at, b, j - 1, k - 1); } else { BinSumMonotone(f, at, b, j, k - 1); }
    }
  }

  /** If every one of the m bins holds at most c, together they hold at most m * c. */
  lemma {:induction false} AllBinsAtMost(f: seq<real>, at: seq<nat>, m: nat, k: nat, c: real)
    requires k <= |f| && k <= |at|
    requires forall b: nat :: b < m ==> BinSum(f, at, b, k) <= c
    ensures AllBins(f, at, m, k) <= (m as real) * c
  {
    if m == 0 {
    } else {
      AllBinsAtMost(f, at, m - 1, k, c);
      TimesSucc(m, c);
    }
  }

  /** If every one of the m bins holds at least c, together they hold at least m * c. */
  lemma {:induction false} AllBinsAtLeast(f: seq<real>, at: seq<nat>, m: nat, k: nat, c: real)
    requires k <= |f| && k <= |at|
    requires forall b: nat :: b < m ==> c <= BinSum(f, at, b, k)
    ensures (m as real) * c <= AllBins(f, at, m, k)
  {
    if m == 0 {
    } else {
      AllBinsAtLeast(f, at, m - 1, k, c);
      TimesSucc(m, c);
    }
  }

  // ----- Greedy placements -----

  /** Load of bin b after the first k items, on top of what it held before. */
  function Load(initial: seq<real>, w: seq<real>, at: seq<nat>, b: nat, k: nat): (s: real)
    requires b < |initial| && k <= |w| && k <= |at|
  {
    initial[b] + BinSum(w, at, b, k)
  }

  /** Bin a is a least loaded one once the first k items are placed. */
  ghost predicate LeastLoaded(initial: seq<real>, w: seq<real>, at: seq<nat>, a: nat, k: nat)
    requires k <= |w| && k <= |at|
  {
    a < |initial| &&
    forall b: nat :: b < |initial| ==> Load(initial, w, at, a, k) <= Load(initial, w, at, b, k)
  }

  /** Every item went to a bin that was least loaded at that moment. */
  ghost predicate IsGreedy(initial: seq<real>, w: seq<real>, at: seq<nat>) {
    && |at| == |w|
    && InBins(at, |initial|)
    && forall k: nat :: k < |w| ==> LeastLoaded(initial, w, at, at[k], k)
  }

  ghost predicate NonNegative(w: seq<real>) {
    forall i :: 0 <= i < |w| ==> w[i] >= 0.0
  }

  ghost predicate Descending(w: seq<real>) {
    forall i, j :: 0 <= i <= j < |w| ==> w[i] >= w[j]
  }

  /**
   * Two loads never differ by more than the initial gap or the largest placed weight. This holds
   * in whatever order the items come.
   */
  lemma {:induction false} GreedyGap(initial: seq<real>, w: seq<real>, at: seq<nat>, gap: real, k: nat, a: nat, b: nat)
    requires IsGreedy(initial, w, at) && NonNegative(w)
    requires forall i :: 0 <= i < |w| ==> w[i] <= gap
    requires forall p, q :: 0 <= p < |initial| && 0 <= q < |initial| ==> initial[p] - initial[q] <= gap
    requires k <= |w| && a < |initial| && b < |initial|
    ensures Load(initial, w, at, a, k) - Load(initial, w, at, b, k) <= gap
  {
    if k == 0 {
    } else {
      GreedyGap(initial, w, at, gap, k - 1, a, b);
      assert w[k - 1] >= 0.0;
      assert LeastLoaded(initial, w, at, at[k - 1], k - 1);
    }
  }

  function Zeros(m: nat): (z: seq<real>)
    ensures |z| == m && forall b :: 0 <= b < m ==> z[b] == 0.0
  {
    seq(m, _ => 0.0)
  }

  lemma TimesSucc(m: nat, c: real)
    requires m > 0
    ensures (m as real) * c == ((m - 1) as real) * c + c
  {
    assert m as real == (m - 1) as real + 1.0;
  }

  lemma {:induction false} OthersAreClose(w: seq<real>, at: seq<nat>, m: nat, k: nat, a: nat, low: real, gap: real)
    requires k <= |w| && k <= |at| && gap >= 0.0
    requires a < m ==> BinSum(w, at, a, k) == low + gap
    requires forall b: nat :: b < m ==> low <= BinSum(w, at, b, k)
    ensures AllBins(w, at, m, k) >= (m as real) * low + (if a < m then gap else 0.0)
  {
    if m == 0 {
    } else {
      TimesSucc(m, low);
      OthersAreClose(w, at, m - 1, k, a, low, gap);
      assert low <= BinSum(w, at, m - 1, k);
    }
  }

  /** Graham's list-scheduling bound: load <= total/m + (1 - 1/m) * largest, multiplied out by m. */
  lemma {:induction false} GrahamBound(w: seq<real>, at: seq<nat>, m: nat, largest: real, a: nat)
    requires a < m && IsGreedy(Zeros(m), w, at) && NonNegative(w) && largest >= 0.0
    requires forall i :: 0 <= i < |w| ==> w[i] <= largest
    ensures (m as real) * BinSum(w, at, a, |w|) <= Prefix(w, |w|) + ((m - 1) as real) * largest
  {
    var x := BinSum(w, at, a, |w|);
    forall b: nat | b < m ensures x - largest <= BinSum(w, at, b, |w|) {
      GreedyGap(Zeros(m), w, at, largest, |w|, a, b);
    }
    OthersAreClose(w, at, m, |w|, a, x - largest, largest);
    BinsConserveWeight(w, at, m, |w|);
    TimesSucc(m, largest);
    assert (m as real) * (x - largest) == (m as real) * x - (m as real) * largest;
  }

  // ----- The 4/3 - 1/(3m) bound against every other placement -----

  /** Largest-first order: weights of one or two "slots" used in the counting argument. */
  function Slots(w: seq<real>, c: real, last: real): (s: seq<real>)
    ensures |s| == |w|
    ensures forall i :: 0 <= i < |w| ==> s[i] == if w[i] > c - last then 2.0 else 1.0
  {
    seq(|w|, i requires 0 <= i < |w| => if w[i] > c - last then 2.0 else 1.0)
  }

  /** In a bin, more than 2 slots of items no smaller than `last` > c/3 weigh more than c. */
  lemma {:induction false} ManySlotsOverflow(w: seq<real>, at: seq<nat>, b: nat, k: nat, c: real, last: real)
    requires k <= |w| && k <= |at| && last > 0.0 && 3.0 * last > c
    requires forall i :: 0 <= i < k ==> w[i] >= last
    ensures BinSum(w, at, b, k) >= 0.0
    ensures var f := BinSum(Slots(w, c, last), at, b, k);
            && (f > 0.0 ==> BinSum(w, at, b, k) >= last)
            && (f > 1.0 ==> BinSum(w, at, b, k) > c - last)
            && (f > 2.0 ==> BinSum(w, at, b, k) > c)
  {
    if k == 0 {
    } else {
      ManySlotsOverflow(w, at, b, k - 1, c, last);
    }
  }

  /** In a bin, fewer than 2 slots leave room for one more item of weight `last`. */
  lemma {:induction false} FewSlotsFit(w: seq<real>, at: seq<nat>, b: nat, k: nat, c: real, last: real)
    requires k <= |w| && k <= |at| && last <= c
    ensures var f := BinSum(Slots(w, c, last), at, b, k);
            && f >= 0.0
            && (f < 1.0 ==> BinSum(w, at, b, k) == 0.0)
            && (f < 2.0 ==> BinSum(w, at, b, k) <= c - last)
  {
    if k == 0 {
    } else {
      FewSlotsFit(w, at, b, k - 1, c, last);
    }
  }

  ghost predicate Placement(w: seq<real>, at: seq<nat>, m: nat, c: real) {
    && |at| == |w| && InBins(at, m)
    && forall b: nat :: b < m ==> BinSum(w, at, b, |w|) <= c
  }

  lemma {:induction false} ItemFitsItsBin(w: seq<real>, at: seq<nat>, m: nat, c: real, k: nat)
    requires Placement(w, at, m, c) && NonNegative(w) && k < |w|
    ensures w[k] <= c
  {
    BinSumMonotone(w, at, at[k], k, k);
    BinSumMonotone(w, at, at[k], k + 1, |w|);
  }

  /**
   * If item k is heavier than a third of what some placement achieves, some bin still has room
   * for it: otherwise greedy's first k items would use 2m slots and the other placement's first
   * k + 1 items at most 2m.
   */
  lemma {:induction false} LargeItemFinds(w: seq<real>, at: seq<nat>, other: seq<nat>, m: nat, c: real,
                                          k: nat) returns (b: nat)
    requires |at| == |w| && InBins(at, m) && Descending(w) && NonNegative(w)
    requires Placement(w, other, m, c)
    requires k < |w| && 3.0 * w[k] > c
    ensures b < m && BinSum(w, at, b, k) <= c - w[k]
  {
    var last := w[k];
    var f := Slots(w, c, last);
    ItemFitsItsBin(w, other, m, c, k);
    if b': nat :| b' < m && BinSum(w, at, b', k) <= c - last {
      b := b';
    } else {
      forall b: nat | b < m ensures 2.0 <= BinSum(f, at, b, k) {
        FewSlotsFit(w, at, b, k, c, last);
      }
      var n := k + 1;
      forall b: nat | b < m ensures BinSum(f, other, b, n) <= 2.0 {
        ManySlotsOverflow(w, other, b, n, c, last);
        BinSumMonotone(w, other, b, n, |w|);
      }
      AllBinsAtLeast(f, at, m, k, 2.0);
      AllBinsAtMost(f, other, m, n, 2.0);
      BinsConserveWeight(f, at, m, k);
      BinsConserveWeight(f, other, m, n);
      assert false;
    }
  }

  lemma {:induction false} PrefixMonotone(w: seq<real>, j: nat, k: nat)
    requires j <= k <= |w| && NonNegative(w)
    ensures Prefix(w, j) <= Prefix(w, k)
  {
    if j < k { PrefixMonotone(w, j, k - 1); }
  }

  lemma {:induction false} LeastLoadBelowAverage(w: seq<real>, at: seq<nat>, m: nat, k: nat)
    requires IsGreedy(Zeros(m), w, at) && k < |w|
    ensures (m as real) * BinSum(w, at, at[k], k) <= Prefix(w, k)
  {
    assert LeastLoaded(Zeros(m), w, at, at[k], k);
    forall b: nat | b < m ensures BinSum(w, at, at[k], k) <= BinSum(w, at, b, k) {
      assert Load(Zeros(m), w, at, at[k], k) <= Load(Zeros(m), w, at, b, k);
    }
    AllBinsAtLeast(w, at, m, k, BinSum(w, at, at[k], k));
    BinsConserveWeight(w, at, m, k);
  }

  lemma {:induction false} PlacementCoversItems(w: seq<real>, other: seq<nat>, m: nat, c: real, k: nat)
    requires NonNegative(w) && Placement(w, other, m, c) && k < |w|
    ensures Prefix(w, k) + w[k] <= (m as real) * c
  {
    AllBinsAtMost(w, other, m, |w|, c);
    BinsConserveWeight(w, other, m, |w|);
    PrefixMonotone(w, k + 1, |w|);
  }

  /** load <= (4/3 - 1/(3m)) * c, multiplied out by 3m. */
  ghost predicate WithinRatio(load: real, c: real, m: nat) {
    3.0 * ((m as real) * load) <= (4.0 * (m as real) - 1.0) * c
  }

  lemma PlacedLoadBound(l: real, x: real, c: real, m: nat)
    requires m >= 1 && (m as real) * l + x <= (m as real) * c && 3.0 * x <= c
    ensures WithinRatio(l + x, c, m)
  {
    var n := m as real;
    assert n * (l + x) == n * l + n * x;
    assert 3.0 * (n * (l + x)) <= 3.0 * (n * c) + 3.0 * ((n - 1.0) * x);
    assert 3.0 * ((n - 1.0) * x) == (n - 1.0) * (3.0 * x);
    assert (n - 1.0) * (3.0 * x) <= (n - 1.0) * c;
    assert (4.0 * n - 1.0) * c == 3.0 * (n * c) + (n - 1.0) * c;
  }

  lemma SmallLoadBound(l: real, c: real, m: nat)
    requires m >= 1 && l <= c && c >= 0.0
    ensures WithinRatio(l, c, m)
  {
    var n := m as real;
    assert n * l <= n * c;
    assert (4.0 * n - 1.0) * c == 3.0 * (n * c) + (n - 1.0) * c;
    assert (n - 1.0) * c >= 0.0;
  }

  /**
   * Largest-first greedy is never worse than 4/3 - 1/(3m) times any other placement of the same
   * items on the same m bins (multiplied out by 3m).
   */
  lemma {:induction false} LargestFirstRatio(w: seq<real>, at: seq<nat>, other: seq<nat>, m: nat, c: real, k: nat,
                                             a: nat)
    requires IsGreedy(Zeros(m), w, at) && NonNegative(w) && Descending(w) && a < m
    requires Placement(w, other, m, c) && k <= |w|
    ensures WithinRatio(BinSum(w, at, a, k), c, m)
  {
    assert c >= 0.0 by { BinSumMonotone(w, other, 0, |w|, |w|); }
    if k == 0 {
      SmallLoadBound(0.0, c, m);
    } else if at[k - 1] == a {
      LargestFirstPlacement(w, at, other, m, c, k - 1);
    } else {
      LargestFirstRatio(w, at, other, m, c, k - 1, a);
    }
  }

  lemma {:induction false} LargestFirstPlacement(w: seq<real>, at: seq<nat>, other: seq<nat>, m: nat, c: real, k: nat)
    requires IsGreedy(Zeros(m), w, at) && NonNegative(w) && Descending(w) && m > 0 && c >= 0.0
    requires Placement(w, other, m, c) && k < |w|
    ensures WithinRatio(BinSum(w, at, at[k], k) + w[k], c, m)
  {
    if 3.0 * w[k] > c {
      LargeItemFits(w, at, other, m, c, k);
      SmallLoadBound(BinSum(w, at, at[k], k) + w[k], c, m);
    } else {
      assert (m as real) * BinSum(w, at, at[k], k) + w[k] <= (m as real) * c by {
        LeastLoadBelowAverage(w, at, m, k);
        PlacementCoversItems(w, other, m, c, k);
      }
      PlacedLoadBound(BinSum(w, at, at[k], k), w[k], c, m);
    }
  }

  lemma {:induction false} LargeItemFits(w: seq<real>, at: seq<nat>, other: seq<nat>, m: nat, c: real, k: nat)
    requires IsGreedy(Zeros(m), w, at) && NonNegative(w) && Descending(w)
    requires Placement(w, other, m, c) && k < |w| && 3.0 * w[k] > c
    ensures BinSum(w, at, at[k], k) + w[k] <= c
  {
    var b := LargeItemFinds(w, at, other, m, c, k);
    assert LeastLoaded(Zeros(m), w, at, at[k], k);
    assert Load(Zeros(m), w, at, at[k], k) <= Load(Zeros(m), w, at, b, k);
  }

  // ----- The loops that build a placement -----

  /** Order of the sort: heavier first, then by id. */
  predicate Before(a: Item, b: Item) {
    a.weight > b.weight || (a.weight == b.weight && LexLe(a.id, b.id))
  }

  /** Heaviest first, equal weights in ascending order of ids. */
  ghost predicate SortedItems(s: seq<Item>) {
    forall i, j :: 0 <= i < j < |s| ==>
      s[i].weight >= s[j].weight && (s[i].weight == s[j].weight ==> LexLe(s[i].id, s[j].id))
  }

  function Insert(x: Item, s: seq<Item>): (r: seq<Item>)
    ensures multiset(r) == multiset(s) + multiset{x}
  {
    if s == [] || Before(x, s[0]) then [x] + s
    else
      assert s == [s[0]] + s[1..];
      [s[0]] + Insert(x, s[1..])
  }

  function Sort(s: seq<Item>): (r: seq<Item>)
    ensures multiset(r) == multiset(s)
  {
    if s == [] then []
    else
      assert s == [s[0]] + s[1..];
      Insert(s[0], Sort(s[1..]))
  }

  lemma BeforeTotal(a: Item, b: Item)
    ensures Before(a, b) || Before(b, a)
  {
    LexTotal(a.id, b.id);
  }

  lemma BeforeTransitive(a: Item, b: Item, c: Item)
    requires Before(a, b) && Before(b, c)
    ensures Before(a, c)
  {
    if a.weight == b.weight == c.weight { LexTransitive(a.id, b.id, c.id); }
  }

  lemma {:induction false} InsertSorts(x: Item, s: seq<Item>)
    requires SortedItems(s)
    ensures SortedItems(Insert(x, s))
  {
    if s == [] {
    } else if Before(x, s[0]) {
      forall j | 0 <= j < |s| ensures Before(x, s[j]) {
        if j > 0 { BeforeTransitive(x, s[0], s[j]); }
      }
    } else {
      var r := Insert(x, s[1..]);
      InsertSorts(x, s[1..]);
      BeforeTotal(x, s[0]);
      forall j | 0 <= j < |r| ensures Before(s[0], r[j]) {
        assert r[j] in multiset(r);
        assert r[j] == x || r[j] in s[1..];
      }
    }
  }

  lemma {:induction false} SortSorts(s: seq<Item>)
    ensures SortedItems(Sort(s))
  {
    if s == [] {
    } else {
      SortSorts(s[1..]);
      InsertSorts(s[0], Sort(s[1..]));
    }
  }

  function Weights(s: seq<Item>): (w: seq<real>)
    ensures |w| == |s| && forall i :: 0 <= i < |s| ==> w[i] == s[i].weight
  {
    seq(|s|, i requires 0 <= i < |s| => s[i].weight)
  }

  /** min(bin_loads.items(), key=(load, name)). */
  method LeastBin(names: seq<string>, loads: seq<real>) returns (t: nat)
    requires |names| == |loads| && |loads| > 0
    ensures t < |loads|
    ensures forall b :: 0 <= b < |loads| ==> loads[t] <= loads[b]
    ensures forall b :: 0 <= b < |loads| && loads[b] == loads[t] ==> LexLe(names[t], names[b])
  {
    t := 0;
    LexTotal(names[0], names[0]);
    for i := 1 to |loads|
      invariant t < i
      invariant forall b :: 0 <= b < i ==> loads[t] <= loads[b]
      invariant forall b :: 0 <= b < i && loads[b] == loads[t] ==> LexLe(names[t], names[b])
    {
      LexTotal(names[i], names[t]);
      LexTotal(names[i], names[i]);
      if loads[i] < loads[t] || (loads[i] == loads[t] && LexLe(names[i], names[t])) {
        forall b | 0 <= b < i && loads[b] == loads[i] ensures LexLe(names[i], names[b]) {
          LexTransitive(names[i], names[t], names[b]);
        }
        t := i;
      }
    }
  }

  /** The bin loads after the first k items of a placement. */
  ghost predicate LoadsAre(loads: seq<real>, initial: seq<real>, w: seq<real>, at: seq<nat>, k: nat)
    requires k <= |w| && k <= |at|
  {
    |loads| == |initial| && forall b :: 0 <= b < |loads| ==> loads[b] == Load(initial, w, at, b, k)
  }

  lemma ExtendPlacement(initial: seq<real>, w: seq<real>, at: seq<nat>, at': seq<nat>, loads: seq<real>, t: nat)
    requires |at| < |w| && t < |initial| && at' == at + [t]
    requires LoadsAre(loads, initial, w, at, |at|)
    ensures LoadsAre(loads[t := loads[t] + w[|at|]], initial, w, at', |at'|)
    ensures LoadsAre(loads, initial, w, at', |at|)
  {
    forall b | 0 <= b < |initial| ensures BinSum(w, at, b, |at|) == BinSum(w, at', b, |at|) {
      BinSumDependsOnPrefix(w, at, w, at', b, |at|);
    }
  }

  lemma LeastLoadedAgrees(initial: seq<real>, w: seq<real>, at: seq<nat>, at': seq<nat>, a: nat, k: nat)
    requires k <= |w| && k <= |at| <= |at'| && at'[..|at|] == at
    requires LeastLoaded(initial, w, at, a, k)
    ensures LeastLoaded(initial, w, at', a, k)
  {
    assert forall i :: 0 <= i < k ==> at[i] == at'[..|at|][i];
    forall b: nat | b < |initial| ensures Load(initial, w, at', b, k) == Load(initial, w, at, b, k) {
      BinSumDependsOnPrefix(w, at, w, at', b, k);
    }
  }

  /** Among the bins as lightly loaded as a after k items, a has the smallest name. */
  ghost predicate SmallestName(names: seq<string>, initial: seq<real>, w: seq<real>, at: seq<nat>, a: nat, k: nat)
    requires k <= |w| && k <= |at| && |names| == |initial|
  {
    && a < |initial|
    && forall b: nat :: b < |initial| && Load(initial, w, at, b, k) == Load(initial, w, at, a, k) ==>
      LexLe(names[a], names[b])
  }

  lemma SmallestNameAgrees(names: seq<string>, initial: seq<real>, w: seq<real>, at: seq<nat>, at': seq<nat>, a: nat,
                           k: nat)
    requires k <= |w| && k <= |at| <= |at'| && at'[..|at|] == at && |names| == |initial|
    requires SmallestName(names, initial, w, at, a, k)
    ensures SmallestName(names, initial, w, at', a, k)
  {
    assert forall i :: 0 <= i < k ==> at[i] == at'[..|at|][i];
    forall b: nat | b < |initial| ensures Load(initial, w, at', b, k) == Load(initial, w, at, b, k) {
      BinSumDependsOnPrefix(w, at, w, at', b, k);
    }
  }

  /** Ties between least loaded bins went to the smallest name. */
  ghost predicate TiesByName(names: seq<string>, initial: seq<real>, w: seq<real>, at: seq<nat>)
    requires |names| == |initial| && |at| <= |w|
  {
    forall k: nat :: k < |at| ==> SmallestName(names, initial, w, at, at[k], k)
  }

  ghost predicate LeastEach(initial: seq<real>, w: seq<real>, at: seq<nat>)
    requires |at| <= |w|
  {
    forall k: nat :: k < |at| ==> LeastLoaded(initial, w, at, at[k], k)
  }

  /** One more item, on a least loaded bin with the smallest name. */
  lemma ExtendChoices(names: seq<string>, initial: seq<real>, w: seq<real>, was: seq<nat>, at: seq<nat>,
                      loads: seq<real>, t: nat)
    requires |names| == |initial| && |was| < |w| && t < |initial| && at == was + [t]
    requires LoadsAre(loads, initial, w, at, |was|)
    requires forall b :: 0 <= b < |loads| ==> loads[t] <= loads[b]
    requires forall b :: 0 <= b < |loads| && loads[b] == loads[t] ==> LexLe(names[t], names[b])
    requires LeastEach(initial, w, was) && TiesByName(names, initial, w, was)
    ensures LeastEach(initial, w, at) && TiesByName(names, initial, w, at)
  {
    forall k: nat | k < |at|
      ensures LeastLoaded(initial, w, at, at[k], k) && SmallestName(names, initial, w, at, at[k], k)
    {
      if k < |was| {
        assert at[k] == was[k];
        LeastLoadedAgrees(initial, w, was, at, was[k], k);
        SmallestNameAgrees(names, initial, w, was, at, was[k], k);
      } else {
        assert loads[t] == Load(initial, w, at, t, k);
      }
    }
  }

  /** `assignments` maps the first k items to the names of their bins and keeps the rest of `base`. */
  ghost predicate Assigned(assignments: map<string, string>, base: map<string, string>, order: seq<Item>, at: seq<nat>,
                           names: seq<string>, k: nat)
    requires k <= |order| && k <= |at| && InBins(at, |names|)
  {
    && (forall i :: 0 <= i < k ==> order[i].id in assignments && assignments[order[i].id] == names[at[i]])
    && (forall x :: x in assignments ==> x in base || exists i :: 0 <= i < k && order[i].id == x)
    && (forall x :: x in base ==> x in assignments)
    && (forall x :: x in base && (forall i :: 0 <= i < k ==> order[i].id != x) ==> assignments[x] == base[x])
  }

  ghost predicate DistinctIds(s: seq<Item>) {
    forall i, j :: 0 <= i < j < |s| ==> s[i].id != s[j].id
  }

  lemma AssignStep(assignments: map<string, string>, base: map<string, string>, order: seq<Item>, at: seq<nat>,
                   names: seq<string>, t: nat)
    requires |at| < |order| && InBins(at, |names|) && t < |names| && DistinctIds(order)
    requires Assigned(assignments, base, order, at, names, |at|)
    ensures InBins(at + [t], |names|)
    ensures Assigned(assignments[order[|at|].id := names[t]], base, order, at + [t], names, |at| + 1)
  {
  }

  /** The placement loop: the items, already in order, go one by one to the least loaded bin. */
  method PlaceAll(names: seq<string>, initial: seq<real>, order: seq<Item>, base: map<string, string>)
    returns (at: seq<nat>, loads: seq<real>, assignments: map<string, string>)
    requires |names| == |initial| > 0 && DistinctIds(order)
    ensures IsGreedy(initial, Weights(order), at) && TiesByName(names, initial, Weights(order), at)
    ensures LoadsAre(loads, initial, Weights(order), at, |order|)
    ensures Assigned(assignments, base, order, at, names, |order|)
  {
    ghost var w := Weights(order);
    at, loads, assignments := [], initial, base;
    for i := 0 to |order|
      invariant |at| == i && InBins(at, |initial|)
      invariant LoadsAre(loads, initial, w, at, i)
      invariant LeastEach(initial, w, at) && TiesByName(names, initial, w, at)
      invariant Assigned(assignments, base, order, at, names, i)
    {
      var t := LeastBin(names, loads);
      ghost var was := at;
      AssignStep(assignments, base, order, at, names, t);
      assignments := assignments[order[i].id := names[t]];
      at := at + [t];
      ExtendPlacement(initial, w, was, at, loads, t);
      ExtendChoices(names, initial, w, was, at, loads, t);
      loads := loads[t := loads[t] + order[i].weight];
    }
  }

  /**
   * The fallback used when no planner is available: everything is placed from empty bins. The
   * loads add up to the total weight, and without negative weights no two of them differ by more
   * than the heaviest item.
   */
  method GreedyFallback(items: seq<Item>, names: seq<string>)
    returns (at: seq<nat>, assignments: map<string, string>, loads: seq<real>)
    requires |names| > 0 && DistinctIds(items)
    ensures var w := Weights(Sort(items));
            && SortedItems(Sort(items)) && multiset(Sort(items)) == multiset(items) && Descending(w)
            && IsGreedy(Zeros(|names|), w, at) && TiesByName(names, Zeros(|names|), w, at)
            && LoadsAre(loads, Zeros(|names|), w, at, |w|)
            && AllBins(w, at, |names|, |w|) == Prefix(w, |w|)
            && (NonNegative(w) && w != [] ==> Balanced(loads, w[0]))
    ensures var order := Sort(items); Assigned(assignments, map[], order, at, names, |order|)
  {
    var order := Sort(items);
    SortOfDistinct(items);
    at, loads, assignments := PlaceAll(names, Zeros(|names|), order, map[]);
    FallbackBalances(Weights(order), at, |names|, loads);
  }

  /** No two loads differ by more than the gap. */
  ghost predicate Balanced(loads: seq<real>, gap: real) {
    forall a, b :: 0 <= a < |loads| && 0 <= b < |loads| ==> loads[a] - loads[b] <= gap
  }

  lemma FallbackBalances(w: seq<real>, at: seq<nat>, m: nat, loads: seq<real>)
    requires Descending(w) && IsGreedy(Zeros(m), w, at) && LoadsAre(loads, Zeros(m), w, at, |w|)
    ensures AllBins(w, at, m, |w|) == Prefix(w, |w|)
    ensures NonNegative(w) && w != [] ==> Balanced(loads, w[0])
  {
    BinsConserveWeight(w, at, m, |w|);
    if NonNegative(w) && w != [] {
      forall a, b | 0 <= a < |loads| && 0 <= b < |loads| ensures loads[a] - loads[b] <= w[0] {
        GreedyGap(Zeros(m), w, at, w[0], |w|, a, b);
      }
    }
  }

  lemma SameIds(s: seq<Item>, r: seq<Item>)
    requires multiset(s) == multiset(r) && DistinctIds(s)
    ensures DistinctIds(r)
  {
    forall i, j | 0 <= i < j < |r| ensures r[i].id != r[j].id {
      if r[i].id == r[j].id {
        assert r[i] in multiset(s) && r[j] in multiset(s);
        CountOnce(s, r[i]);
        CountTwice(r, i, j);
      }
    }
  }

  lemma CountOnce(s: seq<Item>, x: Item)
    requires DistinctIds(s) && x in s
    ensures multiset(s)[x] == 1
  {
    var p :| 0 <= p < |s| && s[p] == x;
    assert s == s[..p] + [x] + s[p + 1..];
    assert x !in s[..p] && x !in s[p + 1..];
  }

  lemma CountTwice(r: seq<Item>, i: nat, j: nat)
    requires i < j < |r| && r[i] == r[j]
    ensures multiset(r)[r[i]] >= 2
  {
    assert r == r[..i] + [r[i]] + r[i + 1..j] + [r[i]] + r[j + 1..];
  }

  // ----- The flat planner's fallback: prior assignments are kept -----

  datatype Kept = Kept(id: string, bin: nat)

  /** weights_by_item.get(id, 1.0) */
  function WeightOf(items: seq<Item>, id: string): (w: real)
    ensures || (exists i :: 0 <= i < |items| && items[i] == Item(id, w))
            || (w == 1.0 && forall i :: 0 <= i < |items| ==> items[i].id != id)
  {
    if items == [] then 1.0
    else if items[0].id == id then items[0].weight
    else
      var w := WeightOf(items[1..], id);
      assert forall i :: 1 <= i < |items| ==> items[i] == items[1..][i - 1];
      w
  }

  function KeptWeights(items: seq<Item>, kept: seq<Kept>): (w: seq<real>)
    ensures |w| == |kept| && forall i :: 0 <= i < |kept| ==> w[i] == WeightOf(items, kept[i].id)
  {
    seq(|kept|, i requires 0 <= i < |kept| => WeightOf(items, kept[i].id))
  }

  function KeptBins(kept: seq<Kept>): (at: seq<nat>)
    ensures |at| == |kept| && forall i :: 0 <= i < |kept| ==> at[i] == kept[i].bin
  {
    seq(|kept|, i requires 0 <= i < |kept| => kept[i].bin)
  }

  function Unassigned(items: seq<Item>, taken: set<string>): (r: seq<Item>)
    ensures forall x :: x in r <==> x in items && x.id !in taken
    ensures DistinctIds(items) ==> DistinctIds(r)
  {
    if items == [] then []
    else
      var rest := Unassigned(items[1..], taken);
      assert items == [items[0]] + items[1..];
      if items[0].id in taken then rest else [items[0]] + rest
  }

  /** Loads of the kept assignments, accumulated one by one. */
  method KeptLoads(items: seq<Item>, m: nat, kept: seq<Kept>) returns (loads: seq<real>)
    requires InBins(KeptBins(kept), m)
    ensures LoadsAre(loads, Zeros(m), KeptWeights(items, kept), KeptBins(kept), |kept|)
  {
    loads := Zeros(m);
    for i := 0 to |kept|
      invariant LoadsAre(loads, Zeros(m), KeptWeights(items, kept), KeptBins(kept), i)
    {
      assert KeptBins(kept)[i] < m;
      loads := loads[kept[i].bin := loads[kept[i].bin] + WeightOf(items, kept[i].id)];
    }
  }

  /** What the kept assignments put on each of m bins. */
  function KeptStart(items: seq<Item>, m: nat, kept: seq<Kept>): (r: seq<real>)
    ensures LoadsAre(r, Zeros(m), KeptWeights(items, kept), KeptBins(kept), |kept|)
  {
    seq(m, b requires 0 <= b < m => BinSum(KeptWeights(items, kept), KeptBins(kept), b, |kept|))
  }

  /**
   * The fallback of the flat planner. `items` is the dictionary of weights, `kept` the dictionary
   * of prior assignments, `base` the same assignments by bin name. Kept assignments stay, and
   * exactly the other items are placed greedily on top of them, heaviest first.
   */
  method FlatFallback(items: seq<Item>, names: seq<string>, kept: seq<Kept>, base: map<string, string>)
    returns (at: seq<nat>, assignments: map<string, string>, loads: seq<real>)
    requires |names| > 0 && DistinctIds(items) && InBins(KeptBins(kept), |names|) && Mirrors(kept, base, names)
    ensures var initial, order := KeptStart(items, |names|, kept), Sort(Unassigned(items, base.Keys));
            && SortedItems(order) && Descending(Weights(order))
            && (forall x :: x in order <==> x in items && x.id !in base)
            && IsGreedy(initial, Weights(order), at) && TiesByName(names, initial, Weights(order), at)
            && LoadsAre(loads, initial, Weights(order), at, |order|)
            && Assigned(assignments, base, order, at, names, |order|)
            && forall gap :: Bounds(gap, initial, Weights(order)) ==> Balanced(loads, gap)
    ensures forall k :: k in base ==> k in assignments && assignments[k] == base[k]
    ensures forall x :: x in items ==> x.id in assignments
  {
    var start := KeptLoads(items, |names|, kept);
    assert start == KeptStart(items, |names|, kept);
    var rest := Unassigned(items, base.Keys);
    var order := Sort(rest);
    SortOfDistinct(rest);
    at, loads, assignments := PlaceAll(names, start, order, base);
    EveryItemAssigned(items, assignments, base, order, at, names);
    forall gap | Bounds(gap, start, Weights(order)) ensures Balanced(loads, gap) {
      GapStays(gap, start, Weights(order), at, loads);
    }
  }

  /** `kept` lists the dictionary `base`, each parent by its position. */
  ghost predicate Mirrors(kept: seq<Kept>, base: map<string, string>, names: seq<string>)
    requires InBins(KeptBins(kept), |names|)
  {
    && (forall i, j :: 0 <= i < j < |kept| ==> kept[i].id != kept[j].id)
    && (forall i :: 0 <= i < |kept| ==>
          KeptBins(kept)[i] < |names| && kept[i].id in base && base[kept[i].id] == names[KeptBins(kept)[i]])
    && (forall k :: k in base ==> exists i :: 0 <= i < |kept| && kept[i].id == k)
  }

  /** No initial gap and no weight exceeds `gap`, and no weight is negative. */
  ghost predicate Bounds(gap: real, initial: seq<real>, w: seq<real>) {
    Balanced(initial, gap) && NonNegative(w) && forall i :: 0 <= i < |w| ==> w[i] <= gap
  }

  lemma GapStays(gap: real, initial: seq<real>, w: seq<real>, at: seq<nat>, loads: seq<real>)
    requires Bounds(gap, initial, w) && IsGreedy(initial, w, at) && LoadsAre(loads, initial, w, at, |w|)
    ensures Balanced(loads, gap)
  {
    forall a, b | 0 <= a < |loads| && 0 <= b < |loads| ensures loads[a] - loads[b] <= gap {
      GreedyGap(initial, w, at, gap, |w|, a, b);
    }
  }

  lemma SortOfDistinct(s: seq<Item>)
    requires DistinctIds(s)
    ensures DistinctIds(Sort(s)) && SortedItems(Sort(s)) && Descending(Weights(Sort(s)))
    ensures forall x :: x in Sort(s) <==> x in s
  {
    SortSorts(s);
    SameIds(s, Sort(s));
    SameMembers(s, Sort(s));
    SortedDescends(Sort(s));
  }

  lemma SameMembers(s: seq<Item>, t: seq<Item>)
    requires multiset(s) == multiset(t)
    ensures forall x :: x in t <==> x in s
  {
    forall x ensures x in t <==> x in s {
      assert x in t <==> x in multiset(t);
      assert x in s <==> x in multiset(s);
    }
  }

  lemma SortedDescends(s: seq<Item>)
    requires SortedItems(s)
    ensures Descending(Weights(s))
  {
    forall i, j | 0 <= i <= j < |s| ensures Weights(s)[i] >= Weights(s)[j] {
      if i < j { assert s[i].weight >= s[j].weight; }
    }
  }

  lemma EveryItemAssigned(items: seq<Item>, assignments: map<string, string>, base: map<string, string>,
                          order: seq<Item>,
                          at: seq<nat>, names: seq<string>)
    requires |at| == |order| && InBins(at, |names|)
    requires Assigned(assignments, base, order, at, names, |order|)
    requires forall x :: x in order <==> x in items && x.id !in base
    ensures forall k :: k in base ==> k in assignments && assignments[k] == base[k]
    ensures forall x :: x in items ==> x.id in assignments
  {
    forall k | k in base ensures assignments[k] == base[k] {
      forall i | 0 <= i < |order| ensures order[i].id != k { assert order[i] in order; }
    }
    forall x | x in items ensures x.id in assignments {
      if x.id !in base { assert x in order; }
    }
  }
}
