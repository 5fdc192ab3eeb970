/**
 * The order of the router lists and the joined map, read by networks instead of spellings: which
 * rearrangements of the four lists can change it.
 */
module AddressOrder {
  import opened Common
  import opened AddressMerge

  /** The same four lists, each in some other order. */
  ghost predicate Rearranged(l: Lists, r: Lists) {
    && multiset(l.arp) == multiset(r.arp) && multiset(l.dhcp4) == multiset(r.dhcp4)
    && multiset(l.dhcp6) == multiset(r.dhcp6) && multiset(l.neighbors) == multiset(r.neighbors)
  }

  function Table4(l: Lists): (m: map<Key, Record>) {
    Fold(Mac4, Claims4(l.arp, l.dhcp4))
  }

  function Table6(l: Lists): (m: map<Key, Record>) {
    Fold(Mac6, Claims6(l.arp, l.dhcp6, l.neighbors))
  }

  /** The MACs in the order in which they enter the IPv6 dictionary. */
  function Order6(l: Lists): (o: seq<Key>) {
    Order(Claims6(l.arp, l.dhcp6, l.neighbors))
  }

  // ----- The join read by networks -----

  datatype NetPair = NetPair(v4: Net, v6: Net)

  /** The networks a MAC contributes: both records there and neither ambiguous. */
  function NetPairOf(l: Lists, k: Key): (p: Option<NetPair>) {
    var m4, m6 := Table4(l), Table6(l);
    if k in m6 && !m6[k].ambiguous && k in m4 && !m4[k].ambiguous
    then Some(NetPair(m4[k].canonical, m6[k].canonical)) else None
  }

  function NetJoined(l: Lists, order: seq<Key>): (r: map<Net, Net>) {
    if order == [] then map[]
    else
      var before, p := NetJoined(l, order[..|order| - 1]), NetPairOf(l, order[|order| - 1]);
      if p.None? then before else before[p.value.v4 := p.value.v6]
  }

  /** What a build maps each IPv4 address to. */
  function NetResult(l: Lists): (r: map<Net, Net>) {
    NetJoined(l, Order6(l))
  }

  predicate PairsUp(l: Lists, k: Key, v4: Net) {
    NetPairOf(l, k).Some? && NetPairOf(l, k).value.v4 == v4
  }

  /** The texts a MAC contributes, and the text map itself. */
  function TextPairOf(l: Lists, k: Key): (p: Option<Pair>)
    ensures p.Some? <==> NetPairOf(l, k).Some?
  {
    PairOf(Table4(l), Table6(l), k)
  }

  function TextJoined(l: Lists, order: seq<Key>): (r: map<string, string>) {
    Joined(Table4(l), Table6(l), order)
  }

  /** Two MACs spell their IPv4 addresses alike exactly when the addresses are the same. */
  ghost predicate SpelledAlike(l: Lists, a: Key, b: Key) {
    NetPairOf(l, a).Some? && NetPairOf(l, b).Some? ==>
      (TextPairOf(l, a).value.v4 == TextPairOf(l, b).value.v4 <==> NetPairOf(l, a).value.v4 == NetPairOf(l, b).value.v4)
  }

  /** Both maps give for k's IPv4 address what w contributes. */
  ghost predicate ComesFrom(l: Lists, order: seq<Key>, k: Key, w: Key) {
    && NetPairOf(l, k).Some? && NetPairOf(l, w).Some?
    && var t, v := TextPairOf(l, k).value.v4, NetPairOf(l, k).value.v4;
    && t in TextJoined(l, order) && TextPairOf(l, w).value == Pair(t, TextJoined(l, order)[t])
    && v in NetJoined(l, order) && NetPairOf(l, w).value == NetPair(v, NetJoined(l, order)[v])
  }

  lemma {:induction false} ComesFromLast(l: Lists, order: seq<Key>, last: Key, k: Key)
    requires NetPairOf(l, k).Some? && PairsUp(l, last, NetPairOf(l, k).value.v4) && SpelledAlike(l, last, k)
    ensures ComesFrom(l, order + [last], k, last)
  {
    assert (order + [last])[..|order|] == order;
  }

  lemma {:induction false} ComesFromEarlier(l: Lists, order: seq<Key>, last: Key, k: Key, w: Key)
    requires ComesFrom(l, order, k, w) && !PairsUp(l, last, NetPairOf(l, k).value.v4) && SpelledAlike(l, last, k)
    ensures ComesFrom(l, order + [last], k, w)
  {
    assert (order + [last])[..|order|] == order;
  }

  /** The text map and the network map come from the same MAC wherever spellings follow networks. */
  lemma {:induction false} ReadByNetwork(l: Lists, order: seq<Key>, k: Key) returns (w: Key)
    requires k in order && NetPairOf(l, k).Some? && forall a :: a in order ==> SpelledAlike(l, a, k)
    ensures w in order && ComesFrom(l, order, k, w)
  {
    var init, last := order[..|order| - 1], order[|order| - 1];
    assert order == init + [last];
    if PairsUp(l, last, NetPairOf(l, k).value.v4) {
      w := last;
      ComesFromLast(l, init, last, k);
    } else {
      w := ReadByNetwork(l, init, k);
      ComesFromEarlier(l, init, last, k, w);
    }
  }

  lemma {:induction false} NetJoinedAppend(l: Lists, a: seq<Key>, b: seq<Key>)
    ensures NetJoined(l, a + b) == NetJoined(l, a) + NetJoined(l, b)
    decreases |b|
  {
    if b == [] {
      assert a + b == a;
    } else {
      var init := b[..|b| - 1];
      assert (a + b)[..|a + b| - 1] == a + init && (a + b)[|a + b| - 1] == b[|b| - 1];
      NetJoinedAppend(l, a, init);
    }
  }

  /** Exactly the paired IPv4 addresses are mapped, each to the network of some MAC that pairs it. */
  lemma {:induction false} NetJoinedFrom(l: Lists, order: seq<Key>, v4: Net)
    ensures v4 in NetJoined(l, order) <==> exists k :: k in order && PairsUp(l, k, v4)
    ensures v4 in NetJoined(l, order) ==>
      exists k :: k in order && NetPairOf(l, k) == Some(NetPair(v4, NetJoined(l, order)[v4]))
  {
    if order == [] {
    } else {
      var init, last := order[..|order| - 1], order[|order| - 1];
      assert order == init + [last];
      assert last in order;
      NetJoinedFrom(l, init, v4);
      if v4 in NetJoined(l, init) {
        var k :| k in init && NetPairOf(l, k) == Some(NetPair(v4, NetJoined(l, init)[v4]));
        assert k in order;
      }
      if PairsUp(l, last, v4) {
        assert NetPairOf(l, last) == Some(NetPair(v4, NetJoined(l, order)[v4]));
      }
    }
  }

  // ----- Stages: the list through which a MAC enters -----

  function ArpPart(l: Lists): (c: seq<Claim>) {
    Collected(Arp6, l.arp)
  }

  function BoundPart(l: Lists): (c: seq<Claim>) {
    Collected(Bound6, l.dhcp6)
  }

  function NeighborPart(l: Lists): (c: seq<Claim>) {
    NeighborClaims(ClientTable(l.dhcp6), l.neighbors)
  }

  /** 0 for a MAC that the ARP list brings in, 1 for the DHCPv6 bindings, 2 for the neighbours. */
  function Stage(l: Lists, k: Key): (s: nat) {
    if k in Order(ArpPart(l)) then 0 else if k in Order(ArpPart(l) + BoundPart(l)) then 1 else 2
  }

  function Without(order: seq<Key>, seen: seq<Key>): (r: seq<Key>)
    ensures forall k :: k in r <==> k in order && k !in seen
  {
    if order == [] then []
    else
      var last := order[|order| - 1];
      assert order == order[..|order| - 1] + [last];
      Without(order[..|order| - 1], seen) + if last in seen then [] else [last]
  }

  lemma {:induction false} WithoutSnoc(order: seq<Key>, k: Key, seen: seq<Key>)
    ensures Without(order + [k], seen) == Without(order, seen) + if k in seen then [] else [k]
  {
    assert (order + [k])[..|order|] == order;
  }

  lemma {:induction false} OrderAppend(a: seq<Claim>, b: seq<Claim>)
    ensures Order(a + b) == Order(a) + Without(Order(b), Order(a))
    decreases |b|
  {
    if b == [] {
      assert a + b == a;
    } else {
      var init, c := b[..|b| - 1], b[|b| - 1];
      assert (a + b)[..|a + b| - 1] == a + init && (a + b)[|a + b| - 1] == c;
      OrderAppend(a, init);
      EnterBehind(Order(a), Order(init), c);
    }
  }

  lemma {:induction false} EnterBehind(first: seq<Key>, order: seq<Key>, c: Claim)
    ensures Enter(first + Without(order, first), Some(c)) == first + Without(Enter(order, Some(c)), first)
  {
    var k, kept := c.key, Without(order, first);
    var all := first + kept;
    assert k in all <==> k in first || k in order;
    if k !in order {
      WithoutSnoc(order, k, first);
      if k in first {
        assert kept + [] == kept;
      } else {
        assert all + [k] == first + (kept + [k]);
      }
    }
  }

  /** What a list with these claims brings in after `seen`. */
  function BroughtIn(claims: seq<Claim>, seen: seq<Key>): (o: seq<Key>) {
    Without(Order(claims), seen)
  }

  /** The MACs of one stage, in order of entry. */
  function Entered(l: Lists, s: nat): (o: seq<Key>) {
    if s == 0 then BroughtIn(ArpPart(l), [])
    else if s == 1 then BroughtIn(BoundPart(l), Order(ArpPart(l)))
    else BroughtIn(NeighborPart(l), Order(ArpPart(l) + BoundPart(l)))
  }

  lemma {:induction false} WithoutNothing(order: seq<Key>)
    ensures Without(order, []) == order
  {
    if order == [] {
    } else {
      WithoutNothing(order[..|order| - 1]);
      assert order == order[..|order| - 1] + [order[|order| - 1]];
    }
  }

  /** The MACs enter stage by stage. */
  lemma {:induction false} OrderParts(l: Lists)
    ensures Order(ArpPart(l)) == Entered(l, 0)
    ensures Order(ArpPart(l) + BoundPart(l)) == Entered(l, 0) + Entered(l, 1)
    ensures Order6(l) == Entered(l, 0) + Entered(l, 1) + Entered(l, 2)
  {
    OrderAppend(ArpPart(l), BoundPart(l));
    OrderAppend(ArpPart(l) + BoundPart(l), NeighborPart(l));
    WithoutNothing(Order(ArpPart(l)));
  }

  /** The stage of a MAC is the one in which it enters. */
  lemma {:induction false} StageMeaning(l: Lists, a: seq<Key>, b: seq<Key>, k: Key)
    requires Order(ArpPart(l)) == a && Order(ArpPart(l) + BoundPart(l)) == a + b
    ensures Stage(l, k) == if k in a then 0 else if k in b then 1 else 2
  {
    InThree(a, b, [], k);
  }

  lemma {:induction false} EnteredIff(l: Lists, s: nat, k: Key)
    requires s <= 2
    ensures k in Entered(l, s) <==> k in Order6(l) && Stage(l, k) == s
  {
    var a, b, c := Entered(l, 0), Entered(l, 1), Entered(l, 2);
    OrderParts(l);
    StageMeaning(l, a, b, k);
    InThree(a, b, c, k);
    if s == 1 {
      EnteredAfter(BoundPart(l), a, k);
    } else if s == 2 {
      EnteredAfter(NeighborPart(l), a + b, k);
      InThree(a, b, [], k);
    }
  }

  lemma {:induction false} EnteredAfter(claims: seq<Claim>, seen: seq<Key>, k: Key)
    ensures k in BroughtIn(claims, seen) ==> k !in seen
  {
  }

  lemma {:induction false} InThree(a: seq<Key>, b: seq<Key>, c: seq<Key>, k: Key)
    ensures k in a + b <==> k in a || k in b
    ensures k in a + b + c <==> k in a || k in b || k in c
  {
    assert k in a + b <==> k in a || k in b;
  }

  /** Among the MACs that pair v4, k is one that enters last of all stages. */
  ghost predicate TopFor(l: Lists, k: Key, v4: Net) {
    && k in Order6(l) && PairsUp(l, k, v4)
    && forall n :: n in Order6(l) && PairsUp(l, n, v4) ==> Stage(l, n) <= Stage(l, k)
  }

  /** Result, stage by stage: later stages overwrite earlier ones. */
  lemma {:induction false} ResultByStage(l: Lists)
    ensures NetResult(l) == NetJoined(l, Entered(l, 0)) + NetJoined(l, Entered(l, 1)) + NetJoined(l, Entered(l, 2))
  {
    OrderParts(l);
    NetJoinedAppend(l, Entered(l, 0) + Entered(l, 1), Entered(l, 2));
    NetJoinedAppend(l, Entered(l, 0), Entered(l, 1));
  }

  lemma {:induction false} NotPaired(l: Lists, t: nat, v4: Net)
    requires t <= 2 && forall n :: n in Order6(l) && PairsUp(l, n, v4) ==> Stage(l, n) != t
    ensures v4 !in NetJoined(l, Entered(l, t))
  {
    NetJoinedFrom(l, Entered(l, t), v4);
    if v4 in NetJoined(l, Entered(l, t)) {
      var k :| k in Entered(l, t) && PairsUp(l, k, v4);
      EnteredIff(l, t, k);
    }
  }

  /** The result at v4 is decided by the last stage that pairs v4. */
  lemma {:induction false} DecidedAt(l: Lists, s: nat, v4: Net)
    requires s <= 2 && v4 in NetJoined(l, Entered(l, s))
    requires forall n :: n in Order6(l) && PairsUp(l, n, v4) ==> Stage(l, n) <= s
    ensures v4 in NetResult(l) && NetResult(l)[v4] == NetJoined(l, Entered(l, s))[v4]
  {
    ResultByStage(l);
    if s < 2 { NotPaired(l, 2, v4); }
    if s < 1 { NotPaired(l, 1, v4); }
  }

  lemma {:induction false} LastStage(l: Lists, v4: Net, k: Key) returns (s: nat)
    requires k in Order6(l) && PairsUp(l, k, v4)
    ensures s <= 2 && v4 in NetJoined(l, Entered(l, s))
    ensures forall n :: n in Order6(l) && PairsUp(l, n, v4) ==> Stage(l, n) <= s
  {
    s := if v4 in NetJoined(l, Entered(l, 2)) then 2 else if v4 in NetJoined(l, Entered(l, 1)) then 1 else 0;
    forall n | n in Order6(l) && PairsUp(l, n, v4)
      ensures Stage(l, n) <= s && v4 in NetJoined(l, Entered(l, Stage(l, n)))
    {
      EnteredIff(l, Stage(l, n), n);
      NetJoinedFrom(l, Entered(l, Stage(l, n)), v4);
    }
  }

  /** Whatever is mapped comes from a MAC of the last stage that pairs it. */
  lemma {:induction false} ResultFromTop(l: Lists, v4: Net, k: Key) returns (w: Key)
    requires k in Order6(l) && PairsUp(l, k, v4)
    ensures TopFor(l, w, v4) && v4 in NetResult(l) && NetPairOf(l, w) == Some(NetPair(v4, NetResult(l)[v4]))
  {
    var s := LastStage(l, v4, k);
    DecidedAt(l, s, v4);
    NetJoinedFrom(l, Entered(l, s), v4);
    w :| w in Entered(l, s) && NetPairOf(l, w) == Some(NetPair(v4, NetJoined(l, Entered(l, s))[v4]));
    EnteredIff(l, s, w);
  }

  // ----- What a rearrangement leaves alone -----

  lemma {:induction false} ClaimedInOrder(claims: seq<Claim>, k: Key)
    ensures k in Order(claims) <==> Claimed(claims, k)
  {
    if claims == [] {
    } else {
      var init, c := claims[..|claims| - 1], claims[|claims| - 1];
      assert claims == init + [c];
      assert c in claims;
      ClaimedInOrder(init, k);
    }
  }

  lemma {:induction false} CoveredKeys(a: seq<Claim>, b: seq<Claim>, k: Key)
    requires Covers(Mac6, a, b) && Covers(Mac6, b, a)
    ensures k in Order(a) <==> k in Order(b)
  {
    ClaimedInOrder(a, k);
    ClaimedInOrder(b, k);
    if Claimed(a, k) { ClaimedCovered(Mac6, a, b, k); }
    if Claimed(b, k) { ClaimedCovered(Mac6, b, a, k); }
  }

  lemma {:induction false} PartsCover(l: Lists, r: Lists)
    requires Rearranged(l, r)
    ensures Covers(Mac6, ArpPart(l), ArpPart(r)) && Covers(Mac6, BoundPart(l), BoundPart(r))
    ensures Covers(Mac6, NeighborPart(l), NeighborPart(r))
  {
    PermutationHasSameElements(l.arp, r.arp);
    PermutationHasSameElements(l.dhcp6, r.dhcp6);
    PermutationHasSameElements(l.neighbors, r.neighbors);
    CollectedSame(Arp6, l.arp, r.arp);
    CollectedSame(Bound6, l.dhcp6, r.dhcp6);
    SameCovers(Mac6, ArpPart(l), ArpPart(r));
    SameCovers(Mac6, BoundPart(l), BoundPart(r));
    NeighborClaimsCover(l.dhcp6, r.dhcp6, l.neighbors, r.neighbors);
  }

  lemma {:induction false} SameMacs(l: Lists, r: Lists, k: Key)
    requires Rearranged(l, r)
    ensures k in Order6(l) <==> k in Order6(r)
    ensures Stage(l, k) == Stage(r, k)
  {
    PartsCover(l, r);
    PartsCover(r, l);
    CoveredKeys(ArpPart(l), ArpPart(r), k);
    CoversConcat(Mac6, ArpPart(l), BoundPart(l), ArpPart(r), BoundPart(r));
    CoversConcat(Mac6, ArpPart(r), BoundPart(r), ArpPart(l), BoundPart(l));
    var ab, ab' := ArpPart(l) + BoundPart(l), ArpPart(r) + BoundPart(r);
    CoveredKeys(ab, ab', k);
    CoversConcat(Mac6, ab, NeighborPart(l), ab', NeighborPart(r));
    CoversConcat(Mac6, ab', NeighborPart(r), ab, NeighborPart(l));
    CoveredKeys(ab + NeighborPart(l), ab' + NeighborPart(r), k);
  }

  lemma {:induction false} SamePairs(l: Lists, r: Lists, k: Key)
    requires Rearranged(l, r)
    ensures NetPairOf(l, k) == NetPairOf(r, k)
  {
    PermutationHasSameElements(l.arp, r.arp);
    PermutationHasSameElements(l.dhcp4, r.dhcp4);
    PermutationHasSameElements(l.dhcp6, r.dhcp6);
    PermutationHasSameElements(l.neighbors, r.neighbors);
    Ipv4OrderFree(l.arp, r.arp, l.dhcp4, r.dhcp4, k);
    Ipv6OrderFree(l.arp, r.arp, l.dhcp6, r.dhcp6, l.neighbors, r.neighbors, k);
  }

  lemma {:induction false} SameTop(l: Lists, r: Lists, k: Key, v4: Net)
    requires Rearranged(l, r) && TopFor(r, k, v4)
    ensures TopFor(l, k, v4)
  {
    SameMacs(l, r, k);
    SamePairs(l, r, k);
    forall n | n in Order6(l) && PairsUp(l, n, v4) ensures Stage(l, n) <= Stage(l, k) {
      SameMacs(l, r, n);
      SamePairs(l, r, n);
    }
  }

  // ----- When the result does not depend on the order of the lists -----

  /** Two MACs that enter through the same list, the last that pairs v4, pair it with different networks. */
  ghost predicate Conflict6(l: Lists, k: Key, m: Key, v4: Net) {
    TopFor(l, k, v4) && TopFor(l, m, v4) && NetPairOf(l, k) != NetPairOf(l, m)
  }

  ghost predicate Contested(l: Lists) {
    exists k, m, v4 :: Conflict6(l, k, m, v4)
  }

  lemma {:induction false} UncontestedWithin(l: Lists, r: Lists, v4: Net)
    requires Rearranged(l, r) && !Contested(l) && v4 in NetResult(l)
    ensures v4 in NetResult(r) && NetResult(r)[v4] == NetResult(l)[v4]
  {
    NetJoinedFrom(l, Order6(l), v4);
    var k :| k in Order6(l) && PairsUp(l, k, v4);
    var w := ResultFromTop(l, v4, k);
    SameMacs(l, r, w);
    SamePairs(l, r, w);
    var w' := ResultFromTop(r, v4, w);
    SameTop(l, r, w', v4);
    SamePairs(l, r, w');
    assert !Conflict6(l, w, w', v4);
  }

  lemma {:induction false} ContestedStays(l: Lists, r: Lists)
    requires Rearranged(l, r) && Contested(r)
    ensures Contested(l)
  {
    var k, m, v4 :| Conflict6(r, k, m, v4);
    SameTop(l, r, k, v4);
    SameTop(l, r, m, v4);
    SamePairs(l, r, k);
    SamePairs(l, r, m);
    assert Conflict6(l, k, m, v4);
  }

  lemma {:induction false} UncontestedOrderFree(l: Lists, r: Lists)
    requires Rearranged(l, r) && !Contested(l)
    ensures NetResult(l) == NetResult(r)
  {
    if Contested(r) { ContestedStays(l, r); }
    forall v4 | v4 in NetResult(l) ensures v4 in NetResult(r) && NetResult(r)[v4] == NetResult(l)[v4] {
      UncontestedWithin(l, r, v4);
    }
    forall v4 | v4 in NetResult(r) ensures v4 in NetResult(l) { UncontestedWithin(r, l, v4); }
  }

  // ----- Bringing one MAC to the end of its stage -----

  predicate ClaimsFor(c: Option<Claim>, k: Key) {
    c.Some? && c.value.key == k
  }

  function Picked<E>(f: E -> Option<Claim>, s: seq<E>, k: Key, yes: bool): (r: seq<E>)
    ensures forall e :: e in r ==> ClaimsFor(f(e), k) == yes
  {
    if s == [] then []
    else Picked(f, s[..|s| - 1], k, yes) + if ClaimsFor(f(s[|s| - 1]), k) == yes then [s[|s| - 1]] else []
  }

  /** The list with the entries that claim for k moved to its end. */
  function MovedLast<E>(f: E -> Option<Claim>, s: seq<E>, k: Key): (r: seq<E>) {
    Picked(f, s, k, false) + Picked(f, s, k, true)
  }

  lemma {:induction false} MovedLastIsPermutation<E>(f: E -> Option<Claim>, s: seq<E>, k: Key)
    ensures multiset(MovedLast(f, s, k)) == multiset(s)
  {
    if s == [] {
    } else {
      var init, e := s[..|s| - 1], s[|s| - 1];
      MovedLastIsPermutation(f, init, k);
      assert s == init + [e];
      AddToOne(Picked(f, init, k, false), Picked(f, init, k, true), e);
    }
  }

  /** An element added to either part is added to the whole. */
  lemma {:induction false} AddToOne<E>(a: seq<E>, b: seq<E>, e: E)
    ensures multiset(a + [e] + (b + [])) == multiset(a + b) + multiset{e}
    ensures multiset(a + [] + (b + [e])) == multiset(a + b) + multiset{e}
  {
    assert b + [] == b && a + [] == a;
  }

  lemma {:induction false} CollectedAppend<E>(f: E -> Option<Claim>, a: seq<E>, b: seq<E>)
    ensures Collected(f, a + b) == Collected(f, a) + Collected(f, b)
    decreases |b|
  {
    if b == [] {
      assert a + b == a;
    } else {
      assert (a + b)[..|a + b| - 1] == a + b[..|b| - 1] && (a + b)[|a + b| - 1] == b[|b| - 1];
      CollectedAppend(f, a, b[..|b| - 1]);
    }
  }

  lemma {:induction false} OrderOfOne(claims: seq<Claim>, k: Key)
    requires forall c :: c in claims ==> c.key == k
    ensures Order(claims) == if claims == [] then [] else [k]
  {
    if claims == [] {
    } else {
      assert claims[|claims| - 1] in claims;
      OrderOfOne(claims[..|claims| - 1], k);
    }
  }

  lemma {:induction false} PickedClaims<E>(f: E -> Option<Claim>, s: seq<E>, k: Key, yes: bool, c: Claim)
    requires c in Collected(f, Picked(f, s, k, yes))
    ensures (c.key == k) == yes
  {
    CollectedIn(f, Picked(f, s, k, yes), c);
  }

  ghost predicate EndsIn(o: seq<Key>, k: Key) {
    o != [] && o[|o| - 1] == k
  }

  lemma {:induction false} MovedLastOrder<E>(f: E -> Option<Claim>, s: seq<E>, k: Key)
    requires k in Order(Collected(f, s))
    ensures Order(Collected(f, MovedLast(f, s, k))) == Order(Collected(f, Picked(f, s, k, false))) + [k]
  {
    var a, b := Collected(f, Picked(f, s, k, false)), Collected(f, Picked(f, s, k, true));
    CollectedAppend(f, Picked(f, s, k, false), Picked(f, s, k, true));
    OrderAppend(a, b);
    forall c | c in b ensures c.key == k { PickedClaims(f, s, k, true, c); }
    OrderOfOne(b, k);
    KeyNotBefore(f, s, k);
    KeySurvives(f, s, k);
    WithoutSnoc([], k, Order(a));
    assert [] + [k] == [k] && Without([], Order(a)) == [];
  }

  /** Then k is the last MAC this list brings in. */
  lemma {:induction false} MovedLastEntersLast<E>(f: E -> Option<Claim>, s: seq<E>, k: Key, seen: seq<Key>)
    requires k in BroughtIn(Collected(f, s), seen)
    ensures EndsIn(BroughtIn(Collected(f, MovedLast(f, s, k)), seen), k)
  {
    MovedLastOrder(f, s, k);
    LastStays(Order(Collected(f, Picked(f, s, k, false))), k, seen);
  }

  lemma {:induction false} LastStays(order: seq<Key>, k: Key, seen: seq<Key>)
    requires k !in seen
    ensures EndsIn(Without(order + [k], seen), k)
  {
    WithoutSnoc(order, k, seen);
  }

  lemma {:induction false} KeyNotBefore<E>(f: E -> Option<Claim>, s: seq<E>, k: Key)
    ensures k !in Order(Collected(f, Picked(f, s, k, false)))
  {
    var a := Collected(f, Picked(f, s, k, false));
    ClaimedInOrder(a, k);
    if Claimed(a, k) {
      var c :| c in a && c.key == k;
      PickedClaims(f, s, k, false, c);
    }
  }

  lemma {:induction false} KeySurvives<E>(f: E -> Option<Claim>, s: seq<E>, k: Key)
    requires k in Order(Collected(f, s))
    ensures Collected(f, Picked(f, s, k, true)) != []
  {
    ClaimedInOrder(Collected(f, s), k);
    var c :| c in Collected(f, s) && c.key == k;
    CollectedIn(f, s, c);
    var e :| e in s && f(e) == Some(c);
    PickedHas(f, s, k, e);
    CollectedIn(f, Picked(f, s, k, true), c);
  }

  lemma {:induction false} PickedHas<E>(f: E -> Option<Claim>, s: seq<E>, k: Key, e: E)
    requires e in s && ClaimsFor(f(e), k)
    ensures e in Picked(f, s, k, true)
  {
    assert s == s[..|s| - 1] + [s[|s| - 1]];
    if e != s[|s| - 1] { PickedHas(f, s[..|s| - 1], k, e); }
  }

  /** The lists rearranged so that k enters last of its stage. */
  function Favouring(l: Lists, k: Key): (r: Lists) {
    var s := Stage(l, k);
    if s == 0 then l.(arp := MovedLast(Arp6, l.arp, k))
    else if s == 1 then l.(dhcp6 := MovedLast(Bound6, l.dhcp6, k))
    else l.(neighbors := MovedLast(e => Neighbor6(ClientTable(l.dhcp6), e), l.neighbors, k))
  }

  lemma {:induction false} FavouringRearranges(l: Lists, k: Key)
    ensures Rearranged(l, Favouring(l, k))
  {
    var s := Stage(l, k);
    if s == 0 {
      MovedLastIsPermutation(Arp6, l.arp, k);
    } else if s == 1 {
      MovedLastIsPermutation(Bound6, l.dhcp6, k);
    } else {
      MovedLastIsPermutation(e => Neighbor6(ClientTable(l.dhcp6), e), l.neighbors, k);
    }
  }

  lemma {:induction false} FavouredEntersLast(l: Lists, k: Key)
    requires k in Order6(l)
    ensures EndsIn(Entered(Favouring(l, k), Stage(l, k)), k)
  {
    var s := Stage(l, k);
    EnteredIff(l, s, k);
    if s == 0 {
      MovedLastEntersLast(Arp6, l.arp, k, []);
    } else if s == 1 {
      MovedLastEntersLast(Bound6, l.dhcp6, k, Order(ArpPart(l)));
    } else {
      MovedLastEntersLast(e => Neighbor6(ClientTable(l.dhcp6), e), l.neighbors, k, Order(ArpPart(l) + BoundPart(l)));
    }
  }

  /** A MAC of the last stage that pairs v4 can be made to decide it. */
  lemma {:induction false} CanDecide(l: Lists, k: Key, v4: Net)
    requires TopFor(l, k, v4)
    ensures Rearranged(l, Favouring(l, k))
    ensures v4 in NetResult(Favouring(l, k)) && NetPairOf(l, k) == Some(NetPair(v4, NetResult(Favouring(l, k))[v4]))
  {
    var r, s := Favouring(l, k), Stage(l, k);
    FavouringRearranges(l, k);
    FavouredEntersLast(l, k);
    SameMacs(l, r, k);
    SamePairs(l, r, k);
    SameTop(r, l, k, v4);
    assert NetJoined(r, Entered(r, s))[v4] == NetPairOf(l, k).value.v6;
    DecidedAt(r, s, v4);
  }

  /**
   * Over everything a build can be given: no rearrangement of the four lists changes the result
   * exactly when no two MACs of the last stage that pairs an IPv4 address pair it differently.
   */
  lemma {:induction false} ResultOrderFreeIff(l: Lists)
    ensures (forall r :: Rearranged(l, r) ==> NetResult(r) == NetResult(l)) <==> !Contested(l)
  {
    if Contested(l) {
      var k, m, v4 :| Conflict6(l, k, m, v4);
      CanDecide(l, k, v4);
      CanDecide(l, m, v4);
      assert NetResult(Favouring(l, k)) != NetResult(l) || NetResult(Favouring(l, m)) != NetResult(l);
    } else {
      forall r | Rearranged(l, r) ensures NetResult(r) == NetResult(l) { UncontestedOrderFree(l, r); }
    }
  }

  // ----- Spellings -----

  /** One MAC, two spellings of its IPv4 address in the ARP list, one neighbour. */
  function TwoSpellings(mac: string, a: Address, b: Address, n: Address): (l: Lists) {
    Lists([Entry(Some(mac), a), Entry(Some(mac), b)], [], [], [Entry(Some(mac), n)])
  }

  /**
   * The text map does depend on the order even without a conflict: the spelling that is met first
   * becomes the key.
   */
  lemma {:induction false} SpellingFollowsOrder(mac: string, a: Address, b: Address, n: Address)
    requires mac != "" && a.text != "" && b.text != "" && a.text != b.text
    requires a.ip.Some? && a.ip.value.V4? && b.ip == a.ip && n.ip.Some? && Usable(n)
    ensures Rearranged(TwoSpellings(mac, a, b, n), TwoSpellings(mac, b, a, n))
    ensures NetResult(TwoSpellings(mac, a, b, n)) == NetResult(TwoSpellings(mac, b, a, n))
    ensures TextResult(TwoSpellings(mac, a, b, n)) == map[a.text := n.text]
    ensures TextResult(TwoSpellings(mac, a, b, n)) != TextResult(TwoSpellings(mac, b, a, n))
  {
    var l, r := TwoSpellings(mac, a, b, n), TwoSpellings(mac, b, a, n);
    Swapped(l, r);
    SpelledFirst(mac, a, b, n);
    SpelledFirst(mac, b, a, n);
    Respelled(l, r, Mac(mac), a.text, b.text, n.text);
  }

  lemma {:induction false} Respelled(l: Lists, r: Lists, k: Key, s: string, t: string, v: string)
    requires Rearranged(l, r) && Order6(l) == [k] && s != t
    requires TextResult(l) == map[s := v] && TextResult(r) == map[t := v]
    ensures NetResult(l) == NetResult(r) && TextResult(l) != TextResult(r)
  {
    assert s in map[s := v] && s !in map[t := v];
    OneMac(l, k);
    UncontestedOrderFree(l, r);
  }

  lemma {:induction false} Swapped(l: Lists, r: Lists)
    requires |l.arp| == 2 && r == l.(arp := [l.arp[1], l.arp[0]])
    ensures Rearranged(l, r)
  {
    assert l.arp == [l.arp[0], l.arp[1]];
  }

  function TextResult(l: Lists): (r: map<string, string>) {
    TextJoined(l, Order6(l))
  }

  lemma {:induction false} SpelledFirst(mac: string, a: Address, b: Address, n: Address)
    requires mac != "" && a.text != "" && b.text != ""
    requires a.ip.Some? && a.ip.value.V4? && b.ip == a.ip && n.ip.Some? && Usable(n)
    ensures var l := TwoSpellings(mac, a, b, n);
      Order6(l) == [Mac(mac)] && TextResult(l) == map[a.text := n.text]
  {
    var l, k := TwoSpellings(mac, a, b, n), Mac(mac);
    var ca := Claim(k, Record(ARP, a.ip.value.value, Net(a.ip.value, 32), a, false));
    var cb := Claim(k, Record(ARP, a.ip.value.value, Net(a.ip.value, 32), b, false));
    var cn := Claim(k, Record(NEIGHBOR, Ipv6Rank(n.net), n.net.value, n, false));
    assert Claims4(l.arp, l.dhcp4) == [ca, cb] by { TwoCollected(Arp4, l.arp[0], l.arp[1]); }
    assert Claims6(l.arp, l.dhcp6, l.neighbors) == [cn] by {
      TwoCollected(Arp6, l.arp[0], l.arp[1]);
      OneCollected(e => Neighbor6(map[], e), l.neighbors[0]);
      assert ClientTable(l.dhcp6) == map[];
    }
    TwoFold(ca, cb);
    OneFold(Mac6, cn);
    OneJoin(k, ca.rec, cn.rec);
  }

  lemma {:induction false} OneFold(t: Table, c: Claim)
    ensures Fold(t, [c]) == map[c.key := c.rec] && Order([c]) == [c.key]
  {
    assert [c][..0] == [] && [] + [c.key] == [c.key];
    assert Fold(t, []) == map[] && Order([]) == [];
  }

  lemma {:induction false} TwoFold(c: Claim, d: Claim)
    requires c.key == d.key && c.rec.priority == d.rec.priority && c.rec.canonical == d.rec.canonical
    ensures Fold(Mac4, [c, d]) == map[c.key := c.rec]
  {
    assert [c, d][..1] == [c];
    OneFold(Mac4, c);
  }

  lemma {:induction false} OneJoin(k: Key, r4: Record, r6: Record)
    requires !r4.ambiguous && !r6.ambiguous
    ensures Joined(map[k := r4], map[k := r6], [k]) == map[r4.address.text := r6.address.text]
  {
    assert [k][..0] == [];
    assert Joined(map[k := r4], map[k := r6], []) == map[];
  }

  lemma {:induction false} TwoCollected(f: Entry -> Option<Claim>, d: Entry, e: Entry)
    ensures Collected(f, [d, e]) == Listed(f(d)) + Listed(f(e))
  {
    assert [d, e][..1] == [d];
    OneCollected(f, d);
  }

  lemma {:induction false} OneCollected(f: Entry -> Option<Claim>, e: Entry)
    ensures Collected(f, [e]) == Listed(f(e))
  {
    assert [e][..0] == [];
    assert [] + Listed(f(e)) == Listed(f(e));
  }

  lemma {:induction false} OneMac(l: Lists, k: Key)
    requires Order6(l) == [k]
    ensures !Contested(l)
  {
  }
}
