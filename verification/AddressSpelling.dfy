/**
 * The map a build returns goes from text to text. With consistent spellings it is as independent
 * of the order of the router lists as its reading by networks.
 */
module AddressSpelling {
  import opened Common
  import opened AddressMerge
  import opened AddressOrder

  // ----- The addresses of the lists -----

  ghost predicate InEntries(es: seq<Entry>, a: Address) {
    exists e :: e in es && e.address == a
  }

  ghost predicate InBindings(bs: seq<Binding>, a: Address) {
    exists b :: b in bs && b.address == a
  }

  ghost predicate InLists(l: Lists, a: Address) {
    InEntries(l.arp, a) || InEntries(l.dhcp4, a) || InBindings(l.dhcp6, a) || InEntries(l.neighbors, a)
  }

  /** Equal texts name equal addresses; equal IPv4 hosts and equal networks are spelled alike. */
  predicate Consistent(a: Address, b: Address) {
    && (a.text == b.text ==> a.ip == b.ip && a.net == b.net)
    && (a.ip.Some? && a.ip.value.V4? && a.ip == b.ip ==> a.text == b.text)
    && (a.net.Some? && a.net == b.net ==> a.text == b.text)
  }

  /** One spelling per address in all four lists. */
  ghost predicate Spelled(l: Lists) {
    forall a, b :: InLists(l, a) && InLists(l, b) ==> Consistent(a, b)
  }

  lemma SameEntries(es: seq<Entry>, fs: seq<Entry>, a: Address)
    requires multiset(es) == multiset(fs) && InEntries(es, a)
    ensures InEntries(fs, a)
  {
    PermutationHasSameElements(es, fs);
    var e :| e in es && e.address == a;
    assert e in fs;
  }

  lemma SameAddresses(l: Lists, r: Lists, a: Address)
    requires Rearranged(l, r) && InLists(r, a)
    ensures InLists(l, a)
  {
    if InEntries(r.arp, a) {
      SameEntries(r.arp, l.arp, a);
    } else if InEntries(r.dhcp4, a) {
      SameEntries(r.dhcp4, l.dhcp4, a);
    } else if InEntries(r.neighbors, a) {
      SameEntries(r.neighbors, l.neighbors, a);
    } else {
      PermutationHasSameElements(r.dhcp6, l.dhcp6);
      var b :| b in r.dhcp6 && b.address == a;
      assert b in l.dhcp6;
    }
  }

  // ----- Where recorded addresses come from -----

  /** A recorded IPv4 address stands in the lists and names its canonical host. */
  lemma Record4From(l: Lists, k: Key)
    requires k in Table4(l)
    ensures var r := Table4(l)[k];
      && InLists(l, r.address) && r.address.ip.Some? && r.address.ip.value.V4?
      && r.canonical == Net(r.address.ip.value, 32)
  {
    var r, claims := Table4(l)[k], Claims4(l.arp, l.dhcp4);
    Claims4Fresh(l.arp, l.dhcp4);
    FoldWinner(Mac4, claims, k);
    var c := Claim(k, r.(ambiguous := false));
    CollectedIn(Arp4, l.arp, c);
    CollectedIn(Dhcp4, l.dhcp4, c);
    if c in Collected(Arp4, l.arp) {
      var e :| e in l.arp && Arp4(e) == Some(c);
      assert e.address == r.address;
    } else {
      var e :| e in l.dhcp4 && Dhcp4(e) == Some(c);
      assert e.address == r.address;
    }
  }

  lemma ClientAddress(dhcp6: seq<Binding>, k: Key)
    requires k in ClientTable(dhcp6)
    ensures InBindings(dhcp6, ClientTable(dhcp6)[k].address)
  {
    var r, claims := ClientTable(dhcp6)[k], Collected(BoundClient, dhcp6);
    CollectedFresh(Clients, BoundClient, dhcp6);
    FoldWinner(Clients, claims, k);
    var c := Claim(k, r.(ambiguous := false));
    CollectedIn(BoundClient, dhcp6, c);
    var b :| b in dhcp6 && BoundClient(b) == Some(c);
    assert b.address == r.address;
  }

  lemma NeighborAddress(l: Lists, e: Entry, c: Claim)
    requires e in l.neighbors && Neighbor6(ClientTable(l.dhcp6), e) == Some(c)
    ensures InLists(l, c.rec.address) && c.rec.address.net == Some(c.rec.canonical)
  {
    var k := Host(e.address.ip.value);
    if k in ClientTable(l.dhcp6) { ClientAddress(l.dhcp6, k); }
    assert InEntries(l.neighbors, e.address);
  }

  /** A recorded IPv6 address stands in the lists and names its network. */
  lemma Record6From(l: Lists, k: Key)
    requires k in Table6(l)
    ensures var r := Table6(l)[k]; InLists(l, r.address) && r.address.net == Some(r.canonical)
  {
    var r, claims := Table6(l)[k], Claims6(l.arp, l.dhcp6, l.neighbors);
    Claims6Fresh(l.arp, l.dhcp6, l.neighbors);
    FoldWinner(Mac6, claims, k);
    Claim6From(l, Claim(k, r.(ambiguous := false)));
  }

  lemma Claim6From(l: Lists, c: Claim)
    requires c in Claims6(l.arp, l.dhcp6, l.neighbors)
    ensures InLists(l, c.rec.address) && c.rec.address.net == Some(c.rec.canonical)
  {
    var f := e => Neighbor6(ClientTable(l.dhcp6), e);
    CollectedIn(Arp6, l.arp, c);
    CollectedIn(Bound6, l.dhcp6, c);
    CollectedIn(f, l.neighbors, c);
    if c in Collected(Arp6, l.arp) {
      var e :| e in l.arp && Arp6(e) == Some(c);
      assert InEntries(l.arp, e.address);
    } else if c in Collected(Bound6, l.dhcp6) {
      var b :| b in l.dhcp6 && Bound6(b) == Some(c);
      assert InBindings(l.dhcp6, b.address);
    } else {
      assert c in NeighborClaims(ClientTable(l.dhcp6), l.neighbors);
      var e :| e in l.neighbors && f(e) == Some(c);
      NeighborAddress(l, e, c);
    }
  }

  // ----- Texts follow networks -----

  /** Across rearrangements, two MACs contribute the same text exactly when they contribute the same network. */
  lemma TextsFollow(l: Lists, r: Lists, a: Key, b: Key)
    requires Spelled(l) && Rearranged(l, r) && NetPairOf(l, a).Some? && NetPairOf(r, b).Some?
    ensures TextPairOf(l, a).value.v4 == TextPairOf(r, b).value.v4 <==>
      NetPairOf(l, a).value.v4 == NetPairOf(r, b).value.v4
    ensures TextPairOf(l, a).value.v6 == TextPairOf(r, b).value.v6 <==>
      NetPairOf(l, a).value.v6 == NetPairOf(r, b).value.v6
  {
    var a4, b4 := Table4(l)[a].address, Table4(r)[b].address;
    var a6, b6 := Table6(l)[a].address, Table6(r)[b].address;
    Record4From(l, a);
    Record4From(r, b);
    Record6From(l, a);
    Record6From(r, b);
    SameAddresses(l, r, b4);
    SameAddresses(l, r, b6);
    assert Consistent(a4, b4) && Consistent(a6, b6);
  }

  /** Each IPv4 address that a MAC pairs: both readings of the result take it from one MAC. */
  lemma ReadResult(l: Lists, k: Key) returns (w: Key)
    requires Spelled(l) && k in Order6(l) && NetPairOf(l, k).Some?
    ensures w in Order6(l) && ComesFrom(l, Order6(l), k, w)
  {
    forall a | a in Order6(l) ensures SpelledAlike(l, a, k) {
      if NetPairOf(l, a).Some? { TextsFollow(l, l, a, k); }
    }
    w := ReadByNetwork(l, Order6(l), k);
  }

  lemma SpelledStays(l: Lists, r: Lists)
    requires Spelled(l) && Rearranged(l, r)
    ensures Spelled(r)
  {
    forall a, b | InLists(r, a) && InLists(r, b) ensures Consistent(a, b) {
      SameAddresses(l, r, a);
      SameAddresses(l, r, b);
    }
  }

  /** At the IPv4 address of a MAC the two texts agree exactly when the two networks do. */
  lemma AgreeAt(l: Lists, r: Lists, k: Key)
    requires Spelled(l) && Rearranged(l, r) && k in Order6(l) && NetPairOf(l, k).Some?
    ensures k in Order6(r) && NetPairOf(r, k) == NetPairOf(l, k)
    ensures var t, v := TextPairOf(l, k).value.v4, NetPairOf(l, k).value.v4;
      && t in TextResult(l) && t in TextResult(r) && v in NetResult(l) && v in NetResult(r)
      && (TextResult(l)[t] == TextResult(r)[t] <==> NetResult(l)[v] == NetResult(r)[v])
  {
    SameMacs(l, r, k);
    SamePairs(l, r, k);
    SpelledStays(l, r);
    TextsFollow(l, r, k, k);
    var w := ReadResult(l, k);
    var w' := ReadResult(r, k);
    TextsFollow(l, r, w, w');
  }

  lemma SameResultWithin(l: Lists, r: Lists, t: string)
    requires Spelled(l) && Rearranged(l, r) && NetResult(l) == NetResult(r) && t in TextResult(l)
    ensures t in TextResult(r) && TextResult(r)[t] == TextResult(l)[t]
  {
    JoinedIsPaired(Table4(l), Table6(l), Order6(l), t);
    var k :| k in Order6(l) && PairOf(Table4(l), Table6(l), k) == Some(Pair(t, TextResult(l)[t]));
    assert TextPairOf(l, k).Some?;
    AgreeAt(l, r, k);
  }

  lemma SameTexts(l: Lists, r: Lists)
    requires Spelled(l) && Rearranged(l, r) && NetResult(l) == NetResult(r)
    ensures TextResult(r) == TextResult(l)
  {
    SpelledStays(l, r);
    forall t | t in TextResult(l) ensures t in TextResult(r) && TextResult(r)[t] == TextResult(l)[t] {
      SameResultWithin(l, r, t);
    }
    forall t | t in TextResult(r) ensures t in TextResult(l) { SameResultWithin(r, l, t); }
  }

  lemma SameNetworks(l: Lists, r: Lists)
    requires Spelled(l) && Rearranged(l, r) && TextResult(l) == TextResult(r)
    ensures NetResult(r) == NetResult(l)
  {
    SpelledStays(l, r);
    forall v | v in NetResult(l) ensures v in NetResult(r) && NetResult(r)[v] == NetResult(l)[v] {
      NetJoinedFrom(l, Order6(l), v);
      var k :| k in Order6(l) && PairsUp(l, k, v);
      AgreeAt(l, r, k);
    }
    forall v | v in NetResult(r) ensures v in NetResult(l) {
      NetJoinedFrom(r, Order6(r), v);
      var k :| k in Order6(r) && PairsUp(r, k, v);
      AgreeAt(r, l, k);
    }
  }

  /**
   * With one spelling per address, the map a build returns is independent of every rearrangement
   * of the four lists exactly when no address is contested.
   */
  lemma TextOrderFreeIff(l: Lists)
    requires Spelled(l)
    ensures (forall r :: Rearranged(l, r) ==> TextResult(r) == TextResult(l)) <==> !Contested(l)
  {
    ResultOrderFreeIff(l);
    if Contested(l) {
      var r :| Rearranged(l, r) && NetResult(r) != NetResult(l);
      if TextResult(r) == TextResult(l) { SameNetworks(l, r); }
    } else {
      forall r | Rearranged(l, r) ensures TextResult(r) == TextResult(l) {
        UncontestedOrderFree(l, r);
        SameTexts(l, r);
      }
    }
  }
}
