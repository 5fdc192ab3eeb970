/**
 * Which list decides, read off the four router lists alone: for IPv4 a lease before ARP; for IPv6
 * a network bound by DHCPv6, then a neighbour, then ARP, and within one of them a prefix before a
 * host. Within what decides, two different networks make the record ambiguous.
 */
module AddressPriority {
  import opened Common
  import opened AddressMerge

  // ----- IPv4 -----

  /** A lease or ARP entry that gives the MAC an IPv4 address. */
  predicate Offers4(e: Entry, mac: string) {
    e.mac == Some(mac) && mac != "" && e.address.text != "" && e.address.ip.Some? && e.address.ip.value.V4?
  }

  ghost predicate AnyOffers4(s: seq<Entry>, mac: string) {
    exists e :: e in s && Offers4(e, mac)
  }

  /** Two entries of the list give the MAC different addresses. */
  ghost predicate Differ4(s: seq<Entry>, mac: string) {
    exists e, f :: e in s && f in s && Offers4(e, mac) && Offers4(f, mac) && e.address.ip != f.address.ip
  }

  /** What a record for the MAC must be when this list decides. */
  ghost predicate Decided4(m: map<Key, Record>, s: seq<Entry>, mac: string) {
    && Mac(mac) in m
    && (exists e :: e in s && Offers4(e, mac) && m[Mac(mac)].address == e.address)
    && (m[Mac(mac)].ambiguous <==> Differ4(s, mac))
  }

  function As4(e: Entry, mac: string, priority: int): (c: Claim)
    requires Offers4(e, mac)
  {
    Claim(Mac(mac), Record(priority, e.address.ip.value.value, Net(e.address.ip.value, 32), e.address, false))
  }

  ghost predicate MadeFrom4(s: seq<Entry>, mac: string, priority: int, c: Claim) {
    exists e :: e in s && Offers4(e, mac) && c == As4(e, mac, priority)
  }

  /** The claims for one MAC are the entries of the two lists that name it. */
  lemma Claims4Are(arp: seq<Entry>, dhcp4: seq<Entry>, mac: string, c: Claim)
    requires c.key == Mac(mac)
    ensures c in Claims4(arp, dhcp4) <==> MadeFrom4(arp, mac, ARP, c) || MadeFrom4(dhcp4, mac, DHCP, c)
  {
    CollectedIn(Arp4, arp, c);
    CollectedIn(Dhcp4, dhcp4, c);
    forall e ensures Arp4(e) == Some(c) <==> Offers4(e, mac) && c == As4(e, mac, ARP) {}
    forall e ensures Dhcp4(e) == Some(c) <==> Offers4(e, mac) && c == As4(e, mac, DHCP) {}
  }

  /** The list whose priority is the record's decides, if no list of a higher priority offers anything. */
  lemma WinnerDecides4(arp: seq<Entry>, dhcp4: seq<Entry>, mac: string, s: seq<Entry>, priority: int)
    requires (s == dhcp4 && priority == DHCP) || (s == arp && priority == ARP && !AnyOffers4(dhcp4, mac))
    requires AnyOffers4(s, mac)
    ensures Decided4(Fold(Mac4, Claims4(arp, dhcp4)), s, mac)
  {
    var claims, k := Claims4(arp, dhcp4), Mac(mac);
    var e :| e in s && Offers4(e, mac);
    Claims4Fresh(arp, dhcp4);
    Claims4Are(arp, dhcp4, mac, As4(e, mac, priority));
    assert MadeFrom4(s, mac, priority, As4(e, mac, priority));
    FoldWinner(Mac4, claims, k);
    var r := Fold(Mac4, claims)[k];
    var win := Claim(k, r.(ambiguous := false));
    Claims4Are(arp, dhcp4, mac, win);
    assert MadeFrom4(s, mac, priority, win);
    Ambiguous4(arp, dhcp4, mac, s, priority, r);
  }

  lemma Ambiguous4(arp: seq<Entry>, dhcp4: seq<Entry>, mac: string, s: seq<Entry>, priority: int, r: Record)
    requires (s == dhcp4 && priority == DHCP) || (s == arp && priority == ARP && !AnyOffers4(dhcp4, mac))
    requires Won(Mac4, Claims4(arp, dhcp4), Mac(mac), r) && r.priority == priority
    requires MadeFrom4(s, mac, priority, Claim(Mac(mac), r.(ambiguous := false)))
    ensures r.ambiguous <==> Differ4(s, mac)
  {
    var claims, k := Claims4(arp, dhcp4), Mac(mac);
    if r.ambiguous {
      var c :| c in claims && c.key == k && Level(Mac4, c.rec) == Level(Mac4, r) && c.rec.canonical != r.canonical;
      Claims4Are(arp, dhcp4, mac, c);
      assert MadeFrom4(s, mac, priority, c);
    }
    if Differ4(s, mac) {
      var e, f :| e in s && f in s && Offers4(e, mac) && Offers4(f, mac) && e.address.ip != f.address.ip;
      var c, d := As4(e, mac, priority), As4(f, mac, priority);
      Claims4Are(arp, dhcp4, mac, c);
      Claims4Are(arp, dhcp4, mac, d);
      assert MadeFrom4(s, mac, priority, c) && MadeFrom4(s, mac, priority, d);
      assert c.rec.canonical != r.canonical || d.rec.canonical != r.canonical;
    }
  }

  /** A lease decides whatever ARP holds; ARP decides exactly when there is no lease. */
  ghost predicate Verdict4(m: map<Key, Record>, arp: seq<Entry>, dhcp4: seq<Entry>, mac: string) {
    if AnyOffers4(dhcp4, mac) then Decided4(m, dhcp4, mac)
    else if AnyOffers4(arp, mac) then Decided4(m, arp, mac)
    else Mac(mac) !in m
  }

  lemma LeaseBeforeArp(arp: seq<Entry>, dhcp4: seq<Entry>, mac: string)
    ensures Verdict4(Fold(Mac4, Claims4(arp, dhcp4)), arp, dhcp4, mac)
  {
    if AnyOffers4(dhcp4, mac) {
      WinnerDecides4(arp, dhcp4, mac, dhcp4, DHCP);
    } else if AnyOffers4(arp, mac) {
      WinnerDecides4(arp, dhcp4, mac, arp, ARP);
    } else {
      Claims4Fresh(arp, dhcp4);
      FoldWinner(Mac4, Claims4(arp, dhcp4), Mac(mac));
      forall c | c in Claims4(arp, dhcp4) ensures c.key != Mac(mac) {
        if c.key == Mac(mac) { Claims4Are(arp, dhcp4, mac, c); }
      }
    }
  }

  // ----- IPv6: what counts as an address -----

  /** A global unicast network: not ::, ::1, ff00::/8 or fe80::/10. */
  predicate Global(a: Address) {
    && a.text != "" && a.net.Some? && a.net.value.base.V6?
    && var v := a.net.value.base.value;
       v > 1 && v / 0x100_0000_0000_0000_0000_0000_0000_0000 < 0xFF
       && v / 0x40_0000_0000_0000_0000_0000_0000_0000 != 0x3FA
  }

  predicate IsPrefix(a: Address)
    requires a.net.Some?
  {
    a.net.value.prefix < 128
  }

  lemma GlobalIsUsable(a: Address)
    ensures Global(a) <==> Usable(a)
    ensures Global(a) ==> Ipv6Rank(a.net) == if IsPrefix(a) then PREFIX else HOST
  {
  }

  // ----- IPv6: clients of DHCPv6 -----

  /** A binding whose DUID carries no MAC, made for the client address h. */
  predicate BindsClient(b: Binding, h: Ip) {
    MacFromDuid(b.duid).None? && b.client == Some(h) && Global(b.address)
  }

  /** The client address has bindings, and all of them name one network. */
  ghost predicate SoleClient(dhcp6: seq<Binding>, h: Ip) {
    && (exists b :: b in dhcp6 && BindsClient(b, h))
    && (forall b, c :: b in dhcp6 && c in dhcp6 && BindsClient(b, h) && BindsClient(c, h) ==>
          b.address.net == c.address.net)
  }

  lemma ClientClaimsAre(dhcp6: seq<Binding>, h: Ip, c: Claim)
    requires c.key == Host(h)
    ensures c in Collected(BoundClient, dhcp6) <==>
      exists b :: b in dhcp6 && BindsClient(b, h)
                  && c == Claim(Host(h), Record(0, 0, b.address.net.value, b.address, false))
  {
    CollectedIn(BoundClient, dhcp6, c);
    forall b ensures BoundClient(b) == Some(c) <==>
      BindsClient(b, h) && c == Claim(Host(h), Record(0, 0, b.address.net.value, b.address, false))
    {
      GlobalIsUsable(b.address);
    }
  }

  /** The client table knows an address exactly when it has bindings, and trusts it exactly when they agree. */
  lemma ClientTableIs(dhcp6: seq<Binding>, h: Ip)
    ensures var m, k := ClientTable(dhcp6), Host(h);
      && (k in m && !m[k].ambiguous <==> SoleClient(dhcp6, h))
      && (k in m ==> exists b :: b in dhcp6 && BindsClient(b, h) && b.address == m[k].address)
  {
    var claims, k := Collected(BoundClient, dhcp6), Host(h);
    CollectedFresh(Clients, BoundClient, dhcp6);
    FoldWinner(Clients, claims, k);
    if exists b :: b in dhcp6 && BindsClient(b, h) {
      var b :| b in dhcp6 && BindsClient(b, h);
      ClientClaimsAre(dhcp6, h, Claim(k, Record(0, 0, b.address.net.value, b.address, false)));
    }
    if k in ClientTable(dhcp6) {
      var r := ClientTable(dhcp6)[k];
      var win := Claim(k, r.(ambiguous := false));
      ClientClaimsAre(dhcp6, h, win);
      var b :| b in dhcp6 && BindsClient(b, h) && win == Claim(k, Record(0, 0, b.address.net.value, b.address, false));
      forall c | c in dhcp6 && BindsClient(c, h) ensures !r.ambiguous ==> c.address.net == b.address.net {
        ClientClaimsAre(dhcp6, h, Claim(k, Record(0, 0, c.address.net.value, c.address, false)));
      }
      if r.ambiguous {
        var d :| d in claims && d.key == k && Level(Clients, d.rec) == Level(Clients, r)
                 && d.rec.canonical != r.canonical;
        ClientClaimsAre(dhcp6, h, d);
      }
    }
  }

  // ----- IPv6: what each source offers -----

  datatype Source = FromDhcp | FromNeighbor | FromArp

  /** DHCPv6 binds the network to a DUID with this MAC. */
  ghost predicate BoundToMac(l: Lists, mac: string, a: Address) {
    exists b :: b in l.dhcp6 && MacFromDuid(b.duid) == Some(mac) && b.address == a
  }

  /** A neighbour with this MAC at a trusted client address, bound to the network. */
  ghost predicate BoundToNeighbor(l: Lists, mac: string, a: Address) {
    exists e, b ::
      && e in l.neighbors && e.mac == Some(mac) && e.address.ip.Some? && SoleClient(l.dhcp6, e.address.ip.value)
      && b in l.dhcp6 && BindsClient(b, e.address.ip.value) && b.address == a
  }

  /** A neighbour with this MAC at an address that is no trusted client. */
  ghost predicate PlainNeighbor(l: Lists, mac: string, a: Address) {
    exists e ::
      && e in l.neighbors && e.mac == Some(mac) && e.address.ip.Some? && !SoleClient(l.dhcp6, e.address.ip.value)
      && e.address == a
  }

  ghost predicate InArp(l: Lists, mac: string, a: Address) {
    exists e :: e in l.arp && e.mac == Some(mac) && e.address.ip.Some? && e.address.ip.value.V6? && e.address == a
  }

  ghost predicate Offers6(src: Source, l: Lists, mac: string, a: Address) {
    && mac != "" && Global(a)
    && match src
       case FromDhcp => BoundToMac(l, mac, a) || BoundToNeighbor(l, mac, a)
       case FromNeighbor => PlainNeighbor(l, mac, a)
       case FromArp => InArp(l, mac, a)
  }

  ghost predicate AnyOffers6(src: Source, l: Lists, mac: string) {
    exists a :: Offers6(src, l, mac, a)
  }

  ghost predicate OffersPrefix(src: Source, l: Lists, mac: string) {
    exists a :: Offers6(src, l, mac, a) && IsPrefix(a)
  }

  /** Two offers of this source and form name different networks. */
  ghost predicate Differ6(src: Source, l: Lists, mac: string, wide: bool) {
    exists a, b ::
      && Offers6(src, l, mac, a) && Offers6(src, l, mac, b) && IsPrefix(a) == IsPrefix(b) == wide && a.net != b.net
  }

  /** What the record must be when this source decides: a prefix if it offers any, and ambiguous if they differ. */
  ghost predicate Decided6(m: map<Key, Record>, src: Source, l: Lists, mac: string) {
    && Mac(mac) in m
    && var r := m[Mac(mac)];
       && Offers6(src, l, mac, r.address) && IsPrefix(r.address) == OffersPrefix(src, l, mac)
       && (r.ambiguous <==> Differ6(src, l, mac, OffersPrefix(src, l, mac)))
  }

  // ----- IPv6: the claims behind the offers -----

  function PriorityOf(src: Source): (p: int) {
    match src
    case FromDhcp => DHCP
    case FromNeighbor => NEIGHBOR
    case FromArp => ARP
  }

  function As6(mac: string, a: Address, src: Source): (c: Claim)
    requires Global(a)
  {
    Claim(Mac(mac), Record(PriorityOf(src), if IsPrefix(a) then PREFIX else HOST, a.net.value, a, false))
  }

  lemma Claim6Is(mac: string, a: Address, src: Source, c: Claim)
    ensures Claim6(mac, a, PriorityOf(src)) == Some(c) <==> mac != "" && Global(a) && c == As6(mac, a, src)
  {
    GlobalIsUsable(a);
  }

  /** A claim for the MAC comes from an offer of its source. */
  lemma ClaimIsOffer(l: Lists, mac: string, c: Claim)
    requires c.key == Mac(mac) && c in Claims6(l.arp, l.dhcp6, l.neighbors)
    ensures exists src :: Offers6(src, l, mac, c.rec.address) && c == As6(mac, c.rec.address, src)
  {
    var clients := ClientTable(l.dhcp6);
    CollectedIn(Arp6, l.arp, c);
    CollectedIn(Bound6, l.dhcp6, c);
    CollectedIn(e => Neighbor6(clients, e), l.neighbors, c);
    if c in Collected(Arp6, l.arp) {
      var e :| e in l.arp && Arp6(e) == Some(c);
      Claim6Is(mac, e.address, FromArp, c);
      assert Offers6(FromArp, l, mac, c.rec.address);
    } else if c in Collected(Bound6, l.dhcp6) {
      var b :| b in l.dhcp6 && Bound6(b) == Some(c);
      Claim6Is(mac, b.address, FromDhcp, c);
      assert BoundToMac(l, mac, c.rec.address) && Offers6(FromDhcp, l, mac, c.rec.address);
    } else {
      var e :| e in l.neighbors && Neighbor6(clients, e) == Some(c);
      NeighborClaimIsOffer(l, mac, e, c);
    }
  }

  lemma NeighborClaimIsOffer(l: Lists, mac: string, e: Entry, c: Claim)
    requires c.key == Mac(mac) && e in l.neighbors && Neighbor6(ClientTable(l.dhcp6), e) == Some(c)
    ensures exists src :: Offers6(src, l, mac, c.rec.address) && c == As6(mac, c.rec.address, src)
  {
    var clients, h := ClientTable(l.dhcp6), e.address.ip.value;
    ClientTableIs(l.dhcp6, h);
    if SoleClient(l.dhcp6, h) {
      Claim6Is(mac, clients[Host(h)].address, FromDhcp, c);
      assert BoundToNeighbor(l, mac, c.rec.address);
      assert Offers6(FromDhcp, l, mac, c.rec.address);
    } else {
      Claim6Is(mac, e.address, FromNeighbor, c);
      assert PlainNeighbor(l, mac, c.rec.address);
      assert Offers6(FromNeighbor, l, mac, c.rec.address);
    }
  }

  /** Every offer is claimed, up to the spelling of its network. */
  lemma OfferIsClaim(src: Source, l: Lists, mac: string, a: Address) returns (b: Address)
    requires Offers6(src, l, mac, a)
    ensures Global(b) && b.net == a.net && As6(mac, b, src) in Claims6(l.arp, l.dhcp6, l.neighbors)
  {
    b := a;
    var clients := ClientTable(l.dhcp6);
    match src
    case FromArp =>
      var e :| e in l.arp && e.mac == Some(mac) && e.address.ip.Some? && e.address.ip.value.V6? && e.address == a;
      Claim6Is(mac, a, src, As6(mac, a, src));
      CollectedIn(Arp6, l.arp, As6(mac, a, src));
    case FromNeighbor =>
      var e :| && e in l.neighbors && e.mac == Some(mac) && e.address.ip.Some?
               && !SoleClient(l.dhcp6, e.address.ip.value) && e.address == a;
      ClientTableIs(l.dhcp6, e.address.ip.value);
      Claim6Is(mac, a, src, As6(mac, a, src));
      CollectedIn(e => Neighbor6(clients, e), l.neighbors, As6(mac, a, src));
    case FromDhcp =>
      if BoundToMac(l, mac, a) {
        var d :| d in l.dhcp6 && MacFromDuid(d.duid) == Some(mac) && d.address == a;
        Claim6Is(mac, a, src, As6(mac, a, src));
        CollectedIn(Bound6, l.dhcp6, As6(mac, a, src));
      } else {
        b := ClientOfferIsClaim(l, mac, a);
      }
  }

  lemma ClientOfferIsClaim(l: Lists, mac: string, a: Address) returns (b: Address)
    requires mac != "" && Global(a) && BoundToNeighbor(l, mac, a)
    ensures Global(b) && b.net == a.net && As6(mac, b, FromDhcp) in Claims6(l.arp, l.dhcp6, l.neighbors)
  {
    var clients := ClientTable(l.dhcp6);
    var e, d :| && e in l.neighbors && e.mac == Some(mac) && e.address.ip.Some?
                && SoleClient(l.dhcp6, e.address.ip.value)
                && d in l.dhcp6 && BindsClient(d, e.address.ip.value) && d.address == a;
    var h := e.address.ip.value;
    ClientTableIs(l.dhcp6, h);
    b := clients[Host(h)].address;
    Claim6Is(mac, b, FromDhcp, As6(mac, b, FromDhcp));
    CollectedIn(e => Neighbor6(clients, e), l.neighbors, As6(mac, b, FromDhcp));
  }

  // ----- IPv6: who decides -----

  /** No source before this one offers anything. */
  ghost predicate Leading(src: Source, l: Lists, mac: string) {
    && (!src.FromDhcp? ==> !AnyOffers6(FromDhcp, l, mac))
    && (src.FromArp? ==> !AnyOffers6(FromNeighbor, l, mac))
  }

  lemma WinnerOffer(src: Source, l: Lists, mac: string)
    requires Leading(src, l, mac) && AnyOffers6(src, l, mac)
    ensures var m := Fold(Mac6, Claims6(l.arp, l.dhcp6, l.neighbors));
      && Mac(mac) in m
      && var r := m[Mac(mac)];
         && Offers6(src, l, mac, r.address) && r.(ambiguous := false) == As6(mac, r.address, src).rec
         && IsPrefix(r.address) == OffersPrefix(src, l, mac)
  {
    var claims, k := Claims6(l.arp, l.dhcp6, l.neighbors), Mac(mac);
    Claims6Fresh(l.arp, l.dhcp6, l.neighbors);
    FoldWinner(Mac6, claims, k);
    var a :| Offers6(src, l, mac, a);
    var b := OfferIsClaim(src, l, mac, a);
    var r := Fold(Mac6, claims)[k];
    var win := Claim(k, r.(ambiguous := false));
    ClaimIsOffer(l, mac, win);
    var s :| Offers6(s, l, mac, r.address) && win == As6(mac, r.address, s);
    assert AnyOffers6(s, l, mac);
    assert Level(Mac6, As6(mac, b, src).rec) <= Level(Mac6, r);
    assert s == src;
    if OffersPrefix(src, l, mac) {
      var c :| Offers6(src, l, mac, c) && IsPrefix(c);
      var d := OfferIsClaim(src, l, mac, c);
      assert Level(Mac6, As6(mac, d, src).rec) <= Level(Mac6, r);
    }
  }

  /** r is the record of an offer of src that won. */
  ghost predicate WonBy(src: Source, l: Lists, mac: string, r: Record) {
    && Won(Mac6, Claims6(l.arp, l.dhcp6, l.neighbors), Mac(mac), r)
    && Offers6(src, l, mac, r.address) && r.(ambiguous := false) == As6(mac, r.address, src).rec
  }

  lemma RivalDiffers(src: Source, l: Lists, mac: string, r: Record)
    requires WonBy(src, l, mac, r) && r.ambiguous
    ensures Differ6(src, l, mac, IsPrefix(r.address))
  {
    var claims, k := Claims6(l.arp, l.dhcp6, l.neighbors), Mac(mac);
    var c :| c in claims && c.key == k && Level(Mac6, c.rec) == Level(Mac6, r) && c.rec.canonical != r.canonical;
    ClaimIsOffer(l, mac, c);
    var s :| Offers6(s, l, mac, c.rec.address) && c == As6(mac, c.rec.address, s);
    assert s == src && IsPrefix(c.rec.address) == IsPrefix(r.address);
  }

  /** An offer of the same source and form with another network is a rival. */
  lemma OfferIsRival(src: Source, l: Lists, mac: string, r: Record, a: Address)
    requires WonBy(src, l, mac, r) && Offers6(src, l, mac, a)
    requires IsPrefix(a) == IsPrefix(r.address) && a.net != r.address.net
    ensures r.ambiguous
  {
    var d := OfferIsClaim(src, l, mac, a);
    var c := As6(mac, d, src);
    assert Level(Mac6, c.rec) == Level(Mac6, r) && c.rec.canonical != r.canonical;
  }

  lemma Ambiguous6(src: Source, l: Lists, mac: string, r: Record)
    requires WonBy(src, l, mac, r)
    ensures r.ambiguous <==> Differ6(src, l, mac, IsPrefix(r.address))
  {
    if r.ambiguous { RivalDiffers(src, l, mac, r); }
    if Differ6(src, l, mac, IsPrefix(r.address)) {
      var a, b :|
        && Offers6(src, l, mac, a) && Offers6(src, l, mac, b) && IsPrefix(a) == IsPrefix(b) == IsPrefix(r.address)
        && a.net != b.net;
      if a.net != r.address.net {
        OfferIsRival(src, l, mac, r, a);
      } else {
        OfferIsRival(src, l, mac, r, b);
      }
    }
  }

  lemma WinnerDecides6(src: Source, l: Lists, mac: string)
    requires Leading(src, l, mac) && AnyOffers6(src, l, mac)
    ensures Decided6(Fold(Mac6, Claims6(l.arp, l.dhcp6, l.neighbors)), src, l, mac)
  {
    WinnerOffer(src, l, mac);
    Claims6Fresh(l.arp, l.dhcp6, l.neighbors);
    FoldWinner(Mac6, Claims6(l.arp, l.dhcp6, l.neighbors), Mac(mac));
    Ambiguous6(src, l, mac, Fold(Mac6, Claims6(l.arp, l.dhcp6, l.neighbors))[Mac(mac)]);
  }

  /** A bound network decides, then a neighbour, then ARP; without any of them there is no record. */
  ghost predicate Verdict6(m: map<Key, Record>, l: Lists, mac: string) {
    if AnyOffers6(FromDhcp, l, mac) then Decided6(m, FromDhcp, l, mac)
    else if AnyOffers6(FromNeighbor, l, mac) then Decided6(m, FromNeighbor, l, mac)
    else if AnyOffers6(FromArp, l, mac) then Decided6(m, FromArp, l, mac)
    else Mac(mac) !in m
  }

  lemma BoundBeforeNeighborBeforeArp(l: Lists, mac: string)
    ensures Verdict6(Fold(Mac6, Claims6(l.arp, l.dhcp6, l.neighbors)), l, mac)
  {
    if AnyOffers6(FromDhcp, l, mac) {
      WinnerDecides6(FromDhcp, l, mac);
    } else if AnyOffers6(FromNeighbor, l, mac) {
      WinnerDecides6(FromNeighbor, l, mac);
    } else if AnyOffers6(FromArp, l, mac) {
      WinnerDecides6(FromArp, l, mac);
    } else {
      forall src ensures !AnyOffers6(src, l, mac) {
        assert src == FromDhcp || src == FromNeighbor || src == FromArp;
      }
      NoOfferNoRecord(l, mac);
    }
  }

  lemma NoOfferNoRecord(l: Lists, mac: string)
    requires forall src :: !AnyOffers6(src, l, mac)
    ensures Mac(mac) !in Fold(Mac6, Claims6(l.arp, l.dhcp6, l.neighbors))
  {
    var claims := Claims6(l.arp, l.dhcp6, l.neighbors);
    Claims6Fresh(l.arp, l.dhcp6, l.neighbors);
    FoldWinner(Mac6, claims, Mac(mac));
    if Mac(mac) in Fold(Mac6, claims) {
      var c :| c in claims && c.key == Mac(mac);
      ClaimIsOffer(l, mac, c);
      var s :| Offers6(s, l, mac, c.rec.address) && c == As6(mac, c.rec.address, s);
      assert AnyOffers6(s, l, mac);
    }
  }
}
