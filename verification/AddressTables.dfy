/** The dictionaries of the merge, updated in place list by list, and the map they are joined into. */
module AddressTables {
  import opened Common
  import opened AddressMerge
  import opened AddressPriority

  class Tables {
    var mac4: map<Key, Record>
    var mac6: map<Key, Record>
    var clients: map<Key, Record>
    var order6: seq<Key>

    constructor ()
      ensures mac4 == map[] && mac6 == map[] && clients == map[] && order6 == []
    {
      mac4, mac6, clients, order6 := map[], map[], map[], [];
    }

    method RecordIpv4ForMac(mac: string, a: Address, priority: int)
      modifies this`mac4
      ensures mac4 == Put(Mac4, old(mac4), Claim4(mac, a, priority))
    {
      if mac == "" || a.text == "" || a.ip.None? { return; }
      var k := Mac(mac);
      var candidate := Record(priority, a.ip.value.value, Net(a.ip.value, 32), a, false);
      if k !in mac4 || priority > mac4[k].priority {
        mac4 := mac4[k := candidate];
      } else if priority == mac4[k].priority && candidate.canonical != mac4[k].canonical {
        mac4 := mac4[k := mac4[k].(ambiguous := true)];
      }
    }

    method RecordIpv6ForMac(mac: string, a: Address, priority: int)
      modifies this`mac6, this`order6
      ensures mac6 == Put(Mac6, old(mac6), Claim6(mac, a, priority))
      ensures order6 == Enter(old(order6), Claim6(mac, a, priority))
    {
      if mac == "" || !Usable(a) { return; }
      var k := Mac(mac);
      var candidate := Record(priority, Ipv6Rank(a.net), a.net.value, a, false);
      if k !in mac6 || priority > mac6[k].priority {
        mac6 := mac6[k := candidate];
      } else if priority == mac6[k].priority {
        if candidate.rank > mac6[k].rank {
          mac6 := mac6[k := candidate];
        } else if candidate.rank == mac6[k].rank && candidate.canonical != mac6[k].canonical {
          mac6 := mac6[k := mac6[k].(ambiguous := true)];
        }
      }
      if k !in order6 { order6 := order6 + [k]; }
    }

    method RecordClientAddressBinding(client: Ip, a: Address)
      modifies this`clients
      ensures clients == Put(Clients, old(clients), ClaimClient(client, a))
    {
      if !Usable(a) { return; }
      var k := Host(client);
      if k !in clients {
        clients := clients[k := Record(0, 0, a.net.value, a, false)];
      } else if a.net.value != clients[k].canonical {
        clients := clients[k := clients[k].(ambiguous := true)];
      }
    }

    method RecordArp(e: Entry)
      modifies this`mac4, this`mac6, this`order6
      ensures mac4 == Put(Mac4, old(mac4), Arp4(e))
      ensures mac6 == Put(Mac6, old(mac6), Arp6(e)) && order6 == Enter(old(order6), Arp6(e))
    {
      if e.mac.None? || e.address.ip.None? { return; }
      if e.address.ip.value.V4? {
        RecordIpv4ForMac(e.mac.value, e.address, ARP);
      } else {
        RecordIpv6ForMac(e.mac.value, e.address, ARP);
      }
    }

    method RecordBinding(b: Binding)
      modifies this`mac6, this`order6, this`clients
      ensures mac6 == Put(Mac6, old(mac6), Bound6(b)) && order6 == Enter(old(order6), Bound6(b))
      ensures clients == Put(Clients, old(clients), BoundClient(b))
    {
      var mac := MacFromDuid(b.duid);
      if mac.Some? && b.address.text != "" {
        RecordIpv6ForMac(mac.value, b.address, DHCP);
      } else if b.client.Some? && b.address.text != "" {
        RecordClientAddressBinding(b.client.value, b.address);
      }
    }

    method RecordNeighbor(e: Entry)
      modifies this`mac6, this`order6
      ensures mac6 == Put(Mac6, old(mac6), Neighbor6(clients, e)) && order6 == Enter(old(order6), Neighbor6(clients, e))
    {
      if e.mac.None? || e.address.ip.None? { return; }
      var k := Host(e.address.ip.value);
      if k in clients && clients[k].ambiguous {
        RecordIpv6ForMac(e.mac.value, e.address, NEIGHBOR);
      } else if k in clients {
        RecordIpv6ForMac(e.mac.value, clients[k].address, DHCP);
      } else {
        RecordIpv6ForMac(e.mac.value, e.address, NEIGHBOR);
      }
    }

    ghost predicate Holds4(claims: seq<Claim>)
      reads this
    {
      mac4 == Fold(Mac4, claims)
    }

    ghost predicate Holds6(claims: seq<Claim>)
      reads this
    {
      mac6 == Fold(Mac6, claims) && order6 == Order(claims)
    }

    ghost predicate HoldsClients(claims: seq<Claim>)
      reads this
    {
      clients == Fold(Clients, claims)
    }

    method RecordLeases(arp: seq<Entry>, dhcp4: seq<Entry>)
      requires Holds4([]) && Holds6([])
      modifies this`mac4, this`mac6, this`order6
      ensures Holds4(Claims4(arp, dhcp4)) && Holds6(Collected(Arp6, arp))
    {
      ghost var none: seq<Claim> := [];
      assert none + Collected(Arp4, arp[..0]) == none && none + Collected(Arp6, arp[..0]) == none;
      for i := 0 to |arp|
        invariant Holds4(none + Collected(Arp4, arp[..i])) && Holds6(none + Collected(Arp6, arp[..i]))
      {
        FoldStep(Mac4, Arp4, arp, i, none);
        FoldStep(Mac6, Arp6, arp, i, none);
        OrderStep(Arp6, arp, i, none);
        RecordArp(arp[i]);
      }
      assert arp[..|arp|] == arp;
      ghost var base := Collected(Arp4, arp);
      assert none + base == base && base + Collected(Dhcp4, dhcp4[..0]) == base;
      assert none + Collected(Arp6, arp) == Collected(Arp6, arp);
      for i := 0 to |dhcp4|
        invariant Holds4(base + Collected(Dhcp4, dhcp4[..i])) && Holds6(Collected(Arp6, arp))
      {
        FoldStep(Mac4, Dhcp4, dhcp4, i, base);
        var e := dhcp4[i];
        if e.mac.Some? && e.address.ip.Some? && e.address.ip.value.V4? {
          RecordIpv4ForMac(e.mac.value, e.address, DHCP);
        }
      }
      assert dhcp4[..|dhcp4|] == dhcp4;
    }

    method RecordBindings(ghost base: seq<Claim>, dhcp6: seq<Binding>)
      requires Holds6(base) && clients == map[]
      modifies this`mac6, this`order6, this`clients
      ensures Holds6(base + Collected(Bound6, dhcp6)) && clients == ClientTable(dhcp6)
    {
      ghost var none: seq<Claim> := [];
      assert base + Collected(Bound6, dhcp6[..0]) == base;
      assert none + Collected(BoundClient, dhcp6[..0]) == none;
      for i := 0 to |dhcp6|
        invariant Holds6(base + Collected(Bound6, dhcp6[..i]))
        invariant HoldsClients(none + Collected(BoundClient, dhcp6[..i]))
      {
        FoldStep(Mac6, Bound6, dhcp6, i, base);
        OrderStep(Bound6, dhcp6, i, base);
        FoldStep(Clients, BoundClient, dhcp6, i, none);
        RecordBinding(dhcp6[i]);
      }
      assert dhcp6[..|dhcp6|] == dhcp6;
      assert none + Collected(BoundClient, dhcp6) == Collected(BoundClient, dhcp6);
    }

    method RecordNeighbors(ghost base: seq<Claim>, neighbors: seq<Entry>)
      requires Holds6(base)
      modifies this`mac6, this`order6
      ensures Holds6(base + NeighborClaims(clients, neighbors))
    {
      ghost var table := clients;
      assert base + NeighborClaims(table, neighbors[..0]) == base;
      for i := 0 to |neighbors|
        invariant clients == table && Holds6(base + NeighborClaims(table, neighbors[..i]))
      {
        FoldStep(Mac6, e => Neighbor6(table, e), neighbors, i, base);
        OrderStep(e => Neighbor6(table, e), neighbors, i, base);
        RecordNeighbor(neighbors[i]);
      }
      assert neighbors[..|neighbors|] == neighbors;
    }

    method Join() returns (result: map<string, string>)
      requires forall k :: k in order6 ==> k in mac6
      ensures result == Joined(mac4, mac6, order6)
    {
      result := map[];
      for i := 0 to |order6|
        invariant result == Joined(mac4, mac6, order6[..i])
      {
        var k := order6[i];
        assert order6[..i + 1][..i] == order6[..i] && order6[..i + 1][i] == k;
        if !mac6[k].ambiguous && k in mac4 && !mac4[k].ambiguous {
          result := result[mac4[k].address.text := mac6[k].address.text];
        }
      }
      assert order6[..|order6|] == order6;
    }

    /** _build_ipv4_to_ipv6_map: the four lists in turn, then the join. */
    method Build(arp: seq<Entry>, dhcp4: seq<Entry>, dhcp6: seq<Binding>,
                 neighbors: seq<Entry>) returns (result: map<string, string>)
      modifies this
      ensures mac4 == Fold(Mac4, Claims4(arp, dhcp4))
      ensures mac6 == Fold(Mac6, Claims6(arp, dhcp6, neighbors)) && order6 == Order(Claims6(arp, dhcp6, neighbors))
      ensures clients == ClientTable(dhcp6)
      ensures result == Joined(mac4, mac6, order6)
      ensures forall mac: string :: Decided(mac4, mac6, Lists(arp, dhcp4, dhcp6, neighbors), mac)
      ensures forall v4 :: v4 in result ==> exists mac: string :: Pairs(mac4, mac6, mac, v4, result[v4])
      ensures forall mac, v4, v6 :: Pairs(mac4, mac6, mac, v4, v6) ==> v4 in result
    {
      mac4, mac6, clients, order6 := map[], map[], map[], [];
      RecordLeases(arp, dhcp4);
      RecordBindings(Collected(Arp6, arp), dhcp6);
      RecordNeighbors(Collected(Arp6, arp) + Collected(Bound6, dhcp6), neighbors);
      forall k | k in order6 ensures k in mac6 { OrderIsKeys(Claims6(arp, dhcp6, neighbors), k); }
      result := Join();
      forall mac: string ensures Decided(mac4, mac6, Lists(arp, dhcp4, dhcp6, neighbors), mac) {
        LeaseBeforeArp(arp, dhcp4, mac);
        BoundBeforeNeighborBeforeArp(Lists(arp, dhcp4, dhcp6, neighbors), mac);
      }
      forall v4 | v4 in result ensures exists mac: string :: Pairs(mac4, mac6, mac, v4, result[v4]) {
        JoinedIsPaired(mac4, mac6, order6, v4);
        PairedMac(arp, dhcp6, neighbors, mac4, mac6, v4, result[v4]);
      }
      forall mac, v4, v6 | Pairs(mac4, mac6, mac, v4, v6) ensures v4 in result {
        OrderIsKeys(Claims6(arp, dhcp6, neighbors), Mac(mac));
        assert Gives(mac4, mac6, order6, v4, v6);
        JoinedIsPaired(mac4, mac6, order6, v4);
      }
    }
  }

  /** Both records are the ones the lists decide. */
  ghost predicate Decided(m4: map<Key, Record>, m6: map<Key, Record>, l: Lists, mac: string) {
    Verdict4(m4, l.arp, l.dhcp4, mac) && Verdict6(m6, l, mac)
  }

  /** Both records of the MAC are trusted, and these are their texts. */
  ghost predicate Pairs(m4: map<Key, Record>, m6: map<Key, Record>, mac: string, v4: string, v6: string) {
    var k := Mac(mac);
    && k in m4 && k in m6 && !m4[k].ambiguous && !m6[k].ambiguous
    && v4 == m4[k].address.text && v6 == m6[k].address.text
  }

  /** IPv6 records belong to MACs. */
  lemma {:induction false} OrderIsMacs(claims: seq<Claim>, k: Key)
    requires k in Order(claims) && forall c :: c in claims ==> c.key.Mac?
    ensures k.Mac?
  {
    var init, last := claims[..|claims| - 1], claims[|claims| - 1];
    assert last in claims;
    if k != last.key {
      assert forall c :: c in init ==> c in claims;
      OrderIsMacs(init, k);
    }
  }

  lemma Claims6AreMacs(arp: seq<Entry>, dhcp6: seq<Binding>, neighbors: seq<Entry>, c: Claim)
    requires c in Claims6(arp, dhcp6, neighbors)
    ensures c.key.Mac?
  {
    CollectedIn(Arp6, arp, c);
    CollectedIn(Bound6, dhcp6, c);
    CollectedIn(e => Neighbor6(ClientTable(dhcp6), e), neighbors, c);
  }

  lemma PairedMac(arp: seq<Entry>, dhcp6: seq<Binding>, neighbors: seq<Entry>, m4: map<Key, Record>,
                  m6: map<Key, Record>, v4: string, v6: string)
    requires Gives(m4, m6, Order(Claims6(arp, dhcp6, neighbors)), v4, v6)
    ensures exists mac: string :: Pairs(m4, m6, mac, v4, v6)
  {
    var claims := Claims6(arp, dhcp6, neighbors);
    var k :| k in Order(claims) && PairOf(m4, m6, k) == Some(Pair(v4, v6));
    forall c | c in claims ensures c.key.Mac? { Claims6AreMacs(arp, dhcp6, neighbors, c); }
    OrderIsMacs(claims, k);
    assert Pairs(m4, m6, k.name, v4, v6);
  }
}
