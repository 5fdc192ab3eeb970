/**
 * The prioritised merge of four router lists into one IPv4 and one IPv6 record per MAC address.
 * Addresses arrive parsed: a text, the host it names and the network it names.
 */
module AddressMerge {
  import opened Common

  type Byte = b: nat | b < 256

  datatype Ip = V4(value: nat) | V6(value: nat)

  /** A canonical network: its base address and prefix length. */
  datatype Net = Net(base: Ip, prefix: nat)

  /** An address text with what the parser reads in it; the empty text stands for a missing one. */
  datatype Address = Address(text: string, ip: Option<Ip>, net: Option<Net>)

  datatype Key = Mac(name: string) | Host(ip: Ip)

  datatype Record = Record(priority: int, rank: int, canonical: Net, address: Address, ambiguous: bool)

  datatype Entry = Entry(mac: Option<string>, address: Address)

  /** A DHCPv6 binding: the bytes of its DUID, the parsed client-address and the bound address. */
  datatype Binding = Binding(duid: seq<Byte>, client: Option<Ip>, address: Address)

  /** The input of one build. */
  datatype Lists = Lists(arp: seq<Entry>, dhcp4: seq<Entry>, dhcp6: seq<Binding>, neighbors: seq<Entry>)

  const ARP := 0
  const NEIGHBOR := 1
  const DHCP := 2

  const INVALID := -1
  const LINK_LOCAL := 0
  const HOST := 1
  const PREFIX := 2

  // ----- Ranks and DUIDs -----

  function Ipv6Rank(net: Option<Net>): (r: int) {
    if net.None? || net.value.base.V4? then INVALID
    else
      var v := net.value.base.value;
      if v == 0 || v == 1 || 0xFF00_0000_0000_0000_0000_0000_0000_0000 <= v then INVALID
      else if 0xFE80_0000_0000_0000_0000_0000_0000_0000 <= v < 0xFEC0_0000_0000_0000_0000_0000_0000_0000 then LINK_LOCAL
      else if net.value.prefix < 128 then PREFIX else HOST
  }

  const HEX := "0123456789ABCDEF"

  function HexText(bytes: seq<Byte>): (s: string) {
    if bytes == [] then "" else [HEX[bytes[0] / 16], HEX[bytes[0] % 16]] + HexText(bytes[1..])
  }

  /** DUID-LLT and DUID-LL end in the link-layer address; every other DUID gives none. */
  function MacFromDuid(duid: seq<Byte>): (mac: Option<string>) {
    if |duid| == 14 && duid[0] == 0 && duid[1] == 1 then Some(HexText(duid[8..14]))
    else if |duid| == 10 && duid[0] == 0 && duid[1] == 3 then Some(HexText(duid[4..10]))
    else None
  }

  lemma {:induction false} HexTextLength(a: seq<Byte>)
    ensures |HexText(a)| == 2 * |a|
  {
    if a == [] {
    } else {
      HexTextLength(a[1..]);
    }
  }

  /** Two DUIDs give the same MAC exactly when they carry the same link-layer address. */
  lemma {:induction false} HexTextInjective(a: seq<Byte>, b: seq<Byte>)
    requires |a| == |b|
    ensures HexText(a) == HexText(b) <==> a == b
  {
    if a == [] {
    } else {
      var x, y := HexText(a), HexText(b);
      HexTextLength(a);
      HexTextLength(b);
      HexTextInjective(a[1..], b[1..]);
      assert x[2..] == HexText(a[1..]) && y[2..] == HexText(b[1..]);
      if x == y {
        HexDigit(a[0] / 16, b[0] / 16, x[0]);
        HexDigit(a[0] % 16, b[0] % 16, x[1]);
        assert a == [a[0]] + a[1..] && b == [b[0]] + b[1..];
      }
    }
  }

  lemma HexDigit(i: nat, j: nat, c: char)
    requires i < 16 && j < 16 && HEX[i] == c && HEX[j] == c
    ensures i == j
  {
    assert forall d: nat :: d < 16 ==> HEX[d] as int == if d < 10 then 48 + d else 55 + d;
  }

  /** The layouts of sections 11.2 and 11.4 of RFC 8415, whatever hardware type and time they hold. */
  lemma DuidCarriesMac(hardware: seq<Byte>, time: seq<Byte>, mac: seq<Byte>)
    requires |hardware| == 2 && |time| == 4 && |mac| == 6
    ensures MacFromDuid([0, 1] + hardware + time + mac) == Some(HexText(mac))
    ensures MacFromDuid([0, 3] + hardware + mac) == Some(HexText(mac))
  {
    assert ([0, 1] + hardware + time + mac)[8..14] == mac;
    assert ([0, 3] + hardware + mac)[4..10] == mac;
  }

  /** A MAC read from a DUID is the link-layer address of one of the two layouts. */
  lemma MacComesFromDuid(duid: seq<Byte>) returns (hardware: seq<Byte>, time: seq<Byte>, mac: seq<Byte>)
    requires MacFromDuid(duid).Some?
    ensures |hardware| == 2 && |mac| == 6 && MacFromDuid(duid) == Some(HexText(mac))
    ensures (duid == [0, 1] + hardware + time + mac && |time| == 4) || duid == [0, 3] + hardware + mac
  {
    hardware, time := duid[2..4], [];
    if |duid| == 14 {
      time, mac := duid[4..8], duid[8..14];
      assert duid == [0, 1] + hardware + time + mac;
    } else {
      mac := duid[4..10];
      assert duid == [0, 3] + hardware + mac;
    }
  }

  // ----- Recording one address -----

  datatype Table = Mac4 | Mac6 | Clients

  /** _record_ipv4_for_mac on the current record. */
  function Keep4(current: Option<Record>, c: Record): (r: Record) {
    if current.None? || c.priority > current.value.priority then c
    else if c.priority == current.value.priority && c.canonical != current.value.canonical
    then current.value.(ambiguous := true)
    else current.value
  }

  /** _record_ipv6_for_mac on the current record. */
  function Keep6(current: Option<Record>, c: Record): (r: Record) {
    if current.None? || c.priority > current.value.priority then c
    else if c.priority == current.value.priority then
      if c.rank > current.value.rank then c
      else if c.rank == current.value.rank && c.canonical != current.value.canonical
      then current.value.(ambiguous := true)
      else current.value
    else current.value
  }

  /** _record_client_address_binding on the current record. */
  function KeepClient(current: Option<Record>, c: Record): (r: Record) {
    if current.None? then c
    else if c.canonical != current.value.canonical then current.value.(ambiguous := true)
    else current.value
  }

  function Merge(t: Table, current: Option<Record>, c: Record): (r: Record) {
    match t
    case Mac4 => Keep4(current, c)
    case Mac6 => Keep6(current, c)
    case Clients => KeepClient(current, c)
  }

  // ----- Claims: what each entry asks to be recorded -----

  datatype Claim = Claim(key: Key, rec: Record)

  function Claim4(mac: string, a: Address, priority: int): (c: Option<Claim>) {
    if mac == "" || a.text == "" || a.ip.None? then None
    else Some(Claim(Mac(mac), Record(priority, a.ip.value.value, Net(a.ip.value, 32), a, false)))
  }

  /** What _record_ipv6_for_mac takes: a network that is neither invalid nor link-local. */
  predicate Usable(a: Address) {
    a.text != "" && a.net.Some? && Ipv6Rank(a.net) != INVALID && Ipv6Rank(a.net) != LINK_LOCAL
  }

  function Claim6(mac: string, a: Address, priority: int): (c: Option<Claim>) {
    if mac == "" || !Usable(a) then None
    else Some(Claim(Mac(mac), Record(priority, Ipv6Rank(a.net), a.net.value, a, false)))
  }

  /** A client binding has no priority and no rank. */
  function ClaimClient(client: Ip, a: Address): (c: Option<Claim>) {
    if !Usable(a) then None else Some(Claim(Host(client), Record(0, 0, a.net.value, a, false)))
  }

  function Arp4(e: Entry): (c: Option<Claim>) {
    if e.mac.Some? && e.address.ip.Some? && e.address.ip.value.V4? then Claim4(e.mac.value, e.address, ARP) else None
  }

  function Arp6(e: Entry): (c: Option<Claim>) {
    if e.mac.Some? && e.address.ip.Some? && e.address.ip.value.V6? then Claim6(e.mac.value, e.address, ARP) else None
  }

  function Dhcp4(e: Entry): (c: Option<Claim>) {
    if e.mac.Some? && e.address.ip.Some? && e.address.ip.value.V4? then Claim4(e.mac.value, e.address, DHCP) else None
  }

  function Bound6(b: Binding): (c: Option<Claim>) {
    if MacFromDuid(b.duid).Some? && b.address.text != ""
    then Claim6(MacFromDuid(b.duid).value, b.address, DHCP) else None
  }

  function BoundClient(b: Binding): (c: Option<Claim>) {
    if MacFromDuid(b.duid).Some? && b.address.text != "" then None
    else if b.client.Some? && b.address.text != "" then ClaimClient(b.client.value, b.address)
    else None
  }

  /** A neighbour whose address is an unambiguous client of DHCPv6 claims the bound network instead. */
  function Neighbor6(clients: map<Key, Record>, e: Entry): (c: Option<Claim>) {
    if e.mac.None? || e.address.ip.None? then None
    else
      var k := Host(e.address.ip.value);
      if k in clients && !clients[k].ambiguous then Claim6(e.mac.value, clients[k].address, DHCP)
      else Claim6(e.mac.value, e.address, NEIGHBOR)
  }

  // ----- Tables as folds of claims -----

  function Get(m: map<Key, Record>, k: Key): (r: Option<Record>) {
    if k in m then Some(m[k]) else None
  }

  function Put(t: Table, m: map<Key, Record>, c: Option<Claim>): (r: map<Key, Record>) {
    if c.None? then m else m[c.value.key := Merge(t, Get(m, c.value.key), c.value.rec)]
  }

  function Fold(t: Table, claims: seq<Claim>): (m: map<Key, Record>) {
    if claims == [] then map[]
    else Put(t, Fold(t, claims[..|claims| - 1]), Some(claims[|claims| - 1]))
  }

  function Listed(c: Option<Claim>): (s: seq<Claim>) {
    if c.None? then [] else [c.value]
  }

  function Collected<E>(f: E -> Option<Claim>, s: seq<E>): (r: seq<Claim>) {
    if s == [] then [] else Collected(f, s[..|s| - 1]) + Listed(f(s[|s| - 1]))
  }

  function Claims4(arp: seq<Entry>, dhcp4: seq<Entry>): (r: seq<Claim>) {
    Collected(Arp4, arp) + Collected(Dhcp4, dhcp4)
  }

  function ClientTable(dhcp6: seq<Binding>): (m: map<Key, Record>) {
    Fold(Clients, Collected(BoundClient, dhcp6))
  }

  function NeighborClaims(clients: map<Key, Record>, neighbors: seq<Entry>): (r: seq<Claim>) {
    Collected(e => Neighbor6(clients, e), neighbors)
  }

  function Claims6(arp: seq<Entry>, dhcp6: seq<Binding>, neighbors: seq<Entry>): (r: seq<Claim>) {
    Collected(Arp6, arp) + Collected(Bound6, dhcp6) + NeighborClaims(ClientTable(dhcp6), neighbors)
  }

  lemma FoldListed(t: Table, claims: seq<Claim>, c: Option<Claim>)
    ensures Fold(t, claims + Listed(c)) == Put(t, Fold(t, claims), c)
  {
    var all := claims + Listed(c);
    if c.Some? {
      assert all[..|all| - 1] == claims;
    } else {
      assert all == claims;
    }
  }

  lemma CollectedStep<E>(f: E -> Option<Claim>, s: seq<E>, i: nat, base: seq<Claim>)
    requires i < |s|
    ensures base + Collected(f, s[..i + 1]) == base + Collected(f, s[..i]) + Listed(f(s[i]))
  {
    assert s[..i + 1][..i] == s[..i] && s[..i + 1][i] == s[i];
  }

  /** One more entry adds its claim to a table. */
  lemma FoldStep<E>(t: Table, f: E -> Option<Claim>, s: seq<E>, i: nat, base: seq<Claim>)
    requires i < |s|
    ensures Fold(t, base + Collected(f, s[..i + 1])) == Put(t, Fold(t, base + Collected(f, s[..i])), f(s[i]))
  {
    CollectedStep(f, s, i, base);
    FoldListed(t, base + Collected(f, s[..i]), f(s[i]));
  }

  lemma {:induction false} CollectedIn<E>(f: E -> Option<Claim>, s: seq<E>, c: Claim)
    ensures c in Collected(f, s) <==> exists e :: e in s && f(e) == Some(c)
  {
    if s == [] {
    } else {
      var init, last := s[..|s| - 1], s[|s| - 1];
      CollectedIn(f, init, c);
      assert s == init + [last];
      assert last in s;
    }
  }

  // ----- What a fold holds -----

  /** The order of precedence within a table. */
  function Level(t: Table, r: Record): (l: int) {
    match t
    case Mac4 => r.priority
    case Mac6 => 4 * r.priority + r.rank
    case Clients => 0
  }

  predicate Fresh(t: Table, r: Record) {
    !r.ambiguous && (t.Mac6? ==> HOST <= r.rank <= PREFIX)
  }

  ghost predicate AllFresh(t: Table, claims: seq<Claim>) {
    forall c :: c in claims ==> Fresh(t, c.rec)
  }

  /** Some claim for k of the same level names another network than r. */
  ghost predicate Rival(t: Table, claims: seq<Claim>, k: Key, r: Record) {
    exists c :: c in claims && c.key == k && Level(t, c.rec) == Level(t, r) && c.rec.canonical != r.canonical
  }

  /** r is one of the highest claims for k, marked ambiguous exactly when it has a rival. */
  ghost predicate Won(t: Table, claims: seq<Claim>, k: Key, r: Record) {
    && Claim(k, r.(ambiguous := false)) in claims
    && (forall c :: c in claims && c.key == k ==> Level(t, c.rec) <= Level(t, r))
    && (r.ambiguous <==> Rival(t, claims, k, r))
  }

  /** Each record function compares levels only. */
  lemma MergeByLevel(t: Table, cur: Record, c: Record)
    requires t.Mac6? ==> HOST <= cur.rank <= PREFIX && HOST <= c.rank <= PREFIX
    ensures Merge(t, None, c) == c
    ensures Merge(t, Some(cur), c) ==
      if Level(t, c) > Level(t, cur) then c
      else if Level(t, c) == Level(t, cur) && c.canonical != cur.canonical then cur.(ambiguous := true)
      else cur
  {}

  lemma WonStep(t: Table, claims: seq<Claim>, k: Key, cur: Record, c: Claim)
    requires AllFresh(t, claims + [c]) && c.key == k && Won(t, claims, k, cur)
    ensures Won(t, claims + [c], k, Merge(t, Some(cur), c.rec))
  {
    var all := claims + [c];
    assert Claim(k, cur.(ambiguous := false)) in all && c in all;
    MergeByLevel(t, cur, c.rec);
    var r := Merge(t, Some(cur), c.rec);
    assert forall d :: d in all <==> d in claims || d == c;
    if Level(t, c.rec) > Level(t, cur) {
      assert r.(ambiguous := false) == c.rec && !Rival(t, all, k, r);
    } else {
      assert r.(ambiguous := false) == cur.(ambiguous := false);
      if Rival(t, claims, k, cur) {
        var d :| d in claims && d.key == k && Level(t, d.rec) == Level(t, cur) && d.rec.canonical != cur.canonical;
        assert d in all && Level(t, d.rec) == Level(t, r);
      }
    }
  }

  ghost predicate Claimed(claims: seq<Claim>, k: Key) {
    exists c :: c in claims && c.key == k
  }

  /** A table holds a record for exactly the claimed keys, and it is a winner. */
  lemma {:induction false} FoldWinner(t: Table, claims: seq<Claim>, k: Key)
    requires AllFresh(t, claims)
    ensures k in Fold(t, claims) <==> Claimed(claims, k)
    ensures k in Fold(t, claims) ==> Won(t, claims, k, Fold(t, claims)[k])
  {
    if claims == [] {
    } else {
      var init, c := claims[..|claims| - 1], claims[|claims| - 1];
      assert claims == init + [c];
      FoldWinner(t, init, k);
      if c.key != k {
        UnrelatedClaim(t, init, k, c);
      } else if k in Fold(t, init) {
        WonStep(t, init, k, Fold(t, init)[k], c);
        assert c in claims;
      } else {
        assert c in claims && Fold(t, claims)[k] == c.rec && c.rec.(ambiguous := false) == c.rec;
        assert forall d :: d in claims && d.key == k ==> d == c;
      }
    }
  }

  lemma UnrelatedClaim(t: Table, claims: seq<Claim>, k: Key, c: Claim)
    requires c.key != k
    ensures Claimed(claims + [c], k) <==> Claimed(claims, k)
    ensures forall r :: Won(t, claims, k, r) ==> Won(t, claims + [c], k, r)
  {
    var all := claims + [c];
    assert forall d :: d in all <==> d in claims || d == c;
    forall r | Won(t, claims, k, r) ensures Won(t, all, k, r) {
      assert Rival(t, all, k, r) <==> Rival(t, claims, k, r);
    }
  }

  /** The statement of ambiguity: two different networks share the top level. */
  lemma AmbiguousIff(t: Table, claims: seq<Claim>, k: Key)
    requires AllFresh(t, claims) && k in Fold(t, claims)
    ensures var r := Fold(t, claims)[k];
      r.ambiguous <==> exists a, b ::
        && a in claims && b in claims && a.key == k && b.key == k
        && Level(t, a.rec) == Level(t, r) && Level(t, b.rec) == Level(t, r)
        && a.rec.canonical != b.rec.canonical
  {
    FoldWinner(t, claims, k);
    var r := Fold(t, claims)[k];
    var win := Claim(k, r.(ambiguous := false));
    assert Level(t, win.rec) == Level(t, r);
    if r.ambiguous {
      var c :| c in claims && c.key == k && Level(t, c.rec) == Level(t, r) && c.rec.canonical != r.canonical;
      assert win in claims;
    }
  }

  // ----- The order of the lists -----

  /** The same claim up to the spelling of the address. */
  predicate Counterpart(t: Table, c: Claim, d: Claim) {
    d.key == c.key && Level(t, d.rec) == Level(t, c.rec) && d.rec.canonical == c.rec.canonical
  }

  predicate Member(claims: seq<Claim>, c: Claim) {
    c in claims
  }

  /** Every claim of a has a counterpart in b, up to the spelling of the address. */
  ghost predicate Covers(t: Table, a: seq<Claim>, b: seq<Claim>) {
    forall c :: Member(a, c) ==>
      exists d :: d in b && Counterpart(t, c, d)
  }

  /** The two tables agree on k: level, ambiguity and, when unambiguous, the network. */
  ghost predicate Agree(t: Table, m: map<Key, Record>, n: map<Key, Record>, k: Key) {
    && (k in m <==> k in n)
    && (k in m && k in n ==>
        && Level(t, m[k]) == Level(t, n[k])
        && m[k].ambiguous == n[k].ambiguous
        && (!m[k].ambiguous ==> m[k].canonical == n[k].canonical))
  }

  lemma TopLevelReached(t: Table, a: seq<Claim>, b: seq<Claim>, k: Key, r: Record, s: Record)
    requires Covers(t, a, b) && Won(t, a, k, r) && Won(t, b, k, s)
    ensures Level(t, r) <= Level(t, s)
    ensures Level(t, r) == Level(t, s) && r.canonical != s.canonical ==> s.ambiguous
    ensures Level(t, r) == Level(t, s) && r.ambiguous ==> s.ambiguous
  {
    var win := Claim(k, r.(ambiguous := false));
    assert Member(a, win);
    var d :| d in b && d.key == k && Level(t, d.rec) == Level(t, win.rec) && d.rec.canonical == r.canonical;
    if Level(t, r) == Level(t, s) && r.ambiguous {
      var c :| c in a && c.key == k && Level(t, c.rec) == Level(t, r) && c.rec.canonical != r.canonical;
      assert Member(a, c);
      var e :| e in b && Counterpart(t, c, e);
      assert d.rec.canonical != s.canonical || e.rec.canonical != s.canonical;
      assert Rival(t, b, k, s);
    }
  }

  lemma ClaimedCovered(t: Table, a: seq<Claim>, b: seq<Claim>, k: Key)
    requires Covers(t, a, b) && Claimed(a, k)
    ensures Claimed(b, k)
  {
    var c :| c in a && c.key == k;
    assert Member(a, c);
    var d :| d in b && Counterpart(t, c, d);
  }

  lemma WinnersAgree(t: Table, a: seq<Claim>, b: seq<Claim>, k: Key, r: Record, s: Record)
    requires Covers(t, a, b) && Covers(t, b, a) && Won(t, a, k, r) && Won(t, b, k, s)
    ensures Level(t, r) == Level(t, s) && r.ambiguous == s.ambiguous && (!r.ambiguous ==> r.canonical == s.canonical)
  {
    TopLevelReached(t, a, b, k, r, s);
    TopLevelReached(t, b, a, k, s, r);
  }

  /** Claims that differ only in order, repetition or spelling fold into agreeing tables. */
  lemma SameClaimsAgree(t: Table, a: seq<Claim>, b: seq<Claim>, k: Key)
    requires AllFresh(t, a) && AllFresh(t, b) && Covers(t, a, b) && Covers(t, b, a)
    ensures Agree(t, Fold(t, a), Fold(t, b), k)
  {
    FoldWinner(t, a, k);
    FoldWinner(t, b, k);
    if Claimed(a, k) { ClaimedCovered(t, a, b, k); }
    if Claimed(b, k) { ClaimedCovered(t, b, a, k); }
    if k in Fold(t, a) && k in Fold(t, b) {
      WinnersAgree(t, a, b, k, Fold(t, a)[k], Fold(t, b)[k]);
    }
  }

  ghost predicate SameElements<E(!new)>(a: seq<E>, b: seq<E>) {
    forall e :: e in a <==> e in b
  }

  lemma PermutationHasSameElements<E(!new)>(a: seq<E>, b: seq<E>)
    requires multiset(a) == multiset(b)
    ensures SameElements(a, b)
  {
    forall e ensures e in a <==> e in b {
      assert e in a <==> e in multiset(a);
      assert e in b <==> e in multiset(b);
    }
  }

  lemma CollectedSame<E(!new)>(f: E -> Option<Claim>, a: seq<E>, b: seq<E>)
    requires SameElements(a, b)
    ensures SameElements(Collected(f, a), Collected(f, b))
  {
    forall c ensures c in Collected(f, a) <==> c in Collected(f, b) {
      CollectedIn(f, a, c);
      CollectedIn(f, b, c);
    }
  }

  lemma SameCovers(t: Table, a: seq<Claim>, b: seq<Claim>)
    requires SameElements(a, b)
    ensures Covers(t, a, b)
  {}

  lemma CoversConcat(t: Table, a: seq<Claim>, b: seq<Claim>, c: seq<Claim>, d: seq<Claim>)
    requires Covers(t, a, c) && Covers(t, b, d)
    ensures Covers(t, a + b, c + d)
  {
    forall x | Member(a + b, x)
      ensures exists y :: y in c + d && Counterpart(t, x, y)
    {
      if x in a {
        assert Member(a, x);
        var y :| y in c && Counterpart(t, x, y);
        assert y in c + d;
      } else {
        assert Member(b, x);
        var y :| y in d && Counterpart(t, x, y);
        assert y in c + d;
      }
    }
  }

  lemma CollectedFresh<E>(t: Table, f: E -> Option<Claim>, s: seq<E>)
    requires forall e :: e in s && f(e).Some? ==> Fresh(t, f(e).value.rec)
    ensures AllFresh(t, Collected(f, s))
  {
    forall c | c in Collected(f, s) ensures Fresh(t, c.rec) { CollectedIn(f, s, c); }
  }

  lemma ConcatFresh(t: Table, a: seq<Claim>, b: seq<Claim>)
    requires AllFresh(t, a) && AllFresh(t, b)
    ensures AllFresh(t, a + b)
  {
    assert forall c :: c in a + b ==> c in a || c in b;
  }

  /** The record of a client keeps an address that names its network and is usable. */
  lemma ClientRecordNet(dhcp6: seq<Binding>, k: Key)
    requires k in ClientTable(dhcp6)
    ensures var r := ClientTable(dhcp6)[k]; Usable(r.address) && r.address.net == Some(r.canonical)
  {
    var claims := Collected(BoundClient, dhcp6);
    CollectedFresh(Clients, BoundClient, dhcp6);
    FoldWinner(Clients, claims, k);
    var r := ClientTable(dhcp6)[k];
    CollectedIn(BoundClient, dhcp6, Claim(k, r.(ambiguous := false)));
  }

  lemma ClientTablesAgree(a: seq<Binding>, b: seq<Binding>, k: Key)
    requires SameElements(a, b)
    ensures Agree(Clients, ClientTable(a), ClientTable(b), k)
  {
    CollectedSame(BoundClient, a, b);
    CollectedFresh(Clients, BoundClient, a);
    CollectedFresh(Clients, BoundClient, b);
    SameCovers(Clients, Collected(BoundClient, a), Collected(BoundClient, b));
    SameCovers(Clients, Collected(BoundClient, b), Collected(BoundClient, a));
    SameClaimsAgree(Clients, Collected(BoundClient, a), Collected(BoundClient, b), k);
  }

  /** What a neighbour claims depends on the client table only up to the spelling of the bound address. */
  lemma NeighborClaimAgrees(a: seq<Binding>, b: seq<Binding>, e: Entry)
    requires SameElements(a, b)
    ensures var c, d := Neighbor6(ClientTable(a), e), Neighbor6(ClientTable(b), e);
      (c.Some? <==> d.Some?) &&
      (c.Some? && d.Some? ==>
        c.value.key == d.value.key && Level(Mac6, c.value.rec) == Level(Mac6, d.value.rec)
        && c.value.rec.canonical == d.value.rec.canonical)
  {
    if e.mac.Some? && e.address.ip.Some? {
      var k := Host(e.address.ip.value);
      ClientTablesAgree(a, b, k);
      if k in ClientTable(a) {
        ClientRecordNet(a, k);
        ClientRecordNet(b, k);
      }
    }
  }

  lemma NeighborClaimsCover(a: seq<Binding>, b: seq<Binding>, n: seq<Entry>, o: seq<Entry>)
    requires SameElements(a, b) && SameElements(n, o)
    ensures Covers(Mac6, NeighborClaims(ClientTable(a), n), NeighborClaims(ClientTable(b), o))
  {
    var f, g := e => Neighbor6(ClientTable(a), e), e => Neighbor6(ClientTable(b), e);
    forall c | Member(NeighborClaims(ClientTable(a), n), c)
      ensures exists d :: d in NeighborClaims(ClientTable(b), o) && Counterpart(Mac6, c, d)
    {
      CollectedIn(f, n, c);
      var e :| e in n && f(e) == Some(c);
      NeighborClaimAgrees(a, b, e);
      var d := g(e).value;
      CollectedIn(g, o, d);
      assert e in o && Counterpart(Mac6, c, d);
    }
  }

  lemma Claims6Fresh(arp: seq<Entry>, dhcp6: seq<Binding>, neighbors: seq<Entry>)
    ensures AllFresh(Mac6, Claims6(arp, dhcp6, neighbors))
  {
    var clients := ClientTable(dhcp6);
    CollectedFresh(Mac6, Arp6, arp);
    CollectedFresh(Mac6, Bound6, dhcp6);
    CollectedFresh(Mac6, e => Neighbor6(clients, e), neighbors);
    ConcatFresh(Mac6, Collected(Arp6, arp), Collected(Bound6, dhcp6));
    ConcatFresh(Mac6, Collected(Arp6, arp) + Collected(Bound6, dhcp6), NeighborClaims(clients, neighbors));
  }

  lemma Claims6Cover(arp: seq<Entry>, arp': seq<Entry>, dhcp6: seq<Binding>, dhcp6': seq<Binding>, n: seq<Entry>,
                     n': seq<Entry>)
    requires SameElements(arp, arp') && SameElements(dhcp6, dhcp6') && SameElements(n, n')
    ensures Covers(Mac6, Claims6(arp, dhcp6, n), Claims6(arp', dhcp6', n'))
  {
    CollectedSame(Arp6, arp, arp');
    CollectedSame(Bound6, dhcp6, dhcp6');
    SameCovers(Mac6, Collected(Arp6, arp), Collected(Arp6, arp'));
    SameCovers(Mac6, Collected(Bound6, dhcp6), Collected(Bound6, dhcp6'));
    CoversConcat(Mac6, Collected(Arp6, arp), Collected(Bound6, dhcp6), Collected(Arp6, arp'),
                 Collected(Bound6, dhcp6'));
    NeighborClaimsCover(dhcp6, dhcp6', n, n');
    CoversConcat(Mac6,
      Collected(Arp6, arp) + Collected(Bound6, dhcp6), NeighborClaims(ClientTable(dhcp6), n),
      Collected(Arp6, arp') + Collected(Bound6, dhcp6'), NeighborClaims(ClientTable(dhcp6'), n'));
  }

  /** A recorded IPv6 address is a host or a prefix, so its level gives back priority and rank. */
  lemma WinnerRank(claims: seq<Claim>, k: Key)
    requires AllFresh(Mac6, claims)
    ensures k in Fold(Mac6, claims) ==> HOST <= Fold(Mac6, claims)[k].rank <= PREFIX
  {
    FoldWinner(Mac6, claims, k);
    if k in Fold(Mac6, claims) {
      var win := Claim(k, Fold(Mac6, claims)[k].(ambiguous := false));
      assert Fresh(Mac6, win.rec);
    }
  }

  /** Reordering (or repeating) entries inside the lists changes no MAC's IPv6 verdict. */
  lemma Ipv6OrderFree(arp: seq<Entry>, arp': seq<Entry>, dhcp6: seq<Binding>, dhcp6': seq<Binding>, n: seq<Entry>,
                      n': seq<Entry>, k: Key)
    requires SameElements(arp, arp') && SameElements(dhcp6, dhcp6') && SameElements(n, n')
    ensures Agree(Mac6, Fold(Mac6, Claims6(arp, dhcp6, n)), Fold(Mac6, Claims6(arp', dhcp6', n')), k)
    ensures var m, m' := Fold(Mac6, Claims6(arp, dhcp6, n)), Fold(Mac6, Claims6(arp', dhcp6', n'));
      k in m && k in m' ==> m[k].priority == m'[k].priority && m[k].rank == m'[k].rank
  {
    Claims6Fresh(arp, dhcp6, n);
    Claims6Fresh(arp', dhcp6', n');
    Claims6Cover(arp, arp', dhcp6, dhcp6', n, n');
    Claims6Cover(arp', arp, dhcp6', dhcp6, n', n);
    SameClaimsAgree(Mac6, Claims6(arp, dhcp6, n), Claims6(arp', dhcp6', n'), k);
    WinnerRank(Claims6(arp, dhcp6, n), k);
    WinnerRank(Claims6(arp', dhcp6', n'), k);
  }

  lemma Claims4Fresh(arp: seq<Entry>, dhcp4: seq<Entry>)
    ensures AllFresh(Mac4, Claims4(arp, dhcp4))
  {
    CollectedFresh(Mac4, Arp4, arp);
    CollectedFresh(Mac4, Dhcp4, dhcp4);
    ConcatFresh(Mac4, Collected(Arp4, arp), Collected(Dhcp4, dhcp4));
  }

  lemma Claims4Cover(arp: seq<Entry>, arp': seq<Entry>, dhcp4: seq<Entry>, dhcp4': seq<Entry>)
    requires SameElements(arp, arp') && SameElements(dhcp4, dhcp4')
    ensures Covers(Mac4, Claims4(arp, dhcp4), Claims4(arp', dhcp4'))
  {
    CollectedSame(Arp4, arp, arp');
    CollectedSame(Dhcp4, dhcp4, dhcp4');
    SameCovers(Mac4, Collected(Arp4, arp), Collected(Arp4, arp'));
    SameCovers(Mac4, Collected(Dhcp4, dhcp4), Collected(Dhcp4, dhcp4'));
    CoversConcat(Mac4, Collected(Arp4, arp), Collected(Dhcp4, dhcp4), Collected(Arp4, arp'), Collected(Dhcp4, dhcp4'));
  }

  lemma Ipv4OrderFree(arp: seq<Entry>, arp': seq<Entry>, dhcp4: seq<Entry>, dhcp4': seq<Entry>, k: Key)
    requires SameElements(arp, arp') && SameElements(dhcp4, dhcp4')
    ensures Agree(Mac4, Fold(Mac4, Claims4(arp, dhcp4)), Fold(Mac4, Claims4(arp', dhcp4')), k)
  {
    Claims4Fresh(arp, dhcp4);
    Claims4Fresh(arp', dhcp4');
    Claims4Cover(arp, arp', dhcp4, dhcp4');
    Claims4Cover(arp', arp, dhcp4', dhcp4);
    SameClaimsAgree(Mac4, Claims4(arp, dhcp4), Claims4(arp', dhcp4'), k);
  }

  // ----- Joining the two tables -----

  datatype Pair = Pair(v4: string, v6: string)

  /** The addresses a MAC contributes: both records there and neither ambiguous. */
  function PairOf(m4: map<Key, Record>, m6: map<Key, Record>, k: Key): (p: Option<Pair>) {
    if k in m6 && !m6[k].ambiguous && k in m4 && !m4[k].ambiguous
    then Some(Pair(m4[k].address.text, m6[k].address.text)) else None
  }

  function AddPair(m: map<string, string>, p: Option<Pair>): (r: map<string, string>) {
    if p.None? then m else m[p.value.v4 := p.value.v6]
  }

  /** The result, the MACs taken in the order in which they entered the IPv6 dictionary. */
  function Joined(m4: map<Key, Record>, m6: map<Key, Record>, order: seq<Key>): (r: map<string, string>) {
    if order == [] then map[]
    else AddPair(Joined(m4, m6, order[..|order| - 1]), PairOf(m4, m6, order[|order| - 1]))
  }

  /** Keys by first insertion. */
  function Enter(order: seq<Key>, c: Option<Claim>): (r: seq<Key>) {
    if c.None? || c.value.key in order then order else order + [c.value.key]
  }

  function Order(claims: seq<Claim>): (r: seq<Key>) {
    if claims == [] then [] else Enter(Order(claims[..|claims| - 1]), Some(claims[|claims| - 1]))
  }

  lemma {:induction false} OrderIsKeys(claims: seq<Claim>, k: Key)
    ensures k in Order(claims) <==> k in Fold(Mac6, claims)
  {
    if claims == [] {
    } else {
      OrderIsKeys(claims[..|claims| - 1], k);
    }
  }

  lemma OrderListed(claims: seq<Claim>, c: Option<Claim>)
    ensures Order(claims + Listed(c)) == Enter(Order(claims), c)
  {
    var all := claims + Listed(c);
    if c.Some? {
      assert all[..|all| - 1] == claims;
    } else {
      assert all == claims;
    }
  }

  lemma OrderStep<E>(f: E -> Option<Claim>, s: seq<E>, i: nat, base: seq<Claim>)
    requires i < |s|
    ensures Order(base + Collected(f, s[..i + 1])) == Enter(Order(base + Collected(f, s[..i])), f(s[i]))
  {
    CollectedStep(f, s, i, base);
    OrderListed(base + Collected(f, s[..i]), f(s[i]));
  }

  ghost predicate Gives(m4: map<Key, Record>, m6: map<Key, Record>, order: seq<Key>, v4: string, v6: string) {
    exists k :: k in order && PairOf(m4, m6, k) == Some(Pair(v4, v6))
  }

  /** Only paired addresses are mapped, and every paired IPv4 address is. */
  lemma {:induction false} JoinedIsPaired(m4: map<Key, Record>, m6: map<Key, Record>, order: seq<Key>, v4: string)
    ensures v4 in Joined(m4, m6, order) ==> Gives(m4, m6, order, v4, Joined(m4, m6, order)[v4])
    ensures forall v6 :: Gives(m4, m6, order, v4, v6) ==> v4 in Joined(m4, m6, order)
  {
    if order == [] {
    } else {
      var init, k := order[..|order| - 1], order[|order| - 1];
      assert order == init + [k];
      assert k in order;
      JoinedIsPaired(m4, m6, init, v4);
      if v4 in Joined(m4, m6, init) {
        var old6 := Joined(m4, m6, init)[v4];
        var j :| j in init && PairOf(m4, m6, j) == Some(Pair(v4, old6));
        assert j in order;
      }
      forall v6 | Gives(m4, m6, order, v4, v6) ensures v4 in Joined(m4, m6, order) {
        var j :| j in order && PairOf(m4, m6, j) == Some(Pair(v4, v6));
        if j in init { assert Gives(m4, m6, init, v4, v6); }
      }
    }
  }
}
