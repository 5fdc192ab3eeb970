/**
 * Circuits get their explicit qdisc handles from the allocator before their commands are built.
 * With the handles it issues, the whole reload is clean: nothing about handles is assumed.
 */
module HandleAssignment {
  import opened Common
  import opened TcKernel
  import opened BakeryCommands
  import opened MqSetup
  import opened BuilderStream
  import BuiltTree
  import QdiscHandles
  import HandleAllocator

  type Alloc = QdiscHandles.State

  /** The fixed part of an assignment: configuration, layout, extra reserved handles and the hash of circuit ids. */
  datatype Context = Context(cfg: Config, queues: nat, offset: nat, extra: map<string, set<U16>>, hash: string -> int)

  function ReservedOn(x: Context, dev: string): (r: set<U16>) {
    Reserved(Layout(x.cfg, x.queues, x.offset), dev) + if dev in x.extra then x.extra[dev] else {}
  }

  // ----- One circuit -----

  function AssignOn(x: Context, st: Alloc, dev: string, id: string): (r: (Alloc, Option<nat>)) {
    var (st', h) := QdiscHandles.DoAssign(st, dev, x.hash(id), ReservedOn(x, dev));
    (st', if h.Some? then Some(h.value) else None)
  }

  /** with_assigned_qdisc_handles: a handle per direction, unless given already or on a stick. */
  function Assigned(x: Context, st: Alloc, c: Circuit): (r: (Alloc, Circuit)) {
    var (st1, down) := if c.downHandle.None? then AssignOn(x, st, x.cfg.isp, c.id) else (st, c.downHandle);
    var (st2, up) := if !x.cfg.onAStick && c.upHandle.None? then AssignOn(x, st1, x.cfg.internet, c.id)
                     else (st1, c.upHandle);
    (st2, c.(downHandle := down, upHandle := up))
  }

  /** The same on the allocator object. */
  method WithAssignedHandles(x: Context, alloc: HandleAllocator.QdiscHandleState, c: Circuit) returns (r: Circuit)
    requires alloc.Valid()
    modifies alloc, alloc.interfaces.Values
    ensures alloc.Valid()
    ensures (alloc.Value(), r) == Assigned(x, old(alloc.Value()), c)
  {
    var down, up := c.downHandle, c.upHandle;
    if c.downHandle.None? {
      down := AssignDirection(x, alloc, x.cfg.isp, c.id);
    }
    if !x.cfg.onAStick && c.upHandle.None? {
      up := AssignDirection(x, alloc, x.cfg.internet, c.id);
    }
    r := c.(downHandle := down, upHandle := up);
  }

  method AssignDirection(x: Context, alloc: HandleAllocator.QdiscHandleState, dev: string,
                         id: string) returns (r: Option<nat>)
    requires alloc.Valid()
    modifies alloc, alloc.interfaces.Values
    ensures alloc.Valid()
    ensures forall j :: j in alloc.interfaces ==>
      (j in old(alloc.interfaces) && alloc.interfaces[j] == old(alloc.interfaces)[j]) || fresh(alloc.interfaces[j])
    ensures (alloc.Value(), r) == AssignOn(x, old(alloc.Value()), dev, id)
  {
    var h := alloc.AssignCircuitHandle(dev, x.hash(id), ReservedOn(x, dev));
    r := if h.Some? then Some(h.value) else None;
  }

  // ----- The whole tree, in command order -----

  function AssignedEach(x: Context, st: Alloc, cs: seq<Circuit>): (r: (Alloc, seq<Circuit>))
    decreases |cs|
  {
    if cs == [] then (st, [])
    else
      var (st1, c) := Assigned(x, st, cs[0]);
      var (st2, rest) := AssignedEach(x, st1, cs[1..]);
      (st2, [c] + rest)
  }

  function AssignedSite(x: Context, st: Alloc, s: Site): (r: (Alloc, Site))
    decreases s
  {
    var (st1, circuits) := AssignedEach(x, st, s.circuits);
    var (st2, children) := AssignedSites(x, st1, s.children);
    (st2, s.(circuits := circuits, children := children))
  }

  function AssignedSites(x: Context, st: Alloc, ss: seq<Site>): (r: (Alloc, seq<Site>))
    decreases ss
  {
    if ss == [] then (st, [])
    else
      var (st1, s) := AssignedSite(x, st, ss[0]);
      var (st2, rest) := AssignedSites(x, st1, ss[1..]);
      (st2, [s] + rest)
  }

  function AssignedTops(x: Context, st: Alloc, tops: seq<Top>): (r: (Alloc, seq<Top>))
    decreases |tops|
  {
    if tops == [] then (st, [])
    else
      var (st1, s) := AssignedSite(x, st, tops[0].site);
      var (st2, rest) := AssignedTops(x, st1, tops[1..]);
      (st2, [tops[0].(site := s)] + rest)
  }

  // ----- Hashes and untouched circuits -----

  function CircuitHashes(x: Context, cs: seq<Circuit>): (r: seq<int>) {
    if cs == [] then [] else [x.hash(cs[0].id)] + CircuitHashes(x, cs[1..])
  }

  function SiteHashes(x: Context, s: Site): (r: seq<int>)
    decreases s
  {
    CircuitHashes(x, s.circuits) + SitesHashes(x, s.children)
  }

  function SitesHashes(x: Context, ss: seq<Site>): (r: seq<int>)
    decreases ss
  {
    if ss == [] then [] else SiteHashes(x, ss[0]) + SitesHashes(x, ss[1..])
  }

  function TopHashes(x: Context, tops: seq<Top>): (r: seq<int>) {
    if tops == [] then [] else SiteHashes(x, tops[0].site) + TopHashes(x, tops[1..])
  }

  /** No handle chosen yet. */
  predicate Bare(cs: seq<Circuit>) {
    forall c :: c in cs ==> c.downHandle.None? && c.upHandle.None?
  }

  predicate BareSite(s: Site)
    decreases s
  {
    Bare(s.circuits) && forall t :: t in s.children ==> BareSite(t)
  }

  // ----- What an assignment keeps -----

  function HandleOf(st: Alloc, dev: string, n: int): (h: Option<nat>) {
    var s := QdiscHandles.IfaceOf(st, dev);
    if n in s.circuits then Some(s.circuits[n]) else None
  }

  /** Only circuits with the given hashes got other handles. */
  ghost predicate SameElsewhere(st: Alloc, st': Alloc, ns: seq<int>) {
    forall dev, n :: n !in ns ==> HandleOf(st', dev, n) == HandleOf(st, dev, n)
  }

  /** What assignments to the given hashes keep. */
  ghost predicate Kept(x: Context, st: Alloc, st': Alloc, ns: seq<int>) {
    SameElsewhere(st, st', ns) && Grows(x, st, st')
  }

  lemma AssignFrames(st: Alloc, dev: string, n: int, reserved: set<U16>)
    requires QdiscHandles.Inv(st)
    ensures var (st', h) := QdiscHandles.DoAssign(st, dev, n, reserved);
      && (forall d :: d != dev ==> QdiscHandles.IfaceOf(st', d) == QdiscHandles.IfaceOf(st, d))
      && forall m :: m != n ==> HandleOf(st', dev, m) == HandleOf(st, dev, m)
  {
    QdiscHandles.AllocateKeepsIface(QdiscHandles.IfaceOf(st, dev), n, reserved, QdiscHandles.RetiredOf(st, dev));
  }

  /** No dynamic handle is left on the interface. */
  ghost predicate Full(x: Context, st: Alloc, dev: string) {
    forall h: U16 :: QdiscHandles.Dynamic(h) ==> h in QdiscHandles.Unavailable(st, dev, ReservedOn(x, dev))
  }

  /** Assigning frees no handle and forgets no interface. */
  ghost predicate Grows(x: Context, st: Alloc, st': Alloc) {
    && st.interfaces.Keys <= st'.interfaces.Keys
    && forall dev :: Full(x, st, dev) ==> Full(x, st', dev)
  }

  lemma AssignOnGrows(x: Context, st: Alloc, dev: string, id: string)
    requires QdiscHandles.Inv(st)
    ensures Grows(x, st, AssignOn(x, st, dev, id).0)
  {
    var n, reserved := x.hash(id), ReservedOn(x, dev);
    QdiscHandles.AssignFreesNothing(st, dev, n, reserved);
    AssignFrames(st, dev, n, reserved);
  }

  /** The handle is the allocator's and not reserved; there is none only where nothing is left. */
  ghost predicate BackedOn(x: Context, st: Alloc, dev: string, id: string, h: Option<nat>) {
    var held := HandleOf(st, dev, x.hash(id));
    if h.Some? then held == h && h.value < 0x1_0000 && h.value !in ReservedOn(x, dev)
    else Full(x, st, dev) && dev in st.interfaces && (held.Some? ==> held.value in ReservedOn(x, dev))
  }

  lemma AssignOnKeeps(x: Context, st: Alloc, dev: string, id: string)
    requires QdiscHandles.Inv(st)
    ensures var (st', h) := AssignOn(x, st, dev, id);
      && QdiscHandles.Inv(st') && BackedOn(x, st', dev, id, h)
      && forall d, n :: d != dev || n != x.hash(id) ==> HandleOf(st', d, n) == HandleOf(st, d, n)
  {
    var n, reserved := x.hash(id), ReservedOn(x, dev);
    QdiscHandles.AssignKeepsInv(st, dev, n, reserved);
    AssignFrames(st, dev, n, reserved);
    QdiscHandles.AssignReuses(st, dev, n, reserved);
    QdiscHandles.AssignFreesNothing(st, dev, n, reserved);
    var op := QdiscHandles.Assign(dev, n, reserved);
    if QdiscHandles.Step(st, op).1.Some? { QdiscHandles.IssuedHandleIsClean(st, op); }
  }

  /** Both handles of a circuit; on a stick there is none for upload. */
  ghost predicate Backed(x: Context, st: Alloc, c: Circuit) {
    && BackedOn(x, st, x.cfg.isp, c.id, c.downHandle)
    && if x.cfg.onAStick then c.upHandle.None? else BackedOn(x, st, x.cfg.internet, c.id, c.upHandle)
  }

  ghost predicate BackedSite(x: Context, st: Alloc, s: Site)
    decreases s
  {
    (forall c :: c in s.circuits ==> Backed(x, st, c)) && forall t :: t in s.children ==> BackedSite(x, st, t)
  }

  lemma AssignOnKept(x: Context, st: Alloc, dev: string, id: string)
    requires QdiscHandles.Inv(st)
    ensures var (st', h) := AssignOn(x, st, dev, id);
      && QdiscHandles.Inv(st') && BackedOn(x, st', dev, id, h) && Kept(x, st, st', [x.hash(id)])
      && forall d :: d != dev ==> HandleOf(st', d, x.hash(id)) == HandleOf(st, d, x.hash(id))
  {
    AssignOnKeeps(x, st, dev, id);
    AssignOnGrows(x, st, dev, id);
  }

  lemma StaysBackedOn(x: Context, st: Alloc, st': Alloc, dev: string, id: string, h: Option<nat>)
    requires BackedOn(x, st, dev, id, h) && Grows(x, st, st')
    requires HandleOf(st', dev, x.hash(id)) == HandleOf(st, dev, x.hash(id))
    ensures BackedOn(x, st', dev, id, h)
  {
  }

  lemma AssignedIsBacked(x: Context, st: Alloc, c: Circuit)
    requires QdiscHandles.Inv(st) && c.downHandle.None? && c.upHandle.None?
    requires (x.cfg.onAStick || x.cfg.isp != x.cfg.internet)
    ensures var (st', r) := Assigned(x, st, c);
      QdiscHandles.Inv(st') && Backed(x, st', r) && Kept(x, st, st', [x.hash(c.id)])
  {
    var n: int := x.hash(c.id);
    var (st1, down) := AssignOn(x, st, x.cfg.isp, c.id);
    AssignOnKept(x, st, x.cfg.isp, c.id);
    if !x.cfg.onAStick {
      var (st2, up) := AssignOn(x, st1, x.cfg.internet, c.id);
      AssignOnKept(x, st1, x.cfg.internet, c.id);
      StaysBackedOn(x, st1, st2, x.cfg.isp, c.id, down);
      JoinKept(x, st, st1, st2, [n], [n]);
      assert forall m :: m in [n] + [n] <==> m in [n];
    }
  }

  /** Handles of other circuits stay backed. */
  lemma StaysBacked(x: Context, st: Alloc, st': Alloc, ns: seq<int>, c: Circuit)
    requires Backed(x, st, c) && Kept(x, st, st', ns) && x.hash(c.id) !in ns
    ensures Backed(x, st', c)
  {
  }

  lemma JoinKept(x: Context, a: Alloc, b: Alloc, c: Alloc, ns: seq<int>, ms: seq<int>)
    requires Kept(x, a, b, ns) && Kept(x, b, c, ms)
    ensures Kept(x, a, c, ns + ms)
  {
    forall dev, n | n !in ns + ms ensures HandleOf(c, dev, n) == HandleOf(a, dev, n) {
      assert n !in ns && n !in ms;
    }
  }

  lemma {:induction false} HashOfMember(x: Context, cs: seq<Circuit>, c: Circuit)
    requires c in cs
    ensures x.hash(c.id) in CircuitHashes(x, cs)
  {
    if c != cs[0] { HashOfMember(x, cs[1..], c); }
  }

  // ----- Ids and minors stay -----

  lemma {:induction false} EachSame(x: Context, st: Alloc, cs: seq<Circuit>, q: nat)
    ensures var r := AssignedEach(x, st, cs).1;
      CircuitHashes(x, r) == CircuitHashes(x, cs) && CircuitKeys(q, r) == CircuitKeys(q, cs)
    decreases |cs|
  {
    if cs == [] {
    } else {
      var (st1, c) := Assigned(x, st, cs[0]);
      EachSame(x, st1, cs[1..], q);
      var r := AssignedEach(x, st, cs).1;
      assert r[0] == c && r[1..] == AssignedEach(x, st1, cs[1..]).1;
    }
  }

  lemma {:induction false} SiteSame(x: Context, st: Alloc, s: Site, q: nat)
    ensures var r := AssignedSite(x, st, s).1; SiteHashes(x, r) == SiteHashes(x, s) && SiteKeys(q, r) == SiteKeys(q, s)
    decreases s
  {
    EachSame(x, st, s.circuits, q);
    SitesSame(x, AssignedEach(x, st, s.circuits).0, s.children, q);
  }

  lemma {:induction false} SitesSame(x: Context, st: Alloc, ss: seq<Site>, q: nat)
    ensures var r := AssignedSites(x, st, ss).1;
            SitesHashes(x, r) == SitesHashes(x, ss) && SitesKeys(q, r) == SitesKeys(q, ss)
    decreases ss
  {
    if ss == [] {
    } else {
      var (st1, s) := AssignedSite(x, st, ss[0]);
      SiteSame(x, st, ss[0], q);
      SitesSame(x, st1, ss[1..], q);
      var r := AssignedSites(x, st, ss).1;
      assert r[0] == s && r[1..] == AssignedSites(x, st1, ss[1..]).1;
    }
  }

  lemma {:induction false} TopsSame(x: Context, st: Alloc, tops: seq<Top>)
    ensures var r := AssignedTops(x, st, tops).1;
      && TopHashes(x, r) == TopHashes(x, tops) && TopKeys(r) == TopKeys(tops)
      && |r| == |tops| && forall i :: 0 <= i < |r| ==> r[i].queue == tops[i].queue
    decreases |tops|
  {
    if tops == [] {
    } else {
      var (st1, s) := AssignedSite(x, st, tops[0].site);
      SiteSame(x, st, tops[0].site, tops[0].queue);
      TopsSame(x, st1, tops[1..]);
      var r := AssignedTops(x, st, tops).1;
      assert r[0] == tops[0].(site := s) && r[1..] == AssignedTops(x, st1, tops[1..]).1;
    }
  }

  // ----- Every circuit is backed at the end -----

  lemma {:induction false} EachBacked(x: Context, st: Alloc, cs: seq<Circuit>)
    requires QdiscHandles.Inv(st) && Bare(cs) && Distinct(CircuitHashes(x, cs))
    requires (x.cfg.onAStick || x.cfg.isp != x.cfg.internet)
    ensures var (st', r) := AssignedEach(x, st, cs);
      && QdiscHandles.Inv(st') && Kept(x, st, st', CircuitHashes(x, cs))
      && forall c :: c in r ==> Backed(x, st', c)
    decreases |cs|
  {
    if cs == [] {
    } else {
      var (st1, c) := Assigned(x, st, cs[0]);
      var (st2, rest) := AssignedEach(x, st1, cs[1..]);
      AssignedIsBacked(x, st, cs[0]);
      var ns, ms := [x.hash(cs[0].id)], CircuitHashes(x, cs[1..]);
      DistinctSplit(ns, ms);
      EachBacked(x, st1, cs[1..]);
      JoinKept(x, st, st1, st2, ns, ms);
      assert ns[0] in ns;
      StaysBacked(x, st1, st2, ms, c);
      assert AssignedEach(x, st, cs).1 == [c] + rest;
    }
  }

  ghost predicate Apart(ns: seq<int>, ms: seq<int>) {
    forall n :: n in ns ==> n !in ms
  }

  lemma {:induction false} SiteStaysBacked(x: Context, st: Alloc, st': Alloc, ns: seq<int>, s: Site)
    requires BackedSite(x, st, s) && Kept(x, st, st', ns) && Apart(SiteHashes(x, s), ns)
    ensures BackedSite(x, st', s)
    decreases s
  {
    var mine, below := CircuitHashes(x, s.circuits), SitesHashes(x, s.children);
    var all := mine + below;
    assert Apart(all, ns);
    forall c | c in s.circuits ensures Backed(x, st', c) {
      HashOfMember(x, s.circuits, c);
      var n: int := x.hash(c.id);
      assert n in mine && n in all && n !in ns;
      StaysBacked(x, st, st', ns, c);
    }
    forall t | t in s.children ensures BackedSite(x, st', t) {
      forall n | n in SiteHashes(x, t) ensures n !in ns {
        HashOfSite(x, s.children, t, n);
        assert n in all;
      }
      SiteStaysBacked(x, st, st', ns, t);
    }
  }

  lemma {:induction false} HashOfSite(x: Context, ss: seq<Site>, t: Site, n: int)
    requires t in ss && n in SiteHashes(x, t)
    ensures n in SitesHashes(x, ss)
  {
    if t != ss[0] { HashOfSite(x, ss[1..], t, n); }
  }

  lemma {:induction false} SiteBacked(x: Context, st: Alloc, s: Site)
    requires QdiscHandles.Inv(st) && BareSite(s) && Distinct(SiteHashes(x, s))
    requires (x.cfg.onAStick || x.cfg.isp != x.cfg.internet)
    ensures var (st', r) := AssignedSite(x, st, s);
      QdiscHandles.Inv(st') && Kept(x, st, st', SiteHashes(x, s)) && BackedSite(x, st', r)
    decreases s
  {
    var (st1, circuits) := AssignedEach(x, st, s.circuits);
    var (st2, children) := AssignedSites(x, st1, s.children);
    var ns, ms := CircuitHashes(x, s.circuits), SitesHashes(x, s.children);
    DistinctSplit(ns, ms);
    EachBacked(x, st, s.circuits);
    SitesBacked(x, st1, s.children);
    EachSame(x, st, s.circuits, 0);
    JoinKept(x, st, st1, st2, ns, ms);
    forall c | c in circuits ensures Backed(x, st2, c) {
      HashOfMember(x, circuits, c);
      StaysBacked(x, st1, st2, ms, c);
    }
  }

  lemma {:induction false} SitesBacked(x: Context, st: Alloc, ss: seq<Site>)
    requires QdiscHandles.Inv(st) && (forall t :: t in ss ==> BareSite(t)) && Distinct(SitesHashes(x, ss))
    requires x.cfg.onAStick || x.cfg.isp != x.cfg.internet
    ensures var (st', r) := AssignedSites(x, st, ss);
      && QdiscHandles.Inv(st') && Kept(x, st, st', SitesHashes(x, ss))
      && forall t :: t in r ==> BackedSite(x, st', t)
    decreases ss
  {
    if ss == [] {
    } else {
      var (st1, s) := AssignedSite(x, st, ss[0]);
      var (st2, rest) := AssignedSites(x, st1, ss[1..]);
      var ns, ms := SiteHashes(x, ss[0]), SitesHashes(x, ss[1..]);
      DistinctSplit(ns, ms);
      SiteBacked(x, st, ss[0]);
      SitesBacked(x, st1, ss[1..]);
      JoinKept(x, st, st1, st2, ns, ms);
      SiteSame(x, st, ss[0], 0);
      SiteStaysBacked(x, st1, st2, ms, s);
    }
  }

  lemma {:induction false} TopsBacked(x: Context, st: Alloc, tops: seq<Top>)
    requires QdiscHandles.Inv(st) && (forall t :: t in tops ==> BareSite(t.site)) && Distinct(TopHashes(x, tops))
    requires x.cfg.onAStick || x.cfg.isp != x.cfg.internet
    ensures var (st', r) := AssignedTops(x, st, tops);
      && QdiscHandles.Inv(st') && Kept(x, st, st', TopHashes(x, tops))
      && forall t :: t in r ==> BackedSite(x, st', t.site)
    decreases |tops|
  {
    if tops == [] {
    } else {
      var (st1, s) := AssignedSite(x, st, tops[0].site);
      var (st2, rest) := AssignedTops(x, st1, tops[1..]);
      var ns, ms := SiteHashes(x, tops[0].site), TopHashes(x, tops[1..]);
      DistinctSplit(ns, ms);
      SiteBacked(x, st, tops[0].site);
      TopsBacked(x, st1, tops[1..]);
      JoinKept(x, st, st1, st2, ns, ms);
      SiteSame(x, st, tops[0].site, 0);
      SiteStaysBacked(x, st1, st2, ms, s);
    }
  }

  // ----- The handles of the stream -----

  /** Distinct unreserved handles, each the allocator's handle of one of the given hashes. */
  ghost predicate Issues(x: Context, st: Alloc, hs: seq<HandleKey>, ns: seq<int>) {
    Distinct(hs) && forall h :: h in hs ==>
      && h.major < 0x1_0000 && h.major !in ReservedOn(x, h.dev)
      && exists n :: n in ns && HandleOf(st, h.dev, n) == Some(h.major)
  }

  lemma OneHolder(st: Alloc, dev: string, h: nat, n: int, m: int)
    requires QdiscHandles.Inv(st) && HandleOf(st, dev, n) == Some(h) && HandleOf(st, dev, m) == Some(h)
    ensures n == m
  {
    assert QdiscHandles.IfaceInv(QdiscHandles.IfaceOf(st, dev));
  }

  lemma JoinIssues(x: Context, st: Alloc, a: seq<HandleKey>, b: seq<HandleKey>, ns: seq<int>, ms: seq<int>)
    requires QdiscHandles.Inv(st) && Issues(x, st, a, ns) && Issues(x, st, b, ms) && Distinct(ns + ms)
    ensures Issues(x, st, a + b, ns + ms)
  {
    DistinctSplit(ns, ms);
    forall h | h in a ensures h !in b {
      if h in b {
        var n :| n in ns && HandleOf(st, h.dev, n) == Some(h.major);
        var m :| m in ms && HandleOf(st, h.dev, m) == Some(h.major);
        OneHolder(st, h.dev, h.major, n, m);
      }
    }
    DistinctJoin(a, b);
    forall h | h in a + b ensures exists n :: n in ns + ms && HandleOf(st, h.dev, n) == Some(h.major) {
      if h in a {
        var n :| n in ns && HandleOf(st, h.dev, n) == Some(h.major);
        assert n in ns + ms;
      } else {
        var m :| m in ms && HandleOf(st, h.dev, m) == Some(h.major);
        assert m in ns + ms;
      }
    }
  }

  function LeafHandle(b: bool, dev: string, h: Option<nat>): (r: seq<HandleKey>) {
    if b && h.Some? then [HandleKey(dev, h.value)] else []
  }

  lemma OptionalHandles(b: bool, cmd: Cmd)
    ensures Handles(Optional(b, cmd)) == if b then CmdHandles(cmd) else []
  {
    if b {
      assert [cmd] + [] == [cmd];
      StreamCons(cmd, []);
    }
  }

  lemma PutHandles(w: Cmd, b: bool, y: Cmd, z: Cmd, d: bool, v: Cmd)
    requires w.PutClass? && y.PutLeaf? && z.PutClass? && v.PutLeaf?
    ensures Handles(ClassesAndLeaves(w, b, y, z, d, v)) ==
            LeafHandle(b, y.dev, y.handle) + LeafHandle(d, v.dev, v.handle)
  {
    FourHandles(Optional(true, w), Optional(b, y), Optional(true, z), Optional(d, v));
    OptionalHandles(true, w);
    OptionalHandles(b, y);
    OptionalHandles(true, z);
    OptionalHandles(d, v);
    EmptyBetween(Handles(Optional(b, y)), Handles(Optional(d, v)));
  }

  lemma CircuitHandles(cfg: Config, p: CircuitParams)
    ensures Handles(CircuitCmds(cfg, p)) ==
      LeafHandle(!cfg.lazy.Htb? && WantsDownLeaf(p), cfg.isp, p.downHandle) +
      LeafHandle(!cfg.lazy.Htb? && WantsUpLeaf(cfg, p), cfg.internet, p.upHandle)
  {
    var sqm := !cfg.lazy.Htb?;
    PutHandles(DownClass(cfg, p), sqm && WantsDownLeaf(p), DownLeaf(cfg, p),
               UpClass(cfg, p), sqm && WantsUpLeaf(cfg, p), UpLeaf(cfg, p));
  }

  /** At most one handle per direction, each backed by the allocator. */
  lemma LeavesIssue(x: Context, st: Alloc, a: seq<HandleKey>, b: seq<HandleKey>, n: int)
    requires |a| <= 1 && |b| <= 1 && forall h :: h in a && h in b ==> false
    requires forall h :: h in a || h in b ==>
      h.major < 0x1_0000 && h.major !in ReservedOn(x, h.dev) && HandleOf(st, h.dev, n) == Some(h.major)
    ensures Issues(x, st, a + b, [n])
  {
    DistinctJoin(a, b);
    assert n in [n];
  }

  lemma CircuitIssues(x: Context, st: Alloc, q: nat, site: nat, c: Circuit)
    requires Backed(x, st, c) && (x.cfg.onAStick || x.cfg.isp != x.cfg.internet)
    ensures Issues(x, st, Handles(CircuitCmds(x.cfg, Params(q, x.offset, site, c))), [x.hash(c.id)])
  {
    var p := Params(q, x.offset, site, c);
    CircuitHandles(x.cfg, p);
    LeavesIssue(x, st, LeafHandle(!x.cfg.lazy.Htb? && WantsDownLeaf(p), x.cfg.isp, p.downHandle),
                LeafHandle(!x.cfg.lazy.Htb? && WantsUpLeaf(x.cfg, p), x.cfg.internet, p.upHandle), x.hash(c.id));
  }

  lemma {:induction false} CircuitsIssue(x: Context, st: Alloc, q: nat, site: nat, cs: seq<Circuit>)
    requires QdiscHandles.Inv(st) && (forall c :: c in cs ==> Backed(x, st, c)) && Distinct(CircuitHashes(x, cs))
    requires !x.cfg.observe && (x.cfg.onAStick || x.cfg.isp != x.cfg.internet)
    ensures Issues(x, st, Handles(EmitCircuits(x.cfg, q, x.offset, site, cs)), CircuitHashes(x, cs))
  {
    if cs == [] {
    } else {
      var first := CircuitCmds(x.cfg, Params(q, x.offset, site, cs[0]));
      var rest := EmitCircuits(x.cfg, q, x.offset, site, cs[1..]);
      var ns, ms := [x.hash(cs[0].id)], CircuitHashes(x, cs[1..]);
      BuilderCircuit(x.cfg, Params(q, x.offset, site, cs[0]));
      DistinctSplit(ns, ms);
      CircuitIssues(x, st, q, site, cs[0]);
      CircuitsIssue(x, st, q, site, cs[1..]);
      HandlesAppend(first, rest);
      JoinIssues(x, st, Handles(first), Handles(rest), ns, ms);
    }
  }

  lemma SiteHasNoHandles(cfg: Config, q: nat, offset: nat, parent: nat, s: Site)
    requires !cfg.observe
    ensures Handles(SiteCmds(cfg, q, offset, parent, s)) == []
  {
    var c := SiteCmds(cfg, q, offset, parent, s);
    assert c == [c[0]] + [c[1]] && [c[1]] + [] == [c[1]];
    StreamCons(c[1], []);
    StreamCons(c[0], [c[1]]);
  }

  lemma {:induction false} SiteIssues(x: Context, st: Alloc, q: nat, parent: nat, s: Site)
    requires QdiscHandles.Inv(st) && BackedSite(x, st, s) && Distinct(SiteHashes(x, s))
    requires !x.cfg.observe && (x.cfg.onAStick || x.cfg.isp != x.cfg.internet)
    ensures Issues(x, st, Handles(EmitSite(x.cfg, q, x.offset, parent, s)), SiteHashes(x, s))
    decreases s
  {
    var a := SiteCmds(x.cfg, q, x.offset, parent, s);
    var b := EmitCircuits(x.cfg, q, x.offset, s.minor, s.circuits);
    var c := EmitSites(x.cfg, q, x.offset, s.minor, s.children);
    var ns, ms := CircuitHashes(x, s.circuits), SitesHashes(x, s.children);
    DistinctSplit(ns, ms);
    CircuitsIssue(x, st, q, s.minor, s.circuits);
    SitesIssue(x, st, q, s.minor, s.children);
    JoinIssues(x, st, Handles(b), Handles(c), ns, ms);
    SiteHasNoHandles(x.cfg, q, x.offset, parent, s);
    HandlesAppend(b, c);
    HandlesAppend(a, b + c);
    assert [] + (Handles(b) + Handles(c)) == Handles(b) + Handles(c);
  }

  lemma {:induction false} SitesIssue(x: Context, st: Alloc, q: nat, parent: nat, ss: seq<Site>)
    requires QdiscHandles.Inv(st) && (forall t :: t in ss ==> BackedSite(x, st, t)) && Distinct(SitesHashes(x, ss))
    requires !x.cfg.observe && (x.cfg.onAStick || x.cfg.isp != x.cfg.internet)
    ensures Issues(x, st, Handles(EmitSites(x.cfg, q, x.offset, parent, ss)), SitesHashes(x, ss))
    decreases ss
  {
    if ss == [] {
    } else {
      var a, b := EmitSite(x.cfg, q, x.offset, parent, ss[0]), EmitSites(x.cfg, q, x.offset, parent, ss[1..]);
      var ns, ms := SiteHashes(x, ss[0]), SitesHashes(x, ss[1..]);
      DistinctSplit(ns, ms);
      SiteIssues(x, st, q, parent, ss[0]);
      SitesIssue(x, st, q, parent, ss[1..]);
      HandlesAppend(a, b);
      JoinIssues(x, st, Handles(a), Handles(b), ns, ms);
    }
  }

  lemma {:induction false} TopsIssue(x: Context, st: Alloc, tops: seq<Top>)
    requires QdiscHandles.Inv(st) && (forall t :: t in tops ==> BackedSite(x, st, t.site))
    requires Distinct(TopHashes(x, tops))
    requires !x.cfg.observe && (x.cfg.onAStick || x.cfg.isp != x.cfg.internet)
    ensures Issues(x, st, Handles(EmitTops(x.cfg, x.offset, tops)), TopHashes(x, tops))
  {
    if tops == [] {
    } else {
      var a, b := EmitSite(x.cfg, tops[0].queue, x.offset, 0, tops[0].site), EmitTops(x.cfg, x.offset, tops[1..]);
      var ns, ms := SiteHashes(x, tops[0].site), TopHashes(x, tops[1..]);
      DistinctSplit(ns, ms);
      SiteIssues(x, st, tops[0].queue, 0, tops[0].site);
      TopsIssue(x, st, tops[1..]);
      HandlesAppend(a, b);
      JoinIssues(x, st, Handles(a), Handles(b), ns, ms);
    }
  }

  /** Assigning handles over a whole tree gives handles that are distinct and unreserved. */
  lemma AssignedHandlesAreClean(x: Context, st: Alloc, tops: seq<Top>)
    requires QdiscHandles.Inv(st) && (forall t :: t in tops ==> BareSite(t.site)) && Distinct(TopHashes(x, tops))
    requires !x.cfg.observe && (x.cfg.onAStick || x.cfg.isp != x.cfg.internet)
    ensures var (st', r) := AssignedTops(x, st, tops);
      QdiscHandles.Inv(st') && CleanHandles(Handles(EmitTops(x.cfg, x.offset, r)), x.cfg, x.queues, x.offset)
  {
    var (st', r) := AssignedTops(x, st, tops);
    TopsBacked(x, st, tops);
    TopsSame(x, st, tops);
    TopsIssue(x, st', r);
  }

  // ----- Only handles change, and a second assignment changes nothing -----

  /** The same circuit but for its handles. */
  predicate LikeCircuit(a: Circuit, b: Circuit) {
    a.id == b.id && a.minor == b.minor && a.rates == b.rates && a.override == b.override
  }

  /** The same tree but for the handles of its circuits. */
  ghost predicate LikeSite(a: Site, b: Site)
    decreases a
  {
    && a.minor == b.minor && a.rates == b.rates
    && |a.circuits| == |b.circuits| && |a.children| == |b.children|
    && (forall i :: 0 <= i < |a.circuits| ==> LikeCircuit(a.circuits[i], b.circuits[i]))
    && (forall i :: 0 <= i < |a.children| ==> LikeSite(a.children[i], b.children[i]))
  }

  lemma {:induction false} EachLike(x: Context, st: Alloc, cs: seq<Circuit>)
    ensures var r := AssignedEach(x, st, cs).1;
            |r| == |cs| && forall i :: 0 <= i < |r| ==> LikeCircuit(r[i], cs[i])
    decreases |cs|
  {
    if cs == [] {
    } else {
      EachLike(x, Assigned(x, st, cs[0]).0, cs[1..]);
    }
  }

  lemma {:induction false} SiteLike(x: Context, st: Alloc, s: Site)
    ensures LikeSite(AssignedSite(x, st, s).1, s)
    decreases s
  {
    EachLike(x, st, s.circuits);
    SitesLike(x, AssignedEach(x, st, s.circuits).0, s.children);
  }

  lemma {:induction false} SitesLike(x: Context, st: Alloc, ss: seq<Site>)
    ensures var r := AssignedSites(x, st, ss).1; |r| == |ss| && forall i :: 0 <= i < |r| ==> LikeSite(r[i], ss[i])
    decreases ss
  {
    if ss == [] {
    } else {
      SiteLike(x, st, ss[0]);
      SitesLike(x, AssignedSite(x, st, ss[0]).0, ss[1..]);
    }
  }

  /** A backed direction is assigned again to the same handle, and the allocator stays as it is. */
  lemma AssignOnAgain(x: Context, st: Alloc, dev: string, id: string, h: Option<nat>)
    requires QdiscHandles.Inv(st) && BackedOn(x, st, dev, id, h)
    ensures AssignOn(x, st, dev, id) == (st, h)
  {
    var n, reserved := x.hash(id), ReservedOn(x, dev);
    QdiscHandles.AssignReuses(st, dev, n, reserved);
    if h.None? {
      QdiscHandles.FailedAllocationChangesNothing(st, QdiscHandles.Assign(dev, n, reserved));
      assert st.interfaces[dev := QdiscHandles.IfaceOf(st, dev)] == st.interfaces;
    }
  }

  lemma AssignedAgain(x: Context, st: Alloc, c: Circuit, r: Circuit)
    requires QdiscHandles.Inv(st) && c.downHandle.None? && c.upHandle.None?
    requires LikeCircuit(r, c) && Backed(x, st, r)
    ensures Assigned(x, st, c) == (st, r)
  {
    AssignOnAgain(x, st, x.cfg.isp, c.id, r.downHandle);
    if !x.cfg.onAStick { AssignOnAgain(x, st, x.cfg.internet, c.id, r.upHandle); }
  }

  lemma {:induction false} EachFixed(x: Context, st: Alloc, cs: seq<Circuit>, r: seq<Circuit>)
    requires |r| == |cs| && forall i :: 0 <= i < |r| ==> Assigned(x, st, cs[i]) == (st, r[i])
    ensures AssignedEach(x, st, cs) == (st, r)
    decreases |cs|
  {
    if cs == [] {
    } else {
      EachFixed(x, st, cs[1..], r[1..]);
      assert r == [r[0]] + r[1..];
    }
  }

  lemma {:induction false} SitesFixed(x: Context, st: Alloc, ss: seq<Site>, r: seq<Site>)
    requires |r| == |ss| && forall i :: 0 <= i < |r| ==> AssignedSite(x, st, ss[i]) == (st, r[i])
    ensures AssignedSites(x, st, ss) == (st, r)
    decreases |ss|
  {
    if ss == [] {
    } else {
      SitesFixed(x, st, ss[1..], r[1..]);
      assert r == [r[0]] + r[1..];
    }
  }

  lemma {:induction false} TopsFixed(x: Context, st: Alloc, tops: seq<Top>, r: seq<Top>)
    requires |r| == |tops|
    requires forall i :: 0 <= i < |r| ==>
      r[i].queue == tops[i].queue && AssignedSite(x, st, tops[i].site) == (st, r[i].site)
    ensures AssignedTops(x, st, tops) == (st, r)
    decreases |tops|
  {
    if tops == [] {
    } else {
      TopsFixed(x, st, tops[1..], r[1..]);
      assert r == [r[0]] + r[1..];
    }
  }

  lemma {:induction false} SiteAgain(x: Context, st: Alloc, s: Site, r: Site)
    requires QdiscHandles.Inv(st) && BareSite(s) && LikeSite(r, s) && BackedSite(x, st, r)
    ensures AssignedSite(x, st, s) == (st, r)
    decreases s
  {
    forall i | 0 <= i < |s.circuits| ensures Assigned(x, st, s.circuits[i]) == (st, r.circuits[i]) {
      AssignedAgain(x, st, s.circuits[i], r.circuits[i]);
    }
    EachFixed(x, st, s.circuits, r.circuits);
    forall i | 0 <= i < |s.children| ensures AssignedSite(x, st, s.children[i]) == (st, r.children[i]) {
      SiteAgain(x, st, s.children[i], r.children[i]);
    }
    SitesFixed(x, st, s.children, r.children);
  }

  lemma {:induction false} TopsLike(x: Context, st: Alloc, tops: seq<Top>)
    ensures var r := AssignedTops(x, st, tops).1;
      |r| == |tops| && forall i :: 0 <= i < |r| ==> r[i].queue == tops[i].queue && LikeSite(r[i].site, tops[i].site)
    decreases |tops|
  {
    if tops == [] {
    } else {
      SiteLike(x, st, tops[0].site);
      TopsLike(x, AssignedSite(x, st, tops[0].site).0, tops[1..]);
    }
  }

  /**
   * Assigning over a whole tree changes nothing but handles. A circuit goes without one only where
   * the interface has none left, and assigning the same tree again gives every circuit the same
   * handles and leaves the allocator as it is: a reload of an unchanged tree moves no circuit.
   */
  lemma AssignmentIsStable(x: Context, st: Alloc, tops: seq<Top>)
    requires QdiscHandles.Inv(st) && (forall t :: t in tops ==> BareSite(t.site)) && Distinct(TopHashes(x, tops))
    requires x.cfg.onAStick || x.cfg.isp != x.cfg.internet
    ensures var (st', r) := AssignedTops(x, st, tops);
      && |r| == |tops|
      && (forall i :: 0 <= i < |r| ==> r[i].queue == tops[i].queue && LikeSite(r[i].site, tops[i].site))
      && (forall i :: 0 <= i < |r| ==> BackedSite(x, st', r[i].site))
      && AssignedTops(x, st', tops) == (st', r)
  {
    var (st', r) := AssignedTops(x, st, tops);
    TopsBacked(x, st, tops);
    TopsLike(x, st, tops);
    forall i | 0 <= i < |r| ensures AssignedSite(x, st', tops[i].site) == (st', r[i].site) {
      SiteAgain(x, st', tops[i].site, r[i].site);
    }
    TopsFixed(x, st', tops, r);
  }

  /**
   * End to end, for every tree, queue count, allocator state and start state: with the handles the
   * allocator issues, every command of a full reload creates something new below something that
   * exists, and the kernel then holds the tree with those handles and nothing else.
   */
  lemma AssignedStreamIsClean(x: Context, st: Alloc, created: bool, tops: seq<Top>)
    requires !x.cfg.observe && Separate(x.cfg, x.queues, x.offset) && x.queues + x.offset <= 0x2001
    requires GoodKeys(TopKeys(tops), x.queues) && forall t :: t in tops ==> 1 <= t.queue <= x.queues
    requires QdiscHandles.Inv(st) && (forall t :: t in tops ==> BareSite(t.site)) && Distinct(TopHashes(x, tops))
    ensures var r := AssignedTops(x, st, tops).1;
      var stream := MqCommands(x.cfg, x.queues, x.offset, created) + EmitTops(x.cfg, x.offset, r);
      && CleanRun(Start(x.cfg, created), stream)
      && BuiltTree.HasTree(Run(Start(x.cfg, created), stream), x.cfg, x.queues, x.offset, r)
  {
    var r := AssignedTops(x, st, tops).1;
    TopsSame(x, st, tops);
    AssignedHandlesAreClean(x, st, tops);
    forall t | t in r ensures 1 <= t.queue <= x.queues {
      var i :| 0 <= i < |r| && r[i] == t;
      assert tops[i] in tops;
    }
    BuilderStreamIsClean(x.cfg, x.queues, x.offset, created, r);
    BuiltTree.BuilderBuildsTree(x.cfg, x.queues, x.offset, created, r);
  }
}
