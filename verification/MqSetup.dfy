/**
 * MQ setup: the root multiqueue qdisc, and for every queue an HTB qdisc, its root and default
 * classes and their infrastructure qdiscs; and the handles reserved for them.
 */
module MqSetup {
  import opened Common
  import opened TcKernel
  import opened QueueMath
  import opened BakeryCommands
  import QdiscHandles

  type U16 = QdiscHandles.U16

  const INFRA_HANDLE_BASE := 0x2000

  function Sat(x: nat): (r: U16) {
    if x > 0xFFFF then 0xFFFF else x
  }

  /** infra_qdisc_handle, saturating like the u16 arithmetic it uses. */
  function InfraPrimary(major: U16): (r: U16) {
    Sat(INFRA_HANDLE_BASE + Sat(2 * major))
  }

  function InfraDefault(major: U16): (r: U16) {
    Sat(InfraPrimary(major) + 1)
  }

  /** `as u16` */
  function Cast(x: nat): (r: U16) {
    x % 0x1_0000
  }

  // ----- The command stream -----

  /** The commands of one queue whose major is m. */
  function MqQueue(dev: string, m: nat, capacity: nat, r2q: nat): (r: seq<Cmd>)
    requires r2q > 0
  {
    var q := Quantum(capacity, r2q);
    var below := (capacity as real) - 1.0;
    [ AddHtb(dev, m),
      PutClass(dev, Handle(m, 0), Handle(m, 1), ClassSpec(capacity as real, capacity as real, None, q)),
      PutLeaf(dev, Handle(m, 1), Some(InfraPrimary(Cast(m))), Sqm(None, None)),
      PutClass(dev, Handle(m, 1), Handle(m, 2),
               ClassSpec(AsU64(below / 4.0) as real, AsU64(below) as real, Some(5), q)),
      PutLeaf(dev, Handle(m, 2), Some(InfraDefault(Cast(m))), Sqm(None, None)) ]
  }

  /** Queues offset+1 .. offset+n of one interface. */
  function MqSide(dev: string, offset: nat, n: nat, capacity: nat, r2q: nat): (r: seq<Cmd>)
    requires r2q > 0
  {
    if n == 0 then [] else MqSide(dev, offset, n - 1, capacity, r2q) + MqQueue(dev, offset + n, capacity, r2q)
  }

  function MaxRate(cfg: Config): (r: nat) {
    if cfg.uplink > cfg.downlink then cfg.uplink else cfg.downlink
  }

  function MqCommands(cfg: Config, queues: nat, offset: nat, created: bool): (r: seq<Cmd>) {
    var root := if created then [] else [AddMqRoot(cfg.isp)];
    var root2 := if created || cfg.onAStick then [] else [AddMqRoot(cfg.internet)];
    if cfg.observe then root + root2
    else
      var r2q := R2q(MaxRate(cfg));
      root + MqSide(cfg.isp, 0, queues, cfg.downlink, r2q) +
      root2 + MqSide(cfg.internet, offset, queues, cfg.uplink, r2q)
  }

  class Bakery {
    /** The process-wide MQ_CREATED flag. */
    var mqCreated: bool

    constructor ()
      ensures !mqCreated
    {
      mqCreated := false;
    }

    /** mq_setup: pushes commands queue by queue, then records that the root qdiscs exist. */
    method Setup(cfg: Config, queues: nat, offset: nat) returns (r: seq<Cmd>)
      modifies this
      ensures r == MqCommands(cfg, queues, offset, old(mqCreated))
      ensures mqCreated
    {
      r := if mqCreated then [] else [AddMqRoot(cfg.isp)];
      if cfg.observe {
        if !mqCreated && !cfg.onAStick {
          r := r + [AddMqRoot(cfg.internet)];
        }
        mqCreated := true;
        return;
      }
      var r2q := ComputeR2q(MaxRate(cfg));
      var side := PushQueues(cfg.isp, 0, queues, cfg.downlink, r2q);
      r := r + side;
      if !cfg.onAStick && !mqCreated {
        r := r + [AddMqRoot(cfg.internet)];
      }
      side := PushQueues(cfg.internet, offset, queues, cfg.uplink, r2q);
      r := r + side;
      mqCreated := true;
    }

    method PushQueues(dev: string, offset: nat, queues: nat, capacity: nat, r2q: nat) returns (r: seq<Cmd>)
      requires r2q > 0
      ensures r == MqSide(dev, offset, queues, capacity, r2q)
    {
      r := [];
      for queue := 0 to queues
        invariant r == MqSide(dev, offset, queue, capacity, r2q)
      {
        r := r + MqQueue(dev, queue + offset + 1, capacity, r2q);
      }
    }
  }

  // ----- Reserved handles -----

  /** MqDeviceLayout::from_setup: the queue majors present on each interface. */
  method FromSetup(cfg: Config, queues: nat, offset: nat) returns (devices: map<string, set<U16>>)
    ensures devices == Layout(cfg, queues, offset)
  {
    devices := map[];
    var entry: set<U16> := {};
    for queue := 0 to queues
      invariant entry == Majors(0, queue)
    {
      entry := entry + {Cast(queue + 1)};
    }
    devices := devices[cfg.isp := entry];
    entry := if cfg.internet in devices then devices[cfg.internet] else {};
    ghost var base := entry;
    for queue := 0 to queues
      invariant entry == base + Majors(offset, queue)
    {
      entry := entry + {Cast(queue + offset + 1)};
    }
    devices := devices[cfg.internet := entry];
  }

  function Majors(offset: nat, n: nat): (r: set<U16>) {
    if n == 0 then {} else Majors(offset, n - 1) + {Cast(offset + n)}
  }

  function Layout(cfg: Config, queues: nat, offset: nat): (r: map<string, set<U16>>) {
    var isp := map[cfg.isp := Majors(0, queues)];
    isp[cfg.internet := (if cfg.internet == cfg.isp then Majors(0, queues) else {}) + Majors(offset, queues)]
  }

  /** reserved_handles */
  function Reserved(devices: map<string, set<U16>>, dev: string): (r: set<U16>) {
    var fixed: set<U16> := {MQ_ROOT_MAJOR, 0xFFFF};
    if dev !in devices then fixed
    else
      fixed + devices[dev] +
      (set m | m in devices[dev] :: InfraPrimary(m)) + (set m | m in devices[dev] :: InfraDefault(m))
  }

  lemma {:induction false} MajorsAre(offset: nat, n: nat, m: nat)
    requires offset < m <= offset + n && m < 0x1_0000
    ensures m in Majors(offset, n)
  {
    if m < offset + n { MajorsAre(offset, n - 1, m); }
  }

  // ----- What the stream of one interface uses -----

  /** The handle numbers of queues lo+1 .. hi: majors, and two infrastructure handles each. */
  predicate MqRange(x: nat, lo: nat, hi: nat) {
    lo < x <= hi || INFRA_HANDLE_BASE + 2 * (lo + 1) <= x <= INFRA_HANDLE_BASE + 1 + 2 * hi
  }

  lemma TailUses(c: seq<Cmd>, i: nat)
    requires i < |c|
    ensures Handles(c[i..]) == CmdHandles(c[i]) + Handles(c[i + 1..])
    ensures Created(c[i..]) == CmdCreates(c[i]) + Created(c[i + 1..])
    ensures Attached(c[i..]) == CmdAttaches(c[i]) + Attached(c[i + 1..])
  {
    assert c[i..][0] == c[i] && c[i..][1..] == c[i + 1..];
  }

  lemma FiveUses(c: seq<Cmd>)
    requires |c| == 5
    ensures Handles(c) ==
            CmdHandles(c[0]) + (CmdHandles(c[1]) + (CmdHandles(c[2]) + (CmdHandles(c[3]) + CmdHandles(c[4]))))
    ensures Created(c) ==
            CmdCreates(c[0]) + (CmdCreates(c[1]) + (CmdCreates(c[2]) + (CmdCreates(c[3]) + CmdCreates(c[4]))))
    ensures Attached(c) ==
            CmdAttaches(c[0]) + (CmdAttaches(c[1]) + (CmdAttaches(c[2]) + (CmdAttaches(c[3]) + CmdAttaches(c[4]))))
  {
    var c1, c2, c3, c4 := c[1..], c[2..], c[3..], c[4..];
    assert c[0..] == c && c[5..] == [];
    TailUses(c, 4);
    TailUses(c, 3);
    TailUses(c, 2);
    TailUses(c, 1);
    TailUses(c, 0);
    assert Handles(c4) == CmdHandles(c[4]) && Created(c4) == CmdCreates(c[4]) && Attached(c4) == CmdAttaches(c[4]);
  }

  function QueueIds(dev: string, m: nat): (r: seq<ClassId>) {
    [ClassId(dev, Handle(m, 1)), ClassId(dev, Handle(m, 2))]
  }

  function QueueHandles(dev: string, m: nat): (r: seq<HandleKey>) {
    [HandleKey(dev, m), HandleKey(dev, InfraPrimary(Cast(m))), HandleKey(dev, InfraDefault(Cast(m)))]
  }

  lemma QueueUses(dev: string, m: nat, capacity: nat, r2q: nat)
    requires r2q > 0
    ensures Handles(MqQueue(dev, m, capacity, r2q)) == QueueHandles(dev, m)
    ensures Created(MqQueue(dev, m, capacity, r2q)) == QueueIds(dev, m)
    ensures Attached(MqQueue(dev, m, capacity, r2q)) == QueueIds(dev, m)
  {
    var c := MqQueue(dev, m, capacity, r2q);
    FiveUses(c);
  }

  // The same lists for a whole side, position by position.

  function IdAt(dev: string, offset: nat, i: nat): (r: ClassId) {
    ClassId(dev, Handle(offset + i / 2 + 1, i % 2 + 1))
  }

  function SideIds(dev: string, offset: nat, n: nat): (r: seq<ClassId>)
    ensures |r| == 2 * n && forall i :: 0 <= i < 2 * n ==> r[i] == IdAt(dev, offset, i)
  {
    seq(2 * n, i requires 0 <= i < 2 * n => IdAt(dev, offset, i))
  }

  /** The handle in slot j of the queue with major m: its HTB qdisc and its two infrastructure qdiscs. */
  function SlotMajor(m: nat, j: nat): (r: nat) {
    if j == 0 then m else if j == 1 then InfraPrimary(Cast(m)) else InfraDefault(Cast(m))
  }

  function HandleAt(dev: string, offset: nat, i: nat): (r: HandleKey) {
    HandleKey(dev, SlotMajor(offset + i / 3 + 1, i % 3))
  }

  function SideHandles(dev: string, offset: nat, n: nat): (r: seq<HandleKey>)
    ensures |r| == 3 * n && forall i :: 0 <= i < 3 * n ==> r[i] == HandleAt(dev, offset, i)
  {
    seq(3 * n, i requires 0 <= i < 3 * n => HandleAt(dev, offset, i))
  }

  lemma SideIdsStep(dev: string, offset: nat, n: nat)
    requires n > 0
    ensures SideIds(dev, offset, n) == SideIds(dev, offset, n - 1) + QueueIds(dev, offset + n)
  {
    var a, b, i := SideIds(dev, offset, n - 1), QueueIds(dev, offset + n), 2 * (n - 1);
    assert i / 2 == (i + 1) / 2 == n - 1 && i % 2 == 0 && (i + 1) % 2 == 1;
    assert IdAt(dev, offset, i) == b[0] && IdAt(dev, offset, i + 1) == b[1];
  }

  lemma SideHandlesStep(dev: string, offset: nat, n: nat)
    requires n > 0
    ensures SideHandles(dev, offset, n) == SideHandles(dev, offset, n - 1) + QueueHandles(dev, offset + n)
  {
    var a, b, i := SideHandles(dev, offset, n - 1), QueueHandles(dev, offset + n), 3 * (n - 1);
    assert i / 3 == (i + 1) / 3 == (i + 2) / 3 == n - 1;
    assert i % 3 == 0 && (i + 1) % 3 == 1 && (i + 2) % 3 == 2;
    assert HandleAt(dev, offset, i) == b[0] && HandleAt(dev, offset, i + 1) == b[1];
    assert HandleAt(dev, offset, i + 2) == b[2];
  }

  lemma {:induction false} SideUsesIds(dev: string, offset: nat, n: nat, capacity: nat, r2q: nat)
    requires r2q > 0
    ensures Created(MqSide(dev, offset, n, capacity, r2q)) == SideIds(dev, offset, n)
    ensures Attached(MqSide(dev, offset, n, capacity, r2q)) == SideIds(dev, offset, n)
  {
    if n == 0 {
    } else {
      var a, b := MqSide(dev, offset, n - 1, capacity, r2q), MqQueue(dev, offset + n, capacity, r2q);
      SideUsesIds(dev, offset, n - 1, capacity, r2q);
      QueueUses(dev, offset + n, capacity, r2q);
      SideIdsStep(dev, offset, n);
      CreatedAppend(a, b);
      AttachedAppend(a, b);
    }
  }

  lemma {:induction false} SideUsesHandles(dev: string, offset: nat, n: nat, capacity: nat, r2q: nat)
    requires r2q > 0
    ensures Handles(MqSide(dev, offset, n, capacity, r2q)) == SideHandles(dev, offset, n)
  {
    if n == 0 {
    } else {
      var a, b := MqSide(dev, offset, n - 1, capacity, r2q), MqQueue(dev, offset + n, capacity, r2q);
      SideUsesHandles(dev, offset, n - 1, capacity, r2q);
      QueueUses(dev, offset + n, capacity, r2q);
      SideHandlesStep(dev, offset, n);
      HandlesAppend(a, b);
    }
  }

  ghost predicate MqIds(ids: seq<ClassId>, dev: string, lo: nat, hi: nat) {
    forall c :: c in ids ==> c.dev == dev && lo < c.id.major <= hi && (c.id.minor == 1 || c.id.minor == 2)
  }

  lemma SideIdsDistinct(dev: string, offset: nat, n: nat)
    ensures Distinct(SideIds(dev, offset, n)) && MqIds(SideIds(dev, offset, n), dev, offset, offset + n)
  {
  }

  ghost predicate MqHandles(hs: seq<HandleKey>, dev: string, lo: nat, hi: nat) {
    forall h :: h in hs ==> h.dev == dev && MqRange(h.major, lo, hi)
  }

  /** No major reaches the infrastructure handles, and none of those saturates. */
  predicate FewQueues(offset: nat, n: nat) {
    n <= 0x2001 + offset && offset + n <= 0x6FFF
  }

  /** Below saturation the slots of different queues differ, and so do the slots of one queue. */
  lemma SlotsDiffer(offset: nat, n: nat, m: nat, j: nat, m': nat, j': nat)
    requires FewQueues(offset, n) && offset < m <= m' <= offset + n && j < 3 && j' < 3 && (m < m' || j < j')
    ensures SlotMajor(m, j) != SlotMajor(m', j')
  {
    assert Cast(m) == m && Cast(m') == m';
  }

  lemma SlotInRange(offset: nat, n: nat, m: nat, j: nat)
    requires FewQueues(offset, n) && offset < m <= offset + n && j < 3
    ensures MqRange(SlotMajor(m, j), offset, offset + n)
  {
    assert Cast(m) == m;
  }

  /** All explicit handles of one interface's queues are distinct. */
  lemma SideHandlesDistinct(dev: string, offset: nat, n: nat)
    requires FewQueues(offset, n)
    ensures Distinct(SideHandles(dev, offset, n)) && MqHandles(SideHandles(dev, offset, n), dev, offset, offset + n)
  {
    var hs := SideHandles(dev, offset, n);
    forall i, i' | 0 <= i < i' < 3 * n ensures hs[i] != hs[i'] {
      SlotsDiffer(offset, n, offset + i / 3 + 1, i % 3, offset + i' / 3 + 1, i' % 3);
    }
    forall i | 0 <= i < 3 * n ensures hs[i].dev == dev && MqRange(hs[i].major, offset, offset + n) {
      SlotInRange(offset, n, offset + i / 3 + 1, i % 3);
    }
  }

  lemma {:induction false} SideParents(kn: Known, dev: string, offset: nat, n: nat, capacity: nat, r2q: nat)
    requires r2q > 0 && dev in kn.roots
    ensures var side := MqSide(dev, offset, n, capacity, r2q);
            && ParentsKnown(kn, side)
            && dev in KnownAfterAll(kn, side).roots
            && forall m :: offset < m <= offset + n ==> HandleKey(dev, m) in KnownAfterAll(kn, side).htb
  {
    if n == 0 {
    } else {
      SideParents(kn, dev, offset, n - 1, capacity, r2q);
      var a, b := MqSide(dev, offset, n - 1, capacity, r2q), MqQueue(dev, offset + n, capacity, r2q);
      ParentsAppend(kn, a, b);
      QueueParents(KnownAfterAll(kn, a), dev, offset + n, capacity, r2q);
      KnownGrows(KnownAfterAll(kn, a), b);
    }
  }

  lemma QueueParents(kn: Known, dev: string, m: nat, capacity: nat, r2q: nat)
    requires r2q > 0 && dev in kn.roots
    ensures ParentsKnown(kn, MqQueue(dev, m, capacity, r2q))
    ensures HandleKey(dev, m) in KnownAfterAll(kn, MqQueue(dev, m, capacity, r2q)).htb
  {
    var c := MqQueue(dev, m, capacity, r2q);
    assert c[1..] == [c[1], c[2], c[3], c[4]];
    assert c[1..][1..] == [c[2], c[3], c[4]];
    var k1 := KnownAfter(kn, c[0]);
    var k2 := KnownAfter(k1, c[1]);
    QueueParentsTail(k2, c);
    assert ParentsKnown(k1, c[1..]) && KnownAfterAll(k1, c[1..]) == KnownAfterAll(k2, c[1..][1..]);
    KnownGrows(k2, c[1..][1..]);
  }

  lemma QueueParentsTail(kn: Known, c: seq<Cmd>)
    requires |c| == 5 && c[2].PutLeaf? && c[3].PutClass? && c[4].PutLeaf?
    requires NamesKnown(kn, c[2]) && NamesKnown(kn, c[3])
    requires c[4].dev == c[3].dev && c[4].at == c[3].id
    ensures ParentsKnown(kn, [c[2], c[3], c[4]])
  {
    assert [c[2], c[3], c[4]][1..] == [c[3], c[4]];
    assert [c[3], c[4]][1..] == [c[4]];
    assert [c[4]][1..] == [];
    var k := KnownAfter(kn, c[3]);
    assert ParentsKnown(KnownAfter(k, c[4]), []);
    assert ParentsKnown(k, [c[4]]);
    assert ParentsKnown(kn, [c[3], c[4]]);
  }

  // ----- Exactly when the handles collide -----

  /** From this many queues on, the major of a queue is an infrastructure handle of the first one. */
  lemma TooManyQueuesCollide(dev: string, offset: nat, n: nat)
    requires n >= 0x2002 + offset && offset + n <= 0x6FFF
    ensures !Distinct(SideHandles(dev, offset, n))
  {
    var hs, i := SideHandles(dev, offset, n), 3 * (0x2001 + offset);
    assert i / 3 == 0x2001 + offset && i % 3 == 0;
    assert hs[1].major == 0x2002 + 2 * offset == hs[i].major;
  }

  /** A queue with a major from 0x7000 on saturates: its two infrastructure handles are the same. */
  lemma SaturatedQueueCollides(dev: string, offset: nat, n: nat, m: nat)
    requires offset < m <= offset + n && 0x7000 <= m <= 0xFFFF
    ensures !Distinct(SideHandles(dev, offset, n))
  {
    var hs, i := SideHandles(dev, offset, n), 3 * (m - offset - 1);
    assert (i + 1) / 3 == (i + 2) / 3 == m - offset - 1 && (i + 1) % 3 == 1 && (i + 2) % 3 == 2;
    assert hs[i + 1].major == 0xFFFF == hs[i + 2].major;
  }

  /** The explicit handles of a side are pairwise distinct exactly when it has few enough queues. */
  lemma HandlesDistinctIff(dev: string, offset: nat, n: nat, capacity: nat, r2q: nat)
    requires r2q > 0 && offset < 0xFFFF
    ensures Distinct(Handles(MqSide(dev, offset, n, capacity, r2q))) <==>
      n == 0 || (n <= 0x2001 + offset && offset + n <= 0x6FFF)
  {
    SideUsesHandles(dev, offset, n, capacity, r2q);
    if n == 0 {
    } else if FewQueues(offset, n) {
      SideHandlesDistinct(dev, offset, n);
    } else if offset + n > 0x6FFF {
      SaturatedQueueCollides(dev, offset, n, if offset < 0x7000 then 0x7000 else offset + 1);
    } else {
      TooManyQueuesCollide(dev, offset, n);
    }
  }

  // ----- Both interfaces -----

  /** One interface per direction, or one shared interface whose upload queues come after the download queues. */
  predicate Separate(cfg: Config, queues: nat, offset: nat) {
    if cfg.onAStick then cfg.isp == cfg.internet && offset >= queues else cfg.isp != cfg.internet
  }

  function Sides(cfg: Config, queues: nat, offset: nat): (r: (seq<Cmd>, seq<Cmd>)) {
    var r2q := R2q(MaxRate(cfg));
    (MqSide(cfg.isp, 0, queues, cfg.downlink, r2q), MqSide(cfg.internet, offset, queues, cfg.uplink, r2q))
  }

  lemma SidesApart(cfg: Config, queues: nat, offset: nat, a: seq<HandleKey>, b: seq<HandleKey>)
    requires Separate(cfg, queues, offset) && queues + offset <= 0x2001
    requires Distinct(a) && MqHandles(a, cfg.isp, 0, queues)
    requires Distinct(b) && MqHandles(b, cfg.internet, offset, offset + queues)
    ensures Distinct(a + b)
  {
    DistinctJoin(a, b);
  }

  ghost predicate AllReserved(cfg: Config, queues: nat, offset: nat, hs: seq<HandleKey>) {
    forall h :: h in hs ==>
      h.major < 0x1_0000 && h.major != MQ_ROOT_MAJOR && h.major in Reserved(Layout(cfg, queues, offset), h.dev)
  }

  lemma SideIsReserved(cfg: Config, queues: nat, offset: nat, hs: seq<HandleKey>, dev: string, lo: nat)
    requires queues + offset <= 0x2001 && MqHandles(hs, dev, lo, lo + queues)
    requires (lo == 0 && dev == cfg.isp) || (lo == offset && dev == cfg.internet)
    ensures AllReserved(cfg, queues, offset, hs)
  {
    forall h | h in hs
      ensures h.major < 0x1_0000 && h.major != MQ_ROOT_MAJOR && h.major in Reserved(Layout(cfg, queues, offset), h.dev)
    {
      RangeIsReserved(cfg, queues, offset, h.dev, h.major, lo);
    }
  }

  /** Every explicit handle of MQ setup is used once, and is reserved on its interface. */
  lemma SetupHandlesAreReserved(cfg: Config, queues: nat, offset: nat)
    requires Separate(cfg, queues, offset) && queues + offset <= 0x2001
    ensures var (a, b) := Sides(cfg, queues, offset);
            && Distinct(Handles(a) + Handles(b))
            && forall h :: h in Handles(a) + Handles(b) ==>
                 && h.major < 0x1_0000 && h.major != MQ_ROOT_MAJOR
                 && h.major in Reserved(Layout(cfg, queues, offset), h.dev)
  {
    var r2q := R2q(MaxRate(cfg));
    var a, b := SideHandles(cfg.isp, 0, queues), SideHandles(cfg.internet, offset, queues);
    SideUsesHandles(cfg.isp, 0, queues, cfg.downlink, r2q);
    SideUsesHandles(cfg.internet, offset, queues, cfg.uplink, r2q);
    SideHandlesDistinct(cfg.isp, 0, queues);
    SideHandlesDistinct(cfg.internet, offset, queues);
    SidesApart(cfg, queues, offset, a, b);
    SideIsReserved(cfg, queues, offset, a, cfg.isp, 0);
    SideIsReserved(cfg, queues, offset, b, cfg.internet, offset);
  }

  lemma RangeIsReserved(cfg: Config, queues: nat, offset: nat, dev: string, x: nat, lo: nat)
    requires queues + offset <= 0x2001 && MqRange(x, lo, lo + queues)
    requires (lo == 0 && dev == cfg.isp) || (lo == offset && dev == cfg.internet)
    ensures x < 0x1_0000 && x != MQ_ROOT_MAJOR && x in Reserved(Layout(cfg, queues, offset), dev)
  {
    var devices := Layout(cfg, queues, offset);
    var m := if lo < x <= lo + queues then x else (x - 0x2000) / 2;
    MajorsAre(lo, queues, m);
    assert m in devices[dev];
    assert InfraPrimary(m) == 0x2000 + 2 * m && InfraDefault(m) == 0x2001 + 2 * m;
    assert x == m || x == InfraPrimary(m) || x == InfraDefault(m);
  }

  /** x is the major of a queue lo+1 .. lo+n or one of its two infrastructure handles. */
  ghost predicate QueueHandle(x: nat, lo: nat, n: nat) {
    exists m :: lo < m <= lo + n && SlotOf(x, m)
  }

  predicate SlotOf(x: nat, m: nat) {
    x == m || x == 0x2000 + 2 * m || x == 0x2001 + 2 * m
  }

  lemma {:induction false} MajorsAreIn(offset: nat, n: nat, m: U16)
    requires m in Majors(offset, n) && offset + n < 0x1_0000
    ensures offset < m <= offset + n
  {
    if m != offset + n { MajorsAreIn(offset, n - 1, m); }
  }

  /** A handle reserved for the queues of an interface belongs to one of them. */
  lemma ReservedHandleIsQueues(cfg: Config, queues: nat, offset: nat, dev: string, x: U16, m: U16)
    requires queues + offset <= 0x2001 && dev in Layout(cfg, queues, offset) && m in Layout(cfg, queues, offset)[dev]
    requires x == m || x == InfraPrimary(m) || x == InfraDefault(m)
    ensures (dev == cfg.isp && QueueHandle(x, 0, queues)) || (dev == cfg.internet && QueueHandle(x, offset, queues))
  {
    if dev == cfg.isp && m in Majors(0, queues) {
      MajorsAreIn(0, queues, m);
    } else {
      MajorsAreIn(offset, queues, m);
    }
    assert SlotOf(x, m);
  }

  lemma QueueHandleIsReserved(cfg: Config, queues: nat, offset: nat, dev: string, x: nat, lo: nat)
    requires queues + offset <= 0x2001 && QueueHandle(x, lo, queues)
    requires (lo == 0 && dev == cfg.isp) || (lo == offset && dev == cfg.internet)
    ensures x in Reserved(Layout(cfg, queues, offset), dev)
  {
    var m :| lo < m <= lo + queues && SlotOf(x, m);
    assert MqRange(x, lo, lo + queues);
    RangeIsReserved(cfg, queues, offset, dev, x, lo);
  }

  /** Nothing but the MQ root, 0xFFFF and the handles of the interface's own queues is reserved. */
  lemma ReservedExactly(cfg: Config, queues: nat, offset: nat, dev: string, x: U16)
    requires queues + offset <= 0x2001
    ensures x in Reserved(Layout(cfg, queues, offset), dev) <==>
      || x == 0x7FFF || x == 0xFFFF
      || (dev == cfg.isp && QueueHandle(x, 0, queues)) || (dev == cfg.internet && QueueHandle(x, offset, queues))
  {
    var devices := Layout(cfg, queues, offset);
    if dev == cfg.isp && QueueHandle(x, 0, queues) { QueueHandleIsReserved(cfg, queues, offset, dev, x, 0); }
    if dev == cfg.internet && QueueHandle(x, offset, queues) {
      QueueHandleIsReserved(cfg, queues, offset, dev, x, offset);
    }
    if x in Reserved(devices, dev) && x != MQ_ROOT_MAJOR && x != 0xFFFF {
      var m: U16 :| m in devices[dev] && (x == m || x == InfraPrimary(m) || x == InfraDefault(m));
      ReservedHandleIsQueues(cfg, queues, offset, dev, x, m);
    }
  }

  /** No handle issued against the reserved set of an interface is one that MQ setup uses there. */
  lemma IssuedHandleAvoidsSetup(cfg: Config, queues: nat, offset: nat, st: QdiscHandles.State, op: QdiscHandles.Op)
    requires Separate(cfg, queues, offset) && queues + offset <= 0x2001 && QdiscHandles.Inv(st)
    requires (op.Assign? || op.Rotate?) && op.reserved == Reserved(Layout(cfg, queues, offset), op.iface)
    requires QdiscHandles.Step(st, op).1.Some?
    ensures var (a, b) := Sides(cfg, queues, offset);
            HandleKey(op.iface, QdiscHandles.Step(st, op).1.value) !in Handles(a) + Handles(b)
  {
    QdiscHandles.IssuedHandleIsClean(st, op);
    SetupHandlesAreReserved(cfg, queues, offset);
  }
}
