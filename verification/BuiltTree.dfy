/**
 * The queues a full reload leaves in the kernel: for every queue its root and default classes, and
 * below them exactly the tree of sites and circuits, on both interfaces.
 */
module BuiltTree {
  import opened Common
  import opened TcKernel
  import opened QueueMath
  import opened BakeryCommands
  import opened MqSetup
  import opened BuilderStream

  // ----- What a stream of creations leaves behind -----

  ghost predicate NoDeletions(cmds: seq<Cmd>) {
    forall c :: c in cmds ==> !c.DelLeaf? && !c.DelClass?
  }

  /** Parents are never known for a deletion, so a stream with known parents deletes nothing. */
  lemma {:induction false} KnownParentsDeleteNothing(kn: Known, cmds: seq<Cmd>)
    requires ParentsKnown(kn, cmds)
    ensures NoDeletions(cmds)
    decreases |cmds|
  {
    if cmds == [] {
    } else {
      KnownParentsDeleteNothing(KnownAfter(kn, cmds[0]), cmds[1..]);
    }
  }

  /** A class the rest of the stream does not create, and a leaf it does not attach, stay as they are. */
  lemma {:induction false} OthersStay(k: Kernel, cmds: seq<Cmd>, x: ClassId)
    requires NoDeletions(cmds)
    ensures k.roots <= Run(k, cmds).roots && k.htb <= Run(k, cmds).htb
    ensures x !in Created(cmds) ==>
              && (x in Run(k, cmds).classes <==> x in k.classes)
              && (x in k.classes ==> Run(k, cmds).classes[x] == k.classes[x])
    ensures x !in Attached(cmds) ==>
              && (x in Run(k, cmds).leaves <==> x in k.leaves)
              && (x in k.leaves ==> Run(k, cmds).leaves[x] == k.leaves[x])
    decreases |cmds|
  {
    if cmds == [] {
    } else {
      OthersStay(Exec(k, cmds[0]), cmds[1..], x);
      KeysAfter(k, cmds[0]);
    }
  }

  /** The kernel holds what one creating command asked for. */
  ghost predicate Holds(k: Kernel, cmd: Cmd) {
    match cmd
    case AddMqRoot(dev) => dev in k.roots
    case AddHtb(dev, major) => HandleKey(dev, major) in k.htb
    case PutClass(dev, parent, id, spec) =>
      ClassId(dev, id) in k.classes && k.classes[ClassId(dev, id)] == Class(parent, spec)
    case PutLeaf(dev, at, handle, sqm) =>
      ClassId(dev, at) in k.leaves && k.leaves[ClassId(dev, at)] == Leaf(handle, sqm)
    case DelLeaf(_, _) => true
    case DelClass(_, _, _) => true
  }

  ghost predicate HoldsAll(k: Kernel, cmds: seq<Cmd>) {
    forall c :: c in cmds ==> Holds(k, c)
  }

  lemma FirstIsHeld(k: Kernel, cmds: seq<Cmd>)
    requires cmds != [] && NoDeletions(cmds) && Distinct(Created(cmds)) && Distinct(Attached(cmds))
    ensures Holds(Run(k, cmds), cmds[0])
  {
    var cmd, rest := cmds[0], cmds[1..];
    DistinctSplit(CmdCreates(cmd), Created(rest));
    DistinctSplit(CmdAttaches(cmd), Attached(rest));
    match cmd
    case PutClass(dev, _, id, _) =>
      assert ClassId(dev, id) in CmdCreates(cmd);
      OthersStay(Exec(k, cmd), rest, ClassId(dev, id));
    case PutLeaf(dev, at, _, _) =>
      assert ClassId(dev, at) in CmdAttaches(cmd);
      OthersStay(Exec(k, cmd), rest, ClassId(dev, at));
    case AddMqRoot(_) => OthersStay(Exec(k, cmd), rest, ClassId("", Handle(0, 0)));
    case AddHtb(_, _) => OthersStay(Exec(k, cmd), rest, ClassId("", Handle(0, 0)));
    case _ =>
  }

  /** Distinct creations all survive to the end of the stream. */
  lemma {:induction false} StreamIsHeld(k: Kernel, cmds: seq<Cmd>)
    requires NoDeletions(cmds) && Distinct(Created(cmds)) && Distinct(Attached(cmds))
    ensures HoldsAll(Run(k, cmds), cmds)
    decreases |cmds|
  {
    if cmds == [] {
    } else {
      FirstIsHeld(k, cmds);
      DistinctSplit(CmdCreates(cmds[0]), Created(cmds[1..]));
      DistinctSplit(CmdAttaches(cmds[0]), Attached(cmds[1..]));
      StreamIsHeld(Exec(k, cmds[0]), cmds[1..]);
    }
  }

  /** Nothing exists that was not there before or created by the stream. */
  lemma {:induction false} NothingElse(k: Kernel, cmds: seq<Cmd>, x: ClassId)
    requires NoDeletions(cmds)
    ensures x in Run(k, cmds).classes <==> x in k.classes || x in Created(cmds)
    ensures x in Run(k, cmds).leaves <==> x in k.leaves || x in Attached(cmds)
    decreases |cmds|
  {
    if cmds == [] {
    } else {
      NothingElse(Exec(k, cmds[0]), cmds[1..], x);
      KeysAfter(k, cmds[0]);
    }
  }

  // ----- The tree, by membership -----

  /** A class with its parent and rates, and the quantum its ceiling gives at that capacity. */
  ghost predicate HasClass(k: Kernel, dev: string, major: nat, parent: nat, minor: nat, rate: real, ceil: real,
                           capacity: nat)
  {
    var x := ClassId(dev, Handle(major, minor));
    && x in k.classes && k.classes[x].parent == Handle(major, parent)
    && k.classes[x].spec.rate == rate && k.classes[x].spec.ceil == ceil && k.classes[x].spec.prio == Some(3)
    && IsQuantum(k.classes[x].spec.quantum, AsU64(ceil), R2q(capacity))
  }

  /** Both classes of a node: the download rates on the one interface, the upload rates on the other. */
  ghost predicate HasPair(k: Kernel, cfg: Config, q: nat, offset: nat, parent: nat, minor: nat, r: Rates) {
    && HasClass(k, cfg.isp, q, parent, minor, r.dlMin, r.dlMax, cfg.downlink)
    && HasClass(k, cfg.internet, q + offset, parent, minor, r.ulMin, r.ulMax, cfg.uplink)
  }

  predicate DownWanted(cfg: Config, c: Circuit) {
    !cfg.lazy.Htb? && !IsNone(SplitOverride(c.override).0)
  }

  predicate UpWanted(cfg: Config, c: Circuit) {
    !cfg.lazy.Htb? && !cfg.onAStick && !IsNone(SplitOverride(c.override).1)
  }

  ghost predicate HasLeaf(k: Kernel, dev: string, id: Handle, leaf: Leaf) {
    ClassId(dev, id) in k.leaves && k.leaves[ClassId(dev, id)] == leaf
  }

  /** The qdiscs of a circuit: its own handle, its own ceiling and its own side of the override. */
  ghost predicate HasLeaves(k: Kernel, cfg: Config, q: nat, offset: nat, c: Circuit) {
    && (DownWanted(cfg, c) ==>
          HasLeaf(k, cfg.isp, Handle(q, c.minor),
                  Leaf(c.downHandle, Sqm(Some(c.rates.dlMax), SplitOverride(c.override).0))))
    && (UpWanted(cfg, c) ==>
          HasLeaf(k, cfg.internet, Handle(q + offset, c.minor),
                  Leaf(c.upHandle, Sqm(Some(c.rates.ulMax), SplitOverride(c.override).1))))
  }

  ghost predicate HasCircuit(k: Kernel, cfg: Config, q: nat, offset: nat, site: nat, c: Circuit) {
    HasPair(k, cfg, q, offset, site, c.minor, c.rates) && HasLeaves(k, cfg, q, offset, c)
  }

  /** The site hangs below `parent`, its circuits and its children hang below the site. */
  ghost predicate HasSite(k: Kernel, cfg: Config, q: nat, offset: nat, parent: nat, s: Site)
    decreases s
  {
    && HasPair(k, cfg, q, offset, parent, s.minor, s.rates)
    && (forall c :: c in s.circuits ==> HasCircuit(k, cfg, q, offset, s.minor, c))
    && (forall t :: t in s.children ==> HasSite(k, cfg, q, offset, s.minor, t))
  }

  /** A class of the pair a key owns. */
  predicate PairOf(cfg: Config, q: nat, offset: nat, minor: nat, x: ClassId) {
    x == ClassId(cfg.isp, Handle(q, minor)) || x == ClassId(cfg.internet, Handle(q + offset, minor))
  }

  predicate CircuitLeaf(cfg: Config, q: nat, offset: nat, c: Circuit, x: ClassId) {
    || (DownWanted(cfg, c) && x == ClassId(cfg.isp, Handle(q, c.minor)))
    || (UpWanted(cfg, c) && x == ClassId(cfg.internet, Handle(q + offset, c.minor)))
  }

  predicate CircuitClassIn(cfg: Config, q: nat, offset: nat, cs: seq<Circuit>, x: ClassId) {
    exists c :: c in cs && PairOf(cfg, q, offset, c.minor, x)
  }

  predicate CircuitLeafIn(cfg: Config, q: nat, offset: nat, cs: seq<Circuit>, x: ClassId) {
    exists c :: c in cs && CircuitLeaf(cfg, q, offset, c, x)
  }

  /** x is a class of the site, of one of its circuits or of something below it. */
  predicate ClassBelow(cfg: Config, q: nat, offset: nat, s: Site, x: ClassId)
    decreases s
  {
    || PairOf(cfg, q, offset, s.minor, x)
    || CircuitClassIn(cfg, q, offset, s.circuits, x)
    || (exists t :: t in s.children && ClassBelow(cfg, q, offset, t, x))
  }

  /** x carries a qdisc that one of the circuits at or below the site asks for. */
  predicate LeafBelow(cfg: Config, q: nat, offset: nat, s: Site, x: ClassId)
    decreases s
  {
    || CircuitLeafIn(cfg, q, offset, s.circuits, x)
    || (exists t :: t in s.children && LeafBelow(cfg, q, offset, t, x))
  }

  // ----- The stream holds the tree -----

  lemma HeldParts(k: Kernel, a: seq<Cmd>, b: seq<Cmd>)
    requires HoldsAll(k, a + b)
    ensures HoldsAll(k, a) && HoldsAll(k, b)
  {
    assert forall c :: c in a ==> c in a + b;
    assert forall c :: c in b ==> c in a + b;
  }

  lemma SpecQuantum(rate: real, ceil: real, capacity: nat)
    ensures IsQuantum(Spec(rate, ceil, capacity).quantum, AsU64(ceil), R2q(capacity))
  {
    QuantumIsFloor(AsU64(ceil), R2q(capacity));
  }

  lemma SiteIsHeld(k: Kernel, cfg: Config, q: nat, offset: nat, parent: nat, s: Site)
    requires HoldsAll(k, SiteCmds(cfg, q, offset, parent, s)) && !cfg.observe
    ensures HasPair(k, cfg, q, offset, parent, s.minor, s.rates)
  {
    var cmds := SiteCmds(cfg, q, offset, parent, s);
    assert cmds[0] in cmds && cmds[1] in cmds;
    SpecQuantum(s.rates.dlMin, s.rates.dlMax, cfg.downlink);
    SpecQuantum(s.rates.ulMin, s.rates.ulMax, cfg.uplink);
  }

  lemma CircuitIsHeld(k: Kernel, cfg: Config, q: nat, offset: nat, site: nat, c: Circuit)
    requires HoldsAll(k, CircuitCmds(cfg, Params(q, offset, site, c)))
    ensures HasCircuit(k, cfg, q, offset, site, c)
  {
    var p := Params(q, offset, site, c);
    var cmds := CircuitCmds(cfg, p);
    assert DownClass(cfg, p) in cmds && UpClass(cfg, p) in cmds;
    assert Holds(k, DownClass(cfg, p)) && Holds(k, UpClass(cfg, p));
    SpecQuantum(c.rates.dlMin, c.rates.dlMax, cfg.downlink);
    SpecQuantum(c.rates.ulMin, c.rates.ulMax, cfg.uplink);
    if DownWanted(cfg, c) { assert DownLeaf(cfg, p) in cmds && Holds(k, DownLeaf(cfg, p)); }
    if UpWanted(cfg, c) { assert UpLeaf(cfg, p) in cmds && Holds(k, UpLeaf(cfg, p)); }
  }

  lemma {:induction false} CircuitsAreHeld(k: Kernel, cfg: Config, q: nat, offset: nat, site: nat, cs: seq<Circuit>)
    requires HoldsAll(k, EmitCircuits(cfg, q, offset, site, cs)) && !cfg.observe
    ensures forall c :: c in cs ==> HasCircuit(k, cfg, q, offset, site, c)
  {
    if cs == [] {
    } else {
      var p := Params(q, offset, site, cs[0]);
      BuilderCircuit(cfg, p);
      HeldParts(k, CircuitCmds(cfg, p), EmitCircuits(cfg, q, offset, site, cs[1..]));
      CircuitIsHeld(k, cfg, q, offset, site, cs[0]);
      CircuitsAreHeld(k, cfg, q, offset, site, cs[1..]);
    }
  }

  lemma {:induction false} SubtreeIsHeld(k: Kernel, cfg: Config, q: nat, offset: nat, parent: nat, s: Site)
    requires HoldsAll(k, EmitSite(cfg, q, offset, parent, s)) && !cfg.observe
    ensures HasSite(k, cfg, q, offset, parent, s)
    decreases s
  {
    var y, z := EmitCircuits(cfg, q, offset, s.minor, s.circuits), EmitSites(cfg, q, offset, s.minor, s.children);
    HeldParts(k, SiteCmds(cfg, q, offset, parent, s), y + z);
    HeldParts(k, y, z);
    SiteIsHeld(k, cfg, q, offset, parent, s);
    CircuitsAreHeld(k, cfg, q, offset, s.minor, s.circuits);
    SubtreesAreHeld(k, cfg, q, offset, s.minor, s.children);
  }

  lemma {:induction false} SubtreesAreHeld(k: Kernel, cfg: Config, q: nat, offset: nat, parent: nat, ss: seq<Site>)
    requires HoldsAll(k, EmitSites(cfg, q, offset, parent, ss)) && !cfg.observe
    ensures forall s :: s in ss ==> HasSite(k, cfg, q, offset, parent, s)
    decreases ss
  {
    if ss == [] {
    } else {
      HeldParts(k, EmitSite(cfg, q, offset, parent, ss[0]), EmitSites(cfg, q, offset, parent, ss[1..]));
      SubtreeIsHeld(k, cfg, q, offset, parent, ss[0]);
      SubtreesAreHeld(k, cfg, q, offset, parent, ss[1..]);
    }
  }

  lemma {:induction false} TopsAreHeld(k: Kernel, cfg: Config, offset: nat, tops: seq<Top>)
    requires HoldsAll(k, EmitTops(cfg, offset, tops)) && !cfg.observe
    ensures forall t :: t in tops ==> HasSite(k, cfg, t.queue, offset, 0, t.site)
  {
    if tops == [] {
    } else {
      HeldParts(k, EmitSite(cfg, tops[0].queue, offset, 0, tops[0].site), EmitTops(cfg, offset, tops[1..]));
      SubtreeIsHeld(k, cfg, tops[0].queue, offset, 0, tops[0].site);
      TopsAreHeld(k, cfg, offset, tops[1..]);
    }
  }

  // ----- The stream creates nothing else -----

  lemma CircuitCreates(cfg: Config, q: nat, offset: nat, site: nat, c: Circuit, x: ClassId)
    ensures var cmds := CircuitCmds(cfg, Params(q, offset, site, c));
            && (x in Created(cmds) <==> PairOf(cfg, q, offset, c.minor, x))
            && (x in Attached(cmds) <==> CircuitLeaf(cfg, q, offset, c, x))
  {
    var p := Params(q, offset, site, c);
    CircuitUses(cfg, p);
    var down, up := DownId(cfg, p), UpId(cfg, p);
    assert DownWanted(cfg, c) == (!cfg.lazy.Htb? && WantsDownLeaf(p));
    assert UpWanted(cfg, c) == (!cfg.lazy.Htb? && WantsUpLeaf(cfg, p));
  }

  lemma {:induction false} CircuitsCreate(cfg: Config, q: nat, offset: nat, site: nat, cs: seq<Circuit>, x: ClassId)
    requires !cfg.observe
    ensures var cmds := EmitCircuits(cfg, q, offset, site, cs);
            && (x in Created(cmds) <==> CircuitClassIn(cfg, q, offset, cs, x))
            && (x in Attached(cmds) <==> CircuitLeafIn(cfg, q, offset, cs, x))
  {
    if cs == [] {
    } else {
      var p := Params(q, offset, site, cs[0]);
      var a, b := CircuitCmds(cfg, p), EmitCircuits(cfg, q, offset, site, cs[1..]);
      BuilderCircuit(cfg, p);
      CreatedAppend(a, b);
      AttachedAppend(a, b);
      CircuitCreates(cfg, q, offset, site, cs[0], x);
      CircuitsCreate(cfg, q, offset, site, cs[1..], x);
      assert forall c :: c in cs <==> c == cs[0] || c in cs[1..];
    }
  }

  lemma SiteCreates(cfg: Config, q: nat, offset: nat, parent: nat, s: Site, x: ClassId)
    requires !cfg.observe
    ensures x in Created(SiteCmds(cfg, q, offset, parent, s)) <==> PairOf(cfg, q, offset, s.minor, x)
    ensures Attached(SiteCmds(cfg, q, offset, parent, s)) == []
  {
    var c := SiteCmds(cfg, q, offset, parent, s);
    assert c == [c[0]] + [c[1]] && [c[1]] + [] == [c[1]];
    StreamCons(c[1], []);
    StreamCons(c[0], [c[1]]);
  }

  lemma InThree(a: seq<Cmd>, b: seq<Cmd>, c: seq<Cmd>, x: ClassId)
    ensures x in Created(a + (b + c)) <==> x in Created(a) || x in Created(b) || x in Created(c)
    ensures x in Attached(a + (b + c)) <==> x in Attached(a) || x in Attached(b) || x in Attached(c)
  {
    CreatedAppend(a, b + c);
    CreatedAppend(b, c);
    AttachedAppend(a, b + c);
    AttachedAppend(b, c);
  }

  lemma {:induction false} SubtreeCreates(cfg: Config, q: nat, offset: nat, parent: nat, s: Site, x: ClassId)
    requires !cfg.observe
    ensures x in Created(EmitSite(cfg, q, offset, parent, s)) <==> ClassBelow(cfg, q, offset, s, x)
    ensures x in Attached(EmitSite(cfg, q, offset, parent, s)) <==> LeafBelow(cfg, q, offset, s, x)
    decreases s
  {
    var w := SiteCmds(cfg, q, offset, parent, s);
    var y, z := EmitCircuits(cfg, q, offset, s.minor, s.circuits), EmitSites(cfg, q, offset, s.minor, s.children);
    InThree(w, y, z, x);
    SiteCreates(cfg, q, offset, parent, s, x);
    CircuitsCreate(cfg, q, offset, s.minor, s.circuits, x);
    SubtreesCreate(cfg, q, offset, s.minor, s.children, x);
  }

  lemma {:induction false} SubtreesCreate(cfg: Config, q: nat, offset: nat, parent: nat, ss: seq<Site>, x: ClassId)
    requires !cfg.observe
    ensures var cmds := EmitSites(cfg, q, offset, parent, ss);
            && (x in Created(cmds) <==> exists s :: s in ss && ClassBelow(cfg, q, offset, s, x))
            && (x in Attached(cmds) <==> exists s :: s in ss && LeafBelow(cfg, q, offset, s, x))
    decreases ss
  {
    if ss == [] {
    } else {
      var a, b := EmitSite(cfg, q, offset, parent, ss[0]), EmitSites(cfg, q, offset, parent, ss[1..]);
      CreatedAppend(a, b);
      AttachedAppend(a, b);
      SubtreeCreates(cfg, q, offset, parent, ss[0], x);
      SubtreesCreate(cfg, q, offset, parent, ss[1..], x);
      assert forall s :: s in ss <==> s == ss[0] || s in ss[1..];
    }
  }

  lemma {:induction false} TopsCreate(cfg: Config, offset: nat, tops: seq<Top>, x: ClassId)
    requires !cfg.observe
    ensures var cmds := EmitTops(cfg, offset, tops);
            && (x in Created(cmds) <==> exists t :: t in tops && ClassBelow(cfg, t.queue, offset, t.site, x))
            && (x in Attached(cmds) <==> exists t :: t in tops && LeafBelow(cfg, t.queue, offset, t.site, x))
  {
    if tops == [] {
    } else {
      var a, b := EmitSite(cfg, tops[0].queue, offset, 0, tops[0].site), EmitTops(cfg, offset, tops[1..]);
      CreatedAppend(a, b);
      AttachedAppend(a, b);
      SubtreeCreates(cfg, tops[0].queue, offset, 0, tops[0].site, x);
      TopsCreate(cfg, offset, tops[1..], x);
      assert forall t :: t in tops <==> t == tops[0] || t in tops[1..];
    }
  }

  // ----- The queues of both interfaces -----

  /** The HTB qdisc of a queue, its root class, its default class below that, and their qdiscs. */
  ghost predicate HasQueue(k: Kernel, dev: string, m: nat, capacity: nat, r2q: nat) {
    var root, other := ClassId(dev, Handle(m, 1)), ClassId(dev, Handle(m, 2));
    && HandleKey(dev, m) in k.htb && root in k.classes && other in k.classes
    && k.classes[root].parent == Handle(m, 0) && k.classes[other].parent == Handle(m, 1)
    && k.classes[root].spec.rate == k.classes[root].spec.ceil == capacity as real
    && k.classes[other].spec.ceil == AsU64(capacity as real - 1.0) as real
    && k.classes[other].spec.rate == AsU64((capacity as real - 1.0) / 4.0) as real
    && IsQuantum(k.classes[root].spec.quantum, capacity, r2q) && k.classes[root].spec.prio == None
    && IsQuantum(k.classes[other].spec.quantum, capacity, r2q) && k.classes[other].spec.prio == Some(5)
    && root in k.leaves && k.leaves[root] == Leaf(Some(0x2000 + 2 * m), Sqm(None, None))
    && other in k.leaves && k.leaves[other] == Leaf(Some(0x2001 + 2 * m), Sqm(None, None))
  }

  lemma QueueIsHeld(k: Kernel, dev: string, m: nat, capacity: nat, r2q: nat)
    requires r2q > 0 && m <= 0x6FFF && HoldsAll(k, MqQueue(dev, m, capacity, r2q))
    ensures HasQueue(k, dev, m, capacity, r2q)
  {
    var c := MqQueue(dev, m, capacity, r2q);
    assert c[0] in c && c[1] in c && c[2] in c && c[3] in c && c[4] in c;
    assert Holds(k, c[0]) && Holds(k, c[1]) && Holds(k, c[2]) && Holds(k, c[3]) && Holds(k, c[4]);
    QuantumIsFloor(capacity, r2q);
  }

  lemma {:induction false} SideIsHeld(k: Kernel, dev: string, offset: nat, n: nat, m: nat, capacity: nat, r2q: nat)
    requires r2q > 0 && m <= 0x6FFF && offset < m <= offset + n && HoldsAll(k, MqSide(dev, offset, n, capacity, r2q))
    ensures HasQueue(k, dev, m, capacity, r2q)
  {
    HeldParts(k, MqSide(dev, offset, n - 1, capacity, r2q), MqQueue(dev, offset + n, capacity, r2q));
    if m < offset + n {
      SideIsHeld(k, dev, offset, n - 1, m, capacity, r2q);
    } else {
      QueueIsHeld(k, dev, m, capacity, r2q);
    }
  }

  lemma SetupIsHeld(k: Kernel, cfg: Config, queues: nat, offset: nat, created: bool)
    requires !cfg.observe && queues + offset <= 0x2001 && HoldsAll(k, MqCommands(cfg, queues, offset, created))
    ensures var r2q := R2q(MaxRate(cfg));
            && (forall m :: 0 < m <= queues ==> HasQueue(k, cfg.isp, m, cfg.downlink, r2q))
            && (forall m :: offset < m <= offset + queues ==> HasQueue(k, cfg.internet, m, cfg.uplink, r2q))
  {
    SetupShape(cfg, queues, offset, created);
    var (a, b) := Sides(cfg, queues, offset);
    var r2q := R2q(MaxRate(cfg));
    var r1, r2 := FirstRoot(cfg, created), SecondRoot(cfg, created);
    HeldParts(k, r1 + a + r2, b);
    HeldParts(k, r1 + a, r2);
    HeldParts(k, r1, a);
    forall m | 0 < m <= queues ensures HasQueue(k, cfg.isp, m, cfg.downlink, r2q) {
      SideIsHeld(k, cfg.isp, 0, queues, m, cfg.downlink, r2q);
    }
    forall m | offset < m <= offset + queues ensures HasQueue(k, cfg.internet, m, cfg.uplink, r2q) {
      SideIsHeld(k, cfg.internet, offset, queues, m, cfg.uplink, r2q);
    }
  }

  /** The kernel a reload leaves: HTB qdisc, root and default class per queue, the tree below, and nothing else. */
  ghost predicate HasTree(k: Kernel, cfg: Config, queues: nat, offset: nat, tops: seq<Top>) {
    var r2q := R2q(MaxRate(cfg));
    && (forall m :: 0 < m <= queues ==> HasQueue(k, cfg.isp, m, cfg.downlink, r2q))
    && (forall m :: offset < m <= offset + queues ==> HasQueue(k, cfg.internet, m, cfg.uplink, r2q))
    && (forall t :: t in tops ==> HasSite(k, cfg, t.queue, offset, 0, t.site))
    && (forall x :: x in k.classes && x.id.minor >= 3 ==>
          exists t :: t in tops && ClassBelow(cfg, t.queue, offset, t.site, x))
    && (forall x :: x in k.leaves && x.id.minor >= 3 ==>
          exists t :: t in tops && LeafBelow(cfg, t.queue, offset, t.site, x))
    && (forall x :: x in k.classes && x.id.minor < 3 ==> QueueClass(cfg, queues, offset, x))
  }

  /** Root or default class of one of the queues. */
  predicate QueueClass(cfg: Config, queues: nat, offset: nat, x: ClassId) {
    && 1 <= x.id.minor <= 2
    && ((x.dev == cfg.isp && 1 <= x.id.major <= queues)
        || (x.dev == cfg.internet && offset < x.id.major <= offset + queues))
  }

  /**
   * For every tree: after a full reload each site and each circuit has a class on both interfaces,
   * below the class of the site that encloses it (below the queue's HTB qdisc at the top), with its
   * own rates; each circuit has the qdiscs it wants; and the kernel holds no other class.
   */
  lemma BuilderBuildsTree(cfg: Config, queues: nat, offset: nat, created: bool, tops: seq<Top>)
    requires !cfg.observe && Separate(cfg, queues, offset) && queues + offset <= 0x2001
    requires GoodKeys(TopKeys(tops), queues) && forall t :: t in tops ==> 1 <= t.queue <= queues
    ensures HasTree(Run(Start(cfg, created), MqCommands(cfg, queues, offset, created) + EmitTops(cfg, offset, tops)),
                    cfg, queues, offset, tops)
  {
    var setup, tree := MqCommands(cfg, queues, offset, created), EmitTops(cfg, offset, tops);
    var start := Start(cfg, created);
    var k := Run(start, setup + tree);
    StreamDeletesNothing(cfg, queues, offset, created, tops);
    StreamIds(cfg, queues, offset, created, tops);
    StreamIsHeld(start, setup + tree);
    HeldParts(k, setup, tree);
    SetupIsHeld(k, cfg, queues, offset, created);
    TopsAreHeld(k, cfg, offset, tops);
    forall x | x in k.classes || x in k.leaves
      ensures x.id.minor >= 3 && x in k.classes ==>
                exists t :: t in tops && ClassBelow(cfg, t.queue, offset, t.site, x)
      ensures x.id.minor >= 3 && x in k.leaves ==>
                exists t :: t in tops && LeafBelow(cfg, t.queue, offset, t.site, x)
      ensures x.id.minor < 3 && x in k.classes ==> QueueClass(cfg, queues, offset, x)
    {
      NothingElse(start, setup + tree, x);
      StreamSources(cfg, queues, offset, created, tops, x);
    }
  }

  lemma StreamDeletesNothing(cfg: Config, queues: nat, offset: nat, created: bool, tops: seq<Top>)
    requires !cfg.observe && Separate(cfg, queues, offset)
    requires GoodKeys(TopKeys(tops), queues) && forall t :: t in tops ==> 1 <= t.queue <= queues
    ensures NoDeletions(MqCommands(cfg, queues, offset, created) + EmitTops(cfg, offset, tops))
  {
    var kn := KnownOf(Start(cfg, created));
    var setup := MqCommands(cfg, queues, offset, created);
    SetupParents(cfg, queues, offset, created);
    EmitTopsParents(KnownAfterAll(kn, setup), cfg, queues, offset, tops);
    KnownParentsDeleteNothing(kn, setup);
    KnownParentsDeleteNothing(KnownAfterAll(kn, setup), EmitTops(cfg, offset, tops));
  }

  /** Where a created class comes from: the tree from minor 3 on, MQ setup below. */
  lemma StreamSources(cfg: Config, queues: nat, offset: nat, created: bool, tops: seq<Top>, x: ClassId)
    requires !cfg.observe && Separate(cfg, queues, offset) && GoodKeys(TopKeys(tops), queues)
    ensures var stream := MqCommands(cfg, queues, offset, created) + EmitTops(cfg, offset, tops);
            && (x in Created(stream) && x.id.minor >= 3 ==>
                  exists t :: t in tops && ClassBelow(cfg, t.queue, offset, t.site, x))
            && (x in Attached(stream) && x.id.minor >= 3 ==>
                  exists t :: t in tops && LeafBelow(cfg, t.queue, offset, t.site, x))
            && (x in Created(stream) && x.id.minor < 3 ==> QueueClass(cfg, queues, offset, x))
  {
    var setup, tree := MqCommands(cfg, queues, offset, created), EmitTops(cfg, offset, tops);
    SetupClasses(cfg, queues, offset, created, x);
    EmitTopsOwned(cfg, queues, offset, tops);
    OwnedMinors(cfg, offset, queues, Created(tree), TopKeys(tops));
    CreatedAppend(setup, tree);
    AttachedAppend(setup, tree);
    TopsCreate(cfg, offset, tops, x);
  }

  lemma SetupClasses(cfg: Config, queues: nat, offset: nat, created: bool, x: ClassId)
    requires !cfg.observe
    ensures var setup := MqCommands(cfg, queues, offset, created);
            x in Created(setup) || x in Attached(setup) ==> QueueClass(cfg, queues, offset, x)
  {
    var r2q := R2q(MaxRate(cfg));
    SetupUses(cfg, queues, offset, created);
    SideUsesIds(cfg.isp, 0, queues, cfg.downlink, r2q);
    SideUsesIds(cfg.internet, offset, queues, cfg.uplink, r2q);
    SideIdsDistinct(cfg.isp, 0, queues);
    SideIdsDistinct(cfg.internet, offset, queues);
  }
}
