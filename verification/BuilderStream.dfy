/**
 * The whole stream a full reload sends: MQ setup, then every site and circuit in traversal order.
 * The identity planner's promises are preconditions: majors follow the queue, minors are at least
 * 3 and unique per queue.
 */
module BuilderStream {
  import opened Common
  import opened TcKernel
  import opened QueueMath
  import opened BakeryCommands
  import opened MqSetup

  datatype Rates = Rates(dlMin: real, ulMin: real, dlMax: real, ulMax: real)

  datatype Circuit = Circuit(id: string, minor: nat, rates: Rates, downHandle: Option<nat>, upHandle: Option<nat>,
                             override: Option<string>)

  datatype Site = Site(minor: nat, rates: Rates, circuits: seq<Circuit>, children: seq<Site>)

  /** A top-level node with the queue (1-based) it was given. */
  datatype Top = Top(queue: nat, site: Site)

  datatype Key = Key(queue: nat, minor: nat)

  // ----- Traversal -----

  function Params(q: nat, offset: nat, site: nat, c: Circuit): (p: CircuitParams) {
    CircuitParams(Handle(q, site), Handle(q + offset, site), c.minor,
                  c.rates.dlMin, c.rates.ulMin, c.rates.dlMax, c.rates.ulMax,
                  q, q + offset, c.downHandle, c.upHandle, c.override)
  }

  function SiteCmds(cfg: Config, q: nat, offset: nat, parent: nat, s: Site): (r: seq<Cmd>) {
    Cmds(AddSite(cfg, SiteParams(Handle(q, parent), Handle(q + offset, parent), s.minor,
                                 s.rates.dlMin, s.rates.ulMin, s.rates.dlMax, s.rates.ulMax)))
  }

  function EmitCircuits(cfg: Config, q: nat, offset: nat, site: nat, cs: seq<Circuit>): (r: seq<Cmd>) {
    if cs == [] then []
    else Cmds(AddCircuit(Builder, cfg, Params(q, offset, site, cs[0]))) + EmitCircuits(cfg, q, offset, site, cs[1..])
  }

  /** traverseNetwork below one node: its class pair, its circuits, then its children. */
  function EmitSite(cfg: Config, q: nat, offset: nat, parent: nat, s: Site): (r: seq<Cmd>)
    decreases s
  {
    SiteCmds(cfg, q, offset, parent, s) +
    (EmitCircuits(cfg, q, offset, s.minor, s.circuits) + EmitSites(cfg, q, offset, s.minor, s.children))
  }

  function EmitSites(cfg: Config, q: nat, offset: nat, parent: nat, ss: seq<Site>): (r: seq<Cmd>)
    decreases ss
  {
    if ss == [] then [] else EmitSite(cfg, q, offset, parent, ss[0]) + EmitSites(cfg, q, offset, parent, ss[1..])
  }

  function EmitTops(cfg: Config, offset: nat, tops: seq<Top>): (r: seq<Cmd>) {
    if tops == [] then [] else EmitSite(cfg, tops[0].queue, offset, 0, tops[0].site) + EmitTops(cfg, offset, tops[1..])
  }

  // ----- The keys of a tree -----

  function CircuitKeys(q: nat, cs: seq<Circuit>): (r: seq<Key>) {
    if cs == [] then [] else [Key(q, cs[0].minor)] + CircuitKeys(q, cs[1..])
  }

  function SiteKeys(q: nat, s: Site): (r: seq<Key>)
    decreases s
  {
    [Key(q, s.minor)] + (CircuitKeys(q, s.circuits) + SitesKeys(q, s.children))
  }

  function SitesKeys(q: nat, ss: seq<Site>): (r: seq<Key>)
    decreases ss
  {
    if ss == [] then [] else SiteKeys(q, ss[0]) + SitesKeys(q, ss[1..])
  }

  function TopKeys(tops: seq<Top>): (r: seq<Key>) {
    if tops == [] then [] else SiteKeys(tops[0].queue, tops[0].site) + TopKeys(tops[1..])
  }

  /** The planner's promises about one key. */
  predicate GoodKey(k: Key, queues: nat) {
    1 <= k.queue <= queues && k.minor >= 3
  }

  // ----- Class ids owned by keys -----

  function DownOf(cfg: Config, k: Key): (r: ClassId) {
    ClassId(cfg.isp, Handle(k.queue, k.minor))
  }

  function UpOf(cfg: Config, offset: nat, k: Key): (r: ClassId) {
    ClassId(cfg.internet, Handle(k.queue + offset, k.minor))
  }

  predicate OwnedBy(cfg: Config, offset: nat, x: ClassId, k: Key) {
    x == DownOf(cfg, k) || x == UpOf(cfg, offset, k)
  }

  /** Distinct ids, all of them ids of the given keys. */
  ghost predicate Owned(cfg: Config, offset: nat, ids: seq<ClassId>, keys: seq<Key>) {
    Distinct(ids) && forall x :: x in ids ==> exists k :: k in keys && OwnedBy(cfg, offset, x, k)
  }

  ghost predicate GoodKeys(keys: seq<Key>, queues: nat) {
    Distinct(keys) && forall k :: k in keys ==> GoodKey(k, queues)
  }

  /** No class belongs to two keys. */
  lemma OneOwner(cfg: Config, queues: nat, offset: nat, x: ClassId, a: Key, b: Key)
    requires Separate(cfg, queues, offset) && GoodKey(a, queues) && GoodKey(b, queues)
    requires OwnedBy(cfg, offset, x, a) && OwnedBy(cfg, offset, x, b)
    ensures a == b
  {
  }

  lemma JoinOwned(cfg: Config, queues: nat, offset: nat, xs: seq<ClassId>, ys: seq<ClassId>, a: seq<Key>, b: seq<Key>)
    requires Separate(cfg, queues, offset) && GoodKeys(a + b, queues)
    requires Owned(cfg, offset, xs, a) && Owned(cfg, offset, ys, b)
    ensures Owned(cfg, offset, xs + ys, a + b)
  {
    DistinctSplit(a, b);
    forall x | x in xs ensures x !in ys {
      if x in ys {
        var k :| k in a && OwnedBy(cfg, offset, x, k);
        var l :| l in b && OwnedBy(cfg, offset, x, l);
        assert k in a + b && l in a + b;
        OneOwner(cfg, queues, offset, x, k, l);
      }
    }
    DistinctJoin(xs, ys);
    forall x | x in xs + ys ensures exists k :: k in a + b && OwnedBy(cfg, offset, x, k) {
      if x in xs {
        var k :| k in a && OwnedBy(cfg, offset, x, k);
        assert k in a + b;
      } else {
        var k :| k in b && OwnedBy(cfg, offset, x, k);
        assert k in a + b;
      }
    }
  }

  lemma SplitGood(a: seq<Key>, b: seq<Key>, queues: nat)
    requires GoodKeys(a + b, queues)
    ensures GoodKeys(a, queues) && GoodKeys(b, queues)
  {
    DistinctSplit(a, b);
    assert forall k :: k in a ==> k in a + b;
    assert forall k :: k in b ==> k in a + b;
  }

  /** A stream whose classes and attachment points belong to the given keys. */
  ghost predicate StreamOwned(cfg: Config, offset: nat, cmds: seq<Cmd>, keys: seq<Key>) {
    Owned(cfg, offset, Created(cmds), keys) && Owned(cfg, offset, Attached(cmds), keys)
  }

  lemma JoinStreams(cfg: Config, queues: nat, offset: nat, x: seq<Cmd>, y: seq<Cmd>, a: seq<Key>, b: seq<Key>)
    requires Separate(cfg, queues, offset) && GoodKeys(a + b, queues)
    requires StreamOwned(cfg, offset, x, a) && StreamOwned(cfg, offset, y, b)
    ensures StreamOwned(cfg, offset, x + y, a + b)
  {
    CreatedAppend(x, y);
    AttachedAppend(x, y);
    JoinOwned(cfg, queues, offset, Created(x), Created(y), a, b);
    JoinOwned(cfg, queues, offset, Attached(x), Attached(y), a, b);
  }

  // ----- Pieces of the stream -----

  lemma PairOwned(cfg: Config, queues: nat, offset: nat, ids: seq<ClassId>, k: Key)
    requires Separate(cfg, queues, offset) && GoodKey(k, queues)
    requires || ids == [] || ids == [DownOf(cfg, k)] || ids == [UpOf(cfg, offset, k)]
             || ids == [DownOf(cfg, k), UpOf(cfg, offset, k)]
    ensures Owned(cfg, offset, ids, [k])
  {
    assert k in [k];
  }

  lemma SiteOwned(cfg: Config, queues: nat, offset: nat, q: nat, parent: nat, s: Site)
    requires Separate(cfg, queues, offset) && GoodKey(Key(q, s.minor), queues) && !cfg.observe
    ensures StreamOwned(cfg, offset, SiteCmds(cfg, q, offset, parent, s), [Key(q, s.minor)])
  {
    var c := SiteCmds(cfg, q, offset, parent, s);
    var k := Key(q, s.minor);
    assert c == [c[0]] + [c[1]] && [c[1]] + [] == [c[1]];
    StreamCons(c[1], []);
    StreamCons(c[0], [c[1]]);
    assert Created(c) == [DownOf(cfg, k), UpOf(cfg, offset, k)];
    PairOwned(cfg, queues, offset, Created(c), k);
    PairOwned(cfg, queues, offset, Attached(c), k);
  }

  lemma OptionalUses(b: bool, cmd: Cmd)
    ensures Created(Optional(b, cmd)) == if b then CmdCreates(cmd) else []
    ensures Attached(Optional(b, cmd)) == if b then CmdAttaches(cmd) else []
  {
    if b {
      assert [cmd] + [] == [cmd];
      StreamCons(cmd, []);
    }
  }

  function ClassesAndLeaves(w: Cmd, b: bool, x: Cmd, y: Cmd, d: bool, z: Cmd): (r: seq<Cmd>) {
    Optional(true, w) + Optional(b, x) + Optional(true, y) + Optional(d, z)
  }

  lemma ClassesAndLeavesUse(w: Cmd, b: bool, x: Cmd, y: Cmd, d: bool, z: Cmd)
    requires w.PutClass? && x.PutLeaf? && y.PutClass? && z.PutLeaf?
    ensures Created(ClassesAndLeaves(w, b, x, y, d, z)) == [ClassId(w.dev, w.id), ClassId(y.dev, y.id)]
    ensures Attached(ClassesAndLeaves(w, b, x, y, d, z)) ==
              (if b then [ClassId(x.dev, x.at)] else []) + (if d then [ClassId(z.dev, z.at)] else [])
  {
    OptionalUses(true, w);
    OptionalUses(b, x);
    OptionalUses(true, y);
    OptionalUses(d, z);
    FourStreams(Optional(true, w), Optional(b, x), Optional(true, y), Optional(d, z));
    EmptyBetween(Created(Optional(true, w)), Created(Optional(true, y)));
    EmptyBetween(Attached(Optional(b, x)), Attached(Optional(d, z)));
  }

  /** The builder's commands of a circuit, one by one. */
  function CircuitCmds(cfg: Config, p: CircuitParams): (r: seq<Cmd>) {
    var sqm := !cfg.lazy.Htb?;
    ClassesAndLeaves(DownClass(cfg, p), sqm && WantsDownLeaf(p), DownLeaf(cfg, p),
                     UpClass(cfg, p), sqm && WantsUpLeaf(cfg, p), UpLeaf(cfg, p))
  }

  lemma BuilderCircuit(cfg: Config, p: CircuitParams)
    requires !cfg.observe
    ensures Cmds(AddCircuit(Builder, cfg, p)) == CircuitCmds(cfg, p)
  {
  }

  lemma FourStreams(w: seq<Cmd>, x: seq<Cmd>, y: seq<Cmd>, z: seq<Cmd>)
    ensures Created(w + x + y + z) == Created(w) + Created(x) + Created(y) + Created(z)
    ensures Attached(w + x + y + z) == Attached(w) + Attached(x) + Attached(y) + Attached(z)
  {
    CreatedAppend(w + x + y, z);
    CreatedAppend(w + x, y);
    CreatedAppend(w, x);
    AttachedAppend(w + x + y, z);
    AttachedAppend(w + x, y);
    AttachedAppend(w, x);
  }

  lemma CircuitUses(cfg: Config, p: CircuitParams)
    ensures Created(CircuitCmds(cfg, p)) == [DownId(cfg, p), UpId(cfg, p)]
    ensures Attached(CircuitCmds(cfg, p)) == (if !cfg.lazy.Htb? && WantsDownLeaf(p) then [DownId(cfg, p)] else []) +
                                             (if !cfg.lazy.Htb? && WantsUpLeaf(cfg, p) then [UpId(cfg, p)] else [])
  {
    var sqm := !cfg.lazy.Htb?;
    ClassesAndLeavesUse(DownClass(cfg, p), sqm && WantsDownLeaf(p), DownLeaf(cfg, p),
                        UpClass(cfg, p), sqm && WantsUpLeaf(cfg, p), UpLeaf(cfg, p));
  }

  lemma CircuitOwned(cfg: Config, queues: nat, offset: nat, q: nat, site: nat, c: Circuit)
    requires Separate(cfg, queues, offset) && GoodKey(Key(q, c.minor), queues)
    ensures StreamOwned(cfg, offset, CircuitCmds(cfg, Params(q, offset, site, c)), [Key(q, c.minor)])
  {
    var p := Params(q, offset, site, c);
    var k := Key(q, c.minor);
    assert DownId(cfg, p) == DownOf(cfg, k) && UpId(cfg, p) == UpOf(cfg, offset, k);
    CircuitUses(cfg, p);
    var cmds := CircuitCmds(cfg, p);
    PairOwned(cfg, queues, offset, Created(cmds), k);
    PairOwned(cfg, queues, offset, Attached(cmds), k);
  }

  lemma {:induction false} CircuitsOwned(cfg: Config, queues: nat, offset: nat, q: nat, site: nat, cs: seq<Circuit>)
    requires Separate(cfg, queues, offset) && GoodKeys(CircuitKeys(q, cs), queues) && !cfg.observe
    ensures StreamOwned(cfg, offset, EmitCircuits(cfg, q, offset, site, cs), CircuitKeys(q, cs))
  {
    if cs == [] {
    } else {
      var a, b := [Key(q, cs[0].minor)], CircuitKeys(q, cs[1..]);
      SplitGood(a, b, queues);
      assert a[0] in a;
      BuilderCircuit(cfg, Params(q, offset, site, cs[0]));
      CircuitOwned(cfg, queues, offset, q, site, cs[0]);
      CircuitsOwned(cfg, queues, offset, q, site, cs[1..]);
      JoinStreams(cfg, queues, offset, CircuitCmds(cfg, Params(q, offset, site, cs[0])),
                  EmitCircuits(cfg, q, offset, site, cs[1..]), a, b);
    }
  }

  lemma {:induction false} EmitSiteOwned(cfg: Config, queues: nat, offset: nat, q: nat, parent: nat, s: Site)
    requires Separate(cfg, queues, offset) && GoodKeys(SiteKeys(q, s), queues) && !cfg.observe
    ensures StreamOwned(cfg, offset, EmitSite(cfg, q, offset, parent, s), SiteKeys(q, s))
    decreases s
  {
    var a, b, c := [Key(q, s.minor)], CircuitKeys(q, s.circuits), SitesKeys(q, s.children);
    SplitGood(a, b + c, queues);
    SplitGood(b, c, queues);
    assert a[0] in a;
    SiteOwned(cfg, queues, offset, q, parent, s);
    CircuitsOwned(cfg, queues, offset, q, s.minor, s.circuits);
    EmitSitesOwned(cfg, queues, offset, q, s.minor, s.children);
    var y, z := EmitCircuits(cfg, q, offset, s.minor, s.circuits), EmitSites(cfg, q, offset, s.minor, s.children);
    JoinStreams(cfg, queues, offset, y, z, b, c);
    JoinStreams(cfg, queues, offset, SiteCmds(cfg, q, offset, parent, s), y + z, a, b + c);
  }

  lemma {:induction false} EmitSitesOwned(cfg: Config, queues: nat, offset: nat, q: nat, parent: nat, ss: seq<Site>)
    requires Separate(cfg, queues, offset) && GoodKeys(SitesKeys(q, ss), queues) && !cfg.observe
    ensures StreamOwned(cfg, offset, EmitSites(cfg, q, offset, parent, ss), SitesKeys(q, ss))
    decreases ss
  {
    if ss == [] {
    } else {
      var a, b := SiteKeys(q, ss[0]), SitesKeys(q, ss[1..]);
      SplitGood(a, b, queues);
      EmitSiteOwned(cfg, queues, offset, q, parent, ss[0]);
      EmitSitesOwned(cfg, queues, offset, q, parent, ss[1..]);
      JoinStreams(cfg, queues, offset, EmitSite(cfg, q, offset, parent, ss[0]),
                  EmitSites(cfg, q, offset, parent, ss[1..]), a, b);
    }
  }

  lemma {:induction false} EmitTopsOwned(cfg: Config, queues: nat, offset: nat, tops: seq<Top>)
    requires Separate(cfg, queues, offset) && GoodKeys(TopKeys(tops), queues) && !cfg.observe
    ensures StreamOwned(cfg, offset, EmitTops(cfg, offset, tops), TopKeys(tops))
  {
    if tops == [] {
    } else {
      var t := tops[0];
      var a, b := SiteKeys(t.queue, t.site), TopKeys(tops[1..]);
      SplitGood(a, b, queues);
      EmitSiteOwned(cfg, queues, offset, t.queue, 0, t.site);
      EmitTopsOwned(cfg, queues, offset, tops[1..]);
      JoinStreams(cfg, queues, offset, EmitSite(cfg, t.queue, offset, 0, t.site), EmitTops(cfg, offset, tops[1..]), a,
                  b);
    }
  }

  // ----- Parents are created before their children -----

  /** The two parents a node names are known. */
  predicate KnowsParents(kn: Known, cfg: Config, q: nat, offset: nat, parent: nat) {
    if parent == 0
    then HandleKey(cfg.isp, q) in kn.htb && HandleKey(cfg.internet, q + offset) in kn.htb
    else
      && ClassId(cfg.isp, Handle(q, parent)) in kn.classes
      && ClassId(cfg.internet, Handle(q + offset, parent)) in kn.classes
  }

  lemma KnowsMore(a: Known, b: Known, cfg: Config, q: nat, offset: nat, parent: nat)
    requires KnownWithin(a, b) && KnowsParents(a, cfg, q, offset, parent)
    ensures KnowsParents(b, cfg, q, offset, parent)
  {
  }

  lemma TwoParents(kn: Known, a: Cmd, b: Cmd)
    requires NamesKnown(kn, a) && NamesKnown(KnownAfter(kn, a), b)
    ensures ParentsKnown(kn, [a, b]) && KnownAfterAll(kn, [a, b]) == KnownAfter(KnownAfter(kn, a), b)
  {
    assert [a, b][1..] == [b] && [b][1..] == [];
    var k1 := KnownAfter(kn, a);
    assert KnownAfterAll(k1, [b]) == KnownAfterAll(KnownAfter(k1, b), []);
    assert ParentsKnown(k1, [b]);
  }

  lemma SiteParents(kn: Known, cfg: Config, q: nat, offset: nat, parent: nat, s: Site)
    requires KnowsParents(kn, cfg, q, offset, parent) && !cfg.observe && s.minor != 0
    ensures ParentsKnown(kn, SiteCmds(cfg, q, offset, parent, s))
    ensures KnowsParents(KnownAfterAll(kn, SiteCmds(cfg, q, offset, parent, s)), cfg, q, offset, s.minor)
  {
    var c := SiteCmds(cfg, q, offset, parent, s);
    assert c == [c[0], c[1]];
    TwoParents(kn, c[0], c[1]);
  }

  lemma OptionalParents(kn: Known, b: bool, cmd: Cmd)
    requires b ==> NamesKnown(kn, cmd)
    ensures ParentsKnown(kn, Optional(b, cmd))
    ensures KnownAfterAll(kn, Optional(b, cmd)) == if b then KnownAfter(kn, cmd) else kn
  {
    assert [cmd][1..] == [];
    assert ParentsKnown(KnownAfter(kn, cmd), []);
  }

  lemma CircuitParents(kn: Known, cfg: Config, q: nat, offset: nat, site: nat, c: Circuit)
    requires KnowsParents(kn, cfg, q, offset, site) && site != 0
    ensures ParentsKnown(kn, CircuitCmds(cfg, Params(q, offset, site, c)))
  {
    var p := Params(q, offset, site, c);
    var sqm := !cfg.lazy.Htb?;
    var b, d := sqm && WantsDownLeaf(p), sqm && WantsUpLeaf(cfg, p);
    var w, x := Optional(true, DownClass(cfg, p)), Optional(b, DownLeaf(cfg, p));
    var y, z := Optional(true, UpClass(cfg, p)), Optional(d, UpLeaf(cfg, p));
    OptionalParents(kn, true, DownClass(cfg, p));
    var k1 := KnownAfter(kn, DownClass(cfg, p));
    OptionalParents(k1, b, DownLeaf(cfg, p));
    ParentsAppend(kn, w, x);
    OptionalParents(k1, true, UpClass(cfg, p));
    ParentsAppend(kn, w + x, y);
    var k2 := KnownAfter(k1, UpClass(cfg, p));
    OptionalParents(k2, d, UpLeaf(cfg, p));
    ParentsAppend(kn, w + x + y, z);
    assert CircuitCmds(cfg, p) == w + x + y + z;
  }

  lemma {:induction false} CircuitsParents(kn: Known, cfg: Config, q: nat, offset: nat, site: nat, cs: seq<Circuit>)
    requires KnowsParents(kn, cfg, q, offset, site) && site != 0 && !cfg.observe
    ensures ParentsKnown(kn, EmitCircuits(cfg, q, offset, site, cs))
    decreases |cs|
  {
    if cs == [] {
    } else {
      var a, b := CircuitCmds(cfg, Params(q, offset, site, cs[0])), EmitCircuits(cfg, q, offset, site, cs[1..]);
      BuilderCircuit(cfg, Params(q, offset, site, cs[0]));
      CircuitParents(kn, cfg, q, offset, site, cs[0]);
      KnownGrows(kn, a);
      KnowsMore(kn, KnownAfterAll(kn, a), cfg, q, offset, site);
      CircuitsParents(KnownAfterAll(kn, a), cfg, q, offset, site, cs[1..]);
      ParentsAppend(kn, a, b);
    }
  }

  /** Minors of at least 3 never name a qdisc. */
  ghost predicate RealMinors(keys: seq<Key>) {
    forall k :: k in keys ==> k.minor != 0
  }

  lemma SplitMinors(a: seq<Key>, b: seq<Key>)
    requires RealMinors(a + b)
    ensures RealMinors(a) && RealMinors(b)
  {
    assert forall k :: k in a ==> k in a + b;
    assert forall k :: k in b ==> k in a + b;
  }

  lemma {:induction false} EmitSiteParents(kn: Known, cfg: Config, q: nat, offset: nat, parent: nat, s: Site)
    requires KnowsParents(kn, cfg, q, offset, parent) && !cfg.observe && RealMinors(SiteKeys(q, s))
    ensures ParentsKnown(kn, EmitSite(cfg, q, offset, parent, s))
    decreases s
  {
    var a, b, c := [Key(q, s.minor)], CircuitKeys(q, s.circuits), SitesKeys(q, s.children);
    SplitMinors(a, b + c);
    SplitMinors(b, c);
    assert a[0] in a;
    SiteParents(kn, cfg, q, offset, parent, s);
    var x := SiteCmds(cfg, q, offset, parent, s);
    var y, z := EmitCircuits(cfg, q, offset, s.minor, s.circuits), EmitSites(cfg, q, offset, s.minor, s.children);
    var k1 := KnownAfterAll(kn, x);
    CircuitsParents(k1, cfg, q, offset, s.minor, s.circuits);
    KnownGrows(k1, y);
    var k2 := KnownAfterAll(k1, y);
    KnowsMore(k1, k2, cfg, q, offset, s.minor);
    EmitSitesParents(k2, cfg, q, offset, s.minor, s.children);
    ParentsAppend(k1, y, z);
    ParentsAppend(kn, x, y + z);
  }

  lemma {:induction false} EmitSitesParents(kn: Known, cfg: Config, q: nat, offset: nat, parent: nat, ss: seq<Site>)
    requires KnowsParents(kn, cfg, q, offset, parent) && !cfg.observe && RealMinors(SitesKeys(q, ss))
    ensures ParentsKnown(kn, EmitSites(cfg, q, offset, parent, ss))
    decreases ss
  {
    if ss == [] {
    } else {
      SplitMinors(SiteKeys(q, ss[0]), SitesKeys(q, ss[1..]));
      var x, y := EmitSite(cfg, q, offset, parent, ss[0]), EmitSites(cfg, q, offset, parent, ss[1..]);
      EmitSiteParents(kn, cfg, q, offset, parent, ss[0]);
      KnownGrows(kn, x);
      KnowsMore(kn, KnownAfterAll(kn, x), cfg, q, offset, parent);
      EmitSitesParents(KnownAfterAll(kn, x), cfg, q, offset, parent, ss[1..]);
      ParentsAppend(kn, x, y);
    }
  }

  /** The HTB qdisc of every queue is known on both interfaces. */
  predicate KnowsQueues(kn: Known, cfg: Config, queues: nat, offset: nat) {
    forall q: nat :: 1 <= q <= queues ==> KnowsParents(kn, cfg, q, offset, 0)
  }

  lemma {:induction false} EmitTopsParents(kn: Known, cfg: Config, queues: nat, offset: nat, tops: seq<Top>)
    requires KnowsQueues(kn, cfg, queues, offset) && !cfg.observe && RealMinors(TopKeys(tops))
    requires forall t :: t in tops ==> 1 <= t.queue <= queues
    ensures ParentsKnown(kn, EmitTops(cfg, offset, tops))
    decreases |tops|
  {
    if tops == [] {
    } else {
      var t := tops[0];
      SplitMinors(SiteKeys(t.queue, t.site), TopKeys(tops[1..]));
      var x, y := EmitSite(cfg, t.queue, offset, 0, t.site), EmitTops(cfg, offset, tops[1..]);
      EmitSiteParents(kn, cfg, t.queue, offset, 0, t.site);
      KnownGrows(kn, x);
      forall q: nat | 1 <= q <= queues ensures KnowsParents(KnownAfterAll(kn, x), cfg, q, offset, 0) {
        KnowsMore(kn, KnownAfterAll(kn, x), cfg, q, offset, 0);
      }
      EmitTopsParents(KnownAfterAll(kn, x), cfg, queues, offset, tops[1..]);
      ParentsAppend(kn, x, y);
    }
  }

  // ----- MQ setup and traversal together -----

  /** The kernel a reload starts from: empty, or with its root qdiscs already in place. */
  function Start(cfg: Config, created: bool): (k: Kernel) {
    if created then EMPTY.(roots := {cfg.isp, cfg.internet}) else EMPTY
  }

  function FirstRoot(cfg: Config, created: bool): (r: seq<Cmd>) {
    Optional(!created, AddMqRoot(cfg.isp))
  }

  function SecondRoot(cfg: Config, created: bool): (r: seq<Cmd>) {
    Optional(!created && !cfg.onAStick, AddMqRoot(cfg.internet))
  }

  lemma SetupShape(cfg: Config, queues: nat, offset: nat, created: bool)
    requires !cfg.observe
    ensures var (a, b) := Sides(cfg, queues, offset);
            MqCommands(cfg, queues, offset, created) == FirstRoot(cfg, created) + a + SecondRoot(cfg, created) + b
  {
  }

  lemma {:induction false} SetupParents(cfg: Config, queues: nat, offset: nat, created: bool)
    requires !cfg.observe && Separate(cfg, queues, offset)
    ensures var kn := KnownOf(Start(cfg, created));
            var setup := MqCommands(cfg, queues, offset, created);
            ParentsKnown(kn, setup) && KnowsQueues(KnownAfterAll(kn, setup), cfg, queues, offset)
  {
    SetupShape(cfg, queues, offset, created);
    var (a, b) := Sides(cfg, queues, offset);
    var r2q := R2q(MaxRate(cfg));
    var r1, r2 := FirstRoot(cfg, created), SecondRoot(cfg, created);
    var kn := KnownOf(Start(cfg, created));
    OptionalParents(kn, !created, AddMqRoot(cfg.isp));
    var k1 := KnownAfterAll(kn, r1);
    SideParents(k1, cfg.isp, 0, queues, cfg.downlink, r2q);
    ParentsAppend(kn, r1, a);
    var k2 := KnownAfterAll(k1, a);
    KnownGrows(k1, a);
    OptionalParents(k2, !created && !cfg.onAStick, AddMqRoot(cfg.internet));
    ParentsAppend(kn, r1 + a, r2);
    var k3 := KnownAfterAll(k2, r2);
    SideParents(k3, cfg.internet, offset, queues, cfg.uplink, r2q);
    ParentsAppend(kn, r1 + a + r2, b);
    KnownGrows(k3, b);
  }

  lemma FourHandles(w: seq<Cmd>, x: seq<Cmd>, y: seq<Cmd>, z: seq<Cmd>)
    ensures Handles(w + x + y + z) == Handles(w) + Handles(x) + Handles(y) + Handles(z)
  {
    HandlesAppend(w + x + y, z);
    HandlesAppend(w + x, y);
    HandlesAppend(w, x);
  }

  lemma RootUses(b: bool, dev: string)
    ensures Created(Optional(b, AddMqRoot(dev))) == [] && Attached(Optional(b, AddMqRoot(dev))) == []
    ensures Handles(Optional(b, AddMqRoot(dev))) == if b then [HandleKey(dev, MQ_ROOT_MAJOR)] else []
  {
    assert [AddMqRoot(dev)] + [] == [AddMqRoot(dev)];
    StreamCons(AddMqRoot(dev), []);
  }

  lemma RootedStreams(r1: seq<Cmd>, a: seq<Cmd>, r2: seq<Cmd>, b: seq<Cmd>)
    requires Created(r1) == [] && Created(r2) == [] && Attached(r1) == [] && Attached(r2) == []
    ensures Created(r1 + a + r2 + b) == Created(a) + Created(b)
    ensures Attached(r1 + a + r2 + b) == Attached(a) + Attached(b)
  {
    FourStreams(r1, a, r2, b);
    EmptyBetween(Created(a), Created(b));
    EmptyBetween(Attached(a), Attached(b));
  }

  lemma SetupUses(cfg: Config, queues: nat, offset: nat, created: bool)
    requires !cfg.observe
    ensures var setup := MqCommands(cfg, queues, offset, created);
            var (a, b) := Sides(cfg, queues, offset);
            && Created(setup) == Created(a) + Created(b) && Attached(setup) == Attached(a) + Attached(b)
            && Handles(setup) ==
                 Handles(FirstRoot(cfg, created)) + Handles(a) + Handles(SecondRoot(cfg, created)) + Handles(b)
  {
    SetupShape(cfg, queues, offset, created);
    var (a, b) := Sides(cfg, queues, offset);
    RootUses(!created, cfg.isp);
    RootUses(!created && !cfg.onAStick, cfg.internet);
    RootedStreams(FirstRoot(cfg, created), a, SecondRoot(cfg, created), b);
    FourHandles(FirstRoot(cfg, created), a, SecondRoot(cfg, created), b);
  }

  /** Root and default classes of all queues: distinct, and never a class of the tree. */
  lemma SetupIds(cfg: Config, queues: nat, offset: nat)
    requires Separate(cfg, queues, offset)
    ensures var (a, b) := Sides(cfg, queues, offset);
            && Distinct(Created(a) + Created(b)) && Attached(a) == Created(a) && Attached(b) == Created(b)
            && forall c :: c in Created(a) + Created(b) ==> c.id.minor < 3
  {
    var (a, b) := Sides(cfg, queues, offset);
    var r2q := R2q(MaxRate(cfg));
    SideUsesIds(cfg.isp, 0, queues, cfg.downlink, r2q);
    SideUsesIds(cfg.internet, offset, queues, cfg.uplink, r2q);
    SideIdsDistinct(cfg.isp, 0, queues);
    SideIdsDistinct(cfg.internet, offset, queues);
    DistinctJoin(Created(a), Created(b));
  }

  lemma OwnedMinors(cfg: Config, offset: nat, queues: nat, ids: seq<ClassId>, keys: seq<Key>)
    requires Owned(cfg, offset, ids, keys) && GoodKeys(keys, queues)
    ensures forall c :: c in ids ==> c.id.minor >= 3
  {
    forall c | c in ids ensures c.id.minor >= 3 {
      var k :| k in keys && OwnedBy(cfg, offset, c, k);
    }
  }

  lemma WithSetupIds(xs: seq<ClassId>, ys: seq<ClassId>)
    requires Distinct(xs) && Distinct(ys)
    requires forall c :: c in xs ==> c.id.minor < 3
    requires forall c :: c in ys ==> c.id.minor >= 3
    ensures Distinct(xs + ys)
  {
    DistinctJoin(xs, ys);
  }

  /** The circuits' explicit handles are distinct and none is reserved: what the allocator promises. */
  ghost predicate CleanHandles(hs: seq<HandleKey>, cfg: Config, queues: nat, offset: nat) {
    Distinct(hs) && forall h :: h in hs ==>
      h.major < 0x1_0000 && h.major !in Reserved(Layout(cfg, queues, offset), h.dev)
  }

  lemma RootHandles(cfg: Config, queues: nat, offset: nat, created: bool)
    requires Separate(cfg, queues, offset)
    ensures var r1, r2 := Handles(FirstRoot(cfg, created)), Handles(SecondRoot(cfg, created));
            && |r1| <= 1 && |r2| <= 1 && (created ==> r1 == [] && r2 == [])
            && (forall h :: h in r1 || h in r2 ==> h.major == MQ_ROOT_MAJOR)
            && (forall h :: h in r1 ==> h !in r2)
  {
    RootUses(!created, cfg.isp);
    RootUses(!created && !cfg.onAStick, cfg.internet);
  }

  lemma CircuitsApart(cfg: Config, queues: nat, offset: nat, hs: seq<HandleKey>)
    requires Separate(cfg, queues, offset) && queues + offset <= 0x2001
    requires CleanHandles(hs, cfg, queues, offset)
    ensures var (a, b) := Sides(cfg, queues, offset);
            && (forall h :: h in Handles(a) + Handles(b) ==> h.major != MQ_ROOT_MAJOR && h !in hs)
            && (forall h :: h in hs ==> h.major != MQ_ROOT_MAJOR)
  {
    SetupHandlesAreReserved(cfg, queues, offset);
  }

  lemma AllHandlesDistinct(cfg: Config, queues: nat, offset: nat, created: bool, hs: seq<HandleKey>)
    requires Separate(cfg, queues, offset) && queues + offset <= 0x2001 && !cfg.observe
    requires CleanHandles(hs, cfg, queues, offset)
    ensures Distinct(Handles(MqCommands(cfg, queues, offset, created)) + hs)
    ensures created ==>
      forall h :: h in Handles(MqCommands(cfg, queues, offset, created)) + hs ==> h.major != MQ_ROOT_MAJOR
  {
    var (a, b) := Sides(cfg, queues, offset);
    SetupUses(cfg, queues, offset, created);
    RootHandles(cfg, queues, offset, created);
    CircuitsApart(cfg, queues, offset, hs);
    assert Distinct(Handles(a) + Handles(b)) by { SetupHandlesAreReserved(cfg, queues, offset); }
    RootsApart(Handles(FirstRoot(cfg, created)), Handles(a), Handles(SecondRoot(cfg, created)), Handles(b), hs);
  }

  lemma RootsApart(r1: seq<HandleKey>, a: seq<HandleKey>, r2: seq<HandleKey>, b: seq<HandleKey>, hs: seq<HandleKey>)
    requires |r1| <= 1 && |r2| <= 1
    requires forall h :: h in r1 || h in r2 ==> h.major == MQ_ROOT_MAJOR
    requires forall h :: h in r1 ==> h !in r2
    requires Distinct(a + b) && Distinct(hs)
    requires forall h :: h in a + b ==> h.major != MQ_ROOT_MAJOR && h !in hs
    requires forall h :: h in hs ==> h.major != MQ_ROOT_MAJOR
    ensures Distinct(r1 + a + r2 + b + hs)
  {
    DistinctSplit(a, b);
    assert forall h :: h in a ==> h in a + b;
    assert forall h :: h in b ==> h in a + b;
    DistinctJoin(r1, a);
    DistinctJoin(r1 + a, r2);
    DistinctJoin(r1 + a + r2, b);
    DistinctJoin(r1 + a + r2 + b, hs);
  }

  /**
   * For every tree, queue count and start state: each command of a full reload names only
   * parents that earlier commands created, and no class, attachment point or handle is created
   * twice.
   */
  lemma BuilderStreamIsClean(cfg: Config, queues: nat, offset: nat, created: bool, tops: seq<Top>)
    requires !cfg.observe && Separate(cfg, queues, offset) && queues + offset <= 0x2001
    requires GoodKeys(TopKeys(tops), queues) && forall t :: t in tops ==> 1 <= t.queue <= queues
    requires CleanHandles(Handles(EmitTops(cfg, offset, tops)), cfg, queues, offset)
    ensures CleanRun(Start(cfg, created), MqCommands(cfg, queues, offset, created) + EmitTops(cfg, offset, tops))
  {
    var k := Start(cfg, created);
    var setup, tree := MqCommands(cfg, queues, offset, created), EmitTops(cfg, offset, tops);
    SetupParents(cfg, queues, offset, created);
    EmitTopsParents(KnownAfterAll(KnownOf(k), setup), cfg, queues, offset, tops);
    ParentsAppend(KnownOf(k), setup, tree);
    StreamIds(cfg, queues, offset, created, tops);
    HandlesAppend(setup, tree);
    AllHandlesDistinct(cfg, queues, offset, created, Handles(tree));
    forall h | h in Handles(setup + tree) ensures !HandleInUse(k, h) {
      if created { assert h.major != MQ_ROOT_MAJOR; }
    }
    DistinctStreamIsClean(k, setup + tree);
  }

  lemma StreamIds(cfg: Config, queues: nat, offset: nat, created: bool, tops: seq<Top>)
    requires !cfg.observe && Separate(cfg, queues, offset) && GoodKeys(TopKeys(tops), queues)
    ensures var stream := MqCommands(cfg, queues, offset, created) + EmitTops(cfg, offset, tops);
            Distinct(Created(stream)) && Distinct(Attached(stream))
  {
    var setup, tree := MqCommands(cfg, queues, offset, created), EmitTops(cfg, offset, tops);
    EmitTopsOwned(cfg, queues, offset, tops);
    SetupIds(cfg, queues, offset);
    SetupUses(cfg, queues, offset, created);
    OwnedMinors(cfg, offset, queues, Created(tree), TopKeys(tops));
    OwnedMinors(cfg, offset, queues, Attached(tree), TopKeys(tops));
    CreatedAppend(setup, tree);
    AttachedAppend(setup, tree);
    WithSetupIds(Created(setup), Created(tree));
    WithSetupIds(Attached(setup), Attached(tree));
  }

  // ----- Every quantum is within bounds -----

  predicate GoodQuantum(cmd: Cmd) {
    cmd.PutClass? ==> 1522 <= cmd.spec.quantum <= 60000
  }

  ghost predicate GoodQuanta(cmds: seq<Cmd>) {
    forall cmd :: cmd in cmds ==> GoodQuantum(cmd)
  }

  predicate Fits(cfg: Config, r: Rates) {
    r.dlMax <= cfg.downlink as real && r.ulMax <= cfg.uplink as real
  }

  predicate SiteFits(cfg: Config, s: Site)
    decreases s
  {
    && Fits(cfg, s.rates)
    && (forall c :: c in s.circuits ==> Fits(cfg, c.rates))
    && (forall t :: t in s.children ==> SiteFits(cfg, t))
  }

  lemma SpecInBounds(rate: real, ceil: real, capacity: nat)
    requires ceil <= capacity as real
    ensures 1522 <= Spec(rate, ceil, capacity).quantum <= 60000
  {
    assert AsU64(ceil) <= capacity;
    QuantumInBounds(AsU64(ceil), capacity);
  }

  lemma {:induction false} CircuitQuanta(cfg: Config, q: nat, offset: nat, site: nat, cs: seq<Circuit>)
    requires forall c :: c in cs ==> Fits(cfg, c.rates)
    ensures GoodQuanta(EmitCircuits(cfg, q, offset, site, cs))
  {
    if cs == [] {
    } else {
      assert cs[0] in cs;
      SpecInBounds(cs[0].rates.dlMin, cs[0].rates.dlMax, cfg.downlink);
      SpecInBounds(cs[0].rates.ulMin, cs[0].rates.ulMax, cfg.uplink);
      CircuitQuanta(cfg, q, offset, site, cs[1..]);
    }
  }

  lemma {:induction false} SiteQuanta(cfg: Config, q: nat, offset: nat, parent: nat, s: Site)
    requires SiteFits(cfg, s)
    ensures GoodQuanta(EmitSite(cfg, q, offset, parent, s))
    decreases s
  {
    SpecInBounds(s.rates.dlMin, s.rates.dlMax, cfg.downlink);
    SpecInBounds(s.rates.ulMin, s.rates.ulMax, cfg.uplink);
    CircuitQuanta(cfg, q, offset, s.minor, s.circuits);
    SitesQuanta(cfg, q, offset, s.minor, s.children);
  }

  lemma {:induction false} SitesQuanta(cfg: Config, q: nat, offset: nat, parent: nat, ss: seq<Site>)
    requires forall t :: t in ss ==> SiteFits(cfg, t)
    ensures GoodQuanta(EmitSites(cfg, q, offset, parent, ss))
    decreases ss
  {
    if ss == [] {
    } else {
      SiteQuanta(cfg, q, offset, parent, ss[0]);
      SitesQuanta(cfg, q, offset, parent, ss[1..]);
    }
  }

  lemma {:induction false} SideQuanta(dev: string, offset: nat, n: nat, capacity: nat, max: nat)
    requires capacity <= max
    ensures GoodQuanta(MqSide(dev, offset, n, capacity, R2q(max)))
  {
    if n == 0 {
    } else {
      SideQuanta(dev, offset, n - 1, capacity, max);
      QuantumInBounds(capacity, max);
    }
  }

  lemma {:induction false} TopsQuanta(cfg: Config, offset: nat, tops: seq<Top>)
    requires forall t :: t in tops ==> SiteFits(cfg, t.site)
    ensures GoodQuanta(EmitTops(cfg, offset, tops))
  {
    if tops == [] {
    } else {
      SiteQuanta(cfg, tops[0].queue, offset, 0, tops[0].site);
      TopsQuanta(cfg, offset, tops[1..]);
    }
  }

  /** Every class of a full reload whose ceilings fit the capacity has a quantum of 1522..60000. */
  lemma StreamQuanta(cfg: Config, queues: nat, offset: nat, created: bool, tops: seq<Top>)
    requires !cfg.observe && forall t :: t in tops ==> SiteFits(cfg, t.site)
    ensures GoodQuanta(MqCommands(cfg, queues, offset, created) + EmitTops(cfg, offset, tops))
  {
    SideQuanta(cfg.isp, 0, queues, cfg.downlink, MaxRate(cfg));
    SideQuanta(cfg.internet, offset, queues, cfg.uplink, MaxRate(cfg));
    TopsQuanta(cfg, offset, tops);
  }

  // ----- The traversal as the code runs it -----

  /** The batch of commands a reload accumulates. */
  class Batch {
    var stream: seq<Cmd>

    constructor (setup: seq<Cmd>)
      ensures stream == setup
    {
      stream := setup;
    }

    method Push(cmds: seq<Cmd>)
      modifies this
      ensures stream == old(stream) + cmds
    {
      stream := stream + cmds;
    }

    method AddCircuits(cfg: Config, q: nat, offset: nat, site: nat, cs: seq<Circuit>)
      modifies this
      ensures stream == old(stream) + EmitCircuits(cfg, q, offset, site, cs)
    {
      var i := 0;
      while i < |cs|
        invariant i <= |cs|
        invariant stream + EmitCircuits(cfg, q, offset, site, cs[i..]) ==
                  old(stream) + EmitCircuits(cfg, q, offset, site, cs)
      {
        assert cs[i..][0] == cs[i] && cs[i..][1..] == cs[i + 1..];
        ghost var had := stream;
        var cmds := Cmds(AddCircuit(Builder, cfg, Params(q, offset, site, cs[i])));
        Push(cmds);
        Regroup(had, cmds, EmitCircuits(cfg, q, offset, site, cs[i + 1..]));
        i := i + 1;
      }
    }

    /** One node: its classes, its circuits, then the recursive call for its children. */
    method Visit(cfg: Config, q: nat, offset: nat, parent: nat, s: Site)
      modifies this
      ensures stream == old(stream) + EmitSite(cfg, q, offset, parent, s)
      decreases s
    {
      Push(SiteCmds(cfg, q, offset, parent, s));
      AddCircuits(cfg, q, offset, s.minor, s.circuits);
      Traverse(cfg, q, offset, s.minor, s.children);
      Regroup(old(stream) + SiteCmds(cfg, q, offset, parent, s), EmitCircuits(cfg, q, offset, s.minor, s.circuits),
              EmitSites(cfg, q, offset, s.minor, s.children));
      Regroup(old(stream), SiteCmds(cfg, q, offset, parent, s),
              EmitCircuits(cfg, q, offset, s.minor, s.circuits) + EmitSites(cfg, q, offset, s.minor, s.children));
    }

    method Traverse(cfg: Config, q: nat, offset: nat, parent: nat, ss: seq<Site>)
      modifies this
      ensures stream == old(stream) + EmitSites(cfg, q, offset, parent, ss)
      decreases ss
    {
      var i := 0;
      while i < |ss|
        invariant i <= |ss|
        invariant stream + EmitSites(cfg, q, offset, parent, ss[i..]) ==
                  old(stream) + EmitSites(cfg, q, offset, parent, ss)
      {
        assert ss[i..][0] == ss[i] && ss[i..][1..] == ss[i + 1..];
        ghost var had := stream;
        Visit(cfg, q, offset, parent, ss[i]);
        Regroup(had, EmitSite(cfg, q, offset, parent, ss[i]), EmitSites(cfg, q, offset, parent, ss[i + 1..]));
        i := i + 1;
      }
    }
  }
}
