/**
 * From the prepared tree to the class tree: rates are capped once more, then circuits are hung
 * below their nodes, each circuit once, with rates held under their node's.
 */
module SiteAssignment {
  import opened Common
  import TopologyTree
  import RatePasses
  import opened BakeryCommands
  import opened MqSetup
  import opened BuilderStream

  type Node = TopologyTree.Node
  type NodeRates = TopologyTree.Rates

  /** A circuit as loaded, with the minor its planned identity gives it. */
  datatype Plan = Plan(id: string, minor: nat, rates: Rates, downHandle: Option<nat>, upHandle: Option<nat>,
                       override: Option<string>)

  /** Circuit ids attached so far, and those whose minimums were lowered to 1. */
  datatype Progress = Progress(attached: set<string>, lowered: set<string>)

  /** What the planners give: the circuits of each node, in order, and the minor of each node. */
  datatype Planned = Planned(circuits: map<string, seq<Plan>>, minors: map<string, nat>)

  // ----- One node's circuits -----

  function DownMin(c: Plan, lowered: set<string>): (r: real) {
    if c.id in lowered then 1.0 else c.rates.dlMin
  }

  function UpMin(c: Plan, lowered: set<string>): (r: real) {
    if c.id in lowered then 1.0 else c.rates.ulMin
  }

  function DownSum(cs: seq<Plan>, lowered: set<string>): (s: real) {
    if cs == [] then 0.0 else DownMin(cs[0], lowered) + DownSum(cs[1..], lowered)
  }

  function UpSum(cs: seq<Plan>, lowered: set<string>): (s: real) {
    if cs == [] then 0.0 else UpMin(cs[0], lowered) + UpSum(cs[1..], lowered)
  }

  /** The circuits' minimums together exceed their node's. */
  predicate TooMuch(cs: seq<Plan>, node: NodeRates, lowered: set<string>) {
    DownSum(cs, lowered) > node.dlMin || UpSum(cs, lowered) > node.ulMin
  }

  function CappedRates(c: Plan, node: NodeRates, lowered: set<string>): (r: Rates) {
    var dl, ul := RatePasses.Min(c.rates.dlMax, node.dl), RatePasses.Min(c.rates.ulMax, node.ul);
    Rates(RatePasses.Min(DownMin(c, lowered), dl), RatePasses.Min(UpMin(c, lowered), ul), dl, ul)
  }

  function AttachOne(c: Plan, node: NodeRates, lower: bool, p: Progress): (r: (seq<Circuit>, Progress)) {
    if c.id in p.attached then ([], p)
    else
      var lowered := if lower then p.lowered + {c.id} else p.lowered;
      ([Circuit(c.id, c.minor, CappedRates(c, node, lowered), c.downHandle, c.upHandle, c.override)],
       Progress(p.attached + {c.id}, lowered))
  }

  function AttachEach(cs: seq<Plan>, node: NodeRates, lower: bool, p: Progress): (r: (seq<Circuit>, Progress)) {
    if cs == [] then ([], p)
    else
      var (one, p1) := AttachOne(cs[0], node, lower, p);
      var (rest, p2) := AttachEach(cs[1..], node, lower, p1);
      (one + rest, p2)
  }

  function Chosen(plan: Planned, name: string): (cs: seq<Plan>) {
    if name in plan.circuits then plan.circuits[name] else []
  }

  function MinorOf(plan: Planned, name: string): (m: nat) {
    if name in plan.minors then plan.minors[name] else 0
  }

  // ----- The whole tree -----

  function AttachNode(n: Node, plan: Planned, p: Progress): (r: (Site, Progress))
    decreases n
  {
    var rates := n.attrs.rates;
    var cs := Chosen(plan, n.name);
    var (circuits, p1) := AttachEach(cs, rates, TooMuch(cs, rates, p.lowered), p);
    var (children, p2) := if n.Leaf? then ([], p1) else Attach(n.kids, plan, p1);
    (Site(MinorOf(plan, n.name), Rates(rates.dlMin, rates.ulMin, rates.dl, rates.ul), circuits, children), p2)
  }

  function Attach(f: seq<Node>, plan: Planned, p: Progress): (r: (seq<Site>, Progress))
    decreases f
  {
    if f == [] then ([], p)
    else
      var (site, p1) := AttachNode(f[0], plan, p);
      var (rest, p2) := Attach(f[1..], plan, p1);
      ([site] + rest, p2)
  }

  /** attach_circuits as the code runs it: one walk, the sets of ids growing in place. */
  class Attachment {
    var attached: set<string>
    var lowered: set<string>

    constructor ()
      ensures Value() == Progress({}, {})
    {
      attached, lowered := {}, {};
    }

    function Value(): (p: Progress)
      reads this
    {
      Progress(attached, lowered)
    }

    method Hang(cs: seq<Plan>, node: NodeRates) returns (r: seq<Circuit>)
      modifies this
      ensures (r, Value()) == AttachEach(cs, node, TooMuch(cs, node, old(lowered)), old(Value()))
      ensures old(lowered) <= old(attached) ==> Hung(cs, node, old(Value()), r, Value())
    {
      if lowered <= attached { NodeIsHung(cs, node, Value()); }
      var lower := TooMuch(cs, node, lowered);
      r := [];
      var i := 0;
      assert cs[i..] == cs && r + AttachEach(cs, node, lower, Value()).0 == AttachEach(cs, node, lower, Value()).0;
      while i < |cs|
        invariant i <= |cs|
        invariant var (rest, p) := AttachEach(cs[i..], node, lower, Value());
                  (r + rest, p) == AttachEach(cs, node, lower, old(Value()))
      {
        var c := cs[i];
        ghost var had, before := r, Value();
        assert cs[i..][0] == c && cs[i..][1..] == cs[i + 1..];
        if c.id !in attached {
          attached := attached + {c.id};
          if lower { lowered := lowered + {c.id}; }
          r := r + [Circuit(c.id, c.minor, CappedRates(c, node, lowered), c.downHandle, c.upHandle, c.override)];
        }
        assert r == had + AttachOne(c, node, lower, before).0;
        Regroup(had, AttachOne(c, node, lower, before).0, AttachEach(cs[i + 1..], node, lower, Value()).0);
        i := i + 1;
      }
      assert AttachEach([], node, lower, Value()) == ([], Value());
      assert cs[i..] == [] && r + [] == r;
    }

    method Visit(n: Node, plan: Planned) returns (s: Site)
      modifies this
      ensures (s, Value()) == AttachNode(n, plan, old(Value()))
      decreases n
    {
      var rates := n.attrs.rates;
      var circuits := Hang(Chosen(plan, n.name), rates);
      var children := [];
      if n.Branch? {
        children := Walk(n.kids, plan);
      }
      s := Site(MinorOf(plan, n.name), Rates(rates.dlMin, rates.ulMin, rates.dl, rates.ul), circuits, children);
    }

    method Walk(f: seq<Node>, plan: Planned) returns (r: seq<Site>)
      modifies this
      ensures (r, Value()) == Attach(f, plan, old(Value()))
      decreases f
    {
      r := [];
      var i := 0;
      assert f[i..] == f && r + Attach(f, plan, Value()).0 == Attach(f, plan, Value()).0;
      while i < |f|
        invariant i <= |f|
        invariant var (rest, p) := Attach(f[i..], plan, Value());
                  (r + rest, p) == Attach(f, plan, old(Value()))
      {
        assert f[i..][0] == f[i] && f[i..][1..] == f[i + 1..];
        ghost var had := r;
        var s := Visit(f[i], plan);
        r := r + [s];
        Regroup(had, [s], Attach(f[i + 1..], plan, Value()).0);
        i := i + 1;
      }
      assert f[i..] == [] && r + [] == r;
    }
  }

  // ----- Rates under the node's -----

  predicate CircuitUnder(c: Circuit, r: Rates) {
    && c.rates.dlMax <= r.dlMax && c.rates.ulMax <= r.ulMax
    && c.rates.dlMin <= c.rates.dlMax && c.rates.ulMin <= c.rates.ulMax
  }

  predicate CircuitsUnder(cs: seq<Circuit>, r: Rates) {
    forall c :: c in cs ==> CircuitUnder(c, r)
  }

  lemma {:induction false} AttachedUnder(cs: seq<Plan>, node: NodeRates, lower: bool, p: Progress)
    ensures CircuitsUnder(AttachEach(cs, node, lower, p).0, Rates(node.dlMin, node.ulMin, node.dl, node.ul))
  {
    if cs == [] {
    } else {
      var (one, p1) := AttachOne(cs[0], node, lower, p);
      AttachedUnder(cs[1..], node, lower, p1);
    }
  }

  /** Every site under the given ceilings, every circuit under its own site's. */
  predicate SiteUnder(s: Site, above: Rates)
    decreases s
  {
    && s.rates.dlMax <= above.dlMax && s.rates.ulMax <= above.ulMax
    && CircuitsUnder(s.circuits, s.rates)
    && forall t :: t in s.children ==> SiteUnder(t, s.rates)
  }

  function Ceilings(r: NodeRates): (c: Rates) {
    Rates(r.dlMin, r.ulMin, r.dl, r.ul)
  }

  /** After the capping pass every class is under its parent's ceilings, circuits included. */
  lemma {:induction false} AssignedNodeUnder(n: Node, parent: NodeRates, plan: Planned, p: Progress)
    ensures SiteUnder(AttachNode(RatePasses.ApplyNode(RatePasses.RecapPass, n, parent), plan, p).0, Ceilings(parent))
    decreases n
  {
    var n' := RatePasses.ApplyNode(RatePasses.RecapPass, n, parent);
    var rates := n'.attrs.rates;
    var cs := Chosen(plan, n.name);
    var p1 := AttachEach(cs, rates, TooMuch(cs, rates, p.lowered), p).1;
    AttachedUnder(cs, rates, TooMuch(cs, rates, p.lowered), p);
    if n.Branch? { AssignedUnder(n.kids, rates, plan, p1); }
  }

  lemma {:induction false} AssignedUnder(f: seq<Node>, parent: NodeRates, plan: Planned, p: Progress)
    ensures forall s :: s in Attach(RatePasses.Apply(RatePasses.RecapPass, f, parent), plan, p).0 ==>
      SiteUnder(s, Ceilings(parent))
    decreases f
  {
    if f == [] {
    } else {
      var g := RatePasses.Apply(RatePasses.RecapPass, f, parent);
      assert g[0] == RatePasses.ApplyNode(RatePasses.RecapPass, f[0], parent);
      assert g[1..] == RatePasses.Apply(RatePasses.RecapPass, f[1..], parent);
      AssignedNodeUnder(f[0], parent, plan, p);
      AssignedUnder(f[1..], parent, plan, AttachNode(g[0], plan, p).1);
    }
  }

  lemma {:induction false} UnderFits(cfg: Config, s: Site, above: Rates)
    requires SiteUnder(s, above) && Fits(cfg, above)
    ensures SiteFits(cfg, s)
    decreases s
  {
    forall t | t in s.children ensures SiteFits(cfg, t) { UnderFits(cfg, t, s.rates); }
  }

  function Capacity(cfg: Config): (r: NodeRates) {
    TopologyTree.Rates(cfg.downlink as real, cfg.uplink as real, cfg.downlink as real, cfg.uplink as real)
  }

  /** Top-level sites with their queues. */
  function OnQueues(sites: seq<Site>, queues: seq<nat>): (tops: seq<Top>)
    requires |sites| == |queues|
  {
    seq(|sites|, i requires 0 <= i < |sites| => Top(queues[i], sites[i]))
  }

  /**
   * End to end: whatever tree reaches site assignment, binned or not, and whatever circuits hang
   * below it, every class of the reload has a quantum of 1522..60000.
   */
  lemma ReloadQuanta(cfg: Config, f: seq<Node>, plan: Planned, at: seq<nat>, queues: nat, offset: nat, created: bool)
    requires !cfg.observe
    requires |Attach(RatePasses.Apply(RatePasses.RecapPass, f, Capacity(cfg)), plan, Progress({}, {})).0| == |at|
    ensures var sites := Attach(RatePasses.Apply(RatePasses.RecapPass, f, Capacity(cfg)), plan, Progress({}, {})).0;
            GoodQuanta(MqCommands(cfg, queues, offset, created) + EmitTops(cfg, offset, OnQueues(sites, at)))
  {
    var sites := Attach(RatePasses.Apply(RatePasses.RecapPass, f, Capacity(cfg)), plan, Progress({}, {})).0;
    AssignedUnder(f, Capacity(cfg), plan, Progress({}, {}));
    var tops := OnQueues(sites, at);
    forall t | t in tops ensures SiteFits(cfg, t.site) {
      assert t.site in sites;
      UnderFits(cfg, t.site, Ceilings(Capacity(cfg)));
    }
    StreamQuanta(cfg, queues, offset, created, tops);
  }

  // ----- Every circuit once -----

  function CircuitIds(cs: seq<Circuit>): (ids: seq<string>) {
    if cs == [] then [] else [cs[0].id] + CircuitIds(cs[1..])
  }

  function SiteIds(s: Site): (ids: seq<string>)
    decreases s
  {
    CircuitIds(s.circuits) + SitesIds(s.children)
  }

  function SitesIds(ss: seq<Site>): (ids: seq<string>)
    decreases ss
  {
    if ss == [] then [] else SiteIds(ss[0]) + SitesIds(ss[1..])
  }

  function PlanIds(cs: seq<Plan>): (ids: set<string>) {
    if cs == [] then {} else {cs[0].id} + PlanIds(cs[1..])
  }

  /** The ids of all circuits chosen for any node of the forest. */
  function ChosenIds(f: seq<Node>, plan: Planned): (ids: set<string>)
    decreases f
  {
    if f == [] then {} else NodeChosenIds(f[0], plan) + ChosenIds(f[1..], plan)
  }

  function NodeChosenIds(n: Node, plan: Planned): (ids: set<string>)
    decreases n
  {
    PlanIds(Chosen(plan, n.name)) + if n.Leaf? then {} else ChosenIds(n.kids, plan)
  }

  /** A walk that starts with `had` and hangs the ids `out` hangs each new wanted id once. */
  ghost predicate OnceEach(out: seq<string>, had: set<string>, wanted: set<string>, now: set<string>) {
    Distinct(out) && (forall x :: x in out <==> x in wanted && x !in had) && now == had + wanted
  }

  lemma OnceBoth(a: seq<string>, b: seq<string>, had: set<string>, mid: set<string>, now: set<string>, v: set<string>,
                 w: set<string>)
    requires OnceEach(a, had, v, mid) && OnceEach(b, mid, w, now)
    ensures OnceEach(a + b, had, v + w, now)
  {
    forall i, j | 0 <= i < j < |a + b| ensures (a + b)[i] != (a + b)[j] {
      if i < |a| <= j {
        assert a[i] in a && b[j - |a|] in b;
      }
    }
  }

  lemma {:induction false} CircuitIdsAppend(a: seq<Circuit>, b: seq<Circuit>)
    ensures CircuitIds(a + b) == CircuitIds(a) + CircuitIds(b)
  {
    if a == [] {
      assert a + b == b;
    } else {
      assert (a + b)[1..] == a[1..] + b;
      CircuitIdsAppend(a[1..], b);
    }
  }

  lemma {:induction false} EachOnce(cs: seq<Plan>, node: NodeRates, lower: bool, p: Progress)
    ensures var (r, p') := AttachEach(cs, node, lower, p);
            OnceEach(CircuitIds(r), p.attached, PlanIds(cs), p'.attached)
  {
    if cs == [] {
    } else {
      var (one, p1) := AttachOne(cs[0], node, lower, p);
      var (rest, p2) := AttachEach(cs[1..], node, lower, p1);
      EachOnce(cs[1..], node, lower, p1);
      CircuitIdsAppend(one, rest);
      assert CircuitIds(one) == if cs[0].id in p.attached then [] else [cs[0].id];
      OnceBoth(CircuitIds(one), CircuitIds(rest), p.attached, p1.attached, p2.attached, {cs[0].id}, PlanIds(cs[1..]));
    }
  }

  lemma {:induction false} NodeOnce(n: Node, plan: Planned, p: Progress)
    ensures var (s, p') := AttachNode(n, plan, p);
            OnceEach(SiteIds(s), p.attached, NodeChosenIds(n, plan), p'.attached)
    decreases n
  {
    var rates := n.attrs.rates;
    var cs := Chosen(plan, n.name);
    var (circuits, p1) := AttachEach(cs, rates, TooMuch(cs, rates, p.lowered), p);
    EachOnce(cs, rates, TooMuch(cs, rates, p.lowered), p);
    if n.Branch? {
      var (children, p2) := Attach(n.kids, plan, p1);
      CircuitsOnce(n.kids, plan, p1);
      OnceBoth(CircuitIds(circuits), SitesIds(children), p.attached, p1.attached, p2.attached, PlanIds(cs),
               ChosenIds(n.kids, plan));
    } else {
      assert CircuitIds(circuits) + [] == CircuitIds(circuits);
    }
  }

  /** Every circuit chosen for some node is attached exactly once, and no other is. */
  lemma {:induction false} CircuitsOnce(f: seq<Node>, plan: Planned, p: Progress)
    ensures var (sites, p') := Attach(f, plan, p);
            OnceEach(SitesIds(sites), p.attached, ChosenIds(f, plan), p'.attached)
    decreases f
  {
    if f == [] {
    } else {
      var (site, p1) := AttachNode(f[0], plan, p);
      var (rest, p2) := Attach(f[1..], plan, p1);
      NodeOnce(f[0], plan, p);
      CircuitsOnce(f[1..], plan, p1);
      OnceBoth(SiteIds(site), SitesIds(rest), p.attached, p1.attached, p2.attached, NodeChosenIds(f[0], plan),
               ChosenIds(f[1..], plan));
    }
  }

  // ----- What hangs where, entry by entry -----

  function Total(xs: seq<real>): (s: real) {
    if xs == [] then 0.0 else xs[0] + Total(xs[1..])
  }

  /** x is the lesser of a and b. */
  predicate IsLesser(x: real, a: real, b: real) {
    x <= a && x <= b && (x == a || x == b)
  }

  function DownAsks(cs: seq<Plan>, ones: set<string>): (xs: seq<real>) {
    seq(|cs|, i requires 0 <= i < |cs| => if cs[i].id in ones then 1.0 else cs[i].rates.dlMin)
  }

  function UpAsks(cs: seq<Plan>, ones: set<string>): (xs: seq<real>) {
    seq(|cs|, i requires 0 <= i < |cs| => if cs[i].id in ones then 1.0 else cs[i].rates.ulMin)
  }

  /** In one of the directions the circuits' minimums add up to more than the node's. */
  predicate AskTooMuch(cs: seq<Plan>, node: NodeRates, ones: set<string>) {
    Total(DownAsks(cs, ones)) > node.dlMin || Total(UpAsks(cs, ones)) > node.ulMin
  }

  /** The circuit of a plan entry below a node: the plan's rates, direction by direction, held by the node's. */
  predicate MadeFrom(c: Circuit, e: Plan, node: NodeRates, one: bool) {
    && c.id == e.id && c.minor == e.minor && c.override == e.override
    && c.downHandle == e.downHandle && c.upHandle == e.upHandle
    && IsLesser(c.rates.dlMax, e.rates.dlMax, node.dl) && IsLesser(c.rates.ulMax, e.rates.ulMax, node.ul)
    && IsLesser(c.rates.dlMin, if one then 1.0 else e.rates.dlMin, c.rates.dlMax)
    && IsLesser(c.rates.ulMin, if one then 1.0 else e.rates.ulMin, c.rates.ulMax)
  }

  /** The first entry of its circuit, which no earlier node took. */
  predicate FirstOf(cs: seq<Plan>, i: nat, had: set<string>)
    requires i < |cs|
  {
    cs[i].id !in had && forall j :: 0 <= j < i ==> cs[j].id != cs[i].id
  }

  /** Circuit k was made from entry at[k], in the plan's order, and every first entry was used. */
  ghost predicate MadeAt(cs: seq<Plan>, node: NodeRates, one: bool, had: set<string>, r: seq<Circuit>, at: seq<nat>) {
    && |at| == |r|
    && (forall k :: 0 <= k < |at| ==> UsedFor(cs, node, one, had, r[k], at[k]))
    && (forall k, l :: 0 <= k < l < |at| ==> at[k] < at[l])
    && (forall i: nat :: i < |cs| && FirstOf(cs, i, had) ==> i in at)
  }

  predicate UsedFor(cs: seq<Plan>, node: NodeRates, one: bool, had: set<string>, c: Circuit, i: nat) {
    i < |cs| && FirstOf(cs, i, had) && MadeFrom(c, cs[i], node, one)
  }

  /** The circuits r below one node, and the sets of ids afterwards. */
  ghost predicate Hung(cs: seq<Plan>, node: NodeRates, p: Progress, r: seq<Circuit>, p': Progress) {
    var one := AskTooMuch(cs, node, p.lowered);
    && (exists at :: MadeAt(cs, node, one, p.attached, r, at))
    && p'.attached == p.attached + (set e | e in cs :: e.id)
    && p'.lowered == p.lowered + if one then (set c | c in r :: c.id) else {}
  }

  /** The site of a node: its minor, its rates, its circuits, and the sites of its children in order. */
  ghost predicate SiteOf(plan: Planned, n: Node, s: Site, p: Progress, p': Progress)
    decreases n
  {
    var rates := n.attrs.rates;
    && s.minor == (if n.name in plan.minors then plan.minors[n.name] else 0)
    && s.rates.dlMin == rates.dlMin && s.rates.ulMin == rates.ulMin
    && s.rates.dlMax == rates.dl && s.rates.ulMax == rates.ul
    && (n.Leaf? ==> s.children == [] && Hung(Chosen(plan, n.name), rates, p, s.circuits, p'))
    && (n.Branch? ==> exists mid ::
          Hung(Chosen(plan, n.name), rates, p, s.circuits, mid) && SitesOf(plan, n.kids, s.children, mid, p'))
  }

  ghost predicate SitesOf(plan: Planned, f: seq<Node>, ss: seq<Site>, p: Progress, p': Progress)
    decreases f
  {
    if f == [] then ss == [] && p' == p
    else ss != [] && exists mid :: SiteOf(plan, f[0], ss[0], p, mid) && SitesOf(plan, f[1..], ss[1..], mid, p')
  }

  lemma {:induction false} SumsAreTotals(cs: seq<Plan>, ones: set<string>)
    ensures DownSum(cs, ones) == Total(DownAsks(cs, ones)) && UpSum(cs, ones) == Total(UpAsks(cs, ones))
  {
    if cs == [] {
    } else {
      SumsAreTotals(cs[1..], ones);
      assert DownAsks(cs, ones)[1..] == DownAsks(cs[1..], ones);
      assert UpAsks(cs, ones)[1..] == UpAsks(cs[1..], ones);
    }
  }

  function Shifted(at: seq<nat>): (r: seq<nat>)
    ensures |r| == |at| && forall k :: 0 <= k < |at| ==> r[k] == at[k] + 1
  {
    seq(|at|, k requires 0 <= k < |at| => at[k] + 1)
  }

  lemma FirstOfTail(cs: seq<Plan>, i: nat, had: set<string>)
    requires i < |cs| - 1
    ensures FirstOf(cs[1..], i, had + {cs[0].id}) <==> FirstOf(cs, i + 1, had)
  {
    var rest := cs[1..];
    assert forall j :: 0 <= j <= i ==> rest[j] == cs[j + 1];
    if FirstOf(rest, i, had + {cs[0].id}) {
      forall j | 0 <= j < i + 1 ensures cs[j].id != cs[i + 1].id {
        if j > 0 { assert rest[j - 1] == cs[j]; }
      }
    }
  }

  /** Positions, entries and circuits of the tail, moved into the whole list. */
  lemma ShiftedEntries(cs: seq<Plan>, node: NodeRates, one: bool, had: set<string>, r: seq<Circuit>, at: seq<nat>)
    requires cs != [] && MadeAt(cs[1..], node, one, had + {cs[0].id}, r, at)
    ensures var up := Shifted(at);
      && (forall k :: 0 <= k < |r| ==> 0 < up[k] && UsedFor(cs, node, one, had, r[k], up[k]))
      && (forall k, l :: 0 <= k < l < |up| ==> up[k] < up[l])
      && (forall i: nat :: 0 < i < |cs| && FirstOf(cs, i, had) ==> i in up)
  {
    var up := Shifted(at);
    forall k | 0 <= k < |r| ensures UsedFor(cs, node, one, had, r[k], up[k]) {
      assert UsedFor(cs[1..], node, one, had + {cs[0].id}, r[k], at[k]);
      FirstOfTail(cs, at[k], had);
    }
    forall i: nat | 0 < i < |cs| && FirstOf(cs, i, had) ensures i in up {
      FirstOfTail(cs, i - 1, had);
      var k :| 0 <= k < |at| && at[k] == i - 1;
      assert up[k] == i;
    }
  }

  lemma MadeAtStep(cs: seq<Plan>, node: NodeRates, one: bool, had: set<string>, first: seq<Circuit>,
                   r: seq<Circuit>, at: seq<nat>) returns (at': seq<nat>)
    requires cs != [] && MadeAt(cs[1..], node, one, had + {cs[0].id}, r, at)
    requires if cs[0].id in had then first == [] else |first| == 1 && MadeFrom(first[0], cs[0], node, one)
    ensures MadeAt(cs, node, one, had, first + r, at')
  {
    ShiftedEntries(cs, node, one, had, r, at);
    if cs[0].id in had {
      at' := Shifted(at);
      assert first + r == r;
    } else {
      at' := [0] + Shifted(at);
      WithFirstEntry(cs, node, one, had, first[0], r, Shifted(at));
      assert first == [first[0]];
    }
  }

  lemma WithFirstEntry(cs: seq<Plan>, node: NodeRates, one: bool, had: set<string>, c: Circuit, r: seq<Circuit>,
                       up: seq<nat>)
    requires |up| == |r| && UsedFor(cs, node, one, had, c, 0)
    requires forall k :: 0 <= k < |r| ==> 0 < up[k] && UsedFor(cs, node, one, had, r[k], up[k])
    requires forall k, l :: 0 <= k < l < |up| ==> up[k] < up[l]
    requires forall i: nat :: 0 < i < |cs| && FirstOf(cs, i, had) ==> i in up
    ensures MadeAt(cs, node, one, had, [c] + r, [0] + up)
  {
    var at, cs' := [0] + up, [c] + r;
    forall k | 0 <= k < |at| ensures UsedFor(cs, node, one, had, cs'[k], at[k]) {
      if k > 0 { assert cs'[k] == r[k - 1] && at[k] == up[k - 1]; }
    }
    forall i: nat | i < |cs| && FirstOf(cs, i, had) ensures i in at {
      if i == 0 { assert at[0] == 0; }
    }
  }

  /** The loop over one node's circuits. */
  lemma {:induction false} EachIsMade(cs: seq<Plan>, node: NodeRates, lower: bool, p: Progress) returns (at: seq<nat>)
    requires p.lowered <= p.attached
    ensures MadeAt(cs, node, lower, p.attached, AttachEach(cs, node, lower, p).0, at)
  {
    if cs == [] {
      at := [];
    } else {
      var (one, p1) := AttachOne(cs[0], node, lower, p);
      var tail := EachIsMade(cs[1..], node, lower, p1);
      assert p1.attached == p.attached + {cs[0].id};
      at := MadeAtStep(cs, node, lower, p.attached, one, AttachEach(cs[1..], node, lower, p1).0, tail);
    }
  }

  lemma {:induction false} EachIsRecorded(cs: seq<Plan>, node: NodeRates, lower: bool, p: Progress)
    requires p.lowered <= p.attached
    ensures var (r, p') := AttachEach(cs, node, lower, p);
            && p'.attached == p.attached + (set e | e in cs :: e.id)
            && p'.lowered == p.lowered + (if lower then (set c | c in r :: c.id) else {})
            && p'.lowered <= p'.attached
  {
    if cs == [] {
    } else {
      EachIsRecorded(cs[1..], node, lower, AttachOne(cs[0], node, lower, p).1);
    }
  }

  lemma NodeIsHung(cs: seq<Plan>, node: NodeRates, p: Progress)
    requires p.lowered <= p.attached
    ensures var (r, p') := AttachEach(cs, node, TooMuch(cs, node, p.lowered), p);
            Hung(cs, node, p, r, p') && p'.lowered <= p'.attached
  {
    SumsAreTotals(cs, p.lowered);
    var at := EachIsMade(cs, node, TooMuch(cs, node, p.lowered), p);
    EachIsRecorded(cs, node, TooMuch(cs, node, p.lowered), p);
  }

  lemma {:induction false} SiteIsOf(n: Node, plan: Planned, p: Progress)
    requires p.lowered <= p.attached
    ensures var (s, p') := AttachNode(n, plan, p); SiteOf(plan, n, s, p, p') && p'.lowered <= p'.attached
    decreases n
  {
    var rates, cs := n.attrs.rates, Chosen(plan, n.name);
    var p1 := AttachEach(cs, rates, TooMuch(cs, rates, p.lowered), p).1;
    NodeIsHung(cs, rates, p);
    if n.Branch? { SitesAreOf(n.kids, plan, p1); }
  }

  /**
   * The walk hangs at every node the circuits chosen for it that no earlier node took, made from
   * their own plan entries; the sites carry their nodes' rates and keep the shape of the tree.
   */
  lemma {:induction false} SitesAreOf(f: seq<Node>, plan: Planned, p: Progress)
    requires p.lowered <= p.attached
    ensures var (ss, p') := Attach(f, plan, p); SitesOf(plan, f, ss, p, p') && p'.lowered <= p'.attached
    decreases f
  {
    if f == [] {
    } else {
      var (site, p1) := AttachNode(f[0], plan, p);
      var rest := Attach(f[1..], plan, p1).0;
      SiteIsOf(f[0], plan, p);
      SitesAreOf(f[1..], plan, p1);
      assert ([site] + rest)[1..] == rest;
    }
  }
}
