/**
 * Where the nodes of a prepared graph end up. A relay is a client with children; the passes give
 * it a generated site. Seen from the input nodes, nothing is cut off from the root and every
 * node keeps its ancestors, relays and clients aside.
 */
module RelaySites {
  import opened GraphPasses

  /** No node asks for a generated site as its parent beforehand. */
  ghost predicate FreshParentIds(nodes: seq<GNode>) {
    forall i, j :: 0 <= i < |nodes| && 0 <= j < |nodes| ==> nodes[i].parentId != GenId(nodes[j].id)
  }

  predicate AboveNetwork(nodes: seq<GNode>, i: int) {
    exists c :: 0 <= c < |nodes| && nodes[c].parentIndex == i && NetworkKind(nodes[c].kind)
  }

  predicate NetworkKind(k: Kind) {
    k.Root? || k.Site? || k.Ap? || k.Client? || k.ClientWithChildren?
  }

  /** A relay already, or a client above a site, an AP, a relay, a root or another client. */
  ghost predicate BecomesRelay(nodes: seq<GNode>, i: int) {
    0 <= i < |nodes| && (nodes[i].kind.ClientWithChildren? || (nodes[i].kind.Client? && AboveNetwork(nodes, i)))
  }

  /** The promotion makes relays of exactly these and changes nothing else. */
  ghost predicate PromotesExactly(before: seq<GNode>, after: seq<GNode>) {
    && |after| == |before|
    && (forall i :: 0 <= i < |after| ==> (after[i].kind.ClientWithChildren? <==> BecomesRelay(before, i)))
    && (forall i :: 0 <= i < |after| ==> after[i] == before[i] || after[i] == before[i].(kind := ClientWithChildren))
  }

  lemma PromotedExactly(nodes: seq<GNode>)
    ensures PromotesExactly(nodes, Promoted(nodes))
  {
    forall i | 0 <= i < |nodes| ensures Promoted(nodes)[i].kind.ClientWithChildren? <==> BecomesRelay(nodes, i) {
      if nodes[i].kind.Client? && HasNonDeviceChild(nodes, i) {
        var c :| 0 <= c < |nodes| && nodes[c].parentIndex == i && !nodes[c].kind.Device?;
        assert NetworkKind(nodes[c].kind);
      }
    }
  }

  /** Node k is a relay, and no setting drops its site or reads it as the root. */
  predicate HasSite(policy: Policy, nodes: seq<GNode>, k: int) {
    && IsCwc(nodes, k) && GenName(nodes[k].displayName) !in policy.excludeSites
    && GenName(nodes[k].displayName) !in policy.rootList
  }

  /** The site that node c would go to is missing, its relay's or its own. */
  predicate Homeless(policy: Policy, nodes: seq<GNode>, c: int) {
    && 0 <= c < |nodes|
    && if Topology(nodes[c].kind) && IsCwc(nodes, nodes[c].parentIndex)
       then !HasSite(policy, nodes, nodes[c].parentIndex)
       else IsCwc(nodes, c) && !HasSite(policy, nodes, c)
  }

  // ----- Exceptions seen on the graph before -----

  /** The parent an exception gives to the site of a relay without a parent id, empty if there is none. */
  function SiteException(policy: Policy, n: GNode): (t: string) {
    if n.parentId != "" then ""
    else if GenId(n.id) in policy.exceptionCpes then policy.exceptionCpes[GenId(n.id)]
    else if GenName(n.displayName) in policy.exceptionCpes then policy.exceptionCpes[GenName(n.displayName)]
    else ""
  }

  /** t is the id of node x or of its generated site. */
  predicate Named(policy: Policy, nodes: seq<GNode>, t: string, x: int) {
    && 0 <= x < |nodes|
    && ((nodes[x].id == t && nodes[x].displayName !in policy.rootList)
        || (HasSite(policy, nodes, x) && GenId(nodes[x].id) == t))
  }

  ghost predicate ExceptionLeads(policy: Policy, nodes: seq<GNode>, t: string, q: int) {
    if exists x :: Named(policy, nodes, t, x) then Named(policy, nodes, t, q) else q == 0
  }

  /** The parent of node i once the exceptions for sites are read as exceptions for their relays. */
  ghost predicate RedirectedParent(policy: Policy, nodes: seq<GNode>, i: nat, q: int)
    requires i < |nodes|
  {
    var t := SiteException(policy, nodes[i]);
    if IsCwc(nodes, i) && t != "" then ExceptionLeads(policy, nodes, t, q) else q == nodes[i].parentIndex
  }

  /** The graph before, with the exceptions that concern generated sites applied to their relays. */
  ghost predicate Redirected(policy: Policy, nodes: seq<GNode>, adj: seq<GNode>) {
    SameButIndex(nodes, adj) && forall i :: 0 <= i < |nodes| ==> RedirectedParent(policy, nodes, i, adj[i].parentIndex)
  }

  // ----- The new parents, in terms of the old ones -----

  predicate Clientish(n: GNode) {
    n.kind.Client? || n.kind.ClientWithChildren?
  }

  /** Where an old node goes: to the site of its relay, to its own site, or nowhere. */
  function NewParent(nodes: seq<GNode>, gen: seq<int>, c: nat): (q: int)
    requires c < |nodes| == |gen|
  {
    var p := nodes[c].parentIndex;
    if Topology(nodes[c].kind) && IsCwc(nodes, p) then gen[p]
    else if IsCwc(nodes, c) then gen[c]
    else p
  }

  /** Where the site of relay k goes: to its parent, out of it when that is a client, or to that relay's site. */
  ghost predicate SiteParent(nodes: seq<GNode>, gen: seq<int>, p: int, y: int)
    requires 0 <= p < |nodes| == |gen|
  {
    || y == p
    || (Clientish(nodes[p]) && y == NewParent(nodes, gen, p))
    || (IsCwc(nodes, p) && y == gen[p] != 0)
  }

  ghost predicate InRange(nodes: seq<GNode>, n: nat) {
    forall c :: 0 <= c < |nodes| ==> 0 <= nodes[c].parentIndex < n
  }

  ghost predicate Rewired(nodes: seq<GNode>, adj: seq<GNode>, done: seq<GNode>, gen: seq<int>) {
    && |gen| == |nodes| == |adj| <= |done| && nodes != [] && !Clientish(nodes[0])
    && InRange(nodes, |nodes|) && InRange(adj, |nodes|) && InRange(done, |done|)
    && (forall c :: 0 <= c < |nodes| ==> done[c].parentIndex == NewParent(nodes, gen, c))
    && (forall c :: 0 <= c < |nodes| && (!IsCwc(nodes, c) || IsCwc(nodes, nodes[c].parentIndex)) ==>
      adj[c].parentIndex == nodes[c].parentIndex)
    && (forall k :: IsCwc(nodes, k) ==> gen[k] == 0 || |nodes| <= gen[k] < |done|)
    && (forall k :: IsCwc(nodes, k) && gen[k] != 0 ==>
      SiteParent(nodes, gen, adj[k].parentIndex, done[gen[k]].parentIndex))
  }

  // ----- Ancestors -----

  /** a is among the first m proper ancestors of n. */
  predicate Above(nodes: seq<GNode>, n: int, a: int, m: nat)
    decreases m
  {
    m > 0 && 0 <= n < |nodes| && (nodes[n].parentIndex == a || Above(nodes, nodes[n].parentIndex, a, m - 1))
  }

  ghost predicate HasAncestor(nodes: seq<GNode>, n: int, a: int) {
    exists k: nat :: k > 0 && AncestorAt(nodes, n, k) == a
  }

  lemma {:induction false} AboveIsAncestor(nodes: seq<GNode>, n: int, a: int, m: nat)
    requires Above(nodes, n, a, m)
    ensures HasAncestor(nodes, n, a)
    decreases m
  {
    var p := nodes[n].parentIndex;
    if p == a {
      assert AncestorAt(nodes, p, 0) == a;
      assert AncestorAt(nodes, n, 1) == a;
    } else {
      AboveIsAncestor(nodes, p, a, m - 1);
      var k: nat :| k > 0 && AncestorAt(nodes, p, k) == a;
      assert AncestorAt(nodes, n, k + 1) == a;
    }
  }

  lemma {:induction false} AncestorIsAbove(nodes: seq<GNode>, n: int, a: int, k: nat)
    requires 0 <= n < |nodes| && InRange(nodes, |nodes|) && k > 0 && AncestorAt(nodes, n, k) == a
    ensures Above(nodes, n, a, k)
    decreases k
  {
    if k == 1 {
      assert AncestorAt(nodes, nodes[n].parentIndex, 0) == a;
    } else {
      AncestorIsAbove(nodes, nodes[n].parentIndex, a, k - 1);
    }
  }

  ghost predicate Over(nodes: seq<GNode>, n: int, a: int) {
    exists m: nat :: Above(nodes, n, a, m)
  }

  lemma OverParent(nodes: seq<GNode>, n: nat, a: int)
    requires n < |nodes|
    ensures Over(nodes, n, a) <==> nodes[n].parentIndex == a || Over(nodes, nodes[n].parentIndex, a)
  {
    var p := nodes[n].parentIndex;
    if Over(nodes, n, a) {
      var m: nat :| Above(nodes, n, a, m);
      if p != a { assert Above(nodes, p, a, m - 1); }
    }
    if p == a {
      assert Above(nodes, n, a, 1);
    } else if Over(nodes, p, a) {
      var m: nat :| Above(nodes, p, a, m);
      assert Above(nodes, n, a, m + 1);
    }
  }

  /** A node that a missing site sends to the root. */
  predicate SentHome(nodes: seq<GNode>, gen: seq<int>, c: int)
    requires |gen| == |nodes|
  {
    && 0 <= c < |nodes|
    && if Topology(nodes[c].kind) && IsCwc(nodes, nodes[c].parentIndex) then gen[nodes[c].parentIndex] == 0
       else IsCwc(nodes, c) && gen[c] == 0
  }

  /** Such nodes had the root above them, and nothing else but clients and relays. */
  ghost predicate HomeOnly(nodes: seq<GNode>, adj: seq<GNode>, gen: seq<int>)
    requires |gen| == |nodes|
  {
    forall c, a :: SentHome(nodes, gen, c) && 0 <= a < |nodes| && !Clientish(nodes[a]) ==>
      (HasAncestor(adj, c, a) <==> a == 0)
  }

  // ----- Reachability -----

  lemma ParentConnected(nodes: seq<GNode>, n: nat)
    requires 0 < n < |nodes| && Connected(nodes, n)
    ensures Connected(nodes, nodes[n].parentIndex)
  {
    var k: nat :| ReachesIn(nodes, n, k);
    assert ReachesIn(nodes, nodes[n].parentIndex, k - 1);
  }

  lemma SameParentConnected(nodes: seq<GNode>, a: nat, b: nat)
    requires 0 < a < |nodes| && b < |nodes| && nodes[b].parentIndex == nodes[a].parentIndex && Connected(nodes, a)
    ensures Connected(nodes, b)
  {
    ParentConnected(nodes, a);
    ChildConnected(nodes, b);
  }

  lemma RootConnected(nodes: seq<GNode>)
    ensures Connected(nodes, 0)
  {
    assert ReachesIn(nodes, 0, 0);
  }

  /** The site of a relay hangs together with the relay's parent. */
  lemma SiteConnected(nodes: seq<GNode>, adj: seq<GNode>, done: seq<GNode>, gen: seq<int>, k: nat)
    requires Rewired(nodes, adj, done, gen) && IsCwc(nodes, k) && gen[k] != 0
    requires Connected(done, adj[k].parentIndex)
    requires var p := adj[k].parentIndex; IsCwc(nodes, p) && gen[p] != 0 ==> Connected(done, gen[p])
    ensures Connected(done, gen[k])
  {
    var p, g := adj[k].parentIndex, gen[k];
    RootConnected(done);
    if done[g].parentIndex == p || (IsCwc(nodes, p) && done[g].parentIndex == gen[p]) {
      ChildConnected(done, g);
    } else {
      SameParentConnected(done, p, g);
    }
  }

  /** Whatever was connected is connected, and so is the site of a connected relay. */
  lemma {:induction false} StaysReached(nodes: seq<GNode>, adj: seq<GNode>, done: seq<GNode>, gen: seq<int>, c: nat,
                                        m: nat)
    requires Rewired(nodes, adj, done, gen) && c < |nodes| && ReachesIn(adj, c, m)
    ensures Connected(done, c)
    ensures IsCwc(nodes, c) && gen[c] != 0 ==> Connected(done, gen[c])
    decreases m
  {
    RootConnected(done);
    if c == 0 {
    } else {
      var p := adj[c].parentIndex;
      StaysReached(nodes, adj, done, gen, p, m - 1);
      if IsCwc(nodes, c) && gen[c] != 0 { SiteConnected(nodes, adj, done, gen, c); }
      ChildConnected(done, c);
    }
  }

  lemma {:induction false} UnderRootReaches(nodes: seq<GNode>, n: int, k: nat)
    requires AncestorAt(nodes, n, k) == 0
    ensures Connected(nodes, n)
    decreases k
  {
    if k == 0 || !(0 <= n < |nodes|) {
      assert ReachesIn(nodes, n, 0);
    } else {
      UnderRootReaches(nodes, nodes[n].parentIndex, k - 1);
      ChildConnected(nodes, n);
    }
  }

  lemma HomeWasReached(nodes: seq<GNode>, adj: seq<GNode>, gen: seq<int>, c: nat)
    requires |gen| == |nodes| && nodes != [] && !Clientish(nodes[0]) && HomeOnly(nodes, adj, gen)
    requires SentHome(nodes, gen, c)
    ensures Connected(adj, c)
  {
    assert HasAncestor(adj, c, 0);
    var k: nat :| k > 0 && AncestorAt(adj, c, k) == 0;
    UnderRootReaches(adj, c, k);
  }

  lemma {:induction false} WasReached(nodes: seq<GNode>, adj: seq<GNode>, done: seq<GNode>, gen: seq<int>, c: nat,
                                      m: nat)
    requires Rewired(nodes, adj, done, gen) && HomeOnly(nodes, adj, gen) && c < |nodes| && ReachesIn(done, c, m)
    ensures Connected(adj, c)
    decreases m, 0
  {
    RootConnected(adj);
    if c == 0 {
    } else if SentHome(nodes, gen, c) {
      HomeWasReached(nodes, adj, gen, c);
    } else {
      var p := nodes[c].parentIndex;
      if Topology(nodes[c].kind) && IsCwc(nodes, p) {
        SiteWasReached(nodes, adj, done, gen, p, m - 1);
        ChildConnected(adj, c);
      } else if IsCwc(nodes, c) {
        SiteWasReached(nodes, adj, done, gen, c, m - 1);
      } else {
        WasReached(nodes, adj, done, gen, p, m - 1);
        ChildConnected(adj, c);
      }
    }
  }

  lemma {:induction false} SiteWasReached(nodes: seq<GNode>, adj: seq<GNode>, done: seq<GNode>, gen: seq<int>, k: nat,
                                          m: nat)
    requires Rewired(nodes, adj, done, gen) && HomeOnly(nodes, adj, gen) && IsCwc(nodes, k) && gen[k] != 0
    requires ReachesIn(done, gen[k], m)
    ensures Connected(adj, k)
    decreases m, 1
  {
    var p, g := adj[k].parentIndex, gen[k];
    if done[g].parentIndex == p {
      WasReached(nodes, adj, done, gen, p, m - 1);
    } else if IsCwc(nodes, p) && done[g].parentIndex == gen[p] != 0 {
      SiteWasReached(nodes, adj, done, gen, p, m - 1);
    } else {
      assert ReachesIn(done, p, m);
      WasReached(nodes, adj, done, gen, p, m);
    }
    ChildConnected(adj, k);
  }

  // ----- Ancestors of rewired nodes -----

  /** The site of a relay has the relay's ancestors. */
  lemma SiteUnder(nodes: seq<GNode>, adj: seq<GNode>, done: seq<GNode>, gen: seq<int>, k: nat, a: nat)
    requires Rewired(nodes, adj, done, gen) && IsCwc(nodes, k) && gen[k] != 0
    requires a < |nodes| && !Clientish(nodes[a])
    requires var p := adj[k].parentIndex;
      p == a || (Over(done, p, a) && (IsCwc(nodes, p) && gen[p] != 0 ==> Over(done, gen[p], a)))
    ensures Over(done, gen[k], a)
  {
    var p, g := adj[k].parentIndex, gen[k];
    OverParent(done, g, a);
    OverParent(done, p, a);
  }

  lemma {:induction false} StaysUnder(nodes: seq<GNode>, adj: seq<GNode>, done: seq<GNode>, gen: seq<int>, c: nat,
                                      a: nat, m: nat)
    requires Rewired(nodes, adj, done, gen) && HomeOnly(nodes, adj, gen) && c < |nodes| && Above(adj, c, a, m)
    requires a < |nodes| && !Clientish(nodes[a])
    ensures Over(done, c, a)
    ensures IsCwc(nodes, c) && gen[c] != 0 ==> Over(done, gen[c], a)
    decreases m
  {
    var p := adj[c].parentIndex;
    if p != a { StaysUnder(nodes, adj, done, gen, p, a, m - 1); }
    if IsCwc(nodes, c) && gen[c] != 0 { SiteUnder(nodes, adj, done, gen, c, a); }
    OverParent(done, c, a);
    if SentHome(nodes, gen, c) { AboveIsAncestor(adj, c, a, m); }
  }

  /** A root below itself has no other ancestor. */
  lemma {:induction false} RootIsTop(nodes: seq<GNode>, a: int, m: nat)
    requires nodes != [] && nodes[0].parentIndex == 0 && Above(nodes, 0, a, m)
    ensures a == 0
    decreases m
  {
    if a != 0 { RootIsTop(nodes, a, m - 1); }
  }

  lemma HomeWasUnder(nodes: seq<GNode>, adj: seq<GNode>, gen: seq<int>, c: nat)
    requires |gen| == |nodes| == |adj| && nodes != [] && !Clientish(nodes[0]) && HomeOnly(nodes, adj, gen)
    requires SentHome(nodes, gen, c) && InRange(adj, |adj|)
    ensures Over(adj, c, 0)
  {
    assert HasAncestor(adj, c, 0);
    var k: nat :| k > 0 && AncestorAt(adj, c, k) == 0;
    AncestorIsAbove(adj, c, 0, k);
  }

  lemma {:induction false} WasUnder(nodes: seq<GNode>, adj: seq<GNode>, done: seq<GNode>, gen: seq<int>, c: nat,
                                    a: nat, m: nat)
    requires Rewired(nodes, adj, done, gen) && HomeOnly(nodes, adj, gen) && c < |nodes| && Above(done, c, a, m)
    requires a < |nodes| && !Clientish(nodes[a]) && nodes[0].parentIndex == 0
    ensures Over(adj, c, a)
    decreases m, 0
  {
    var p := nodes[c].parentIndex;
    OverParent(adj, c, a);
    if SentHome(nodes, gen, c) {
      HomeWasUnder(nodes, adj, gen, c);
      if a != 0 { RootIsTop(done, a, m - 1); }
    } else if Topology(nodes[c].kind) && IsCwc(nodes, p) {
      SiteWasUnder(nodes, adj, done, gen, p, a, m - 1);
    } else if IsCwc(nodes, c) {
      SiteWasUnder(nodes, adj, done, gen, c, a, m - 1);
    } else if p != a {
      WasUnder(nodes, adj, done, gen, p, a, m - 1);
    }
  }

  lemma {:induction false} SiteWasUnder(nodes: seq<GNode>, adj: seq<GNode>, done: seq<GNode>, gen: seq<int>, k: nat,
                                        a: nat, m: nat)
    requires Rewired(nodes, adj, done, gen) && HomeOnly(nodes, adj, gen) && IsCwc(nodes, k) && gen[k] != 0
    requires Above(done, gen[k], a, m) && a < |nodes| && !Clientish(nodes[a]) && nodes[0].parentIndex == 0
    ensures Over(adj, k, a)
    decreases m, 1
  {
    var p, g := adj[k].parentIndex, gen[k];
    OverParent(adj, k, a);
    if done[g].parentIndex == p {
      if p != a { WasUnder(nodes, adj, done, gen, p, a, m - 1); }
    } else if IsCwc(nodes, p) && done[g].parentIndex == gen[p] != 0 {
      SiteWasUnder(nodes, adj, done, gen, p, a, m - 1);
    } else {
      WasUnder(nodes, adj, done, gen, p, a, m);
    }
  }

  // ----- The passes rewire the graph in this way -----

  /** Where a parent id leads once the converted list is indexed. */
  ghost function Goes(all: seq<GNode>, index: map<string, nat>, roots: set<string>, pid: string): (q: int)
    requires IndexSound(all, index)
  {
    if pid == "" || pid !in index || all[index[pid]].displayName in roots then 0 else index[pid]
  }

  /** The setting of the lemmas below. */
  ghost predicate Prepared(policy: Policy, nodes: seq<GNode>, index: map<string, nat>, mid: seq<GNode>,
                           done: seq<GNode>) {
    ReadyUnder(policy.rootList, nodes) && FreshParentIds(nodes) && Pipeline(policy, nodes, index, mid, done)
  }

  lemma KnownGoes(policy: Policy, nodes: seq<GNode>, index: map<string, nat>, q: nat)
    requires UniqueIds(nodes) && FreshGenIds(nodes) && q < |nodes| && nodes[q].id != ""
    requires IndexSound(ConvertedBy(policy, nodes), index) && IndexComplete(ConvertedBy(policy, nodes), index)
    requires nodes[q].displayName !in policy.rootList
    ensures Goes(ConvertedBy(policy, nodes), index, policy.rootList, nodes[q].id) == q
  {
    OnlyOneHasId(policy, nodes, index, q);
    assert ConvertedBy(policy, nodes)[q] == ConvertedNode(nodes, q);
  }

  /** An id that leads to an old node names it. */
  lemma GoesBack(policy: Policy, nodes: seq<GNode>, index: map<string, nat>, pid: string)
    requires IndexSound(ConvertedBy(policy, nodes), index)
    ensures var q := Goes(ConvertedBy(policy, nodes), index, policy.rootList, pid);
      q == 0 || Named(policy, nodes, pid, q) || exists k :: HasSite(policy, nodes, k) && pid == GenId(nodes[k].id)
  {
    var all := ConvertedBy(policy, nodes);
    var q := Goes(all, index, policy.rootList, pid);
    if q > 0 && q >= |nodes| {
      var k := AddedNode(policy, nodes, q);
      assert HasSite(policy, nodes, k);
    } else if q > 0 {
      assert all[q] == ConvertedNode(nodes, q);
    }
  }

  /** A parent id no one changed leads where it led before. */
  lemma OldGoes(policy: Policy, nodes: seq<GNode>, index: map<string, nat>, c: nat)
    requires ReadyUnder(policy.rootList, nodes) && FreshParentIds(nodes) && c < |nodes|
    requires IndexSound(ConvertedBy(policy, nodes), index) && IndexComplete(ConvertedBy(policy, nodes), index)
    ensures Goes(ConvertedBy(policy, nodes), index, policy.rootList, nodes[c].parentId) == nodes[c].parentIndex
  {
    var pid, p := nodes[c].parentId, nodes[c].parentIndex;
    assert Leads(nodes, policy.rootList, pid, p);
    if p != 0 {
      KnownGoes(policy, nodes, index, p);
    } else {
      var q := Goes(ConvertedBy(policy, nodes), index, policy.rootList, pid);
      GoesBack(policy, nodes, index, pid);
      if q != 0 {
        assert Named(policy, nodes, pid, q);
        assert Leads(nodes, policy.rootList, pid, q);
      }
    }
  }

  /** The position of a relay's site, 0 when it has none. */
  lemma GenGoes(policy: Policy, nodes: seq<GNode>, index: map<string, nat>, k: nat)
    requires UniqueIds(nodes) && FreshGenIds(nodes) && IsCwc(nodes, k)
    requires IndexSound(ConvertedBy(policy, nodes), index) && IndexComplete(ConvertedBy(policy, nodes), index)
    ensures var all := ConvertedBy(policy, nodes);
      var g := Goes(all, index, policy.rootList, GenId(nodes[k].id));
      if HasSite(policy, nodes, k) then |nodes| <= g < |all| && all[g] == AddedSite(policy, nodes[k]) else g == 0
  {
    var all, pid := ConvertedBy(policy, nodes), GenId(nodes[k].id);
    GenIdNonEmpty(nodes[k].id);
    assert forall i :: 0 <= i < |nodes| ==> all[i].id == nodes[i].id;
    if Generates(policy, nodes, k) {
      var c := SiteOf(policy, nodes, k);
      assert all[c].id in index;
    }
    if pid in index {
      assert all[index[pid]].id == pid;
      var l := AddedNode(policy, nodes, index[pid]);
      GenIdInjective(nodes[l].id, nodes[k].id);
      SameIdSameNode(nodes, l, k);
    }
  }

  ghost function SitePositions(policy: Policy, nodes: seq<GNode>, index: map<string, nat>): (gen: seq<int>)
    requires IndexSound(ConvertedBy(policy, nodes), index)
    ensures |gen| == |nodes|
    ensures forall k :: 0 <= k < |nodes| ==>
      gen[k] == Goes(ConvertedBy(policy, nodes), index, policy.rootList, GenId(nodes[k].id))
  {
    seq(|nodes|, k requires 0 <= k < |nodes| =>
      Goes(ConvertedBy(policy, nodes), index, policy.rootList, GenId(nodes[k].id)))
  }

  lemma TopologyNotLifted(policy: Policy, nodes: seq<GNode>, index: map<string, nat>, c: nat)
    requires ReadyUnder(policy.rootList, nodes) && c < |nodes| && Topology(nodes[c].kind)
    requires IndexSound(ConvertedBy(policy, nodes), index)
    ensures var mid := Reparented(ConvertedBy(policy, nodes), index, policy.rootList);
      !LiftsFrom(mid, mid[c].parentIndex)
  {
    var all := ConvertedBy(policy, nodes);
    ConvertedIdIsSafe(policy, nodes, c);
    ReparentedLeads(all, index, policy.rootList, c);
    var mid := Reparented(all, index, policy.rootList);
    var q := mid[c].parentIndex;
    assert all[0] == ConvertedNode(nodes, 0) && all[c] == ConvertedNode(nodes, c);
    assert q != 0 ==> Leads(all, policy.rootList, all[c].parentId, q);
  }

  /** An old client or site is not lifted: its parent is no client. */
  lemma OldNotLifted(policy: Policy, nodes: seq<GNode>, index: map<string, nat>, mid: seq<GNode>, done: seq<GNode>,
                     c: nat)
    requires Prepared(policy, nodes, index, mid, done) && c < |nodes|
    ensures done[c].parentId == ConvertedNode(nodes, c).parentId
  {
    assert ConvertedBy(policy, nodes)[c] == ConvertedNode(nodes, c);
    if Topology(nodes[c].kind) { TopologyNotLifted(policy, nodes, index, c); }
  }

  lemma DoneGoes(policy: Policy, nodes: seq<GNode>, index: map<string, nat>, mid: seq<GNode>, done: seq<GNode>, c: nat)
    requires Pipeline(policy, nodes, index, mid, done) && c < |done|
    ensures |done| == |ConvertedBy(policy, nodes)|
    ensures done[c].parentIndex == Goes(ConvertedBy(policy, nodes), index, policy.rootList, done[c].parentId)
    ensures mid[c].parentIndex ==
      Goes(ConvertedBy(policy, nodes), index, policy.rootList, ConvertedBy(policy, nodes)[c].parentId)
    ensures done[c].id == ConvertedBy(policy, nodes)[c].id && done[c].kind == ConvertedBy(policy, nodes)[c].kind
  {
  }

  lemma OldDone(policy: Policy, nodes: seq<GNode>, index: map<string, nat>, mid: seq<GNode>, done: seq<GNode>, c: nat)
    requires Prepared(policy, nodes, index, mid, done) && c < |nodes|
    ensures done[c].parentIndex == NewParent(nodes, SitePositions(policy, nodes, index), c)
  {
    OldNotLifted(policy, nodes, index, mid, done, c);
    DoneGoes(policy, nodes, index, mid, done, c);
    OldGoes(policy, nodes, index, c);
  }

  /** The parent id of an exception leads to the node it names, or to that node's site. */
  lemma ExceptionGoes(policy: Policy, nodes: seq<GNode>, index: map<string, nat>, t: string, p: int)
    requires UniqueIds(nodes) && FreshGenIds(nodes) && t != "" && ExceptionLeads(policy, nodes, t, p)
    requires IndexSound(ConvertedBy(policy, nodes), index) && IndexComplete(ConvertedBy(policy, nodes), index)
    ensures var a := Goes(ConvertedBy(policy, nodes), index, policy.rootList, t);
      a == p || (IsCwc(nodes, p) && a == SitePositions(policy, nodes, index)[p] >= |nodes|)
  {
    if Named(policy, nodes, t, p) {
      if nodes[p].id == t && nodes[p].displayName !in policy.rootList {
        KnownGoes(policy, nodes, index, p);
      } else {
        GenGoes(policy, nodes, index, p);
      }
    } else {
      NoneGoes(policy, nodes, index, t);
    }
  }

  lemma NoneGoes(policy: Policy, nodes: seq<GNode>, index: map<string, nat>, t: string)
    requires IndexSound(ConvertedBy(policy, nodes), index) && forall x :: !Named(policy, nodes, t, x)
    ensures Goes(ConvertedBy(policy, nodes), index, policy.rootList, t) == 0
  {
    GoesBack(policy, nodes, index, t);
    forall x | HasSite(policy, nodes, x) ensures t != GenId(nodes[x].id) {
      assert !Named(policy, nodes, t, x);
    }
  }

  /** The parent a site gets in the first place: the relay's, or where the exception leads. */
  lemma SiteGoes(policy: Policy, nodes: seq<GNode>, index: map<string, nat>, k: nat, p: int)
    requires ReadyUnder(policy.rootList, nodes) && FreshParentIds(nodes) && IsCwc(nodes, k)
    requires IndexSound(ConvertedBy(policy, nodes), index) && IndexComplete(ConvertedBy(policy, nodes), index)
    requires RedirectedParent(policy, nodes, k, p)
    ensures var a := Goes(ConvertedBy(policy, nodes), index, policy.rootList, AddedSite(policy, nodes[k]).parentId);
      a == p || (IsCwc(nodes, p) && a == SitePositions(policy, nodes, index)[p] >= |nodes|)
  {
    var t := SiteException(policy, nodes[k]);
    if t == "" {
      OldGoes(policy, nodes, index, k);
      assert AddedSite(policy, nodes[k]).parentId == nodes[k].parentId;
    } else {
      ExceptionGoes(policy, nodes, index, t, p);
      assert AddedSite(policy, nodes[k]).parentId == t;
    }
  }

  lemma SiteDone(policy: Policy, nodes: seq<GNode>, index: map<string, nat>, mid: seq<GNode>, done: seq<GNode>, k: nat,
                 p: nat)
    requires Prepared(policy, nodes, index, mid, done) && HasSite(policy, nodes, k)
    requires p < |nodes| && RedirectedParent(policy, nodes, k, p)
    ensures var gen := SitePositions(policy, nodes, index);
      |nodes| <= gen[k] < |done| && SiteParent(nodes, gen, p, done[gen[k]].parentIndex)
  {
    var all, gen := ConvertedBy(policy, nodes), SitePositions(policy, nodes, index);
    GenGoes(policy, nodes, index, k);
    var g := gen[k];
    DoneGoes(policy, nodes, index, mid, done, g);
    SiteGoes(policy, nodes, index, k, p);
    var a := mid[g].parentIndex;
    if LiftsFrom(mid, a) {
      if a >= |nodes| { var l := AddedNode(policy, nodes, a); }
      assert all[a] == ConvertedNode(nodes, a);
      assert done[g].parentId == ConvertedNode(nodes, a).parentId;
      OldNotLifted(policy, nodes, index, mid, done, a);
      DoneGoes(policy, nodes, index, mid, done, a);
      OldDone(policy, nodes, index, mid, done, a);
    }
  }

  lemma RedirectedStays(policy: Policy, nodes: seq<GNode>, adj: seq<GNode>, c: nat)
    requires ReadyUnder(policy.rootList, nodes) && Redirected(policy, nodes, adj) && c < |nodes|
    ensures 0 <= nodes[c].parentIndex < |nodes| && 0 <= adj[c].parentIndex < |nodes|
    ensures !IsCwc(nodes, c) || IsCwc(nodes, nodes[c].parentIndex) ==> adj[c].parentIndex == nodes[c].parentIndex
  {
    assert Leads(nodes, policy.rootList, nodes[c].parentId, nodes[c].parentIndex);
    assert RedirectedParent(policy, nodes, c, adj[c].parentIndex);
  }

  /** The four passes, summed up as one rewiring. */
  lemma PassesRewire(policy: Policy, nodes: seq<GNode>, adj: seq<GNode>, index: map<string, nat>, mid: seq<GNode>,
                     done: seq<GNode>)
    requires Prepared(policy, nodes, index, mid, done) && Redirected(policy, nodes, adj)
    ensures Rewired(nodes, adj, done, SitePositions(policy, nodes, index))
  {
    var gen := SitePositions(policy, nodes, index);
    forall c | 0 <= c < |nodes|
      ensures 0 <= nodes[c].parentIndex < |nodes| && 0 <= adj[c].parentIndex < |nodes|
      ensures !IsCwc(nodes, c) || IsCwc(nodes, nodes[c].parentIndex) ==> adj[c].parentIndex == nodes[c].parentIndex
      ensures done[c].parentIndex == NewParent(nodes, gen, c)
    {
      RedirectedStays(policy, nodes, adj, c);
      OldDone(policy, nodes, index, mid, done, c);
    }
    forall k | IsCwc(nodes, k)
      ensures gen[k] == 0 || |nodes| <= gen[k] < |done|
      ensures gen[k] != 0 ==> SiteParent(nodes, gen, adj[k].parentIndex, done[gen[k]].parentIndex)
    {
      GenGoes(policy, nodes, index, k);
      if HasSite(policy, nodes, k) { SiteDone(policy, nodes, index, mid, done, k, adj[k].parentIndex); }
    }
    forall c | 0 <= c < |done| ensures 0 <= done[c].parentIndex < |done| {
      ReparentedLeads(Lifted(mid), index, policy.rootList, c);
    }
  }

  // ----- Nothing is cut off, and ancestors stay -----

  /** Under any settings: what is connected once the exceptions apply stays connected. */
  lemma ConnectedStays(policy: Policy, nodes: seq<GNode>, adj: seq<GNode>, index: map<string, nat>, mid: seq<GNode>,
                       done: seq<GNode>, c: nat)
    requires Prepared(policy, nodes, index, mid, done) && Redirected(policy, nodes, adj) && c < |nodes|
    ensures Connected(adj, c) ==> Connected(done, c)
  {
    PassesRewire(policy, nodes, adj, index, mid, done);
    if Connected(adj, c) {
      var m: nat :| ReachesIn(adj, c, m);
      StaysReached(nodes, adj, done, SitePositions(policy, nodes, index), c, m);
    }
  }

  /** Input nodes that are neither clients nor relays. */
  predicate Firm(nodes: seq<GNode>, a: int) {
    0 <= a < |nodes| && !Clientish(nodes[a])
  }

  /** Two graphs give every input node the same firm ancestors. */
  ghost predicate SameAncestors(nodes: seq<GNode>, adj: seq<GNode>, done: seq<GNode>) {
    forall c, a :: 0 <= c < |nodes| && Firm(nodes, a) ==> (HasAncestor(adj, c, a) <==> HasAncestor(done, c, a))
  }

  /** Whoever loses a site had the root as the one firm ancestor. */
  ghost predicate HomelessWereAtRoot(policy: Policy, nodes: seq<GNode>, adj: seq<GNode>) {
    forall c, a :: Homeless(policy, nodes, c) && Firm(nodes, a) ==> (HasAncestor(adj, c, a) <==> a == 0)
  }

  lemma SameAncestorsHold(nodes: seq<GNode>, adj: seq<GNode>, done: seq<GNode>, gen: seq<int>, c: nat, a: nat)
    requires Rewired(nodes, adj, done, gen) && HomeOnly(nodes, adj, gen) && nodes[0].parentIndex == 0
    requires c < |nodes| && Firm(nodes, a)
    ensures HasAncestor(adj, c, a) <==> HasAncestor(done, c, a)
  {
    if HasAncestor(adj, c, a) {
      var k: nat :| k > 0 && AncestorAt(adj, c, k) == a;
      AncestorIsAbove(adj, c, a, k);
      StaysUnder(nodes, adj, done, gen, c, a, k);
      var m: nat :| Above(done, c, a, m);
      AboveIsAncestor(done, c, a, m);
    }
    if HasAncestor(done, c, a) {
      var k: nat :| k > 0 && AncestorAt(done, c, k) == a;
      AncestorIsAbove(done, c, a, k);
      WasUnder(nodes, adj, done, gen, c, a, k);
      var m: nat :| Above(adj, c, a, m);
      AboveIsAncestor(adj, c, a, m);
    }
  }

  /** A node directly below a root that is its own parent has that one ancestor. */
  lemma BelowRoot(nodes: seq<GNode>, c: nat, a: int)
    requires c < |nodes| && InRange(nodes, |nodes|) && nodes[c].parentIndex == 0 && nodes[0].parentIndex == 0
    ensures HasAncestor(nodes, c, a) <==> a == 0
  {
    assert AncestorAt(nodes, nodes[c].parentIndex, 0) == 0;
    assert AncestorAt(nodes, c, 1) == 0;
    if HasAncestor(nodes, c, a) {
      var k: nat :| k > 0 && AncestorAt(nodes, c, k) == a;
      AncestorIsAbove(nodes, c, a, k);
      if a != 0 { RootIsTop(nodes, a, k - 1); }
    }
  }

  lemma HomelessAreSentHome(policy: Policy, nodes: seq<GNode>, index: map<string, nat>, c: int)
    requires UniqueIds(nodes) && FreshGenIds(nodes)
    requires IndexSound(ConvertedBy(policy, nodes), index) && IndexComplete(ConvertedBy(policy, nodes), index)
    requires nodes != []
    ensures Homeless(policy, nodes, c) <==> SentHome(nodes, SitePositions(policy, nodes, index), c)
  {
    if 0 <= c < |nodes| {
      if IsCwc(nodes, nodes[c].parentIndex) { GenGoes(policy, nodes, index, nodes[c].parentIndex); }
      if IsCwc(nodes, c) { GenGoes(policy, nodes, index, c); }
    }
  }

  lemma HomeConditions(policy: Policy, nodes: seq<GNode>, adj: seq<GNode>, index: map<string, nat>)
    requires UniqueIds(nodes) && FreshGenIds(nodes) && nodes != []
    requires IndexSound(ConvertedBy(policy, nodes), index) && IndexComplete(ConvertedBy(policy, nodes), index)
    ensures HomelessWereAtRoot(policy, nodes, adj) <==> HomeOnly(nodes, adj, SitePositions(policy, nodes, index))
  {
    var gen := SitePositions(policy, nodes, index);
    forall c, a | Firm(nodes, a)
      ensures (Homeless(policy, nodes, c) ==> (HasAncestor(adj, c, a) <==> a == 0)) <==>
        (SentHome(nodes, gen, c) ==> (HasAncestor(adj, c, a) <==> a == 0))
    {
      HomelessAreSentHome(policy, nodes, index, c);
    }
  }

  /** The rewiring keeps ancestors exactly when the nodes sent to the root were there. */
  lemma RewiredAncestorsIff(nodes: seq<GNode>, adj: seq<GNode>, done: seq<GNode>, gen: seq<int>)
    requires Rewired(nodes, adj, done, gen) && nodes[0].parentIndex == 0
    ensures SameAncestors(nodes, adj, done) <==> HomeOnly(nodes, adj, gen)
  {
    if HomeOnly(nodes, adj, gen) {
      forall c, a | 0 <= c < |nodes| && Firm(nodes, a) ensures HasAncestor(adj, c, a) <==> HasAncestor(done, c, a) {
        SameAncestorsHold(nodes, adj, done, gen, c, a);
      }
    }
    if SameAncestors(nodes, adj, done) {
      forall c, a | SentHome(nodes, gen, c) && 0 <= a < |nodes| && !Clientish(nodes[a])
        ensures HasAncestor(adj, c, a) <==> a == 0
      {
        assert Firm(nodes, a);
        BelowRoot(done, c, a);
      }
    }
  }

  /**
   * Under any settings, with a root below nothing: every input node keeps exactly its ancestors
   * that are neither clients nor relays, if and only if whoever loses a site was at the root.
   */
  lemma AncestorsStayIff(policy: Policy, nodes: seq<GNode>, adj: seq<GNode>, index: map<string, nat>, mid: seq<GNode>,
                         done: seq<GNode>)
    requires Prepared(policy, nodes, index, mid, done) && Redirected(policy, nodes, adj) && nodes[0].parentIndex == 0
    ensures SameAncestors(nodes, adj, done) <==> HomelessWereAtRoot(policy, nodes, adj)
  {
    PassesRewire(policy, nodes, adj, index, mid, done);
    HomeConditions(policy, nodes, adj, index);
    RewiredAncestorsIff(nodes, adj, done, SitePositions(policy, nodes, index));
  }

  /** Then connectivity is what the exceptions make of it, too. */
  lemma ConnectedIff(policy: Policy, nodes: seq<GNode>, adj: seq<GNode>, index: map<string, nat>, mid: seq<GNode>,
                     done: seq<GNode>, c: nat)
    requires Prepared(policy, nodes, index, mid, done) && Redirected(policy, nodes, adj) && c < |nodes|
    requires HomelessWereAtRoot(policy, nodes, adj)
    ensures Connected(adj, c) <==> Connected(done, c)
  {
    ConnectedStays(policy, nodes, adj, index, mid, done, c);
    if Connected(done, c) {
      PassesRewire(policy, nodes, adj, index, mid, done);
      HomeConditions(policy, nodes, adj, index);
      var m: nat :| ReachesIn(done, c, m);
      WasReached(nodes, adj, done, SitePositions(policy, nodes, index), c, m);
    }
  }

  /** Node g is a new site, made for relay k. */
  predicate SiteFor(nodes: seq<GNode>, done: seq<GNode>, g: int, k: nat)
    requires k < |nodes|
  {
    && |nodes| <= g < |done| && done[g].kind.Site?
    && done[g].id == nodes[k].id + "_gen" && done[g].displayName == "(Generated Site) " + nodes[k].displayName
  }

  /** The relay hangs below g, and so do the clients and sites that hung below the relay. */
  ghost predicate Gathers(nodes: seq<GNode>, done: seq<GNode>, g: int, k: nat)
    requires k < |nodes| <= |done|
  {
    && (!IsCwc(nodes, nodes[k].parentIndex) ==> done[k].parentIndex == g)
    && (forall c :: 0 <= c < |nodes| && nodes[c].parentIndex == k && (nodes[c].kind.Site? || Clientish(nodes[c])) ==>
          done[c].parentIndex == g)
  }

  /**
   * A relay with a site: the site gathers the relay and its topology children, and takes the
   * relay's place when that was below no other relay and no exception says otherwise.
   */
  lemma RelayPlaces(policy: Policy, nodes: seq<GNode>, index: map<string, nat>, mid: seq<GNode>, done: seq<GNode>,
                    k: nat)
    requires Prepared(policy, nodes, index, mid, done) && HasSite(policy, nodes, k)
    ensures |nodes| <= |done|
    ensures exists g :: SiteFor(nodes, done, g, k) && Gathers(nodes, done, g, k)
                        && (!IsCwc(nodes, nodes[k].parentIndex) && SiteException(policy, nodes[k]) == "" ==>
                              done[g].parentIndex == nodes[k].parentIndex)
  {
    var gen := SitePositions(policy, nodes, index);
    GenGoes(policy, nodes, index, k);
    var p := nodes[k].parentIndex;
    assert Leads(nodes, policy.rootList, nodes[k].parentId, p);
    DoneGoes(policy, nodes, index, mid, done, gen[k]);
    assert SiteFor(nodes, done, gen[k], k);
    OldDone(policy, nodes, index, mid, done, k);
    if !IsCwc(nodes, p) && SiteException(policy, nodes[k]) == "" {
      SiteDone(policy, nodes, index, mid, done, k, p);
      if nodes[p].kind.Client? { assert HasNonDeviceChild(nodes, p); }
    }
    forall c | 0 <= c < |nodes| && nodes[c].parentIndex == k && Topology(nodes[c].kind)
      ensures done[c].parentIndex == gen[k]
    {
      OldDone(policy, nodes, index, mid, done, c);
    }
  }

  // ----- All of it, for settings without exceptions for sites -----

  ghost predicate NoSiteExceptions(policy: Policy, nodes: seq<GNode>) {
    forall k :: IsCwc(nodes, k) ==> SiteException(policy, nodes[k]) == ""
  }

  /** Relay k has its site in the relay's old place, with the relay and its topology children below it. */
  ghost predicate Replaced(policy: Policy, before: seq<GNode>, after: seq<GNode>, k: nat)
    requires k < |before| <= |after|
  {
    exists g :: SiteFor(before, after, g, k) && Gathers(before, after, g, k)
                && (!IsCwc(before, before[k].parentIndex) && SiteException(policy, before[k]) == "" ==>
                      after[g].parentIndex == before[k].parentIndex)
  }

  /** An old node but for its place: relays are clients now. */
  predicate SameNode(n: GNode, m: GNode) {
    && m.id == n.id && m.displayName == n.displayName && m.ips == n.ips
    && m.kind == if n.kind.ClientWithChildren? then Client else n.kind
  }

  /** A root, AP or device, or a client or site that is no relay and below none. */
  predicate StaysPut(nodes: seq<GNode>, c: int) {
    && 0 <= c < |nodes| && !IsCwc(nodes, c)
    && (nodes[c].kind.Root? || nodes[c].kind.Ap? || nodes[c].kind.Device? || !IsCwc(nodes, nodes[c].parentIndex))
  }

  ghost predicate MadeForRelay(before: seq<GNode>, after: seq<GNode>, g: int) {
    exists k :: IsCwc(before, k) && SiteFor(before, after, g, k)
  }

  /** Old nodes first and unchanged, then only sites of relays; whoever has no relay to leave stays put. */
  ghost predicate KeepsNodes(before: seq<GNode>, after: seq<GNode>) {
    && 0 < |before| <= |after|
    && (forall c :: 0 <= c < |before| ==> SameNode(before[c], after[c]))
    && (forall g :: |before| <= g < |after| ==> MadeForRelay(before, after, g))
    && (forall c :: 0 <= c < |before| && StaysPut(before, c) ==> after[c].parentIndex == before[c].parentIndex)
  }

  /** Without exceptions for sites: nothing is cut off, and ancestors stay unless sites are missing. */
  ghost predicate KeepsReach(policy: Policy, before: seq<GNode>, after: seq<GNode>)
    requires before != []
  {
    NoSiteExceptions(policy, before) ==>
      && (forall c :: 0 <= c < |before| && Connected(before, c) ==> Connected(after, c))
      && (before[0].parentIndex == 0 ==>
            (SameAncestors(before, before, after) <==> HomelessWereAtRoot(policy, before, before)))
  }

  /** What the preparation keeps of the graph before. */
  ghost predicate KeepsPlaces(policy: Policy, before: seq<GNode>, after: seq<GNode>) {
    && KeepsNodes(before, after) && KeepsReach(policy, before, after)
    && forall k :: HasSite(policy, before, k) ==> Replaced(policy, before, after, k)
  }

  lemma OldNodeStays(policy: Policy, nodes: seq<GNode>, index: map<string, nat>, mid: seq<GNode>, done: seq<GNode>,
                     c: nat)
    requires Pipeline(policy, nodes, index, mid, done) && c < |nodes|
    ensures |nodes| <= |done| && SameNode(nodes[c], done[c])
  {
    assert ConvertedBy(policy, nodes)[c] == ConvertedNode(nodes, c);
  }

  lemma NewNodeIsSite(policy: Policy, nodes: seq<GNode>, index: map<string, nat>, mid: seq<GNode>, done: seq<GNode>,
                      g: nat)
    requires Pipeline(policy, nodes, index, mid, done) && |nodes| <= g < |done|
    ensures MadeForRelay(nodes, done, g)
  {
    var k := AddedNode(policy, nodes, g);
    assert SiteFor(nodes, done, g, k);
  }

  lemma OthersStayPut(policy: Policy, nodes: seq<GNode>, index: map<string, nat>, mid: seq<GNode>, done: seq<GNode>,
                      c: nat)
    requires Prepared(policy, nodes, index, mid, done) && StaysPut(nodes, c)
    ensures |nodes| <= |done| && done[c].parentIndex == nodes[c].parentIndex
  {
    OldDone(policy, nodes, index, mid, done, c);
  }

  lemma NodesStay(policy: Policy, nodes: seq<GNode>, index: map<string, nat>, mid: seq<GNode>, done: seq<GNode>)
    requires Prepared(policy, nodes, index, mid, done)
    ensures KeepsNodes(nodes, done)
  {
    OldNodeStays(policy, nodes, index, mid, done, 0);
    forall c | 0 <= c < |nodes| ensures SameNode(nodes[c], done[c]) {
      OldNodeStays(policy, nodes, index, mid, done, c);
    }
    forall g | |nodes| <= g < |done| ensures MadeForRelay(nodes, done, g) {
      NewNodeIsSite(policy, nodes, index, mid, done, g);
    }
    forall c | 0 <= c < |nodes| && StaysPut(nodes, c) ensures done[c].parentIndex == nodes[c].parentIndex {
      OthersStayPut(policy, nodes, index, mid, done, c);
    }
  }

  lemma ReachStays(policy: Policy, nodes: seq<GNode>, index: map<string, nat>, mid: seq<GNode>, done: seq<GNode>)
    requires Prepared(policy, nodes, index, mid, done)
    ensures KeepsReach(policy, nodes, done)
  {
    if NoSiteExceptions(policy, nodes) {
      assert Redirected(policy, nodes, nodes);
      forall c | 0 <= c < |nodes| && Connected(nodes, c) ensures Connected(done, c) {
        ConnectedStays(policy, nodes, nodes, index, mid, done, c);
      }
      if nodes[0].parentIndex == 0 { AncestorsStayIff(policy, nodes, nodes, index, mid, done); }
    }
  }

  lemma PreparationKeepsPlaces(policy: Policy, nodes: seq<GNode>, index: map<string, nat>, mid: seq<GNode>,
                               done: seq<GNode>)
    requires Prepared(policy, nodes, index, mid, done)
    ensures KeepsPlaces(policy, nodes, done)
  {
    NodesStay(policy, nodes, index, mid, done);
    ReachStays(policy, nodes, index, mid, done);
    forall k | HasSite(policy, nodes, k) ensures Replaced(policy, nodes, done, k) {
      RelayPlaces(policy, nodes, index, mid, done, k);
    }
  }

  // ----- Settings can cut nodes off and lose ancestors -----

  lemma {:induction false} LoopIsLoose(nodes: seq<GNode>, a: nat, b: nat, k: nat)
    requires 0 < a < |nodes| && 0 < b < |nodes| && nodes[a].parentIndex == b && nodes[b].parentIndex == a
    ensures !ReachesIn(nodes, a, k) && !ReachesIn(nodes, b, k)
    decreases k
  {
    if k > 0 { LoopIsLoose(nodes, a, b, k - 1); }
  }

  /** An exception that puts a relay's site below a site of the relay cuts both off. */
  lemma ExceptionCutsOff(policy: Policy, nodes: seq<GNode>, index: map<string, nat>, mid: seq<GNode>, done: seq<GNode>,
                         k: nat, d: nat)
    requires Prepared(policy, nodes, index, mid, done) && HasSite(policy, nodes, k) && 0 < d < |nodes|
    requires nodes[d].kind.Site? && nodes[d].parentIndex == k && nodes[d].displayName !in policy.rootList
    requires nodes[d].id != "" && SiteException(policy, nodes[k]) == nodes[d].id
    ensures Connected(nodes, d) && !Connected(done, d)
  {
    var g := SitePositions(policy, nodes, index)[k];
    assert Leads(nodes, policy.rootList, nodes[k].parentId, nodes[k].parentIndex);
    assert ReachesIn(nodes, 0, 0) && ReachesIn(nodes, k, 1) && ReachesIn(nodes, d, 2);
    OldDone(policy, nodes, index, mid, done, d);
    assert Named(policy, nodes, nodes[d].id, d);
    assert RedirectedParent(policy, nodes, k, d);
    SiteDone(policy, nodes, index, mid, done, k, d);
    forall m: nat ensures !ReachesIn(done, d, m) { LoopIsLoose(done, d, g, m); }
  }

  /** Without its site, what hung below a relay loses all ancestors but the root. */
  lemma MissingSiteLosesAncestors(policy: Policy, nodes: seq<GNode>, index: map<string, nat>, mid: seq<GNode>,
                                  done: seq<GNode>, c: nat, a: nat)
    requires Prepared(policy, nodes, index, mid, done) && nodes[0].parentIndex == 0
    requires Homeless(policy, nodes, c) && a > 0
    ensures !HasAncestor(done, c, a)
  {
    HomelessAreSentHome(policy, nodes, index, c);
    OldDone(policy, nodes, index, mid, done, c);
    OldDone(policy, nodes, index, mid, done, 0);
    forall x | 0 <= x < |done| ensures 0 <= done[x].parentIndex < |done| {
      ReparentedLeads(Lifted(mid), index, policy.rootList, x);
    }
    BelowRoot(done, c, a);
  }
}
