/**
 * The mutable integration graph: a node list, an index from ids to positions and a lazily built
 * cache of children. Every method is proved against the value-level passes of GraphPasses.
 */
module NetworkGraph {
  import opened GraphPasses
  import RelaySites
  import Pruning

  function CacheGet(cache: map<int, seq<nat>>, p: int): (r: seq<nat>) {
    if p in cache then cache[p] else []
  }

  /** The cache lists, for every parent, its children among the first k nodes. */
  ghost predicate CachesUpTo(cache: map<int, seq<nat>>, nodes: seq<GNode>, k: nat)
    requires k <= |nodes|
  {
    forall p :: CacheGet(cache, p) == ChildrenUpTo(nodes, p, k)
  }

  lemma CacheStep(cache: map<int, seq<nat>>, nodes: seq<GNode>, i: nat)
    requires i < |nodes| && CachesUpTo(cache, nodes, i)
    ensures var p := nodes[i].parentIndex; CachesUpTo(cache[p := CacheGet(cache, p) + [i]], nodes, i + 1)
  {
    var p := nodes[i].parentIndex;
    var cache' := cache[p := CacheGet(cache, p) + [i]];
    var k := i + 1;
    forall q ensures CacheGet(cache', q) == ChildrenUpTo(nodes, q, k) {
      assert CacheGet(cache, q) == ChildrenUpTo(nodes, q, i);
      assert CacheGet(cache', q) == if q == p then CacheGet(cache, p) + [i] else CacheGet(cache, q);
    }
  }

  /** The cache after the first k nodes. */
  function CacheOf(nodes: seq<GNode>, k: nat): (cache: map<int, seq<nat>>)
    requires k <= |nodes|
  {
    if k == 0 then map[]
    else
      var less, p := CacheOf(nodes, k - 1), nodes[k - 1].parentIndex;
      less[p := CacheGet(less, p) + [k - 1]]
  }

  lemma {:induction false} CacheIsRight(nodes: seq<GNode>, k: nat)
    requires k <= |nodes|
    ensures CachesUpTo(CacheOf(nodes, k), nodes, k)
  {
    if k == 0 {
    } else {
      CacheIsRight(nodes, k - 1);
      CacheStep(CacheOf(nodes, k - 1), nodes, k - 1);
    }
  }

  lemma ChildInRange(nodes: seq<GNode>, p: int, l: nat)
    requires l < |ChildrenOf(nodes, p)|
    ensures var c := ChildrenOf(nodes, p)[l]; c < |nodes| && nodes[c].parentIndex == p
  {
    var r := ChildrenOf(nodes, p);
    assert r[l] in r;
  }

  class Graph {
    var nodes: seq<GNode>
    var idToIndex: map<string, nat>
    var childrenCache: map<int, seq<nat>>
    var cacheValid: bool
    const policy: Policy

    /**
     * What every operation keeps: the id index points only at nodes with that id, and a cache
     * marked valid lists exactly the children of every position in ascending order.
     */
    ghost predicate Valid()
      reads this
    {
      && IndexSound(nodes, idToIndex)
      && (cacheValid ==> CachesUpTo(childrenCache, nodes, |nodes|))
    }

    /** Every id is indexed. */
    ghost predicate Complete()
      reads this
    {
      IndexComplete(nodes, idToIndex)
    }

    constructor (settings: Policy)
      ensures Valid() && Complete() && UniqueIds(nodes)
      ensures nodes == [GNode("FakeRoot", "Shaper Root", "", 0, Root, 0)]
      ensures policy == settings
    {
      nodes := [GNode("FakeRoot", "Shaper Root", "", 0, Root, 0)];
      idToIndex := map["FakeRoot" := 0];
      childrenCache, cacheValid := map[], false;
      policy := settings;
    }

    method AddRawNode(n: GNode)
      requires Valid()
      modifies this
      ensures Valid() && (old(Complete()) ==> Complete())
      ensures n.displayName in policy.excludeSites ==>
        nodes == old(nodes) && idToIndex == old(idToIndex) && cacheValid == old(cacheValid)
      ensures n.displayName !in policy.excludeSites ==>
        nodes == old(nodes) + [n.(parentId := ExceptionParent(policy, n))] && !cacheValid
    {
      if n.displayName !in policy.excludeSites {
        var added := n;
        if n.parentId == "" {
          var parent := if n.id in policy.exceptionCpes then policy.exceptionCpes[n.id]
                        else if n.displayName in policy.exceptionCpes then policy.exceptionCpes[n.displayName] else "";
          if parent != "" {
            added := n.(parentId := parent);
          }
        }
        var idx := |nodes|;
        nodes := nodes + [added];
        idToIndex := idToIndex[added.id := idx];
        cacheValid := false;
      }
    }

    method AddNodeAsChild(parent: string, n: GNode)
      requires Valid()
      modifies this
      ensures Valid() && (old(Complete()) ==> Complete())
      ensures n.displayName in policy.excludeSites ==> nodes == old(nodes)
      ensures n.displayName !in policy.excludeSites ==>
                var parentIdx := if parent in old(idToIndex) then old(idToIndex)[parent] else 0;
                nodes == old(nodes) + [n.(parentIndex := parentIdx, parentId := parent)]
    {
      if n.displayName in policy.excludeSites {
        return;
      }
      var parentIdx := if parent in idToIndex then idToIndex[parent] else 0;
      var idx := |nodes|;
      nodes := nodes + [n.(parentIndex := parentIdx, parentId := parent)];
      idToIndex := idToIndex[n.id := idx];
      cacheValid := false;
    }

    /**
     * Replacing the root keeps the index complete exactly when no other node carries the old
     * root's id (or the new root has it too).
     */
    method ReplaceRootNode(n: GNode)
      requires Valid() && nodes != []
      modifies this
      ensures Valid() && nodes == old(nodes)[0 := n]
      ensures old(Complete()) ==>
                (Complete() <==> n.id == old(nodes)[0].id || forall i :: 1 <= i < |old(nodes)| ==>
                  old(nodes)[i].id != old(nodes)[0].id)
    {
      var was := nodes[0];
      nodes := nodes[0 := n];
      if was.id in idToIndex {
        idToIndex := idToIndex - {was.id};
      }
      idToIndex := idToIndex[n.id := 0];
      cacheValid := false;
      if old(Complete()) {
        assert forall i :: 1 <= i < |nodes| ==> nodes[i] == old(nodes)[i] && nodes[i].id in old(idToIndex);
        assert forall i :: 1 <= i < |nodes| ==> (nodes[i].id in idToIndex <==> nodes[i].id != was.id || n.id == was.id);
      }
    }

    /** __reparentById */
    method ReparentById()
      requires Valid()
      modifies this`nodes, this`cacheValid
      ensures Valid() && !cacheValid && (old(Complete()) ==> Complete())
      ensures nodes == Reparented(old(nodes), idToIndex, policy.rootList)
    {
      cacheValid := false;
      for i := 0 to |nodes|
        invariant |nodes| == |old(nodes)| && IndexSound(nodes, idToIndex) && !cacheValid
        invariant forall j :: 0 <= j < |nodes| ==>
          nodes[j] == if j < i then Reparented(old(nodes), idToIndex, policy.rootList)[j] else old(nodes)[j]
      {
        var parent := 0;
        if nodes[i].parentId != "" && nodes[i].parentId in idToIndex {
          var p := idToIndex[nodes[i].parentId];
          parent := if nodes[p].displayName in policy.rootList then 0 else p;
        }
        nodes := nodes[i := nodes[i].(parentIndex := parent)];
      }
    }

    /** findNodeIndexById: the index, or -1. */
    method FindNodeIndexById(id: string) returns (r: int)
      requires Valid()
      ensures r != -1 ==> 0 <= r < |nodes| && nodes[r].id == id
      ensures Complete() && r == -1 ==> forall i :: 0 <= i < |nodes| ==> nodes[i].id != id
    {
      r := if id in idToIndex then idToIndex[id] else -1;
    }

    method BuildChildrenCache()
      requires Valid()
      modifies this`childrenCache, this`cacheValid
      ensures Valid() && cacheValid
    {
      var cache: map<int, seq<nat>> := map[];
      for i := 0 to |nodes|
        invariant cache == CacheOf(nodes, i)
      {
        var p := nodes[i].parentIndex;
        cache := cache[p := CacheGet(cache, p) + [i]];
      }
      CacheIsRight(nodes, |nodes|);
      childrenCache, cacheValid := cache, true;
    }

    method EnsureCache()
      requires Valid()
      modifies this`childrenCache, this`cacheValid
      ensures Valid() && cacheValid
    {
      if !cacheValid {
        BuildChildrenCache();
      }
    }

    method FindChildIndices(p: int) returns (r: seq<nat>)
      requires Valid()
      modifies this`childrenCache, this`cacheValid
      ensures Valid() && cacheValid && r == ChildrenOf(nodes, p)
    {
      EnsureCache();
      r := CacheGet(childrenCache, p);
    }

    /** __promoteClientsWithChildren: only kinds change, so the cache stays valid. */
    method PromoteClientsWithChildren()
      requires Valid()
      modifies this`nodes, this`childrenCache, this`cacheValid
      ensures Valid() && cacheValid && (old(Complete()) ==> Complete())
      ensures nodes == Promoted(old(nodes))
      ensures RelaySites.PromotesExactly(old(nodes), nodes)
    {
      EnsureCache();
      ghost var before := nodes;
      var cache := childrenCache;
      for i := 0 to |nodes|
        invariant cacheValid && childrenCache == cache
        invariant PromotedUpTo(before, nodes, i)
      {
        var found := nodes[i].kind.Client?;
        if found {
          found := AnyNonDevice(CacheGet(cache, i), before, i);
        }
        PromoteStep(before, nodes, i);
        if found {
          nodes := nodes[i := nodes[i].(kind := ClientWithChildren)];
        }
      }
      PromotedAll(before, nodes);
      RelaySites.PromotedExactly(before);
      CacheStays(childrenCache, before, nodes);
    }

    /** The inner loop of the promotion: does any listed child have another kind than device? */
    method AnyNonDevice(children: seq<nat>, ghost before: seq<GNode>, i: nat) returns (found: bool)
      requires |nodes| == |before| && children == ChildrenOf(before, i)
      requires forall j :: 0 <= j < |nodes| ==> nodes[j].kind.Device? == before[j].kind.Device?
      ensures found <==> HasNonDeviceChild(before, i)
    {
      forall l | 0 <= l < |children| ensures children[l] < |before| { ChildInRange(before, i, l); }
      for k := 0 to |children|
        invariant forall l :: 0 <= l < k ==> before[children[l]].kind.Device?
      {
        ChildInRange(before, i, k);
        if !nodes[children[k]].kind.Device? {
          return true;
        }
      }
      forall c | 0 <= c < |before| && before[c].parentIndex == i ensures before[c].kind.Device? {
        assert c in children;
      }
      found := false;
    }

    /** __clientsWithChildrenToSites, first loop: turn nodes into clients, collect the new sites and the moves. */
    method CollectConversions() returns (toAdd: seq<GNode>, moves: map<nat, string>)
      requires Valid() && cacheValid
      modifies this`nodes
      ensures ConvertingUpTo(old(nodes), nodes, |old(nodes)|)
      ensures toAdd == GenSites(old(nodes), |old(nodes)|)
      ensures MovesUpTo(old(nodes), moves, |old(nodes)|)
    {
      toAdd, moves := [], map[];
      ghost var before := nodes;
      for i := 0 to |nodes|
        invariant ConvertingUpTo(before, nodes, i)
        invariant toAdd == GenSites(before, i)
        invariant MovesUpTo(before, moves, i)
      {
        var n := nodes[i];
        assert n == before[i];
        if n.kind.ClientWithChildren? {
          toAdd := toAdd + [GenSite(n)];
          ConvertStep(before, nodes, i);
          nodes := nodes[i := n.(parentId := GenId(n.id), kind := Client)];
          moves := CollectMoves(moves, CacheGet(childrenCache, i), before, i);
        } else {
          SkipStep(before, nodes, moves, i);
        }
      }
    }

    /** The inner loop: every topology child of the converted node i moves to its generated site. */
    method CollectMoves(had: map<nat, string>, children: seq<nat>, ghost before: seq<GNode>,
                        i: nat) returns (moves: map<nat, string>)
      requires i < |before| && IsCwc(before, i) && children == ChildrenOf(before, i)
      requires ConvertingUpTo(before, nodes, i + 1) && MovesUpTo(before, had, i)
      ensures MovesUpTo(before, moves, i + 1)
    {
      moves := had;
      assert forall l :: 0 <= l < |children| ==> children[l] in children;
      assert nodes[i].id == before[i].id;
      for k := 0 to |children|
        invariant forall c :: c in moves <==> c in had || (c in children[..k] && Topology(before[c].kind))
        invariant forall c :: c in moves ==> moves[c] == if c in children[..k] then GenId(before[i].id) else had[c]
      {
        var c := children[k];
        assert Topology(nodes[c].kind) == Topology(before[c].kind);
        if Topology(nodes[c].kind) {
          moves := moves[c := GenId(nodes[i].id)];
        }
        assert children[..k + 1] == children[..k] + [c];
      }
      assert children[..|children|] == children;
    }

    method AddAll(toAdd: seq<GNode>)
      requires Valid()
      modifies this
      ensures Valid() && (old(Complete()) ==> Complete())
      ensures nodes == old(nodes) + Added(policy, toAdd)
    {
      var i := 0;
      while i < |toAdd|
        invariant i <= |toAdd| && Valid() && (old(Complete()) ==> Complete())
        invariant nodes + Added(policy, toAdd[i..]) == old(nodes) + Added(policy, toAdd)
      {
        assert toAdd[i..][0] == toAdd[i] && toAdd[i..][1..] == toAdd[i + 1..];
        ghost var had := nodes;
        AddRawNode(toAdd[i]);
        assert nodes + Added(policy, toAdd[i + 1..]) == had + Added(policy, toAdd[i..]);
        i := i + 1;
      }
    }

    /** Batch reparenting: nodes[c].parentId = moves[c]. */
    method ApplyMoves(moves: map<nat, string>)
      requires Valid()
      modifies this`nodes
      ensures Valid() && (old(Complete()) ==> Complete())
      ensures |nodes| == |old(nodes)|
      ensures forall c :: 0 <= c < |nodes| ==> nodes[c] == MovedNode(old(nodes)[c], moves, c)
    {
      ghost var before := nodes;
      for c := 0 to |nodes|
        invariant |nodes| == |before|
        invariant forall j :: 0 <= j < |nodes| ==>
          nodes[j] == if j < c then MovedNode(before[j], moves, j) else before[j]
      {
        if c in moves {
          nodes := nodes[c := nodes[c].(parentId := moves[c])];
        }
      }
      CacheStays(childrenCache, before, nodes);
    }

    /** __clientsWithChildrenToSites */
    method ClientsWithChildrenToSites()
      requires Valid()
      modifies this
      ensures Valid() && (old(Complete()) ==> Complete())
      ensures IndexSound(ConvertedBy(policy, old(nodes)), idToIndex)
      ensures nodes == Reparented(ConvertedBy(policy, old(nodes)), idToIndex, policy.rootList)
    {
      EnsureCache();
      ghost var before := nodes;
      var toAdd, moves := CollectConversions();
      CacheStays(childrenCache, before, nodes);
      ghost var converting := nodes;
      AddAll(toAdd);
      ApplyMoves(moves);
      MovesComplete(before, converting, Added(policy, toAdd), moves, nodes);
      ReparentById();
    }

    /** __liftTopologyChildrenOutOfClients */
    method LiftTopologyChildrenOutOfClients()
      requires Valid()
      modifies this
      ensures Valid() && (old(Complete()) ==> Complete())
      ensures IndexSound(Lifted(old(nodes)), idToIndex)
      ensures nodes == old(nodes) || nodes == Reparented(Lifted(old(nodes)), idToIndex, policy.rootList)
      ensures nodes == old(nodes) ==> Lifted(old(nodes)) == old(nodes)
      ensures idToIndex == old(idToIndex)
    {
      EnsureCache();
      ghost var before := nodes;
      var moves: map<nat, string> := map[];
      for i := 0 to |nodes|
        invariant nodes == before && cacheValid && Valid() && idToIndex == old(idToIndex)
        invariant (old(Complete()) ==> Complete())
        invariant LiftsUpTo(before, moves, i)
      {
        if nodes[i].kind.Client? && nodes[i].parentId != "" {
          moves := CollectLifts(moves, CacheGet(childrenCache, i), i);
        }
      }
      LiftsComplete(before, moves);
      if moves != map[] {
        ApplyMoves(moves);
        assert nodes == Lifted(before);
        ReparentById();
      }
    }

    method CollectLifts(had: map<nat, string>, children: seq<nat>, i: nat) returns (moves: map<nat, string>)
      requires i < |nodes| && LiftsFrom(nodes, i) && children == ChildrenOf(nodes, i) && LiftsUpTo(nodes, had, i)
      ensures LiftsUpTo(nodes, moves, i + 1)
    {
      moves := had;
      assert forall l :: 0 <= l < |children| ==> children[l] in children;
      for k := 0 to |children|
        invariant forall c :: c in moves <==> c in had || (c in children[..k] && Topology(nodes[c].kind))
        invariant forall c :: c in moves ==> moves[c] == if c in children[..k] then nodes[i].parentId else had[c]
      {
        var c := children[k];
        if Topology(nodes[c].kind) {
          moves := moves[c := nodes[i].parentId];
        }
        assert children[..k + 1] == children[..k] + [c];
      }
      assert children[..|children|] == children;
    }

    /** __findUnconnectedNodes: a worklist walk from the root over the child cache. */
    method FindUnconnectedNodes() returns (loose: set<int>)
      requires Valid()
      modifies this`childrenCache, this`cacheValid
      ensures Valid() && cacheValid
      ensures ExactlyLoose(nodes, loose)
    {
      BuildChildrenCache();
      var all := Indices(|nodes|);
      ghost var open := all + {0};
      var visited: set<int> := {};
      var next: seq<int> := [0];
      assert ReachesIn(nodes, 0, 0);
      while next != []
        invariant cacheValid && Valid()
        invariant Walked(nodes, visited, next)
        decreases open - visited, |next|
      {
        var current := next[|next| - 1];
        var rest := next[..|next| - 1];
        assert next == rest + [current];
        if current in visited {
          PopVisited(nodes, visited, rest, current);
          next := rest;
        } else {
          next := PushUnvisited(rest, visited + {current}, CacheGet(childrenCache, current));
          Advance(nodes, visited, rest, current, next);
          visited := visited + {current};
        }
      }
      WalkDone(nodes, visited);
      loose := all - visited;
    }

    method PushUnvisited(rest: seq<int>, visited: set<int>, children: seq<nat>) returns (next: seq<int>)
      ensures forall x :: x in next <==> x in rest || (x in children && x !in visited)
    {
      next := rest;
      for k := 0 to |children|
        invariant forall x :: x in next <==> x in rest || (x in children[..k] && x !in visited)
      {
        if children[k] !in visited {
          next := next + [children[k]];
        }
        assert children[..k + 1] == children[..k] + [children[k]];
      }
      assert children[..|children|] == children;
    }

    /** __reconnectUnconnected: sites, then clients with children, then clients. */
    method ReconnectUnconnected()
      requires Valid()
      modifies this
      ensures Valid() && !cacheValid && idToIndex == old(idToIndex) && (old(Complete()) ==> Complete())
      ensures exists loose :: ExactlyLoose(old(nodes), loose) && nodes == Reconnected(old(nodes), loose)
      ensures |nodes| == |old(nodes)| && forall i :: 0 <= i < |nodes| ==>
        nodes[i] == if !Connected(old(nodes), i) && HungOnRoot(old(nodes)[i].kind)
                    then old(nodes)[i].(parentIndex := 0) else old(nodes)[i]
    {
      var loose := FindUnconnectedNodes();
      ghost var before := nodes;
      cacheValid := false;
      HangLoose(loose, Site);
      ghost var n1 := nodes;
      HangLoose(loose, ClientWithChildren);
      ghost var n2 := nodes;
      HangLoose(loose, Client);
      HungThrice(before, n1, n2, nodes, loose);
      IndexStays(idToIndex, before, nodes);
    }

    predicate HungOnRoot(k: Kind) {
      k.Site? || k.ClientWithChildren? || k.Client?
    }

    /** The nodes of one kind among the loose ones go to the root. */
    method HangLoose(loose: set<int>, kind: Kind)
      modifies this`nodes
      ensures HungUpTo(old(nodes), nodes, loose, kind, |nodes|)
    {
      for i := 0 to |nodes|
        invariant |nodes| == |old(nodes)| && HungUpTo(old(nodes), nodes, loose, kind, i)
      {
        if i in loose && nodes[i].kind == kind {
          nodes := nodes[i := nodes[i].(parentIndex := 0)];
        }
      }
    }

    /** __rebuildIndexes: later nodes win. */
    method RebuildIndexes()
      modifies this`idToIndex, this`cacheValid
      ensures Valid() && Complete() && !cacheValid
    {
      idToIndex := map[];
      for i := 0 to |nodes|
        invariant forall k :: k in idToIndex ==> idToIndex[k] < i && nodes[idToIndex[k]].id == k
        invariant forall j :: 0 <= j < i ==> nodes[j].id in idToIndex
      {
        idToIndex := idToIndex[nodes[i].id := i];
      }
      cacheValid := false;
    }

    /** __pruneIgnoredCircuits, once the addresses are filtered. A root that is a client or device can go too. */
    method PruneIgnoredCircuits()
      requires Valid()
      modifies this
      ensures Valid() && (old(Complete()) ==> Complete())
      ensures var kept := Kept(old(nodes), |old(nodes)|);
              && IndexSound(kept, idToIndex)
              && (nodes == Reparented(kept, idToIndex, policy.rootList) || (nodes == old(nodes) && kept == old(nodes)))
      ensures old(nodes) != [] && !Removable(old(nodes), 0) ==>
        nodes != [] && nodes[0].id == old(nodes)[0].id && nodes[0].kind == old(nodes)[0].kind
      ensures UniqueIds(old(nodes)) ==> Pruning.LosesExactly(old(nodes), nodes)
      ensures UniqueIds(old(nodes)) && Pruning.DevicesIndexed(old(nodes), policy.rootList) ==>
        Pruning.AllShapable(nodes)
    {
      EnsureCache();
      var kept := CollectKept();
      if |kept| == |nodes| {
        KeptAll(nodes, |nodes|);
        assert nodes[..|nodes|] == nodes;
        if UniqueIds(nodes) { Pruning.NothingRemovable(nodes); }
        return;
      }
      if nodes != [] && !Removable(nodes, 0) { Pruning.RootIsKept(nodes, |nodes|); }
      ghost var before := nodes;
      nodes := kept;
      RebuildIndexes();
      ghost var index := idToIndex;
      ReparentById();
      if UniqueIds(before) { Pruning.PrunedLosesExactly(before, index, policy.rootList); }
      if UniqueIds(before) && Pruning.DevicesIndexed(before, policy.rootList) {
        Pruning.PrunedIsShapable(before, index, policy.rootList);
      }
    }

    /** The nodes that are not removable, in order. */
    method CollectKept() returns (kept: seq<GNode>)
      requires Valid() && cacheValid
      ensures kept == Kept(nodes, |nodes|)
    {
      kept := [];
      for i := 0 to |nodes|
        invariant kept == Kept(nodes, i)
      {
        var n := nodes[i];
        var removable := n.kind.Device? && n.ips == 0;
        if n.kind.Client? {
          var shapable := AnyShapable(CacheGet(childrenCache, i), i);
          removable := !shapable;
        }
        if !removable {
          kept := kept + [n];
        }
      }
    }

    method AnyShapable(children: seq<nat>, i: nat) returns (found: bool)
      requires children == ChildrenOf(nodes, i)
      ensures found <==> HasShapableDevice(nodes, i)
    {
      assert forall l :: 0 <= l < |children| ==> children[l] in children;
      for k := 0 to |children|
        invariant forall l :: 0 <= l < k ==> !(nodes[children[l]].kind.Device? && nodes[children[l]].ips > 0)
      {
        assert children[k] in children;
        if nodes[children[k]].kind.Device? && nodes[children[k]].ips > 0 {
          return true;
        }
      }
      forall c | 0 <= c < |nodes| && nodes[c].parentIndex == i ensures !(nodes[c].kind.Device? && nodes[c].ips > 0) {
        assert c in children;
      }
      found := false;
    }

    /**
     * The first four steps of prepareTree. With a root that is no client, afterwards no client has
     * a client or site child exactly when no exception traps a generated site; with any root, when
     * no setting touches a generated site and no parent is promoted to the root.
     */
    method PrepareClients()
      requires Valid() && Complete() && nodes != [] && UniqueIds(nodes) && FreshGenIds(nodes)
      modifies this
      ensures Valid() && Complete()
      ensures !old(nodes)[0].kind.Client? && !old(nodes)[0].kind.ClientWithChildren? ==>
        (ClientsAreLeaves(nodes) <==>
          !Trapped(policy, Promoted(Reparented(old(nodes), old(idToIndex), policy.rootList))))
      ensures GeneratedUntouched(policy, old(nodes)) && policy.rootList == {} ==> ClientsAreLeaves(nodes)
      ensures !RelaySites.Clientish(old(nodes)[0]) && RelaySites.FreshParentIds(old(nodes)) ==>
        RelaySites.KeepsPlaces(policy, Promoted(Reparented(old(nodes), old(idToIndex), policy.rootList)), nodes)
    {
      ghost var n0, index0 := nodes, idToIndex;
      ReparentById();
      PromoteClientsWithChildren();
      ghost var n2 := nodes;
      ClientsWithChildrenToSites();
      ghost var mid, index := nodes, idToIndex;
      LiftTopologyChildrenOutOfClients();
      assert FourSteps(policy, n0, index0, n2, mid, nodes, index);
      PreparedUnder(policy, n0, index0, n2, mid, nodes, index);
      PreparedPlaces(policy, n0, index0, n2, mid, nodes, index);
      PreparedUntouched(policy, n0, index0, n2, mid, nodes, index);
    }
  }

  /** No exclusion and no exception parent touches a generated site. */
  ghost predicate GeneratedUntouched(policy: Policy, nodes: seq<GNode>) {
    forall i :: 0 <= i < |nodes| ==>
      && GenName(nodes[i].displayName) !in policy.excludeSites
      && GenId(nodes[i].id) !in policy.exceptionCpes && GenName(nodes[i].displayName) !in policy.exceptionCpes
  }

  lemma UntouchedStays(policy: Policy, a: seq<GNode>, b: seq<GNode>)
    requires GeneratedUntouched(policy, a) && |a| == |b|
    requires forall i :: 0 <= i < |a| ==> a[i].id == b[i].id && a[i].displayName == b[i].displayName
    ensures GeneratedUntouched(policy, b)
  {
    forall i | 0 <= i < |b|
      ensures GenName(b[i].displayName) !in policy.excludeSites
      ensures GenId(b[i].id) !in policy.exceptionCpes && GenName(b[i].displayName) !in policy.exceptionCpes
    {
      assert a[i].id == b[i].id;
    }
  }

  lemma {:induction false} AddedUntouched(policy: Policy, before: seq<GNode>, k: nat)
    requires k <= |before| && GeneratedUntouched(policy, before)
    ensures Added(policy, GenSites(before, k)) == GenSites(before, k)
  {
    if k == 0 {
    } else {
      AddedUntouched(policy, before, k - 1);
      AddedStep(policy, before, k);
    }
  }

  /** The first i nodes are promoted, the others as before. */
  ghost predicate PromotedUpTo(before: seq<GNode>, nodes: seq<GNode>, i: nat) {
    && |nodes| == |before|
    && (forall j :: 0 <= j < |nodes| ==> nodes[j] == if j < i then PromotedNode(before, j) else before[j])
    && (forall j :: 0 <= j < |nodes| ==> nodes[j].kind.Device? == before[j].kind.Device?)
  }

  lemma PromoteStep(before: seq<GNode>, nodes: seq<GNode>, i: nat)
    requires i < |before| && PromotedUpTo(before, nodes, i)
    ensures PromotedUpTo(before, nodes[i := PromotedNode(before, i)], i + 1)
    ensures nodes[i] == before[i]
    ensures nodes[i := nodes[i]] == nodes
  {
  }

  lemma PromotedAll(before: seq<GNode>, nodes: seq<GNode>)
    requires PromotedUpTo(before, nodes, |before|)
    ensures nodes == Promoted(before)
    ensures forall i :: 0 <= i < |before| ==>
      before[i].parentIndex == nodes[i].parentIndex && before[i].id == nodes[i].id
  {
  }

  lemma {:induction false} KindsKeepChildrenUpTo(a: seq<GNode>, b: seq<GNode>, p: int, k: nat)
    requires |a| == |b| && k <= |a| && forall i :: 0 <= i < |a| ==> a[i].parentIndex == b[i].parentIndex
    ensures ChildrenUpTo(a, p, k) == ChildrenUpTo(b, p, k)
  {
    if k == 0 {
    } else {
      KindsKeepChildrenUpTo(a, b, p, k - 1);
      assert a[k - 1].parentIndex == b[k - 1].parentIndex;
    }
  }

  /** A cache stays right as long as no parent index changes. */
  lemma CacheStays(cache: map<int, seq<nat>>, a: seq<GNode>, b: seq<GNode>)
    requires |a| == |b| && forall i :: 0 <= i < |a| ==> a[i].parentIndex == b[i].parentIndex
    ensures CachesUpTo(cache, a, |a|) ==> CachesUpTo(cache, b, |b|)
  {
    forall p ensures ChildrenUpTo(a, p, |a|) == ChildrenUpTo(b, p, |b|) {
      KindsKeepChildrenUpTo(a, b, p, |a|);
    }
  }

  /** An index stays right as long as no id changes. */
  lemma IndexStays(index: map<string, nat>, a: seq<GNode>, b: seq<GNode>)
    requires |a| == |b| && forall i :: 0 <= i < |a| ==> a[i].id == b[i].id
    ensures IndexSound(a, index) ==> IndexSound(b, index)
    ensures IndexComplete(a, index) ==> IndexComplete(b, index)
  {
  }

  // ----- Loop invariants of the conversion and the lift -----

  /** The converted nodes below i are clients of their own generated site; moves are still pending. */
  ghost predicate ConvertingUpTo(before: seq<GNode>, nodes: seq<GNode>, i: nat) {
    |nodes| == |before| && forall j :: 0 <= j < |nodes| ==>
      nodes[j] == if j < i && before[j].kind.ClientWithChildren?
                  then before[j].(parentId := GenId(before[j].id), kind := Client) else before[j]
  }

  lemma ConvertStep(before: seq<GNode>, nodes: seq<GNode>, i: nat)
    requires i < |before| && ConvertingUpTo(before, nodes, i) && before[i].kind.ClientWithChildren?
    ensures ConvertingUpTo(before, nodes[i := before[i].(parentId := GenId(before[i].id), kind := Client)], i + 1)
  {
  }

  lemma SkipStep(before: seq<GNode>, nodes: seq<GNode>, moves: map<nat, string>, i: nat)
    requires i < |before| && ConvertingUpTo(before, nodes, i) && MovesUpTo(before, moves, i)
    requires !before[i].kind.ClientWithChildren?
    ensures ConvertingUpTo(before, nodes, i + 1) && MovesUpTo(before, moves, i + 1)
  {
  }

  /** Exactly the topology children of converted nodes below i move, each to its parent's generated site. */
  ghost predicate MovesUpTo(before: seq<GNode>, moves: map<nat, string>, i: nat) {
    && (forall c :: c in moves <==>
          && 0 <= c < |before| && Topology(before[c].kind)
          && before[c].parentIndex < i && IsCwc(before, before[c].parentIndex))
    && (forall c :: c in moves ==> moves[c] == GenId(before[before[c].parentIndex].id))
  }

  function MovedNode(n: GNode, moves: map<nat, string>, c: nat): (r: GNode) {
    if c in moves then n.(parentId := moves[c]) else n
  }

  lemma MovesComplete(before: seq<GNode>, converting: seq<GNode>, added: seq<GNode>, moves: map<nat, string>,
                      done: seq<GNode>)
    requires ConvertingUpTo(before, converting, |before|) && MovesUpTo(before, moves, |before|)
    requires |done| == |converting + added|
    requires forall c :: 0 <= c < |done| ==> done[c] == MovedNode((converting + added)[c], moves, c)
    ensures done == ConvertedNodes(before) + added
  {
    forall c | 0 <= c < |before| ensures done[c] == ConvertedNode(before, c) {
      assert (converting + added)[c] == converting[c];
    }
    forall c | |before| <= c < |done| ensures done[c] == added[c - |before|] {
      assert c !in moves;
    }
  }

  ghost predicate LiftsUpTo(nodes: seq<GNode>, moves: map<nat, string>, i: nat) {
    && (forall c :: c in moves <==>
      0 <= c < |nodes| && Topology(nodes[c].kind) && nodes[c].parentIndex < i && LiftsFrom(nodes, nodes[c].parentIndex))
    && (forall c :: c in moves ==> moves[c] == nodes[nodes[c].parentIndex].parentId)
  }

  lemma LiftsComplete(nodes: seq<GNode>, moves: map<nat, string>)
    requires LiftsUpTo(nodes, moves, |nodes|)
    ensures forall c :: 0 <= c < |nodes| ==> MovedNode(nodes[c], moves, c) == LiftedNode(nodes, c)
    ensures moves == map[] ==> Lifted(nodes) == nodes
  {
  }

  // ----- Hanging loose nodes on the root -----

  /** Among the first k nodes, the loose ones of this kind hang on the root; the rest is as before. */
  ghost predicate HungUpTo(a: seq<GNode>, b: seq<GNode>, loose: set<int>, kind: Kind, k: nat) {
    |a| == |b| && forall j :: 0 <= j < |b| ==>
      b[j] == if j < k && j in loose && a[j].kind == kind then a[j].(parentIndex := 0) else a[j]
  }

  lemma HungThrice(a: seq<GNode>, b: seq<GNode>, c: seq<GNode>, d: seq<GNode>, loose: set<int>)
    requires HungUpTo(a, b, loose, Site, |b|) && HungUpTo(b, c, loose, ClientWithChildren, |c|)
    requires HungUpTo(c, d, loose, Client, |d|)
    ensures d == Reconnected(a, loose)
  {
    forall j | 0 <= j < |a| ensures d[j] == ReconnectedNode(a[j], j in loose) {
      assert b[j] == ReconnectedNode(a[j], j in loose && a[j].kind.Site?);
    }
  }

  // ----- The walk from the root -----

  ghost predicate Walked(nodes: seq<GNode>, visited: set<int>, next: seq<int>) {
    && (forall v :: v in visited || v in next ==> (v == 0 || 0 <= v < |nodes|) && Connected(nodes, v))
    && (0 in visited || 0 in next)
    && (forall v, c :: v in visited && 0 <= c < |nodes| && nodes[c].parentIndex == v ==> c in visited || c in next)
  }

  lemma PopVisited(nodes: seq<GNode>, visited: set<int>, rest: seq<int>, current: int)
    requires Walked(nodes, visited, rest + [current]) && current in visited
    ensures Walked(nodes, visited, rest)
  {
    assert forall x :: x in rest ==> x in rest + [current];
  }

  lemma Advance(nodes: seq<GNode>, visited: set<int>, rest: seq<int>, current: int, next: seq<int>)
    requires Walked(nodes, visited, rest + [current]) && current !in visited
    requires forall x :: x in next <==> x in rest || (x in ChildrenOf(nodes, current) && x !in visited + {current})
    ensures Walked(nodes, visited + {current}, next)
  {
    assert current in rest + [current];
    forall v | v in next ensures (v == 0 || 0 <= v < |nodes|) && Connected(nodes, v) {
      if v in rest {
        assert v in rest + [current];
      } else {
        ChildConnected(nodes, v);
      }
    }
    assert forall x :: x in rest ==> x in rest + [current];
  }

  lemma WalkDone(nodes: seq<GNode>, visited: set<int>)
    requires Walked(nodes, visited, [])
    ensures forall i :: 0 <= i < |nodes| ==> (i in visited <==> Connected(nodes, i))
  {
    forall i | 0 <= i < |nodes| && Connected(nodes, i) ensures i in visited {
      var k: nat :| ReachesIn(nodes, i, k);
      ClosedHoldsConnected(nodes, visited, i, k);
    }
  }

  // ----- The passes in sequence -----

  lemma ReparentedIsUpToDate(nodes: seq<GNode>, index: map<string, nat>)
    requires nodes != [] && IndexSound(nodes, index) && IndexComplete(nodes, index)
    ensures SameButIndex(nodes, Reparented(nodes, index, {})) && UpToDate(Reparented(nodes, index, {}))
  {
    var r := Reparented(nodes, index, {});
    forall i | 0 <= i < |nodes| ensures Resolves(r, r[i].parentId, r[i].parentIndex) {
      ReparentResolves(nodes, index, i);
      ResolvesSame(nodes, r, nodes[i].parentId, r[i].parentIndex);
    }
  }

  lemma IdsStay(a: seq<GNode>, b: seq<GNode>)
    requires UniqueIds(a) && FreshGenIds(a) && |a| == |b| && forall i :: 0 <= i < |a| ==> a[i].id == b[i].id
    ensures UniqueIds(b) && FreshGenIds(b)
  {
  }

  lemma PromotedIsReady(n0: seq<GNode>, index: map<string, nat>)
    requires n0 != [] && IndexSound(n0, index) && IndexComplete(n0, index) && UniqueIds(n0) && FreshGenIds(n0)
    ensures ReadyToConvert(Promoted(Reparented(n0, index, {})))
  {
    var n1 := Reparented(n0, index, {});
    var n2 := Promoted(n1);
    ReparentedIsUpToDate(n0, index);
    IdsStay(n0, n2);
    forall i | 0 <= i < |n2| ensures Resolves(n2, n2[i].parentId, n2[i].parentIndex) {
      ResolvesSame(n1, n2, n1[i].parentId, n1[i].parentIndex);
    }
    forall i | 0 <= i < |n2| && n2[i].kind.Client? ensures !HasNonDeviceChild(n2, i) {
      assert !HasNonDeviceChild(n1, i);
    }
  }

  /** Reparent and promote, convert, lift: the node lists in between. */
  ghost predicate FourSteps(policy: Policy, n0: seq<GNode>, index0: map<string, nat>, n2: seq<GNode>, mid: seq<GNode>,
                            done: seq<GNode>,
                            index: map<string, nat>) {
    && n0 != [] && IndexSound(n0, index0) && IndexComplete(n0, index0) && UniqueIds(n0) && FreshGenIds(n0)
    && n2 == Promoted(Reparented(n0, index0, policy.rootList))
    && IndexSound(ConvertedBy(policy, n2), index) && mid == Reparented(ConvertedBy(policy, n2), index, policy.rootList)
    && IndexComplete(mid, index) && IndexSound(Lifted(mid), index)
    && ((done == mid && Lifted(mid) == mid) || done == Reparented(Lifted(mid), index, policy.rootList))
  }

  lemma PreparedUntouched(policy: Policy, n0: seq<GNode>, index0: map<string, nat>, n2: seq<GNode>, mid: seq<GNode>,
                          done: seq<GNode>,
                          index: map<string, nat>)
    requires FourSteps(policy, n0, index0, n2, mid, done, index)
    ensures GeneratedUntouched(policy, n0) && policy.rootList == {} ==> ClientsAreLeaves(done)
  {
    if GeneratedUntouched(policy, n0) && policy.rootList == {} {
      PromotedIsReady(n0, index0);
      UntouchedStays(policy, n0, n2);
      AddedUntouched(policy, n2, |n2|);
      PipelineClean(n2, mid, done, index);
    }
  }

  /** The four steps from any start with a root that is no client. */
  lemma PreparedUnder(policy: Policy, n0: seq<GNode>, index0: map<string, nat>, n2: seq<GNode>, mid: seq<GNode>,
                      done: seq<GNode>,
                      index: map<string, nat>)
    requires FourSteps(policy, n0, index0, n2, mid, done, index)
    ensures !n0[0].kind.Client? && !n0[0].kind.ClientWithChildren? ==>
      (ClientsAreLeaves(done) <==> !Trapped(policy, n2))
  {
    if !n0[0].kind.Client? && !n0[0].kind.ClientWithChildren? {
      StepsArePipeline(policy, n0, index0, n2, mid, done, index);
      ClientsAreLeavesIff(policy, n2, index, mid, done);
    }
  }

  lemma StepsArePipeline(policy: Policy, n0: seq<GNode>, index0: map<string, nat>, n2: seq<GNode>, mid: seq<GNode>,
                         done: seq<GNode>, index: map<string, nat>)
    requires FourSteps(policy, n0, index0, n2, mid, done, index) && !RelaySites.Clientish(n0[0])
    ensures ReadyUnder(policy.rootList, n2) && Pipeline(policy, n2, index, mid, done)
  {
    PromotedIsReadyUnder(policy.rootList, n0, index0);
    CompleteStays(mid, ConvertedBy(policy, n2), index);
    if done == mid { ReparentedAgain(ConvertedBy(policy, n2), index, policy.rootList); }
  }

  /** Nothing is cut off and ancestors stay, for the four steps from such a start. */
  lemma PreparedPlaces(policy: Policy, n0: seq<GNode>, index0: map<string, nat>, n2: seq<GNode>, mid: seq<GNode>,
                       done: seq<GNode>, index: map<string, nat>)
    requires FourSteps(policy, n0, index0, n2, mid, done, index)
    ensures !RelaySites.Clientish(n0[0]) && RelaySites.FreshParentIds(n0) ==> RelaySites.KeepsPlaces(policy, n2, done)
  {
    if !RelaySites.Clientish(n0[0]) && RelaySites.FreshParentIds(n0) {
      StepsArePipeline(policy, n0, index0, n2, mid, done, index);
      ParentIdsStayFresh(n0, n2);
      RelaySites.PreparationKeepsPlaces(policy, n2, index, mid, done);
    }
  }

  lemma ParentIdsStayFresh(a: seq<GNode>, b: seq<GNode>)
    requires |a| == |b| && forall i :: 0 <= i < |a| ==> a[i].id == b[i].id && a[i].parentId == b[i].parentId
    requires RelaySites.FreshParentIds(a)
    ensures RelaySites.FreshParentIds(b)
  {
    forall i, j | 0 <= i < |b| && 0 <= j < |b| ensures b[i].parentId != GenId(b[j].id) {
      assert a[i].parentId != GenId(a[j].id);
    }
  }

  lemma ReparentedAgain(nodes: seq<GNode>, index: map<string, nat>, roots: set<string>)
    requires IndexSound(nodes, index) && IndexSound(Reparented(nodes, index, roots), index)
    ensures Reparented(Reparented(nodes, index, roots), index, roots) == Reparented(nodes, index, roots)
  {
  }

  lemma PromotedIsReadyUnder(roots: set<string>, n0: seq<GNode>, index: map<string, nat>)
    requires n0 != [] && IndexSound(n0, index) && IndexComplete(n0, index) && UniqueIds(n0) && FreshGenIds(n0)
    requires !n0[0].kind.Client? && !n0[0].kind.ClientWithChildren?
    ensures ReadyUnder(roots, Promoted(Reparented(n0, index, roots)))
  {
    var n1 := Reparented(n0, index, roots);
    var n2 := Promoted(n1);
    ReparentedIsIndexed(n0, index, roots);
    IdsStay(n0, n2);
    IndexedStays(n1, n2, roots);
    forall i | 0 <= i < |n2| && n2[i].kind.Client? ensures !HasNonDeviceChild(n2, i) {
      assert !HasNonDeviceChild(n1, i);
    }
  }

  lemma IndexedStays(a: seq<GNode>, b: seq<GNode>, roots: set<string>)
    requires Indexed(a, roots) && |a| == |b| && forall i :: 0 <= i < |a| ==> b[i] == a[i].(kind := b[i].kind)
    ensures Indexed(b, roots)
  {
    forall c | 0 <= c < |b| ensures Leads(b, roots, b[c].parentId, b[c].parentIndex) {
      assert Leads(a, roots, a[c].parentId, a[c].parentIndex);
    }
    forall c, p | 0 <= c < |b| && Leads(b, roots, b[c].parentId, p) && p != 0 ensures b[c].parentIndex == p {
      assert Leads(a, roots, a[c].parentId, p);
    }
  }

  /** Convert, recompute, lift, recompute: the conclusion for every node. */
  lemma PipelineClean(n2: seq<GNode>, mid: seq<GNode>, done: seq<GNode>, index: map<string, nat>)
    requires ReadyToConvert(n2)
    requires IndexSound(Converted(n2), index) && mid == Reparented(Converted(n2), index, {})
    requires IndexComplete(mid, index)
    requires IndexSound(Lifted(mid), index)
    requires (done == mid && Lifted(mid) == mid) || done == Reparented(Lifted(mid), index, {})
    ensures ClientsAreLeaves(done)
  {
    CompleteStays(mid, Converted(n2), index);
    CompleteStays(mid, Lifted(mid), index);
    ReparentedIsUpToDate(Converted(n2), index);
    if done != mid { ReparentedIsUpToDate(Lifted(mid), index); }
    forall c | 0 <= c < |done| && Topology(done[c].kind)
      ensures 0 <= done[c].parentIndex < |done| && !done[done[c].parentIndex].kind.Client?
    {
      NoTopologyBelowClients(n2, mid, done, c);
    }
  }

  lemma CompleteStays(a: seq<GNode>, b: seq<GNode>, index: map<string, nat>)
    requires IndexComplete(a, index) && |a| == |b| && forall i :: 0 <= i < |a| ==> a[i].id == b[i].id
    ensures IndexComplete(b, index)
  {
  }

  function Indices(n: nat): (r: set<int>)
    ensures forall i :: i in r <==> 0 <= i < n
  {
    if n == 0 then {} else Indices(n - 1) + {n - 1}
  }

  lemma {:induction false} KeptAll(nodes: seq<GNode>, k: nat)
    requires k <= |nodes|
    ensures |Kept(nodes, k)| <= k
    ensures |Kept(nodes, k)| == k ==> Kept(nodes, k) == nodes[..k]
  {
    if k == 0 {
    } else {
      KeptAll(nodes, k - 1);
      assert nodes[..k] == nodes[..k - 1] + [nodes[k - 1]];
    }
  }
}
