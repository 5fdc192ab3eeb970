/**
 * The last step of the preparation: devices without an address and clients without a device go,
 * and the rest is hung by its parent ids again. What this leaves, and what it undoes.
 */
module Pruning {
  import opened GraphPasses
  import RelaySites

  /** Where a device's index leads agrees with its parent id. */
  ghost predicate DevicesIndexed(nodes: seq<GNode>, roots: set<string>) {
    forall c :: 0 <= c < |nodes| && nodes[c].kind.Device? ==> DeviceIndexed(nodes, roots, nodes[c])
  }

  ghost predicate DeviceIndexed(nodes: seq<GNode>, roots: set<string>, n: GNode) {
    && Leads(nodes, roots, n.parentId, n.parentIndex)
    && forall p :: p != 0 && Leads(nodes, roots, n.parentId, p) ==> n.parentIndex == p
  }

  /** The two reasons for a node to go, read off the graph. */
  predicate Goes(nodes: seq<GNode>, n: GNode, i: int) {
    || (n.kind.Device? && n.ips == 0)
    || (n.kind.Client? && forall c :: 0 <= c < |nodes| && nodes[c].parentIndex == i ==>
          !nodes[c].kind.Device? || nodes[c].ips == 0)
  }

  /** The same node, apart from its place. */
  predicate SameApartFromPlace(n: GNode, m: GNode) {
    m == n.(parentIndex := m.parentIndex)
  }

  ghost predicate Survives(after: seq<GNode>, n: GNode) {
    exists j :: 0 <= j < |after| && SameApartFromPlace(n, after[j])
  }

  /** Exactly the nodes with a reason are gone, and nothing new is there. */
  ghost predicate LosesExactly(before: seq<GNode>, after: seq<GNode>) {
    && (forall i :: 0 <= i < |before| ==> (Survives(after, before[i]) <==> !Goes(before, before[i], i)))
    && (forall j :: 0 <= j < |after| ==> Survives(before, after[j]))
  }

  /** Every device has an address, every client a device that has one. */
  ghost predicate AllShapable(nodes: seq<GNode>) {
    && (forall i :: 0 <= i < |nodes| && nodes[i].kind.Device? ==> nodes[i].ips > 0)
    && (forall i :: 0 <= i < |nodes| && nodes[i].kind.Client? ==>
          exists c :: 0 <= c < |nodes| && nodes[c].parentIndex == i && nodes[c].kind.Device? && nodes[c].ips > 0)
  }

  lemma GoesIsRemovable(nodes: seq<GNode>, i: nat)
    requires i < |nodes|
    ensures Goes(nodes, nodes[i], i) <==> Removable(nodes, i)
  {
  }

  lemma {:induction false} KeptAre(nodes: seq<GNode>, k: nat)
    requires k <= |nodes|
    ensures forall g :: g in Kept(nodes, k) ==> exists i :: 0 <= i < k && g == nodes[i] && !Removable(nodes, i)
    ensures forall i :: 0 <= i < k && !Removable(nodes, i) ==> nodes[i] in Kept(nodes, k)
  {
    if k == 0 {
    } else {
      KeptAre(nodes, k - 1);
      var less := Kept(nodes, k - 1);
      forall i | 0 <= i < k && !Removable(nodes, i) ensures nodes[i] in Kept(nodes, k) {
        if i < k - 1 { assert nodes[i] in less; }
      }
      forall g | g in Kept(nodes, k) ensures exists i :: 0 <= i < k && g == nodes[i] && !Removable(nodes, i) {
        if g !in less { assert g == nodes[k - 1] && !Removable(nodes, k - 1); }
      }
    }
  }

  lemma {:induction false} KeptStayUnique(nodes: seq<GNode>, k: nat)
    requires k <= |nodes| && UniqueIds(nodes)
    ensures UniqueIds(Kept(nodes, k))
  {
    if k == 0 {
    } else {
      KeptStayUnique(nodes, k - 1);
      KeptAre(nodes, k - 1);
      var less := Kept(nodes, k - 1);
      forall j | 0 <= j < |less| ensures less[j].id != nodes[k - 1].id {
        assert less[j] in less;
        var i :| 0 <= i < k - 1 && less[j] == nodes[i] && !Removable(nodes, i);
      }
    }
  }

  lemma {:induction false} RootIsKept(nodes: seq<GNode>, k: nat)
    requires 0 < k <= |nodes| && !Removable(nodes, 0)
    ensures Kept(nodes, k) != [] && Kept(nodes, k)[0] == nodes[0]
  {
    if k > 1 { RootIsKept(nodes, k - 1); }
  }

  lemma KeptAt(nodes: seq<GNode>, i: nat) returns (j: nat)
    requires i < |nodes| && !Removable(nodes, i)
    ensures j < |Kept(nodes, |nodes|)| && Kept(nodes, |nodes|)[j] == nodes[i]
  {
    KeptAre(nodes, |nodes|);
    var kept := Kept(nodes, |nodes|);
    j :| 0 <= j < |kept| && kept[j] == nodes[i];
  }

  lemma KeptFrom(nodes: seq<GNode>, j: nat) returns (i: nat)
    requires j < |Kept(nodes, |nodes|)|
    ensures i < |nodes| && Kept(nodes, |nodes|)[j] == nodes[i] && !Removable(nodes, i)
  {
    KeptAre(nodes, |nodes|);
    var kept := Kept(nodes, |nodes|);
    assert kept[j] in kept;
    i :| 0 <= i < |nodes| && kept[j] == nodes[i] && !Removable(nodes, i);
  }

  /** A device of a kept client is hung below that client again. */
  lemma DeviceFollows(nodes: seq<GNode>, index: map<string, nat>, roots: set<string>, c: nat, j: nat)
    requires UniqueIds(nodes) && c < |nodes| && DeviceIndexed(nodes, roots, nodes[c])
    requires var kept := Kept(nodes, |nodes|);
      && IndexSound(kept, index) && IndexComplete(kept, index) && j < |kept|
      && kept[j] == nodes[nodes[c].parentIndex] && !Removable(nodes, nodes[c].parentIndex)
    ensures ParentOf(Kept(nodes, |nodes|), index, roots, nodes[c]) == j
  {
    var kept, i, pid := Kept(nodes, |nodes|), nodes[c].parentIndex, nodes[c].parentId;
    KeptStayUnique(nodes, |nodes|);
    if i != 0 {
      assert kept[j].id == pid && kept[j].displayName !in roots;
      IndexIsLinearSearch(kept, index, pid, j);
    } else {
      RootIsKept(nodes, |nodes|);
      SameIdSameNode(kept, 0, j);
      if pid != "" && pid in index {
        var p := KeptFrom(nodes, index[pid]);
        assert kept[index[pid]].id == pid;
        if nodes[p].displayName !in roots {
          assert p == 0 || Leads(nodes, roots, pid, p);
          SameIdSameNode(kept, 0, index[pid]);
        }
      }
    }
  }

  lemma KeptClientIsShapable(nodes: seq<GNode>, index: map<string, nat>, roots: set<string>, j: nat)
    requires UniqueIds(nodes) && DevicesIndexed(nodes, roots)
    requires var kept := Kept(nodes, |nodes|);
      IndexSound(kept, index) && IndexComplete(kept, index) && j < |kept| && kept[j].kind.Client?
    ensures HasShapableDevice(Reparented(Kept(nodes, |nodes|), index, roots), j)
  {
    var kept := Kept(nodes, |nodes|);
    var i := KeptFrom(nodes, j);
    var c :| 0 <= c < |nodes| && nodes[c].parentIndex == i && nodes[c].kind.Device? && nodes[c].ips > 0;
    var l := KeptAt(nodes, c);
    DeviceFollows(nodes, index, roots, c, j);
    assert Reparented(kept, index, roots)[l].parentIndex == j;
  }

  /** What pruning leaves: exactly the nodes without a reason to go, all of them shapable. */
  lemma PrunedIsShapable(nodes: seq<GNode>, index: map<string, nat>, roots: set<string>)
    requires UniqueIds(nodes) && DevicesIndexed(nodes, roots)
    requires IndexSound(Kept(nodes, |nodes|), index) && IndexComplete(Kept(nodes, |nodes|), index)
    ensures AllShapable(Reparented(Kept(nodes, |nodes|), index, roots))
  {
    var kept := Kept(nodes, |nodes|);
    var after := Reparented(kept, index, roots);
    forall j | 0 <= j < |after| && after[j].kind.Device? ensures after[j].ips > 0 {
      var i := KeptFrom(nodes, j);
    }
    forall j | 0 <= j < |after| && after[j].kind.Client? ensures HasShapableDevice(after, j) {
      KeptClientIsShapable(nodes, index, roots, j);
    }
  }

  lemma SurvivorIsKept(nodes: seq<GNode>, i: nat, j: nat)
    requires UniqueIds(nodes) && i < |nodes| && j < |Kept(nodes, |nodes|)|
    requires Kept(nodes, |nodes|)[j].id == nodes[i].id
    ensures !Removable(nodes, i)
  {
    var l := KeptFrom(nodes, j);
    SameIdSameNode(nodes, i, l);
  }

  lemma PrunedLosesExactly(nodes: seq<GNode>, index: map<string, nat>, roots: set<string>)
    requires UniqueIds(nodes) && IndexSound(Kept(nodes, |nodes|), index)
    ensures LosesExactly(nodes, Reparented(Kept(nodes, |nodes|), index, roots))
  {
    var kept := Kept(nodes, |nodes|);
    var after := Reparented(kept, index, roots);
    forall i | 0 <= i < |nodes| ensures Survives(after, nodes[i]) <==> !Goes(nodes, nodes[i], i) {
      GoesIsRemovable(nodes, i);
      if !Removable(nodes, i) {
        var j := KeptAt(nodes, i);
        assert SameApartFromPlace(nodes[i], after[j]);
      }
      if Survives(after, nodes[i]) {
        var j :| 0 <= j < |after| && SameApartFromPlace(nodes[i], after[j]);
        SurvivorIsKept(nodes, i, j);
      }
    }
    forall j | 0 <= j < |after| ensures Survives(nodes, after[j]) {
      var i := KeptFrom(nodes, j);
      assert SameApartFromPlace(after[j], nodes[i]);
    }
  }

  lemma NothingRemovable(nodes: seq<GNode>)
    requires UniqueIds(nodes) && Kept(nodes, |nodes|) == nodes
    ensures AllShapable(nodes) && LosesExactly(nodes, nodes)
  {
    forall i | 0 <= i < |nodes|
      ensures nodes[i].kind.Device? ==> nodes[i].ips > 0
      ensures nodes[i].kind.Client? ==> HasShapableDevice(nodes, i)
      ensures Survives(nodes, nodes[i]) && !Goes(nodes, nodes[i], i)
    {
      SurvivorIsKept(nodes, i, i);
      GoesIsRemovable(nodes, i);
      assert SameApartFromPlace(nodes[i], nodes[i]);
    }
  }

  // ----- Pruning undoes the reconnection -----

  /**
   * Two sites that name each other as parent are unreachable, and the reconnection hangs them on
   * the root. Pruning anything hangs every node by its parent id again, and cuts them off again.
   */
  lemma PruningCutsOffAgain(nodes: seq<GNode>, loose: set<int>, index: map<string, nat>, roots: set<string>, a: nat,
                            b: nat)
    requires UniqueIds(nodes) && ExactlyLoose(nodes, loose) && 0 < a < |nodes| && 0 < b < |nodes|
    requires nodes[a].kind.Site? && nodes[b].kind.Site? && nodes[a].parentIndex == b && nodes[b].parentIndex == a
    requires nodes[a].parentId == nodes[b].id != "" && nodes[b].parentId == nodes[a].id != ""
    requires nodes[a].displayName !in roots && nodes[b].displayName !in roots
    requires var r := Reconnected(nodes, loose);
      var kept := Kept(r, |r|);
      !Removable(r, 0) && IndexSound(kept, index) && IndexComplete(kept, index)
    ensures var r := Reconnected(nodes, loose);
      && r[a].parentIndex == 0 && r[b].parentIndex == 0
      && var after := Reparented(Kept(r, |r|), index, roots);
         exists i :: 0 <= i < |after| && after[i].id == nodes[a].id && !Connected(after, i)
  {
    forall k: nat ensures !ReachesIn(nodes, a, k) && !ReachesIn(nodes, b, k) { RelaySites.LoopIsLoose(nodes, a, b, k); }
    var r := Reconnected(nodes, loose);
    var kept := Kept(r, |r|);
    var after := Reparented(kept, index, roots);
    var i := KeptAt(r, a);
    var j := KeptAt(r, b);
    KeptStayUnique(r, |r|);
    RootIsKept(r, |r|);
    assert r[0].id == nodes[0].id && r[a].id == nodes[a].id && r[b].id == nodes[b].id;
    IndexIsLinearSearch(kept, index, nodes[a].id, i);
    IndexIsLinearSearch(kept, index, nodes[b].id, j);
    forall k: nat ensures !ReachesIn(after, i, k) { RelaySites.LoopIsLoose(after, i, j, k); }
  }
}
