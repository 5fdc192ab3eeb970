/**
 * The integration graph as a value: what the reparent, promote, convert, lift and reconnect
 * passes do to the list of nodes, and what they guarantee together.
 */
module GraphPasses {
  datatype Kind = Root | Site | Ap | Client | ClientWithChildren | Device

  datatype GNode = GNode(id: string, displayName: string, parentId: string, parentIndex: int, kind: Kind, ips: nat)

  /** The operator's settings: names never added, parents for nodes without one, parents read as the root. */
  datatype Policy = Policy(excludeSites: set<string>, exceptionCpes: map<string, string>, rootList: set<string>)

  predicate Topology(k: Kind) {
    k.Client? || k.ClientWithChildren? || k.Site?
  }

  // ----- Children -----

  /** Indices below k whose parentIndex is p, ascending. */
  function ChildrenUpTo(nodes: seq<GNode>, p: int, k: nat): (r: seq<nat>)
    requires k <= |nodes|
    ensures forall c :: c in r <==> 0 <= c < k && nodes[c].parentIndex == p
    ensures forall i, j :: 0 <= i < j < |r| ==> r[i] < r[j]
  {
    if k == 0 then []
    else
      var less := ChildrenUpTo(nodes, p, k - 1);
      assert forall i :: 0 <= i < |less| ==> less[i] in less;
      if nodes[k - 1].parentIndex == p then less + [k - 1] else less
  }

  function ChildrenOf(nodes: seq<GNode>, p: int): (r: seq<nat>) {
    ChildrenUpTo(nodes, p, |nodes|)
  }

  // ----- Reparenting by id -----

  /** Where a parentId leads: to the node with that id, or to the root when it is empty or unknown. */
  predicate Resolves(nodes: seq<GNode>, parentId: string, q: int) {
    && 0 <= q < |nodes|
    && if parentId != "" && nodes[q].id == parentId then true
       else q == 0 && (parentId == "" || forall i :: 0 <= i < |nodes| ==> nodes[i].id != parentId)
  }

  ghost predicate UniqueIds(nodes: seq<GNode>) {
    forall i, j :: 0 <= i < j < |nodes| ==> nodes[i].id != nodes[j].id
  }

  /** Every entry of the id index points at a node with that id. */
  ghost predicate IndexSound(nodes: seq<GNode>, index: map<string, nat>) {
    forall k :: k in index ==> index[k] < |nodes| && nodes[index[k]].id == k
  }

  /** Every node's id is in the index. */
  ghost predicate IndexComplete(nodes: seq<GNode>, index: map<string, nat>) {
    forall i :: 0 <= i < |nodes| ==> nodes[i].id in index
  }

  function ParentOf(nodes: seq<GNode>, index: map<string, nat>, rootList: set<string>, n: GNode): (q: int)
    requires IndexSound(nodes, index)
  {
    if n.parentId == "" || n.parentId !in index then 0
    else if nodes[index[n.parentId]].displayName in rootList then 0
    else index[n.parentId]
  }

  function Reparented(nodes: seq<GNode>, index: map<string, nat>, rootList: set<string>): (r: seq<GNode>)
    requires IndexSound(nodes, index)
    ensures |r| == |nodes|
    ensures forall i :: 0 <= i < |nodes| ==>
      r[i] == nodes[i].(parentIndex := ParentOf(nodes, index, rootList, nodes[i]))
  {
    seq(|nodes|, i requires 0 <= i < |nodes| => nodes[i].(parentIndex := ParentOf(nodes, index, rootList, nodes[i])))
  }

  /** Without promoted roots the index lookup agrees with a search for the id. */
  lemma ReparentResolves(nodes: seq<GNode>, index: map<string, nat>, i: nat)
    requires nodes != [] && i < |nodes| && IndexSound(nodes, index) && IndexComplete(nodes, index)
    ensures Resolves(nodes, nodes[i].parentId, Reparented(nodes, index, {})[i].parentIndex)
  {
    var pid := nodes[i].parentId;
    if pid !in index {
      forall j | 0 <= j < |nodes| ensures nodes[j].id != pid {
        assert nodes[j].id in index;
      }
    }
  }

  /** Agreement with a linear search: with unique ids the index names the one node with that id. */
  lemma IndexIsLinearSearch(nodes: seq<GNode>, index: map<string, nat>, id: string, i: nat)
    requires UniqueIds(nodes) && IndexSound(nodes, index) && IndexComplete(nodes, index)
    requires i < |nodes| && nodes[i].id == id
    ensures id in index && index[id] == i
  {
    assert nodes[index[id]].id == id;
  }

  // ----- Promotion and conversion of clients with children -----

  predicate HasNonDeviceChild(nodes: seq<GNode>, i: int) {
    exists c :: 0 <= c < |nodes| && nodes[c].parentIndex == i && !nodes[c].kind.Device?
  }

  function PromotedNode(nodes: seq<GNode>, i: nat): (r: GNode)
    requires i < |nodes|
  {
    if nodes[i].kind.Client? && HasNonDeviceChild(nodes, i) then nodes[i].(kind := ClientWithChildren) else nodes[i]
  }

  function Promoted(nodes: seq<GNode>): (r: seq<GNode>)
    ensures |r| == |nodes| && forall i :: 0 <= i < |nodes| ==> r[i] == PromotedNode(nodes, i)
  {
    seq(|nodes|, i requires 0 <= i < |nodes| => PromotedNode(nodes, i))
  }

  function GenId(id: string): (r: string) {
    id + "_gen"
  }

  function GenName(name: string): (r: string) {
    "(Generated Site) " + name
  }

  function GenSite(n: GNode): (r: GNode) {
    GNode(GenId(n.id), GenName(n.displayName), n.parentId, n.parentIndex, Site, 0)
  }

  predicate IsCwc(nodes: seq<GNode>, p: int) {
    0 <= p < |nodes| && nodes[p].kind.ClientWithChildren?
  }

  /**
   * An old node after the conversion: a converted node turns client, a topology child of one
   * moves to its generated site.
   */
  function ConvertedNode(nodes: seq<GNode>, i: nat): (r: GNode)
    requires i < |nodes|
  {
    var n := nodes[i];
    var kind := if n.kind.ClientWithChildren? then Client else n.kind;
    var parentId := if IsCwc(nodes, n.parentIndex) && Topology(n.kind) then GenId(nodes[n.parentIndex].id)
                    else if n.kind.ClientWithChildren? then GenId(n.id) else n.parentId;
    n.(kind := kind, parentId := parentId)
  }

  function ConvertedNodes(nodes: seq<GNode>): (r: seq<GNode>)
    ensures |r| == |nodes| && forall i :: 0 <= i < |nodes| ==> r[i] == ConvertedNode(nodes, i)
  {
    seq(|nodes|, i requires 0 <= i < |nodes| => ConvertedNode(nodes, i))
  }

  /** The generated sites, one per converted node below k, in order. */
  function GenSites(nodes: seq<GNode>, k: nat): (r: seq<GNode>)
    requires k <= |nodes|
  {
    if k == 0 then []
    else GenSites(nodes, k - 1) + if nodes[k - 1].kind.ClientWithChildren? then [GenSite(nodes[k - 1])] else []
  }

  /** The node list after conversion, before indices are recomputed. */
  function Converted(nodes: seq<GNode>): (r: seq<GNode>) {
    ConvertedNodes(nodes) + GenSites(nodes, |nodes|)
  }

  /** The parent an exception gives to a node without one. */
  function ExceptionParent(policy: Policy, n: GNode): (r: string) {
    if n.parentId != "" then n.parentId
    else if n.id in policy.exceptionCpes then policy.exceptionCpes[n.id]
    else if n.displayName in policy.exceptionCpes then policy.exceptionCpes[n.displayName]
    else ""
  }

  /** Which new nodes are really added, and with which parent. */
  function Added(policy: Policy, gens: seq<GNode>): (r: seq<GNode>) {
    if gens == [] then []
    else
      (if gens[0].displayName in policy.excludeSites then []
        else [gens[0].(parentId := ExceptionParent(policy, gens[0]))])
      + Added(policy, gens[1..])
  }

  /** The node list after conversion under the operator's settings, before indices are recomputed. */
  function ConvertedBy(policy: Policy, nodes: seq<GNode>): (r: seq<GNode>) {
    ConvertedNodes(nodes) + Added(policy, GenSites(nodes, |nodes|))
  }

  // ----- Lifting topology children out of clients -----

  predicate LiftsFrom(nodes: seq<GNode>, p: int) {
    0 <= p < |nodes| && nodes[p].kind.Client? && nodes[p].parentId != ""
  }

  function LiftedNode(nodes: seq<GNode>, i: nat): (r: GNode)
    requires i < |nodes|
  {
    if Topology(nodes[i].kind) && LiftsFrom(nodes, nodes[i].parentIndex)
    then nodes[i].(parentId := nodes[nodes[i].parentIndex].parentId)
    else nodes[i]
  }

  function Lifted(nodes: seq<GNode>): (r: seq<GNode>)
    ensures |r| == |nodes| && forall i :: 0 <= i < |nodes| ==> r[i] == LiftedNode(nodes, i)
  {
    seq(|nodes|, i requires 0 <= i < |nodes| => LiftedNode(nodes, i))
  }

  // ----- No client keeps a topology child -----

  lemma GenIdNonEmpty(a: string)
    ensures GenId(a) != ""
  {
    assert |GenId(a)| >= 4;
  }

  /** Every generated site comes from a converted node, and every converted node has one. */
  lemma {:induction false} GenSitesAre(nodes: seq<GNode>, k: nat)
    requires k <= |nodes|
    ensures forall g :: g in GenSites(nodes, k) ==> exists i :: 0 <= i < k && IsCwc(nodes, i) && g == GenSite(nodes[i])
    ensures forall i :: 0 <= i < k && IsCwc(nodes, i) ==> GenSite(nodes[i]) in GenSites(nodes, k)
  {
    if k == 0 {
    } else {
      GenSitesAre(nodes, k - 1);
      forall g | g in GenSites(nodes, k) ensures exists i :: 0 <= i < k && IsCwc(nodes, i) && g == GenSite(nodes[i]) {
        if g !in GenSites(nodes, k - 1) { assert IsCwc(nodes, k - 1) && g == GenSite(nodes[k - 1]); }
      }
      forall i | 0 <= i < k && IsCwc(nodes, i) ensures GenSite(nodes[i]) in GenSites(nodes, k) {
        if i < k - 1 { assert GenSite(nodes[i]) in GenSites(nodes, k - 1); }
      }
    }
  }

  ghost predicate FreshGenIds(nodes: seq<GNode>) {
    forall i, j :: 0 <= i < |nodes| && 0 <= j < |nodes| ==> GenId(nodes[i].id) != nodes[j].id
  }

  /** The state after the first reparent and the promotion. */
  ghost predicate ReadyToConvert(nodes: seq<GNode>) {
    && nodes != [] && UniqueIds(nodes) && FreshGenIds(nodes)
    && (forall i :: 0 <= i < |nodes| ==> Resolves(nodes, nodes[i].parentId, nodes[i].parentIndex))
    && (forall i :: 0 <= i < |nodes| && nodes[i].kind.Client? ==> !HasNonDeviceChild(nodes, i))
  }

  /** A node list whose parentIndex fields are up to date. */
  ghost predicate UpToDate(nodes: seq<GNode>) {
    forall i :: 0 <= i < |nodes| ==> Resolves(nodes, nodes[i].parentId, nodes[i].parentIndex)
  }

  lemma GenNode(nodes: seq<GNode>, c: int) returns (k: nat)
    requires |nodes| <= c < |Converted(nodes)|
    ensures k < |nodes| && IsCwc(nodes, k) && Converted(nodes)[c] == GenSite(nodes[k])
  {
    var g := Converted(nodes)[c];
    assert g == GenSites(nodes, |nodes|)[c - |nodes|];
    assert g in GenSites(nodes, |nodes|);
    GenSitesAre(nodes, |nodes|);
    k :| 0 <= k < |nodes| && IsCwc(nodes, k) && g == GenSite(nodes[k]);
  }

  /** The node a generated id leads to is a site. */
  lemma GenIdLeadsToSite(nodes: seq<GNode>, k: nat, q: int)
    requires nodes != [] && FreshGenIds(nodes) && k < |nodes| && IsCwc(nodes, k)
    requires Resolves(Converted(nodes), GenId(nodes[k].id), q)
    ensures |nodes| <= q < |Converted(nodes)| && Converted(nodes)[q].kind.Site?
  {
    var all := Converted(nodes);
    GenIdNonEmpty(nodes[k].id);
    GenSitesAre(nodes, |nodes|);
    var gens := GenSites(nodes, |nodes|);
    var j :| 0 <= j < |gens| && gens[j] == GenSite(nodes[k]);
    assert all[|nodes| + j].id == GenId(nodes[k].id);
    assert all[q].id == GenId(nodes[k].id);
    assert forall i :: 0 <= i < |nodes| ==> all[i].id == nodes[i].id;
    var l := GenNode(nodes, q);
  }

  /**
   * Where an unchanged parentId leads after the conversion: to the same node as before, or to a
   * generated site.
   */
  lemma OldParentId(nodes: seq<GNode>, pid: string, p: int, q: int)
    requires nodes != [] && UniqueIds(nodes) && Resolves(nodes, pid, p) && Resolves(Converted(nodes), pid, q)
    ensures q == p || (|nodes| <= q < |Converted(nodes)| && Converted(nodes)[q].kind.Site?)
  {
    var all := Converted(nodes);
    assert forall i :: 0 <= i < |nodes| ==> all[i].id == nodes[i].id;
    if q >= |nodes| {
      var l := GenNode(nodes, q);
    } else if pid != "" && nodes[p].id == pid {
      assert all[p].id == pid;
      assert all[q].id == pid;
    }
  }

  /** After the conversion only generated sites can hang below a client, and that client was converted. */
  lemma ConvertedParents(nodes: seq<GNode>, c: int, q: int)
    requires ReadyToConvert(nodes) && 0 <= c < |Converted(nodes)|
    requires Topology(Converted(nodes)[c].kind) && Resolves(Converted(nodes), Converted(nodes)[c].parentId, q)
    requires Converted(nodes)[q].kind.Client?
    ensures c >= |nodes| && q < |nodes| && IsCwc(nodes, q)
  {
    var all := Converted(nodes);
    if c < |nodes| {
      OldNodeParent(nodes, c, q);
    } else {
      var k := GenNode(nodes, c);
      var p := nodes[k].parentIndex;
      OldParentId(nodes, nodes[k].parentId, p, q);
      assert all[q] == ConvertedNode(nodes, q);
      if nodes[q].kind.Client? { assert HasNonDeviceChild(nodes, q); }
    }
  }

  lemma OldNodeParent(nodes: seq<GNode>, c: nat, q: int)
    requires ReadyToConvert(nodes) && c < |nodes| && Topology(nodes[c].kind)
    requires Resolves(Converted(nodes), ConvertedNode(nodes, c).parentId, q)
    ensures !Converted(nodes)[q].kind.Client?
  {
    var p := nodes[c].parentIndex;
    if IsCwc(nodes, p) {
      GenIdLeadsToSite(nodes, p, q);
    } else if IsCwc(nodes, c) {
      GenIdLeadsToSite(nodes, c, q);
    } else {
      OldParentId(nodes, nodes[c].parentId, p, q);
      if q == p && nodes[p].kind.Client? { assert HasNonDeviceChild(nodes, p); }
    }
  }

  /** The parent of a converted node is a generated site. */
  lemma ConvertedNodeSitsUnderGen(nodes: seq<GNode>, q: nat)
    requires nodes != [] && q < |nodes| && IsCwc(nodes, q)
    ensures exists k :: 0 <= k < |nodes| && IsCwc(nodes, k) && ConvertedNode(nodes, q).parentId == GenId(nodes[k].id)
  {
    var p := nodes[q].parentIndex;
    if IsCwc(nodes, p) {
      assert ConvertedNode(nodes, q).parentId == GenId(nodes[p].id);
    } else {
      assert ConvertedNode(nodes, q).parentId == GenId(nodes[q].id);
    }
  }

  ghost predicate SameButIndex(a: seq<GNode>, b: seq<GNode>) {
    |a| == |b| && forall i :: 0 <= i < |a| ==> b[i] == a[i].(parentIndex := b[i].parentIndex)
  }

  lemma ResolvesSame(a: seq<GNode>, b: seq<GNode>, pid: string, q: int)
    requires |a| == |b| && forall i :: 0 <= i < |a| ==> a[i].id == b[i].id
    ensures Resolves(a, pid, q) <==> Resolves(b, pid, q)
  {
  }

  /**
   * The convert and lift passes together, for every input graph with unique ids and fresh
   * generated ids, cycles included: `mid` is the converted list with its indices recomputed,
   * `done` the lifted list with its indices recomputed. No client has a client or site child.
   */
  lemma NoTopologyBelowClients(nodes: seq<GNode>, mid: seq<GNode>, done: seq<GNode>, c: nat)
    requires ReadyToConvert(nodes)
    requires SameButIndex(Converted(nodes), mid) && UpToDate(mid)
    requires SameButIndex(Lifted(mid), done) && UpToDate(done)
    requires c < |done| && Topology(done[c].kind)
    ensures 0 <= done[c].parentIndex < |done| && !done[done[c].parentIndex].kind.Client?
  {
    var all := Converted(nodes);
    var q, p := mid[c].parentIndex, done[c].parentIndex;
    ResolvesSame(all, mid, mid[c].parentId, q);
    ResolvesSame(all, done, done[c].parentId, p);
    assert Resolves(done, done[c].parentId, p);
    if all[q].kind.Client? {
      ConvertedParents(nodes, c, q);
      ConvertedNodeSitsUnderGen(nodes, q);
      var k :| 0 <= k < |nodes| && IsCwc(nodes, k) && ConvertedNode(nodes, q).parentId == GenId(nodes[k].id);
      GenIdNonEmpty(nodes[k].id);
      assert done[c].parentId == GenId(nodes[k].id);
      GenIdLeadsToSite(nodes, k, p);
    } else {
      assert done[c].parentId == mid[c].parentId;
      SameParent(nodes, mid[c].parentId, q, p);
    }
  }

  lemma SameParent(nodes: seq<GNode>, pid: string, q: int, p: int)
    requires ReadyToConvert(nodes)
    requires Resolves(Converted(nodes), pid, q) && Resolves(Converted(nodes), pid, p)
    ensures Converted(nodes)[p].kind == Converted(nodes)[q].kind
  {
    var all := Converted(nodes);
    if p != q {
      assert all[p].id == all[q].id;
      TwoSameIds(nodes, p, q);
    }
  }

  lemma SameIdSameNode(nodes: seq<GNode>, p: nat, q: nat)
    requires UniqueIds(nodes) && p < |nodes| && q < |nodes| && nodes[p].id == nodes[q].id
    ensures p == q
  {
  }

  lemma OldIsNotGen(nodes: seq<GNode>, p: nat, q: nat)
    requires FreshGenIds(nodes) && p < |nodes| <= q < |Converted(nodes)|
    ensures Converted(nodes)[p].id != Converted(nodes)[q].id
  {
    var k := GenNode(nodes, q);
    assert Converted(nodes)[p].id == nodes[p].id;
  }

  lemma TwoSameIds(nodes: seq<GNode>, p: nat, q: nat)
    requires ReadyToConvert(nodes)
    requires p < |Converted(nodes)| && q < |Converted(nodes)| && Converted(nodes)[p].id == Converted(nodes)[q].id
    ensures Converted(nodes)[p].kind == Converted(nodes)[q].kind
  {
    var all := Converted(nodes);
    if p < |nodes| && q < |nodes| {
      assert all[p].id == nodes[p].id && all[q].id == nodes[q].id;
      SameIdSameNode(nodes, p, q);
    } else if p < |nodes| {
      OldIsNotGen(nodes, p, q);
    } else if q < |nodes| {
      OldIsNotGen(nodes, q, p);
    } else {
      var k := GenNode(nodes, p);
      var l := GenNode(nodes, q);
    }
  }

  // ----- The same under any settings -----

  /** No client has a client or site child. */
  ghost predicate ClientsAreLeaves(nodes: seq<GNode>) {
    forall c :: 0 <= c < |nodes| && Topology(nodes[c].kind) ==>
      0 <= nodes[c].parentIndex < |nodes| && !nodes[nodes[c].parentIndex].kind.Client?
  }

  /** Where an index may lead: to the root, or to the node with the parent id if that one is not read as the root. */
  ghost predicate Leads(nodes: seq<GNode>, roots: set<string>, pid: string, q: int) {
    q == 0 || (0 < q < |nodes| && pid != "" && nodes[q].id == pid && nodes[q].displayName !in roots)
  }

  /** Indices agree with ids, apart from the parents read as the root. */
  ghost predicate Indexed(nodes: seq<GNode>, roots: set<string>) {
    && (forall c :: 0 <= c < |nodes| ==> Leads(nodes, roots, nodes[c].parentId, nodes[c].parentIndex))
    && (forall c, p :: 0 <= c < |nodes| && Leads(nodes, roots, nodes[c].parentId, p) && p != 0 ==>
      nodes[c].parentIndex == p)
  }

  lemma ReparentedLeads(nodes: seq<GNode>, index: map<string, nat>, roots: set<string>, c: nat)
    requires c < |nodes| && IndexSound(nodes, index)
    ensures var r := Reparented(nodes, index, roots); Leads(r, roots, r[c].parentId, r[c].parentIndex)
  {
  }

  lemma ReparentedIsIndexed(nodes: seq<GNode>, index: map<string, nat>, roots: set<string>)
    requires IndexSound(nodes, index) && IndexComplete(nodes, index) && UniqueIds(nodes)
    ensures Indexed(Reparented(nodes, index, roots), roots)
  {
    var r := Reparented(nodes, index, roots);
    forall c | 0 <= c < |nodes| ensures Leads(r, roots, r[c].parentId, r[c].parentIndex) {
      ReparentedLeads(nodes, index, roots, c);
    }
    forall c, p | 0 <= c < |nodes| && Leads(r, roots, r[c].parentId, p) && p != 0 ensures r[c].parentIndex == p {
      IndexIsLinearSearch(nodes, index, nodes[p].id, p);
    }
  }

  /** The state before the conversion, with a root that is no client. */
  ghost predicate ReadyUnder(roots: set<string>, nodes: seq<GNode>) {
    && nodes != [] && UniqueIds(nodes) && FreshGenIds(nodes) && Indexed(nodes, roots)
    && !nodes[0].kind.Client? && !nodes[0].kind.ClientWithChildren?
    && (forall i :: 0 <= i < |nodes| && nodes[i].kind.Client? ==> !HasNonDeviceChild(nodes, i))
  }

  function AddedSite(policy: Policy, n: GNode): (r: GNode) {
    GenSite(n).(parentId := ExceptionParent(policy, GenSite(n)))
  }

  lemma {:induction false} AddedAppend(policy: Policy, a: seq<GNode>, b: seq<GNode>)
    ensures Added(policy, a + b) == Added(policy, a) + Added(policy, b)
    decreases |a|
  {
    if a == [] {
      assert a + b == b;
    } else {
      assert (a + b)[1..] == a[1..] + b;
      AddedAppend(policy, a[1..], b);
    }
  }

  lemma AddedOne(policy: Policy, g: GNode)
    ensures Added(policy, [g]) ==
      if g.displayName in policy.excludeSites then [] else [g.(parentId := ExceptionParent(policy, g))]
  {
    assert [g][1..] == [];
  }

  /** Node i is converted and its generated site is not excluded. */
  predicate Generates(policy: Policy, nodes: seq<GNode>, i: int) {
    IsCwc(nodes, i) && GenName(nodes[i].displayName) !in policy.excludeSites
  }

  lemma AddedStep(policy: Policy, nodes: seq<GNode>, k: nat)
    requires 0 < k <= |nodes|
    ensures Added(policy, GenSites(nodes, k)) == Added(policy, GenSites(nodes, k - 1)) +
      if Generates(policy, nodes, k - 1) then [AddedSite(policy, nodes[k - 1])] else []
  {
    var less := GenSites(nodes, k - 1);
    if IsCwc(nodes, k - 1) {
      AddedAppend(policy, less, [GenSite(nodes[k - 1])]);
      AddedOne(policy, GenSite(nodes[k - 1]));
    } else {
      assert less + [] == less;
    }
  }

  lemma {:induction false} AddedAre(policy: Policy, nodes: seq<GNode>, k: nat)
    requires k <= |nodes|
    ensures forall g :: g in Added(policy, GenSites(nodes, k)) ==>
      exists i :: 0 <= i < k && Generates(policy, nodes, i) && g == AddedSite(policy, nodes[i])
    ensures forall i :: 0 <= i < k && Generates(policy, nodes, i) ==>
      AddedSite(policy, nodes[i]) in Added(policy, GenSites(nodes, k))
  {
    if k == 0 {
    } else {
      var less := GenSites(nodes, k - 1);
      AddedAre(policy, nodes, k - 1);
      AddedStep(policy, nodes, k);
      forall g | g in Added(policy, GenSites(nodes, k))
        ensures exists i :: 0 <= i < k && Generates(policy, nodes, i) && g == AddedSite(policy, nodes[i])
      {
        if g !in Added(policy, less) { assert Generates(policy, nodes, k - 1) && g == AddedSite(policy, nodes[k - 1]); }
      }
      forall i | 0 <= i < k && Generates(policy, nodes, i)
        ensures AddedSite(policy, nodes[i]) in Added(policy, GenSites(nodes, k))
      {
        if i < k - 1 { assert AddedSite(policy, nodes[i]) in Added(policy, less); }
      }
    }
  }

  lemma AddedNode(policy: Policy, nodes: seq<GNode>, c: int) returns (k: nat)
    requires |nodes| <= c < |ConvertedBy(policy, nodes)|
    ensures k < |nodes| && Generates(policy, nodes, k) && ConvertedBy(policy, nodes)[c] == AddedSite(policy, nodes[k])
  {
    var gens := Added(policy, GenSites(nodes, |nodes|));
    var g := ConvertedBy(policy, nodes)[c];
    assert g == gens[c - |nodes|];
    assert g in gens;
    AddedAre(policy, nodes, |nodes|);
    k :| 0 <= k < |nodes| && Generates(policy, nodes, k) && g == AddedSite(policy, nodes[k]);
  }

  /** No parent index that this id gives can be a client. */
  ghost predicate SafeParentId(nodes: seq<GNode>, roots: set<string>, pid: string) {
    forall p :: p != 0 && Leads(nodes, roots, pid, p) ==> !nodes[p].kind.Client?
  }

  lemma GenIdIsSafe(policy: Policy, nodes: seq<GNode>, k: nat)
    requires FreshGenIds(nodes) && k < |nodes|
    ensures SafeParentId(ConvertedBy(policy, nodes), policy.rootList, GenId(nodes[k].id))
  {
    var all := ConvertedBy(policy, nodes);
    assert forall i :: 0 <= i < |nodes| ==> all[i].id == nodes[i].id;
    forall p | p != 0 && Leads(all, policy.rootList, GenId(nodes[k].id), p) ensures !all[p].kind.Client? {
      if p >= |nodes| { var l := AddedNode(policy, nodes, p); }
    }
  }

  /** After the conversion the parent id of every old client or site is safe. */
  lemma ConvertedIdIsSafe(policy: Policy, nodes: seq<GNode>, c: nat)
    requires ReadyUnder(policy.rootList, nodes) && c < |nodes| && Topology(nodes[c].kind)
    ensures SafeParentId(ConvertedBy(policy, nodes), policy.rootList, ConvertedNode(nodes, c).parentId)
  {
    var all := ConvertedBy(policy, nodes);
    var pid := ConvertedNode(nodes, c).parentId;
    if IsCwc(nodes, nodes[c].parentIndex) {
      GenIdIsSafe(policy, nodes, nodes[c].parentIndex);
    } else if IsCwc(nodes, c) {
      GenIdIsSafe(policy, nodes, c);
    } else {
      forall p | p != 0 && Leads(all, policy.rootList, pid, p) ensures !all[p].kind.Client? {
        OldParentIsNoClient(policy, nodes, c, p);
      }
    }
  }

  lemma OldParentIsNoClient(policy: Policy, nodes: seq<GNode>, c: nat, p: int)
    requires ReadyUnder(policy.rootList, nodes) && c < |nodes| && !nodes[c].kind.Device?
    requires p != 0 && Leads(ConvertedBy(policy, nodes), policy.rootList, nodes[c].parentId, p)
    ensures ConvertedBy(policy, nodes)[p].kind.Client? ==> p == nodes[c].parentIndex && IsCwc(nodes, p)
  {
    if p < |nodes| {
      assert ConvertedBy(policy, nodes)[p] == ConvertedNode(nodes, p);
      assert Leads(nodes, policy.rootList, nodes[c].parentId, p);
      if nodes[p].kind.Client? { assert HasNonDeviceChild(nodes, p); }
    } else {
      var k := AddedNode(policy, nodes, p);
    }
  }

  /**
   * An exception puts the generated site of k below the childless client q, which has no parent
   * to lift it to.
   */
  predicate Traps(policy: Policy, nodes: seq<GNode>, k: int, q: int) {
    && Generates(policy, nodes, k) && nodes[k].parentId == ""
    && 0 <= q < |nodes| && nodes[q].kind.Client? && nodes[q].parentId == "" && nodes[q].displayName !in policy.rootList
    && nodes[q].id != "" && ExceptionParent(policy, GenSite(nodes[k])) == nodes[q].id
  }

  ghost predicate Trapped(policy: Policy, nodes: seq<GNode>) {
    exists k, q :: Traps(policy, nodes, k, q)
  }

  /** `mid` and `done` are the lists after the conversion and after the lift. */
  ghost predicate Pipeline(policy: Policy, nodes: seq<GNode>, index: map<string, nat>, mid: seq<GNode>,
                           done: seq<GNode>) {
    && IndexSound(ConvertedBy(policy, nodes), index) && IndexComplete(ConvertedBy(policy, nodes), index)
    && mid == Reparented(ConvertedBy(policy, nodes), index, policy.rootList)
    && IndexSound(Lifted(mid), index) && done == Reparented(Lifted(mid), index, policy.rootList)
  }

  /** A lifted node ends below no client. */
  lemma LiftedIsSafe(policy: Policy, nodes: seq<GNode>, index: map<string, nat>, mid: seq<GNode>, done: seq<GNode>,
                     c: nat)
    requires ReadyUnder(policy.rootList, nodes) && Pipeline(policy, nodes, index, mid, done)
    requires c < |done| && Topology(mid[c].kind) && LiftsFrom(mid, mid[c].parentIndex)
    ensures !done[done[c].parentIndex].kind.Client?
  {
    var q := mid[c].parentIndex;
    if q >= |nodes| { var k := AddedNode(policy, nodes, q); }
    assert mid[q].parentId == ConvertedNode(nodes, q).parentId;
    ConvertedIdIsSafe(policy, nodes, q);
    SafeStays(policy, nodes, index, mid, done, c);
  }

  lemma SafeStays(policy: Policy, nodes: seq<GNode>, index: map<string, nat>, mid: seq<GNode>, done: seq<GNode>, c: nat)
    requires nodes != [] && !nodes[0].kind.Client? && !nodes[0].kind.ClientWithChildren?
    requires Pipeline(policy, nodes, index, mid, done)
    requires c < |done| && SafeParentId(ConvertedBy(policy, nodes), policy.rootList, done[c].parentId)
    ensures !done[done[c].parentIndex].kind.Client?
  {
    var all, p := ConvertedBy(policy, nodes), done[c].parentIndex;
    ReparentedLeads(Lifted(mid), index, policy.rootList, c);
    assert all[0] == ConvertedNode(nodes, 0);
    assert p != 0 ==> Leads(all, policy.rootList, done[c].parentId, p);
    assert done[p].kind == all[p].kind;
  }

  /** A node that is not lifted keeps its parent; only a trapped site can keep a client. */
  lemma UnliftedParent(policy: Policy, nodes: seq<GNode>, index: map<string, nat>, mid: seq<GNode>, done: seq<GNode>,
                       c: nat)
    requires ReadyUnder(policy.rootList, nodes) && Pipeline(policy, nodes, index, mid, done)
    requires c < |done| && Topology(done[c].kind) && !LiftsFrom(mid, mid[c].parentIndex)
    ensures done[done[c].parentIndex].kind.Client? ==> Trapped(policy, nodes)
  {
    if c < |nodes| {
      assert ConvertedBy(policy, nodes)[c] == ConvertedNode(nodes, c);
      ConvertedIdIsSafe(policy, nodes, c);
      SafeStays(policy, nodes, index, mid, done, c);
    } else {
      var k := AddedNode(policy, nodes, c);
      var q := mid[c].parentIndex;
      assert done[c].parentIndex == q;
      if done[q].kind.Client? { UnliftedSite(policy, nodes, index, mid, done, c, k); }
    }
  }

  lemma UnliftedSite(policy: Policy, nodes: seq<GNode>, index: map<string, nat>, mid: seq<GNode>, done: seq<GNode>,
                     c: nat, k: nat)
    requires ReadyUnder(policy.rootList, nodes) && Pipeline(policy, nodes, index, mid, done)
    requires |nodes| <= c < |done| && k < |nodes| && Generates(policy, nodes, k)
    requires mid[c].parentId == AddedSite(policy, nodes[k]).parentId
    requires !LiftsFrom(mid, mid[c].parentIndex) && 0 <= mid[c].parentIndex < |mid|
    requires mid[mid[c].parentIndex].kind.Client?
    ensures Traps(policy, nodes, k, mid[c].parentIndex)
  {
    var all, q := ConvertedBy(policy, nodes), mid[c].parentIndex;
    ReparentedLeads(all, index, policy.rootList, c);
    assert all[0] == ConvertedNode(nodes, 0);
    assert q != 0 && Leads(all, policy.rootList, all[c].parentId, q);
    if q >= |nodes| { var l := AddedNode(policy, nodes, q); }
    assert all[q] == ConvertedNode(nodes, q) && all[q].parentId == "";
    GenIdNonEmpty(nodes[q].id);
    if IsCwc(nodes, nodes[q].parentIndex) { GenIdNonEmpty(nodes[nodes[q].parentIndex].id); }
    assert nodes[q].kind.Client? && nodes[q].parentId == "";
    if nodes[k].parentId != "" {
      OldParentIsNoClient(policy, nodes, k, q);
    }
  }

  lemma SiteOf(policy: Policy, nodes: seq<GNode>, k: nat) returns (c: nat)
    requires k < |nodes| && Generates(policy, nodes, k)
    ensures |nodes| <= c < |ConvertedBy(policy, nodes)| && ConvertedBy(policy, nodes)[c] == AddedSite(policy, nodes[k])
  {
    AddedAre(policy, nodes, |nodes|);
    var gens := Added(policy, GenSites(nodes, |nodes|));
    var j :| 0 <= j < |gens| && gens[j] == AddedSite(policy, nodes[k]);
    c := |nodes| + j;
  }

  /** A trapped site stays below its client. */
  lemma TrapHolds(policy: Policy, nodes: seq<GNode>, index: map<string, nat>, mid: seq<GNode>, done: seq<GNode>, k: nat,
                  q: nat)
    requires ReadyUnder(policy.rootList, nodes) && Pipeline(policy, nodes, index, mid, done)
    requires Traps(policy, nodes, k, q)
    ensures !ClientsAreLeaves(done)
  {
    var all := ConvertedBy(policy, nodes);
    var c := SiteOf(policy, nodes, k);
    OnlyOneHasId(policy, nodes, index, q);
    TrapClient(policy, nodes, q);
    StaysBelow(policy, all, index, mid, done, c, q);
    assert Topology(done[c].kind);
  }

  lemma TrapClient(policy: Policy, nodes: seq<GNode>, q: nat)
    requires ReadyUnder(policy.rootList, nodes) && q < |nodes| && nodes[q].kind.Client? && nodes[q].parentId == ""
    ensures var all := ConvertedBy(policy, nodes);
      all[q] == nodes[q]
  {
    assert Leads(nodes, policy.rootList, nodes[q].parentId, nodes[q].parentIndex);
    assert ConvertedBy(policy, nodes)[q] == ConvertedNode(nodes, q);
  }

  /** A node whose parent id leads to a client without parent stays below it. */
  lemma StaysBelow(policy: Policy, all: seq<GNode>, index: map<string, nat>, mid: seq<GNode>, done: seq<GNode>, c: nat,
                   q: nat)
    requires IndexSound(all, index) && mid == Reparented(all, index, policy.rootList)
    requires IndexSound(Lifted(mid), index) && done == Reparented(Lifted(mid), index, policy.rootList)
    requires c < |all| && q < |all| && all[c].parentId == all[q].id != "" && all[q].id in index && index[all[q].id] == q
    requires all[q].kind.Client? && all[q].parentId == "" && all[q].displayName !in policy.rootList
    ensures done[c].parentIndex == q && done[q].kind.Client? && done[c].kind == all[c].kind
  {
    assert mid[c].parentIndex == q && mid[q].parentId == "";
    assert !LiftsFrom(mid, q);
  }

  lemma OnlyOneHasId(policy: Policy, nodes: seq<GNode>, index: map<string, nat>, q: nat)
    requires UniqueIds(nodes) && FreshGenIds(nodes) && q < |nodes|
    requires IndexSound(ConvertedBy(policy, nodes), index) && IndexComplete(ConvertedBy(policy, nodes), index)
    ensures nodes[q].id in index && index[nodes[q].id] == q
  {
    var all := ConvertedBy(policy, nodes);
    assert all[q] == ConvertedNode(nodes, q);
    var p := index[nodes[q].id];
    if p < |nodes| {
      assert all[p] == ConvertedNode(nodes, p);
      SameIdSameNode(nodes, p, q);
    } else {
      var k := AddedNode(policy, nodes, p);
    }
  }

  /**
   * Under any exclusions, exceptions and promoted roots, with a root that is no client: convert
   * and lift leave every client without client and site children exactly when no exception traps
   * a generated site.
   */
  lemma ClientsAreLeavesIff(policy: Policy, nodes: seq<GNode>, index: map<string, nat>, mid: seq<GNode>,
                            done: seq<GNode>)
    requires ReadyUnder(policy.rootList, nodes) && Pipeline(policy, nodes, index, mid, done)
    ensures ClientsAreLeaves(done) <==> !Trapped(policy, nodes)
  {
    if Trapped(policy, nodes) {
      var k, q :| Traps(policy, nodes, k, q);
      TrapHolds(policy, nodes, index, mid, done, k, q);
    } else {
      forall c | 0 <= c < |done| && Topology(done[c].kind)
        ensures 0 <= done[c].parentIndex < |done| && !done[done[c].parentIndex].kind.Client?
      {
        ReparentedLeads(Lifted(mid), index, policy.rootList, c);
        if LiftsFrom(mid, mid[c].parentIndex) {
          LiftedIsSafe(policy, nodes, index, mid, done, c);
        } else {
          UnliftedParent(policy, nodes, index, mid, done, c);
        }
      }
    }
  }

  /** One exception is enough: the generated site of c goes below the client b and stays there. */
  lemma ExceptionTrapsGeneratedSite(index: map<string, nat>, mid: seq<GNode>, done: seq<GNode>)
    requires Pipeline(TrapPolicy(), TrapNodes(), index, mid, done)
    ensures !ClientsAreLeaves(done)
  {
    TrapIsReady();
    assert GenSite(TrapNodes()[2]).id == "c_gen";
    assert Traps(TrapPolicy(), TrapNodes(), 2, 1);
    TrapHolds(TrapPolicy(), TrapNodes(), index, mid, done, 2, 1);
  }

  lemma TrapIsReady()
    ensures ReadyUnder({}, TrapNodes())
  {
    var nodes := TrapNodes();
    ShortIdsAreFresh(nodes);
    FlatIsIndexed(nodes);
    assert nodes[0].id != nodes[1].id && nodes[0].id != nodes[2].id && nodes[1].id != nodes[2].id;
  }

  lemma ShortIdsAreFresh(nodes: seq<GNode>)
    requires forall i :: 0 <= i < |nodes| ==> |nodes[i].id| == 1
    ensures FreshGenIds(nodes)
  {
    forall i, j | 0 <= i < |nodes| && 0 <= j < |nodes| ensures GenId(nodes[i].id) != nodes[j].id {
      assert |GenId(nodes[i].id)| == 5;
    }
  }

  lemma FlatIsIndexed(nodes: seq<GNode>)
    requires forall i :: 0 <= i < |nodes| ==> nodes[i].parentId == "" && nodes[i].parentIndex == 0
    ensures Indexed(nodes, {})
  {
  }

  function TrapPolicy(): (p: Policy) {
    Policy({}, map["c_gen" := "b"], {})
  }

  function TrapNodes(): (nodes: seq<GNode>)
    ensures |nodes| == 3
  {
    [GNode("a", "A", "", 0, Ap, 0), GNode("b", "B", "", 0, Client, 0), GNode("c", "C", "", 0, ClientWithChildren, 0)]
  }

  /**
   * Why the root must be no client: a client with children at the root whose generated site is
   * excluded or read as the root ends as a client child of itself.
   */
  lemma ClientRootCatchesItself(policy: Policy, nodes: seq<GNode>, index: map<string, nat>, mid: seq<GNode>,
                                done: seq<GNode>)
    requires UniqueIds(nodes) && FreshGenIds(nodes) && IsCwc(nodes, 0) && nodes[0].parentIndex == 0
    requires GenName(nodes[0].displayName) in policy.excludeSites + policy.rootList
    requires Pipeline(policy, nodes, index, mid, done)
    ensures !ClientsAreLeaves(done)
  {
    var all, pid := ConvertedBy(policy, nodes), GenId(nodes[0].id);
    assert all[0] == ConvertedNode(nodes, 0) && all[0].parentId == pid;
    RootSiteIsNoParent(policy, nodes, index);
    assert mid[0].parentIndex == 0 && Lifted(mid)[0].parentId == pid;
    assert done[0].parentIndex == 0 && done[0].kind.Client?;
  }

  lemma RootSiteIsNoParent(policy: Policy, nodes: seq<GNode>, index: map<string, nat>)
    requires UniqueIds(nodes) && FreshGenIds(nodes) && IsCwc(nodes, 0)
    requires GenName(nodes[0].displayName) in policy.excludeSites + policy.rootList
    requires IndexSound(ConvertedBy(policy, nodes), index)
    ensures var all, pid := ConvertedBy(policy, nodes), GenId(nodes[0].id);
      pid in index ==> all[index[pid]].displayName in policy.rootList
  {
    var all, pid := ConvertedBy(policy, nodes), GenId(nodes[0].id);
    assert forall i :: 0 <= i < |nodes| ==> all[i].id == nodes[i].id;
    if pid in index {
      var k := AddedNode(policy, nodes, index[pid]);
      GenIdInjective(nodes[k].id, nodes[0].id);
      SameIdSameNode(nodes, k, 0);
    }
  }

  lemma GenIdInjective(a: string, b: string)
    requires GenId(a) == GenId(b)
    ensures a == b
  {
    assert GenId(a)[..|a|] == a && GenId(b)[..|b|] == b;
    assert |a| == |b|;
  }

  // ----- Reachability from the root -----

  /** The parent chain of n meets the root within k steps. */
  predicate ReachesIn(nodes: seq<GNode>, n: int, k: nat)
    decreases k
  {
    n == 0 || (k > 0 && 0 <= n < |nodes| && ReachesIn(nodes, nodes[n].parentIndex, k - 1))
  }

  ghost predicate Connected(nodes: seq<GNode>, n: int) {
    exists k: nat :: ReachesIn(nodes, n, k)
  }

  lemma ChildConnected(nodes: seq<GNode>, n: nat)
    requires n < |nodes| && Connected(nodes, nodes[n].parentIndex)
    ensures Connected(nodes, n)
  {
    var k: nat :| ReachesIn(nodes, nodes[n].parentIndex, k);
    assert ReachesIn(nodes, n, k + 1);
  }

  lemma {:induction false} ClosedHoldsConnected(nodes: seq<GNode>, visited: set<int>, n: int, k: nat)
    requires 0 in visited && ReachesIn(nodes, n, k)
    requires forall v, c :: v in visited && 0 <= c < |nodes| && nodes[c].parentIndex == v ==> c in visited
    ensures n in visited
    decreases k
  {
    if n == 0 {
    } else {
      ClosedHoldsConnected(nodes, visited, nodes[n].parentIndex, k - 1);
    }
  }

  // ----- Reconnection -----

  function ReconnectedNode(n: GNode, loose: bool): (r: GNode) {
    if loose && Topology(n.kind) then n.(parentIndex := 0) else n
  }

  /** Every disconnected site, client or clientWithChildren is hung on the root. */
  function Reconnected(nodes: seq<GNode>, loose: set<int>): (r: seq<GNode>)
    ensures |r| == |nodes| && forall i :: 0 <= i < |nodes| ==> r[i] == ReconnectedNode(nodes[i], i in loose)
  {
    seq(|nodes|, i requires 0 <= i < |nodes| => ReconnectedNode(nodes[i], i in loose))
  }

  ghost predicate ExactlyLoose(nodes: seq<GNode>, loose: set<int>) {
    forall i :: i in loose <==> 0 <= i < |nodes| && !Connected(nodes, i)
  }

  lemma {:induction false} StaysConnected(nodes: seq<GNode>, loose: set<int>, n: int, k: nat)
    requires ExactlyLoose(nodes, loose) && ReachesIn(nodes, n, k)
    ensures ReachesIn(Reconnected(nodes, loose), n, k)
    decreases k
  {
    if n == 0 {
    } else {
      assert Connected(nodes, n);
      StaysConnected(nodes, loose, nodes[n].parentIndex, k - 1);
    }
  }

  /** The k-th ancestor of n, as far as the chain stays inside the list. */
  function AncestorAt(nodes: seq<GNode>, n: int, k: nat): (r: int)
    decreases k
  {
    if k == 0 || !(0 <= n < |nodes|) then n else AncestorAt(nodes, nodes[n].parentIndex, k - 1)
  }

  lemma LooseAfterReconnect(nodes: seq<GNode>, loose: set<int>, n: int)
    requires ExactlyLoose(nodes, loose) && 0 <= n < |nodes|
    requires !Connected(Reconnected(nodes, loose), n)
    ensures !Topology(nodes[n].kind) && Reconnected(nodes, loose)[n] == nodes[n]
    ensures !Connected(Reconnected(nodes, loose), nodes[n].parentIndex)
  {
    var r := Reconnected(nodes, loose);
    if Connected(nodes, n) {
      var k: nat :| ReachesIn(nodes, n, k);
      StaysConnected(nodes, loose, n, k);
    }
    if Topology(nodes[n].kind) { assert ReachesIn(r, n, 1); }
    if Connected(r, nodes[n].parentIndex) { ChildConnected(r, n); }
  }

  /**
   * After reconnection no site, client or clientWithChildren is unreachable, and whatever still
   * is hangs on a chain without any of them.
   */
  lemma {:induction false} OnlyApsAndDevicesStayLoose(nodes: seq<GNode>, loose: set<int>, n: int, k: nat)
    requires ExactlyLoose(nodes, loose) && !Connected(Reconnected(nodes, loose), n)
    ensures var a := AncestorAt(Reconnected(nodes, loose), n, k);
            0 <= a < |nodes| ==> !Topology(Reconnected(nodes, loose)[a].kind)
    decreases k
  {
    if 0 <= n < |nodes| {
      LooseAfterReconnect(nodes, loose, n);
      if k > 0 { OnlyApsAndDevicesStayLoose(nodes, loose, nodes[n].parentIndex, k - 1); }
    }
  }

  // ----- Pruning -----

  predicate HasShapableDevice(nodes: seq<GNode>, i: int) {
    exists c :: 0 <= c < |nodes| && nodes[c].parentIndex == i && nodes[c].kind.Device? && nodes[c].ips > 0
  }

  /** A device without addresses, or a client without a device that has some. */
  predicate Removable(nodes: seq<GNode>, i: nat)
    requires i < |nodes|
  {
    (nodes[i].kind.Device? && nodes[i].ips == 0) || (nodes[i].kind.Client? && !HasShapableDevice(nodes, i))
  }

  function Kept(nodes: seq<GNode>, k: nat): (r: seq<GNode>)
    requires k <= |nodes|
  {
    if k == 0 then [] else Kept(nodes, k - 1) + if Removable(nodes, k - 1) then [] else [nodes[k - 1]]
  }
}
