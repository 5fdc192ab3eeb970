/**
 * network.json flattened into a vector, and the per-cycle counters that funnel every circuit's
 * traffic into all nodes above it.
 */
module FunnelCounters {
  import opened Common

  datatype Json = Obj(fields: seq<Field>) | Plain

  datatype Field = Field(key: string, value: Json)

  datatype FNode = FNode(name: string, parents: seq<nat>, immediateParent: Option<nat>)

  const ROOT := FNode("Root", [], None)

  // ----- Flattening, as the code does it for any JSON object -----

  predicate Descends(f: Field) {
    f.key != "uploadBandwidthMbps" && f.key != "downloadBandwidthMbps" && f.value.Obj?
  }

  /** recurse_node: append the node unless it is a "children" object, then recurse into its objects. */
  function Recurse(nodes: seq<FNode>, name: string, fields: seq<Field>, parents: seq<nat>, parent: nat): (r: seq<FNode>)
    requires nodes != []
    ensures |r| >= |nodes|
    decreases fields, 1
  {
    if name == "children" then RecurseFields(nodes, fields, parents, |nodes| - 1)
    else
      var mine := parents + [|nodes|];
      RecurseFields(nodes + [FNode(name, mine, Some(parent))], fields, mine, |nodes|)
  }

  function RecurseFields(nodes: seq<FNode>, fields: seq<Field>, parents: seq<nat>, me: nat): (r: seq<FNode>)
    requires nodes != []
    ensures |r| >= |nodes|
    decreases fields, 0
  {
    if fields == [] then nodes
    else
      var f := fields[0];
      var nodes' := if Descends(f) then Recurse(nodes, f.key, f.value.fields, parents, me) else nodes;
      RecurseFields(nodes', fields[1..], parents, me)
  }

  // ----- Which objects flatten well -----

  /** Whether recursing into these fields appends any node. */
  predicate Produces(fields: seq<Field>)
    decreases fields, 0
  {
    fields != [] &&
    (|| (Descends(fields[0]) && (fields[0].key != "children" || Produces(fields[0].value.fields)))
     || Produces(fields[1..]))
  }

  /**
   * No "children" object that holds nodes comes after another object that holds nodes. `last`
   * tells whether the node owning the fields is still the last one appended.
   */
  predicate Orderly(fields: seq<Field>, last: bool)
    decreases fields, 0
  {
    if fields == [] then true
    else if !Descends(fields[0]) then Orderly(fields[1..], last)
    else ObjectOrderly(fields[0].key, fields[0].value.fields, last)
         && Orderly(fields[1..], last && StaysLast(fields[0].key, fields[0].value.fields))
  }

  predicate ObjectOrderly(name: string, fields: seq<Field>, last: bool)
    decreases fields, 1
  {
    if name == "children" && !last then !Produces(fields) else Orderly(fields, true)
  }

  predicate StaysLast(name: string, fields: seq<Field>) {
    name == "children" && !Produces(fields)
  }

  // ----- Paths -----

  /** The path of a node; the root's own list is empty but its path is [0]. */
  function PathOf(nodes: seq<FNode>, i: nat): (p: seq<nat>)
    requires i < |nodes|
  {
    if i == 0 then [0] else nodes[i].parents
  }

  predicate Increasing(p: seq<nat>) {
    forall i, j :: 0 <= i < j < |p| ==> p[i] < p[j]
  }

  /** The list of node i is its immediate parent's path and then i. */
  predicate GoodPath(nodes: seq<FNode>, i: nat)
    requires i < |nodes|
  {
    && nodes[i].immediateParent.Some? && nodes[i].immediateParent.value < i
    && nodes[i].parents == PathOf(nodes, nodes[i].immediateParent.value) + [i]
  }

  ghost predicate Paths(nodes: seq<FNode>) {
    nodes != [] && forall i :: 1 <= i < |nodes| ==> GoodPath(nodes, i)
  }

  /** Every list starts at the root, rises strictly and ends in the node itself. */
  lemma {:induction false} PathsRise(nodes: seq<FNode>, i: nat)
    requires Paths(nodes) && i < |nodes|
    ensures var p := PathOf(nodes, i); p != [] && p[0] == 0 && Increasing(p) && p[|p| - 1] == i
    decreases i
  {
    if i == 0 {
    } else {
      assert GoodPath(nodes, i);
      PathsRise(nodes, nodes[i].immediateParent.value);
    }
  }

  lemma AppendKeepsPaths(nodes: seq<FNode>, name: string, parent: nat)
    requires Paths(nodes) && parent < |nodes|
    ensures var nodes' := nodes + [FNode(name, PathOf(nodes, parent) + [|nodes|], Some(parent))];
            Paths(nodes') && PathOf(nodes', |nodes|) == PathOf(nodes, parent) + [|nodes|]
  {
    var nodes' := nodes + [FNode(name, PathOf(nodes, parent) + [|nodes|], Some(parent))];
    forall i | 1 <= i < |nodes'| ensures GoodPath(nodes', i) {
      if i < |nodes| { assert GoodPath(nodes, i); }
    }
  }

  lemma {:induction false} FieldsGrow(nodes: seq<FNode>, fields: seq<Field>, parents: seq<nat>, me: nat)
    requires nodes != []
    ensures var r := RecurseFields(nodes, fields, parents, me);
            nodes <= r && (if Produces(fields) then |r| > |nodes| else r == nodes)
    decreases fields, 0
  {
    if fields == [] {
    } else {
      var f := fields[0];
      var nodes' := if Descends(f) then Recurse(nodes, f.key, f.value.fields, parents, me) else nodes;
      if Descends(f) { ObjectGrows(nodes, f.key, f.value.fields, parents, me); }
      FieldsGrow(nodes', fields[1..], parents, me);
    }
  }

  lemma {:induction false} ObjectGrows(nodes: seq<FNode>, name: string, fields: seq<Field>, parents: seq<nat>,
                                       parent: nat)
    requires nodes != []
    ensures var r := Recurse(nodes, name, fields, parents, parent);
            nodes <= r && (if StaysLast(name, fields) then r == nodes else |r| > |nodes|)
    ensures name != "children" ==>
      nodes + [FNode(name, parents + [|nodes|], Some(parent))] <= Recurse(nodes, name, fields, parents, parent)
    decreases fields, 1
  {
    if name == "children" {
      FieldsGrow(nodes, fields, parents, |nodes| - 1);
    } else {
      var mine := parents + [|nodes|];
      FieldsGrow(nodes + [FNode(name, mine, Some(parent))], fields, mine, |nodes|);
    }
  }

  /** A misplaced list stays misplaced as the vector grows. */
  lemma BadPathStays(nodes: seq<FNode>, r: seq<FNode>)
    requires nodes != [] && nodes <= r && !Paths(nodes)
    ensures !Paths(r)
  {
    var i :| 1 <= i < |nodes| && !GoodPath(nodes, i);
    assert !GoodPath(r, i);
  }

  /** Nodes appended under one parent's list but another parent's index are misplaced. */
  lemma {:induction false} WrongParentFails(nodes: seq<FNode>, fields: seq<Field>, me: nat, wrong: nat)
    requires Paths(nodes) && me < |nodes| - 1 && wrong < |nodes| && wrong != me && Produces(fields)
    ensures !Paths(RecurseFields(nodes, fields, PathOf(nodes, me), wrong))
    decreases fields
  {
    var f := fields[0];
    var p := PathOf(nodes, me);
    var nodes' := if Descends(f) then Recurse(nodes, f.key, f.value.fields, p, wrong) else nodes;
    FieldsGrow(nodes', fields[1..], p, wrong);
    if !Descends(f) || StaysLast(f.key, f.value.fields) {
      if Descends(f) { ObjectGrows(nodes, f.key, f.value.fields, p, wrong); }
      WrongParentFails(nodes, fields[1..], me, wrong);
    } else {
      if f.key == "children" {
        WrongParentFails(nodes, f.value.fields, me, |nodes| - 1);
      } else {
        ObjectGrows(nodes, f.key, f.value.fields, p, wrong);
        WrongAppend(nodes, f.key, me, wrong, nodes');
      }
      BadPathStays(nodes', RecurseFields(nodes', fields[1..], p, wrong));
    }
  }

  lemma WrongAppend(nodes: seq<FNode>, name: string, me: nat, wrong: nat, r: seq<FNode>)
    requires Paths(nodes) && me < |nodes| && wrong < |nodes| && wrong != me
    requires nodes + [FNode(name, PathOf(nodes, me) + [|nodes|], Some(wrong))] <= r
    ensures !Paths(r)
  {
    PathsRise(nodes, me);
    PathsRise(nodes, wrong);
    var n := |nodes|;
    assert r[n] == FNode(name, PathOf(nodes, me) + [n], Some(wrong));
    assert r[wrong] == nodes[wrong];
    var p, q := PathOf(nodes, me), PathOf(nodes, wrong);
    assert p[|p| - 1] != q[|q| - 1];
    assert p + [n] != q + [n] by {
      assert (p + [n])[|p| - 1] != (q + [n])[|q| - 1];
    }
    assert !GoodPath(r, n);
  }

  lemma {:induction false} FieldsFlattenIff(nodes: seq<FNode>, fields: seq<Field>, me: nat)
    requires Paths(nodes) && me < |nodes|
    ensures Paths(RecurseFields(nodes, fields, PathOf(nodes, me), me)) <==> Orderly(fields, me == |nodes| - 1)
    decreases fields, 0
  {
    if fields == [] {
    } else {
      var f := fields[0];
      var p := PathOf(nodes, me);
      if Descends(f) {
        var nodes' := Recurse(nodes, f.key, f.value.fields, p, me);
        ObjectGrows(nodes, f.key, f.value.fields, p, me);
        ObjectFlattensIff(nodes, f.key, f.value.fields, me);
        if Paths(nodes') {
          assert PathOf(nodes', me) == p;
          FieldsFlattenIff(nodes', fields[1..], me);
        } else {
          FieldsGrow(nodes', fields[1..], p, me);
          BadPathStays(nodes', RecurseFields(nodes', fields[1..], p, me));
        }
      } else {
        FieldsFlattenIff(nodes, fields[1..], me);
      }
    }
  }

  lemma {:induction false} ObjectFlattensIff(nodes: seq<FNode>, name: string, fields: seq<Field>, me: nat)
    requires Paths(nodes) && me < |nodes|
    ensures Paths(Recurse(nodes, name, fields, PathOf(nodes, me), me)) <==>
      ObjectOrderly(name, fields, me == |nodes| - 1)
    decreases fields, 1
  {
    var p := PathOf(nodes, me);
    if name != "children" {
      AppendKeepsPaths(nodes, name, me);
      FieldsFlattenIff(nodes + [FNode(name, p + [|nodes|], Some(me))], fields, |nodes|);
    } else if me == |nodes| - 1 {
      FieldsFlattenIff(nodes, fields, me);
    } else if Produces(fields) {
      WrongParentFails(nodes, fields, me, |nodes| - 1);
    } else {
      FieldsGrow(nodes, fields, p, |nodes| - 1);
    }
  }

  /** load: the root, then every top-level object. */
  function Flatten(top: seq<Field>): (r: seq<FNode>) {
    FlattenFrom([ROOT], top)
  }

  function FlattenFrom(nodes: seq<FNode>, top: seq<Field>): (r: seq<FNode>)
    requires nodes != []
    decreases |top|
  {
    if top == [] then nodes
    else
      var f := top[0];
      FlattenFrom(if f.value.Obj? then Recurse(nodes, f.key, f.value.fields, [0], 0) else nodes, top[1..])
  }

  predicate TopOrderly(top: seq<Field>, last: bool)
    decreases |top|
  {
    if top == [] then true
    else if !top[0].value.Obj? then TopOrderly(top[1..], last)
    else ObjectOrderly(top[0].key, top[0].value.fields, last)
         && TopOrderly(top[1..], last && StaysLast(top[0].key, top[0].value.fields))
  }

  lemma {:induction false} FlattenFromIff(nodes: seq<FNode>, top: seq<Field>)
    requires Paths(nodes)
    ensures nodes <= FlattenFrom(nodes, top)
    ensures Paths(FlattenFrom(nodes, top)) <==> TopOrderly(top, |nodes| == 1)
    decreases |top|
  {
    if top == [] {
    } else {
      var f := top[0];
      if f.value.Obj? {
        var nodes' := Recurse(nodes, f.key, f.value.fields, [0], 0);
        ObjectGrows(nodes, f.key, f.value.fields, [0], 0);
        ObjectFlattensIff(nodes, f.key, f.value.fields, 0);
        FlattenFromGrows(nodes', top[1..]);
        if Paths(nodes') {
          FlattenFromIff(nodes', top[1..]);
        } else {
          BadPathStays(nodes', FlattenFrom(nodes', top[1..]));
        }
      } else {
        FlattenFromIff(nodes, top[1..]);
      }
    }
  }

  lemma {:induction false} FlattenFromGrows(nodes: seq<FNode>, top: seq<Field>)
    requires nodes != []
    ensures nodes <= FlattenFrom(nodes, top)
    decreases |top|
  {
    if top == [] {
    } else {
      var f := top[0];
      if f.value.Obj? { ObjectGrows(nodes, f.key, f.value.fields, [0], 0); }
      FlattenFromGrows(if f.value.Obj? then Recurse(nodes, f.key, f.value.fields, [0], 0) else nodes, top[1..]);
    }
  }

  /**
   * Loading gives every node the path of its immediate parent, extended by itself, exactly when
   * no "children" object holding nodes follows another object holding nodes.
   */
  lemma LoadedPathsIff(top: seq<Field>)
    ensures Flatten(top) != [] && Flatten(top)[0] == ROOT
    ensures Paths(Flatten(top)) <==> TopOrderly(top, true)
  {
    FlattenFromIff([ROOT], top);
  }

  /** The usual file: in every node "children" is the only object, and its objects are nodes. */
  predicate NodeShape(fields: seq<Field>)
    decreases fields, 0
  {
    forall i :: 0 <= i < |fields| && Descends(fields[i]) ==>
      && fields[i].key == "children" && KidsShape(fields[i].value.fields)
      && forall j :: 0 <= j < |fields| && Descends(fields[j]) ==> j == i
  }

  predicate KidsShape(fields: seq<Field>)
    decreases fields, 0
  {
    forall i :: 0 <= i < |fields| && Descends(fields[i]) ==>
      fields[i].key != "children" && NodeShape(fields[i].value.fields)
  }

  lemma {:induction false} NodeShapeIsOrderly(fields: seq<Field>)
    requires NodeShape(fields)
    ensures Orderly(fields, true)
    decreases fields, 0
  {
    if fields == [] {
    } else {
      var f, rest := fields[0], fields[1..];
      assert forall j :: 0 <= j < |rest| ==> rest[j] == fields[j + 1];
      if Descends(f) {
        KidsShapeIsOrderly(f.value.fields, true);
        assert forall j :: 0 <= j < |rest| ==> !Descends(rest[j]);
        NoObjectsOrderly(rest, StaysLast(f.key, f.value.fields));
      } else {
        NodeShapeIsOrderly(rest);
      }
    }
  }

  lemma {:induction false} NoObjectsOrderly(fields: seq<Field>, last: bool)
    requires forall j :: 0 <= j < |fields| ==> !Descends(fields[j])
    ensures Orderly(fields, last)
  {
    if fields == [] {
    } else {
      NoObjectsOrderly(fields[1..], last);
    }
  }

  lemma {:induction false} KidsShapeIsOrderly(fields: seq<Field>, last: bool)
    requires KidsShape(fields)
    ensures Orderly(fields, last)
    decreases fields, 0
  {
    if fields == [] {
    } else {
      var f, rest := fields[0], fields[1..];
      assert forall j :: 0 <= j < |rest| ==> rest[j] == fields[j + 1];
      if Descends(f) { NodeShapeIsOrderly(f.value.fields); }
      KidsShapeIsOrderly(rest, if Descends(f) then last && StaysLast(f.key, f.value.fields) else last);
    }
  }

  /** Top-level objects are nodes of the usual shape. */
  predicate TopShape(top: seq<Field>) {
    forall i :: 0 <= i < |top| && top[i].value.Obj? ==> top[i].key != "children" && NodeShape(top[i].value.fields)
  }

  lemma {:induction false} UsualTopIsOrderly(top: seq<Field>, last: bool)
    requires TopShape(top)
    ensures TopOrderly(top, last)
    decreases |top|
  {
    if top == [] {
    } else {
      var f, rest := top[0], top[1..];
      assert forall j :: 0 <= j < |rest| ==> rest[j] == top[j + 1];
      if f.value.Obj? { NodeShapeIsOrderly(f.value.fields); }
      UsualTopIsOrderly(rest, if f.value.Obj? then last && StaysLast(f.key, f.value.fields) else last);
    }
  }

  /** So the usual file always loads with good paths. */
  lemma UsualFileLoads(top: seq<Field>)
    requires TopShape(top)
    ensures Paths(Flatten(top))
  {
    UsualTopIsOrderly(top, true);
    LoadedPathsIff(top);
  }

  /** An object-valued key met before "children" misplaces the children, whatever the names. */
  lemma ObjectBeforeChildrenMisplaces(site: string, extra: Field, kid: Field)
    requires site != "children" && Descends(extra) && extra.key != "children"
    requires Descends(kid) && kid.key != "children"
    ensures !Paths(Flatten([Field(site, Obj([extra, Field("children", Obj([kid]))]))]))
  {
    var kids := [kid];
    var c := Field("children", Obj(kids));
    var fields := [extra, c];
    var top := [Field(site, Obj(fields))];
    assert Produces(kids);
    assert fields[1..] == [c];
    assert !Orderly([c], false);
    assert !Orderly(fields, true);
    LoadedPathsIff(top);
  }

  // ----- What the lists name, whatever the shape of the file -----

  /** The enclosing object names of every object in visit order, "children" left out. */
  function Listing(prefix: seq<string>, fields: seq<Field>): (l: seq<seq<string>>)
    decreases fields, 0
  {
    if fields == [] then []
    else
      (if Descends(fields[0]) then ObjectListing(prefix, fields[0].key, fields[0].value.fields) else [])
      + Listing(prefix, fields[1..])
  }

  function ObjectListing(prefix: seq<string>, name: string, fields: seq<Field>): (l: seq<seq<string>>)
    decreases fields, 1
  {
    if name == "children" then Listing(prefix, fields)
    else [prefix + [name]] + Listing(prefix + [name], fields)
  }

  function TopListing(top: seq<Field>): (l: seq<seq<string>>) {
    if top == [] then []
    else
      (if top[0].value.Obj? then ObjectListing(["Root"], top[0].key, top[0].value.fields) else [])
      + TopListing(top[1..])
  }

  /** The list p, read as node names, is the given path. */
  predicate Spells(nodes: seq<FNode>, p: seq<nat>, path: seq<string>) {
    |p| == |path| && forall k :: 0 <= k < |p| ==> p[k] < |nodes| && nodes[p[k]].name == path[k]
  }

  ghost predicate Labelled(nodes: seq<FNode>, listing: seq<seq<string>>) {
    |nodes| == |listing| && forall i :: 0 <= i < |nodes| ==> Spells(nodes, nodes[i].parents, listing[i])
  }

  lemma AppendLabelled(nodes: seq<FNode>, listing: seq<seq<string>>, name: string, p: seq<nat>, path: seq<string>,
                       parent: nat)
    requires nodes != [] && Labelled(nodes, listing) && Spells(nodes, p, path)
    ensures var nodes' := nodes + [FNode(name, p + [|nodes|], Some(parent))];
            Labelled(nodes', listing + [path + [name]]) && Spells(nodes', p + [|nodes|], path + [name])
  {
    var nodes' := nodes + [FNode(name, p + [|nodes|], Some(parent))];
    var listing' := listing + [path + [name]];
    assert Spells(nodes', p + [|nodes|], path + [name]);
    forall i | 0 <= i < |nodes'| ensures Spells(nodes', nodes'[i].parents, listing'[i]) {
      if i < |nodes| { SpellsStays(nodes, nodes', nodes[i].parents, listing[i]); }
    }
  }

  lemma SpellsStays(nodes: seq<FNode>, nodes': seq<FNode>, p: seq<nat>, path: seq<string>)
    requires nodes <= nodes' && Spells(nodes, p, path)
    ensures Spells(nodes', p, path)
  {
    forall k | 0 <= k < |p| ensures p[k] < |nodes'| && nodes'[p[k]].name == path[k] {
      assert nodes'[p[k]] == nodes[p[k]];
    }
  }

  lemma {:induction false} FieldsLabelled(nodes: seq<FNode>, listing: seq<seq<string>>, fields: seq<Field>, p: seq<nat>,
                                          path: seq<string>, me: nat)
    requires nodes != [] && Labelled(nodes, listing) && Spells(nodes, p, path)
    ensures Labelled(RecurseFields(nodes, fields, p, me), listing + Listing(path, fields))
    decreases fields, 0
  {
    if fields == [] {
      assert listing + Listing(path, fields) == listing;
    } else {
      var f, rest := fields[0], fields[1..];
      if Descends(f) {
        var nodes' := Recurse(nodes, f.key, f.value.fields, p, me);
        var more := ObjectListing(path, f.key, f.value.fields);
        ObjectLabelled(nodes, listing, f.key, f.value.fields, p, path, me);
        ObjectGrows(nodes, f.key, f.value.fields, p, me);
        SpellsStays(nodes, nodes', p, path);
        FieldsLabelled(nodes', listing + more, rest, p, path, me);
        assert RecurseFields(nodes, fields, p, me) == RecurseFields(nodes', rest, p, me);
        Regroup(listing, more, Listing(path, rest));
      } else {
        FieldsLabelled(nodes, listing, rest, p, path, me);
        assert Listing(path, fields) == Listing(path, rest);
      }
    }
  }

  lemma {:induction false} ObjectLabelled(nodes: seq<FNode>, listing: seq<seq<string>>, name: string,
                                          fields: seq<Field>, p: seq<nat>, path: seq<string>, parent: nat)
    requires nodes != [] && Labelled(nodes, listing) && Spells(nodes, p, path)
    ensures Labelled(Recurse(nodes, name, fields, p, parent), listing + ObjectListing(path, name, fields))
    decreases fields, 1
  {
    if name == "children" {
      FieldsLabelled(nodes, listing, fields, p, path, |nodes| - 1);
    } else {
      var mine := p + [|nodes|];
      var nodes' := nodes + [FNode(name, mine, Some(parent))];
      var here := [path + [name]];
      AppendLabelled(nodes, listing, name, p, path, parent);
      FieldsLabelled(nodes', listing + here, fields, mine, path + [name], |nodes|);
      Regroup(listing, here, Listing(path + [name], fields));
    }
  }

  lemma {:induction false} TopLabelled(nodes: seq<FNode>, listing: seq<seq<string>>, top: seq<Field>)
    requires nodes != [] && Labelled(nodes, listing) && Spells(nodes, [0], ["Root"])
    ensures Labelled(FlattenFrom(nodes, top), listing + TopListing(top))
    decreases |top|
  {
    if top == [] {
      assert listing + TopListing(top) == listing;
    } else {
      var f, rest := top[0], top[1..];
      if f.value.Obj? {
        var nodes' := Recurse(nodes, f.key, f.value.fields, [0], 0);
        var more := ObjectListing(["Root"], f.key, f.value.fields);
        ObjectLabelled(nodes, listing, f.key, f.value.fields, [0], ["Root"], 0);
        ObjectGrows(nodes, f.key, f.value.fields, [0], 0);
        TopLabelled(nodes', listing + more, rest);
        Regroup(listing, more, TopListing(rest));
      } else {
        TopLabelled(nodes, listing, rest);
        assert TopListing(top) == TopListing(rest);
      }
    }
  }

  /** Every object of the file becomes one node, in visit order, and its list names the objects around it;
   *  the root's own list is empty. */
  lemma LoadedListsNameEnclosingObjects(top: seq<Field>)
    ensures Labelled(Flatten(top), [[]] + TopListing(top))
  {
    TopLabelled([ROOT], [[]], top);
  }

  // ----- Every list rises, whatever the shape of the file -----

  /** p leads from the root to indices below n, each above the one before. */
  predicate Rises(p: seq<nat>, n: nat) {
    p != [] && p[0] == 0 && Increasing(p) && p[|p| - 1] < n
  }

  /** Every list but the root's leads from the root up to the node itself. */
  ghost predicate ListsRise(nodes: seq<FNode>) {
    && nodes != [] && nodes[0] == ROOT
    && forall i :: 1 <= i < |nodes| ==> Rises(nodes[i].parents, i + 1) && nodes[i].parents[|nodes[i].parents| - 1] == i
  }

  lemma AppendRises(nodes: seq<FNode>, name: string, p: seq<nat>, parent: nat)
    requires ListsRise(nodes) && Rises(p, |nodes|)
    ensures Rises(p + [|nodes|], |nodes| + 1) && ListsRise(nodes + [FNode(name, p + [|nodes|], Some(parent))])
  {
  }

  lemma {:induction false} FieldsRise(nodes: seq<FNode>, fields: seq<Field>, p: seq<nat>, me: nat)
    requires ListsRise(nodes) && Rises(p, |nodes|)
    ensures ListsRise(RecurseFields(nodes, fields, p, me))
    decreases fields, 0
  {
    if fields == [] {
    } else {
      var f := fields[0];
      var nodes' := if Descends(f) then Recurse(nodes, f.key, f.value.fields, p, me) else nodes;
      if Descends(f) { ObjectRises(nodes, f.key, f.value.fields, p, me); }
      FieldsRise(nodes', fields[1..], p, me);
    }
  }

  lemma {:induction false} ObjectRises(nodes: seq<FNode>, name: string, fields: seq<Field>, p: seq<nat>, parent: nat)
    requires ListsRise(nodes) && Rises(p, |nodes|)
    ensures ListsRise(Recurse(nodes, name, fields, p, parent))
    decreases fields, 1
  {
    if name == "children" {
      FieldsRise(nodes, fields, p, |nodes| - 1);
    } else {
      AppendRises(nodes, name, p, parent);
      FieldsRise(nodes + [FNode(name, p + [|nodes|], Some(parent))], fields, p + [|nodes|], |nodes|);
    }
  }

  lemma {:induction false} TopRises(nodes: seq<FNode>, top: seq<Field>)
    requires ListsRise(nodes)
    ensures ListsRise(FlattenFrom(nodes, top))
    decreases |top|
  {
    if top == [] {
    } else {
      var f := top[0];
      if f.value.Obj? { ObjectRises(nodes, f.key, f.value.fields, [0], 0); }
      TopRises(if f.value.Obj? then Recurse(nodes, f.key, f.value.fields, [0], 0) else nodes, top[1..]);
    }
  }

  /** Loading any file: every list starts at the root, rises strictly and ends in the node itself. */
  lemma LoadedListsRise(top: seq<Field>)
    ensures ListsRise(Flatten(top))
  {
    TopRises([ROOT], top);
  }

  // ----- Counters -----

  const U64_MAX: nat := 0xFFFF_FFFF_FFFF_FFFF

  /** checked_add_tuple: an overflowing addition resets the counter to zero. */
  function CheckedAdd(a: nat, b: nat): (r: nat) {
    if a + b > U64_MAX then 0 else a + b
  }

  datatype Add = Add(target: nat, amount: nat)

  // ----- The subtree of a node, by the immediate parents alone -----

  /** t is n or lies below it. */
  predicate Below(nodes: seq<FNode>, n: nat, t: nat)
    decreases t
  {
    || t == n
    || (0 < t < |nodes| && nodes[t].immediateParent.Some? && nodes[t].immediateParent.value < t
        && Below(nodes, n, nodes[t].immediateParent.value))
  }

  /** A node's path lists exactly the nodes whose subtree it is in. */
  lemma {:induction false} PathIsAncestry(nodes: seq<FNode>, n: nat, t: nat)
    requires Paths(nodes) && t < |nodes|
    ensures n in PathOf(nodes, t) <==> Below(nodes, n, t)
    decreases t
  {
    if t == 0 {
    } else {
      assert GoodPath(nodes, t);
      PathIsAncestry(nodes, n, nodes[t].immediateParent.value);
    }
  }

  /** An addition reaches n: it is made at a node of the tree other than the root, at n or below it. */
  predicate Reaches(nodes: seq<FNode>, a: Add, n: nat) {
    1 <= a.target < |nodes| && Below(nodes, n, a.target)
  }

  /** The amounts added in the subtree of n. */
  function SubtreeSum(nodes: seq<FNode>, adds: seq<Add>, n: nat): (s: nat) {
    if adds == [] then 0
    else
      var a := adds[|adds| - 1];
      SubtreeSum(nodes, adds[..|adds| - 1], n) + if Reaches(nodes, a, n) then a.amount else 0
  }

  /** The amounts added at nodes whose list holds n. */
  function ListSum(nodes: seq<FNode>, adds: seq<Add>, n: nat): (s: nat) {
    if adds == [] then 0
    else
      var a := adds[|adds| - 1];
      ListSum(nodes, adds[..|adds| - 1], n) + if Listed(nodes, a, n) then a.amount else 0
  }

  predicate Listed(nodes: seq<FNode>, a: Add, n: nat) {
    a.target < |nodes| && n in nodes[a.target].parents
  }

  /** With good paths the lists hold exactly the subtrees. */
  lemma {:induction false} ListSumIsSubtreeSum(nodes: seq<FNode>, adds: seq<Add>, n: nat)
    requires Paths(nodes) && nodes[0] == ROOT
    ensures ListSum(nodes, adds, n) == SubtreeSum(nodes, adds, n)
  {
    if adds == [] {
    } else {
      var a := adds[|adds| - 1];
      ListSumIsSubtreeSum(nodes, adds[..|adds| - 1], n);
      if 1 <= a.target < |nodes| { PathIsAncestry(nodes, n, a.target); }
    }
  }

  /** One call of add_throughput_cycle: the targets in turn, those outside the vector skipped. */
  function Funnelled(counters: seq<nat>, targets: seq<nat>, amount: nat): (r: seq<nat>)
    ensures |r| == |counters|
  {
    if targets == [] then counters
    else
      var before := Funnelled(counters, targets[..|targets| - 1], amount);
      var idx := targets[|targets| - 1];
      if idx < |counters| then before[idx := CheckedAdd(before[idx], amount)] else before
  }

  lemma RisingInit(targets: seq<nat>, n: nat)
    requires targets != [] && Increasing(targets)
    ensures var init, idx := targets[..|targets| - 1], targets[|targets| - 1];
            Increasing(init) && idx !in init && (n in targets <==> n in init || n == idx)
  {
    var init, idx := targets[..|targets| - 1], targets[|targets| - 1];
    assert forall i :: 0 <= i < |init| ==> init[i] == targets[i];
    assert targets == init + [idx];
  }

  /** Along a rising list every listed node is bumped once. */
  lemma {:induction false} RisingListBumpsOnce(counters: seq<nat>, targets: seq<nat>, amount: nat, n: nat)
    requires Increasing(targets) && n < |counters|
    ensures Funnelled(counters, targets, amount)[n] ==
            if n in targets then CheckedAdd(counters[n], amount) else counters[n]
  {
    if targets == [] {
    } else {
      RisingInit(targets, n);
      RisingListBumpsOnce(counters, targets[..|targets| - 1], amount, n);
    }
  }

  /** The counters after zeroing and these additions, each made along its node's own list. */
  function Counters(nodes: seq<FNode>, adds: seq<Add>): (r: seq<nat>)
    ensures |r| == |nodes|
  {
    if adds == [] then seq(|nodes|, _ => 0)
    else
      var a := adds[|adds| - 1];
      var before := Counters(nodes, adds[..|adds| - 1]);
      if a.target < |nodes| then Funnelled(before, nodes[a.target].parents, a.amount) else before
  }

  class Funnel {
    var nodes: seq<FNode>
    var counters: seq<nat>

    ghost predicate Valid()
      reads this
    {
      |counters| == |nodes| && ListsRise(nodes)
    }

    /** NetworkJson::load, the vector grown by the recursion. */
    constructor (top: seq<Field>)
      ensures Valid() && nodes == Flatten(top)
    {
      nodes := [ROOT];
      counters := [];
      new;
      var i := 0;
      while i < |top|
        invariant i <= |top| && nodes != []
        invariant FlattenFrom(nodes, top[i..]) == Flatten(top)
      {
        assert top[i..][0] == top[i] && top[i..][1..] == top[i + 1..];
        if top[i].value.Obj? {
          RecurseNode(top[i].key, top[i].value.fields, [0], 0);
        }
        i := i + 1;
      }
      counters := seq(|nodes|, _ => 0);
      LoadedListsRise(top);
    }

    method RecurseNode(name: string, fields: seq<Field>, parents: seq<nat>, parent: nat)
      requires nodes != []
      modifies this`nodes
      ensures nodes == Recurse(old(nodes), name, fields, parents, parent) && nodes != []
      decreases fields
    {
      var mine := parents;
      var me := |nodes| - 1;
      if name != "children" {
        mine := parents + [|nodes|];
        me := |nodes|;
        nodes := nodes + [FNode(name, mine, Some(parent))];
      }
      ghost var start := nodes;
      var i := 0;
      while i < |fields|
        invariant i <= |fields| && nodes != []
        invariant RecurseFields(nodes, fields[i..], mine, me) == RecurseFields(start, fields, mine, me)
      {
        var f := fields[i];
        assert fields[i..][0] == f && fields[i..][1..] == fields[i + 1..];
        if Descends(f) {
          RecurseNode(f.key, f.value.fields, mine, me);
        }
        i := i + 1;
      }
    }

    method Zero()
      requires Valid()
      modifies this`counters
      ensures Valid() && counters == Counters(nodes, [])
    {
      counters := seq(|nodes|, _ => 0);
    }

    method AddCycle(targets: seq<nat>, amount: nat)
      requires Valid()
      modifies this`counters
      ensures Valid() && counters == Funnelled(old(counters), targets, amount)
    {
      for k := 0 to |targets|
        invariant |counters| == |nodes|
        invariant counters == Funnelled(old(counters), targets[..k], amount)
      {
        var idx := targets[k];
        assert targets[..k + 1][..k] == targets[..k] && targets[..k + 1][k] == idx;
        if idx < |nodes| {
          counters := counters[idx := CheckedAdd(counters[idx], amount)];
        }
      }
      assert targets[..|targets|] == targets;
    }

    /**
     * One whole cycle on any loaded file: zero, then add each circuit's traffic along its node's
     * list. With good paths a counter is the sum over the node's subtree.
     */
    method Cycle(adds: seq<Add>)
      requires Valid()
      modifies this`counters
      ensures Valid() && counters == Counters(nodes, adds)
      ensures forall n :: 0 <= n < |nodes| ==>
        (counters[n] == ListSum(nodes, adds, n) <==> ListSum(nodes, adds, n) <= U64_MAX)
      ensures Paths(nodes) ==> forall n :: 0 <= n < |nodes| ==>
        (counters[n] == SubtreeSum(nodes, adds, n) <==> SubtreeSum(nodes, adds, n) <= U64_MAX)
      ensures counters[0] == Total(nodes, adds) <==> Total(nodes, adds) <= U64_MAX
    {
      Zero();
      for k := 0 to |adds|
        invariant Valid() && counters == Counters(nodes, adds[..k])
      {
        assert adds[..k + 1][..k] == adds[..k] && adds[..k + 1][k] == adds[k];
        if adds[k].target < |nodes| {
          AddCycle(nodes[adds[k].target].parents, adds[k].amount);
        }
      }
      assert adds[..|adds|] == adds;
      forall n | 0 <= n < |nodes|
        ensures counters[n] == ListSum(nodes, adds, n) <==> ListSum(nodes, adds, n) <= U64_MAX
        ensures Paths(nodes) ==> ListSum(nodes, adds, n) == SubtreeSum(nodes, adds, n)
      {
        CounterIsListSumIff(nodes, adds, n);
        if Paths(nodes) { ListSumIsSubtreeSum(nodes, adds, n); }
      }
      RootReceivesEverything(nodes, adds);
    }
  }

  /**
   * After zeroing and any sequence of additions: a counter equals the sum over the additions whose
   * node lists it exactly when that sum fits in 64 bits.
   */
  lemma {:induction false} CounterIsListSumIff(nodes: seq<FNode>, adds: seq<Add>, n: nat)
    requires ListsRise(nodes) && n < |nodes|
    ensures Counters(nodes, adds)[n] <= 0xFFFF_FFFF_FFFF_FFFF
    ensures Counters(nodes, adds)[n] == ListSum(nodes, adds, n) <==> ListSum(nodes, adds, n) <= 0xFFFF_FFFF_FFFF_FFFF
  {
    if adds == [] {
    } else {
      var init, a := adds[..|adds| - 1], adds[|adds| - 1];
      CounterIsListSumIff(nodes, init, n);
      if a.target < |nodes| { RisingListBumpsOnce(Counters(nodes, init), nodes[a.target].parents, a.amount, n); }
    }
  }

  /** The addition before j found no room in the counter of n, and emptied it. */
  ghost predicate EmptiedBefore(nodes: seq<FNode>, adds: seq<Add>, n: nat, j: nat)
    requires 0 < j <= |adds| && n < |nodes|
  {
    && Listed(nodes, adds[j - 1], n)
    && Counters(nodes, adds[..j - 1])[n] + adds[j - 1].amount > U64_MAX
  }

  /** Sums too large included: a counter holds what was added since it was last emptied by an overflow. */
  lemma {:induction false} CounterSinceOverflow(nodes: seq<FNode>, adds: seq<Add>, n: nat) returns (j: nat)
    requires ListsRise(nodes) && n < |nodes|
    ensures j <= |adds| && Counters(nodes, adds)[n] == ListSum(nodes, adds[j..], n)
    ensures j > 0 ==> EmptiedBefore(nodes, adds, n, j)
  {
    if adds == [] {
      j := 0;
    } else {
      var init, a := adds[..|adds| - 1], adds[|adds| - 1];
      j := CounterSinceOverflow(nodes, init, n);
      if a.target < |nodes| { RisingListBumpsOnce(Counters(nodes, init), nodes[a.target].parents, a.amount, n); }
      if Listed(nodes, a, n) && Counters(nodes, init)[n] + a.amount > U64_MAX {
        j := |adds|;
      } else {
        assert adds[j..][..|adds[j..]| - 1] == init[j..] && adds[j..][|adds[j..]| - 1] == a;
        if j > 0 { assert init[..j - 1] == adds[..j - 1] && init[j - 1] == adds[j - 1]; }
      }
    }
  }

  /** The same for every file. */
  lemma LoadedCounterIff(top: seq<Field>, adds: seq<Add>, n: nat)
    requires n < |Flatten(top)|
    ensures Counters(Flatten(top), adds)[n] == ListSum(Flatten(top), adds, n) <==>
      ListSum(Flatten(top), adds, n) <= U64_MAX
  {
    LoadedListsRise(top);
    CounterIsListSumIff(Flatten(top), adds, n);
  }

  /** With good paths that sum is the one over the node's subtree. */
  lemma CounterIsSubtreeSumIff(nodes: seq<FNode>, adds: seq<Add>, n: nat)
    requires Paths(nodes) && nodes[0] == ROOT && n < |nodes|
    ensures Counters(nodes, adds)[n] <= U64_MAX
    ensures Counters(nodes, adds)[n] == SubtreeSum(nodes, adds, n) <==> SubtreeSum(nodes, adds, n) <= U64_MAX
  {
    forall i | 1 <= i < |nodes|
      ensures Rises(nodes[i].parents, i + 1) && nodes[i].parents[|nodes[i].parents| - 1] == i
    {
      PathsRise(nodes, i);
    }
    CounterIsListSumIff(nodes, adds, n);
    ListSumIsSubtreeSum(nodes, adds, n);
  }

  /** Everything added at nodes of the tree. */
  function Total(nodes: seq<FNode>, adds: seq<Add>): (s: nat) {
    if adds == [] then 0
    else
      var a := adds[|adds| - 1];
      Total(nodes, adds[..|adds| - 1]) + if 1 <= a.target < |nodes| then a.amount else 0
  }

  /** The root receives the grand total, whatever the shape of the file. */
  lemma {:induction false} RootReceivesEverything(nodes: seq<FNode>, adds: seq<Add>)
    requires ListsRise(nodes)
    ensures ListSum(nodes, adds, 0) == Total(nodes, adds)
  {
    if adds == [] {
    } else {
      var a := adds[|adds| - 1];
      RootReceivesEverything(nodes, adds[..|adds| - 1]);
      if 1 <= a.target < |nodes| { assert nodes[a.target].parents[0] == 0; }
    }
  }
}
