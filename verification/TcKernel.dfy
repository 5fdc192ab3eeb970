/**
 * A small semantics for the tc commands the Bakery emits: which qdiscs and classes exist on which
 * interface. A handle is a (major, minor) pair; minor 0 names the qdisc itself.
 */
module TcKernel {
  import opened Common

  datatype Handle = Handle(major: nat, minor: nat)

  datatype ClassId = ClassId(dev: string, id: Handle)

  datatype HandleKey = HandleKey(dev: string, major: nat)

  datatype ClassSpec = ClassSpec(rate: real, ceil: real, prio: Option<nat>, quantum: nat)

  /** What the qdisc at a leaf was chosen from: the rate and the per-direction override. */
  datatype Sqm = Sqm(rate: Option<real>, override: Option<string>)

  datatype Class = Class(parent: Handle, spec: ClassSpec)

  datatype Leaf = Leaf(handle: Option<nat>, sqm: Sqm)

  datatype Cmd =
    | AddMqRoot(dev: string)
    | AddHtb(dev: string, major: nat)
    | PutClass(dev: string, parent: Handle, id: Handle, spec: ClassSpec)
    | PutLeaf(dev: string, at: Handle, handle: Option<nat>, sqm: Sqm)
    | DelLeaf(dev: string, at: Handle)
    | DelClass(dev: string, parent: Handle, id: Handle)

  datatype Kernel = Kernel(roots: set<string>, htb: set<HandleKey>, classes: map<ClassId, Class>, leaves: map<ClassId,
                           Leaf>)

  const EMPTY := Kernel({}, {}, map[], map[])
  const MQ_ROOT_MAJOR := 0x7FFF

  ghost predicate HasChild(k: Kernel, c: ClassId) {
    exists x :: x in k.classes && x.dev == c.dev && k.classes[x].parent == c.id
  }

  /** The effect of one command; deleting what is absent changes nothing, nor does deleting an inner class.
      A deleted class takes its qdisc with it. */
  ghost function Exec(k: Kernel, cmd: Cmd): (r: Kernel) {
    match cmd
    case AddMqRoot(dev) => k.(roots := k.roots + {dev})
    case AddHtb(dev, major) => k.(htb := k.htb + {HandleKey(dev, major)})
    case PutClass(dev, parent, id, spec) => k.(classes := k.classes[ClassId(dev, id) := Class(parent, spec)])
    case PutLeaf(dev, at, handle, sqm) => k.(leaves := k.leaves[ClassId(dev, at) := Leaf(handle, sqm)])
    case DelLeaf(dev, at) => k.(leaves := k.leaves - {ClassId(dev, at)})
    case DelClass(dev, parent, id) =>
      var c := ClassId(dev, id);
      if c in k.classes && !HasChild(k, c)
      then k.(classes := k.classes - {c}, leaves := k.leaves - {c})
      else k
  }

  ghost function Run(k: Kernel, cmds: seq<Cmd>): (r: Kernel)
    decreases |cmds|
  {
    if cmds == [] then k else Run(Exec(k, cmds[0]), cmds[1..])
  }

  /** The qdisc handles in use on an interface. */
  ghost predicate HandleInUse(k: Kernel, h: HandleKey) {
    || h in k.htb
    || (h.major == MQ_ROOT_MAJOR && h.dev in k.roots)
    || exists c :: c in k.leaves && c.dev == h.dev && k.leaves[c].handle == Some(h.major)
  }

  ghost predicate ParentExists(k: Kernel, dev: string, parent: Handle) {
    if parent.minor == 0 then HandleKey(dev, parent.major) in k.htb else ClassId(dev, parent) in k.classes
  }

  /** A creating command that is accepted and creates something new: its parent exists, its own id and handle do not. */
  ghost predicate Creates(k: Kernel, cmd: Cmd) {
    match cmd
    case AddMqRoot(dev) => dev !in k.roots && !HandleInUse(k, HandleKey(dev, MQ_ROOT_MAJOR))
    case AddHtb(dev, major) => dev in k.roots && !HandleInUse(k, HandleKey(dev, major))
    case PutClass(dev, parent, id, _) =>
      parent.major == id.major && ParentExists(k, dev, parent) && ClassId(dev, id) !in k.classes
    case PutLeaf(dev, at, handle, _) =>
      && ClassId(dev, at) in k.classes && ClassId(dev, at) !in k.leaves
      && (handle.Some? ==> !HandleInUse(k, HandleKey(dev, handle.value)))
    case DelLeaf(_, _) => false
    case DelClass(_, _, _) => false
  }

  /** Every command of the stream creates something new below something created before it. */
  ghost predicate CleanRun(k: Kernel, cmds: seq<Cmd>)
    decreases |cmds|
  {
    cmds == [] || (Creates(k, cmds[0]) && CleanRun(Exec(k, cmds[0]), cmds[1..]))
  }

  // ----- The same, read off the stream alone -----

  datatype Known = Known(roots: set<string>, htb: set<HandleKey>, classes: set<ClassId>)

  function KnownAfter(kn: Known, cmd: Cmd): (r: Known) {
    match cmd
    case AddMqRoot(dev) => kn.(roots := kn.roots + {dev})
    case AddHtb(dev, major) => kn.(htb := kn.htb + {HandleKey(dev, major)})
    case PutClass(dev, _, id, _) => kn.(classes := kn.classes + {ClassId(dev, id)})
    case _ => kn
  }

  /** The parents one command names are known. */
  predicate NamesKnown(kn: Known, cmd: Cmd) {
    match cmd
    case AddMqRoot(_) => true
    case AddHtb(dev, _) => dev in kn.roots
    case PutClass(dev, parent, id, _) =>
      parent.major == id.major &&
      if parent.minor == 0 then HandleKey(dev, parent.major) in kn.htb else ClassId(dev, parent) in kn.classes
    case PutLeaf(dev, at, _, _) => ClassId(dev, at) in kn.classes
    case DelLeaf(_, _) => false
    case DelClass(_, _, _) => false
  }

  predicate ParentsKnown(kn: Known, cmds: seq<Cmd>)
    decreases |cmds|
  {
    cmds == [] || (NamesKnown(kn, cmds[0]) && ParentsKnown(KnownAfter(kn, cmds[0]), cmds[1..]))
  }

  function KnownAfterAll(kn: Known, cmds: seq<Cmd>): (r: Known)
    decreases |cmds|
  {
    if cmds == [] then kn else KnownAfterAll(KnownAfter(kn, cmds[0]), cmds[1..])
  }

  /** The classes a stream creates, in order. */
  function Created(cmds: seq<Cmd>): (r: seq<ClassId>) {
    if cmds == [] then []
    else CmdCreates(cmds[0]) + Created(cmds[1..])
  }

  /** The classes a stream attaches a qdisc to, in order. */
  function Attached(cmds: seq<Cmd>): (r: seq<ClassId>) {
    if cmds == [] then []
    else CmdAttaches(cmds[0]) + Attached(cmds[1..])
  }

  /** The explicit qdisc handles one command uses. */
  function CmdHandles(cmd: Cmd): (r: seq<HandleKey>) {
    match cmd
    case AddMqRoot(dev) => [HandleKey(dev, MQ_ROOT_MAJOR)]
    case AddHtb(dev, major) => [HandleKey(dev, major)]
    case PutLeaf(dev, _, Some(h), _) => [HandleKey(dev, h)]
    case _ => []
  }

  function Handles(cmds: seq<Cmd>): (r: seq<HandleKey>) {
    if cmds == [] then [] else CmdHandles(cmds[0]) + Handles(cmds[1..])
  }

  function KnownOf(k: Kernel): (kn: Known) {
    Known(k.roots, k.htb, k.classes.Keys)
  }

  lemma DistinctJoin<T>(a: seq<T>, b: seq<T>)
    requires Distinct(a) && Distinct(b)
    requires forall x :: x in a ==> x !in b
    ensures Distinct(a + b)
  {
    forall i, j | 0 <= i < |a| && 0 <= j < |b| ensures a[i] != b[j] { assert a[i] in a; }
  }

  lemma CreatesWhenFresh(k: Kernel, cmd: Cmd)
    requires NamesKnown(KnownOf(k), cmd)
    requires cmd.PutClass? ==> ClassId(cmd.dev, cmd.id) !in k.classes
    requires cmd.PutLeaf? ==> ClassId(cmd.dev, cmd.at) !in k.leaves
    requires forall h :: h in CmdHandles(cmd) ==> !HandleInUse(k, h)
    requires cmd.AddMqRoot? ==> cmd.dev !in k.roots
    ensures Creates(k, cmd)
  {
    match cmd
    case AddMqRoot(dev) => assert HandleKey(dev, MQ_ROOT_MAJOR) in CmdHandles(cmd);
    case AddHtb(dev, major) => assert HandleKey(dev, major) in CmdHandles(cmd);
    case PutLeaf(dev, at, handle, _) =>
      if handle.Some? { assert HandleKey(dev, handle.value) in CmdHandles(cmd); }
    case _ =>
  }

  lemma HandlesAfter(k: Kernel, cmd: Cmd, h: HandleKey)
    requires HandleInUse(Exec(k, cmd), h) && !cmd.DelLeaf? && !cmd.DelClass?
    ensures HandleInUse(k, h) || h in CmdHandles(cmd)
  {
    if cmd.PutLeaf? && !HandleInUse(k, h) {
      var k' := Exec(k, cmd);
      var c :| c in k'.leaves && c.dev == h.dev && k'.leaves[c].handle == Some(h.major);
      assert c == ClassId(cmd.dev, cmd.at);
    }
  }

  /**
   * The bridge: a stream whose parents are known in order and whose classes, attachment points
   * and handles are all distinct and new runs cleanly.
   */
  lemma {:induction false} DistinctStreamIsClean(k: Kernel, cmds: seq<Cmd>)
    requires ParentsKnown(KnownOf(k), cmds)
    requires Distinct(Created(cmds)) && forall c :: c in Created(cmds) ==> c !in k.classes
    requires Distinct(Attached(cmds)) && forall c :: c in Attached(cmds) ==> c !in k.leaves
    requires Distinct(Handles(cmds)) && forall h :: h in Handles(cmds) ==> !HandleInUse(k, h)
    ensures CleanRun(k, cmds)
    decreases |cmds|
  {
    if cmds == [] {
    } else {
      var cmd, rest := cmds[0], cmds[1..];
      var k' := Exec(k, cmd);
      assert CmdHandles(cmd) + Handles(rest) == Handles(cmds);
      DistinctSplit(CmdHandles(cmd), Handles(rest));
      FirstIsFresh(k, cmds);
      CreatesWhenFresh(k, cmd);
      assert KnownOf(k') == KnownAfter(KnownOf(k), cmd);
      RestIsFresh(k, cmds);
      forall h | h in Handles(rest) ensures !HandleInUse(k', h) {
        assert h in Handles(cmds);
        if HandleInUse(k', h) { HandlesAfter(k, cmd, h); }
      }
      DistinctStreamIsClean(k', rest);
    }
  }

  lemma FirstIsFresh(k: Kernel, cmds: seq<Cmd>)
    requires cmds != []
    requires forall c :: c in Created(cmds) ==> c !in k.classes
    requires forall c :: c in Attached(cmds) ==> c !in k.leaves
    requires forall h :: h in Handles(cmds) ==> !HandleInUse(k, h)
    ensures cmds[0].PutClass? ==> ClassId(cmds[0].dev, cmds[0].id) !in k.classes
    ensures cmds[0].PutLeaf? ==> ClassId(cmds[0].dev, cmds[0].at) !in k.leaves
    ensures forall h :: h in CmdHandles(cmds[0]) ==> !HandleInUse(k, h)
    ensures cmds[0].AddMqRoot? ==> cmds[0].dev !in k.roots
  {
    var cmd := cmds[0];
    if cmd.PutClass? { assert Created(cmds)[0] == ClassId(cmd.dev, cmd.id); }
    if cmd.PutLeaf? { assert Attached(cmds)[0] == ClassId(cmd.dev, cmd.at); }
    assert forall h :: h in CmdHandles(cmd) ==> h in Handles(cmds);
    if cmd.AddMqRoot? { assert HandleKey(cmd.dev, MQ_ROOT_MAJOR) in CmdHandles(cmd); }
  }

  lemma RestIsFresh(k: Kernel, cmds: seq<Cmd>)
    requires cmds != [] && !cmds[0].DelLeaf? && !cmds[0].DelClass?
    requires Distinct(Created(cmds)) && forall c :: c in Created(cmds) ==> c !in k.classes
    requires Distinct(Attached(cmds)) && forall c :: c in Attached(cmds) ==> c !in k.leaves
    ensures Distinct(Created(cmds[1..])) && forall c :: c in Created(cmds[1..]) ==> c !in Exec(k, cmds[0]).classes
    ensures Distinct(Attached(cmds[1..])) && forall c :: c in Attached(cmds[1..]) ==> c !in Exec(k, cmds[0]).leaves
  {
    var cmd, rest := cmds[0], cmds[1..];
    var k' := Exec(k, cmd);
    KeysAfter(k, cmd);
    FreshTail(CmdCreates(cmd), Created(rest), k.classes.Keys);
    FreshTail(CmdAttaches(cmd), Attached(rest), k.leaves.Keys);
  }

  lemma KeysAfter(k: Kernel, cmd: Cmd)
    requires !cmd.DelLeaf? && !cmd.DelClass?
    ensures Exec(k, cmd).classes.Keys == k.classes.Keys + set x | x in CmdCreates(cmd)
    ensures Exec(k, cmd).leaves.Keys == k.leaves.Keys + set x | x in CmdAttaches(cmd)
  {
  }

  lemma FreshTail(a: seq<ClassId>, b: seq<ClassId>, taken: set<ClassId>)
    requires Distinct(a + b) && forall c :: c in a + b ==> c !in taken
    ensures Distinct(b) && forall c :: c in b ==> c !in taken + set x | x in a
  {
    DistinctSplit(a, b);
  }

  // ----- Concatenated streams -----

  function CmdCreates(cmd: Cmd): (r: seq<ClassId>) {
    if cmd.PutClass? then [ClassId(cmd.dev, cmd.id)] else []
  }

  function CmdAttaches(cmd: Cmd): (r: seq<ClassId>) {
    if cmd.PutLeaf? then [ClassId(cmd.dev, cmd.at)] else []
  }

  lemma StreamCons(cmd: Cmd, rest: seq<Cmd>)
    ensures Created([cmd] + rest) == CmdCreates(cmd) + Created(rest)
    ensures Attached([cmd] + rest) == CmdAttaches(cmd) + Attached(rest)
    ensures Handles([cmd] + rest) == CmdHandles(cmd) + Handles(rest)
  {
    assert ([cmd] + rest)[1..] == rest;
  }

  lemma {:induction false} CreatedAppend(a: seq<Cmd>, b: seq<Cmd>)
    ensures Created(a + b) == Created(a) + Created(b)
  {
    if a == [] {
      assert a + b == b;
    } else {
      assert (a + b)[1..] == a[1..] + b;
      CreatedAppend(a[1..], b);
    }
  }

  lemma {:induction false} AttachedAppend(a: seq<Cmd>, b: seq<Cmd>)
    ensures Attached(a + b) == Attached(a) + Attached(b)
  {
    if a == [] {
      assert a + b == b;
    } else {
      assert (a + b)[1..] == a[1..] + b;
      AttachedAppend(a[1..], b);
    }
  }

  lemma {:induction false} HandlesAppend(a: seq<Cmd>, b: seq<Cmd>)
    ensures Handles(a + b) == Handles(a) + Handles(b)
  {
    if a == [] {
      assert a + b == b;
    } else {
      assert (a + b)[1..] == a[1..] + b;
      HandlesAppend(a[1..], b);
    }
  }

  lemma {:induction false} ParentsAppend(kn: Known, a: seq<Cmd>, b: seq<Cmd>)
    ensures ParentsKnown(kn, a + b) <==> ParentsKnown(kn, a) && ParentsKnown(KnownAfterAll(kn, a), b)
    ensures KnownAfterAll(kn, a + b) == KnownAfterAll(KnownAfterAll(kn, a), b)
    decreases |a|
  {
    if a == [] {
      assert a + b == b;
    } else {
      assert (a + b)[1..] == a[1..] + b;
      ParentsAppend(KnownAfter(kn, a[0]), a[1..], b);
    }
  }

  ghost predicate KnownWithin(a: Known, b: Known) {
    a.roots <= b.roots && a.htb <= b.htb && a.classes <= b.classes
  }

  lemma {:induction false} KnownGrows(kn: Known, cmds: seq<Cmd>)
    ensures KnownWithin(kn, KnownAfterAll(kn, cmds))
    decreases |cmds|
  {
    if cmds == [] {
    } else {
      KnownGrows(KnownAfter(kn, cmds[0]), cmds[1..]);
    }
  }

  lemma {:induction false} RunAppend(k: Kernel, a: seq<Cmd>, b: seq<Cmd>)
    ensures Run(k, a + b) == Run(Run(k, a), b)
    decreases |a|
  {
    if a == [] {
      assert a + b == b;
    } else {
      assert (a + b)[1..] == a[1..] + b;
      RunAppend(Exec(k, a[0]), a[1..], b);
    }
  }

  lemma {:induction false} CleanAppend(k: Kernel, a: seq<Cmd>, b: seq<Cmd>)
    ensures CleanRun(k, a + b) <==> CleanRun(k, a) && CleanRun(Run(k, a), b)
    decreases |a|
  {
    if a == [] {
      assert a + b == b;
    } else {
      assert (a + b)[1..] == a[1..] + b;
      CleanAppend(Exec(k, a[0]), a[1..], b);
    }
  }

  /** Attaching a qdisc where there was none takes its handle and no other. */
  lemma HandleAfterLeaf(k: Kernel, dev: string, at: Handle, handle: Option<nat>, sqm: Sqm, h: HandleKey)
    requires ClassId(dev, at) !in k.leaves
    ensures HandleInUse(Exec(k, PutLeaf(dev, at, handle, sqm)), h) <==>
      HandleInUse(k, h) || (h.dev == dev && handle == Some(h.major))
  {
    var c := ClassId(dev, at);
    var r := Exec(k, PutLeaf(dev, at, handle, sqm));
    assert r.leaves[c].handle == handle;
    assert forall d :: d in k.leaves ==> d in r.leaves && r.leaves[d] == k.leaves[d];
  }
}
