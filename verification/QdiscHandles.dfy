/**
 * The explicit qdisc-handle allocator: per interface a circuit -> handle map and its inverse, a
 * search hint, and a set of retired handles that must not come back before the next clear.
 * This file holds the value-level specification; the mutable allocator is in HandleAllocator.dfy.
 */
module QdiscHandles {
  import opened Common

  type U16 = x: int | 0 <= x < 0x1_0000

  const PREFERRED_CIRCUIT_START: U16 := 0x9000
  const MAX_DYNAMIC_HANDLE_MAJOR: U16 := 0xFFFE

  datatype Iface = Iface(circuits: map<int, U16>, owners: map<U16, int>, next: U16)

  datatype State = State(interfaces: map<string, Iface>, retired: map<string, set<U16>>)

  const DEFAULT_IFACE := Iface(map[], map[], PREFERRED_CIRCUIT_START)

  // ----- One interface -----

  function Advance(handle: U16): (r: U16)
    ensures 1 <= r <= MAX_DYNAMIC_HANDLE_MAJOR && r != handle
  {
    if handle >= MAX_DYNAMIC_HANDLE_MAJOR then 1 else handle + 1
  }

  /** The smallest handle of start..end outside `blocked`: what one scan must return. */
  function FirstFree(start: U16, end: U16, blocked: set<U16>): (r: Option<U16>)
    ensures r.Some? ==> start <= r.value <= end && r.value !in blocked
    ensures r.Some? ==> forall h: U16 :: start <= h < r.value ==> h in blocked
    ensures r.None? ==> forall h: U16 :: start <= h <= end ==> h in blocked
    decreases 0x1_0000 - start
  {
    if start > end then None
    else if start !in blocked then Some(start)
    else if start == end then None
    else FirstFree(start + 1, end, blocked)
  }

  function Blocked(s: Iface, reserved: set<U16>, retired: set<U16>): (b: set<U16>) {
    reserved + s.owners.Keys + retired
  }

  /** The hinted search: four scans, starting at the hint. */
  function HintedSearch(next: U16, blocked: set<U16>): (r: Option<U16>) {
    var high := FirstFree(next, MAX_DYNAMIC_HANDLE_MAJOR, blocked);
    if high.Some? then high else
      var wrapped := if next > PREFERRED_CIRCUIT_START
                     then FirstFree(PREFERRED_CIRCUIT_START, next - 1, blocked) else None;
      if wrapped.Some? then wrapped else
        var lowStart: U16 := if next < PREFERRED_CIRCUIT_START then (if next < 1 then 1 else next) else 1;
        var low := FirstFree(lowStart, PREFERRED_CIRCUIT_START - 1, blocked);
        if low.Some? then low
        else if lowStart > 1 then FirstFree(1, lowStart - 1, blocked)
        else None
  }

  /** The search without a hint: the preferred range first while the hint points into it. */
  function PlainSearch(next: U16, blocked: set<U16>): (r: Option<U16>) {
    if next >= 0x9000 then
      var high := FirstFree(0x9000, 0xFFFE, blocked);
      if high.Some? then high else FirstFree(1, 0x8FFF, blocked)
    else FirstFree(1, 0xFFFE, blocked)
  }

  function NoteReusable(s: Iface, handle: U16): (r: Iface) {
    if handle >= PREFERRED_CIRCUIT_START || s.next < PREFERRED_CIRCUIT_START then
      s.(next := if handle < s.next then handle else s.next)
    else if s.circuits == map[] then s.(next := PREFERRED_CIRCUIT_START)
    else s
  }

  function Insert(s: Iface, circuit: int, handle: U16): (r: Iface) {
    var s1 := s.(circuits := s.circuits[circuit := handle]);
    var s2 := if circuit in s.circuits
              then NoteReusable(s1.(owners := s1.owners - {s.circuits[circuit]}), s.circuits[circuit])
              else s1;
    var s3 := s2.(owners := s2.owners[handle := circuit]);
    if s3.next == handle then s3.(next := Advance(handle)) else s3
  }

  function Remove(s: Iface, circuit: int): (r: Iface) {
    if circuit !in s.circuits then s
    else
      var handle := s.circuits[circuit];
      NoteReusable(s.(circuits := s.circuits - {circuit}, owners := s.owners - {handle}), handle)
  }

  /** One allocation: the search, the hint update and the insertion. */
  function Allocate(s: Iface, circuit: int, blocked: set<U16>): (r: (Iface, Option<U16>)) {
    var found := HintedSearch(s.next, blocked);
    if found.None? then (s, None)
    else (Insert(s.(next := Advance(found.value)), circuit, found.value), found)
  }

  /** Retired handles from `from` upwards are offered for reuse in ascending order. */
  function NoteRetired(s: Iface, retired: set<U16>, from: nat): (r: Iface)
    decreases 0x1_0000 - from
  {
    if from >= 0x1_0000 then s
    else NoteRetired(if from in retired then NoteReusable(s, from) else s, retired, from + 1)
  }

  // ----- The whole state -----

  function IfaceOf(st: State, i: string): (s: Iface) {
    if i in st.interfaces then st.interfaces[i] else DEFAULT_IFACE
  }

  function RetiredOf(st: State, i: string): (r: set<U16>) {
    if i in st.retired then st.retired[i] else {}
  }

  datatype Op =
    | Assign(iface: string, circuit: int, reserved: set<U16>)
    | Rotate(iface: string, circuit: int, reserved: set<U16>)
    | Release(iface: string, circuit: int)
    | ClearRetired

  function DoAssign(st: State, i: string, circuit: int, reserved: set<U16>): (r: (State, Option<U16>)) {
    var s := IfaceOf(st, i);
    if circuit in s.circuits && s.circuits[circuit] !in reserved
       && s.circuits[circuit] in s.owners && s.owners[s.circuits[circuit]] == circuit
    then (st, Some(s.circuits[circuit]))
    else
      var (s', h) := Allocate(s, circuit, Blocked(s, reserved, RetiredOf(st, i)));
      (st.(interfaces := st.interfaces[i := s']), h)
  }

  function DoRotate(st: State, i: string, circuit: int, reserved: set<U16>): (r: (State, Option<U16>)) {
    var s := IfaceOf(st, i);
    var (s', h) := Allocate(s, circuit, Blocked(s, reserved, RetiredOf(st, i)));
    var retired' := if h.Some? && circuit in s.circuits
                    then st.retired[i := RetiredOf(st, i) + {s.circuits[circuit]}]
                    else st.retired;
    (State(st.interfaces[i := s'], retired'), h)
  }

  function DoRelease(st: State, i: string, circuit: int): (r: State) {
    if i !in st.interfaces then st
    else st.(interfaces := st.interfaces[i := Remove(st.interfaces[i], circuit)])
  }

  function ClearedIface(s: Iface, i: string, retired: map<string, set<U16>>): (r: Iface) {
    if i in retired then NoteRetired(s, retired[i], 0) else s
  }

  function DoClear(st: State): (r: State) {
    State(map i | i in st.interfaces :: ClearedIface(st.interfaces[i], i, st.retired), map[])
  }

  function Step(st: State, op: Op): (r: (State, Option<U16>)) {
    match op
    case Assign(i, c, reserved) => DoAssign(st, i, c, reserved)
    case Rotate(i, c, reserved) => DoRotate(st, i, c, reserved)
    case Release(i, c) => (DoRelease(st, i, c), None)
    case ClearRetired => (DoClear(st), None)
  }

  /** The state after a whole run of operations. */
  function Run(st: State, ops: seq<Op>): (r: State)
    decreases |ops|
  {
    if ops == [] then st else Run(Step(st, ops[0]).0, ops[1..])
  }

  // ----- The search returns the right handle -----

  predicate Dynamic(h: U16) { 1 <= h <= 0xFFFE }

  /** Whatever the hint and the reserved set, nothing is found exactly when nothing is free. */
  lemma SearchFailsIffFull(next: U16, blocked: set<U16>)
    requires Dynamic(next)
    ensures HintedSearch(next, blocked).None? <==> forall h: U16 :: Dynamic(h) ==> h in blocked
    ensures HintedSearch(next, blocked).Some? ==>
              Dynamic(HintedSearch(next, blocked).value) && HintedSearch(next, blocked).value !in blocked
  {
  }

  /** The range whose free handles the hint must not hide. */
  function HintBase(next: U16): (b: U16) {
    if next >= 0x9000 then 0x9000 else 1
  }

  /** Nothing free lies between the start of the hint's range and the hint. */
  ghost predicate HintTight(next: U16, blocked: set<U16>) {
    forall h: U16 :: HintBase(next) <= h < next ==> h in blocked
  }

  /**
   * When exactly the hinted search agrees with the plain one: the hint hides nothing, or nothing
   * is free from the hint upwards.
   */
  lemma HintedIsPlainIff(next: U16, blocked: set<U16>)
    requires Dynamic(next)
    ensures HintedSearch(next, blocked) == PlainSearch(next, blocked) <==>
              (HintTight(next, blocked) || FirstFree(next, MAX_DYNAMIC_HANDLE_MAJOR, blocked).None?)
  {
    var above := FirstFree(next, MAX_DYNAMIC_HANDLE_MAJOR, blocked);
    var plain := PlainSearch(next, blocked);
    if above.Some? {
      assert HintedSearch(next, blocked) == above;
      if HintTight(next, blocked) {
        PlainUnderTightHint(next, blocked);
      } else {
        var h: U16 :| HintBase(next) <= h < next && h !in blocked;
        assert plain.Some? && plain.value <= h;
      }
    } else {
      WrappedSearchIsPlain(next, blocked);
    }
  }

  lemma FirstFreeUnique(start: U16, end: U16, blocked: set<U16>, h: U16)
    requires start <= h <= end && h !in blocked
    requires forall x: U16 :: start <= x < h ==> x in blocked
    ensures FirstFree(start, end, blocked) == Some(h)
  {
  }

  lemma PlainUnderTightHint(next: U16, blocked: set<U16>)
    requires Dynamic(next) && HintTight(next, blocked)
    requires FirstFree(next, MAX_DYNAMIC_HANDLE_MAJOR, blocked).Some?
    ensures PlainSearch(next, blocked) == FirstFree(next, MAX_DYNAMIC_HANDLE_MAJOR, blocked)
  {
    var h := FirstFree(next, MAX_DYNAMIC_HANDLE_MAJOR, blocked).value;
    FirstFreeUnique(HintBase(next), MAX_DYNAMIC_HANDLE_MAJOR, blocked, h);
  }

  lemma WrappedSearchIsPlain(next: U16, blocked: set<U16>)
    requires Dynamic(next)
    requires FirstFree(next, MAX_DYNAMIC_HANDLE_MAJOR, blocked).None?
    ensures HintedSearch(next, blocked) == PlainSearch(next, blocked)
  {
    if next > PREFERRED_CIRCUIT_START {
      var low := FirstFree(PREFERRED_CIRCUIT_START, next - 1, blocked);
      if low.Some? {
        FirstFreeUnique(PREFERRED_CIRCUIT_START, MAX_DYNAMIC_HANDLE_MAJOR, blocked, low.value);
      } else {
        assert FirstFree(PREFERRED_CIRCUIT_START, MAX_DYNAMIC_HANDLE_MAJOR, blocked).None?;
      }
    } else if next < PREFERRED_CIRCUIT_START {
      assert FirstFree(next, PREFERRED_CIRCUIT_START - 1, blocked).None?;
      if next > 1 {
        var low := FirstFree(1, next - 1, blocked);
        if low.Some? {
          FirstFreeUnique(1, MAX_DYNAMIC_HANDLE_MAJOR, blocked, low.value);
        } else {
          assert FirstFree(1, MAX_DYNAMIC_HANDLE_MAJOR, blocked).None?;
        }
      }
    }
  }

  /** A hint that skips a handle while it is reserved keeps skipping it once it is not. */
  lemma HintHidesUnreservedHandle()
    ensures var st := Run(State(map[], map[]), [Assign("eth0", 1, {0x9000})]);
            && DoAssign(st, "eth0", 2, {}).1 == Some(0x9002)
            && PlainSearch(st.interfaces["eth0"].next, Blocked(st.interfaces["eth0"], {}, {})) == Some(0x9000)
  {
    var st0 := State(map[], map[]);
    var blocked: set<U16> := {0x9000};
    assert Blocked(DEFAULT_IFACE, blocked, {}) == blocked;
    FirstFreeUnique(0x9000, MAX_DYNAMIC_HANDLE_MAJOR, blocked, 0x9001);
    var op := Assign("eth0", 1, blocked);
    var st := Step(st0, op).0;
    assert st.interfaces["eth0"] == Iface(map[1 := 0x9001], map[0x9001 := 1], 0x9002);
    assert Run(st0, [op]) == Run(st, []) == st;
    FirstFreeUnique(0x9002, MAX_DYNAMIC_HANDLE_MAJOR, {0x9001}, 0x9002);
    FirstFreeUnique(0x9000, MAX_DYNAMIC_HANDLE_MAJOR, {0x9001}, 0x9000);
    assert Blocked(st.interfaces["eth0"], {}, {}) == {0x9001};
  }

  // ----- What every operation keeps -----

  /** `circuits` and `owners` are exact inverses and every number is a dynamic handle. */
  ghost predicate IfaceInv(s: Iface) {
    && Dynamic(s.next)
    && (forall c :: c in s.circuits ==>
      Dynamic(s.circuits[c]) && s.circuits[c] in s.owners && s.owners[s.circuits[c]] == c)
    && (forall h :: h in s.owners ==> s.owners[h] in s.circuits && s.circuits[s.owners[h]] == h)
  }

  ghost predicate RetiredInv(s: Iface, retired: set<U16>) {
    && retired !! s.owners.Keys
    && forall h :: h in retired ==> Dynamic(h)
  }

  ghost predicate Inv(st: State) {
    && st.retired.Keys <= st.interfaces.Keys
    && forall i :: i in st.interfaces ==> IfaceInv(st.interfaces[i]) && RetiredInv(st.interfaces[i], RetiredOf(st, i))
  }

  lemma NoteKeepsIface(s: Iface, h: U16)
    requires Dynamic(h)
    ensures IfaceInv(s) ==> IfaceInv(NoteReusable(s, h))
    ensures NoteReusable(s, h).circuits == s.circuits && NoteReusable(s, h).owners == s.owners
  {
  }

  lemma InsertKeepsIface(s: Iface, circuit: int, h: U16)
    requires IfaceInv(s) && Dynamic(h) && h !in s.owners
    ensures IfaceInv(Insert(s, circuit, h))
    ensures var r := Insert(s, circuit, h);
            && r.circuits == s.circuits[circuit := h]
            && r.owners == (if circuit in s.circuits then s.owners - {s.circuits[circuit]} else s.owners)[h := circuit]
  {
  }

  lemma RemoveKeepsIface(s: Iface, circuit: int)
    requires IfaceInv(s)
    ensures IfaceInv(Remove(s, circuit))
    ensures Remove(s, circuit).owners.Keys <= s.owners.Keys
  {
  }

  lemma AllocateKeepsIface(s: Iface, circuit: int, reserved: set<U16>, retired: set<U16>)
    requires IfaceInv(s) && RetiredInv(s, retired)
    ensures var (s', h) := Allocate(s, circuit, Blocked(s, reserved, retired));
            && IfaceInv(s') && RetiredInv(s', retired)
            && (h.None? ==> s' == s)
            && (h.Some? ==> && Dynamic(h.value) && h.value !in reserved && h.value !in retired && h.value !in s.owners
                            && s'.circuits == s.circuits[circuit := h.value]
                            && (circuit in s.circuits ==> RetiredInv(s', retired + {s.circuits[circuit]})))
  {
    var blocked := Blocked(s, reserved, retired);
    SearchFailsIffFull(s.next, blocked);
    var found := HintedSearch(s.next, blocked);
    if found.Some? {
      InsertKeepsIface(s.(next := Advance(found.value)), circuit, found.value);
    }
  }

  lemma {:induction false} NoteRetiredKeepsIface(s: Iface, retired: set<U16>, from: nat)
    requires IfaceInv(s) && forall h :: h in retired ==> Dynamic(h)
    ensures IfaceInv(NoteRetired(s, retired, from))
    ensures NoteRetired(s, retired, from).owners == s.owners && NoteRetired(s, retired, from).circuits == s.circuits
    decreases 0x1_0000 - from
  {
    if from < 0x1_0000 {
      if from in retired { NoteKeepsIface(s, from); }
      NoteRetiredKeepsIface(if from in retired then NoteReusable(s, from) else s, retired, from + 1);
    }
  }

  lemma AssignKeepsInv(st: State, i: string, circuit: int, reserved: set<U16>)
    requires Inv(st)
    ensures Inv(DoAssign(st, i, circuit, reserved).0)
  {
    AllocateKeepsIface(IfaceOf(st, i), circuit, reserved, RetiredOf(st, i));
  }

  lemma RotateKeepsInv(st: State, i: string, circuit: int, reserved: set<U16>)
    requires Inv(st)
    ensures Inv(DoRotate(st, i, circuit, reserved).0)
  {
    AllocateKeepsIface(IfaceOf(st, i), circuit, reserved, RetiredOf(st, i));
  }

  lemma ClearKeepsInv(st: State)
    requires Inv(st)
    ensures Inv(DoClear(st))
  {
    forall i | i in st.retired ensures IfaceInv(NoteRetired(st.interfaces[i], st.retired[i], 0)) {
      assert i in st.interfaces;
      NoteRetiredKeepsIface(st.interfaces[i], st.retired[i], 0);
    }
  }

  lemma StepKeepsInv(st: State, op: Op)
    requires Inv(st)
    ensures Inv(Step(st, op).0)
  {
    match op
    case Assign(i, c, reserved) => AssignKeepsInv(st, i, c, reserved);
    case Rotate(i, c, reserved) => RotateKeepsInv(st, i, c, reserved);
    case Release(i, c) => if i in st.interfaces { RemoveKeepsIface(st.interfaces[i], c); }
    case ClearRetired => ClearKeepsInv(st);
  }

  /** Over every run: inverse maps, no shared handle, no owned handle retired. */
  lemma {:induction false} RunKeepsInv(st: State, ops: seq<Op>)
    requires Inv(st)
    ensures Inv(Run(st, ops))
    decreases |ops|
  {
    if ops == [] {
    } else {
      StepKeepsInv(st, ops[0]);
      RunKeepsInv(Step(st, ops[0]).0, ops[1..]);
    }
  }

  /** In every reachable state two different circuits never share a handle on an interface. */
  lemma NoSharedHandle(st: State, ops: seq<Op>, i: string, c: int, d: int)
    requires Inv(st) && c != d
    requires i in Run(st, ops).interfaces
    requires c in Run(st, ops).interfaces[i].circuits && d in Run(st, ops).interfaces[i].circuits
    ensures Run(st, ops).interfaces[i].circuits[c] != Run(st, ops).interfaces[i].circuits[d]
  {
    RunKeepsInv(st, ops);
  }

  /** A handle handed out is never reserved, and never one that is retired on the interface. */
  lemma IssuedHandleIsClean(st: State, op: Op)
    requires Inv(st) && (op.Assign? || op.Rotate?) && Step(st, op).1.Some?
    ensures var h := Step(st, op).1.value;
            && Dynamic(h) && h !in op.reserved && h !in RetiredOf(st, op.iface)
            && op.iface in Step(st, op).0.interfaces
            && op.circuit in Step(st, op).0.interfaces[op.iface].circuits
            && Step(st, op).0.interfaces[op.iface].circuits[op.circuit] == h
  {
    AllocateKeepsIface(IfaceOf(st, op.iface), op.circuit, op.reserved, RetiredOf(st, op.iface));
  }

  /** A rotation that finds nothing leaves every assignment, hint and retirement as it was. */
  lemma FailedAllocationChangesNothing(st: State, op: Op)
    requires (op.Assign? || op.Rotate?) && Step(st, op).1.None?
    ensures Step(st, op).0 == st.(interfaces := st.interfaces[op.iface := IfaceOf(st, op.iface)])
  {
  }

  /** A successful rotation retires the handle the circuit held and gives it a different one. */
  lemma RotationRetiresOldHandle(st: State, i: string, circuit: int, reserved: set<U16>)
    requires Inv(st) && i in st.interfaces && circuit in st.interfaces[i].circuits
    requires DoRotate(st, i, circuit, reserved).1.Some?
    ensures st.interfaces[i].circuits[circuit] in RetiredOf(DoRotate(st, i, circuit, reserved).0, i)
    ensures DoRotate(st, i, circuit, reserved).1.value != st.interfaces[i].circuits[circuit]
  {
    AllocateKeepsIface(IfaceOf(st, i), circuit, reserved, RetiredOf(st, i));
  }

  /** The handles a run hands out, operation by operation. */
  function Issued(st: State, ops: seq<Op>): (r: seq<Option<U16>>)
    ensures |r| == |ops|
    decreases |ops|
  {
    if ops == [] then [] else [Step(st, ops[0]).1] + Issued(Step(st, ops[0]).0, ops[1..])
  }

  /** A retired handle is not issued again on its interface until the retired set is cleared. */
  lemma {:induction false} RetiredNotReissued(st: State, ops: seq<Op>, i: string, h: U16, k: nat)
    requires Inv(st) && h in RetiredOf(st, i)
    requires k < |ops| && (forall j :: 0 <= j < k ==> !ops[j].ClearRetired?)
    requires (ops[k].Assign? || ops[k].Rotate?) && ops[k].iface == i
    ensures Issued(st, ops)[k] != Some(h)
    decreases k
  {
    if k == 0 {
      if Issued(st, ops)[0].Some? { IssuedHandleIsClean(st, ops[0]); }
    } else {
      StepKeepsInv(st, ops[0]);
      RetiredNotReissued(Step(st, ops[0]).0, ops[1..], i, h, k - 1);
    }
  }

  // ----- What an operation does to the handles of circuits -----

  /** The handle a circuit holds on an interface. */
  function HandleOf(st: State, i: string, c: int): (h: Option<U16>) {
    if c in IfaceOf(st, i).circuits then Some(IfaceOf(st, i).circuits[c]) else None
  }

  predicate Names(op: Op, i: string, c: int) {
    !op.ClearRetired? && op.iface == i && op.circuit == c
  }

  /** An allocation on one interface changes no other circuit's handle. */
  lemma AllocateKeepsOthers(s: Iface, d: int, reserved: set<U16>, retired: set<U16>, c: int)
    requires IfaceInv(s) && RetiredInv(s, retired) && c != d
    ensures var s' := Allocate(s, d, Blocked(s, reserved, retired)).0;
            (c in s'.circuits <==> c in s.circuits) && (c in s.circuits ==> s'.circuits[c] == s.circuits[c])
  {
    AllocateKeepsIface(s, d, reserved, retired);
  }

  lemma ClearKeepsHandles(st: State, i: string, c: int)
    requires Inv(st)
    ensures HandleOf(DoClear(st), i, c) == HandleOf(st, i, c)
  {
    if i in st.interfaces && i in st.retired { NoteRetiredKeepsIface(st.interfaces[i], st.retired[i], 0); }
  }

  /** An operation changes no handle but that of the circuit it names, on the interface it names. */
  lemma OthersKeepHandles(st: State, op: Op, i: string, c: int)
    requires Inv(st) && !Names(op, i, c)
    ensures HandleOf(Step(st, op).0, i, c) == HandleOf(st, i, c)
  {
    if op.ClearRetired? {
      ClearKeepsHandles(st, i, c);
    } else if op.iface == i && !op.Release? {
      AllocateKeepsOthers(IfaceOf(st, i), op.circuit, op.reserved, RetiredOf(st, i), c);
    }
  }

  /** Assign reuses a handle that is not reserved, and otherwise allocates a free one if there is any. */
  lemma AssignReuses(st: State, i: string, c: int, reserved: set<U16>)
    requires Inv(st)
    ensures var (st', h) := DoAssign(st, i, c, reserved);
      && (HandleOf(st, i, c).Some? && HandleOf(st, i, c).value !in reserved ==> h == HandleOf(st, i, c) && st' == st)
      && (h.Some? ==> HandleOf(st', i, c) == h)
      && (h.None? ==> HandleOf(st', i, c) == HandleOf(st, i, c))
      && (h.None? <==>
          && (HandleOf(st, i, c).Some? ==> HandleOf(st, i, c).value in reserved)
          && forall x: U16 :: Dynamic(x) ==> x in Unavailable(st, i, reserved))
  {
    var s := IfaceOf(st, i);
    AllocateKeepsIface(s, c, reserved, RetiredOf(st, i));
    SearchFailsIffFull(s.next, Blocked(s, reserved, RetiredOf(st, i)));
  }

  /** Reserved, owned or retired: not to be handed out. */
  function Unavailable(st: State, i: string, reserved: set<U16>): (r: set<U16>) {
    Blocked(IfaceOf(st, i), reserved, RetiredOf(st, i))
  }

  /** With the same reserved handles an assignment frees nothing: the handle it moves away from is reserved. */
  lemma AssignFreesNothing(st: State, i: string, c: int, reserved: set<U16>)
    requires Inv(st)
    ensures Unavailable(st, i, reserved) <= Unavailable(DoAssign(st, i, c, reserved).0, i, reserved)
  {
    var s := IfaceOf(st, i);
    var blocked := Blocked(s, reserved, RetiredOf(st, i));
    var found := HintedSearch(s.next, blocked);
    SearchFailsIffFull(s.next, blocked);
    if found.Some? { InsertKeepsIface(s.(next := Advance(found.value)), c, found.value); }
  }

  /** Rotate always looks for another handle, and fails exactly when none is free. */
  lemma RotateMoves(st: State, i: string, c: int, reserved: set<U16>)
    requires Inv(st)
    ensures var (st', h) := DoRotate(st, i, c, reserved);
      && (h.None? <==> forall x: U16 :: Dynamic(x) ==> x in Unavailable(st, i, reserved))
      && HandleOf(st', i, c) == (if h.Some? then h else HandleOf(st, i, c))
      && (h.Some? ==> h != HandleOf(st, i, c))
  {
    var s := IfaceOf(st, i);
    AllocateKeepsIface(s, c, reserved, RetiredOf(st, i));
    SearchFailsIffFull(s.next, Unavailable(st, i, reserved));
  }

  /** The circuit is neither released nor rotated, and its handle is not reserved when it is assigned again. */
  predicate Spares(op: Op, i: string, c: int, h: U16) {
    Names(op, i, c) ==> op.Assign? && h !in op.reserved
  }

  lemma StepKeepsHandle(st: State, op: Op, i: string, c: int, h: U16)
    requires Inv(st) && HandleOf(st, i, c) == Some(h) && Spares(op, i, c, h)
    ensures HandleOf(Step(st, op).0, i, c) == Some(h)
    ensures Names(op, i, c) ==> Step(st, op).1 == Some(h)
  {
    if Names(op, i, c) {
      AssignReuses(st, i, c, op.reserved);
    } else {
      OthersKeepHandles(st, op, i, c);
    }
  }

  /**
   * Handles are stable: over every run that neither releases nor rotates a circuit and never
   * reserves its handle, each assignment of it issues the handle it has, and it keeps it.
   */
  lemma {:induction false} HandleIsStable(st: State, ops: seq<Op>, i: string, c: int, h: U16)
    requires Inv(st) && HandleOf(st, i, c) == Some(h)
    requires forall op :: op in ops ==> Spares(op, i, c, h)
    ensures HandleOf(Run(st, ops), i, c) == Some(h)
    ensures forall k :: 0 <= k < |ops| && Names(ops[k], i, c) ==> Issued(st, ops)[k] == Some(h)
    decreases |ops|
  {
    if ops == [] {
    } else {
      var st' := Step(st, ops[0]).0;
      StepKeepsInv(st, ops[0]);
      StepKeepsHandle(st, ops[0], i, c, h);
      HandleIsStable(st', ops[1..], i, c, h);
      var issued := Issued(st', ops[1..]);
      assert forall k :: 1 <= k < |ops| ==> ops[k] == ops[1..][k - 1] && Issued(st, ops)[k] == issued[k - 1];
    }
  }

  /** A release takes the handle from its circuit, and nobody owns it afterwards. */
  lemma ReleaseFrees(st: State, i: string, c: int)
    requires Inv(st)
    ensures HandleOf(DoRelease(st, i, c), i, c).None?
    ensures HandleOf(st, i, c).Some? ==> HandleOf(st, i, c).value !in IfaceOf(DoRelease(st, i, c), i).owners
    ensures DoRelease(st, i, c).retired == st.retired
  {
    if i in st.interfaces { RemoveKeepsIface(st.interfaces[i], c); }
  }

  /** A clear forgets every retirement and changes no handle. */
  lemma ClearFrees(st: State, i: string, c: int)
    requires Inv(st)
    ensures RetiredOf(DoClear(st), i) == {} && HandleOf(DoClear(st), i, c) == HandleOf(st, i, c)
  {
    ClearKeepsHandles(st, i, c);
  }

  // ----- The hint stays tight over a whole run -----

  /** Nothing free is hidden below the hint of interface i, reading `reserved` as taken. */
  ghost predicate TightAt(st: State, i: string, reserved: set<U16>) {
    HintTight(IfaceOf(st, i).next, Blocked(IfaceOf(st, i), reserved, RetiredOf(st, i)))
  }

  lemma TightMonotone(next: U16, b: set<U16>, b': set<U16>)
    requires HintTight(next, b) && b <= b'
    ensures HintTight(next, b')
  {
  }

  lemma NoteKeepsTight(s: Iface, h: U16, b: set<U16>)
    requires HintTight(s.next, b)
    ensures HintTight(NoteReusable(s, h).next, b - {h})
  {
  }

  lemma InsertKeepsTight(s: Iface, circuit: int, h: U16, b: set<U16>)
    requires IfaceInv(s) && h !in s.owners
    requires HintTight(s.next, b) && h in b && s.next != h
    ensures var old' := if circuit in s.circuits then {s.circuits[circuit]} else {};
            HintTight(Insert(s, circuit, h).next, b - old')
  {
    if circuit in s.circuits {
      var prev := s.circuits[circuit];
      var s1 := s.(circuits := s.circuits[circuit := h], owners := s.owners - {prev});
      NoteKeepsTight(s1, prev, b);
      assert NoteReusable(s1, prev).next != h || HintTight(Advance(h), b - {prev});
    }
  }

  /** The search may run against fewer taken handles than the ones the hint is tight for. */
  lemma SearchKeepsTight(next: U16, narrow: set<U16>, wide: set<U16>)
    requires Dynamic(next) && narrow <= wide && HintTight(next, wide) && HintedSearch(next, narrow).Some?
    ensures var h := HintedSearch(next, narrow).value;
            HintTight(Advance(h), wide + {h})
  {
  }

  lemma AllocateKeepsTight(s: Iface, circuit: int, reserved: set<U16>, wide: set<U16>, retired: set<U16>)
    requires IfaceInv(s) && RetiredInv(s, retired) && reserved <= wide
    requires HintTight(s.next, Blocked(s, wide, retired))
    ensures var (s', h) := Allocate(s, circuit, Blocked(s, reserved, retired));
            HintTight(s'.next, Blocked(s', wide, retired))
  {
    var narrow := Blocked(s, reserved, retired);
    var found := HintedSearch(s.next, narrow);
    if found.Some? {
      var h := found.value;
      SearchFailsIffFull(s.next, narrow);
      SearchKeepsTight(s.next, narrow, Blocked(s, wide, retired));
      var s1 := s.(next := Advance(h));
      InsertKeepsTight(s1, circuit, h, Blocked(s, wide, retired) + {h});
      InsertKeepsIface(s1, circuit, h);
    }
  }

  function From(retired: set<U16>, from: nat): (r: set<U16>) {
    set h | h in retired && h >= from
  }

  lemma {:induction false} NoteRetiredKeepsTight(s: Iface, retired: set<U16>, from: nat, b: set<U16>)
    requires HintTight(s.next, b + From(retired, from))
    ensures HintTight(NoteRetired(s, retired, from).next, b)
    decreases 0x1_0000 - from
  {
    if from < 0x1_0000 {
      var s' := if from in retired then NoteReusable(s, from) else s;
      if from in retired {
        NoteKeepsTight(s, from, b + From(retired, from));
        TightMonotone(s'.next, b + From(retired, from) - {from}, b + From(retired, from + 1));
      } else {
        TightMonotone(s'.next, b + From(retired, from), b + From(retired, from + 1));
      }
      NoteRetiredKeepsTight(s', retired, from + 1, b);
    }
  }

  /** The reserved set of an operation on interface i lies within `wide`. */
  predicate ReservedWithin(op: Op, i: string, wide: set<U16>) {
    (op.Assign? || op.Rotate?) && op.iface == i ==> op.reserved <= wide
  }

  lemma ClearKeepsTight(st: State, i: string, wide: set<U16>)
    requires Inv(st) && TightAt(st, i, wide)
    ensures TightAt(DoClear(st), i, wide)
  {
    if i in st.retired {
      assert i in st.interfaces;
      var s := st.interfaces[i];
      assert From(st.retired[i], 0) == st.retired[i];
      assert Blocked(s, wide, st.retired[i]) == wide + s.owners.Keys + From(st.retired[i], 0);
      NoteRetiredKeepsTight(s, st.retired[i], 0, wide + s.owners.Keys);
      NoteRetiredKeepsIface(s, st.retired[i], 0);
    }
  }

  lemma ReleaseKeepsTight(st: State, i: string, circuit: int, wide: set<U16>)
    requires Inv(st) && TightAt(st, i, wide)
    ensures TightAt(DoRelease(st, i, circuit), i, wide)
  {
    if i in st.interfaces && circuit in st.interfaces[i].circuits {
      var s := st.interfaces[i];
      var h := s.circuits[circuit];
      var s1 := s.(circuits := s.circuits - {circuit}, owners := s.owners - {h});
      var r := Remove(s, circuit);
      var taken := Blocked(s, wide, RetiredOf(st, i));
      NoteKeepsTight(s1, h, taken);
      NoteKeepsIface(s1, h);
      assert r == NoteReusable(s1, h);
      TightMonotone(r.next, taken - {h}, Blocked(r, wide, RetiredOf(st, i)));
    }
  }

  lemma RotateKeepsTight(st: State, i: string, circuit: int, reserved: set<U16>, wide: set<U16>)
    requires Inv(st) && TightAt(st, i, wide) && reserved <= wide
    ensures TightAt(DoRotate(st, i, circuit, reserved).0, i, wide)
  {
    var s, retired := IfaceOf(st, i), RetiredOf(st, i);
    AllocateKeepsTight(s, circuit, reserved, wide, retired);
    var (s', h) := Allocate(s, circuit, Blocked(s, reserved, retired));
    var st' := DoRotate(st, i, circuit, reserved).0;
    TightMonotone(s'.next, Blocked(s', wide, retired), Blocked(s', wide, RetiredOf(st', i)));
  }

  lemma StepKeepsTight(st: State, op: Op, i: string, wide: set<U16>)
    requires Inv(st) && TightAt(st, i, wide) && ReservedWithin(op, i, wide)
    ensures TightAt(Step(st, op).0, i, wide)
  {
    match op
    case Assign(j, c, reserved) =>
      if i == j { AllocateKeepsTight(IfaceOf(st, i), c, reserved, wide, RetiredOf(st, i)); }
    case Rotate(j, c, reserved) => if i == j { RotateKeepsTight(st, i, c, reserved, wide); }
    case Release(j, c) => if i == j { ReleaseKeepsTight(st, i, c, wide); }
    case ClearRetired => ClearKeepsTight(st, i, wide);
  }

  lemma {:induction false} RunKeepsTight(st: State, ops: seq<Op>, i: string, wide: set<U16>)
    requires Inv(st) && TightAt(st, i, wide)
    requires forall op :: op in ops ==> ReservedWithin(op, i, wide)
    ensures TightAt(Run(st, ops), i, wide)
    decreases |ops|
  {
    if ops == [] {
    } else {
      StepKeepsInv(st, ops[0]);
      StepKeepsTight(st, ops[0], i, wide);
      RunKeepsTight(Step(st, ops[0]).0, ops[1..], i, wide);
    }
  }

  /**
   * Over every run from a state whose hint is fresh, with reserved sets that stay within the
   * current one (one fixed set in particular), the next hinted search finds what the plain one does.
   */
  lemma HintedRunRefinesPlain(st: State, ops: seq<Op>, i: string, reserved: set<U16>)
    requires Inv(st) && IfaceOf(st, i).next == PREFERRED_CIRCUIT_START
    requires forall op :: op in ops ==> ReservedWithin(op, i, reserved)
    ensures var s := IfaceOf(Run(st, ops), i);
            var blocked := Blocked(s, reserved, RetiredOf(Run(st, ops), i));
            HintedSearch(s.next, blocked) == PlainSearch(s.next, blocked)
  {
    RunKeepsInv(st, ops);
    RunKeepsTight(st, ops, i, reserved);
    var s := IfaceOf(Run(st, ops), i);
    HintedIsPlainIff(s.next, Blocked(s, reserved, RetiredOf(Run(st, ops), i)));
  }

  // ----- Loading a persisted state -----

  /** Inserting the circuits in ascending order leaves each handle with the last circuit that has it. */
  ghost predicate LastOwners(circuits: map<int, U16>, owners: map<U16, int>) {
    && (forall h :: h in owners ==> owners[h] in circuits && circuits[owners[h]] == h)
    && (forall c :: c in circuits ==> circuits[c] in owners && c <= owners[circuits[c]])
  }

  /**
   * A persisted map loads into a consistent interface exactly when its handles are distinct
   * dynamic ones; nothing in the loader checks that.
   */
  lemma LoadedIsConsistentIff(circuits: map<int, U16>, owners: map<U16, int>)
    requires LastOwners(circuits, owners)
    ensures IfaceInv(Iface(circuits, owners, PREFERRED_CIRCUIT_START)) <==>
              (forall c :: c in circuits ==> Dynamic(circuits[c])) &&
              (forall c, d :: c in circuits && d in circuits && c != d ==> circuits[c] != circuits[d])
  {
    if forall c, d :: c in circuits && d in circuits && c != d ==> circuits[c] != circuits[d] {
      forall c | c in circuits ensures owners[circuits[c]] == c {
        assert circuits[owners[circuits[c]]] == circuits[c];
      }
    }
  }
}
