/**
 * The mutable allocator. Every method is proved to do to the abstract value of its object what
 * the functions of QdiscHandles do to a value.
 */
module HandleAllocator {
  import opened Common
  import opened QdiscHandles

  class InterfaceHandleState {
    var circuits: map<int, U16>
    var owners: map<U16, int>
    var next: U16

    ghost function Value(): (s: Iface)
      reads this
    {
      Iface(circuits, owners, next)
    }

    constructor ()
      ensures Value() == DEFAULT_IFACE
    {
      circuits, owners, next := map[], map[], PREFERRED_CIRCUIT_START;
    }

    /** Rebuilds the owners from a persisted map, circuits in ascending order. */
    constructor FromCircuits(persisted: map<int, U16>)
      ensures circuits == persisted && next == PREFERRED_CIRCUIT_START
      ensures LastOwners(circuits, owners)
    {
      circuits, next := persisted, PREFERRED_CIRCUIT_START;
      owners := map[];
      new;
      var rest := persisted.Keys;
      while rest != {}
        invariant rest <= persisted.Keys && circuits == persisted && next == PREFERRED_CIRCUIT_START
        invariant forall c, d :: c in persisted.Keys - rest && d in rest ==> c < d
        invariant forall h :: h in owners ==> owners[h] in persisted.Keys - rest && persisted[owners[h]] == h
        invariant forall c :: c in persisted.Keys - rest ==> persisted[c] in owners && c <= owners[persisted[c]]
        decreases rest
      {
        var c := Least(rest);
        owners := owners[persisted[c] := c];
        rest := rest - {c};
      }
    }

    method NoteReusableHandle(handle: U16)
      modifies this
      ensures Value() == NoteReusable(old(Value()), handle)
    {
      if handle >= PREFERRED_CIRCUIT_START || next < PREFERRED_CIRCUIT_START {
        next := if handle < next then handle else next;
      } else if circuits == map[] {
        next := PREFERRED_CIRCUIT_START;
      }
    }

    method InsertCircuit(circuit: int, handle: U16)
      modifies this
      ensures Value() == Insert(old(Value()), circuit, handle)
    {
      var had := circuit in circuits;
      var previous: U16 := if had then circuits[circuit] else 0;
      circuits := circuits[circuit := handle];
      if had {
        owners := owners - {previous};
        NoteReusableHandle(previous);
      }
      owners := owners[handle := circuit];
      if next == handle {
        next := Advance(handle);
      }
    }

    method RemoveCircuit(circuit: int) returns (removed: Option<U16>)
      modifies this
      ensures Value() == Remove(old(Value()), circuit)
      ensures removed == if circuit in old(circuits) then Some(old(circuits)[circuit]) else None
    {
      if circuit !in circuits {
        return None;
      }
      var handle := circuits[circuit];
      circuits := circuits - {circuit};
      owners := owners - {handle};
      NoteReusableHandle(handle);
      removed := Some(handle);
    }

    /** The scanning loop: the smallest handle of start..end that is not taken. */
    method ScanAvailable(start: U16, end: U16, reserved: set<U16>, retired: set<U16>) returns (r: Option<U16>)
      ensures r == FirstFree(start, end, Blocked(Value(), reserved, retired))
    {
      ghost var blocked := Blocked(Value(), reserved, retired);
      var handle: int := start;
      while handle <= end
        invariant start <= handle <= 0x1_0000
        invariant handle <= end + 1 || start > end
        invariant forall h: U16 :: start <= h < handle ==> h in blocked
        decreases end - handle
      {
        var h: U16 := handle;
        if h !in reserved && h !in owners && h !in retired {
          FirstFreeUnique(start, end, blocked, h);
          return Some(h);
        }
        handle := handle + 1;
      }
      r := None;
    }

    /** The four scans, in order. */
    method SearchFrom(start: U16, reserved: set<U16>, retired: set<U16>) returns (r: Option<U16>)
      ensures r == HintedSearch(start, Blocked(Value(), reserved, retired))
    {
      r := ScanAvailable(start, MAX_DYNAMIC_HANDLE_MAJOR, reserved, retired);
      if r.Some? {
        return;
      }
      if start > PREFERRED_CIRCUIT_START {
        r := ScanAvailable(PREFERRED_CIRCUIT_START, start - 1, reserved, retired);
        if r.Some? {
          return;
        }
      }
      var lowStart: U16 := if start < PREFERRED_CIRCUIT_START then (if start < 1 then 1 else start) else 1;
      r := ScanAvailable(lowStart, PREFERRED_CIRCUIT_START - 1, reserved, retired);
      if r.None? && lowStart > 1 {
        r := ScanAvailable(1, lowStart - 1, reserved, retired);
      }
    }

    method NextFreeHandle(reserved: set<U16>, retired: set<U16>) returns (r: Option<U16>)
      modifies this
      ensures r == HintedSearch(old(next), Blocked(old(Value()), reserved, retired))
      ensures Value() == if r.Some? then old(Value()).(next := Advance(r.value)) else old(Value())
    {
      r := SearchFrom(next, reserved, retired);
      if r.Some? {
        next := Advance(r.value);
      }
    }
  }

  method AllocateCircuit(s: InterfaceHandleState, circuit: int, reserved: set<U16>,
                         retired: set<U16>) returns (r: Option<U16>)
    modifies s
    ensures (s.Value(), r) == Allocate(old(s.Value()), circuit, Blocked(old(s.Value()), reserved, retired))
  {
    r := s.NextFreeHandle(reserved, retired);
    if r.Some? {
      s.InsertCircuit(circuit, r.value);
    }
  }

  lemma {:induction false} HasLeast(s: set<int>, x: int)
    requires x in s
    ensures exists c :: c in s && forall d :: d in s ==> c <= d
    decreases |s|
  {
    if y :| y in s && y < x {
      HasLeast(s - {x}, y);
      var c :| c in s - {x} && forall d :: d in s - {x} ==> c <= d;
      forall d | d in s ensures c <= d { assert d == x || d in s - {x}; }
      assert c in s;
    }
  }

  method Least(s: set<int>) returns (c: int)
    requires s != {}
    ensures c in s && forall d :: d in s ==> c <= d
  {
    SomeInt(s);
    ghost var x :| x in s;
    HasLeast(s, x);
    c :| c in s && forall d :: d in s ==> c <= d;
  }

  class QdiscHandleState {
    var interfaces: map<string, InterfaceHandleState>
    var retired: map<string, set<U16>>

    /** Every interface has its own state object. */
    ghost predicate Valid()
      reads this
    {
      forall i, j :: i in interfaces && j in interfaces && i != j ==> interfaces[i] != interfaces[j]
    }

    ghost function Value(): (st: State)
      reads this, interfaces.Values
    {
      State(map i | i in interfaces :: interfaces[i].Value(), retired)
    }

    constructor ()
      ensures Valid() && Value() == State(map[], map[])
    {
      interfaces, retired := map[], map[];
    }

    /** The entry().or_default() of the allocation paths. */
    method Entry(i: string) returns (s: InterfaceHandleState)
      requires Valid()
      modifies this
      ensures Valid() && i in interfaces && s == interfaces[i] && retired == old(retired)
      ensures i in old(interfaces) ==> interfaces == old(interfaces)
      ensures i !in old(interfaces) ==> fresh(s) && interfaces == old(interfaces)[i := s]
      ensures s.Value() == IfaceOf(old(Value()), i)
      ensures Value() == old(Value()).(interfaces := old(Value()).interfaces[i := s.Value()])
    {
      if i !in interfaces {
        var created := new InterfaceHandleState();
        interfaces := interfaces[i := created];
      }
      s := interfaces[i];
    }

    /** The part both allocation paths share: search, then insert. */
    method AllocateFor(i: string, circuit: int, reserved: set<U16>) returns (r: Option<U16>)
      requires Valid()
      modifies this, interfaces.Values
      ensures Valid() && retired == old(retired)
      ensures forall j :: j in interfaces ==>
        (j in old(interfaces) && interfaces[j] == old(interfaces)[j]) || fresh(interfaces[j])
      ensures var s := IfaceOf(old(Value()), i);
              var (s', h) := Allocate(s, circuit, Blocked(s, reserved, RetiredOf(old(Value()), i)));
              r == h && Value() == old(Value()).(interfaces := old(Value()).interfaces[i := s'])
    {
      ghost var before := Value();
      var s := Entry(i);
      r := AllocateEntered(i, circuit, reserved);
      UpdatedTwice(before.interfaces, i, IfaceOf(before, i), s.Value());
    }

    /** The same once the interface has its entry: only that entry changes. */
    method AllocateEntered(i: string, circuit: int, reserved: set<U16>) returns (r: Option<U16>)
      requires Valid() && i in interfaces
      modifies interfaces[i]
      ensures (interfaces[i].Value(), r) ==
              Allocate(old(interfaces[i].Value()), circuit,
                       Blocked(old(interfaces[i].Value()), reserved, RetiredOf(old(Value()), i)))
      ensures Value() == old(Value()).(interfaces := old(Value()).interfaces[i := interfaces[i].Value()])
    {
      ghost var before := Value();
      r := AllocateCircuit(interfaces[i], circuit, reserved, if i in retired then retired[i] else {});
      OnlyChanged(before, Value(), i, interfaces[i].Value());
    }

    method AssignCircuitHandle(i: string, circuit: int, reserved: set<U16>) returns (r: Option<U16>)
      requires Valid()
      modifies this, interfaces.Values
      ensures Valid()
      ensures forall j :: j in interfaces ==>
        (j in old(interfaces) && interfaces[j] == old(interfaces)[j]) || fresh(interfaces[j])
      ensures (Value(), r) == DoAssign(old(Value()), i, circuit, reserved)
    {
      if i in interfaces && circuit in interfaces[i].circuits {
        var existing := interfaces[i].circuits[circuit];
        if existing !in reserved && existing in interfaces[i].owners && interfaces[i].owners[existing] == circuit {
          return Some(existing);
        }
      }
      r := AllocateFor(i, circuit, reserved);
    }

    /** retired_handles.entry(interface).or_default().insert(handle) */
    method Retire(i: string, handle: U16)
      modifies this`retired
      ensures Value() == old(Value()).(retired := old(retired)[i := RetiredOf(old(Value()), i) + {handle}])
    {
      retired := retired[i := (if i in retired then retired[i] else {}) + {handle}];
    }

    method RotateCircuitHandle(i: string, circuit: int, reserved: set<U16>) returns (r: Option<U16>)
      requires Valid()
      modifies this, interfaces.Values
      ensures Valid()
      ensures (Value(), r) == DoRotate(old(Value()), i, circuit, reserved)
    {
      var had := i in interfaces && circuit in interfaces[i].circuits;
      var previous: U16 := if had then interfaces[i].circuits[circuit] else 0;
      r := AllocateFor(i, circuit, reserved);
      if r.Some? && had {
        Retire(i, previous);
      }
    }

    method ReleaseCircuit(i: string, circuit: int) returns (released: bool)
      requires Valid()
      modifies interfaces.Values
      ensures Valid()
      ensures Value() == DoRelease(old(Value()), i, circuit)
      ensures released <==> i in old(Value()).interfaces && circuit in old(Value()).interfaces[i].circuits
    {
      if i !in interfaces {
        return false;
      }
      var removed := interfaces[i].RemoveCircuit(circuit);
      released := removed.Some?;
    }

    method ClearOne(s: InterfaceHandleState, i: string)
      modifies s
      ensures s.Value() == ClearedIface(old(s.Value()), i, retired)
    {
      if i in retired {
        NoteAll(s, retired[i]);
      }
    }

    method ClearEach()
      requires Valid()
      modifies interfaces.Values
      ensures forall i :: i in interfaces ==>
        interfaces[i].Value() == ClearedIface(old(interfaces[i].Value()), i, retired)
    {
      var rest := interfaces.Keys;
      while rest != {}
        invariant rest <= interfaces.Keys
        invariant forall i :: i in interfaces && i in rest ==> interfaces[i].Value() == old(interfaces[i].Value())
        invariant forall i :: i in interfaces && i !in rest ==>
          interfaces[i].Value() == ClearedIface(old(interfaces[i].Value()), i, retired)
        decreases rest
      {
        var i :| i in rest;
        ClearOne(interfaces[i], i);
        rest := rest - {i};
      }
    }

    /** Every retired handle becomes reusable, interface by interface. */
    method ClearRetiredHandles()
      requires Valid()
      modifies this`retired, interfaces.Values
      ensures Valid() && interfaces == old(interfaces)
      ensures Value() == DoClear(old(Value()))
    {
      ghost var before := Value();
      ClearEach();
      ghost var after := Value().interfaces;
      retired := map[];
      assert Value().interfaces == after;
      AllCleared(before, after);
    }
  }

  lemma AllCleared(before: State, after: map<string, Iface>)
    requires after.Keys == before.interfaces.Keys
    requires forall i :: i in after ==> after[i] == ClearedIface(before.interfaces[i], i, before.retired)
    ensures after == DoClear(before).interfaces
  {
  }

  lemma UpdatedTwice(m: map<string, Iface>, i: string, a: Iface, b: Iface)
    ensures m[i := a][i := b] == m[i := b]
  {
  }

  lemma OnlyChanged(before: State, after: State, i: string, s: Iface)
    requires after.retired == before.retired
    requires after.interfaces.Keys == before.interfaces.Keys + {i}
    requires forall j :: j in after.interfaces ==> after.interfaces[j] == if j == i then s else before.interfaces[j]
    ensures after == before.(interfaces := before.interfaces[i := s])
  {
  }

  /** The inner loop of the clear: the retired handles of one interface, ascending. */
  method NoteAll(s: InterfaceHandleState, retired: set<U16>)
    modifies s
    ensures s.Value() == NoteRetired(old(s.Value()), retired, 0)
  {
    var h := 0;
    while h < 0x1_0000
      invariant 0 <= h <= 0x1_0000
      invariant NoteRetired(s.Value(), retired, h) == NoteRetired(old(s.Value()), retired, 0)
      decreases 0x1_0000 - h
    {
      if h in retired {
        s.NoteReusableHandle(h);
      }
      h := h + 1;
    }
  }
}
