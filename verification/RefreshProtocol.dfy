/**
 * The refresh protocol between the scheduler and the topology runtime, as a state machine. The
 * runtime publishes payloads at any moment; the scheduler takes the published hash, refreshes the
 * shaper, and records the hash it took. Payload number v has hash log[v].
 */
module RefreshProtocol {
  import opened Common

  /**
   * Where a scheduler job is: between jobs, holding a target hash, done reading a payload for it,
   * or done refreshing the shaper from that payload.
   */
  datatype Pc = Idle | Took(target: nat) | Read(target: nat) | Done(target: nat)

  /**
   * `loaded` is the number of the payload a refresh last read, `applied` that of the payload the
   * last successful refresh read; -1 for none.
   */
  datatype State = State(log: seq<nat>, loaded: int, applied: int, recorded: nat, pc: Pc)

  const INIT := State([], -1, -1, 0, Idle)

  /** calculate_shaping_runtime_hash: 0 while nothing is published. */
  function Published(log: seq<nat>): (h: nat) {
    if log == [] then 0 else log[|log| - 1]
  }

  datatype Step =
    | Publish(hash: nat)
    | Take
    | TakeNothing
    | Drop
    | Load
    | Succeed
    | Mark
    | MarkUnread
    | Forget

  /** When a step may happen. Only Insight topology records a hash without refreshing. */
  predicate Enabled(s: State, step: Step, insight: bool) {
    match step
    case Publish(h) => h != 0
    case Take => s.pc.Idle?
    case TakeNothing => s.pc.Idle?
    case Drop => !s.pc.Idle?
    case Load => s.pc.Took? && s.log != []
    case Succeed => s.pc.Read?
    case Mark => s.pc.Done?
    case MarkUnread => s.pc.Took? && insight
    case Forget => s.pc.Idle?
  }

  function After(s: State, step: Step): (r: State)
  {
    match step
    case Publish(h) => s.(log := s.log + [h])
    case Take => s.(pc := Took(Published(s.log)))
    case TakeNothing => s.(pc := Took(0))
    case Drop => s.(pc := Idle)
    case Load => s.(loaded := |s.log| - 1, pc := Read(if s.pc.Took? then s.pc.target else 0))
    case Succeed => s.(applied := s.loaded, pc := Done(if s.pc.Read? then s.pc.target else 0))
    case Mark => s.(recorded := if s.pc.Idle? then 0 else s.pc.target, pc := Idle)
    case MarkUnread => s.(recorded := if s.pc.Idle? then 0 else s.pc.target, pc := Idle)
    case Forget => s.(recorded := 0)
  }

  function Run(s: State, steps: seq<Step>): (r: State)
    decreases |steps|
  {
    if steps == [] then s else Run(After(s, steps[0]), steps[1..])
  }

  predicate Possible(s: State, steps: seq<Step>, insight: bool)
    decreases |steps|
  {
    steps == [] || (Enabled(s, steps[0], insight) && Possible(After(s, steps[0]), steps[1..], insight))
  }

  /** Some payload with this hash was published no later than payload number `upTo`. */
  ghost predicate SeenBy(log: seq<nat>, hash: nat, upTo: int) {
    exists v :: 0 <= v < |log| && v <= upTo && log[v] == hash
  }

  ghost predicate Inv(s: State) {
    && -1 <= s.applied <= s.loaded < |s.log|
    && (s.recorded != 0 ==> SeenBy(s.log, s.recorded, s.applied))
    && (s.pc.Took? && s.pc.target != 0 ==> SeenBy(s.log, s.pc.target, |s.log| - 1))
    && (s.pc.Read? && s.pc.target != 0 ==> SeenBy(s.log, s.pc.target, s.loaded))
    && (s.pc.Done? && s.pc.target != 0 ==> SeenBy(s.log, s.pc.target, s.applied))
  }

  lemma SeenLater(log: seq<nat>, hash: nat, upTo: int, log': seq<nat>, upTo': int)
    requires SeenBy(log, hash, upTo) && log <= log' && upTo <= upTo'
    ensures SeenBy(log', hash, upTo')
  {
    var v :| 0 <= v < |log| && v <= upTo && log[v] == hash;
    assert log'[v] == hash;
  }

  lemma StepKeepsInv(s: State, step: Step)
    requires Inv(s) && Enabled(s, step, false)
    ensures Inv(After(s, step))
  {
    var r := After(s, step);
    if s.recorded != 0 { SeenLater(s.log, s.recorded, s.applied, r.log, r.applied); }
    match step
    case Publish(h) =>
      if s.pc.Took? && s.pc.target != 0 { SeenLater(s.log, s.pc.target, |s.log| - 1, r.log, |r.log| - 1); }
      if s.pc.Read? && s.pc.target != 0 { SeenLater(s.log, s.pc.target, s.loaded, r.log, r.loaded); }
      if s.pc.Done? && s.pc.target != 0 { SeenLater(s.log, s.pc.target, s.applied, r.log, r.applied); }
    case Take =>
      if s.log != [] { assert s.log[|s.log| - 1] == r.pc.target; }
    case _ =>
  }

  lemma {:induction false} RunKeepsInv(s: State, steps: seq<Step>)
    requires Inv(s) && Possible(s, steps, false)
    ensures Inv(Run(s, steps))
    decreases |steps|
  {
    if steps == [] {
    } else {
      StepKeepsInv(s, steps[0]);
      RunKeepsInv(After(s, steps[0]), steps[1..]);
    }
  }

  /** A recorded hash equal to the published one means that a successful refresh has applied that payload. */
  ghost predicate UpToDate(s: State) {
    s.recorded != 0 && s.recorded == Published(s.log) ==> s.applied == |s.log| - 1
  }

  /**
   * Safety, for every interleaving of publications and scheduler steps with Insight topology off:
   * as long as no hash was published twice, the shaper is never believed newer than it is.
   */
  lemma NeverBelievedNewer(steps: seq<Step>)
    requires Possible(INIT, steps, false) && Distinct(Run(INIT, steps).log)
    ensures UpToDate(Run(INIT, steps))
  {
    NewestHashBelieved(steps);
  }

  /** Insight topology records the hash without a refresh: the belief is wrong after two steps. */
  lemma InsightBelievesWithoutLoading(h: nat)
    requires h != 0
    ensures var steps := [Publish(h), Take, MarkUnread];
            && Possible(INIT, steps, true) && Distinct(Run(INIT, steps).log) && !UpToDate(Run(INIT, steps))
  {
    var steps := [Publish(h), Take, MarkUnread];
    var s1 := After(INIT, steps[0]);
    var s2 := After(s1, steps[1]);
    var s3 := After(s2, steps[2]);
    assert steps[1..] == [Take, MarkUnread] && steps[1..][1..] == [MarkUnread] && [MarkUnread][1..] == [];
    assert Run(s2, [MarkUnread]) == Run(s3, []) == s3;
    assert Run(s1, [Take, MarkUnread]) == s3;
    assert Possible(s2, [MarkUnread], true);
    assert Possible(s1, [Take, MarkUnread], true);
    assert s3.log == [h] && s3.applied == -1 && s3.recorded == h;
  }

  /** Exactly when the protocol is safe on all its runs: Insight topology is off. */
  lemma SafeIffNoInsight(insight: bool)
    ensures (forall steps :: Possible(INIT, steps, insight) && Distinct(Run(INIT, steps).log) ==>
      UpToDate(Run(INIT, steps)))
            <==> !insight
  {
    if insight {
      InsightBelievesWithoutLoading(1);
    } else {
      forall steps | Possible(INIT, steps, insight) && Distinct(Run(INIT, steps).log)
        ensures UpToDate(Run(INIT, steps))
      {
        NeverBelievedNewer(steps);
      }
    }
  }

  /**
   * Without distinct hashes the conclusion fails: a failed refresh leaves hash A recorded, and
   * publishing A again makes the scheduler believe it is current.
   */
  lemma RepeatedHashFoolsTheScheduler(a: nat, b: nat)
    requires a != 0 && b != 0
    ensures var steps := [Publish(a), Take, Load, Succeed, Mark] + [Publish(b), Take, Load, Drop] + [Publish(a)];
            Possible(INIT, steps, false) && !UpToDate(Run(INIT, steps))
  {
    var p, q, last := [Publish(a), Take, Load, Succeed, Mark], [Publish(b), Take, Load, Drop], [Publish(a)];
    var s5 := State([a], 0, 0, a, Idle);
    var s9 := State([a, b], 1, 0, a, Idle);
    RefreshSucceeds(INIT, a, s5);
    RefreshFails(s5, b, s9);
    assert p + q + last == p + (q + last);
    RunAppend(INIT, p, q + last);
    RunAppend(s5, q, last);
    assert last[1..] == [];
    var s10 := After(s9, Publish(a));
    assert Run(s9, last) == Run(s10, []) == s10;
    assert Possible(s10, [], false);
    assert s10.log == [a, b, a];
  }

  lemma OneStep(s: State, step: Step, rest: seq<Step>)
    requires Enabled(s, step, false) && Possible(After(s, step), rest, false)
    ensures Possible(s, [step] + rest, false) && Run(s, [step] + rest) == Run(After(s, step), rest)
  {
    assert ([step] + rest)[1..] == rest;
  }

  /** From having taken the hash of the newest payload: read it, and then the given steps. */
  lemma TakeAndLoad(s: State, h: nat, rest: seq<Step>)
    requires s.pc.Idle? && h != 0
    requires Possible(State(s.log + [h], |s.log|, s.applied, s.recorded, Read(h)), rest, false)
    ensures var steps := [Publish(h)] + ([Take] + ([Load] + rest));
            && Possible(s, steps, false)
            && Run(s, steps) == Run(State(s.log + [h], |s.log|, s.applied, s.recorded, Read(h)), rest)
  {
    var s1 := After(s, Publish(h));
    var s2 := After(s1, Take);
    OneStep(s2, Load, rest);
    OneStep(s1, Take, [Load] + rest);
    OneStep(s, Publish(h), [Take] + ([Load] + rest));
  }

  /** Publish a payload and refresh from it. */
  lemma RefreshSucceeds(s: State, h: nat, r: State)
    requires s.pc.Idle? && h != 0 && r == State(s.log + [h], |s.log|, |s.log|, h, Idle)
    ensures var steps := [Publish(h), Take, Load, Succeed, Mark];
            Possible(s, steps, false) && Run(s, steps) == r
  {
    var s3 := State(s.log + [h], |s.log|, s.applied, s.recorded, Read(h));
    var s4 := After(s3, Succeed);
    OneStep(s4, Mark, []);
    OneStep(s3, Succeed, [Mark]);
    assert [Mark] + [] == [Mark] && [Succeed] + [Mark] == [Succeed, Mark];
    TakeAndLoad(s, h, [Succeed, Mark]);
    assert [Publish(h)] + ([Take] + ([Load] + [Succeed, Mark])) == [Publish(h), Take, Load, Succeed, Mark];
  }

  /** Publish a payload and start a refresh that reads it and fails. */
  lemma RefreshFails(s: State, h: nat, r: State)
    requires s.pc.Idle? && h != 0 && r == State(s.log + [h], |s.log|, s.applied, s.recorded, Idle)
    ensures var steps := [Publish(h), Take, Load, Drop];
            Possible(s, steps, false) && Run(s, steps) == r
  {
    var s3 := State(s.log + [h], |s.log|, s.applied, s.recorded, Read(h));
    OneStep(s3, Drop, []);
    assert [Drop] + [] == [Drop];
    TakeAndLoad(s, h, [Drop]);
    assert [Publish(h)] + ([Take] + ([Load] + [Drop])) == [Publish(h), Take, Load, Drop];
  }

  /** The steps that publish these hashes and nothing else. */
  function Publishing(hashes: seq<nat>): (steps: seq<Step>)
    ensures |steps| == |hashes|
  {
    if hashes == [] then [] else [Publish(hashes[0])] + Publishing(hashes[1..])
  }

  lemma {:induction false} PublishingRuns(s: State, hashes: seq<nat>)
    requires forall h :: h in hashes ==> h != 0
    ensures Possible(s, Publishing(hashes), false)
    ensures Run(s, Publishing(hashes)) == s.(log := s.log + hashes)
    decreases |hashes|
  {
    if hashes == [] {
      assert s.log + hashes == s.log;
    } else {
      var steps, s' := Publishing(hashes), After(s, Publish(hashes[0]));
      assert hashes[0] in hashes && steps[0] == Publish(hashes[0]) && steps[1..] == Publishing(hashes[1..]);
      assert forall h :: h in hashes[1..] ==> h in hashes;
      PublishingRuns(s', hashes[1..]);
      assert s'.log + hashes[1..] == s.log + hashes;
    }
  }

  /** Everything up to payload v, one whole refresh, then the rest: v is applied and its hash recorded. */
  lemma RefreshOnceAt(log: seq<nat>, v: nat) returns (steps: seq<Step>)
    requires v < |log| && forall h :: h in log ==> h != 0
    ensures Possible(INIT, steps, false) && Run(INIT, steps) == State(log, v, v, log[v], Idle)
  {
    var first, rest := log[..v], log[v + 1..];
    var refresh := [Publish(log[v]), Take, Load, Succeed, Mark];
    var s1 := State(first, -1, -1, 0, Idle);
    var s2 := State(first + [log[v]], v, v, log[v], Idle);
    assert log[v] in log;
    StartsWith(first, log);
    RefreshSucceeds(s1, log[v], s2);
    EndsWith(s2, rest, log);
    RunAppend(s1, refresh, Publishing(rest));
    RunAppend(INIT, Publishing(first), refresh + Publishing(rest));
    steps := Publishing(first) + (refresh + Publishing(rest));
  }

  lemma StartsWith(first: seq<nat>, log: seq<nat>)
    requires first <= log && forall h :: h in log ==> h != 0
    ensures Possible(INIT, Publishing(first), false) && Run(INIT, Publishing(first)) == State(first, -1, -1, 0, Idle)
  {
    assert forall h :: h in first ==> h in log;
    PublishingRuns(INIT, first);
    assert [] + first == first;
  }

  lemma EndsWith(s: State, rest: seq<nat>, log: seq<nat>)
    requires |s.log| <= |log| && s.log == log[..|s.log|] && rest == log[|s.log|..] && forall h :: h in log ==> h != 0
    ensures Possible(s, Publishing(rest), false) && Run(s, Publishing(rest)) == s.(log := log)
  {
    assert forall h :: h in rest ==> h in log;
    PublishingRuns(s, rest);
    assert s.log + rest == log;
  }

  /**
   * Which publications keep the belief true on every run that makes them, Insight topology off:
   * exactly those whose newest hash was not published before.
   */
  lemma SafeIffNewestHashIsNew(log: seq<nat>)
    requires log != [] && forall h :: h in log ==> h != 0
    ensures (forall steps :: Possible(INIT, steps, false) && Run(INIT, steps).log == log ==> UpToDate(Run(INIT, steps)))
            <==> log[|log| - 1] !in log[..|log| - 1]
  {
    var last, older := log[|log| - 1], log[..|log| - 1];
    if last in older {
      var v :| 0 <= v < |older| && older[v] == last;
      var steps := RefreshOnceAt(log, v);
      assert log[v] in log && log[v] == last;
      assert !UpToDate(Run(INIT, steps));
    } else {
      forall steps | Possible(INIT, steps, false) && Run(INIT, steps).log == log ensures UpToDate(Run(INIT, steps)) {
        NewestHashBelieved(steps);
      }
    }
  }

  lemma NewestHashBelieved(steps: seq<Step>)
    requires Possible(INIT, steps, false)
    requires var log := Run(INIT, steps).log; log != [] ==> log[|log| - 1] !in log[..|log| - 1]
    ensures UpToDate(Run(INIT, steps))
  {
    RunKeepsInv(INIT, steps);
    var s := Run(INIT, steps);
    assert forall v :: 0 <= v < |s.log| - 1 ==> s.log[v] in s.log[..|s.log| - 1];
    if s.recorded != 0 && s.recorded == Published(s.log) {
      var v :| 0 <= v < |s.log| && v <= s.applied && s.log[v] == s.recorded;
    }
  }

  lemma {:induction false} RunAppend(s: State, a: seq<Step>, b: seq<Step>)
    ensures Run(s, a + b) == Run(Run(s, a), b)
    ensures forall insight :: Possible(s, a + b, insight) <==>
      Possible(s, a, insight) && Possible(Run(s, a), b, insight)
    decreases |a|
  {
    if a == [] {
      assert a + b == b;
    } else {
      assert (a + b)[1..] == a[1..] + b;
      RunAppend(After(s, a[0]), a[1..], b);
    }
  }
}
