/**
 * The scheduler's jobs over its module globals. Everything the outside decides during a job
 * (readiness, clock, outcome of the refresh, payloads published meanwhile) is a parameter. A
 * ghost history of protocol steps shows that every job is a run of the refresh protocol.
 */
module Scheduler {
  import opened Common
  import opened RefreshProtocol

  datatype Outcome = Success | ValidationFailed | StaleInputs | OtherFailure

  datatype Readiness = Readiness(ready: bool, transient: bool, generation: Option<string>)

  /** One job's view of the outside. */
  datatype Outside = Outside(
    runtimeReady: bool,           // wait_for_topology_runtime_ready()
    readiness: Readiness,         // topology_runtime_readiness_detail() at the start
    readinessAfterFailure: Readiness,
    hashReadable: bool,
    outcome: Outcome,
    readBeforeFailing: bool,      // whether a failing refresh had read the payload
    now: real,
    beforeTake: seq<nat>,         // hashes published before the hash is taken,
    beforeLoad: seq<nat>,         // before the refresh reads the payload,
    beforeMark: seq<nat>)         // and before the refresh returns

  const MAX_WAIT_SECONDS := 120.0

  datatype Report = Waiting(token: string) | Degraded(generation: Option<string>)

  /** The globals of one wait machine. */
  datatype Wait = Wait(pending: bool, generation: Option<string>, started: Option<real>, lastReport: Option<Report>)

  const NO_WAIT := Wait(false, None, None, None)

  function WaitingReport(generation: Option<string>): (r: Report) {
    Waiting(if generation.None? || generation.value == "" then "unknown" else generation.value)
  }

  /** _begin_*_topology_runtime_wait: the clock restarts only for a new wait or a new generation. */
  function Begin(w: Wait, generation: Option<string>, now: real): (r: Wait)
    ensures r.pending && r.generation == generation && r.lastReport == Some(WaitingReport(generation))
    ensures r.started == if w.pending && w.generation == generation then w.started else Some(now)
  {
    var base := if !w.pending || w.generation != generation then Wait(true, generation, Some(now), None) else w;
    base.(lastReport := Some(WaitingReport(generation)))
  }

  /** The generation check at the start of a continued wait. */
  function Observe(w: Wait, generation: Option<string>, now: real): (r: Wait)
    ensures r.pending == w.pending && r.generation == generation
    ensures r.started == if w.generation == generation then w.started else Some(now)
  {
    if w.generation != generation then w.(generation := generation, started := Some(now), lastReport := None) else w
  }

  /** The not-ready end of a continued wait. */
  function KeepWaiting(w: Wait, readiness: Readiness, now: real): (r: Wait)
    ensures r.pending == w.pending && r.generation == w.generation
    ensures r.started == if w.started.None? then Some(now) else w.started
  {
    var started := if w.started.None? then now else w.started.value;
    var elapsed := if now - started > 0.0 then now - started else 0.0;
    var w1 := w.(started := Some(started));
    if readiness.transient && elapsed < MAX_WAIT_SECONDS
    then w1.(lastReport := Some(WaitingReport(readiness.generation)))
    else w1.(lastReport := Some(Degraded(readiness.generation)))
  }

  /** One more tick of a wait that finds the runtime not ready. */
  function StillWaiting(w: Wait, readiness: Readiness, now: real): (r: Wait) {
    KeepWaiting(Observe(w, readiness.generation, now), readiness, now)
  }

  datatype Look = Look(readiness: Readiness, now: real)

  function WaitAfter(w: Wait, looks: seq<Look>): (r: Wait)
    decreases |looks|
  {
    if looks == [] then w else WaitAfter(StillWaiting(w, looks[0].readiness, looks[0].now), looks[1..])
  }

  /**
   * A wait for one generation, begun at t: over any number of looks it stays pending with its
   * start, and the last look reports a wait exactly while the state is transient and less than
   * two minutes have passed since t; otherwise it reports a degraded start.
   */
  lemma {:induction false} WaitDegradesIff(w: Wait, t: real, looks: seq<Look>)
    requires w.pending && w.started == Some(t) && looks != []
    requires forall l :: l in looks ==> l.readiness.generation == w.generation
    ensures var r, last := WaitAfter(w, looks), looks[|looks| - 1];
      && r.pending && r.generation == w.generation && r.started == Some(t)
      && r.lastReport == Some(if last.readiness.transient && last.now < t + 120.0 then WaitingReport(w.generation)
                              else Degraded(w.generation))
    decreases |looks|
  {
    var w1 := StillWaiting(w, looks[0].readiness, looks[0].now);
    assert looks[0] in looks;
    if |looks| == 1 {
      assert WaitAfter(w, looks) == WaitAfter(w1, []);
    } else {
      assert forall l :: l in looks[1..] ==> l in looks;
      WaitDegradesIff(w1, t, looks[1..]);
    }
  }

  /** The hashes that are really published: 0 is none. */
  function NonZero(hashes: seq<nat>): (r: seq<nat>) {
    if hashes == [] then []
    else NonZero(hashes[..|hashes| - 1]) + if hashes[|hashes| - 1] != 0 then [hashes[|hashes| - 1]] else []
  }

  /** What is published when a job takes its hash, and when its refresh reads. */
  function AtTake(log: seq<nat>, out: Outside): (r: seq<nat>) {
    log + NonZero(out.beforeTake)
  }

  function AtLoad(log: seq<nat>, out: Outside): (r: seq<nat>) {
    AtTake(log, out) + NonZero(out.beforeLoad)
  }

  function Taken(log: seq<nat>, out: Outside): (hash: nat) {
    if out.hashReadable then Published(AtTake(log, out)) else 0
  }

  /** A refresh fails on its own when there is nothing to read. */
  function Outcomes(log: seq<nat>, out: Outside): (o: Outcome) {
    if out.outcome.Success? && AtLoad(log, out) == [] then OtherFailure else out.outcome
  }

  class Jobs {
    var log: seq<nat>
    var loaded: int
    var applied: int
    var recorded: nat
    var startup: Wait
    var partialWait: Wait
    const insight: bool
    ghost var pc: Pc
    ghost var steps: seq<Step>

    ghost function Snapshot(): (s: State)
      reads this
    {
      State(log, loaded, applied, recorded, pc)
    }

    /** What happened so far is a run of the protocol that ends here. */
    ghost predicate OnTrack()
      reads this
    {
      Possible(INIT, steps, insight) && Run(INIT, steps) == Snapshot()
    }

    /** Nothing new is applied, and no hash is recorded for it. */
    ghost predicate NothingApplied(appliedBefore: int, recordedBefore: nat)
      reads this
    {
      applied == appliedBefore && (recorded == recordedBefore || recorded == 0)
    }

    /** Between jobs. */
    ghost predicate Valid()
      reads this
    {
      OnTrack() && pc.Idle?
    }

    constructor (insightTopology: bool)
      ensures Valid() && insight == insightTopology && log == [] && recorded == 0 && startup == NO_WAIT
      ensures partialWait == NO_WAIT
    {
      log, loaded, applied, recorded := [], -1, -1, 0;
      startup, partialWait := NO_WAIT, NO_WAIT;
      insight := insightTopology;
      pc, steps := Idle, [];
    }

    ghost method Did(step: Step, before: State)
      requires Possible(INIT, steps, insight) && Run(INIT, steps) == before && Enabled(before, step, insight)
      requires After(before, step) == Snapshot()
      modifies this`steps
      ensures OnTrack() && steps == old(steps) + [step]
    {
      RunAppend(INIT, steps, [step]);
      assert [step][1..] == [];
      assert Possible(After(before, step), [], insight);
      assert Possible(before, [step], insight);
      assert Run(before, [step]) == Run(After(before, step), []);
      steps := steps + [step];
    }

    /** The topology runtime publishes while a job is under way. */
    method Publications(hashes: seq<nat>)
      requires OnTrack()
      modifies this`log, this`steps
      ensures OnTrack() && log == old(log) + NonZero(hashes)
    {
      for i := 0 to |hashes|
        invariant OnTrack() && log == old(log) + NonZero(hashes[..i])
      {
        assert hashes[..i + 1][..i] == hashes[..i] && hashes[..i + 1][i] == hashes[i];
        if hashes[i] != 0 {
          ghost var before := Snapshot();
          log := log + [hashes[i]];
          Did(Publish(hashes[i]), before);
        }
      }
      assert hashes[..|hashes|] == hashes;
    }

    /** calculate_shaping_runtime_hash at the start of a refresh decision. */
    method TakeHash(readable: bool, meanwhile: seq<nat>) returns (hash: nat)
      requires Valid()
      modifies this`log, this`pc, this`steps
      ensures OnTrack() && pc == Took(hash) && log == old(log) + NonZero(meanwhile)
      ensures hash == if readable then Published(log) else 0
    {
      Publications(meanwhile);
      ghost var before := Snapshot();
      hash := if readable then Published(log) else 0;
      pc := Took(hash);
      Did(if readable then Take else TakeNothing, before);
    }

    method GiveUp()
      requires OnTrack() && !pc.Idle?
      modifies this`pc, this`steps
      ensures Valid()
    {
      ghost var before := Snapshot();
      pc := Idle;
      Did(Drop, before);
    }

    /**
     * refreshShapers(): reads the payload published at that moment, or fails before or after
     * reading it. Only a successful refresh applies what it read.
     */
    method RefreshShapers(out: Outside) returns (outcome: Outcome)
      requires OnTrack() && pc.Took?
      modifies this`log, this`loaded, this`applied, this`pc, this`steps
      ensures OnTrack() && old(log) <= log
      ensures var read := old(log) + NonZero(out.beforeLoad);
        && outcome == (if out.outcome.Success? && read == [] then OtherFailure else out.outcome)
        && (outcome.Success? ==>
              pc == Done(old(pc).target) && applied == |read| - 1 && log == read + NonZero(out.beforeMark))
        && (!outcome.Success? ==> pc.Idle? && applied == old(applied))
    {
      Publications(out.beforeLoad);
      if log == [] || (!out.outcome.Success? && !out.readBeforeFailing) {
        GiveUp();
        return if out.outcome.Success? then OtherFailure else out.outcome;
      }
      ghost var before := Snapshot();
      loaded := |log| - 1;
      pc := Read(pc.target);
      Did(Load, before);
      Publications(out.beforeMark);
      if out.outcome.Success? {
        before := Snapshot();
        applied := loaded;
        pc := Done(pc.target);
        Did(Succeed, before);
      } else {
        GiveUp();
      }
      outcome := out.outcome;
    }

    /** mark_shaping_runtime_hash_applied after a successful refresh. */
    method MarkApplied(hash: nat)
      requires OnTrack() && pc == Done(hash)
      modifies this`recorded, this`pc, this`steps
      ensures Valid() && recorded == hash
    {
      ghost var before := Snapshot();
      recorded := hash;
      pc := Idle;
      Did(Mark, before);
    }

    /** The same without a refresh, reachable only with Insight topology. */
    method MarkWithoutRefresh(hash: nat)
      requires OnTrack() && pc == Took(hash) && insight
      modifies this`recorded, this`pc, this`steps
      ensures Valid() && recorded == hash
    {
      ghost var before := Snapshot();
      recorded := hash;
      pc := Idle;
      Did(MarkUnread, before);
    }

    /** shaping_runtime_hash = 0 after a failed startup. */
    method ForgetHash()
      requires Valid()
      modifies this`recorded, this`steps
      ensures Valid() && recorded == 0
    {
      ghost var before := Snapshot();
      recorded := 0;
      Did(Forget, before);
    }

    /** Stale inputs are waited for unless the runtime is neither ready nor on its way. */
    ghost predicate Defers(outcome: Outcome, out: Outside) {
      outcome.StaleInputs? && (out.readinessAfterFailure.ready || out.readinessAfterFailure.transient)
    }

    /** The decision of _defer_stale_shaping_inputs_failure. */
    method DeferStaleInputs(outcome: Outcome, out: Outside) returns (deferred: bool)
      ensures deferred <==> Defers(outcome, out)
    {
      if !outcome.StaleInputs? { return false; }
      if out.readinessAfterFailure.ready { return true; }
      return out.readinessAfterFailure.transient;
    }

    /** Nothing is published, applied or recorded. */
    ghost predicate Untouched(logBefore: seq<nat>, appliedBefore: int, recordedBefore: nat)
      reads this
    {
      log == logBefore && applied == appliedBefore && recorded == recordedBefore
    }

    predicate WaitsAtStart(out: Outside) {
      !out.runtimeReady && !out.readiness.ready && out.readiness.transient
    }

    /** A refresh ran: a successful one applied what was published when it read, a failing one nothing. */
    ghost predicate Refreshed(logBefore: seq<nat>, appliedBefore: int, out: Outside)
      reads this
    {
      applied == if Outcomes(logBefore, out).Success? then |AtLoad(logBefore, out)| - 1 else appliedBefore
    }

    /** A refresh ran exactly for a hash other than the recorded one, and was recorded if it succeeded. */
    ghost predicate Compared(logBefore: seq<nat>, appliedBefore: int, recordedBefore: nat, out: Outside)
      reads this
    {
      if Taken(logBefore, out) == recordedBefore then applied == appliedBefore && recorded == recordedBefore
      else
        && Refreshed(logBefore, appliedBefore, out)
        && recorded == if Outcomes(logBefore, out).Success? then Taken(logBefore, out) else recordedBefore
    }

    /** The same where no hash means no refresh. */
    ghost predicate ComparedKnown(logBefore: seq<nat>, appliedBefore: int, recordedBefore: nat, out: Outside)
      reads this
    {
      if Taken(logBefore, out) == 0 then applied == appliedBefore && recorded == recordedBefore
      else Compared(logBefore, appliedBefore, recordedBefore, out)
    }

    ghost predicate DefersChange(logBefore: seq<nat>, recordedBefore: nat, out: Outside) {
      Taken(logBefore, out) != recordedBefore && Defers(Outcomes(logBefore, out), out)
    }

    /** importAndShapeFullReload, with the exception handling of run_scheduler_main. */
    method FullReload(out: Outside) returns (ok: bool)
      requires Valid()
      modifies this`log, this`loaded, this`applied, this`recorded, this`startup, this`pc, this`steps
      ensures Valid() && old(log) <= log
      ensures !out.outcome.Success? && !insight ==> NothingApplied(old(applied), old(recorded))
      ensures ok ==> recorded != 0
      ensures Quiet(out) && old(log) != [] ==> recorded == Published(log) && log == old(log) && (ok <==> recorded != 0)
      ensures !out.runtimeReady ==> !ok && Untouched(old(log), old(applied), old(recorded))
      ensures startup == if WaitsAtStart(out) then Begin(old(startup), out.readiness.generation, out.now)
                         else if out.runtimeReady && !insight && Defers(Outcomes(old(log), out), out)
                         then Begin(old(startup), out.readinessAfterFailure.generation, out.now)
                         else old(startup)
      ensures out.runtimeReady && insight ==> recorded == Taken(old(log), out) && applied == old(applied)
      ensures out.runtimeReady && !insight ==> Refreshed(old(log), old(applied), out)
      ensures out.runtimeReady && !insight ==>
        recorded == match Outcomes(old(log), out) {
          case Success => Taken(old(log), out)
          case ValidationFailed => old(recorded)
          case StaleInputs => if Defers(StaleInputs, out) then old(recorded) else 0
          case OtherFailure => 0
        }
    {
      if !out.runtimeReady {
        if !out.readiness.ready && out.readiness.transient {
          startup := Begin(startup, out.readiness.generation, out.now);
        }
        return false;
      }
      var target := TakeHash(out.hashReadable, out.beforeTake);
      if insight {
        MarkWithoutRefresh(target);
        return recorded != 0;
      }
      var outcome := RefreshShapers(out);
      if outcome.Success? {
        MarkApplied(target);
        return recorded != 0;
      }
      ok := false;
      var deferred := DeferStaleInputs(outcome, out);
      if deferred {
        startup := Begin(startup, out.readinessAfterFailure.generation, out.now);
      } else if !outcome.ValidationFailed? {
        ForgetHash();
      }
    }

    /** importAndShapePartialReload */
    method PartialReload(out: Outside)
      requires Valid()
      modifies this`log, this`loaded, this`applied, this`recorded, this`partialWait, this`pc, this`steps
      ensures Valid() && old(log) <= log
      ensures !out.outcome.Success? && !insight ==> NothingApplied(old(applied), old(recorded))
      ensures Quiet(out) && old(log) != [] ==> recorded == Published(log) && log == old(log)
      ensures !out.runtimeReady ==> Untouched(old(log), old(applied), old(recorded))
      ensures out.runtimeReady ==> Compared(old(log), old(applied), old(recorded), out)
      ensures partialWait == if WaitsAtStart(out) then Begin(old(partialWait), out.readiness.generation, out.now)
                             else if out.runtimeReady && DefersChange(old(log), old(recorded), out)
                             then Begin(old(partialWait), out.readinessAfterFailure.generation, out.now)
                             else old(partialWait)
    {
      if !out.runtimeReady {
        if !out.readiness.ready && out.readiness.transient {
          partialWait := Begin(partialWait, out.readiness.generation, out.now);
        }
        return;
      }
      var target := TakeHash(out.hashReadable, out.beforeTake);
      if target == recorded {
        GiveUp();
        return;
      }
      var outcome := RefreshShapers(out);
      var deferred := DeferStaleInputs(outcome, out);
      if outcome.Success? {
        MarkApplied(target);
      } else if deferred {
        partialWait := Begin(partialWait, out.readinessAfterFailure.generation, out.now);
      }
    }

    /** _continue_startup_topology_runtime_wait */
    method ContinueStartup(out: Outside)
      requires Valid()
      modifies this`log, this`loaded, this`applied, this`recorded, this`startup, this`pc, this`steps
      ensures Valid() && old(log) <= log
      ensures !out.outcome.Success? && !insight ==> NothingApplied(old(applied), old(recorded))
      ensures Quiet(out) && old(log) != [] ==> recorded == Published(log) && log == old(log) && !startup.pending
      ensures !out.readiness.ready ==>
        && Untouched(old(log), old(applied), old(recorded))
        && startup == StillWaiting(old(startup), out.readiness, out.now)
      ensures out.readiness.ready && insight ==>
        recorded == Taken(old(log), out) && applied == old(applied) && startup == NO_WAIT
      ensures out.readiness.ready && !insight ==>
        && Refreshed(old(log), old(applied), out)
        && recorded == (if Outcomes(old(log), out).Success? then Taken(old(log), out)
                        else if Defers(Outcomes(old(log), out), out) then old(recorded) else 0)
        && (if Defers(Outcomes(old(log), out), out)
            then startup.pending && startup.generation == out.readinessAfterFailure.generation
            else startup == NO_WAIT)
    {
      startup := Observe(startup, out.readiness.generation, out.now);
      if !out.readiness.ready {
        startup := KeepWaiting(startup, out.readiness, out.now);
        return;
      }
      if insight {
        var target := TakeHash(out.hashReadable, out.beforeTake);
        MarkWithoutRefresh(target);
        startup := NO_WAIT;
      } else {
        FinishStartup(out);
      }
    }

    /** The ready end of the startup wait, Insight topology off. */
    method FinishStartup(out: Outside)
      requires Valid() && !insight
      modifies this`log, this`loaded, this`applied, this`recorded, this`startup, this`pc, this`steps
      ensures Valid() && old(log) <= log && Refreshed(old(log), old(applied), out)
      ensures Outcomes(old(log), out).Success? ==> log == AtLoad(old(log), out) + NonZero(out.beforeMark)
      ensures recorded == if Outcomes(old(log), out).Success? then Taken(old(log), out)
                          else if Defers(Outcomes(old(log), out), out) then old(recorded) else 0
      ensures if Defers(Outcomes(old(log), out), out)
              then startup.pending && startup.generation == out.readinessAfterFailure.generation
              else startup == NO_WAIT
    {
      var target := TakeHash(out.hashReadable, out.beforeTake);
      var outcome := RefreshShapers(out);
      var deferred := DeferStaleInputs(outcome, out);
      if outcome.Success? {
        MarkApplied(target);
        startup := NO_WAIT;
      } else if deferred {
        startup := Begin(startup, out.readinessAfterFailure.generation, out.now);
      } else {
        startup := NO_WAIT;
        ForgetHash();
      }
    }

    /** _continue_partial_topology_runtime_wait */
    method ContinuePartial(out: Outside)
      requires Valid()
      modifies this`log, this`loaded, this`applied, this`recorded, this`partialWait, this`pc, this`steps
      ensures Valid() && old(log) <= log
      ensures !out.outcome.Success? && !insight ==> NothingApplied(old(applied), old(recorded))
      ensures Quiet(out) && old(log) != [] && Published(old(log)) != 0 ==>
                recorded == Published(log) && log == old(log) && !partialWait.pending
      ensures !out.readiness.ready ==>
        && Untouched(old(log), old(applied), old(recorded))
        && partialWait == StillWaiting(old(partialWait), out.readiness, out.now)
      ensures out.readiness.ready ==>
        && ComparedKnown(old(log), old(applied), old(recorded), out)
        && (if Taken(old(log), out) != 0 && DefersChange(old(log), old(recorded), out)
            then partialWait.pending && partialWait.generation == out.readinessAfterFailure.generation
            else partialWait == NO_WAIT)
    {
      partialWait := Observe(partialWait, out.readiness.generation, out.now);
      if !out.readiness.ready {
        partialWait := KeepWaiting(partialWait, out.readiness, out.now);
        return;
      }
      FinishPartial(out);
    }

    /** The ready end of the partial wait. */
    method FinishPartial(out: Outside)
      requires Valid()
      modifies this`log, this`loaded, this`applied, this`recorded, this`partialWait, this`pc, this`steps
      ensures Valid() && old(log) <= log && ComparedKnown(old(log), old(applied), old(recorded), out)
      ensures Outcomes(old(log), out).Success? && out.beforeTake == [] && out.beforeLoad == [] && out.beforeMark == []
        ==> log == old(log)
      ensures if Taken(old(log), out) != 0 && DefersChange(old(log), old(recorded), out)
              then partialWait.pending && partialWait.generation == out.readinessAfterFailure.generation
              else partialWait == NO_WAIT
    {
      var target := TakeHash(out.hashReadable, out.beforeTake);
      if target == 0 {
        GiveUp();
        partialWait := NO_WAIT;
        return;
      }
      if target == recorded {
        GiveUp();
        partialWait := NO_WAIT;
        return;
      }
      var outcome := RefreshShapers(out);
      var deferred := DeferStaleInputs(outcome, out);
      if outcome.Success? {
        MarkApplied(target);
        partialWait := NO_WAIT;
      } else if deferred {
        partialWait := Begin(partialWait, out.readinessAfterFailure.generation, out.now);
      } else {
        partialWait := NO_WAIT;
      }
    }

    /**
     * topology_runtime_refresh_tick. A quiet, ready, successful tick brings the recorded hash up
     * to the published one exactly when a wait is pending or some hash is recorded already.
     */
    method Tick(out: Outside)
      requires Valid()
      modifies this
      ensures Valid() && old(log) <= log
      ensures !out.outcome.Success? && !insight ==> NothingApplied(old(applied), old(recorded))
      ensures Quiet(out) && Published(old(log)) != 0 ==>
                && log == old(log)
                && (recorded == Published(log) <==>
                  old(startup).pending || old(partialWait).pending || old(recorded) != 0)
      ensures !out.readiness.ready ==>
        && Untouched(old(log), old(applied), old(recorded))
        && startup == (if old(startup).pending then StillWaiting(old(startup), out.readiness, out.now)
                       else old(startup))
        && partialWait == (if !old(startup).pending && old(partialWait).pending
                           then StillWaiting(old(partialWait), out.readiness, out.now) else old(partialWait))
      ensures out.readiness.ready && !old(startup).pending ==>
        && startup == old(startup)
        && (if !old(partialWait).pending && old(recorded) == 0
            then Untouched(old(log), old(applied), old(recorded))
            else ComparedKnown(old(log), old(applied), old(recorded), out))
      ensures out.readiness.ready && old(startup).pending ==> partialWait == old(partialWait)
      ensures out.readiness.ready && !insight && old(startup).pending ==> Refreshed(old(log), old(applied), out)
    {
      if startup.pending {
        ContinueStartup(out);
        return;
      }
      if partialWait.pending {
        ContinuePartial(out);
        return;
      }
      if recorded == 0 || !out.readiness.ready {
        return;
      }
      var target := TakeHash(out.hashReadable, out.beforeTake);
      if target == 0 || target == recorded {
        GiveUp();
        return;
      }
      var outcome := RefreshShapers(out);
      var deferred := DeferStaleInputs(outcome, out);
      if outcome.Success? {
        MarkApplied(target);
      } else if deferred {
        partialWait := Begin(partialWait, out.readinessAfterFailure.generation, out.now);
      }
    }

    /** Whatever the jobs did and whatever was published meanwhile, the scheduler's belief is true. */
    lemma BeliefIsTrue()
      requires Valid() && !insight && Distinct(log)
      ensures recorded != 0 && recorded == Published(log) ==> applied == |log| - 1
    {
      NeverBelievedNewer(steps);
    }
  }

  /** Nothing is published during the job, the runtime is ready and the refresh succeeds. */
  predicate Quiet(out: Outside) {
    && out.runtimeReady && out.readiness.ready && out.hashReadable && out.outcome.Success?
    && out.beforeTake == [] && out.beforeLoad == [] && out.beforeMark == []
  }
}
