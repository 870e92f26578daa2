/**
 One load phase (cygnus/capacity/load.py): workers that interleave at every point where the
 original yields, and the counters they share.
 */
module CapacityLoad {
  import opened Wrappers
  import opened CapacityMetrics

  /** The fault window in clock time. */
  datatype Window = Window(enableAt: real, disableAt: real)

  datatype Settings = Settings(started: real, deadline: real, maxRequests: nat, window: Option<Window>)

  /** Between two yields a worker is about to look at the clock, about to take the lock, or waiting for an answer. */
  datatype Worker = Looping | Admitted | Waiting(attemptStarted: real) | Done

  /** What an execution answers; `None` stands for an exception. */
  datatype RawAnswer = RawAnswer(durationMs: real, outcome: Outcome, queueAge: Option<real>, pool: Option<(real, real)>)

  type Answer = a: RawAnswer | a.durationMs >= 0.0 && (a.pool.Some? ==> a.pool.value.1 > 0.0)
    witness RawAnswer(0.0, Success, None, None)

  /** One turn of one worker, as the scheduler gives it. */
  datatype Step =
    | CheckClock(worker: nat, now: real)
    | TakeLock(worker: nat, attemptStarted: real)
    | Finish(worker: nat, answer: Option<Answer>, now: real)

  datatype Phase = Phase(
      workers: seq<Worker>,
      counter: nat,
      samples: seq<RouteSample>,
      failuresDuringWindow: nat,
      firstSuccess: Option<real>,
      postSuccesses: nat,
      postErrors: nat)

  function Start(concurrency: nat): Phase {
    Phase(seq(concurrency, i => Looping), 0, [], 0, None, 0, 0)
  }

  predicate IsFailure(o: Outcome) { o.Error? || o.Denied? }

  function SampleOf(c: Settings, attemptStarted: real, answer: Option<Answer>, now: real): RouteSample {
    if answer.Some? then
      RouteSampleData(attemptStarted - c.started, answer.value.durationMs, answer.value.outcome,
                      answer.value.queueAge, answer.value.pool)
    else
      var elapsed := (now - attemptStarted) * 1000.0;
      RouteSampleData(attemptStarted - c.started, if elapsed > 0.0 then elapsed else 0.0, Error, None, None)
  }

  /** The bookkeeping after one answer. */
  function Recorded(c: Settings, p: Phase, attemptStarted: real, sample: RouteSample): Phase {
    var q := p.(samples := p.samples + [sample]);
    if c.window.None? then q
    else
      var w := c.window.value;
      if w.enableAt <= attemptStarted < w.disableAt then
        if IsFailure(sample.outcome) then q.(failuresDuringWindow := p.failuresDuringWindow + 1) else q
      else if attemptStarted >= w.disableAt then
        if p.firstSuccess.None? then
          if sample.outcome.Success?
          then q.(firstSuccess := Some(attemptStarted - w.disableAt), postSuccesses := p.postSuccesses + 1)
          else q
        else if sample.outcome.Success? then q.(postSuccesses := p.postSuccesses + 1)
        else if IsFailure(sample.outcome) then q.(postErrors := p.postErrors + 1)
        else q
      else q
  }

  /** One turn; a turn that its worker cannot take changes nothing. */
  function Apply(c: Settings, p: Phase, step: Step): Phase {
    if step.worker >= |p.workers| then p
    else
      var w := p.workers[step.worker];
      match step
      case CheckClock(i, now) =>
        if !w.Looping? then p else p.(workers := p.workers[i := if now >= c.deadline then Done else Admitted])
      case TakeLock(i, attemptStarted) =>
        if !w.Admitted? then p
        else if p.counter >= c.maxRequests then p.(workers := p.workers[i := Done])
        else p.(workers := p.workers[i := Waiting(attemptStarted)], counter := p.counter + 1)
      case Finish(i, answer, now) =>
        if !w.Waiting? then p
        else
          Recorded(c, p, w.attemptStarted, SampleOf(c, w.attemptStarted, answer, now))
              .(workers := p.workers[i := Looping])
  }

  function Run(c: Settings, p: Phase, steps: seq<Step>): Phase
    decreases |steps|
  {
    if steps == [] then p else Apply(c, Run(c, p, steps[..|steps| - 1]), steps[|steps| - 1])
  }

  predicate Joined(p: Phase) { forall i | 0 <= i < |p.workers| :: p.workers[i].Done? }

  /** The shared variables of one phase, changed by whichever worker runs. */
  class LoadPhase {
    const settings: Settings
    var workers: seq<Worker>
    var counter: nat
    var samples: seq<RouteSample>
    var failuresDuringWindow: nat
    var firstSuccessAfterDisable: Option<real>
    var postSuccesses: nat
    var postErrors: nat

    function View(): Phase
      reads this
    {
      Phase(workers, counter, samples, failuresDuringWindow, firstSuccessAfterDisable, postSuccesses, postErrors)
    }

    constructor (settings: Settings, concurrency: nat)
      ensures View() == Start(concurrency) && this.settings == settings
    {
      this.settings := settings;
      workers := seq(concurrency, i => Looping);
      counter, samples := 0, [];
      failuresDuringWindow, firstSuccessAfterDisable, postSuccesses, postErrors := 0, None, 0, 0;
    }

    method CheckDeadline(i: nat, now: real)
      modifies this
      ensures View() == Apply(settings, old(View()), CheckClock(i, now))
    {
      if i < |workers| && workers[i].Looping? {
        workers := workers[i := if now >= settings.deadline then Done else Admitted];
      }
    }

    method Admit(i: nat, attemptStarted: real)
      modifies this
      ensures View() == Apply(settings, old(View()), TakeLock(i, attemptStarted))
    {
      if i < |workers| && workers[i].Admitted? {
        if counter >= settings.maxRequests {
          workers := workers[i := Done];
        } else {
          counter := counter + 1;
          workers := workers[i := Waiting(attemptStarted)];
        }
      }
    }

    method Record(i: nat, answer: Option<Answer>, now: real)
      modifies this
      ensures View() == Apply(settings, old(View()), Finish(i, answer, now))
    {
      if i < |workers| && workers[i].Waiting? {
        var attemptStarted := workers[i].attemptStarted;
        var sample := SampleOf(settings, attemptStarted, answer, now);
        if settings.window.Some? {
          var w := settings.window.value;
          if w.enableAt <= attemptStarted < w.disableAt {
            if IsFailure(sample.outcome) {
              failuresDuringWindow := failuresDuringWindow + 1;
            }
          } else if attemptStarted >= w.disableAt {
            if firstSuccessAfterDisable.None? {
              if sample.outcome.Success? {
                firstSuccessAfterDisable := Some(attemptStarted - w.disableAt);
                postSuccesses := postSuccesses + 1;
              }
            } else if sample.outcome.Success? {
              postSuccesses := postSuccesses + 1;
            } else if IsFailure(sample.outcome) {
              postErrors := postErrors + 1;
            }
          }
        }
        samples := samples + [sample];
        workers := workers[i := Looping];
      }
    }

    /** Gives the workers their turns until all have returned. */
    method RunWorkers(schedule: seq<Step>)
      modifies this
      ensures View() == Run(settings, old(View()), schedule)
    {
      for k := 0 to |schedule|
        invariant View() == Run(settings, old(View()), schedule[..k])
      {
        assert schedule[..k + 1][..k] == schedule[..k];
        match schedule[k] {
          case CheckClock(i, now) => CheckDeadline(i, now);
          case TakeLock(i, attemptStarted) => Admit(i, attemptStarted);
          case Finish(i, answer, now) => Record(i, answer, now);
        }
      }
      assert schedule[..|schedule|] == schedule;
    }
  }

  // ---------------------------------------------------------------- what the samples say

  predicate InWindow(c: Settings, s: RouteSample) {
    c.window.Some? && c.window.value.enableAt <= c.started + s.startedAt < c.window.value.disableAt
  }

  predicate AfterWindow(c: Settings, s: RouteSample) {
    c.window.Some? && c.started + s.startedAt >= c.window.value.disableAt
  }

  function WindowFailures(c: Settings, samples: seq<RouteSample>, k: nat): nat
    requires k <= |samples|
  {
    if k == 0 then 0
    else
      var s := samples[k - 1];
      WindowFailures(c, samples, k - 1) + (if InWindow(c, s) && IsFailure(s.outcome) then 1 else 0)
  }

  /** The first sample recorded that succeeded after the window. */
  function FirstRecovery(c: Settings, samples: seq<RouteSample>, k: nat): (r: Option<nat>)
    requires k <= |samples|
    ensures r.Some? ==> r.value < k
  {
    if k == 0 then None
    else
      var earlier := FirstRecovery(c, samples, k - 1);
      if earlier.None? && AfterWindow(c, samples[k - 1]) && samples[k - 1].outcome.Success?
      then Some(k - 1) else earlier
  }

  function PostSuccesses(c: Settings, samples: seq<RouteSample>, k: nat): nat
    requires k <= |samples|
  {
    if k == 0 then 0
    else
      PostSuccesses(c, samples, k - 1)
      + (if AfterWindow(c, samples[k - 1]) && samples[k - 1].outcome.Success? then 1 else 0)
  }

  /** Failures after the window that were recorded after the first success there. */
  function PostErrors(c: Settings, samples: seq<RouteSample>, k: nat): nat
    requires k <= |samples|
  {
    if k == 0 then 0
    else
      var s := samples[k - 1];
      PostErrors(c, samples, k - 1)
      + (if AfterWindow(c, s) && IsFailure(s.outcome) && FirstRecovery(c, samples, k - 1).Some? then 1 else 0)
  }

  function WaitingCount(workers: seq<Worker>, k: nat): nat
    requires k <= |workers|
  {
    if k == 0 then 0 else WaitingCount(workers, k - 1) + (if workers[k - 1].Waiting? then 1 else 0)
  }

  /** The counters tell what a fold over the recorded samples tells. */
  predicate CountersAgree(c: Settings, p: Phase) {
    var n := |p.samples|;
    var first := FirstRecovery(c, p.samples, n);
    && p.failuresDuringWindow == WindowFailures(c, p.samples, n)
    && p.firstSuccess == (if first.Some? then Some(c.started + p.samples[first.value].startedAt - WindowEnd(c))
                          else None)
    && p.postSuccesses == PostSuccesses(c, p.samples, n)
    && p.postErrors == PostErrors(c, p.samples, n)
  }

  function WindowEnd(c: Settings): real { if c.window.Some? then c.window.value.disableAt else 0.0 }

  /** Every admitted request is a sample or still under way, and no more are admitted than allowed. */
  predicate RequestsAccounted(c: Settings, p: Phase) {
    p.counter == |p.samples| + WaitingCount(p.workers, |p.workers|) && p.counter <= c.maxRequests
  }

  ghost predicate Inv(c: Settings, p: Phase) {
    CountersAgree(c, p) && RequestsAccounted(c, p)
  }

  lemma {:induction false} WaitingUpdate(workers: seq<Worker>, i: nat, w: Worker, k: nat)
    requires i < |workers| && k <= |workers|
    ensures WaitingCount(workers[i := w], k)
         == WaitingCount(workers, k)
            + (if i < k then (if w.Waiting? then 1 else 0) - (if workers[i].Waiting? then 1 else 0) else 0)
  {
    if k > 0 { WaitingUpdate(workers, i, w, k - 1); }
  }

  /** Folds over the first k samples do not see what is appended. */
  lemma {:induction false} FoldsIgnoreTail(c: Settings, samples: seq<RouteSample>, s: RouteSample, k: nat)
    requires k <= |samples|
    ensures WindowFailures(c, samples + [s], k) == WindowFailures(c, samples, k)
    ensures FirstRecovery(c, samples + [s], k) == FirstRecovery(c, samples, k)
    ensures PostSuccesses(c, samples + [s], k) == PostSuccesses(c, samples, k)
    ensures PostErrors(c, samples + [s], k) == PostErrors(c, samples, k)
  {
    if k > 0 { FoldsIgnoreTail(c, samples, s, k - 1); }
  }

  lemma RecordingKeepsCounters(c: Settings, p: Phase, attemptStarted: real, sample: RouteSample)
    requires CountersAgree(c, p) && sample.startedAt == attemptStarted - c.started
    ensures CountersAgree(c, Recorded(c, p, attemptStarted, sample))
  {
    var n := |p.samples|;
    FoldsIgnoreTail(c, p.samples, sample, n);
    var all := p.samples + [sample];
    assert all[n] == sample;
    assert c.started + sample.startedAt == attemptStarted;
    assert FirstRecovery(c, all, n + 1) ==
      if FirstRecovery(c, p.samples, n).None? && AfterWindow(c, sample) && sample.outcome.Success? then Some(n)
      else FirstRecovery(c, p.samples, n);
  }

  /** Recording keeps the accounts when its worker goes back to the loop. */
  lemma RecordingKeepsAccounts(c: Settings, p: Phase, i: nat, attemptStarted: real, sample: RouteSample)
    requires i < |p.workers| && p.workers[i].Waiting? && RequestsAccounted(c, p)
    ensures RequestsAccounted(c, Recorded(c, p, attemptStarted, sample).(workers := p.workers[i := Looping]))
  {
    WaitingUpdate(p.workers, i, Looping, |p.workers|);
  }

  lemma TurnKeepsAccounts(c: Settings, p: Phase, step: Step)
    requires RequestsAccounted(c, p) && !step.Finish?
    ensures RequestsAccounted(c, Apply(c, p, step))
  {
    if step.worker < |p.workers| {
      var i, n := step.worker, |p.workers|;
      WaitingUpdate(p.workers, i, Done, n);
      WaitingUpdate(p.workers, i, Admitted, n);
      if step.TakeLock? { WaitingUpdate(p.workers, i, Waiting(step.attemptStarted), n); }
    }
  }

  lemma StepKeepsInv(c: Settings, p: Phase, step: Step)
    requires Inv(c, p)
    ensures Inv(c, Apply(c, p, step))
  {
    if !step.Finish? {
      TurnKeepsAccounts(c, p, step);
    } else if step.worker < |p.workers| && p.workers[step.worker].Waiting? {
      var attemptStarted := p.workers[step.worker].attemptStarted;
      var sample := SampleOf(c, attemptStarted, step.answer, step.now);
      RecordingKeepsCounters(c, p, attemptStarted, sample);
      RecordingKeepsAccounts(c, p, step.worker, attemptStarted, sample);
    }
  }

  lemma {:induction false} RunKeepsInv(c: Settings, p: Phase, steps: seq<Step>)
    requires Inv(c, p)
    ensures Inv(c, Run(c, p, steps))
    decreases |steps|
  {
    if steps != [] {
      RunKeepsInv(c, p, steps[..|steps| - 1]);
      StepKeepsInv(c, Run(c, p, steps[..|steps| - 1]), steps[|steps| - 1]);
    }
  }

  lemma {:induction false} NobodyWaits(workers: seq<Worker>, k: nat)
    requires k <= |workers| && forall i | 0 <= i < k :: !workers[i].Waiting?
    ensures WaitingCount(workers, k) == 0
  {
    if k > 0 { NobodyWaits(workers, k - 1); }
  }

  lemma StartInv(c: Settings, concurrency: nat)
    ensures Inv(c, Start(concurrency))
  {
    NobodyWaits(Start(concurrency).workers, concurrency);
  }

  /**
   However the workers interleave: when all have returned, there is one sample per admitted request,
   never more than allowed, and the counters equal the fold over the samples in recording order.
   */
  lemma JoinedPhase(c: Settings, concurrency: nat, steps: seq<Step>)
    requires Joined(Run(c, Start(concurrency), steps))
    ensures var p := Run(c, Start(concurrency), steps);
            |p.samples| == p.counter <= c.maxRequests && CountersAgree(c, p)
  {
    var p := Run(c, Start(concurrency), steps);
    StartInv(c, concurrency);
    RunKeepsInv(c, Start(concurrency), steps);
    NobodyWaits(p.workers, |p.workers|);
  }

  // ---------------------------------------------------------------- recovery evidence

  datatype InjectionTarget = Db | Queue | Tool | Provider

  datatype RecoveryEvidence = RecoveryEvidence(
      target: InjectionTarget,
      windowSeconds: real,
      failuresDuringWindow: nat,
      recoverySeconds: Option<real>,
      postRecoveryErrorRate: real,
      recovered: bool)

  function PostErrorRate(p: Phase): real {
    var total := p.postSuccesses + p.postErrors;
    if total == 0 then 0.0 else p.postErrors as real / total as real
  }

  function Evidence(target: InjectionTarget, windowSeconds: real, p: Phase): RecoveryEvidence {
    RecoveryEvidence(target, windowSeconds, p.failuresDuringWindow, p.firstSuccess, PostErrorRate(p),
                     p.failuresDuringWindow > 0 && p.firstSuccess.Some? && PostErrorRate(p) == 0.0)
  }

  lemma RateIsZero(p: Phase)
    ensures PostErrorRate(p) == 0.0 <==> p.postErrors == 0
  {
    var total := p.postSuccesses + p.postErrors;
    if p.postErrors > 0 { QuotientPositive(p.postErrors as real, total as real); }
  }

  lemma QuotientPositive(a: real, b: real)
    requires a > 0.0 && b > 0.0
    ensures a / b > 0.0
  {
  }

  lemma {:induction false} WindowFailuresIff(c: Settings, samples: seq<RouteSample>, k: nat)
    requires k <= |samples|
    ensures WindowFailures(c, samples, k) > 0
       <==> exists i :: 0 <= i < k && InWindow(c, samples[i]) && IsFailure(samples[i].outcome)
  {
    if k > 0 { WindowFailuresIff(c, samples, k - 1); }
  }

  predicate Recovers(c: Settings, s: RouteSample) { AfterWindow(c, s) && s.outcome.Success? }

  lemma {:induction false} FirstRecoveryIff(c: Settings, samples: seq<RouteSample>, k: nat)
    requires k <= |samples|
    ensures var r := FirstRecovery(c, samples, k);
            && (r.None? ==> forall i | 0 <= i < k :: !Recovers(c, samples[i]))
            && (r.Some? ==> Recovers(c, samples[r.value]) && forall i | 0 <= i < r.value :: !Recovers(c, samples[i]))
  {
    if k > 0 { FirstRecoveryIff(c, samples, k - 1); }
  }

  predicate FailsAfter(c: Settings, s: RouteSample) { AfterWindow(c, s) && IsFailure(s.outcome) }

  lemma {:induction false} PostErrorsIff(c: Settings, samples: seq<RouteSample>, k: nat)
    requires k <= |samples|
    ensures PostErrors(c, samples, k) == 0 <==>
            forall i, j | 0 <= i < j < k :: Recovers(c, samples[i]) ==> !FailsAfter(c, samples[j])
  {
    if k > 0 {
      PostErrorsIff(c, samples, k - 1);
      FirstRecoveryIff(c, samples, k - 1);
    }
  }

  /**
   A phase counts as recovered exactly when some request failed inside the fault window, some
   succeeded after it, and none that was recorded after a success there failed. Failures recorded
   before the first success do not count against it.
   */
  lemma RecoveredIff(c: Settings, concurrency: nat, steps: seq<Step>, target: InjectionTarget, windowSeconds: real)
    ensures var p := Run(c, Start(concurrency), steps);
            Evidence(target, windowSeconds, p).recovered <==>
              && (exists i :: 0 <= i < |p.samples| && InWindow(c, p.samples[i]) && IsFailure(p.samples[i].outcome))
              && (exists i :: 0 <= i < |p.samples| && Recovers(c, p.samples[i]))
              && (forall i, j | 0 <= i < j < |p.samples| :: Recovers(c, p.samples[i]) ==> !FailsAfter(c, p.samples[j]))
  {
    var p := Run(c, Start(concurrency), steps);
    StartInv(c, concurrency);
    RunKeepsInv(c, Start(concurrency), steps);
    WindowFailuresIff(c, p.samples, |p.samples|);
    FirstRecoveryIff(c, p.samples, |p.samples|);
    PostErrorsIff(c, p.samples, |p.samples|);
    RateIsZero(p);
  }

  /** A fault was felt, the first success after it started in time, and nothing recorded later failed. */
  ghost predicate RecoversBy(c: Settings, samples: seq<RouteSample>, maxSeconds: real) {
    && (exists i :: 0 <= i < |samples| && InWindow(c, samples[i]) && IsFailure(samples[i].outcome))
    && (exists i :: 0 <= i < |samples| && FirstToRecover(c, samples, i)
                    && c.started + samples[i].startedAt - WindowEnd(c) <= maxSeconds
                    && forall j | i < j < |samples| :: !FailsAfter(c, samples[j]))
  }

  predicate FirstToRecover(c: Settings, samples: seq<RouteSample>, i: nat)
    requires i < |samples|
  {
    Recovers(c, samples[i]) && forall j | 0 <= j < i :: !Recovers(c, samples[j])
  }

  /** What the evidence of a phase says about the time of its recovery. */
  lemma RecoveredInTimeIff(c: Settings, concurrency: nat, steps: seq<Step>, target: InjectionTarget,
                           windowSeconds: real, maxSeconds: real)
    ensures var p := Run(c, Start(concurrency), steps); var e := Evidence(target, windowSeconds, p);
            e.recovered && e.recoverySeconds.Some? && e.recoverySeconds.value <= maxSeconds
            <==> RecoversBy(c, p.samples, maxSeconds)
  {
    var p := Run(c, Start(concurrency), steps);
    var first := FirstRecovery(c, p.samples, |p.samples|);
    StartInv(c, concurrency);
    RunKeepsInv(c, Start(concurrency), steps);
    FirstRecoveryIff(c, p.samples, |p.samples|);
    RecoveredIff(c, concurrency, steps, target, windowSeconds);
    if first.Some? { assert FirstToRecover(c, p.samples, first.value); }
  }

  // ---------------------------------------------------------------- the schedule of the fault window

  /** The clock times of a phase that injects a fault in its second half. */
  function PhaseSettings(started: real, durationSeconds: real, maxRequests: nat, faultSeconds: Option<real>): Settings {
    var enableAt := started + durationSeconds / 2.0;
    Settings(started, started + durationSeconds, maxRequests,
             if faultSeconds.Some? then Some(Window(enableAt, enableAt + faultSeconds.value)) else None)
  }

  // ---------------------------------------------------------------- a whole phase

  datatype PhaseResult = PhaseResult(wallSeconds: real, samples: seq<RouteSample>, recovery: Option<RecoveryEvidence>)

  datatype Fault = Fault(target: InjectionTarget, seconds: real)

  function FaultSeconds(fault: Option<Fault>): Option<real> { if fault.Some? then Some(fault.value.seconds) else None }

  /** What a phase yields whose workers have all returned; a clock that did not advance is refused. */
  function ResultOf(p: Phase, started: real, finished: real, fault: Option<Fault>): Option<PhaseResult> {
    if finished - started <= 0.0 then None
    else Some(PhaseResult(finished - started, p.samples,
                          if fault.Some? then Some(Evidence(fault.value.target, fault.value.seconds, p)) else None))
  }

  method RunRoutePhase(started: real, durationSeconds: real, maxRequests: nat, concurrency: nat, fault: Option<Fault>,
                       schedule: seq<Step>, finished: real) returns (r: Option<PhaseResult>)
    requires Joined(Run(PhaseSettings(started, durationSeconds, maxRequests, FaultSeconds(fault)),
                        Start(concurrency), schedule))
    ensures var c := PhaseSettings(started, durationSeconds, maxRequests, FaultSeconds(fault));
            r == ResultOf(Run(c, Start(concurrency), schedule), started, finished, fault)
    ensures r.Some? ==> |r.value.samples| <= maxRequests
  {
    var c := PhaseSettings(started, durationSeconds, maxRequests, FaultSeconds(fault));
    var phase := new LoadPhase(c, concurrency);
    phase.RunWorkers(schedule);
    JoinedPhase(c, concurrency, schedule);
    if finished - started <= 0.0 {
      return None;
    }
    var recovery: Option<RecoveryEvidence> := None;
    if fault.Some? {
      var total := phase.postSuccesses + phase.postErrors;
      var rate := if total == 0 then 0.0 else phase.postErrors as real / total as real;
      var recovered := phase.failuresDuringWindow > 0 && phase.firstSuccessAfterDisable.Some? && rate == 0.0;
      recovery := Some(RecoveryEvidence(fault.value.target, fault.value.seconds, phase.failuresDuringWindow,
                                        phase.firstSuccessAfterDisable, rate, recovered));
    }
    return Some(PhaseResult(finished - started, phase.samples, recovery));
  }
}
