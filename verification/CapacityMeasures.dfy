/**
 What it takes for a route, and for a whole run, to meet its limits, told by the samples
 (cygnus/capacity/metrics.py, gate.py).
 */
module CapacityMeasures {
  import opened Wrappers
  import opened Ordering
  import opened CapacityMetrics
  import opened CapacityLoad
  import opened CapacityGate
  import opened CapacityVerdicts

  // ---------------------------------------------------------------- one turn of a worker

  /**
   What one answer becomes; an exception becomes an error without further measures, timed by the clock but
   never below zero.
   */
  predicate TellsAnswer(s: RouteSample, c: Settings, attemptStarted: real, answer: Option<Answer>, now: real) {
    && s.startedAt == attemptStarted - c.started
    && match answer
       case Some(a) =>
         s.durationMs == a.durationMs && s.outcome == a.outcome && s.queueAge == a.queueAge && s.pool == a.pool
       case None =>
         && s.outcome == Error && s.queueAge == None && s.pool == None
         && s.durationMs == (if now <= attemptStarted then 0.0 else (now - attemptStarted) * 1000.0)
  }

  /** The other workers stand where they stood. */
  predicate OnlyWorker(p: Phase, p': Phase, i: nat, w: Worker)
    requires i < |p.workers|
  {
    p'.workers == p.workers[i := w]
  }

  /**
   A worker at the loop leaves at the deadline; one with a free place is admitted and counted; one whose
   answer is there records one sample. No turn takes a sample back or counts twice.
   */
  lemma TurnDecides(c: Settings, p: Phase, i: nat, attemptStarted: real, answer: Option<Answer>, now: real)
    requires i < |p.workers|
    ensures var p' := Apply(c, p, CheckClock(i, now));
            && p'.samples == p.samples && p'.counter == p.counter
            && (p.workers[i].Looping? ==> OnlyWorker(p, p', i, if now >= c.deadline then Done else Admitted))
            && (!p.workers[i].Looping? ==> p' == p)
    ensures var p' := Apply(c, p, TakeLock(i, attemptStarted));
            && p'.samples == p.samples
            && (p.workers[i].Admitted? && p.counter < c.maxRequests ==>
                  p'.counter == p.counter + 1 && OnlyWorker(p, p', i, Waiting(attemptStarted)))
            && (p.workers[i].Admitted? && p.counter >= c.maxRequests ==>
                  p'.counter == p.counter && OnlyWorker(p, p', i, Done))
            && (!p.workers[i].Admitted? ==> p' == p)
    ensures var p' := Apply(c, p, Finish(i, answer, now));
            && (p.workers[i].Waiting? ==>
                  && p.samples <= p'.samples && |p'.samples| == |p.samples| + 1
                  && TellsAnswer(p'.samples[|p.samples|], c, p.workers[i].attemptStarted, answer, now)
                  && p'.counter == p.counter && OnlyWorker(p, p', i, Looping))
            && (!p.workers[i].Waiting? ==> p' == p)
  {
  }

  // ---------------------------------------------------------------- measures of samples

  function Times(samples: seq<RouteSample>): (r: seq<real>)
    ensures |r| == |samples|
  {
    seq(|samples|, i requires 0 <= i < |samples| => samples[i].durationMs)
  }

  /** How many of the first k samples ended like this. */
  function Ended(samples: seq<RouteSample>, k: nat, outcome: Outcome): nat
    requires k <= |samples|
  {
    if k == 0 then 0 else Ended(samples, k - 1, outcome) + (if samples[k - 1].outcome == outcome then 1 else 0)
  }

  /** The number and the sum of the queue ages among the first k samples. */
  function Ages(samples: seq<RouteSample>, k: nat): (nat, real)
    requires k <= |samples|
  {
    if k == 0 then (0, 0.0)
    else
      var (n, total) := Ages(samples, k - 1);
      match samples[k - 1].queueAge
      case None => (n, total)
      case Some(age) => (n + 1, total + age)
  }

  /** The number and the sum of the shares of busy connections among the first k samples. */
  function BusyShares(samples: seq<RouteSample>, k: nat): (nat, real)
    requires k <= |samples|
  {
    if k == 0 then (0, 0.0)
    else
      var (n, total) := BusyShares(samples, k - 1);
      match samples[k - 1].pool
      case None => (n, total)
      case Some(p) => (n + 1, total + p.0 / p.1)
  }

  // ---------------------------------------------------------------- limits

  /** A limit is a floor when it says so, or when it is about throughput and says nothing; otherwise a ceiling. */
  predicate IsFloor(t: Threshold, m: Metric) {
    t.comparator == Some(AtLeastLimit) || (t.comparator == None && m == Throughput)
  }

  /** The value keeps to the limit. */
  predicate Keeps(value: real, t: Threshold, m: Metric) {
    if IsFloor(t, m) then value >= t.limit else value <= t.limit
  }

  /** So many of so many keep to the limit on their share. */
  predicate ShareKeeps(part: nat, whole: nat, t: Threshold, m: Metric) {
    if IsFloor(t, m) then part as real >= t.limit * whole as real else part as real <= t.limit * whole as real
  }

  /** A total over so many values keeps to the limit on their mean; there must be a value. */
  predicate MeanKeeps(count: nat, total: real, t: Threshold, m: Metric) {
    count > 0 && if IsFloor(t, m) then total >= t.limit * count as real else total <= t.limit * count as real
  }

  /** The sample time that q percent of the samples do not exceed keeps to the limit. */
  ghost predicate TimeKeeps(samples: seq<RouteSample>, q: real, t: Threshold, m: Metric) {
    exists v :: HasRank(Times(samples), q / 100.0 * |samples| as real, v) && Keeps(v, t, m)
  }

  /** Requests by second; a clock that did not advance counts none. */
  function PerSecond(n: nat, wallSeconds: real): real { if wallSeconds > 0.0 then n as real / wallSeconds else 0.0 }

  /** What each limit is about. */
  ghost predicate MetricKeeps(samples: seq<RouteSample>, wallSeconds: real, t: Threshold, m: Metric) {
    var n := |samples|;
    match m
    case P50 => TimeKeeps(samples, 50.0, t, m)
    case P95 => TimeKeeps(samples, 95.0, t, m)
    case P99 => TimeKeeps(samples, 99.0, t, m)
    case Throughput => Keeps(PerSecond(n, wallSeconds), t, m)
    case ErrorRate => ShareKeeps(Ended(samples, n, Error), n, t, m)
    case DenialRate => ShareKeeps(Ended(samples, n, Denied), n, t, m)
    case RetryRate => ShareKeeps(Ended(samples, n, Retry), n, t, m)
    case QueueAge => MeanKeeps(Ages(samples, n).0, Ages(samples, n).1, t, m)
    case PoolSaturation => MeanKeeps(BusyShares(samples, n).0, BusyShares(samples, n).1, t, m)
  }

  /** The samples keep to every limit of their route. */
  ghost predicate WithinLimits(samples: seq<RouteSample>, wallSeconds: real, limits: map<Metric, Threshold>)
    requires forall m: Metric :: m in limits
  {
    forall m: Metric :: MetricKeeps(samples, wallSeconds, limits[m], m)
  }

  // ---------------------------------------------------------------- one check

  lemma {:induction false} EndedIs(samples: seq<RouteSample>, k: nat, outcome: Outcome)
    requires k <= |samples|
    ensures CountOutcome(samples, k, outcome) == Ended(samples, k, outcome)
  {
    if k > 0 { EndedIs(samples, k - 1, outcome); }
  }

  lemma SumAppend(values: seq<real>, v: real)
    ensures Sum(values + [v]) == Sum(values) + v
  {
    assert (values + [v])[..|values|] == values;
  }

  lemma {:induction false} AgesAre(samples: seq<RouteSample>, k: nat)
    requires k <= |samples|
    ensures var values := QueueAges(samples, k); Ages(samples, k) == (|values|, Sum(values))
  {
    if k > 0 {
      AgesAre(samples, k - 1);
      var before := QueueAges(samples, k - 1);
      match samples[k - 1].queueAge
      case None => assert QueueAges(samples, k) == before;
      case Some(age) => SumAppend(before, age);
    }
  }

  lemma {:induction false} BusySharesAre(samples: seq<RouteSample>, k: nat)
    requires k <= |samples|
    ensures var values := Saturations(samples, k); BusyShares(samples, k) == (|values|, Sum(values))
  {
    if k > 0 {
      BusySharesAre(samples, k - 1);
      var before := Saturations(samples, k - 1);
      match samples[k - 1].pool
      case None => assert Saturations(samples, k) == before;
      case Some(p) => SumAppend(before, p.0 / p.1);
    }
  }

  lemma QuotientKeeps(a: real, n: real, l: real)
    requires n > 0.0
    ensures (a / n <= l <==> a <= l * n) && (a / n >= l <==> a >= l * n)
  {
    assert a == (a / n) * n;
    ScaleOrder(a / n, l, n);
  }

  lemma ScaleOrder(x: real, y: real, n: real)
    requires n > 0.0
    ensures (x <= y <==> x * n <= y * n) && (x >= y <==> x * n >= y * n)
  {
  }

  /** A check is met exactly when its value exists and keeps to the limit. */
  lemma CheckPasses(s: SummaryMetrics, m: Metric, t: Threshold)
    ensures CheckOf(s, m, t).passed <==> ValueFor(s, m).Some? && Keeps(ValueFor(s, m).value, t, m)
  {
  }

  lemma TimeCheck(samples: seq<RouteSample>, q: real, t: Threshold, m: Metric)
    requires samples != [] && 0.0 < q <= 100.0
    ensures Keeps(PercentileOf(samples, q), t, m) <==> TimeKeeps(samples, q, t, m)
  {
    assert Times(samples) == Durations(samples);
    var v := PercentileOf(samples, q);
    assert Share(q, |samples|) == q / 100.0 * |samples| as real;
    PercentileIff(Durations(samples), q, v);
    if TimeKeeps(samples, q, t, m) {
      var w :| HasRank(Times(samples), q / 100.0 * |samples| as real, w) && Keeps(w, t, m);
      PercentileIff(Durations(samples), q, w);
    }
  }

  lemma RateCheck(samples: seq<RouteSample>, outcome: Outcome, t: Threshold, m: Metric)
    requires samples != []
    ensures Keeps(Rate(samples, outcome), t, m) <==> ShareKeeps(Ended(samples, |samples|, outcome), |samples|, t, m)
  {
    EndedIs(samples, |samples|, outcome);
    QuotientKeeps(Ended(samples, |samples|, outcome) as real, |samples| as real, t.limit);
  }

  lemma MeanCheck(values: seq<real>, t: Threshold, m: Metric)
    ensures Mean(values).Some? && Keeps(Mean(values).value, t, m) <==> MeanKeeps(|values|, Sum(values), t, m)
  {
    if values != [] { QuotientKeeps(Sum(values), |values| as real, t.limit); }
  }

  predicate Passes(samples: seq<RouteSample>, wallSeconds: real, t: Threshold, m: Metric)
    requires samples != []
  {
    CheckOf(Summarize(samples, Some(wallSeconds)), m, t).passed
  }

  lemma P50Passes(samples: seq<RouteSample>, wallSeconds: real, t: Threshold)
    requires samples != []
    ensures Passes(samples, wallSeconds, t, P50) <==> MetricKeeps(samples, wallSeconds, t, P50)
  {
    CheckPasses(Summarize(samples, Some(wallSeconds)), P50, t);
    TimeCheck(samples, 50.0, t, P50);
  }

  lemma P95Passes(samples: seq<RouteSample>, wallSeconds: real, t: Threshold)
    requires samples != []
    ensures Passes(samples, wallSeconds, t, P95) <==> MetricKeeps(samples, wallSeconds, t, P95)
  {
    CheckPasses(Summarize(samples, Some(wallSeconds)), P95, t);
    TimeCheck(samples, 95.0, t, P95);
  }

  lemma P99Passes(samples: seq<RouteSample>, wallSeconds: real, t: Threshold)
    requires samples != []
    ensures Passes(samples, wallSeconds, t, P99) <==> MetricKeeps(samples, wallSeconds, t, P99)
  {
    CheckPasses(Summarize(samples, Some(wallSeconds)), P99, t);
    assert ValueFor(Summarize(samples, Some(wallSeconds)), P99) == Some(PercentileOf(samples, 99.0));
    TimeCheck(samples, 99.0, t, P99);
  }

  lemma ThroughputPasses(samples: seq<RouteSample>, wallSeconds: real, t: Threshold)
    requires samples != []
    ensures Passes(samples, wallSeconds, t, Throughput) <==> Keeps(PerSecond(|samples|, wallSeconds), t, Throughput)
  {
  }

  lemma ErrorRatePasses(samples: seq<RouteSample>, wallSeconds: real, t: Threshold)
    requires samples != []
    ensures Passes(samples, wallSeconds, t, ErrorRate) <==> MetricKeeps(samples, wallSeconds, t, ErrorRate)
  {
    CheckPasses(Summarize(samples, Some(wallSeconds)), ErrorRate, t);
    RateCheck(samples, Error, t, ErrorRate);
  }

  lemma DenialRatePasses(samples: seq<RouteSample>, wallSeconds: real, t: Threshold)
    requires samples != []
    ensures Passes(samples, wallSeconds, t, DenialRate) <==> MetricKeeps(samples, wallSeconds, t, DenialRate)
  {
    CheckPasses(Summarize(samples, Some(wallSeconds)), DenialRate, t);
    RateCheck(samples, Denied, t, DenialRate);
  }

  lemma RetryRatePasses(samples: seq<RouteSample>, wallSeconds: real, t: Threshold)
    requires samples != []
    ensures Passes(samples, wallSeconds, t, RetryRate) <==> MetricKeeps(samples, wallSeconds, t, RetryRate)
  {
    CheckPasses(Summarize(samples, Some(wallSeconds)), RetryRate, t);
    RateCheck(samples, Retry, t, RetryRate);
  }

  lemma QueueAgePasses(samples: seq<RouteSample>, wallSeconds: real, t: Threshold)
    requires samples != []
    ensures Passes(samples, wallSeconds, t, QueueAge) <==> MetricKeeps(samples, wallSeconds, t, QueueAge)
  {
    AgesAre(samples, |samples|);
    CheckPasses(Summarize(samples, Some(wallSeconds)), QueueAge, t);
    MeanCheck(QueueAges(samples, |samples|), t, QueueAge);
  }

  lemma PoolSaturationPasses(samples: seq<RouteSample>, wallSeconds: real, t: Threshold)
    requires samples != []
    ensures Passes(samples, wallSeconds, t, PoolSaturation) <==> MetricKeeps(samples, wallSeconds, t, PoolSaturation)
  {
    BusySharesAre(samples, |samples|);
    CheckPasses(Summarize(samples, Some(wallSeconds)), PoolSaturation, t);
    MeanCheck(Saturations(samples, |samples|), t, PoolSaturation);
  }

  /** The check of a metric is met exactly when the samples keep to its limit. */
  lemma MetricPasses(samples: seq<RouteSample>, wallSeconds: real, t: Threshold, m: Metric)
    requires samples != []
    ensures Passes(samples, wallSeconds, t, m) <==> MetricKeeps(samples, wallSeconds, t, m)
  {
    match m
    case P50 => P50Passes(samples, wallSeconds, t);
    case P95 => P95Passes(samples, wallSeconds, t);
    case P99 => P99Passes(samples, wallSeconds, t);
    case Throughput => ThroughputPasses(samples, wallSeconds, t);
    case ErrorRate => ErrorRatePasses(samples, wallSeconds, t);
    case DenialRate => DenialRatePasses(samples, wallSeconds, t);
    case RetryRate => RetryRatePasses(samples, wallSeconds, t);
    case QueueAge => QueueAgePasses(samples, wallSeconds, t);
    case PoolSaturation => PoolSaturationPasses(samples, wallSeconds, t);
  }

  // ---------------------------------------------------------------- one route

  lemma {:induction false} ChecksPass(samples: seq<RouteSample>, wallSeconds: real, limits: map<Metric, Threshold>,
                                      k: nat)
    requires samples != [] && k <= |METRICS| && forall m: Metric :: m in limits
    ensures var checks := ChecksTo(Summarize(samples, Some(wallSeconds)), limits, k);
            AllMeasured(checks) && AllPassed(checks)
            <==> forall i | 0 <= i < k :: Passes(samples, wallSeconds, limits[METRICS[i]], METRICS[i])
  {
    if k > 0 {
      var s := Summarize(samples, Some(wallSeconds));
      ChecksPass(samples, wallSeconds, limits, k - 1);
      OneMoreCheck(ChecksTo(s, limits, k - 1), CheckOf(s, METRICS[k - 1], limits[METRICS[k - 1]]));
    }
  }

  lemma AllPass(samples: seq<RouteSample>, wallSeconds: real, limits: map<Metric, Threshold>)
    requires samples != [] && forall m: Metric :: m in limits
    ensures (forall i | 0 <= i < |METRICS| :: Passes(samples, wallSeconds, limits[METRICS[i]], METRICS[i]))
       <==> WithinLimits(samples, wallSeconds, limits)
  {
    forall m: Metric
      ensures Passes(samples, wallSeconds, limits[m], m) <==> MetricKeeps(samples, wallSeconds, limits[m], m)
      ensures exists i :: 0 <= i < |METRICS| && METRICS[i] == m
    {
      MetricPasses(samples, wallSeconds, limits[m], m);
      EveryMetric(m);
    }
  }

  /** A route was sampled, and its samples keep to all its limits. */
  ghost predicate RouteKeeps(phase: Option<PhaseResult>, limits: map<Metric, Threshold>)
    requires forall m: Metric :: m in limits
  {
    phase.Some? && phase.value.samples != [] && WithinLimits(phase.value.samples, phase.value.wallSeconds, limits)
  }

  /** Every metric has a value: some sample told a queue age, and some a pool. */
  ghost predicate RouteMeasured(phase: Option<PhaseResult>) {
    && phase.Some? && phase.value.samples != []
    && Ages(phase.value.samples, |phase.value.samples|).0 > 0
    && BusyShares(phase.value.samples, |phase.value.samples|).0 > 0
  }

  lemma {:induction false} MeasuredTo(s: SummaryMetrics, limits: map<Metric, Threshold>, k: nat)
    requires k <= |METRICS| && forall m: Metric :: m in limits
    ensures AllMeasured(ChecksTo(s, limits, k)) <==> forall i | 0 <= i < k :: ValueFor(s, METRICS[i]).Some?
  {
    if k > 0 {
      MeasuredTo(s, limits, k - 1);
      OneMoreCheck(ChecksTo(s, limits, k - 1), CheckOf(s, METRICS[k - 1], limits[METRICS[k - 1]]));
    }
  }

  lemma AllMeasuredIff(samples: seq<RouteSample>, wallSeconds: real, limits: map<Metric, Threshold>)
    requires samples != [] && forall m: Metric :: m in limits
    ensures AllMeasured(ChecksTo(Summarize(samples, Some(wallSeconds)), limits, |METRICS|))
       <==> Ages(samples, |samples|).0 > 0 && BusyShares(samples, |samples|).0 > 0
  {
    MeasuredTo(Summarize(samples, Some(wallSeconds)), limits, |METRICS|);
    AgeIsMeasured(samples, wallSeconds);
    BusyShareIsMeasured(samples, wallSeconds);
    OnlyTwoMayMiss(Summarize(samples, Some(wallSeconds)));
  }

  lemma AgeIsMeasured(samples: seq<RouteSample>, wallSeconds: real)
    requires samples != []
    ensures Summarize(samples, Some(wallSeconds)).queueAge.Some? <==> Ages(samples, |samples|).0 > 0
  {
    AgesAre(samples, |samples|);
  }

  lemma BusyShareIsMeasured(samples: seq<RouteSample>, wallSeconds: real)
    requires samples != []
    ensures Summarize(samples, Some(wallSeconds)).poolSaturation.Some? <==> BusyShares(samples, |samples|).0 > 0
  {
    BusySharesAre(samples, |samples|);
  }

  /** Every metric but queue age and pool saturation has a value whatever the samples tell. */
  lemma OnlyTwoMayMiss(s: SummaryMetrics)
    ensures (forall i | 0 <= i < |METRICS| :: ValueFor(s, METRICS[i]).Some?)
       <==> s.queueAge.Some? && s.poolSaturation.Some?
  {
    assert METRICS[7] == QueueAge && METRICS[8] == PoolSaturation;
  }

  /**
   A route passes exactly when it was sampled and its samples keep to all its limits; it is not certified
   exactly when it was not sampled, or no sample told a queue age or a pool; otherwise it fails.
   */
  lemma RouteDecides(route: Route, phase: Option<PhaseResult>, limits: map<Metric, Threshold>)
    requires forall m: Metric :: m in limits
    ensures var r := RouteResultOf(route, phase, limits);
            && r.route == route && r.samples == (if phase.Some? then |phase.value.samples| else 0)
            && (Satisfied(r) <==> RouteKeeps(phase, limits))
            && (r.status.Pass? <==> RouteKeeps(phase, limits))
            && (r.measured <==> RouteMeasured(phase))
            && (r.status.NotCertified? <==> !RouteMeasured(phase))
  {
    if phase.Some? && phase.value.samples != [] {
      ChecksPass(phase.value.samples, phase.value.wallSeconds, limits, |METRICS|);
      AllPass(phase.value.samples, phase.value.wallSeconds, limits);
      AllMeasuredIff(phase.value.samples, phase.value.wallSeconds, limits);
    }
  }

  // ---------------------------------------------------------------- whole runs

  /** Every route was sampled, and its samples keep to its limits. */
  ghost predicate RoutesKeep(t: RawThresholds, phases: Route -> Option<PhaseResult>)
    requires ValidThresholds(t)
  {
    forall route: Route :: RouteKeeps(phases(route), t.limits[route])
  }

  lemma SatisfiedIffKeeps(t: RawThresholds, source: Source, allowed: bool, phases: Route -> Option<PhaseResult>)
    requires ValidThresholds(t) && forall route: Route :: phases(route) == PhaseFor(t, source, allowed, route)
    ensures (forall route: Route :: Satisfied(ResultFor(t, source, allowed, route))) <==> RoutesKeep(t, phases)
  {
    forall route: Route
      ensures Satisfied(ResultFor(t, source, allowed, route)) <==> RouteKeeps(phases(route), t.limits[route])
    {
      RouteDecides(route, PhaseFor(t, source, allowed, route), t.limits[route]);
    }
  }

  /** A replayed run passes exactly when every recorded route keeps to its limits and the evidence is in order. */
  lemma ReplayPassesIff(t: RawThresholds, phases: map<Route, PhaseResult>, confirmed: bool)
    requires ValidThresholds(t)
    ensures var source, allowed := Replay(phases), Allowed(t, confirmed);
            ReportOf(t, source, confirmed).status.Pass? <==>
              && RoutesKeep(t, route => if route in phases then Some(phases[route]) else None)
              && FirstEvidenceOk(t, source, allowed)
              && (t.injection.enabled ==> confirmed && forall x: InjectionTarget :: Exercised(t, source, allowed, x))
  {
    var source, allowed := Replay(phases), Allowed(t, confirmed);
    var recorded := route => if route in phases then Some(phases[route]) else None;
    PassesIff(t, source, confirmed);
    SatisfiedIffKeeps(t, source, allowed, recorded);
  }

  /**
   What a live run measures: the phase with its fault where the route is to exercise one, the plain phase
   elsewhere.
   */
  function LivePhase(t: RawThresholds, source: Source, route: Route): Option<PhaseResult>
    requires source.Live?
  {
    if route in t.injection.routeTargets then source.targets(route).faulted else Some(source.targets(route).plain)
  }

  /** A request that failed or was denied while the fault was on. */
  predicate FeltFault(s: RouteSample, on: real, off: real) {
    on <= s.startedAt < off && (s.outcome == Error || s.outcome == Denied)
  }

  /** The first success among the samples that started after the fault; none recorded later of those failed. */
  predicate EndsFault(samples: seq<RouteSample>, off: real, i: nat)
    requires i < |samples|
  {
    && off <= samples[i].startedAt && samples[i].outcome == Success
    && (forall j | 0 <= j < i :: samples[j].startedAt >= off ==> samples[j].outcome != Success)
    && (forall j | i < j < |samples| :: samples[j].startedAt >= off ==>
          samples[j].outcome != Error && samples[j].outcome != Denied)
  }

  /**
   A fault of so many seconds in the second half of a phase was felt, the first success that started after
   it came in time, and nothing recorded later that started after it failed or was denied.
   */
  ghost predicate FaultPassesOver(samples: seq<RouteSample>, durationSeconds: real, faultSeconds: real,
                                  maxSeconds: real)
  {
    var on := durationSeconds / 2.0;
    var off := on + faultSeconds;
    && (exists i :: 0 <= i < |samples| && FeltFault(samples[i], on, off))
    && (exists i :: 0 <= i < |samples| && EndsFault(samples, off, i) && samples[i].startedAt <= off + maxSeconds)
  }

  lemma SampleTells(t: RawThresholds, route: Route, s: RouteSample)
    requires route in t.profiles && t.profiles[route].Valid()
    ensures var c := WindowOf(t, route);
            var on := t.profiles[route].durationSeconds / 2.0; var off := on + t.injection.faultSeconds;
            && WindowEnd(c) == off && c.started == 0.0
            && (InWindow(c, s) && IsFailure(s.outcome) <==> FeltFault(s, on, off))
            && (Recovers(c, s) <==> s.startedAt >= off && s.outcome == Success)
            && (FailsAfter(c, s) <==> s.startedAt >= off && (s.outcome == Error || s.outcome == Denied))
  {
  }

  lemma EndsFaultIff(t: RawThresholds, route: Route, samples: seq<RouteSample>, i: nat)
    requires route in t.profiles && t.profiles[route].Valid() && i < |samples|
    ensures var c := WindowOf(t, route);
            var off := t.profiles[route].durationSeconds / 2.0 + t.injection.faultSeconds;
            EndsFault(samples, off, i)
            <==> FirstToRecover(c, samples, i) && forall j | i < j < |samples| :: !FailsAfter(c, samples[j])
  {
    forall j | 0 <= j < |samples|
      ensures var c := WindowOf(t, route);
              var off := t.profiles[route].durationSeconds / 2.0 + t.injection.faultSeconds;
              && (Recovers(c, samples[j]) <==> samples[j].startedAt >= off && samples[j].outcome == Success)
              && (FailsAfter(c, samples[j])
                  <==> samples[j].startedAt >= off && (samples[j].outcome == Error || samples[j].outcome == Denied))
    {
      SampleTells(t, route, samples[j]);
    }
  }

  lemma RecoversByTheSamples(t: RawThresholds, route: Route, samples: seq<RouteSample>, maxSeconds: real)
    requires route in t.profiles && t.profiles[route].Valid()
    ensures RecoversBy(WindowOf(t, route), samples, maxSeconds)
       <==> FaultPassesOver(samples, t.profiles[route].durationSeconds, t.injection.faultSeconds, maxSeconds)
  {
    forall i | 0 <= i < |samples|
      ensures var c := WindowOf(t, route);
              var on := t.profiles[route].durationSeconds / 2.0; var off := on + t.injection.faultSeconds;
              && WindowEnd(c) == off && c.started == 0.0
              && (InWindow(c, samples[i]) && IsFailure(samples[i].outcome) <==> FeltFault(samples[i], on, off))
              && (EndsFault(samples, off, i)
                  <==> FirstToRecover(c, samples, i) && forall j | i < j < |samples| :: !FailsAfter(c, samples[j]))
    {
      SampleTells(t, route, samples[i]);
      EndsFaultIff(t, route, samples, i);
    }
  }

  /** For every target, the first listed route that is to exercise it shows its fault passing over. */
  ghost predicate FaultsPass(t: RawThresholds, source: Source)
    requires ValidThresholds(t) && t.injection.enabled && source.Live?
  {
    forall i, x | 0 <= i < |t.order| && FirstWanting(t, i, x) ::
      var route := t.order[i];
      && source.targets(route).faulted.Some?
      && FaultPassesOver(source.targets(route).faulted.value.samples, t.profiles[route].durationSeconds,
                         t.injection.faultSeconds, t.injection.maxRecoverySeconds.value)
  }

  lemma FaultsPassIff(t: RawThresholds, source: Source)
    requires ValidThresholds(t) && t.injection.enabled && source.Live?
    ensures FaultsPass(t, source) <==> FirstRoutesRecover(t, source)
  {
    forall i, x | 0 <= i < |t.order| && FirstWanting(t, i, x)
      ensures RecoversFrom(t, source, i) <==>
                && source.targets(t.order[i]).faulted.Some?
                && FaultPassesOver(source.targets(t.order[i]).faulted.value.samples,
                                   t.profiles[t.order[i]].durationSeconds, t.injection.faultSeconds,
                                   t.injection.maxRecoverySeconds.value)
    {
      if source.targets(t.order[i]).faulted.Some? {
        RecoversByTheSamples(t, t.order[i], source.targets(t.order[i]).faulted.value.samples,
                             t.injection.maxRecoverySeconds.value);
      }
    }
  }

  /** Every route that is to exercise a fault supports it and was driven with it. */
  predicate AllWired(t: RawThresholds, source: Source)
    requires source.Live?
  {
    forall route | route in t.injection.routeTargets ::
      source.targets(route).supportsInjection && source.targets(route).faulted.Some?
  }

  lemma WiredIff(t: RawThresholds, source: Source)
    requires ValidThresholds(t) && t.injection.enabled && source.Live?
    ensures AllWired(t, source) <==> !SomeWiringFails(t, source, true)
  {
    if SomeWiringFails(t, source, true) {
      var route :| route in t.order && WiringFails(t, source, true, route);
    } else {
      forall route | route in t.injection.routeTargets
        ensures source.targets(route).supportsInjection && source.targets(route).faulted.Some?
      {
        assert route in t.order && !WiringFails(t, source, true, route);
      }
    }
  }

  /**
   A live run with injection enabled passes exactly when it was confirmed, every fault was wired, the
   samples of every route, taken while its fault was on and off, keep to all its limits, and the first
   route of every target recovers in time.
   */
  lemma LiveRunPassesIff(t: RawThresholds, source: Source, confirmed: bool)
    requires ValidThresholds(t) && t.injection.enabled && Driven(t, source)
    ensures ReportOf(t, source, confirmed).status.Pass? <==>
              && confirmed && AllWired(t, source)
              && RoutesKeep(t, route => LivePhase(t, source, route))
              && FaultsPass(t, source)
  {
    LivePassIff(t, source, confirmed);
    WiredIff(t, source);
    FaultsPassIff(t, source);
    if !SomeWiringFails(t, source, true) {
      var phases := route => LivePhase(t, source, route);
      forall route: Route
        ensures phases(route) == PhaseFor(t, source, true, route)
      {
        assert route in t.order;
        assert !WiringFails(t, source, true, route);
      }
      SatisfiedIffKeeps(t, source, true, phases);
    }
  }

  // ---------------------------------------------------------------- reasons

  lemma {:induction false} WiringReasonsHold(t: RawThresholds, source: Source, allowed: bool, k: nat, r: Reason)
    requires k <= |t.order|
    ensures r in WiringReasonsTo(t, source, allowed, k) <==>
              exists i :: 0 <= i < k && WiringFails(t, source, allowed, t.order[i])
                          && r == TargetNotExercised(t.injection.routeTargets[t.order[i]])
  {
    if k > 0 {
      WiringReasonsHold(t, source, allowed, k - 1, r);
      InEither(WiringReasonsTo(t, source, allowed, k - 1), WiringReasons(t, source, allowed, t.order[k - 1]));
    }
  }

  lemma {:induction false} MissingReasonsHold(targets: seq<InjectionTarget>, r: Reason)
    ensures r in MissingReasons(targets) <==> r.TargetNotExercised? && r.target in targets
  {
    if targets != [] {
      MissingReasonsHold(targets[..|targets| - 1], r);
      assert targets == targets[..|targets| - 1] + [targets[|targets| - 1]];
    }
  }

  lemma {:induction false} ViolationsHold(result: RouteResult, k: nat, r: Reason)
    requires k <= |result.checks|
    ensures r in ViolationsTo(result, k) <==>
              exists i :: 0 <= i < k && result.checks[i].value.Some? && !result.checks[i].passed
                          && r == Violation(result.route, result.checks[i].metric)
  {
    if k > 0 { ViolationsHold(result, k - 1, r); }
  }

  lemma {:induction false} ResultReasonsHold(results: seq<RouteResult>, k: nat, r: Reason)
    requires k <= |results|
    ensures r in ResultReasons(results, k) <==> exists i :: 0 <= i < k && r in ReasonsOfResult(results[i])
  {
    if k > 0 {
      ResultReasonsHold(results, k - 1, r);
      InEither(ResultReasons(results, k - 1), ReasonsOfResult(results[k - 1]));
    }
  }

  lemma {:induction false} RecoveryReasonsHold(evidence: EvidenceTable, max: Option<real>, k: nat, r: Reason)
    requires k <= |TARGETS|
    ensures r in RecoveryReasons(evidence, max, k) <==>
              exists i :: 0 <= i < k && TARGETS[i] in evidence && !RecoveryOk(evidence[TARGETS[i]], max)
                          && r == NotRecovered(TARGETS[i])
  {
    if k > 0 { RecoveryReasonsHold(evidence, max, k - 1, r); }
  }

  lemma {:induction false} ChecksAre(s: SummaryMetrics, limits: map<Metric, Threshold>, k: nat, i: nat)
    requires i < k <= |METRICS| && forall m: Metric :: m in limits
    ensures ChecksTo(s, limits, k)[i] == CheckOf(s, METRICS[i], limits[METRICS[i]])
  {
    if i < k - 1 { ChecksAre(s, limits, k - 1, i); }
  }

  /** The reasons of one route: it was not measured, or a limit was not kept. */
  lemma RouteReasonsHold(route: Route, phase: Option<PhaseResult>, limits: map<Metric, Threshold>, r: Reason)
    requires forall m: Metric :: m in limits
    ensures r in ReasonsOfResult(RouteResultOf(route, phase, limits)) <==>
              || (r == NotMeasured(route) && !RouteMeasured(phase))
              || (r.Violation? && r.route == route && RouteMeasured(phase)
                  && !MetricKeeps(phase.value.samples, phase.value.wallSeconds, limits[r.metric], r.metric))
  {
    RouteDecides(route, phase, limits);
    if RouteMeasured(phase) {
      ViolationIff(route, phase.value, limits, r);
    }
  }

  lemma ViolationIff(route: Route, phase: PhaseResult, limits: map<Metric, Threshold>, r: Reason)
    requires (forall m: Metric :: m in limits) && RouteMeasured(Some(phase))
    ensures var result := RouteResultOf(route, Some(phase), limits);
            r in ViolationsTo(result, |result.checks|) <==>
              r.Violation? && r.route == route
              && !MetricKeeps(phase.samples, phase.wallSeconds, limits[r.metric], r.metric)
  {
    var result := RouteResultOf(route, Some(phase), limits);
    var s := Summarize(phase.samples, Some(phase.wallSeconds));
    RouteDecides(route, Some(phase), limits);
    ViolationsHold(result, |result.checks|, r);
    forall i | 0 <= i < |METRICS|
      ensures result.checks[i].metric == METRICS[i] && result.checks[i].value.Some?
      ensures result.checks[i].passed <==>
                MetricKeeps(phase.samples, phase.wallSeconds, limits[METRICS[i]], METRICS[i])
    {
      ChecksAre(s, limits, |METRICS|, i);
      assert AllMeasured(result.checks);
      MetricPasses(phase.samples, phase.wallSeconds, limits[METRICS[i]], METRICS[i]);
    }
    if r.Violation? {
      EveryMetric(r.metric);
      var i :| 0 <= i < |METRICS| && METRICS[i] == r.metric;
    }
  }

  /** When a report gives a reason. */
  ghost predicate Gives(t: RawThresholds, source: Source, allowed: bool, r: Reason)
    requires ValidThresholds(t)
  {
    var evidence := EvidenceTo(t, source, allowed, |t.order|);
    match r
    case NotMeasured(route) => !RouteMeasured(PhaseFor(t, source, allowed, route))
    case Violation(route, m) =>
      var phase := PhaseFor(t, source, allowed, route);
      RouteMeasured(phase) && !MetricKeeps(phase.value.samples, phase.value.wallSeconds, t.limits[route][m], m)
    case NotExercised => t.injection.enabled && !allowed
    case TargetNotExercised(x) =>
      || (exists route :: WiringFails(t, source, allowed, route) && t.injection.routeTargets[route] == x)
      || (t.injection.enabled && x !in evidence)
    case NotRecovered(x) => x in evidence && !RecoveryOk(evidence[x], t.injection.maxRecoverySeconds)
  }

  lemma RouteReasonsGiven(t: RawThresholds, source: Source, allowed: bool, r: Reason)
    requires ValidThresholds(t)
    ensures r in ResultReasons(ResultsTo(t, source, allowed, |t.order|), |t.order|)
       <==> (r.NotMeasured? || r.Violation?) && Gives(t, source, allowed, r)
  {
    var n := |t.order|;
    var results := ResultsTo(t, source, allowed, n);
    ResultReasonsHold(results, n, r);
    forall i | 0 <= i < n
      ensures r in ReasonsOfResult(results[i]) <==>
                (r.NotMeasured? || r.Violation?) && r.route == t.order[i] && Gives(t, source, allowed, r)
    {
      ResultsAre(t, source, allowed, n, i);
      RouteReasonsHold(t.order[i], PhaseFor(t, source, allowed, t.order[i]), t.limits[t.order[i]], r);
    }
    if r.NotMeasured? || r.Violation? {
      assert r.route in t.order;
      var i :| 0 <= i < n && t.order[i] == r.route;
    }
  }

  lemma WiringReasonsGiven(t: RawThresholds, source: Source, allowed: bool, r: Reason)
    requires ValidThresholds(t)
    ensures r in WiringReasonsTo(t, source, allowed, |t.order|) <==>
              r.TargetNotExercised?
              && exists route :: WiringFails(t, source, allowed, route) && t.injection.routeTargets[route] == r.target
  {
    WiringReasonsHold(t, source, allowed, |t.order|, r);
    if r.TargetNotExercised?
       && exists route :: WiringFails(t, source, allowed, route) && t.injection.routeTargets[route] == r.target {
      var route :| WiringFails(t, source, allowed, route) && t.injection.routeTargets[route] == r.target;
      assert route in t.order;
      var i :| 0 <= i < |t.order| && t.order[i] == route;
    }
  }

  lemma InjectionReasonsGiven(t: RawThresholds, allowed: bool, evidence: EvidenceTable, r: Reason)
    requires ValidThresholds(t)
    ensures r in InjectionReasons(t, allowed, evidence) <==>
              t.injection.enabled
              && ((r.NotExercised? && !allowed) || (r.TargetNotExercised? && r.target !in evidence))
  {
    var missing := Expected(t) - evidence.Keys;
    ListedAre(missing);
    MissingReasonsHold(Listed(missing, |TARGETS|), r);
    if t.injection.enabled {
      assert forall x: InjectionTarget :: x in Expected(t);
      InEither(if !allowed then [NotExercised] else [], MissingReasons(Listed(missing, |TARGETS|)));
    }
  }

  lemma RecoveryReasonsGiven(evidence: EvidenceTable, max: Option<real>, r: Reason)
    ensures r in RecoveryReasons(evidence, max, |TARGETS|) <==>
              r.NotRecovered? && r.target in evidence && !RecoveryOk(evidence[r.target], max)
  {
    RecoveryReasonsHold(evidence, max, |TARGETS|, r);
    if r.NotRecovered? {
      EveryTargetIsListed(r.target);
      var i :| 0 <= i < |TARGETS| && TARGETS[i] == r.target;
    }
  }

  lemma InOneOfFour(a: seq<Reason>, b: seq<Reason>, c: seq<Reason>, d: seq<Reason>, r: Reason)
    ensures r in a + b + c + d <==> r in a || r in b || r in c || r in d
  {
  }

  lemma ReasonsGiven(t: RawThresholds, source: Source, allowed: bool, r: Reason)
    requires ValidThresholds(t)
    ensures r in Reasons(t, source, allowed) <==> Gives(t, source, allowed, r)
  {
    var n := |t.order|;
    var evidence, max := EvidenceTo(t, source, allowed, n), t.injection.maxRecoverySeconds;
    WiringReasonsGiven(t, source, allowed, r);
    InjectionReasonsGiven(t, allowed, evidence, r);
    RouteReasonsGiven(t, source, allowed, r);
    RecoveryReasonsGiven(evidence, max, r);
    InOneOfFour(WiringReasonsTo(t, source, allowed, n), InjectionReasons(t, allowed, evidence),
                ResultReasons(ResultsTo(t, source, allowed, n), n), RecoveryReasons(evidence, max, |TARGETS|), r);
  }

  /** A report spells exactly the reasons that hold, each text once and in order. */
  lemma ReportGivesReasons(t: RawThresholds, source: Source, confirmed: bool, text: string)
    requires ValidThresholds(t)
    ensures text in ReportOf(t, source, confirmed).reasons
       <==> exists r :: Gives(t, source, Allowed(t, confirmed), r) && Text(r) == text
    ensures StrictlySorted(StringLt, ReportOf(t, source, confirmed).reasons)
  {
    var allowed := Allowed(t, confirmed);
    ReportListsTexts(t, source, confirmed);
    TextIn(Reasons(t, source, allowed), text);
    forall r
      ensures r in Reasons(t, source, allowed) <==> Gives(t, source, allowed, r)
    {
      ReasonsGiven(t, source, allowed, r);
    }
  }

  lemma ReportListsTexts(t: RawThresholds, source: Source, confirmed: bool)
    requires ValidThresholds(t)
    ensures ReportOf(t, source, confirmed).reasons == Sorted(Texts(Reasons(t, source, Allowed(t, confirmed))))
    ensures StrictlySorted(StringLt, ReportOf(t, source, confirmed).reasons)
  {
    SortedTexts(Texts(Reasons(t, source, Allowed(t, confirmed))));
  }

  lemma TextIn(reasons: seq<Reason>, text: string)
    ensures text in Sorted(Texts(reasons)) <==> exists r :: r in reasons && Text(r) == text
  {
    var texts := Texts(reasons);
    if text in texts {
      var i :| 0 <= i < |texts| && texts[i] == text;
      assert reasons[i] in reasons;
    }
    if exists r :: r in reasons && Text(r) == text {
      var r :| r in reasons && Text(r) == text;
      var i :| 0 <= i < |reasons| && reasons[i] == r;
      assert texts[i] == text;
    }
  }

  lemma {:induction false} UniqueIsDistinct(texts: seq<string>)
    ensures Distinct(Unique(texts))
  {
    if texts != [] { UniqueIsDistinct(texts[..|texts| - 1]); }
  }

  lemma SortedTexts(texts: seq<string>)
    ensures StrictlySorted(StringLt, Sorted(texts))
  {
    UniqueIsDistinct(texts);
    StringLtIsOrder();
    SortStrict(StringLt, Unique(texts));
  }

  // ---------------------------------------------------------------- what the report says of the faults

  /** The targets in the order of their names. */
  ghost predicate InOrder(list: seq<InjectionTarget>) {
    forall i, j | 0 <= i < j < |list| :: StringLt(TargetName(list[i]), TargetName(list[j]))
  }

  lemma NamesInOrder()
    ensures StringLt(TargetName(Db), TargetName(Provider)) && StringLt(TargetName(Db), TargetName(Queue))
    ensures StringLt(TargetName(Db), TargetName(Tool)) && StringLt(TargetName(Provider), TargetName(Queue))
    ensures StringLt(TargetName(Provider), TargetName(Tool)) && StringLt(TargetName(Queue), TargetName(Tool))
  {
  }

  lemma {:induction false} ListedInOrder(s: set<InjectionTarget>, k: nat)
    requires k <= |TARGETS|
    ensures InOrder(Listed(s, k)) && forall x | x in Listed(s, k) :: exists i :: 0 <= i < k && TARGETS[i] == x
  {
    if k > 0 {
      ListedInOrder(s, k - 1);
      var front := Listed(s, k - 1);
      forall i | 0 <= i < |front|
        ensures StringLt(TargetName(front[i]), TargetName(TARGETS[k - 1]))
      {
        assert front[i] in front;
        var j :| 0 <= j < k - 1 && TARGETS[j] == front[i];
        TargetsInOrder(j, k - 1);
      }
    }
  }

  lemma TargetsInOrder(i: nat, j: nat)
    requires i < j < |TARGETS|
    ensures StringLt(TargetName(TARGETS[i]), TargetName(TARGETS[j]))
  {
    NamesInOrder();
    assert TARGETS[0] == Db && TARGETS[1] == Provider && TARGETS[2] == Queue && TARGETS[3] == Tool;
  }

  /**
   The report says whether faults were enabled and allowed, which targets were wanted and which were
   exercised, and that all recovered exactly when those are the same, at least one, and each in time.
   */
  lemma InjectionReportTells(t: RawThresholds, source: Source, confirmed: bool)
    requires ValidThresholds(t)
    ensures var i, allowed := ReportOf(t, source, confirmed).injection, Allowed(t, confirmed);
            && (i.enabled <==> t.injection.enabled) && (i.guardAllowed <==> t.injection.enabled && confirmed)
            && InOrder(i.expected) && InOrder(i.exercised)
            && (forall x :: x in i.expected <==> t.injection.enabled && x in t.injection.routeTargets.Values)
            && (forall x :: x in i.exercised <==> Exercised(t, source, allowed, x))
            && (i.recoveredAll <==>
                  && i.exercised != [] && (forall x :: x in i.exercised <==> x in i.expected)
                  && FirstEvidenceOk(t, source, allowed))
  {
    var allowed := Allowed(t, confirmed);
    var evidence := EvidenceTo(t, source, allowed, |t.order|);
    ListedInOrder(Expected(t), |TARGETS|);
    ListedInOrder(evidence.Keys, |TARGETS|);
    ListedAre(Expected(t));
    ListedAre(evidence.Keys);
    EmptyHasNoElements(Listed(evidence.Keys, |TARGETS|));
    forall x: InjectionTarget
      ensures x in evidence.Keys <==> Exercised(t, source, allowed, x)
    {
      EvidenceTells(t, source, allowed, x);
    }
    RecoveryTells(t, source, allowed);
    RecoveredAllIff(t, evidence);
  }

  lemma RecoveredAllIff(t: RawThresholds, evidence: EvidenceTable)
    ensures RecoveredAll(t, evidence) <==>
              && (exists x :: x in evidence) && (forall x :: x in evidence <==> x in Expected(t))
              && !Unrecovered(evidence, t.injection.maxRecoverySeconds)
  {
    if exists x :: x in evidence {
      var x :| x in evidence;
      assert x in evidence.Keys;
    } else {
      assert evidence.Keys == {};
    }
    if forall x :: x in evidence <==> x in Expected(t) { assert evidence.Keys == Expected(t); }
  }
}
