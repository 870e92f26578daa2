/**
 What a verdict of the capacity gate says about the run (cygnus/capacity/gate.py, load.py,
 thresholds.py): a live PASS told by the samples, and a PASS that exercised no fault.
 */
module CapacityVerdicts {
  import opened Wrappers
  import opened Ordering
  import opened CapacityMetrics
  import opened CapacityLoad
  import opened CapacityGate

  // ---------------------------------------------------------------- time to observe

  /** The route's fault window, counted from the start of its phase. */
  function WindowOf(t: RawThresholds, route: Route): Settings
    requires route in t.profiles && t.profiles[route].Valid()
  {
    PhaseSettings(0.0, t.profiles[route].durationSeconds, t.profiles[route].maxRequests, Some(t.injection.faultSeconds))
  }

  /**
   Whenever the route's phase starts, the whole observation time fits between the end of the fault and
   the deadline.
   */
  ghost predicate LeavesTimeToObserve(t: RawThresholds, route: Route)
    requires route in t.profiles && t.profiles[route].Valid()
  {
    var p := t.profiles[route];
    forall started: real ::
      var c := PhaseSettings(started, p.durationSeconds, p.maxRequests, Some(t.injection.faultSeconds));
      c.window.value.disableAt + t.injection.postSeconds <= c.deadline
  }

  /** Sections that are valid each for itself are valid together exactly when every fault can be observed. */
  lemma ObservationFits(t: RawThresholds)
    requires t.ValidSections()
    ensures t.Valid()
       <==> (t.injection.enabled ==> forall route | route in t.injection.routeTargets :: LeavesTimeToObserve(t, route))
  {
    forall route: Route
      ensures LeavesTimeToObserve(t, route)
         <==> t.profiles[route].durationSeconds >= 2.0 * (t.injection.faultSeconds + t.injection.postSeconds)
    {
      var p := t.profiles[route];
      var c := PhaseSettings(0.0, p.durationSeconds, p.maxRequests, Some(t.injection.faultSeconds));
      assert LeavesTimeToObserve(t, route) ==> c.window.value.disableAt + t.injection.postSeconds <= c.deadline;
    }
  }

  // ---------------------------------------------------------------- a live run

  /** The phase is what driving the route with its profile yields, under some schedule of its workers. */
  ghost predicate IsPhase(t: RawThresholds, route: Route, fault: Option<Fault>, phase: PhaseResult)
    requires route in t.profiles && t.profiles[route].Valid()
  {
    exists started, steps, finished :: IsRun(t, route, fault, phase, started, steps, finished)
  }

  predicate IsRun(t: RawThresholds, route: Route, fault: Option<Fault>, phase: PhaseResult,
                  started: real, steps: seq<Step>, finished: real)
    requires route in t.profiles && t.profiles[route].Valid()
  {
    var p := t.profiles[route];
    var c := PhaseSettings(started, p.durationSeconds, p.maxRequests, FaultSeconds(fault));
    var end := Run(c, Start(p.concurrency), steps);
    Joined(end) && ResultOf(end, started, finished, fault) == Some(phase)
  }

  /** Every route of a live source is driven so, with and without its fault. */
  ghost predicate Driven(t: RawThresholds, source: Source)
    requires ValidThresholds(t)
  {
    && source.Live?
    && forall route: Route ::
         && IsPhase(t, route, None, source.targets(route).plain)
         && (route in t.injection.routeTargets && source.targets(route).faulted.Some? ==>
               IsPhase(t, route, Some(Fault(t.injection.routeTargets[route], t.injection.faultSeconds)),
                       source.targets(route).faulted.value))
  }

  /** The i-th route is the first that is to exercise the target. */
  ghost predicate FirstWanting(t: RawThresholds, i: nat, x: InjectionTarget)
    requires i < |t.order|
  {
    && t.order[i] in t.injection.routeTargets && t.injection.routeTargets[t.order[i]] == x
    && forall j | 0 <= j < i :: t.order[j] in t.injection.routeTargets ==> t.injection.routeTargets[t.order[j]] != x
  }

  /** Shifting the clock to the start of the phase changes nothing about its samples. */
  lemma ShiftedWindow(started: real, duration: real, maxRequests: nat, fault: real, samples: seq<RouteSample>,
                      maxSeconds: real)
    ensures RecoversBy(PhaseSettings(started, duration, maxRequests, Some(fault)), samples, maxSeconds)
       <==> RecoversBy(PhaseSettings(0.0, duration, maxRequests, Some(fault)), samples, maxSeconds)
  {
    var c, c0 := PhaseSettings(started, duration, maxRequests, Some(fault)),
                 PhaseSettings(0.0, duration, maxRequests, Some(fault));
    forall i | 0 <= i < |samples|
      ensures InWindow(c, samples[i]) == InWindow(c0, samples[i])
              && AfterWindow(c, samples[i]) == AfterWindow(c0, samples[i])
      ensures FirstToRecover(c, samples, i) == FirstToRecover(c0, samples, i)
      ensures c.started + samples[i].startedAt - WindowEnd(c) == c0.started + samples[i].startedAt - WindowEnd(c0)
    {
    }
  }

  /**
   A driven phase with a fault has evidence for its target, which is in order exactly when its samples
   recover in time.
   */
  lemma FaultedPhase(t: RawThresholds, route: Route, x: InjectionTarget, phase: PhaseResult)
    requires ValidThresholds(t) && t.injection.maxRecoverySeconds.Some?
    requires IsPhase(t, route, Some(Fault(x, t.injection.faultSeconds)), phase)
    ensures phase.recovery.Some? && phase.recovery.value.target == x
    ensures RecoveryOk(phase.recovery.value, t.injection.maxRecoverySeconds)
       <==> RecoversBy(WindowOf(t, route), phase.samples, t.injection.maxRecoverySeconds.value)
  {
    var fault := Some(Fault(x, t.injection.faultSeconds));
    var started, steps, finished :| IsRun(t, route, fault, phase, started, steps, finished);
    var p, max := t.profiles[route], t.injection.maxRecoverySeconds.value;
    var c := PhaseSettings(started, p.durationSeconds, p.maxRequests, FaultSeconds(fault));
    RecoveredInTimeIff(c, p.concurrency, steps, x, t.injection.faultSeconds, max);
    ShiftedWindow(started, p.durationSeconds, p.maxRequests, t.injection.faultSeconds, phase.samples, max);
  }

  lemma PlainPhase(t: RawThresholds, route: Route, phase: PhaseResult)
    requires ValidThresholds(t) && IsPhase(t, route, None, phase)
    ensures phase.recovery.None?
  {
  }

  /** With every fault wired, a route has evidence exactly for the target it wants. */
  lemma WiredRouteObserves(t: RawThresholds, source: Source, i: nat, x: InjectionTarget)
    requires ValidThresholds(t) && t.injection.enabled && Driven(t, source) && i < |t.order|
    requires !WiringFails(t, source, true, t.order[i])
    ensures Observes(t, source, true, i, x) <==> WantedTarget(t, true, t.order[i]) == Some(x)
    ensures WantedTarget(t, true, t.order[i]) == Some(x) ==>
              (RecoveryOk(RecoveryAt(t, source, true, i).value, t.injection.maxRecoverySeconds)
               <==> RecoversBy(WindowOf(t, t.order[i]), source.targets(t.order[i]).faulted.value.samples,
                               t.injection.maxRecoverySeconds.value))
  {
    var route := t.order[i];
    var wanted := WantedTarget(t, true, route);
    if wanted.Some? {
      FaultedPhase(t, route, wanted.value, source.targets(route).faulted.value);
    } else {
      PlainPhase(t, route, source.targets(route).plain);
    }
  }

  /** Every target has a first route that is to exercise it. */
  lemma {:induction false} SomeRouteWants(t: RawThresholds, x: InjectionTarget, k: nat)
    requires k <= |t.order|
    requires exists j ::
               0 <= j < k && t.order[j] in t.injection.routeTargets && t.injection.routeTargets[t.order[j]] == x
    ensures exists i: nat :: i < k && FirstWanting(t, i, x)
  {
    var j :| 0 <= j < k && t.order[j] in t.injection.routeTargets && t.injection.routeTargets[t.order[j]] == x;
    if exists l :: 0 <= l < j && t.order[l] in t.injection.routeTargets && t.injection.routeTargets[t.order[l]] == x {
      SomeRouteWants(t, x, j);
    } else {
      assert FirstWanting(t, j, x);
    }
  }

  lemma EveryTargetIsExercised(t: RawThresholds, source: Source, x: InjectionTarget)
    requires ValidThresholds(t) && t.injection.enabled && Driven(t, source) && !SomeWiringFails(t, source, true)
    ensures Exercised(t, source, true, x)
  {
    assert x in t.injection.routeTargets.Values;
    var route :| route in t.injection.routeTargets && t.injection.routeTargets[route] == x;
    assert route in t.order;
    var i :| 0 <= i < |t.order| && t.order[i] == route;
    WiredRouteObserves(t, source, i, x);
  }

  /** The first route of the target recovers from its fault in time. */
  ghost predicate RecoversFrom(t: RawThresholds, source: Source, i: nat)
    requires ValidThresholds(t) && t.injection.enabled && source.Live? && i < |t.order|
  {
    && source.targets(t.order[i]).faulted.Some?
    && RecoversBy(WindowOf(t, t.order[i]), source.targets(t.order[i]).faulted.value.samples,
                  t.injection.maxRecoverySeconds.value)
  }

  lemma FirstsAgree(t: RawThresholds, source: Source, i: nat, x: InjectionTarget)
    requires ValidThresholds(t) && t.injection.enabled && Driven(t, source) && !SomeWiringFails(t, source, true)
    requires i < |t.order|
    ensures FirstFor(t, source, true, i, x) <==> FirstWanting(t, i, x)
    ensures FirstWanting(t, i, x) ==>
              (RecoveryOk(RecoveryAt(t, source, true, i).value, t.injection.maxRecoverySeconds)
               <==> RecoversFrom(t, source, i))
  {
    WiredRouteObserves(t, source, i, x);
    forall j | 0 <= j < i
      ensures Observes(t, source, true, j, x) <==> WantedTarget(t, true, t.order[j]) == Some(x)
    {
      WiredRouteObserves(t, source, j, x);
    }
  }

  /** Every target's first route recovers in time. */
  ghost predicate FirstRoutesRecover(t: RawThresholds, source: Source)
    requires ValidThresholds(t) && t.injection.enabled && source.Live?
  {
    forall i, x | 0 <= i < |t.order| && FirstWanting(t, i, x) :: RecoversFrom(t, source, i)
  }

  lemma FirstEvidenceIff(t: RawThresholds, source: Source)
    requires ValidThresholds(t) && t.injection.enabled && Driven(t, source) && !SomeWiringFails(t, source, true)
    ensures FirstEvidenceOk(t, source, true) <==> FirstRoutesRecover(t, source)
  {
    if FirstRoutesRecover(t, source) {
      forall i, x | 0 <= i < |t.order| && FirstFor(t, source, true, i, x)
        ensures RecoveryOk(RecoveryAt(t, source, true, i).value, t.injection.maxRecoverySeconds)
      {
        FirstsAgree(t, source, i, x);
      }
    }
    if FirstEvidenceOk(t, source, true) {
      forall i, x | 0 <= i < |t.order| && FirstWanting(t, i, x)
        ensures RecoversFrom(t, source, i)
      {
        FirstsAgree(t, source, i, x);
      }
    }
  }

  /**
   A live run with injection enabled passes exactly when the guard allowed it, every fault was wired,
   every route met its limits, and, for every target, the samples of the first route that was to
   exercise it show the fault, a first success in time, and no failure recorded after that.
   */
  lemma LivePassIff(t: RawThresholds, source: Source, confirmed: bool)
    requires ValidThresholds(t) && t.injection.enabled && Driven(t, source)
    ensures ReportOf(t, source, confirmed).status.Pass? <==>
              && confirmed && !SomeWiringFails(t, source, true)
              && (forall route: Route :: Satisfied(ResultFor(t, source, true, route)))
              && FirstRoutesRecover(t, source)
  {
    PassesIff(t, source, confirmed);
    if confirmed && !SomeWiringFails(t, source, true) {
      FirstEvidenceIff(t, source);
      forall x: InjectionTarget
        ensures Exercised(t, source, true, x)
      {
        EveryTargetIsExercised(t, source, x);
      }
    }
  }

  /** There is such a route for every target. */
  lemma EveryTargetHasFirstRoute(t: RawThresholds, x: InjectionTarget)
    requires ValidThresholds(t) && t.injection.enabled
    ensures exists i :: 0 <= i < |t.order| && FirstWanting(t, i, x)
  {
    assert x in t.injection.routeTargets.Values;
    var route :| route in t.injection.routeTargets && t.injection.routeTargets[route] == x;
    assert route in t.order;
    SomeRouteWants(t, x, |t.order|);
  }

  // ---------------------------------------------------------------- a run without faults

  /** One second on every route, every limit generous, no fault injected. */
  const IDLE_PROFILE := RouteProfile(1, 1.0, 1)

  function IdleLimit(m: Metric): Threshold { Threshold(if m.Throughput? then 0.0 else 1.0, None) }

  function IdleThresholds(): RawThresholds {
    var limits := map m | m in METRICS :: IdleLimit(m);
    RawThresholds(map route | route in ROUTES :: limits, InjectionConfig(false, map[], 1.0, 1.0, None),
                  ROUTES, map route | route in ROUTES :: IDLE_PROFILE)
  }

  /** One quick success, with a queue and a pool at rest. */
  function IdleSample(): RouteSample { RouteSampleData(0.0, 0.0, Success, Some(0.0), Some((0.0, 1.0))) }

  function IdleSource(): Source { Replay(map route | route in ROUTES :: PhaseResult(1.0, [IdleSample()], None)) }

  lemma EveryRoute(route: Route)
    ensures route in ROUTES
  {
    match route
    case PublishRoute => assert ROUTES[0] == route;
    case TicketImportRoute => assert ROUTES[1] == route;
    case IngestionRoute => assert ROUTES[2] == route;
    case WorkerRoute => assert ROUTES[3] == route;
    case QueryRoute => assert ROUTES[4] == route;
  }

  lemma EveryMetric(m: Metric)
    ensures m in METRICS
  {
    match m
    case P50 => assert METRICS[0] == m;
    case P95 => assert METRICS[1] == m;
    case P99 => assert METRICS[2] == m;
    case Throughput => assert METRICS[3] == m;
    case ErrorRate => assert METRICS[4] == m;
    case DenialRate => assert METRICS[5] == m;
    case RetryRate => assert METRICS[6] == m;
    case QueueAge => assert METRICS[7] == m;
    case PoolSaturation => assert METRICS[8] == m;
  }

  lemma IdleIsComplete()
    ensures Complete(IdleThresholds())
    ensures forall route: Route, m: Metric :: IdleThresholds().limits[route][m] == IdleLimit(m)
    ensures forall route: Route :: route in IdleThresholds().profiles && route in IdleThresholds().order
  {
    forall route: Route
      ensures route in ROUTES
    {
      EveryRoute(route);
    }
    forall m: Metric
      ensures m in METRICS
    {
      EveryMetric(m);
    }
  }

  lemma IdleIsValid()
    ensures ValidThresholds(IdleThresholds())
  {
    IdleIsComplete();
    var t := IdleThresholds();
    assert Budget(t.order, t.profiles, 1) == 1.0;
    assert Budget(t.order, t.profiles, 2) == 2.0;
    assert Budget(t.order, t.profiles, 3) == 3.0;
    assert Budget(t.order, t.profiles, 4) == 4.0;
    assert Budget(t.order, t.profiles, 5) == 5.0;
  }

  lemma OneDuration(samples: seq<RouteSample>, q: real)
    requires |samples| == 1 && 0.0 < q <= 100.0
    ensures PercentileOf(samples, q) == samples[0].durationMs
  {
    var values := Durations(samples);
    PercentileIff(values, q, 0.0);
    PercentileIff(values, q, Percentile(values, q).value);
    assert values == [samples[0].durationMs];
  }

  lemma OneOutcome(s: RouteSample, outcome: Outcome)
    ensures Rate([s], outcome) == if s.outcome == outcome then 1.0 else 0.0
  {
    assert CountOutcome([s], 1, outcome) == CountOutcome([s], 0, outcome) + if s.outcome == outcome then 1 else 0;
  }

  lemma MeanOfOne(v: real)
    ensures Mean([v]) == Some(v)
  {
    assert Sum([v][..0]) == 0.0;
    assert Sum([v]) == v;
  }

  lemma IdleSummary()
    ensures Summarize([IdleSample()], Some(1.0)) == SummaryMetrics(1, 0.0, 0.0, 0.0, 1.0, 0.0, 0.0, 0.0, Some(0.0),
                                                                   Some(0.0))
  {
    var s := IdleSample();
    OneDuration([s], 50.0);
    OneDuration([s], 95.0);
    OneDuration([s], 99.0);
    OneOutcome(s, Error);
    OneOutcome(s, Denied);
    OneOutcome(s, Retry);
    assert QueueAges([s], 0) == [] && QueueAges([s], 1) == [0.0];
    assert Saturations([s], 0) == [] && Saturations([s], 1) == [0.0];
    MeanOfOne(0.0);
  }

  /** Every metric is measured and within its limit as soon as its own check is met. */
  lemma {:induction false} ChecksMet(s: SummaryMetrics, limits: map<Metric, Threshold>, k: nat)
    requires k <= |METRICS| && forall m: Metric :: m in limits && CheckOf(s, m, limits[m]).passed
    ensures AllMeasured(ChecksTo(s, limits, k)) && AllPassed(ChecksTo(s, limits, k))
  {
    if k > 0 {
      ChecksMet(s, limits, k - 1);
      OneMoreCheck(ChecksTo(s, limits, k - 1), CheckOf(s, METRICS[k - 1], limits[METRICS[k - 1]]));
    }
  }

  lemma IdleCheckPasses(m: Metric)
    ensures CheckOf(Summarize([IdleSample()], Some(1.0)), m, IdleLimit(m)).passed
  {
    IdleSummary();
  }

  lemma IdleRouteIsSatisfied(route: Route)
    ensures Complete(IdleThresholds()) && Satisfied(ResultFor(IdleThresholds(), IdleSource(), false, route))
  {
    IdleIsComplete();
    EveryRoute(route);
    var s, limits := Summarize([IdleSample()], Some(1.0)), IdleThresholds().limits[route];
    forall m: Metric
      ensures CheckOf(s, m, limits[m]).passed
    {
      IdleCheckPasses(m);
      assert limits[m] == IdleLimit(m);
    }
    ChecksMet(s, limits, |METRICS|);
  }

  lemma {:induction false} IdleHasNoEvidence(k: nat)
    requires k <= |IdleThresholds().order|
    ensures EvidenceTo(IdleThresholds(), IdleSource(), false, k) == map[]
  {
    if k > 0 { IdleHasNoEvidence(k - 1); }
  }

  /**
   A run that exercised no fault can pass: with injection switched off, one quick success on every
   route is a PASS without any evidence of recovery, whatever the runtime confirms.
   */
  lemma IdleRunPasses(confirmed: bool)
    ensures ValidThresholds(IdleThresholds()) && !Allowed(IdleThresholds(), confirmed)
    ensures ReportOf(IdleThresholds(), IdleSource(), confirmed).status.Pass?
    ensures EvidenceTo(IdleThresholds(), IdleSource(), false, |ROUTES|) == map[]
    ensures ReportOf(IdleThresholds(), IdleSource(), confirmed).injection.exercised == []
  {
    IdleIsValid();
    IdleHasNoEvidence(|ROUTES|);
    var t, source := IdleThresholds(), IdleSource();
    forall route: Route
      ensures Satisfied(ResultFor(t, source, false, route))
    {
      IdleRouteIsSatisfied(route);
    }
    RecoveryTells(t, source, false);
    PassesIff(t, source, confirmed);
    NothingListed();
  }

  lemma NothingListed()
    ensures Listed({}, |TARGETS|) == []
  {
    ListedAre({});
    EmptyHasNoElements(Listed({}, |TARGETS|));
  }

  /** With injection enabled there is no such PASS: every target has evidence of recovery in time. */
  lemma PassExercisesEveryTarget(t: RawThresholds, source: Source, confirmed: bool)
    requires ValidThresholds(t) && t.injection.enabled && ReportOf(t, source, confirmed).status.Pass?
    ensures confirmed
    ensures forall x: InjectionTarget ::
              && x in EvidenceTo(t, source, true, |t.order|)
              && RecoveryOk(EvidenceTo(t, source, true, |t.order|)[x], t.injection.maxRecoverySeconds)
  {
    PassesIff(t, source, confirmed);
    RecoveryTells(t, source, true);
    var evidence := EvidenceTo(t, source, true, |t.order|);
    forall x: InjectionTarget
      ensures x in evidence && RecoveryOk(evidence[x], t.injection.maxRecoverySeconds)
    {
      assert Exercised(t, source, true, x);
      EvidenceTells(t, source, true, x);
    }
  }
}
