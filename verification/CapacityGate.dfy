/**
 The capacity verdict (cygnus/capacity/gate.py, thresholds.py) and the clauses of the release
 gate that read it (scripts/release_gate.py).
 */
module CapacityGate {
  import opened Wrappers
  import opened Ordering
  import opened CapacityMetrics
  import opened CapacityLoad

  // ---------------------------------------------------------------- vocabulary

  datatype Route = PublishRoute | TicketImportRoute | IngestionRoute | WorkerRoute | QueryRoute

  const ROUTES := [PublishRoute, TicketImportRoute, IngestionRoute, WorkerRoute, QueryRoute]

  datatype Metric = P50 | P95 | P99 | Throughput | ErrorRate | DenialRate | RetryRate | QueueAge | PoolSaturation

  const METRICS := [P50, P95, P99, Throughput, ErrorRate, DenialRate, RetryRate, QueueAge, PoolSaturation]

  /** In the order of their names. */
  const TARGETS := [Db, Provider, Queue, Tool]

  datatype Comparator = AtMostLimit | AtLeastLimit

  datatype Threshold = Threshold(limit: real, comparator: Option<Comparator>) {
    function Resolved(m: Metric): Comparator {
      if comparator.Some? then comparator.value else if m.Throughput? then AtLeastLimit else AtMostLimit
    }
  }

  datatype Status = Pass | Fail | NotCertified

  function ValueFor(s: SummaryMetrics, m: Metric): Option<real> {
    match m
    case P50 => Some(s.p50)
    case P95 => Some(s.p95)
    case P99 => Some(s.p99)
    case Throughput => Some(s.throughput)
    case ErrorRate => Some(s.errorRate)
    case DenialRate => Some(s.denialRate)
    case RetryRate => Some(s.retryRate)
    case QueueAge => s.queueAge
    case PoolSaturation => s.poolSaturation
  }

  // ---------------------------------------------------------------- inputs

  datatype InjectionConfig = InjectionConfig(
      enabled: bool,
      routeTargets: map<Route, InjectionTarget>,
      faultSeconds: real,
      postSeconds: real,
      maxRecoverySeconds: Option<real>)
  {
    ghost predicate Valid() {
      && 1.0 <= faultSeconds <= 30.0 && 1.0 <= postSeconds <= 60.0
      && (maxRecoverySeconds.Some? ==> 0.1 <= maxRecoverySeconds.value <= 3600.0)
      && (enabled ==> maxRecoverySeconds.Some? && forall x: InjectionTarget :: x in routeTargets.Values)
    }
  }

  datatype RouteProfile = RouteProfile(concurrency: int, durationSeconds: real, maxRequests: int) {
    predicate Valid() {
      1 <= concurrency <= 32 && 1.0 <= durationSeconds <= 300.0 && 1 <= maxRequests <= 100000
    }
  }

  /** The validated external input; `order` is the order in which the profile lists the routes. */
  datatype RawThresholds = RawThresholds(
      limits: map<Route, map<Metric, Threshold>>,
      injection: InjectionConfig,
      order: seq<Route>,
      profiles: map<Route, RouteProfile>)
  {
    /** Every section on its own. */
    ghost predicate ValidSections() {
      && Complete(this)
      && (forall r: Route :: r in profiles && profiles[r].Valid())
      && (forall r: Route :: r in order)
      && Distinct(order)
      && Budget(order, profiles, |order|) <= 900.0
      && injection.Valid()
    }

    ghost predicate Valid() {
      && ValidSections()
      && (injection.enabled ==> forall r | r in injection.routeTargets ::
            profiles[r].durationSeconds >= 2.0 * (injection.faultSeconds + injection.postSeconds))
    }
  }

  ghost function Budget(order: seq<Route>, profiles: map<Route, RouteProfile>, k: nat): real
    requires k <= |order| && forall r | r in order :: r in profiles
  {
    if k == 0 then 0.0 else Budget(order, profiles, k - 1) + profiles[order[k - 1]].durationSeconds
  }

  /** Every route has a limit for every metric. */
  ghost predicate Complete(t: RawThresholds) {
    (forall r: Route :: r in t.limits) && (forall r: Route, m: Metric :: m in t.limits[r])
  }

  ghost predicate ValidThresholds(t: RawThresholds) { t.Valid() }

  /**
   What driving one route yields: `faulted` is `None` when wiring the fault fails, `plain` is the run
   without a fault.
   */
  datatype LiveRoute = LiveRoute(supportsInjection: bool, faulted: Option<PhaseResult>, plain: PhaseResult)

  datatype Source = Replay(phases: map<Route, PhaseResult>) | Live(targets: Route -> LiveRoute)

  // ---------------------------------------------------------------- one route

  datatype Check = Check(metric: Metric, value: Option<real>, limit: real, comparator: Comparator, passed: bool)

  datatype RouteResult = RouteResult(route: Route, measured: bool, samples: nat, status: Status, checks: seq<Check>)

  predicate Meets(value: real, limit: real, c: Comparator) {
    match c
    case AtMostLimit => value <= limit
    case AtLeastLimit => value >= limit
  }

  function CheckOf(s: SummaryMetrics, m: Metric, threshold: Threshold): Check {
    var value, c := ValueFor(s, m), threshold.Resolved(m);
    Check(m, value, threshold.limit, c, value.Some? && Meets(value.value, threshold.limit, c))
  }

  function ChecksTo(s: SummaryMetrics, limits: map<Metric, Threshold>, k: nat): (r: seq<Check>)
    requires k <= |METRICS| && forall m: Metric :: m in limits
    ensures |r| == k
  {
    if k == 0 then [] else ChecksTo(s, limits, k - 1) + [CheckOf(s, METRICS[k - 1], limits[METRICS[k - 1]])]
  }

  predicate AllMeasured(checks: seq<Check>) { forall i | 0 <= i < |checks| :: checks[i].value.Some? }

  predicate AllPassed(checks: seq<Check>) { forall i | 0 <= i < |checks| :: checks[i].passed }

  function StatusOf(checks: seq<Check>): Status {
    if !AllMeasured(checks) then NotCertified else if AllPassed(checks) then Pass else Fail
  }

  function RouteResultOf(route: Route, phase: Option<PhaseResult>, limits: map<Metric, Threshold>): RouteResult
    requires forall m: Metric :: m in limits
  {
    if phase.None? || phase.value.samples == [] then RouteResult(route, false, 0, NotCertified, [])
    else
      var checks := ChecksTo(Summarize(phase.value.samples, Some(phase.value.wallSeconds)), limits, |METRICS|);
      RouteResult(route, AllMeasured(checks), |phase.value.samples|, StatusOf(checks), checks)
  }

  lemma OneMoreCheck(checks: seq<Check>, c: Check)
    ensures AllMeasured(checks + [c]) <==> AllMeasured(checks) && c.value.Some?
    ensures AllPassed(checks + [c]) <==> AllPassed(checks) && c.passed
  {
    var all := checks + [c];
    assert all[|checks|] == c && forall i | 0 <= i < |checks| :: all[i] == checks[i];
  }

  method BuildRouteResult(route: Route, phase: Option<PhaseResult>, limits: map<Metric, Threshold>)
    returns (r: RouteResult)
    requires forall m: Metric :: m in limits
    ensures r == RouteResultOf(route, phase, limits)
  {
    if phase.None? || phase.value.samples == [] {
      return RouteResult(route, false, 0, NotCertified, []);
    }
    var summary := Summarize(phase.value.samples, Some(phase.value.wallSeconds));
    var checks: seq<Check> := [];
    var measured, passed := true, true;
    for k := 0 to |METRICS|
      invariant checks == ChecksTo(summary, limits, k)
      invariant measured == AllMeasured(checks) && passed == AllPassed(checks)
    {
      var check := CheckOf(summary, METRICS[k], limits[METRICS[k]]);
      OneMoreCheck(checks, check);
      checks := checks + [check];
      measured, passed := measured && check.value.Some?, passed && check.passed;
    }
    return RouteResult(route, measured, |phase.value.samples|,
                       if !measured then NotCertified else if passed then Pass else Fail, checks);
  }

  // ---------------------------------------------------------------- reasons

  datatype Reason =
    | NotMeasured(route: Route)
    | NotExercised
    | TargetNotExercised(target: InjectionTarget)
    | Violation(route: Route, metric: Metric)
    | NotRecovered(target: InjectionTarget)

  const ROUTE_NOT_MEASURED := "route_not_measured"
  const INJECTION_NOT_EXERCISED := "injection_not_exercised"
  const THRESHOLD_VIOLATION := "threshold_violation"
  const RECOVERY_NOT_OBSERVED := "recovery_not_observed"

  function RouteName(r: Route): string {
    match r
    case PublishRoute => "publish"
    case TicketImportRoute => "ticket_import"
    case IngestionRoute => "ingestion"
    case WorkerRoute => "worker"
    case QueryRoute => "query"
  }

  function TargetName(x: InjectionTarget): string {
    match x
    case Db => "db"
    case Queue => "queue"
    case Tool => "tool"
    case Provider => "provider"
  }

  function MetricName(m: Metric): string {
    match m
    case P50 => "p50_ms"
    case P95 => "p95_ms"
    case P99 => "p99_ms"
    case Throughput => "throughput_rps"
    case ErrorRate => "error_rate"
    case DenialRate => "denial_rate"
    case RetryRate => "retry_rate"
    case QueueAge => "queue_age_seconds"
    case PoolSaturation => "pool_saturation"
  }

  function Labelled(prefix: string, subject: string): string { prefix + (":" + subject) }

  /** The reason as the report spells it. */
  function Text(r: Reason): string {
    match r
    case NotMeasured(route) => Labelled(ROUTE_NOT_MEASURED, RouteName(route))
    case NotExercised => INJECTION_NOT_EXERCISED
    case TargetNotExercised(target) => Labelled(INJECTION_NOT_EXERCISED, TargetName(target))
    case Violation(route, metric) => Labelled(THRESHOLD_VIOLATION, RouteName(route) + "." + MetricName(metric))
    case NotRecovered(target) => Labelled(RECOVERY_NOT_OBSERVED, TargetName(target))
  }

  predicate StartsWith(text: string, prefix: string) { prefix + ":" <= text }

  predicate BlocksByText(text: string) {
    StartsWith(text, ROUTE_NOT_MEASURED) || StartsWith(text, INJECTION_NOT_EXERCISED) || text == INJECTION_NOT_EXERCISED
  }

  predicate FailsByText(text: string) {
    StartsWith(text, THRESHOLD_VIOLATION) || StartsWith(text, RECOVERY_NOT_OBSERVED)
  }

  lemma LabelStarts(p: string, prefix: string, subject: string)
    requires ':' !in p && ':' !in prefix
    ensures StartsWith(Labelled(prefix, subject), p) <==> p == prefix
  {
    var text := Labelled(prefix, subject);
    assert text[|prefix|] == ':' && forall i | 0 <= i < |prefix| :: text[i] == prefix[i] != ':';
    if StartsWith(text, p) {
      assert (p + ":")[|p|] == ':' == text[|p|];
      assert forall i | 0 <= i < |p| :: (p + ":")[i] == p[i] == text[i] != ':';
      assert |p| == |prefix| && p == text[..|p|] == prefix;
    }
    if p == prefix { assert p + ":" == text[..|p| + 1]; }
  }

  lemma StartHasColon(p: string, text: string)
    ensures StartsWith(text, p) ==> ':' in text
  {
    if StartsWith(text, p) { assert text[|p|] == (p + ":")[|p|]; }
  }

  /** The four prefixes have different lengths. */
  lemma PrefixesDiffer()
    ensures |ROUTE_NOT_MEASURED| == 18 && |INJECTION_NOT_EXERCISED| == 23
    ensures |THRESHOLD_VIOLATION| == 19 && |RECOVERY_NOT_OBSERVED| == 21
    ensures ':' !in ROUTE_NOT_MEASURED && ':' !in INJECTION_NOT_EXERCISED
    ensures ':' !in THRESHOLD_VIOLATION && ':' !in RECOVERY_NOT_OBSERVED
  {
  }

  predicate Blocks(r: Reason) { r.NotMeasured? || r.NotExercised? || r.TargetNotExercised? }

  lemma LabelledText(prefix: string, subject: string)
    requires prefix == ROUTE_NOT_MEASURED || prefix == INJECTION_NOT_EXERCISED
             || prefix == THRESHOLD_VIOLATION || prefix == RECOVERY_NOT_OBSERVED
    ensures BlocksByText(Labelled(prefix, subject)) <==> |prefix| == 18 || |prefix| == 23
    ensures FailsByText(Labelled(prefix, subject)) <==> |prefix| == 19 || |prefix| == 21
  {
    PrefixesDiffer();
    LabelStarts(ROUTE_NOT_MEASURED, prefix, subject);
    LabelStarts(INJECTION_NOT_EXERCISED, prefix, subject);
    LabelStarts(THRESHOLD_VIOLATION, prefix, subject);
    LabelStarts(RECOVERY_NOT_OBSERVED, prefix, subject);
    assert Labelled(prefix, subject)[|prefix|] == ':';
    assert ':' in Labelled(prefix, subject);
  }

  /** The prefix tests sort every reason as its kind says. */
  lemma TextTellsKind(r: Reason)
    ensures BlocksByText(Text(r)) <==> Blocks(r)
    ensures FailsByText(Text(r)) <==> !Blocks(r)
  {
    PrefixesDiffer();
    match r
    case NotMeasured(route) => LabelledText(ROUTE_NOT_MEASURED, RouteName(route));
    case NotExercised =>
      StartHasColon(THRESHOLD_VIOLATION, INJECTION_NOT_EXERCISED);
      StartHasColon(RECOVERY_NOT_OBSERVED, INJECTION_NOT_EXERCISED);
    case TargetNotExercised(target) => LabelledText(INJECTION_NOT_EXERCISED, TargetName(target));
    case Violation(route, metric) => LabelledText(THRESHOLD_VIOLATION, RouteName(route) + "." + MetricName(metric));
    case NotRecovered(target) => LabelledText(RECOVERY_NOT_OBSERVED, TargetName(target));
  }

  // ---------------------------------------------------------------- a run over the routes

  /** The fault that the configuration wants on a route. */
  function WantedTarget(t: RawThresholds, allowed: bool, route: Route): Option<InjectionTarget> {
    if t.injection.enabled && allowed && route in t.injection.routeTargets
    then Some(t.injection.routeTargets[route]) else None
  }

  /** A live route whose wanted fault could not be wired. */
  predicate WiringFails(t: RawThresholds, source: Source, allowed: bool, route: Route) {
    && source.Live? && WantedTarget(t, allowed, route).Some?
    && (!source.targets(route).supportsInjection || source.targets(route).faulted.None?)
  }

  function PhaseFor(t: RawThresholds, source: Source, allowed: bool, route: Route): Option<PhaseResult> {
    match source
    case Replay(phases) => if route in phases then Some(phases[route]) else None
    case Live(targets) =>
      if WantedTarget(t, allowed, route).Some? && !WiringFails(t, source, allowed, route)
      then targets(route).faulted else Some(targets(route).plain)
  }

  function WiringReasonsTo(t: RawThresholds, source: Source, allowed: bool, k: nat): seq<Reason>
    requires k <= |t.order|
  {
    if k == 0 then []
    else WiringReasonsTo(t, source, allowed, k - 1) + WiringReasons(t, source, allowed, t.order[k - 1])
  }

  function WiringReasons(t: RawThresholds, source: Source, allowed: bool, route: Route): seq<Reason> {
    if WiringFails(t, source, allowed, route) then [TargetNotExercised(t.injection.routeTargets[route])] else []
  }

  type EvidenceTable = map<InjectionTarget, RecoveryEvidence>

  /** Adds a phase's evidence unless its target has some already. */
  function KeepFirst(table: EvidenceTable, phase: Option<PhaseResult>): EvidenceTable {
    if phase.None? || phase.value.recovery.None? then table
    else
      var e := phase.value.recovery.value;
      if e.target in table then table else table[e.target := e]
  }

  /** The first evidence recorded for every target. */
  function EvidenceTo(t: RawThresholds, source: Source, allowed: bool, k: nat): EvidenceTable
    requires k <= |t.order|
  {
    if k == 0 then map[]
    else KeepFirst(EvidenceTo(t, source, allowed, k - 1), PhaseFor(t, source, allowed, t.order[k - 1]))
  }

  function ResultsTo(t: RawThresholds, source: Source, allowed: bool, k: nat): (r: seq<RouteResult>)
    requires k <= |t.order| && Complete(t)
    ensures |r| == k
  {
    if k == 0 then [] else ResultsTo(t, source, allowed, k - 1) + [ResultFor(t, source, allowed, t.order[k - 1])]
  }

  function ResultFor(t: RawThresholds, source: Source, allowed: bool, route: Route): RouteResult
    requires Complete(t)
  {
    RouteResultOf(route, PhaseFor(t, source, allowed, route), t.limits[route])
  }

  lemma {:induction false} ResultsAre(t: RawThresholds, source: Source, allowed: bool, k: nat, i: nat)
    requires i < k <= |t.order| && Complete(t)
    ensures ResultsTo(t, source, allowed, k)[i] == ResultFor(t, source, allowed, t.order[i])
  {
    if i < k - 1 { ResultsAre(t, source, allowed, k - 1, i); }
  }

  predicate RecoveryOk(e: RecoveryEvidence, maxRecoverySeconds: Option<real>) {
    && e.recovered && e.failuresDuringWindow > 0
    && (maxRecoverySeconds.Some? ==> e.recoverySeconds.Some? && e.recoverySeconds.value <= maxRecoverySeconds.value)
  }

  /** The targets of a set in the order of their names. */
  function Listed(s: set<InjectionTarget>, k: nat): seq<InjectionTarget>
    requires k <= |TARGETS|
  {
    if k == 0 then [] else Listed(s, k - 1) + (if TARGETS[k - 1] in s then [TARGETS[k - 1]] else [])
  }

  lemma ListedAre(s: set<InjectionTarget>)
    ensures forall x :: x in Listed(s, |TARGETS|) <==> x in s
  {
    assert Listed(s, 1) == if Db in s then [Db] else [];
    assert Listed(s, 2) == Listed(s, 1) + if Provider in s then [Provider] else [];
    assert Listed(s, 3) == Listed(s, 2) + if Queue in s then [Queue] else [];
    assert Listed(s, 4) == Listed(s, 3) + if Tool in s then [Tool] else [];
    forall x: InjectionTarget
      ensures x in Listed(s, 4) <==> x in s
    {
      match x
      case Db =>
      case Provider =>
      case Queue =>
      case Tool =>
    }
  }

  function Expected(t: RawThresholds): set<InjectionTarget> {
    if t.injection.enabled then t.injection.routeTargets.Values else {}
  }

  function MissingReasons(targets: seq<InjectionTarget>): seq<Reason> {
    if targets == [] then []
    else MissingReasons(targets[..|targets| - 1]) + [TargetNotExercised(targets[|targets| - 1])]
  }

  function InjectionReasons(t: RawThresholds, allowed: bool, evidence: EvidenceTable): seq<Reason> {
    if !t.injection.enabled then []
    else (if !allowed then [NotExercised] else []) + MissingReasons(Listed(Expected(t) - evidence.Keys, |TARGETS|))
  }

  function ViolationsTo(r: RouteResult, k: nat): seq<Reason>
    requires k <= |r.checks|
  {
    if k == 0 then []
    else
      ViolationsTo(r, k - 1)
      + (if r.checks[k - 1].value.Some? && !r.checks[k - 1].passed
         then [Violation(r.route, r.checks[k - 1].metric)] else [])
  }

  function ReasonsOfResult(r: RouteResult): seq<Reason> {
    if !r.measured then [NotMeasured(r.route)] else ViolationsTo(r, |r.checks|)
  }

  function ResultReasons(results: seq<RouteResult>, k: nat): seq<Reason>
    requires k <= |results|
  {
    if k == 0 then []
    else
      ResultReasons(results, k - 1) + ReasonsOfResult(results[k - 1])
  }

  function RecoveryReasons(evidence: EvidenceTable, maxRecoverySeconds: Option<real>, k: nat): seq<Reason>
    requires k <= |TARGETS|
  {
    if k == 0 then []
    else
      var x := TARGETS[k - 1];
      RecoveryReasons(evidence, maxRecoverySeconds, k - 1)
      + (if x in evidence && !RecoveryOk(evidence[x], maxRecoverySeconds) then [NotRecovered(x)] else [])
  }

  function Reasons(t: RawThresholds, source: Source, allowed: bool): seq<Reason>
    requires Complete(t)
  {
    var n := |t.order|;
    var evidence := EvidenceTo(t, source, allowed, n);
    WiringReasonsTo(t, source, allowed, n) + InjectionReasons(t, allowed, evidence)
    + ResultReasons(ResultsTo(t, source, allowed, n), n)
    + RecoveryReasons(evidence, t.injection.maxRecoverySeconds, |TARGETS|)
  }

  function Texts(reasons: seq<Reason>): (r: seq<string>)
    ensures |r| == |reasons| && forall i | 0 <= i < |r| :: r[i] == Text(reasons[i])
  {
    seq(|reasons|, i requires 0 <= i < |reasons| => Text(reasons[i]))
  }

  /** The verdict as the gate reads it off the texts of the reasons. */
  function VerdictByText(results: seq<RouteResult>, texts: seq<string>): Status {
    if (exists r | r in results :: r.status.NotCertified?) || (exists s | s in texts :: BlocksByText(s))
    then NotCertified
    else if exists s | s in texts :: FailsByText(s) then Fail
    else Pass
  }

  datatype InjectionReport = InjectionReport(
      enabled: bool,
      guardAllowed: bool,
      expected: seq<InjectionTarget>,
      exercised: seq<InjectionTarget>,
      recoveredAll: bool)

  datatype Report = Report(status: Status, results: seq<RouteResult>, injection: InjectionReport, reasons: seq<string>)

  function RecoveredAll(t: RawThresholds, evidence: EvidenceTable): bool {
    && evidence.Keys != {} && evidence.Keys == Expected(t)
    && forall x | x in evidence :: RecoveryOk(evidence[x], t.injection.maxRecoverySeconds)
  }

  function BlockedReport(reasons: seq<string>): Report {
    Report(NotCertified, [], InjectionReport(false, false, [], [], false), reasons)
  }

  /**
   The guard: the environment is staging by type, the configuration enables injection, and the runtime
   confirms it.
   */
  function Allowed(t: RawThresholds, confirmed: bool): bool { t.injection.enabled && confirmed }

  function ReportOf(t: RawThresholds, source: Source, confirmed: bool): Report
    requires Complete(t)
  {
    var allowed, n := Allowed(t, confirmed), |t.order|;
    var results, evidence := ResultsTo(t, source, allowed, n), EvidenceTo(t, source, allowed, n);
    var texts := Sorted(Texts(Reasons(t, source, allowed)));
    Report(VerdictByText(results, texts), results,
           InjectionReport(t.injection.enabled, allowed, Listed(Expected(t), |TARGETS|),
                           Listed(evidence.Keys, |TARGETS|),
                           RecoveredAll(t, evidence)),
           texts)
  }

  /** Each text once, in order. */
  function Sorted(texts: seq<string>): (r: seq<string>)
    ensures forall s :: s in r <==> s in texts
  {
    var r := Sort(StringLt, Unique(texts));
    SameElements(r, Unique(texts));
    r
  }

  function Unique(texts: seq<string>): (r: seq<string>)
    ensures forall s :: s in r <==> s in texts
  {
    if texts == [] then []
    else
      var front, last := Unique(texts[..|texts| - 1]), texts[|texts| - 1];
      if last in front then front else front + [last]
  }

  // ---------------------------------------------------------------- the gate

  method RunLoadGate(thresholds: Option<RawThresholds>, releaseGiven: bool, source: Source, confirmed: bool)
    returns (report: Report)
    requires thresholds.Some? ==> ValidThresholds(thresholds.value)
    ensures thresholds.None? || !releaseGiven ==> report.status.NotCertified? && report.results == []
    ensures thresholds.Some? && releaseGiven ==> report == ReportOf(thresholds.value, source, confirmed)
  {
    var blocked: seq<string> := [];
    if thresholds.None? {
      blocked := blocked + ["thresholds_missing"];
    }
    if !releaseGiven {
      blocked := blocked + ["release_refs_missing"];
    }
    if blocked != [] {
      return BlockedReport(blocked);
    }
    report := JudgeRoutes(thresholds.value, source, confirmed);
  }

  method JudgeRoutes(t: RawThresholds, source: Source, confirmed: bool) returns (report: Report)
    requires Complete(t)
    ensures report == ReportOf(t, source, confirmed)
  {
    var allowed := Allowed(t, confirmed);
    var reasons, results, recoveryByTarget := DriveRoutes(t, source, allowed);
    var found := CollectResultReasons(results);
    reasons := reasons + InjectionReasons(t, allowed, recoveryByTarget) + found
               + RecoveryReasons(recoveryByTarget, t.injection.maxRecoverySeconds, |TARGETS|);
    assert reasons == Reasons(t, source, allowed);
    var texts := Sorted(Texts(reasons));
    return Report(VerdictByText(results, texts), results,
                  InjectionReport(t.injection.enabled, allowed, Listed(Expected(t), |TARGETS|),
                                  Listed(recoveryByTarget.Keys, |TARGETS|), RecoveredAll(t, recoveryByTarget)),
                  texts);
  }

  /** What the first k routes have yielded. */
  predicate MeasuredTo(t: RawThresholds, source: Source, allowed: bool, k: nat,
                       reasons: seq<Reason>, results: seq<RouteResult>, recoveryByTarget: EvidenceTable)
    requires Complete(t)
  {
    && k <= |t.order|
    && reasons == WiringReasonsTo(t, source, allowed, k) && results == ResultsTo(t, source, allowed, k)
    && recoveryByTarget == EvidenceTo(t, source, allowed, k)
  }

  lemma MeasuredOneMore(t: RawThresholds, source: Source, allowed: bool, k: nat,
                        reasons: seq<Reason>, results: seq<RouteResult>, recoveryByTarget: EvidenceTable)
    requires Complete(t) && k < |t.order| && MeasuredTo(t, source, allowed, k, reasons, results, recoveryByTarget)
    ensures MeasuredTo(t, source, allowed, k + 1, reasons + WiringReasons(t, source, allowed, t.order[k]),
                       results + [ResultFor(t, source, allowed, t.order[k])],
                       KeepFirst(recoveryByTarget, PhaseFor(t, source, allowed, t.order[k])))
  {
  }

  /** Measures the routes in turn; the first evidence for a target stays. */
  method DriveRoutes(t: RawThresholds, source: Source, allowed: bool)
    returns (reasons: seq<Reason>, results: seq<RouteResult>, recoveryByTarget: EvidenceTable)
    requires Complete(t)
    ensures reasons == WiringReasonsTo(t, source, allowed, |t.order|)
    ensures results == ResultsTo(t, source, allowed, |t.order|)
    ensures recoveryByTarget == EvidenceTo(t, source, allowed, |t.order|)
  {
    reasons, results, recoveryByTarget := [], [], map[];
    for k := 0 to |t.order|
      invariant MeasuredTo(t, source, allowed, k, reasons, results, recoveryByTarget)
    {
      MeasuredOneMore(t, source, allowed, k, reasons, results, recoveryByTarget);
      var notExercised, phase, result := MeasureRoute(t, source, allowed, t.order[k]);
      reasons := reasons + notExercised;
      recoveryByTarget := KeepFirst(recoveryByTarget, phase);
      results := results + [result];
    }
  }

  method MeasureRoute(t: RawThresholds, source: Source, allowed: bool, route: Route)
    returns (reasons: seq<Reason>, phase: Option<PhaseResult>, result: RouteResult)
    requires Complete(t)
    ensures reasons == WiringReasons(t, source, allowed, route)
    ensures phase == PhaseFor(t, source, allowed, route) && result == ResultFor(t, source, allowed, route)
  {
    reasons := [];
    if WiringFails(t, source, allowed, route) {
      reasons := reasons + [TargetNotExercised(t.injection.routeTargets[route])];
    }
    phase := PhaseFor(t, source, allowed, route);
    result := BuildRouteResult(route, phase, t.limits[route]);
  }

  /** The nested loop over results and their checks. */
  method CollectResultReasons(results: seq<RouteResult>) returns (found: seq<Reason>)
    ensures found == ResultReasons(results, |results|)
  {
    found := [];
    for k := 0 to |results|
      invariant found == ResultReasons(results, k)
    {
      var r := results[k];
      if !r.measured {
        found := found + [NotMeasured(r.route)];
      } else {
        for j := 0 to |r.checks|
          invariant found == ResultReasons(results, k) + ViolationsTo(r, j)
        {
          if r.checks[j].value.Some? && !r.checks[j].passed {
            found := found + [Violation(r.route, r.checks[j].metric)];
          }
        }
      }
    }
  }

  // ---------------------------------------------------------------- the verdict without texts

  ghost predicate SomeWiringFails(t: RawThresholds, source: Source, allowed: bool) {
    exists route :: route in t.order && WiringFails(t, source, allowed, route)
  }

  ghost predicate Unmeasured(results: seq<RouteResult>) { exists r :: r in results && !r.measured }

  ghost predicate Violated(results: seq<RouteResult>) { exists r :: r in results && r.measured && !AllPassed(r.checks) }

  ghost predicate Unrecovered(evidence: EvidenceTable, maxRecoverySeconds: Option<real>) {
    exists x :: x in evidence && !RecoveryOk(evidence[x], maxRecoverySeconds)
  }

  /** An enabled injection that was not allowed, not wired, or left a target without evidence. */
  ghost predicate NotFullyExercised(t: RawThresholds, source: Source, allowed: bool, evidence: EvidenceTable) {
    || SomeWiringFails(t, source, allowed)
    || (t.injection.enabled && (!allowed || !(Expected(t) <= evidence.Keys)))
  }

  ghost function Verdict(t: RawThresholds, source: Source, allowed: bool): Status
    requires Complete(t)
  {
    var n := |t.order|;
    var results, evidence := ResultsTo(t, source, allowed, n), EvidenceTo(t, source, allowed, n);
    if Unmeasured(results) || NotFullyExercised(t, source, allowed, evidence) then NotCertified
    else if Violated(results) || Unrecovered(evidence, t.injection.maxRecoverySeconds) then Fail
    else Pass
  }

  lemma {:induction false} WiringReasonsAre(t: RawThresholds, source: Source, allowed: bool, k: nat)
    requires k <= |t.order|
    ensures WiringReasonsTo(t, source, allowed, k) == []
       <==> forall i | 0 <= i < k :: !WiringFails(t, source, allowed, t.order[i])
    ensures forall r | r in WiringReasonsTo(t, source, allowed, k) :: Blocks(r)
  {
    if k > 0 {
      WiringReasonsAre(t, source, allowed, k - 1);
      InEither(WiringReasonsTo(t, source, allowed, k - 1), WiringReasons(t, source, allowed, t.order[k - 1]));
    }
  }

  lemma {:induction false} MissingReasonsAre(targets: seq<InjectionTarget>)
    ensures MissingReasons(targets) == [] <==> targets == []
    ensures forall r | r in MissingReasons(targets) :: Blocks(r)
  {
    if targets != [] { MissingReasonsAre(targets[..|targets| - 1]); }
  }

  lemma InjectionReasonsAre(t: RawThresholds, allowed: bool, evidence: EvidenceTable)
    ensures InjectionReasons(t, allowed, evidence) == [] <==>
            !(t.injection.enabled && (!allowed || !(Expected(t) <= evidence.Keys)))
    ensures forall r | r in InjectionReasons(t, allowed, evidence) :: Blocks(r)
  {
    var missing := Expected(t) - evidence.Keys;
    var listed := Listed(missing, |TARGETS|);
    ListedAre(missing);
    MissingReasonsAre(listed);
    EmptyHasNoElements(listed);
    assert Expected(t) <= evidence.Keys ==> missing == {};
    assert Expected(t) <= missing + evidence.Keys;
    assert missing == {} <==> listed == [] by {
      if missing != {} {
        var x :| x in missing;
        assert x in listed;
      }
    }
  }

  lemma {:induction false} ViolationsAre(r: RouteResult, k: nat)
    requires k <= |r.checks| && AllMeasured(r.checks)
    ensures ViolationsTo(r, k) == [] <==> forall i | 0 <= i < k :: r.checks[i].passed
    ensures forall x | x in ViolationsTo(r, k) :: x.Violation?
  {
    if k > 0 { ViolationsAre(r, k - 1); }
  }

  ghost predicate Consistent(r: RouteResult) {
    r.measured ==> AllMeasured(r.checks)
  }

  lemma OneResultReasons(r: RouteResult)
    requires Consistent(r)
    ensures (exists x :: x in ReasonsOfResult(r) && Blocks(x)) <==> !r.measured
    ensures (exists x :: x in ReasonsOfResult(r) && !Blocks(x)) <==> r.measured && !AllPassed(r.checks)
  {
    if r.measured {
      ViolationsAre(r, |r.checks|);
      EmptyHasNoElements(ViolationsTo(r, |r.checks|));
      assert ReasonsOfResult(r) == ViolationsTo(r, |r.checks|);
      assert AllPassed(r.checks) <==> forall x :: x !in ReasonsOfResult(r);
    } else {
      assert ReasonsOfResult(r) == [NotMeasured(r.route)];
      assert NotMeasured(r.route) in ReasonsOfResult(r);
    }
  }

  lemma {:induction false} BlockingResults(results: seq<RouteResult>, k: nat)
    requires k <= |results| && forall i | 0 <= i < k :: Consistent(results[i])
    ensures (exists x :: x in ResultReasons(results, k) && Blocks(x))
       <==> exists i :: 0 <= i < k && !results[i].measured
  {
    if k > 0 {
      BlockingResults(results, k - 1);
      OneResultReasons(results[k - 1]);
      InEither(ResultReasons(results, k - 1), ReasonsOfResult(results[k - 1]));
    }
  }

  lemma {:induction false} FailingResults(results: seq<RouteResult>, k: nat)
    requires k <= |results| && forall i | 0 <= i < k :: Consistent(results[i])
    ensures (exists x :: x in ResultReasons(results, k) && !Blocks(x)) <==>
            exists i :: 0 <= i < k && results[i].measured && !AllPassed(results[i].checks)
  {
    if k > 0 {
      FailingResults(results, k - 1);
      OneResultReasons(results[k - 1]);
      InEither(ResultReasons(results, k - 1), ReasonsOfResult(results[k - 1]));
    }
  }

  lemma InEither(a: seq<Reason>, b: seq<Reason>)
    ensures forall x :: x in a + b <==> x in a || x in b
  {
  }

  lemma {:induction false} RecoveryReasonsAre(evidence: EvidenceTable, maxRecoverySeconds: Option<real>, k: nat)
    requires k <= |TARGETS|
    ensures forall x | x in RecoveryReasons(evidence, maxRecoverySeconds, k) :: !Blocks(x)
    ensures RecoveryReasons(evidence, maxRecoverySeconds, k) == [] <==>
            forall i | 0 <= i < k :: TARGETS[i] in evidence ==> RecoveryOk(evidence[TARGETS[i]], maxRecoverySeconds)
  {
    if k > 0 { RecoveryReasonsAre(evidence, maxRecoverySeconds, k - 1); }
  }

  lemma EveryTargetIsListed(x: InjectionTarget)
    ensures x in TARGETS
  {
    match x
    case Db => assert TARGETS[0] == x;
    case Provider => assert TARGETS[1] == x;
    case Queue => assert TARGETS[2] == x;
    case Tool => assert TARGETS[3] == x;
  }

  lemma UnrecoveredIff(evidence: EvidenceTable, maxRecoverySeconds: Option<real>)
    ensures RecoveryReasons(evidence, maxRecoverySeconds, |TARGETS|) != []
       <==> Unrecovered(evidence, maxRecoverySeconds)
  {
    RecoveryReasonsAre(evidence, maxRecoverySeconds, |TARGETS|);
    if Unrecovered(evidence, maxRecoverySeconds) {
      var x :| x in evidence && !RecoveryOk(evidence[x], maxRecoverySeconds);
      EveryTargetIsListed(x);
      var i :| 0 <= i < |TARGETS| && TARGETS[i] == x;
    }
  }

  lemma TextsTell(reasons: seq<Reason>)
    ensures (exists s | s in Sorted(Texts(reasons)) :: BlocksByText(s)) <==> exists r :: r in reasons && Blocks(r)
    ensures (exists s | s in Sorted(Texts(reasons)) :: FailsByText(s)) <==> exists r :: r in reasons && !Blocks(r)
  {
    var texts := Texts(reasons);
    forall i | 0 <= i < |reasons|
      ensures BlocksByText(texts[i]) <==> Blocks(reasons[i])
      ensures FailsByText(texts[i]) <==> !Blocks(reasons[i])
    {
      TextTellsKind(reasons[i]);
    }
    forall r | r in reasons
      ensures Text(r) in texts && (BlocksByText(Text(r)) <==> Blocks(r)) && (FailsByText(Text(r)) <==> !Blocks(r))
    {
      var i :| 0 <= i < |reasons| && reasons[i] == r;
      assert texts[i] in texts;
    }
  }

  lemma ResultIsConsistent(route: Route, phase: Option<PhaseResult>, limits: map<Metric, Threshold>)
    requires forall m: Metric :: m in limits
    ensures var r := RouteResultOf(route, phase, limits);
            && r.route == route && Consistent(r) && (r.status.NotCertified? <==> !r.measured)
            && (r.measured && AllPassed(r.checks) ==> GoodRoute(r))
  {
  }

  lemma ResultsConsistent(t: RawThresholds, source: Source, allowed: bool)
    requires Complete(t)
    ensures forall i | 0 <= i < |t.order| ::
              var r := ResultsTo(t, source, allowed, |t.order|)[i];
              && r.route == t.order[i] && Consistent(r) && (r.status.NotCertified? <==> !r.measured)
              && (r.measured && AllPassed(r.checks) ==> GoodRoute(r))
  {
    forall i | 0 <= i < |t.order|
      ensures var r := ResultsTo(t, source, allowed, |t.order|)[i];
              && r.route == t.order[i] && Consistent(r) && (r.status.NotCertified? <==> !r.measured)
              && (r.measured && AllPassed(r.checks) ==> GoodRoute(r))
    {
      ResultsAre(t, source, allowed, |t.order|, i);
      ResultIsConsistent(t.order[i], PhaseFor(t, source, allowed, t.order[i]), t.limits[t.order[i]]);
    }
  }

  lemma FourLists(a: seq<Reason>, b: seq<Reason>, c: seq<Reason>, d: seq<Reason>)
    requires (forall r | r in a :: Blocks(r)) && (forall r | r in b :: Blocks(r)) && (forall r | r in d :: !Blocks(r))
    ensures (exists r :: r in a + b + c + d && Blocks(r)) <==> a != [] || b != [] || exists r :: r in c && Blocks(r)
    ensures (exists r :: r in a + b + c + d && !Blocks(r)) <==> d != [] || exists r :: r in c && !Blocks(r)
  {
    assert forall x :: x in a + b + c + d <==> x in a || x in b || x in c || x in d;
    EmptyHasNoElements(a);
    EmptyHasNoElements(b);
    EmptyHasNoElements(d);
  }

  /** Some reason blocks, or fails, the certification exactly as the run itself does. */
  lemma ReasonsTell(t: RawThresholds, source: Source, allowed: bool)
    requires Complete(t)
    ensures var n := |t.order|;
            var results, evidence := ResultsTo(t, source, allowed, n), EvidenceTo(t, source, allowed, n);
            && ((exists r :: r in Reasons(t, source, allowed) && Blocks(r)) <==>
                  Unmeasured(results) || NotFullyExercised(t, source, allowed, evidence))
            && ((exists r :: r in Reasons(t, source, allowed) && !Blocks(r)) <==>
                  Violated(results) || Unrecovered(evidence, t.injection.maxRecoverySeconds))
  {
    var n := |t.order|;
    var results, evidence := ResultsTo(t, source, allowed, n), EvidenceTo(t, source, allowed, n);
    WiringIff(t, source, allowed);
    InjectionReasonsAre(t, allowed, evidence);
    ResultsIff(t, source, allowed);
    RecoveryReasonsAre(evidence, t.injection.maxRecoverySeconds, |TARGETS|);
    UnrecoveredIff(evidence, t.injection.maxRecoverySeconds);
    FourLists(WiringReasonsTo(t, source, allowed, n), InjectionReasons(t, allowed, evidence), ResultReasons(results, n),
              RecoveryReasons(evidence, t.injection.maxRecoverySeconds, |TARGETS|));
  }

  lemma WiringIff(t: RawThresholds, source: Source, allowed: bool)
    ensures WiringReasonsTo(t, source, allowed, |t.order|) != [] <==> SomeWiringFails(t, source, allowed)
    ensures forall r | r in WiringReasonsTo(t, source, allowed, |t.order|) :: Blocks(r)
  {
    WiringReasonsAre(t, source, allowed, |t.order|);
  }

  lemma ResultsIff(t: RawThresholds, source: Source, allowed: bool)
    requires Complete(t)
    ensures var results := ResultsTo(t, source, allowed, |t.order|);
            && ((exists x :: x in ResultReasons(results, |t.order|) && Blocks(x)) <==> Unmeasured(results))
            && ((exists x :: x in ResultReasons(results, |t.order|) && !Blocks(x)) <==> Violated(results))
  {
    var results := ResultsTo(t, source, allowed, |t.order|);
    ResultsConsistent(t, source, allowed);
    BlockingResults(results, |results|);
    FailingResults(results, |results|);
    assert forall i | 0 <= i < |results| :: results[i] in results;
  }

  lemma StatusTells(t: RawThresholds, source: Source, allowed: bool)
    requires Complete(t)
    ensures var results := ResultsTo(t, source, allowed, |t.order|);
            (exists r | r in results :: r.status.NotCertified?) <==> Unmeasured(results)
  {
    ResultsConsistent(t, source, allowed);
  }

  /** Reading the verdict off the sorted texts gives the same as judging the run itself. */
  lemma VerdictIsStructural(t: RawThresholds, source: Source, allowed: bool)
    requires Complete(t)
    ensures VerdictByText(ResultsTo(t, source, allowed, |t.order|), Sorted(Texts(Reasons(t, source, allowed))))
         == Verdict(t, source, allowed)
  {
    TextsTell(Reasons(t, source, allowed));
    ReasonsTell(t, source, allowed);
    StatusTells(t, source, allowed);
  }

  /** The status of every report is the verdict of its run. */
  lemma StatusIsVerdict(t: RawThresholds, source: Source, confirmed: bool)
    requires Complete(t)
    ensures ReportOf(t, source, confirmed).status == Verdict(t, source, Allowed(t, confirmed))
  {
    VerdictIsStructural(t, source, Allowed(t, confirmed));
  }

  function RecoveryAt(t: RawThresholds, source: Source, allowed: bool, i: nat): Option<RecoveryEvidence>
    requires i < |t.order|
  {
    var phase := PhaseFor(t, source, allowed, t.order[i]);
    if phase.Some? then phase.value.recovery else None
  }

  predicate Observes(t: RawThresholds, source: Source, allowed: bool, i: nat, x: InjectionTarget)
    requires i < |t.order|
  {
    RecoveryAt(t, source, allowed, i).Some? && RecoveryAt(t, source, allowed, i).value.target == x
  }

  /** The i-th route is the first whose phase recorded evidence for the target. */
  ghost predicate FirstFor(t: RawThresholds, source: Source, allowed: bool, i: nat, x: InjectionTarget)
    requires i < |t.order|
  {
    Observes(t, source, allowed, i, x) && forall j | 0 <= j < i :: !Observes(t, source, allowed, j, x)
  }

  lemma {:induction false} EvidenceIsFirst(t: RawThresholds, source: Source, allowed: bool, k: nat, x: InjectionTarget)
    requires k <= |t.order|
    ensures x !in EvidenceTo(t, source, allowed, k) ==> forall i | 0 <= i < k :: !Observes(t, source, allowed, i, x)
    ensures x in EvidenceTo(t, source, allowed, k) ==>
              exists i :: 0 <= i < k && FirstFor(t, source, allowed, i, x)
                          && EvidenceTo(t, source, allowed, k)[x] == RecoveryAt(t, source, allowed, i).value
  {
    if k > 0 {
      EvidenceIsFirst(t, source, allowed, k - 1, x);
      if x !in EvidenceTo(t, source, allowed, k - 1) && x in EvidenceTo(t, source, allowed, k) {
        assert FirstFor(t, source, allowed, k - 1, x);
      }
    }
  }

  lemma OnlyOneFirst(t: RawThresholds, source: Source, allowed: bool, i: nat, j: nat, x: InjectionTarget)
    requires i < |t.order| && j < |t.order| && FirstFor(t, source, allowed, i, x) && FirstFor(t, source, allowed, j, x)
    ensures i == j
  {
  }

  /** Where a target was exercised, its first evidence shows recovery in time. */
  ghost predicate FirstEvidenceOk(t: RawThresholds, source: Source, allowed: bool) {
    forall i, x | 0 <= i < |t.order| && FirstFor(t, source, allowed, i, x) ::
      RecoveryOk(RecoveryAt(t, source, allowed, i).value, t.injection.maxRecoverySeconds)
  }

  ghost predicate Exercised(t: RawThresholds, source: Source, allowed: bool, x: InjectionTarget) {
    exists i :: 0 <= i < |t.order| && Observes(t, source, allowed, i, x)
  }

  lemma EvidenceTells(t: RawThresholds, source: Source, allowed: bool, x: InjectionTarget)
    ensures x in EvidenceTo(t, source, allowed, |t.order|) <==> Exercised(t, source, allowed, x)
  {
    EvidenceIsFirst(t, source, allowed, |t.order|, x);
  }

  lemma RecoveryTells(t: RawThresholds, source: Source, allowed: bool)
    ensures Unrecovered(EvidenceTo(t, source, allowed, |t.order|), t.injection.maxRecoverySeconds)
       <==> !FirstEvidenceOk(t, source, allowed)
  {
    var n := |t.order|;
    var evidence := EvidenceTo(t, source, allowed, n);
    if Unrecovered(evidence, t.injection.maxRecoverySeconds) {
      var x :| x in evidence && !RecoveryOk(evidence[x], t.injection.maxRecoverySeconds);
      EvidenceIsFirst(t, source, allowed, n, x);
    }
    if !FirstEvidenceOk(t, source, allowed) {
      var i, x :| 0 <= i < n && FirstFor(t, source, allowed, i, x)
                  && !RecoveryOk(RecoveryAt(t, source, allowed, i).value, t.injection.maxRecoverySeconds);
      EvidenceIsFirst(t, source, allowed, n, x);
      var j :| 0 <= j < n && FirstFor(t, source, allowed, j, x)
                  && evidence[x] == RecoveryAt(t, source, allowed, j).value;
      OnlyOneFirst(t, source, allowed, i, j, x);
    }
  }

  /** A measured route with every check met. */
  predicate Satisfied(r: RouteResult) { r.measured && AllPassed(r.checks) }

  /**
   The report passes exactly when every route is measured with all checks met, no fault failed to be
   wired, every exercised target's first evidence recovered in time, and, where injection is enabled,
   the guard allowed it and every expected target was exercised.
   */
  lemma PassesIff(t: RawThresholds, source: Source, confirmed: bool)
    requires ValidThresholds(t)
    ensures var allowed := Allowed(t, confirmed);
            ReportOf(t, source, confirmed).status.Pass? <==>
              && (forall route: Route :: Satisfied(ResultFor(t, source, allowed, route)))
              && !SomeWiringFails(t, source, allowed)
              && FirstEvidenceOk(t, source, allowed)
              && (t.injection.enabled ==> confirmed && forall x: InjectionTarget :: Exercised(t, source, allowed, x))
  {
    var allowed := Allowed(t, confirmed);
    StatusIsVerdict(t, source, confirmed);
    SatisfiedIff(t, source, allowed);
    RecoveryTells(t, source, allowed);
    var evidence := EvidenceTo(t, source, allowed, |t.order|);
    forall x: InjectionTarget
      ensures x in evidence <==> Exercised(t, source, allowed, x)
    {
      EvidenceTells(t, source, allowed, x);
    }
    if t.injection.enabled {
      assert forall x: InjectionTarget :: x in Expected(t);
      assert Expected(t) <= evidence.Keys <==> forall x: InjectionTarget :: Exercised(t, source, allowed, x);
    }
  }

  lemma SatisfiedIff(t: RawThresholds, source: Source, allowed: bool)
    requires ValidThresholds(t)
    ensures var results := ResultsTo(t, source, allowed, |t.order|);
            !Unmeasured(results) && !Violated(results)
            <==> forall route: Route :: Satisfied(ResultFor(t, source, allowed, route))
  {
    var n := |t.order|;
    var results := ResultsTo(t, source, allowed, n);
    forall i | 0 <= i < n
      ensures results[i] == ResultFor(t, source, allowed, t.order[i])
    {
      ResultsAre(t, source, allowed, n, i);
    }
    if !Unmeasured(results) && !Violated(results) {
      forall route: Route
        ensures Satisfied(ResultFor(t, source, allowed, route))
      {
        assert route in t.order;
        var i :| 0 <= i < n && t.order[i] == route;
        assert results[i] in results;
      }
    }
    if forall route: Route :: Satisfied(ResultFor(t, source, allowed, route)) {
      forall r | r in results
        ensures Satisfied(r)
      {
        var i :| 0 <= i < n && results[i] == r;
        assert Satisfied(ResultFor(t, source, allowed, t.order[i]));
      }
    }
  }

  // ---------------------------------------------------------------- release gate

  datatype ReleaseFailure =
    | WrongSuite | CapacityNotPassed | ReleaseMissing | WrongCommit | IdentityUnproved | WrongImage | WrongRevision
    | RoutesMissing | RouteFailed | RecoveryEvidenceMissing

  const SUITE := "cygnus-production-capacity-gate"

  /** What a report says of the release it measured. */
  datatype ReleaseRefs = ReleaseRefs(commit: Option<string>, identityVerified: bool, imageTag: Option<string>,
                                     revision: Option<string>)

  /** A report as it is handed in with a release. */
  datatype Submission = Submission(suite: Option<string>, environment: Option<string>, release: Option<ReleaseRefs>,
                                   report: Report)

  /** What the manifest says of the release; `image` is the backend image with its digest. */
  datatype Manifest = Manifest(sha: Option<string>, image: string, head: Option<string>)

  /** The report measured this very release. */
  predicate Identifies(release: ReleaseRefs, manifest: Manifest) {
    && release.commit == manifest.sha && release.identityVerified
    && release.imageTag == Some(manifest.image) && release.revision == manifest.head
  }

  /** The clauses about the run itself, and those about where it came from. */
  ghost predicate Certifies(report: Report) {
    report.status.Pass? && RoutesClause(report.results) && InjectionClause(report)
  }

  ghost predicate Accepted(s: Submission, manifest: Manifest) {
    && s.suite == Some(SUITE) && s.environment == Some("staging")
    && s.release.Some? && Identifies(s.release.value, manifest)
    && Certifies(s.report)
  }

  predicate GoodRoute(r: RouteResult) { r.measured && r.status.Pass? && r.checks != [] && AllPassed(r.checks) }

  ghost predicate HasRoute(results: seq<RouteResult>, route: Route) {
    exists r :: r in results && r.route == route
  }

  ghost predicate RoutesClause(results: seq<RouteResult>) {
    && (forall route: Route :: HasRoute(results, route))
    && (forall r | r in results :: GoodRoute(r))
  }

  ghost predicate InjectionClause(report: Report) {
    var i := report.injection;
    && i.enabled && i.guardAllowed && i.recoveredAll
    && (forall x: InjectionTarget :: x in i.expected) && (forall x: InjectionTarget :: x in i.exercised)
  }

  /** A report without a release identity is not looked at any further. */
  method ValidateCapacity(s: Submission, manifest: Manifest) returns (failures: seq<ReleaseFailure>)
    ensures failures == [] <==> Accepted(s, manifest)
    ensures s.release.None? ==> ReleaseMissing in failures && RoutesMissing !in failures
  {
    failures := [];
    if s.suite != Some(SUITE) {
      failures := failures + [WrongSuite];
    }
    if !s.report.status.Pass? || s.environment != Some("staging") {
      failures := failures + [CapacityNotPassed];
    }
    if s.release.None? {
      return failures + [ReleaseMissing];
    }
    var release := s.release.value;
    if release.commit != manifest.sha {
      failures := failures + [WrongCommit];
    }
    if !release.identityVerified {
      failures := failures + [IdentityUnproved];
    }
    if release.imageTag != Some(manifest.image) {
      failures := failures + [WrongImage];
    }
    if release.revision != manifest.head {
      failures := failures + [WrongRevision];
    }
    var more := ValidateRun(s.report);
    return failures + more;
  }

  /** The clauses that read the routes and the fault injection. */
  method ValidateRun(report: Report) returns (failures: seq<ReleaseFailure>)
    ensures failures == [] <==> RoutesClause(report.results) && InjectionClause(report)
  {
    failures := [];
    var names := set r | r in report.results :: r.route;
    if names != {PublishRoute, TicketImportRoute, IngestionRoute, WorkerRoute, QueryRoute} {
      AllRoutes(names);
      assert !RoutesClause(report.results) by {
        if RoutesClause(report.results) {
          forall route: Route
            ensures route in names
          {
            assert HasRoute(report.results, route);
            var r :| r in report.results && r.route == route;
          }
        }
      }
      failures := failures + [RoutesMissing];
    } else {
      AllRoutes(names);
      forall route: Route
        ensures HasRoute(report.results, route)
      {
        assert route in names;
      }
      if exists r | r in report.results :: !GoodRoute(r) {
        failures := failures + [RouteFailed];
      }
    }
    var i := report.injection;
    var expected, exercised := set x | x in i.expected, set x | x in i.exercised;
    CoversIff(i.expected, expected);
    CoversIff(i.exercised, exercised);
    if !i.enabled || !i.guardAllowed || !i.recoveredAll
       || expected != {Db, Queue, Tool, Provider} || exercised != {Db, Queue, Tool, Provider} {
      failures := failures + [RecoveryEvidenceMissing];
    }
  }

  lemma AllRoutes(names: set<Route>)
    ensures names == {PublishRoute, TicketImportRoute, IngestionRoute, WorkerRoute, QueryRoute}
       <==> forall r: Route :: r in names
  {
    var all := {PublishRoute, TicketImportRoute, IngestionRoute, WorkerRoute, QueryRoute};
    forall r: Route
      ensures r in all
    {
      match r
      case PublishRoute =>
      case TicketImportRoute =>
      case IngestionRoute =>
      case WorkerRoute =>
      case QueryRoute =>
    }
  }

  lemma AllTargets(s: set<InjectionTarget>)
    ensures s == {Db, Queue, Tool, Provider} <==> forall x: InjectionTarget :: x in s
  {
    var all := {Db, Queue, Tool, Provider};
    forall x: InjectionTarget
      ensures x in all
    {
      match x
      case Db =>
      case Queue =>
      case Tool =>
      case Provider =>
    }
  }

  lemma CoversIff(list: seq<InjectionTarget>, s: set<InjectionTarget>)
    requires forall x :: x in s <==> x in list
    ensures s == {Db, Queue, Tool, Provider} <==> forall x: InjectionTarget :: x in list
  {
    AllTargets(s);
    if forall x: InjectionTarget :: x in list {
      forall x: InjectionTarget
        ensures x in s
      {
        assert x in list;
      }
    }
    if s == {Db, Queue, Tool, Provider} {
      forall x: InjectionTarget
        ensures x in list
      {
        assert x in s;
      }
    }
  }

  /**
   The release gate accepts a report of the capacity gate that carries its name and measured this very
   release in staging exactly when it passed with injection enabled.
   */
  lemma ReleaseAcceptsIff(t: RawThresholds, source: Source, confirmed: bool, release: ReleaseRefs, manifest: Manifest)
    requires ValidThresholds(t)
    ensures var report := ReportOf(t, source, confirmed);
            Accepted(Submission(Some(SUITE), Some("staging"), Some(release), report), manifest)
            <==> Identifies(release, manifest) && report.status.Pass? && t.injection.enabled
  {
    var report := ReportOf(t, source, confirmed);
    var allowed, n := Allowed(t, confirmed), |t.order|;
    var evidence := EvidenceTo(t, source, allowed, n);
    if report.status.Pass? && t.injection.enabled {
      StatusIsVerdict(t, source, confirmed);
      PassingRoutes(t, source, allowed);
      ListedAre(Expected(t));
      ListedAre(evidence.Keys);
      assert forall x: InjectionTarget :: x in Expected(t);
      assert forall x: InjectionTarget :: x in evidence.Keys;
      assert evidence.Keys == Expected(t);
      assert Db in evidence.Keys;
    }
  }

  lemma PassingRoutes(t: RawThresholds, source: Source, allowed: bool)
    requires ValidThresholds(t) && Verdict(t, source, allowed).Pass?
    ensures RoutesClause(ResultsTo(t, source, allowed, |t.order|))
  {
    var n := |t.order|;
    var results := ResultsTo(t, source, allowed, n);
    ResultsConsistent(t, source, allowed);
    forall r | r in results
      ensures GoodRoute(r)
    {
      var i :| 0 <= i < n && results[i] == r;
      assert r.measured && AllPassed(r.checks);
    }
    forall route: Route
      ensures HasRoute(results, route)
    {
      assert route in t.order;
      var i :| 0 <= i < n && t.order[i] == route;
      assert results[i] in results && results[i].route == route;
    }
  }

  /**
   With injection switched off, a run with every route measured and passing and no failed recovery on
   record is a PASS, though the gate's description calls a run that exercised no fault not certified.
   */
  lemma PassWithoutInjection(t: RawThresholds, source: Source, confirmed: bool)
    requires ValidThresholds(t) && !t.injection.enabled
    ensures var results, evidence := ResultsTo(t, source, false, |t.order|), EvidenceTo(t, source, false, |t.order|);
            ReportOf(t, source, confirmed).status.Pass? <==>
              !Unmeasured(results) && !Violated(results) && !Unrecovered(evidence, t.injection.maxRecoverySeconds)
  {
    StatusIsVerdict(t, source, confirmed);
  }
}
