/**
 The lease protocol of the feedback routes (cygnus/governance/feedback_execution.py) as a
 state machine over committed transactions. Every step brings its own clock reading, and the
 readings need not agree or advance.
 */
module FeedbackExecution {
  import opened Wrappers
  import opened Audience
  import opened Feedback
  import G = Governance

  type RouteId = G.RouteId
  type Time = int

  const MAX_ATTEMPTS := 3
  const LEASE_SECONDS := 60
  const RETRY_BASE_SECONDS := 30

  /** All tables the protocol touches, and the lease tokens handed out so far. */
  datatype Queue = Queue(desk: Desk, gov: G.State, issued: set<string>)

  const EMPTY := Queue(Desk(map[], map[], []), G.EMPTY, {})

  datatype Claim = Claim(route: RouteId, token: string, attempts: nat, claimedFrom: RouteState)

  // ---------------------------------------------------------------- one route

  predicate Terminal(r: Route) { r.state.Completed? || r.state.Blocked? || r.state.Failed? }

  predicate Due(r: Route, now: Time) {
    || (r.state.Queued? && (r.nextAttempt.None? || r.nextAttempt.value <= now))
    || (r.state.Running? && r.expires.Some? && r.expires.value <= now)
  }

  function Claimed(r: Route, token: string, now: Time): Route {
    Route(Running, r.attempts + 1, None, Some(token), Some(now + LEASE_SECONDS), None, None, None, None, r.createdAt)
  }

  function MarkCompleted(r: Route, ref: G.SignalRef, now: Time): Route {
    Route(Completed, r.attempts, None, None, None, Some(ref), None, None, Some(now), r.createdAt)
  }

  function MarkBlocked(r: Route, reason: TerminalReason, now: Time): Route {
    Route(Blocked, r.attempts, None, None, None, None, Some(reason), None, Some(now), r.createdAt)
  }

  function MarkFailed(r: Route, error: RouteError, now: Time): Route {
    Route(Failed, r.attempts, None, None, None, None, Some(RetryExhausted), Some(error), Some(now), r.createdAt)
  }

  function Pow2(n: nat): nat { if n == 0 then 1 else 2 * Pow2(n - 1) }

  /** Seconds a route waits after its given attempt failed. */
  function Backoff(attempts: nat): nat { RETRY_BASE_SECONDS * Pow2(if attempts == 0 then 0 else attempts - 1) }

  function Requeued(r: Route, error: RouteError, now: Time): Route {
    Route(Queued, r.attempts, Some(now + Backoff(r.attempts)), None, None, None, None, Some(error), None, r.createdAt)
  }

  predicate HoldsLease(r: Route, claim: Claim, now: Time) {
    r.state.Running? && r.token == Some(claim.token) && r.expires.Some? && now < r.expires.value
  }

  // ---------------------------------------------------------------- transactions

  function SetRoute(q: Queue, id: RouteId, r: Route): Queue {
    q.(desk := q.desk.(routes := q.desk.routes[id := r]))
  }

  /** Stores a terminal route together with its one audit row. */
  function Finish(q: Queue, id: RouteId, r: Route, actor: G.ActorId, outcome: AuditOutcome): Queue {
    q.(desk := q.desk.(routes := q.desk.routes[id := r], audit := q.desk.audit + [TerminalRow(id, actor, outcome)]))
  }

  function ExpiryError(r: Route): RouteError {
    if r.state.Running? then LeaseExpired else BudgetExhausted
  }

  /**
   What a sweep does with one selected row. Foreign keys keep the feedback row of every route,
   so the first test never fails in a reachable state.
   */
  function SweepOne(q: Queue, id: RouteId, token: string, now: Time): Queue {
    if id !in q.desk.routes || id.command !in q.desk.feedback then q
    else
      var r := q.desk.routes[id];
      if !r.state.Queued? && !r.state.Running? then q
      else if r.attempts >= MAX_ATTEMPTS then
        Finish(q, id, MarkFailed(r, ExpiryError(r), now), q.desk.feedback[id.command].actor, AuditFailed)
      else SetRoute(q, id, Claimed(r, token, now)).(issued := q.issued + {token})
  }

  /** The first k selected rows in turn, each with its own token. */
  function SweepTo(q: Queue, batch: seq<(RouteId, string)>, k: nat, now: Time): Queue
    requires k <= |batch|
  {
    if k == 0 then q else SweepOne(SweepTo(q, batch, k - 1, now), batch[k - 1].0, batch[k - 1].1, now)
  }

  /** One sweep. */
  function SweepAll(q: Queue, batch: seq<(RouteId, string)>, now: Time): Queue {
    SweepTo(q, batch, |batch|, now)
  }

  /** The leases a sweep hands out for its first k rows, in the order of selection. */
  function ClaimsTo(routes: map<RouteId, Route>, batch: seq<(RouteId, string)>, k: nat): seq<Claim>
    requires k <= |batch| && forall i | 0 <= i < |batch| :: batch[i].0 in routes
  {
    if k == 0 then []
    else
      var id := batch[k - 1].0;
      var before := ClaimsTo(routes, batch, k - 1);
      if routes[id].attempts >= MAX_ATTEMPTS then before
      else before + [Claim(id, batch[k - 1].1, routes[id].attempts + 1, routes[id].state)]
  }

  datatype Terminalization = Terminalization(route: RouteId, previous: RouteState, attempts: nat)

  /** The first k rows' routes that a sweep fails because their attempts are used up, in the same order. */
  function TerminalizedTo(routes: map<RouteId, Route>, batch: seq<(RouteId, string)>, k: nat): seq<Terminalization>
    requires k <= |batch| && forall i | 0 <= i < |batch| :: batch[i].0 in routes
  {
    if k == 0 then []
    else
      var id := batch[k - 1].0;
      var before := TerminalizedTo(routes, batch, k - 1);
      if routes[id].attempts < MAX_ATTEMPTS then before
      else before + [Terminalization(id, routes[id].state, routes[id].attempts)]
  }

  lemma ReportNext(routes: map<RouteId, Route>, batch: seq<(RouteId, string)>, k: nat, from: RouteState, attempts: nat)
    requires k < |batch| && forall i | 0 <= i < |batch| :: batch[i].0 in routes
    requires routes[batch[k].0].state == from && routes[batch[k].0].attempts == attempts
    ensures ClaimsTo(routes, batch, k + 1) == ClaimsTo(routes, batch, k)
              + (if attempts >= MAX_ATTEMPTS then [] else [Claim(batch[k].0, batch[k].1, attempts + 1, from)])
    ensures TerminalizedTo(routes, batch, k + 1) == TerminalizedTo(routes, batch, k)
              + (if attempts >= MAX_ATTEMPTS then [Terminalization(batch[k].0, from, attempts)] else [])
  {
  }

  /** Rows are selected once, due, and get tokens never issued before. */
  ghost predicate IsBatch(q: Queue, batch: seq<(RouteId, string)>, now: Time) {
    && (forall i | 0 <= i < |batch| :: batch[i].0 in q.desk.routes && Due(q.desk.routes[batch[i].0], now))
    && (forall i | 0 <= i < |batch| :: batch[i].1 !in q.issued)
    && (forall i, j | 0 <= i < j < |batch| :: batch[i].0 != batch[j].0 && batch[i].1 != batch[j].1)
  }

  /** Checks the persisted target of a route again, at execution time. */
  function ResolveTarget(wiki: Wiki, f: FeedbackSignal): Result<(string, KnowledgeObject), TerminalReason> {
    if f.draftId.Some? && f.draftId.value !in wiki.drafts then Err(TargetRequired)
    else if f.draftId.Some? && wiki.drafts[f.draftId.value].None? then Err(TargetNotMaterialized)
    else if f.draftId.Some? && f.pageId.Some? && f.pageId != wiki.drafts[f.draftId.value]
    then Err(TargetIdentityChanged)
    else
      var page := if f.draftId.Some? then wiki.drafts[f.draftId.value] else f.pageId;
      if page.None? || page.value !in wiki.pages then Err(TargetRequired)
      else if wiki.pages[page.value].None? then Err(TargetIneligible)
      else if f.objectId != Some(wiki.pages[page.value].value.objectId) then Err(TargetIdentityChanged)
      else Ok((page.value, wiki.pages[page.value].value))
  }

  function Single(value: Option<string>): seq<string> { if value.Some? then [value.value] else [] }

  function FilterOf(c: AudienceContext): AudienceFilter {
    AudienceFilter(c.visibility, Single(c.brand), Single(c.productLine), Single(c.plan), Single(c.region),
                   Single(c.language), Single(c.productVersion))
  }

  /** The review work a mapped feedback signal turns into. */
  function RouteSignal(id: RouteId, f: FeedbackSignal, page: string, target: KnowledgeObject): G.SignalInput {
    var stale := f.signalType.StaleAnswer?;
    var t := if stale then G.StaleAnswerPressure else G.LowRatingPressure;
    G.SignalInput(
      G.FeedbackRouteRef(id),
      G.SignalIdentity(
        t, G.KnowledgeObjectRef(target.objectId), target.title, target.objectType, Some(page), None, None,
        Some(FilterOf(f.audience)), [G.FeedbackSurface, G.ReviewQueue],
        [G.TypeLabel(t), G.FeedbackTrigger(id.command), G.RouteTrigger(id)],
        G.ConsumptionFeedback, if stale then G.Stale else G.Unknown,
        G.RouteSummary(t), G.RouteReason(t), G.RouteExcerpt(id), []),
      Some(f.createdAt))
  }

  datatype Answer = LeaseLost | AlreadyTerminal(route: Route) | Stored(route: Route) | SignalRefused(error: G.Error)

  function Block(q: Queue, id: RouteId, r: Route, reason: TerminalReason, actor: G.ActorId, now: Time)
    : (Queue, Answer)
  {
    (Finish(q, id, MarkBlocked(r, reason, now), actor, AuditBlocked(reason)), Stored(MarkBlocked(r, reason, now)))
  }

  /** Creates the route's signal and completes the route, or changes nothing. */
  function Complete(q: Queue, id: RouteId, r: Route, input: G.SignalInput, actor: G.ActorId, now: Time)
    : (Queue, Answer)
  {
    var (gov, created) := G.CreateSignal(q.gov, input, actor, now);
    if created.Err? then (q, SignalRefused(created.error))
    else
      (Finish(q.(gov := gov), id, MarkCompleted(r, input.ref, now), actor, AuditCompleted(input.ref)),
       Stored(MarkCompleted(r, input.ref, now)))
  }

  /** Decides an owned route from its policy and its target. */
  function Settle(q: Queue, id: RouteId, r: Route, f: FeedbackSignal, wiki: Wiki, now: Time): (Queue, Answer) {
    if RouteKindOf(f.signalType) != Some(id.kind) then Block(q, id, r, RoutePolicyChanged, f.actor, now)
    else
      match ResolveTarget(wiki, f)
      case Err(reason) => Block(q, id, r, reason, f.actor, now)
      case Ok(target) => Complete(q, id, r, RouteSignal(id, f, target.0, target.1), f.actor, now)
  }

  /** Completes or blocks one route that the claim still owns. */
  function Execute(q: Queue, claim: Claim, wiki: Wiki, now: Time): (Queue, Answer) {
    var id := claim.route;
    if id !in q.desk.routes || id.command !in q.desk.feedback then (q, LeaseLost)
    else
      var r := q.desk.routes[id];
      if Terminal(r) then (q, AlreadyTerminal(r))
      else if !HoldsLease(r, claim, now) then (q, LeaseLost)
      else Settle(q, id, r, q.desk.feedback[id.command], wiki, now)
  }

  /** Requeues a failed execution that the claim still owns, or fails its last attempt. */
  function RecordFailure(q: Queue, claim: Claim, error: RouteError, now: Time): (Queue, Answer) {
    var id := claim.route;
    if id !in q.desk.routes || id.command !in q.desk.feedback then (q, LeaseLost)
    else
      var r := q.desk.routes[id];
      if Terminal(r) then (q, AlreadyTerminal(r))
      else if !HoldsLease(r, claim, now) then (q, LeaseLost)
      else if r.attempts >= MAX_ATTEMPTS then
        var failed := MarkFailed(r, error, now);
        (Finish(q, id, failed, q.desk.feedback[id.command].actor, AuditFailed), Stored(failed))
      else (SetRoute(q, id, Requeued(r, error, now)), Stored(Requeued(r, error, now)))
  }

  // ---------------------------------------------------------------- runs

  /** One committed transaction of any actor. */
  datatype Step =
    | SweepStep(batch: seq<(RouteId, string)>, now: Time)
    | ExecuteStep(claim: Claim, wiki: Wiki, now: Time)
    | FailureStep(claim: Claim, error: RouteError, now: Time)
    | RecordStep(input: FeedbackInput, actor: G.ActorId, wiki: Wiki, now: Time)
    | GovernStep(step: G.Step)

  /** Sweeps select due rows and draw new tokens, and only executions create route signals. */
  ghost predicate Legal(q: Queue, step: Step) {
    match step
    case SweepStep(batch, now) => IsBatch(q, batch, now)
    case RecordStep(input, actor, wiki, now) => input.pageId.None?
    case GovernStep(s) => s.CreateStep? ==> !s.input.ref.FeedbackRouteRef?
    case _ => true
  }

  /** The state after one step; a step that cannot happen changes nothing. */
  ghost function Apply(q: Queue, step: Step): Queue {
    if !Legal(q, step) then q
    else
      match step
      case SweepStep(batch, now) => SweepAll(q, batch, now)
      case ExecuteStep(claim, wiki, now) => Execute(q, claim, wiki, now).0
      case FailureStep(claim, error, now) => RecordFailure(q, claim, error, now).0
      case RecordStep(input, actor, wiki, now) => q.(desk := Record(q.desk, input, actor, wiki, now).0)
      case GovernStep(s) => q.(gov := G.Apply(q.gov, s))
  }

  /** The state after a run, last step last. */
  ghost function Run(q: Queue, steps: seq<Step>): Queue
    decreases |steps|
  {
    if steps == [] then q else Apply(Run(q, steps[..|steps| - 1]), steps[|steps| - 1])
  }

  // ---------------------------------------------------------------- invariant

  /** The shape of a stored route, state by state. */
  predicate Shape(r: Route) {
    match r.state
    case Queued =>
      && r.token.None? && r.expires.None? && r.attempts <= 2
      && r.outcome.None? && r.reason.None? && r.completedAt.None?
    case Running =>
      && r.token.Some? && r.expires.Some? && r.nextAttempt.None? && 1 <= r.attempts <= 3
      && r.outcome.None? && r.reason.None? && r.lastError.None? && r.completedAt.None?
    case Completed =>
      && r.token.None? && r.expires.None? && r.nextAttempt.None? && 1 <= r.attempts <= 3
      && r.outcome.Some? && r.reason.None? && r.lastError.None? && r.completedAt.Some?
    case Blocked =>
      && r.token.None? && r.expires.None? && r.nextAttempt.None? && 1 <= r.attempts <= 3
      && r.outcome.None? && r.reason.Some? && r.lastError.None? && r.completedAt.Some?
    case Failed =>
      && r.token.None? && r.expires.None? && r.nextAttempt.None? && r.attempts == 3
      && r.outcome.None? && r.reason == Some(RetryExhausted) && r.lastError.Some? && r.completedAt.Some?
  }

  ghost predicate Shapes(q: Queue) {
    forall id | id in q.desk.routes :: Shape(q.desk.routes[id])
  }

  /** Leases carry issued tokens, and no two leases share one. */
  ghost predicate Leases(q: Queue) {
    && (forall id | id in q.desk.routes && q.desk.routes[id].token.Some? :: q.desk.routes[id].token.value in q.issued)
    && (forall a, b | a in q.desk.routes && b in q.desk.routes && a != b && q.desk.routes[a].token.Some? ::
          q.desk.routes[a].token != q.desk.routes[b].token)
  }

  predicate IsCompleted(q: Queue, id: RouteId) {
    id in q.desk.routes && q.desk.routes[id].state.Completed?
  }

  /** A route signal exists exactly for a completed route, and is its outcome. */
  ghost predicate Outcomes(q: Queue) {
    forall id: RouteId ::
      && (G.FeedbackRouteRef(id) in q.gov.signals <==> IsCompleted(q, id))
      && (IsCompleted(q, id) ==> q.desk.routes[id].outcome == Some(G.FeedbackRouteRef(id)))
  }

  function TerminalRows(audit: seq<AuditRow>, id: RouteId): nat {
    if audit == [] then 0
    else
      var last := audit[|audit| - 1];
      TerminalRows(audit[..|audit| - 1], id) + (if last.TerminalRow? && last.route == id then 1 else 0)
  }

  predicate IsTerminal(q: Queue, id: RouteId) {
    id in q.desk.routes && Terminal(q.desk.routes[id])
  }

  /** One terminal audit row for a terminal route, none for any other. */
  ghost predicate Audited(q: Queue) {
    forall id: RouteId :: TerminalRows(q.desk.audit, id) == if IsTerminal(q, id) then 1 else 0
  }

  ghost predicate Inv(q: Queue) {
    DeskInv(q.desk) && G.Inv(q.gov) && Shapes(q) && Leases(q) && Outcomes(q) && Audited(q)
  }

  lemma EmptyInv()
    ensures Inv(EMPTY)
  {
    G.EmptyInv();
  }

  lemma AppendAudit(audit: seq<AuditRow>, row: AuditRow, id: RouteId)
    ensures TerminalRows(audit + [row], id)
         == TerminalRows(audit, id) + (if row.TerminalRow? && row.route == id then 1 else 0)
  {
    assert (audit + [row])[..|audit|] == audit;
  }

  /** A route of one policy-given feedback row changes its columns; nothing else does. */
  lemma SetRouteKeepsDesk(d: Desk, id: RouteId, r: Route, audit: seq<AuditRow>)
    requires DeskInv(d) && id in d.routes
    ensures DeskInv(d.(routes := d.routes[id := r], audit := audit))
  {
  }

  lemma SetKeepsLeases(q: Queue, q': Queue, id: RouteId, r: Route)
    requires Shapes(q) && Leases(q) && id in q.desk.routes && Shape(r)
    requires q'.desk.routes == q.desk.routes[id := r] && q.issued <= q'.issued
    requires r.token.Some? ==> r.token.value in q'.issued && r.token.value !in q.issued
    ensures Shapes(q') && Leases(q')
  {
  }

  /** An open route that completes brings its signal with it; any other change brings none. */
  lemma SetKeepsOutcomes(q: Queue, q': Queue, id: RouteId, r: Route)
    requires Outcomes(q) && id in q.desk.routes && !Terminal(q.desk.routes[id])
    requires q'.desk.routes == q.desk.routes[id := r]
    requires q'.gov.signals.Keys == q.gov.signals.Keys + (if r.state.Completed? then {G.FeedbackRouteRef(id)} else {})
    requires r.state.Completed? ==> r.outcome == Some(G.FeedbackRouteRef(id))
    ensures Outcomes(q')
  {
    forall x: RouteId
      ensures G.FeedbackRouteRef(x) in q'.gov.signals <==> IsCompleted(q', x)
      ensures IsCompleted(q', x) ==> q'.desk.routes[x].outcome == Some(G.FeedbackRouteRef(x))
    {
      assert G.FeedbackRouteRef(x) in q.gov.signals <==> IsCompleted(q, x);
      assert G.FeedbackRouteRef(x) in q'.gov.signals.Keys <==>
        G.FeedbackRouteRef(x) in q.gov.signals.Keys || (x == id && r.state.Completed?);
    }
  }

  lemma SetKeepsAudited(q: Queue, q': Queue, id: RouteId, r: Route)
    requires Audited(q) && id in q.desk.routes && !Terminal(q.desk.routes[id]) && !Terminal(r)
    requires q'.desk.routes == q.desk.routes[id := r] && q'.desk.audit == q.desk.audit
    ensures Audited(q')
  {
    forall x: RouteId
      ensures TerminalRows(q'.desk.audit, x) == if IsTerminal(q', x) then 1 else 0
    {
      assert TerminalRows(q.desk.audit, x) == if IsTerminal(q, x) then 1 else 0;
    }
  }

  lemma FinishKeepsAudited(q: Queue, q': Queue, id: RouteId, r: Route, actor: G.ActorId, outcome: AuditOutcome)
    requires Audited(q) && id in q.desk.routes && !Terminal(q.desk.routes[id]) && Terminal(r)
    requires q'.desk.routes == q.desk.routes[id := r]
    requires q'.desk.audit == q.desk.audit + [TerminalRow(id, actor, outcome)]
    ensures Audited(q')
  {
    forall x: RouteId
      ensures TerminalRows(q'.desk.audit, x) == if IsTerminal(q', x) then 1 else 0
    {
      AppendAudit(q.desk.audit, TerminalRow(id, actor, outcome), x);
      assert TerminalRows(q.desk.audit, x) == if IsTerminal(q, x) then 1 else 0;
    }
  }

  /** Putting an open route into another open state. */
  lemma OpenKeepsInv(q: Queue, id: RouteId, r: Route, issued: set<string>)
    requires Inv(q) && id in q.desk.routes && !Terminal(q.desk.routes[id])
    requires Shape(r) && !Terminal(r) && q.issued <= issued
    requires r.token.Some? ==> r.token.value in issued && r.token.value !in q.issued
    ensures Inv(SetRoute(q, id, r).(issued := issued))
  {
    var q' := SetRoute(q, id, r).(issued := issued);
    SetRouteKeepsDesk(q.desk, id, r, q.desk.audit);
    SetKeepsLeases(q, q', id, r);
    SetKeepsOutcomes(q, q', id, r);
    SetKeepsAudited(q, q', id, r);
  }

  /** Closing an open route, with its signal when it completes. */
  lemma FinishKeepsInv(q: Queue, gov: G.State, id: RouteId, r: Route, actor: G.ActorId, outcome: AuditOutcome)
    requires Inv(q) && id in q.desk.routes && !Terminal(q.desk.routes[id]) && Terminal(r) && Shape(r)
    requires G.Inv(gov)
    requires gov.signals.Keys == q.gov.signals.Keys + (if r.state.Completed? then {G.FeedbackRouteRef(id)} else {})
    requires r.state.Completed? ==> r.outcome == Some(G.FeedbackRouteRef(id))
    ensures Inv(Finish(q.(gov := gov), id, r, actor, outcome))
  {
    var q' := Finish(q.(gov := gov), id, r, actor, outcome);
    SetRouteKeepsDesk(q.desk, id, r, q'.desk.audit);
    SetKeepsLeases(q, q', id, r);
    SetKeepsOutcomes(q, q', id, r);
    FinishKeepsAudited(q, q', id, r, actor, outcome);
  }

  // ---------------------------------------------------------------- every step keeps the invariant

  /** What a sweep makes of a due row. */
  function Swept(r: Route, token: string, now: Time): Route {
    if r.attempts >= MAX_ATTEMPTS then MarkFailed(r, ExpiryError(r), now) else Claimed(r, token, now)
  }

  lemma SweepOneChange(q: Queue, id: RouteId, token: string, now: Time)
    requires id in q.desk.routes && id.command in q.desk.feedback && !Terminal(q.desk.routes[id])
    ensures var q' := SweepOne(q, id, token, now);
            && q'.desk.routes == q.desk.routes[id := Swept(q.desk.routes[id], token, now)]
            && q.issued <= q'.issued <= q.issued + {token}
            && q'.desk.feedback == q.desk.feedback && q'.gov == q.gov
  {
  }

  lemma SweepOneKeepsInv(q: Queue, id: RouteId, token: string, now: Time)
    requires Inv(q) && id in q.desk.routes && !Terminal(q.desk.routes[id]) && token !in q.issued
    ensures Inv(SweepOne(q, id, token, now))
  {
    var r := q.desk.routes[id];
    assert Shape(r);
    assert id.command in q.desk.feedback;
    if r.attempts >= MAX_ATTEMPTS {
      FinishKeepsInv(q, q.gov, id, MarkFailed(r, ExpiryError(r), now), q.desk.feedback[id.command].actor, AuditFailed);
    } else {
      OpenKeepsInv(q, id, Claimed(r, token, now), q.issued + {token});
    }
  }

  ghost predicate InBatch(batch: seq<(RouteId, string)>, id: RouteId) {
    exists i :: 0 <= i < |batch| && batch[i].0 == id
  }

  ghost predicate FeedbackPresent(q: Queue) {
    forall id | id in q.desk.routes :: id.command in q.desk.feedback
  }

  /** A sweep adds no row, and touches neither feedback rows nor review work. */
  lemma {:induction false} SweepFrame(q: Queue, batch: seq<(RouteId, string)>, k: nat, now: Time)
    requires k <= |batch|
    ensures var q' := SweepTo(q, batch, k, now);
            && q'.desk.feedback == q.desk.feedback && q'.gov == q.gov
            && q'.desk.routes.Keys == q.desk.routes.Keys && q.issued <= q'.issued
  {
    if k > 0 { SweepFrame(q, batch, k - 1, now); }
  }

  lemma SweepOneFrame(q: Queue, id: RouteId, token: string, now: Time, x: RouteId)
    requires x in q.desk.routes && x != id
    ensures x in SweepOne(q, id, token, now).desk.routes
    ensures SweepOne(q, id, token, now).desk.routes[x] == q.desk.routes[x]
  {
  }

  /** A sweep leaves a row alone that it has not reached. */
  lemma {:induction false} SweepSkips(q: Queue, batch: seq<(RouteId, string)>, k: nat, now: Time, id: RouteId)
    requires k <= |batch| && id in q.desk.routes
    requires forall i | 0 <= i < k :: batch[i].0 != id
    ensures id in SweepTo(q, batch, k, now).desk.routes
    ensures SweepTo(q, batch, k, now).desk.routes[id] == q.desk.routes[id]
  {
    if k > 0 {
      SweepSkips(q, batch, k - 1, now, id);
      SweepOneFrame(SweepTo(q, batch, k - 1, now), batch[k - 1].0, batch[k - 1].1, now, id);
    }
  }

  /** A sweep hands out no token but those it drew. */
  lemma {:induction false} SweepIssues(q: Queue, batch: seq<(RouteId, string)>, k: nat, now: Time, t: string)
    requires k <= |batch| && t !in q.issued
    requires forall i | 0 <= i < k :: batch[i].1 != t
    ensures t !in SweepTo(q, batch, k, now).issued
  {
    if k > 0 { SweepIssues(q, batch, k - 1, now, t); }
  }

  /** When its turn comes, a selected row is still as the query saw it, and its token still new. */
  lemma NextRow(q: Queue, batch: seq<(RouteId, string)>, k: nat, now: Time)
    requires FeedbackPresent(q) && IsBatch(q, batch, now) && k < |batch|
    ensures var mid := SweepTo(q, batch, k, now); var id := batch[k].0;
            && id in mid.desk.routes && mid.desk.routes[id] == q.desk.routes[id] && !Terminal(mid.desk.routes[id])
            && batch[k].1 !in mid.issued && id.command in mid.desk.feedback
  {
    SweepFrame(q, batch, k, now);
    SweepSkips(q, batch, k, now, batch[k].0);
    SweepIssues(q, batch, k, now, batch[k].1);
  }

  /** A sweep treats every selected row by itself, whatever else it selects. */
  lemma {:induction false} SweepTreats(q: Queue, batch: seq<(RouteId, string)>, k: nat, now: Time, i: nat)
    requires FeedbackPresent(q) && IsBatch(q, batch, now) && i < k <= |batch|
    ensures batch[i].0 in SweepTo(q, batch, k, now).desk.routes
    ensures SweepTo(q, batch, k, now).desk.routes[batch[i].0] == Swept(q.desk.routes[batch[i].0], batch[i].1, now)
  {
    var mid := SweepTo(q, batch, k - 1, now);
    if i == k - 1 {
      NextRow(q, batch, i, now);
      SweepOneChange(mid, batch[i].0, batch[i].1, now);
    } else {
      SweepTreats(q, batch, k - 1, now, i);
      SweepOneFrame(mid, batch[k - 1].0, batch[k - 1].1, now, batch[i].0);
    }
  }

  /** A row after a sweep: treated when selected, untouched when not. */
  lemma SweepEffect(q: Queue, batch: seq<(RouteId, string)>, now: Time, id: RouteId)
    requires FeedbackPresent(q) && IsBatch(q, batch, now) && id in q.desk.routes
    ensures id in SweepAll(q, batch, now).desk.routes
    ensures !InBatch(batch, id) ==> SweepAll(q, batch, now).desk.routes[id] == q.desk.routes[id]
    ensures InBatch(batch, id) ==>
              exists i :: 0 <= i < |batch| && batch[i].0 == id && batch[i].1 !in q.issued && Due(q.desk.routes[id], now)
                          && SweepAll(q, batch, now).desk.routes[id] == Swept(q.desk.routes[id], batch[i].1, now)
  {
    if InBatch(batch, id) {
      var i :| 0 <= i < |batch| && batch[i].0 == id;
      SweepTreats(q, batch, |batch|, now, i);
    } else {
      SweepSkips(q, batch, |batch|, now, id);
    }
  }

  lemma SweepNextKeepsInv(q: Queue, batch: seq<(RouteId, string)>, k: nat, now: Time, mid: Queue)
    requires FeedbackPresent(q) && IsBatch(q, batch, now) && k < |batch|
    requires Inv(mid) && mid == SweepTo(q, batch, k, now)
    ensures Inv(SweepOne(mid, batch[k].0, batch[k].1, now))
  {
    assert batch[k].0 in mid.desk.routes && !Terminal(mid.desk.routes[batch[k].0]) && batch[k].1 !in mid.issued by {
      NextRow(q, batch, k, now);
    }
    SweepOneKeepsInv(mid, batch[k].0, batch[k].1, now);
  }

  lemma {:induction false} SweepKeepsInv(q: Queue, batch: seq<(RouteId, string)>, k: nat, now: Time)
    requires Inv(q) && IsBatch(q, batch, now) && k <= |batch|
    ensures Inv(SweepTo(q, batch, k, now))
  {
    if k == 0 {
      assert SweepTo(q, batch, 0, now) == q;
    } else {
      var before: nat := k - 1;
      var mid := SweepTo(q, batch, before, now);
      SweepKeepsInv(q, batch, before, now);
      SweepNextKeepsInv(q, batch, before, now, mid);
      assert SweepTo(q, batch, k, now) == SweepOne(mid, batch[before].0, batch[before].1, now);
    }
  }

  lemma CreatedSignalIsNew(g: G.State, input: G.SignalInput, actor: G.ActorId, now: Time)
    requires input.ref !in g.signals && G.CreateSignal(g, input, actor, now).1.Ok?
    ensures G.CreateSignal(g, input, actor, now).0.signals.Keys == g.signals.Keys + {input.ref}
  {
  }

  lemma BlockKeepsInv(q: Queue, id: RouteId, reason: TerminalReason, actor: G.ActorId, now: Time)
    requires Inv(q) && id in q.desk.routes && q.desk.routes[id].state.Running?
    ensures Inv(Block(q, id, q.desk.routes[id], reason, actor, now).0)
  {
    assert Shape(q.desk.routes[id]);
    FinishKeepsInv(q, q.gov, id, MarkBlocked(q.desk.routes[id], reason, now), actor, AuditBlocked(reason));
  }

  lemma CompleteKeepsInv(q: Queue, id: RouteId, input: G.SignalInput, actor: G.ActorId, now: Time)
    requires Inv(q) && id in q.desk.routes && q.desk.routes[id].state.Running?
    requires input.ref == G.FeedbackRouteRef(id)
    ensures Inv(Complete(q, id, q.desk.routes[id], input, actor, now).0)
  {
    var r := q.desk.routes[id];
    var (gov, created) := G.CreateSignal(q.gov, input, actor, now);
    if created.Ok? {
      assert Shape(r);
      assert !IsCompleted(q, id);
      G.CreateKeepsInv(q.gov, input, actor, now);
      CreatedSignalIsNew(q.gov, input, actor, now);
      FinishKeepsInv(q, gov, id, MarkCompleted(r, input.ref, now), actor, AuditCompleted(input.ref));
    }
  }

  lemma SettleKeepsInv(q: Queue, id: RouteId, f: FeedbackSignal, wiki: Wiki, now: Time)
    requires Inv(q) && id in q.desk.routes && q.desk.routes[id].state.Running?
    ensures Inv(Settle(q, id, q.desk.routes[id], f, wiki, now).0)
  {
    if RouteKindOf(f.signalType) != Some(id.kind) {
      BlockKeepsInv(q, id, RoutePolicyChanged, f.actor, now);
    } else {
      match ResolveTarget(wiki, f)
      case Err(reason) => BlockKeepsInv(q, id, reason, f.actor, now);
      case Ok(target) => CompleteKeepsInv(q, id, RouteSignal(id, f, target.0, target.1), f.actor, now);
    }
  }

  lemma ExecuteKeepsInv(q: Queue, claim: Claim, wiki: Wiki, now: Time)
    requires Inv(q)
    ensures Inv(Execute(q, claim, wiki, now).0)
  {
    var id := claim.route;
    if id in q.desk.routes && id.command in q.desk.feedback && HoldsLease(q.desk.routes[id], claim, now) {
      SettleKeepsInv(q, id, q.desk.feedback[id.command], wiki, now);
    }
  }

  lemma FailureKeepsInv(q: Queue, claim: Claim, error: RouteError, now: Time)
    requires Inv(q)
    ensures Inv(RecordFailure(q, claim, error, now).0)
  {
    var id := claim.route;
    if id in q.desk.routes && id.command in q.desk.feedback && HoldsLease(q.desk.routes[id], claim, now) {
      var r := q.desk.routes[id];
      assert Shape(r);
      if r.attempts >= MAX_ATTEMPTS {
        FinishKeepsInv(q, q.gov, id, MarkFailed(r, error, now), q.desk.feedback[id.command].actor, AuditFailed);
      } else {
        OpenKeepsInv(q, id, Requeued(r, error, now), q.issued);
      }
    }
  }

  lemma RecordKeepsInv(q: Queue, input: FeedbackInput, actor: G.ActorId, wiki: Wiki, now: Time)
    requires Inv(q)
    ensures Inv(q.(desk := Record(q.desk, input, actor, wiki, now).0))
  {
    var q' := q.(desk := Record(q.desk, input, actor, wiki, now).0);
    RecordKeepsDesk(q.desk, input, actor, wiki, now);
    RecordOnlyAdds(q.desk, input, actor, wiki, now);
    AddingKeepsRest(q, q', input.commandId, actor, now);
  }

  lemma AddingKeepsRest(q: Queue, q': Queue, command: string, actor: G.ActorId, now: Time)
    requires Shapes(q) && Leases(q) && Outcomes(q) && Audited(q)
    requires OnlyAdds(q.desk, q'.desk, command, actor, now) && q'.gov == q.gov && q'.issued == q.issued
    ensures Shapes(q') && Leases(q') && Outcomes(q') && Audited(q')
  {
    forall x: RouteId
      ensures IsCompleted(q', x) <==> IsCompleted(q, x)
      ensures IsTerminal(q', x) <==> IsTerminal(q, x)
      ensures TerminalRows(q'.desk.audit, x) == TerminalRows(q.desk.audit, x)
    {
      AppendAudit(q.desk.audit, RecordedRow(command, actor), x);
      assert q.desk.audit + [] == q.desk.audit;
    }
    assert Outcomes(q');
  }

  /** Only a create step adds a signal reference, and only the one it names. */
  lemma GovernanceKeys(g: G.State, step: G.Step)
    ensures forall ref :: ref in G.Apply(g, step).signals <==>
              ref in g.signals || (step.CreateStep? && ref == step.input.ref && ref in G.Apply(g, step).signals)
  {
  }

  lemma GovernKeepsInv(q: Queue, step: G.Step)
    requires Inv(q) && Legal(q, GovernStep(step))
    ensures Inv(q.(gov := G.Apply(q.gov, step)))
  {
    var q' := q.(gov := G.Apply(q.gov, step));
    G.StepKeepsInv(q.gov, step);
    GovernanceKeys(q.gov, step);
    assert Outcomes(q') by {
      forall x: RouteId
        ensures G.FeedbackRouteRef(x) in q'.gov.signals <==> G.FeedbackRouteRef(x) in q.gov.signals
      {
      }
    }
    assert Audited(q') by {
      forall x: RouteId
        ensures IsTerminal(q', x) <==> IsTerminal(q, x)
      {
      }
    }
  }

  /** Every transaction of every actor keeps every clause of the invariant. */
  lemma StepKeepsInv(q: Queue, step: Step)
    requires Inv(q)
    ensures Inv(Apply(q, step))
  {
    if Legal(q, step) {
      match step
      case SweepStep(batch, now) => SweepKeepsInv(q, batch, |batch|, now);
      case ExecuteStep(claim, wiki, now) => ExecuteKeepsInv(q, claim, wiki, now);
      case FailureStep(claim, error, now) => FailureKeepsInv(q, claim, error, now);
      case RecordStep(input, actor, wiki, now) => RecordKeepsInv(q, input, actor, wiki, now);
      case GovernStep(s) => GovernKeepsInv(q, s);
    }
  }

  lemma {:induction false} RunKeepsInv(q: Queue, steps: seq<Step>)
    requires Inv(q)
    ensures Inv(Run(q, steps))
    decreases |steps|
  {
    if steps != [] {
      RunKeepsInv(q, steps[..|steps| - 1]);
      StepKeepsInv(Run(q, steps[..|steps| - 1]), steps[|steps| - 1]);
    }
  }
}
