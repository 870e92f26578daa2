/** What the lease protocol guarantees over whole runs. */
module LeaseProtocol {
  import opened Wrappers
  import opened Audience
  import opened Feedback
  import opened FeedbackExecution
  import G = Governance

  /** The step is a sweep that selected this row. */
  ghost predicate Selects(q: Queue, step: Step, id: RouteId) {
    step.SweepStep? && Legal(q, step) && InBatch(step.batch, id)
  }

  /** The step is an execution or failure report whose claim holds the row's lease. */
  predicate Owns(q: Queue, step: Step, id: RouteId) {
    && (step.ExecuteStep? || step.FailureStep?)
    && step.claim.route == id && id in q.desk.routes && HoldsLease(q.desk.routes[id], step.claim, step.now)
  }

  /** What a selecting sweep or an owning report may make of a row. */
  ghost predicate AllowedChange(q: Queue, step: Step, id: RouteId, a: Route, b: Route) {
    || (Selects(q, step, id) && Due(a, step.now)
        && exists i | 0 <= i < |step.batch| :: step.batch[i].0 == id && b == Swept(a, step.batch[i].1, step.now))
    || (Owns(q, step, id) && step.ExecuteStep? && (b.state.Completed? || b.state.Blocked?) && b.attempts == a.attempts)
    || (Owns(q, step, id) && step.FailureStep?
        && b == if a.attempts >= MAX_ATTEMPTS then MarkFailed(a, step.error, step.now)
                else Requeued(a, step.error, step.now))
  }

  lemma SettleChange(q: Queue, id: RouteId, r: Route, f: FeedbackSignal, wiki: Wiki, now: Time)
    requires id in q.desk.routes
    ensures var routes := Settle(q, id, r, f, wiki, now).0.desk.routes;
            || routes == q.desk.routes
            || (id in routes && routes == q.desk.routes[id := routes[id]]
                && (routes[id].state.Completed? || routes[id].state.Blocked?) && routes[id].attempts == r.attempts)
  {
  }

  lemma ExecuteChange(q: Queue, claim: Claim, wiki: Wiki, now: Time, id: RouteId)
    requires id in q.desk.routes
    ensures var q' := Execute(q, claim, wiki, now).0;
            && id in q'.desk.routes
            && (q'.desk.routes[id] == q.desk.routes[id]
                || AllowedChange(q, ExecuteStep(claim, wiki, now), id, q.desk.routes[id], q'.desk.routes[id]))
  {
    if claim.route in q.desk.routes && claim.route.command in q.desk.feedback {
      SettleChange(q, claim.route, q.desk.routes[claim.route], q.desk.feedback[claim.route.command], wiki, now);
    }
  }

  lemma FailureChange(q: Queue, claim: Claim, error: RouteError, now: Time, id: RouteId)
    requires id in q.desk.routes
    ensures var q' := RecordFailure(q, claim, error, now).0;
            && id in q'.desk.routes
            && (q'.desk.routes[id] == q.desk.routes[id]
                || AllowedChange(q, FailureStep(claim, error, now), id, q.desk.routes[id], q'.desk.routes[id]))
  {
  }

  /** Nothing but a sweep that selects a due row, or a report that holds its lease, changes a row. */
  lemma OnlyOwnersChange(q: Queue, step: Step, id: RouteId)
    requires Inv(q) && id in q.desk.routes
    ensures var q' := Apply(q, step);
            && id in q'.desk.routes
            && (q'.desk.routes[id] == q.desk.routes[id]
                || AllowedChange(q, step, id, q.desk.routes[id], q'.desk.routes[id]))
  {
    if Legal(q, step) {
      match step
      case SweepStep(batch, now) =>
        SweepEffect(q, batch, now, id);
      case ExecuteStep(claim, wiki, now) => ExecuteChange(q, claim, wiki, now, id);
      case FailureStep(claim, error, now) => FailureChange(q, claim, error, now, id);
      case RecordStep(input, actor, wiki, now) => RecordOnlyAdds(q.desk, input, actor, wiki, now);
      case GovernStep(s) =>
    }
  }

  /** A terminal route never changes again. */
  lemma {:induction false} TerminalForever(q: Queue, steps: seq<Step>, id: RouteId)
    requires Inv(q) && IsTerminal(q, id)
    ensures id in Run(q, steps).desk.routes && Run(q, steps).desk.routes[id] == q.desk.routes[id]
    decreases |steps|
  {
    if steps != [] {
      var front, last := steps[..|steps| - 1], steps[|steps| - 1];
      TerminalForever(q, front, id);
      RunKeepsInv(q, front);
      OnlyOwnersChange(Run(q, front), last, id);
    }
  }

  // ---------------------------------------------------------------- fencing

  /** The step hands out a new lease for the row. */
  ghost predicate Claims(q: Queue, step: Step, id: RouteId) {
    Selects(q, step, id) && id in q.desk.routes && q.desk.routes[id].attempts < MAX_ATTEMPTS
  }

  /** The token of the last lease that a run handed out for the row. */
  ghost function NewestToken(q: Queue, steps: seq<Step>, id: RouteId): Option<string>
    decreases |steps|
  {
    if steps == [] then None
    else
      var front, last := steps[..|steps| - 1], steps[|steps| - 1];
      var before := Run(q, front);
      if Claims(before, last, id) then
        if id in Apply(before, last).desk.routes then Apply(before, last).desk.routes[id].token else None
      else NewestToken(q, front, id)
  }

  lemma ClaimRuns(q: Queue, step: Step, id: RouteId)
    requires Inv(q) && Claims(q, step, id)
    ensures var q' := Apply(q, step);
            && id in q'.desk.routes && q'.desk.routes[id].state.Running? && q'.desk.routes[id].token.Some?
            && q'.desk.routes[id].token.value !in q.issued
            && q'.desk.routes[id].attempts == q.desk.routes[id].attempts + 1
  {
    SweepEffect(q, step.batch, step.now, id);
  }

  /** Where a run starts without leases, a running row always carries the newest token. */
  lemma {:induction false} HolderHasNewestToken(steps: seq<Step>, id: RouteId)
    ensures var q := Run(EMPTY, steps);
            id in q.desk.routes && q.desk.routes[id].state.Running? ==>
              q.desk.routes[id].token == NewestToken(EMPTY, steps, id)
    decreases |steps|
  {
    if steps != [] {
      var front, last := steps[..|steps| - 1], steps[|steps| - 1];
      var q := Run(EMPTY, front);
      HolderHasNewestToken(front, id);
      FeedbackExecution.EmptyInv();
      RunKeepsInv(EMPTY, front);
      if id in q.desk.routes {
        OnlyOwnersChange(q, last, id);
      } else if id in Apply(q, last).desk.routes {
        NewRouteIsQueued(q, last, id);
      }
    }
  }

  lemma ReportsAddNoRoutes(q: Queue, claim: Claim, wiki: Wiki, error: RouteError, now: Time)
    ensures Execute(q, claim, wiki, now).0.desk.routes.Keys == q.desk.routes.Keys
    ensures RecordFailure(q, claim, error, now).0.desk.routes.Keys == q.desk.routes.Keys
  {
    if claim.route in q.desk.routes && claim.route.command in q.desk.feedback {
      SettleChange(q, claim.route, q.desk.routes[claim.route], q.desk.feedback[claim.route.command], wiki, now);
    }
  }

  lemma NewRouteIsQueued(q: Queue, step: Step, id: RouteId)
    requires Inv(q) && id !in q.desk.routes && id in Apply(q, step).desk.routes
    ensures step.RecordStep? && Apply(q, step).desk.routes[id] == NewRoute(step.now)
  {
    match step
    case SweepStep(batch, now) => SweepFrame(q, batch, |batch|, now);
    case ExecuteStep(claim, wiki, now) => ReportsAddNoRoutes(q, claim, wiki, LeaseExpired, now);
    case FailureStep(claim, error, now) => ReportsAddNoRoutes(q, claim, Wiki(map[], map[]), error, now);
    case RecordStep(input, actor, wiki, now) => RecordOnlyAdds(q.desk, input, actor, wiki, now);
    case GovernStep(s) =>
  }

  /** Only the holder of the newest token, in time, changes a row by a report. */
  lemma FencedByNewestToken(steps: seq<Step>, step: Step, id: RouteId)
    requires step.ExecuteStep? || step.FailureStep?
    requires id in Run(EMPTY, steps).desk.routes
    ensures var q := Run(EMPTY, steps);
            id in Apply(q, step).desk.routes
            && (Apply(q, step).desk.routes[id] != q.desk.routes[id] ==>
                  && step.claim.route == id
                  && NewestToken(EMPTY, steps, id) == Some(step.claim.token)
                  && q.desk.routes[id].expires.Some? && step.now < q.desk.routes[id].expires.value)
  {
    FeedbackExecution.EmptyInv();
    RunKeepsInv(EMPTY, steps);
    HolderHasNewestToken(steps, id);
    OnlyOwnersChange(Run(EMPTY, steps), step, id);
  }

  /** No step gives a row back to a token it lost. */
  lemma StepKeepsSuperseded(q: Queue, step: Step, id: RouteId, token: string)
    requires Inv(q) && id in q.desk.routes && token in q.issued && q.desk.routes[id].token != Some(token)
    ensures var q' := Apply(q, step);
            id in q'.desk.routes && token in q'.issued && q'.desk.routes[id].token != Some(token)
  {
    OnlyOwnersChange(q, step, id);
    if step.SweepStep? && Legal(q, step) {
      SweepFrame(q, step.batch, |step.batch|, step.now);
      SweepEffect(q, step.batch, step.now, id);
    }
  }

  /** A token that lost its row never gets it back. */
  lemma {:induction false} SupersededForever(q: Queue, steps: seq<Step>, id: RouteId, token: string)
    requires Inv(q) && id in q.desk.routes && token in q.issued && q.desk.routes[id].token != Some(token)
    ensures var q' := Run(q, steps);
            id in q'.desk.routes && token in q'.issued && q'.desk.routes[id].token != Some(token)
    decreases |steps|
  {
    if steps != [] {
      var front := steps[..|steps| - 1];
      SupersededForever(q, front, id, token);
      RunKeepsInv(q, front);
      StepKeepsSuperseded(Run(q, front), steps[|steps| - 1], id, token);
    }
  }

  /** A stale worker is told so, and its reports write nothing, whatever happens in between. */
  lemma StaleClaimIsPowerless(q: Queue, steps: seq<Step>, claim: Claim, wiki: Wiki, error: RouteError, now: Time)
    requires Inv(q) && claim.route in q.desk.routes
    requires claim.token in q.issued && q.desk.routes[claim.route].token != Some(claim.token)
    ensures claim.route in Run(q, steps).desk.routes
    ensures var q' := Run(q, steps); var r := q'.desk.routes[claim.route];
            var answer := if Terminal(r) then AlreadyTerminal(r) else LeaseLost;
            Execute(q', claim, wiki, now) == (q', answer) && RecordFailure(q', claim, error, now) == (q', answer)
  {
    SupersededForever(q, steps, claim.route, claim.token);
    RunKeepsInv(q, steps);
    assert claim.route.command in Run(q, steps).desk.feedback;
  }

  // ---------------------------------------------------------------- exactly once

  /**
   In every reachable state a route has its signal exactly when it is completed, the signal is
   its outcome, and there is one terminal audit row exactly when it is terminal.
   */
  lemma ExactlyOnce(steps: seq<Step>, id: RouteId)
    requires id in Run(EMPTY, steps).desk.routes
    ensures var q := Run(EMPTY, steps); var r := q.desk.routes[id];
            && Shape(r)
            && (G.FeedbackRouteRef(id) in q.gov.signals <==> r.state.Completed?)
            && (r.state.Completed? <==> r.outcome == Some(G.FeedbackRouteRef(id)))
            && TerminalRows(q.desk.audit, id) == (if Terminal(r) then 1 else 0)
            && q.gov.signals.Keys == q.gov.assignments.Keys
  {
    FeedbackExecution.EmptyInv();
    RunKeepsInv(EMPTY, steps);
    var q := Run(EMPTY, steps);
    assert Shape(q.desk.routes[id]);
    assert IsCompleted(q, id) <==> q.desk.routes[id].state.Completed?;
    assert IsTerminal(q, id) <==> Terminal(q.desk.routes[id]);
  }

  // ---------------------------------------------------------------- what an owned execution decides

  /** The page a feedback signal is about: that of its draft when it names one. */
  function TargetPage(wiki: Wiki, f: FeedbackSignal): Option<string> {
    if f.draftId.None? then f.pageId
    else if f.draftId.value in wiki.drafts then wiki.drafts[f.draftId.value]
    else None
  }

  /** The target is one eligible page, which still is the stored page and projects to the stored object. */
  predicate TargetStands(wiki: Wiki, f: FeedbackSignal) {
    var page := TargetPage(wiki, f);
    && page.Some? && (f.pageId.Some? ==> f.pageId == page)
    && page.value in wiki.pages && wiki.pages[page.value].Some?
    && f.objectId == Some(wiki.pages[page.value].value.objectId)
  }

  lemma ResolvesIffStands(wiki: Wiki, f: FeedbackSignal)
    ensures ResolveTarget(wiki, f).Ok? <==> TargetStands(wiki, f)
    ensures ResolveTarget(wiki, f).Ok? ==>
              var page := TargetPage(wiki, f).value;
              ResolveTarget(wiki, f).value == (page, wiki.pages[page].value)
  {
  }

  /**
   An owned execution of a reachable route completes it exactly when its target stands, and blocks it
   for its target exactly when it does not: the policy that created the route still maps it, and the
   signal it creates is new.
   */
  lemma OwnedExecutionDecides(q: Queue, claim: Claim, wiki: Wiki, now: Time)
    requires Inv(q) && claim.route in q.desk.routes && HoldsLease(q.desk.routes[claim.route], claim, now)
    ensures claim.route.command in q.desk.feedback
    ensures var f := q.desk.feedback[claim.route.command];
            var (q', answer) := Execute(q, claim, wiki, now);
            && claim.route in q'.desk.routes
            && !answer.SignalRefused?
            && (q'.desk.routes[claim.route].state.Completed? <==> TargetStands(wiki, f))
            && (q'.desk.routes[claim.route].state.Blocked? <==> !TargetStands(wiki, f))
            && q'.desk.routes[claim.route].reason != Some(RoutePolicyChanged)
  {
    var id := claim.route;
    assert RoutesMatchPolicy(q.desk.feedback, q.desk.routes);
    assert Shape(q.desk.routes[id]);
    ResolvesIffStands(wiki, q.desk.feedback[id.command]);
    assert !IsCompleted(q, id);
    assert G.FeedbackRouteRef(id) !in q.gov.signals;
  }

  /** What reference resolution accepts is a standing target in the same wiki, as soon as there is a page at all. */
  lemma RecordedTargetStands(wiki: Wiki, input: FeedbackInput, actor: G.ActorId, now: Time)
    requires input.pageId.None? && ResolveReferences(wiki, input).Ok?
    ensures var resolved := ResolveReferences(wiki, input).value;
            TargetStands(wiki, NewFeedback(resolved, actor, now)) <==> resolved.pageId.Some?
  {
  }

  // ---------------------------------------------------------------- termination

  /** How many changes a row can still go through. */
  function Measure(r: Route): nat {
    match r.state
    case Queued => if r.attempts <= 3 then 2 * (3 - r.attempts) else 0
    case Running => if r.attempts <= 3 then 2 * (3 - r.attempts) + 1 else 1
    case _ => 0
  }

  /** Every change of a row uses up some of its measure. */
  lemma ChangeDecreases(q: Queue, step: Step, id: RouteId)
    requires Inv(q) && id in q.desk.routes
    ensures id in Apply(q, step).desk.routes
    ensures var a, b := q.desk.routes[id], Apply(q, step).desk.routes[id];
            a == b || Measure(b) < Measure(a)
  {
    OnlyOwnersChange(q, step, id);
    assert Shape(q.desk.routes[id]);
  }

  /** How often a run changes the row after it exists. */
  ghost function Changes(q: Queue, steps: seq<Step>, id: RouteId): nat
    decreases |steps|
  {
    if steps == [] then 0
    else
      var front, last := steps[..|steps| - 1], steps[|steps| - 1];
      var before, after := Run(q, front), Run(q, steps);
      Changes(q, front, id)
      + (if id in before.desk.routes && id in after.desk.routes && before.desk.routes[id] != after.desk.routes[id]
         then 1 else 0)
  }

  /** How often a run hands out a lease for the row. */
  ghost function ClaimCount(q: Queue, steps: seq<Step>, id: RouteId): nat
    decreases |steps|
  {
    if steps == [] then 0
    else
      var front, last := steps[..|steps| - 1], steps[|steps| - 1];
      ClaimCount(q, front, id) + (if Claims(Run(q, front), last, id) then 1 else 0)
  }

  ghost function Remaining(q: Queue, id: RouteId): nat {
    if id in q.desk.routes then Measure(q.desk.routes[id]) else 6
  }

  /** No schedule changes a row more than six times. */
  lemma {:induction false} AtMostSixChanges(q: Queue, steps: seq<Step>, id: RouteId)
    requires Inv(q)
    ensures Changes(q, steps, id) + Remaining(Run(q, steps), id) <= Remaining(q, id)
    ensures Changes(q, steps, id) <= Remaining(q, id)
    decreases |steps|
  {
    if steps != [] {
      var front, last := steps[..|steps| - 1], steps[|steps| - 1];
      AtMostSixChanges(q, front, id);
      RunKeepsInv(q, front);
      var mid := Run(q, front);
      if id in mid.desk.routes {
        ChangeDecreases(mid, last, id);
      } else if id in Apply(mid, last).desk.routes {
        NewRouteIsQueued(mid, last, id);
      }
    }
  }

  /** The attempt count is the number of leases handed out, so no schedule hands out more than three. */
  lemma {:induction false} AtMostThreeClaims(steps: seq<Step>, id: RouteId)
    ensures var q := Run(EMPTY, steps);
            ClaimCount(EMPTY, steps, id) == if id in q.desk.routes then q.desk.routes[id].attempts else 0
    ensures ClaimCount(EMPTY, steps, id) <= 3
    decreases |steps|
  {
    FeedbackExecution.EmptyInv();
    RunKeepsInv(EMPTY, steps);
    if id in Run(EMPTY, steps).desk.routes { assert Shape(Run(EMPTY, steps).desk.routes[id]); }
    if steps != [] {
      var front, last := steps[..|steps| - 1], steps[|steps| - 1];
      AtMostThreeClaims(front, id);
      RunKeepsInv(EMPTY, front);
      var mid := Run(EMPTY, front);
      if id !in mid.desk.routes {
        if id in Apply(mid, last).desk.routes { NewRouteIsQueued(mid, last, id); }
      } else if Claims(mid, last, id) {
        ClaimRuns(mid, last, id);
      } else {
        OnlyOwnersChange(mid, last, id);
      }
    }
  }

  // ---------------------------------------------------------------- progress of a sweep

  /** The measure of a whole table. */
  ghost function Total(routes: map<RouteId, Route>): nat
    decreases |routes|
  {
    if routes == map[] then 0
    else
      var id :| id in routes;
      Measure(routes[id]) + Total(routes - {id})
  }

  lemma {:induction false} TotalTakesOut(routes: map<RouteId, Route>, id: RouteId)
    requires id in routes
    ensures Total(routes) == Measure(routes[id]) + Total(routes - {id})
    decreases |routes|
  {
    var x :| x in routes && Total(routes) == Measure(routes[x]) + Total(routes - {x});
    if x != id {
      TotalTakesOut(routes - {x}, id);
      TotalTakesOut(routes - {id}, x);
      assert routes - {x} - {id} == routes - {id} - {x};
    }
  }

  lemma {:induction false} TotalMonotone(a: map<RouteId, Route>, b: map<RouteId, Route>)
    requires a.Keys == b.Keys
    requires forall id | id in a :: Measure(b[id]) <= Measure(a[id])
    ensures Total(b) <= Total(a)
    ensures (exists id :: id in a && Measure(b[id]) < Measure(a[id])) ==> Total(b) < Total(a)
    decreases |a|
  {
    if a == map[] {
      assert b == map[];
    } else {
      var id :| id in a;
      TotalTakesOut(a, id);
      TotalTakesOut(b, id);
      TotalMonotone(a - {id}, b - {id});
      if exists x :: x in a && Measure(b[x]) < Measure(a[x]) {
        var x :| x in a && Measure(b[x]) < Measure(a[x]);
        if x != id { assert x in a - {id}; }
      }
    }
  }

  /** A sweep that finds any due row makes progress. */
  lemma SweepMakesProgress(q: Queue, batch: seq<(RouteId, string)>, now: Time)
    requires Inv(q) && IsBatch(q, batch, now) && batch != []
    ensures Total(SweepAll(q, batch, now).desk.routes) < Total(q.desk.routes)
  {
    var step := SweepStep(batch, now);
    SweepFrame(q, batch, |batch|, now);
    var q' := SweepAll(q, batch, now);
    forall id | id in q.desk.routes
      ensures Measure(q'.desk.routes[id]) <= Measure(q.desk.routes[id])
    {
      ChangeDecreases(q, step, id);
    }
    var first := batch[0].0;
    ChangeDecreases(q, step, first);
    SweepTreats(q, batch, |batch|, now, 0);
    assert Shape(q.desk.routes[first]);
    TotalMonotone(q.desk.routes, q'.desk.routes);
  }

  // ---------------------------------------------------------------- backoff

  /** The step puts the row back into the queue. */
  ghost predicate Requeues(q: Queue, step: Step, id: RouteId) {
    step.FailureStep? && Owns(q, step, id) && q.desk.routes[id].attempts < MAX_ATTEMPTS
  }

  ghost function RequeueCount(q: Queue, steps: seq<Step>, id: RouteId): nat
    decreases |steps|
  {
    if steps == [] then 0
    else
      var front, last := steps[..|steps| - 1], steps[|steps| - 1];
      RequeueCount(q, front, id) + (if Requeues(Run(q, front), last, id) then 1 else 0)
  }

  /** How often a run takes the row from a worker whose lease ran out. */
  ghost function ReclaimCount(q: Queue, steps: seq<Step>, id: RouteId): nat
    decreases |steps|
  {
    if steps == [] then 0
    else
      var front, last := steps[..|steps| - 1], steps[|steps| - 1];
      var before := Run(q, front);
      ReclaimCount(q, front, id)
      + (if Claims(before, last, id) && before.desk.routes[id].state.Running? then 1 else 0)
  }

  lemma RequeueChange(q: Queue, step: Step, id: RouteId)
    requires Inv(q) && Requeues(q, step, id)
    ensures id in Apply(q, step).desk.routes
    ensures Apply(q, step).desk.routes[id] == Requeued(q.desk.routes[id], step.error, step.now)
  {
    assert id.command in q.desk.feedback;
  }

  /** Attempts are requeues, plus leases that ran out, plus the attempt under way. */
  lemma {:induction false} AttemptsAreAccountedFor(steps: seq<Step>, id: RouteId)
    requires id in Run(EMPTY, steps).desk.routes
    ensures var r := Run(EMPTY, steps).desk.routes[id];
            r.attempts == RequeueCount(EMPTY, steps, id) + ReclaimCount(EMPTY, steps, id)
                          + (if r.state.Queued? then 0 else 1)
    decreases |steps|
  {
    var front, last := steps[..|steps| - 1], steps[|steps| - 1];
    FeedbackExecution.EmptyInv();
    RunKeepsInv(EMPTY, front);
    var mid := Run(EMPTY, front);
    if id in mid.desk.routes {
      AttemptsAreAccountedFor(front, id);
      assert Shape(mid.desk.routes[id]);
      OnlyOwnersChange(mid, last, id);
      if Claims(mid, last, id) { ClaimRuns(mid, last, id); }
      if Requeues(mid, last, id) { RequeueChange(mid, last, id); }
    } else {
      NewRouteIsQueued(mid, last, id);
      UnknownRouteIsUntouched(front, id);
    }
  }

  lemma {:induction false} UnknownRouteIsUntouched(steps: seq<Step>, id: RouteId)
    requires id !in Run(EMPTY, steps).desk.routes
    ensures RequeueCount(EMPTY, steps, id) == 0 && ReclaimCount(EMPTY, steps, id) == 0
    decreases |steps|
  {
    if steps != [] {
      var front := steps[..|steps| - 1];
      FeedbackExecution.EmptyInv();
      RunKeepsInv(EMPTY, front);
      if id in Run(EMPTY, front).desk.routes { OnlyOwnersChange(Run(EMPTY, front), steps[|steps| - 1], id); }
      UnknownRouteIsUntouched(front, id);
    }
  }

  lemma {:induction false} Pow2Positive(n: nat)
    ensures Pow2(n) > 0
  {
    if n > 0 { Pow2Positive(n - 1); }
  }

  lemma {:induction false} Pow2Grows(a: nat, b: nat)
    requires a < b
    ensures Pow2(a) < Pow2(b)
  {
    Pow2Positive(b - 1);
    if a + 1 < b { Pow2Grows(a, b - 1); }
  }

  /** The delay of the attempt that follows `requeues` requeues and `lost` lost leases. */
  lemma BackoffOf(requeues: nat, lost: nat)
    ensures Backoff(requeues + lost + 1) == RETRY_BASE_SECONDS * Pow2(requeues + lost)
    ensures Backoff(requeues + lost + 1) == RETRY_BASE_SECONDS * Pow2(requeues) <==> lost == 0
  {
    if lost > 0 { Pow2Grows(requeues, requeues + lost); }
  }

  /** The step leaves the row queued for 30 * 2^(k + e) seconds, which is 30 * 2^k only for e = 0. */
  ghost predicate WaitsFor(q: Queue, step: Step, id: RouteId, k: nat, e: nat) {
    var routes := Apply(q, step).desk.routes;
    && id in routes && routes[id].state.Queued? && step.FailureStep?
    && routes[id].nextAttempt == Some(step.now + RETRY_BASE_SECONDS * Pow2(k + e))
    && (routes[id].nextAttempt == Some(step.now + RETRY_BASE_SECONDS * Pow2(k)) <==> e == 0)
  }

  lemma RequeuedWaits(q: Queue, step: Step, id: RouteId, k: nat, e: nat)
    requires Inv(q) && Requeues(q, step, id) && q.desk.routes[id].attempts == k + e + 1
    ensures WaitsFor(q, step, id, k, e)
  {
    RequeueChange(q, step, id);
    BackoffOf(k, e);
  }

  /**
   A row that was requeued k times before, and lost e leases to expiry, waits 30 * 2^(k + e)
   seconds after its next requeue; the k-th doubling of thirty seconds exactly when no lease ran out.
   */
  lemma RequeueDelay(steps: seq<Step>, step: Step, id: RouteId)
    requires Requeues(Run(EMPTY, steps), step, id)
    ensures WaitsFor(Run(EMPTY, steps), step, id, RequeueCount(EMPTY, steps, id), ReclaimCount(EMPTY, steps, id))
  {
    FeedbackExecution.EmptyInv();
    RunKeepsInv(EMPTY, steps);
    AttemptsAreAccountedFor(steps, id);
    RequeuedWaits(Run(EMPTY, steps), step, id, RequeueCount(EMPTY, steps, id), ReclaimCount(EMPTY, steps, id));
  }

  lemma SweepOfOne(q: Queue, id: RouteId, token: string, now: Time)
    requires id in q.desk.routes && id.command in q.desk.feedback && Due(q.desk.routes[id], now)
    requires token !in q.issued && q.desk.routes[id].attempts < MAX_ATTEMPTS
    ensures Apply(q, SweepStep([(id, token)], now))
         == SetRoute(q, id, Claimed(q.desk.routes[id], token, now)).(issued := q.issued + {token})
  {
    var batch := [(id, token)];
    assert SweepTo(q, batch, 0, now) == q;
    assert IsBatch(q, batch, now);
  }

  lemma RunOfThree(q: Queue, a: Step, b: Step, c: Step)
    ensures Run(q, [a, b, c]) == Apply(Apply(Apply(q, a), b), c)
  {
    assert [a, b, c][..2] == [a, b] && [a, b][..1] == [a] && [a][..0] == [];
    assert Run(q, [a]) == Apply(Run(q, []), a);
    assert Run(q, [a, b]) == Apply(Run(q, [a]), b);
  }

  lemma {:induction false} NoFailureNoRequeue(q: Queue, steps: seq<Step>, id: RouteId)
    requires forall step | step in steps :: !step.FailureStep?
    ensures RequeueCount(q, steps, id) == 0
    decreases |steps|
  {
    if steps != [] { NoFailureNoRequeue(q, steps[..|steps| - 1], id); }
  }

  /** A low rating that names nothing. */
  function BareLowRating(command: string, audience: AudienceContext): FeedbackInput {
    FeedbackInput(command, LowRating, audience, None, None, None, None, None)
  }

  lemma FirstRecord(command: string, audience: AudienceContext, actor: G.ActorId, wiki: Wiki, now: Time)
    ensures var q := Apply(EMPTY, RecordStep(BareLowRating(command, audience), actor, wiki, now));
            var id := G.RouteId(command, G.Review);
            id in q.desk.routes && q.desk.routes[id] == NewRoute(now) && command in q.desk.feedback && q.issued == {}
  {
  }

  /** A low rating is recorded, and the lease of its first attempt runs out. */
  function LostLease(command: string, audience: AudienceContext, actor: G.ActorId, wiki: Wiki,
                     first: string, second: string): seq<Step>
  {
    var id := G.RouteId(command, G.Review);
    [RecordStep(BareLowRating(command, audience), actor, wiki, 0), SweepStep([(id, first)], 0),
     SweepStep([(id, second)], 60)]
  }

  lemma LostLeaseState(command: string, audience: AudienceContext, actor: G.ActorId, wiki: Wiki, first: string,
                       second: string)
    requires first != second
    ensures var q := Run(EMPTY, LostLease(command, audience, actor, wiki, first, second));
            var id := G.RouteId(command, G.Review);
            && id in q.desk.routes && q.desk.routes[id].attempts == 2
            && HoldsLease(q.desk.routes[id], Claim(id, second, 2, Running), 61)
  {
    var id, steps := G.RouteId(command, G.Review), LostLease(command, audience, actor, wiki, first, second);
    RunOfThree(EMPTY, steps[0], steps[1], steps[2]);
    FirstRecord(command, audience, actor, wiki, 0);
    var q := Apply(EMPTY, steps[0]);
    SweepOfOne(q, id, first, 0);
    SweepOfOne(Apply(q, steps[1]), id, second, 60);
  }

  /** The first requeue of a route can already wait sixty seconds. */
  lemma FirstRequeueAfterLostLease(command: string, audience: AudienceContext, actor: G.ActorId, wiki: Wiki,
                                   first: string, second: string)
    requires first != second
    ensures var id, steps := G.RouteId(command, G.Review), LostLease(command, audience, actor, wiki, first, second);
            var report := FailureStep(Claim(id, second, 2, Running), Reported(""), 61);
            var routes := Apply(Run(EMPTY, steps), report).desk.routes;
            && Requeues(Run(EMPTY, steps), report, id)
            && RequeueCount(EMPTY, steps, id) == 0 && ReclaimCount(EMPTY, steps, id) == 1
            && id in routes && routes[id].state.Queued? && routes[id].nextAttempt == Some(61 + 60)
  {
    var id, steps := G.RouteId(command, G.Review), LostLease(command, audience, actor, wiki, first, second);
    LostLeaseState(command, audience, actor, wiki, first, second);
    NoFailureNoRequeue(EMPTY, steps, id);
    AttemptsAreAccountedFor(steps, id);
    RequeueDelay(steps, FailureStep(Claim(id, second, 2, Running), Reported(""), 61), id);
    assert Pow2(1) == 2 * Pow2(0);
  }

  // ---------------------------------------------------------------- feedback rows

  lemma FeedbackRowStays(q: Queue, step: Step, command: string)
    requires Inv(q) && command in q.desk.feedback
    ensures command in Apply(q, step).desk.feedback
    ensures Apply(q, step).desk.feedback[command] == q.desk.feedback[command]
  {
    if Legal(q, step) {
      match step
      case SweepStep(batch, now) => SweepFrame(q, batch, |batch|, now);
      case RecordStep(input, actor, wiki, now) => RecordOnlyAdds(q.desk, input, actor, wiki, now);
      case _ =>
    }
  }

  /** No later transaction touches a stored feedback row. */
  lemma {:induction false} FeedbackRowsStay(q: Queue, steps: seq<Step>, command: string)
    requires Inv(q) && command in q.desk.feedback
    ensures command in Run(q, steps).desk.feedback
    ensures Run(q, steps).desk.feedback[command] == q.desk.feedback[command]
    decreases |steps|
  {
    if steps != [] {
      var front, last := steps[..|steps| - 1], steps[|steps| - 1];
      FeedbackRowsStay(q, front, command);
      RunKeepsInv(q, front);
      FeedbackRowStays(Run(q, front), last, command);
    }
  }

  /** A recorded raw command is replayed from its raw form after any run of any transactions. */
  lemma RecognisedAfterAnyRun(q: Queue, input: FeedbackInput, actor: G.ActorId, wiki: Wiki, now: Time,
                              steps: seq<Step>, wiki': Wiki, now': Time)
    requires Inv(q) && input.pageId.None?
    requires Record(q.desk, input, actor, wiki, now).1.Recorded?
    ensures var q1 := Apply(q, RecordStep(input, actor, wiki, now));
            var q2 := Run(q1, steps);
            var first := Record(q.desk, input, actor, wiki, now).1;
            var again := Record(q2.desk, input, actor, wiki', now');
            && again.0 == q2.desk && again.1.Recorded? && again.1.replayed
            && again.1.signal == first.signal && again.1.route.Some? == first.route.Some?
  {
    var q1 := Apply(q, RecordStep(input, actor, wiki, now));
    RecordKeepsInv(q, input, actor, wiki, now);
    RunKeepsInv(q1, steps);
    FeedbackRowsStay(q1, steps, input.commandId);
    RawCommandIsRecognised(q.desk, input, actor, wiki, now, Run(q1, steps).desk, wiki', now');
  }
}
