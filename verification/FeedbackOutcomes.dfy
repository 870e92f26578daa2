/**
 What recording, sweeping, executing and failing a feedback route decide and write, told by the rows
 and the wiki they meet (cygnus/governance/feedback_execution.py, feedback_routing.py,
 cygnus/integrations/governed_feedback_tools.py).
 */
module FeedbackOutcomes {
  import opened Wrappers
  import opened Audience
  import opened Feedback
  import opened FeedbackExecution
  import opened LeaseProtocol
  import G = Governance
  import D = GovernanceDecisions

  // ---------------------------------------------------------------- recording

  /** The wiki shows this object on this page. */
  predicate ShownOn(wiki: Wiki, objectId: string, page: string) {
    && objectId == "ko-page-" + page
    && page in wiki.pages && wiki.pages[page].Some? && wiki.pages[page].value.objectId == objectId
  }

  predicate Readable(wiki: Wiki, page: string) { page in wiki.pages && wiki.pages[page].Some? }

  /** A draft that can be referred to: it exists, and the page it changes, if any, can be read. */
  predicate DraftVisible(wiki: Wiki, draftId: string) {
    draftId in wiki.drafts && (wiki.drafts[draftId].Some? ==> Readable(wiki, wiki.drafts[draftId].value))
  }

  ghost predicate ObjectVisible(wiki: Wiki, objectId: string) { exists page :: ShownOn(wiki, objectId, page) }

  lemma ShownOnce(wiki: Wiki, objectId: string, page: string)
    requires ShownOn(wiki, objectId, page)
    ensures ScopedObject(wiki, objectId) == Some(page)
  {
    assert objectId[..8] == "ko-page-" && objectId[8..] == page;
  }

  lemma ScopedIsShown(wiki: Wiki, objectId: string)
    ensures ScopedObject(wiki, objectId).Some? ==> ShownOn(wiki, objectId, ScopedObject(wiki, objectId).value)
    ensures ScopedObject(wiki, objectId).Some? <==> ObjectVisible(wiki, objectId)
  {
    if ScopedObject(wiki, objectId).Some? {
      assert objectId == objectId[..8] + objectId[8..];
      assert ShownOn(wiki, objectId, objectId[8..]);
    }
    if ObjectVisible(wiki, objectId) {
      var page :| ShownOn(wiki, objectId, page);
      ShownOnce(wiki, objectId, page);
    }
  }

  /** Everything the command refers to can be seen. */
  ghost predicate AllVisible(wiki: Wiki, input: FeedbackInput) {
    && (input.objectId.Some? ==> ObjectVisible(wiki, input.objectId.value))
    && (input.draftId.Some? ==> DraftVisible(wiki, input.draftId.value))
  }

  /** A draft and an object named together are about one page. */
  ghost predicate OneTarget(wiki: Wiki, input: FeedbackInput) {
    input.objectId.Some? && input.draftId.Some? && input.draftId.value in wiki.drafts ==>
      var page := wiki.drafts[input.draftId.value];
      page.Some? && ShownOn(wiki, input.objectId.value, page.value)
  }

  /** The command with the page it is about, and that page's object where it named none. */
  ghost predicate FilledIn(wiki: Wiki, input: FeedbackInput, resolved: FeedbackInput) {
    && resolved == input.(objectId := resolved.objectId, pageId := resolved.pageId)
    && (input.objectId.Some? ==> resolved.objectId == input.objectId)
    && (resolved.objectId.Some? <==> resolved.pageId.Some?)
    && (input.objectId.Some? ==> resolved.pageId.Some? && ShownOn(wiki, input.objectId.value, resolved.pageId.value))
    && (input.draftId.Some? ==>
          input.draftId.value in wiki.drafts && resolved.pageId == wiki.drafts[input.draftId.value])
    && (input.draftId.Some? && resolved.pageId.Some? ==>
          Readable(wiki, resolved.pageId.value)
          && resolved.objectId == Some(wiki.pages[resolved.pageId.value].value.objectId))
    && (input.objectId.None? && input.draftId.None? ==> resolved.pageId.None?)
  }

  /** References are accepted exactly when all can be seen and agree; the answer tells which of the two failed. */
  lemma ResolutionDecides(wiki: Wiki, input: FeedbackInput)
    ensures var r := ResolveReferences(wiki, input);
            && (r.Ok? <==> AllVisible(wiki, input) && OneTarget(wiki, input))
            && (r == Err(NotVisible) <==> !AllVisible(wiki, input))
            && (r == Err(ReferenceMismatch) <==> AllVisible(wiki, input) && !OneTarget(wiki, input))
            && (r.Ok? ==> FilledIn(wiki, input, r.value))
  {
    if input.objectId.Some? {
      ScopedIsShown(wiki, input.objectId.value);
      if input.draftId.Some? && input.draftId.value in wiki.drafts && wiki.drafts[input.draftId.value].Some? {
        var page := wiki.drafts[input.draftId.value].value;
        if ShownOn(wiki, input.objectId.value, page) { ShownOnce(wiki, input.objectId.value, page); }
      }
    }
  }

  /** The row holds what the command says and what its references resolved to. */
  ghost predicate TellsFeedback(s: FeedbackSignal, wiki: Wiki, input: FeedbackInput, actor: G.ActorId, now: Time) {
    && s.signalType == input.signalType && s.audience == input.audience && s.actor == actor && s.createdAt == now
    && s.draftId == input.draftId && s.notes == input.notes && s.sourceContext == input.sourceContext
    && FilledIn(wiki, input, input.(objectId := s.objectId, pageId := s.pageId))
    && Faithful(s)
  }

  /** A route that is due at once and was never tried. */
  predicate Fresh(r: Route, now: Time) {
    && r.state.Queued? && r.attempts == 0 && r.nextAttempt == Some(now) && r.createdAt == now
    && r.token == None && r.expires == None && r.outcome == None && r.reason == None && r.lastError == None
    && r.completedAt == None
  }

  /** A low rating has a review route, a stale answer a refresh route, and nothing else has any. */
  ghost predicate RoutedAs(routes: map<RouteId, Route>, before: map<RouteId, Route>, command: string, t: FeedbackType,
                           route: Option<Route>, now: Time)
  {
    var review, refresh := G.RouteId(command, G.Review), G.RouteId(command, G.Refresh);
    && (review in routes <==> t == LowRating) && (refresh in routes <==> t == StaleAnswer)
    && (review in routes ==> Fresh(routes[review], now) && route == Some(routes[review]))
    && (refresh in routes ==> Fresh(routes[refresh], now) && route == Some(routes[refresh]))
    && (review !in routes && refresh !in routes ==> route == None)
    && forall id | id != review && id != refresh :: (id in routes <==> id in before)
                                                    && (id in before ==> routes[id] == before[id])
  }

  /**
   A command not seen before is recorded exactly when its references resolve: one row, one route by its
   type, one audit row. Refused, it writes nothing.
   */
  lemma RecordDecides(d: Desk, input: FeedbackInput, actor: G.ActorId, wiki: Wiki, now: Time)
    requires DeskInv(d) && input.commandId !in d.feedback
    ensures var (d', r) := Record(d, input, actor, wiki, now);
            && (r.Recorded? <==> AllVisible(wiki, input) && OneTarget(wiki, input))
            && (!r.Recorded? ==>
                  d' == d && r == Unresolved(if AllVisible(wiki, input) then ReferenceMismatch else NotVisible))
            && (r.Recorded? ==>
                  && !r.replayed && TellsFeedback(r.signal, wiki, input, actor, now)
                  && d'.feedback == d.feedback[input.commandId := r.signal]
                  && RoutedAs(d'.routes, d.routes, input.commandId, input.signalType, r.route, now)
                  && d'.audit == d.audit + [RecordedRow(input.commandId, actor)])
  {
    ResolutionDecides(wiki, input);
    var review, refresh := G.RouteId(input.commandId, G.Review), G.RouteId(input.commandId, G.Refresh);
    assert review !in d.routes && refresh !in d.routes;
  }

  // ---------------------------------------------------------------- sweeping

  /** A row under a fresh lease of sixty seconds. */
  predicate Leased(r: Route, before: Route, token: string, now: Time) {
    && r.state.Running? && r.attempts == before.attempts + 1 && r.token == Some(token) && r.expires == Some(now + 60)
    && r.nextAttempt == None && r.outcome == None && r.reason == None && r.lastError == None && r.completedAt == None
    && r.createdAt == before.createdAt
  }

  /** A row whose attempts are used up. */
  predicate GivenUp(r: Route, before: Route, error: RouteError, now: Time) {
    && r.state.Failed? && r.attempts == before.attempts && r.reason == Some(RetryExhausted)
    && r.lastError == Some(error) && r.completedAt == Some(now)
    && r.nextAttempt == None && r.token == None && r.expires == None && r.outcome == None
    && r.createdAt == before.createdAt
  }

  /**
   Every selected row with an attempt left gets its token under a new lease; one without is given up,
   and told whether its last lease ran out or its budget was spent before.
   */
  lemma SweepDecides(q: Queue, batch: seq<(RouteId, string)>, now: Time, i: nat)
    requires Inv(q) && IsBatch(q, batch, now) && i < |batch|
    ensures var (id, token) := batch[i]; var q' := SweepAll(q, batch, now);
            && id in q.desk.routes && id in q'.desk.routes
            && var before, after := q.desk.routes[id], q'.desk.routes[id];
            && (before.attempts <= 2 ==> Leased(after, before, token, now))
            && (before.attempts >= 3 ==>
                  GivenUp(after, before, if before.state.Running? then LeaseExpired else BudgetExhausted, now))
  {
    SweepTreats(q, batch, |batch|, now, i);
    assert Shape(q.desk.routes[batch[i].0]);
  }

  /** The claim names the lease of the i-th selected row. */
  predicate IsClaimOf(claim: Claim, routes: map<RouteId, Route>, batch: seq<(RouteId, string)>, i: nat) {
    && i < |batch| && batch[i].0 in routes
    && claim.route == batch[i].0 && claim.token == batch[i].1
    && claim.attempts == routes[batch[i].0].attempts + 1 && claim.claimedFrom == routes[batch[i].0].state
    && routes[batch[i].0].attempts <= 2
  }

  lemma {:induction false} ClaimsAre(routes: map<RouteId, Route>, batch: seq<(RouteId, string)>, k: nat, claim: Claim)
    requires k <= |batch| && forall i | 0 <= i < |batch| :: batch[i].0 in routes
    ensures claim in ClaimsTo(routes, batch, k) <==> exists i: nat :: i < k && IsClaimOf(claim, routes, batch, i)
  {
    if k > 0 {
      ClaimsAre(routes, batch, k - 1, claim);
      var last: nat := k - 1;
      if IsClaimOf(claim, routes, batch, last) {
        assert claim in ClaimsTo(routes, batch, k);
      }
      if claim in ClaimsTo(routes, batch, k) && claim !in ClaimsTo(routes, batch, k - 1) {
        assert IsClaimOf(claim, routes, batch, last);
      }
    }
  }

  /** Every claim a sweep answers holds the lease of its row for sixty seconds, and every leased row has its claim. */
  lemma {:induction false} ClaimsHoldLeases(q: Queue, batch: seq<(RouteId, string)>, now: Time, claim: Claim, at: Time)
    requires Inv(q) && IsBatch(q, batch, now) && claim in ClaimsTo(q.desk.routes, batch, |batch|)
    ensures var routes := SweepAll(q, batch, now).desk.routes;
            && claim.route in routes && claim.attempts == routes[claim.route].attempts
            && (HoldsLease(routes[claim.route], claim, at) <==> at < now + 60)
  {
    ClaimsAre(q.desk.routes, batch, |batch|, claim);
    var i: nat :| i < |batch| && IsClaimOf(claim, q.desk.routes, batch, i);
    SweepDecides(q, batch, now, i);
  }

  /** A running row can be swept exactly from the moment on that nobody's claim holds its lease. */
  lemma DueIffLeaseEnded(q: Queue, id: RouteId, now: Time)
    requires Inv(q) && id in q.desk.routes && q.desk.routes[id].state.Running?
    ensures Due(q.desk.routes[id], now) <==> forall claim :: !HoldsLease(q.desk.routes[id], claim, now)
  {
    var r := q.desk.routes[id];
    assert Shape(r);
    if !Due(r, now) {
      assert HoldsLease(r, Claim(id, r.token.value, r.attempts, Queued), now);
    }
  }

  /** A new route can be swept from its creation on, and a finished one never. */
  lemma SweepableFrom(r: Route, created: Time, now: Time)
    ensures Fresh(r, created) ==> (Due(r, now) <==> created <= now)
    ensures Terminal(r) ==> !Due(r, now)
  {
  }

  // ---------------------------------------------------------------- executing

  /** The filter admits exactly the readers that carry the given values of the recorded context. */
  ghost predicate AdmitsLike(filter: AudienceFilter, c: AudienceContext) {
    forall reader: AudienceContext ::
      Matches(filter, reader) <==>
        && reader.visibility == c.visibility
        && (c.brand.Some? ==> reader.brand == c.brand) && (c.productLine.Some? ==> reader.productLine == c.productLine)
        && (c.plan.Some? ==> reader.plan == c.plan) && (c.region.Some? ==> reader.region == c.region)
        && (c.language.Some? ==> reader.language == c.language)
        && (c.productVersion.Some? ==> reader.productVersion == c.productVersion)
  }

  lemma SingleAdmits(given: Option<string>, value: Option<string>)
    ensures Single(given) == [] || (value.Some? && value.value in Single(given)) <==> (given.Some? ==> value == given)
  {
  }

  lemma FilterAdmitsReader(c: AudienceContext, reader: AudienceContext)
    ensures Matches(FilterOf(c), reader) <==>
        && reader.visibility == c.visibility
        && (c.brand.Some? ==> reader.brand == c.brand) && (c.productLine.Some? ==> reader.productLine == c.productLine)
        && (c.plan.Some? ==> reader.plan == c.plan) && (c.region.Some? ==> reader.region == c.region)
        && (c.language.Some? ==> reader.language == c.language)
        && (c.productVersion.Some? ==> reader.productVersion == c.productVersion)
  {
    var d, v := FilterOf(c).Dimensions(), reader.Values();
    forall i | 0 <= i < 6
      ensures d[i] == Single(c.Values()[i])
      ensures d[i] == [] || (v[i].Some? && v[i].value in d[i]) <==> (c.Values()[i].Some? ==> v[i] == c.Values()[i])
    {
      SingleAdmits(c.Values()[i], v[i]);
    }
    assert c.Values()[0] == c.brand && c.Values()[1] == c.productLine && c.Values()[2] == c.plan;
    assert c.Values()[3] == c.region && c.Values()[4] == c.language && c.Values()[5] == c.productVersion;
  }

  lemma FilterAdmits(c: AudienceContext)
    ensures AdmitsLike(FilterOf(c), c)
  {
    forall reader: AudienceContext
      ensures Matches(FilterOf(c), reader) <==>
        && reader.visibility == c.visibility
        && (c.brand.Some? ==> reader.brand == c.brand) && (c.productLine.Some? ==> reader.productLine == c.productLine)
        && (c.plan.Some? ==> reader.plan == c.plan) && (c.region.Some? ==> reader.region == c.region)
        && (c.language.Some? ==> reader.language == c.language)
        && (c.productVersion.Some? ==> reader.productVersion == c.productVersion)
    {
      FilterAdmitsReader(c, reader);
    }
  }

  /** What the created signal is about: the page the target stands on, for the readers who gave the feedback. */
  ghost predicate AboutTarget(s: G.Signal, f: FeedbackSignal, page: string, target: KnowledgeObject) {
    var i := s.identity;
    && i.objectRef == G.KnowledgeObjectRef(target.objectId) && i.title == target.title
    && i.objectType == target.objectType && i.pageId == Some(page)
    && i.sourceId == None && i.audienceBindingRef == None
    && i.audience.Some? && AdmitsLike(i.audience.value, f.audience)
  }

  /** What kind of work it asks for: a freshness check of a stale answer, a quality review of a low rating. */
  predicate AsksFor(s: G.Signal, t: FeedbackType) {
    var i := s.identity;
    && (i.signalType == G.StaleAnswerPressure <==> t == StaleAnswer)
    && (i.signalType == G.LowRatingPressure <==> t == LowRating)
    && (i.freshness == G.Stale <==> t == StaleAnswer) && (i.freshness == G.Unknown <==> t == LowRating)
    && i.summary == G.RouteSummary(i.signalType) && i.reason == G.RouteReason(i.signalType)
  }

  /** Where it comes from: the feedback and its route, seen when the feedback was given. */
  predicate TracesTo(s: G.Signal, f: FeedbackSignal, id: RouteId) {
    var i := s.identity;
    && i.triggers == [G.TypeLabel(i.signalType), G.FeedbackTrigger(id.command), G.RouteTrigger(id)]
    && i.affectedSurfaces == [G.FeedbackSurface, G.ReviewQueue] && i.evidenceType == G.ConsumptionFeedback
    && i.excerpt == G.RouteExcerpt(id) && i.evidenceRefs == []
    && s.observedAt == f.createdAt && s.createdBy == f.actor
    && s.status.Active? && s.resolvedAt == None && s.version == 1
  }

  /** A row that ended well. */
  predicate EndedWell(r: Route, before: Route, ref: G.SignalRef, now: Time) {
    && r.state.Completed? && r.attempts == before.attempts && r.outcome == Some(ref) && r.completedAt == Some(now)
    && r.nextAttempt == None && r.token == None && r.expires == None && r.reason == None && r.lastError == None
    && r.createdAt == before.createdAt
  }

  predicate Held(r: Route, before: Route, reason: TerminalReason, now: Time) {
    && r.state.Blocked? && r.attempts == before.attempts && r.reason == Some(reason) && r.completedAt == Some(now)
    && r.nextAttempt == None && r.token == None && r.expires == None && r.outcome == None && r.lastError == None
    && r.createdAt == before.createdAt
  }

  /** Only this route and the audit log of the desk change, the log by one row. */
  predicate OneRouteEnds(d: Desk, d': Desk, id: RouteId, actor: G.ActorId, outcome: AuditOutcome) {
    && d'.feedback == d.feedback && id in d'.routes && d'.routes == d.routes[id := d'.routes[id]]
    && d'.audit == d.audit + [TerminalRow(id, actor, outcome)]
  }

  lemma OnlyMappedFeedbackIsRouted(q: Queue, id: RouteId)
    requires Inv(q) && id in q.desk.routes
    ensures id.command in q.desk.feedback
    ensures var t := q.desk.feedback[id.command].signalType;
            (t == StaleAnswer <==> id.kind == G.Refresh) && (t == LowRating <==> id.kind == G.Review)
  {
    assert RoutesMatchPolicy(q.desk.feedback, q.desk.routes);
  }

  /**
   An owned execution of a route whose target stands creates the signal that its feedback asks for, about
   the page the target stands on, with its unassigned baseline, and ends the route with it.
   */
  lemma CompletionTells(q: Queue, claim: Claim, wiki: Wiki, now: Time)
    requires Inv(q) && claim.route in q.desk.routes && HoldsLease(q.desk.routes[claim.route], claim, now)
    requires claim.route.command in q.desk.feedback
    requires TargetStands(wiki, q.desk.feedback[claim.route.command])
    ensures var id, f := claim.route, q.desk.feedback[claim.route.command];
            var page := TargetPage(wiki, f).value;
            var (q', answer) := Execute(q, claim, wiki, now);
            var ref := G.FeedbackRouteRef(id);
            && ref !in q.gov.signals && ref in q'.gov.signals
            && AboutTarget(q'.gov.signals[ref], f, page, wiki.pages[page].value)
            && AsksFor(q'.gov.signals[ref], f.signalType) && TracesTo(q'.gov.signals[ref], f, id)
            && q'.gov.signals == q.gov.signals[ref := q'.gov.signals[ref]]
            && ref in q'.gov.assignments && q'.gov.assignments == q.gov.assignments[ref := q'.gov.assignments[ref]]
            && q.gov.events <= q'.gov.events && |q'.gov.events| == |q.gov.events| + 1
            && D.Baseline(q'.gov.assignments[ref], q'.gov.events[|q.gov.events|], ref, f.actor, now)
            && q'.gov.promotions == q.gov.promotions && q'.issued == q.issued
            && OneRouteEnds(q.desk, q'.desk, id, f.actor, AuditCompleted(ref))
            && EndedWell(q'.desk.routes[id], q.desk.routes[id], ref, now) && answer == Stored(q'.desk.routes[id])
  {
    var id, f := claim.route, q.desk.feedback[claim.route.command];
    OwnedExecutionDecides(q, claim, wiki, now);
    OnlyMappedFeedbackIsRouted(q, id);
    ResolvesIffStands(wiki, f);
    assert !IsCompleted(q, id);
    assert G.FeedbackRouteRef(id) !in q.gov.signals;
    var page := TargetPage(wiki, f).value;
    FilterAdmits(f.audience);
    D.CreateDecides(q.gov, RouteSignal(id, f, page, wiki.pages[page].value), f.actor, now);
  }

  /** The stored page and the page of the draft are two. */
  predicate PagesDisagree(wiki: Wiki, f: FeedbackSignal) {
    && f.draftId.Some? && f.draftId.value in wiki.drafts && wiki.drafts[f.draftId.value].Some?
    && f.pageId.Some? && f.pageId != wiki.drafts[f.draftId.value]
  }

  predicate DraftHasNoPage(wiki: Wiki, f: FeedbackSignal) {
    f.draftId.Some? && f.draftId.value in wiki.drafts && wiki.drafts[f.draftId.value].None?
  }

  /** Why a target does not stand. */
  function WhyNot(wiki: Wiki, f: FeedbackSignal): TerminalReason {
    var page := TargetPage(wiki, f);
    if DraftHasNoPage(wiki, f) then TargetNotMaterialized
    else if PagesDisagree(wiki, f) then TargetIdentityChanged
    else if page.None? || page.value !in wiki.pages then TargetRequired
    else if wiki.pages[page.value].None? then TargetIneligible
    else TargetIdentityChanged
  }

  /**
   An owned execution of a route whose target does not stand blocks it for that reason, and governance
   stays as it is.
   */
  lemma BlockTells(q: Queue, claim: Claim, wiki: Wiki, now: Time)
    requires Inv(q) && claim.route in q.desk.routes && HoldsLease(q.desk.routes[claim.route], claim, now)
    requires claim.route.command in q.desk.feedback
    requires !TargetStands(wiki, q.desk.feedback[claim.route.command])
    ensures var id, f := claim.route, q.desk.feedback[claim.route.command];
            var (q', answer) := Execute(q, claim, wiki, now);
            && q'.gov == q.gov && q'.issued == q.issued
            && OneRouteEnds(q.desk, q'.desk, id, f.actor, AuditBlocked(WhyNot(wiki, f)))
            && Held(q'.desk.routes[id], q.desk.routes[id], WhyNot(wiki, f), now) && answer == Stored(q'.desk.routes[id])
  {
    var id, f := claim.route, q.desk.feedback[claim.route.command];
    OwnedExecutionDecides(q, claim, wiki, now);
    OnlyMappedFeedbackIsRouted(q, id);
    ResolvesIffStands(wiki, f);
  }

  // ---------------------------------------------------------------- failing

  /** A row that waits for its next attempt. */
  predicate WaitsUntil(r: Route, before: Route, at: Time, error: RouteError) {
    && r.state.Queued? && r.attempts == before.attempts && r.nextAttempt == Some(at) && r.lastError == Some(error)
    && r.token == None && r.expires == None && r.outcome == None && r.reason == None && r.completedAt == None
    && r.createdAt == before.createdAt
  }

  /** Thirty seconds after the first attempt, sixty after the second. */
  lemma BackoffIs(attempts: nat)
    requires 1 <= attempts <= 2
    ensures Backoff(attempts) == 30 * attempts
  {
    assert Pow2(1) == 2 * Pow2(0);
  }

  /**
   A report of failure on an owned route puts it back for thirty seconds after its first attempt and sixty
   after its second, and gives it up after its third. A report without the lease writes nothing.
   */
  lemma FailureDecides(q: Queue, claim: Claim, error: RouteError, now: Time)
    requires Inv(q) && claim.route in q.desk.routes
    ensures claim.route.command in q.desk.feedback
    ensures var id, before := claim.route, q.desk.routes[claim.route];
            var (q', answer) := RecordFailure(q, claim, error, now);
            && id in q'.desk.routes && q'.gov == q.gov && q'.issued == q.issued
            && var after := q'.desk.routes[id];
            && (answer == LeaseLost <==> !Terminal(before) && !HoldsLease(before, claim, now))
            && (answer == AlreadyTerminal(before) <==> Terminal(before))
            && (answer.LeaseLost? || answer.AlreadyTerminal? ==> q' == q)
            && (HoldsLease(before, claim, now) ==>
                  && answer == Stored(after)
                  && (before.attempts <= 2 ==>
                        && WaitsUntil(after, before, now + 30 * before.attempts, error)
                        && q'.desk == q.desk.(routes := q.desk.routes[id := after]))
                  && (before.attempts >= 3 ==>
                        && GivenUp(after, before, error, now)
                        && OneRouteEnds(q.desk, q'.desk, id, q.desk.feedback[id.command].actor, AuditFailed)))
  {
    assert RoutesMatchPolicy(q.desk.feedback, q.desk.routes);
    var before := q.desk.routes[claim.route];
    assert Shape(before);
    if HoldsLease(before, claim, now) && before.attempts <= 2 { BackoffIs(before.attempts); }
  }

  /** A route that failed once or twice can be swept again exactly when its time of waiting is over. */
  lemma RequeuedIsDueLater(q: Queue, claim: Claim, error: RouteError, now: Time, later: Time)
    requires Inv(q) && claim.route in q.desk.routes && HoldsLease(q.desk.routes[claim.route], claim, now)
    requires q.desk.routes[claim.route].attempts <= 2
    ensures var routes := RecordFailure(q, claim, error, now).0.desk.routes;
            claim.route in routes
            && (Due(routes[claim.route], later) <==> later >= now + 30 * q.desk.routes[claim.route].attempts)
  {
    FailureDecides(q, claim, error, now);
  }
}
