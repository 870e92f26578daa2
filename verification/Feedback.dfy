/**
 Consumption feedback: recording, replay recognition and routing
 (cygnus/governance/feedback.py, feedback_routing.py,
 cygnus/integrations/governed_feedback_tools.py).
 */
module Feedback {
  import opened Wrappers
  import opened Audience
  import opened Governance

  datatype FeedbackType = AnswerAccepted | HumanRewrite | Escalation | LowRating | UnsupportedAnswer | StaleAnswer

  /** One normalised command. The governed tool never passes a page id of its own. */
  datatype FeedbackInput = FeedbackInput(
      commandId: string,
      signalType: FeedbackType,
      audience: AudienceContext,
      objectId: Option<string>,
      pageId: Option<string>,
      draftId: Option<string>,
      notes: Option<string>,
      sourceContext: Option<string>)

  /** What the request fingerprint digests. */
  datatype FeedbackPrint = FeedbackPrint(
      actor: ActorId,
      signalType: FeedbackType,
      audience: AudienceContext,
      objectId: Option<string>,
      pageId: Option<string>,
      draftId: Option<string>,
      notes: Option<string>,
      sourceContext: Option<string>)

  /** A durable feedback row; the table holds one per command id. */
  datatype FeedbackSignal = FeedbackSignal(
      fingerprint: FeedbackPrint,
      signalType: FeedbackType,
      actor: ActorId,
      audience: AudienceContext,
      objectId: Option<string>,
      pageId: Option<string>,
      draftId: Option<string>,
      notes: Option<string>,
      sourceContext: Option<string>,
      createdAt: Time)

  datatype RouteState = Queued | Running | Completed | Blocked | Failed

  datatype TerminalReason =
    | TargetRequired | TargetNotMaterialized | TargetIneligible | TargetIdentityChanged
    | RoutePolicyChanged | RetryExhausted

  /** Why the last attempt of a route did not end well. */
  datatype RouteError = LeaseExpired | BudgetExhausted | Reported(text: string)

  /** A durable route row, keyed by the command and kind it serves. */
  datatype Route = Route(
      state: RouteState,
      attempts: nat,
      nextAttempt: Option<Time>,
      token: Option<string>,
      expires: Option<Time>,
      outcome: Option<SignalRef>,
      reason: Option<TerminalReason>,
      lastError: Option<RouteError>,
      completedAt: Option<Time>,
      createdAt: Time)

  datatype KnowledgeObject = KnowledgeObject(objectId: string, title: string, objectType: string)

  /**
   The wiki as one transaction sees it: the page of every draft, and the knowledge object of
   every page, if the page is eligible. Projecting a page is not part of this model.
   */
  datatype Wiki = Wiki(drafts: map<string, Option<string>>, pages: map<string, Option<KnowledgeObject>>)

  datatype AuditOutcome = AuditCompleted(ref: SignalRef) | AuditBlocked(blockReason: TerminalReason) | AuditFailed

  datatype AuditRow =
    | RecordedRow(command: string, author: ActorId)
    | TerminalRow(route: RouteId, actor: ActorId, outcome: AuditOutcome)

  /** The frozen routing policy. */
  function RouteKindOf(t: FeedbackType): Option<RouteKind> {
    match t
    case LowRating => Some(Review)
    case StaleAnswer => Some(Refresh)
    case _ => None
  }

  function PrintOf(input: FeedbackInput, actor: ActorId): FeedbackPrint {
    FeedbackPrint(actor, input.signalType, input.audience, input.objectId, input.pageId, input.draftId,
                  input.notes, input.sourceContext)
  }

  function NewFeedback(input: FeedbackInput, actor: ActorId, now: Time): FeedbackSignal {
    FeedbackSignal(PrintOf(input, actor), input.signalType, actor, input.audience, input.objectId, input.pageId,
                   input.draftId, input.notes, input.sourceContext, now)
  }

  function NewRoute(now: Time): Route {
    Route(Queued, 0, Some(now), None, None, None, None, None, None, now)
  }

  /** Fills in what reference resolution filled in when the command was first stored. */
  function ReplayCandidate(existing: FeedbackSignal, input: FeedbackInput): FeedbackInput {
    var objectId := if input.objectId.None? && input.draftId.Some? then existing.objectId else input.objectId;
    var pageId := if input.pageId.None? && objectId == existing.objectId && input.draftId == existing.draftId
                  then existing.pageId else input.pageId;
    input.(objectId := objectId, pageId := pageId)
  }

  datatype Replay = Unseen | Replayed(signal: FeedbackSignal) | Conflicting

  function ReplayFeedback(feedback: map<string, FeedbackSignal>, input: FeedbackInput, actor: ActorId): Replay {
    if input.commandId !in feedback then Unseen
    else
      var existing := feedback[input.commandId];
      if existing.fingerprint != PrintOf(ReplayCandidate(existing, input), actor) then Conflicting
      else Replayed(existing)
  }

  /** The page a governed object reference names, if it is visible and still projects to it. */
  function ScopedObject(wiki: Wiki, objectId: string): Option<string> {
    if |objectId| < 8 || objectId[..8] != "ko-page-" then None
    else
      var page := objectId[8..];
      if page in wiki.pages && wiki.pages[page].Some? && wiki.pages[page].value.objectId == objectId
      then Some(page) else None
  }

  /** The page of a visible draft; `None` when the draft or its page cannot be used. */
  function ScopedDraft(wiki: Wiki, draftId: string): Option<Option<string>> {
    if draftId !in wiki.drafts then None
    else
      var page := wiki.drafts[draftId];
      if page.Some? && (page.value !in wiki.pages || wiki.pages[page.value].None?) then None else Some(page)
  }

  function DraftObjectId(wiki: Wiki, page: Option<string>): Option<string> {
    if page.Some? && page.value in wiki.pages && wiki.pages[page.value].Some?
    then Some(wiki.pages[page.value].value.objectId) else None
  }

  datatype ReferenceError = NotVisible | ReferenceMismatch

  /** Resolves the object and draft references of a new command to one page. */
  function ResolveReferences(wiki: Wiki, input: FeedbackInput): Result<FeedbackInput, ReferenceError> {
    var page := if input.objectId.Some? then ScopedObject(wiki, input.objectId.value) else None;
    if input.objectId.Some? && page.None? then Err(NotVisible)
    else if input.draftId.None? then Ok(input.(pageId := page))
    else
      var draft := ScopedDraft(wiki, input.draftId.value);
      if draft.None? then Err(NotVisible)
      else
        var draftPage := draft.value;
        if page.Some? && draftPage != page then Err(ReferenceMismatch)
        else
          var draftObject := DraftObjectId(wiki, draftPage);
          if input.objectId.Some? && input.objectId != draftObject then Err(ReferenceMismatch)
          else Ok(input.(objectId := draftObject, pageId := if page.Some? then page else draftPage))
  }

  // ---------------------------------------------------------------- recording

  datatype Desk = Desk(feedback: map<string, FeedbackSignal>, routes: map<RouteId, Route>, audit: seq<AuditRow>)

  datatype RecordOutcome =
    | Recorded(signal: FeedbackSignal, route: Option<Route>, replayed: bool)
    | IdempotencyConflict
    | Unresolved(error: ReferenceError)
    | RouteConflict

  /** Creates the mapped route of a new signal, or finds the route of a replayed one. */
  function RouteFeedback(routes: map<RouteId, Route>, command: string, t: FeedbackType, replayed: bool, now: Time)
    : Option<(map<RouteId, Route>, Option<Route>)>
  {
    var review, refresh := RouteId(command, Review), RouteId(command, Refresh);
    if review in routes && refresh in routes then None
    else
      var kind := RouteKindOf(t);
      if review in routes || refresh in routes then
        var existing := if review in routes then review else refresh;
        if kind != Some(existing.kind) then None else Some((routes, Some(routes[existing])))
      else if kind.None? then Some((routes, None))
      else if replayed then None
      else
        var id := RouteId(command, kind.value);
        Some((routes[id := NewRoute(now)], Some(NewRoute(now))))
  }

  /** Records one feedback command with its route and audit row, or replays it. */
  function Record(d: Desk, input: FeedbackInput, actor: ActorId, wiki: Wiki, now: Time): (Desk, RecordOutcome) {
    match ReplayFeedback(d.feedback, input, actor)
    case Conflicting => (d, IdempotencyConflict)
    case Replayed(signal) =>
      var routed := RouteFeedback(d.routes, input.commandId, signal.signalType, true, now);
      if routed.None? then (d, RouteConflict) else (d, Recorded(signal, routed.value.1, true))
    case Unseen =>
      match ResolveReferences(wiki, input)
      case Err(error) => (d, Unresolved(error))
      case Ok(resolved) =>
        var signal := NewFeedback(resolved, actor, now);
        var routed := RouteFeedback(d.routes, input.commandId, signal.signalType, false, now);
        if routed.None? then (d, RouteConflict)
        else
          (Desk(d.feedback[input.commandId := signal], routed.value.0, d.audit + [RecordedRow(input.commandId, actor)]),
           Recorded(signal, routed.value.1, false))
  }

  // ---------------------------------------------------------------- invariant

  /** The stored fingerprint is the digest of the stored columns. */
  predicate Faithful(s: FeedbackSignal) {
    s.fingerprint == FeedbackPrint(s.actor, s.signalType, s.audience, s.objectId, s.pageId, s.draftId, s.notes,
                                   s.sourceContext)
  }

  /** Every feedback row has exactly the routes the policy gives it, and no route stands alone. */
  ghost predicate RoutesMatchPolicy(feedback: map<string, FeedbackSignal>, routes: map<RouteId, Route>) {
    forall id: RouteId :: id in routes <==>
      id.command in feedback && RouteKindOf(feedback[id.command].signalType) == Some(id.kind)
  }

  ghost predicate DeskInv(d: Desk) {
    && (forall c | c in d.feedback :: Faithful(d.feedback[c]))
    && RoutesMatchPolicy(d.feedback, d.routes)
  }

  lemma RecordKeepsDesk(d: Desk, input: FeedbackInput, actor: ActorId, wiki: Wiki, now: Time)
    requires DeskInv(d)
    ensures DeskInv(Record(d, input, actor, wiki, now).0)
  {
    if ReplayFeedback(d.feedback, input, actor).Unseen? && ResolveReferences(wiki, input).Ok? {
      RoutingFollowsPolicy(d, input.commandId, NewFeedback(ResolveReferences(wiki, input).value, actor, now), now);
    }
  }

  /** Routing a new signal adds exactly the route its type is mapped to, and never fails. */
  lemma RoutingFollowsPolicy(d: Desk, command: string, signal: FeedbackSignal, now: Time)
    requires DeskInv(d) && command !in d.feedback
    ensures var routed := RouteFeedback(d.routes, command, signal.signalType, false, now);
            && routed.Some?
            && RoutesMatchPolicy(d.feedback[command := signal], routed.value.0)
            && routed.value.1.Some? == RouteKindOf(signal.signalType).Some?
            && (forall id | id in d.routes :: id in routed.value.0 && routed.value.0[id] == d.routes[id])
            && (forall id | id in routed.value.0 && id !in d.routes :: routed.value.0[id] == NewRoute(now))
  {
    assert RouteId(command, Review) !in d.routes && RouteId(command, Refresh) !in d.routes;
  }

  /** Stored feedback and routes stay; a new command adds itself, its fresh route and one audit row. */
  ghost predicate OnlyAdds(d: Desk, d': Desk, command: string, actor: ActorId, now: Time) {
    && (forall c | c in d.feedback :: c in d'.feedback && d'.feedback[c] == d.feedback[c])
    && (forall id | id in d.routes :: id in d'.routes && d'.routes[id] == d.routes[id])
    && (forall id | id in d'.routes && id !in d.routes :: d'.routes[id] == NewRoute(now))
    && d'.audit == d.audit
                   + (if command in d'.feedback && command !in d.feedback then [RecordedRow(command, actor)] else [])
  }

  /** Recording never changes what is stored. */
  lemma RecordOnlyAdds(d: Desk, input: FeedbackInput, actor: ActorId, wiki: Wiki, now: Time)
    requires DeskInv(d)
    ensures OnlyAdds(d, Record(d, input, actor, wiki, now).0, input.commandId, actor, now)
  {
    if ReplayFeedback(d.feedback, input, actor).Unseen? && ResolveReferences(wiki, input).Ok? {
      RoutingFollowsPolicy(d, input.commandId, NewFeedback(ResolveReferences(wiki, input).value, actor, now), now);
    }
  }

  /** A replayed signal always finds the one route its type is mapped to. */
  lemma ReplayFindsRoute(d: Desk, command: string, now: Time)
    requires DeskInv(d) && command in d.feedback
    ensures var kind := RouteKindOf(d.feedback[command].signalType);
            RouteFeedback(d.routes, command, d.feedback[command].signalType, true, now)
            == Some((d.routes, if kind.Some? then Some(d.routes[RouteId(command, kind.value)]) else None))
  {
    var signal := d.feedback[command];
    assert RouteId(command, Review) in d.routes <==> RouteKindOf(signal.signalType) == Some(Review);
    assert RouteId(command, Refresh) in d.routes <==> RouteKindOf(signal.signalType) == Some(Refresh);
  }

  // ---------------------------------------------------------------- main results

  /** The raw command says the same as the stored row, up to what resolution filled in. */
  predicate SameCommand(s: FeedbackSignal, input: FeedbackInput, actor: ActorId) {
    && s.actor == actor && s.signalType == input.signalType && s.audience == input.audience
    && s.notes == input.notes && s.sourceContext == input.sourceContext && s.draftId == input.draftId
    && (s.objectId == input.objectId || (input.objectId.None? && input.draftId.Some?))
  }

  /** A spent command id is replayed exactly for the same command; any other use conflicts, and neither writes. */
  lemma ReplayIffSameCommand(d: Desk, input: FeedbackInput, actor: ActorId, wiki: Wiki, now: Time)
    requires DeskInv(d) && input.commandId in d.feedback && input.pageId.None?
    ensures var s := d.feedback[input.commandId]; var kind := RouteKindOf(s.signalType);
            Record(d, input, actor, wiki, now)
            == (d, if SameCommand(s, input, actor)
                   then Recorded(s, if kind.Some? then Some(d.routes[RouteId(input.commandId, kind.value)])
                                 else None, true)
                   else IdempotencyConflict)
  {
    var s := d.feedback[input.commandId];
    assert Faithful(s);
    ReplayFindsRoute(d, input.commandId, now);
  }

  /** A command stored with resolved references is recognised from its raw form in every later state. */
  lemma RawCommandIsRecognised(d: Desk, input: FeedbackInput, actor: ActorId, wiki: Wiki, now: Time,
                               later: Desk, wiki': Wiki, now': Time)
    requires DeskInv(d) && input.pageId.None?
    requires Record(d, input, actor, wiki, now).1.Recorded?
    requires DeskInv(later)
    requires var d1 := Record(d, input, actor, wiki, now).0;
             input.commandId in later.feedback && later.feedback[input.commandId] == d1.feedback[input.commandId]
    ensures var first := Record(d, input, actor, wiki, now).1; var again := Record(later, input, actor, wiki', now');
            && again.0 == later && again.1.Recorded? && again.1.replayed
            && again.1.signal == first.signal && again.1.route.Some? == first.route.Some?
  {
    RecordKeepsDesk(d, input, actor, wiki, now);
    if input.commandId in d.feedback {
      ReplayIffSameCommand(d, input, actor, wiki, now);
    } else {
      RoutingFollowsPolicy(d, input.commandId, NewFeedback(ResolveReferences(wiki, input).value, actor, now), now);
    }
    ReplayIffSameCommand(later, input, actor, wiki', now');
  }
}
