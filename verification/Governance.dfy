/**
 Governance signals, review assignments and ticket-draft promotions as one table state
 (cygnus/governance/signals.py, review_assignments.py, ticket_draft_promotions.py).

 A row is identified by its unique key, a digest by the value it digests, and a
 transaction that raises leaves the state as it was.
 */
module Governance {
  import opened Wrappers
  import opened Audience
  import opened TicketRecords

  type Time = int
  type ActorId = string

  // ---------------------------------------------------------------- signals

  datatype RouteKind = Review | Refresh

  /** A feedback route is keyed by its feedback command and its kind. */
  datatype RouteId = RouteId(command: string, kind: RouteKind)

  datatype SignalRef =
    | FeedbackRouteRef(route: RouteId)
    | TicketImportRef(sourceRef: string, clusterKey: seq<string>)
    | NamedRef(name: string)

  datatype ObjectRef =
    | KnowledgeObjectRef(objectId: string)
    | TicketClusterRef(clusterSource: string, slug: string, key: seq<string>)

  datatype PressureType =
    | TicketCluster | HumanRewritePressure | SourceFailure | ReleaseDelta | IncidentDelta
    | LowRatingPressure | StaleAnswerPressure

  datatype EvidenceType =
    | ResolvedTicket | ChatTranscript | ReleaseNote | IncidentUpdate | ConsumptionFeedback | SourceDocument

  datatype Freshness = Fresh | Stale | Unknown

  /** Signal types and surfaces stand for the texts of their values. */
  datatype Trigger =
    | Label(text: string)
    | TypeLabel(signalType: PressureType)
    | ImportTrigger(digest: seq<TicketRecord>)
    | FeedbackTrigger(command: string)
    | RouteTrigger(route: RouteId)

  /** Prose built from a template keeps the values filled in. */
  datatype Prose =
    | Plain(text: string)
    | RouteSummary(forSummary: PressureType)
    | RouteReason(forReason: PressureType)
    | ClusterSummary(memberCount: nat, signature: string, feature: Option<string>, sourceRef: string)
    | ClusterReason(members: nat, minimum: int, digest: seq<TicketRecord>)
    | RouteExcerpt(route: RouteId)

  datatype Surface = FeedbackSurface | ReviewQueue | Copilot | OtherSurface(name: string)

  datatype EvidenceId = TicketEvidence(sourceRef: string, ticketId: string) | NamedEvidence(name: string)

  datatype EvidenceRef = EvidenceRef(evidenceId: EvidenceId, sourceRef: string, excerpt: Option<string>,
                                     observedAt: Option<Time>)

  /** Everything a signal reference is bound to, apart from the observation time. */
  datatype SignalIdentity = SignalIdentity(
      signalType: PressureType,
      objectRef: ObjectRef,
      title: string,
      objectType: string,
      pageId: Option<string>,
      sourceId: Option<string>,
      audienceBindingRef: Option<string>,
      audience: Option<AudienceFilter>,
      affectedSurfaces: seq<Surface>,
      triggers: seq<Trigger>,
      evidenceType: EvidenceType,
      freshness: Freshness,
      summary: Prose,
      reason: Prose,
      excerpt: Prose,
      evidenceRefs: seq<EvidenceRef>)

  datatype SignalInput = SignalInput(ref: SignalRef, identity: SignalIdentity, observedAt: Option<Time>)

  datatype SignalStatus = Active | Resolved | Dismissed

  datatype Signal = Signal(
      identity: SignalIdentity,
      observedAt: Time,
      status: SignalStatus,
      resolvedAt: Option<Time>,
      createdBy: ActorId,
      version: nat)

  predicate MatchesInput(signal: Signal, input: SignalInput) {
    signal.identity == input.identity && (input.observedAt.None? || signal.observedAt == input.observedAt.value)
  }

  // ---------------------------------------------------------------- assignments

  datatype OwnerState = Unassigned | Assigned | Escalated

  /** The changing part of an assignment row, which is also what a command answers. */
  datatype AssignmentView = AssignmentView(
      state: OwnerState,
      owner: Option<string>,
      escalationReason: Option<string>,
      version: nat,
      updatedAt: Time)

  datatype Assignment = Assignment(view: AssignmentView, createdAt: Time)

  datatype AssignmentAction = Assign | Escalate | Release

  /** The id of an initial event is made from the key drawn when its signal is inserted. */
  datatype CommandId = InitCommand(ref: SignalRef) | Given(text: string)

  datatype RawAssignmentCommand = RawAssignmentCommand(
      commandId: CommandId,
      action: AssignmentAction,
      owner: Option<string>,
      reason: string,
      expectedVersion: int)
  {
    /** The checks made when the command object is built. */
    predicate Valid() {
      && commandId != Given("") && reason != "" && expectedVersion >= 1
      && (action.Release? <==> owner.None?)
      && owner != Some("")
    }
  }

  type AssignmentCommand = c: RawAssignmentCommand | c.Valid()
    witness RawAssignmentCommand(Given("c"), Release, None, "r", 1)

  /** What the request fingerprint digests. */
  datatype Fingerprint =
    | InitPrint(ref: SignalRef)
    | CommandPrint(ref: SignalRef, action: AssignmentAction, owner: Option<string>, reason: string,
                   expectedVersion: int)

  datatype EventType = Initialized | AssignedEvent | ReassignedEvent | EscalatedEvent | ReleasedEvent

  /** The initial event carries a fixed note, every other event the reason its command gave. */
  datatype Event = Event(
      ref: SignalRef,
      sequence: nat,
      commandId: CommandId,
      fingerprint: Fingerprint,
      eventType: EventType,
      fromState: Option<OwnerState>,
      toState: OwnerState,
      actor: ActorId,
      owner: Option<string>,
      reason: Option<string>,
      occurredAt: Time)

  // ---------------------------------------------------------------- promotions

  datatype RawPromotionCommand = RawPromotionCommand(commandId: string, expectedAssignmentVersion: int,
                                                     reason: string) {
    predicate Valid() { commandId != "" && expectedAssignmentVersion >= 1 && reason != "" }
  }

  type PromotionCommand = c: RawPromotionCommand | c.Valid() witness RawPromotionCommand("c", 1, "r")

  datatype PromotionPrint = PromotionPrint(ref: SignalRef, expectedAssignmentVersion: int, reason: string,
                                           actor: ActorId)

  datatype Promotion = Promotion(
      ref: SignalRef,
      draftId: string,
      commandId: string,
      fingerprint: PromotionPrint,
      sourceSignalVersion: nat,
      expectedAssignmentVersion: int,
      actor: ActorId,
      reason: string,
      createdAt: Time)

  /** What compiling the signal's proposal bundle answers; that code is not part of this model. */
  datatype Proposal = Proposal(isCreate: bool, isSufficient: bool)

  // ---------------------------------------------------------------- state

  datatype State = State(
      signals: map<SignalRef, Signal>,
      assignments: map<SignalRef, Assignment>,
      events: seq<Event>,
      promotions: seq<Promotion>)

  const EMPTY := State(map[], map[], [], [])

  datatype Error = SignalConflict | AssignmentConflict | PromotionConflict | Ineligible

  /** `Missing` is the answer when the signal reference names no row. */
  datatype Outcome<+T> = Missing | Refused(error: Error) | Done(value: T)

  datatype AssignmentResult = AssignmentResult(view: AssignmentView, event: Event, replayed: bool)

  datatype PromotionResult = PromotionResult(promotion: Promotion, replayed: bool)

  function FindEvent(events: seq<Event>, id: CommandId): Option<Event> {
    if events == [] then None
    else if events[0].commandId == id then Some(events[0])
    else FindEvent(events[1..], id)
  }

  function FindPromotion(promotions: seq<Promotion>, id: string): Option<Promotion> {
    if promotions == [] then None
    else if promotions[0].commandId == id then Some(promotions[0])
    else FindPromotion(promotions[1..], id)
  }

  // ---------------------------------------------------------------- commands

  function InitView(now: Time): AssignmentView { AssignmentView(Unassigned, None, None, 1, now) }

  function InitEvent(ref: SignalRef, actor: ActorId, now: Time): Event {
    Event(ref, 1, InitCommand(ref), InitPrint(ref), Initialized, None, Unassigned, actor, None, None, now)
  }

  function NewSignal(input: SignalInput, actor: ActorId, now: Time): Signal {
    Signal(input.identity, if input.observedAt.Some? then input.observedAt.value else now, Active, None, actor, 1)
  }

  /** Persists a signal once, with its unassigned baseline, or returns its exact replay. */
  function CreateSignal(g: State, input: SignalInput, actor: ActorId, now: Time): (State, Result<Signal, Error>) {
    if input.ref in g.signals then
      if MatchesInput(g.signals[input.ref], input) then (g, Ok(g.signals[input.ref])) else (g, Err(SignalConflict))
    else
      var signal := NewSignal(input, actor, now);
      (g.(signals := g.signals[input.ref := signal],
          assignments := g.assignments[input.ref := Assignment(InitView(now), now)],
          events := g.events + [InitEvent(input.ref, actor, now)]),
       Ok(signal))
  }

  /** Resolves an active signal; an exact retry keeps the first resolution. */
  function ResolveSignal(g: State, ref: SignalRef, now: Time): (State, Outcome<Signal>) {
    if ref !in g.signals then (g, Missing)
    else
      var signal := g.signals[ref];
      if signal.status.Resolved? then (g, Done(signal))
      else if !signal.status.Active? then (g, Refused(SignalConflict))
      else
        var resolved := signal.(status := Resolved, resolvedAt := Some(now), version := signal.version + 1);
        (g.(signals := g.signals[ref := resolved]), Done(resolved))
  }

  datatype Move = Move(state: OwnerState, eventType: EventType, owner: Option<string>, escalationReason: Option<string>)

  /** Where a command wants the assignment to be. */
  function Target(command: AssignmentCommand): (OwnerState, Option<string>) {
    match command.action
    case Assign => (Assigned, command.owner)
    case Escalate => (Escalated, command.owner)
    case Release => (Unassigned, None)
  }

  /** The owner state machine: a command is refused exactly when the assignment already is where it leads. */
  function Transition(view: AssignmentView, command: AssignmentCommand): (m: Option<Move>)
    ensures view.state.Unassigned? ==> (m.None? <==> command.action.Release?)
    ensures (view.state.Unassigned? <==> view.owner.None?) ==>
            (m.None? <==> (view.state, view.owner) == Target(command))
    ensures m.Some? ==> (m.value.state, m.value.owner) == Target(command) != (view.state, view.owner)
    ensures m.Some? ==> m.value.escalationReason == if m.value.state.Escalated? then Some(command.reason) else None
    ensures m.Some? ==> (m.value.eventType.AssignedEvent? <==> view.state.Unassigned? && m.value.state.Assigned?)
  {
    match command.action
    case Assign =>
      if view.state.Assigned? && view.owner == command.owner then None
      else Some(Move(Assigned, if view.state.Unassigned? then AssignedEvent else ReassignedEvent, command.owner, None))
    case Escalate =>
      if view.state.Escalated? && view.owner == command.owner then None
      else Some(Move(Escalated, EscalatedEvent, command.owner, Some(command.reason)))
    case Release =>
      if view.state.Unassigned? then None else Some(Move(Unassigned, ReleasedEvent, None, None))
  }

  function PrintOf(ref: SignalRef, command: AssignmentCommand): Fingerprint {
    CommandPrint(ref, command.action, command.owner, command.reason, command.expectedVersion)
  }

  /** What an event says the assignment was right after it. */
  function EventView(e: Event): AssignmentView {
    AssignmentView(e.toState, e.owner, if e.toState.Escalated? then e.reason else None, e.sequence, e.occurredAt)
  }

  /** Runs or replays one assignment command. */
  function ApplyCommand(g: State, ref: SignalRef, command: AssignmentCommand, actor: ActorId, now: Time)
    : (State, Outcome<AssignmentResult>)
  {
    if ref !in g.signals || ref !in g.assignments then (g, Missing)
    else
      var view := g.assignments[ref].view;
      var existing := FindEvent(g.events, command.commandId);
      if existing.Some? then
        if existing.value.ref != ref || existing.value.fingerprint != PrintOf(ref, command)
        then (g, Refused(AssignmentConflict))
        else (g, Done(AssignmentResult(EventView(existing.value), existing.value, true)))
      else if !g.signals[ref].status.Active? then (g, Refused(AssignmentConflict))
      else if view.version != command.expectedVersion then (g, Refused(AssignmentConflict))
      else
        var move := Transition(view, command);
        if move.None? then (g, Refused(AssignmentConflict))
        else
          var view' := AssignmentView(move.value.state, move.value.owner, move.value.escalationReason,
                                      view.version + 1, now);
          var event := Event(ref, view.version + 1, command.commandId, PrintOf(ref, command), move.value.eventType,
                             Some(view.state), move.value.state, actor, move.value.owner, Some(command.reason), now);
          (g.(assignments := g.assignments[ref := g.assignments[ref].(view := view')], events := g.events + [event]),
           Done(AssignmentResult(view', event, false)))
  }

  predicate AtMostOne(values: seq<string>) { |values| <= 1 }

  /** A ticket cluster that an import backs and whose proposal may become a draft. */
  predicate BackedByImport(signal: Signal, proposal: Proposal) {
    var s := signal.identity;
    && s.signalType.TicketCluster?
    && s.pageId.None?
    && TypeLabel(TicketCluster) in s.triggers
    && (exists t | t in s.triggers :: t.ImportTrigger?)
    && s.evidenceType.ResolvedTicket?
    && |s.evidenceRefs| >= 2
    && s.audience.Some?
    && proposal.isCreate && proposal.isSufficient
  }

  /** The checks a ticket cluster passes before it becomes a draft for one audience. */
  predicate Eligible(signal: Signal, proposal: Proposal) {
    && BackedByImport(signal, proposal)
    && forall i | 0 <= i < 6 :: AtMostOne(signal.identity.audience.value.Dimensions()[i])
  }

  function PromotionPrintOf(ref: SignalRef, command: PromotionCommand, actor: ActorId): PromotionPrint {
    PromotionPrint(ref, command.expectedAssignmentVersion, command.reason, actor)
  }

  /** Turns one eligible ticket cluster into one draft and resolves its signal, or replays. */
  function Promote(g: State, ref: SignalRef, command: PromotionCommand, actor: ActorId,
                   proposal: Proposal, draftId: string, now: Time): (State, Outcome<PromotionResult>)
  {
    if ref !in g.signals || ref !in g.assignments then (g, Missing)
    else
      var signal := g.signals[ref];
      var existing := FindPromotion(g.promotions, command.commandId);
      if existing.Some? then
        if existing.value.ref != ref || existing.value.fingerprint != PromotionPrintOf(ref, command, actor)
        then (g, Refused(PromotionConflict))
        else (g, Done(PromotionResult(existing.value, true)))
      else if exists p | p in g.promotions :: p.ref == ref then (g, Refused(PromotionConflict))
      else if !signal.status.Active? then (g, Refused(PromotionConflict))
      else if g.assignments[ref].view.version != command.expectedAssignmentVersion then (g, Refused(PromotionConflict))
      else if !Eligible(signal, proposal) then (g, Refused(Ineligible))
      else
        var promotion := Promotion(ref, draftId, command.commandId, PromotionPrintOf(ref, command, actor),
                                   signal.version, command.expectedAssignmentVersion, actor, command.reason, now);
        (ResolveSignal(g.(promotions := g.promotions + [promotion]), ref, now).0,
         Done(PromotionResult(promotion, false)))
  }

  /** Nobody can name the initial command of a signal whose key is still to be drawn. */
  predicate Drawn(g: State, id: CommandId) {
    id.InitCommand? ==> id.ref in g.signals
  }

  // ---------------------------------------------------------------- invariant

  /** The events of one assignment, oldest first. */
  function History(events: seq<Event>, ref: SignalRef): seq<Event> {
    if events == [] then []
    else
      var last := events[|events| - 1];
      History(events[..|events| - 1], ref) + (if last.ref == ref then [last] else [])
  }

  lemma HistoryAppend(events: seq<Event>, e: Event, ref: SignalRef)
    ensures History(events + [e], ref) == History(events, ref) + (if e.ref == ref then [e] else [])
  {
    assert (events + [e])[..|events|] == events;
  }

  predicate Initial(e: Event) {
    e.sequence == 1 && e.fromState.None? && e.toState.Unassigned? && e.owner.None?
  }

  /** `e` continues the log that ends in `before`, and changes state or owner. */
  predicate Follows(before: Event, e: Event) {
    && e.sequence == before.sequence + 1
    && e.fromState == Some(before.toState)
    && (e.toState, e.owner) != (before.toState, before.owner)
    && (e.toState.Unassigned? <==> e.owner.None?)
  }

  predicate WellFormedHistory(h: seq<Event>) {
    && h != []
    && if |h| == 1 then Initial(h[0])
       else WellFormedHistory(h[..|h| - 1]) && Follows(h[|h| - 2], h[|h| - 1])
  }

  /** The state a log of events builds, event by event. */
  function Fold(h: seq<Event>): AssignmentView
    requires h != []
  {
    var e := h[|h| - 1];
    var sequence := if |h| == 1 then 1 else Fold(h[..|h| - 1]).version + 1;
    AssignmentView(e.toState, e.owner, if e.toState.Escalated? then e.reason else None, sequence, e.occurredAt)
  }

  predicate LogAgrees(h: seq<Event>, view: AssignmentView) {
    WellFormedHistory(h) && view == Fold(h)
  }

  ghost predicate LogsAgree(g: State) {
    forall ref | ref in g.assignments :: LogAgrees(History(g.events, ref), g.assignments[ref].view)
  }

  ghost predicate UniqueCommands(events: seq<Event>) {
    forall i, j | 0 <= i < j < |events| :: events[i].commandId != events[j].commandId
  }

  ghost predicate UniquePromotions(promotions: seq<Promotion>) {
    forall i, j | 0 <= i < j < |promotions| ::
      promotions[i].commandId != promotions[j].commandId && promotions[i].ref != promotions[j].ref
  }

  /** A promoted signal is closed and its assignment stands where the promotion saw it. */
  ghost predicate Frozen(g: State, p: Promotion) {
    && p.ref in g.signals && p.ref in g.assignments
    && g.signals[p.ref].status.Resolved?
    && g.signals[p.ref].version == p.sourceSignalVersion + 1
    && g.assignments[p.ref].view.version == p.expectedAssignmentVersion
  }

  /** Signals and assignments come in pairs, and events and their command ids belong to them. */
  ghost predicate Linked(g: State) {
    && g.signals.Keys == g.assignments.Keys
    && forall e | e in g.events :: e.ref in g.signals && Drawn(g, e.commandId)
  }

  ghost predicate AllFrozen(g: State) {
    forall p | p in g.promotions :: Frozen(g, p)
  }

  ghost predicate Inv(g: State) {
    Linked(g) && LogsAgree(g) && UniqueCommands(g.events) && UniquePromotions(g.promotions) && AllFrozen(g)
  }

  // ---------------------------------------------------------------- runs

  /** One committed transaction of the command layer. */
  datatype Step =
    | CreateStep(input: SignalInput, actor: ActorId, now: Time)
    | ResolveStep(ref: SignalRef, now: Time)
    | AssignStep(ref: SignalRef, command: AssignmentCommand, actor: ActorId, now: Time)
    | PromoteStep(ref: SignalRef, promotion: PromotionCommand, actor: ActorId, proposal: Proposal, draftId: string,
                  now: Time)

  function Apply(g: State, step: Step): State {
    match step
    case CreateStep(input, actor, now) => CreateSignal(g, input, actor, now).0
    case ResolveStep(ref, now) => ResolveSignal(g, ref, now).0
    case AssignStep(ref, command, actor, now) =>
      if Drawn(g, command.commandId) then ApplyCommand(g, ref, command, actor, now).0 else g
    case PromoteStep(ref, command, actor, proposal, draftId, now) =>
      Promote(g, ref, command, actor, proposal, draftId, now).0
  }

  function Run(g: State, steps: seq<Step>): State
    decreases steps
  {
    if steps == [] then g else Run(Apply(g, steps[0]), steps[1..])
  }

  lemma {:induction false} RunAppend(g: State, steps: seq<Step>, last: Step)
    ensures Run(g, steps + [last]) == Apply(Run(g, steps), last)
    decreases steps
  {
    if steps == [] {
      assert Run(Apply(g, last), []) == Apply(g, last);
    } else {
      assert (steps + [last])[1..] == steps[1..] + [last];
      RunAppend(Apply(g, steps[0]), steps[1..], last);
    }
  }

  lemma {:induction false} FoldIsLastEvent(h: seq<Event>)
    requires WellFormedHistory(h)
    ensures Fold(h) == EventView(h[|h| - 1])
    ensures Fold(h).version == |h|
  {
    if |h| > 1 { FoldIsLastEvent(h[..|h| - 1]); }
  }

  /** A log that agrees with its row still does after the row takes one more event. */
  lemma LogTakesEvent(h: seq<Event>, view: AssignmentView, e: Event)
    requires LogAgrees(h, view)
    requires e.sequence == view.version + 1 && e.fromState == Some(view.state)
    requires (e.toState, e.owner) != (view.state, view.owner)
    requires e.toState.Unassigned? <==> e.owner.None?
    ensures LogAgrees(h + [e], EventView(e))
  {
    FoldIsLastEvent(h);
    assert (h + [e])[..|h|] == h;
  }

  /** Appending one event for one assignment leaves every other log alone. */
  lemma AppendKeepsLogs(g: State, g': State, e: Event)
    requires LogsAgree(g) && g'.events == g.events + [e]
    requires forall ref | ref in g'.assignments && ref != e.ref ::
               ref in g.assignments && g'.assignments[ref] == g.assignments[ref]
    requires e.ref in g'.assignments ==> LogAgrees(History(g.events, e.ref) + [e], g'.assignments[e.ref].view)
    ensures LogsAgree(g')
  {
    forall ref | ref in g'.assignments
      ensures LogAgrees(History(g'.events, ref), g'.assignments[ref].view)
    {
      HistoryAppend(g.events, e, ref);
      assert History(g.events, ref) + [] == History(g.events, ref);
    }
  }

  lemma {:induction false} NoEventsNoHistory(events: seq<Event>, ref: SignalRef)
    requires forall e | e in events :: e.ref != ref
    ensures History(events, ref) == []
  {
    if events != [] { NoEventsNoHistory(events[..|events| - 1], ref); }
  }

  lemma {:induction false} FindEventMeaning(events: seq<Event>, id: CommandId)
    ensures FindEvent(events, id).None? <==> forall e | e in events :: e.commandId != id
    ensures FindEvent(events, id).Some? ==>
              FindEvent(events, id).value in events && FindEvent(events, id).value.commandId == id
  {
    if events != [] { FindEventMeaning(events[1..], id); }
  }

  lemma {:induction false} FindPromotionMeaning(promotions: seq<Promotion>, id: string)
    ensures FindPromotion(promotions, id).None? <==> forall p | p in promotions :: p.commandId != id
    ensures FindPromotion(promotions, id).Some? ==>
              FindPromotion(promotions, id).value in promotions && FindPromotion(promotions, id).value.commandId == id
  {
    if promotions != [] { FindPromotionMeaning(promotions[1..], id); }
  }

  lemma CreateKeepsLogs(g: State, input: SignalInput, actor: ActorId, now: Time)
    requires Linked(g) && LogsAgree(g)
    ensures LogsAgree(CreateSignal(g, input, actor, now).0)
  {
    var g' := CreateSignal(g, input, actor, now).0;
    if g'.events != g.events {
      NoEventsNoHistory(g.events, input.ref);
      AppendKeepsLogs(g, g', InitEvent(input.ref, actor, now));
    }
  }

  lemma CreateKeepsFrozen(g: State, input: SignalInput, actor: ActorId, now: Time)
    requires AllFrozen(g)
    ensures AllFrozen(CreateSignal(g, input, actor, now).0)
  {
    var g' := CreateSignal(g, input, actor, now).0;
    assert forall p | p in g'.promotions :: Frozen(g, p);
  }

  lemma AppendKeepsUnique(events: seq<Event>, e: Event)
    requires UniqueCommands(events) && FindEvent(events, e.commandId).None?
    ensures UniqueCommands(events + [e])
  {
    FindEventMeaning(events, e.commandId);
  }

  lemma CreateKeepsInv(g: State, input: SignalInput, actor: ActorId, now: Time)
    requires Inv(g)
    ensures Inv(CreateSignal(g, input, actor, now).0)
  {
    CreateKeepsLogs(g, input, actor, now);
    CreateKeepsFrozen(g, input, actor, now);
    if input.ref !in g.signals {
      FindEventMeaning(g.events, InitCommand(input.ref));
      AppendKeepsUnique(g.events, InitEvent(input.ref, actor, now));
    }
  }

  lemma SameTablesSameLogs(g: State, g': State)
    requires LogsAgree(g) && g'.assignments == g.assignments && g'.events == g.events
    ensures LogsAgree(g')
  {
  }

  lemma ResolveKeepsFrozen(g: State, ref: SignalRef, now: Time)
    requires AllFrozen(g)
    ensures AllFrozen(ResolveSignal(g, ref, now).0)
  {
    var g' := ResolveSignal(g, ref, now).0;
    assert forall p | p in g'.promotions :: Frozen(g, p);
  }

  lemma ResolveKeepsInv(g: State, ref: SignalRef, now: Time)
    requires Inv(g)
    ensures Inv(ResolveSignal(g, ref, now).0)
  {
    ResolveKeepsFrozen(g, ref, now);
    SameTablesSameLogs(g, ResolveSignal(g, ref, now).0);
  }

  lemma AssignKeepsLogs(g: State, ref: SignalRef, command: AssignmentCommand, actor: ActorId, now: Time)
    requires LogsAgree(g)
    ensures LogsAgree(ApplyCommand(g, ref, command, actor, now).0)
  {
    var (g', r) := ApplyCommand(g, ref, command, actor, now);
    if g'.events != g.events {
      var h, view, e := History(g.events, ref), g.assignments[ref].view, r.value.event;
      FoldIsLastEvent(h);
      assert LogAgrees(h, view);
      LogTakesEvent(h, view, e);
      AppendKeepsLogs(g, g', e);
    }
  }

  lemma AssignKeepsFrozen(g: State, ref: SignalRef, command: AssignmentCommand, actor: ActorId, now: Time)
    requires AllFrozen(g)
    ensures AllFrozen(ApplyCommand(g, ref, command, actor, now).0)
  {
    var g' := ApplyCommand(g, ref, command, actor, now).0;
    assert forall p | p in g'.promotions :: Frozen(g, p);
  }

  lemma AssignKeepsKeys(g: State, ref: SignalRef, command: AssignmentCommand, actor: ActorId, now: Time)
    requires Drawn(g, command.commandId) && Linked(g) && UniqueCommands(g.events) && UniquePromotions(g.promotions)
    ensures var g' := ApplyCommand(g, ref, command, actor, now).0;
            Linked(g') && UniqueCommands(g'.events) && UniquePromotions(g'.promotions)
  {
    var (g', r) := ApplyCommand(g, ref, command, actor, now);
    if g'.events != g.events {
      AppendKeepsUnique(g.events, r.value.event);
    }
  }

  lemma AssignKeepsInv(g: State, ref: SignalRef, command: AssignmentCommand, actor: ActorId, now: Time)
    requires Inv(g) && Drawn(g, command.commandId)
    ensures Inv(ApplyCommand(g, ref, command, actor, now).0)
  {
    AssignKeepsLogs(g, ref, command, actor, now);
    AssignKeepsFrozen(g, ref, command, actor, now);
    AssignKeepsKeys(g, ref, command, actor, now);
  }

  lemma PromoteKeepsFrozen(g: State, ref: SignalRef, command: PromotionCommand, actor: ActorId,
                           proposal: Proposal, draftId: string, now: Time)
    requires AllFrozen(g)
    ensures AllFrozen(Promote(g, ref, command, actor, proposal, draftId, now).0)
  {
    assert forall p | p in g.promotions :: Frozen(g, p);
  }

  lemma PromoteKeepsKeys(g: State, ref: SignalRef, command: PromotionCommand, actor: ActorId,
                         proposal: Proposal, draftId: string, now: Time)
    requires Linked(g) && UniquePromotions(g.promotions)
    ensures var g' := Promote(g, ref, command, actor, proposal, draftId, now).0;
            && Linked(g') && UniquePromotions(g'.promotions)
            && g'.assignments == g.assignments && g'.events == g.events
  {
    FindPromotionMeaning(g.promotions, command.commandId);
  }

  lemma PromoteKeepsInv(g: State, ref: SignalRef, command: PromotionCommand, actor: ActorId,
                        proposal: Proposal, draftId: string, now: Time)
    requires Inv(g)
    ensures Inv(Promote(g, ref, command, actor, proposal, draftId, now).0)
  {
    PromoteKeepsFrozen(g, ref, command, actor, proposal, draftId, now);
    PromoteKeepsKeys(g, ref, command, actor, proposal, draftId, now);
    SameTablesSameLogs(g, Promote(g, ref, command, actor, proposal, draftId, now).0);
  }

  /** Every transaction keeps the invariant of all three tables. */
  lemma StepKeepsInv(g: State, step: Step)
    requires Inv(g)
    ensures Inv(Apply(g, step))
  {
    match step
    case CreateStep(input, actor, now) => CreateKeepsInv(g, input, actor, now);
    case ResolveStep(ref, now) => ResolveKeepsInv(g, ref, now);
    case AssignStep(ref, command, actor, now) =>
      if Drawn(g, command.commandId) { AssignKeepsInv(g, ref, command, actor, now); }
    case PromoteStep(ref, command, actor, proposal, draftId, now) =>
      PromoteKeepsInv(g, ref, command, actor, proposal, draftId, now);
  }

  lemma {:induction false} RunKeepsInv(g: State, steps: seq<Step>)
    requires Inv(g)
    ensures Inv(Run(g, steps))
    decreases steps
  {
    if steps != [] {
      StepKeepsInv(g, steps[0]);
      RunKeepsInv(Apply(g, steps[0]), steps[1..]);
    }
  }

  lemma EmptyInv()
    ensures Inv(EMPTY)
  {
  }

  /** What no later transaction can take back from one signal. */
  predicate SignalExtends(g: State, later: State, ref: SignalRef) {
    && (ref in g.signals ==>
          && ref in later.signals
          && later.signals[ref].identity == g.signals[ref].identity
          && later.signals[ref].observedAt == g.signals[ref].observedAt
          && (!g.signals[ref].status.Active? ==> later.signals[ref] == g.signals[ref]))
    && (ref in g.assignments ==> ref in later.assignments)
    && (ref in g.signals && ref in g.assignments && !g.signals[ref].status.Active? ==>
          later.assignments[ref] == g.assignments[ref])
  }

  /** Events and promotions are only appended, signals keep what they are bound to. */
  ghost predicate Extends(g: State, later: State) {
    && g.events <= later.events
    && g.promotions <= later.promotions
    && forall ref :: SignalExtends(g, later, ref)
  }

  lemma StepExtends(g: State, step: Step)
    requires g.signals.Keys == g.assignments.Keys
    ensures Extends(g, Apply(g, step))
  {
  }

  lemma {:induction false} RunExtends(g: State, steps: seq<Step>)
    requires Inv(g)
    ensures Extends(g, Run(g, steps))
    decreases steps
  {
    if steps != [] {
      var g1 := Apply(g, steps[0]);
      StepKeepsInv(g, steps[0]);
      StepExtends(g, steps[0]);
      RunExtends(g1, steps[1..]);
      ExtendsTransitive(g, g1, Run(g1, steps[1..]));
    }
  }

  lemma ExtendsTransitive(a: State, b: State, c: State)
    requires Extends(a, b) && Extends(b, c)
    ensures Extends(a, c)
  {
    forall ref
      ensures SignalExtends(a, c, ref)
    {
      assert SignalExtends(a, b, ref) && SignalExtends(b, c, ref);
    }
  }

  // ---------------------------------------------------------------- main results

  lemma {:induction false} FindUniqueEvent(events: seq<Event>, e: Event)
    requires UniqueCommands(events) && e in events
    ensures FindEvent(events, e.commandId) == Some(e)
  {
    if events[0] != e {
      var i :| 0 <= i < |events| && events[i] == e;
      assert events[1..][i - 1] == e;
      FindUniqueEvent(events[1..], e);
    }
  }

  lemma {:induction false} FindUniquePromotion(promotions: seq<Promotion>, p: Promotion)
    requires UniquePromotions(promotions) && p in promotions
    ensures FindPromotion(promotions, p.commandId) == Some(p)
  {
    if promotions[0] != p {
      var i :| 0 <= i < |promotions| && promotions[i] == p;
      assert promotions[1..][i - 1] == p;
      FindUniquePromotion(promotions[1..], p);
    }
  }

  lemma SpentCommandReplays(g: State, ref: SignalRef, command: AssignmentCommand, e: Event, actor: ActorId, now: Time)
    requires UniqueCommands(g.events) && e in g.events && ref in g.signals && ref in g.assignments
    requires e.commandId == command.commandId && e.ref == ref && e.fingerprint == PrintOf(ref, command)
    ensures ApplyCommand(g, ref, command, actor, now) == (g, Done(AssignmentResult(EventView(e), e, true)))
  {
    FindUniqueEvent(g.events, e);
  }

  /** An accepted command left an event that carries its fingerprint and its answer. */
  lemma AcceptedCommandLeavesEvent(g: State, ref: SignalRef, command: AssignmentCommand, actor: ActorId, now: Time)
    requires ApplyCommand(g, ref, command, actor, now).1.Done?
    ensures var (g1, r) := ApplyCommand(g, ref, command, actor, now); var e := r.value.event;
            && e in g1.events && ref in g1.signals && ref in g1.assignments
            && e.commandId == command.commandId && e.ref == ref && e.fingerprint == PrintOf(ref, command)
            && r.value.view == EventView(e)
  {
    FindEventMeaning(g.events, command.commandId);
  }

  /**
   Replay as time travel: once a command was accepted, the same command in any later state
   answers the assignment it first answered, and writes nothing.
   */
  lemma ReplayIsTimeTravel(g: State, ref: SignalRef, command: AssignmentCommand, actor: ActorId, now: Time,
                           later: seq<Step>, actor': ActorId, now': Time)
    requires Inv(g) && Drawn(g, command.commandId)
    requires ApplyCommand(g, ref, command, actor, now).1.Done?
    ensures var (g1, first) := ApplyCommand(g, ref, command, actor, now);
            var g2 := Run(g1, later);
            ApplyCommand(g2, ref, command, actor', now')
            == (g2, Done(AssignmentResult(first.value.view, first.value.event, true)))
  {
    var (g1, first) := ApplyCommand(g, ref, command, actor, now);
    AssignKeepsInv(g, ref, command, actor, now);
    AcceptedCommandLeavesEvent(g, ref, command, actor, now);
    RunKeepsInv(g1, later);
    RunExtends(g1, later);
    var g2 := Run(g1, later);
    assert SignalExtends(g1, g2, ref);
    SpentCommandReplays(g2, ref, command, first.value.event, actor', now');
  }

  /** Any other use of a spent command id is refused and writes nothing. */
  lemma SpentCommandIdIsRefused(g: State, e: Event, ref: SignalRef, command: AssignmentCommand, actor: ActorId,
                                now: Time)
    requires Inv(g) && e in g.events && ref in g.signals
    requires command.commandId == e.commandId
    requires e.ref != ref || e.fingerprint != PrintOf(ref, command)
    ensures ApplyCommand(g, ref, command, actor, now) == (g, Refused(AssignmentConflict))
  {
    FindUniqueEvent(g.events, e);
  }

  /** The well-formed log in plain terms: sequence 1..n, chained states, and no idle event. */
  lemma {:induction false} HistoryIsGapFree(h: seq<Event>)
    requires WellFormedHistory(h)
    ensures forall i | 0 <= i < |h| :: h[i].sequence == i + 1
    ensures Initial(h[0])
    ensures forall i, j | 0 <= i && j == i + 1 < |h| ::
              h[j].fromState == Some(h[i].toState) && (h[j].toState, h[j].owner) != (h[i].toState, h[i].owner)
  {
    if |h| > 1 {
      var front := h[..|h| - 1];
      HistoryIsGapFree(front);
      assert forall i | 0 <= i < |front| :: front[i] == h[i];
      assert Follows(front[|front| - 1], h[|h| - 1]);
    }
  }

  /** In every reachable state the assignment row is the fold of its gap-free event log. */
  lemma RowIsFoldOfLog(steps: seq<Step>, ref: SignalRef)
    requires ref in Run(EMPTY, steps).assignments
    ensures var g := Run(EMPTY, steps); var h := History(g.events, ref);
            && WellFormedHistory(h)
            && g.assignments[ref].view == Fold(h)
            && g.assignments[ref].view.version == |h|
  {
    EmptyInv();
    RunKeepsInv(EMPTY, steps);
    var h := History(Run(EMPTY, steps).events, ref);
    assert LogAgrees(h, Run(EMPTY, steps).assignments[ref].view);
    FoldIsLastEvent(h);
  }

  lemma UniquePromotionKeys(promotions: seq<Promotion>, p: Promotion, q: Promotion)
    requires UniquePromotions(promotions) && p in promotions && q in promotions
    requires q.ref == p.ref || q.commandId == p.commandId
    ensures q == p
  {
    var i :| 0 <= i < |promotions| && promotions[i] == p;
    var j :| 0 <= j < |promotions| && promotions[j] == q;
    assert i == j;
  }

  /** A promotion stays, and with it the signal row, the assignment row and the two keys it used. */
  lemma PromotionFreezesReview(g: State, p: Promotion, later: seq<Step>)
    requires Inv(g) && p in g.promotions
    ensures var g2 := Run(g, later);
            && p in g2.promotions && Frozen(g, p) && Frozen(g2, p)
            && g2.signals[p.ref] == g.signals[p.ref]
            && g2.assignments[p.ref] == g.assignments[p.ref]
            && forall q | q in g2.promotions && (q.ref == p.ref || q.commandId == p.commandId) :: q == p
  {
    RunKeepsInv(g, later);
    RunExtends(g, later);
    var g2 := Run(g, later);
    assert p in g2.promotions && SignalExtends(g, g2, p.ref);
    forall q | q in g2.promotions && (q.ref == p.ref || q.commandId == p.commandId)
      ensures q == p
    {
      UniquePromotionKeys(g2.promotions, p, q);
    }
  }

  lemma AcceptedPromotionIsRecorded(g: State, ref: SignalRef, command: PromotionCommand, actor: ActorId,
                                    proposal: Proposal, draftId: string, now: Time)
    requires Promote(g, ref, command, actor, proposal, draftId, now).1.Done?
    ensures var (g1, r) := Promote(g, ref, command, actor, proposal, draftId, now); var p := r.value.promotion;
            && p in g1.promotions && ref in g1.signals && ref in g1.assignments
            && p.ref == ref && p.commandId == command.commandId
            && p.fingerprint == PromotionPrintOf(ref, command, actor)
  {
    FindPromotionMeaning(g.promotions, command.commandId);
  }

  lemma RecordedPromotionAnswers(g: State, p: Promotion, command: PromotionCommand, actor: ActorId, proposal: Proposal,
                                 draftId: string, now: Time)
    requires UniquePromotions(g.promotions) && p in g.promotions && p.ref in g.signals && p.ref in g.assignments
    ensures p.commandId == command.commandId && p.fingerprint == PromotionPrintOf(p.ref, command, actor) ==>
              Promote(g, p.ref, command, actor, proposal, draftId, now) == (g, Done(PromotionResult(p, true)))
    ensures p.commandId != command.commandId || p.fingerprint != PromotionPrintOf(p.ref, command, actor) ==>
              Promote(g, p.ref, command, actor, proposal, draftId, now) == (g, Refused(PromotionConflict))
  {
    FindPromotionMeaning(g.promotions, command.commandId);
    var found := FindPromotion(g.promotions, command.commandId);
    if found.Some? {
      if found.value.ref == p.ref || found.value.commandId == p.commandId {
        UniquePromotionKeys(g.promotions, p, found.value);
      }
      FindUniquePromotion(g.promotions, p);
    }
  }

  /** A promotion command is answered alike for ever, and a promoted signal takes no other command. */
  lemma PromotionReplays(g: State, ref: SignalRef, command: PromotionCommand, actor: ActorId, proposal: Proposal,
                         draftId: string, now: Time, later: seq<Step>,
                         command': PromotionCommand, actor': ActorId, proposal': Proposal, draftId': string, now': Time)
    requires Inv(g)
    requires Promote(g, ref, command, actor, proposal, draftId, now).1.Done?
    ensures var (g1, first) := Promote(g, ref, command, actor, proposal, draftId, now);
            var g2 := Run(g1, later);
            Promote(g2, ref, command', actor', proposal', draftId', now')
            == (g2, if command' == command && actor' == actor
                    then Done(PromotionResult(first.value.promotion, true)) else Refused(PromotionConflict))
  {
    var (g1, first) := Promote(g, ref, command, actor, proposal, draftId, now);
    PromoteKeepsInv(g, ref, command, actor, proposal, draftId, now);
    AcceptedPromotionIsRecorded(g, ref, command, actor, proposal, draftId, now);
    RunKeepsInv(g1, later);
    RunExtends(g1, later);
    var g2 := Run(g1, later);
    assert SignalExtends(g1, g2, ref);
    RecordedPromotionAnswers(g2, first.value.promotion, command', actor', proposal', draftId', now');
  }
}
