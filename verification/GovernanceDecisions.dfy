/**
 What one governance command decides and writes, told by the rows it meets
 (cygnus/governance/signals.py, review_assignments.py, ticket_draft_promotions.py).
 */
module GovernanceDecisions {
  import opened Wrappers
  import opened Audience
  import opened Governance

  // ---------------------------------------------------------------- assignments

  /** In a table state that keeps the invariant, an assignment has an owner exactly when it is not unassigned. */
  lemma OwnedUnlessUnassigned(g: State, ref: SignalRef)
    requires Inv(g) && ref in g.assignments
    ensures g.assignments[ref].view.state.Unassigned? <==> g.assignments[ref].view.owner.None?
  {
    var h := History(g.events, ref);
    assert LogAgrees(h, g.assignments[ref].view);
    FoldIsLastEvent(h);
  }

  /** The state and owner a command asks for; a release names no owner. */
  predicate AskedFor(state: OwnerState, owner: Option<string>, command: AssignmentCommand) {
    && (state.Assigned? <==> command.action.Assign?) && (state.Escalated? <==> command.action.Escalate?)
    && (state.Unassigned? <==> command.action.Release?)
    && owner == command.owner
  }

  /** The one event an accepted command appends. */
  predicate TellsAssignment(e: Event, ref: SignalRef, before: AssignmentView, command: AssignmentCommand,
                            actor: ActorId, now: Time)
  {
    && e.ref == ref && e.commandId == command.commandId && e.sequence == command.expectedVersion + 1
    && e.fromState == Some(before.state) && AskedFor(e.toState, e.owner, command)
    && e.actor == actor && e.reason == Some(command.reason) && e.occurredAt == now
    && (e.eventType.AssignedEvent? <==> command.action.Assign? && before.state.Unassigned?)
    && (e.eventType.ReassignedEvent? <==> command.action.Assign? && !before.state.Unassigned?)
    && (e.eventType.EscalatedEvent? <==> command.action.Escalate?)
    && (e.eventType.ReleasedEvent? <==> command.action.Release?)
    && e.fingerprint == CommandPrint(ref, command.action, command.owner, command.reason, command.expectedVersion)
  }

  /** The row an accepted command leaves. */
  predicate Moved(row: Assignment, before: Assignment, command: AssignmentCommand, now: Time) {
    && row.createdAt == before.createdAt
    && AskedFor(row.view.state, row.view.owner, command)
    && row.view.version == command.expectedVersion + 1 && row.view.updatedAt == now
    && row.view.escalationReason == (if command.action.Escalate? then Some(command.reason) else None)
  }

  /**
   The optimistic lock: a new command on a stored signal is accepted exactly when the signal is active,
   the row stands at the expected version, and the command leads somewhere else. It then writes its row
   and one event; in every other case it is refused and writes nothing.
   */
  lemma AssignDecides(g: State, ref: SignalRef, command: AssignmentCommand, actor: ActorId, now: Time)
    requires Inv(g) && ref in g.signals
    requires forall e | e in g.events :: e.commandId != command.commandId
    ensures ref in g.assignments
    ensures var (g', r) := ApplyCommand(g, ref, command, actor, now);
            var before := g.assignments[ref];
            && (r.Done? <==>
                  && g.signals[ref].status.Active? && before.view.version == command.expectedVersion
                  && !AskedFor(before.view.state, before.view.owner, command))
            && (!r.Done? ==> r == Refused(AssignmentConflict) && g' == g)
            && (r.Done? ==>
                  && !r.value.replayed
                  && g'.signals == g.signals && g'.promotions == g.promotions
                  && g'.events == g.events + [r.value.event]
                  && TellsAssignment(r.value.event, ref, before.view, command, actor, now)
                  && ref in g'.assignments && g'.assignments == g.assignments[ref := g'.assignments[ref]]
                  && Moved(g'.assignments[ref], before, command, now)
                  && r.value.view == g'.assignments[ref].view)
  {
    FindEventMeaning(g.events, command.commandId);
    OwnedUnlessUnassigned(g, ref);
  }

  /** A reference without a signal is answered with nothing and writes nothing. */
  lemma UnknownSignalIsMissing(g: State, ref: SignalRef, command: AssignmentCommand, promotion: PromotionCommand,
                               actor: ActorId, proposal: Proposal, draftId: string, now: Time)
    requires Inv(g)
    ensures ApplyCommand(g, ref, command, actor, now).1.Missing? <==> ref !in g.signals
    ensures Promote(g, ref, promotion, actor, proposal, draftId, now).1.Missing? <==> ref !in g.signals
    ensures ResolveSignal(g, ref, now).1.Missing? <==> ref !in g.signals
    ensures ref !in g.signals ==>
              && ApplyCommand(g, ref, command, actor, now).0 == g && ResolveSignal(g, ref, now).0 == g
              && Promote(g, ref, promotion, actor, proposal, draftId, now).0 == g
  {
  }

  // ---------------------------------------------------------------- promotions

  /** What the signal and its proposal must show, clause by clause. */
  ghost predicate MayBecomeDraft(signal: Signal, proposal: Proposal) {
    var s := signal.identity;
    && s.signalType == TicketCluster && s.pageId == None
    && TypeLabel(TicketCluster) in s.triggers && (exists digest :: ImportTrigger(digest) in s.triggers)
    && s.evidenceType == ResolvedTicket && |s.evidenceRefs| >= 2
    && proposal.isCreate && proposal.isSufficient
    && s.audience.Some?
    && |s.audience.value.brands| <= 1 && |s.audience.value.productLines| <= 1 && |s.audience.value.plans| <= 1
    && |s.audience.value.regions| <= 1 && |s.audience.value.languages| <= 1
    && |s.audience.value.productVersions| <= 1
  }

  lemma EligibleIff(signal: Signal, proposal: Proposal)
    ensures Eligible(signal, proposal) <==> MayBecomeDraft(signal, proposal)
  {
    var s := signal.identity;
    if s.audience.Some? {
      var d := s.audience.value.Dimensions();
      assert AtMostOne(d[0]) <==> |s.audience.value.brands| <= 1;
      assert AtMostOne(d[1]) <==> |s.audience.value.productLines| <= 1;
      assert AtMostOne(d[2]) <==> |s.audience.value.plans| <= 1;
      assert AtMostOne(d[3]) <==> |s.audience.value.regions| <= 1;
      assert AtMostOne(d[4]) <==> |s.audience.value.languages| <= 1;
      assert AtMostOne(d[5]) <==> |s.audience.value.productVersions| <= 1;
    }
    if exists t :: t in s.triggers && t.ImportTrigger? {
      var t :| t in s.triggers && t.ImportTrigger?;
      assert ImportTrigger(t.digest) in s.triggers;
    }
  }

  /** The one promotion an accepted command stores. */
  predicate TellsPromotion(p: Promotion, ref: SignalRef, signal: Signal, command: PromotionCommand, actor: ActorId,
                           draftId: string, now: Time)
  {
    && p.ref == ref && p.draftId == draftId && p.commandId == command.commandId
    && p.reason == command.reason && p.actor == actor && p.createdAt == now
    && p.sourceSignalVersion == signal.version && p.expectedAssignmentVersion == command.expectedAssignmentVersion
    && p.fingerprint == PromotionPrint(ref, command.expectedAssignmentVersion, command.reason, actor)
  }

  /** The signal as a resolution leaves it. */
  predicate Closed(signal: Signal, before: Signal, now: Time) {
    && signal.identity == before.identity && signal.observedAt == before.observedAt
    && signal.createdBy == before.createdBy
    && signal.status.Resolved? && signal.resolvedAt == Some(now) && signal.version == before.version + 1
  }

  predicate Unpromoted(g: State, ref: SignalRef) { forall p | p in g.promotions :: p.ref != ref }

  /**
   A new command on a stored signal is accepted exactly when the signal is active and unpromoted, its
   assignment stands at the expected version, and it may become a draft. It then stores one promotion
   and closes the signal; in every other case it writes nothing, and an ineligible signal is told apart
   from a conflict.
   */
  lemma PromoteDecides(g: State, ref: SignalRef, command: PromotionCommand, actor: ActorId,
                       proposal: Proposal, draftId: string, now: Time)
    requires Inv(g) && ref in g.signals
    requires forall p | p in g.promotions :: p.commandId != command.commandId
    ensures ref in g.assignments
    ensures var (g', r) := Promote(g, ref, command, actor, proposal, draftId, now);
            var signal := g.signals[ref];
            var free := signal.status.Active? && Unpromoted(g, ref)
                        && g.assignments[ref].view.version == command.expectedAssignmentVersion;
            && (r.Done? <==> free && MayBecomeDraft(signal, proposal))
            && (!r.Done? ==> g' == g && r == Refused(if free then Ineligible else PromotionConflict))
            && (r.Done? ==>
                  && !r.value.replayed
                  && g'.promotions == g.promotions + [r.value.promotion]
                  && TellsPromotion(r.value.promotion, ref, signal, command, actor, draftId, now)
                  && g'.assignments == g.assignments && g'.events == g.events
                  && ref in g'.signals && g'.signals == g.signals[ref := g'.signals[ref]]
                  && Closed(g'.signals[ref], signal, now))
  {
    FindPromotionMeaning(g.promotions, command.commandId);
    EligibleIff(g.signals[ref], proposal);
  }

  // ---------------------------------------------------------------- signals

  /** A new signal as its input says it, active and in its first version. */
  predicate TellsSignal(signal: Signal, input: SignalInput, actor: ActorId, now: Time) {
    && signal.identity == input.identity
    && signal.observedAt == (if input.observedAt.Some? then input.observedAt.value else now)
    && signal.status.Active? && signal.resolvedAt == None && signal.createdBy == actor && signal.version == 1
  }

  /** The unassigned baseline of a new signal. */
  predicate Baseline(row: Assignment, e: Event, ref: SignalRef, actor: ActorId, now: Time) {
    && row.createdAt == now && row.view.state.Unassigned? && row.view.owner == None
    && row.view.escalationReason == None && row.view.version == 1 && row.view.updatedAt == now
    && e.ref == ref && e.sequence == 1 && e.eventType.Initialized? && e.fromState == None && e.toState.Unassigned?
    && e.commandId == InitCommand(ref) && e.fingerprint == InitPrint(ref)
    && e.actor == actor && e.owner == None && e.reason == None && e.occurredAt == now
  }

  /**
   A free reference gets its signal, its baseline and one event; a bound one answers its signal exactly
   when nothing about it differs, and otherwise conflicts. Nothing else changes.
   */
  lemma CreateDecides(g: State, input: SignalInput, actor: ActorId, now: Time)
    ensures var (g', r) := CreateSignal(g, input, actor, now); var ref := input.ref;
            && (ref in g.signals ==>
                  var s := g.signals[ref];
                  && g' == g
                  && (r.Ok? <==> s.identity == input.identity
                                 && (input.observedAt.Some? ==> input.observedAt == Some(s.observedAt)))
                  && r == (if r.Ok? then Ok(s) else Err(SignalConflict)))
            && (ref !in g.signals ==>
                  && r.Ok? && TellsSignal(r.value, input, actor, now)
                  && g'.signals == g.signals[ref := r.value] && g'.promotions == g.promotions
                  && ref in g'.assignments && g'.assignments == g.assignments[ref := g'.assignments[ref]]
                  && |g'.events| == |g.events| + 1 && g.events <= g'.events
                  && Baseline(g'.assignments[ref], g'.events[|g.events|], ref, actor, now))
  {
  }

  /** An active signal is closed, a resolved one answers its first resolution, a dismissed one conflicts. */
  lemma ResolveDecides(g: State, ref: SignalRef, now: Time)
    requires ref in g.signals
    ensures var (g', r) := ResolveSignal(g, ref, now); var s := g.signals[ref];
            && (s.status.Active? ==>
                  && r.Done? && Closed(r.value, s, now) && g' == g.(signals := g.signals[ref := r.value]))
            && (s.status.Resolved? ==> r == Done(s) && g' == g)
            && (s.status.Dismissed? ==> r == Refused(SignalConflict) && g' == g)
  {
  }
}
