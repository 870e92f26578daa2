/** The governance tables as the command functions update them, row by row. */
module GovernanceStores {
  import opened Wrappers
  import opened Governance

  class GovernanceStore {
    var signals: map<SignalRef, Signal>
    var assignments: map<SignalRef, Assignment>
    var events: seq<Event>
    var promotions: seq<Promotion>

    function View(): State
      reads this
    {
      State(signals, assignments, events, promotions)
    }

    constructor ()
      ensures View() == EMPTY && Inv(View())
    {
      signals, assignments, events, promotions := map[], map[], [], [];
      new;
      EmptyInv();
    }

    /** The explicit unassigned baseline of a new signal. */
    method InitializeReviewAssignment(ref: SignalRef, actor: ActorId, now: Time)
      modifies this`assignments, this`events
      ensures assignments == old(assignments)[ref := Assignment(InitView(now), now)]
      ensures events == old(events) + [InitEvent(ref, actor, now)]
    {
      assignments := assignments[ref := Assignment(AssignmentView(Unassigned, None, None, 1, now), now)];
      events := events + [Event(ref, 1, InitCommand(ref), InitPrint(ref), Initialized, None, Unassigned, actor, None,
                                None, now)];
    }

    method CreateGovernanceSignal(input: SignalInput, actor: ActorId, now: Time) returns (r: Result<Signal, Error>)
      modifies this
      ensures (View(), r) == CreateSignal(old(View()), input, actor, now)
      ensures old(Inv(View())) ==> Inv(View())
    {
      if Inv(View()) { CreateKeepsInv(View(), input, actor, now); }
      if input.ref in signals {
        if !MatchesInput(signals[input.ref], input) {
          return Err(SignalConflict);
        }
        return Ok(signals[input.ref]);
      }
      var observedAt := now;
      if input.observedAt.Some? {
        observedAt := input.observedAt.value;
      }
      var signal := Signal(input.identity, observedAt, Active, None, actor, 1);
      signals := signals[input.ref := signal];
      InitializeReviewAssignment(input.ref, actor, now);
      return Ok(signal);
    }

    method ResolveGovernanceSignal(ref: SignalRef, now: Time) returns (r: Outcome<Signal>)
      modifies this`signals
      ensures (View(), r) == ResolveSignal(old(View()), ref, now)
      ensures old(Inv(View())) ==> Inv(View())
    {
      if Inv(View()) { ResolveKeepsInv(View(), ref, now); }
      if ref !in signals {
        return Missing;
      }
      var signal := signals[ref];
      if signal.status.Resolved? {
        return Done(signal);
      }
      if !signal.status.Active? {
        return Refused(SignalConflict);
      }
      signal := signal.(status := Resolved, resolvedAt := Some(now));
      signal := signal.(version := signal.version + 1);
      signals := signals[ref := signal];
      return Done(signal);
    }

    method ApplyReviewAssignmentCommand(ref: SignalRef, command: AssignmentCommand, actor: ActorId, now: Time)
      returns (r: Outcome<AssignmentResult>)
      modifies this`assignments, this`events
      ensures (View(), r) == ApplyCommand(old(View()), ref, command, actor, now)
      ensures old(Inv(View()) && Drawn(View(), command.commandId)) ==> Inv(View())
    {
      if Inv(View()) && Drawn(View(), command.commandId) { AssignKeepsInv(View(), ref, command, actor, now); }
      if ref !in signals || ref !in assignments {
        return Missing;
      }
      var existing := FindEvent(events, command.commandId);
      if existing.Some? {
        var event := existing.value;
        if event.ref != ref || event.fingerprint != PrintOf(ref, command) {
          return Refused(AssignmentConflict);
        }
        return Done(AssignmentResult(EventView(event), event, true));
      }
      if !signals[ref].status.Active? {
        return Refused(AssignmentConflict);
      }
      var assignment := assignments[ref];
      if assignment.view.version != command.expectedVersion {
        return Refused(AssignmentConflict);
      }
      var fromState := assignment.view.state;
      var move := Transition(assignment.view, command);
      if move.None? {
        return Refused(AssignmentConflict);
      }
      var row := assignment.view;
      row := row.(state := move.value.state);
      row := row.(owner := move.value.owner);
      row := row.(escalationReason := move.value.escalationReason);
      row := row.(version := row.version + 1);
      row := row.(updatedAt := now);
      assignments := assignments[ref := assignment.(view := row)];
      var event := Event(ref, row.version, command.commandId, PrintOf(ref, command), move.value.eventType,
                         Some(fromState), row.state, actor, row.owner, Some(command.reason), now);
      events := events + [event];
      return Done(AssignmentResult(row, event, false));
    }

    method PromoteTicketCluster(ref: SignalRef, command: PromotionCommand, actor: ActorId,
                                proposal: Proposal, draftId: string, now: Time)
      returns (r: Outcome<PromotionResult>)
      modifies this`signals, this`promotions
      ensures (View(), r) == Promote(old(View()), ref, command, actor, proposal, draftId, now)
      ensures old(Inv(View())) ==> Inv(View())
    {
      if Inv(View()) { PromoteKeepsInv(View(), ref, command, actor, proposal, draftId, now); }
      if ref !in signals || ref !in assignments {
        return Missing;
      }
      var signal, assignment := signals[ref], assignments[ref];
      var existing := FindPromotion(promotions, command.commandId);
      if existing.Some? {
        if existing.value.ref != ref || existing.value.fingerprint != PromotionPrintOf(ref, command, actor) {
          return Refused(PromotionConflict);
        }
        return Done(PromotionResult(existing.value, true));
      }
      if exists p | p in promotions :: p.ref == ref {
        return Refused(PromotionConflict);
      }
      if !signal.status.Active? {
        return Refused(PromotionConflict);
      }
      if assignment.view.version != command.expectedAssignmentVersion {
        return Refused(PromotionConflict);
      }
      if !Eligible(signal, proposal) {
        return Refused(Ineligible);
      }
      var sourceSignalVersion := signal.version;
      var promotion := Promotion(ref, draftId, command.commandId, PromotionPrintOf(ref, command, actor),
                                 sourceSignalVersion, command.expectedAssignmentVersion, actor, command.reason, now);
      promotions := promotions + [promotion];
      var resolved := ResolveGovernanceSignal(ref, now);
      return Done(PromotionResult(promotion, false));
    }
  }
}
