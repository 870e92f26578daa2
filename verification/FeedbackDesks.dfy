/**
 The feedback functions as they overwrite rows (cygnus/governance/feedback_execution.py,
 cygnus/integrations/governed_feedback_tools.py), proved against the state machine.
 */
module FeedbackDesks {
  import opened Wrappers
  import opened Feedback
  import opened FeedbackExecution
  import G = Governance
  import opened GovernanceStores

  /** One route row; the protocol overwrites its columns in place. */
  class FeedbackRoute {
    var state: RouteState
    var attempts: nat
    var nextAttempt: Option<Time>
    var token: Option<string>
    var expires: Option<Time>
    var outcome: Option<G.SignalRef>
    var reason: Option<TerminalReason>
    var lastError: Option<RouteError>
    var completedAt: Option<Time>
    const createdAt: Time

    function Snapshot(): Route
      reads this
    {
      Route(state, attempts, nextAttempt, token, expires, outcome, reason, lastError, completedAt, createdAt)
    }

    constructor (now: Time)
      ensures Snapshot() == NewRoute(now)
    {
      state, attempts := Queued, 0;
      nextAttempt, token, expires := Some(now), None, None;
      outcome, reason, lastError, completedAt := None, None, None, None;
      createdAt := now;
    }

    method Lease(leaseToken: string, now: Time)
      modifies this
      ensures Snapshot() == Claimed(old(Snapshot()), leaseToken, now)
    {
      state := Running;
      attempts := attempts + 1;
      nextAttempt := None;
      token := Some(leaseToken);
      expires := Some(now + LEASE_SECONDS);
      outcome := None;
      reason := None;
      lastError := None;
      completedAt := None;
    }

    method Complete(ref: G.SignalRef, now: Time)
      modifies this
      ensures Snapshot() == MarkCompleted(old(Snapshot()), ref, now)
    {
      state := Completed;
      nextAttempt, token, expires := None, None, None;
      outcome, reason, lastError := Some(ref), None, None;
      completedAt := Some(now);
    }

    method Block(blockReason: TerminalReason, now: Time)
      modifies this
      ensures Snapshot() == MarkBlocked(old(Snapshot()), blockReason, now)
    {
      state := Blocked;
      nextAttempt, token, expires := None, None, None;
      outcome, reason, lastError := None, Some(blockReason), None;
      completedAt := Some(now);
    }

    method Fail(error: RouteError, now: Time)
      modifies this
      ensures Snapshot() == MarkFailed(old(Snapshot()), error, now)
    {
      state := Failed;
      nextAttempt, token, expires := None, None, None;
      outcome, reason, lastError := None, Some(RetryExhausted), Some(error);
      completedAt := Some(now);
    }

    /** Doubles the delay once per attempt made before this one. */
    method RequeueAfterFailure(error: RouteError, now: Time)
      modifies this
      ensures Snapshot() == Requeued(old(Snapshot()), error, now)
    {
      var delay := RETRY_BASE_SECONDS;
      var i := 0;
      while i < attempts - 1
        invariant 0 <= i && (i <= attempts - 1 || i == 0)
        invariant delay == RETRY_BASE_SECONDS * Pow2(i)
        invariant Snapshot() == old(Snapshot())
      {
        delay := delay * 2;
        i := i + 1;
      }
      state := Queued;
      nextAttempt := Some(now + delay);
      token, expires := None, None;
      outcome, reason := None, None;
      lastError := Some(error);
      completedAt := None;
    }
  }

  class FeedbackDesk {
    var feedback: map<string, FeedbackSignal>
    var rows: map<RouteId, FeedbackRoute>
    var audit: seq<AuditRow>
    const store: GovernanceStore
    ghost var issued: set<string>

    /** Every key has its own row object. */
    ghost predicate Valid()
      reads this`rows
    {
      forall a, b | a in rows && b in rows && a != b :: rows[a] != rows[b]
    }

    ghost function Routes(): map<RouteId, Route>
      reads this`rows, rows.Values
    {
      map id | id in rows :: rows[id].Snapshot()
    }

    ghost function View(): Queue
      reads this, rows.Values, store
    {
      Queue(Desk(feedback, Routes(), audit), store.View(), issued)
    }

    constructor (store: GovernanceStore)
      requires store.View() == G.EMPTY
      ensures Valid() && View() == EMPTY && this.store == store
    {
      feedback, rows, audit, issued := map[], map[], [], {};
      this.store := store;
      new;
      assert Routes() == map[];
    }

    /** Creates the mapped route of a signal, or finds the one it has. */
    method RouteFeedbackSignal(command: string, t: FeedbackType, replayed: bool, now: Time)
      returns (ok: bool, route: Option<Route>)
      requires Valid()
      modifies this`rows
      ensures Valid() && fresh(rows.Values - old(rows.Values))
      ensures var expected := RouteFeedback(old(Routes()), command, t, replayed, now);
              && ok == expected.Some?
              && Routes() == (if ok then expected.value.0 else old(Routes()))
              && (ok ==> route == expected.value.1)
    {
      var review, refresh := G.RouteId(command, G.Review), G.RouteId(command, G.Refresh);
      var kind := RouteKindOf(t);
      route := None;
      if review in rows && refresh in rows {
        return false, None;
      }
      if review in rows || refresh in rows {
        var existing := if review in rows then review else refresh;
        if kind != Some(existing.kind) {
          return false, None;
        }
        return true, Some(rows[existing].Snapshot());
      }
      if kind.None? {
        return true, None;
      }
      if replayed {
        return false, None;
      }
      var row := new FeedbackRoute(now);
      ghost var before := Routes();
      rows := rows[G.RouteId(command, kind.value) := row];
      assert Routes() == before[G.RouteId(command, kind.value) := NewRoute(now)];
      return true, Some(row.Snapshot());
    }

    /** Records one feedback command with its route and audit row, or answers its replay. */
    method RecordFeedbackSignal(input: FeedbackInput, actor: G.ActorId, wiki: Wiki, now: Time)
      returns (r: RecordOutcome)
      requires Valid()
      modifies this`feedback, this`rows, this`audit
      ensures Valid() && fresh(rows.Values - old(rows.Values))
      ensures (Desk(feedback, Routes(), audit), r)
           == Record(old(Desk(feedback, Routes(), audit)), input, actor, wiki, now)
    {
      var replay := ReplayFeedback(feedback, input, actor);
      if replay.Conflicting? {
        return IdempotencyConflict;
      }
      if replay.Replayed? {
        var ok, route := RouteFeedbackSignal(input.commandId, replay.signal.signalType, true, now);
        return if ok then Recorded(replay.signal, route, true) else RouteConflict;
      }
      var resolved := ResolveReferences(wiki, input);
      if resolved.Err? {
        return Unresolved(resolved.error);
      }
      var signal := NewFeedback(resolved.value, actor, now);
      var ok, route := RouteFeedbackSignal(input.commandId, signal.signalType, false, now);
      if !ok {
        return RouteConflict;
      }
      feedback := feedback[input.commandId := signal];
      audit := audit + [RecordedRow(input.commandId, actor)];
      return Recorded(signal, route, false);
    }

    /** Overwriting one row object changes exactly that row of the table. */
    twostate lemma OneRowChanged(id: RouteId)
      requires old(Valid()) && Valid() && old(rows) == rows && id in rows
      requires forall x | x in rows && x != id :: unchanged(rows[x])
      ensures Routes() == old(Routes())[id := rows[id].Snapshot()]
    {
    }

    /** Fails a row with its one audit row. */
    method FailRow(id: RouteId, error: RouteError, actor: G.ActorId, now: Time)
      requires Valid() && id in rows
      modifies this`audit, rows[id]
      ensures Valid() && rows == old(rows)
      ensures View() == Finish(old(View()), id, MarkFailed(old(rows[id].Snapshot()), error, now), actor, AuditFailed)
    {
      var row := rows[id];
      row.Fail(error, now);
      OneRowChanged(id);
      audit := audit + [TerminalRow(id, actor, AuditFailed)];
    }

    method LeaseRow(id: RouteId, leaseToken: string, now: Time)
      requires Valid() && id in rows
      modifies this`issued, rows[id]
      ensures Valid() && rows == old(rows)
      ensures View() == SetRoute(old(View()), id, Claimed(old(rows[id].Snapshot()), leaseToken, now))
                          .(issued := old(issued) + {leaseToken})
    {
      var row := rows[id];
      row.Lease(leaseToken, now);
      OneRowChanged(id);
      issued := issued + {leaseToken};
    }

    method RequeueRow(id: RouteId, error: RouteError, now: Time)
      requires Valid() && id in rows
      modifies rows[id]
      ensures Valid() && rows == old(rows)
      ensures View() == SetRoute(old(View()), id, Requeued(old(rows[id].Snapshot()), error, now))
    {
      var row := rows[id];
      row.RequeueAfterFailure(error, now);
      OneRowChanged(id);
    }

    /** Leases one selected row, or fails it when its attempts are used up. */
    method SweepRow(id: RouteId, leaseToken: string, now: Time)
      requires Valid() && id in rows && id.command in feedback && (rows[id].state.Queued? || rows[id].state.Running?)
      modifies this`audit, this`issued, rows[id]
      ensures Valid() && rows == old(rows)
      ensures View() == SweepOne(old(View()), id, leaseToken, now)
    {
      var row := rows[id];
      assert Routes()[id] == row.Snapshot();
      if row.attempts >= MAX_ATTEMPTS {
        FailRow(id, if row.state.Running? then LeaseExpired else BudgetExhausted, feedback[id.command].actor, now);
      } else {
        LeaseRow(id, leaseToken, now);
      }
    }

    /** One turn of a sweep; answers what the row was before. */
    method SweepNext(ghost start: Queue, batch: seq<(RouteId, string)>, k: nat, now: Time)
      returns (from: RouteState, attempts: nat)
      requires Valid() && FeedbackPresent(start) && IsBatch(start, batch, now) && k < |batch|
      requires View() == SweepTo(start, batch, k, now)
      requires batch[k].0 in rows
      modifies this`audit, this`issued, rows[batch[k].0]
      ensures Valid() && rows == old(rows)
      ensures View() == SweepTo(start, batch, k + 1, now)
      ensures from == start.desk.routes[batch[k].0].state && attempts == start.desk.routes[batch[k].0].attempts
    {
      NextRow(start, batch, k, now);
      var row := rows[batch[k].0];
      assert View().desk.routes[batch[k].0] == row.Snapshot();
      from, attempts := row.state, row.attempts;
      SweepRow(batch[k].0, batch[k].1, now);
    }

    /**
     Leases the selected rows in turn, or fails those whose attempts are used up. The batch and
     its tokens are the answer of the row query and of the token source.
     */
    method ClaimFeedbackRoutes(batch: seq<(RouteId, string)>, limit: int, now: Time)
      returns (ok: bool, claims: seq<Claim>, terminalized: seq<Terminalization>)
      requires Valid() && FeedbackPresent(View())
      requires limit >= 1 ==> |batch| <= limit && IsBatch(View(), batch, now)
      modifies this`audit, this`issued, rows.Values
      ensures Valid() && rows == old(rows)
      ensures ok <==> limit >= 1
      ensures !ok ==> View() == old(View())
      ensures ok ==> View() == SweepAll(old(View()), batch, now)
                     && claims == ClaimsTo(old(Routes()), batch, |batch|)
                     && terminalized == TerminalizedTo(old(Routes()), batch, |batch|)
    {
      claims, terminalized := [], [];
      if limit < 1 {
        return false, claims, terminalized;
      }
      ghost var start := View();
      for k := 0 to |batch|
        invariant Valid() && rows == old(rows)
        invariant View() == SweepTo(start, batch, k, now)
        invariant claims == ClaimsTo(start.desk.routes, batch, k)
        invariant terminalized == TerminalizedTo(start.desk.routes, batch, k)
      {
        assert batch[k].0 in start.desk.routes;
        var from, attempts := SweepNext(start, batch, k, now);
        ReportNext(start.desk.routes, batch, k, from, attempts);
        if attempts >= MAX_ATTEMPTS {
          terminalized := terminalized + [Terminalization(batch[k].0, from, attempts)];
        } else {
          claims := claims + [Claim(batch[k].0, batch[k].1, attempts + 1, from)];
        }
      }
      ok := true;
    }

    /** Completes or blocks the route the claim owns; a stale claim changes nothing. */
    method ExecuteFeedbackRoute(claim: Claim, wiki: Wiki, now: Time) returns (r: Answer)
      requires Valid() && FeedbackPresent(View())
      modifies this`audit, rows.Values, store
      ensures Valid() && rows == old(rows)
      ensures (View(), r) == Execute(old(View()), claim, wiki, now)
    {
      var id := claim.route;
      if id !in rows {
        return LeaseLost;
      }
      assert Routes()[id] == rows[id].Snapshot();
      var row := rows[id];
      if row.state.Completed? || row.state.Blocked? || row.state.Failed? {
        return AlreadyTerminal(row.Snapshot());
      }
      if !row.state.Running? || row.token != Some(claim.token) {
        return LeaseLost;
      }
      if row.expires.None? || row.expires.value <= now {
        return LeaseLost;
      }
      var signal := feedback[id.command];
      if RouteKindOf(signal.signalType) != Some(id.kind) {
        r := BlockRow(id, RoutePolicyChanged, signal.actor, now);
        return;
      }
      var target := ResolveTarget(wiki, signal);
      if target.Err? {
        r := BlockRow(id, target.error, signal.actor, now);
        return;
      }
      var input := RouteSignal(id, signal, target.value.0, target.value.1);
      r := CompleteRow(id, input, signal.actor, now);
    }

    method BlockRow(id: RouteId, reason: TerminalReason, actor: G.ActorId, now: Time) returns (r: Answer)
      requires Valid() && id in rows
      modifies this`audit, rows[id]
      ensures Valid() && rows == old(rows)
      ensures (View(), r) == FeedbackExecution.Block(old(View()), id, old(rows[id].Snapshot()), reason, actor, now)
    {
      var row := rows[id];
      row.Block(reason, now);
      OneRowChanged(id);
      audit := audit + [TerminalRow(id, actor, AuditBlocked(reason))];
      return Stored(row.Snapshot());
    }

    method CompleteRow(id: RouteId, input: G.SignalInput, actor: G.ActorId, now: Time) returns (r: Answer)
      requires Valid() && id in rows
      modifies this`audit, rows[id], store
      ensures Valid() && rows == old(rows)
      ensures (View(), r) == FeedbackExecution.Complete(old(View()), id, old(rows[id].Snapshot()), input, actor, now)
    {
      var created := store.CreateGovernanceSignal(input, actor, now);
      assert Routes() == old(Routes());
      if created.Err? {
        return SignalRefused(created.error);
      }
      var row := rows[id];
      row.Complete(input.ref, now);
      OneRowChanged(id);
      audit := audit + [TerminalRow(id, actor, AuditCompleted(input.ref))];
      return Stored(row.Snapshot());
    }

    /** Requeues or fails the route the claim owns; a stale claim changes nothing. */
    method RecordFeedbackRouteFailure(claim: Claim, error: RouteError, now: Time) returns (r: Answer)
      requires Valid() && FeedbackPresent(View())
      modifies this`audit, rows.Values
      ensures Valid() && rows == old(rows)
      ensures (View(), r) == RecordFailure(old(View()), claim, error, now)
    {
      var id := claim.route;
      if id !in rows {
        return LeaseLost;
      }
      assert Routes()[id] == rows[id].Snapshot();
      var row := rows[id];
      if row.state.Completed? || row.state.Blocked? || row.state.Failed? {
        return AlreadyTerminal(row.Snapshot());
      }
      if !row.state.Running? || row.token != Some(claim.token) {
        return LeaseLost;
      }
      if row.expires.None? || row.expires.value <= now {
        return LeaseLost;
      }
      if row.attempts >= MAX_ATTEMPTS {
        FailRow(id, error, feedback[id.command].actor, now);
      } else {
        RequeueRow(id, error, now);
      }
      assert Routes()[id] == row.Snapshot();
      return Stored(row.Snapshot());
    }
  }
}
