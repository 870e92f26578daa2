/** The event log of knowledge drafts (cygnus/governance/ledger.py). */
module Ledger {
  import opened Wrappers
  import opened Texts

  /** A draft id is the text of a UUID. */
  type DraftId = s: string | ':' !in s witness ""

  datatype EventType =
    | ProposalCreated | DraftUpdated | ReviewRequested | ChangesRequested | ReviewResubmitted | Approved | Rejected
    | Withdrawn | Published | PropagationUpdated | StateImported
  {
    function Value(): string {
      match this
      case ProposalCreated => "proposal_created"
      case DraftUpdated => "draft_updated"
      case ReviewRequested => "review_requested"
      case ChangesRequested => "changes_requested"
      case ReviewResubmitted => "review_resubmitted"
      case Approved => "approved"
      case Rejected => "rejected"
      case Withdrawn => "withdrawn"
      case Published => "published"
      case PropagationUpdated => "propagation_updated"
      case StateImported => "state_imported"
    }
  }

  // ---------------------------------------------------------------- keys

  function IntText(n: int): string { if n < 0 then "-" + Decimal(-n) else Decimal(n) }

  function RoundSuffix(revisionRound: Option<int>): string {
    if revisionRound.Some? then ":" + IntText(revisionRound.value) else ""
  }

  function KeyOf(draft: DraftId, rest: string): string { "wiki-draft:" + (draft + (":" + rest)) }

  function TransitionKey(draft: DraftId, t: EventType, revisionRound: Option<int>): string {
    KeyOf(draft, t.Value() + RoundSuffix(revisionRound))
  }

  /** `None` stands for the refusal of a version below one. */
  function DraftUpdateKey(draft: DraftId, version: int): Option<string> {
    if version < 1 then None else Some(KeyOf(draft, DraftUpdated.Value() + (":" + IntText(version))))
  }

  lemma {:induction false} SplitAtColon(a: string, x: string, b: string, y: string)
    requires ':' !in a && ':' !in b
    requires x == [] || x[0] == ':'
    requires y == [] || y[0] == ':'
    requires a + x == b + y
    ensures a == b && x == y
  {
    var s := a + x;
    assert forall i | 0 <= i < |a| :: s[i] == a[i] && a[i] != ':';
    assert forall i | 0 <= i < |b| :: s[i] == b[i] && b[i] != ':';
    assert |a| < |s| ==> s[|a|] == x[0];
    assert |b| < |s| ==> s[|b|] == y[0];
    assert |a| == |b|;
    assert a == s[..|a|] == b && x == s[|a|..] == y;
  }

  lemma SignShows(n: int)
    ensures IntText(n) != [] && (IntText(n)[0] == '-' <==> n < 0)
  {
    if n >= 0 { assert Decimal(n)[0] in Decimal(n); }
  }

  lemma IntTextInjective(m: int, n: int)
    requires IntText(m) == IntText(n)
    ensures m == n
  {
    SignShows(m);
    SignShows(n);
    if m < 0 {
      assert Decimal(-m) == IntText(m)[1..] == Decimal(-n);
      DecimalInjective(-m, -n);
    } else {
      DecimalInjective(m, n);
    }
  }

  lemma KeyParts(d: DraftId, rest: string, d': DraftId, rest': string)
    requires KeyOf(d, rest) == KeyOf(d', rest')
    ensures d == d' && rest == rest'
  {
    var prefix := "wiki-draft:";
    assert KeyOf(d, rest)[|prefix|..] == d + (":" + rest);
    assert KeyOf(d', rest')[|prefix|..] == d' + (":" + rest');
    SplitAtColon(d, ":" + rest, d', ":" + rest');
    assert (":" + rest)[1..] == rest && (":" + rest')[1..] == rest';
  }

  lemma TypesAreText(t: EventType)
    ensures ':' !in t.Value() && |t.Value()| >= 8
  {
  }

  /** The first letter and the length tell the types apart. */
  lemma TypesDiffer(t: EventType, u: EventType)
    requires t.Value() == u.Value()
    ensures t == u
  {
    assert t.Value()[0] == u.Value()[0] && |t.Value()| == |u.Value()|;
  }

  lemma SuffixParts(t: EventType, r: Option<int>, u: EventType, s: Option<int>)
    requires t.Value() + RoundSuffix(r) == u.Value() + RoundSuffix(s)
    ensures t == u && r == s
  {
    TypesAreText(t);
    TypesAreText(u);
    SplitAtColon(t.Value(), RoundSuffix(r), u.Value(), RoundSuffix(s));
    TypesDiffer(t, u);
    if r.Some? && s.Some? {
      assert RoundSuffix(r)[1..] == IntText(r.value) && RoundSuffix(s)[1..] == IntText(s.value);
      IntTextInjective(r.value, s.value);
    }
  }

  /** Different drafts, types or rounds have different keys. */
  lemma TransitionKeyInjective(d: DraftId, t: EventType, r: Option<int>, d': DraftId, t': EventType, r': Option<int>)
    ensures TransitionKey(d, t, r) == TransitionKey(d', t', r') <==> d == d' && t == t' && r == r'
  {
    if TransitionKey(d, t, r) == TransitionKey(d', t', r') {
      KeyParts(d, t.Value() + RoundSuffix(r), d', t'.Value() + RoundSuffix(r'));
      SuffixParts(t, r, t', r');
    }
  }

  /** An update key is a transition key of the update event, with the version for a round, and of nothing else. */
  lemma UpdateKeyIsTransitionKey(d: DraftId, version: int, d': DraftId, t: EventType, r: Option<int>)
    requires version >= 1
    ensures DraftUpdateKey(d, version) == Some(TransitionKey(d', t, r))
       <==> d == d' && t == DraftUpdated && r == Some(version)
  {
    assert DraftUpdateKey(d, version) == Some(TransitionKey(d, DraftUpdated, Some(version)));
    TransitionKeyInjective(d, DraftUpdated, Some(version), d', t, r);
  }

  lemma DraftUpdateKeyInjective(d: DraftId, version: int, d': DraftId, version': int)
    requires version >= 1 && version' >= 1
    ensures DraftUpdateKey(d, version) == DraftUpdateKey(d', version') <==> d == d' && version == version'
  {
    UpdateKeyIsTransitionKey(d, version, d', DraftUpdated, Some(version'));
  }

  // ---------------------------------------------------------------- the log

  datatype Json = Null | Number(n: int) | Text(text: string)

  /** What an idempotency key is bound to. */
  datatype Identity = Identity(
      draft: DraftId,
      eventType: EventType,
      fromState: Option<string>,
      toState: string,
      actor: Option<string>,
      reason: Option<string>,
      payload: map<string, Json>)

  datatype LedgerEvent = LedgerEvent(identity: Identity, sequence: nat, key: string, occurredAt: int)

  datatype LedgerError = BlankValue | KeyConflict | StateConflict | BadVersion | OverlappingPayload

  function FindKey(log: seq<LedgerEvent>, key: string): Option<LedgerEvent> {
    if log == [] then None
    else if log[|log| - 1].key == key then Some(log[|log| - 1])
    else FindKey(log[..|log| - 1], key)
  }

  /** The event of a draft with the highest sequence number. */
  function Latest(log: seq<LedgerEvent>, draft: DraftId): Option<LedgerEvent> {
    if log == [] then None
    else
      var earlier, e := Latest(log[..|log| - 1], draft), log[|log| - 1];
      if e.identity.draft == draft && (earlier.None? || e.sequence > earlier.value.sequence) then Some(e) else earlier
  }

  predicate HasBlank(id: Identity, key: string) {
    key == "" || id.toState == "" || id.fromState == Some("") || id.reason == Some("")
  }

  /** Appends one event, or returns the event that its key already names. */
  function Append(log: seq<LedgerEvent>, id: Identity, key: string, at: int)
    : (seq<LedgerEvent>, Result<LedgerEvent, LedgerError>)
  {
    if HasBlank(id, key) then (log, Err(BlankValue))
    else
      var existing := FindKey(log, key);
      if existing.Some? then
        if existing.value.identity != id then (log, Err(KeyConflict)) else (log, Ok(existing.value))
      else
        var current := Latest(log, id.draft);
        if current.None? && id.fromState.Some? then (log, Err(StateConflict))
        else if current.Some? && id.fromState != Some(current.value.identity.toState) then (log, Err(StateConflict))
        else
          var e := LedgerEvent(id, if current.None? then 1 else current.value.sequence + 1, key, at);
          (log + [e], Ok(e))
  }

  class LedgerStore {
    var events: seq<LedgerEvent>

    constructor ()
      ensures events == []
    {
      events := [];
    }

    method AppendDraftEvent(id: Identity, key: string, at: int) returns (r: Result<LedgerEvent, LedgerError>)
      modifies this
      ensures (events, r) == Append(old(events), id, key, at)
      ensures Inv(old(events)) ==> Inv(events)
    {
      AppendKeepsInv(events, id, key, at);
      if key == "" || id.toState == "" || id.fromState == Some("") || id.reason == Some("") {
        return Err(BlankValue);
      }
      var existing := FindKey(events, key);
      if existing.Some? {
        if existing.value.identity != id {
          return Err(KeyConflict);
        }
        return Ok(existing.value);
      }
      var current := Latest(events, id.draft);
      var sequence := 1;
      if current.None? {
        if id.fromState.Some? {
          return Err(StateConflict);
        }
      } else {
        if id.fromState != Some(current.value.identity.toState) {
          return Err(StateConflict);
        }
        sequence := current.value.sequence + 1;
      }
      var e := LedgerEvent(id, sequence, key, at);
      events := events + [e];
      return Ok(e);
    }

    /** Appends one versioned change of a draft's text. */
    method RecordDraftUpdate(draft: DraftRow, previousVersion: int, fromState: string, toState: string,
                             actor: Option<string>,
                             action: string, reason: Option<string>, extra: map<string, Json>, at: int)
      returns (r: Result<LedgerEvent, LedgerError>)
      modifies this
      ensures (events, r) == RecordUpdate(old(events), draft, previousVersion, fromState, toState, actor, action,
                                          reason, extra, at)
      ensures Inv(old(events)) ==> Inv(events)
    {
      if previousVersion < 1 || draft.version != previousVersion + 1 {
        return Err(BadVersion);
      }
      if action == "" {
        return Err(BlankValue);
      }
      var payload := UpdatePayload(draft, previousVersion, action);
      if payload.Keys * extra.Keys != {} {
        return Err(OverlappingPayload);
      }
      var key := DraftUpdateKey(draft.id, draft.version).value;
      r := AppendDraftEvent(
        Identity(draft.id, DraftUpdated, Some(fromState), toState, actor, reason, payload + extra), key, at);
    }
  }

  /** The columns of a draft that the trace reads; the content stands for its digest. */
  datatype DraftRow = DraftRow(id: DraftId, version: int, baseVersion: Json, revisionRound: int, content: string)

  function UpdatePayload(draft: DraftRow, previousVersion: int, action: string): map<string, Json> {
    map["action" := Text(action), "previous_draft_version" := Number(previousVersion),
        "draft_version" := Number(draft.version),
        "base_version" := draft.baseVersion, "revision_round" := Number(draft.revisionRound),
        "content_sha256" := Text(draft.content)]
  }

  function RecordUpdate(log: seq<LedgerEvent>, draft: DraftRow, previousVersion: int, fromState: string,
                        toState: string, actor: Option<string>, action: string, reason: Option<string>,
                        extra: map<string, Json>, at: int)
    : (seq<LedgerEvent>, Result<LedgerEvent, LedgerError>)
  {
    if previousVersion < 1 || draft.version != previousVersion + 1 then (log, Err(BadVersion))
    else if action == "" then (log, Err(BlankValue))
    else
      var payload := UpdatePayload(draft, previousVersion, action);
      if payload.Keys * extra.Keys != {} then (log, Err(OverlappingPayload))
      else Append(log, Identity(draft.id, DraftUpdated, Some(fromState), toState, actor, reason, payload + extra),
                  DraftUpdateKey(draft.id, draft.version).value, at)
  }

  // ---------------------------------------------------------------- invariant

  /** The events of one draft in log order. */
  function History(log: seq<LedgerEvent>, draft: DraftId): seq<LedgerEvent> {
    if log == [] then []
    else History(log[..|log| - 1], draft) + (if log[|log| - 1].identity.draft == draft then [log[|log| - 1]] else [])
  }

  /** Numbered from one, starting from no state, each starting where the one before ended. */
  ghost predicate Chained(h: seq<LedgerEvent>) {
    && (forall i | 0 <= i < |h| :: h[i].sequence == i + 1 && h[i].identity.toState != "")
    && (h != [] ==> h[0].identity.fromState.None?)
    && (forall i, j | 0 <= i && j == i + 1 < |h| :: h[j].identity.fromState == Some(h[i].identity.toState))
  }

  ghost predicate Chains(log: seq<LedgerEvent>) {
    forall draft: DraftId :: Chained(History(log, draft))
  }

  ghost predicate UniqueKeys(log: seq<LedgerEvent>) {
    forall i, j | 0 <= i < j < |log| :: log[i].key != log[j].key
  }

  ghost predicate Inv(log: seq<LedgerEvent>) { Chains(log) && UniqueKeys(log) }

  lemma HistoryAppend(log: seq<LedgerEvent>, e: LedgerEvent, draft: DraftId)
    ensures History(log + [e], draft) == History(log, draft) + (if e.identity.draft == draft then [e] else [])
  {
    assert (log + [e])[..|log|] == log;
  }

  /** The highest sequence number of a draft stands last in its history. */
  lemma {:induction false} LatestIsLast(log: seq<LedgerEvent>, draft: DraftId)
    requires Chained(History(log, draft))
    ensures var h := History(log, draft);
            Latest(log, draft) == if h == [] then None else Some(h[|h| - 1])
  {
    if log != [] {
      var front, e := log[..|log| - 1], log[|log| - 1];
      assert log == front + [e];
      HistoryAppend(front, e, draft);
      var h, before := History(log, draft), History(front, draft);
      if e.identity.draft == draft {
        ChainedPrefix(before, e);
      } else {
        assert h == before;
      }
      LatestIsLast(front, draft);
    }
  }

  lemma ChainedPrefix(h: seq<LedgerEvent>, e: LedgerEvent)
    requires Chained(h + [e])
    ensures Chained(h) && e.sequence == |h| + 1
  {
    var all := h + [e];
    assert all[|h|] == e;
    assert forall i | 0 <= i < |h| :: h[i] == all[i];
  }

  lemma ChainedAppend(h: seq<LedgerEvent>, e: LedgerEvent)
    requires Chained(h) && e.sequence == |h| + 1 && e.identity.toState != ""
    requires e.identity.fromState == if h == [] then None else Some(h[|h| - 1].identity.toState)
    ensures Chained(h + [e])
  {
  }

  lemma {:induction false} FindKeyFinds(log: seq<LedgerEvent>, key: string)
    ensures FindKey(log, key).Some? ==> FindKey(log, key).value in log && FindKey(log, key).value.key == key
    ensures FindKey(log, key).None? ==> forall i | 0 <= i < |log| :: log[i].key != key
  {
    if log != [] { FindKeyFinds(log[..|log| - 1], key); }
  }

  lemma AppendKeepsInv(log: seq<LedgerEvent>, id: Identity, key: string, at: int)
    ensures Inv(log) ==> Inv(Append(log, id, key, at).0)
  {
    var (log', r) := Append(log, id, key, at);
    if Inv(log) && log' != log {
      FindKeyFinds(log, key);
      LatestIsLast(log, id.draft);
      var e := r.value;
      ChainedAppend(History(log, id.draft), e);
      forall draft: DraftId
        ensures Chained(History(log', draft))
      {
        HistoryAppend(log, e, draft);
        assert History(log, draft) + [] == History(log, draft);
      }
    }
  }

  // ---------------------------------------------------------------- whole runs

  datatype Request = Request(identity: Identity, key: string, at: int)

  function Run(log: seq<LedgerEvent>, requests: seq<Request>): seq<LedgerEvent>
    decreases |requests|
  {
    if requests == [] then log
    else
      var last := requests[|requests| - 1];
      Append(Run(log, requests[..|requests| - 1]), last.identity, last.key, last.at).0
  }

  /** After any run every draft's events are numbered 1 to n and chained, and no key is used twice. */
  lemma {:induction false} RunKeepsInv(log: seq<LedgerEvent>, requests: seq<Request>)
    requires Inv(log)
    ensures Inv(Run(log, requests))
    decreases |requests|
  {
    if requests != [] {
      var front, last := requests[..|requests| - 1], requests[|requests| - 1];
      RunKeepsInv(log, front);
      AppendKeepsInv(Run(log, front), last.identity, last.key, last.at);
    }
  }

  lemma EmptyInv()
    ensures Inv([])
  {
  }

  lemma {:induction false} FindKeyAppend(log: seq<LedgerEvent>, e: LedgerEvent, key: string)
    ensures FindKey(log + [e], key) == if e.key == key then Some(e) else FindKey(log, key)
  {
    assert (log + [e])[..|log|] == log;
  }

  /** A key stays bound to its event. */
  lemma {:induction false} BoundForever(log: seq<LedgerEvent>, requests: seq<Request>, key: string)
    requires FindKey(log, key).Some?
    ensures FindKey(Run(log, requests), key) == FindKey(log, key)
    decreases |requests|
  {
    if requests != [] {
      var front, last := requests[..|requests| - 1], requests[|requests| - 1];
      BoundForever(log, front, key);
      var before := Run(log, front);
      var (after, r) := Append(before, last.identity, last.key, last.at);
      if after != before { FindKeyAppend(before, r.value, key); }
    }
  }

  /**
   Once an append is accepted, the same key is answered from the log forever: the identical
   transition gets the original event, any other one is refused, and neither writes.
   */
  lemma AcceptedAppendIsFinal(log: seq<LedgerEvent>, id: Identity, key: string, at: int, later: seq<Request>,
                              id': Identity, at': int)
    requires Append(log, id, key, at).1.Ok?
    ensures var first := Append(log, id, key, at);
            var log' := Run(first.0, later);
            var again := Append(log', id', key, at');
            && again.0 == log'
            && (again.1.Ok? <==> id' == id)
            && (again.1.Ok? ==> again.1 == first.1)
  {
    var (log1, r) := Append(log, id, key, at);
    if FindKey(log, key).None? { FindKeyAppend(log, r.value, key); }
    BoundForever(log1, later, key);
  }

  /** A draft version is recorded with one content: the same update is answered, a different one refused, forever. */
  lemma VersionIsRecordedOnce(log: seq<LedgerEvent>, draft: DraftRow, previousVersion: int, fromState: string,
                              toState: string, actor: Option<string>, action: string, reason: Option<string>,
                              extra: map<string, Json>, at: int, later: seq<Request>, draft': DraftRow, at': int)
    requires RecordUpdate(log, draft, previousVersion, fromState, toState, actor, action, reason, extra, at).1.Ok?
    requires draft'.id == draft.id && draft'.version == draft.version
    ensures var first := RecordUpdate(log, draft, previousVersion, fromState, toState, actor, action, reason, extra,
                                      at);
            var log' := Run(first.0, later);
            var again := RecordUpdate(log', draft', previousVersion, fromState, toState, actor, action, reason,
                                      extra, at');
            && again.0 == log'
            && (again.1.Ok? <==> draft' == draft)
            && (again.1.Ok? ==> again.1 == first.1)
  {
    var key := DraftUpdateKey(draft.id, draft.version).value;
    var payload, payload' := UpdatePayload(draft, previousVersion, action),
                             UpdatePayload(draft', previousVersion, action);
    var id := Identity(draft.id, DraftUpdated, Some(fromState), toState, actor, reason, payload + extra);
    var id' := Identity(draft.id, DraftUpdated, Some(fromState), toState, actor, reason, payload' + extra);
    AcceptedAppendIsFinal(log, id, key, at, later, id', at');
    PayloadTellsDrafts(draft, draft', previousVersion, action, extra);
  }

  lemma PayloadTellsDrafts(draft: DraftRow, draft': DraftRow, previousVersion: int, action: string,
                           extra: map<string, Json>)
    requires draft.id == draft'.id && UpdatePayload(draft, previousVersion, action).Keys * extra.Keys == {}
    ensures UpdatePayload(draft', previousVersion, action).Keys == UpdatePayload(draft, previousVersion, action).Keys
    ensures (UpdatePayload(draft, previousVersion, action) + extra
             == UpdatePayload(draft', previousVersion, action) + extra)
            ==> draft == draft'
  {
    var p, p' := UpdatePayload(draft, previousVersion, action), UpdatePayload(draft', previousVersion, action);
    if p + extra == p' + extra {
      forall name | name in p
        ensures p[name] == p'[name]
      {
        assert name !in p.Keys * extra.Keys;
        assert (p + extra)[name] == p[name] && (p' + extra)[name] == p'[name];
      }
      assert p["draft_version"] == p'["draft_version"] && p["base_version"] == p'["base_version"];
      assert p["revision_round"] == p'["revision_round"] && p["content_sha256"] == p'["content_sha256"];
    }
  }

  // ---------------------------------------------------------------- what one append decides

  /** The transition starts where the draft stands. */
  predicate StartsWhereDraftStands(log: seq<LedgerEvent>, id: Identity) {
    var h := History(log, id.draft);
    if h == [] then id.fromState == None else id.fromState == Some(h[|h| - 1].identity.toState)
  }

  /**
   Under a fresh key an event is appended exactly when nothing about it is blank and it starts where its
   draft stands; it then has the next number of its draft. Refused, it leaves the log as it is.
   */
  lemma AppendDecides(log: seq<LedgerEvent>, id: Identity, key: string, at: int)
    requires Inv(log) && forall e | e in log :: e.key != key
    ensures var (log', r) := Append(log, id, key, at);
            var blank := key == "" || id.toState == "" || id.fromState == Some("") || id.reason == Some("");
            && (r == Err(BlankValue) <==> blank)
            && (r == Err(StateConflict) <==> !blank && !StartsWhereDraftStands(log, id))
            && (r.Ok? <==> !blank && StartsWhereDraftStands(log, id))
            && (!r.Ok? ==> log' == log)
            && (r.Ok? ==>
                  && log' == log + [r.value]
                  && r.value.identity == id && r.value.key == key && r.value.occurredAt == at
                  && r.value.sequence == |History(log, id.draft)| + 1)
  {
    FindKeyFinds(log, key);
    LatestIsLast(log, id.draft);
  }

  /** The fields of the trace that an update may not bring itself. */
  const TRACE_FIELDS := {"action", "previous_draft_version", "draft_version", "base_version", "revision_round",
                         "content_sha256"}

  predicate BringsNone(extra: map<string, Json>) { forall field | field in extra :: field !in TRACE_FIELDS }

  /** The trace of an update and what it brings, side by side. */
  predicate TellsUpdate(payload: map<string, Json>, draft: DraftRow, previousVersion: int, action: string,
                        extra: map<string, Json>)
  {
    && payload.Keys == TRACE_FIELDS + extra.Keys
    && payload["action"] == Text(action) && payload["previous_draft_version"] == Number(previousVersion)
    && payload["draft_version"] == Number(draft.version) && payload["base_version"] == draft.baseVersion
    && payload["revision_round"] == Number(draft.revisionRound) && payload["content_sha256"] == Text(draft.content)
    && forall field | field in extra :: payload[field] == extra[field]
  }

  lemma TraceFields(draft: DraftRow, previousVersion: int, action: string, extra: map<string, Json>)
    ensures UpdatePayload(draft, previousVersion, action).Keys == TRACE_FIELDS
    ensures TRACE_FIELDS * extra.Keys == {} <==> BringsNone(extra)
    ensures BringsNone(extra) ==>
              TellsUpdate(UpdatePayload(draft, previousVersion, action) + extra, draft, previousVersion, action, extra)
  {
    var p := UpdatePayload(draft, previousVersion, action);
    assert p.Keys == TRACE_FIELDS;
    if !BringsNone(extra) {
      var field :| field in extra && field in TRACE_FIELDS;
      assert field in TRACE_FIELDS * extra.Keys;
    } else {
      assert forall field | field in TRACE_FIELDS :: field !in extra && (p + extra)[field] == p[field];
    }
  }

  /**
   A version of a draft not recorded before is recorded exactly when it follows its predecessor, says what
   was done, overrides no field of the trace, and starts where the draft stands.
   */
  lemma UpdateDecides(log: seq<LedgerEvent>, draft: DraftRow, previousVersion: int, fromState: string, toState: string,
                      actor: Option<string>, action: string, reason: Option<string>, extra: map<string, Json>, at: int)
    requires Inv(log)
    requires draft.version >= 1 ==> forall e | e in log :: Some(e.key) != DraftUpdateKey(draft.id, draft.version)
    ensures var (log', r) := RecordUpdate(log, draft, previousVersion, fromState, toState, actor, action, reason,
                                          extra, at);
            var h := History(log, draft.id);
            var follows := previousVersion >= 1 && draft.version == previousVersion + 1;
            && (r == Err(BadVersion) <==> !follows)
            && (r == Err(OverlappingPayload) <==> follows && action != "" && !BringsNone(extra))
            && (r.Ok? <==>
                  && follows && action != "" && BringsNone(extra)
                  && toState != "" && fromState != "" && reason != Some("")
                  && h != [] && h[|h| - 1].identity.toState == fromState)
            && (!r.Ok? ==> log' == log)
            && (r.Ok? ==>
                  && log' == log + [r.value] && r.value.sequence == |h| + 1 && r.value.occurredAt == at
                  && Some(r.value.key) == DraftUpdateKey(draft.id, draft.version)
                  && IsUpdate(r.value.identity, draft, fromState, toState, actor, reason)
                  && TellsUpdate(r.value.identity.payload, draft, previousVersion, action, extra))
  {
    TraceFields(draft, previousVersion, action, extra);
    if previousVersion >= 1 && draft.version == previousVersion + 1 && action != "" && BringsNone(extra) {
      var payload := UpdatePayload(draft, previousVersion, action) + extra;
      var id := Identity(draft.id, DraftUpdated, Some(fromState), toState, actor, reason, payload);
      AppendDecides(log, id, DraftUpdateKey(draft.id, draft.version).value, at);
      UpdateKeyIsGiven(draft.id, draft.version);
    }
  }

  /** A transition of this draft's text. */
  predicate IsUpdate(id: Identity, draft: DraftRow, fromState: string, toState: string, actor: Option<string>,
                     reason: Option<string>)
  {
    && id.draft == draft.id && id.eventType == DraftUpdated && id.actor == actor && id.reason == reason
    && id.fromState == Some(fromState) && id.toState == toState
  }

  lemma UpdateKeyIsGiven(d: DraftId, version: int)
    requires version >= 1
    ensures DraftUpdateKey(d, version) != Some("")
  {
  }
}
