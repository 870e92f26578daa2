/**
 Importing a resolved-ticket export into the governance store, and what a second import of
 the same or of a changed export does (cygnus/governance/ticket_import.py, signals.py).
 */
module TicketImport {
  import opened Wrappers
  import opened Ordering
  import opened TicketRecords
  import opened TicketParsing
  import opened TicketPlans
  import G = Governance

  /** The longest part of a signature that a cluster reference shows. */
  const SLUG_LENGTH := 80

  function Slug(signature: string): string {
    if |signature| <= SLUG_LENGTH then signature else signature[..SLUG_LENGTH]
  }

  function ImportRef(source: string, key: Key): G.SignalRef { G.TicketImportRef(source, key) }

  /** The governance signal of a qualifying candidate. */
  function ClusterInput(c: Candidate, sourceId: string): G.SignalInput {
    G.SignalInput(
      ImportRef(c.sourceRef, c.key),
      G.SignalIdentity(
        G.TicketCluster, G.TicketClusterRef(c.sourceRef, Slug(c.issueSignature), c.key), c.title, c.objectType,
        None, Some(sourceId), None, Some(c.audience), [G.Copilot, G.ReviewQueue],
        [G.Label("ticket_pressure"), G.TypeLabel(G.TicketCluster), G.ImportTrigger(c.digest)],
        G.ResolvedTicket, G.Unknown,
        G.ClusterSummary(c.memberCount, c.issueSignature, if HasText(c.feature) then c.feature else None, c.sourceRef),
        G.ClusterReason(c.memberCount, c.minimum, c.digest),
        G.Plain(c.excerpt), c.evidence),
      Some(c.windowEnd))
  }

  /** The inputs of the qualifying ones among the first k candidates. */
  function InputsTo(candidates: seq<Candidate>, sourceId: string, k: nat): seq<G.SignalInput>
    requires k <= |candidates|
  {
    if k == 0 then []
    else
      InputsTo(candidates, sourceId, k - 1)
      + (if candidates[k - 1].Qualifies() then [ClusterInput(candidates[k - 1], sourceId)] else [])
  }

  function Inputs(plan: Plan, sourceId: string): seq<G.SignalInput> {
    InputsTo(plan.candidates, sourceId, |plan.candidates|)
  }

  /** Creates or finds the signals of the first k inputs; the first conflict ends it. */
  function CreateTo(g: G.State, inputs: seq<G.SignalInput>, k: nat, actor: G.ActorId, now: G.Time)
    : (G.State, Result<seq<G.Signal>, G.Error>)
    requires k <= |inputs|
  {
    if k == 0 then (g, Ok([]))
    else
      var (g1, before) := CreateTo(g, inputs, k - 1, actor, now);
      if before.Err? then (g1, before)
      else
        var (g2, created) := G.CreateSignal(g1, inputs[k - 1], actor, now);
        if created.Err? then (g2, Err(created.error)) else (g2, Ok(before.value + [created.value]))
  }

  datatype ImportError =
    | InvalidExport(rejection: Rejection)
    | InvalidPlan(error: PlanError)
    | SourceNotFound
    | SourceNotReady
    | Conflicting(conflict: G.Error)

  datatype Imported = Imported(plan: Plan, sourceId: string, signals: seq<G.Signal>)

  /** An export file as the row readers hand it over. */
  datatype Export = Export(problems: seq<Diagnostic>, rows: seq<Row>) {
    function RecordList(): seq<TicketRecord> { TicketParsing.Records(rows, |rows|) }

    function All(): seq<Diagnostic> { Complaints(problems, rows) }
  }

  /** One import transaction: everything or nothing. `sources` tells of each source whether it is ready. */
  function Import(g: G.State, sources: map<string, bool>, export_: Export, source: string, sourceId: string,
                  minimum: int, actor: G.ActorId, now: G.Time): (G.State, Result<Imported, ImportError>)
  {
    if export_.All() != [] then (g, Err(InvalidExport(Rejection(Bounded(export_.All()), |export_.All()|))))
    else
      var plan := BuildPlan(export_.RecordList(), source, minimum);
      if plan.Err? then (g, Err(InvalidPlan(plan.error)))
      else if sourceId !in sources then (g, Err(SourceNotFound))
      else if !sources[sourceId] then (g, Err(SourceNotReady))
      else
        var inputs := Inputs(plan.value, sourceId);
        var (g', created) := CreateTo(g, inputs, |inputs|, actor, now);
        if created.Err? then (g, Err(Conflicting(created.error)))
        else (g', Ok(Imported(plan.value, sourceId, created.value)))
  }

  method ImportResolvedTicketExport(g: G.State, sources: map<string, bool>, export_: Export, source: string,
                                    sourceId: string, minimum: int, actor: G.ActorId, now: G.Time)
    returns (g': G.State, r: Result<Imported, ImportError>)
    ensures (g', r) == Import(g, sources, export_, source, sourceId, minimum, actor, now)
  {
    var diagnostics := new DiagnosticCollector();
    AddAll(diagnostics, export_.problems);
    assert diagnostics.all == export_.problems;
    var parsed := ParseResolvedTicketExport(diagnostics, export_.rows);
    if parsed.Err? {
      return g, Err(InvalidExport(parsed.error));
    }
    var plan := BuildTicketImportPlan(parsed.value, source, minimum);
    if plan.Err? {
      return g, Err(InvalidPlan(plan.error));
    }
    if sourceId !in sources {
      return g, Err(SourceNotFound);
    }
    if !sources[sourceId] {
      return g, Err(SourceNotReady);
    }
    var created := CreateSignals(g, plan.value, sourceId, actor, now);
    if created.1.Err? {
      return g, Err(Conflicting(created.1.error));
    }
    return created.0, Ok(Imported(plan.value, sourceId, created.1.value));
  }

  /** The loop over the qualifying candidates. */
  method CreateSignals(g: G.State, plan: Plan, sourceId: string, actor: G.ActorId, now: G.Time)
    returns (r: (G.State, Result<seq<G.Signal>, G.Error>))
    ensures r == CreateTo(g, Inputs(plan, sourceId), |Inputs(plan, sourceId)|, actor, now)
  {
    var g' := g;
    var persisted: seq<G.Signal> := [];
    ghost var inputs := Inputs(plan, sourceId);
    for k := 0 to |plan.candidates|
      invariant InputsTo(plan.candidates, sourceId, k) <= inputs
      invariant (g', Ok(persisted)) == CreateTo(g, inputs, |InputsTo(plan.candidates, sourceId, k)|, actor, now)
    {
      NextInput(plan.candidates, sourceId, k);
      if plan.candidates[k].Qualifies() {
        ghost var n := |InputsTo(plan.candidates, sourceId, k)|;
        var (next, created) := G.CreateSignal(g', ClusterInput(plan.candidates[k], sourceId), actor, now);
        if created.Err? {
          FirstConflictEndsIt(g, inputs, n + 1, |inputs|, actor, now);
          return (next, Err(created.error));
        }
        g', persisted := next, persisted + [created.value];
      }
    }
    return (g', Ok(persisted));
  }

  lemma {:induction false} InputsGrow(candidates: seq<Candidate>, sourceId: string, j: nat, k: nat)
    requires j <= k <= |candidates|
    ensures InputsTo(candidates, sourceId, j) <= InputsTo(candidates, sourceId, k)
    decreases k
  {
    if j < k { InputsGrow(candidates, sourceId, j, k - 1); }
  }

  /** Where the input of the next candidate stands among all inputs. */
  lemma NextInput(candidates: seq<Candidate>, sourceId: string, k: nat)
    requires k < |candidates|
    ensures var inputs, n := InputsTo(candidates, sourceId, |candidates|), |InputsTo(candidates, sourceId, k)|;
            && InputsTo(candidates, sourceId, k + 1) <= inputs
            && |InputsTo(candidates, sourceId, k + 1)| == n + (if candidates[k].Qualifies() then 1 else 0)
            && (candidates[k].Qualifies() ==> n < |inputs| && inputs[n] == ClusterInput(candidates[k], sourceId))
  {
    InputsGrow(candidates, sourceId, k + 1, |candidates|);
    var upTo := InputsTo(candidates, sourceId, k + 1);
    if candidates[k].Qualifies() { assert upTo[|upTo| - 1] == ClusterInput(candidates[k], sourceId); }
  }

  lemma {:induction false} FirstConflictEndsIt(g: G.State, inputs: seq<G.SignalInput>, j: nat, k: nat,
                                               actor: G.ActorId, now: G.Time)
    requires j <= k <= |inputs| && CreateTo(g, inputs, j, actor, now).1.Err?
    ensures CreateTo(g, inputs, k, actor, now) == CreateTo(g, inputs, j, actor, now)
    decreases k
  {
    if j < k { FirstConflictEndsIt(g, inputs, j, k - 1, actor, now); }
  }

  // ---------------------------------------------------------------- when an import is accepted

  /** The reference is not bound to anything but what the input says. */
  predicate Creatable(g: G.State, input: G.SignalInput) {
    input.ref in g.signals ==> G.MatchesInput(g.signals[input.ref], input)
  }

  ghost predicate DistinctRefs(inputs: seq<G.SignalInput>) {
    forall i, j | 0 <= i < j < |inputs| :: inputs[i].ref != inputs[j].ref
  }

  lemma CreateLeavesOthers(g: G.State, input: G.SignalInput, other: G.SignalInput, actor: G.ActorId, now: G.Time)
    requires input.ref != other.ref
    ensures Creatable(G.CreateSignal(g, input, actor, now).0, other) == Creatable(g, other)
  {
  }

  lemma CreateEffect(g: G.State, input: G.SignalInput, actor: G.ActorId, now: G.Time)
    ensures var r := G.CreateSignal(g, input, actor, now);
            && (r.1.Ok? <==> Creatable(g, input))
            && (r.1.Ok? ==>
                  && input.ref in r.0.signals && r.0.signals[input.ref] == r.1.value
                  && G.MatchesInput(r.1.value, input))
            && (forall ref | ref in g.signals :: ref in r.0.signals && r.0.signals[ref] == g.signals[ref])
  {
  }

  /** Creating signals leaves every other reference as creatable as it was, and every stored signal as it is. */
  lemma {:induction false} CreateToLeaves(g: G.State, inputs: seq<G.SignalInput>, k: nat, other: G.SignalInput,
                                          actor: G.ActorId, now: G.Time)
    requires k <= |inputs| && forall i | 0 <= i < k :: inputs[i].ref != other.ref
    ensures Creatable(CreateTo(g, inputs, k, actor, now).0, other) == Creatable(g, other)
  {
    if k > 0 {
      CreateToLeaves(g, inputs, k - 1, other, actor, now);
      CreateLeavesOthers(CreateTo(g, inputs, k - 1, actor, now).0, inputs[k - 1], other, actor, now);
    }
  }

  /** Accepted inputs have their signals, as they say. */
  ghost predicate Holds(g: G.State, inputs: seq<G.SignalInput>, k: nat, signals: seq<G.Signal>)
    requires k <= |inputs|
  {
    && |signals| == k
    && forall i | 0 <= i < k ::
         inputs[i].ref in g.signals && g.signals[inputs[i].ref] == signals[i] && G.MatchesInput(signals[i], inputs[i])
  }

  lemma {:induction false} CreateToHolds(g: G.State, inputs: seq<G.SignalInput>, k: nat, actor: G.ActorId, now: G.Time)
    requires k <= |inputs| && DistinctRefs(inputs) && CreateTo(g, inputs, k, actor, now).1.Ok?
    ensures var r := CreateTo(g, inputs, k, actor, now);
            Holds(r.0, inputs, k, r.1.value)
  {
    if k > 0 {
      CreateToHolds(g, inputs, k - 1, actor, now);
      CreateEffect(CreateTo(g, inputs, k - 1, actor, now).0, inputs[k - 1], actor, now);
    }
  }

  /** All inputs go through exactly when each could be created from the start. */
  lemma {:induction false} CreateToEffect(g: G.State, inputs: seq<G.SignalInput>, k: nat, actor: G.ActorId, now: G.Time)
    requires k <= |inputs| && DistinctRefs(inputs)
    ensures CreateTo(g, inputs, k, actor, now).1.Ok? <==> forall i | 0 <= i < k :: Creatable(g, inputs[i])
  {
    if k > 0 {
      CreateToEffect(g, inputs, k - 1, actor, now);
      CreateToLeaves(g, inputs, k - 1, inputs[k - 1], actor, now);
      CreateEffect(CreateTo(g, inputs, k - 1, actor, now).0, inputs[k - 1], actor, now);
    }
  }

  /** Inputs that all have their signals change nothing. */
  lemma {:induction false} ReplayLeavesState(g: G.State, inputs: seq<G.SignalInput>, k: nat, actor: G.ActorId,
                                             now: G.Time)
    requires k <= |inputs|
    requires forall i | 0 <= i < k :: inputs[i].ref in g.signals && G.MatchesInput(g.signals[inputs[i].ref], inputs[i])
    ensures var r := CreateTo(g, inputs, k, actor, now);
            && r.0 == g && r.1.Ok? && |r.1.value| == k
            && forall i | 0 <= i < k :: r.1.value[i] == g.signals[inputs[i].ref]
  {
    if k > 0 { ReplayLeavesState(g, inputs, k - 1, actor, now); }
  }

  /** Every input is the input of a qualifying candidate. */
  lemma {:induction false} InputOrigin(candidates: seq<Candidate>, sourceId: string, k: nat)
    requires k <= |candidates|
    ensures forall x | x in InputsTo(candidates, sourceId, k) ::
              exists i :: 0 <= i < k && candidates[i].Qualifies() && x == ClusterInput(candidates[i], sourceId)
  {
    if k > 0 { InputOrigin(candidates, sourceId, k - 1); }
  }

  /** Every qualifying candidate has its input. */
  lemma {:induction false} QualifyingIsIn(candidates: seq<Candidate>, sourceId: string, k: nat, i: nat)
    requires i < k <= |candidates| && candidates[i].Qualifies()
    ensures ClusterInput(candidates[i], sourceId) in InputsTo(candidates, sourceId, k)
  {
    if i < k - 1 { QualifyingIsIn(candidates, sourceId, k - 1, i); }
  }

  lemma {:induction false} InputsDiffer(candidates: seq<Candidate>, sourceId: string, k: nat)
    requires k <= |candidates| && forall i, j | 0 <= i < j < |candidates| :: candidates[i].key != candidates[j].key
    ensures DistinctRefs(InputsTo(candidates, sourceId, k))
  {
    if k > 0 {
      InputsDiffer(candidates, sourceId, k - 1);
      InputOrigin(candidates, sourceId, k - 1);
      var front, last := InputsTo(candidates, sourceId, k - 1), ClusterInput(candidates[k - 1], sourceId);
      forall n | 0 <= n < |front|
        ensures front[n].ref != last.ref
      {
        assert front[n] in front;
      }
    }
  }

  lemma ParsedIdsAreDistinct(e: Export)
    requires e.All() == []
    ensures DistinctIds(e.RecordList())
  {
    AcceptedIff(e.problems, e.rows);
  }

  lemma PlanKeysDiffer(records: seq<TicketRecord>, source: string, minimum: int)
    requires DistinctIds(records) && BuildPlan(records, source, minimum).Ok?
    ensures var candidates := BuildPlan(records, source, minimum).value.candidates;
            forall i, j | 0 <= i < j < |candidates| :: candidates[i].key != candidates[j].key
  {
    PlanPartitionsRecords(records, source, minimum);
    TupleLtIsOrder();
  }

  /** What makes an export plannable for a source. */
  ghost predicate Accepts(e: Export, source: string, minimum: int) {
    e.All() == [] && BuildPlan(e.RecordList(), source, minimum).Ok?
  }

  function PlanOf(e: Export, source: string, minimum: int): Plan
    requires Accepts(e, source, minimum)
  {
    BuildPlan(e.RecordList(), source, minimum).value
  }

  /**
   An import goes through exactly when none of its signals is bound to anything else; otherwise it
   leaves no trace.
   */
  lemma ImportsIff(g: G.State, sources: map<string, bool>, e: Export, source: string, sourceId: string, minimum: int,
                   actor: G.ActorId, now: G.Time)
    requires Accepts(e, source, minimum) && sourceId in sources && sources[sourceId]
    ensures var r := Import(g, sources, e, source, sourceId, minimum, actor, now);
            var inputs := Inputs(PlanOf(e, source, minimum), sourceId);
            && (r.1.Ok? <==> forall i | 0 <= i < |inputs| :: Creatable(g, inputs[i]))
            && (r.1.Err? ==> r.0 == g)
            && (r.1.Ok? ==>
                  && |r.1.value.signals| == |inputs|
                  && (forall i | 0 <= i < |inputs| ::
                        && inputs[i].ref in r.0.signals && r.0.signals[inputs[i].ref] == r.1.value.signals[i]
                        && G.MatchesInput(r.1.value.signals[i], inputs[i])))
  {
    var plan := PlanOf(e, source, minimum);
    ParsedIdsAreDistinct(e);
    PlanKeysDiffer(e.RecordList(), source, minimum);
    InputsDiffer(plan.candidates, sourceId, |plan.candidates|);
    var inputs := Inputs(plan, sourceId);
    CreateToEffect(g, inputs, |inputs|, actor, now);
    if CreateTo(g, inputs, |inputs|, actor, now).1.Ok? { CreateToHolds(g, inputs, |inputs|, actor, now); }
  }

  lemma {:induction false} CreateToIsRun(g: G.State, inputs: seq<G.SignalInput>, k: nat, actor: G.ActorId, now: G.Time)
    returns (steps: seq<G.Step>)
    requires k <= |inputs|
    ensures CreateTo(g, inputs, k, actor, now).0 == G.Run(g, steps)
  {
    if k == 0 {
      steps := [];
    } else {
      steps := CreateToIsRun(g, inputs, k - 1, actor, now);
      var last := G.CreateStep(inputs[k - 1], actor, now);
      if CreateTo(g, inputs, k - 1, actor, now).1.Ok? {
        G.RunAppend(g, steps, last);
        steps := steps + [last];
      }
    }
  }

  /** Refused, an import leaves the state; accepted, it leaves what creating its signals leaves. */
  lemma ImportState(g: G.State, sources: map<string, bool>, e: Export, source: string, sourceId: string, minimum: int,
                    actor: G.ActorId, now: G.Time)
    ensures var r := Import(g, sources, e, source, sourceId, minimum, actor, now);
            && (r.1.Err? ==> r.0 == g)
            && (r.1.Ok? ==>
                  var inputs := Inputs(r.1.value.plan, sourceId);
                  r.0 == CreateTo(g, inputs, |inputs|, actor, now).0)
  {
  }

  /** An import is a run of signal creations, so whatever holds after every run holds after it. */
  lemma ImportIsRun(g: G.State, sources: map<string, bool>, e: Export, source: string, sourceId: string, minimum: int,
                    actor: G.ActorId, now: G.Time)
    returns (steps: seq<G.Step>)
    ensures Import(g, sources, e, source, sourceId, minimum, actor, now).0 == G.Run(g, steps)
  {
    ImportState(g, sources, e, source, sourceId, minimum, actor, now);
    var r := Import(g, sources, e, source, sourceId, minimum, actor, now).1;
    if r.Ok? {
      var inputs := Inputs(r.value.plan, sourceId);
      steps := CreateToIsRun(g, inputs, |inputs|, actor, now);
    } else {
      steps := [];
    }
  }

  lemma ImportKeepsInv(g: G.State, sources: map<string, bool>, e: Export, source: string, sourceId: string,
                       minimum: int, actor: G.ActorId, now: G.Time)
    requires G.Inv(g)
    ensures G.Inv(Import(g, sources, e, source, sourceId, minimum, actor, now).0)
  {
    var steps := ImportIsRun(g, sources, e, source, sourceId, minimum, actor, now);
    G.RunKeepsInv(g, steps);
  }

  // ---------------------------------------------------------------- a second import

  /** Two exports are one import when they hold the same records and name the same threshold and source row. */
  ghost predicate SameImport(a: Export, b: Export, minimum: int, minimum': int, sourceId: string, sourceId': string) {
    multiset(a.RecordList()) == multiset(b.RecordList()) && minimum == minimum' && sourceId == sourceId'
  }

  /**
   Importing the same records again, in any order and after any later transactions, adds nothing
   and answers the rows that the first import created.
   */
  lemma ReimportReplays(g: G.State, later: seq<G.Step>, sources: map<string, bool>, a: Export, b: Export,
                        source: string,
                        sourceId: string, minimum: int, actor: G.ActorId, now: G.Time, actor': G.ActorId, now': G.Time)
    requires G.Inv(g) && sourceId in sources && sources[sourceId]
    requires a.All() == [] && b.All() == [] && multiset(a.RecordList()) == multiset(b.RecordList())
    requires Import(g, sources, a, source, sourceId, minimum, actor, now).1.Ok?
    ensures var first := Import(g, sources, a, source, sourceId, minimum, actor, now).1.value;
            var g' := G.Run(Import(g, sources, a, source, sourceId, minimum, actor, now).0, later);
            var again := Import(g', sources, b, source, sourceId, minimum, actor', now');
            var inputs := Inputs(first.plan, sourceId);
            && again.0 == g' && again.1.Ok? && again.1.value.plan == first.plan
            && |again.1.value.signals| == |first.signals| == |inputs|
            && forall i | 0 <= i < |inputs| ::
                 && inputs[i].ref in g'.signals && again.1.value.signals[i] == g'.signals[inputs[i].ref]
                 && again.1.value.signals[i].identity == first.signals[i].identity
                 && again.1.value.signals[i].observedAt == first.signals[i].observedAt
  {
    ParsedIdsAreDistinct(a);
    PlanForgetsOrder(a.RecordList(), b.RecordList(), source, minimum);
    ImportsIff(g, sources, a, source, sourceId, minimum, actor, now);
    var (g1, result) := Import(g, sources, a, source, sourceId, minimum, actor, now);
    var g' := G.Run(g1, later);
    ImportKeepsInv(g, sources, a, source, sourceId, minimum, actor, now);
    G.RunExtends(g1, later);
    var inputs := Inputs(result.value.plan, sourceId);
    forall i | 0 <= i < |inputs|
      ensures inputs[i].ref in g'.signals && G.MatchesInput(g'.signals[inputs[i].ref], inputs[i])
      ensures g'.signals[inputs[i].ref].identity == result.value.signals[i].identity
      ensures g'.signals[inputs[i].ref].observedAt == result.value.signals[i].observedAt
    {
      assert G.SignalExtends(g1, g', inputs[i].ref);
    }
    ReplayLeavesState(g', inputs, |inputs|, actor', now');
  }

  lemma OneInputOneOrigin(c: Candidate, c': Candidate, sourceId: string, sourceId': string)
    requires ClusterInput(c, sourceId).identity == ClusterInput(c', sourceId').identity
    ensures c.digest == c'.digest && c.minimum == c'.minimum && sourceId == sourceId'
  {
    assert ClusterInput(c, sourceId).identity.reason == ClusterInput(c', sourceId').identity.reason;
  }

  /** Candidates of two imports with one digest and one threshold come from the same records and threshold. */
  lemma DigestsTell(a: Export, b: Export, source: string, minimum: int, minimum': int, c: Candidate, c': Candidate)
    requires Accepts(a, source, minimum) && Accepts(b, source, minimum')
    requires c in PlanOf(a, source, minimum).candidates && c' in PlanOf(b, source, minimum').candidates
    requires c.digest == c'.digest && c.minimum == c'.minimum
    ensures multiset(a.RecordList()) == multiset(b.RecordList()) && minimum == minimum'
  {
    ParsedIdsAreDistinct(a);
    CandidateDigest(a, source, minimum, c);
    CandidateDigest(b, source, minimum', c');
    DigestIffSameRecords(a.RecordList(), b.RecordList());
  }

  lemma CandidateDigest(e: Export, source: string, minimum: int, c: Candidate)
    requires Accepts(e, source, minimum) && c in PlanOf(e, source, minimum).candidates
    ensures c.digest == Digest(e.RecordList()) && c.minimum == minimum && c.sourceRef == source
  {
    CandidateOrigin(e.RecordList(), source, minimum, c);
  }

  /** A signal of one import fits the other import of its key only when the two are one import. */
  lemma OneKeyOneImport(a: Export, b: Export, source: string, minimum: int, minimum': int, sourceId: string,
                        sourceId': string, c: Candidate, c': Candidate)
    requires Accepts(a, source, minimum) && Accepts(b, source, minimum')
    requires c in PlanOf(a, source, minimum).candidates && c' in PlanOf(b, source, minimum').candidates
    requires ClusterInput(c, sourceId).identity == ClusterInput(c', sourceId').identity
    ensures SameImport(a, b, minimum, minimum', sourceId, sourceId')
  {
    OneInputOneOrigin(c, c', sourceId, sourceId');
    DigestsTell(a, b, source, minimum, minimum', c, c');
  }

  /** Both imports have a qualifying cluster with this key. */
  ghost predicate Shares(a: Plan, b: Plan, key: Key) {
    && (exists c | c in a.candidates :: c.key == key && c.Qualifies())
    && (exists c | c in b.candidates :: c.key == key && c.Qualifies())
  }

  /**
   After an import, and any later transactions, another import under the same source reference
   that shares a qualifying cluster with it goes through exactly when it is the same import;
   otherwise it is refused and leaves the state as it was.
   */
  lemma SharedClusterIffSameImport(g: G.State, later: seq<G.Step>, sources: map<string, bool>, a: Export, b: Export,
                                   source: string, sourceId: string, sourceId': string, minimum: int, minimum': int,
                                   actor: G.ActorId, now: G.Time, actor': G.ActorId, now': G.Time, key: Key)
    requires Accepts(a, source, minimum) && Accepts(b, source, minimum')
    requires Shares(PlanOf(a, source, minimum), PlanOf(b, source, minimum'), key)
    requires sourceId in sources && sources[sourceId] && sourceId' in sources && sources[sourceId']
    requires G.Inv(g) && Import(g, sources, a, source, sourceId, minimum, actor, now).1.Ok?
    ensures var g' := G.Run(Import(g, sources, a, source, sourceId, minimum, actor, now).0, later);
            var again := Import(g', sources, b, source, sourceId', minimum', actor', now');
            && (again.1.Ok? <==> SameImport(a, b, minimum, minimum', sourceId, sourceId'))
            && again.0 == g'
  {
    if SameImport(a, b, minimum, minimum', sourceId, sourceId') {
      ReimportReplays(g, later, sources, a, b, source, sourceId, minimum, actor, now, actor', now');
    } else {
      var c :| c in PlanOf(a, source, minimum).candidates && c.key == key && c.Qualifies();
      var c' :| c' in PlanOf(b, source, minimum').candidates && c'.key == key && c'.Qualifies();
      SignalStays(g, later, sources, a, source, sourceId, minimum, actor, now, c);
      var g' := G.Run(Import(g, sources, a, source, sourceId, minimum, actor, now).0, later);
      ChangedClusterIsRefused(g', sources, a, b, source, sourceId, sourceId', minimum, minimum', actor', now', c, c');
    }
  }

  /** Where a signal is bound to one import, a different import with that cluster is refused. */
  lemma ChangedClusterIsRefused(g: G.State, sources: map<string, bool>, a: Export, b: Export, source: string,
                                sourceId: string, sourceId': string, minimum: int, minimum': int, actor: G.ActorId,
                                    now: G.Time, c: Candidate, c': Candidate)
    requires Accepts(a, source, minimum) && Accepts(b, source, minimum')
    requires c in PlanOf(a, source, minimum).candidates && c' in PlanOf(b, source, minimum').candidates
    requires c.key == c'.key && c'.Qualifies() && sourceId' in sources && sources[sourceId']
    requires ImportRef(source, c.key) in g.signals
    requires g.signals[ImportRef(source, c.key)].identity == ClusterInput(c, sourceId).identity
    requires !SameImport(a, b, minimum, minimum', sourceId, sourceId')
    ensures var r := Import(g, sources, b, source, sourceId', minimum', actor, now);
            r.0 == g && r.1.Err?
  {
    var input := ClusterInput(c', sourceId');
    var n := QualifyingInput(b, source, sourceId', minimum', c');
    if G.MatchesInput(g.signals[ImportRef(source, c.key)], input) {
      OneKeyOneImport(a, b, source, minimum, minimum', sourceId, sourceId', c, c');
    }
    assert !Creatable(g, input);
    ImportsIff(g, sources, b, source, sourceId', minimum', actor, now);
  }

  /** The input of a qualifying candidate is one of the inputs. */
  lemma QualifyingInput(e: Export, source: string, sourceId: string, minimum: int, c: Candidate) returns (n: nat)
    requires Accepts(e, source, minimum) && c in PlanOf(e, source, minimum).candidates && c.Qualifies()
    ensures c.sourceRef == source
    ensures n < |Inputs(PlanOf(e, source, minimum), sourceId)|
    ensures Inputs(PlanOf(e, source, minimum), sourceId)[n] == ClusterInput(c, sourceId)
  {
    CandidateOrigin(e.RecordList(), source, minimum, c);
    n := PlaceOfInput(PlanOf(e, source, minimum).candidates, sourceId, c);
  }

  lemma PlaceOfInput(candidates: seq<Candidate>, sourceId: string, c: Candidate) returns (n: nat)
    requires c in candidates && c.Qualifies()
    ensures n < |InputsTo(candidates, sourceId, |candidates|)|
    ensures InputsTo(candidates, sourceId, |candidates|)[n] == ClusterInput(c, sourceId)
  {
    var i :| 0 <= i < |candidates| && candidates[i] == c;
    QualifyingIsIn(candidates, sourceId, |candidates|, i);
    n :| 0 <= n < |InputsTo(candidates, sourceId, |candidates|)|
         && InputsTo(candidates, sourceId, |candidates|)[n] == ClusterInput(c, sourceId);
  }

  lemma SignalStays(g: G.State, later: seq<G.Step>, sources: map<string, bool>, a: Export, source: string,
                    sourceId: string, minimum: int, actor: G.ActorId, now: G.Time, c: Candidate)
    requires Accepts(a, source, minimum) && sourceId in sources && sources[sourceId]
    requires G.Inv(g) && Import(g, sources, a, source, sourceId, minimum, actor, now).1.Ok?
    requires c in PlanOf(a, source, minimum).candidates && c.Qualifies()
    ensures var g' := G.Run(Import(g, sources, a, source, sourceId, minimum, actor, now).0, later);
            && ImportRef(source, c.key) in g'.signals
            && g'.signals[ImportRef(source, c.key)].identity == ClusterInput(c, sourceId).identity
  {
    var g1 := Import(g, sources, a, source, sourceId, minimum, actor, now).0;
    ImportKeepsInv(g, sources, a, source, sourceId, minimum, actor, now);
    G.RunExtends(g1, later);
    ImportsIff(g, sources, a, source, sourceId, minimum, actor, now);
    var n := QualifyingInput(a, source, sourceId, minimum, c);
    var inputs := Inputs(PlanOf(a, source, minimum), sourceId);
    assert inputs[n].ref == ImportRef(source, c.key);
    assert G.SignalExtends(g1, G.Run(g1, later), inputs[n].ref);
  }

  // ---------------------------------------------------------------- promotion

  lemma CandidateHasEvidence(e: Export, source: string, minimum: int, c: Candidate)
    requires Accepts(e, source, minimum) && c in PlanOf(e, source, minimum).candidates && c.Qualifies()
    ensures |c.evidence| >= 2
  {
    ParsedIdsAreDistinct(e);
    PlanPartitionsRecords(e.RecordList(), source, minimum);
    CandidateOrigin(e.RecordList(), source, minimum, c);
    assert SpeaksFor(c, e.RecordList());
  }

  /** Every qualifying cluster passes the promotion checks as soon as its proposal does. */
  lemma ImportedClusterIsEligible(e: Export, source: string, sourceId: string, minimum: int, c: Candidate,
                                  actor: G.ActorId, now: G.Time, proposal: G.Proposal)
    requires Accepts(e, source, minimum) && c in PlanOf(e, source, minimum).candidates && c.Qualifies()
    ensures G.Eligible(G.NewSignal(ClusterInput(c, sourceId), actor, now), proposal)
       <==> proposal.isCreate && proposal.isSufficient
  {
    CandidateHasEvidence(e, source, minimum, c);
    ParsedIdsAreDistinct(e);
    PlanPartitionsRecords(e.RecordList(), source, minimum);
    CandidateOrigin(e.RecordList(), source, minimum, c);
    assert SpeaksFor(c, e.RecordList());
    var r :| r in Members(e.RecordList(), c.key) && AudienceOf(r) == c.audience;
    SingleAudience(r);
    EligibleCluster(c, sourceId, actor, now, proposal);
  }

  lemma EligibleCluster(c: Candidate, sourceId: string, actor: G.ActorId, now: G.Time, proposal: G.Proposal)
    requires |c.evidence| >= 2 && forall i | 0 <= i < 6 :: G.AtMostOne(c.audience.Dimensions()[i])
    ensures G.Eligible(G.NewSignal(ClusterInput(c, sourceId), actor, now), proposal)
       <==> proposal.isCreate && proposal.isSufficient
  {
    var triggers := ClusterInput(c, sourceId).identity.triggers;
    assert triggers[1] == G.TypeLabel(G.TicketCluster) && triggers[2].ImportTrigger?;
  }

  lemma SingleAudience(r: TicketRecord)
    ensures forall i | 0 <= i < 6 :: G.AtMostOne(AudienceOf(r).Dimensions()[i])
  {
  }
}
