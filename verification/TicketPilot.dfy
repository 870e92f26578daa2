/**
 The pilot's report on one ticket export, read back from the stored signals
 (cygnus/governance/ticket_pilot.py).
 */
module TicketPilot {
  import opened Wrappers
  import opened TicketRecords
  import TicketParsing
  import opened TicketPlans
  import opened TicketImport
  import opened TicketRefs
  import G = Governance

  /** What compiling a signal's proposal bundle answers; that code is not part of this model. */
  type Compiler = G.Signal -> G.Proposal

  datatype Row = Row(ref: G.SignalRef, signal: G.Signal)

  datatype Item = Item(source: string, digest: seq<TicketRecord>, ref: G.SignalRef, status: G.SignalStatus,
                       evidenceCount: nat, promotion: Option<G.Promotion>)

  datatype Report = Report(items: seq<Item>, matched: nat, excluded: nat, digests: set<seq<TicketRecord>>,
                           partial: bool)

  function Sources(refs: seq<G.EvidenceRef>): seq<string> {
    seq(|refs|, i requires 0 <= i < |refs| => refs[i].sourceRef)
  }

  /** The rows that the query asks the database for. */
  ghost predicate Selected(signal: G.Signal, asked: string) {
    && signal.identity.signalType.TicketCluster? && signal.identity.evidenceType.ResolvedTicket?
    && PassesFilter(Sources(signal.identity.evidenceRefs), asked)
  }

  function DigestsOf(triggers: seq<G.Trigger>): seq<seq<TicketRecord>> {
    if triggers == [] then []
    else (if triggers[0].ImportTrigger? then [triggers[0].digest] else []) + DigestsOf(triggers[1..])
  }

  /** A signal names exactly one import. */
  function ImportDigest(signal: G.Signal): Option<seq<TicketRecord>> {
    var digests := DigestsOf(signal.identity.triggers);
    if |digests| == 1 then Some(digests[0]) else None
  }

  /** The exact check of one selected signal; its import digest when it passes. */
  function Validated(signal: G.Signal, asked: string, compile: Compiler): Option<seq<TicketRecord>> {
    if CommonSource(Sources(signal.identity.evidenceRefs)) != Some(asked) then None
    else if ImportDigest(signal).None? then None
    else if !G.BackedByImport(signal, compile(signal)) then None
    else ImportDigest(signal)
  }

  function PromotionOf(promotions: map<G.SignalRef, G.Promotion>, ref: G.SignalRef): Option<G.Promotion> {
    if ref in promotions then Some(promotions[ref]) else None
  }

  function ItemOf(row: Row, asked: string, digest: seq<TicketRecord>, promotions: map<G.SignalRef, G.Promotion>): Item {
    Item(asked, digest, row.ref, row.signal.status, |row.signal.identity.evidenceRefs|,
         PromotionOf(promotions, row.ref))
  }

  /** The items of the first k rows. */
  function ItemsTo(rows: seq<Row>, k: nat, asked: string, compile: Compiler, promotions: map<G.SignalRef, G.Promotion>)
    : seq<Item>
    requires k <= |rows|
  {
    if k == 0 then []
    else
      var digest := Validated(rows[k - 1].signal, asked, compile);
      ItemsTo(rows, k - 1, asked, compile, promotions)
      + (if digest.Some? then [ItemOf(rows[k - 1], asked, digest.value, promotions)] else [])
  }

  function ItemDigests(items: seq<Item>): set<seq<TicketRecord>> {
    set item | item in items :: item.digest
  }

  lemma ItemDigestsAppend(items: seq<Item>, item: Item)
    ensures ItemDigests(items + [item]) == ItemDigests(items) + {item.digest}
  {
    assert item in items + [item];
    forall d | d in ItemDigests(items) + {item.digest}
      ensures d in ItemDigests(items + [item])
    {
      if d in ItemDigests(items) {
        var x :| x in items && x.digest == d;
        assert x in items + [item];
      }
    }
  }

  /** Every selected row is either an item or counted as excluded; any exclusion makes the report partial. */
  ghost predicate Reports(r: Report, rows: seq<Row>, asked: string, compile: Compiler,
                          promotions: map<G.SignalRef, G.Promotion>) {
    && r.items == ItemsTo(rows, |rows|, asked, compile, promotions)
    && r.matched == |rows| == |r.items| + r.excluded
    && r.digests == ItemDigests(r.items)
    && (r.partial <==> exists i :: 0 <= i < |rows| && Validated(rows[i].signal, asked, compile).None?)
  }

  /** There are fewer items than rows exactly when some row fails the check. */
  lemma {:induction false} ItemsMissing(rows: seq<Row>, k: nat, asked: string, compile: Compiler,
                                        promotions: map<G.SignalRef, G.Promotion>)
    requires k <= |rows|
    ensures |ItemsTo(rows, k, asked, compile, promotions)| <= k
    ensures |ItemsTo(rows, k, asked, compile, promotions)| < k
       <==> exists i :: 0 <= i < k && Validated(rows[i].signal, asked, compile).None?
  {
    if k > 0 { ItemsMissing(rows, k - 1, asked, compile, promotions); }
  }

  method BuildReport(rows: seq<Row>, asked: string, compile: Compiler, promotions: map<G.SignalRef, G.Promotion>)
    returns (r: Report)
    ensures Reports(r, rows, asked, compile, promotions)
  {
    var items: seq<Item> := [];
    var excluded := 0;
    var digests: set<seq<TicketRecord>> := {};
    for k := 0 to |rows|
      invariant items == ItemsTo(rows, k, asked, compile, promotions)
      invariant k == |items| + excluded
      invariant digests == ItemDigests(items)
    {
      var digest := Validated(rows[k].signal, asked, compile);
      if digest.None? {
        excluded := excluded + 1;
        continue;
      }
      var item := ItemOf(rows[k], asked, digest.value, promotions);
      ItemDigestsAppend(items, item);
      digests := digests + {digest.value};
      items := items + [item];
    }
    ItemsMissing(rows, |rows|, asked, compile, promotions);
    return Report(items, |rows|, excluded, digests, excluded > 0);
  }

  // ---------------------------------------------------------------- the exact check

  /** The i-th trigger is the one that names an import. */
  predicate OnlyImportTrigger(triggers: seq<G.Trigger>, i: nat, digest: seq<TicketRecord>) {
    i < |triggers| && triggers[i] == G.ImportTrigger(digest)
    && forall j | 0 <= j < |triggers| && j != i :: !triggers[j].ImportTrigger?
  }

  lemma {:induction false} NoDigests(triggers: seq<G.Trigger>)
    ensures DigestsOf(triggers) == [] <==> forall i | 0 <= i < |triggers| :: !triggers[i].ImportTrigger?
  {
    if triggers != [] {
      NoDigests(triggers[1..]);
      assert forall i | 0 < i < |triggers| :: triggers[i] == triggers[1..][i - 1];
    }
  }

  lemma OneElement<T>(x: T, rest: seq<T>, y: T)
    ensures [x] + rest == [y] <==> x == y && rest == []
  {
    assert ([x] + rest)[0] == x && |[x] + rest| == 1 + |rest|;
  }

  lemma {:induction false} OneDigest(triggers: seq<G.Trigger>, digest: seq<TicketRecord>)
    ensures DigestsOf(triggers) == [digest] <==> exists i: nat :: OnlyImportTrigger(triggers, i, digest)
  {
    if triggers != [] {
      var rest := triggers[1..];
      if triggers[0].ImportTrigger? {
        NoDigests(rest);
        assert forall i | 0 < i < |triggers| :: triggers[i] == rest[i - 1];
        assert DigestsOf(triggers) == [triggers[0].digest] + DigestsOf(rest);
        OneElement(triggers[0].digest, DigestsOf(rest), digest);
        FirstIsOnly(triggers, digest);
      } else {
        OneDigest(rest, digest);
        assert DigestsOf(triggers) == DigestsOf(rest);
        RestHasOnly(triggers, digest);
      }
    }
  }

  lemma FirstIsOnly(triggers: seq<G.Trigger>, digest: seq<TicketRecord>)
    requires triggers != [] && triggers[0].ImportTrigger?
    ensures (exists i: nat :: OnlyImportTrigger(triggers, i, digest))
       <==> triggers[0].digest == digest && forall i | 0 < i < |triggers| :: !triggers[i].ImportTrigger?
  {
    if triggers[0].digest == digest && forall i | 0 < i < |triggers| :: !triggers[i].ImportTrigger? {
      assert OnlyImportTrigger(triggers, 0, digest);
    }
  }

  lemma RestHasOnly(triggers: seq<G.Trigger>, digest: seq<TicketRecord>)
    requires triggers != [] && !triggers[0].ImportTrigger?
    ensures (exists i: nat :: OnlyImportTrigger(triggers, i, digest))
       <==> exists i: nat :: OnlyImportTrigger(triggers[1..], i, digest)
  {
    var rest := triggers[1..];
    if exists i: nat :: OnlyImportTrigger(triggers, i, digest) {
      var i: nat :| OnlyImportTrigger(triggers, i, digest);
      assert OnlyImportTrigger(rest, i - 1, digest);
    }
    if exists i: nat :: OnlyImportTrigger(rest, i, digest) {
      var i: nat :| OnlyImportTrigger(rest, i, digest);
      forall j | 0 <= j < |triggers| && j != i + 1
        ensures !triggers[j].ImportTrigger?
      {
        if j > 0 { assert triggers[j] == rest[j - 1]; }
      }
      assert OnlyImportTrigger(triggers, i + 1, digest);
    }
  }

  /** All evidence is of the asked source, one trigger names the import, and the cluster may become a draft. */
  ghost predicate PassesExactCheck(s: G.SignalIdentity, asked: string, proposal: G.Proposal,
                                   digest: seq<TicketRecord>)
  {
    && |s.evidenceRefs| >= 2
    && (forall i | 0 <= i < |s.evidenceRefs| :: SourceOf(s.evidenceRefs[i].sourceRef) == Some(asked))
    && (exists i: nat :: OnlyImportTrigger(s.triggers, i, digest)) && G.TypeLabel(G.TicketCluster) in s.triggers
    && s.signalType == G.TicketCluster && s.evidenceType == G.ResolvedTicket && s.pageId == None && s.audience.Some?
    && proposal.isCreate && proposal.isSufficient
  }

  lemma AllOfSource(refs: seq<G.EvidenceRef>, asked: string)
    ensures CommonSource(Sources(refs)) == Some(asked)
       <==> refs != [] && forall i | 0 <= i < |refs| :: SourceOf(refs[i].sourceRef) == Some(asked)
  {
    assert forall i | 0 <= i < |refs| :: Sources(refs)[i] == refs[i].sourceRef;
    if refs != [] { assert Sources(refs)[0] == refs[0].sourceRef; }
  }

  /** A signal is validated for its digest exactly when it passes the exact check with it. */
  lemma ValidatedIff(signal: G.Signal, asked: string, compile: Compiler, digest: seq<TicketRecord>)
    ensures Validated(signal, asked, compile) == Some(digest)
       <==> PassesExactCheck(signal.identity, asked, compile(signal), digest)
  {
    var s := signal.identity;
    AllOfSource(s.evidenceRefs, asked);
    OneDigest(s.triggers, digest);
    if exists i: nat :: OnlyImportTrigger(s.triggers, i, digest) {
      var i: nat :| OnlyImportTrigger(s.triggers, i, digest);
      assert s.triggers[i] in s.triggers;
    }
  }

  // ---------------------------------------------------------------- what the report holds

  /** Whatever the exact check accepts, the query has selected. */
  lemma ValidatedIsSelected(signal: G.Signal, asked: string, compile: Compiler)
    requires Validated(signal, asked, compile).Some?
    ensures Selected(signal, asked)
  {
    FilterNeverMisses(Sources(signal.identity.evidenceRefs), asked);
  }

  ghost predicate IsItemOf(item: Item, rows: seq<Row>, i: nat, asked: string, compile: Compiler,
                           promotions: map<G.SignalRef, G.Promotion>) {
    && i < |rows| && Validated(rows[i].signal, asked, compile).Some?
    && item == ItemOf(rows[i], asked, Validated(rows[i].signal, asked, compile).value, promotions)
  }

  lemma LastItem(rows: seq<Row>, k: nat, asked: string, compile: Compiler, promotions: map<G.SignalRef, G.Promotion>,
                 item: Item)
    requires 0 < k <= |rows|
    ensures item in ItemsTo(rows, k, asked, compile, promotions)
       <==> (item in ItemsTo(rows, k - 1, asked, compile, promotions)
             || IsItemOf(item, rows, k - 1, asked, compile, promotions))
  {
  }

  ghost predicate IsItemBelow(item: Item, rows: seq<Row>, k: nat, asked: string, compile: Compiler,
                              promotions: map<G.SignalRef, G.Promotion>) {
    exists i: nat :: i < k && IsItemOf(item, rows, i, asked, compile, promotions)
  }

  lemma OneMoreItem(rows: seq<Row>, k: nat, asked: string, compile: Compiler, promotions: map<G.SignalRef, G.Promotion>,
                    item: Item)
    requires 0 < k <= |rows|
    ensures IsItemBelow(item, rows, k, asked, compile, promotions)
       <==> (IsItemBelow(item, rows, k - 1, asked, compile, promotions)
             || IsItemOf(item, rows, k - 1, asked, compile, promotions))
  {
  }

  /** An item is in the report exactly when it is the item of some validated row. */
  lemma {:induction false} ItemsAre(rows: seq<Row>, k: nat, asked: string, compile: Compiler,
                                    promotions: map<G.SignalRef, G.Promotion>, item: Item)
    requires k <= |rows|
    ensures item in ItemsTo(rows, k, asked, compile, promotions)
       <==> IsItemBelow(item, rows, k, asked, compile, promotions)
  {
    if k > 0 {
      ItemsAre(rows, k - 1, asked, compile, promotions, item);
      LastItem(rows, k, asked, compile, promotions, item);
      OneMoreItem(rows, k, asked, compile, promotions, item);
    }
  }

  ghost predicate DistinctRows(rows: seq<Row>) {
    forall i, j | 0 <= i < j < |rows| :: rows[i].ref != rows[j].ref
  }

  ghost predicate DistinctItems(items: seq<Item>) {
    forall i, j | 0 <= i < j < |items| :: items[i].ref != items[j].ref
  }

  lemma {:induction false} ItemsDiffer(rows: seq<Row>, k: nat, asked: string, compile: Compiler,
                                       promotions: map<G.SignalRef, G.Promotion>)
    requires k <= |rows| && DistinctRows(rows)
    ensures DistinctItems(ItemsTo(rows, k, asked, compile, promotions))
  {
    if k > 0 {
      ItemsDiffer(rows, k - 1, asked, compile, promotions);
      var front := ItemsTo(rows, k - 1, asked, compile, promotions);
      forall i | 0 <= i < |front|
        ensures front[i].ref != rows[k - 1].ref
      {
        ItemsAre(rows, k - 1, asked, compile, promotions, front[i]);
        var j: nat :| j < k - 1 && IsItemOf(front[i], rows, j, asked, compile, promotions);
        assert rows[j].ref != rows[k - 1].ref;
      }
    }
  }

  // ---------------------------------------------------------------- an import read back

  lemma {:induction false} RecordIdsAreGiven(rows: seq<TicketParsing.Row>, k: nat)
    requires k <= |rows|
    ensures forall r | r in TicketParsing.Records(rows, k) :: r.ticketId != ""
  {
    if k > 0 { RecordIdsAreGiven(rows, k - 1); }
  }

  lemma EvidenceRefIsWritten(records: seq<TicketRecord>, c: Candidate, i: nat)
    requires SpeaksFor(c, records) && i < |c.evidence| && forall r | r in records :: r.ticketId != ""
    ensures IsTicketRef(c.evidence[i].sourceRef, c.sourceRef)
  {
    MembersAre(records, c.key);
    var r :| r in Members(records, c.key) && c.evidence[i] == EvidenceOf(r, c.sourceRef);
    assert c.evidence[i].sourceRef == TicketSourceRef(c.sourceRef, r.ticketId);
  }

  lemma EvidenceIsWritten(records: seq<TicketRecord>, c: Candidate)
    requires SpeaksFor(c, records) && forall r | r in records :: r.ticketId != ""
    ensures WrittenFor(Sources(c.evidence), c.sourceRef)
  {
    forall i | 0 <= i < |c.evidence|
      ensures IsTicketRef(c.evidence[i].sourceRef, c.sourceRef)
    {
      EvidenceRefIsWritten(records, c, i);
    }
    var r :| r in Members(records, c.key) && r.resolvedAt == c.windowEnd;
    assert |Members(records, c.key)| > 0;
  }

  /** Filter and source check together find a candidate's evidence for its own source and for no other. */
  lemma CandidateIsFound(e: Export, source: string, minimum: int, c: Candidate, asked: string)
    requires Accepts(e, source, minimum) && c in PlanOf(e, source, minimum).candidates
    ensures PassesFilter(Sources(c.evidence), asked) && CommonSource(Sources(c.evidence)) == Some(asked)
       <==> asked == source
  {
    ParsedIdsAreDistinct(e);
    RecordIdsAreGiven(e.rows, |e.rows|);
    PlanPartitionsRecords(e.RecordList(), source, minimum);
    CandidateOrigin(e.RecordList(), source, minimum, c);
    EvidenceIsWritten(e.RecordList(), c);
    ReportFindsExactlyItsImports(Sources(c.evidence), source, asked);
  }

  lemma ClusterNamesItsImport(c: Candidate, sourceId: string, signal: G.Signal)
    requires signal.identity == ClusterInput(c, sourceId).identity
    ensures ImportDigest(signal) == Some(c.digest)
  {
    var t := signal.identity.triggers;
    assert t[1..] == [t[1], t[2]] && t[1..][1..] == [t[2]] && t[1..][1..][1..] == [];
    assert DigestsOf(t[1..][1..]) == [c.digest];
    assert DigestsOf(t[1..]) == [c.digest];
  }

  lemma ClusterIsBacked(c: Candidate, sourceId: string, signal: G.Signal, proposal: G.Proposal)
    requires c.Qualifies() && |c.evidence| >= 2 && signal.identity == ClusterInput(c, sourceId).identity
    ensures G.BackedByImport(signal, proposal) <==> proposal.isCreate && proposal.isSufficient
  {
    var t := signal.identity.triggers;
    assert t[1] == G.TypeLabel(G.TicketCluster) && t[2].ImportTrigger?;
  }

  /**
   After an import and any later transactions, the signal of a qualifying cluster is selected and
   validated for the import's own source and for no other, as soon as its proposal passes.
   */
  lemma PilotFindsImport(g: G.State, later: seq<G.Step>, sources: map<string, bool>, e: Export, source: string,
                         sourceId: string, minimum: int, actor: G.ActorId, now: G.Time, c: Candidate,
                         asked: string, compile: Compiler)
    requires G.Inv(g) && sourceId in sources && sources[sourceId] && Accepts(e, source, minimum)
    requires Import(g, sources, e, source, sourceId, minimum, actor, now).1.Ok?
    requires c in PlanOf(e, source, minimum).candidates && c.Qualifies()
    ensures var g' := G.Run(Import(g, sources, e, source, sourceId, minimum, actor, now).0, later);
            && ImportRef(source, c.key) in g'.signals
            && var s := g'.signals[ImportRef(source, c.key)];
            && Selected(s, source)
            && Validated(s, asked, compile)
               == if asked == source && compile(s).isCreate && compile(s).isSufficient then Some(c.digest) else None
  {
    SignalStays(g, later, sources, e, source, sourceId, minimum, actor, now, c);
    var g' := G.Run(Import(g, sources, e, source, sourceId, minimum, actor, now).0, later);
    var s := g'.signals[ImportRef(source, c.key)];
    CandidateHasEvidence(e, source, minimum, c);
    CandidateIsFound(e, source, minimum, c, source);
    CandidateIsFound(e, source, minimum, c, asked);
    ClusterNamesItsImport(c, sourceId, s);
    ClusterIsBacked(c, sourceId, s, compile(s));
    if asked != source && CommonSource(Sources(c.evidence)) == Some(asked) {
      FilterNeverMisses(Sources(c.evidence), asked);
    }
  }

  /** The rows are exactly the selected signals of the store, each once. */
  ghost predicate ListsSelected(rows: seq<Row>, g: G.State, asked: string) {
    && DistinctRows(rows)
    && (forall i | 0 <= i < |rows| ::
          rows[i].ref in g.signals && rows[i].signal == g.signals[rows[i].ref] && Selected(rows[i].signal, asked))
    && (forall ref | ref in g.signals && Selected(g.signals[ref], asked) ::
          exists i :: 0 <= i < |rows| && rows[i].ref == ref)
  }

  /** The report has an item for a signal exactly when the store holds it and it passes the exact check. */
  lemma ReportIsExact(g: G.State, rows: seq<Row>, asked: string, compile: Compiler,
                      promotions: map<G.SignalRef, G.Promotion>, r: Report, ref: G.SignalRef)
    requires ListsSelected(rows, g, asked) && Reports(r, rows, asked, compile, promotions)
    ensures (exists item :: item in r.items && item.ref == ref)
       <==> ref in g.signals && Validated(g.signals[ref], asked, compile).Some?
    ensures forall item | item in r.items && item.ref == ref ::
              && ref in g.signals && Validated(g.signals[ref], asked, compile) == Some(item.digest)
              && item.source == asked && item.evidenceCount == |g.signals[ref].identity.evidenceRefs|
              && item.status == g.signals[ref].status && item.promotion == PromotionOf(promotions, ref)
    ensures DistinctItems(r.items)
  {
    ItemsDiffer(rows, |rows|, asked, compile, promotions);
    forall item | item in r.items && item.ref == ref
      ensures ref in g.signals && Validated(g.signals[ref], asked, compile) == Some(item.digest)
      ensures item.source == asked && item.evidenceCount == |g.signals[ref].identity.evidenceRefs|
      ensures item.status == g.signals[ref].status && item.promotion == PromotionOf(promotions, ref)
    {
      ItemsAre(rows, |rows|, asked, compile, promotions, item);
    }
    if ref in g.signals && Validated(g.signals[ref], asked, compile).Some? {
      ValidatedIsSelected(g.signals[ref], asked, compile);
      var i :| 0 <= i < |rows| && rows[i].ref == ref;
      var item := ItemOf(rows[i], asked, Validated(rows[i].signal, asked, compile).value, promotions);
      assert IsItemOf(item, rows, i, asked, compile, promotions);
      ItemsAre(rows, |rows|, asked, compile, promotions, item);
    }
  }

  /**
   The report read in any later state names a qualifying cluster under its own source only, with the
   digest of its import.
   */
  lemma ReportNamesImport(g: G.State, later: seq<G.Step>, sources: map<string, bool>, e: Export, source: string,
                          sourceId: string, minimum: int, actor: G.ActorId, now: G.Time, c: Candidate,
                          asked: string, compile: Compiler, rows: seq<Row>, promotions: map<G.SignalRef, G.Promotion>,
                          r: Report)
    requires G.Inv(g) && sourceId in sources && sources[sourceId] && Accepts(e, source, minimum)
    requires Import(g, sources, e, source, sourceId, minimum, actor, now).1.Ok?
    requires c in PlanOf(e, source, minimum).candidates && c.Qualifies()
    requires ListsSelected(rows, G.Run(Import(g, sources, e, source, sourceId, minimum, actor, now).0, later), asked)
    requires Reports(r, rows, asked, compile, promotions)
    ensures var g' := G.Run(Import(g, sources, e, source, sourceId, minimum, actor, now).0, later);
            var ref := ImportRef(source, c.key);
            && ref in g'.signals
            && ((exists item :: item in r.items && item.ref == ref)
                <==> asked == source && compile(g'.signals[ref]).isCreate && compile(g'.signals[ref]).isSufficient)
    ensures forall item | item in r.items && item.ref == ImportRef(source, c.key) :: item.digest == c.digest
  {
    var g' := G.Run(Import(g, sources, e, source, sourceId, minimum, actor, now).0, later);
    PilotFindsImport(g, later, sources, e, source, sourceId, minimum, actor, now, c, asked, compile);
    ReportIsExact(g', rows, asked, compile, promotions, r, ImportRef(source, c.key));
  }
}
