/**
 When two tickets are one issue, and what the plan and the stored signals say of an issue
 (cygnus/governance/ticket_import.py).
 */
module TicketClusters {
  import opened Wrappers
  import opened Ordering
  import opened Audience
  import opened TicketRecords
  import opened TicketPlans
  import opened TicketImport
  import TicketRefs
  import Texts
  import G = Governance

  // ---------------------------------------------------------------- one issue

  /** The words of an optional field; an absent field says nothing. */
  function Said(o: Option<string>): string {
    match o
    case None => ""
    case Some(text) => text
  }

  /** Two tickets report one issue: the same signature for the same kind of object, in the same dimensions. */
  predicate SameIssue(a: TicketRecord, b: TicketRecord) {
    && a.issueSignature == b.issueSignature && a.objectType == b.objectType
    && Said(a.productLine) == Said(b.productLine) && Said(a.feature) == Said(b.feature)
    && Said(a.plan) == Said(b.plan) && Said(a.region) == Said(b.region)
    && Said(a.language) == Said(b.language) && Said(a.productVersion) == Said(b.productVersion)
  }

  /** Tickets share a cluster key exactly when they report one issue. */
  lemma ClusterKeyIffSameIssue(a: TicketRecord, b: TicketRecord)
    ensures ClusterKey(a) == ClusterKey(b) <==> SameIssue(a, b)
  {
    var k, l := ClusterKey(a), ClusterKey(b);
    assert forall o: Option<string> :: TextOf(o) == Said(o);
    if k == l {
      assert k[0] == l[0] && k[1] == l[1] && k[2] == l[2] && k[3] == l[3];
      assert k[4] == l[4] && k[5] == l[5] && k[6] == l[6] && k[7] == l[7];
    }
  }

  /** One value where something was said, none where nothing was. */
  predicate Names(dimension: seq<string>, o: Option<string>) {
    dimension == if Said(o) == "" then [] else [Said(o)]
  }

  /** The candidate is about the ticket's issue, for internal readers in the ticket's dimensions. */
  predicate Describes(c: Candidate, r: TicketRecord) {
    && c.issueSignature == r.issueSignature && c.objectType == r.objectType && Said(c.feature) == Said(r.feature)
    && c.audience.visibility == Internal && c.audience.brands == []
    && Names(c.audience.productLines, r.productLine) && Names(c.audience.plans, r.plan)
    && Names(c.audience.regions, r.region) && Names(c.audience.languages, r.language)
    && Names(c.audience.productVersions, r.productVersion)
  }

  lemma DescribesIffSameIssue(ordered: seq<TicketRecord>, source: string, digest: seq<TicketRecord>, minimum: int,
                              r: TicketRecord)
    requires ordered != []
    ensures Describes(CandidateOf(ordered, source, digest, minimum), r) <==> SameIssue(ordered[0], r)
  {
  }

  // ---------------------------------------------------------------- the order of issues

  /** The order in which a plan lists issues: by signature, then dimension by dimension, then by kind of object. */
  predicate ListedBefore(a: TicketRecord, b: TicketRecord) {
    || StringLt(a.issueSignature, b.issueSignature)
    || (a.issueSignature == b.issueSignature
        && (|| StringLt(Said(a.productLine), Said(b.productLine))
            || (Said(a.productLine) == Said(b.productLine)
                && (|| StringLt(Said(a.feature), Said(b.feature))
                    || (Said(a.feature) == Said(b.feature) && InLaterDimensions(a, b))))))
  }

  predicate InLaterDimensions(a: TicketRecord, b: TicketRecord) {
    || StringLt(Said(a.plan), Said(b.plan))
    || (Said(a.plan) == Said(b.plan)
        && (|| StringLt(Said(a.region), Said(b.region))
            || (Said(a.region) == Said(b.region)
                && (|| StringLt(Said(a.language), Said(b.language))
                    || (Said(a.language) == Said(b.language)
                        && (|| StringLt(Said(a.productVersion), Said(b.productVersion))
                            || (Said(a.productVersion) == Said(b.productVersion)
                                && StringLt(a.objectType, b.objectType))))))))
  }

  lemma TupleLtAt(a: Key, b: Key, k: nat)
    requires k < |a| == |b|
    ensures TupleLt(a[k..], b[k..]) <==> StringLt(a[k], b[k]) || (a[k] == b[k] && TupleLt(a[k + 1..], b[k + 1..]))
  {
    assert a[k..][1..] == a[k + 1..] && b[k..][1..] == b[k + 1..];
  }

  lemma LaterDimensions(a: TicketRecord, b: TicketRecord)
    ensures TupleLt(ClusterKey(a)[3..], ClusterKey(b)[3..]) <==> InLaterDimensions(a, b)
  {
    var k, l := ClusterKey(a), ClusterKey(b);
    TupleLtAt(k, l, 3);
    TupleLtAt(k, l, 4);
    TupleLtAt(k, l, 5);
    TupleLtAt(k, l, 6);
    TupleLtAt(k, l, 7);
    assert k[8..] == [] && l[8..] == [];
  }

  lemma KeyOrder(a: TicketRecord, b: TicketRecord)
    ensures TupleLt(ClusterKey(a), ClusterKey(b)) <==> ListedBefore(a, b)
  {
    var k, l := ClusterKey(a), ClusterKey(b);
    assert k[0..] == k && l[0..] == l;
    TupleLtAt(k, l, 0);
    TupleLtAt(k, l, 1);
    TupleLtAt(k, l, 2);
    LaterDimensions(a, b);
  }

  /** How many of the first k tickets report the issue of `r`. */
  function Reports(records: seq<TicketRecord>, k: nat, r: TicketRecord): nat
    requires k <= |records|
  {
    if k == 0 then 0 else Reports(records, k - 1, r) + (if SameIssue(records[k - 1], r) then 1 else 0)
  }

  lemma {:induction false} MembersAreReports(records: seq<TicketRecord>, k: nat, r: TicketRecord)
    requires k <= |records|
    ensures |MembersTo(records, ClusterKey(r), k)| == Reports(records, k, r)
  {
    if k > 0 {
      MembersAreReports(records, k - 1, r);
      ClusterKeyIffSameIssue(records[k - 1], r);
    }
  }

  /** A candidate describes a ticket exactly when the ticket has its key. */
  lemma DescribesIffKey(records: seq<TicketRecord>, source: string, minimum: int, i: nat, r: TicketRecord)
    requires DistinctIds(records) && i < |SortedKeys(records)|
    ensures var c := Candidates(records, source, minimum)[i];
            Describes(c, r) <==> ClusterKey(r) == c.key
  {
    var ordered := Ordered(records, SortedKeys(records)[i]);
    SortedKeyHasTickets(records, i);
    OrderedCluster(records, SortedKeys(records)[i]);
    assert ordered[0] in ordered;
    DescribesIffSameIssue(ordered, source, Digest(records), minimum, r);
    ClusterKeyIffSameIssue(ordered[0], r);
  }

  /**
   Every ticket is described by exactly one candidate of a plan, and a candidate counts exactly the
   tickets that report the issue of any ticket it describes.
   */
  lemma PlanCountsIssues(records: seq<TicketRecord>, source: string, minimum: int, r: TicketRecord) returns (i: nat)
    requires DistinctIds(records) && BuildPlan(records, source, minimum).Ok? && r in records
    ensures var candidates := BuildPlan(records, source, minimum).value.candidates;
            && i < |candidates| && Describes(candidates[i], r)
            && candidates[i].memberCount == Reports(records, |records|, r)
            && (forall j | 0 <= j < |candidates| && j != i :: !Describes(candidates[j], r))
            && (forall s :: Describes(candidates[i], s) <==> SameIssue(r, s))
  {
    var candidates := BuildPlan(records, source, minimum).value.candidates;
    EveryRecordHasCandidate(records, source, minimum, r);
    i :| 0 <= i < |candidates| && candidates[i].key == ClusterKey(r);
    CandidatesSpeak(records, source, minimum, i);
    MembersAreReports(records, |records|, r);
    SortedKeysAre(records);
    SortedAreDistinct(SortedKeys(records));
    forall j | 0 <= j < |candidates|
      ensures Describes(candidates[j], r) <==> j == i
    {
      DescribesIffKey(records, source, minimum, j, r);
      CandidatesSpeak(records, source, minimum, j);
    }
    forall s
      ensures Describes(candidates[i], s) <==> SameIssue(r, s)
    {
      DescribesIffKey(records, source, minimum, i, s);
      ClusterKeyIffSameIssue(r, s);
    }
  }

  /** Two tickets are counted in one candidate exactly when they report one issue. */
  lemma OneCandidateIffOneIssue(records: seq<TicketRecord>, source: string, minimum: int, a: TicketRecord,
                                b: TicketRecord)
    requires DistinctIds(records) && BuildPlan(records, source, minimum).Ok? && a in records && b in records
    ensures var candidates := BuildPlan(records, source, minimum).value.candidates;
            (exists i :: 0 <= i < |candidates| && Describes(candidates[i], a) && Describes(candidates[i], b))
            <==> SameIssue(a, b)
  {
    var i := PlanCountsIssues(records, source, minimum, a);
  }

  /** Of two candidates the one whose issue is listed before stands first. */
  lemma CandidatesInOrder(records: seq<TicketRecord>, source: string, minimum: int, i: nat, j: nat,
                          a: TicketRecord, b: TicketRecord)
    requires DistinctIds(records) && BuildPlan(records, source, minimum).Ok? && a in records && b in records
    requires i < |BuildPlan(records, source, minimum).value.candidates|
    requires j < |BuildPlan(records, source, minimum).value.candidates|
    requires var candidates := BuildPlan(records, source, minimum).value.candidates;
             Describes(candidates[i], a) && Describes(candidates[j], b)
    ensures i < j <==> ListedBefore(a, b)
  {
    KeysInOrder(records, source, minimum, i, j);
    DescribesIffKey(records, source, minimum, i, a);
    DescribesIffKey(records, source, minimum, j, b);
    KeyOrder(a, b);
  }

  lemma KeysInOrder(records: seq<TicketRecord>, source: string, minimum: int, i: nat, j: nat)
    requires DistinctIds(records) && BuildPlan(records, source, minimum).Ok?
    requires i < |BuildPlan(records, source, minimum).value.candidates|
    requires j < |BuildPlan(records, source, minimum).value.candidates|
    ensures var candidates := BuildPlan(records, source, minimum).value.candidates;
            i < j <==> TupleLt(candidates[i].key, candidates[j].key)
  {
    PlanPartitionsRecords(records, source, minimum);
    StrictPositions(BuildPlan(records, source, minimum).value.candidates, i, j);
  }

  lemma StrictPositions(candidates: seq<Candidate>, i: nat, j: nat)
    requires i < |candidates| && j < |candidates|
    requires forall i, j | 0 <= i < j < |candidates| :: TupleLt(candidates[i].key, candidates[j].key)
    ensures i < j <==> TupleLt(candidates[i].key, candidates[j].key)
  {
    var a, b := candidates[i].key, candidates[j].key;
    TupleLtIsOrder();
    assert !TupleLt(a, a);
    if j < i { assert TupleLt(b, a); }
  }

  /** No candidate stands for nothing: each describes some ticket of the export. */
  lemma EveryCandidateHasTicket(records: seq<TicketRecord>, source: string, minimum: int, i: nat)
    returns (r: TicketRecord)
    requires DistinctIds(records) && BuildPlan(records, source, minimum).Ok?
    requires i < |BuildPlan(records, source, minimum).value.candidates|
    ensures r in records && Describes(BuildPlan(records, source, minimum).value.candidates[i], r)
  {
    r := FirstOfCluster(records, i);
    CandidatesSpeak(records, source, minimum, i);
    DescribesIffKey(records, source, minimum, i, r);
  }

  lemma FirstOfCluster(records: seq<TicketRecord>, i: nat) returns (r: TicketRecord)
    requires DistinctIds(records) && i < |SortedKeys(records)|
    ensures r in records && ClusterKey(r) == SortedKeys(records)[i]
  {
    var key := SortedKeys(records)[i];
    SortedKeyHasTickets(records, i);
    OrderedCluster(records, key);
    r := Ordered(records, key)[0];
    assert r in Ordered(records, key);
    MembersAre(records, key);
  }

  // ---------------------------------------------------------------- which plans are refused

  /** A source is named by 1 to 300 characters, none of them a control character. */
  predicate NamesSource(source: string) {
    1 <= |source| <= 300 && forall c | c in source :: c >= ' '
  }

  lemma NamesSourceIff(source: string)
    ensures NamesSource(source) <==> ValidSourceRef(source)
  {
    if NamesSource(source) { assert forall i | 0 <= i < |source| :: source[i] in source; }
  }

  /**
   A plan is refused for a bad source name, a threshold outside 2 to 100, or no records, in this order; or
   because the reference of a ticket to be shown has more than a thousand characters.
   */
  lemma PlanDecides(records: seq<TicketRecord>, source: string, minimum: int)
    requires DistinctIds(records)
    ensures var r := BuildPlan(records, source, minimum);
            && (r == Err(BadSourceRef) <==> !NamesSource(source))
            && (r == Err(BadMinimum) <==> NamesSource(source) && !(2 <= minimum <= 100))
            && (r == Err(NoRecords) <==> NamesSource(source) && 2 <= minimum <= 100 && records == [])
            && (r == Err(EvidenceTooLong) ==>
                  exists x :: x in records && |TicketRefs.TicketSourceRef(source, x.ticketId)| > 1000)
            && (r.Ok? ==>
                  && r.value.sourceRef == source && r.value.minimum == minimum && r.value.recordCount == |records|
                  && multiset(r.value.digest) == multiset(records)
                  && forall x | x in records && Reports(records, |records|, x) <= 100 ::
                       |TicketRefs.TicketSourceRef(source, x.ticketId)| <= 1000)
  {
    NamesSourceIff(source);
    var r := BuildPlan(records, source, minimum);
    if r == Err(EvidenceTooLong) {
      var x := LongReference(records, source, minimum);
      assert x in records;
    }
    if r.Ok? {
      forall x | x in records && Reports(records, |records|, x) <= 100
        ensures |TicketRefs.TicketSourceRef(source, x.ticketId)| <= 1000
      {
        ShownReferenceFits(records, source, minimum, x);
      }
    }
  }

  lemma LongReference(records: seq<TicketRecord>, source: string, minimum: int) returns (x: TicketRecord)
    requires DistinctIds(records) && !AllFit(Candidates(records, source, minimum))
    ensures x in records && |TicketRefs.TicketSourceRef(source, x.ticketId)| > 1000
  {
    var candidates := Candidates(records, source, minimum);
    var i :| 0 <= i < |candidates| && !EvidenceFits(candidates[i]);
    var c := candidates[i];
    CandidatesSpeak(records, source, minimum, i);
    CandidateOrigin(records, source, minimum, c);
    var k :| 0 <= k < |c.evidence| && |c.evidence[k].sourceRef| > 1000;
    x := ShownTicket(c, records, k);
  }

  lemma ShownTicket(c: Candidate, records: seq<TicketRecord>, k: nat) returns (x: TicketRecord)
    requires SpeaksFor(c, records) && k < |c.evidence|
    ensures x in records && c.evidence[k].sourceRef == TicketRefs.TicketSourceRef(c.sourceRef, x.ticketId)
  {
    MembersAre(records, c.key);
    var members := Members(records, c.key);
    assert EvidenceFor(c, members);
    x :| x in members && c.evidence[k] == EvidenceOf(x, c.sourceRef);
  }

  lemma ShownReferenceFits(records: seq<TicketRecord>, source: string, minimum: int, x: TicketRecord)
    requires DistinctIds(records) && BuildPlan(records, source, minimum).Ok? && x in records
    requires Reports(records, |records|, x) <= 100
    ensures |TicketRefs.TicketSourceRef(source, x.ticketId)| <= 1000
  {
    var i := PlanCountsIssues(records, source, minimum, x);
    var c := BuildPlan(records, source, minimum).value.candidates[i];
    DescribesIffKey(records, source, minimum, i, x);
    CandidatesSpeak(records, source, minimum, i);
    CandidateOrigin(records, source, minimum, c);
    assert EvidenceFits(c);
    var k := PlaceInEvidence(c, records, x);
  }

  /** A cluster of at most a hundred tickets shows them all. */
  lemma PlaceInEvidence(c: Candidate, records: seq<TicketRecord>, x: TicketRecord) returns (k: nat)
    requires DistinctIds(records) && SpeaksFor(c, records) && c.key == ClusterKey(x) && x in records
    requires c.memberCount <= 100
    ensures k < |c.evidence| && c.evidence[k].sourceRef == TicketRefs.TicketSourceRef(c.sourceRef, x.ticketId)
  {
    var members := Members(records, c.key);
    MembersAre(records, c.key);
    MembersDistinct(records, c.key);
    assert EvidenceFor(c, members);
    var shown :| ShownFirst(c, members, shown);
    AllShown(members, shown, x);
    k :| 0 <= k < |shown| && shown[k] == x;
    assert c.evidence[k] == EvidenceOf(x, c.sourceRef);
  }

  /** As many different members as there are members are all of them. */
  lemma AllShown(members: seq<TicketRecord>, shown: seq<TicketRecord>, x: TicketRecord)
    requires Distinct(members) && |shown| == |members| && StrictlySorted(ByArrival, shown)
    requires (forall i | 0 <= i < |shown| :: shown[i] in members) && x in members
    ensures x in shown
  {
    ByArrivalIsOrder();
    assert Distinct(shown);
    var all, some := set r | r in members, set r | r in shown;
    DistinctSize(members, all);
    DistinctSize(shown, some);
    SameSizeSubset(some, all);
  }

  lemma {:induction false} DistinctSize(s: seq<TicketRecord>, elements: set<TicketRecord>)
    requires Distinct(s) && forall x :: x in elements <==> x in s
    ensures |elements| == |s|
  {
    if s == [] {
      assert elements == {};
    } else {
      var front, last := s[..|s| - 1], s[|s| - 1];
      assert s == front + [last];
      DistinctSize(front, elements - {last});
    }
  }

  lemma SameSizeSubset(a: set<TicketRecord>, b: set<TicketRecord>)
    requires a <= b && |a| == |b|
    ensures a == b
  {
    assert |b - a| == |b| - |a|;
    assert b == a + (b - a);
  }

  // ---------------------------------------------------------------- what an import stores

  /** The evidence is the ticket's reference, its shortened texts, and when it was resolved. */
  predicate ShowsTicket(e: G.EvidenceRef, r: TicketRecord, source: string) {
    && e.evidenceId == G.TicketEvidence(source, r.ticketId)
    && e.sourceRef == TicketRefs.TicketSourceRef(source, r.ticketId)
    && e.observedAt == Some(r.resolvedAt)
    && e.excerpt == Some(Texts.Truncate(r.summary + " Resolution: " + r.resolution, 4000))
  }

  /** Resolved earlier, or at the same time under a smaller ticket id. */
  predicate CameInBefore(a: TicketRecord, b: TicketRecord) {
    a.resolvedAt < b.resolvedAt || (a.resolvedAt == b.resolvedAt && StringLt(a.ticketId, b.ticketId))
  }

  /** The evidence shows the tickets of the issue that came in first, in that order and at most a hundred. */
  ghost predicate ShowsIssue(evidence: seq<G.EvidenceRef>, records: seq<TicketRecord>, r: TicketRecord, source: string,
                             shown: seq<TicketRecord>)
  {
    var n := Reports(records, |records|, r);
    && |evidence| == |shown| == (if n <= 100 then n else 100)
    && (forall i, j | 0 <= i < j < |shown| :: CameInBefore(shown[i], shown[j]))
    && (forall i | 0 <= i < |shown| ::
          shown[i] in records && SameIssue(shown[i], r) && ShowsTicket(evidence[i], shown[i], source))
    && (forall x, i | x in records && SameIssue(x, r) && x !in shown && 0 <= i < |shown| ::
          CameInBefore(shown[i], x))
  }

  /** The title and the words for the feature are those of the ticket that came in first. */
  ghost predicate SpeaksAsFirst(i: G.SignalIdentity, records: seq<TicketRecord>, r: TicketRecord, first: TicketRecord) {
    && first in records && SameIssue(first, r)
    && (forall x | x in records && SameIssue(x, r) && x != first :: CameInBefore(first, x))
    && i.title == first.title
  }

  /** What the signal of an issue says. */
  ghost predicate TellsIssue(i: G.SignalIdentity, records: seq<TicketRecord>, r: TicketRecord, source: string,
                             sourceId: string, minimum: int)
  {
    var n := Reports(records, |records|, r);
    && i.signalType == G.TicketCluster && i.objectType == r.objectType
    && i.pageId == None && i.sourceId == Some(sourceId) && i.audienceBindingRef == None
    && i.objectRef == G.TicketClusterRef(
         source, if |r.issueSignature| <= 80 then r.issueSignature else r.issueSignature[..80], ClusterKey(r))
    && i.audience.Some? && i.audience.value.visibility == Internal && i.audience.value.brands == []
    && Names(i.audience.value.productLines, r.productLine) && Names(i.audience.value.plans, r.plan)
    && Names(i.audience.value.regions, r.region) && Names(i.audience.value.languages, r.language)
    && Names(i.audience.value.productVersions, r.productVersion)
    && i.affectedSurfaces == [G.Copilot, G.ReviewQueue]
    && i.evidenceType == G.ResolvedTicket && i.freshness == G.Unknown
    && (exists digest :: TellsImport(i, digest, records, r, n, source, minimum))
    && (exists first :: SpeaksAsFirst(i, records, r, first))
    && (exists shown :: ShowsIssue(i.evidenceRefs, records, r, source, shown))
  }

  /** The digest in triggers and reason stands for exactly the records of the export. */
  ghost predicate TellsImport(i: G.SignalIdentity, digest: seq<TicketRecord>, records: seq<TicketRecord>,
                              r: TicketRecord, n: nat, source: string, minimum: int)
  {
    && multiset(digest) == multiset(records)
    && i.triggers == [G.Label("ticket_pressure"), G.TypeLabel(G.TicketCluster), G.ImportTrigger(digest)]
    && i.reason == G.ClusterReason(n, minimum, digest)
    && i.summary == G.ClusterSummary(n, r.issueSignature, if Said(r.feature) == "" then None else Some(Said(r.feature)),
                                     source)
  }

  /** The signal was seen when the last ticket of the issue was resolved. */
  ghost predicate SeenLast(at: G.Time, records: seq<TicketRecord>, r: TicketRecord) {
    && (forall x | x in records && SameIssue(x, r) :: x.resolvedAt <= at)
    && (exists x :: x in records && SameIssue(x, r) && x.resolvedAt == at)
  }

  lemma MembersAreTheIssue(records: seq<TicketRecord>, r: TicketRecord)
    ensures forall x :: x in Members(records, ClusterKey(r)) <==> x in records && SameIssue(x, r)
  {
    MembersAre(records, ClusterKey(r));
    forall x
      ensures x in Members(records, ClusterKey(r)) <==> x in records && SameIssue(x, r)
    {
      ClusterKeyIffSameIssue(x, r);
    }
  }

  /** The candidate of the issue of `r`, planned for this source and threshold. */
  ghost predicate PlannedFor(c: Candidate, records: seq<TicketRecord>, r: TicketRecord, source: string, minimum: int) {
    && SpeaksFor(c, records) && c.key == ClusterKey(r) && Describes(c, r)
    && c.memberCount == Reports(records, |records|, r)
    && c.sourceRef == source && c.minimum == minimum && multiset(c.digest) == multiset(records)
  }

  lemma CandidateShowsIssue(c: Candidate, records: seq<TicketRecord>, r: TicketRecord, source: string, minimum: int)
    requires PlannedFor(c, records, r, source, minimum)
    ensures exists shown :: ShowsIssue(c.evidence, records, r, source, shown)
  {
    MembersAreTheIssue(records, r);
    var members := Members(records, c.key);
    assert EvidenceFor(c, members);
    var shown :| ShownFirst(c, members, shown);
    MembersAreReports(records, |records|, r);
    forall i | 0 <= i < |shown|
      ensures shown[i] in records && SameIssue(shown[i], r) && ShowsTicket(c.evidence[i], shown[i], source)
      ensures forall x | x in records && SameIssue(x, r) && x !in shown :: CameInBefore(shown[i], x)
      ensures forall j | i < j < |shown| :: CameInBefore(shown[i], shown[j])
    {
      assert shown[i] in members && c.evidence[i] == EvidenceOf(shown[i], c.sourceRef);
      ArrivesFirst(c, records, r, shown, i);
    }
    assert ShowsIssue(c.evidence, records, r, source, shown);
  }

  lemma ArrivesFirst(c: Candidate, records: seq<TicketRecord>, r: TicketRecord, shown: seq<TicketRecord>, i: nat)
    requires c.key == ClusterKey(r) && ShownFirst(c, Members(records, c.key), shown) && i < |shown|
    ensures forall x | x in records && SameIssue(x, r) && x !in shown :: CameInBefore(shown[i], x)
    ensures forall j | i < j < |shown| :: CameInBefore(shown[i], shown[j])
  {
    MembersAreTheIssue(records, r);
    forall x | x in records && SameIssue(x, r) && x !in shown
      ensures CameInBefore(shown[i], x)
    {
      assert ByArrival(shown[i], x);
    }
    forall j | i < j < |shown|
      ensures CameInBefore(shown[i], shown[j])
    {
      assert ByArrival(shown[i], shown[j]);
    }
  }

  lemma CandidateSpeaksAsFirst(c: Candidate, records: seq<TicketRecord>, r: TicketRecord, source: string,
                               sourceId: string, minimum: int)
    requires PlannedFor(c, records, r, source, minimum)
    ensures exists first :: SpeaksAsFirst(ClusterInput(c, sourceId).identity, records, r, first)
    ensures SeenLast(c.windowEnd, records, r)
  {
    MembersAreTheIssue(records, r);
    var members := Members(records, c.key);
    assert WindowOf(c, members);
    var first :| first in members && IsEarliest(first, members) && first.title == c.title;
    assert SpeaksAsFirst(ClusterInput(c, sourceId).identity, records, r, first);
    var last :| last in members && last.resolvedAt == c.windowEnd;
    assert last in records && SameIssue(last, r);
  }

  lemma CandidateTellsIssue(c: Candidate, records: seq<TicketRecord>, r: TicketRecord, source: string,
                            sourceId: string, minimum: int)
    requires PlannedFor(c, records, r, source, minimum)
    ensures var input := ClusterInput(c, sourceId);
            && input.ref == ImportRef(source, ClusterKey(r))
            && TellsIssue(input.identity, records, r, source, sourceId, minimum)
            && input.observedAt.Some? && SeenLast(input.observedAt.value, records, r)
  {
    CandidateShowsIssue(c, records, r, source, minimum);
    CandidateSpeaksAsFirst(c, records, r, source, sourceId, minimum);
    assert TellsImport(ClusterInput(c, sourceId).identity, c.digest, records, r, c.memberCount, source, minimum);
  }

  /** The plan of an accepted export has such a candidate for every ticket. */
  lemma PlanHasIssue(e: Export, source: string, minimum: int, r: TicketRecord) returns (c: Candidate)
    requires Accepts(e, source, minimum) && r in e.RecordList()
    ensures c in PlanOf(e, source, minimum).candidates && PlannedFor(c, e.RecordList(), r, source, minimum)
  {
    var records := e.RecordList();
    ParsedIdsAreDistinct(e);
    var i := PlanCountsIssues(records, source, minimum, r);
    c := PlanOf(e, source, minimum).candidates[i];
    DescribesIffKey(records, source, minimum, i, r);
    CandidatesSpeak(records, source, minimum, i);
    CandidateOrigin(records, source, minimum, c);
  }

  /** Creating signals for other references leaves a reference as it is. */
  lemma {:induction false} CreateToLeavesRef(g: G.State, inputs: seq<G.SignalInput>, k: nat, ref: G.SignalRef,
                                             actor: G.ActorId, now: G.Time)
    requires k <= |inputs| && forall i | 0 <= i < k :: inputs[i].ref != ref
    ensures var g' := CreateTo(g, inputs, k, actor, now).0;
            (ref in g'.signals <==> ref in g.signals) && (ref in g.signals ==> g'.signals[ref] == g.signals[ref])
  {
    if k > 0 { CreateToLeavesRef(g, inputs, k - 1, ref, actor, now); }
  }

  lemma NoInputForSmallIssue(e: Export, source: string, sourceId: string, minimum: int, r: TicketRecord)
    requires Accepts(e, source, minimum) && r in e.RecordList()
    requires Reports(e.RecordList(), |e.RecordList()|, r) < minimum
    ensures forall x | x in Inputs(PlanOf(e, source, minimum), sourceId) :: x.ref != ImportRef(source, ClusterKey(r))
  {
    var records, candidates := e.RecordList(), PlanOf(e, source, minimum).candidates;
    ParsedIdsAreDistinct(e);
    InputOrigin(candidates, sourceId, |candidates|);
    forall x | x in Inputs(PlanOf(e, source, minimum), sourceId)
      ensures x.ref != ImportRef(source, ClusterKey(r))
    {
      var i :| 0 <= i < |candidates| && candidates[i].Qualifies() && x == ClusterInput(candidates[i], sourceId);
      CandidatesSpeak(records, source, minimum, i);
      CandidateOrigin(records, source, minimum, candidates[i]);
      MembersAreReports(records, |records|, r);
    }
  }

  /**
   An accepted import has the signal of an issue exactly when at least the minimum of its tickets report
   that issue, or the signal was there before; and the signal then says what those tickets say.
   */
  lemma ImportStoresIssue(g: G.State, sources: map<string, bool>, e: Export, source: string, sourceId: string,
                          minimum: int, actor: G.ActorId, now: G.Time, r: TicketRecord)
    requires Accepts(e, source, minimum) && sourceId in sources && sources[sourceId] && r in e.RecordList()
    requires Import(g, sources, e, source, sourceId, minimum, actor, now).1.Ok?
    ensures var g' := Import(g, sources, e, source, sourceId, minimum, actor, now).0;
            var records, ref := e.RecordList(), ImportRef(source, ClusterKey(r));
            var reported := Reports(records, |records|, r) >= minimum;
            && (ref in g'.signals <==> reported || ref in g.signals)
            && (reported ==>
                  && TellsIssue(g'.signals[ref].identity, records, r, source, sourceId, minimum)
                  && SeenLast(g'.signals[ref].observedAt, records, r))
  {
    var records, ref := e.RecordList(), ImportRef(source, ClusterKey(r));
    if Reports(records, |records|, r) >= minimum {
      ImportStoresReported(g, sources, e, source, sourceId, minimum, actor, now, r);
    } else {
      var inputs := Inputs(PlanOf(e, source, minimum), sourceId);
      ImportState(g, sources, e, source, sourceId, minimum, actor, now);
      NoInputForSmallIssue(e, source, sourceId, minimum, r);
      CreateToLeavesRef(g, inputs, |inputs|, ref, actor, now);
    }
  }

  lemma ImportStoresReported(g: G.State, sources: map<string, bool>, e: Export, source: string, sourceId: string,
                             minimum: int, actor: G.ActorId, now: G.Time, r: TicketRecord)
    requires Accepts(e, source, minimum) && sourceId in sources && sources[sourceId] && r in e.RecordList()
    requires Import(g, sources, e, source, sourceId, minimum, actor, now).1.Ok?
    requires Reports(e.RecordList(), |e.RecordList()|, r) >= minimum
    ensures var g' := Import(g, sources, e, source, sourceId, minimum, actor, now).0;
            var ref := ImportRef(source, ClusterKey(r));
            && ref in g'.signals
            && TellsIssue(g'.signals[ref].identity, e.RecordList(), r, source, sourceId, minimum)
            && SeenLast(g'.signals[ref].observedAt, e.RecordList(), r)
  {
    var c := PlanHasIssue(e, source, minimum, r);
    CandidateTellsIssue(c, e.RecordList(), r, source, sourceId, minimum);
    ImportStoresCandidate(g, sources, e, source, sourceId, minimum, actor, now, c);
  }

  lemma ImportStoresCandidate(g: G.State, sources: map<string, bool>, e: Export, source: string, sourceId: string,
                              minimum: int, actor: G.ActorId, now: G.Time, c: Candidate)
    requires Accepts(e, source, minimum) && sourceId in sources && sources[sourceId]
    requires Import(g, sources, e, source, sourceId, minimum, actor, now).1.Ok?
    requires c in PlanOf(e, source, minimum).candidates && c.Qualifies()
    ensures var g', input := Import(g, sources, e, source, sourceId, minimum, actor, now).0, ClusterInput(c, sourceId);
            && input.ref in g'.signals && g'.signals[input.ref].identity == input.identity
            && Some(g'.signals[input.ref].observedAt) == input.observedAt
  {
    var n := QualifyingInput(e, source, sourceId, minimum, c);
    ImportsIff(g, sources, e, source, sourceId, minimum, actor, now);
    var inputs := Inputs(PlanOf(e, source, minimum), sourceId);
    assert inputs[n].ref == ClusterInput(c, sourceId).ref;
  }
}
