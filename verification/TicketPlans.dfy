/** Planning an import: grouping, ordering and digesting records (cygnus/governance/ticket_import.py). */
module TicketPlans {
  import opened Wrappers
  import opened Texts
  import opened Ordering
  import opened Audience
  import opened TicketRecords
  import TicketRefs
  import G = Governance

  const MAX_EVIDENCE_REFS := 100
  const MAX_EXCERPT := 4000

  /** The key of a cluster, and the records it is made of. */
  type Key = seq<string>

  /** An absent and a blank value are treated alike. */
  predicate HasText(o: Option<string>) { o.Some? && o.value != "" }

  function TextOf(o: Option<string>): string { if o.Some? then o.value else "" }

  function ValuesOf(o: Option<string>): seq<string> { if HasText(o) then [o.value] else [] }

  function ClusterKey(r: TicketRecord): Key {
    [r.issueSignature, TextOf(r.productLine), TextOf(r.feature), TextOf(r.plan), TextOf(r.region), TextOf(r.language),
     TextOf(r.productVersion), r.objectType]
  }

  /** The order in which a cluster shows its tickets. */
  predicate ByArrival(a: TicketRecord, b: TicketRecord) {
    a.resolvedAt < b.resolvedAt || (a.resolvedAt == b.resolvedAt && StringLt(a.ticketId, b.ticketId))
  }

  /** The order in which an import is digested. */
  predicate ById(a: TicketRecord, b: TicketRecord) {
    StringLt(a.ticketId, b.ticketId) || (a.ticketId == b.ticketId && a.resolvedAt < b.resolvedAt)
  }

  datatype Candidate = Candidate(
      key: Key,
      sourceRef: string,
      issueSignature: string,
      title: string,
      objectType: string,
      audience: AudienceFilter,
      feature: Option<string>,
      memberCount: nat,
      minimum: int,
      windowStart: int,
      windowEnd: int,
      evidence: seq<G.EvidenceRef>,
      digest: seq<TicketRecord>,
      excerpt: string)
  {
    predicate Qualifies() { memberCount >= minimum }
  }

  datatype Plan = Plan(sourceRef: string, digest: seq<TicketRecord>, minimum: int, recordCount: nat,
                       candidates: seq<Candidate>)

  datatype PlanError = BadSourceRef | BadMinimum | NoRecords | EvidenceTooLong

  // ---------------------------------------------------------------- one candidate

  function ExcerptOf(r: TicketRecord): string { r.summary + " Resolution: " + r.resolution }

  function EvidenceOf(r: TicketRecord, source: string): G.EvidenceRef {
    G.EvidenceRef(G.TicketEvidence(source, r.ticketId), TicketRefs.TicketSourceRef(source, r.ticketId),
                  Some(Truncate(ExcerptOf(r), MAX_EXCERPT)), Some(r.resolvedAt))
  }

  function EvidenceRefs(ordered: seq<TicketRecord>, source: string): (r: seq<G.EvidenceRef>)
    ensures |r| == if |ordered| <= MAX_EVIDENCE_REFS then |ordered| else MAX_EVIDENCE_REFS
    ensures forall i | 0 <= i < |r| :: r[i] == EvidenceOf(ordered[i], source)
  {
    var n := if |ordered| <= MAX_EVIDENCE_REFS then |ordered| else MAX_EVIDENCE_REFS;
    seq(n, i requires 0 <= i < n => EvidenceOf(ordered[i], source))
  }

  function TicketLine(r: TicketRecord): string { "ticket=" + r.ticketId + ": " + ExcerptOf(r) }

  function OmittedLine(n: nat): string { Decimal(n) + " additional ticket(s) omitted" }

  /** The first three tickets, and how many follow them. */
  function RepresentativeExcerpt(ordered: seq<TicketRecord>): string {
    var n := if |ordered| < 3 then |ordered| else 3;
    var lines := seq(n, i requires 0 <= i < n => TicketLine(ordered[i]));
    Truncate(JoinLines(if |ordered| > n then lines + [OmittedLine(|ordered| - n)] else lines), MAX_EXCERPT)
  }

  function AudienceOf(r: TicketRecord): AudienceFilter {
    AudienceFilter(Internal, [], ValuesOf(r.productLine), ValuesOf(r.plan), ValuesOf(r.region), ValuesOf(r.language),
                   ValuesOf(r.productVersion))
  }

  /** The candidate of a cluster whose tickets stand in order of arrival. */
  function CandidateOf(ordered: seq<TicketRecord>, source: string, digest: seq<TicketRecord>, minimum: int): Candidate
    requires ordered != []
  {
    var first := ordered[0];
    Candidate(ClusterKey(first), source, first.issueSignature, first.title, first.objectType, AudienceOf(first),
              first.feature, |ordered|, minimum, first.resolvedAt, ordered[|ordered| - 1].resolvedAt,
              EvidenceRefs(ordered, source), digest,
              RepresentativeExcerpt(ordered))
  }

  // ---------------------------------------------------------------- clusters

  /** The records with this key among the first k, in their order. */
  function MembersTo(records: seq<TicketRecord>, key: Key, k: nat): seq<TicketRecord>
    requires k <= |records|
  {
    if k == 0 then []
    else if ClusterKey(records[k - 1]) == key then MembersTo(records, key, k - 1) + [records[k - 1]]
    else MembersTo(records, key, k - 1)
  }

  function Members(records: seq<TicketRecord>, key: Key): seq<TicketRecord> { MembersTo(records, key, |records|) }

  lemma {:induction false} MembersMeaning(records: seq<TicketRecord>, key: Key, k: nat, x: TicketRecord)
    requires k <= |records|
    ensures multiset(MembersTo(records, key, k))[x] == if ClusterKey(x) == key then multiset(records[..k])[x] else 0
  {
    if k > 0 {
      MembersMeaning(records, key, k - 1, x);
      assert records[..k] == records[..k - 1] + [records[k - 1]];
    }
  }

  /** Exactly the records with the key, each as often as it occurs. */
  lemma MembersAre(records: seq<TicketRecord>, key: Key)
    ensures forall x :: multiset(Members(records, key))[x] == if ClusterKey(x) == key then multiset(records)[x] else 0
    ensures forall x :: x in Members(records, key) <==> x in records && ClusterKey(x) == key
  {
    assert records[..|records|] == records;
    forall x
      ensures multiset(Members(records, key))[x] == if ClusterKey(x) == key then multiset(records)[x] else 0
      ensures x in Members(records, key) <==> x in records && ClusterKey(x) == key
    {
      MembersMeaning(records, key, |records|, x);
      assert x in Members(records, key) <==> x in multiset(Members(records, key));
      assert x in records <==> x in multiset(records);
    }
  }

  /** The keys of the first k records in order of first appearance. */
  function KeysTo(records: seq<TicketRecord>, k: nat): seq<Key>
    requires k <= |records|
  {
    if k == 0 then []
    else
      var before, key := KeysTo(records, k - 1), ClusterKey(records[k - 1]);
      if key in before then before else before + [key]
  }

  function Keys(records: seq<TicketRecord>): seq<Key> { KeysTo(records, |records|) }

  lemma {:induction false} KeysMeaning(records: seq<TicketRecord>, k: nat)
    requires k <= |records|
    ensures Distinct(KeysTo(records, k))
    ensures forall key :: key in KeysTo(records, k) <==> exists i :: 0 <= i < k && ClusterKey(records[i]) == key
  {
    if k > 0 { KeysMeaning(records, k - 1); }
  }

  /** A key stands in the list exactly when some record has it. */
  lemma KeysAre(records: seq<TicketRecord>, key: Key)
    ensures key in Keys(records) <==> Members(records, key) != []
    ensures key in Keys(records) <==> exists r :: r in records && ClusterKey(r) == key
  {
    KeysMeaning(records, |records|);
    MembersAre(records, key);
    if key in Keys(records) {
      var i :| 0 <= i < |records| && ClusterKey(records[i]) == key;
      assert records[i] in records;
    }
    if Members(records, key) != [] { assert Members(records, key)[0] in Members(records, key); }
  }

  /** The tickets of one cluster in order of arrival. */
  function Ordered(records: seq<TicketRecord>, key: Key): seq<TicketRecord> {
    Sort(ByArrival, Members(records, key))
  }

  function SortedKeys(records: seq<TicketRecord>): seq<Key> { Sort(TupleLt, Keys(records)) }

  function Digest(records: seq<TicketRecord>): seq<TicketRecord> { Sort(ById, records) }

  lemma SortedKeyHasTickets(records: seq<TicketRecord>, i: nat)
    requires i < |SortedKeys(records)|
    ensures SortedKeys(records)[i] in Keys(records)
    ensures Ordered(records, SortedKeys(records)[i]) != []
  {
    assert SortedKeys(records)[i] in SortedKeys(records);
    SameElements(SortedKeys(records), Keys(records));
    KeysAre(records, SortedKeys(records)[i]);
  }

  function CandidateAt(records: seq<TicketRecord>, source: string, minimum: int, i: nat): Candidate
    requires i < |SortedKeys(records)|
  {
    SortedKeyHasTickets(records, i);
    CandidateOf(Ordered(records, SortedKeys(records)[i]), source, Digest(records), minimum)
  }

  function Candidates(records: seq<TicketRecord>, source: string, minimum: int): (r: seq<Candidate>)
    ensures |r| == |SortedKeys(records)|
  {
    seq(|SortedKeys(records)|, i requires 0 <= i < |SortedKeys(records)| => CandidateAt(records, source, minimum, i))
  }

  /** The checks on a stripped source reference. */
  predicate ValidSourceRef(source: string) {
    source != "" && |source| <= 300 && forall i | 0 <= i < |source| :: source[i] >= ' '
  }

  /** An evidence reference holds at most a thousand characters. */
  predicate EvidenceFits(c: Candidate) {
    forall i | 0 <= i < |c.evidence| :: |c.evidence[i].sourceRef| <= 1000
  }

  predicate AllFit(candidates: seq<Candidate>) {
    forall i | 0 <= i < |candidates| :: EvidenceFits(candidates[i])
  }

  function BuildPlan(records: seq<TicketRecord>, source: string, minimum: int): Result<Plan, PlanError> {
    if !ValidSourceRef(source) then Err(BadSourceRef)
    else if !(2 <= minimum <= 100) then Err(BadMinimum)
    else if records == [] then Err(NoRecords)
    else
      var candidates := Candidates(records, source, minimum);
      if !AllFit(candidates) then Err(EvidenceTooLong)
      else Ok(Plan(source, Digest(records), minimum, |records|, candidates))
  }

  /** What all candidates of a plan have in common. */
  lemma CandidateOrigin(records: seq<TicketRecord>, source: string, minimum: int, c: Candidate)
    requires c in Candidates(records, source, minimum)
    ensures c.digest == Digest(records) && c.minimum == minimum && c.sourceRef == source
  {
    var i :| 0 <= i < |SortedKeys(records)| && c == CandidateAt(records, source, minimum, i);
  }

  // ---------------------------------------------------------------- the planning loop

  /** The dictionary of lists after the first k records. */
  ghost predicate Grouped(grouped: map<Key, seq<TicketRecord>>, records: seq<TicketRecord>, k: nat)
    requires k <= |records|
  {
    && (forall key :: key in grouped <==> key in KeysTo(records, k))
    && (forall key | key in grouped :: grouped[key] == MembersTo(records, key, k))
    && (forall key | key !in grouped :: MembersTo(records, key, k) == [])
  }

  lemma GroupedNext(grouped: map<Key, seq<TicketRecord>>, records: seq<TicketRecord>, k: nat)
    requires k < |records| && Grouped(grouped, records, k)
    ensures var key := ClusterKey(records[k]);
            Grouped(grouped[key := (if key in grouped then grouped[key] else []) + [records[k]]], records, k + 1)
  {
  }

  /** Appends every record to the list under its key; the keys keep the order of their first use. */
  method GroupRecords(records: seq<TicketRecord>) returns (order: seq<Key>, grouped: map<Key, seq<TicketRecord>>)
    ensures order == Keys(records)
    ensures Grouped(grouped, records, |records|)
  {
    order, grouped := [], map[];
    for k := 0 to |records|
      invariant order == KeysTo(records, k)
      invariant Grouped(grouped, records, k)
    {
      var key := ClusterKey(records[k]);
      GroupedNext(grouped, records, k);
      ghost var before := grouped;
      if key !in grouped {
        order := order + [key];
        grouped := grouped[key := []];
      }
      grouped := grouped[key := grouped[key] + [records[k]]];
      assert grouped == before[key := (if key in before then before[key] else []) + [records[k]]];
    }
  }

  lemma PrefixGrows(all: seq<Candidate>, i: nat)
    requires i < |all|
    ensures all[..i + 1] == all[..i] + [all[i]]
  {
  }

  method BuildTicketImportPlan(records: seq<TicketRecord>, source: string, minimum: int)
    returns (r: Result<Plan, PlanError>)
    ensures r == BuildPlan(records, source, minimum)
  {
    if !ValidSourceRef(source) {
      return Err(BadSourceRef);
    }
    if minimum < 2 || 100 < minimum {
      return Err(BadMinimum);
    }
    if records == [] {
      return Err(NoRecords);
    }
    var digest := Digest(records);
    var order, grouped := GroupRecords(records);
    var keys := Sort(TupleLt, order);
    ghost var all := Candidates(records, source, minimum);
    var candidates: seq<Candidate> := [];
    for i := 0 to |keys|
      invariant keys == SortedKeys(records) && AllFit(candidates)
      invariant candidates == all[..i]
    {
      SortedKeyHasTickets(records, i);
      var candidate := CandidateOf(Sort(ByArrival, grouped[keys[i]]), source, digest, minimum);
      assert candidate == all[i];
      if !EvidenceFits(candidate) {
        return Err(EvidenceTooLong);
      }
      PrefixGrows(all, i);
      candidates := candidates + [candidate];
    }
    assert all[..|all|] == all;
    return Ok(Plan(source, digest, minimum, |records|, candidates));
  }

  // ---------------------------------------------------------------- order does not matter

  /** What the parser guarantees. */
  ghost predicate DistinctIds(records: seq<TicketRecord>) {
    forall i, j | 0 <= i < j < |records| :: records[i].ticketId != records[j].ticketId
  }

  lemma DistinctIdsCompare(records: seq<TicketRecord>)
    requires DistinctIds(records)
    ensures Distinct(records)
    ensures forall x, y | x in records && y in records && x != y ::
              (ByArrival(x, y) || ByArrival(y, x)) && (ById(x, y) || ById(y, x))
  {
    StringLtIsOrder();
    forall x, y | x in records && y in records && x != y
      ensures x.ticketId != y.ticketId
    {
      var i :| 0 <= i < |records| && records[i] == x;
      var j :| 0 <= j < |records| && records[j] == y;
    }
  }

  lemma ByArrivalIsOrder()
    ensures WeakOrder(ByArrival)
  {
    StringLtIsOrder();
  }

  lemma ByIdIsOrder()
    ensures WeakOrder(ById)
  {
    StringLtIsOrder();
  }

  /** Two imports have one digest exactly when they hold the same records. */
  lemma DigestIffSameRecords(a: seq<TicketRecord>, b: seq<TicketRecord>)
    requires DistinctIds(a)
    ensures Digest(a) == Digest(b) <==> multiset(a) == multiset(b)
  {
    if multiset(a) == multiset(b) {
      ByIdIsOrder();
      DistinctIdsCompare(a);
      SortForgetsOrder(ById, a, b);
    }
  }

  lemma MembersDistinct(records: seq<TicketRecord>, key: Key)
    requires DistinctIds(records)
    ensures Distinct(Members(records, key))
  {
    DistinctIdsCompare(records);
    DistinctMultiplicity(records);
    MembersAre(records, key);
    MultiplicityDistinct(Members(records, key));
  }

  lemma OrderedForgetsOrder(a: seq<TicketRecord>, b: seq<TicketRecord>, key: Key)
    requires DistinctIds(a) && multiset(a) == multiset(b)
    ensures Ordered(a, key) == Ordered(b, key)
  {
    ByArrivalIsOrder();
    DistinctIdsCompare(a);
    MembersDistinct(a, key);
    MembersAre(a, key);
    MembersAre(b, key);
    assert multiset(Members(a, key)) == multiset(Members(b, key));
    SortForgetsOrder(ByArrival, Members(a, key), Members(b, key));
  }

  lemma SortedKeysAre(records: seq<TicketRecord>)
    ensures StrictlySorted(TupleLt, SortedKeys(records))
    ensures forall key :: key in SortedKeys(records) <==> key in Keys(records)
  {
    KeysMeaning(records, |records|);
    TupleLtIsOrder();
    SortStrict(TupleLt, Keys(records));
    SameElements(SortedKeys(records), Keys(records));
  }

  lemma SortedKeysForgetOrder(a: seq<TicketRecord>, b: seq<TicketRecord>)
    requires multiset(a) == multiset(b)
    ensures SortedKeys(a) == SortedKeys(b)
  {
    SameElements(a, b);
    SortedKeysAre(a);
    SortedKeysAre(b);
    forall key
      ensures key in SortedKeys(a) <==> key in SortedKeys(b)
    {
      KeysAre(a, key);
      KeysAre(b, key);
    }
    TupleLtIsOrder();
    StrictlySortedUnique(TupleLt, SortedKeys(a), SortedKeys(b));
  }

  /** Any arrangement of the same records gives the identical plan, or the identical refusal. */
  lemma PlanForgetsOrder(a: seq<TicketRecord>, b: seq<TicketRecord>, source: string, minimum: int)
    requires DistinctIds(a) && multiset(a) == multiset(b)
    ensures BuildPlan(a, source, minimum) == BuildPlan(b, source, minimum)
  {
    assert |a| == |multiset(a)| == |multiset(b)| == |b|;
    CandidatesForgetOrder(a, b, source, minimum);
    DigestIffSameRecords(a, b);
  }

  lemma CandidatesForgetOrder(a: seq<TicketRecord>, b: seq<TicketRecord>, source: string, minimum: int)
    requires DistinctIds(a) && multiset(a) == multiset(b)
    ensures Candidates(a, source, minimum) == Candidates(b, source, minimum)
  {
    SortedKeysForgetOrder(a, b);
    DigestIffSameRecords(a, b);
    forall i | 0 <= i < |SortedKeys(a)|
      ensures CandidateAt(a, source, minimum, i) == CandidateAt(b, source, minimum, i)
    {
      OrderedForgetsOrder(a, b, SortedKeys(a)[i]);
    }
  }

  // ---------------------------------------------------------------- the candidates partition the records

  function SumMembers(records: seq<TicketRecord>, keys: seq<Key>, k: nat, n: nat): nat
    requires k <= |keys| && n <= |records|
  {
    if k == 0 then 0 else SumMembers(records, keys, k - 1, n) + |MembersTo(records, keys[k - 1], n)|
  }

  lemma {:induction false} SumMembersGrows(records: seq<TicketRecord>, keys: seq<Key>, k: nat, n: nat)
    requires k <= |keys| && n < |records| && Distinct(keys)
    ensures SumMembers(records, keys, k, n + 1)
         == SumMembers(records, keys, k, n) + (if ClusterKey(records[n]) in keys[..k] then 1 else 0)
  {
    if k > 0 {
      SumMembersGrows(records, keys, k - 1, n);
      assert keys[..k] == keys[..k - 1] + [keys[k - 1]];
      assert keys[k - 1] !in keys[..k - 1];
    }
  }

  lemma {:induction false} NoMembers(records: seq<TicketRecord>, keys: seq<Key>, k: nat)
    requires k <= |keys|
    ensures SumMembers(records, keys, k, 0) == 0
  {
    if k > 0 { NoMembers(records, keys, k - 1); }
  }

  lemma {:induction false} ClustersCover(records: seq<TicketRecord>, keys: seq<Key>, n: nat)
    requires n <= |records| && Distinct(keys) && forall r | r in records :: ClusterKey(r) in keys
    ensures SumMembers(records, keys, |keys|, n) == n
  {
    if n == 0 {
      NoMembers(records, keys, |keys|);
    } else {
      ClustersCover(records, keys, n - 1);
      SumMembersGrows(records, keys, |keys|, n - 1);
      assert records[n - 1] in records && keys[..|keys|] == keys;
    }
  }

  function SumCounts(candidates: seq<Candidate>, k: nat): nat
    requires k <= |candidates|
  {
    if k == 0 then 0 else SumCounts(candidates, k - 1) + candidates[k - 1].memberCount
  }

  lemma {:induction false} SumsAgree(records: seq<TicketRecord>, keys: seq<Key>, candidates: seq<Candidate>, k: nat)
    requires k <= |keys| == |candidates|
    requires forall i | 0 <= i < |keys| :: candidates[i].memberCount == |Members(records, keys[i])|
    ensures SumCounts(candidates, k) == SumMembers(records, keys, k, |records|)
  {
    if k > 0 { SumsAgree(records, keys, candidates, k - 1); }
  }

  /** The window is the span of the tickets, and title, feature and audience are those of the earliest. */
  ghost predicate WindowOf(c: Candidate, members: seq<TicketRecord>) {
    && (forall r | r in members :: c.windowStart <= r.resolvedAt <= c.windowEnd)
    && (exists r | r in members :: r.resolvedAt == c.windowEnd)
    && (exists r | r in members :: IsEarliest(r, members) && r.resolvedAt == c.windowStart
          && r.title == c.title && r.feature == c.feature && AudienceOf(r) == c.audience)
  }

  ghost predicate IsEarliest(r: TicketRecord, members: seq<TicketRecord>) {
    forall x | x in members && x != r :: ByArrival(r, x)
  }

  /** `shown` are the tickets of the evidence in order of arrival, and every ticket left out arrived after them. */
  ghost predicate ShownFirst(c: Candidate, members: seq<TicketRecord>, shown: seq<TicketRecord>) {
    && |shown| == |c.evidence| && StrictlySorted(ByArrival, shown)
    && (forall i | 0 <= i < |shown| :: shown[i] in members && c.evidence[i] == EvidenceOf(shown[i], c.sourceRef))
    && (forall x, i | x in members && x !in shown && 0 <= i < |shown| :: ByArrival(shown[i], x))
  }

  /** One evidence reference for each of the hundred tickets that arrived first, no ticket twice. */
  ghost predicate EvidenceFor(c: Candidate, members: seq<TicketRecord>) {
    && |c.evidence| == (if |members| <= MAX_EVIDENCE_REFS then |members| else MAX_EVIDENCE_REFS)
    && (forall i | 0 <= i < |c.evidence| :: exists r | r in members :: c.evidence[i] == EvidenceOf(r, c.sourceRef))
    && (forall i, j | 0 <= i < j < |c.evidence| :: c.evidence[i].evidenceId != c.evidence[j].evidenceId)
    && (exists shown :: ShownFirst(c, members, shown))
  }

  /** A candidate speaks for exactly the records with its key. */
  ghost predicate SpeaksFor(c: Candidate, records: seq<TicketRecord>) {
    var members := Members(records, c.key);
    c.memberCount == |members| && WindowOf(c, members) && EvidenceFor(c, members)
  }

  lemma OrderedCluster(records: seq<TicketRecord>, key: Key)
    requires DistinctIds(records)
    ensures StrictlySorted(ByArrival, Ordered(records, key)) && DistinctIds(Ordered(records, key))
    ensures forall x :: x in Ordered(records, key) <==> x in Members(records, key)
    ensures forall x | x in Ordered(records, key) :: ClusterKey(x) == key
  {
    var members, ordered := Members(records, key), Ordered(records, key);
    ByArrivalIsOrder();
    MembersAre(records, key);
    MembersDistinct(records, key);
    DistinctIdsCompare(records);
    SortStrict(ByArrival, members);
    SameElements(ordered, members);
    forall i, j | 0 <= i < j < |ordered|
      ensures ordered[i].ticketId != ordered[j].ticketId
    {
      assert ordered[i] in records && ordered[j] in records && ByArrival(ordered[i], ordered[j]);
      var a :| 0 <= a < |records| && records[a] == ordered[i];
      var b :| 0 <= b < |records| && records[b] == ordered[j];
      assert ordered[i] != ordered[j];
    }
  }

  lemma CandidateWindow(ordered: seq<TicketRecord>, members: seq<TicketRecord>, source: string,
                        digest: seq<TicketRecord>, minimum: int)
    requires ordered != [] && StrictlySorted(ByArrival, ordered)
    requires forall x :: x in ordered <==> x in members
    ensures WindowOf(CandidateOf(ordered, source, digest, minimum), members)
  {
    var first, last := ordered[0], ordered[|ordered| - 1];
    assert first in members && last in members;
    forall r | r in members
      ensures first.resolvedAt <= r.resolvedAt <= last.resolvedAt && (r != first ==> ByArrival(first, r))
    {
      var i :| 0 <= i < |ordered| && ordered[i] == r;
      assert i > 0 ==> ByArrival(first, r);
      assert i < |ordered| - 1 ==> ByArrival(r, last);
    }
    assert IsEarliest(first, members);
  }

  lemma TakeHolds<T>(s: seq<T>, n: nat)
    requires n <= |s|
    ensures forall j | 0 <= j < n :: s[j] in s[..n]
  {
    assert forall j | 0 <= j < n :: s[j] == s[..n][j];
  }

  lemma CandidateShows(ordered: seq<TicketRecord>, members: seq<TicketRecord>, source: string,
                       digest: seq<TicketRecord>, minimum: int)
    requires ordered != [] && StrictlySorted(ByArrival, ordered)
    requires forall x :: x in ordered <==> x in members
    ensures var c := CandidateOf(ordered, source, digest, minimum);
            |c.evidence| <= |ordered| && ShownFirst(c, members, ordered[..|c.evidence|])
  {
    var c := CandidateOf(ordered, source, digest, minimum);
    var shown := ordered[..|c.evidence|];
    TakeHolds(ordered, |c.evidence|);
    forall x, i | x in members && x !in shown && 0 <= i < |shown|
      ensures ByArrival(shown[i], x)
    {
      var j :| 0 <= j < |ordered| && ordered[j] == x;
    }
    forall i | 0 <= i < |shown|
      ensures shown[i] in members && c.evidence[i] == EvidenceOf(shown[i], c.sourceRef)
    {
      assert shown[i] == ordered[i] && ordered[i] in ordered;
    }
  }

  lemma CandidateEvidence(ordered: seq<TicketRecord>, members: seq<TicketRecord>, source: string,
                          digest: seq<TicketRecord>, minimum: int)
    requires ordered != [] && DistinctIds(ordered) && |ordered| == |members| && StrictlySorted(ByArrival, ordered)
    requires forall x :: x in ordered <==> x in members
    ensures EvidenceFor(CandidateOf(ordered, source, digest, minimum), members)
  {
    var c := CandidateOf(ordered, source, digest, minimum);
    forall i | 0 <= i < |c.evidence|
      ensures exists r | r in members :: c.evidence[i] == EvidenceOf(r, c.sourceRef)
    {
      assert ordered[i] in members;
    }
    CandidateShows(ordered, members, source, digest, minimum);
  }

  lemma CandidateSpeaksFor(records: seq<TicketRecord>, source: string, minimum: int, i: nat)
    requires DistinctIds(records) && i < |SortedKeys(records)|
    ensures var c := CandidateAt(records, source, minimum, i);
            c.key == SortedKeys(records)[i] && SpeaksFor(c, records)
  {
    var key := SortedKeys(records)[i];
    var members, ordered := Members(records, key), Ordered(records, key);
    SortedKeyHasTickets(records, i);
    OrderedCluster(records, key);
    assert ordered[0] in ordered;
    CandidateWindow(ordered, members, source, Digest(records), minimum);
    CandidateEvidence(ordered, members, source, Digest(records), minimum);
  }

  /** The candidates are one per cluster key, in key order, and share out all records. */
  ghost predicate Partitions(candidates: seq<Candidate>, records: seq<TicketRecord>) {
    && SumCounts(candidates, |candidates|) == |records|
    && (forall i, j | 0 <= i < j < |candidates| :: TupleLt(candidates[i].key, candidates[j].key))
    && (forall i | 0 <= i < |candidates| :: SpeaksFor(candidates[i], records))
    && (forall r | r in records :: exists i :: 0 <= i < |candidates| && candidates[i].key == ClusterKey(r))
  }

  lemma CandidatesSpeak(records: seq<TicketRecord>, source: string, minimum: int, i: nat)
    requires DistinctIds(records) && i < |SortedKeys(records)|
    ensures var c := Candidates(records, source, minimum)[i];
            c.key == SortedKeys(records)[i] && SpeaksFor(c, records)
  {
    CandidateSpeaksFor(records, source, minimum, i);
  }

  lemma EveryRecordHasCandidate(records: seq<TicketRecord>, source: string, minimum: int, r: TicketRecord)
    requires DistinctIds(records) && r in records
    ensures ClusterKey(r) in SortedKeys(records)
    ensures exists i :: 0 <= i < |SortedKeys(records)| && Candidates(records, source, minimum)[i].key == ClusterKey(r)
  {
    SortedKeysAre(records);
    KeysAre(records, ClusterKey(r));
    var i :| 0 <= i < |SortedKeys(records)| && SortedKeys(records)[i] == ClusterKey(r);
    CandidatesSpeak(records, source, minimum, i);
  }

  lemma CountsAddUp(records: seq<TicketRecord>, source: string, minimum: int)
    requires DistinctIds(records)
    ensures SumCounts(Candidates(records, source, minimum), |SortedKeys(records)|) == |records|
  {
    var keys := SortedKeys(records);
    SortedKeysAre(records);
    SortedAreDistinct(keys);
    forall r | r in records
      ensures ClusterKey(r) in keys
    {
      EveryRecordHasCandidate(records, source, minimum, r);
    }
    forall i | 0 <= i < |keys|
      ensures Candidates(records, source, minimum)[i].memberCount == |Members(records, keys[i])|
    {
      CandidatesSpeak(records, source, minimum, i);
    }
    ClustersCover(records, keys, |records|);
    SumsAgree(records, keys, Candidates(records, source, minimum), |keys|);
  }

  lemma CandidatesPartition(records: seq<TicketRecord>, source: string, minimum: int)
    requires DistinctIds(records)
    ensures Partitions(Candidates(records, source, minimum), records)
  {
    var keys, candidates := SortedKeys(records), Candidates(records, source, minimum);
    assert forall i | 0 <= i < |candidates| :: candidates[i].key == keys[i] && SpeaksFor(candidates[i], records) by {
      forall i | 0 <= i < |candidates|
        ensures candidates[i].key == keys[i] && SpeaksFor(candidates[i], records)
      {
        CandidatesSpeak(records, source, minimum, i);
      }
    }
    assert forall r | r in records :: exists i :: 0 <= i < |candidates| && candidates[i].key == ClusterKey(r) by {
      forall r | r in records
        ensures exists i :: 0 <= i < |candidates| && candidates[i].key == ClusterKey(r)
      {
        EveryRecordHasCandidate(records, source, minimum, r);
      }
    }
    SortedKeysAre(records);
    CountsAddUp(records, source, minimum);
  }

  lemma PlanPartitionsRecords(records: seq<TicketRecord>, source: string, minimum: int)
    requires DistinctIds(records) && BuildPlan(records, source, minimum).Ok?
    ensures Partitions(BuildPlan(records, source, minimum).value.candidates, records)
    ensures BuildPlan(records, source, minimum).value.recordCount == |records|
  {
    assert BuildPlan(records, source, minimum).value.candidates == Candidates(records, source, minimum);
    CandidatesPartition(records, source, minimum);
  }

  lemma SortedAreDistinct(keys: seq<Key>)
    requires StrictlySorted(TupleLt, keys)
    ensures Distinct(keys)
  {
    TupleLtIsOrder();
  }
}
