/**
 Audience bindings and the conflict scan (cygnus/governance/audience_bindings.py).
 A binding key is a digest of the binding's content; the digest is a parameter that is
 only assumed not to collide.
 */
module AudienceBindings {
  import opened Wrappers
  import opened Ordering
  import opened Audience

  datatype Lifecycle = Active | Held | Removed

  /** What the binding key digests. */
  datatype BindingContent = BindingContent(
      pageId: string, objectRef: string, variantRef: string, channel: string, audience: AudienceFilter)

  type Digest = BindingContent -> string

  ghost predicate CollisionFree(sha: Digest) {
    forall a, b :: sha(a) == sha(b) ==> a == b
  }

  datatype Binding = Binding(content: BindingContent, lifecycle: Lifecycle, bindingKey: string, createdBy: string,
                             version: int)
  {
    function SortKey(): (r: seq<string>)
      ensures |r| == 5 && r[4] == bindingKey
    {
      [content.objectRef, content.channel,
       if content.audience.visibility.Internal? then "internal" else "external",
       content.variantRef, bindingKey]
    }
  }

  /** Values sorted and without repetition. */
  function Canonical(values: seq<string>): (r: seq<string>)
    ensures forall v :: v in r <==> v in values
  {
    SameElements(Sort(StringLt, Dedupe(values)), Dedupe(values));
    Sort(StringLt, Dedupe(values))
  }

  function ValueSet(values: seq<string>): set<string> { set v | v in values }

  /** A canonical dimension is decided by which values occur, and decides them. */
  lemma CanonicalIffSameValues(a: seq<string>, b: seq<string>)
    ensures Canonical(a) == Canonical(b) <==> ValueSet(a) == ValueSet(b)
  {
    if ValueSet(a) == ValueSet(b) {
      forall v
        ensures v in a <==> v in b
      {
        assert v in ValueSet(a) <==> v in ValueSet(b);
      }
      StringLtIsOrder();
      SortStrict(StringLt, Dedupe(a));
      SortStrict(StringLt, Dedupe(b));
      StrictlySortedUnique(StringLt, Canonical(a), Canonical(b));
    } else {
      var v :| (v in ValueSet(a)) != (v in ValueSet(b));
      assert (v in Canonical(a)) != (v in Canonical(b));
    }
  }

  method CanonicalDimension(values: seq<string>) returns (r: Result<seq<string>, string>)
    ensures r.Err? <==> "" in values
    ensures r.Ok? ==> r.value == Canonical(values)
  {
    var normalized: seq<string> := [];
    for i := 0 to |values|
      invariant "" !in values[..i]
      invariant normalized == Dedupe(values[..i])
    {
      assert values[..i + 1] == values[..i] + [values[i]];
      if values[i] == "" {
        return Err("audience dimension values must not be blank");
      }
      if values[i] !in normalized {
        normalized := normalized + [values[i]];
      }
    }
    assert values[..|values|] == values;
    return Ok(Sort(StringLt, normalized));
  }

  function CanonicalFilter(f: AudienceFilter): AudienceFilter {
    AudienceFilter(f.visibility, Canonical(f.brands), Canonical(f.productLines), Canonical(f.plans),
                   Canonical(f.regions), Canonical(f.languages), Canonical(f.productVersions))
  }

  /** The filters list the same values, in whatever order and however often. */
  predicate SameReaders(f: AudienceFilter, g: AudienceFilter) {
    && f.visibility == g.visibility
    && ValueSet(f.brands) == ValueSet(g.brands) && ValueSet(f.productLines) == ValueSet(g.productLines)
    && ValueSet(f.plans) == ValueSet(g.plans) && ValueSet(f.regions) == ValueSet(g.regions)
    && ValueSet(f.languages) == ValueSet(g.languages) && ValueSet(f.productVersions) == ValueSet(g.productVersions)
  }

  lemma CanonicalFilterIffSameReaders(f: AudienceFilter, g: AudienceFilter)
    ensures CanonicalFilter(f) == CanonicalFilter(g) <==> SameReaders(f, g)
  {
    CanonicalIffSameValues(f.brands, g.brands);
    CanonicalIffSameValues(f.productLines, g.productLines);
    CanonicalIffSameValues(f.plans, g.plans);
    CanonicalIffSameValues(f.regions, g.regions);
    CanonicalIffSameValues(f.languages, g.languages);
    CanonicalIffSameValues(f.productVersions, g.productVersions);
  }

  /** Two create commands get one key exactly when they say the same thing about the same readers. */
  lemma BindingKeyIffSameMeaning(sha: Digest, a: BindingContent, b: BindingContent)
    requires CollisionFree(sha)
    ensures sha(a.(audience := CanonicalFilter(a.audience))) == sha(b.(audience := CanonicalFilter(b.audience)))
       <==> (&& a.pageId == b.pageId && a.objectRef == b.objectRef && a.variantRef == b.variantRef
             && a.channel == b.channel && SameReaders(a.audience, b.audience))
  {
    CanonicalFilterIffSameReaders(a.audience, b.audience);
  }

  predicate IsActive(b: Binding) { b.lifecycle.Active? }

  predicate BindingLt(a: Binding, b: Binding) { TupleLt(a.SortKey(), b.SortKey()) }

  lemma BindingLtIsOrder()
    ensures WeakOrder(BindingLt)
  {
    TupleLtIsOrder();
    forall a, b, c | BindingLt(a, c)
      ensures BindingLt(a, b) || BindingLt(b, c)
    {
      assert TupleLt(a.SortKey(), b.SortKey()) || TupleLt(b.SortKey(), c.SortKey());
    }
  }

  /** The active bindings in the order the scan visits them. */
  function ActiveSorted(bindings: seq<Binding>): (r: seq<Binding>)
    ensures forall b :: b in r <==> b in bindings && IsActive(b)
  {
    SameElements(Sort(BindingLt, Filter(IsActive, bindings)), Filter(IsActive, bindings));
    Sort(BindingLt, Filter(IsActive, bindings))
  }

  predicate Conflicting(left: Binding, right: Binding) {
    var l, r := left.content, right.content;
    && l.pageId == r.pageId && l.objectRef == r.objectRef
    && l.channel == r.channel && l.audience.visibility == r.audience.visibility
    && l.variantRef != r.variantRef
    && FiltersOverlap(l.audience, r.audience)
  }

  /** The bindings behind `left` that conflict with it. */
  function ConflictsOf(left: Binding, others: seq<Binding>): seq<(Binding, Binding)> {
    if others == [] then []
    else ConflictsOf(left, others[..|others| - 1])
         + (if Conflicting(left, others[|others| - 1]) then [(left, others[|others| - 1])] else [])
  }

  /** All conflicting pairs, each once, the earlier binding first. */
  function ConflictPairs(active: seq<Binding>): seq<(Binding, Binding)> {
    if active == [] then [] else ConflictsOf(active[0], active[1..]) + ConflictPairs(active[1..])
  }

  lemma {:induction false} ConflictsOfMembers(left: Binding, others: seq<Binding>, p: (Binding, Binding))
    ensures p in ConflictsOf(left, others) <==> p.0 == left && p.1 in others && Conflicting(left, p.1)
  {
    if others != [] {
      ConflictsOfMembers(left, others[..|others| - 1], p);
      assert others == others[..|others| - 1] + [others[|others| - 1]];
    }
  }

  /** The scan reports exactly the conflicting pairs of positions. */
  lemma {:induction false} ConflictPairsMembers(active: seq<Binding>, p: (Binding, Binding))
    ensures p in ConflictPairs(active)
       <==> exists i, j :: 0 <= i < j < |active| && p == (active[i], active[j]) && Conflicting(active[i], active[j])
  {
    if active != [] {
      var rest := active[1..];
      ConflictsOfMembers(active[0], rest, p);
      ConflictPairsMembers(rest, p);
      if p in ConflictsOf(active[0], rest) {
        var j :| 0 <= j < |rest| && rest[j] == p.1;
        assert p == (active[0], active[j + 1]);
      }
      if p in ConflictPairs(rest) {
        var i, j :| 0 <= i < j < |rest| && p == (rest[i], rest[j]) && Conflicting(rest[i], rest[j]);
        assert p == (active[i + 1], active[j + 1]);
      }
      if exists i, j :: 0 <= i < j < |active| && p == (active[i], active[j]) && Conflicting(active[i], active[j]) {
        var i, j :| 0 <= i < j < |active| && p == (active[i], active[j]) && Conflicting(active[i], active[j]);
        if i == 0 {
          assert rest[j - 1] == p.1;
        } else {
          assert p == (rest[i - 1], rest[j - 1]);
        }
      }
    }
  }

  lemma ConflictsOfAppend(left: Binding, others: seq<Binding>, right: Binding)
    ensures ConflictsOf(left, others + [right])
         == ConflictsOf(left, others) + (if Conflicting(left, right) then [(left, right)] else [])
  {
    assert (others + [right])[..|others|] == others;
  }

  /** The inner half of the pair scan: `left` against everything behind it. */
  method ScanBehind(left: Binding, others: seq<Binding>) returns (found: seq<(Binding, Binding)>)
    ensures found == ConflictsOf(left, others)
  {
    found := [];
    for j := 0 to |others|
      invariant found == ConflictsOf(left, others[..j])
    {
      ConflictsOfAppend(left, others[..j], others[j]);
      assert others[..j + 1] == others[..j] + [others[j]];
      if !Conflicting(left, others[j]) {
        continue;
      }
      found := found + [(left, others[j])];
    }
    assert others[..|others|] == others;
  }

  lemma PairsFrom(active: seq<Binding>, i: nat)
    requires i < |active|
    ensures ConflictPairs(active[i..]) == ConflictsOf(active[i], active[i + 1..]) + ConflictPairs(active[i + 1..])
  {
    assert active[i..][0] == active[i] && active[i..][1..] == active[i + 1..];
  }

  method DetectConflicts(bindings: seq<Binding>) returns (conflicts: seq<(Binding, Binding)>)
    ensures conflicts == ConflictPairs(ActiveSorted(bindings))
  {
    var active := ActiveSorted(bindings);
    conflicts := [];
    for i := 0 to |active|
      invariant conflicts + ConflictPairs(active[i..]) == ConflictPairs(active)
    {
      var found := ScanBehind(active[i], active[i + 1..]);
      PairsFrom(active, i);
      assert conflicts + (found + ConflictPairs(active[i + 1..])) == (conflicts + found)
             + ConflictPairs(active[i + 1..]);
      conflicts := conflicts + found;
    }
  }

  predicate SamePlace(a: Binding, b: Binding) {
    && a.content.pageId == b.content.pageId && a.content.objectRef == b.content.objectRef
    && a.content.channel == b.content.channel
  }

  predicate Shows(b: Binding, c: AudienceContext) {
    IsActive(b) && Matches(b.content.audience, c)
  }

  /** What a reader of one page, object and channel is shown is a single variant. */
  ghost predicate Unambiguous(bindings: seq<Binding>) {
    forall a, b, c: AudienceContext ::
      a in bindings && b in bindings && c.Valid() && SamePlace(a, b) && Shows(a, c) && Shows(b, c)
      ==> a.content.variantRef == b.content.variantRef
  }

  ghost predicate ValidFilters(bindings: seq<Binding>) {
    forall b | b in bindings :: b.content.audience.Valid()
  }

  lemma ConflictingIffSharedReader(a: Binding, b: Binding)
    requires a.content.audience.Valid() && b.content.audience.Valid() && IsActive(a) && IsActive(b)
    ensures Conflicting(a, b) <==>
              SamePlace(a, b) && a.content.variantRef != b.content.variantRef
              && exists c: AudienceContext :: c.Valid() && Shows(a, c) && Shows(b, c)
  {
    OverlapIffSharedReader(a.content.audience, b.content.audience);
    forall c: AudienceContext
      ensures Shows(a, c) <==> Matches(a.content.audience, c)
      ensures Shows(b, c) <==> Matches(b.content.audience, c)
    {
    }
  }

  lemma ReportedPairIsAmbiguous(bindings: seq<Binding>)
    requires ValidFilters(bindings) && ConflictPairs(ActiveSorted(bindings)) != []
    ensures !Unambiguous(bindings)
  {
    var active := ActiveSorted(bindings);
    var p := ConflictPairs(active)[0];
    ConflictPairsMembers(active, p);
    ConflictingIffSharedReader(p.0, p.1);
  }

  lemma AmbiguityIsReported(bindings: seq<Binding>, a: Binding, b: Binding, c: AudienceContext)
    requires ValidFilters(bindings) && a in bindings && b in bindings && c.Valid()
    requires SamePlace(a, b) && Shows(a, c) && Shows(b, c) && a.content.variantRef != b.content.variantRef
    ensures ConflictPairs(ActiveSorted(bindings)) != []
  {
    var active := ActiveSorted(bindings);
    ConflictingIffSharedReader(a, b);
    ConflictingIffSharedReader(b, a);
    var i :| 0 <= i < |active| && active[i] == a;
    var j :| 0 <= j < |active| && active[j] == b;
    ConflictPairsMembers(active, (a, b));
    ConflictPairsMembers(active, (b, a));
  }

  /** No conflict is reported exactly when every reader sees one variant. */
  lemma ConflictFreeIffUnambiguous(bindings: seq<Binding>)
    requires ValidFilters(bindings)
    ensures ConflictPairs(ActiveSorted(bindings)) == [] <==> Unambiguous(bindings)
  {
    if ConflictPairs(ActiveSorted(bindings)) != [] {
      ReportedPairIsAmbiguous(bindings);
    }
    forall a, b, c: AudienceContext |
      a in bindings && b in bindings && c.Valid() && SamePlace(a, b) && Shows(a, c) && Shows(b, c)
      && a.content.variantRef != b.content.variantRef
      ensures ConflictPairs(ActiveSorted(bindings)) != []
    {
      AmbiguityIsReported(bindings, a, b, c);
    }
  }

  ghost predicate DistinctKeys(bindings: seq<Binding>) {
    forall i, j | 0 <= i < j < |bindings| :: bindings[i].bindingKey != bindings[j].bindingKey
  }

  /** The report does not depend on the order in which the rows arrive. */
  lemma DetectionIgnoresOrder(bindings: seq<Binding>, shuffled: seq<Binding>)
    requires DistinctKeys(bindings) && multiset(bindings) == multiset(shuffled)
    ensures ConflictPairs(ActiveSorted(bindings)) == ConflictPairs(ActiveSorted(shuffled))
  {
    var s, t := Filter(IsActive, bindings), Filter(IsActive, shuffled);
    FilterForgetsOrder(IsActive, bindings, shuffled);
    FilterDistinct(IsActive, bindings);
    BindingLtIsOrder();
    forall x, y | x in s && y in s && x != y
      ensures BindingLt(x, y) || BindingLt(y, x)
    {
      var i, j :| 0 <= i < |bindings| && 0 <= j < |bindings| && bindings[i] == x && bindings[j] == y;
      TupleLtIsOrder();
      assert x.SortKey()[4] != y.SortKey()[4];
    }
    SortForgetsOrder(BindingLt, s, t);
  }

  datatype BindingError = Invalid | NotFound | Conflict

  /** One row per key, every key the digest of its row, every filter normalised. */
  ghost predicate ValidRows(sha: Digest, rows: seq<Binding>) {
    && DistinctKeys(rows)
    && ValidFilters(rows)
    && forall b | b in rows :: b.bindingKey == sha(b.content) && b.version >= 1
  }

  lemma AddedRowIsValid(sha: Digest, rows: seq<Binding>, b: Binding)
    requires ValidRows(sha, rows) && forall x | x in rows :: x.bindingKey != b.bindingKey
    requires b.content.audience.Valid() && b.bindingKey == sha(b.content) && b.version >= 1
    ensures ValidRows(sha, rows + [b])
  {
  }

  /** The durable binding table. */
  class BindingStore {
    const sha: Digest
    var bindings: seq<Binding>

    ghost predicate Valid()
      reads this
    {
      CollisionFree(sha) && ValidRows(sha, bindings)
    }

    /** Some row has this meaning. */
    predicate Knows(command: BindingContent)
      reads this
    {
      exists b | b in bindings :: b.content == command
    }

    constructor (sha: Digest)
      requires CollisionFree(sha)
      ensures Valid() && bindings == [] && this.sha == sha
    {
      this.sha := sha;
      bindings := [];
    }

    /** Position of the row with this key, or the number of rows. */
    method FindKey(key: string) returns (k: nat)
      ensures k <= |bindings|
      ensures k < |bindings| ==> bindings[k].bindingKey == key
      ensures forall i | 0 <= i < k :: bindings[i].bindingKey != key
    {
      k := 0;
      while k < |bindings| && bindings[k].bindingKey != key
        invariant k <= |bindings|
        invariant forall i | 0 <= i < k :: bindings[i].bindingKey != key
      {
        k := k + 1;
      }
    }

    /** Creates one row per meaning; the flag says whether an earlier row was replayed. */
    method CreateBinding(command: BindingContent, actor: string, pages: set<string>)
      returns (r: Result<(Binding, bool), BindingError>)
      requires Valid()
      requires command.audience == CanonicalFilter(command.audience) && command.audience.Valid()
      modifies this
      ensures Valid()
      ensures r.Err? || r.value.1 ==> bindings == old(bindings)
      ensures r.Ok? && !r.value.1 ==>
                bindings == old(bindings) + [Binding(command, Active, sha(command), actor, 1)]
                && r.value.0 == bindings[|bindings| - 1]
      ensures r.Ok? ==> r.value.0.content == command && r.value.0 in bindings
      ensures (r.Ok? && r.value.1) <==> old(Knows(command))
      ensures r == Err(NotFound) <==> !old(Knows(command)) && command.pageId !in pages
      ensures r == Err(Conflict) <==>
                !old(Knows(command)) && command.pageId in pages && command.objectRef != "ko-page-" + command.pageId
      ensures r != Err(Invalid)
    {
      var k := FindKey(sha(command));
      if k < |bindings| {
        assert bindings[k] in bindings;
        return Ok((bindings[k], true));
      }
      assert forall b | b in bindings :: b.bindingKey != sha(command);
      if command.pageId !in pages {
        return Err(NotFound);
      }
      if command.objectRef != "ko-page-" + command.pageId {
        return Err(Conflict);
      }
      var record := Binding(command, Active, sha(command), actor, 1);
      AddedRowIsValid(sha, bindings, record);
      bindings := bindings + [record];
      return Ok((record, false));
    }

    /** Moves one row to another lifecycle state under an optimistic version. */
    method UpdateLifecycle(key: string, lifecycle: Lifecycle, expectedVersion: int)
      returns (r: Result<(Binding, bool), BindingError>)
      requires Valid()
      modifies this
      ensures Valid()
      ensures r.Err? || r.value.1 ==> bindings == old(bindings)
      ensures r == Err(Invalid) <==> expectedVersion < 1
      ensures r == Err(NotFound) <==> expectedVersion >= 1 && forall b | b in old(bindings) :: b.bindingKey != key
      ensures r.Ok? ==> r.value.0 in bindings && r.value.0.bindingKey == key && r.value.0.lifecycle == lifecycle
      ensures r.Ok? && !r.value.1 ==>
                exists k | 0 <= k < |old(bindings)| ::
                  var b := old(bindings)[k];
                  && b.bindingKey == key && b.version == expectedVersion && b.lifecycle != lifecycle
                  && bindings == old(bindings)[k := b.(lifecycle := lifecycle, version := b.version + 1)]
      ensures r == Err(Conflict) <==>
                expectedVersion >= 1 && exists b | b in old(bindings) ::
                  b.bindingKey == key && b.version != expectedVersion && b.lifecycle != lifecycle
      ensures (r.Ok? && r.value.1) <==>
                expectedVersion >= 1 && exists b | b in old(bindings) :: b.bindingKey == key && b.lifecycle == lifecycle
    {
      if expectedVersion < 1 {
        return Err(Invalid);
      }
      var k := FindKey(key);
      if k == |bindings| {
        return Err(NotFound);
      }
      var record := bindings[k];
      assert record in bindings;
      if record.lifecycle == lifecycle {
        return Ok((record, true));
      }
      if record.version != expectedVersion {
        return Err(Conflict);
      }
      record := record.(lifecycle := lifecycle, version := record.version + 1);
      ghost var before := bindings;
      bindings := bindings[k := record];
      assert bindings[k] == record;
      forall b | b in bindings
        ensures b.content.audience.Valid() && b.bindingKey == sha(b.content) && b.version >= 1
      {
        assert b == record || b in before;
      }
      return Ok((record, false));
    }

    /** The scan of the table names no pair exactly when the table shows every reader one variant. */
    method Detect() returns (conflicts: seq<(Binding, Binding)>)
      requires Valid()
      ensures conflicts == [] <==> Unambiguous(bindings)
      ensures forall shuffled | multiset(bindings) == multiset(shuffled) ::
              conflicts == ConflictPairs(ActiveSorted(shuffled))
    {
      conflicts := DetectConflicts(bindings);
      ConflictFreeIffUnambiguous(bindings);
      forall shuffled | multiset(bindings) == multiset(shuffled)
        ensures conflicts == ConflictPairs(ActiveSorted(shuffled))
      {
        DetectionIgnoresOrder(bindings, shuffled);
      }
    }
  }
}
