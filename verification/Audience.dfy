/**
 Audience filters and reader contexts (cygnus/domain/audience.py). Texts stand for their
 stripped values, so a blank text is the empty string.
 */
module Audience {
  import opened Wrappers
  import opened Ordering

  datatype Visibility = Internal | External

  /** One reader: a visibility and at most one value per dimension. */
  datatype AudienceContext = AudienceContext(
      visibility: Visibility,
      brand: Option<string>,
      productLine: Option<string>,
      plan: Option<string>,
      region: Option<string>,
      language: Option<string>,
      productVersion: Option<string>)
  {
    function Values(): (r: seq<Option<string>>)
      ensures |r| == 6
    {
      [brand, productLine, plan, region, language, productVersion]
    }

    /** A value is not blank when it is given. */
    predicate Valid() {
      forall i | 0 <= i < 6 :: Values()[i] != Some("")
    }
  }

  /** Which readers may see a variant; an empty dimension does not constrain. */
  datatype AudienceFilter = AudienceFilter(
      visibility: Visibility,
      brands: seq<string>,
      productLines: seq<string>,
      plans: seq<string>,
      regions: seq<string>,
      languages: seq<string>,
      productVersions: seq<string>)
  {
    function Dimensions(): (r: seq<seq<string>>)
      ensures |r| == 6
    {
      [brands, productLines, plans, regions, languages, productVersions]
    }

    /** What normalisation leaves behind: no blank and no repeated value. */
    ghost predicate Valid() {
      forall i | 0 <= i < 6 :: "" !in Dimensions()[i] && Distinct(Dimensions()[i])
    }
  }

  /** The first occurrence of every value, in order. */
  function Dedupe(values: seq<string>): (r: seq<string>)
    ensures Distinct(r)
    ensures forall v :: v in r <==> v in values
  {
    if values == [] then []
    else
      var front, last := Dedupe(values[..|values| - 1]), values[|values| - 1];
      if last in front then front else front + [last]
  }

  lemma {:induction false} DedupeOfDistinct(values: seq<string>)
    requires Distinct(values)
    ensures Dedupe(values) == values
  {
    if values != [] {
      DedupeOfDistinct(values[..|values| - 1]);
      assert values == values[..|values| - 1] + [values[|values| - 1]];
    }
  }

  /** Normalises one dimension: absent means unconstrained, a blank value is refused. */
  method NormalizeMany(values: Option<seq<string>>) returns (r: Result<seq<string>, string>)
    ensures values.None? ==> r == Ok([])
    ensures values.Some? ==> (r.Err? <==> "" in values.value)
    ensures values.Some? && r.Ok? ==> r.value == Dedupe(values.value)
  {
    if values.None? {
      return Ok([]);
    }
    var raw := values.value;
    var normalized: seq<string> := [];
    for i := 0 to |raw|
      invariant "" !in raw[..i]
      invariant normalized == Dedupe(raw[..i])
    {
      assert raw[..i + 1] == raw[..i] + [raw[i]];
      if raw[i] == "" {
        return Err("audience dimension values must not be empty");
      }
      if raw[i] !in normalized {
        normalized := normalized + [raw[i]];
      }
    }
    assert raw[..|raw|] == raw;
    return Ok(normalized);
  }

  predicate Matches(f: AudienceFilter, c: AudienceContext) {
    && c.visibility == f.visibility
    && forall i | 0 <= i < 6 ::
         f.Dimensions()[i] == [] || (c.Values()[i].Some? && c.Values()[i].value in f.Dimensions()[i])
  }

  /** The allowed filters that admit the reader, in order; no reader, no filter. */
  function MatchingFilters(c: Option<AudienceContext>, audiences: seq<AudienceFilter>): (r: seq<AudienceFilter>)
    ensures forall f :: f in r <==> f in audiences && c.Some? && Matches(f, c.value)
  {
    if c.None? then [] else Filter((f: AudienceFilter) => Matches(f, c.value), audiences)
  }

  /** Order and repetitions are kept: a list is filtered piece by piece, a single filter stays or goes. */
  lemma MatchingFiltersInOrder(c: Option<AudienceContext>, left: seq<AudienceFilter>, f: AudienceFilter,
                               right: seq<AudienceFilter>)
    ensures MatchingFilters(c, left + [f] + right)
         == MatchingFilters(c, left) + (if c.Some? && Matches(f, c.value) then [f] else []) + MatchingFilters(c, right)
  {
    if c.Some? {
      var p := (f: AudienceFilter) => Matches(f, c.value);
      FilterConcat(p, left + [f], right);
      FilterAppend(p, left, f);
    }
  }

  predicate DimensionsMeet(left: seq<string>, right: seq<string>) {
    left == [] || right == [] || exists v | v in left :: v in right
  }

  /** The syntactic test the conflict scan uses. */
  predicate FiltersOverlap(left: AudienceFilter, right: AudienceFilter) {
    && left.visibility == right.visibility
    && forall i | 0 <= i < 6 :: DimensionsMeet(left.Dimensions()[i], right.Dimensions()[i])
  }

  /** A value admitted by both dimensions, or none when neither constrains. */
  ghost function SharedValue(left: seq<string>, right: seq<string>): (v: Option<string>)
    requires DimensionsMeet(left, right)
    ensures left == [] || (v.Some? && v.value in left)
    ensures right == [] || (v.Some? && v.value in right)
    ensures v.Some? ==> v.value in left || v.value in right
  {
    if left == [] then (if right == [] then None else Some(right[0]))
    else if right == [] then Some(left[0])
    else
      var v :| v in left && v in right;
      Some(v)
  }

  /** The overlap test is exactly "some reader sees both". */
  lemma OverlapIffSharedReader(left: AudienceFilter, right: AudienceFilter)
    requires left.Valid() && right.Valid()
    ensures FiltersOverlap(left, right)
       <==> exists c: AudienceContext :: c.Valid() && Matches(left, c) && Matches(right, c)
  {
    if FiltersOverlap(left, right) {
      var l, r := left.Dimensions(), right.Dimensions();
      assert forall i | 0 <= i < 6 :: DimensionsMeet(l[i], r[i]);
      var c := AudienceContext(left.visibility, SharedValue(l[0], r[0]), SharedValue(l[1], r[1]),
                               SharedValue(l[2], r[2]), SharedValue(l[3], r[3]),
                               SharedValue(l[4], r[4]), SharedValue(l[5], r[5]));
      assert forall i | 0 <= i < 6 :: c.Values()[i] == SharedValue(l[i], r[i]);
      assert c.Valid() && Matches(left, c) && Matches(right, c);
    }
    forall c: AudienceContext | c.Valid() && Matches(left, c) && Matches(right, c)
      ensures FiltersOverlap(left, right)
    {
      forall i | 0 <= i < 6
        ensures DimensionsMeet(left.Dimensions()[i], right.Dimensions()[i])
      {
      }
    }
  }
}
