/** Samples and their summary (cygnus/capacity/metrics.py); floats are reals. */
module CapacityMetrics {
  import opened Wrappers
  import opened Ordering

  datatype Outcome = Success | Error | Denied | Retry

  datatype RouteSampleData = RouteSampleData(
      startedAt: real,
      durationMs: real,
      outcome: Outcome,
      queueAge: Option<real>,
      pool: Option<(real, real)>)

  /** What the sample's own checks let through; `pool` holds the connections in use and the pool size. */
  type RouteSample = s: RouteSampleData | s.durationMs >= 0.0 && (s.pool.Some? ==> s.pool.value.1 > 0.0)
    witness RouteSampleData(0.0, 0.0, Success, None, None)

  // ---------------------------------------------------------------- percentiles

  predicate RealLt(a: real, b: real) { a < b }

  function Ceiling(x: real): int { -((-x).Floor) }

  datatype PercentileError = EmptySequence | IndexOutOfRange

  /** The value at a rank; a rank below one counts back from the end, one above the size is the size. */
  function AtRank(ordered: seq<real>, rank: int): Result<real, PercentileError> {
    var index := (if rank < |ordered| then rank else |ordered|) - 1;
    if 0 <= index < |ordered| then Ok(ordered[index])
    else if 0 <= index + |ordered| < |ordered| then Ok(ordered[index + |ordered|])
    else Err(IndexOutOfRange)
  }

  /** The value at the rank of a share of the samples. */
  function AtShare(values: seq<real>, share: real): Result<real, PercentileError>
    requires values != []
  {
    AtRank(Sort(RealLt, values), Ceiling(share))
  }

  /** How many of n samples q percent are. */
  function Share(q: real, n: nat): real { q / 100.0 * n as real }

  /** The nearest-rank percentile. */
  function Percentile(values: seq<real>, q: real): Result<real, PercentileError> {
    if values == [] then Err(EmptySequence) else AtShare(values, Share(q, |values|))
  }

  function AtMost(values: seq<real>, v: real): nat { |Filter((x: real) => x <= v, values)| }

  function Below(values: seq<real>, v: real): nat { |Filter((x: real) => x < v, values)| }

  /** A sample value with at least the share of the values at or below it, and less than the share below it. */
  predicate HasRank(values: seq<real>, share: real, v: real) {
    v in values && AtMost(values, v) as real >= share > Below(values, v) as real
  }

  lemma {:induction false} FilterAtLeast(p: real -> bool, s: seq<real>, k: nat)
    requires k <= |s| && forall i | 0 <= i < k :: p(s[i])
    ensures |Filter(p, s)| >= k
  {
    if s != [] && k > 0 {
      FilterAtLeast(p, s[..|s| - 1], if k == |s| then k - 1 else k);
    }
  }

  lemma {:induction false} FilterAtMost(p: real -> bool, s: seq<real>, k: nat)
    requires k <= |s| && forall i | k <= i < |s| :: !p(s[i])
    ensures |Filter(p, s)| <= k
  {
    if |s| > k { FilterAtMost(p, s[..|s| - 1], k); }
  }

  lemma FilterCount(p: real -> bool, a: seq<real>, b: seq<real>)
    requires multiset(a) == multiset(b)
    ensures |Filter(p, a)| == |Filter(p, b)|
  {
    FilterForgetsOrder(p, a, b);
    assert |Filter(p, a)| == |multiset(Filter(p, a))| == |multiset(Filter(p, b))| == |Filter(p, b)|;
  }

  lemma CountsForgetOrder(a: seq<real>, b: seq<real>, v: real)
    requires multiset(a) == multiset(b)
    ensures AtMost(a, v) == AtMost(b, v) && Below(a, v) == Below(b, v) && |a| == |b|
  {
    FilterCount((x: real) => x <= v, a, b);
    FilterCount((x: real) => x < v, a, b);
    assert |a| == |multiset(a)| == |multiset(b)| == |b|;
  }

  lemma ShareInRange(q: real, n: nat)
    requires n > 0 && 0.0 < q <= 100.0
    ensures 0.0 < Share(q, n) <= n as real
  {
    Scale(q / 100.0, n as real);
  }

  lemma Scale(f: real, n: real)
    requires 0.0 < f <= 1.0 && n > 0.0
    ensures 0.0 < f * n <= n
  {
  }

  lemma ShareMonotone(q: real, q': real, n: nat)
    requires q <= q'
    ensures Share(q, n) <= Share(q', n)
  {
    ScaleMonotone(q / 100.0, q' / 100.0, n as real);
  }

  lemma ScaleMonotone(f: real, f': real, n: real)
    requires f <= f' && n >= 0.0
    ensures f * n <= f' * n
  {
  }

  /** In a sorted sequence, the value at rank k has k values at or below it and fewer than k below it. */
  lemma RankCounts(ordered: seq<real>, k: nat)
    requires WeaklySorted(RealLt, ordered) && 1 <= k <= |ordered|
    ensures AtMost(ordered, ordered[k - 1]) >= k && Below(ordered, ordered[k - 1]) <= k - 1
  {
    var v := ordered[k - 1];
    assert forall i | 0 <= i < k :: !RealLt(v, ordered[i]);
    assert forall i | k - 1 <= i < |ordered| :: !RealLt(ordered[i], v);
    FilterAtLeast((x: real) => x <= v, ordered, k);
    FilterAtMost((x: real) => x < v, ordered, k - 1);
  }

  lemma CeilingInRange(share: real, n: nat)
    requires 0.0 < share <= n as real
    ensures 1 <= Ceiling(share) <= n && (Ceiling(share) - 1) as real < share <= Ceiling(share) as real
  {
  }

  lemma SortedValueHasRank(values: seq<real>, share: real, k: nat)
    requires 1 <= k <= |values| && (k - 1) as real < share <= k as real
    ensures HasRank(values, share, Sort(RealLt, values)[k - 1])
  {
    var ordered := Sort(RealLt, values);
    SortSorts(RealLt, values);
    RankCounts(ordered, k);
    CountsForgetOrder(ordered, values, ordered[k - 1]);
    assert ordered[k - 1] in ordered;
    SameElements(ordered, values);
  }

  lemma AtRankIs(ordered: seq<real>, k: nat)
    requires 1 <= k <= |ordered|
    ensures AtRank(ordered, k) == Ok(ordered[k - 1])
  {
  }

  lemma AtShareHasRank(values: seq<real>, share: real)
    requires values != [] && 0.0 < share <= |values| as real
    ensures AtShare(values, share).Ok? && HasRank(values, share, AtShare(values, share).value)
  {
    CeilingInRange(share, |values|);
    var k := Ceiling(share);
    AtRankIs(Sort(RealLt, values), k);
    SortedValueHasRank(values, share, k);
  }

  lemma {:induction false} BelowNext(values: seq<real>, v: real, w: real)
    requires v < w
    ensures AtMost(values, v) <= Below(values, w)
  {
    var p, r := (x: real) => x <= v, (x: real) => x < w;
    FilterImplies(p, r, values);
  }

  lemma {:induction false} FilterImplies(p: real -> bool, r: real -> bool, s: seq<real>)
    requires forall x :: p(x) ==> r(x)
    ensures |Filter(p, s)| <= |Filter(r, s)|
  {
    if s != [] { FilterImplies(p, r, s[..|s| - 1]); }
  }

  /** A smaller share has no larger value. */
  lemma RanksInOrder(values: seq<real>, share: real, share': real, v: real, v': real)
    requires share <= share' && HasRank(values, share, v) && HasRank(values, share', v')
    ensures v <= v'
  {
    if v' < v { BelowNext(values, v', v); }
  }

  /** The percentile is the one sample value that q percent reach and fewer than q percent stay below. */
  lemma PercentileIff(values: seq<real>, q: real, v: real)
    requires values != [] && 0.0 < q <= 100.0
    ensures Percentile(values, q) == Ok(v) <==> HasRank(values, Share(q, |values|), v)
    ensures Percentile(values, q).Ok?
  {
    var share := Share(q, |values|);
    ShareInRange(q, |values|);
    AtShareHasRank(values, share);
    if HasRank(values, share, v) {
      RanksInOrder(values, share, share, v, AtShare(values, share).value);
      RanksInOrder(values, share, share, AtShare(values, share).value, v);
    }
  }

  lemma RankForgetsOrder(a: seq<real>, b: seq<real>, share: real, v: real)
    requires multiset(a) == multiset(b)
    ensures HasRank(a, share, v) == HasRank(b, share, v)
  {
    SameElements(a, b);
    CountsForgetOrder(a, b, v);
  }

  /** The order of the samples does not matter. */
  lemma PercentileForgetsOrder(a: seq<real>, b: seq<real>, q: real)
    requires a != [] && multiset(a) == multiset(b) && 0.0 < q <= 100.0
    ensures Percentile(a, q) == Percentile(b, q)
  {
    assert |b| == |multiset(b)| == |multiset(a)| == |a|;
    PercentileIff(a, q, 0.0);
    var v := Percentile(a, q).value;
    PercentileIff(a, q, v);
    RankForgetsOrder(a, b, Share(q, |a|), v);
    PercentileIff(b, q, v);
  }

  /** A higher percentile is not smaller. */
  lemma PercentileMonotone(values: seq<real>, q: real, q': real)
    requires values != [] && 0.0 < q <= q' <= 100.0
    ensures Percentile(values, q).Ok? && Percentile(values, q').Ok?
    ensures Percentile(values, q).value <= Percentile(values, q').value
  {
    PercentileIff(values, q, 0.0);
    PercentileIff(values, q', 0.0);
    var v, v' := Percentile(values, q).value, Percentile(values, q').value;
    PercentileIff(values, q, v);
    PercentileIff(values, q', v');
    ShareMonotone(q, q', |values|);
    RanksInOrder(values, Share(q, |values|), Share(q', |values|), v, v');
  }

  /** Zero counts back from the end, to the largest value. */
  lemma ZerothIsLargest(values: seq<real>)
    requires values != []
    ensures Percentile(values, 0.0) == Percentile(values, 100.0) && Percentile(values, 0.0).Ok?
    ensures Percentile(values, 0.0).value in values
    ensures forall v | v in values :: v <= Percentile(values, 0.0).value
  {
    var ordered := Sort(RealLt, values);
    assert Share(0.0, |values|) == 0.0 && Share(100.0, |values|) == |values| as real;
    SortSorts(RealLt, values);
    SameElements(ordered, values);
    assert Percentile(values, 0.0) == Ok(ordered[|ordered| - 1]);
    forall v | v in values
      ensures v <= ordered[|ordered| - 1]
    {
      var i :| 0 <= i < |ordered| && ordered[i] == v;
      assert i < |ordered| - 1 ==> !RealLt(ordered[|ordered| - 1], ordered[i]);
    }
  }

  // ---------------------------------------------------------------- summaries

  function CountOutcome(samples: seq<RouteSample>, k: nat, outcome: Outcome): nat
    requires k <= |samples|
  {
    if k == 0 then 0 else CountOutcome(samples, k - 1, outcome) + (if samples[k - 1].outcome == outcome then 1 else 0)
  }

  function Rate(samples: seq<RouteSample>, outcome: Outcome): real
    requires samples != []
  {
    CountOutcome(samples, |samples|, outcome) as real / |samples| as real
  }

  function Sum(values: seq<real>): real {
    if values == [] then 0.0 else Sum(values[..|values| - 1]) + values[|values| - 1]
  }

  function Mean(values: seq<real>): Option<real> {
    if values == [] then None else Some(Sum(values) / |values| as real)
  }

  function QueueAges(samples: seq<RouteSample>, k: nat): seq<real>
    requires k <= |samples|
  {
    if k == 0 then []
    else QueueAges(samples, k - 1) + (if samples[k - 1].queueAge.Some? then [samples[k - 1].queueAge.value] else [])
  }

  function Saturations(samples: seq<RouteSample>, k: nat): seq<real>
    requires k <= |samples|
  {
    if k == 0 then []
    else
      var pool := samples[k - 1].pool;
      Saturations(samples, k - 1) + (if pool.Some? then [pool.value.0 / pool.value.1] else [])
  }

  function Durations(samples: seq<RouteSample>): (r: seq<real>)
    ensures |r| == |samples|
  {
    seq(|samples|, i requires 0 <= i < |samples| => samples[i].durationMs)
  }

  datatype SummaryMetrics = SummaryMetrics(
      samples: nat,
      p50: real, p95: real, p99: real,
      throughput: real,
      errorRate: real, denialRate: real, retryRate: real,
      queueAge: Option<real>,
      poolSaturation: Option<real>)

  function PercentileOf(samples: seq<RouteSample>, q: real): real
    requires samples != [] && 0.0 < q <= 100.0
  {
    PercentileIff(Durations(samples), q, 0.0);
    Percentile(Durations(samples), q).value
  }

  function Summarize(samples: seq<RouteSample>, wallSeconds: Option<real>): SummaryMetrics
    requires samples != []
  {
    SummaryMetrics(
      |samples|,
      PercentileOf(samples, 50.0), PercentileOf(samples, 95.0), PercentileOf(samples, 99.0),
      if wallSeconds.Some? && wallSeconds.value > 0.0 then |samples| as real / wallSeconds.value else 0.0,
      Rate(samples, Error), Rate(samples, Denied), Rate(samples, Retry),
      Mean(QueueAges(samples, |samples|)), Mean(Saturations(samples, |samples|)))
  }

  lemma {:induction false} OutcomesAddUp(samples: seq<RouteSample>, k: nat)
    requires k <= |samples|
    ensures CountOutcome(samples, k, Success) + CountOutcome(samples, k, Error)
          + CountOutcome(samples, k, Denied) + CountOutcome(samples, k, Retry) == k
  {
    if k > 0 { OutcomesAddUp(samples, k - 1); }
  }

  /** The rates and the share of successes are shares of one whole, and the percentiles are in order. */
  lemma SummaryIsConsistent(samples: seq<RouteSample>, wallSeconds: Option<real>)
    requires samples != []
    ensures var s := Summarize(samples, wallSeconds);
            && s.errorRate + s.denialRate + s.retryRate + Rate(samples, Success) == 1.0
            && 0.0 <= s.errorRate <= 1.0 && 0.0 <= s.denialRate <= 1.0 && 0.0 <= s.retryRate <= 1.0
            && s.p50 <= s.p95 <= s.p99
  {
    var n := |samples|;
    OutcomesAddUp(samples, n);
    var e, d, r, ok := CountOutcome(samples, n, Error), CountOutcome(samples, n, Denied),
                       CountOutcome(samples, n, Retry), CountOutcome(samples, n, Success);
    SharesOfOne(e as real, d as real, r as real, ok as real, n as real);
    PercentileMonotone(Durations(samples), 50.0, 95.0);
    PercentileMonotone(Durations(samples), 95.0, 99.0);
  }

  lemma SharesOfOne(a: real, b: real, c: real, d: real, n: real)
    requires n > 0.0 && a + b + c + d == n && a >= 0.0 && b >= 0.0 && c >= 0.0 && d >= 0.0
    ensures a / n + b / n + c / n + d / n == 1.0
    ensures 0.0 <= a / n <= 1.0 && 0.0 <= b / n <= 1.0 && 0.0 <= c / n <= 1.0 && 0.0 <= d / n <= 1.0
  {
    assert a / n + b / n + c / n + d / n == (a + b + c + d) / n;
  }
}
