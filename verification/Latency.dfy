/** Latency histograms: how samples are counted into buckets and percentiles read back. */
module Latency {

  /** The fixed bounds in milliseconds. Counts are kept under the text of one of them, or under "inf". */
  const BOUNDS: seq<int> := [10, 25, 50, 100, 250, 500, 1000, 2000, 5000, 10000, 30000]

  datatype Bucket = UpTo(bound: int) | Inf

  /** A count per bucket. */
  type Histogram = multiset<Bucket>

  /** Every key in the order percentiles are read. */
  function Ordered(i: nat): Bucket
    requires i <= |BOUNDS|
  {
    if i < |BOUNDS| then UpTo(BOUNDS[i]) else Inf
  }

  /** What a percentile that lands in bucket i reads. */
  function Reading(i: nat): (ms: int)
    requires i <= |BOUNDS|
  {
    if i < |BOUNDS| then BOUNDS[i] else 30000
  }

  lemma ReadingsGrow(i: nat, j: nat)
    requires i <= j <= |BOUNDS|
    ensures Reading(i) <= Reading(j)
  {
  }

  /** One request's measurements. */
  datatype Sample = Sample(duration: real, requestBytes: int, responseBytes: int)

  class MetricAccumulator {
    var count: int
    var durationSum: real
    var durationMax: real
    var requestBytes: int
    var responseBytes: int
    var histogram: Histogram
    var droppedEvents: int
    ghost var samples: seq<Sample>

    /** The counters are those of the samples so far. */
    ghost predicate Valid()
      reads this
    {
      Tallied(samples, count, durationSum, durationMax, requestBytes, responseBytes, histogram)
    }

    constructor ()
      ensures Valid() && samples == [] && droppedEvents == 0
    {
      count, durationSum, durationMax, requestBytes, responseBytes := 0, 0.0, 0.0, 0, 0;
      histogram, droppedEvents, samples := multiset{}, 0, [];
    }

    method Add(duration: real, requestSize: int, responseSize: int)
      requires Valid()
      modifies this
      ensures Valid() && samples == old(samples) + [Sample(duration, requestSize, responseSize)]
      ensures droppedEvents == old(droppedEvents)
    {
      ghost var s := Sample(duration, requestSize, responseSize);
      TalliedMore(samples, s, count, durationSum, durationMax, requestBytes, responseBytes, histogram);
      count := count + 1;
      durationSum := durationSum + duration;
      durationMax := if duration > durationMax then duration else durationMax;
      requestBytes := requestBytes + requestSize;
      responseBytes := responseBytes + responseSize;
      var bucket := FindBucket(duration);
      histogram := histogram[bucket := histogram[bucket] + 1];
      assert histogram == old(histogram) + multiset{bucket};
      samples := samples + [s];
    }
  }

  /** next(b for b in bounds if duration <= b), with "inf" when there is none. */
  method FindBucket(duration: real) returns (b: Bucket)
    ensures b == Ordered(IndexOf(duration))
  {
    for i := 0 to |BOUNDS|
      invariant forall j :: 0 <= j < i ==> BOUNDS[j] as real < duration
    {
      if duration <= BOUNDS[i] as real {
        BucketIs(duration, i);
        return UpTo(BOUNDS[i]);
      }
    }
    BucketIs(duration, |BOUNDS|);
    return Inf;
  }

  function Durations(samples: seq<Sample>): (r: seq<real>)
    ensures |r| == |samples| && forall i :: 0 <= i < |r| ==> r[i] == samples[i].duration
  {
    seq(|samples|, i requires 0 <= i < |samples| => samples[i].duration)
  }

  function SumOf(durations: seq<real>): real {
    if durations == [] then 0.0 else SumOf(durations[..|durations| - 1]) + durations[|durations| - 1]
  }

  /** The greatest duration, or zero when none is above it. */
  function MaxOf(durations: seq<real>): (m: real)
    ensures m >= 0.0 && forall d :: d in durations ==> d <= m
    ensures m == 0.0 || m in durations
  {
    if durations == [] then 0.0
    else
      var last := durations[|durations| - 1];
      var m := MaxOf(durations[..|durations| - 1]);
      assert durations == durations[..|durations| - 1] + [last];
      if last > m then last else m
  }

  function RequestBytes(samples: seq<Sample>): int {
    if samples == [] then 0
    else RequestBytes(samples[..|samples| - 1]) + samples[|samples| - 1].requestBytes
  }

  function ResponseBytes(samples: seq<Sample>): int {
    if samples == [] then 0
    else ResponseBytes(samples[..|samples| - 1]) + samples[|samples| - 1].responseBytes
  }

  /** The first bucket, from i on, whose bound is not below the duration. */
  function IndexFrom(duration: real, i: nat): (r: nat)
    requires i <= |BOUNDS|
    ensures i <= r <= |BOUNDS|
    ensures forall j :: i <= j < r ==> BOUNDS[j] as real < duration
    ensures r < |BOUNDS| ==> duration <= BOUNDS[r] as real
    decreases |BOUNDS| - i
  {
    if i == |BOUNDS| || duration <= BOUNDS[i] as real then i else IndexFrom(duration, i + 1)
  }

  function IndexOf(duration: real): (r: nat)
    ensures r <= |BOUNDS|
  {
    IndexFrom(duration, 0)
  }

  lemma BucketIs(duration: real, i: nat)
    requires i <= |BOUNDS| && (i < |BOUNDS| ==> duration <= BOUNDS[i] as real)
    requires forall j :: 0 <= j < i ==> BOUNDS[j] as real < duration
    ensures i == IndexOf(duration)
  {
  }

  function HistogramOf(durations: seq<real>): (h: Histogram) {
    if durations == [] then multiset{}
    else HistogramOf(durations[..|durations| - 1]) + multiset{Ordered(IndexOf(durations[|durations| - 1]))}
  }

  /** What the counters say about the samples they were made from. */
  ghost predicate Tallied(samples: seq<Sample>, count: int, sum: real, max: real, requestBytes: int, responseBytes: int,
                          histogram: Histogram) {
    && count == |samples|
    && sum == SumOf(Durations(samples)) && max == MaxOf(Durations(samples))
    && requestBytes == RequestBytes(samples) && responseBytes == ResponseBytes(samples)
    && histogram == HistogramOf(Durations(samples))
  }

  lemma TalliedMore(samples: seq<Sample>, s: Sample, count: int, sum: real, max: real, requestBytes: int,
                    responseBytes: int, histogram: Histogram)
    requires Tallied(samples, count, sum, max, requestBytes, responseBytes, histogram)
    ensures Tallied(samples + [s], count + 1, sum + s.duration, if s.duration > max then s.duration else max,
                    requestBytes + s.requestBytes, responseBytes + s.responseBytes,
                    histogram + multiset{Ordered(IndexOf(s.duration))})
  {
    assert (samples + [s])[..|samples|] == samples;
    assert Durations(samples + [s]) == Durations(samples) + [s.duration];
    assert (Durations(samples) + [s.duration])[..|samples|] == Durations(samples);
  }

  // ---- reading percentiles ----

  /** Counts up to bucket i. */
  function Cumulative(h: Histogram, i: nat): nat
    requires i <= |BOUNDS|
  {
    (if i == 0 then 0 else Cumulative(h, i - 1)) + h[Ordered(i)]
  }

  /** Bucket i is the first at which the counts reach the target. */
  ghost predicate Reaches(h: Histogram, target: real, i: nat) {
    && i <= |BOUNDS|
    && Cumulative(h, i) as real >= target
    && forall j :: 0 <= j < i ==> (Cumulative(h, j) as real) < target
  }

  function Share(n: int, p: real): real { (n as real) * p }

  ghost function Percentile(h: Histogram, p: real): (ms: int) {
    if h == multiset{} then 0
    else if i :| Reaches(h, Share(|h|, p), i) then Reading(i)
    else 0
  }

  lemma ReachesOnce(h: Histogram, target: real, i: nat)
    requires Reaches(h, target, i)
    ensures forall j :: Reaches(h, target, j) ==> j == i
  {
  }

  method PercentileMs(h: Histogram, p: real) returns (ms: int)
    ensures ms == Percentile(h, p)
  {
    if |h| <= 0 {
      return 0;
    }
    var target := Share(|h|, p);
    var cumulative := 0;
    for i := 0 to |BOUNDS| + 1
      invariant cumulative == if i == 0 then 0 else Cumulative(h, i - 1)
      invariant forall j :: 0 <= j < i ==> (Cumulative(h, j) as real) < target
    {
      cumulative := cumulative + h[Ordered(i)];
      if (cumulative as real) >= target {
        assert Reaches(h, target, i);
        ReachesOnce(h, target, i);
        return Reading(i);
      }
    }
    return 0;
  }

  /** Only the keys that samples are counted under. */
  ghost predicate Known(h: Histogram) {
    forall b :: b in h ==> IsKey(b)
  }

  predicate IsKey(b: Bucket) { exists i :: 0 <= i <= |BOUNDS| && b == Ordered(i) }

  lemma OrderedDiffer(i: nat, j: nat)
    requires i <= |BOUNDS| && j <= |BOUNDS| && Ordered(i) == Ordered(j)
    ensures i == j
  {
  }

  lemma {:induction false} CumulativeOfUnion(a: Histogram, b: Histogram, i: nat)
    requires i <= |BOUNDS|
    ensures Cumulative(a + b, i) == Cumulative(a, i) + Cumulative(b, i)
  {
    if i > 0 {
      CumulativeOfUnion(a, b, i - 1);
    }
  }

  lemma {:induction false} CumulativeGrows(h: Histogram, i: nat, j: nat)
    requires i <= j <= |BOUNDS|
    ensures Cumulative(h, i) <= Cumulative(h, j)
  {
    if i < j {
      CumulativeGrows(h, i, j - 1);
    }
  }

  lemma {:induction false} CumulativeOfOne(k: nat, i: nat)
    requires k <= |BOUNDS| && i <= |BOUNDS|
    ensures Cumulative(multiset{Ordered(k)}, i) == if k <= i then 1 else 0
  {
    if i > 0 {
      CumulativeOfOne(k, i - 1);
    }
    if Ordered(i) == Ordered(k) {
      OrderedDiffer(i, k);
    }
  }

  lemma {:induction false} NothingCounted(i: nat)
    requires i <= |BOUNDS|
    ensures Cumulative(multiset{}, i) == 0
  {
    if i > 0 {
      NothingCounted(i - 1);
    }
  }

  /** With known keys only, the last cumulative count is the size of the histogram. */
  lemma {:induction false} AllCounted(h: Histogram)
    requires Known(h)
    ensures Cumulative(h, |BOUNDS|) == |h|
    decreases |h|
  {
    if b :| b in h {
      assert IsKey(b);
      var k :| 0 <= k <= |BOUNDS| && b == Ordered(k);
      var rest := h - multiset{b};
      AllCounted(rest);
      CumulativeOfUnion(rest, multiset{b}, |BOUNDS|);
      CumulativeOfOne(k, |BOUNDS|);
      assert h == rest + multiset{b};
    } else {
      assert h == multiset{};
      NothingCounted(|BOUNDS|);
    }
  }

  /** The scan stops in some bucket exactly when the known keys hold enough of the counts. */
  lemma {:induction false} ReachesIff(h: Histogram, target: real)
    ensures (exists i :: Reaches(h, target, i)) <==> (Cumulative(h, |BOUNDS|) as real) >= target
  {
    if (Cumulative(h, |BOUNDS|) as real) >= target {
      var i := FirstFrom(h, target, 0);
      assert Reaches(h, target, i);
    }
    forall i | Reaches(h, target, i)
      ensures (Cumulative(h, |BOUNDS|) as real) >= target
    {
      CumulativeGrows(h, i, |BOUNDS|);
    }
  }

  ghost function FirstFrom(h: Histogram, target: real, i: nat): (r: nat)
    requires i <= |BOUNDS| && (Cumulative(h, |BOUNDS|) as real) >= target
    ensures i <= r <= |BOUNDS| && (Cumulative(h, r) as real) >= target
    ensures forall j :: i <= j < r ==> (Cumulative(h, j) as real) < target
    decreases |BOUNDS| - i
  {
    if (Cumulative(h, i) as real) >= target then i else FirstFrom(h, target, i + 1)
  }

  lemma ShareIsPart(n: int, p: real)
    requires n >= 0 && p <= 1.0
    ensures Share(n, p) <= n as real
  {
  }

  /** For fractions up to one the scan always stops. */
  lemma Stops(h: Histogram, p: real) returns (i: nat)
    requires h != multiset{} && Known(h) && p <= 1.0
    ensures Reaches(h, Share(|h|, p), i) && Percentile(h, p) == Reading(i)
  {
    AllCounted(h);
    ShareIsPart(|h|, p);
    ReachesIff(h, Share(|h|, p));
    i :| Reaches(h, Share(|h|, p), i);
    ReachesOnce(h, Share(|h|, p), i);
  }

  lemma ShareIsMore(n: int, p: real)
    requires n > 0 && p > 1.0
    ensures Share(n, p) > n as real
  {
  }

  /** Zero is read from a histogram with counts exactly when more than all of them is asked for. */
  lemma ZeroIff(h: Histogram, p: real)
    requires h != multiset{} && Known(h)
    ensures Percentile(h, p) == 0 <==> p > 1.0
  {
    if p <= 1.0 {
      var i := Stops(h, p);
    } else {
      AllCounted(h);
      ShareIsMore(|h|, p);
      ReachesIff(h, Share(|h|, p));
    }
  }

  // ---- what a percentile means ----

  function CountUpTo(durations: seq<real>, x: real): nat {
    if durations == [] then 0
    else CountUpTo(durations[..|durations| - 1], x) + if durations[|durations| - 1] <= x then 1 else 0
  }

  /** How many samples a reading of bucket i covers. */
  function Covered(durations: seq<real>, i: nat): nat
    requires i <= |BOUNDS|
  {
    if i < |BOUNDS| then CountUpTo(durations, BOUNDS[i] as real) else |durations|
  }

  lemma IndexMeaning(duration: real, i: nat)
    requires i < |BOUNDS|
    ensures IndexOf(duration) <= i <==> duration <= BOUNDS[i] as real
  {
  }

  /** Cumulative counts are exact at the bounds. */
  lemma {:induction false} CumulativeIsCount(durations: seq<real>, i: nat)
    requires i <= |BOUNDS|
    ensures Cumulative(HistogramOf(durations), i) == Covered(durations, i)
  {
    if durations == [] {
      NothingCounted(i);
    } else {
      var n := |durations| - 1;
      CumulativeIsCount(durations[..n], i);
      var k := IndexOf(durations[n]);
      CumulativeOfUnion(HistogramOf(durations[..n]), multiset{Ordered(k)}, i);
      CumulativeOfOne(k, i);
      if i < |BOUNDS| {
        IndexMeaning(durations[n], i);
      }
    }
  }

  lemma {:induction false} HistogramIsKnown(durations: seq<real>)
    ensures Known(HistogramOf(durations)) && |HistogramOf(durations)| == |durations|
  {
    if durations != [] {
      HistogramIsKnown(durations[..|durations| - 1]);
      assert IsKey(Ordered(IndexOf(durations[|durations| - 1])));
    }
  }

  /** The percentile of recorded samples is the least bound that covers the requested share of them,
      read as 30000 when only the unbounded bucket does. */
  lemma {:induction false} PercentileIsLeastBound(durations: seq<real>, p: real)
    requires durations != [] && p <= 1.0
    ensures exists i: nat ::
              && i <= |BOUNDS| && Percentile(HistogramOf(durations), p) == Reading(i)
              && (Covered(durations, i) as real) >= Share(|durations|, p)
              && forall j :: 0 <= j < i ==> (Covered(durations, j) as real) < Share(|durations|, p)
  {
    var h := HistogramOf(durations);
    HistogramIsKnown(durations);
    assert |h| == |durations|;
    var i := Stops(h, p);
    CumulativeIsCount(durations, i);
    forall j | 0 <= j < i
      ensures (Covered(durations, j) as real) < Share(|durations|, p)
    {
      CumulativeIsCount(durations, j);
    }
  }

  /** The exact quantile: the least sample with the requested share of samples up to it. */
  ghost predicate IsQuantile(durations: seq<real>, p: real, q: real) {
    && q in durations
    && (CountUpTo(durations, q) as real) >= Share(|durations|, p)
    && forall d :: d in durations && d < q ==> (CountUpTo(durations, d) as real) < Share(|durations|, p)
  }

  lemma {:induction false} CountGrows(durations: seq<real>, x: real, y: real)
    requires x <= y
    ensures CountUpTo(durations, x) <= CountUpTo(durations, y) <= |durations|
  {
    if durations != [] {
      CountGrows(durations[..|durations| - 1], x, y);
    }
  }

  /** A count is that of the greatest sample it includes. */
  lemma {:induction false} CountStopsAtSample(durations: seq<real>, x: real)
    ensures CountUpTo(durations, x) == 0
            || exists d :: d in durations && d <= x && CountUpTo(durations, d) == CountUpTo(durations, x)
  {
    if durations != [] {
      var last := durations[|durations| - 1];
      var front := durations[..|durations| - 1];
      CountStopsAtSample(front, x);
      if CountUpTo(front, x) == 0 {
        if last <= x {
          CountGrows(front, last, x);
          assert last in durations && CountUpTo(durations, last) == CountUpTo(durations, x);
        }
      } else {
        var d :| d in front && d <= x && CountUpTo(front, d) == CountUpTo(front, x);
        var top := if last <= x && d <= last then last else d;
        CountGrows(front, d, top);
        CountGrows(front, top, x);
        assert top in durations && CountUpTo(durations, top) == CountUpTo(durations, x);
      }
    }
  }

  lemma {:induction false} CountGrowsAtSample(durations: seq<real>, x: real, y: real)
    requires x < y && y in durations
    ensures CountUpTo(durations, x) < CountUpTo(durations, y)
  {
    var front := durations[..|durations| - 1];
    CountGrows(front, x, y);
    if durations[|durations| - 1] != y {
      assert durations == front + [durations[|durations| - 1]];
      CountGrowsAtSample(front, x, y);
    }
  }

  lemma {:induction false} GreatestSample(durations: seq<real>) returns (m: real)
    requires durations != []
    ensures m in durations && CountUpTo(durations, m) == |durations|
  {
    var front, last := durations[..|durations| - 1], durations[|durations| - 1];
    assert durations == front + [last];
    if front == [] {
      m := last;
    } else {
      m := GreatestSample(front);
      if m < last {
        CountGrows(front, m, last);
        m := last;
      }
    }
  }

  lemma {:induction false} LeastReaching(durations: seq<real>, p: real, x: real) returns (q: real)
    requires x in durations && (CountUpTo(durations, x) as real) >= Share(|durations|, p)
    ensures IsQuantile(durations, p, q)
    decreases CountUpTo(durations, x)
  {
    if d :| d in durations && d < x && (CountUpTo(durations, d) as real) >= Share(|durations|, p) {
      CountGrowsAtSample(durations, d, x);
      q := LeastReaching(durations, p, d);
    } else {
      q := x;
    }
  }

  /** Every share up to the whole has its quantile. */
  lemma QuantileExists(durations: seq<real>, p: real) returns (q: real)
    requires durations != [] && p <= 1.0
    ensures IsQuantile(durations, p, q)
  {
    var m := GreatestSample(durations);
    ShareIsPart(|durations|, p);
    q := LeastReaching(durations, p, m);
  }

  lemma ShareIsSome(n: int, p: real)
    requires n > 0 && p > 0.0
    ensures Share(n, p) > 0.0
  {
  }

  /** The bucketed percentile is the bucket of the exact one. */
  lemma {:induction false} PercentileRefinesQuantile(durations: seq<real>, p: real, q: real)
    requires durations != [] && 0.0 < p <= 1.0 && IsQuantile(durations, p, q)
    ensures Percentile(HistogramOf(durations), p) == Reading(IndexOf(q))
  {
    var h := HistogramOf(durations);
    HistogramIsKnown(durations);
    assert |h| == |durations|;
    ShareIsSome(|h|, p);
    var k := IndexOf(q);
    CumulativeIsCount(durations, k);
    CountGrows(durations, q, if k < |BOUNDS| then BOUNDS[k] as real else q);
    forall j | 0 <= j < k
      ensures (Cumulative(h, j) as real) < Share(|h|, p)
    {
      CumulativeIsCount(durations, j);
      IndexMeaning(q, j);
      CountStopsAtSample(durations, BOUNDS[j] as real);
    }
    assert Reaches(h, Share(|h|, p), k);
    ReachesOnce(h, Share(|h|, p), k);
  }

  predicate IsBound(ms: int) {
    ms == 10 || ms == 25 || ms == 50 || ms == 100 || ms == 250 || ms == 500 || ms == 1000 || ms == 2000 || ms == 5000
    || ms == 10000 || ms == 30000
  }

  /** The sample up to which the requested fraction of the samples lies, and no smaller one. */
  ghost predicate FractionUpTo(durations: seq<real>, p: real, q: real) {
    && q in durations
    && (CountUpTo(durations, q) as real) >= p * (|durations| as real)
    && forall d :: d in durations && d < q ==> (CountUpTo(durations, d) as real) < p * (|durations| as real)
  }

  lemma FractionIsQuantile(durations: seq<real>, p: real, q: real)
    requires FractionUpTo(durations, p, q)
    ensures IsQuantile(durations, p, q)
  {
    assert Share(|durations|, p) == p * (|durations| as real);
  }

  /** The next bound at or above a duration. */
  lemma NextBound(q: real)
    ensures IsBound(Reading(IndexOf(q)))
    ensures q > 30000.0 ==> Reading(IndexOf(q)) == 30000
    ensures q <= 30000.0 ==> q <= Reading(IndexOf(q)) as real
    ensures forall b :: IsBound(b) && q <= b as real ==> Reading(IndexOf(q)) <= b
  {
    var i := IndexOf(q);
    assert BOUNDS == [10, 25, 50, 100, 250, 500, 1000, 2000, 5000, 10000, 30000];
    IndexMeaning(q, 10);
    forall b | IsBound(b) && q <= b as real ensures Reading(i) <= b {
      IndexMeaning(q, PlaceOf(b));
      ReadingsGrow(i, PlaceOf(b));
    }
  }

  function PlaceOf(b: int): (i: nat)
    requires IsBound(b)
    ensures i < |BOUNDS| && BOUNDS[i] == b
  {
    if b == 10 then 0 else if b == 25 then 1 else if b == 50 then 2 else if b == 100 then 3 else if b == 250 then 4
    else if b == 500 then 5 else if b == 1000 then 6 else if b == 2000 then 7 else if b == 5000 then 8
    else if b == 10000 then 9 else 10
  }

  /** What a percentile reads in milliseconds: the exact quantile rounded up to the next bound, and 30000 beyond
      the last. */
  lemma {:induction false} PercentileReads(durations: seq<real>, p: real, q: real)
    requires durations != [] && 0.0 < p <= 1.0 && FractionUpTo(durations, p, q)
    ensures var ms := Percentile(HistogramOf(durations), p);
            && IsBound(ms)
            && (q <= 30000.0 ==> q <= ms as real && forall b :: IsBound(b) && q <= b as real ==> ms <= b)
            && (q > 30000.0 ==> ms == 30000)
  {
    FractionIsQuantile(durations, p, q);
    PercentileRefinesQuantile(durations, p, q);
    NextBound(q);
  }

  lemma SharesGrow(n: int, p: real, q: real)
    requires n >= 0 && p <= q
    ensures Share(n, p) <= Share(n, q)
  {
  }

  /** A larger fraction never reads a smaller latency. */
  lemma PercentileGrows(h: Histogram, p: real, q: real)
    requires h != multiset{} && Known(h) && p <= q <= 1.0
    ensures Percentile(h, p) <= Percentile(h, q)
  {
    var i := Stops(h, p);
    var j := Stops(h, q);
    SharesGrow(|h|, p, q);
    assert i <= j;
    ReadingsGrow(i, j);
  }

  lemma SharesAdd(m: int, n: int, p: real)
    ensures Share(m + n, p) == Share(m, p) + Share(n, p)
  {
    assert ((m + n) as real) == (m as real) + (n as real);
  }

  /** Sums reach the sum of two targets not before the first and not after the second. */
  lemma ReachedTogether(a: Histogram, b: Histogram, s: real, t: real, i: nat, j: nat, k: nat)
    requires Reaches(a, s, i) && Reaches(b, t, j) && Reaches(a + b, s + t, k) && i <= j
    ensures i <= k <= j
  {
    CumulativeOfUnion(a, b, j);
    CumulativeGrows(a, i, j);
    CumulativeOfUnion(a, b, k);
  }

  lemma KnownTogether(a: Histogram, b: Histogram)
    requires Known(a) && Known(b)
    ensures Known(a + b)
  {
  }

  lemma SizesAdd(a: Histogram, b: Histogram)
    ensures |a + b| == |a| + |b|
  {
  }

  /** Where the scans of two histograms and of their union stop. */
  lemma StopsTogether(a: Histogram, b: Histogram, p: real) returns (i: nat, j: nat, k: nat)
    requires a != multiset{} && b != multiset{} && Known(a) && Known(b) && p <= 1.0
    ensures Reaches(a, Share(|a|, p), i) && Percentile(a, p) == Reading(i)
    ensures Reaches(b, Share(|b|, p), j) && Percentile(b, p) == Reading(j)
    ensures Reaches(a + b, Share(|a|, p) + Share(|b|, p), k) && Percentile(a + b, p) == Reading(k)
  {
    KnownTogether(a, b);
    SizesAdd(a, b);
    SharesAdd(|a|, |b|, p);
    i := Stops(a, p);
    j := Stops(b, p);
    k := Stops(a + b, p);
  }

  predicate Between(x: int, y: int, z: int) { x <= y <= z || z <= y <= x }

  /** Two merged histograms read between their own readings. */
  lemma MergedBetween(a: Histogram, b: Histogram, p: real)
    requires a != multiset{} && b != multiset{} && Known(a) && Known(b) && p <= 1.0
    ensures Between(Percentile(a, p), Percentile(a + b, p), Percentile(b, p))
  {
    var i, j, k := StopsTogether(a, b, p);
    if i <= j {
      ReachedTogether(a, b, Share(|a|, p), Share(|b|, p), i, j, k);
      ReadingsGrow(i, k);
      ReadingsGrow(k, j);
    } else {
      assert a + b == b + a;
      ReachedTogether(b, a, Share(|b|, p), Share(|a|, p), j, i, k);
      ReadingsGrow(j, k);
      ReadingsGrow(k, i);
    }
  }

  // ---- merging ----

  function Union(hs: seq<Histogram>): (h: Histogram) {
    if hs == [] then multiset{} else Union(hs[..|hs| - 1]) + hs[|hs| - 1]
  }

  method MergeHistograms(hs: seq<Histogram>) returns (result: Histogram)
    ensures result == Union(hs)
  {
    result := multiset{};
    for i := 0 to |hs|
      invariant result == Union(hs[..i])
    {
      result := AddCounts(result, hs[i]);
      assert hs[..i + 1][..i] == hs[..i];
    }
    assert hs[..|hs|] == hs;
  }

  /** The inner loop: for key, count in items: result[key] += count. */
  method AddCounts(base: Histogram, counts: Histogram) returns (result: Histogram)
    ensures result == base + counts
  {
    result := base;
    var rest := counts;
    while exists key :: key in rest
      invariant forall b :: result[b] + rest[b] == base[b] + counts[b]
      decreases |rest|
    {
      var key :| key in rest;
      assert rest == rest[key := 0] + multiset{}[key := rest[key]];
      result := result[key := result[key] + rest[key]];
      rest := rest[key := 0];
    }
    assert forall b :: rest[b] == 0;
  }

  lemma {:induction false} UnionIsKnown(hs: seq<Histogram>)
    requires hs != [] && forall h :: h in hs ==> h != multiset{} && Known(h)
    ensures Known(Union(hs)) && Union(hs) != multiset{}
  {
    var n := |hs| - 1;
    var last := hs[n];
    assert last in hs && forall h :: h in hs[..n] ==> h in hs;
    if n == 0 {
      assert Union(hs[..n]) == multiset{};
      assert Union(hs) == last;
    } else {
      UnionIsKnown(hs[..n]);
      KnownTogether(Union(hs[..n]), last);
      SizesAdd(Union(hs[..n]), last);
    }
  }

  /** Any number of merged histograms read between the least and the greatest of their readings. */
  lemma {:induction false} MergedReadings(hs: seq<Histogram>, p: real) returns (least: Histogram, greatest: Histogram)
    requires hs != [] && p <= 1.0
    requires forall h :: h in hs ==> h != multiset{} && Known(h)
    ensures least in hs && greatest in hs
    ensures Percentile(least, p) <= Percentile(Union(hs), p) <= Percentile(greatest, p)
  {
    var n := |hs| - 1;
    var last := hs[n];
    assert last in hs && forall h :: h in hs[..n] ==> h in hs;
    if n == 0 {
      assert Union(hs[..n]) == multiset{};
      assert Union(hs) == last;
      least, greatest := last, last;
    } else {
      least, greatest := MergedReadings(hs[..n], p);
      UnionIsKnown(hs[..n]);
      MergedBetween(Union(hs[..n]), last, p);
      assert Union(hs) == Union(hs[..n]) + last;
      if Percentile(last, p) < Percentile(least, p) {
        least := last;
      }
      if Percentile(last, p) > Percentile(greatest, p) {
        greatest := last;
      }
    }
  }
}
