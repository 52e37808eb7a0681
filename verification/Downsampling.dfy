/** Thinning out aligned time series: every `n` samples become one, with the median of their
    timestamps and the mean of their values. */
module Downsampling {
  import opened Numbers
  import opened Text

  function Sum(values: seq<real>): real {
    if values == [] then 0.0 else Sum(values[..|values| - 1]) + values[|values| - 1]
  }

  function Mean(values: seq<real>): real
    requires values != []
  {
    Sum(values) / |values| as real
  }

  /** `_median_dt` of an ascending sequence. */
  function Median(times: seq<real>): real
    requires times != []
  {
    var mid := |times| / 2;
    if |times| % 2 == 1 then times[mid] else times[mid - 1] + (times[mid] - times[mid - 1]) / 2.0
  }

  // ----- buckets -----

  /** How many buckets of `n` cover `size` samples: the quotient rounded up. */
  function Buckets(size: nat, n: nat): nat
    requires n > 0
  {
    (size + n - 1) / n
  }

  /** Where bucket `b` begins; past the end that is the end. */
  function Bound(size: nat, n: nat, b: nat): nat {
    if b * n < size then b * n else size
  }

  lemma BucketsCover(size: nat, n: nat)
    requires n > 0
    ensures (Buckets(size, n) - 1) * n < size <= Buckets(size, n) * n || size == 0 == Buckets(size, n)
  {
    var q := Buckets(size, n);
    assert q * n <= size + n - 1 < q * n + n;
  }

  function Bucket<T>(s: seq<T>, n: nat, b: nat): seq<T> {
    BoundsOrdered(|s|, n, b);
    s[Bound(|s|, n, b)..Bound(|s|, n, b + 1)]
  }

  lemma BoundsOrdered(size: nat, n: nat, b: nat)
    ensures Bound(size, n, b) <= Bound(size, n, b + 1) <= size
    ensures b * n < size && n > 0 ==> Bound(size, n, b) == b * n < Bound(size, n, b + 1) <= b * n + n
  {
    assert (b + 1) * n == b * n + n;
  }

  /** Bucket `b` of the thinned series, for all buckets before `upTo`. */
  ghost predicate Thinned(outTimes: seq<real>, outSeries: seq<seq<real>>, times: seq<real>, series: seq<seq<real>>,
                          n: nat, upTo: nat)
    requires n > 0
  {
    && |outTimes| == upTo && |outSeries| == |series|
    && (forall b :: 0 <= b < upTo ==> Bucket(times, n, b) != [] && outTimes[b] == Median(Bucket(times, n, b)))
    && (forall k :: 0 <= k < |series| ==> |outSeries[k]| == upTo)
    && (forall k, b :: 0 <= k < |series| && 0 <= b < upTo ==>
          Bucket(series[k], n, b) != [] && outSeries[k][b] == Mean(Bucket(series[k], n, b)))
  }

  predicate Aligned(times: seq<real>, series: seq<seq<real>>) {
    forall k :: 0 <= k < |series| ==> |series[k]| == |times|
  }

  /** `downsample_series`; Err when a series is not as long as the timestamps. */
  method DownsampleSeries(times: seq<real>, series: seq<seq<real>>, n: int)
    returns (r: Result<(seq<real>, seq<seq<real>>), ()>)
    ensures n <= 1 || times == [] ==> r == Ok((times, series))
    ensures n > 1 && times != [] ==> (r.Ok? <==> Aligned(times, series))
    ensures n > 1 && times != [] && r.Ok? ==> Thinned(r.value.0, r.value.1, times, series, n, Buckets(|times|, n))
  {
    if n <= 1 || times == [] {
      return Ok((times, series));
    }
    if !Aligned(times, series) {
      return Err(());
    }
    var outTimes: seq<real> := [];
    var outSeries: seq<seq<real>> := seq(|series|, _ => []);
    var i := 0;
    ghost var b := 0;
    FirstStop(|times|, n);
    while i < |times|
      invariant Stop(|times|, n, b, i)
      invariant Thinned(outTimes, outSeries, times, series, n, b)
    {
      hide Stop, Thinned, Median, Mean;
      var j := if i + n < |times| then i + n else |times|;
      NextStop(|times|, n, b, i, j);
      ghost var times0, series0 := outTimes, outSeries;
      outTimes := outTimes + [Median(times[i..j])];
      outSeries := OneMore(outSeries, series, times, i, j);
      ThinnedMore(times0, series0, times, series, n, b, i, j);
      i := j;
      b := b + 1;
    }
    LastStop(|times|, n, b);
    return Ok((outTimes, outSeries));
  }

  /** Every output list with the mean of one more slice of its series. */
  function OneMore(out: seq<seq<real>>, series: seq<seq<real>>, times: seq<real>, i: nat, j: nat)
    : seq<seq<real>>
    requires |out| == |series| && Aligned(times, series) && i < j <= |times|
  {
    seq(|series|, k requires 0 <= k < |series| => out[k] + [Mean(series[k][i..j])])
  }

  /** After `b` buckets the loop stands at `i`. */
  ghost predicate Stop(size: nat, n: nat, b: nat, i: nat) {
    && i == Bound(size, n, b) && (i < size ==> i == b * n)
    && (i == size ==> b > 0 && (b - 1) * n < size <= b * n)
  }

  lemma FirstStop(size: nat, n: nat)
    requires size > 0
    ensures Stop(size, n, 0, 0)
  {
  }

  lemma NextStop(size: nat, n: nat, b: nat, i: nat, j: nat)
    requires n > 0 && Stop(size, n, b, i) && i < size && j == if i + n < size then i + n else size
    ensures i == Bound(size, n, b) < j == Bound(size, n, b + 1) <= size && Stop(size, n, b + 1, j)
  {
    assert (b + 1) * n == b * n + n;
  }

  lemma LastStop(size: nat, n: nat, b: nat)
    requires n > 0 && Stop(size, n, b, size)
    ensures b == Buckets(size, n)
  {
    SameCount(size, n, b);
  }

  lemma ThinnedMore(outTimes: seq<real>, outSeries: seq<seq<real>>, times: seq<real>, series: seq<seq<real>>, n: nat, b: nat,
                    i: nat, j: nat)
    requires n > 0 && Aligned(times, series) && Thinned(outTimes, outSeries, times, series, n, b)
    requires i == Bound(|times|, n, b) < j == Bound(|times|, n, b + 1) <= |times|
    ensures Thinned(outTimes + [Median(times[i..j])], OneMore(outSeries, series, times, i, j), times, series, n, b + 1)
  {
    hide Bound, Median, Mean;
    BucketIs(times, n, b);
    forall k | 0 <= k < |series| ensures Bucket(series[k], n, b) == series[k][i..j] {
      BucketIs(series[k], n, b);
    }
  }

  lemma SameCount(size: nat, n: nat, b: nat)
    requires n > 0 && b > 0 && (b - 1) * n < size <= b * n
    ensures b == Buckets(size, n)
  {
    BucketsCover(size, n);
    var q := Buckets(size, n);
    if b < q {
      MulMonotone(b, q - 1, n);
    } else if q < b {
      MulMonotone(q, b - 1, n);
    }
  }

  // ----- what thinning keeps -----

  /** The median of an ascending bucket: the one in the middle, or halfway between the two. */
  lemma MedianIs(times: seq<real>)
    requires times != []
    ensures var n, m := |times|, Median(times);
            && (n % 2 == 1 ==> m == times[(n - 1) / 2])
            && (n % 2 == 0 ==> m - times[n / 2 - 1] == times[n / 2] - m)
  {
  }

  /** Every bucket holds `n` samples, except that the last one may hold fewer. */
  lemma BucketSizes<T>(s: seq<T>, n: nat, b: nat)
    requires n > 0 && b < Buckets(|s|, n)
    ensures 0 < |Bucket(s, n, b)| <= n
    ensures b < Buckets(|s|, n) - 1 ==> |Bucket(s, n, b)| == n
    ensures forall i :: 0 <= i < |Bucket(s, n, b)| ==> b * n + i < |s| && Bucket(s, n, b)[i] == s[b * n + i]
  {
    var q := Buckets(|s|, n);
    BucketsCover(|s|, n);
    MulMonotone(b, q - 1, n);
    BoundsOrdered(|s|, n, b);
    assert (b + 1) * n == b * n + n;
    if b < q - 1 {
      MulMonotone(b + 1, q - 1, n);
    }
  }

  lemma MedianBetween(times: seq<real>)
    requires times != [] && Ascending(times)
    ensures times[0] <= Median(times) <= times[|times| - 1]
  {
    var mid := |times| / 2;
    assert mid == 0 || times[0] <= times[mid];
    assert mid == |times| - 1 || times[mid] <= times[|times| - 1];
    if |times| % 2 == 0 {
      assert mid - 1 == 0 || times[0] <= times[mid - 1];
    }
  }

  lemma BoundMonotone(size: nat, n: nat, a: nat, b: nat)
    requires a <= b
    ensures Bound(size, n, a) <= Bound(size, n, b) <= size
  {
    MulMonotone(a, b, n);
  }

  lemma SliceMedians(times: seq<real>, i: nat, j: nat, k: nat, l: nat)
    requires i < j <= k < l <= |times| && Ascending(times)
    ensures Median(times[i..j]) <= Median(times[k..l])
  {
    MedianBetween(times[i..j]);
    MedianBetween(times[k..l]);
    assert times[j - 1] <= times[k];
  }

  /** The thinned timestamps are still in order. */
  lemma TimesStayOrdered(outTimes: seq<real>, outSeries: seq<seq<real>>, times: seq<real>, series: seq<seq<real>>, n: nat,
                         upTo: nat)
    requires n > 0 && Ascending(times) && Thinned(outTimes, outSeries, times, series, n, upTo)
    ensures Ascending(outTimes)
  {
    hide Bound, Median, Mean;
    forall a, b | 0 <= a < b < |outTimes| ensures outTimes[a] <= outTimes[b] {
      BoundMonotone(|times|, n, a, a + 1);
      BoundMonotone(|times|, n, a + 1, b);
      BoundMonotone(|times|, n, b, b + 1);
      assert Bucket(times, n, a) != [] && Bucket(times, n, b) != [];
      SliceMedians(times, Bound(|times|, n, a), Bound(|times|, n, a + 1), Bound(|times|, n, b), Bound(|times|, n, b + 1));
    }
  }

  lemma {:induction false} SumBetween(values: seq<real>, lo: real, hi: real)
    requires forall i :: 0 <= i < |values| ==> lo <= values[i] <= hi
    ensures lo * |values| as real <= Sum(values) <= hi * |values| as real
  {
    if values != [] {
      SumBetween(values[..|values| - 1], lo, hi);
    }
  }

  /** A mean is never outside the range of its bucket. */
  lemma MeanBetween(values: seq<real>, lo: real, hi: real)
    requires values != [] && forall i :: 0 <= i < |values| ==> lo <= values[i] <= hi
    ensures lo <= Mean(values) <= hi
  {
    hide Mean, Sum;
    SumBetween(values, lo, hi);
    var size, mean := |values| as real, Mean(values);
    MeanTimesSize(values);
    assert lo * size <= mean * size <= hi * size;
    DivideOut(lo, mean, size);
    DivideOut(mean, hi, size);
  }

  lemma DivideOut(a: real, b: real, size: real)
    requires size > 0.0 && a * size <= b * size
    ensures a <= b
  {
    assert (b - a) * size >= 0.0;
  }

  lemma {:induction false} SumConcat(a: seq<real>, b: seq<real>)
    ensures Sum(a + b) == Sum(a) + Sum(b)
  {
    if b == [] {
      assert a + b == a;
    } else {
      SumConcat(a, b[..|b| - 1]);
      assert (a + b)[..|a + b| - 1] == a + b[..|b| - 1];
    }
  }

  /** Values weighted by the sizes of the parts they stand for. */
  function Weighted(out: seq<real>, parts: seq<seq<real>>): real
    requires |out| == |parts|
  {
    if out == [] then 0.0
    else
      var last := |out| - 1;
      Weighted(out[..last], parts[..last]) + out[last] * |parts[last]| as real
  }

  function Flat(parts: seq<seq<real>>): seq<real> {
    if parts == [] then [] else Flat(parts[..|parts| - 1]) + parts[|parts| - 1]
  }

  lemma {:induction false} WeightedMeans(out: seq<real>, parts: seq<seq<real>>)
    requires |out| == |parts| && forall b :: 0 <= b < |out| ==> parts[b] != [] && out[b] == Mean(parts[b])
    ensures Weighted(out, parts) == Sum(Flat(parts))
  {
    if out != [] {
      var last := |out| - 1;
      WeightedMeans(out[..last], parts[..last]);
      SumConcat(Flat(parts[..last]), parts[last]);
      MeanTimesSize(parts[last]);
    }
  }

  lemma MeanTimesSize(values: seq<real>)
    requires values != []
    ensures Mean(values) * |values| as real == Sum(values)
  {
  }

  function AllBuckets(values: seq<real>, n: nat, upTo: nat): (parts: seq<seq<real>>)
    ensures |parts| == upTo
  {
    if upTo == 0 then [] else AllBuckets(values, n, upTo - 1) + [Bucket(values, n, upTo - 1)]
  }

  lemma {:induction false} AllBucketsAt(values: seq<real>, n: nat, upTo: nat, b: nat)
    requires b < upTo
    ensures AllBuckets(values, n, upTo)[b] == Bucket(values, n, b)
  {
    hide Bucket;
    if b < upTo - 1 {
      AllBucketsAt(values, n, upTo - 1, b);
    }
  }

  lemma {:induction false} BucketsTile(values: seq<real>, n: nat, upTo: nat)
    ensures Bound(|values|, n, upTo) <= |values|
    ensures Flat(AllBuckets(values, n, upTo)) == values[..Bound(|values|, n, upTo)]
  {
    if upTo == 0 {
      assert Bound(|values|, n, 0) == 0;
    } else {
      hide Bound, Bucket, Flat;
      var b := upTo - 1;
      BucketsTile(values, n, b);
      BoundMonotone(|values|, n, b, upTo);
      BucketIs(values, n, b);
      FlatSnoc(AllBuckets(values, n, b), Bucket(values, n, b));
      Glue(values, Bound(|values|, n, b), Bound(|values|, n, upTo));
    }
  }

  lemma BucketIs(values: seq<real>, n: nat, b: nat)
    requires Bound(|values|, n, b) <= Bound(|values|, n, b + 1) <= |values|
    ensures Bucket(values, n, b) == values[Bound(|values|, n, b)..Bound(|values|, n, b + 1)]
  {
    hide Bound;
  }

  lemma Glue(values: seq<real>, x: nat, y: nat)
    requires x <= y <= |values|
    ensures values[..x] + values[x..y] == values[..y]
  {
  }

  lemma FlatSnoc(parts: seq<seq<real>>, part: seq<real>)
    ensures Flat(parts + [part]) == Flat(parts) + part
  {
    assert (parts + [part])[..|parts|] == parts;
  }

  /** Weighted by bucket size, the means add up to the original sum. */
  lemma SumIsConserved(out: seq<real>, values: seq<real>, n: nat)
    requires n > 0 && |out| == Buckets(|values|, n)
    requires forall b :: 0 <= b < |out| ==> Bucket(values, n, b) != [] && out[b] == Mean(Bucket(values, n, b))
    ensures Weighted(out, AllBuckets(values, n, |out|)) == Sum(values)
  {
    hide Bucket, Weighted, Flat, Mean, AllBuckets;
    forall b | 0 <= b < |out| ensures AllBuckets(values, n, |out|)[b] == Bucket(values, n, b) {
      AllBucketsAt(values, n, |out|, b);
    }
    WeightedMeans(out, AllBuckets(values, n, |out|));
    BucketsTile(values, n, |out|);
    BucketsCover(|values|, n);
    assert values[..|values|] == values;
  }
}
