/** Selecting the slowest traces by an interpolated percentile. */
module Percentile {
  import opened Numbers
  import opened Ranking

  datatype Timed = Timed(time: real, trace: string)

  predicate Above(a: real, b: real) {
    a > b
  }

  /** `sorted(values)`: the stable sort with the order turned round. */
  function Sorted(values: seq<real>): (s: seq<real>)
    ensures |s| == |values|
  {
    Sort(values, Above)
  }

  function Ceil(x: real): int {
    -((-x).Floor)
  }

  function Rank(n: nat, p: real): real {
    (n - 1) as real * p
  }

  /** `calculate_percentile`: interpolate linearly between the two neighbouring order statistics. */
  function CalculatePercentile(values: seq<real>, p: real): real
    requires 0.0 <= p <= 1.0
  {
    if values == [] then 0.0
    else
      RankInBounds(|values|, p);
      At(Sorted(values), Rank(|values|, p))
  }

  function At(s: seq<real>, rank: real): real
    requires 0.0 <= rank && Ceil(rank) < |s|
  {
    var lower, upper := rank.Floor, Ceil(rank);
    if lower == upper then s[lower]
    else
      var weight := rank - lower as real;
      s[lower] * (1.0 - weight) + s[upper] * weight
  }

  lemma RankInBounds(n: nat, p: real)
    requires n > 0 && 0.0 <= p <= 1.0
    ensures 0.0 <= Rank(n, p) <= (n - 1) as real
    ensures 0 <= Rank(n, p).Floor <= Ceil(Rank(n, p)) <= n - 1
  {
    hide Rank, Ceil;
    RankAtMost(n, p);
    CeilAtMost(Rank(n, p), n - 1);
  }

  lemma RankAtMost(n: nat, p: real)
    requires n > 0 && 0.0 <= p <= 1.0
    ensures 0.0 <= Rank(n, p) <= (n - 1) as real
  {
    Scale((n - 1) as real, p);
  }

  lemma MulNonNegative(a: real, b: real)
    requires a >= 0.0 && b >= 0.0
    ensures a * b >= 0.0
  {
  }

  lemma Scale(m: real, p: real)
    requires m >= 0.0 && 0.0 <= p <= 1.0
    ensures 0.0 <= m * p <= m
  {
    MulNonNegative(m, p);
    MulNonNegative(m, 1.0 - p);
    assert m * (1.0 - p) == m - m * p;
  }

  lemma CeilAtMost(x: real, k: int)
    requires x <= k as real
    ensures x.Floor <= Ceil(x) <= k && (x >= 0.0 ==> x.Floor >= 0)
    ensures x <= Ceil(x) as real < x + 1.0
  {
  }

  lemma SortedAscends(values: seq<real>)
    ensures Ascending(Sorted(values)) && multiset(Sorted(values)) == multiset(values)
  {
    SortDescends(values, Above);
    SortPermutes(values, Above);
    var s := Sorted(values);
    forall i, j | 0 <= i < j < |s| ensures s[i] <= s[j] {
      assert !Above(s[i], s[j]);
    }
  }

  /** The interpolated value lies between its neighbours. */
  lemma Between(s: seq<real>, rank: real)
    requires Ascending(s) && 0.0 <= rank && Ceil(rank) < |s|
    ensures s[rank.Floor] <= At(s, rank) <= s[Ceil(rank)]
  {
    var lower, upper := rank.Floor, Ceil(rank);
    if lower != upper {
      Mix(s[lower], s[upper], rank - lower as real);
    }
  }

  lemma Mix(a: real, b: real, w: real)
    requires a <= b && 0.0 <= w <= 1.0
    ensures a <= a * (1.0 - w) + b * w <= b
  {
    MulNonNegative(b - a, w);
    MulNonNegative(b - a, 1.0 - w);
    assert (b - a) * w == (a * (1.0 - w) + b * w) - a;
    assert (b - a) * (1.0 - w) == b - (a * (1.0 - w) + b * w);
  }

  lemma MixIs(a: real, b: real, w: real)
    ensures a * (1.0 - w) + b * w == a + (b - a) * w
  {
    assert (b - a) * w == b * w - a * w;
    assert a * (1.0 - w) == a - a * w;
  }

  lemma MixMonotone(a: real, b: real, v: real, w: real)
    requires a <= b && v <= w
    ensures a * (1.0 - v) + b * v <= a * (1.0 - w) + b * w
  {
    MixIs(a, b, v);
    MixIs(a, b, w);
    var d := b - a;
    MulNonNegative(d, w - v);
    assert d * (w - v) == d * w - d * v;
  }

  /** Raising the rank never lowers the value. */
  lemma AtMonotone(s: seq<real>, r: real, t: real)
    requires Ascending(s) && 0.0 <= r <= t && Ceil(r) < |s| && Ceil(t) < |s|
    ensures At(s, r) <= At(s, t)
  {
    Between(s, r);
    Between(s, t);
    if Ceil(r) <= t.Floor {
      assert s[Ceil(r)] <= s[t.Floor];
    } else {
      // both ranks lie strictly between the same two neighbours
      assert r.Floor == t.Floor && Ceil(r) == Ceil(t) == t.Floor + 1;
      MixMonotone(s[t.Floor], s[t.Floor + 1], r - r.Floor as real, t - t.Floor as real);
    }
  }

  // ----- how many reach the threshold -----

  function CountAtLeast(values: seq<real>, t: real): nat {
    if values == [] then 0
    else CountAtLeast(values[..|values| - 1], t) + if values[|values| - 1] >= t then 1 else 0
  }

  lemma {:induction false} CountCons(x: real, s: seq<real>, t: real)
    ensures CountAtLeast([x] + s, t) == CountAtLeast(s, t) + if x >= t then 1 else 0
  {
    var all := [x] + s;
    if s == [] {
      assert all[..0] == [];
    } else {
      CountCons(x, s[..|s| - 1], t);
      assert all[..|all| - 1] == [x] + s[..|s| - 1];
    }
  }

  lemma {:induction false} CountInsert(x: real, s: seq<real>, t: real)
    ensures CountAtLeast(Insert(x, s, Above), t) == CountAtLeast(s, t) + if x >= t then 1 else 0
  {
    if s == [] {
      CountCons(x, [], t);
      assert [x] + [] == [x];
    } else if Above(s[0], x) {
      CountCons(x, s, t);
    } else {
      CountInsert(x, s[1..], t);
      CountCons(s[0], Insert(x, s[1..], Above), t);
      CountCons(s[0], s[1..], t);
      assert [s[0]] + s[1..] == s;
    }
  }

  lemma {:induction false} CountSorted(values: seq<real>, t: real)
    ensures CountAtLeast(Sorted(values), t) == CountAtLeast(values, t)
  {
    if values != [] {
      var init := values[..|values| - 1];
      CountSorted(init, t);
      CountInsert(values[|values| - 1], Sorted(init), t);
    }
  }

  lemma {:induction false} CountSuffix(s: seq<real>, k: nat, t: real)
    requires k <= |s| && forall i :: k <= i < |s| ==> s[i] >= t
    ensures CountAtLeast(s, t) >= |s| - k
  {
    if k < |s| {
      CountSuffix(s[..|s| - 1], k, t);
    }
  }

  /** Between two neighbours the value goes up evenly with the rank. */
  lemma AtIs(s: seq<real>, rank: real)
    requires 0.0 <= rank && Ceil(rank) < |s|
    ensures var lower, upper := rank.Floor, Ceil(rank);
            At(s, rank) == s[lower] + (rank - lower as real) * (s[upper] - s[lower])
  {
    var lower, upper := rank.Floor, Ceil(rank);
    if lower == upper {
      assert (rank - lower as real) * (s[upper] - s[lower]) == 0.0;
    } else {
      MixIs(s[lower], s[upper], rank - lower as real);
    }
  }

  /** Of `n` sorted values, the percentile `p` stands at place (n - 1) p, and between two places it is
      interpolated evenly. */
  ghost predicate Interpolates(t: real, s: seq<real>, p: real) {
    exists k: nat :: InterpolatesAt(t, s, p, k)
  }

  ghost predicate InterpolatesAt(t: real, s: seq<real>, p: real, k: nat) {
    && k < |s|
    && var beyond := (|s| - 1) as real * p - k as real;
       && 0.0 <= beyond < 1.0
       && if beyond == 0.0 then t == s[k] else k + 1 < |s| && t == s[k] + beyond * (s[k + 1] - s[k])
  }

  lemma PercentileInterpolates(values: seq<real>, p: real)
    requires values != [] && 0.0 <= p <= 1.0
    ensures Interpolates(CalculatePercentile(values, p), Sorted(values), p)
  {
    RankInBounds(|values|, p);
    var s, rank := Sorted(values), Rank(|values|, p);
    AtIs(s, rank);
    var k := rank.Floor;
    CeilAtMost(rank, |values| - 1);
    assert Ceil(rank) == (if rank == k as real then k else k + 1);
    assert InterpolatesAt(At(s, rank), s, p, k);
  }

  /** The threshold lies between adjacent order statistics, and from the upper one on every record
      reaches it: at least one does, whatever the percentile. */
  lemma EnoughReachThreshold(values: seq<real>, p: real)
    requires values != [] && 0.0 <= p <= 1.0
    ensures var t, rank, s := CalculatePercentile(values, p), Rank(|values|, p), Sorted(values);
            && 0 <= rank.Floor <= Ceil(rank) < |s| && s[rank.Floor] <= t <= s[Ceil(rank)]
            && CountAtLeast(values, t) >= |values| - Ceil(rank) >= 1
  {
    RankInBounds(|values|, p);
    SortedAscends(values);
    var s, rank := Sorted(values), Rank(|values|, p);
    Between(s, rank);
    CountSuffix(s, Ceil(rank), At(s, rank));
    CountSorted(values, At(s, rank));
  }

  lemma RankMonotone(n: nat, p: real, q: real)
    requires n > 0 && p <= q
    ensures Rank(n, p) <= Rank(n, q)
  {
    var m := (n - 1) as real;
    MulNonNegative(m, q - p);
    assert m * (q - p) == m * q - m * p;
  }

  lemma PercentileMonotone(values: seq<real>, p: real, q: real)
    requires values != [] && 0.0 <= p <= q <= 1.0
    ensures CalculatePercentile(values, p) <= CalculatePercentile(values, q)
  {
    RankInBounds(|values|, p);
    RankInBounds(|values|, q);
    SortedAscends(values);
    RankMonotone(|values|, p, q);
    AtMonotone(Sorted(values), Rank(|values|, p), Rank(|values|, q));
  }

  // ----- the selection -----

  /** Some record of the trace reaches the threshold. */
  ghost predicate Selected(pairs: seq<Timed>, t: real, trace: string) {
    exists i :: 0 <= i < |pairs| && pairs[i].time >= t && pairs[i].trace == trace
  }

  /** Record `i` is the first of its trace that reaches the threshold. */
  predicate FirstOfTrace(pairs: seq<Timed>, i: int, t: real) {
    && 0 <= i < |pairs| && pairs[i].time >= t
    && forall j :: 0 <= j < i && pairs[j].time >= t ==> pairs[j].trace != pairs[i].trace
  }

  /** The traces at `firsts`, in order: one for every first record among the first `n`. */
  ghost predicate Lists(traces: seq<string>, firsts: seq<int>, pairs: seq<Timed>, n: nat, t: real) {
    && |traces| == |firsts|
    && (forall a, b :: 0 <= a < b < |firsts| ==> firsts[a] < firsts[b])
    && (forall a :: 0 <= a < |firsts| ==>
          firsts[a] < n && FirstOfTrace(pairs, firsts[a], t) && pairs[firsts[a]].trace == traces[a])
    && (forall i :: 0 <= i < n && FirstOfTrace(pairs, i, t) ==> i in firsts)
  }

  function TimesOf(pairs: seq<Timed>): seq<real> {
    seq(|pairs|, i requires 0 <= i < |pairs| => pairs[i].time)
  }

  lemma {:induction false} CountedIsThere(s: seq<real>, t: real) returns (i: int)
    requires CountAtLeast(s, t) > 0
    ensures 0 <= i < |s| && s[i] >= t
  {
    var last := |s| - 1;
    if s[last] >= t {
      return last;
    }
    i := CountedIsThere(s[..last], t);
  }

  /** A threshold taken of the times themselves always selects some trace. */
  lemma SomeSelected(pairs: seq<Timed>, p: real)
    requires pairs != [] && 0.0 <= p <= 1.0
    ensures exists trace :: Selected(pairs, CalculatePercentile(TimesOf(pairs), p), trace)
  {
    var times := TimesOf(pairs);
    var t := CalculatePercentile(times, p);
    EnoughReachThreshold(times, p);
    var i := CountedIsThere(times, t);
    assert pairs[i].time >= t;
    assert Selected(pairs, t, pairs[i].trace);
  }

  /** `filter_traces_by_percentile`: the distinct traces with a record at or above the threshold, in
      the order in which they are first seen. `firsts` are the records they come from. */
  method FilterTraces(times: seq<real>, pairs: seq<Timed>, p: real)
    returns (threshold: real, traces: seq<string>, ghost firsts: seq<int>)
    requires 0.0 <= p <= 1.0
    ensures threshold == CalculatePercentile(times, p)
    ensures times != [] ==> Interpolates(threshold, Sorted(times), p)
    ensures times == [] ==> threshold == 0.0 && traces == []
    ensures times != [] ==> Lists(traces, firsts, pairs, |pairs|, threshold)
    ensures times != [] ==> forall trace :: trace in traces <==> Selected(pairs, threshold, trace)
    ensures times != [] && times == TimesOf(pairs) ==> traces != []
  {
    firsts := [];
    if times == [] {
      return 0.0, [], [];
    }
    threshold := CalculatePercentile(times, p);
    PercentileInterpolates(times, p);
    var seen: set<string> := {};
    traces := [];
    for i := 0 to |pairs|
      invariant forall trace :: trace in seen <==> Selected(pairs[..i], threshold, trace)
      invariant forall trace :: trace in seen <==> trace in traces
      invariant Lists(traces, firsts, pairs, i, threshold)
    {
      SelectedMore(pairs, i, threshold);
      if pairs[i].time >= threshold && pairs[i].trace !in seen {
        seen := seen + {pairs[i].trace};
        traces := traces + [pairs[i].trace];
        firsts := firsts + [i];
      }
    }
    assert pairs[..|pairs|] == pairs;
    if times == TimesOf(pairs) {
      SomeSelected(pairs, p);
    }
  }

  lemma SelectedMore(pairs: seq<Timed>, i: nat, t: real)
    requires i < |pairs|
    ensures forall trace :: Selected(pairs[..i + 1], t, trace) <==>
              Selected(pairs[..i], t, trace) || (pairs[i].time >= t && pairs[i].trace == trace)
    ensures FirstOfTrace(pairs, i, t) <==> pairs[i].time >= t && !Selected(pairs[..i], t, pairs[i].trace)
  {
    forall trace ensures Selected(pairs[..i + 1], t, trace) <==>
                           Selected(pairs[..i], t, trace) || (pairs[i].time >= t && pairs[i].trace == trace)
    {
      if Selected(pairs[..i], t, trace) {
        var j :| 0 <= j < i && pairs[..i][j].time >= t && pairs[..i][j].trace == trace;
        assert pairs[..i + 1][j] == pairs[..i][j];
      }
      if pairs[i].time >= t && pairs[i].trace == trace {
        assert pairs[..i + 1][i] == pairs[i];
      }
    }
    assert forall j :: 0 <= j < i ==> pairs[..i][j] == pairs[j];
  }

  /** Raising the percentile only ever drops traces: selections are nested. */
  lemma SelectionsNested(times: seq<real>, pairs: seq<Timed>, p: real, q: real, trace: string)
    requires times != [] && 0.0 <= p <= q <= 1.0
    requires Selected(pairs, CalculatePercentile(times, q), trace)
    ensures Selected(pairs, CalculatePercentile(times, p), trace)
  {
    PercentileMonotone(times, p, q);
  }
}
