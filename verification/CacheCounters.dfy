/** Turning cumulative cache counters into per-bin deltas. The resource report does this twice, in
    two different ways: for the cluster by walking the bins of all hosts, for one host by walking
    its own bins only. */
module CacheCounters {
  import opened Text
  import opened Ranking
  import TimeBinning

  datatype Counters = Counters(mem: real, disk: real, l2: real, remote: real, miss: real)

  datatype Sample = Sample(at: int, counters: Counters)

  datatype HostLog = HostLog(host: string, samples: seq<Sample>)

  function Bin(s: Sample, interval: int): int
    requires interval > 0
  {
    TimeBinning.BinAt(s.at, interval)
  }

  function Rise(x: real): real {
    if x > 0.0 then x else 0.0
  }

  function Delta(cur: Counters, prev: Counters): Counters {
    Counters(Rise(cur.mem - prev.mem), Rise(cur.disk - prev.disk), Rise(cur.l2 - prev.l2),
             Rise(cur.remote - prev.remote), Rise(cur.miss - prev.miss))
  }

  // ----- the reference: which delta belongs to which bin -----

  /** The counters a host ends each of its bins with. */
  function LastPerBin(samples: seq<Sample>, interval: int): map<int, Counters>
    requires interval > 0
  {
    if samples == [] then map[]
    else
      var s := samples[|samples| - 1];
      LastPerBin(samples[..|samples| - 1], interval)[Bin(s, interval) := s.counters]
  }

  /** `p` is the bin with data right before `b`. */
  ghost predicate Precedes(p: int, b: int, last: map<int, Counters>) {
    p in last && p < b && forall q :: q in last ==> !(p < q < b)
  }

  ghost predicate HasPrevious(b: int, last: map<int, Counters>) {
    exists p :: Precedes(p, b, last)
  }

  /** What a counter that went from `prev` to `cur` gained: nothing if it was reset. */
  ghost predicate Grew(gain: real, cur: real, prev: real) {
    && (cur >= prev ==> prev + gain == cur)
    && (cur <= prev ==> gain == 0.0)
  }

  ghost predicate Gained(gain: Counters, cur: Counters, prev: Counters) {
    && Grew(gain.mem, cur.mem, prev.mem) && Grew(gain.disk, cur.disk, prev.disk) && Grew(gain.l2, cur.l2, prev.l2)
    && Grew(gain.remote, cur.remote, prev.remote) && Grew(gain.miss, cur.miss, prev.miss)
  }

  lemma DeltaIsGain(gain: Counters, cur: Counters, prev: Counters)
    ensures Gained(gain, cur, prev) <==> gain == Delta(cur, prev)
  {
  }

  /** Every bin with data has a delta, except the first; it is what was gained since the bin right
      before. */
  ghost predicate IsDeltas(d: map<int, Counters>, last: map<int, Counters>) {
    && (forall b :: b in d <==> b in last && HasPrevious(b, last))
    && (forall b, p :: b in d && Precedes(p, b, last) ==> Gained(d[b], last[b], last[p]))
  }

  lemma DeltasUnique(d: map<int, Counters>, e: map<int, Counters>, last: map<int, Counters>)
    requires IsDeltas(d, last) && IsDeltas(e, last)
    ensures d == e
  {
    forall b | b in d ensures d[b] == e[b] {
      var p :| Precedes(p, b, last);
      DeltaIsGain(d[b], last[b], last[p]);
      DeltaIsGain(e[b], last[b], last[p]);
    }
    assert forall b :: b in d <==> b in e;
  }

  // ----- walking a list of bins -----

  predicate StrictlyAscending(bins: seq<int>) {
    forall i, j :: 0 <= i < j < |bins| ==> bins[i] < bins[j]
  }

  /** The walk over the first `n` bins has come to `prev` and `d`. */
  ghost predicate Walked(bins: seq<int>, n: nat, last: map<int, Counters>, prev: Option<int>, d: map<int, Counters>)
    requires n <= |bins|
  {
    && (forall i :: 0 <= i < n && bins[i] in last ==> prev.Some? && bins[i] <= prev.value)
    && (prev.Some? ==> prev.value in last && prev.value in bins[..n])
    && (forall b :: b in d <==> b in bins[..n] && b in last && HasPrevious(b, last))
    && (forall b, p :: b in d && Precedes(p, b, last) ==> Gained(d[b], last[b], last[p]))
  }

  lemma WalkGap(bins: seq<int>, n: nat, last: map<int, Counters>, prev: Option<int>, d: map<int, Counters>)
    requires n < |bins| && Walked(bins, n, last, prev, d) && bins[n] !in last
    ensures Walked(bins, n + 1, last, prev, d)
  {
    assert bins[..n + 1] == bins[..n] + [bins[n]];
  }

  /** Of the bins with data, those before the next one have all been walked. */
  lemma EarlierBins(bins: seq<int>, n: nat, last: map<int, Counters>, prev: Option<int>, d: map<int, Counters>, q: int)
    requires n < |bins| && StrictlyAscending(bins) && (forall b :: b in last ==> b in bins)
    requires Walked(bins, n, last, prev, d) && q in last && q < bins[n]
    ensures prev.Some? && q <= prev.value
  {
    var i :| 0 <= i < |bins| && bins[i] == q;
    assert i < n;
  }

  lemma WalkFirst(bins: seq<int>, n: nat, last: map<int, Counters>, d: map<int, Counters>)
    requires n < |bins| && StrictlyAscending(bins) && (forall b :: b in last ==> b in bins)
    requires Walked(bins, n, last, None, d) && bins[n] in last
    ensures Walked(bins, n + 1, last, Some(bins[n]), d)
  {
    var b := bins[n];
    assert bins[..n + 1] == bins[..n] + [b];
    if HasPrevious(b, last) {
      var p :| Precedes(p, b, last);
      EarlierBins(bins, n, last, None, d, p);
    }
  }

  lemma PreviousIs(bins: seq<int>, n: nat, last: map<int, Counters>, prev: int, d: map<int, Counters>)
    requires n < |bins| && StrictlyAscending(bins) && (forall b :: b in last ==> b in bins)
    requires Walked(bins, n, last, Some(prev), d) && bins[n] in last
    ensures forall p :: Precedes(p, bins[n], last) <==> p == prev
  {
    var b := bins[n];
    var i :| 0 <= i < n && bins[..n][i] == prev;
    forall q | q in last && q < b ensures q <= prev {
      EarlierBins(bins, n, last, Some(prev), d, q);
    }
    assert Precedes(prev, b, last);
  }

  lemma WalkNext(bins: seq<int>, n: nat, last: map<int, Counters>, prev: int, d: map<int, Counters>)
    requires n < |bins| && StrictlyAscending(bins) && (forall b :: b in last ==> b in bins)
    requires Walked(bins, n, last, Some(prev), d) && bins[n] in last
    ensures Walked(bins, n + 1, last, Some(bins[n]), d[bins[n] := Delta(last[bins[n]], last[prev])])
  {
    var b := bins[n];
    assert bins[..n + 1] == bins[..n] + [b];
    PreviousIs(bins, n, last, prev, d);
    assert Precedes(prev, b, last);
    assert b !in bins[..n];
    DeltaIsGain(Delta(last[b], last[prev]), last[b], last[prev]);
  }

  lemma WalkDone(bins: seq<int>, last: map<int, Counters>, prev: Option<int>, d: map<int, Counters>)
    requires (forall b :: b in last ==> b in bins) && Walked(bins, |bins|, last, prev, d)
    ensures IsDeltas(d, last)
  {
    assert bins[..|bins|] == bins;
  }

  /** Walk a list of bins that has gaps where the host has no data. */
  method WalkBins(bins: seq<int>, last: map<int, Counters>) returns (d: map<int, Counters>)
    requires StrictlyAscending(bins) && forall b :: b in last ==> b in bins
    ensures IsDeltas(d, last)
  {
    d := map[];
    var prev: Option<Counters> := None;
    ghost var at: Option<int> := None;
    for n := 0 to |bins|
      invariant Walked(bins, n, last, at, d)
      invariant prev == if at.Some? then Some(last[at.value]) else None
    {
      var b := bins[n];
      if b in last {
        var cur := last[b];
        if prev.Some? {
          WalkNext(bins, n, last, at.value, d);
          d := d[b := Delta(cur, prev.value)];
        } else {
          WalkFirst(bins, n, last, d);
        }
        prev := Some(cur);
        at := Some(b);
      } else {
        WalkGap(bins, n, last, at, d);
      }
    }
    WalkDone(bins, last, at, d);
  }

  // ----- the last sample of every bin, in two ways -----

  ghost predicate TimeSorted(samples: seq<Sample>) {
    forall i, j :: 0 <= i < j < |samples| ==> samples[i].at <= samples[j].at
  }

  /** One host: a later sample of the same bin overwrites an earlier one. */
  method LastByOverwriting(samples: seq<Sample>, interval: int) returns (last: map<int, Counters>)
    requires interval > 0
    ensures last == LastPerBin(samples, interval)
  {
    last := map[];
    for i := 0 to |samples|
      invariant last == LastPerBin(samples[..i], interval)
    {
      assert samples[..i + 1][..i] == samples[..i];
      last := last[Bin(samples[i], interval) := samples[i].counters];
    }
    assert samples[..|samples|] == samples;
  }

  /** The samples of one bin, in order. */
  function InBin(samples: seq<Sample>, b: int, interval: int): seq<Sample>
    requires interval > 0
  {
    if samples == [] then []
    else
      var s := samples[|samples| - 1];
      InBin(samples[..|samples| - 1], b, interval) + if Bin(s, interval) == b then [s] else []
  }

  predicate Later(a: Sample, b: Sample) {
    a.at > b.at
  }

  lemma {:induction false} InBinOf(samples: seq<Sample>, b: int, interval: int)
    requires interval > 0
    ensures forall s :: s in InBin(samples, b, interval) ==> s in samples
    ensures TimeSorted(samples) ==> TimeSorted(InBin(samples, b, interval))
    ensures b in LastPerBin(samples, interval) <==> InBin(samples, b, interval) != []
    ensures InBin(samples, b, interval) != [] ==>
              LastPerBin(samples, interval)[b] == InBin(samples, b, interval)[|InBin(samples, b, interval)| - 1].counters
  {
    if samples != [] {
      var init := samples[..|samples| - 1];
      InBinOf(init, b, interval);
      if TimeSorted(samples) {
        var inInit := InBin(init, b, interval);
        forall i | 0 <= i < |inInit| ensures inInit[i].at <= samples[|samples| - 1].at {
          assert inInit[i] in init;
        }
      }
    }
  }

  /** The samples of every bin that has any. */
  ghost predicate IsGrouping(byBin: map<int, seq<Sample>>, samples: seq<Sample>, interval: int)
    requires interval > 0
  {
    && (forall b :: b in byBin <==> InBin(samples, b, interval) != [])
    && (forall b :: b in byBin ==> byBin[b] == InBin(samples, b, interval))
  }

  method GroupByBin(samples: seq<Sample>, interval: int) returns (byBin: map<int, seq<Sample>>)
    requires interval > 0
    ensures IsGrouping(byBin, samples, interval)
  {
    byBin := map[];
    for i := 0 to |samples|
      invariant IsGrouping(byBin, samples[..i], interval)
    {
      assert samples[..i + 1][..i] == samples[..i];
      var b := Bin(samples[i], interval);
      byBin := byBin[b := (if b in byBin then byBin[b] else []) + [samples[i]]];
    }
    assert samples[..|samples|] == samples;
  }

  /** The counters of the latest sample, and of samples taken at the same time the last one. */
  ghost predicate IsLatest(c: Counters, samples: seq<Sample>) {
    exists k :: LatestAt(samples, k) && samples[k].counters == c
  }

  ghost predicate LatestAt(samples: seq<Sample>, k: int) {
    && 0 <= k < |samples|
    && (forall j :: 0 <= j < |samples| ==> samples[j].at <= samples[k].at)
    && (forall j :: k < j < |samples| ==> samples[j].at < samples[k].at)
  }

  lemma SortedEndsLatest(samples: seq<Sample>)
    requires samples != []
    ensures IsLatest(Sort(samples, Later)[|samples| - 1].counters, samples)
  {
    var k := SortLast(samples, Later);
    assert forall j :: 0 <= j < |samples| ==> !Later(samples[j], samples[k]);
    assert forall j :: k < j < |samples| ==> Later(samples[k], samples[j]);
    assert LatestAt(samples, k);
  }

  /** Sort each group by time and take the last of it: the latest of the group. */
  method LastOfEach(byBin: map<int, seq<Sample>>) returns (last: map<int, Counters>)
    requires forall b :: b in byBin ==> byBin[b] != []
    ensures last.Keys == byBin.Keys
    ensures forall b :: b in last ==> IsLatest(last[b], byBin[b])
  {
    last := map[];
    var rest := byBin.Keys;
    while rest != {}
      invariant rest <= byBin.Keys && last.Keys == byBin.Keys - rest
      invariant forall b :: b in last ==> IsLatest(last[b], byBin[b])
      decreases |rest|
    {
      var b := AnyOf(rest);
      var sorted := Sort(byBin[b], Later);
      SortedEndsLatest(byBin[b]);
      last := last[b := sorted[|sorted| - 1].counters];
      rest := rest - {b};
    }
  }

  lemma LatestIsEnd(samples: seq<Sample>, k: int)
    requires TimeSorted(samples) && LatestAt(samples, k)
    ensures k == |samples| - 1
  {
    var end := |samples| - 1;
    assert samples[k].at <= samples[end].at;
  }

  /** In samples that come in time order, the latest is the last. */
  lemma LatestOfSorted(samples: seq<Sample>, c: Counters)
    requires TimeSorted(samples) && IsLatest(c, samples)
    ensures samples != [] && c == samples[|samples| - 1].counters
  {
    var k :| LatestAt(samples, k) && samples[k].counters == c;
    LatestIsEnd(samples, k);
  }

  lemma LatestOfBin(samples: seq<Sample>, b: int, interval: int, c: Counters)
    requires interval > 0 && TimeSorted(samples) && IsLatest(c, InBin(samples, b, interval))
    ensures b in LastPerBin(samples, interval) && LastPerBin(samples, interval)[b] == c
  {
    hide InBin, LastPerBin, IsLatest, TimeSorted;
    InBinOf(samples, b, interval);
    LatestOfSorted(InBin(samples, b, interval), c);
  }

  lemma OccupiedBins(samples: seq<Sample>, b: int, interval: int)
    requires interval > 0
    ensures b in LastPerBin(samples, interval) <==> InBin(samples, b, interval) != []
  {
    InBinOf(samples, b, interval);
  }

  /** The cluster: collect the samples of each bin, sort them by time, take the last. The same,
      because the samples come in time order. */
  method LastBySorting(samples: seq<Sample>, interval: int) returns (last: map<int, Counters>)
    requires interval > 0 && TimeSorted(samples)
    ensures last == LastPerBin(samples, interval)
  {
    hide InBin, LastPerBin, IsLatest, TimeSorted;
    var byBin := GroupByBin(samples, interval);
    last := LastOfEach(byBin);
    ghost var reference := LastPerBin(samples, interval);
    forall b ensures (b in last <==> b in reference) && (b in last ==> last[b] == reference[b]) {
      OccupiedBins(samples, b, interval);
      if b in last {
        LatestOfBin(samples, b, interval, last[b]);
      }
    }
  }

  // ----- sorted bins -----

  predicate Greater(a: int, b: int) {
    a > b
  }

  method SortedBins(bins: set<int>) returns (s: seq<int>)
    ensures StrictlyAscending(s) && forall b :: b in s <==> b in bins
  {
    s := SortedSet(bins, Greater);
    forall i, j | 0 <= i < j < |s| ensures s[i] < s[j] {
      assert !Greater(s[i], s[j]);
    }
  }

  // ----- the two algorithms -----

  /** One host, walking its own bins: no gaps. */
  method PerHostDeltas(samples: seq<Sample>, interval: int) returns (d: map<int, Counters>)
    requires interval > 0
    ensures IsDeltas(d, LastPerBin(samples, interval))
  {
    var last := LastByOverwriting(samples, interval);
    var bins := SortedBins(last.Keys);
    d := map[];
    var prev: Option<Counters> := None;
    ghost var at: Option<int> := None;
    for n := 0 to |bins|
      invariant Walked(bins, n, last, at, d)
      invariant prev == if at.Some? then Some(last[at.value]) else None
    {
      var b := bins[n];
      assert b in bins;
      var cur := last[b];
      if prev.Some? {
        WalkNext(bins, n, last, at.value, d);
        d := d[b := Delta(cur, prev.value)];
      } else {
        WalkFirst(bins, n, last, d);
      }
      prev := Some(cur);
      at := Some(b);
    }
    WalkDone(bins, last, at, d);
  }

  predicate DistinctHosts(data: seq<HostLog>) {
    forall i, j :: 0 <= i < j < |data| ==> data[i].host != data[j].host
  }

  ghost predicate HasHost(data: seq<HostLog>, n: nat, host: string)
    requires n <= |data|
  {
    exists i :: 0 <= i < n && data[i].host == host
  }

  type ClusterDeltas = map<int, map<string, Counters>>

  /** The deltas of one host in the cluster's table. */
  function Row(deltas: ClusterDeltas, host: string): map<int, Counters> {
    map b | b in deltas && host in deltas[b] :: deltas[b][host]
  }

  function AddRow(deltas: ClusterDeltas, host: string, d: map<int, Counters>): ClusterDeltas {
    map b | b in deltas.Keys + d.Keys ::
      var row := if b in deltas then deltas[b] else map[];
      if b in d then row[host := d[b]] else row
  }

  lemma AddRowIs(deltas: ClusterDeltas, host: string, d: map<int, Counters>)
    requires Row(deltas, host) == map[]
    ensures Row(AddRow(deltas, host, d), host) == d
    ensures forall other :: other != host ==> Row(AddRow(deltas, host, d), other) == Row(deltas, other)
  {
    hide Row, AddRow;
    AddedRow(deltas, host, d);
    forall other | other != host ensures Row(AddRow(deltas, host, d), other) == Row(deltas, other) {
      OtherRow(deltas, host, d, other);
    }
  }

  lemma AddedRow(deltas: ClusterDeltas, host: string, d: map<int, Counters>)
    requires Row(deltas, host) == map[]
    ensures Row(AddRow(deltas, host, d), host) == d
  {
    var more := AddRow(deltas, host, d);
    forall b | b in deltas ensures host !in deltas[b] {
      assert b !in Row(deltas, host);
    }
    assert forall b :: b in Row(more, host) <==> b in d;
  }

  lemma OtherRow(deltas: ClusterDeltas, host: string, d: map<int, Counters>, other: string)
    requires other != host
    ensures Row(AddRow(deltas, host, d), other) == Row(deltas, other)
  {
    assert forall b :: b in Row(AddRow(deltas, host, d), other) <==> b in Row(deltas, other);
  }

  function BinsOf(samples: seq<Sample>, interval: int): set<int>
    requires interval > 0
  {
    set s | s in samples :: Bin(s, interval)
  }

  lemma {:induction false} LastPerBinKeys(samples: seq<Sample>, interval: int)
    requires interval > 0
    ensures LastPerBin(samples, interval).Keys == BinsOf(samples, interval)
  {
    if samples != [] {
      var last := |samples| - 1;
      LastPerBinKeys(samples[..last], interval);
      assert samples == samples[..last] + [samples[last]];
    }
  }

  method CollectBins(data: seq<HostLog>, interval: int) returns (bins: seq<int>)
    requires interval > 0
    ensures StrictlyAscending(bins)
    ensures forall b :: b in bins <==> exists i :: 0 <= i < |data| && b in BinsOf(data[i].samples, interval)
  {
    var all: set<int> := {};
    for i := 0 to |data|
      invariant forall b :: b in all <==> exists j :: 0 <= j < i && b in BinsOf(data[j].samples, interval)
    {
      all := all + BinsOf(data[i].samples, interval);
    }
    bins := SortedBins(all);
  }

  /** All hosts, walking the bins of all: gaps where a host has no data. */
  method ComputeOcDeltas(data: seq<HostLog>, interval: int) returns (deltas: ClusterDeltas, bins: seq<int>)
    requires interval > 0 && DistinctHosts(data)
    requires forall i :: 0 <= i < |data| ==> TimeSorted(data[i].samples)
    ensures StrictlyAscending(bins)
    ensures forall b :: b in bins <==> exists i :: 0 <= i < |data| && b in BinsOf(data[i].samples, interval)
    ensures forall i :: 0 <= i < |data| ==> IsDeltas(Row(deltas, data[i].host), LastPerBin(data[i].samples, interval))
    ensures forall host :: !HasHost(data, |data|, host) ==> Row(deltas, host) == map[]
  {
    bins := CollectBins(data, interval);
    deltas := map[];
    for i := 0 to |data|
      invariant forall j :: 0 <= j < i ==> IsDeltas(Row(deltas, data[j].host), LastPerBin(data[j].samples, interval))
      invariant forall host :: !HasHost(data, i, host) ==> Row(deltas, host) == map[]
    {
      var last := LastBySorting(data[i].samples, interval);
      LastPerBinKeys(data[i].samples, interval);
      var d := WalkBins(bins, last);
      assert !HasHost(data, i, data[i].host);
      AddRowIs(deltas, data[i].host, d);
      deltas := AddRow(deltas, data[i].host, d);
    }
  }

  /** The two agree, host by host and bin by bin. */
  method DeltasAgree(data: seq<HostLog>, interval: int, i: nat) returns (cluster: map<int, Counters>, own: map<int, Counters>)
    requires interval > 0 && DistinctHosts(data) && i < |data|
    requires forall i :: 0 <= i < |data| ==> TimeSorted(data[i].samples)
    ensures cluster == own && IsDeltas(own, LastPerBin(data[i].samples, interval))
  {
    var deltas, bins := ComputeOcDeltas(data, interval);
    cluster := Row(deltas, data[i].host);
    own := PerHostDeltas(data[i].samples, interval);
    DeltasUnique(cluster, own, LastPerBin(data[i].samples, interval));
  }

  // ----- adding the deltas up again -----

  datatype Field = Mem | Disk | L2 | Remote | Miss

  function Get(c: Counters, f: Field): real {
    match f
    case Mem => c.mem
    case Disk => c.disk
    case L2 => c.l2
    case Remote => c.remote
    case Miss => c.miss
  }

  function At(d: map<int, Counters>, b: int, f: Field): real {
    if b in d then Get(d[b], f) else 0.0
  }

  function SumOver(bins: seq<int>, d: map<int, Counters>, f: Field): real {
    if bins == [] then 0.0
    else SumOver(bins[..|bins| - 1], d, f) + At(d, bins[|bins| - 1], f)
  }

  /** The bins of a list in which the host has data. */
  function Own(bins: seq<int>, last: map<int, Counters>): seq<int> {
    if bins == [] then []
    else
      var b := bins[|bins| - 1];
      Own(bins[..|bins| - 1], last) + if b in last then [b] else []
  }

  lemma {:induction false} OwnIs(bins: seq<int>, last: map<int, Counters>)
    requires StrictlyAscending(bins)
    ensures StrictlyAscending(Own(bins, last))
    ensures forall b :: b in Own(bins, last) <==> b in bins && b in last
  {
    if bins != [] {
      var init, b := bins[..|bins| - 1], bins[|bins| - 1];
      OwnIs(init, last);
      assert bins == init + [b];
      var own := Own(init, last);
      forall i | 0 <= i < |own| ensures own[i] < b {
        assert own[i] in own;
        assert own[i] in init;
      }
    }
  }

  lemma SumOverSnoc(bins: seq<int>, b: int, d: map<int, Counters>, f: Field)
    ensures SumOver(bins + [b], d, f) == SumOver(bins, d, f) + At(d, b, f)
  {
    assert (bins + [b])[..|bins|] == bins;
  }

  lemma {:induction false} GapsAddNothing(bins: seq<int>, d: map<int, Counters>, last: map<int, Counters>, f: Field)
    requires forall b :: b in d ==> b in last
    ensures SumOver(bins, d, f) == SumOver(Own(bins, last), d, f)
  {
    if bins != [] {
      var init, b := bins[..|bins| - 1], bins[|bins| - 1];
      GapsAddNothing(init, d, last, f);
      var own := Own(init, last);
      assert Own(bins, last) == own + if b in last then [b] else [];
      if b in last {
        SumOverSnoc(own, b, d, f);
      } else {
        assert own + [] == own;
      }
    }
  }

  lemma IndexOf(own: seq<int>, q: int) returns (j: nat)
    requires q in own
    ensures j < |own| && own[j] == q
  {
    j :| 0 <= j < |own| && own[j] == q;
  }

  /** The first delta of a host is missing; the others stand between neighbouring bins. */
  lemma Neighbours(own: seq<int>, d: map<int, Counters>, last: map<int, Counters>, i: nat)
    requires StrictlyAscending(own) && (forall b :: b in own <==> b in last) && IsDeltas(d, last) && i < |own|
    ensures i == 0 ==> own[i] !in d
    ensures i > 0 ==> own[i] in d && own[i] in last && own[i - 1] in last
                      && Gained(d[own[i]], last[own[i]], last[own[i - 1]])
  {
    assert own[i] in own;
    if i == 0 {
      forall p ensures !Precedes(p, own[0], last) {
        if p in last {
          var j := IndexOf(own, p);
          assert own[0] <= own[j];
        }
      }
    } else {
      assert own[i - 1] in own;
      forall q | q in last ensures !(own[i - 1] < q < own[i]) {
        var j := IndexOf(own, q);
        assert j <= i - 1 || j >= i;
      }
      assert Precedes(own[i - 1], own[i], last);
      assert HasPrevious(own[i], last);
    }
  }

  /** A counter that never goes down along the first `n` bins. */
  ghost predicate Rising(own: seq<int>, n: nat, last: map<int, Counters>, f: Field)
    requires n <= |own|
  {
    forall i :: 0 < i < n ==> At(last, own[i - 1], f) <= At(last, own[i], f)
  }

  lemma DeltaAt(own: seq<int>, d: map<int, Counters>, last: map<int, Counters>, i: nat, f: Field)
    requires StrictlyAscending(own) && (forall b :: b in own <==> b in last) && IsDeltas(d, last) && i < |own|
    ensures i == 0 ==> At(d, own[i], f) == 0.0
    ensures i > 0 ==> Grew(At(d, own[i], f), At(last, own[i], f), At(last, own[i - 1], f))
  {
    Neighbours(own, d, last, i);
  }

  /** What the counter fell by between neighbouring bins, all falls among the first `n` together. */
  function Falls(own: seq<int>, n: nat, last: map<int, Counters>, f: Field): real
    requires n <= |own|
  {
    if n <= 1 then 0.0
    else
      var fall := At(last, own[n - 2], f) - At(last, own[n - 1], f);
      Falls(own, n - 1, last, f) + if fall > 0.0 then fall else 0.0
  }

  /** There are no falls exactly when the counter never goes down. */
  lemma {:induction false} NoFalls(own: seq<int>, n: nat, last: map<int, Counters>, f: Field)
    requires n <= |own|
    ensures Falls(own, n, last, f) >= 0.0 && (Falls(own, n, last, f) == 0.0 <==> Rising(own, n, last, f))
  {
    if n > 1 {
      hide At, Rising;
      NoFalls(own, n - 1, last, f);
      RisingStep(own, n, last, f);
    }
  }

  lemma {:induction false} TelescopesTo(own: seq<int>, n: nat, d: map<int, Counters>, last: map<int, Counters>, f: Field)
    requires StrictlyAscending(own) && (forall b :: b in own <==> b in last) && IsDeltas(d, last) && 0 < n <= |own|
    ensures SumOver(own[..n], d, f) == At(last, own[n - 1], f) - At(last, own[0], f) + Falls(own, n, last, f)
  {
    DeltaAt(own, d, last, n - 1, f);
    assert own[..n] == own[..n - 1] + [own[n - 1]];
    SumOverSnoc(own[..n - 1], own[n - 1], d, f);
    if n == 1 {
      OneBin(own, d, f);
    } else {
      hide At, SumOver;
      TelescopesTo(own, n - 1, d, last, f);
    }
  }

  lemma OneBin(own: seq<int>, d: map<int, Counters>, f: Field)
    requires own != [] && At(d, own[0], f) == 0.0
    ensures SumOver(own[..1], d, f) == 0.0
  {
    hide At;
    assert own[..1] == [] + [own[0]];
    SumOverSnoc([], own[0], d, f);
  }

  lemma RisingStep(own: seq<int>, n: nat, last: map<int, Counters>, f: Field)
    requires 1 < n <= |own|
    ensures Rising(own, n, last, f) <==>
            Rising(own, n - 1, last, f) && At(last, own[n - 2], f) <= At(last, own[n - 1], f)
  {
    if Rising(own, n, last, f) {
      assert At(last, own[(n - 1) - 1], f) <= At(last, own[n - 1], f);
    }
  }

  /** Over any list of bins that covers the host, its deltas add up to the growth of the counter from
      its first bin to its last plus all it fell by in between, and so to the growth alone if and
      only if it was never reset. Each single delta is the growth since the bin before, or nothing. */
  lemma DeltasTelescope(bins: seq<int>, d: map<int, Counters>, last: map<int, Counters>, f: Field)
    requires StrictlyAscending(bins) && (forall b :: b in last ==> b in bins) && IsDeltas(d, last)
    requires Own(bins, last) != []
    ensures var own := Own(bins, last);
            var growth := At(last, own[|own| - 1], f) - At(last, own[0], f);
            && SumOver(bins, d, f) == growth + Falls(own, |own|, last, f)
            && SumOver(bins, d, f) >= growth
            && (SumOver(bins, d, f) == growth <==> Rising(own, |own|, last, f))
            && forall i :: 0 < i < |own| ==> Grew(At(d, own[i], f), At(last, own[i], f), At(last, own[i - 1], f))
  {
    hide SumOver, Own, Rising, At, Falls, Grew;
    OwnIs(bins, last);
    GapsAddNothing(bins, d, last, f);
    var own := Own(bins, last);
    TelescopesTo(own, |own|, d, last, f);
    NoFalls(own, |own|, last, f);
    assert own[..|own|] == own;
    forall i | 0 < i < |own| ensures Grew(At(d, own[i], f), At(last, own[i], f), At(last, own[i - 1], f)) {
      DeltaAt(own, d, last, i, f);
    }
  }

  // ----- the cluster -----

  /** What the cluster shows for one bin: the sum over its hosts. */
  function ClusterAt(data: seq<HostLog>, deltas: ClusterDeltas, b: int, f: Field): real {
    if data == [] then 0.0
    else ClusterAt(data[..|data| - 1], deltas, b, f) + At(Row(deltas, data[|data| - 1].host), b, f)
  }

  function ClusterOver(data: seq<HostLog>, deltas: ClusterDeltas, bins: seq<int>, f: Field): real {
    if bins == [] then 0.0
    else ClusterOver(data, deltas, bins[..|bins| - 1], f) + ClusterAt(data, deltas, bins[|bins| - 1], f)
  }

  function HostsOver(data: seq<HostLog>, deltas: ClusterDeltas, bins: seq<int>, f: Field): real {
    if data == [] then 0.0
    else HostsOver(data[..|data| - 1], deltas, bins, f) + SumOver(bins, Row(deltas, data[|data| - 1].host), f)
  }

  lemma {:induction false} OneMoreHost(data: seq<HostLog>, deltas: ClusterDeltas, bins: seq<int>, f: Field)
    requires data != []
    ensures ClusterOver(data, deltas, bins, f) ==
            ClusterOver(data[..|data| - 1], deltas, bins, f) + SumOver(bins, Row(deltas, data[|data| - 1].host), f)
  {
    if bins != [] {
      OneMoreHost(data, deltas, bins[..|bins| - 1], f);
    }
  }

  lemma {:induction false} NoHosts(deltas: ClusterDeltas, bins: seq<int>, f: Field)
    ensures ClusterOver([], deltas, bins, f) == 0.0
  {
    if bins != [] {
      NoHosts(deltas, bins[..|bins| - 1], f);
    }
  }

  /** Nothing is lost in aggregation: adding the cluster's bins is adding the hosts' deltas. */
  lemma {:induction false} ClusterConserves(data: seq<HostLog>, deltas: ClusterDeltas, bins: seq<int>, f: Field)
    ensures ClusterOver(data, deltas, bins, f) == HostsOver(data, deltas, bins, f)
  {
    if data == [] {
      NoHosts(deltas, bins, f);
    } else {
      ClusterConserves(data[..|data| - 1], deltas, bins, f);
      OneMoreHost(data, deltas, bins, f);
    }
  }

  const NO_COUNTS := Counters(0.0, 0.0, 0.0, 0.0, 0.0)

  function Plus(a: Counters, b: Counters): Counters {
    Counters(a.mem + b.mem, a.disk + b.disk, a.l2 + b.l2, a.remote + b.remote, a.miss + b.miss)
  }

  /** What the cluster shows for one bin, all five counters. */
  function ClusterTotal(data: seq<HostLog>, deltas: ClusterDeltas, b: int): Counters {
    if data == [] then NO_COUNTS
    else
      var row := Row(deltas, data[|data| - 1].host);
      Plus(ClusterTotal(data[..|data| - 1], deltas, b), if b in row then row[b] else NO_COUNTS)
  }

  lemma {:induction false} TotalByField(data: seq<HostLog>, deltas: ClusterDeltas, b: int)
    ensures ClusterTotal(data, deltas, b) ==
            Counters(ClusterAt(data, deltas, b, Mem), ClusterAt(data, deltas, b, Disk), ClusterAt(data, deltas, b, L2),
                     ClusterAt(data, deltas, b, Remote), ClusterAt(data, deltas, b, Miss))
  {
    hide Row;
    if data != [] {
      TotalByField(data[..|data| - 1], deltas, b);
    }
  }

  /** The hit rate of a bin: -1 when there were no requests. */
  function HitRate(hits: real, misses: real): real {
    if hits + misses > 0.0 then hits / (hits + misses) else -1.0
  }

  lemma {:induction false} ClusterAtNonNegative(data: seq<HostLog>, deltas: ClusterDeltas, b: int, f: Field)
    requires forall i :: 0 <= i < |data| ==> At(Row(deltas, data[i].host), b, f) >= 0.0
    ensures ClusterAt(data, deltas, b, f) >= 0.0
  {
    if data != [] {
      ClusterAtNonNegative(data[..|data| - 1], deltas, b, f);
    }
  }

  lemma DeltasNonNegative(d: map<int, Counters>, last: map<int, Counters>, b: int, f: Field)
    requires IsDeltas(d, last)
    ensures At(d, b, f) >= 0.0
  {
    if b in d {
      var p :| Precedes(p, b, last);
      assert Gained(d[b], last[b], last[p]);
    }
  }

  /** Every hit rate the report shows is -1 or between 0 and 1; -1 exactly without requests, and
      otherwise the share of the hits, of whatever kind, in all requests. */
  lemma HitRateInRange(data: seq<HostLog>, deltas: ClusterDeltas, interval: int, b: int)
    requires interval > 0
    requires forall i :: 0 <= i < |data| ==> IsDeltas(Row(deltas, data[i].host), LastPerBin(data[i].samples, interval))
    ensures var total := ClusterTotal(data, deltas, b);
            var hits := total.mem + total.disk + total.l2 + total.remote;
            var rate := HitRate(hits, total.miss);
            && (0.0 <= rate <= 1.0 || rate == -1.0)
            && (rate == -1.0 <==> total == NO_COUNTS)
            && (rate != -1.0 ==> rate * (hits + total.miss) == hits)
  {
    hide Row, IsDeltas, LastPerBin, ClusterAt, ClusterTotal, At, HitRate;
    forall f ensures ClusterAt(data, deltas, b, f) >= 0.0 {
      forall i | 0 <= i < |data| ensures At(Row(deltas, data[i].host), b, f) >= 0.0 {
        DeltasNonNegative(Row(deltas, data[i].host), LastPerBin(data[i].samples, interval), b, f);
      }
      ClusterAtNonNegative(data, deltas, b, f);
    }
    TotalByField(data, deltas, b);
    var total := ClusterTotal(data, deltas, b);
    RateBounds(total.mem + total.disk + total.l2 + total.remote, total.miss);
  }

  lemma RateBounds(hits: real, misses: real)
    requires hits >= 0.0 && misses >= 0.0
    ensures if hits + misses > 0.0
            then 0.0 <= HitRate(hits, misses) <= 1.0 && HitRate(hits, misses) * (hits + misses) == hits
            else HitRate(hits, misses) == -1.0
  {
    var total := hits + misses;
    if total > 0.0 {
      var rate := hits / total;
      assert rate * total == hits;
      assert rate > 1.0 ==> rate * total > total;
    }
  }
}
