/** The "top 1000 by elapsed time" index of the URMA performance report: each worker process keeps
    its own 1000 slowest records, the report ranks what they kept and counts per worker. */
module TopElapsed {
  import opened Ranking

  const TOP: nat := 1000

  datatype Sample = Sample(elapsed: real, time: string)

  datatype Worker = Worker(name: string, samples: seq<Sample>)

  /** What the report compares: the tuple (elapsed, worker name, timestamp). */
  datatype Record = Record(elapsed: real, name: string, time: string)

  /** The part of it that decides how many records a worker contributes. */
  datatype Key = Key(elapsed: real, name: string)

  // ----- the orders -----

  predicate LexLess(a: string, b: string) {
    if b == "" then false
    else if a == "" then true
    else if a[0] != b[0] then a[0] < b[0]
    else LexLess(a[1..], b[1..])
  }

  /** Alike up to place `i`, where `a` ends or has the smaller character. */
  ghost predicate SmallerAt(a: string, b: string, i: nat) {
    i <= |a| && i < |b| && a[..i] == b[..i] && (i == |a| || a[i] < b[i])
  }

  ghost predicate Smaller(a: string, b: string) {
    exists i: nat :: SmallerAt(a, b, i)
  }

  lemma SameBeginning(a: string, b: string)
    ensures forall i: nat :: SmallerAt(a, b, i) && i > 0 ==> a != "" && b != "" && a[0] == b[0]
  {
    forall i: nat | SmallerAt(a, b, i) && i > 0 ensures a[0] == b[0] {
      assert a[0] == a[..i][0] && b[0] == b[..i][0];
    }
  }

  /** Strings are ordered by the first place where they differ. */
  lemma {:induction false} LexIsSmaller(a: string, b: string)
    ensures LexLess(a, b) <==> Smaller(a, b)
  {
    SameBeginning(a, b);
    if a == "" || b == "" || a[0] != b[0] {
      if LexLess(a, b) {
        assert SmallerAt(a, b, 0);
      }
    } else {
      LexIsSmaller(a[1..], b[1..]);
      if i: nat :| SmallerAt(a[1..], b[1..], i) {
        assert a[..i + 1] == [a[0]] + a[1..][..i] && b[..i + 1] == [b[0]] + b[1..][..i];
        assert SmallerAt(a, b, i + 1);
      }
      if i: nat :| SmallerAt(a, b, i) {
        assert i > 0;
        assert a[1..][..i - 1] == a[..i][1..] && b[1..][..i - 1] == b[..i][1..];
        assert SmallerAt(a[1..], b[1..], i - 1);
      }
    }
  }

  predicate ByElapsed(a: Sample, b: Sample) {
    a.elapsed < b.elapsed
  }

  predicate KeyLess(a: Key, b: Key) {
    if a.elapsed != b.elapsed then a.elapsed < b.elapsed else LexLess(a.name, b.name)
  }

  function KeyOf(r: Record): Key {
    Key(r.elapsed, r.name)
  }

  predicate RecordLess(a: Record, b: Record) {
    if KeyOf(a) != KeyOf(b) then KeyLess(KeyOf(a), KeyOf(b)) else LexLess(a.time, b.time)
  }

  lemma {:induction false} LexTrichotomy(a: string, b: string)
    ensures LexLess(a, b) || LexLess(b, a) || a == b
    ensures !(LexLess(a, b) && LexLess(b, a))
  {
    if a != "" && b != "" && a[0] == b[0] {
      LexTrichotomy(a[1..], b[1..]);
      assert a == [a[0]] + a[1..] && b == [b[0]] + b[1..];
    }
  }

  lemma {:induction false} LexTransitive(a: string, b: string, c: string)
    requires LexLess(a, b) && LexLess(b, c)
    ensures LexLess(a, c)
  {
    if a != "" && a[0] == b[0] == c[0] {
      LexTransitive(a[1..], b[1..], c[1..]);
    }
  }

  lemma KeyLessTotal()
    ensures StrictTotal(KeyLess)
  {
    forall a: Key, b: Key ensures (KeyLess(a, b) ==> !KeyLess(b, a)) && (KeyLess(a, b) || KeyLess(b, a) || a == b) {
      LexTrichotomy(a.name, b.name);
    }
    forall a: Key, b: Key, c: Key | KeyLess(a, b) && KeyLess(b, c) ensures KeyLess(a, c) {
      if a.elapsed == b.elapsed == c.elapsed {
        LexTransitive(a.name, b.name, c.name);
      }
    }
  }

  lemma OrdersRefineKey(name: string)
    ensures Refines(RecordLess, KeyOf, KeyLess)
    ensures Refines(ByElapsed, SampleKey(name), KeyLess)
  {
    forall a: string ensures !LexLess(a, a) {
      LexTrichotomy(a, a);
    }
    forall a: Record, b: Record ensures KeyLess(KeyOf(a), KeyOf(b)) ==> RecordLess(a, b) && !KeyLess(KeyOf(b), KeyOf(a)) {
      LexTrichotomy(a.name, b.name);
    }
  }

  /** Record `s` does not come before `r`: it took less time, or as long and its worker's name is
      smaller, or the same and its timestamp is not greater. */
  ghost predicate NotSlower(s: Record, r: Record) {
    || s.elapsed < r.elapsed
    || (s.elapsed == r.elapsed
        && (Smaller(s.name, r.name) || (s.name == r.name && (Smaller(s.time, r.time) || s.time == r.time))))
  }

  lemma RecordOrder(s: Record, r: Record)
    ensures !RecordLess(r, s) <==> NotSlower(s, r)
  {
    LexIsSmaller(s.name, r.name);
    LexIsSmaller(s.time, r.time);
    LexTrichotomy(s.name, r.name);
    LexTrichotomy(s.time, r.time);
  }

  lemma RecordLessWeak()
    ensures StrictWeak(RecordLess)
  {
    forall a: Record, b: Record ensures RecordLess(a, b) ==> !RecordLess(b, a) {
      LexTrichotomy(a.name, b.name);
      LexTrichotomy(a.time, b.time);
    }
    forall a: Record, b: Record, c: Record | !RecordLess(a, b) && !RecordLess(b, c) ensures !RecordLess(a, c) {
      NotLessTransitive(a, b, c);
    }
  }

  lemma NotLessTransitive(a: Record, b: Record, c: Record)
    requires !RecordLess(a, b) && !RecordLess(b, c)
    ensures !RecordLess(a, c)
  {
    if a.elapsed == b.elapsed == c.elapsed {
      LexTrichotomy(a.name, a.name);
      LexTrichotomy(b.name, b.name);
      LexNotLess(a.name, b.name, c.name);
      if a.name == b.name == c.name {
        LexNotLess(a.time, b.time, c.time);
      }
    }
  }

  lemma LexNotLess(a: string, b: string, c: string)
    requires !LexLess(a, b) && !LexLess(b, c)
    ensures !LexLess(a, c) && (a == c ==> a == b)
  {
    LexTrichotomy(a, b);
    LexTrichotomy(b, c);
    LexTrichotomy(a, c);
    if a != b && b != c {
      LexTransitive(c, b, a);
    }
  }

  ghost predicate Ordered(s: seq<Record>) {
    forall i, j :: 0 <= i < j < |s| ==> NotSlower(s[j], s[i])
  }

  /** Of all the records, `top` holds 1000, or all if there are fewer, and none slower is left out. */
  ghost predicate IsTop(top: seq<Record>, all: seq<Record>) {
    && multiset(top) <= multiset(all)
    && |top| == (if |all| < 1000 then |all| else 1000)
    && Ordered(top)
    && (forall r, s :: r in top && s in multiset(all) - multiset(top) ==> NotSlower(s, r))
  }

  lemma FirstAndRest(s: seq<Record>, n: nat)
    requires n <= |s|
    ensures multiset(s) - multiset(s[..n]) == multiset(s[n..]) && multiset(s[..n]) <= multiset(s)
  {
    assert s == s[..n] + s[n..];
  }

  lemma RestIsNotSlower(s: seq<Record>, n: nat, r: Record, t: Record)
    requires n <= |s| && Ordered(s) && r in s[..n] && t in s[n..]
    ensures NotSlower(t, r)
  {
    var i :| 0 <= i < n && s[..n][i] == r;
    var j :| 0 <= j < |s| - n && s[n..][j] == t;
    assert s[i] == r && s[n + j] == t;
  }

  lemma SortIsOrdered(all: seq<Record>)
    ensures Ordered(Sort(all, RecordLess))
  {
    hide RecordLess, Sort, NotSlower;
    RecordLessWeak();
    SortDescends(all, RecordLess);
    var s := Sort(all, RecordLess);
    forall i, j | 0 <= i < j < |s| ensures NotSlower(s[j], s[i]) {
      RecordOrder(s[j], s[i]);
    }
  }

  lemma TopIsTop(all: seq<Record>)
    ensures IsTop(NLargest(TOP, all, RecordLess), all)
  {
    hide RecordLess, Sort, NotSlower;
    SortPermutes(all, RecordLess);
    SortIsOrdered(all);
    var sorted, top := Sort(all, RecordLess), NLargest(TOP, all, RecordLess);
    var n := |top|;
    assert top == sorted[..n];
    FirstAndRest(sorted, n);
    forall r, s | r in top && s in multiset(all) - multiset(top) ensures NotSlower(s, r) {
      assert s in sorted[n..];
      RestIsNotSlower(sorted, n, r, s);
    }
  }

  // ----- two ways to the top -----

  function SampleKey(name: string): Sample -> Key {
    (s: Sample) => Key(s.elapsed, name)
  }

  function Tag(name: string): Sample -> Record {
    (s: Sample) => Record(s.elapsed, name, s.time)
  }

  function AllRecords(workers: seq<Worker>): seq<seq<Record>> {
    seq(|workers|, i requires 0 <= i < |workers| => Map(Tag(workers[i].name), workers[i].samples))
  }

  function KeptRecords(workers: seq<Worker>): seq<seq<Record>> {
    seq(|workers|, i requires 0 <= i < |workers| =>
          Map(Tag(workers[i].name), NLargest(TOP, workers[i].samples, ByElapsed)))
  }

  /** The reference: rank every record of every worker at once. */
  function GlobalTop(workers: seq<Worker>): seq<Record> {
    NLargest(TOP, Concat(AllRecords(workers)), RecordLess)
  }

  /** What the report does: rank only what the workers kept. */
  function ReportedTop(workers: seq<Worker>): seq<Record> {
    NLargest(TOP, Concat(KeptRecords(workers)), RecordLess)
  }

  function Keys(parts: seq<seq<Record>>): seq<seq<Key>> {
    seq(|parts|, i requires 0 <= i < |parts| => Map(KeyOf, parts[i]))
  }

  lemma {:induction false} KeysOfConcat(parts: seq<seq<Record>>)
    ensures Map(KeyOf, Concat(parts)) == Concat(Keys(parts))
  {
    if parts != [] {
      var last := |parts| - 1;
      KeysOfConcat(parts[..last]);
      assert Keys(parts)[..last] == Keys(parts[..last]);
    }
  }

  lemma KeptKeysAreLocalTops(workers: seq<Worker>)
    ensures Keys(KeptRecords(workers)) == LocalTops(TOP, Keys(AllRecords(workers)), KeyLess)
  {
    KeyLessTotal();
    forall i | 0 <= i < |workers|
      ensures Map(KeyOf, KeptRecords(workers)[i]) == NLargest(TOP, Map(KeyOf, AllRecords(workers)[i]), KeyLess)
    {
      var w := workers[i];
      OrdersRefineKey(w.name);
      NLargestKeys(TOP, w.samples, ByElapsed, SampleKey(w.name), KeyLess);
      assert Map(KeyOf, AllRecords(workers)[i]) == Map(SampleKey(w.name), w.samples);
      assert Map(KeyOf, KeptRecords(workers)[i]) == Map(SampleKey(w.name), NLargest(TOP, w.samples, ByElapsed));
    }
  }

  /** Rank by rank, the reported top and the global top agree on elapsed time and worker. They
      can differ only in which of a worker's equally slow records is listed. */
  lemma ReportedTopIsExact(workers: seq<Worker>)
    ensures Map(KeyOf, ReportedTop(workers)) == Map(KeyOf, GlobalTop(workers))
  {
    KeyLessTotal();
    OrdersRefineKey("");
    var all, kept := AllRecords(workers), KeptRecords(workers);
    NLargestKeys(TOP, Concat(kept), RecordLess, KeyOf, KeyLess);
    NLargestKeys(TOP, Concat(all), RecordLess, KeyOf, KeyLess);
    KeysOfConcat(kept);
    KeysOfConcat(all);
    KeptKeysAreLocalTops(workers);
    TwoStages(TOP, Keys(all), KeyLess);
  }

  // ----- counting -----

  function Count(name: string, records: seq<Record>): nat {
    if records == [] then 0
    else Count(name, records[..|records| - 1]) + if records[|records| - 1].name == name then 1 else 0
  }

  lemma {:induction false} CountByKey(name: string, a: seq<Record>, b: seq<Record>)
    requires Map(KeyOf, a) == Map(KeyOf, b)
    ensures Count(name, a) == Count(name, b)
  {
    if a != [] {
      var last := |a| - 1;
      assert |b| == |Map(KeyOf, b)| == |a|;
      assert Map(KeyOf, a)[last] == Map(KeyOf, b)[last];
      assert Map(KeyOf, a[..last]) == Map(KeyOf, a)[..last] == Map(KeyOf, b[..last]);
      CountByKey(name, a[..last], b[..last]);
    }
  }

  predicate DistinctNames(workers: seq<Worker>) {
    forall i, j :: 0 <= i < j < |workers| ==> workers[i].name != workers[j].name
  }

  predicate Named(workers: seq<Worker>, name: string) {
    exists i :: 0 <= i < |workers| && workers[i].name == name
  }

  /** The counts of all workers together. */
  function CountAll(workers: seq<Worker>, records: seq<Record>): nat {
    if workers == [] then 0
    else CountAll(workers[1..], records) + Count(workers[0].name, records)
  }

  lemma {:induction false} CountAllStep(workers: seq<Worker>, records: seq<Record>, r: Record)
    requires DistinctNames(workers)
    ensures CountAll(workers, records + [r]) ==
            CountAll(workers, records) + if Named(workers, r.name) then 1 else 0
  {
    if workers != [] {
      var more := records + [r];
      assert more[..|more| - 1] == records;
      CountAllStep(workers[1..], records, r);
      if i :| 0 <= i < |workers| && workers[i].name == r.name {
        if i > 0 {
          assert workers[1..][i - 1].name == r.name;
        } else {
          assert forall j :: 0 <= j < |workers[1..]| ==> workers[1..][j] == workers[j + 1];
        }
      } else {
        assert forall j :: 0 <= j < |workers[1..]| ==> workers[1..][j] == workers[j + 1];
      }
    }
  }

  lemma {:induction false} CountAllIsLength(workers: seq<Worker>, records: seq<Record>)
    requires DistinctNames(workers)
    requires forall r :: r in records ==> Named(workers, r.name)
    ensures CountAll(workers, records) == |records|
  {
    if records == [] {
      CountAllNone(workers);
    } else {
      var last := |records| - 1;
      assert forall r :: r in records[..last] ==> r in records;
      CountAllIsLength(workers, records[..last]);
      CountAllStep(workers, records[..last], records[last]);
      assert records == records[..last] + [records[last]];
      assert records[last] in records;
    }
  }

  lemma {:induction false} CountAllNone(workers: seq<Worker>)
    ensures CountAll(workers, []) == 0
  {
    if workers != [] {
      CountAllNone(workers[1..]);
    }
  }

  lemma {:induction false} RecordsAreOfWorkers(workers: seq<Worker>, n: nat, r: Record)
    requires n <= |workers| && r in Concat(AllRecords(workers)[..n])
    ensures Named(workers, r.name)
  {
    var parts := AllRecords(workers)[..n];
    if r in parts[n - 1] {
      assert workers[n - 1].name == r.name;
    } else {
      assert parts[..n - 1] == AllRecords(workers)[..n - 1];
      RecordsAreOfWorkers(workers, n - 1, r);
    }
  }

  /** Counted worker by worker, the global top is exactly as long as it can be. */
  lemma CountsAddUp(workers: seq<Worker>)
    requires DistinctNames(workers)
    ensures CountAll(workers, GlobalTop(workers)) == |GlobalTop(workers)|
  {
    var all := Concat(AllRecords(workers));
    SortPermutes(all, RecordLess);
    forall r | r in GlobalTop(workers) ensures Named(workers, r.name) {
      assert r in Sort(all, RecordLess);
      assert r in multiset(all);
      assert AllRecords(workers)[..|workers|] == AllRecords(workers);
      RecordsAreOfWorkers(workers, |workers|, r);
    }
    CountAllIsLength(workers, GlobalTop(workers));
  }

  function Get(counts: map<string, nat>, name: string): nat {
    if name in counts then counts[name] else 0
  }

  /** What each worker kept, tagged with its name, one worker after the other. */
  method Gather(workers: seq<Worker>) returns (samples: seq<Record>)
    ensures samples == Concat(KeptRecords(workers))
  {
    samples := [];
    for i := 0 to |workers|
      invariant samples == Concat(KeptRecords(workers)[..i])
    {
      var kept := Map(Tag(workers[i].name), NLargest(TOP, workers[i].samples, ByElapsed));
      assert KeptRecords(workers)[..i + 1][..i] == KeptRecords(workers)[..i];
      samples := samples + kept;
    }
    assert KeptRecords(workers)[..|workers|] == KeptRecords(workers);
  }

  method CountNames(top: seq<Record>) returns (counts: map<string, nat>)
    ensures forall name :: Get(counts, name) == Count(name, top)
    ensures forall name :: name in counts ==> counts[name] > 0
  {
    counts := map[];
    for i := 0 to |top|
      invariant forall name :: Get(counts, name) == Count(name, top[..i])
      invariant forall name :: name in counts ==> counts[name] > 0
    {
      assert top[..i + 1][..i] == top[..i];
      counts := counts[top[i].name := Get(counts, top[i].name) + 1];
    }
    assert top[..|top|] == top;
  }

  /** Every sample of every worker, under the worker's name, and nothing else. */
  ghost predicate IsEverything(all: seq<Record>, workers: seq<Worker>) {
    && |all| == Samples(workers)
    && (forall i, j :: 0 <= i < |workers| && 0 <= j < |workers[i].samples| ==>
          Record(workers[i].samples[j].elapsed, workers[i].name, workers[i].samples[j].time) in all)
  }

  function Samples(workers: seq<Worker>): nat {
    if workers == [] then 0 else Samples(workers[..|workers| - 1]) + |workers[|workers| - 1].samples|
  }

  lemma {:induction false} AllIsEverything(workers: seq<Worker>)
    ensures IsEverything(Concat(AllRecords(workers)), workers)
  {
    if workers != [] {
      var last := |workers| - 1;
      var w := workers[last];
      AllIsEverything(workers[..last]);
      assert AllRecords(workers)[..last] == AllRecords(workers[..last]);
      var mine := Map(Tag(w.name), w.samples);
      assert forall j :: 0 <= j < |w.samples| ==> mine[j] == Record(w.samples[j].elapsed, w.name, w.samples[j].time);
      assert Concat(AllRecords(workers)) == Concat(AllRecords(workers[..last])) + mine;
    }
  }

  /** The report: gather what each worker kept, rank it, count by worker. Every worker gets the
      count it has in the ranking of all records, and the table lists exactly the workers that
      have any. */
  method RankWorkers(workers: seq<Worker>) returns (counts: map<string, nat>)
    ensures forall name :: Get(counts, name) == Count(name, GlobalTop(workers))
    ensures forall name :: name in counts <==> Count(name, GlobalTop(workers)) > 0
    ensures DistinctNames(workers) ==>
              var total := |Concat(AllRecords(workers))|;
              CountAll(workers, GlobalTop(workers)) == if total < TOP then total else TOP
    // and that ranking is of the slowest records there are
    ensures IsEverything(Concat(AllRecords(workers)), workers)
    ensures IsTop(GlobalTop(workers), Concat(AllRecords(workers)))
  {
    hide Count, CountAll, Concat, KeptRecords, AllRecords, DistinctNames, IsTop, IsEverything;
    AllIsEverything(workers);
    TopIsTop(Concat(AllRecords(workers)));
    var samples := Gather(workers);
    var top := NLargest(TOP, samples, RecordLess);
    counts := CountNames(top);
    ReportedTopIsExact(workers);
    forall name ensures Count(name, top) == Count(name, GlobalTop(workers)) {
      CountByKey(name, top, GlobalTop(workers));
    }
    if DistinctNames(workers) {
      CountsAddUp(workers);
    }
  }
}
