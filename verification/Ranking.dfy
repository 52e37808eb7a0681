/** Stable descending sorting and what its first `k` elements depend on. `less` is a strict order;
    `heapq.nlargest(k, xs)` is the first `k` of the stable descending sort. */
module Ranking {
  /** A strict total order: what Python's comparison of numbers, strings and tuples is. */
  ghost predicate StrictTotal<T(!new)>(less: (T, T) -> bool) {
    && (forall a, b :: less(a, b) ==> !less(b, a))
    && (forall a, b :: less(a, b) || less(b, a) || a == b)
    && (forall a, b, c :: less(a, b) && less(b, c) ==> less(a, c))
  }

  /** A strict order up to ties: ties are allowed, and being tied is transitive. */
  ghost predicate StrictWeak<T(!new)>(less: (T, T) -> bool) {
    && (forall a, b :: less(a, b) ==> !less(b, a))
    && (forall a, b, c :: !less(a, b) && !less(b, c) ==> !less(a, c))
  }

  ghost predicate Descending<T>(s: seq<T>, less: (T, T) -> bool) {
    forall i, j :: 0 <= i < j < |s| ==> !less(s[i], s[j])
  }

  /** Put `x` after everything that is not below it. */
  function Insert<T>(x: T, s: seq<T>, less: (T, T) -> bool): seq<T> {
    if s == [] then [x]
    else if less(s[0], x) then [x] + s
    else [s[0]] + Insert(x, s[1..], less)
  }

  function Sort<T>(xs: seq<T>, less: (T, T) -> bool): (s: seq<T>)
    ensures |s| == |xs|
  {
    if xs == [] then [] else
      var s := Sort(xs[..|xs| - 1], less);
      InsertLength(xs[|xs| - 1], s, less);
      Insert(xs[|xs| - 1], s, less)
  }

  lemma {:induction false} InsertLength<T>(x: T, s: seq<T>, less: (T, T) -> bool)
    ensures |Insert(x, s, less)| == |s| + 1
  {
    if s != [] && !less(s[0], x) {
      InsertLength(x, s[1..], less);
    }
  }

  function Take<T>(k: nat, s: seq<T>): seq<T> {
    if |s| <= k then s else s[..k]
  }

  /** `heapq.nlargest`. */
  function NLargest<T>(k: nat, xs: seq<T>, less: (T, T) -> bool): (s: seq<T>)
    ensures |s| == if |xs| < k then |xs| else k
  {
    Take(k, Sort(xs, less))
  }

  lemma {:induction false} InsertElements<T>(x: T, s: seq<T>, less: (T, T) -> bool)
    ensures multiset(Insert(x, s, less)) == multiset(s) + multiset{x}
  {
    if s != [] {
      assert s == [s[0]] + s[1..];
      if !less(s[0], x) {
        InsertElements(x, s[1..], less);
      }
    }
  }

  lemma {:induction false} InsertDescending<T(!new)>(x: T, s: seq<T>, less: (T, T) -> bool)
    requires StrictWeak(less) && Descending(s, less)
    ensures Descending(Insert(x, s, less), less)
  {
    if s != [] && !less(s[0], x) {
      InsertDescending(x, s[1..], less);
      InsertElements(x, s[1..], less);
      var rest := Insert(x, s[1..], less);
      forall j | 0 <= j < |rest| ensures !less(s[0], rest[j]) {
        assert rest[j] in multiset(rest);
        if rest[j] != x {
          assert rest[j] in s[1..];
        }
      }
    }
  }

  lemma LastElement<T>(xs: seq<T>, last: nat)
    requires |xs| == last + 1
    ensures multiset(xs) == multiset(xs[..last]) + multiset{xs[last]}
  {
    assert xs == xs[..last] + [xs[last]];
  }

  lemma {:induction false} SortPermutes<T>(xs: seq<T>, less: (T, T) -> bool)
    ensures multiset(Sort(xs, less)) == multiset(xs)
  {
    hide Insert;
    if xs != [] {
      var last := |xs| - 1;
      SortPermutes(xs[..last], less);
      InsertElements(xs[last], Sort(xs[..last], less), less);
      LastElement(xs, last);
    }
  }

  lemma {:induction false} SortDescends<T(!new)>(xs: seq<T>, less: (T, T) -> bool)
    requires StrictWeak(less)
    ensures Descending(Sort(xs, less), less)
  {
    if xs != [] {
      var last := |xs| - 1;
      SortDescends(xs[..last], less);
      InsertDescending(xs[last], Sort(xs[..last], less), less);
    }
  }

  lemma {:induction false} InsertedLast<T(!new)>(x: T, s: seq<T>, less: (T, T) -> bool)
    requires StrictWeak(less) && Descending(s, less) && s != []
    ensures |Insert(x, s, less)| == |s| + 1
    ensures Insert(x, s, less)[|s|] == if less(s[|s| - 1], x) then s[|s| - 1] else x
  {
    hide StrictWeak, Descending;
    InsertLength(x, s, less);
    if less(s[0], x) {
      LastIsLowest(x, s, less);
    } else if |s| > 1 {
      DescendingTail(s, less);
      InsertedLast(x, s[1..], less);
    } else {
      assert s[1..] == [];
    }
  }

  lemma LastIsLowest<T(!new)>(x: T, s: seq<T>, less: (T, T) -> bool)
    requires StrictWeak(less) && Descending(s, less) && s != [] && less(s[0], x)
    ensures less(s[|s| - 1], x)
  {
  }

  lemma DescendingTail<T>(s: seq<T>, less: (T, T) -> bool)
    requires Descending(s, less) && s != []
    ensures Descending(s[1..], less)
  {
  }

  /** Nothing in `xs` ranks below `xs[k]`, and everything after it ranks above it. */
  ghost predicate IsLast<T>(xs: seq<T>, k: int, less: (T, T) -> bool) {
    && 0 <= k < |xs|
    && (forall j :: 0 <= j < |xs| ==> !less(xs[j], xs[k]))
    && (forall j :: k < j < |xs| ==> less(xs[k], xs[j]))
  }

  /** The sort ends with the lowest element, and with the last of those that tie. */
  lemma {:induction false} SortLast<T(!new)>(xs: seq<T>, less: (T, T) -> bool) returns (k: int)
    requires StrictWeak(less) && xs != []
    ensures IsLast(xs, k, less) && Sort(xs, less)[|xs| - 1] == xs[k]
  {
    var last := |xs| - 1;
    var init, x := xs[..last], xs[last];
    assert xs == init + [x];
    if init == [] {
      assert Sort(xs, less) == [x];
      return 0;
    }
    hide StrictWeak, IsLast, Descending, Insert;
    k := SortLast(init, less);
    SortDescends(init, less);
    InsertedLast(x, Sort(init, less), less);
    IsLastIn(init, k, less);
    LastStep(init, x, k, less);
    if !less(init[k], x) {
      k := last;
    }
  }

  lemma IsLastIn<T>(xs: seq<T>, k: int, less: (T, T) -> bool)
    requires IsLast(xs, k, less)
    ensures 0 <= k < |xs|
  {
  }

  lemma LastStep<T(!new)>(init: seq<T>, x: T, k: int, less: (T, T) -> bool)
    requires StrictWeak(less) && IsLast(init, k, less)
    ensures IsLast(init + [x], if less(init[k], x) then k else |init|, less)
  {
    var xs := init + [x];
    assert forall j :: 0 <= j < |init| ==> xs[j] == init[j];
  }

  lemma TotalIsWeak<T(!new)>(less: (T, T) -> bool)
    requires StrictTotal(less)
    ensures StrictWeak(less)
  {
  }

  // ----- merging -----

  function Merge<T>(s: seq<T>, t: seq<T>, less: (T, T) -> bool): seq<T> {
    if s == [] then t
    else if t == [] then s
    else if less(s[0], t[0]) then [t[0]] + Merge(s, t[1..], less)
    else [s[0]] + Merge(s[1..], t, less)
  }

  /** The first `k` of a merge only need the first `k` of each side. */
  lemma {:induction false} TakeMerge<T>(k: nat, m: nat, n: nat, s: seq<T>, t: seq<T>, less: (T, T) -> bool)
    requires k <= m && k <= n
    ensures Take(k, Merge(Take(m, s), Take(n, t), less)) == Take(k, Merge(s, t, less))
    decreases |s| + |t|
  {
    hide Take, Merge;
    if k == 0 {
      TakeNone(Merge(Take(m, s), Take(n, t), less));
      TakeNone(Merge(s, t, less));
    } else if s == [] {
      TakeOfEmpty<T>(m);
      MergeEmpty(t, less);
      MergeEmpty(Take(n, t), less);
      TakeTake(k, n, t);
    } else if t == [] {
      TakeOfEmpty<T>(n);
      MergeEmpty(s, less);
      MergeEmpty(Take(m, s), less);
      TakeTake(k, m, s);
    } else {
      TakeTail(m, s);
      TakeTail(n, t);
      var s', t' := Take(m, s), Take(n, t);
      MergeStep(s, t, less);
      MergeStep(s', t', less);
      if less(s[0], t[0]) {
        TakeMerge(k - 1, m, n - 1, s, t[1..], less);
        TakeConsSame(k, t[0], Merge(s', t'[1..], less), Merge(s, t[1..], less));
      } else {
        TakeMerge(k - 1, m - 1, n, s[1..], t, less);
        TakeConsSame(k, s[0], Merge(s'[1..], t', less), Merge(s[1..], t, less));
      }
    }
  }

  lemma TakeNone<T>(s: seq<T>)
    ensures Take(0, s) == []
  {
  }

  lemma TakeOfEmpty<T>(k: nat)
    ensures Take<T>(k, []) == []
  {
  }

  lemma MergeEmpty<T>(s: seq<T>, less: (T, T) -> bool)
    ensures Merge([], s, less) == s && Merge(s, [], less) == s
  {
  }

  lemma MergeStep<T>(s: seq<T>, t: seq<T>, less: (T, T) -> bool)
    requires s != [] && t != []
    ensures Merge(s, t, less) ==
            if less(s[0], t[0]) then [t[0]] + Merge(s, t[1..], less) else [s[0]] + Merge(s[1..], t, less)
  {
  }

  lemma TakeConsSame<T>(k: nat, x: T, a: seq<T>, b: seq<T>)
    requires k > 0 && Take(k - 1, a) == Take(k - 1, b)
    ensures Take(k, [x] + a) == Take(k, [x] + b)
  {
    hide Take;
    TakeCons(k, x, a);
    TakeCons(k, x, b);
  }

  lemma TakeTake<T>(k: nat, n: nat, s: seq<T>)
    requires k <= n
    ensures Take(k, Take(n, s)) == Take(k, s)
  {
  }

  lemma TakeTail<T>(k: nat, s: seq<T>)
    requires k > 0 && s != []
    ensures Take(k, s) != [] && Take(k, s)[0] == s[0] && Take(k, s)[1..] == Take(k - 1, s[1..])
  {
  }

  lemma TakeCons<T>(k: nat, x: T, s: seq<T>)
    requires k > 0
    ensures Take(k, [x] + s) == [x] + Take(k - 1, s)
  {
  }

  /** Under a total order inserting into a merge is inserting into its right side. */
  lemma {:induction false} InsertMerge<T(!new)>(x: T, s: seq<T>, t: seq<T>, less: (T, T) -> bool)
    requires StrictTotal(less) && Descending(s, less) && Descending(t, less)
    ensures Insert(x, Merge(s, t, less), less) == Merge(s, Insert(x, t, less), less)
    decreases |s| + |t|
  {
    if s != [] {
      if t == [] {
        InsertMergeEmpty(x, s, less);
      } else if less(s[0], t[0]) {
        if !less(t[0], x) {
          InsertMerge(x, s, t[1..], less);
          assert Insert(x, t, less)[1..] == Insert(x, t[1..], less);
        } else {
          assert Insert(x, t, less)[1..] == t;
        }
      } else {
        if less(s[0], x) {
          assert less(t[0], x);
          assert ([x] + t)[1..] == t;
        } else {
          InsertMerge(x, s[1..], t, less);
        }
      }
    }
  }

  lemma {:induction false} InsertMergeEmpty<T(!new)>(x: T, s: seq<T>, less: (T, T) -> bool)
    requires StrictTotal(less) && Descending(s, less)
    ensures Insert(x, s, less) == Merge(s, [x], less)
  {
    if s != [] {
      if less(s[0], x) {
        assert [x][1..] == [];
      } else {
        InsertMergeEmpty(x, s[1..], less);
      }
    }
  }

  /** Sorting a concatenation is merging the sorted parts. */
  lemma {:induction false} SortConcat<T(!new)>(xs: seq<T>, ys: seq<T>, less: (T, T) -> bool)
    requires StrictTotal(less)
    ensures Sort(xs + ys, less) == Merge(Sort(xs, less), Sort(ys, less), less)
  {
    if ys == [] {
      assert xs + ys == xs;
    } else {
      var last := |ys| - 1;
      SortConcat(xs, ys[..last], less);
      assert (xs + ys)[..|xs + ys| - 1] == xs + ys[..last];
      TotalIsWeak(less);
      SortDescends(xs, less);
      SortDescends(ys[..last], less);
      InsertMerge(ys[last], Sort(xs, less), Sort(ys[..last], less), less);
    }
  }

  lemma {:induction false} InsertLast<T>(x: T, s: seq<T>, less: (T, T) -> bool)
    requires forall i :: 0 <= i < |s| ==> !less(s[i], x)
    ensures Insert(x, s, less) == s + [x]
  {
    if s != [] {
      InsertLast(x, s[1..], less);
      assert s + [x] == [s[0]] + (s[1..] + [x]);
    }
  }

  /** What is in order already stays as it is. */
  lemma {:induction false} SortSorted<T>(s: seq<T>, less: (T, T) -> bool)
    requires Descending(s, less)
    ensures Sort(s, less) == s
  {
    if s != [] {
      var last := |s| - 1;
      SortSorted(s[..last], less);
      InsertLast(s[last], s[..last], less);
      assert s == s[..last] + [s[last]];
    }
  }

  // ----- sorting by more than the key -----

  function Map<T, K>(f: T -> K, s: seq<T>): (r: seq<K>)
    ensures |r| == |s|
    ensures forall i :: 0 <= i < |s| ==> r[i] == f(s[i])
  {
    seq(|s|, i requires 0 <= i < |s| => f(s[i]))
  }

  /** `less` orders by the key first; beyond that, as it likes. */
  ghost predicate Refines<T(!new), K>(less: (T, T) -> bool, f: T -> K, lessKey: (K, K) -> bool) {
    && (forall a, b :: lessKey(f(a), f(b)) ==> less(a, b))
    && (forall a, b :: less(a, b) ==> !lessKey(f(b), f(a)))
  }

  lemma {:induction false} InsertTop<K(!new)>(x: K, s: seq<K>, less: (K, K) -> bool)
    requires StrictTotal(less) && Descending(s, less)
    requires s == [] || !less(x, s[0])
    ensures Insert(x, s, less) == [x] + s
  {
    if s != [] && !less(s[0], x) {
      assert s[0] == x;
      if |s| > 1 {
        assert !less(s[0], s[1]);
      }
      InsertTop(x, s[1..], less);
      assert s == [x] + s[1..];
    }
  }

  lemma MapCons<T, K>(f: T -> K, x: T, s: seq<T>)
    ensures Map(f, [x] + s) == [f(x)] + Map(f, s)
  {
  }

  lemma {:induction false} InsertKeys<T(!new), K(!new)>(x: T, s: seq<T>, less: (T, T) -> bool, f: T -> K, lessKey: (K, K) -> bool)
    requires StrictTotal(lessKey) && Refines(less, f, lessKey) && Descending(Map(f, s), lessKey)
    ensures Map(f, Insert(x, s, less)) == Insert(f(x), Map(f, s), lessKey)
  {
    var keys := Map(f, s);
    if s == [] {
      assert Map(f, [x]) == [f(x)];
    } else if less(s[0], x) {
      InsertTop(f(x), keys, lessKey);
      MapCons(f, x, s);
    } else {
      assert keys[1..] == Map(f, s[1..]);
      InsertKeys(x, s[1..], less, f, lessKey);
      MapCons(f, s[0], Insert(x, s[1..], less));
    }
  }

  lemma SortedKeysDescend<K(!new)>(keys: seq<K>, less: (K, K) -> bool)
    requires StrictTotal(less)
    ensures Descending(Sort(keys, less), less)
  {
    TotalIsWeak(less);
    SortDescends(keys, less);
  }

  /** Seen through the key, a sort by key and more is the sort by key. */
  lemma {:induction false} SortKeys<T(!new), K(!new)>(xs: seq<T>, less: (T, T) -> bool, f: T -> K, lessKey: (K, K) -> bool)
    requires StrictTotal(lessKey) && Refines(less, f, lessKey)
    ensures Map(f, Sort(xs, less)) == Sort(Map(f, xs), lessKey)
  {
    if xs != [] {
      var last := |xs| - 1;
      var init, keys := xs[..last], Map(f, xs);
      SortKeys(init, less, f, lessKey);
      assert keys[..last] == Map(f, init);
      SortedKeysDescend(Map(f, init), lessKey);
      InsertKeys(xs[last], Sort(init, less), less, f, lessKey);
    }
  }

  lemma NLargestKeys<T(!new), K(!new)>(k: nat, xs: seq<T>, less: (T, T) -> bool, f: T -> K, lessKey: (K, K) -> bool)
    requires StrictTotal(lessKey) && Refines(less, f, lessKey)
    ensures Map(f, NLargest(k, xs, less)) == NLargest(k, Map(f, xs), lessKey)
  {
    SortKeys(xs, less, f, lessKey);
  }

  // ----- two stages -----

  function Concat<T>(parts: seq<seq<T>>): seq<T> {
    if parts == [] then [] else Concat(parts[..|parts| - 1]) + parts[|parts| - 1]
  }

  function LocalTops<T>(k: nat, parts: seq<seq<T>>, less: (T, T) -> bool): seq<seq<T>> {
    seq(|parts|, i requires 0 <= i < |parts| => NLargest(k, parts[i], less))
  }

  /** The `k` largest of everything are the `k` largest among the `k` largest of each part. */
  lemma {:induction false} TwoStages<T(!new)>(k: nat, parts: seq<seq<T>>, less: (T, T) -> bool)
    requires StrictTotal(less)
    ensures NLargest(k, Concat(LocalTops(k, parts, less)), less) == NLargest(k, Concat(parts), less)
  {
    if parts != [] {
      var last := |parts| - 1;
      var init, part := parts[..last], parts[last];
      TwoStages(k, init, less);
      assert LocalTops(k, parts, less)[..last] == LocalTops(k, init, less);
      var tops := Concat(LocalTops(k, init, less));
      var top := NLargest(k, part, less);
      var all := Concat(init);
      SortConcat(tops, top, less);
      SortConcat(all, part, less);
      TotalIsWeak(less);
      SortDescends(part, less);
      SortSorted(top, less);
      var a, b, s := Sort(tops, less), Sort(all, less), Sort(part, less);
      TakeMerge(k, k, k, a, top, less);
      TakeMerge(k, k, k, b, s, less);
      assert Take(k, top) == top;
    }
  }

  // ----- the elements of a set, in order -----

  predicate Distinct<T(==)>(s: seq<T>) {
    forall i, j :: 0 <= i < j < |s| ==> s[i] != s[j]
  }

  lemma {:induction false} InsertDistinct<T>(x: T, s: seq<T>, less: (T, T) -> bool)
    requires x !in s && Distinct(s)
    ensures Distinct(Insert(x, s, less))
    ensures forall y :: y in Insert(x, s, less) <==> y == x || y in s
  {
    if s != [] && !less(s[0], x) {
      InsertDistinct(x, s[1..], less);
      assert s == [s[0]] + s[1..];
      assert s[0] !in s[1..];
    }
  }

  method AnyOf<T(==)>(elements: set<T>) returns (x: T)
    requires elements != {}
    ensures x in elements
  {
    assert (forall y :: y !in elements) ==> elements == {};
    x :| x in elements;
  }

  /** `sorted(set(...))`, with `less` turned round for an ascending list. */
  method SortedSet<T(==, !new)>(elements: set<T>, less: (T, T) -> bool) returns (s: seq<T>)
    requires StrictWeak(less)
    ensures Descending(s, less) && Distinct(s) && forall x :: x in s <==> x in elements
  {
    s := [];
    var rest := elements;
    while rest != {}
      invariant rest <= elements && Descending(s, less) && Distinct(s)
      invariant forall x :: x in s <==> x in elements && x !in rest
      decreases |rest|
    {
      var x := AnyOf(rest);
      InsertDescending(x, s, less);
      InsertDistinct(x, s, less);
      s := Insert(x, s, less);
      rest := rest - {x};
    }
  }
}
