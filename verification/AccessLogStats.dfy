/** Per-interval and overall request counts of the access log report. */
module AccessLogStats {
  import opened Ranking
  import TopElapsed

  datatype Record = Record(bin: string, api: string, retcode: int)

  /** One line of the detail table, one of the summary. */
  datatype Row = Row(bin: string, api: string, count: nat, errors: nat)
  datatype Total = Total(count: nat, errors: nat)

  /** What is counted: requests, or only those with a non-zero return code. */
  datatype What = Requests | Errors

  function Weight(r: Record, what: What): nat {
    if what.Requests? || r.retcode != 0 then 1 else 0
  }

  function CountIn(records: seq<Record>, bin: string, api: string, what: What): nat {
    if records == [] then 0
    else
      var r := records[|records| - 1];
      CountIn(records[..|records| - 1], bin, api, what) + if r.bin == bin && r.api == api then Weight(r, what) else 0
  }

  function CountApi(records: seq<Record>, api: string, what: What): nat {
    if records == [] then 0
    else
      var r := records[|records| - 1];
      CountApi(records[..|records| - 1], api, what) + if r.api == api then Weight(r, what) else 0
  }

  // ----- over all bins -----

  function CountBins(records: seq<Record>, bins: seq<string>, api: string, what: What): nat {
    if bins == [] then 0
    else CountBins(records, bins[..|bins| - 1], api, what) + CountIn(records, bins[|bins| - 1], api, what)
  }

  lemma {:induction false} OneMoreRecord(records: seq<Record>, r: Record, bins: seq<string>, api: string, what: What)
    requires Distinct(bins)
    ensures CountBins(records + [r], bins, api, what) ==
            CountBins(records, bins, api, what) + if r.bin in bins && r.api == api then Weight(r, what) else 0
  {
    if bins != [] {
      var init, b := bins[..|bins| - 1], bins[|bins| - 1];
      OneMoreRecord(records, r, init, api, what);
      assert bins == init + [b] && b !in init;
      assert (records + [r])[..|records|] == records;
    }
  }

  lemma {:induction false} NoRecords(bins: seq<string>, api: string, what: What)
    ensures CountBins([], bins, api, what) == 0
  {
    if bins != [] {
      NoRecords(bins[..|bins| - 1], api, what);
    }
  }

  /** The bins share the records of an API out among themselves: none is lost, none counted twice. */
  lemma {:induction false} BinsPartition(records: seq<Record>, bins: seq<string>, api: string, what: What)
    requires Distinct(bins) && forall i :: 0 <= i < |records| ==> records[i].bin in bins
    ensures CountBins(records, bins, api, what) == CountApi(records, api, what)
  {
    if records == [] {
      NoRecords(bins, api, what);
    } else {
      var init, r := records[..|records| - 1], records[|records| - 1];
      BinsPartition(init, bins, api, what);
      OneMoreRecord(init, r, bins, api, what);
      assert records == init + [r];
    }
  }

  // ----- grouping -----

  function Items(records: seq<Record>, bin: string, api: string): seq<Record> {
    if records == [] then []
    else
      var r := records[|records| - 1];
      Items(records[..|records| - 1], bin, api) + if r.bin == bin && r.api == api then [r] else []
  }

  function ErrorsOf(items: seq<Record>): nat {
    if items == [] then 0
    else ErrorsOf(items[..|items| - 1]) + if items[|items| - 1].retcode != 0 then 1 else 0
  }

  lemma {:induction false} ItemsCount(records: seq<Record>, bin: string, api: string)
    ensures |Items(records, bin, api)| == CountIn(records, bin, api, Requests)
    ensures ErrorsOf(Items(records, bin, api)) == CountIn(records, bin, api, Errors)
  {
    if records != [] {
      var init, r := records[..|records| - 1], records[|records| - 1];
      ItemsCount(init, bin, api);
      if r.bin == bin && r.api == api {
        assert Items(records, bin, api)[..|Items(init, bin, api)|] == Items(init, bin, api);
      } else {
        assert Items(records, bin, api) == Items(init, bin, api);
      }
    }
  }

  type Groups = map<(string, string), seq<Record>>

  ghost predicate IsGrouping(groups: Groups, records: seq<Record>) {
    && (forall b, a :: (b, a) in groups <==> Items(records, b, a) != [])
    && (forall b, a :: (b, a) in groups ==> groups[(b, a)] == Items(records, b, a))
  }

  method GroupRecords(records: seq<Record>) returns (groups: Groups)
    ensures IsGrouping(groups, records)
  {
    groups := map[];
    for i := 0 to |records|
      invariant IsGrouping(groups, records[..i])
    {
      assert records[..i + 1][..i] == records[..i];
      var key := (records[i].bin, records[i].api);
      groups := groups[key := (if key in groups then groups[key] else []) + [records[i]]];
    }
    assert records[..|records|] == records;
  }

  method CountErrors(items: seq<Record>) returns (n: nat)
    ensures n == ErrorsOf(items)
  {
    n := 0;
    for i := 0 to |items|
      invariant n == ErrorsOf(items[..i])
    {
      assert items[..i + 1][..i] == items[..i];
      if items[i].retcode != 0 {
        n := n + 1;
      }
    }
    assert items[..|items|] == items;
  }

  // ----- the detail table -----

  function Get(row: Row, what: What): nat {
    if what.Requests? then row.count else row.errors
  }

  function SumRows(rows: seq<Row>, api: string, what: What): nat {
    if rows == [] then 0
    else SumRows(rows[..|rows| - 1], api, what) + if rows[|rows| - 1].api == api then Get(rows[|rows| - 1], what) else 0
  }

  lemma SumRowsSnoc(rows: seq<Row>, row: Row, api: string, what: What)
    ensures SumRows(rows + [row], api, what) == SumRows(rows, api, what) + if row.api == api then Get(row, what) else 0
  {
    assert (rows + [row])[..|rows|] == rows;
  }

  predicate LexGreater(a: string, b: string) {
    TopElapsed.LexLess(b, a)
  }

  lemma LexGreaterWeak()
    ensures StrictWeak(LexGreater)
  {
    forall a: string, b: string ensures !(LexGreater(a, b) && LexGreater(b, a)) {
      TopElapsed.LexTrichotomy(a, b);
    }
    forall a: string, b: string, c: string | !LexGreater(a, b) && !LexGreater(b, c) ensures !LexGreater(a, c) {
      TopElapsed.LexTrichotomy(a, b);
      TopElapsed.LexTrichotomy(b, c);
      TopElapsed.LexTrichotomy(a, c);
      if LexGreater(a, c) && a != b && b != c {
        TopElapsed.LexTransitive(c, a, b);
      }
    }
  }

  /** A row counts the records of its bin and API, and there are some. */
  ghost predicate TrueRow(row: Row, records: seq<Record>) {
    && row.count == CountIn(records, row.bin, row.api, Requests) > 0
    && row.errors == CountIn(records, row.bin, row.api, Errors)
  }

  /** The rows cover the first `i` bins completely, and of the next one the first `j` APIs. */
  ghost predicate RowsCover(rows: seq<Row>, records: seq<Record>, bins: seq<string>, apis: seq<string>, i: nat, j: nat)
    requires i <= |bins| && j <= |apis| && (j > 0 ==> i < |bins|)
  {
    forall api, what :: api in apis ==>
      SumRows(rows, api, what) ==
      CountBins(records, bins[..i], api, what) + if api in apis[..j] then CountIn(records, bins[i], api, what) else 0
  }

  /** The row of one bin and one API is added, or there is none because it has no records. */
  lemma RowAdded(rows: seq<Row>, records: seq<Record>, bins: seq<string>, apis: seq<string>, i: nat, j: nat, more: seq<Row>)
    requires i < |bins| && j < |apis| && Distinct(apis) && RowsCover(rows, records, bins, apis, i, j)
    requires if CountIn(records, bins[i], apis[j], Requests) == 0 && CountIn(records, bins[i], apis[j], Errors) == 0
             then more == rows
             else more == rows + [Row(bins[i], apis[j], CountIn(records, bins[i], apis[j], Requests),
                                      CountIn(records, bins[i], apis[j], Errors))]
    ensures RowsCover(more, records, bins, apis, i, j + 1)
  {
    assert apis[..j + 1] == apis[..j] + [apis[j]] && apis[j] !in apis[..j];
    forall api, what | api in apis
      ensures SumRows(more, api, what) ==
              CountBins(records, bins[..i], api, what) + if api in apis[..j + 1] then CountIn(records, bins[i], api, what) else 0
    {
      if more != rows {
        SumRowsSnoc(rows, more[|rows|], api, what);
      }
      if api == apis[j] {
        assert what == Requests || what == Errors;
      }
    }
  }

  lemma BinDone(rows: seq<Row>, records: seq<Record>, bins: seq<string>, apis: seq<string>, i: nat)
    requires i < |bins| && RowsCover(rows, records, bins, apis, i, |apis|)
    ensures RowsCover(rows, records, bins, apis, i + 1, 0)
  {
    assert apis[..|apis|] == apis && bins[..i + 1][..i] == bins[..i];
  }

  // ----- the order of the rows -----

  /** A row comes before another: an earlier bin, or the same bin and an earlier API. */
  ghost predicate Before(a: Row, b: Row) {
    TopElapsed.LexLess(a.bin, b.bin) || (a.bin == b.bin && TopElapsed.LexLess(a.api, b.api))
  }

  ghost predicate InOrder(rows: seq<Row>) {
    forall k, l :: 0 <= k < l < |rows| ==> Before(rows[k], rows[l])
  }

  ghost predicate HasRow(rows: seq<Row>, bin: string, api: string) {
    exists k :: 0 <= k < |rows| && rows[k].bin == bin && rows[k].api == api
  }

  /** Listed in order, each once. */
  ghost predicate Sorted(names: seq<string>) {
    forall i, j :: 0 <= i < j < |names| ==> TopElapsed.LexLess(names[i], names[j])
  }

  lemma SortedNames(names: seq<string>)
    requires Distinct(names) && Descending(names, LexGreater)
    ensures Sorted(names)
  {
    forall i, j | 0 <= i < j < |names| ensures TopElapsed.LexLess(names[i], names[j]) {
      TopElapsed.LexTrichotomy(names[i], names[j]);
      assert !LexGreater(names[i], names[j]);
    }
  }

  /** Every row is of one of the first `i` bins, or of bin `i` and one of its first `j` APIs. */
  ghost predicate UpTo(rows: seq<Row>, bins: seq<string>, apis: seq<string>, i: nat, j: nat)
    requires i <= |bins| && j <= |apis| && (j > 0 ==> i < |bins|)
  {
    forall k :: 0 <= k < |rows| ==>
      rows[k].bin in bins[..i] || (j > 0 && rows[k].bin == bins[i] && rows[k].api in apis[..j])
  }

  /** And there is a row for each of those with records. */
  ghost predicate Lists(rows: seq<Row>, records: seq<Record>, bins: seq<string>, apis: seq<string>, i: nat, j: nat)
    requires i <= |bins| && j <= |apis| && (j > 0 ==> i < |bins|)
  {
    && (forall bin, api :: bin in bins[..i] && api in apis && CountIn(records, bin, api, Requests) > 0 ==> HasRow(rows, bin, api))
    && (forall api :: j > 0 && api in apis[..j] && CountIn(records, bins[i], api, Requests) > 0 ==> HasRow(rows, bins[i], api))
  }

  /** The table so far: true rows, in order, each once, none missing. */
  ghost predicate TableSoFar(rows: seq<Row>, records: seq<Record>, bins: seq<string>, apis: seq<string>, i: nat, j: nat)
    requires i <= |bins| && j <= |apis| && (j > 0 ==> i < |bins|)
  {
    && (forall k :: 0 <= k < |rows| ==> TrueRow(rows[k], records))
    && InOrder(rows) && UpTo(rows, bins, apis, i, j) && Lists(rows, records, bins, apis, i, j)
  }

  /** A row of bin `i` and API `j` comes after all that are there. */
  lemma ComesLast(row: Row, next: Row, bins: seq<string>, apis: seq<string>, i: nat, j: nat)
    requires i < |bins| && j < |apis| && Sorted(bins) && Sorted(apis) && next.bin == bins[i] && next.api == apis[j]
    requires row.bin in bins[..i] || (j > 0 && row.bin == bins[i] && row.api in apis[..j])
    ensures Before(row, next)
  {
  }

  lemma TableGrows(rows: seq<Row>, next: Row, records: seq<Record>, bins: seq<string>, apis: seq<string>, i: nat, j: nat)
    requires i < |bins| && j < |apis| && Sorted(bins) && Sorted(apis) && TableSoFar(rows, records, bins, apis, i, j)
    requires next.bin == bins[i] && next.api == apis[j] && TrueRow(next, records)
    ensures TableSoFar(rows + [next], records, bins, apis, i, j + 1)
  {
    hide TrueRow, Before, Sorted;
    var more := rows + [next];
    assert apis[..j + 1] == apis[..j] + [apis[j]];
    forall k | 0 <= k < |rows| ensures Before(rows[k], next) {
      ComesLast(rows[k], next, bins, apis, i, j);
    }
    forall bin, api | HasRow(rows, bin, api) ensures HasRow(more, bin, api) {
      var k :| 0 <= k < |rows| && rows[k].bin == bin && rows[k].api == api;
      assert more[k] == rows[k];
    }
    assert more[|rows|] == next;
    assert HasRow(more, bins[i], apis[j]);
  }

  lemma TableSkips(rows: seq<Row>, records: seq<Record>, bins: seq<string>, apis: seq<string>, i: nat, j: nat)
    requires i < |bins| && j < |apis| && TableSoFar(rows, records, bins, apis, i, j)
    requires CountIn(records, bins[i], apis[j], Requests) == 0
    ensures TableSoFar(rows, records, bins, apis, i, j + 1)
  {
    hide TrueRow, Before, HasRow;
    assert apis[..j + 1] == apis[..j] + [apis[j]];
  }

  lemma TableTurns(rows: seq<Row>, records: seq<Record>, bins: seq<string>, apis: seq<string>, i: nat)
    requires i < |bins| && TableSoFar(rows, records, bins, apis, i, |apis|)
    ensures TableSoFar(rows, records, bins, apis, i + 1, 0)
  {
    hide TrueRow, Before, HasRow;
    assert apis[..|apis|] == apis && bins[..i + 1] == bins[..i] + [bins[i]];
  }

  /** All rows of one bin. */
  method BinRows(groups: Groups, bins: seq<string>, apis: seq<string>, i: nat, rows0: seq<Row>, ghost records: seq<Record>)
    returns (rows: seq<Row>)
    requires i < |bins| && Sorted(bins) && Sorted(apis) && Distinct(apis) && IsGrouping(groups, records)
    requires RowsCover(rows0, records, bins, apis, i, 0) && TableSoFar(rows0, records, bins, apis, i, 0)
    ensures RowsCover(rows, records, bins, apis, i + 1, 0) && TableSoFar(rows, records, bins, apis, i + 1, 0)
    ensures rows0 <= rows && forall k :: |rows0| <= k < |rows| ==> rows[k].bin == bins[i]
  {
    hide RowsCover, TableSoFar, Sorted, Distinct;
    rows := rows0;
    for j := 0 to |apis|
      invariant RowsCover(rows, records, bins, apis, i, j) && TableSoFar(rows, records, bins, apis, i, j)
      invariant rows0 <= rows && forall k :: |rows0| <= k < |rows| ==> rows[k].bin == bins[i]
    {
      ItemsCount(records, bins[i], apis[j]);
      ghost var before := rows;
      var key := (bins[i], apis[j]);
      var items := if key in groups then groups[key] else [];
      if items != [] {
        var errors := CountErrors(items);
        var row := Row(bins[i], apis[j], |items|, errors);
        TableGrows(rows, row, records, bins, apis, i, j);
        rows := rows + [row];
      } else {
        TableSkips(rows, records, bins, apis, i, j);
      }
      RowAdded(before, records, bins, apis, i, j, rows);
    }
    BinDone(rows, records, bins, apis, i);
    TableTurns(rows, records, bins, apis, i);
  }

  /** `compute_stats`, as far as its table counts: a true row for every bin and API that occur
      together, each once, in order, and no other row. */
  method ComputeStats(records: seq<Record>) returns (bins: seq<string>, apis: seq<string>, rows: seq<Row>)
    ensures Sorted(bins) && forall bin :: bin in bins <==> exists r :: r in records && r.bin == bin
    ensures Sorted(apis) && forall api :: api in apis <==> exists r :: r in records && r.api == api
    ensures forall k :: 0 <= k < |rows| ==> TrueRow(rows[k], records)
    ensures InOrder(rows) && forall r :: r in records ==> HasRow(rows, r.bin, r.api)
    ensures forall api, what :: api in apis ==> SumRows(rows, api, what) == CountApi(records, api, what)
  {
    hide RowsCover, Sorted, InOrder, HasRow, TrueRow, SumRows, CountApi;
    var groups := GroupRecords(records);
    LexGreaterWeak();
    bins := SortedSet(set r | r in records :: r.bin, LexGreater);
    apis := SortedSet(set r | r in records :: r.api, LexGreater);
    SortedNames(bins);
    SortedNames(apis);
    rows := [];
    Nothing(records, bins, apis);
    for i := 0 to |bins|
      invariant RowsCover(rows, records, bins, apis, i, 0) && TableSoFar(rows, records, bins, apis, i, 0)
    {
      rows := BinRows(groups, bins, apis, i, rows, records);
    }
    assert bins[..|bins|] == bins;
    forall api, what | api in apis ensures SumRows(rows, api, what) == CountApi(records, api, what) {
      AllCovered(rows, records, bins, apis, api, what);
    }
    forall r | r in records ensures HasRow(rows, r.bin, r.api) {
      CountInPositive(records, r);
    }
  }

  lemma Nothing(records: seq<Record>, bins: seq<string>, apis: seq<string>)
    ensures RowsCover([], records, bins, apis, 0, 0) && TableSoFar([], records, bins, apis, 0, 0)
  {
    assert bins[..0] == [];
  }

  lemma AllCovered(rows: seq<Row>, records: seq<Record>, bins: seq<string>, apis: seq<string>, api: string, what: What)
    requires RowsCover(rows, records, bins, apis, |bins|, 0) && Distinct(bins) && api in apis
    requires forall r :: r in records ==> r.bin in bins
    ensures SumRows(rows, api, what) == CountApi(records, api, what)
  {
    assert bins[..|bins|] == bins;
    assert forall i :: 0 <= i < |records| ==> records[i] in records;
    BinsPartition(records, bins, api, what);
  }

  lemma {:induction false} CountInPositive(records: seq<Record>, r: Record)
    requires r in records
    ensures CountIn(records, r.bin, r.api, Requests) > 0
  {
    var init, last := records[..|records| - 1], records[|records| - 1];
    assert records == init + [last];
    if r in init {
      CountInPositive(init, r);
    }
  }

  // ----- the summary -----

  /** `compute_overall`, as far as its counts go. */
  method ComputeOverall(records: seq<Record>) returns (totals: map<string, Total>)
    ensures forall api :: api in totals <==> exists r :: r in records && r.api == api
    ensures forall api :: api in totals ==>
              totals[api] == Total(CountApi(records, api, Requests), CountApi(records, api, Errors))
  {
    totals := map[];
    for i := 0 to |records|
      invariant forall api :: api in totals <==> CountApi(records[..i], api, Requests) > 0
      invariant forall api :: api in totals ==>
                  totals[api] == Total(CountApi(records[..i], api, Requests), CountApi(records[..i], api, Errors))
      invariant forall api :: api !in totals ==> CountApi(records[..i], api, Errors) == 0
    {
      assert records[..i + 1][..i] == records[..i];
      var r := records[i];
      var t := if r.api in totals then totals[r.api] else Total(0, 0);
      totals := totals[r.api := Total(t.count + 1, t.errors + if r.retcode != 0 then 1 else 0)];
    }
    assert records[..|records|] == records;
    forall api ensures CountApi(records, api, Requests) > 0 <==> exists r :: r in records && r.api == api {
      CountPositive(records, api);
    }
  }

  lemma {:induction false} CountPositive(records: seq<Record>, api: string)
    ensures CountApi(records, api, Requests) > 0 <==> exists r :: r in records && r.api == api
  {
    if records != [] {
      var init, r := records[..|records| - 1], records[|records| - 1];
      CountPositive(init, api);
      assert records == init + [r];
    }
  }

  /** Per API, the rows of the detail table add up to the line of the summary. */
  method TablesAgree(records: seq<Record>, api: string) returns (detail: Total, summary: Total)
    requires exists r :: r in records && r.api == api
    ensures detail == summary == Total(CountApi(records, api, Requests), CountApi(records, api, Errors))
  {
    var bins, apis, rows := ComputeStats(records);
    var totals := ComputeOverall(records);
    detail := Total(SumRows(rows, api, Requests), SumRows(rows, api, Errors));
    summary := totals[api];
  }
}
