/** Decoding a worker's resource log record: disabled metric groups are absent from the line, and
    the layout is recognised from the number of sub-fields in each column alone. */
module ResourceLayout {
  import opened Ranking
  import opened Text

  datatype Group =
    | SharedMemory | SpillHardDisk | ActiveClientCount | ObjectCount | ObjectSize
    | EtcdSuccessRate | ObsSuccessRate | MasterAsyncTasks
    | StreamCount | StreamRemoteSendRate | ScLocalCache
    | OcHitNum | BrpcStreamLeakCount | DeferredCleanupQueue | SpillIoStats | ObjectCopyWatermark

  /** Which optional groups a worker reports. */
  datatype Enabled = Enabled(spill: bool, etcd: bool, obs: bool, stream: bool, watermark: bool)

  type Column = (Group, nat)

  function FirstColumns(e: Enabled): seq<Column> {
    [(SharedMemory, 6)]
    + (if e.spill then [(SpillHardDisk, 4)] else [])
    + [(ActiveClientCount, 1), (ObjectCount, 1), (ObjectSize, 1)]
    + (if e.etcd then [(EtcdSuccessRate, 1)] else [])
    + (if e.obs then [(ObsSuccessRate, 1)] else [])
    + [(MasterAsyncTasks, 5)]
  }

  function LastColumns(e: Enabled): seq<Column> {
    (if e.stream then [(StreamCount, 1), (StreamRemoteSendRate, 1), (ScLocalCache, 4)] else [])
    + [(OcHitNum, 5), (BrpcStreamLeakCount, 1), (DeferredCleanupQueue, 1)]
    + (if e.spill then [(SpillIoStats, 14)] else [])
    + (if e.watermark then [(ObjectCopyWatermark, 11)] else [])
  }

  /** The metric groups of a record, in order, with their number of sub-fields. */
  function Columns(e: Enabled): seq<Column> {
    FirstColumns(e) + LastColumns(e)
  }

  function Widths(e: Enabled): seq<nat> {
    var c := Columns(e);
    seq(|c|, i requires 0 <= i < |c| => c[i].1)
  }

  function Names(e: Enabled): seq<Group> {
    var c := Columns(e);
    seq(|c|, i requires 0 <= i < |c| => c[i].0)
  }

  /** The one pair of settings that look alike: OBS without ETCD shows like ETCD without OBS. */
  predicate ObsOnly(e: Enabled) {
    e.obs && !e.etcd
  }

  function Canonical(e: Enabled): Enabled {
    if ObsOnly(e) then e.(etcd := true, obs := false) else e
  }

  // ----- what the widths tell -----

  function Bit(b: bool): nat { if b then 1 else 0 }

  /** Where the widths give each setting away. */
  lemma WidthsShape(e: Enabled)
    ensures var w := Widths(e); var p := 4 + Bit(e.spill) + Bit(e.etcd) + Bit(e.obs);
            && |w| == 8 + 2 * Bit(e.spill) + Bit(e.etcd) + Bit(e.obs) + 3 * Bit(e.stream) + Bit(e.watermark)
            && (w[1] == 4 <==> e.spill)
            && w[p] == 5
            && (forall i :: 4 <= i < p ==> w[i] == 1)
            && (w[p + 1] == 1 <==> e.stream)
            && (w[|w| - 1] == 11 <==> e.watermark)
  {
  }

  /** Two settings have the same widths exactly when they have the same canonical form. */
  lemma WidthsIdentify(a: Enabled, b: Enabled)
    ensures Widths(a) == Widths(b) <==> Canonical(a) == Canonical(b)
  {
    WidthsShape(a);
    WidthsShape(b);
    if Widths(a) == Widths(b) {
      var p := 4 + Bit(a.spill) + Bit(a.etcd) + Bit(a.obs);
      var q := 4 + Bit(b.spill) + Bit(b.etcd) + Bit(b.obs);
      assert p == q;
    }
    if Canonical(a) == Canonical(b) && a != b {
      SameShape(a);
      SameShape(b);
    }
  }

  lemma SameShape(e: Enabled)
    ensures Widths(Canonical(e)) == Widths(e)
  {
  }

  // ----- the table of layouts -----

  /** The settings in the order `itertools.product` lists them: the last one changes fastest. */
  function Setting(n: nat): Enabled {
    Enabled(n / 16 % 2 == 1, n / 8 % 2 == 1, n / 4 % 2 == 1, n / 2 % 2 == 1, n % 2 == 1)
  }

  function Index(e: Enabled): (n: nat)
    ensures n < 32 && Setting(n) == e
  {
    16 * Bit(e.spill) + 8 * Bit(e.etcd) + 4 * Bit(e.obs) + 2 * Bit(e.stream) + Bit(e.watermark)
  }

  /** Whatever the widths of an enabled set of groups, the table lists its canonical names; and it
      lists nothing else. */
  ghost predicate IsLayoutTable(table: map<seq<nat>, seq<Group>>) {
    && (forall e: Enabled :: Widths(e) in table && table[Widths(e)] == Names(Canonical(e)))
    && (forall w :: w in table ==> exists e: Enabled :: Widths(e) == w)
  }

  function Settings(): seq<Enabled> {
    seq(32, n requires 0 <= n < 32 => Setting(n))
  }

  /** The last of the first `n` settings that has the given widths. */
  function LastWith(settings: seq<Enabled>, n: nat, widths: Enabled -> seq<nat>, w: seq<nat>): Option<Enabled>
    requires n <= |settings|
  {
    if n == 0 then None
    else if widths(settings[n - 1]) == w then Some(settings[n - 1])
    else LastWith(settings, n - 1, widths, w)
  }

  /** The loop of the source: of two settings with the same widths the later one wins. */
  method FillTable(settings: seq<Enabled>, widths: Enabled -> seq<nat>, names: Enabled -> seq<Group>)
    returns (table: map<seq<nat>, seq<Group>>)
    ensures forall w :: w in table <==> LastWith(settings, |settings|, widths, w).Some?
    ensures forall w :: w in table ==> table[w] == names(LastWith(settings, |settings|, widths, w).value)
  {
    table := map[];
    for n := 0 to |settings|
      invariant forall w :: w in table <==> LastWith(settings, n, widths, w).Some?
      invariant forall w :: w in table ==> table[w] == names(LastWith(settings, n, widths, w).value)
    {
      table := table[widths(settings[n]) := names(settings[n])];
    }
  }

  lemma SettingIndex(n: nat)
    requires n < 32
    ensures Index(Setting(n)) == n
  {
    hide Bit;
    BitOf(n);
    BitOf(n / 2);
    BitOf(n / 4);
    BitOf(n / 8);
    BitOf(n / 16);
    BinaryDigits(n);
  }

  lemma BinaryDigits(n: nat)
    requires n < 32
    ensures 16 * (n / 16 % 2) + 8 * (n / 8 % 2) + 4 * (n / 4 % 2) + 2 * (n / 2 % 2) + n % 2 == n
  {
    Halves(n / 8);
    Halves(n / 4);
    Halves(n / 2);
    Halves(n);
    assert n / 8 / 2 == n / 16 && n / 4 / 2 == n / 8 && n / 2 / 2 == n / 4;
  }

  lemma Halves(n: nat)
    ensures n == 2 * (n / 2) + n % 2
  {
  }

  lemma BitOf(n: nat)
    ensures Bit(n % 2 == 1) == n % 2
  {
  }

  /** Of the settings that look alike, the canonical one is listed last. */
  lemma CanonicalIsLast(e: Enabled, j: nat)
    requires Index(Canonical(e)) < j < 32
    ensures Canonical(Setting(j)) != Canonical(e)
  {
    SettingIndex(j);
  }

  lemma CanonicalTwice(e: Enabled)
    ensures Canonical(Canonical(e)) == Canonical(e)
  {
  }

  lemma {:induction false} LastIsCanonical(e: Enabled, n: nat)
    requires Index(Canonical(e)) < n <= 32
    ensures LastWith(Settings(), n, Widths, Widths(e)) == Some(Canonical(e))
  {
    hide Widths, Canonical, Setting, Index;
    WidthsIdentify(Setting(n - 1), e);
    CanonicalTwice(e);
    if n - 1 > Index(Canonical(e)) {
      CanonicalIsLast(e, n - 1);
      LastIsCanonical(e, n - 1);
    }
  }

  lemma {:induction false} LastHasWidths(settings: seq<Enabled>, n: nat, widths: Enabled -> seq<nat>, w: seq<nat>)
    requires n <= |settings| && LastWith(settings, n, widths, w).Some?
    ensures widths(LastWith(settings, n, widths, w).value) == w
  {
    if widths(settings[n - 1]) != w {
      LastHasWidths(settings, n - 1, widths, w);
    }
  }

  method BuildResourceLayouts() returns (table: map<seq<nat>, seq<Group>>)
    ensures IsLayoutTable(table)
  {
    table := FillTable(Settings(), Widths, Names);
    forall e: Enabled ensures LastWith(Settings(), 32, Widths, Widths(e)) == Some(Canonical(e)) {
      LastIsCanonical(e, 32);
    }
    forall w | w in table ensures exists e: Enabled :: Widths(e) == w {
      LastHasWidths(Settings(), 32, Widths, w);
    }
  }

  // ----- decoding one record -----

  const PREFIX_FIELDS: nat := 7

  predicate IsLegacyCount(n: nat) {
    n == 20 || n == 21 || n == 24 || n == 25
  }

  const LEGACY_COLUMNS: seq<(nat, Group)> := [
    (7, SharedMemory), (8, SpillHardDisk), (9, ActiveClientCount), (10, ObjectCount), (11, ObjectSize),
    (16, EtcdSuccessRate), (17, ObsSuccessRate), (18, MasterAsyncTasks), (19, StreamCount),
    (25, ScLocalCache), (26, OcHitNum)]

  function LegacyIndex(column: nat, count: nat): nat {
    column + if column >= 16 && (count == 21 || count == 25) then 1 else 0
  }

  /** The metric columns of a record; a closing separator leaves an empty one behind. */
  function MetricValues(parts: seq<string>): seq<string> {
    var values := if |parts| <= PREFIX_FIELDS then [] else parts[PREFIX_FIELDS..];
    if values != [] && values[|values| - 1] == "" then values[..|values| - 1] else values
  }

  /** Fixed-position columns never run past the end of a record, for any of the legacy counts. */
  lemma LegacyInBounds(parts: seq<string>, i: nat)
    requires IsLegacyCount(|MetricValues(parts)|) && i < |LEGACY_COLUMNS|
    ensures LegacyIndex(LEGACY_COLUMNS[i].0, |MetricValues(parts)|) < |parts|
    ensures PREFIX_FIELDS <= LEGACY_COLUMNS[i].0
  {
  }

  function LegacyGroups(parts: seq<string>, n: nat): map<Group, string>
    requires IsLegacyCount(|MetricValues(parts)|) && n <= |LEGACY_COLUMNS|
  {
    if n == 0 then map[] else
      LegacyInBounds(parts, n - 1);
      LegacyGroups(parts, n - 1)[
        LEGACY_COLUMNS[n - 1].1 := parts[LegacyIndex(LEGACY_COLUMNS[n - 1].0, |MetricValues(parts)|)]]
  }

  lemma LegacyGroupsDiffer(i: nat, j: nat)
    requires i < j < |LEGACY_COLUMNS|
    ensures LEGACY_COLUMNS[i].1 != LEGACY_COLUMNS[j].1
  {
  }

  lemma {:induction false} LegacyAt(parts: seq<string>, n: nat, i: nat)
    requires IsLegacyCount(|MetricValues(parts)|) && i < n <= |LEGACY_COLUMNS|
    ensures var at := LegacyIndex(LEGACY_COLUMNS[i].0, |MetricValues(parts)|);
            at < |parts| && LEGACY_COLUMNS[i].1 in LegacyGroups(parts, n) && LegacyGroups(parts, n)[LEGACY_COLUMNS[i].1] == parts[at]
  {
    hide MetricValues, LegacyIndex;
    LegacyInBounds(parts, i);
    if i < n - 1 {
      LegacyAt(parts, n - 1, i);
      LegacyGroupsDiffer(i, n - 1);
    }
  }

  /** What a legacy record holds, column by column; the later ones move up by one where the queue has a
      column, too. */
  lemma LegacyColumnsByName(parts: seq<string>)
    requires IsLegacyCount(|MetricValues(parts)|)
    ensures var q, g := if |MetricValues(parts)| in {21, 25} then 1 else 0, LegacyGroups(parts, 11);
            && 26 + q < |parts| && g.Keys >= LEGACY_GROUPS
            && g[SharedMemory] == parts[7] && g[SpillHardDisk] == parts[8] && g[ActiveClientCount] == parts[9]
            && g[ObjectCount] == parts[10] && g[ObjectSize] == parts[11] && g[EtcdSuccessRate] == parts[16 + q]
            && g[ObsSuccessRate] == parts[17 + q] && g[MasterAsyncTasks] == parts[18 + q] && g[StreamCount] == parts[19 + q]
            && g[ScLocalCache] == parts[25 + q] && g[OcHitNum] == parts[26 + q]
  {
    hide MetricValues, LegacyGroups;
    LegacyAt(parts, 11, 0);
    LegacyAt(parts, 11, 1);
    LegacyAt(parts, 11, 2);
    LegacyAt(parts, 11, 3);
    LegacyAt(parts, 11, 4);
    LegacyAt(parts, 11, 5);
    LegacyAt(parts, 11, 6);
    LegacyAt(parts, 11, 7);
    LegacyAt(parts, 11, 8);
    LegacyAt(parts, 11, 9);
    LegacyAt(parts, 11, 10);
  }

  const LEGACY_GROUPS: set<Group> :=
    {SharedMemory, SpillHardDisk, ActiveClientCount, ObjectCount, ObjectSize, EtcdSuccessRate, ObsSuccessRate, MasterAsyncTasks,
     StreamCount, ScLocalCache, OcHitNum}

  /** A record with one more column in the place of the queue's. */
  function WithQueueColumn(parts: seq<string>, queue: string): seq<string>
    requires |parts| >= 16
  {
    parts[..16] + [queue] + parts[16..]
  }

  lemma QueueColumnCounts(parts: seq<string>, queue: string)
    requires |MetricValues(parts)| == 20 || |MetricValues(parts)| == 24
    ensures |parts| >= 16 && |MetricValues(WithQueueColumn(parts, queue))| == |MetricValues(parts)| + 1
  {
    var wider := WithQueueColumn(parts, queue);
    assert wider[|wider| - 1] == parts[|parts| - 1];
  }

  /** The two wider legacy formats differ from the two narrower ones by that column only: it changes
      nothing in what is decoded. */
  lemma {:induction false} QueueColumnIgnored(parts: seq<string>, queue: string, n: nat)
    requires (|MetricValues(parts)| == 20 || |MetricValues(parts)| == 24) && n <= |LEGACY_COLUMNS|
    ensures |parts| >= 16 && IsLegacyCount(|MetricValues(WithQueueColumn(parts, queue))|)
    ensures LegacyGroups(WithQueueColumn(parts, queue), n) == LegacyGroups(parts, n)
  {
    hide MetricValues, WithQueueColumn;
    QueueColumnCounts(parts, queue);
    if n > 0 {
      QueueColumnIgnored(parts, queue, n - 1);
      LegacyInBounds(parts, n - 1);
      ShiftedColumn(parts, queue, LEGACY_COLUMNS[n - 1].0);
    }
  }

  lemma ShiftedColumn(parts: seq<string>, queue: string, column: nat)
    requires |parts| >= 16 && column < |parts|
    ensures var wider, at := WithQueueColumn(parts, queue), if column >= 16 then column + 1 else column;
            at < |wider| && wider[at] == parts[column]
  {
  }

  function FieldCounts(values: seq<string>): seq<nat> {
    seq(|values|, i requires 0 <= i < |values| => |Split(values[i], '/')|)
  }

  /** `dict(zip(names, values))`. */
  function Zip(names: seq<Group>, values: seq<string>): map<Group, string>
    requires |names| == |values|
  {
    if names == [] then map[]
    else Zip(names[..|names| - 1], values[..|values| - 1])[names[|names| - 1] := values[|values| - 1]]
  }

  /** `finite` says of a text that it is a finite number; only compound columns are checked. */
  predicate Numeric(values: seq<string>, finite: string -> bool) {
    forall i :: 0 <= i < |values| ==>
      var fields := Split(values[i], '/');
      |fields| > 1 ==> forall j :: 0 <= j < |fields| ==> finite(fields[j])
  }

  function ParseMetricGroups(parts: seq<string>, table: map<seq<nat>, seq<Group>>, finite: string -> bool)
    : map<Group, string>
    requires forall w :: w in table ==> |table[w]| == |w|
  {
    var values := MetricValues(parts);
    if IsLegacyCount(|values|) then LegacyGroups(parts, |LEGACY_COLUMNS|)
    else
      var widths := FieldCounts(values);
      if widths !in table || !Numeric(values, finite) then map[] else Zip(table[widths], values)
  }

  // ----- rendering, and back -----

  /** The columns a worker writes: each group's numbers joined by slashes. */
  function Render(fields: seq<seq<string>>): seq<string> {
    seq(|fields|, i requires 0 <= i < |fields| => Join(fields[i], '/'))
  }

  /** One text per sub-field, as many as the widths ask for. */
  predicate Shaped(fields: seq<seq<string>>, widths: seq<nat>) {
    && |fields| == |widths|
    && (forall i :: 0 <= i < |fields| ==> |fields[i]| == widths[i] > 0)
    && (forall i, j :: 0 <= i < |fields| && 0 <= j < |fields[i]| ==> fields[i][j] != "" && '/' !in fields[i][j])
  }

  /** Some column of several sub-fields has one that is no finite number. */
  ghost predicate Garbled(fields: seq<seq<string>>, finite: string -> bool) {
    exists i, j :: 0 <= i < |fields| && |fields[i]| > 1 && 0 <= j < |fields[i]| && !finite(fields[i][j])
  }

  /** Of the right shape, and a finite number wherever that is checked. */
  ghost predicate Fits(fields: seq<seq<string>>, widths: seq<nat>, finite: string -> bool) {
    Shaped(fields, widths) && !Garbled(fields, finite)
  }

  /** A whole record; `closing` when the line ends with a separator. */
  function Record(prefix: seq<string>, fields: seq<seq<string>>, closing: bool): seq<string> {
    prefix + Render(fields) + if closing then [""] else []
  }

  lemma RenderedColumn(fields: seq<string>)
    requires fields != [] && forall j :: 0 <= j < |fields| ==> fields[j] != "" && '/' !in fields[j]
    ensures Join(fields, '/') != "" && Split(Join(fields, '/'), '/') == fields
  {
    SplitJoin(fields, '/');
  }

  /** Whatever the widths, a rendered record yields its columns and their widths, and passes the number
      check unless a column of several is garbled. */
  lemma RecordColumns(prefix: seq<string>, fields: seq<seq<string>>, closing: bool, widths: seq<nat>, finite: string -> bool)
    requires |prefix| == PREFIX_FIELDS && fields != [] && Shaped(fields, widths)
    ensures MetricValues(Record(prefix, fields, closing)) == Render(fields)
    ensures FieldCounts(Render(fields)) == widths
    ensures Numeric(Render(fields), finite) <==> !Garbled(fields, finite)
  {
    hide Split, Join, Render;
    RenderedColumns(fields, widths);
    ColumnsAfterPrefix(prefix, Render(fields), closing);
    NumericIs(fields, Render(fields), finite);
  }

  lemma NumericIs(fields: seq<seq<string>>, texts: seq<string>, finite: string -> bool)
    requires |texts| == |fields| && forall i :: 0 <= i < |fields| ==> Split(texts[i], '/') == fields[i]
    ensures Numeric(texts, finite) <==> !Garbled(fields, finite)
  {
    hide Split;
    if i, j :| 0 <= i < |fields| && |fields[i]| > 1 && 0 <= j < |fields[i]| && !finite(fields[i][j]) {
      assert Split(texts[i], '/')[j] == fields[i][j];
    }
  }

  lemma ColumnsAfterPrefix(prefix: seq<string>, texts: seq<string>, closing: bool)
    requires |prefix| == PREFIX_FIELDS && texts != [] && texts[|texts| - 1] != ""
    ensures MetricValues(prefix + texts + if closing then [""] else []) == texts
  {
    var end := if closing then [""] else [];
    assert (prefix + texts + end)[PREFIX_FIELDS..] == texts + end;
  }

  lemma RenderedColumns(fields: seq<seq<string>>, widths: seq<nat>)
    requires fields != [] && Shaped(fields, widths)
    ensures |Render(fields)| == |fields|
    ensures forall i :: 0 <= i < |fields| ==> Render(fields)[i] != "" && Split(Render(fields)[i], '/') == fields[i]
  {
    hide Split, Join;
    forall i | 0 <= i < |fields| ensures Render(fields)[i] != "" && Split(Render(fields)[i], '/') == fields[i] {
      RenderedColumn(fields[i]);
    }
  }

  lemma FirstSizes(e: Enabled)
    ensures 5 <= |FirstColumns(e)| <= 8 && forall i :: 0 <= i < |FirstColumns(e)| ==> FirstColumns(e)[i].1 > 0
  {
  }

  lemma LastSizes(e: Enabled)
    ensures 3 <= |LastColumns(e)| <= 8 && forall i :: 0 <= i < |LastColumns(e)| ==> LastColumns(e)[i].1 > 0
  {
  }

  lemma ModernSizes(e: Enabled)
    ensures 8 <= |Widths(e)| == |Names(e)| <= 16
    ensures forall i :: 0 <= i < |Widths(e)| ==> Widths(e)[i] > 0
  {
    hide FirstColumns, LastColumns;
    FirstSizes(e);
    LastSizes(e);
  }

  lemma TableSizes(table: map<seq<nat>, seq<Group>>)
    requires IsLayoutTable(table)
    ensures forall w :: w in table ==> |table[w]| == |w|
  {
    forall w | w in table ensures |table[w]| == |w| {
      var e: Enabled :| Widths(e) == w;
      ModernSizes(e);
      ModernSizes(Canonical(e));
      SameShape(e);
    }
  }

  /** Decoding a rendered record gives back every column under the canonical names; a record of
      the current format is never taken for a legacy one. */
  lemma DecodesRendered(e: Enabled, prefix: seq<string>, fields: seq<seq<string>>, closing: bool,
                        table: map<seq<nat>, seq<Group>>, finite: string -> bool)
    requires |prefix| == PREFIX_FIELDS && Fits(fields, Widths(e), finite) && IsLayoutTable(table)
    ensures forall w :: w in table ==> |table[w]| == |w|
    ensures |Names(Canonical(e))| == |Render(fields)| && !IsLegacyCount(|Render(fields)|)
    ensures ParseMetricGroups(Record(prefix, fields, closing), table, finite) == Zip(Names(Canonical(e)), Render(fields))
  {
    hide Widths, Names, Render, Record, MetricValues, FieldCounts, Numeric, Canonical, Fits;
    TableSizes(table);
    ModernSizes(e);
    ModernSizes(Canonical(e));
    SameShape(e);
    FitsSize(fields, Widths(e), finite);
    RecordColumns(prefix, fields, closing, Widths(e), finite);
  }

  /** A record with a column of several sub-fields, one of them no finite number, yields nothing. */
  lemma GarbledYieldsNothing(e: Enabled, prefix: seq<string>, fields: seq<seq<string>>, closing: bool,
                             table: map<seq<nat>, seq<Group>>, finite: string -> bool)
    requires |prefix| == PREFIX_FIELDS && Shaped(fields, Widths(e)) && IsLayoutTable(table) && Garbled(fields, finite)
    ensures forall w :: w in table ==> |table[w]| == |w|
    ensures ParseMetricGroups(Record(prefix, fields, closing), table, finite) == map[]
  {
    hide Widths, Names, Render, Record, MetricValues, FieldCounts, Numeric, Canonical, Garbled;
    TableSizes(table);
    ModernSizes(e);
    RecordColumns(prefix, fields, closing, Widths(e), finite);
    assert |Render(fields)| == |fields| by {
      RenderSize(fields);
    }
  }

  lemma RenderSize(fields: seq<seq<string>>)
    ensures |Render(fields)| == |fields|
  {
  }

  lemma FitsSize(fields: seq<seq<string>>, widths: seq<nat>, finite: string -> bool)
    requires Fits(fields, widths, finite)
    ensures Shaped(fields, widths) && !Garbled(fields, finite) && |Render(fields)| == |fields| == |widths|
  {
  }

  // ----- exactly which settings decode right -----

  lemma {:induction false} ZipLookup(names: seq<Group>, values: seq<string>, g: Group)
    requires |names| == |values| && Distinct(names)
    ensures g in Zip(names, values) <==> g in names
    ensures forall i :: 0 <= i < |names| && names[i] == g ==> Zip(names, values)[g] == values[i]
  {
    if names != [] {
      var last := |names| - 1;
      ZipLookup(names[..last], values[..last], g);
      assert names == names[..last] + [names[last]];
    }
  }

  /** The place of a group in the order all records follow. */
  function Rank(g: Group): nat {
    match g
    case SharedMemory => 0 case SpillHardDisk => 1 case ActiveClientCount => 2 case ObjectCount => 3
    case ObjectSize => 4 case EtcdSuccessRate => 5 case ObsSuccessRate => 6 case MasterAsyncTasks => 7
    case StreamCount => 8 case StreamRemoteSendRate => 9 case ScLocalCache => 10 case OcHitNum => 11
    case BrpcStreamLeakCount => 12 case DeferredCleanupQueue => 13 case SpillIoStats => 14
    case ObjectCopyWatermark => 15
  }

  /** How many sub-fields a group has. */
  ghost function Width(g: Group): nat {
    match g
    case SharedMemory => 6 case SpillHardDisk => 4 case MasterAsyncTasks => 5 case ScLocalCache => 4 case OcHitNum => 5
    case SpillIoStats => 14 case ObjectCopyWatermark => 11
    case _ => 1
  }

  /** Whether a worker with such settings reports a group. */
  ghost predicate Reports(e: Enabled, g: Group) {
    match g
    case SpillHardDisk => e.spill case SpillIoStats => e.spill
    case EtcdSuccessRate => e.etcd
    case ObsSuccessRate => e.obs
    case StreamCount => e.stream case StreamRemoteSendRate => e.stream case ScLocalCache => e.stream
    case ObjectCopyWatermark => e.watermark
    case _ => true
  }

  ghost predicate Proper(c: Column, e: Enabled) { c.1 == Width(c.0) && Reports(e, c.0) }

  ghost predicate AllProper(c: seq<Column>, e: Enabled) { forall i :: 0 <= i < |c| ==> Proper(c[i], e) }

  lemma ProperParts(e: Enabled)
    ensures AllProper(FirstColumns(e), e) && AllProper(LastColumns(e), e)
  {
  }

  predicate Ascends(c: seq<Column>, hi: nat) {
    && (forall i :: 0 < i < |c| ==> Rank(c[i - 1].0) < Rank(c[i].0))
    && (c != [] ==> Rank(c[|c| - 1].0) < hi)
  }

  lemma AscendsFurther(a: seq<Column>, b: seq<Column>, lo: nat, hi: nat)
    requires Ascends(a, lo) && Ascends(b, hi) && lo <= hi && (b != [] ==> Rank(b[0].0) >= lo)
    ensures Ascends(a + b, hi)
  {
    var c := a + b;
    forall i | 0 < i < |c| ensures Rank(c[i - 1].0) < Rank(c[i].0) {
      if i > |a| {
        assert c[i - 1] == b[i - 1 - |a|] && c[i] == b[i - |a|];
      }
    }
  }

  lemma ColumnsAscend(e: Enabled)
    ensures Ascends(Columns(e), 16)
  {
    FirstAscend(e);
    LastAscend(e);
    AscendsFurther(FirstColumns(e), LastColumns(e), 8, 16);
  }

  lemma AscendsBy(a: seq<Column>, on: bool, column: Column)
    requires Ascends(a, Rank(column.0))
    ensures Ascends(a + (if on then [column] else []), Rank(column.0) + 1)
  {
    AscendsFurther(a, if on then [column] else [], Rank(column.0), Rank(column.0) + 1);
  }

  lemma FirstAscend(e: Enabled)
    ensures Ascends(FirstColumns(e), 8)
  {
    var memory := [(SharedMemory, 6)];
    AscendsBy(memory, e.spill, (SpillHardDisk, 4));
    var spill := memory + if e.spill then [(SpillHardDisk, 4)] else [];
    var objects := [(ActiveClientCount, 1), (ObjectCount, 1), (ObjectSize, 1)];
    AscendsFurther(spill, objects, 2, 5);
    AscendsBy(spill + objects, e.etcd, (EtcdSuccessRate, 1));
    var etcd := spill + objects + if e.etcd then [(EtcdSuccessRate, 1)] else [];
    AscendsBy(etcd, e.obs, (ObsSuccessRate, 1));
    var obs := etcd + if e.obs then [(ObsSuccessRate, 1)] else [];
    AscendsFurther(obs, [(MasterAsyncTasks, 5)], 7, 8);
  }

  lemma LastAscend(e: Enabled)
    ensures Ascends(LastColumns(e), 16) && Rank(LastColumns(e)[0].0) >= 8
  {
  }

  ghost predicate RanksAscend(names: seq<Group>) {
    forall i :: 0 < i < |names| ==> Rank(names[i - 1]) < Rank(names[i])
  }

  lemma {:induction false} AscendingIsDistinct(names: seq<Group>, i: nat, j: nat)
    requires RanksAscend(names) && i < j < |names|
    ensures Rank(names[i]) < Rank(names[j])
  {
    if i + 1 < j {
      AscendingIsDistinct(names, i, j - 1);
    }
  }

  lemma NamesDistinct(e: Enabled)
    ensures RanksAscend(Names(e)) && Distinct(Names(e))
  {
    var c, names := Columns(e), Names(e);
    ColumnsAscend(e);
    assert |names| == |c| && forall i :: 0 <= i < |c| ==> names[i] == c[i].0;
    AscendingDistinct(names);
  }

  lemma AscendingDistinct(names: seq<Group>)
    requires RanksAscend(names)
    ensures Distinct(names)
  {
    forall i, j | 0 <= i < j < |names| ensures names[i] != names[j] {
      AscendingIsDistinct(names, i, j);
    }
  }

  lemma FirstHas(e: Enabled, g: Group)
    requires Reports(e, g) && Rank(g) < 8
    ensures (g, Width(g)) in FirstColumns(e)
  {
  }

  lemma LastHas(e: Enabled, g: Group)
    requires Reports(e, g) && Rank(g) >= 8
    ensures (g, Width(g)) in LastColumns(e)
  {
  }

  lemma HasGroup(e: Enabled, g: Group)
    requires Reports(e, g)
    ensures (g, Width(g)) in Columns(e)
  {
    hide FirstColumns, LastColumns, Reports, Width, Rank;
    if Rank(g) < 8 {
      FirstHas(e, g);
    } else {
      LastHas(e, g);
    }
  }

  /** A record names exactly the groups the worker reports, each once, in the common order, and each
      with its own number of sub-fields. */
  lemma RecordLayout(e: Enabled)
    ensures |Names(e)| == |Widths(e)| && RanksAscend(Names(e))
    ensures forall g :: g in Names(e) <==> Reports(e, g)
    ensures forall i :: 0 <= i < |Names(e)| ==> Widths(e)[i] == Width(Names(e)[i])
  {
    hide FirstColumns, LastColumns, Width, Reports;
    NamesDistinct(e);
    ProperParts(e);
    var c, first := Columns(e), FirstColumns(e);
    forall i | 0 <= i < |c| ensures Proper(c[i], e) {
      if i < |first| {
        assert c[i] == first[i];
      } else {
        assert c[i] == LastColumns(e)[i - |first|];
      }
    }
    forall g | Reports(e, g) ensures g in Names(e) {
      HasGroup(e, g);
      var i :| 0 <= i < |c| && c[i].0 == g;
      assert Names(e)[i] == g;
    }
  }

  lemma NamesAround(e: Enabled)
    ensures var p := 4 + Bit(e.spill);
            && p + 1 < |Names(e)| && Names(e)[p - 1] == ObjectSize
            && Names(e)[p] == (if e.etcd then EtcdSuccessRate else if e.obs then ObsSuccessRate else MasterAsyncTasks)
            && (e.etcd ==> Names(e)[p + 1] == if e.obs then ObsSuccessRate else MasterAsyncTasks)
            && (!e.etcd && e.obs ==> Names(e)[p + 1] == MasterAsyncTasks)
  {
  }

  /** The two rates can only stand right after the object size. */
  lemma RatesIn(names: seq<Group>, p: nat, etcd: bool, obs: bool)
    requires RanksAscend(names) && 1 <= p && p + 1 < |names| && names[p - 1] == ObjectSize
    requires names[p] == (if etcd then EtcdSuccessRate else if obs then ObsSuccessRate else MasterAsyncTasks)
    requires etcd ==> names[p + 1] == if obs then ObsSuccessRate else MasterAsyncTasks
    requires !etcd && obs ==> names[p + 1] == MasterAsyncTasks
    ensures EtcdSuccessRate in names <==> etcd
    ensures ObsSuccessRate in names <==> obs
  {
    forall i | 0 <= i < |names| && 5 <= Rank(names[i]) <= 6 ensures p <= i <= p + 1 {
      if i < p - 1 {
        AscendingIsDistinct(names, i, p - 1);
      } else if i > p + 1 {
        AscendingIsDistinct(names, p + 1, i);
      }
    }
  }

  lemma NamesOfRates(e: Enabled)
    ensures EtcdSuccessRate in Names(e) <==> e.etcd
    ensures ObsSuccessRate in Names(e) <==> e.obs
  {
    NamesAround(e);
    NamesDistinct(e);
    RatesIn(Names(e), 4 + Bit(e.spill), e.etcd, e.obs);
  }

  /** Every group gets its own text back if and only if the worker does not report OBS without
      ETCD. In that one case the OBS rate is filed under ETCD. */
  lemma DecodesRight(e: Enabled, prefix: seq<string>, fields: seq<seq<string>>, closing: bool,
                     table: map<seq<nat>, seq<Group>>, finite: string -> bool)
    requires |prefix| == PREFIX_FIELDS && Fits(fields, Widths(e), finite) && IsLayoutTable(table)
    ensures forall w :: w in table ==> |table[w]| == |w|
    ensures |Names(e)| == |Render(fields)|
    ensures var decoded := ParseMetricGroups(Record(prefix, fields, closing), table, finite);
            && (decoded == Zip(Names(e), Render(fields)) <==> !ObsOnly(e))
            && (ObsOnly(e) ==> ObsSuccessRate !in decoded && EtcdSuccessRate in decoded)
            && (ObsOnly(e) ==> forall i :: 0 <= i < |fields| && Names(e)[i] == ObsSuccessRate ==>
                  decoded[EtcdSuccessRate] == Render(fields)[i])
            && (!ObsOnly(e) ==> forall i :: 0 <= i < |fields| ==>
                  Names(e)[i] in decoded && decoded[Names(e)[i]] == Render(fields)[i])
  {
    hide Widths, Names, Render, Record, Fits, Canonical, ParseMetricGroups, Zip;
    DecodesRendered(e, prefix, fields, closing, table, finite);
    ModernSizes(e);
    FitsSize(fields, Widths(e), finite);
    CanonicalIs(e);
    if ObsOnly(e) {
      ObsFiledUnderEtcd(e, Render(fields));
    } else {
      OwnTexts(Names(e), Render(fields));
      NamesDistinct(e);
    }
  }

  lemma CanonicalIs(e: Enabled)
    ensures !ObsOnly(e) ==> Canonical(e) == e
  {
  }

  lemma OwnTexts(names: seq<Group>, texts: seq<string>)
    requires |names| == |texts|
    ensures Distinct(names) ==> forall i :: 0 <= i < |names| ==> names[i] in Zip(names, texts) && Zip(names, texts)[names[i]] == texts[i]
  {
    if Distinct(names) {
      forall i | 0 <= i < |names| ensures names[i] in Zip(names, texts) && Zip(names, texts)[names[i]] == texts[i] {
        ZipLookup(names, texts, names[i]);
      }
    }
  }

  /** Without ETCD the OBS rate stands where the ETCD rate would, and is taken for it. */
  lemma ObsFiledUnderEtcd(e: Enabled, texts: seq<string>)
    requires ObsOnly(e) && |texts| == |Names(e)| == |Names(Canonical(e))|
    ensures var decoded := Zip(Names(Canonical(e)), texts);
            && decoded != Zip(Names(e), texts) && ObsSuccessRate !in decoded && EtcdSuccessRate in decoded
            && forall i :: 0 <= i < |texts| && Names(e)[i] == ObsSuccessRate ==> decoded[EtcdSuccessRate] == texts[i]
  {
    hide Names, Zip;
    NamesDistinct(e);
    NamesDistinct(Canonical(e));
    NamesOfRates(e);
    NamesOfRates(Canonical(e));
    NamesAround(e);
    NamesAround(Canonical(e));
    ZipLookup(Names(e), texts, ObsSuccessRate);
    ZipLookup(Names(Canonical(e)), texts, ObsSuccessRate);
    ZipLookup(Names(Canonical(e)), texts, EtcdSuccessRate);
  }
}
