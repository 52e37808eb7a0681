/** Selecting traces by operation and latency: one pass for all buckets, against one pass each. */
module BucketScan {
  import opened Text

  /** What `float()` can yield. */
  datatype Number = NaN | NegInf | Finite(r: real) | PosInf

  /** `a <= b` on floats: false as soon as one of them is not a number. */
  predicate Le(a: Number, b: Number) {
    && !a.NaN? && !b.NaN?
    && (a.NegInf? || b.PosInf? || (a.Finite? && b.Finite? && a.r <= b.r))
  }

  datatype TimeRange = TimeRange(lower: Option<Number>, upper: Option<Number>)

  /** A latency is in range unless a bound rules it out; bounds themselves are ruled out. */
  predicate InRange(v: Number, range: TimeRange) {
    && !(range.lower.Some? && Le(v, range.lower.value))
    && !(range.upper.Some? && Le(range.upper.value, v))
  }

  /** Between finite bounds a latency is in range strictly between them; a missing bound, or an infinite
      one on its own side, does not matter. */
  lemma RangeIsOpen(v: real, a: real, b: real)
    ensures InRange(Finite(v), TimeRange(Some(Finite(a)), Some(Finite(b)))) <==> a < v < b
    ensures InRange(Finite(v), TimeRange(None, Some(Finite(b)))) <==> v < b
    ensures InRange(Finite(v), TimeRange(Some(Finite(a)), None)) <==> a < v
    ensures InRange(Finite(v), TimeRange(None, None))
    ensures InRange(Finite(v), TimeRange(Some(NegInf), Some(PosInf)))
    ensures !InRange(Finite(v), TimeRange(Some(PosInf), None)) && !InRange(Finite(v), TimeRange(None, Some(NegInf)))
  {
  }

  datatype Spec = Spec(text: string, range: TimeRange)

  /** `parse_time_range`; `number` is `float()` on a stripped text, None when it raises. */
  function ParseTimeRange(text: string, number: string -> Option<Number>): Option<TimeRange> {
    if Strip(text) == "" then Some(TimeRange(None, None))
    else
      var parts := Split(Strip(text), ',');
      if |parts| == 1 then
        var lower := number(Strip(parts[0]));
        if lower.None? then None else Some(TimeRange(lower, None))
      else if |parts| == 2 then
        var lower, upper := Strip(parts[0]), Strip(parts[1]);
        if (lower != "" && number(lower).None?) || (upper != "" && number(upper).None?) then None
        else Some(TimeRange(if lower == "" then None else number(lower), if upper == "" then None else number(upper)))
      else None
  }

  /** No text, no bounds; a text without a comma is the lower bound. */
  lemma RangeOfOne(text: string, number: string -> Option<Number>)
    requires ',' !in text && Trimmed(text)
    ensures ParseTimeRange(text, number) ==
            if text == "" then Some(TimeRange(None, None))
            else if number(text).None? then None else Some(TimeRange(number(text), None))
  {
    hide Strip, Split;
    StripTrims(text);
    SplitPlain(text, ',');
  }

  /** Around one comma stand the bounds, either of which may be left out; a bound that is no number is
      refused. */
  lemma RangeOfTwo(lower: string, upper: string, number: string -> Option<Number>)
    requires ',' !in lower && ',' !in upper && Trimmed(lower) && Trimmed(upper)
    ensures var r := ParseTimeRange(lower + "," + upper, number);
            && (r.None? <==> (lower != "" && number(lower).None?) || (upper != "" && number(upper).None?))
            && (r.Some? ==> r.value.lower == if lower == "" then None else number(lower))
            && (r.Some? ==> r.value.upper == if upper == "" then None else number(upper))
  {
    hide Strip, Split;
    StripTrims(lower);
    StripTrims(upper);
    TrimmedAround(lower, "", upper);
    assert lower + "," + "" + upper == lower + "," + upper;
    SplitFirst(lower, upper, ',');
    SplitPlain(upper, ',');
  }

  /** A second comma is refused. */
  lemma RangeOfThree(lower: string, middle: string, upper: string, number: string -> Option<Number>)
    requires ',' !in lower && ',' !in middle && Trimmed(lower) && Trimmed(upper)
    ensures ParseTimeRange(lower + "," + middle + "," + upper, number).None?
  {
    hide Strip, Split;
    var text := lower + "," + middle + "," + upper;
    TrimmedAround(lower, middle + ",", upper);
    assert lower + "," + (middle + ",") + upper == text == lower + "," + (middle + "," + upper);
    SplitFirst(lower, middle + "," + upper, ',');
    SplitFirst(middle, upper, ',');
  }

  /** Around a comma, stripping finds nothing to take off trimmed texts. */
  lemma TrimmedAround(lower: string, middle: string, upper: string)
    requires Trimmed(lower) && Trimmed(upper) && (middle == "" || middle[|middle| - 1] == ',')
    ensures Strip(lower + "," + middle + upper) == lower + "," + middle + upper != ""
  {
    var s := lower + "," + middle + upper;
    assert s[0] == if lower == "" then ',' else lower[0];
    assert s[|s| - 1] == if upper == "" then ',' else upper[|upper| - 1];
    StripTrims(s);
  }

  /** The buckets asked for: every text names its own range. */
  function ParseSpecs(texts: seq<string>, number: string -> Option<Number>): Option<seq<Spec>> {
    if texts == [] then Some([])
    else
      var init := ParseSpecs(texts[..|texts| - 1], number);
      var last := ParseTimeRange(texts[|texts| - 1], number);
      if init.None? || last.None? then None
      else Some(init.value + [Spec(texts[|texts| - 1], last.value)])
  }

  predicate TextsNameRanges(specs: seq<Spec>) {
    forall i, j :: 0 <= i < |specs| && 0 <= j < |specs| && specs[i].text == specs[j].text ==>
      specs[i].range == specs[j].range
  }

  lemma {:induction false} ParsedSpecs(texts: seq<string>, number: string -> Option<Number>)
    requires ParseSpecs(texts, number).Some?
    ensures var specs := ParseSpecs(texts, number).value;
            && |specs| == |texts| && TextsNameRanges(specs)
            && forall i :: 0 <= i < |texts| ==>
                 specs[i].text == texts[i] && ParseTimeRange(texts[i], number) == Some(specs[i].range)
  {
    if texts != [] {
      ParsedSpecs(texts[..|texts| - 1], number);
    }
  }

  // ----- one access log line -----

  datatype Reading = Reading(latency: Number, trace: string)

  /** Latency and trace of a line, if it has both. */
  function Read(line: string, number: string -> Option<Number>): Option<Reading> {
    var parts := Split(line, '|');
    if |parts| < 10 then None
    else
      var latency, trace := number(Strip(parts[9])), Strip(parts[5]);
      if latency.None? || trace == "" then None else Some(Reading(latency.value, trace))
  }

  /** A line is read from its columns: the tenth is the latency, the sixth the trace; blanks around
      them do not matter, and a line with fewer columns, an unreadable latency or no trace is skipped. */
  lemma ReadsColumns(columns: seq<string>, number: string -> Option<Number>)
    requires columns != [] && forall c :: c in columns ==> '|' !in c
    ensures var r := Read(Join(columns, '|'), number);
            && (r.Some? <==> |columns| >= 10 && number(Strip(columns[9])).Some? && Strip(columns[5]) != "")
            && (r.Some? ==> Some(r.value.latency) == number(Strip(columns[9])) && r.value.trace == Strip(columns[5]))
  {
    SplitJoin(columns, '|');
  }

  /** The first requested operation a line mentions. */
  function FirstOp(ops: seq<string>, line: string): Option<string> {
    if ops == [] then None
    else if Contains(line, ops[0]) then Some(ops[0])
    else FirstOp(ops[1..], line)
  }

  /** A line puts a trace into the bucket of an operation. */
  predicate TakenInPass(line: string, trace: string, ops: seq<string>, op: string, range: TimeRange,
                        number: string -> Option<Number>) {
    && FirstOp(ops, line) == Some(op)
    && Read(line, number).Some? && Read(line, number).value.trace == trace
    && InRange(Read(line, number).value.latency, range)
  }

  /** A line yields a trace to a scan for one operation. */
  predicate TakenInScan(line: string, trace: string, op: string, range: TimeRange, number: string -> Option<Number>) {
    && Contains(line, op)
    && Read(line, number).Some? && Read(line, number).value.trace == trace
    && InRange(Read(line, number).value.latency, range)
  }

  type Buckets = map<(string, string), set<string>>

  predicate InSomeLinePass(lines: seq<string>, n: nat, trace: string, ops: seq<string>, op: string, range: TimeRange,
                           number: string -> Option<Number>)
    requires n <= |lines|
  {
    exists j :: 0 <= j < n && TakenInPass(lines[j], trace, ops, op, range, number)
  }

  predicate InSomeLineScan(lines: seq<string>, n: nat, trace: string, op: string, range: TimeRange,
                           number: string -> Option<Number>)
    requires n <= |lines|
  {
    exists j :: 0 <= j < n && TakenInScan(lines[j], trace, op, range, number)
  }

  /** What the buckets hold after the first `n` lines. */
  ghost predicate Holds(buckets: Buckets, lines: seq<string>, n: nat, ops: seq<string>, specs: seq<Spec>,
                        number: string -> Option<Number>)
    requires n <= |lines|
  {
    forall op, i :: op in ops && 0 <= i < |specs| ==>
      && (op, specs[i].text) in buckets
      && forall trace :: trace in buckets[(op, specs[i].text)] <==>
                         InSomeLinePass(lines, n, trace, ops, op, specs[i].range, number)
  }

  /** Put one reading into every bucket of its operation that wants it. */
  method Distribute(buckets: Buckets, op: string, reading: Reading, specs: seq<Spec>) returns (r: Buckets)
    requires TextsNameRanges(specs) && forall i :: 0 <= i < |specs| ==> (op, specs[i].text) in buckets
    ensures r.Keys == buckets.Keys
    ensures forall other, text :: (other, text) in buckets && other != op ==> r[(other, text)] == buckets[(other, text)]
    ensures forall i :: 0 <= i < |specs| ==>
              r[(op, specs[i].text)] ==
              buckets[(op, specs[i].text)] + if InRange(reading.latency, specs[i].range) then {reading.trace} else {}
  {
    r := buckets;
    for n := 0 to |specs|
      invariant r.Keys == buckets.Keys
      invariant forall other, text :: (other, text) in buckets && other != op ==> r[(other, text)] == buckets[(other, text)]
      invariant forall i :: 0 <= i < |specs| ==>
                  var had := buckets[(op, specs[i].text)];
                  r[(op, specs[i].text)] ==
                  if InRange(reading.latency, specs[i].range) && exists k :: 0 <= k < n && specs[k].text == specs[i].text
                  then had + {reading.trace} else had
    {
      var key := (op, specs[n].text);
      if InRange(reading.latency, specs[n].range) {
        r := r[key := r[key] + {reading.trace}];
      }
    }
  }

  lemma OneLine(lines: seq<string>, n: nat, trace: string, ops: seq<string>, op: string, range: TimeRange,
                number: string -> Option<Number>)
    requires n < |lines|
    ensures InSomeLinePass(lines, n + 1, trace, ops, op, range, number) <==>
            InSomeLinePass(lines, n, trace, ops, op, range, number) || TakenInPass(lines[n], trace, ops, op, range, number)
  {
  }

  lemma {:induction false} FirstOpIs(ops: seq<string>, line: string)
    ensures var r := FirstOp(ops, line);
            && (r.Some? ==> r.value in ops && Contains(line, r.value))
            && (r.None? ==> forall op :: op in ops ==> !Contains(line, op))
  {
    if ops != [] && !Contains(line, ops[0]) {
      FirstOpIs(ops[1..], line);
    }
  }

  /** A line that is skipped, or has been distributed, is accounted for. */
  lemma HoldsNext(before: Buckets, after: Buckets, lines: seq<string>, n: nat, ops: seq<string>, specs: seq<Spec>,
                  number: string -> Option<Number>)
    requires n < |lines| && Holds(before, lines, n, ops, specs, number)
    requires forall op, i :: op in ops && 0 <= i < |specs| ==>
               var key := (op, specs[i].text);
               && key in after
               && forall trace :: trace in after[key] <==>
                    trace in before[key] || TakenInPass(lines[n], trace, ops, op, specs[i].range, number)
    ensures Holds(after, lines, n + 1, ops, specs, number)
  {
    forall op, i, trace | op in ops && 0 <= i < |specs|
      ensures trace in after[(op, specs[i].text)] <==> InSomeLinePass(lines, n + 1, trace, ops, op, specs[i].range, number)
    {
      OneLine(lines, n, trace, ops, op, specs[i].range, number);
    }
  }

  /** The body of the pass: find the operation, read the line, distribute. */
  method TakeLine(buckets: Buckets, ops: seq<string>, specs: seq<Spec>, line: string, number: string -> Option<Number>)
    returns (r: Buckets)
    requires TextsNameRanges(specs)
    requires forall op, i :: op in ops && 0 <= i < |specs| ==> (op, specs[i].text) in buckets
    ensures forall op, i :: op in ops && 0 <= i < |specs| ==>
              var key := (op, specs[i].text);
              && key in r
              && forall trace :: trace in r[key] <==>
                   trace in buckets[key] || TakenInPass(line, trace, ops, op, specs[i].range, number)
  {
    r := buckets;
    var op := FirstOp(ops, line);
    if op.None? {
      return;
    }
    var reading := Read(line, number);
    if reading.None? {
      return;
    }
    FirstOpIs(ops, line);
    r := Distribute(buckets, op.value, reading.value, specs);
  }

  method CollectBucketTraces(ops: seq<string>, specs: seq<Spec>, lines: seq<string>, number: string -> Option<Number>)
    returns (buckets: Buckets)
    requires TextsNameRanges(specs)
    ensures Holds(buckets, lines, |lines|, ops, specs, number)
  {
    buckets := map op, i | op in ops && 0 <= i < |specs| :: (op, specs[i].text) := {};
    for n := 0 to |lines|
      invariant Holds(buckets, lines, n, ops, specs, number)
    {
      ghost var before := buckets;
      buckets := TakeLine(buckets, ops, specs, lines[n], number);
      HoldsNext(before, buckets, lines, n, ops, specs, number);
    }
  }

  method ExtractTracesTime(op: string, range: TimeRange, lines: seq<string>, number: string -> Option<Number>)
    returns (traces: set<string>)
    ensures forall trace :: trace in traces <==> InSomeLineScan(lines, |lines|, trace, op, range, number)
  {
    traces := {};
    for n := 0 to |lines|
      invariant forall trace :: trace in traces <==> InSomeLineScan(lines, n, trace, op, range, number)
    {
      if Contains(lines[n], op) {
        var reading := Read(lines[n], number);
        if reading.Some? && InRange(reading.value.latency, range) {
          traces := traces + {reading.value.trace};
        }
      }
    }
  }

  // ----- the pass refines the scans -----

  /** No line mentions two of the requested operations. */
  ghost predicate Unambiguous(lines: seq<string>, ops: seq<string>) {
    forall j, a, b :: 0 <= j < |lines| && a in ops && b in ops && Contains(lines[j], a) && Contains(lines[j], b) ==> a == b
  }

  /** `ops[i]` is the first of the operations that the line mentions. */
  ghost predicate FirstAt(ops: seq<string>, line: string, i: nat) {
    i < |ops| && Contains(line, ops[i]) && forall k :: 0 <= k < i ==> !Contains(line, ops[k])
  }

  lemma {:induction false} FirstAtIsFirst(ops: seq<string>, line: string, i: nat)
    requires FirstAt(ops, line, i)
    ensures FirstOp(ops, line) == Some(ops[i])
  {
    if i > 0 {
      assert !Contains(line, ops[0]);
      assert FirstAt(ops[1..], line, i - 1);
      FirstAtIsFirst(ops[1..], line, i - 1);
    }
  }

  lemma {:induction false} FirstIsAt(ops: seq<string>, line: string) returns (i: nat)
    requires FirstOp(ops, line).Some?
    ensures FirstAt(ops, line, i) && FirstOp(ops, line) == Some(ops[i])
  {
    if Contains(line, ops[0]) {
      i := 0;
    } else {
      var j := FirstIsAt(ops[1..], line);
      i := j + 1;
      forall k | 0 <= k < i ensures !Contains(line, ops[k]) {
        if k > 0 {
          assert ops[k] == ops[1..][k - 1];
        }
      }
    }
  }

  /** The pass takes a line for an operation exactly when the scan does and no requested operation
      listed earlier is mentioned on it. */
  lemma PassVersusScan(line: string, trace: string, ops: seq<string>, op: string, range: TimeRange,
                       number: string -> Option<Number>)
    ensures TakenInPass(line, trace, ops, op, range, number) <==>
            TakenInScan(line, trace, op, range, number) && exists i: nat :: FirstAt(ops, line, i) && ops[i] == op
  {
    if FirstOp(ops, line) == Some(op) {
      var i := FirstIsAt(ops, line);
    }
    forall i: nat | FirstAt(ops, line, i) ensures FirstOp(ops, line) == Some(ops[i]) {
      FirstAtIsFirst(ops, line, i);
    }
  }

  /** Every bucket of the one pass is part of what the separate scan finds, and all of it when no
      line mentions two of the operations. */
  method BucketsRefineScans(ops: seq<string>, specs: seq<Spec>, lines: seq<string>, number: string -> Option<Number>,
                            op: string, i: nat)
    returns (bucket: set<string>, scan: set<string>)
    requires TextsNameRanges(specs) && op in ops && i < |specs|
    ensures bucket <= scan
    ensures Unambiguous(lines, ops) ==> bucket == scan
    ensures forall trace :: trace in bucket <==> InSomeLinePass(lines, |lines|, trace, ops, op, specs[i].range, number)
    ensures forall trace :: trace in scan <==> InSomeLineScan(lines, |lines|, trace, op, specs[i].range, number)
  {
    var buckets := CollectBucketTraces(ops, specs, lines, number);
    bucket := buckets[(op, specs[i].text)];
    scan := ExtractTracesTime(op, specs[i].range, lines, number);
    forall j | 0 <= j < |lines| ensures FirstOp(ops, lines[j]) == Some(op) ==> Contains(lines[j], op) {
      FirstOpIs(ops, lines[j]);
    }
    if Unambiguous(lines, ops) {
      forall j | 0 <= j < |lines| && Contains(lines[j], op) ensures FirstOp(ops, lines[j]) == Some(op) {
        FirstOpIs(ops, lines[j]);
      }
    }
  }

  /** Why they can differ: a line that mentions an operation listed earlier is lost to the later. */
  lemma ShadowedLine(first: string, second: string, line: string, range: TimeRange, number: string -> Option<Number>)
    requires first != second && Contains(line, first) && Contains(line, second)
    requires Read(line, number).Some? && InRange(Read(line, number).value.latency, range)
    ensures var trace := Read(line, number).value.trace;
            TakenInScan(line, trace, second, range, number) && !TakenInPass(line, trace, [first, second], second, range, number)
  {
  }

  /** Two ranges that meet at `b` both take a latency exactly when it, or `b`, is not a number and
      the outer bounds allow it. So no number is counted twice, and `b` itself is in neither. */
  lemma TouchingRanges(lower: Option<Number>, b: Number, upper: Option<Number>, v: Number)
    ensures InRange(v, TimeRange(lower, Some(b))) && InRange(v, TimeRange(Some(b), upper)) <==>
            (v.NaN? || b.NaN?) && InRange(v, TimeRange(lower, upper))
    ensures v == b && !b.NaN? ==> !InRange(v, TimeRange(lower, Some(b))) && !InRange(v, TimeRange(Some(b), upper))
  {
  }
}
