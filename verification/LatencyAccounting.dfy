/** Splitting the latency of one traced request into the bars of the latency report. Times are
    whole microseconds. */
module LatencyAccounting {
  import opened Text

  /** One worker access record: when the operation ended and how long it took. */
  datatype Access = Access(operation: string, end: int, duration: nat)

  /** What the worker's info log says about one trace. The two metadata calls (`queryMetaExceed`,
      `createMeta`) are sums over the log lines, `masterProc` is that of the last line, every other
      entry is the largest of its kind. */
  datatype Segments = Segments(
    queryMetaExceed: Option<nat>, masterQuery: Option<nat>, createMeta: Option<nat>, masterProc: Option<nat>,
    remoteDone: Option<nat>, remotePull: Option<nat>, urma: Option<nat>,
    getCost: Option<nat>, publishCost: Option<nat>, getReceive: Option<nat>)

  function Clamp(x: int): (r: nat)
    ensures r >= x
  {
    if x > 0 then x else 0
  }

  function Longer(a: nat, b: nat): nat {
    if a < b then b else a
  }

  /** A missing value shows, and counts, as zero. */
  function OrZero(x: Option<nat>): nat {
    if x.Some? then x.value else 0
  }

  /** Python's truth of an optional number. */
  predicate Positive(x: Option<nat>) {
    x.Some? && x.value > 0
  }

  // ----- the window of the worker records -----

  function Start(a: Access): int {
    a.end - a.duration
  }

  function MinStart(accesses: seq<Access>): int
    requires accesses != []
  {
    var last := |accesses| - 1;
    if last == 0 then Start(accesses[0])
    else
      var m := MinStart(accesses[..last]);
      if Start(accesses[last]) < m then Start(accesses[last]) else m
  }

  function MaxEnd(accesses: seq<Access>): int
    requires accesses != []
  {
    var last := |accesses| - 1;
    if last == 0 then accesses[0].end
    else
      var m := MaxEnd(accesses[..last]);
      if accesses[last].end > m then accesses[last].end else m
  }

  /** The window of the records: every record lies inside it, and it is no larger than needed. */
  ghost predicate IsWindow(accesses: seq<Access>, first: int, last: int) {
    && (forall i :: 0 <= i < |accesses| ==> first <= accesses[i].end - accesses[i].duration && accesses[i].end <= last)
    && (exists i :: 0 <= i < |accesses| && accesses[i].end - accesses[i].duration == first)
    && (exists i :: 0 <= i < |accesses| && accesses[i].end == last)
  }

  lemma {:induction false} WindowIs(accesses: seq<Access>)
    requires accesses != []
    ensures IsWindow(accesses, MinStart(accesses), MaxEnd(accesses))
  {
    var last := |accesses| - 1;
    if last > 0 {
      WindowIs(accesses[..last]);
      WindowGrows(accesses[..last], accesses[last], MinStart(accesses[..last]), MaxEnd(accesses[..last]));
      assert accesses == accesses[..last] + [accesses[last]];
    }
  }

  lemma WindowGrows(init: seq<Access>, a: Access, first: int, last: int)
    requires IsWindow(init, first, last)
    ensures IsWindow(init + [a], if Start(a) < first then Start(a) else first, if a.end > last then a.end else last)
  {
    var all := init + [a];
    var i :| 0 <= i < |init| && init[i].end - init[i].duration == first;
    var j :| 0 <= j < |init| && init[j].end == last;
    assert all[i] == init[i] && all[j] == init[j] && all[|init|] == a;
  }

  /** Every worker record lies inside the client's request. */
  ghost predicate Inside(accesses: seq<Access>, start: int, end: int) {
    forall i :: 0 <= i < |accesses| ==> start <= accesses[i].end - accesses[i].duration && accesses[i].end <= end
  }

  /** The longest of the records of one kind; zero without any. */
  function MaxDuration(accesses: seq<Access>, kind: string): nat {
    if accesses == [] then 0
    else
      var a := accesses[|accesses| - 1];
      var m := MaxDuration(accesses[..|accesses| - 1], kind);
      if Contains(a.operation, kind) && a.duration > m then a.duration else m
  }

  /** No record of the kind takes longer, and one takes as long unless there is none. */
  ghost predicate IsLongest(m: nat, accesses: seq<Access>, kind: string) {
    && (forall i :: 0 <= i < |accesses| && Contains(accesses[i].operation, kind) ==> accesses[i].duration <= m)
    && (m > 0 ==> exists i :: 0 <= i < |accesses| && Contains(accesses[i].operation, kind) && accesses[i].duration == m)
  }

  lemma {:induction false} MaxDurationIsLongest(accesses: seq<Access>, kind: string)
    ensures IsLongest(MaxDuration(accesses, kind), accesses, kind)
  {
    if accesses != [] {
      var init := accesses[..|accesses| - 1];
      MaxDurationIsLongest(init, kind);
      var m := MaxDuration(init, kind);
      if MaxDuration(accesses, kind) == m && m > 0 {
        var i :| 0 <= i < |init| && Contains(init[i].operation, kind) && init[i].duration == m;
        assert accesses[i] == init[i];
      }
    }
  }

  class Trace {
    const operation: string
    const end: int          // when the client's request ended
    const duration: nat     // how long it took
    const accesses: seq<Access>

    var workerMax: nat      // the longest worker operation; create plus publish for a SET
    var requestDelay: Option<nat>
    var responseDelay: Option<nat>

    // phases of a GET
    var queryMeta: Option<nat>
    var masterProc: Option<nat>
    var queryMetaNet: Option<nat>
    var remoteNet: Option<nat>
    var remoteSelf: Option<nat>
    var urma: Option<nat>
    var workerCost: Option<nat>
    var queueWait: Option<nat>
    var otherWorker: Option<nat>

    // phases of a SET
    var createMeta: Option<nat>
    var createMetaNet: Option<nat>
    var publishCost: Option<nat>
    var otherPublish: Option<nat>

    predicate IsGet() {
      Contains(operation, "GET")
    }

    predicate IsSet() {
      Contains(operation, "SET")
    }

    constructor (operation: string, end: int, duration: nat, accesses: seq<Access>)
      ensures this.operation == operation && this.end == end && this.duration == duration && this.accesses == accesses
      ensures workerMax == 0 && requestDelay.None? && responseDelay.None? && GetBars() == PublishBars() == 0
    {
      this.operation, this.end, this.duration, this.accesses := operation, end, duration, accesses;
      workerMax := 0;
      requestDelay, responseDelay := None, None;
      queryMeta, masterProc, queryMetaNet, remoteNet, remoteSelf := None, None, None, None, None;
      urma, workerCost, queueWait, otherWorker := None, None, None, None;
      createMeta, createMetaNet, publishCost, otherPublish := None, None, None, None;
    }

    /** The longest worker operation; create and publish together for a SET. */
    method LongestWork() returns (m: nat)
      ensures IsGet() <==> Contains(operation, "GET")
      ensures IsSet() <==> Contains(operation, "SET")
      ensures IsGet() ==> m == MaxDuration(accesses, "GET")
      ensures !IsGet() && IsSet() ==> m == MaxDuration(accesses, "CREATE") + MaxDuration(accesses, "PUBLISH")
      ensures !IsGet() && !IsSet() ==> m == 0
      ensures IsGet() ==> IsLongest(m, accesses, "GET")
      ensures !IsGet() && IsSet() ==>
                exists create: nat, publish: nat :: m == create + publish
                  && IsLongest(create, accesses, "CREATE") && IsLongest(publish, accesses, "PUBLISH")
    {
      m := 0;
      if IsGet() {
        m := LongestOf(accesses, "GET");
      } else if IsSet() {
        var create := LongestOf(accesses, "CREATE");
        var publish := LongestOf(accesses, "PUBLISH");
        m := create + publish;
      }
    }

    /** Request and response delay from the records' timestamps. For a GET the three parts add up
        to at least the client's latency, and to exactly that if and only if every worker record
        lies inside the request; for a SET the response delay is the residual. */
    method ComputeDelays()
      modifies `workerMax, `requestDelay, `responseDelay
      ensures IsGet() ==> workerMax == MaxDuration(accesses, "GET") && IsLongest(workerMax, accesses, "GET")
      ensures !IsGet() && !IsSet() ==> workerMax == 0 && responseDelay.None?
      ensures accesses == [] ==> requestDelay.None? && responseDelay.None?
      ensures accesses != [] ==> requestDelay == Some(Clamp(MinStart(accesses) - (end - duration)))
      ensures accesses != [] && IsGet() ==>
                && responseDelay == Some(Clamp(end - MaxEnd(accesses)))
                && (var total := requestDelay.value + (MaxEnd(accesses) - MinStart(accesses)) + responseDelay.value;
                    total >= duration && (total == duration <==> Inside(accesses, end - duration, end)))
      ensures accesses != [] && !IsGet() && IsSet() ==>
                && responseDelay.Some?
                && workerMax == MaxDuration(accesses, "CREATE") + MaxDuration(accesses, "PUBLISH")
                && (var total := requestDelay.value + workerMax + responseDelay.value;
                    total >= duration && (total == duration <==> requestDelay.value + workerMax <= duration))
    {
      hide MinStart, MaxEnd, MaxDuration, Contains, IsLongest, IsWindow;
      workerMax := LongestWork();
      requestDelay, responseDelay := None, None;
      if accesses != [] {
        var first, last := Window(accesses);
        requestDelay := Some(Clamp(first - (end - duration)));
        if IsGet() {
          responseDelay := Some(Clamp(end - last));
          InsideIffWindow(accesses, end - duration, end);
        } else if IsSet() {
          responseDelay := Some(Clamp(duration - requestDelay.value - workerMax));
        }
      }
    }

    /** The worker part of a GET as it is charted: the seven stacked bars, together. */
    function GetBars(): int
      reads this
    {
      OrZero(queueWait) + OrZero(queryMetaNet) + OrZero(masterProc) + OrZero(remoteNet) + OrZero(remoteSelf)
      + OrZero(urma) + OrZero(otherWorker)
    }

    /** The query to the master: the network's part and the master's. */
    method FillQuery(seg: Segments)
      modifies `queryMeta, `masterProc, `queryMetaNet
      ensures OrZero(queryMeta) == QueryMeta(seg) && OrZero(masterProc) == OrZero(seg.masterProc)
      // what the worker reports of the query goes before what the master reports
      ensures seg.queryMetaExceed.Some? ==> QueryMeta(seg) == seg.queryMetaExceed.value
      ensures seg.queryMetaExceed.None? && seg.masterQuery.Some? ==> QueryMeta(seg) == seg.masterQuery.value
      ensures OrZero(queryMetaNet) + OrZero(masterProc) + QueryLoss(seg) == QueryMeta(seg) + QueryOverlap(seg)
    {
      queryMeta := if seg.queryMetaExceed.Some? then seg.queryMetaExceed else seg.masterQuery;
      masterProc := if Positive(seg.masterProc) then seg.masterProc else None;
      queryMetaNet := if Positive(queryMeta) && Positive(seg.masterProc)
                      then Some(Clamp(OrZero(queryMeta) - OrZero(masterProc))) else None;
    }

    /** The get from another worker: the network's part, that worker's own, and the write. */
    method FillRemote(seg: Segments)
      modifies `remoteNet, `urma, `remoteSelf
      ensures OrZero(remoteNet) + OrZero(remoteSelf) + OrZero(urma) + RemoteLoss(seg) ==
              OrZero(seg.remoteDone) + RemoteOverlap(seg)
      ensures urma == seg.urma && (remoteSelf.Some? <==> Positive(seg.remotePull))
      ensures remoteSelf.Some? ==> OrZero(remoteSelf) + OrZero(urma) == Longer(seg.remotePull.value, OrZero(urma))
    {
      var done, pull := seg.remoteDone, seg.remotePull;
      remoteNet := if Positive(done) && Positive(pull) then Some(Clamp(done.value - pull.value)) else None;
      urma := seg.urma;
      if Positive(pull) && Positive(seg.urma) {
        remoteSelf := Some(Clamp(pull.value - seg.urma.value));
      } else if Positive(pull) {
        remoteSelf := pull;
      } else {
        remoteSelf := None;
      }
    }

    /** The phases of a GET. Whatever was reported, the bars and the reported worker cost differ by
        exactly the overlaps (phases longer than the one they are part of, or than the whole) and
        the losses (phases taken off the rest without being shown themselves). */
    method FillGet(seg: Segments)
      modifies `queryMeta, `masterProc, `queryMetaNet, `remoteNet, `urma, `remoteSelf
      modifies `workerCost, `queueWait, `otherWorker
      ensures GetBars() + GetLoss(seg) == OrZero(seg.getCost) + GetOverlap(seg)
      // each bar by itself: what is shown as reported, and the two groups that stand for a phase
      ensures workerCost == seg.getCost && queueWait == seg.getReceive && urma == seg.urma
      ensures OrZero(masterProc) == OrZero(seg.masterProc)
      ensures OrZero(queryMetaNet) + OrZero(masterProc) + QueryLoss(seg) == QueryMeta(seg) + QueryOverlap(seg)
      ensures OrZero(remoteNet) + OrZero(remoteSelf) + OrZero(urma) + RemoteLoss(seg) ==
              OrZero(seg.remoteDone) + RemoteOverlap(seg)
      ensures remoteSelf.Some? <==> Positive(seg.remotePull)
      ensures remoteSelf.Some? ==> OrZero(remoteSelf) + OrZero(urma) == Longer(seg.remotePull.value, OrZero(urma))
      // with the master's and the remote worker's share reported the bars reach the worker cost, and
      // meet it exactly when the phases nest
      ensures Positive(seg.masterProc) && Positive(seg.remotePull) ==>
                GetBars() >= OrZero(seg.getCost) && (GetBars() == OrZero(seg.getCost) <==> Nested(seg))
      // without them the query and the part of the remote get that the write leaves are in no bar
      ensures !Positive(seg.masterProc) && !Positive(seg.remotePull) ==>
                (GetBars() == OrZero(seg.getCost) - QueryMeta(seg) - (OrZero(seg.remoteDone) - OrZero(seg.urma))
                 <==> Fits(seg))
    {
      FillQuery(seg);
      FillRemote(seg);
      workerCost := seg.getCost;
      queueWait := seg.getReceive;
      otherWorker := if Positive(seg.getCost)
                     then Some(Clamp(seg.getCost.value - OrZero(queryMeta) - OrZero(seg.remoteDone) - OrZero(queueWait)))
                     else None;
    }

    /** The publish part of a SET as it is charted. */
    function PublishBars(): int
      reads this
    {
      OrZero(createMetaNet) + OrZero(masterProc) + OrZero(otherPublish)
    }

    /** The phases of a SET, with the same accounting against the publish cost. */
    method FillSet(seg: Segments)
      modifies `createMeta, `masterProc, `createMetaNet, `publishCost, `otherPublish
      ensures PublishBars() + PublishLoss(seg) == OrZero(seg.publishCost) + PublishOverlap(seg)
      ensures createMeta == seg.createMeta && publishCost == seg.publishCost
      ensures OrZero(masterProc) == OrZero(seg.masterProc)
      ensures OrZero(createMetaNet) + OrZero(masterProc) + PublishLoss(seg) ==
              OrZero(seg.createMeta) + CreateOverlap(seg)
      ensures Positive(seg.masterProc) ==>
                && PublishBars() >= OrZero(seg.publishCost)
                && (PublishBars() == OrZero(seg.publishCost) <==>
                      OrZero(seg.masterProc) <= OrZero(seg.createMeta) <= OrZero(seg.publishCost))
    {
      createMeta := seg.createMeta;
      masterProc := if Positive(seg.masterProc) then seg.masterProc else None;
      createMetaNet := if Positive(createMeta) && Positive(seg.masterProc)
                       then Some(Clamp(OrZero(createMeta) - OrZero(masterProc))) else None;
      publishCost := seg.publishCost;
      otherPublish := if Positive(seg.publishCost)
                      then Some(Clamp(seg.publishCost.value - OrZero(createMeta))) else None;
    }
  }

  // ----- what is counted twice, and what is lost -----

  function QueryMeta(seg: Segments): nat {
    OrZero(if seg.queryMetaExceed.Some? then seg.queryMetaExceed else seg.masterQuery)
  }

  /** The master took longer than the query it is part of. */
  function QueryOverlap(seg: Segments): nat {
    if OrZero(seg.masterProc) == 0 then 0 else Clamp(OrZero(seg.masterProc) - QueryMeta(seg))
  }

  /** A query without the master's share is shown nowhere. */
  function QueryLoss(seg: Segments): nat {
    if OrZero(seg.masterProc) == 0 then QueryMeta(seg) else 0
  }

  /** The pull exceeds the remote get, the write exceeds the pull. */
  function RemoteOverlap(seg: Segments): nat {
    var done, pull, urma := OrZero(seg.remoteDone), OrZero(seg.remotePull), OrZero(seg.urma);
    if pull == 0 then Clamp(urma - done) else Clamp(pull - done) + Clamp(urma - pull)
  }

  /** Of a remote get without the pull, only the write is shown. */
  function RemoteLoss(seg: Segments): nat {
    if OrZero(seg.remotePull) == 0 then Clamp(OrZero(seg.remoteDone) - OrZero(seg.urma)) else 0
  }

  function GetOverlap(seg: Segments): nat {
    // the phases together may exceed the worker cost, too
    Clamp(OrZero(seg.getReceive) + QueryMeta(seg) + OrZero(seg.remoteDone) - OrZero(seg.getCost))
    + QueryOverlap(seg) + RemoteOverlap(seg)
  }

  function GetLoss(seg: Segments): nat {
    QueryLoss(seg) + RemoteLoss(seg)
  }

  function CreateOverlap(seg: Segments): nat {
    if OrZero(seg.masterProc) == 0 then 0 else Clamp(OrZero(seg.masterProc) - OrZero(seg.createMeta))
  }

  function PublishOverlap(seg: Segments): nat {
    Clamp(OrZero(seg.createMeta) - OrZero(seg.publishCost)) + CreateOverlap(seg)
  }

  function PublishLoss(seg: Segments): nat {
    if OrZero(seg.masterProc) == 0 then OrZero(seg.createMeta) else 0
  }

  /** Each phase fits into the one it is part of, and all of them into the worker cost. */
  predicate Nested(seg: Segments) {
    && OrZero(seg.masterProc) <= QueryMeta(seg)
    && OrZero(seg.urma) <= OrZero(seg.remotePull) <= OrZero(seg.remoteDone)
    && OrZero(seg.getReceive) + QueryMeta(seg) + OrZero(seg.remoteDone) <= OrZero(seg.getCost)
  }

  /** The phases fit into the worker cost. */
  predicate Fits(seg: Segments) {
    OrZero(seg.getReceive) + QueryMeta(seg) + OrZero(seg.remoteDone) <= OrZero(seg.getCost)
  }

  lemma InsideIffWindow(accesses: seq<Access>, start: int, end: int)
    requires accesses != []
    ensures Inside(accesses, start, end) <==> start <= MinStart(accesses) && MaxEnd(accesses) <= end
  {
    hide MinStart, MaxEnd;
    WindowIs(accesses);
  }

  /** The earliest start and the latest end, as the source collects them. */
  method Window(accesses: seq<Access>) returns (first: int, last: int)
    requires accesses != []
    ensures first == MinStart(accesses) && last == MaxEnd(accesses) && IsWindow(accesses, first, last)
  {
    hide IsWindow;
    first, last := Start(accesses[0]), accesses[0].end;
    for i := 1 to |accesses|
      invariant first == MinStart(accesses[..i]) && last == MaxEnd(accesses[..i])
    {
      assert accesses[..i + 1][..i] == accesses[..i];
      if Start(accesses[i]) < first {
        first := Start(accesses[i]);
      }
      if accesses[i].end > last {
        last := accesses[i].end;
      }
    }
    assert accesses[..|accesses|] == accesses;
    WindowIs(accesses);
  }

  method LongestOf(accesses: seq<Access>, kind: string) returns (m: nat)
    ensures m == MaxDuration(accesses, kind) && IsLongest(m, accesses, kind)
  {
    MaxDurationIsLongest(accesses, kind);
    m := 0;
    for i := 0 to |accesses|
      invariant m == MaxDuration(accesses[..i], kind)
    {
      assert accesses[..i + 1][..i] == accesses[..i];
      if Contains(accesses[i].operation, kind) && accesses[i].duration > m {
        m := accesses[i].duration;
      }
    }
    assert accesses[..|accesses|] == accesses;
  }
}
