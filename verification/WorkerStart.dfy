/** `dscli start` supervising a worker: probe the store lock, launch, poll, classify exits, retry,
    all under one deadline. */
module WorkerStart {
  import opened Numbers
  import opened Text
  import opened Processes
  import opened WorkerOutput

  /** How a start can end. The first is a normal return, the others are raised. */
  datatype Outcome =
    | Ready(child: nat)
    | Invalid                      // parameters rejected before anything is launched
    | AddressInUse
    | StoreLocked(retries: nat)
    | Abnormal

  /** How polling one child can end. */
  datatype Watched = Success | Retry(retries: nat) | Failed(outcome: Outcome) | TimedOut

  /** `profiling`: heap profiling was not asked for, or the package offers it; `wellFormed`: the
      bind address, or else the worker address, passes the address check; `buildable`: the command
      line (`CommandLine.BuildCommand`) and the profiling options (`JemallocConf.Normalize`) are
      accepted; `safePath`: the health path passes the path check. */
  datatype WorkerParams = WorkerParams(
    profiling: bool, coordinatorAddress: string, etcdAddress: string, workerAddress: string, wellFormed: bool,
    buildable: bool, healthCheckPath: string, safePath: bool)

  /** Rejected without so much as a look at the address. */
  predicate Unfit(params: WorkerParams) {
    || !params.profiling || (params.coordinatorAddress == "") == (params.etcdAddress == "")
    || params.workerAddress == "" || !params.wellFormed
  }

  /** What a start needs: profiling that the package offers, if it is asked for; a coordinator or an
      ETCD, and not both; and a worker address, with one to bind to that passes the check. */
  ghost predicate Fit(params: WorkerParams) {
    && params.profiling && params.workerAddress != "" && params.wellFormed
    && (params.coordinatorAddress != "" ==> params.etcdAddress == "")
    && (params.etcdAddress == "" ==> params.coordinatorAddress != "")
  }

  ghost predicate LockTrouble(kind: Kind) {
    kind.LockBusy? || (kind.Printed? && kind.reason.LockConflict?)
  }

  /** What an exit means to the start, by what the output told. */
  ghost function Verdict(reason: Reason, retries: nat, retryable: bool): Result<nat, Outcome> {
    match reason
    case AddressConflict => Err(AddressInUse)
    case LockConflict => if retryable then Ok(retries + 1) else Err(StoreLocked(retries + 1))
    case _ => Err(Abnormal)
  }

  /** The last thing that happened accounts for the outcome. */
  ghost predicate Tells(kind: Kind, outcome: Outcome) {
    match outcome
    case Ready(_) => kind.HealthSeen?
    case Invalid => false
    case AddressInUse => kind.Printed? && kind.reason.AddressConflict?
    case StoreLocked(_) => LockTrouble(kind)
    case Abnormal => kind.SpawnFailed? || IsKill(kind) || (kind.Printed? && (kind.reason.Unread? || kind.reason.Unknown?))
  }

  /** The last thing that was met from `from` on, a sleep aside. */
  ghost function Met(trace: seq<Event>, from: nat): Kind
    requires from < |trace|
  {
    var n := |trace|;
    if trace[n - 1].kind.Slept? && n - 2 >= from then trace[n - 2].kind else trace[n - 1].kind
  }

  /** Why the supervision loop ended as it did at `now`: the last thing met tells, or there was no
      time for any. A lock conflict only ends it when the time is up. */
  ghost predicate Explained(events: seq<Event>, outcome: Outcome, deadline: real, now: real) {
    && (if events == [] then outcome.Abnormal? && now >= deadline
        else IsProbe(events[0].kind) && Tells(Met(events, 0), outcome))
    && (outcome.StoreLocked? ==> now >= deadline)
  }

  ghost predicate IsProbe(kind: Kind) { kind.LockBusy? || kind.LockFree? }

  /** The same of the events from `mark` on. */
  ghost predicate ExplainedFrom(trace: seq<Event>, mark: nat, outcome: Outcome, deadline: real, now: real) {
    && mark <= |trace|
    && (if mark == |trace| then outcome.Abnormal? && now >= deadline
        else IsProbe(trace[mark].kind) && Tells(Met(trace, mark), outcome))
    && (outcome.StoreLocked? ==> now >= deadline)
  }

  lemma ExplainedRun(trace: seq<Event>, mark: nat, outcome: Outcome, deadline: real, earlier: real, now: real)
    requires ExplainedFrom(trace, mark, outcome, deadline, now) && earlier <= deadline
    ensures Explained(trace[mark..], outcome, earlier, now)
  {
  }

  lemma ExplainedEarlier(events: seq<Event>, outcome: Outcome, deadline: real, earlier: real, now: real)
    requires Explained(events, outcome, deadline, now) && earlier <= deadline
    ensures Explained(events, outcome, earlier, now)
  {
  }

  /** The loop itself sees none of the things that end a start before it. */
  lemma ExplainedStart(params: WorkerParams, events: seq<Event>, outcome: Outcome, deadline: real, now: real)
    requires Fit(params) && params.buildable && params.healthCheckPath != "" && params.safePath
    requires events != [] && events[0].kind == AddressFree && Explained(events[1..], outcome, deadline, now)
    ensures StartExplained(params, events, outcome, deadline, now)
  {
  }

  /** Why a start ended as it did: rejected parameters, an address that answers, a health path that
      is missing, unsafe or cannot be cleared, or the loop. No loop without a look at the address. */
  ghost predicate StartExplained(params: WorkerParams, events: seq<Event>, outcome: Outcome, deadline: real, now: real) {
    if !Fit(params) then outcome.Invalid? && events == []
    else if events == [] then false
    else if events[0].kind == AddressBusy then outcome.AddressInUse? && |events| == 1
    else
      && events[0].kind == AddressFree
      && if !params.buildable then outcome.Invalid? && |events| == 1
         else if params.healthCheckPath == "" || !params.safePath then outcome.Abnormal? && |events| == 1
         else if |events| > 1 && events[1].kind == RemoveFailed then outcome.Abnormal? && |events| == 2
         else Explained(events[1..], outcome, deadline, now)
  }

  // ----- how the time is spent -----

  /** A sleep of a second, or until the deadline if that is sooner. */
  ghost predicate IsNap(e: Event, deadline: real) {
    e.kind == Slept(if e.at + 1.0 <= deadline then 1.0 else if e.at <= deadline then deadline - e.at else 0.0)
  }

  /** Sleep `i` lasts a second, or until the deadline if that is sooner, and comes right after trouble
      with the lock or after a child was found running without its health file. */
  ghost predicate NapAt(trace: seq<Event>, i: nat, deadline: real)
    requires i < |trace|
  {
    && IsNap(trace[i], deadline)
    && i > 0
    && (LockTrouble(trace[i - 1].kind) || (i > 1 && trace[i - 1].kind == HealthMissing && trace[i - 2].kind.SawAlive?))
  }

  /** All time from `from` on is spent looking: no sleep without a look of its own right before it. */
  ghost predicate Paced(trace: seq<Event>, from: nat, deadline: real) {
    forall i: nat {:trigger NapAt(trace, i, deadline)} :: from <= i < |trace| && trace[i].kind.Slept? ==> NapAt(trace, i, deadline)
  }

  /** The same for some deadline no earlier than `earliest`. */
  ghost predicate Watchful(events: seq<Event>, earliest: real) {
    exists deadline :: earliest <= deadline && Paced(events, 0, deadline)
  }

  ghost predicate NoNaps(trace: seq<Event>, from: nat) {
    forall i :: from <= i < |trace| ==> !trace[i].kind.Slept?
  }

  lemma PacedThen(trace: seq<Event>, more: seq<Event>, from: nat, deadline: real)
    requires trace <= more && Paced(trace, from, deadline) && Paced(more, |trace|, deadline)
    ensures Paced(more, from, deadline)
  {
    forall i: nat | from <= i < |more| && more[i].kind.Slept? ensures NapAt(more, i, deadline) {
      if i < |trace| {
        assert forall k :: 0 <= k < |trace| ==> more[k] == trace[k];
        assert NapAt(trace, i, deadline);
      }
    }
  }

  lemma PacedNone(trace: seq<Event>, deadline: real)
    ensures Paced(trace, |trace|, deadline)
  {
  }

  lemma PacedWithout(trace: seq<Event>, from: nat, deadline: real)
    requires NoNaps(trace, from)
    ensures Paced(trace, from, deadline)
  {
  }

  /** One more sleep, with its reason right before it. */
  lemma PacedNap(trace: seq<Event>, more: seq<Event>, from: nat, deadline: real)
    requires |more| == |trace| + 1 && trace <= more && Paced(trace, from, deadline)
    requires IsNap(more[|trace|], deadline)
    requires LastAllowsNap(trace)
    ensures Paced(more, from, deadline)
  {
    assert forall k :: 0 <= k < |trace| ==> more[k] == trace[k];
    assert NapAt(more, |trace|, deadline);
    PacedThen(trace, more, from, deadline);
  }

  ghost predicate LastAllowsNap(trace: seq<Event>) {
    var n := |trace|;
    && n > 0
    && (LockTrouble(trace[n - 1].kind) || (n > 1 && trace[n - 1].kind == HealthMissing && trace[n - 2].kind.SawAlive?))
  }

  /** What went on before a run gives no reason for a sleep in it, since its first events are none. */
  lemma PacedRun(trace: seq<Event>, mark: nat, deadline: real)
    requires mark <= |trace| && Paced(trace, mark, deadline)
    requires mark < |trace| ==> Opening(trace[mark].kind)
    ensures Paced(trace[mark..], 0, deadline)
  {
    var events := trace[mark..];
    forall i: nat | i < |events| && events[i].kind.Slept? ensures NapAt(events, i, deadline) {
      assert NapAt(trace, mark + i, deadline);
      assert events[i] == trace[mark + i];
      assert i > 0 ==> events[i - 1] == trace[mark + i - 1];
      assert i > 1 ==> events[i - 2] == trace[mark + i - 2];
    }
  }

  /** What a run can begin with. */
  ghost predicate Opening(kind: Kind) { IsProbe(kind) || kind == AddressFree }

  /** What a run of the supervision loop did, judged from its events alone; `deadline` is no earlier
      than `limit` seconds after the run began, `first` the first process it could launch, `stood`
      says that something stood at the health path all along. */
  ghost predicate WellSupervised(events: seq<Event>, outcome: Outcome, limit: nat, deadline: real, first: nat, stood: bool) {
    var t := Sum(events);
    // never two children that could both be running
    && (forall k :: 0 <= k <= |events| ==> |Sum(events[..k]).open| <= 1)
    // no launch without a fresh probe that found the store lock free
    && ProbedFirst(events)
    // success: the child polled alive and the health file was seen right after
    && (outcome.Ready? ==>
          && |events| >= 2
          && events[|events| - 2].kind == SawAlive(outcome.child)
          && events[|events| - 1].kind.HealthSeen?
          && t.open == {outcome.child})
    // and a health file is never seen without that being the end of it
    && (forall i :: 0 <= i < |events| && events[i].kind.HealthSeen? ==> outcome.Ready? && i == |events| - 1)
    // one signal at most, and that a kill of the child, tried after the whole time
    && (forall i :: 0 <= i < |events| && IsSignal(events[i].kind) ==>
          && i == |events| - 1 && IsKill(events[i].kind) && events[i].kind.child >= first
          && events[i].at >= deadline && !outcome.Ready?)
    // what stands at the health path all along is as good as ready for a child polled in time
    && (stood && !outcome.Ready? ==> forall i :: 0 <= i < |events| && events[i].kind.SawAlive? ==> events[i].at >= deadline)
    // failure: the last child has exited or was killed, unless killing it was refused
    && (!outcome.Ready? ==>
          || t.open == {}
          || (|events| > 0 && events[|events| - 1].kind.Refused? && t.open == {events[|events| - 1].kind.child}))
    // every lock-blocked probe and every launch takes a second of the deadline
    && t.rounds <= limit
    // no sleep without a look of its own right before it
    && Watchful(events, deadline)
    // a lock conflict is reported exactly when it was the last thing met, with the count of them all
    && (outcome.StoreLocked? <==> |events| > 0 && LockTrouble(Met(events, 0)))
    && (outcome.StoreLocked? ==> outcome.retries == t.conflicts > 0)
  }

  /** No launch, no signal. */
  ghost predicate OnlyLooked(t0: Tally, t: Tally) {
    t.peak == t0.peak && t.rounds == t0.rounds && t.guarded == t0.guarded && t.signals == t0.signals
  }

  /** What polling child `c` does to the tally, by how it ended. */
  ghost predicate Explains(r: Watched, c: nat, retries: nat, t0: Tally, t: Tally) {
    && OnlyLooked(t0, t)
    && t.open == (if r.Success? || r.TimedOut? then t0.open else t0.open - {c})
    && t.conflicts == t0.conflicts + (if r.Retry? then 1 else 0)
    && t.healthy == t0.healthy + (if r.Success? then 1 else 0)
    && (r.Retry? ==> r.retries == retries + 1)
    && (r.Failed? ==> r.outcome.AddressInUse? || r.outcome.Abnormal?)
  }

  /** What one launch does to the tally: at most one more round, never two children. */
  ghost predicate Launched(r: Result<nat, Outcome>, t0: Tally, t: Tally) {
    && (t0.peak <= 1 ==> t.peak <= 1) && (t0.guarded ==> t.guarded) && t0.rounds <= t.rounds <= t0.rounds + 1
    && (r.Ok? ==>
          && t.open == {} && t.conflicts == t0.conflicts + 1 && t.rounds == t0.rounds + 1
          && t.signals == t0.signals && t.healthy == t0.healthy)
    && (r.Err? ==> t.conflicts == t0.conflicts + if r.error.StoreLocked? then 1 else 0)
  }

  /** What seeing one child through does to the tally. */
  ghost predicate SeenThrough(r: Result<nat, Outcome>, retries: nat, t0: Tally, t: Tally) {
    && t.peak == t0.peak && t.guarded == t0.guarded && t.rounds == t0.rounds
    && match r
       case Ok(n) => n == retries + 1 && t.open == {} && t.conflicts == t0.conflicts + 1 && t.signals == t.healthy == 0
       case Err(StoreLocked(n)) => n == retries + 1 && t.conflicts == t0.conflicts + 1
       case Err(e) => !e.Invalid? && t.conflicts == t0.conflicts
  }

  /** What giving up on the one open child does to the tally: it is open no more, unless the kill
      was refused. */
  ghost predicate GivenUp(outcome: Outcome, retries: nat, t0: Tally, t: Tally) {
    && t.peak == t0.peak && t.rounds == t0.rounds && t.guarded == t0.guarded && t.healthy == t0.healthy
    && (outcome.StoreLocked? || outcome.AddressInUse? || outcome.Abnormal?)
    && t.conflicts == t0.conflicts + (if outcome.StoreLocked? then 1 else 0)
    && (outcome.StoreLocked? ==> outcome.retries == retries + 1)
    && (t.signals == t0.signals || (outcome.Abnormal? && t.signals == t0.signals + 1))
    && (t.open == {} || (t.open == t0.open && t.signals > t0.signals))
  }

  /** Child `c` polled alive, then what stands at the health path was seen. */
  ghost predicate SeenReady(trace: seq<Event>, c: nat, disk: Disk) {
    && |trace| >= 2 && trace[|trace| - 2].kind == SawAlive(c)
    && disk.health.Some? && Ends(trace, HealthSeen(disk.health.value))
  }

  lemma SeenSomething(trace: seq<Event>, disk: Disk)
    ensures forall c {:trigger SeenReady(trace, c, disk)} :: SeenReady(trace, c, disk) ==> disk.health.Some?
  {
  }

  /** The last thing seen is what child `c` printed. */
  ghost predicate HasPrinted(trace: seq<Event>, c: nat) {
    trace != [] && trace[|trace| - 1].kind.Printed? && trace[|trace| - 1].kind.child == c
  }

  ghost function LastReason(trace: seq<Event>): Reason {
    if trace != [] && trace[|trace| - 1].kind.Printed? then trace[|trace| - 1].kind.reason else Unread
  }

  /** How watching child `c` ended is what its output told. */
  ghost predicate ToldBy(r: Watched, trace: seq<Event>, c: nat) {
    && HasPrinted(trace, c)
    && match LastReason(trace)
       case AddressConflict => r == Failed(AddressInUse)
       case LockConflict => r.Retry?
       case _ => r == Failed(Abnormal)
  }

  /** The last thing met was trouble with the lock, and a sleep followed. */
  ghost predicate Blocked(trace: seq<Event>) {
    |trace| >= 2 && trace[|trace| - 1].kind.Slept? && LockTrouble(trace[|trace| - 2].kind)
  }

  ghost predicate Ends(trace: seq<Event>, kind: Kind) {
    trace != [] && trace[|trace| - 1].kind == kind
  }

  /** The last things seen and done when a start is over; `first` is the first process of the run. */
  ghost predicate EndsWell(trace: seq<Event>, t: Tally, outcome: Outcome, disk: Disk, deadline: real, first: nat) {
    var n := |trace|;
    if outcome.Ready? then
      && t.open == {outcome.child} && t.signals == 0 && t.healthy == 1
      && SeenReady(trace, outcome.child, disk)
    else
      && t.healthy == 0
      && (t.open == {} || (n > 0 && t.signals == 1 && trace[n - 1].kind.Refused? && t.open == {trace[n - 1].kind.child}))
      && (t.signals == 0 || (t.signals == 1 && KilledLast(trace, deadline, first)))
  }

  ghost predicate KilledLast(trace: seq<Event>, deadline: real, first: nat) {
    var n := |trace|;
    n > 0 && IsKill(trace[n - 1].kind) && trace[n - 1].at >= deadline && trace[n - 1].kind.child >= first
  }

  /** No child was polled alive, or only one that was then killed, and that after the deadline. */
  ghost predicate PolledLate(trace: seq<Event>, t: Tally, deadline: real) {
    var n := |trace|;
    || t.polls == 0
    || (t.polls == t.signals == 1 && n >= 2 && trace[n - 2].kind.SawAlive? && trace[n - 2].at >= deadline)
  }

  /** Something that is no regular file stood at the health path, and no one else touched it. */
  ghost predicate StoodOutside(d0: Disk, d: Disk) {
    Stood(d0, d) && !d0.health.value.regular
  }

  /** At most the look at the address has been made in the run that began at `mark`. */
  ghost predicate JustBegun(trace: seq<Event>, mark: nat) {
    mark <= |trace| <= mark + 1 && (|trace| > mark ==> trace[mark].kind == AddressFree)
  }

  ghost function Limit(timeout: int): nat { if timeout > 0 then timeout else 0 }

  /** How many events a run has at least. */
  ghost function AtLeast(outcome: Outcome, t: Tally): nat {
    if outcome.Ready? || t.signals > 0 then 2 else 0
  }

  /** What the tally of a run that began at `mark` says of a good end. */
  ghost predicate Concluded(trace: seq<Event>, mark: nat, t: Tally, outcome: Outcome, disk: Disk, limit: nat,
                            deadline: real, first: nat, stood: bool) {
    && EndsWell(trace, t, outcome, disk, deadline, first)
    && |trace| - mark >= AtLeast(outcome, t)
    && (stood && !outcome.Ready? ==> PolledLate(trace, t, deadline))
    && (outcome.StoreLocked? <==> |trace| > mark && LockTrouble(Met(trace, mark)))
    && Paced(trace, mark, deadline) && (|trace| > mark ==> Opening(trace[mark].kind))
    && t.peak <= 1 && t.rounds <= limit && t.guarded
    && (outcome.StoreLocked? ==> outcome.retries == t.conflicts > 0)
  }

  lemma EndsWellFrom(trace: seq<Event>, t: Tally, outcome: Outcome, disk: Disk, deadline: real, first: nat, lower: nat)
    requires EndsWell(trace, t, outcome, disk, deadline, first) && lower <= first
    ensures EndsWell(trace, t, outcome, disk, deadline, lower)
  {
  }

  lemma EndsReady(trace: seq<Event>, t: Tally, outcome: Outcome, disk: Disk, deadline: real, first: nat)
    requires EndsWell(trace, t, outcome, disk, deadline, first)
    ensures outcome.Ready? ==> SeenReady(trace, outcome.child, disk)
  {
  }

  lemma EndsIdle(trace: seq<Event>, t: Tally, outcome: Outcome, disk: Disk, deadline: real, first: nat)
    requires !outcome.Ready? && t.open == {} && t.signals == t.healthy == 0
    ensures EndsWell(trace, t, outcome, disk, deadline, first)
  {
  }

  lemma NeverTwo(events: seq<Event>)
    requires Sum(events).peak <= 1
    ensures forall k :: 0 <= k <= |events| ==> |Sum(events[..k]).open| <= 1
  {
    forall k | 0 <= k <= |events| ensures |Sum(events[..k]).open| <= 1 {
      PeakBoundsEveryPrefix(events, k);
    }
  }

  lemma FromSum(trace: seq<Event>, mark: nat, events: seq<Event>, outcome: Outcome, disk: Disk, limit: nat,
                deadline: real, first: nat, stood: bool)
    requires mark <= |trace| && events == trace[mark..]
    requires Concluded(trace, mark, Sum(events), outcome, disk, limit, deadline, first, stood)
    ensures WellSupervised(events, outcome, limit, deadline, first, stood)
  {
    hide Paced, Sum;
    var n := |events|;
    assert n > 0 ==> events[n - 1] == trace[|trace| - 1];
    assert n > 1 ==> events[n - 2] == trace[|trace| - 2];
    NeverTwo(events);
    GuardedMeansProbed(events);
    LastOnly(events);
    PacedRun(trace, mark, deadline);
    assert Watchful(events, deadline);
    if stood && !outcome.Ready? {
      LatePolls(events, deadline);
    }
  }

  /** The tally of a run, put in terms of its events, as seen from a little earlier. */
  lemma FromTally(trace: seq<Event>, mark: nat, t: Tally, outcome: Outcome, disk: Disk, limit: nat,
                  deadline: real, first: nat, stood: bool, earlier: real, stoodLonger: bool)
    requires mark <= |trace| && t == Sum(trace[mark..])
    requires Concluded(trace, mark, t, outcome, disk, limit, deadline, first, stood)
    requires earlier <= deadline && (stoodLonger ==> stood)
    ensures WellSupervised(trace[mark..], outcome, limit, earlier, first, stoodLonger)
  {
    hide Concluded, WellSupervised, Sum;
    FromSum(trace, mark, trace[mark..], outcome, disk, limit, deadline, first, stood);
    SupervisedEarlier(trace[mark..], outcome, limit, deadline, first, stood, earlier, stoodLonger);
  }

  lemma SupervisedEarlier(events: seq<Event>, outcome: Outcome, limit: nat, deadline: real, first: nat, stood: bool,
                          earlier: real, stoodLonger: bool)
    requires WellSupervised(events, outcome, limit, deadline, first, stood)
    requires earlier <= deadline && (stoodLonger ==> stood)
    ensures WellSupervised(events, outcome, limit, earlier, first, stoodLonger)
  {
    hide Sum, ProbedFirst, Paced;
  }

  /** One signal at most, or one sight of the health file at most, and that at the end: none before. */
  lemma LastOnly(events: seq<Event>)
    ensures var t, n := Sum(events), |events| - 1;
            (t.signals == 0 || (n >= 0 && t.signals == 1 && IsSignal(events[n].kind))) ==>
              forall i :: 0 <= i < n ==> !IsSignal(events[i].kind)
    ensures var t, n := Sum(events), |events| - 1;
            (t.healthy == 0 || (n >= 0 && t.healthy == 1 && events[n].kind.HealthSeen?)) ==>
              forall i :: 0 <= i < n ==> !events[i].kind.HealthSeen?
    ensures Sum(events).signals == 0 && events != [] ==> !IsSignal(events[|events| - 1].kind)
    ensures Sum(events).healthy == 0 && events != [] ==> !events[|events| - 1].kind.HealthSeen?
  {
    if events != [] {
      hide Sum;
      var before, last := events[..|events| - 1], events[|events| - 1];
      assert events == before + [last];
      CountsAppend(before, last);
      CountsAreExact(before);
      assert forall i :: 0 <= i < |before| ==> before[i] == events[i];
    }
  }

  lemma CountsAppend(events: seq<Event>, e: Event)
    ensures Sum(events + [e]).signals == Sum(events).signals + if IsSignal(e.kind) then 1 else 0
    ensures Sum(events + [e]).healthy == Sum(events).healthy + if e.kind.HealthSeen? then 1 else 0
  {
    hide Sum, Step;
    SumAppend(events, e);
    CountsStep(Sum(events), e.kind);
  }

  lemma PollsAppend(events: seq<Event>, e: Event)
    ensures Sum(events + [e]).polls == Sum(events).polls + if e.kind.SawAlive? then 1 else 0
  {
    hide Sum, Step;
    SumAppend(events, e);
    CountsStep(Sum(events), e.kind);
  }

  lemma LatePolls(events: seq<Event>, deadline: real)
    requires PolledLate(events, Sum(events), deadline)
    requires Sum(events).signals > 0 ==> |events| >= 2 && IsSignal(events[|events| - 1].kind)
    ensures forall i :: 0 <= i < |events| && events[i].kind.SawAlive? ==> events[i].at >= deadline
  {
    if Sum(events).polls == 0 {
      CountsAreExact(events);
    } else {
      var n := |events|;
      assert events == events[..n - 2] + [events[n - 2]] + [events[n - 1]];
      OnePoll(events[..n - 2], events[n - 2], events[n - 1]);
    }
  }

  lemma OnePoll(earlier: seq<Event>, poll: Event, last: Event)
    requires Sum(earlier + [poll] + [last]).polls == 1 && poll.kind.SawAlive? && !last.kind.SawAlive?
    ensures forall i :: 0 <= i < |earlier| ==> !earlier[i].kind.SawAlive?
  {
    PollsAppend(earlier + [poll], last);
    PollsAppend(earlier, poll);
    CountsAreExact(earlier);
  }

  /** So many turns into a run that began at `start`, so many seconds have gone by. */
  ghost predicate OnTime(rounds: nat, start: real, t: real) {
    t - start >= rounds as real
  }

  lemma TimeForTurn(rounds: nat, start: real, t: real, timeout: int)
    requires OnTime(rounds, start, t) && t < start + timeout as real
    ensures rounds < Limit(timeout)
  {
    assert rounds as real < timeout as real;
  }

  lemma OneSecondOn(rounds: nat, start: real, began: real, slept: real, t: real, deadline: real)
    requires OnTime(rounds, start, began) && t >= slept >= Min(began + 1.0, deadline)
    ensures t < deadline ==> OnTime(rounds + 1, start, t)
  {
    assert (rounds + 1) as real == rounds as real + 1.0;
  }

  lemma AtStart(start: real, t: real)
    requires start <= t
    ensures OnTime(0, start, t)
  {
  }

  lemma LaterStill(rounds: nat, start: real, t: real, u: real)
    requires OnTime(rounds, start, t) && t <= u
    ensures OnTime(rounds, start, u)
  {
  }

  lemma NoPolls(trace: seq<Event>, t: Tally, deadline: real)
    ensures t.polls == 0 ==> PolledLate(trace, t, deadline)
  {
  }

  /** A start that ends before the loop. */
  ghost predicate StartsNot(params: WorkerParams, events: seq<Event>, outcome: Outcome) {
    if !Fit(params) then outcome.Invalid? && events == []
    else if events == [] then false
    else if events[0].kind == AddressBusy then |events| == 1 && outcome.AddressInUse?
    else
      && events[0].kind == AddressFree
      && if !params.buildable then |events| == 1 && outcome.Invalid?
         else if params.healthCheckPath == "" || !params.safePath then |events| == 1 && outcome.Abnormal?
         else |events| == 2 && events[1].kind == RemoveFailed && outcome.Abnormal?
  }

  lemma HardlyAnything(params: WorkerParams, events: seq<Event>, outcome: Outcome, limit: nat, deadline: real, now: real,
                       first: nat, stood: bool)
    requires StartsNot(params, events, outcome)
    ensures !outcome.Ready? && WellSupervised(events, outcome, limit, deadline, first, stood)
    ensures StartExplained(params, events, outcome, deadline, now)
  {
    NothingTallied(events);
    forall k | 0 <= k <= |events| ensures Sum(events[..k]) == NOTHING {
      NothingTallied(events[..k]);
    }
    assert Paced(events, 0, deadline);
  }

  lemma {:induction false} NothingTallied(events: seq<Event>)
    requires forall i :: 0 <= i < |events| ==> events[i].kind in {AddressBusy, AddressFree, RemoveFailed}
    ensures Sum(events) == NOTHING
  {
    if events != [] {
      var last := |events| - 1;
      assert forall i :: 0 <= i < last ==> events[..last][i] == events[i];
      NothingTallied(events[..last]);
      assert events[last].kind in {AddressBusy, AddressFree, RemoveFailed};
    }
  }

  class StartCommand {
    var timeout: int

    constructor (timeout: int)
      ensures this.timeout == timeout
    {
      this.timeout := timeout;
    }

    /** Classify a worker exit. Ok carries the retry count to go on with: unchanged when the worker
        turns out to be running. Otherwise what the output told decides. */
    method HandleExited(w: World, c: nat, retries: nat, retryable: bool) returns (r: Result<nat, Outcome>)
      requires w.Valid() && c < |w.alive|
      modifies w
      ensures w.Valid() && w.Drifted() && w.SameRun() && |old(w.trace)| < |w.trace|
      ensures r == Ok(retries) ==>
                && old(w.alive)[c] && Ends(w.trace, SawAlive(c)) && |w.trace| == |old(w.trace)| + 1
                && w.tally == old(w.tally).(polls := old(w.tally).polls + 1)
      ensures r != Ok(retries) ==>
                && HasPrinted(w.trace, c) && |w.trace| == |old(w.trace)| + 2 && w.trace[|w.trace| - 2].kind == SawExit(c)
                && r == Verdict(LastReason(w.trace), retries, retryable)
                && w.tally == old(w.tally).(open := old(w.tally).open - {c},
                                            conflicts := old(w.tally).conflicts + if LastReason(w.trace).LockConflict? then 1 else 0)
      ensures r != Ok(retries) && !LastReason(w.trace).Unread? ==> LastReason(w.trace) == ReasonIn(Some(w.said(c)))
    {
      hide AllTruthful, IsAddressConflict, IsStoreLockConflict;
      var exited := w.Exited(c);
      if !exited {
        return Ok(retries);
      }
      var output := w.Communicate(c);
      if output.None? {
        return Err(Abnormal);
      }
      if IsAddressConflict(output.value) {
        return Err(AddressInUse);
      }
      if IsStoreLockConflict(output.value) {
        return if retryable then Ok(retries + 1) else Err(StoreLocked(retries + 1));
      }
      return Err(Abnormal);
    }

    /** Sleep one second, or what is left until the deadline if that is less. */
    method SleepWithin(w: World, deadline: real)
      requires w.Valid()
      modifies w
      ensures w.Valid() && w.Drifted() && w.SameRun() && w.tally == old(w.tally) && w.now >= Min(old(w.now) + 1.0, deadline)
      ensures |w.trace| == |old(w.trace)| + 1 && IsNap(w.trace[|old(w.trace)|], deadline)
    {
      var t := w.Clock();
      w.Sleep(Min(1.0, Max(0.0, deadline - t)));
    }

    /** One poll of a launched child: None while it runs without its health file. */
    method PollOnce(w: World, c: nat, retries: nat) returns (r: Option<Watched>)
      requires w.Valid() && c < |w.alive|
      modifies w
      ensures w.Valid() && w.Drifted() && w.SameRun()
      ensures r.None? ==> w.tally == old(w.tally).(polls := old(w.tally).polls + 1)
      ensures r.None? || r.value.Success? ==> (r.Some? <==> w.disk.health.Some?)
      ensures NoNaps(w.trace, |old(w.trace)|)
      ensures r.None? ==>
                && |w.trace| == |old(w.trace)| + 2
                && w.trace[|old(w.trace)|].kind == SawAlive(c) && w.trace[|old(w.trace)| + 1].kind == HealthMissing
                && LastAllowsNap(w.trace)
      ensures r.Some? && !r.value.Success? ==> w.tally.polls == old(w.tally).polls
      ensures r.Some? ==> !r.value.TimedOut? && Explains(r.value, c, retries, old(w.tally), w.tally)
      ensures r == Some(Success) ==>
                |w.trace| >= |old(w.trace)| + 2 && SeenReady(w.trace, c, w.disk)
      ensures r.Some? && !r.value.Success? ==> ToldBy(r.value, w.trace, c)
    {
      hide w.Valid;
      var exited := w.Exited(c);
      if exited {
        var next := HandleExited(w, c, retries, true);
        if next.Err? {
          return Some(Failed(next.error));
        }
        if next.value > retries {
          return Some(Retry(next.value));
        }
      }
      var ready := w.HealthFileExists();
      return if ready then Some(Success) else None;
    }

    /** The polling loop over one launched child. */
    method Watch(w: World, c: nat, retries: nat, deadline: real) returns (r: Watched)
      requires w.Valid() && c < |w.alive|
      modifies w
      ensures w.Valid() && w.Drifted() && w.SameRun()
      ensures Explains(r, c, retries, old(w.tally), w.tally)
      ensures r.TimedOut? ==> w.now >= deadline
      ensures Paced(w.trace, |old(w.trace)|, deadline)
      ensures r.Success? ==>
                |w.trace| >= |old(w.trace)| + 2 && SeenReady(w.trace, c, w.disk)
      ensures r.Retry? || r.Failed? ==> ToldBy(r, w.trace, c)
      ensures Stood(old(w.disk), w.disk) && !r.Success? ==> w.tally.polls == old(w.tally).polls
    {
      hide w.Valid, Step, Paced, IsNap, NoNaps, LastAllowsNap, SeenReady, ToldBy;
      var t := w.Clock();
      PacedNone(w.trace, deadline);
      while t < deadline
        invariant w.Valid() && w.Drifted() && w.SameRun()
        invariant w.tally == old(w.tally).(polls := w.tally.polls)
        invariant Paced(w.trace, |old(w.trace)|, deadline)
        invariant Stood(old(w.disk), w.disk) ==> w.tally.polls == old(w.tally).polls
        invariant t <= w.now
        decreases if t < deadline then (deadline - t).Floor + 1 else 0
      {
        ghost var before := w.trace;
        var poll := PollOnce(w, c, retries);
        PacedWithout(w.trace, |before|, deadline);
        PacedThen(before, w.trace, |old(w.trace)|, deadline);
        if poll.Some? {
          return poll.value;
        }
        ghost var polled := w.trace;
        SleepWithin(w, deadline);
        PacedNap(polled, w.trace, |old(w.trace)|, deadline);
        t := w.Clock();
      }
      r := TimedOut;
    }

    /** One kill; whether it went out, found no one or was refused makes no difference here. */
    method KillChild(w: World, c: nat)
      requires w.Valid() && c < |w.alive|
      modifies w
      ensures w.Valid() && w.Drifted() && w.SameRun() && |w.trace| == |old(w.trace)| + 1
      ensures w.tally == old(w.tally).(signals := old(w.tally).signals + 1, open := w.tally.open)
      ensures if Ends(w.trace, Refused(c, Kill)) then w.tally.open == old(w.tally).open else w.tally.open == old(w.tally).open - {c}
      ensures var last := w.trace[|w.trace| - 1];
              IsKill(last.kind) && last.kind.child == c && old(w.now) <= last.at
    {
      var signal := w.Kill(c);
    }

    /** A child that is not ready at the deadline: classify it if it has just exited, else kill it. */
    method GiveUp(w: World, c: nat, retries: nat) returns (outcome: Outcome)
      requires w.Valid() && c < |w.alive| && w.tally.open == {c}
      modifies w
      ensures w.Valid() && w.Drifted() && w.SameRun() && |old(w.trace)| < |w.trace|
      ensures GivenUp(outcome, retries, old(w.tally), w.tally)
      ensures w.tally.open == {c} ==> Ends(w.trace, Refused(c, Kill))
      ensures if w.tally.signals > old(w.tally).signals then
                && |w.trace| >= |old(w.trace)| + 2 && w.tally.polls == old(w.tally).polls + 1
                && IsKill(w.trace[|w.trace| - 1].kind) && w.trace[|w.trace| - 1].kind.child == c
                && w.trace[|w.trace| - 2].kind.SawAlive?
                && old(w.now) <= w.trace[|w.trace| - 2].at <= w.trace[|w.trace| - 1].at
              else w.tally.polls == old(w.tally).polls
      ensures Tells(w.trace[|w.trace| - 1].kind, outcome) && NoNaps(w.trace, |old(w.trace)|)
    {
      hide w.Valid;
      var exited := w.Exited(c);
      if exited {
        var r := HandleExited(w, c, retries, false);
        outcome := r.error;
      } else {
        KillChild(w, c);
        outcome := Abnormal;
      }
    }

    /** One launched child, up to its end: Ok carries the new retry count when it hit the lock. */
    method SeeThrough(w: World, c: nat, retries: nat, deadline: real) returns (r: Result<nat, Outcome>)
      requires w.Valid() && c < |w.alive| && w.tally.open == {c} && w.tally.signals == w.tally.healthy == 0
      requires w.trace != []
      modifies w
      ensures w.Valid() && w.SameRun() && w.Drifted()
      ensures SeenThrough(r, retries, old(w.tally), w.tally) && Paced(w.trace, |old(w.trace)|, deadline)
      ensures r.Ok? ==> HasPrinted(w.trace, c) && LastReason(w.trace).LockConflict?
      ensures r.Err? && r.error.StoreLocked? ==> w.now >= deadline
      ensures r.Err? ==>
                && EndsWell(w.trace, w.tally, r.error, w.disk, deadline, c)
                && Tells(w.trace[|w.trace| - 1].kind, r.error)
                && |w.trace| - |old(w.trace)| >= AtLeast(r.error, w.tally)
                && (r.error.Ready? ==> r.error.child == c)
      ensures old(w.tally).polls == 0 && Stood(old(w.disk), w.disk) ==>
                if r.Ok? then w.tally.polls == 0 else r.error.Ready? || PolledLate(w.trace, w.tally, deadline)
    {
      hide Paced;
      var watched := Watch(w, c, retries, deadline);
      match watched {
        case Success => r := Err(Ready(c));
        case Retry(n) => r := Ok(n);
        case Failed(outcome) => r := Err(outcome);
        case TimedOut =>
          ghost var before := w.trace;
          var outcome := GiveUp(w, c, retries);
          PacedWithout(w.trace, |before|, deadline);
          PacedThen(before, w.trace, |old(w.trace)|, deadline);
          r := Err(outcome);
      }
    }

    /** One launch: Ok carries the new retry count when the child hit the store lock. */
    method Launch(w: World, retries: nat, deadline: real) returns (r: Result<nat, Outcome>)
      requires w.Valid() && w.tally.open == {} && w.tally.clear && w.tally.signals == w.tally.healthy == 0
      requires Ends(w.trace, LockFree)
      modifies w
      ensures w.Valid() && w.SameRun() && w.now >= old(w.now) && Grown(old(w.alive), w.alive) && Later(old(w.disk), w.disk)
      ensures r.Ok? ==> r.value == retries + 1 && LockTrouble(w.trace[|w.trace| - 1].kind)
      ensures Launched(r, old(w.tally), w.tally) && Paced(w.trace, |old(w.trace)|, deadline)
      ensures r.Err? && r.error.StoreLocked? ==> r.error.retries == retries + 1 && w.now >= deadline
      ensures r.Err? ==>
                && EndsWell(w.trace, w.tally, r.error, w.disk, deadline, |old(w.alive)|) && !r.error.Invalid?
                && Tells(w.trace[|w.trace| - 1].kind, r.error)
                && |w.trace| - |old(w.trace)| >= AtLeast(r.error, w.tally)
                && (r.error.Ready? ==> |old(w.alive)| <= r.error.child < |w.alive|)
      ensures old(w.tally).polls == 0 && Stood(old(w.disk), w.disk) ==>
                if r.Ok? then w.tally.polls == 0 else r.error.Ready? || PolledLate(w.trace, w.tally, deadline)
    {
      hide Paced;
      var child := w.Spawn();
      ghost var before := w.trace;
      PacedWithout(w.trace, |old(w.trace)|, deadline);
      if child.None? {
        r := Err(Abnormal);
      } else {
        assert w.tally.open == {child.value};
        r := SeeThrough(w, child.value, retries, deadline);
        PacedThen(before, w.trace, |old(w.trace)|, deadline);
      }
    }

    /** One turn of the outer loop: a lock-blocked probe or a launch, then a pause. Ok carries the
        new retry count; every turn that ends in it has used up a second or the deadline. */
    method Turn(w: World, retries: nat, deadline: real) returns (r: Result<nat, Outcome>)
      requires w.Valid() && w.tally.open == {} && retries == w.tally.conflicts
      requires w.tally.signals == w.tally.healthy == 0
      modifies w
      ensures w.Valid() && w.SameRun() && Grown(old(w.alive), w.alive) && Later(old(w.disk), w.disk) && w.now >= old(w.now)
      ensures |w.trace| > |old(w.trace)| && IsProbe(w.trace[|old(w.trace)|].kind)
      ensures r.Ok? ==>
                && r.value == retries + 1 && w.now >= Min(old(w.now) + 1.0, deadline)
                && Blocked(w.trace) && |w.trace| >= |old(w.trace)| + 2
      ensures Launched(r, old(w.tally), w.tally) && Paced(w.trace, |old(w.trace)|, deadline)
      ensures r.Err? && r.error.StoreLocked? ==> r.error.retries == w.tally.conflicts > 0 && w.now >= deadline
      ensures r.Err? ==>
                && EndsWell(w.trace, w.tally, r.error, w.disk, deadline, |old(w.alive)|) && !r.error.Invalid?
                && Tells(w.trace[|w.trace| - 1].kind, r.error)
                && |w.trace| - |old(w.trace)| >= AtLeast(r.error, w.tally)
                && (r.error.Ready? ==> |old(w.alive)| <= r.error.child < |w.alive|)
      ensures old(w.tally).polls == 0 && Stood(old(w.disk), w.disk) ==>
                if r.Ok? then w.tally.polls == 0 else r.error.Ready? || PolledLate(w.trace, w.tally, deadline)
    {
      hide w.Valid, Paced, EndsWell, PolledLate, IsNap;
      var busy := w.LockHeldElsewhere();
      ghost var before := w.trace;
      PacedWithout(w.trace, |old(w.trace)|, deadline);
      if busy {
        r := Ok(retries + 1);
      } else {
        r := Launch(w, retries, deadline);
        PacedThen(before, w.trace, |old(w.trace)|, deadline);
        if r.Err? {
          return;
        }
      }
      before := w.trace;
      SleepWithin(w, deadline);
      PacedNap(before, w.trace, |old(w.trace)|, deadline);
    }

    /** The outer loop of a run that began at `start`. */
    method Attempts(w: World, start: real) returns (outcome: Outcome)
      requires w.Valid() && w.tally == NOTHING && JustBegun(w.trace, w.mark) && start <= w.now
      modifies w
      ensures w.Valid() && w.SameRun() && Grown(old(w.alive), w.alive) && Later(old(w.disk), w.disk) && w.now >= old(w.now)
      ensures Concluded(w.trace, w.mark, w.tally, outcome, w.disk, Limit(timeout), start + timeout as real, |old(w.alive)|,
                        Stood(old(w.disk), w.disk))
      ensures outcome.Ready? ==> |old(w.alive)| <= outcome.child < |w.alive| && SeenReady(w.trace, outcome.child, w.disk)
      ensures ExplainedFrom(w.trace, |old(w.trace)|, outcome, start + timeout as real, w.now)
      ensures !outcome.Invalid?
    {
      hide w.Valid, EndsWell, OnTime, Step, PolledLate, SeenReady, Paced;
      var deadline := start + timeout as real;
      var conflict, retries := false, 0;
      var t := w.Clock();
      AtStart(start, t);
      PacedWithout(w.trace, w.mark, deadline);
      while t < deadline
        invariant w.Valid() && w.SameRun() && Grown(old(w.alive), w.alive) && Later(old(w.disk), w.disk) && w.now >= old(w.now)
        invariant w.tally.open == {} && w.tally.peak <= 1 && w.tally.guarded && w.tally.signals == w.tally.healthy == 0
        invariant Stood(old(w.disk), w.disk) ==> w.tally.polls == 0
        invariant Paced(w.trace, w.mark, deadline) && (|w.trace| > w.mark ==> Opening(w.trace[w.mark].kind))
        invariant if conflict then
                    && |w.trace| >= |old(w.trace)| + 2 && IsProbe(w.trace[|old(w.trace)|].kind) && Blocked(w.trace)
                  else w.trace == old(w.trace)
        invariant retries == w.tally.conflicts && (conflict <==> retries > 0)
        invariant w.tally.rounds <= Limit(timeout)
        invariant t <= w.now && (t < deadline ==> OnTime(w.tally.rounds, start, t))
        decreases Limit(timeout) - w.tally.rounds
      {
        TimeForTurn(w.tally.rounds, start, t, timeout);
        ghost var rounds, began, first := w.tally.rounds, w.now, |w.alive|;
        LaterStill(rounds, start, t, began);
        ghost var before := w.trace;
        var turn := Turn(w, retries, deadline);
        PacedThen(before, w.trace, w.mark, deadline);
        if turn.Err? {
          EndsWellFrom(w.trace, w.tally, turn.error, w.disk, deadline, first, |old(w.alive)|);
          EndsReady(w.trace, w.tally, turn.error, w.disk, deadline, first);
          return turn.error;
        }
        conflict, retries := true, turn.value;
        ghost var slept := w.now;
        t := w.Clock();
        OneSecondOn(rounds, start, began, slept, t, deadline);
      }
      outcome := if conflict then StoreLocked(retries) else Abnormal;
      EndsIdle(w.trace, w.tally, outcome, w.disk, deadline, |old(w.alive)|);
      NoPolls(w.trace, w.tally, deadline);
    }

    /** The supervision loop, in a run that has at most looked at the address so far. Its events, from
        entry to return or raise, are well supervised. */
    method Supervise(w: World) returns (outcome: Outcome)
      requires w.Valid() && w.tally == NOTHING && w.born == |w.alive| && JustBegun(w.trace, w.mark)
      modifies w
      ensures w.Valid() && w.SameRun() && w.now >= old(w.now) && Grown(old(w.alive), w.alive)
      ensures outcome.Ready? ==> w.born <= outcome.child < |w.alive|
      ensures WellSupervised(w.Run(), outcome, Limit(timeout), old(w.now) + timeout as real, w.born,
                             Stood(old(w.disk), w.disk))
      ensures Explained(w.trace[|old(w.trace)|..], outcome, old(w.now) + timeout as real, w.now)
      ensures Later(old(w.disk), w.disk) && (outcome.Ready? ==> SeenReady(w.trace, outcome.child, w.disk))
      ensures !outcome.Invalid?
    {
      hide WellSupervised, Explained, ExplainedFrom, Concluded, Sum, Step, SeenReady, AllTruthful;
      var start := w.Clock();
      ghost var disk := w.disk;
      outcome := Attempts(w, start);
      assert w.tally == Tallied(w.Run());
      FromTally(w.trace, w.mark, w.tally, outcome, w.disk, Limit(timeout), start + timeout as real, w.born,
                Stood(disk, w.disk), old(w.now) + timeout as real, Stood(old(w.disk), w.disk));
      ExplainedRun(w.trace, |old(w.trace)|, outcome, start + timeout as real, old(w.now) + timeout as real, w.now);
    }

    /** The checks made before the loop: Some when one of them fails. What stands at the health path
        afterwards is new, or no regular file. */
    method Prepare(w: World, params: WorkerParams) returns (early: Option<Outcome>)
      requires w.Valid()
      modifies w
      ensures w.Valid() && old(w.trace) <= w.trace && w.now >= old(w.now)
      ensures early.None? ==> |w.trace| == |old(w.trace)| + 1 && Ends(w.trace, AddressFree)
      ensures |w.alive| == |old(w.alive)| && Grown(old(w.alive), w.alive)
      ensures w.mark == |old(w.trace)| && w.born == |w.alive| && w.tally == NOTHING
      ensures early.Some? ==> StartsNot(params, w.trace[|old(w.trace)|..], early.value)
      ensures early.None? ==> Fit(params) && params.buildable && params.healthCheckPath != "" && params.safePath
      ensures old(w.disk).files <= w.disk.files && old(w.disk).changes <= w.disk.changes
      ensures early.None? && w.disk.changes == old(w.disk).changes ==>
                w.disk.health == if old(w.disk).health.Some? && !old(w.disk).health.value.regular then old(w.disk).health else None
      ensures early.None? && w.disk.health.Some? ==>
                || w.disk.health.value.id >= old(w.disk).files
                || (w.disk.health == old(w.disk).health && !w.disk.health.value.regular)
    {
      hide w.Valid;
      w.Begin();
      early := Some(Invalid);
      if !Unfit(params) {
        var taken := w.AddressAnswers();
        if taken {
          early := Some(AddressInUse);
        } else if params.buildable {
          early := Some(Abnormal);
          if params.healthCheckPath != "" && params.safePath {
            var removed := w.RemoveHealthFile();
            early := if removed then None else Some(Abnormal);
          }
        }
      }
      ghost var events := w.trace[|old(w.trace)|..];
      assert |events| > 0 ==> events[0] == w.trace[|old(w.trace)|];
      assert |events| > 1 ==> events[1] == w.trace[|old(w.trace)| + 1];
    }

    /** `start_worker`: reject bad parameters, refuse an address in use, then supervise. */
    method StartWorker(w: World, params: WorkerParams) returns (outcome: Outcome)
      requires w.Valid()
      modifies w
      ensures w.Valid() && old(w.trace) <= w.trace && w.mark == |old(w.trace)| && w.now >= old(w.now)
      ensures w.born == |old(w.alive)| && Grown(old(w.alive), w.alive)
      ensures outcome.Ready? ==> w.born <= outcome.child < |w.alive|
      ensures WellSupervised(w.Run(), outcome, Limit(timeout), old(w.now) + timeout as real, w.born,
                             StoodOutside(old(w.disk), w.disk))
      ensures StartExplained(params, w.Run(), outcome, old(w.now) + timeout as real, w.now)
      // what was at the health path before does not count, unless it is no regular file
      ensures outcome.Ready? ==>
                && SeenReady(w.trace, outcome.child, w.disk)
                && (w.disk.health.value.id >= old(w.disk).files
                    || (w.disk.health == old(w.disk).health && !w.disk.health.value.regular))
      // and such a thing, left alone, always does
      ensures outcome.Ready? && StoodOutside(old(w.disk), w.disk) ==> w.disk.health == old(w.disk).health
    {
      hide AllTruthful, Step, WellSupervised, Explained, StartExplained, StartsNot, SeenReady;
      var early := Prepare(w, params);
      if early.Some? {
        outcome := early.value;
        HardlyAnything(params, w.Run(), outcome, Limit(timeout), old(w.now) + timeout as real, w.now, w.born,
                       StoodOutside(old(w.disk), w.disk));
      } else {
        ghost var now, disk := w.now, w.disk;
        outcome := Supervise(w);
        SupervisedEarlier(w.Run(), outcome, Limit(timeout), now + timeout as real, w.born, Stood(disk, w.disk),
                          old(w.now) + timeout as real, StoodOutside(old(w.disk), w.disk));
        SeenSomething(w.trace, w.disk);
        ghost var run := w.Run();
        assert run[1..] == w.trace[w.mark + 1..];
        ExplainedEarlier(run[1..], outcome, now + timeout as real, old(w.now) + timeout as real, w.now);
        ExplainedStart(params, run, outcome, old(w.now) + timeout as real, w.now);
      }
    }
  }
}
