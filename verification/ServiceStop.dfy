/** `dscli stop`: ask the process to end, wait, force it, wait again. */
module ServiceStop {
  import opened Numbers
  import opened Text
  import opened Processes
  import opened CommandLine

  const BASE_TIMEOUT: real := 180.0
  const CHECK_INTERVAL: real := 0.2
  const FORCE_KILL_WAIT: real := 10.0
  const DEFAULT_SHARED_MEMORY_MB := 1024
  const DEFAULT_MIGRATE_RATE_MB := 40

  datatype Service = Worker | Coordinator

  /** A flag read from the process command line or the configuration, before it is used. */
  datatype Setting = Absent | NotANumber | Number(n: int)

  datatype StopOutcome = Stopped | NoUniqueProcess | Raised

  /** A present text is a number or it is not; an empty one counts as absent. */
  function SettingOf(text: Option<string>, number: string -> Option<int>): Setting {
    if text.None? || text.value == "" then Absent
    else if number(text.value).None? then NotANumber
    else Number(number(text.value).value)
  }

  predicate Usable(s: Setting) {
    s.Number? && s.n > 0
  }

  /** Command line first, then configuration; a value that is no positive number means default. */
  function PositiveSetting(cmdline: Setting, config: Setting, default: int): (n: int)
    requires default > 0
    ensures n > 0
  {
    var raw := if cmdline.Absent? then config else cmdline;
    if Usable(raw) then raw.n else default
  }

  /** What is on the command line decides alone, usable or not; the configuration only has a say in
      its absence, and then the same say; nothing unusable ever gets through, and nothing usable
      that decides is passed over. */
  lemma SettingPriority(cmdline: Setting, config: Setting, other: Setting, default: int)
    requires default > 0
    ensures !cmdline.Absent? ==> PositiveSetting(cmdline, config, default) == PositiveSetting(cmdline, other, default)
    ensures !config.Absent? ==> PositiveSetting(Absent, config, default) == PositiveSetting(config, other, default)
    ensures Usable(cmdline) ==> PositiveSetting(cmdline, config, default) == cmdline.n
    ensures !Usable(cmdline) && !Usable(config) ==> PositiveSetting(cmdline, config, default) == default
    ensures forall m :: m > 0 && PositiveSetting(cmdline, config, default) != PositiveSetting(cmdline, config, m) ==>
              PositiveSetting(cmdline, config, m) == m
  {
  }

  datatype StopRequest = StopRequest(
    service: Service, override: Option<int>,
    memoryCmdline: Setting, memoryConfig: Setting, rateCmdline: Setting, rateConfig: Setting)

  function ResolvedTimeout(q: StopRequest): (t: real)
    ensures t > 0.0
    ensures q.override.Some? && q.override.value > 0 ==> t == q.override.value as real
    ensures !(q.override.Some? && q.override.value > 0) ==> t >= 180.0 && (t == 180.0 <==> q.service.Coordinator?)
    // beyond the base, a worker gets the time in which its memory can migrate at the given rate
    ensures !(q.override.Some? && q.override.value > 0) && q.service.Worker? ==>
              (t - 180.0) * PositiveSetting(q.rateCmdline, q.rateConfig, 40) as real
              == PositiveSetting(q.memoryCmdline, q.memoryConfig, 1024) as real
  {
    if q.override.Some? && q.override.value > 0 then q.override.value as real
    else if q.service.Worker? then
      var memory := PositiveSetting(q.memoryCmdline, q.memoryConfig, DEFAULT_SHARED_MEMORY_MB);
      var rate := PositiveSetting(q.rateCmdline, q.rateConfig, DEFAULT_MIGRATE_RATE_MB);
      BASE_TIMEOUT + memory as real / rate as real
    else BASE_TIMEOUT
  }

  // ----- the shape of a stop -----

  /** One round of a wait for `c`, begun within `limit` of `begun`: the status read, a look that found
      the process still there, a fifth of a second of sleep. */
  ghost predicate RoundAt(events: seq<Event>, i: nat, c: nat, begun: real, limit: real)
    requires i + 3 <= |events|
  {
    && events[i].kind == Checked(c) && begun <= events[i].at < begun + limit
    && events[i + 1].kind == Present(c) && events[i + 2].kind == Slept(0.2)
  }

  /** Nothing but such rounds, and no more than fit. */
  ghost predicate Rounds(events: seq<Event>, c: nat, begun: real, limit: real) {
    && |events| % 3 == 0 && |events| / 3 <= MaxRounds(limit)
    && forall j :: 0 <= j < |events| / 3 ==> RoundAt(events, 3 * j, c, begun, limit)
  }

  /** What can end a wait before its time: the exit was seen, or looking raised. */
  ghost predicate EndsWait(kind: Kind, c: nat) {
    kind == SawExit(c) || kind == LookFailed(c)
  }

  /** A round that was cut short. */
  ghost predicate CutShort(end: seq<Event>, c: nat, begun: real, limit: real) {
    && |end| == 2 && end[0].kind == Checked(c) && begun <= end[0].at < begun + limit
    && EndsWait(end[1].kind, c)
  }

  /** A wait begun at `from` or later: rounds, the first `k` events, and perhaps one cut short. */
  ghost predicate IsWait(events: seq<Event>, k: int, c: nat, from: real, begun: real, limit: real) {
    && from <= begun && 0 <= k <= |events| && Rounds(events[..k], c, begun, limit)
    && (k == |events| || CutShort(events[k..], c, begun, limit))
  }

  ghost predicate Waits(events: seq<Event>, c: nat, from: real, limit: real) {
    exists k, begun :: IsWait(events, k, c, from, begun, limit)
  }

  /** A kill and what follows it: one wait of at most `cap`; or a kill that was refused or found no
      one, and nothing more. */
  ghost predicate Forced(after: seq<Event>, c: nat, cap: real) {
    && after != []
    && if after[0].kind == KillSent(c) then Waits(after[1..], c, after[0].at, cap)
       else |after| == 1 && (after[0].kind == Missed(c, Kill) || after[0].kind == Refused(c, Kill))
  }

  /** What may follow the rounds of the first wait: the round that was cut short, or, after the whole
      `limit`, a kill with a wait of at most ten seconds. */
  ghost predicate Aftermath(after: seq<Event>, c: nat, begun: real, limit: real) {
    || CutShort(after, c, begun, limit)
    || (after != [] && after[0].at >= begun + limit && Forced(after, c, if limit < 10.0 then limit else 10.0))
  }

  /** Rounds up to `n`, in a wait that began no earlier than the request, and then the rest. */
  ghost predicate EscalatesAt(events: seq<Event>, n: nat, c: nat, begun: real, limit: real) {
    && 1 <= n <= |events| && events[0].at <= begun
    && Rounds(events[1..n], c, begun, limit) && Aftermath(events[n..], c, begun, limit)
  }

  /** The shape of a stop: one termination request, and nothing more if it found no one or was
      refused; then a wait, looking all along, until it is cut short or a kill follows. */
  ghost predicate Escalates(events: seq<Event>, c: nat, limit: real) {
    && events != []
    && if events[0].kind == TermSent(c) then exists n: nat, begun :: EscalatesAt(events, n, c, begun, limit)
       else |events| == 1 && (events[0].kind == Missed(c, Term) || events[0].kind == Refused(c, Term))
  }

  ghost predicate EndsInExit(events: seq<Event>, c: nat) {
    events != [] && events[|events| - 1].kind == SawExit(c)
  }

  /** Some signal found no one or was refused. */
  ghost predicate SignalFailed(events: seq<Event>) {
    exists k :: 0 <= k < |events| && (events[k].kind.Missed? || events[k].kind.Refused?)
  }

  /** A kill went out and the whole of the wait after it has gone by at `now`. */
  ghost predicate WaitedInVain(events: seq<Event>, c: nat, cap: real, now: real) {
    exists k :: 0 <= k < |events| && events[k].kind == KillSent(c) && now >= events[k].at + cap
  }

  /** Why a stop raised: a signal failed, looking raised, or the process outlived the forced wait. */
  ghost predicate RaisedWhy(events: seq<Event>, c: nat, limit: real, now: real) {
    || SignalFailed(events)
    || (events != [] && events[|events| - 1].kind == LookFailed(c))
    || WaitedInVain(events, c, if limit < 10.0 then limit else 10.0, now)
  }

  // ----- rounds -----

  /** Rounds that fit in a wait, five to the second. */
  ghost function MaxRounds(timeout: real): nat {
    if timeout > 0.0 then (timeout * 5.0).Floor + 1 else 0
  }

  lemma RoomForRound(n: nat, elapsed: real, timeout: real)
    requires n as real <= elapsed * 5.0 && 0.0 <= elapsed < timeout
    ensures n < MaxRounds(timeout)
  {
  }

  lemma NoRounds(c: nat, begun: real, limit: real)
    ensures Rounds([], c, begun, limit)
  {
  }

  lemma OneMoreRound(rounds: seq<Event>, round: seq<Event>, c: nat, begun: real, limit: real)
    requires Rounds(rounds, c, begun, limit) && |rounds| / 3 < MaxRounds(limit)
    requires |round| == 3 && RoundAt(round, 0, c, begun, limit)
    ensures Rounds(rounds + round, c, begun, limit)
  {
    var all := rounds + round;
    forall j | 0 <= j < |all| / 3 ensures RoundAt(all, 3 * j, c, begun, limit) {
      if j < |rounds| / 3 {
        assert RoundAt(rounds, 3 * j, c, begun, limit);
      }
    }
  }

  lemma InRound(rounds: seq<Event>, j: nat, i: nat, c: nat, begun: real, limit: real)
    requires 3 * j + 3 <= |rounds| && RoundAt(rounds, 3 * j, c, begun, limit) && 3 * j <= i < 3 * j + 3
    ensures Idle(rounds[i].kind)
  {
  }

  /** No signal and no exit in a round. */
  lemma RoundKinds(rounds: seq<Event>, c: nat, begun: real, limit: real)
    requires Rounds(rounds, c, begun, limit)
    ensures forall i :: 0 <= i < |rounds| ==> Idle(rounds[i].kind)
  {
    hide RoundAt, Idle;
    forall i: nat | i < |rounds| ensures Idle(rounds[i].kind) {
      InRound(rounds, i / 3, i, c, begun, limit);
    }
  }

  ghost predicate Idle(kind: Kind) { kind.Checked? || kind.Present? || kind.Slept? }

  // ----- putting a stop together -----

  lemma WaitIs(rounds: seq<Event>, end: seq<Event>, c: nat, from: real, begun: real, limit: real)
    requires from <= begun && Rounds(rounds, c, begun, limit) && (end == [] || CutShort(end, c, begun, limit))
    ensures Waits(rounds + end, c, from, limit)
  {
    hide Rounds, CutShort;
    var all, k := rounds + end, |rounds|;
    assert all[..k] == rounds && all[k..] == end;
    assert IsWait(all, k, c, from, begun, limit);
  }

  lemma ForcedEvents(kill: Event, rounds: seq<Event>, end: seq<Event>, c: nat, begun: real, cap: real)
    requires kill.kind == KillSent(c) && kill.at <= begun && Rounds(rounds, c, begun, cap)
    requires end == [] || CutShort(end, c, begun, cap)
    ensures Forced([kill] + (rounds + end), c, cap)
  {
    hide Rounds, CutShort, Waits;
    WaitIs(rounds, end, c, kill.at, begun, cap);
    assert ([kill] + (rounds + end))[1..] == rounds + end;
  }

  lemma EscalatesWith(asked: Event, rounds: seq<Event>, after: seq<Event>, c: nat, begun: real, limit: real)
    requires asked.kind == TermSent(c) && asked.at <= begun && Rounds(rounds, c, begun, limit)
    requires Aftermath(after, c, begun, limit)
    ensures Escalates([asked] + rounds + after, c, limit)
  {
    hide Rounds, Aftermath;
    var events, n := [asked] + rounds + after, 1 + |rounds|;
    assert events[1..n] == rounds && events[n..] == after;
    assert EscalatesAt(events, n, c, begun, limit);
  }

  /** A request that did not go out is all there is. */
  lemma EscalatesNowhere(asked: Event, c: nat, limit: real, now: real)
    requires asked.kind == Missed(c, Term) || asked.kind == Refused(c, Term)
    ensures Escalates([asked], c, limit) && RaisedWhy([asked], c, limit, now)
  {
    assert [asked][0].kind == asked.kind;
  }

  lemma NotForced(kill: Event, c: nat, cap: real)
    requires kill.kind == Missed(c, Kill) || kill.kind == Refused(c, Kill)
    ensures Forced([kill], c, cap) && SignalFailed([kill])
  {
    assert [kill][0].kind == kill.kind;
  }

  /** How a forced wait that did not see the exit accounts for raising. */
  lemma WaitEnded(kill: Event, rounds: seq<Event>, end: seq<Event>, c: nat, now: real, begun: real, limit: real, cap: real)
    requires kill.kind == KillSent(c) && cap == (if limit < 10.0 then limit else 10.0)
    requires Rounds(rounds, c, begun, cap) && (end == [] || CutShort(end, c, begun, cap))
    requires end == [] ==> now >= kill.at + cap
    ensures var after := [kill] + (rounds + end);
            && (EndsInExit(end, c) <==> EndsInExit(after, c))
            && (!EndsInExit(end, c) ==> RaisedWhy(after, c, limit, now))
  {
    RoundKinds(rounds, c, begun, cap);
    hide Rounds;
    var after := [kill] + (rounds + end);
    assert after[0] == kill;
    assert end != [] ==> after[|after| - 1] == end[|end| - 1];
    assert end == [] && rounds != [] ==> after[|after| - 1] == rounds[|rounds| - 1];
  }

  lemma RaisedAtOnce(end: seq<Event>, c: nat, begun: real, limit: real, now: real)
    requires CutShort(end, c, begun, limit)
    ensures !EndsInExit(end, c) ==> RaisedWhy(end, c, limit, now)
  {
  }

  /** What accounts for raising at the end accounts for it in the whole. */
  lemma RaisedInTheEnd(asked: Event, rounds: seq<Event>, after: seq<Event>, c: nat, limit: real, now: real)
    requires after != []
    ensures RaisedWhy(after, c, limit, now) ==> RaisedWhy([asked] + rounds + after, c, limit, now)
    ensures EndsInExit(after, c) <==> EndsInExit([asked] + rounds + after, c)
  {
    var events := [asked] + rounds + after;
    var n := 1 + |rounds|;
    assert events[|events| - 1] == after[|after| - 1];
    if k :| 0 <= k < |after| && (after[k].kind.Missed? || after[k].kind.Refused?) {
      assert events[n + k] == after[k];
    }
    if k :| 0 <= k < |after| && after[k].kind == KillSent(c) && now >= after[k].at + if limit < 10.0 then limit else 10.0 {
      assert events[n + k] == after[k];
    }
  }

  lemma Regroup(base: seq<Event>, first: Event, rounds: seq<Event>, end: seq<Event>)
    ensures base + [first] + rounds + end == base + ([first] + rounds + end)
    ensures [first] + rounds + end == [first] + (rounds + end)
  {
  }

  lemma RaisedFor(events: seq<Event>, c: nat, limit: real, now: real)
    requires SignalFailed(events)
    ensures RaisedWhy(events, c, limit, now)
  {
  }

  lemma CutIsTwo(end: seq<Event>, c: nat, begun: real, limit: real)
    requires CutShort(end, c, begun, limit)
    ensures end != []
  {
  }

  /** In a wait no signal is sent, and only its last event can be an exit. */
  lemma WaitKinds(events: seq<Event>, c: nat, from: real, limit: real)
    requires Waits(events, c, from, limit)
    ensures forall i :: 0 <= i < |events| ==> Idle(events[i].kind) || (i == |events| - 1 && EndsWait(events[i].kind, c))
  {
    var k, begun :| IsWait(events, k, c, from, begun, limit);
    RoundKinds(events[..k], c, begun, limit);
    hide Rounds;
    forall i | 0 <= i < |events| ensures Idle(events[i].kind) || (i == |events| - 1 && EndsWait(events[i].kind, c)) {
      if i < k {
        assert events[..k][i] == events[i];
      } else {
        assert events[k..][i - k] == events[i];
      }
    }
  }

  /** After a kill there is at most one wait; after a kill that failed there is nothing. */
  lemma ForcedKinds(after: seq<Event>, c: nat, cap: real)
    requires Forced(after, c, cap)
    ensures IsKill(after[0].kind) && after[0].kind.child == c
    ensures forall i :: 1 <= i < |after| ==> Idle(after[i].kind) || (i == |after| - 1 && EndsWait(after[i].kind, c))
    ensures after[0].kind.KillSent? || |after| == 1
  {
    if after[0].kind == KillSent(c) {
      hide Waits;
      WaitKinds(after[1..], c, after[0].at, cap);
      assert forall i :: 1 <= i < |after| ==> after[1..][i - 1] == after[i];
    }
  }

  /** Event by event: the request, rounds up to `n`, then a kill or what cuts the wait short. */
  ghost predicate Sequence(events: seq<Event>, n: nat, c: nat, limit: real) {
    && 1 <= n < |events| && events[0].kind == TermSent(c)
    && (forall i :: 1 <= i < n ==> Idle(events[i].kind))
    && (IsSignal(events[n].kind) ==> IsKill(events[n].kind) && events[n].kind.child == c && events[n].at >= events[0].at + limit)
    && (forall i :: n <= i < |events| ==>
          Idle(events[i].kind) || (i == n && IsKill(events[i].kind)) || (i == |events| - 1 && EndsWait(events[i].kind, c)))
    && (events[n].kind.Missed? || events[n].kind.Refused? ==> |events| == n + 1)
  }

  lemma SequenceOf(events: seq<Event>, n: nat, c: nat, begun: real, limit: real)
    requires events != [] && events[0].kind == TermSent(c) && EscalatesAt(events, n, c, begun, limit)
    ensures Sequence(events, n, c, limit)
  {
    RoundKinds(events[1..n], c, begun, limit);
    hide Rounds, Forced;
    assert forall i :: 1 <= i < n ==> events[1..n][i - 1] == events[i];
    var after := events[n..];
    assert forall i :: n <= i < |events| ==> after[i - n] == events[i];
    if !CutShort(after, c, begun, limit) {
      ForcedKinds(after, c, if limit < 10.0 then limit else 10.0);
    }
  }

  /** A stop sends one termination request, first, and at most one kill, which comes after the whole
      limit and nothing but looking; an exit is seen only at the very end; and a signal that failed is
      the last thing there is. */
  lemma StopSignals(events: seq<Event>, c: nat, limit: real)
    requires Escalates(events, c, limit)
    ensures forall k :: 1 <= k < |events| && IsSignal(events[k].kind) ==>
              && IsKill(events[k].kind) && events[k].kind.child == c && events[k].at >= events[0].at + limit
              && (forall i :: 1 <= i < k ==> Idle(events[i].kind))
    ensures forall k :: 0 <= k < |events| && EndsWait(events[k].kind, c) ==> k == |events| - 1
    ensures SignalFailed(events) ==> !EndsInExit(events, c)
  {
    hide EscalatesAt;
    if events[0].kind == TermSent(c) {
      var n: nat, begun :| EscalatesAt(events, n, c, begun, limit);
      SequenceOf(events, n, c, begun, limit);
    }
  }

  function FlagName(service: Service): string {
    if service.Coordinator? then "coordinator_address" else "worker_address"
  }

  function Binary(service: Service): string {
    if service.Coordinator? then COORDINATOR_BIN else WORKER_BIN
  }

  /** The check `dscli stop` makes of a candidate. */
  function AcceptorFor(service: Service, address: string): Candidate -> bool {
    Acceptor(FlagName(service), address, Binary(service))
  }

  /** What a started process answers for when stop is given a service and an address. */
  ghost predicate Answers(s: Started, service: Service, address: string) {
    match service
    case Worker => IsWorkerAt(s, address)
    case Coordinator => PassesForCoordinator(s, address)
  }

  /** Process `i` answers for the service at the address, and no other does. */
  ghost predicate IsTheOne(started: seq<Started>, i: int, service: Service, address: string) {
    0 <= i < |started| && forall j :: 0 <= j < |started| ==> (Answers(started[j], service, address) <==> j == i)
  }

  lemma OnlyTheOne(candidates: seq<Candidate>, started: seq<Started>, service: Service, address: string, i: int)
    requires Runs(candidates, started)
    ensures OnlyOne(candidates, i, AcceptorFor(service, address)) <==> IsTheOne(started, i, service, address)
  {
    hide IsWorkerAt, PassesForCoordinator, Acceptor, Runs, OnlyOne;
    match service
    case Worker => OnlyItsWorker(candidates, started, address, i);
    case Coordinator => OnlyItsCoordinator(candidates, started, address, i);
  }

  lemma IsIndex(started: seq<Started>, i: int, service: Service, address: string)
    requires IsTheOne(started, i, service, address)
    ensures 0 <= i < |started|
  {
  }

  lemma RunsAt(candidates: seq<Candidate>, started: seq<Started>, i: int)
    requires Runs(candidates, started)
    ensures |candidates| == |started|
    ensures 0 <= i < |started| ==> PlainStart(started[i]) && candidates[i].raw == Some(Raw(CommandOf(started[i])))
  {
  }

  // ----- the timeout of a worker that was started with a migration rate and a memory size -----

  const MEMORY_FLAG := "shared_memory_size_mb"
  const RATE_FLAG := "data_migrate_rate_limit_mb"

  lemma MemoryFlagIsPlain()
    ensures PlainKey("shared_memory_size_mb")
  {
    var key := "shared_memory_size_mb";
    assert key[0] == 's' && |key| == 21;
    assert forall i :: 0 <= i < |NUMACTL_KEYS| ==> |NUMACTL_KEYS[i]| < 19;
  }

  lemma RateFlagIsPlain()
    ensures PlainKey("data_migrate_rate_limit_mb")
  {
    var key := "data_migrate_rate_limit_mb";
    assert key[0] == 'd' && |key| == 26;
    assert forall i :: 0 <= i < |NUMACTL_KEYS| ==> |NUMACTL_KEYS[i]| < 19;
  }

  /** What is known from outside: the timeout given to the command, the configuration at hand, and how
      numbers are read. */
  datatype Settings = Settings(override: Option<int>, memoryConfig: Setting, rateConfig: Setting, number: string -> Option<int>)

  /** What stop reads of a running process: its command line, then the configuration. */
  function RequestFor(service: Service, raw: string, given: Settings): StopRequest {
    StopRequest(service, given.override, SettingOf(Value(Args(raw), MEMORY_FLAG), given.number), given.memoryConfig,
                SettingOf(Value(Args(raw), RATE_FLAG), given.number), given.rateConfig)
  }

  /** What counts of a setting the worker may have been started with: its own value if it is a positive
      number, the default if it is anything else; only if it has none, that of the configuration. */
  ghost function Effective(own: Option<string>, config: Setting, default: int, number: string -> Option<int>): int {
    match own
    case Some(text) => if number(text).Some? && number(text).value > 0 then number(text).value else default
    case None => if config.Number? && config.n > 0 then config.n else default
  }

  /** The value of a setting among the parameters a worker was started with. */
  ghost function OwnValue(s: Started, name: string): Option<string>
    requires s.StartedWorker?
  {
    KeptValue(s.params, {"service_type"}, name)
  }

  lemma EffectiveIs(s: Started, name: string, config: Setting, default: int, number: string -> Option<int>)
    requires s.StartedWorker? && default > 0
    ensures PositiveSetting(SettingOf(OwnValue(s, name), number), config, default) ==
            Effective(OwnValue(s, name), config, default, number)
  {
    KeptIsSomething(s.params, {"service_type"}, name);
  }

  /** A kept value is not empty. */
  lemma {:induction false} KeptIsSomething(params: seq<Param>, excluded: set<string>, key: string)
    ensures KeptValue(params, excluded, key) != Some("")
  {
    if params != [] {
      KeptIsSomething(params[1..], excluded, key);
      assert Strip("") == "";
    }
  }

  /** Unless the command itself names a positive timeout, a worker is given 180 seconds and the time in
      which its memory can migrate: the size and the rate it was started with, else those of the
      configuration, else 1024 MB at 40 MB a second. */
  ghost predicate TimeToMigrate(s: Started, given: Settings, timeout: real)
    requires s.StartedWorker?
  {
    var memory := Effective(OwnValue(s, "shared_memory_size_mb"), given.memoryConfig, 1024, given.number);
    var rate := Effective(OwnValue(s, "data_migrate_rate_limit_mb"), given.rateConfig, 40, given.number);
    if given.override.Some? && given.override.value > 0 then timeout == given.override.value as real
    else memory > 0 && rate > 0 && (timeout - 180.0) * rate as real == memory as real
  }

  lemma TimeoutOfStarted(s: Started, given: Settings)
    requires PlainStart(s) && s.StartedWorker?
    ensures TimeToMigrate(s, given, ResolvedTimeout(RequestFor(Service.Worker, Raw(CommandOf(s)), given)))
  {
    hide Raw, Args, Value, KeptValue, Flags, WorkerHead, PlainKey, Effective, SettingOf, PositiveSetting;
    MemoryFlagIsPlain();
    RateFlagIsPlain();
    StopReadsWhatStartWrote(s.host, s.params, s.useUms, s.useNumactl, s.opts, "shared_memory_size_mb");
    StopReadsWhatStartWrote(s.host, s.params, s.useUms, s.useNumactl, s.opts, "data_migrate_rate_limit_mb");
    EffectiveIs(s, "shared_memory_size_mb", given.memoryConfig, 1024, given.number);
    EffectiveIs(s, "data_migrate_rate_limit_mb", given.rateConfig, 40, given.number);
  }

  /** Only a worker answers for a worker. */
  lemma WorkerAnswers(started: seq<Started>, i: int, address: string)
    requires IsTheOne(started, i, Service.Worker, address)
    ensures 0 <= i < |started| && started[i].StartedWorker?
  {
    assert Answers(started[i], Service.Worker, address);
  }

  class StopCommand {
    var timeout: real

    constructor ()
      ensures timeout == 180.0
    {
      timeout := BASE_TIMEOUT;
    }

    /** One round of the wait: the process status, then a null signal. None means still there. */
    method CheckOnce(w: World, c: nat) returns (r: Option<Result<bool, ()>>)
      requires w.Valid() && c < |w.alive|
      modifies w
      ensures w.Valid() && w.Drifted() && (r.Some? && r.value.Ok? ==> r.value.value && !w.alive[c])
      ensures |w.trace| == |old(w.trace)| + 2 && old(w.trace) <= w.trace
      ensures var n := |old(w.trace)|;
              && w.trace[n] == Event(old(w.now), Checked(c))
              && w.trace[n + 1].kind == if r.None? then Present(c) else if r.value.Ok? then SawExit(c) else LookFailed(c)
    {
      var probe := w.ReadStatus(c);
      if probe.StillThere? {
        probe := w.Look(c);
      }
      r := match probe
           case StillThere => None
           case Gone => Some(Ok(true))
           case ProbeError => Some(Err(()));
    }

    /** A round of the wait with the sleep that ends it, unless it is cut short. */
    method OneRound(w: World, c: nat, ghost begun: real, ghost limit: real)
      returns (r: Option<Result<bool, ()>>, ghost round: seq<Event>)
      requires w.Valid() && c < |w.alive| && begun <= w.now < begun + limit
      modifies w
      ensures w.Valid() && w.Drifted() && w.trace == old(w.trace) + round
      ensures r.None? ==> |round| == 3 && RoundAt(round, 0, c, begun, limit) && w.now >= old(w.now) + 0.2
      ensures r.Some? ==> CutShort(round, c, begun, limit) && (r.value.Ok? <==> EndsInExit(round, c))
      ensures r.Some? && r.value.Ok? ==> r.value.value && !w.alive[c]
    {
      hide w.Valid, Step;
      ghost var before := w.trace;
      r := CheckOnce(w, c);
      if r.None? {
        w.Sleep(CHECK_INTERVAL);
      }
      round := w.trace[|before|..];
      assert round[0] == w.trace[|before|] && round[1] == w.trace[|before| + 1];
    }

    /** Wait for the process to exit: Ok(true) when it was seen gone, Ok(false) when the whole
        timeout went by without that, Err when looking raised. */
    method WaitExit(w: World, c: nat)
      returns (r: Result<bool, ()>, ghost begun: real, ghost rounds: seq<Event>, ghost end: seq<Event>)
      requires w.Valid() && c < |w.alive|
      modifies w
      ensures w.Valid() && w.Drifted() && old(w.now) <= begun
      ensures w.trace == old(w.trace) + rounds + end && Rounds(rounds, c, begun, timeout)
      ensures if r == Ok(false) then end == [] && w.now >= begun + timeout
              else CutShort(end, c, begun, timeout) && (r == Ok(true) <==> EndsInExit(end, c))
      ensures r == Ok(true) ==> !w.alive[c]
    {
      hide w.Valid, Step, MaxRounds, Rounds, CutShort, EndsInExit;
      var start := w.Clock();
      begun, rounds, end := start, [], [];
      ghost var k := 0;
      NoRounds(c, start, timeout);
      var t := w.Clock();
      while t - start < timeout
        invariant w.Valid() && w.Drifted() && start <= t == w.now && end == []
        invariant Rounds(rounds, c, start, timeout) && w.trace == old(w.trace) + rounds
        invariant (t - start) * 5.0 >= k as real && |rounds| == 3 * k && k <= MaxRounds(timeout)
        decreases MaxRounds(timeout) - k
      {
        RoomForRound(k, t - start, timeout);
        ghost var round;
        var check;
        check, round := OneRound(w, c, start, timeout);
        if check.Some? {
          return check.value, begun, rounds, round;
        }
        OneMoreRound(rounds, round, c, start, timeout);
        assert old(w.trace) + rounds + round == old(w.trace) + (rounds + round);
        rounds := rounds + round;
        k := k + 1;
        t := w.Clock();
      }
      r := Ok(false);
    }

    /** Kill, then wait at most ten seconds with the timeout lowered and restored. */
    method Force(w: World, c: nat) returns (outcome: StopOutcome, ghost after: seq<Event>)
      requires w.Valid() && c < |w.alive|
      modifies w, this
      ensures timeout == old(timeout)
      ensures w.Valid() && w.Drifted() && w.trace == old(w.trace) + after
      ensures after != [] && after[0].at >= old(w.now) && Forced(after, c, if timeout < 10.0 then timeout else 10.0)
      ensures !outcome.NoUniqueProcess?
      ensures outcome.Stopped? <==> EndsInExit(after, c)
      ensures outcome.Stopped? ==> !w.alive[c]
      ensures outcome.Raised? ==> RaisedWhy(after, c, timeout, w.now)
    {
      hide Forced, AllTruthful, Step, Rounds, CutShort, RaisedWhy;
      var kill := w.Kill(c);
      after := [w.trace[|w.trace| - 1]];
      if !kill.Delivered? {
        NotForced(after[0], c, if timeout < 10.0 then timeout else 10.0);
        RaisedFor(after, c, timeout, w.now);
        return Raised, after;
      }
      ghost var begun, rounds, end;
      var seen;
      var saved := timeout;
      timeout := Min(timeout, FORCE_KILL_WAIT);
      seen, begun, rounds, end := WaitExit(w, c);
      ghost var cap := timeout;
      timeout := saved;
      if seen != Ok(false) {
        CutIsTwo(end, c, begun, cap);
      }
      ForcedEvents(after[0], rounds, end, c, begun, cap);
      Regroup(old(w.trace), after[0], rounds, end);
      WaitEnded(after[0], rounds, end, c, w.now, begun, timeout, cap);
      after := [after[0]] + (rounds + end);
      return if seen == Ok(true) then Stopped else Raised, after;
    }

    /** Ask one process to end, wait, force it, wait again. The timeout is left as it was. */
    method Stop(w: World, c: nat) returns (outcome: StopOutcome, ghost events: seq<Event>)
      requires w.Valid() && c < |w.alive|
      modifies w, this
      ensures timeout == old(timeout)
      ensures w.Valid() && w.Drifted() && w.trace == old(w.trace) + events
      ensures Escalates(events, c, timeout) && !outcome.NoUniqueProcess?
      ensures outcome.Stopped? <==> EndsInExit(events, c)
      ensures outcome.Stopped? ==> !w.alive[c]
      ensures SignalFailed(events) ==> outcome.Raised?
      ensures outcome.Raised? ==> RaisedWhy(events, c, timeout, w.now)
    {
      hide Escalates, Forced, Rounds, CutShort, AllTruthful, RaisedWhy, Step;
      var term := w.Terminate(c);
      ghost var asked := w.trace[|w.trace| - 1];
      if !term.Delivered? {
        EscalatesNowhere(asked, c, timeout, w.now);
        return Raised, [asked];
      }
      ghost var begun, rounds, after;
      var seen;
      seen, begun, rounds, after := WaitExit(w, c);
      if seen != Ok(false) {
        outcome := if seen == Ok(true) then Stopped else Raised;
        CutIsTwo(after, c, begun, timeout);
        RaisedAtOnce(after, c, begun, timeout, w.now);
      } else {
        outcome, after := Force(w, c);
      }
      EscalatesWith(asked, rounds, after, c, begun, timeout);
      Regroup(old(w.trace), asked, rounds, after);
      RaisedInTheEnd(asked, rounds, after, c, timeout, w.now);
      events := [asked] + rounds + after;
      StopSignals(events, c, timeout);
    }

    /** `stop_service`: exactly one candidate must be accepted as the service at the address, and it
        is that process which is stopped, with the timeout its own command line asks for. */
    method StopService(w: World, candidates: seq<Candidate>, service: Service, address: string, given: Settings)
      returns (outcome: StopOutcome, ghost events: seq<Event>)
      requires w.Valid() && forall i :: 0 <= i < |candidates| ==> candidates[i].pid < |w.alive|
      modifies w, this
      ensures w.Valid() && w.trace == old(w.trace) + events && |w.alive| == |old(w.alive)|
      ensures outcome.NoUniqueProcess? <==> !exists i :: OnlyOne(candidates, i, AcceptorFor(service, address))
      ensures outcome.NoUniqueProcess? ==> events == [] && timeout == old(timeout)
      ensures forall i :: OnlyOne(candidates, i, AcceptorFor(service, address)) ==>
                && candidates[i].raw.Some? && timeout == ResolvedTimeout(RequestFor(service, candidates[i].raw.value, given))
                && Escalates(events, candidates[i].pid, timeout)
                && (outcome.Stopped? <==> EndsInExit(events, candidates[i].pid))
                && (outcome.Stopped? ==> candidates[i].pid < |w.alive| && !w.alive[candidates[i].pid])
                && (outcome.Raised? ==> RaisedWhy(events, candidates[i].pid, timeout, w.now))
      ensures SignalFailed(events) ==> outcome.Raised?
    {
      hide Escalates, RaisedWhy, IsExpectedProcess, AllTruthful;
      var found := GetUniquePid(candidates, AcceptorFor(service, address));
      if found.Err? {
        return NoUniqueProcess, [];
      }
      forall i, j | OnlyOne(candidates, i, AcceptorFor(service, address))
                    && OnlyOne(candidates, j, AcceptorFor(service, address)) ensures i == j {
        SameOne(candidates, i, j, AcceptorFor(service, address));
      }
      assert AcceptorFor(service, address)(found.value);
      timeout := ResolvedTimeout(RequestFor(service, found.value.raw.value, given));
      outcome, events := Stop(w, found.value.pid);
    }

    /** Stop among processes that `dscli start` launched: the one that answers for the service at the
        address, and if there is not exactly one, none at all. A worker is given the time its own
        start asked for. */
    method StopStarted(w: World, candidates: seq<Candidate>, ghost started: seq<Started>, service: Service, address: string,
                       given: Settings)
      returns (outcome: StopOutcome, ghost events: seq<Event>)
      requires w.Valid() && forall i :: 0 <= i < |candidates| ==> candidates[i].pid < |w.alive|
      requires Runs(candidates, started)
      modifies w, this
      ensures w.Valid() && w.trace == old(w.trace) + events
      ensures outcome.NoUniqueProcess? <==> !exists i :: IsTheOne(started, i, service, address)
      ensures outcome.NoUniqueProcess? ==> events == []
      ensures forall i :: IsTheOne(started, i, service, address) ==>
                && timeout == ResolvedTimeout(RequestFor(service, Raw(CommandOf(started[i])), given))
                && Escalates(events, candidates[i].pid, timeout)
                && (outcome.Stopped? <==> EndsInExit(events, candidates[i].pid))
                && (outcome.Raised? ==> RaisedWhy(events, candidates[i].pid, timeout, w.now))
                && (service.Worker? ==> started[i].StartedWorker? && TimeToMigrate(started[i], given, timeout))
    {
      hide Runs, Escalates, OnlyOne, AcceptorFor, IsTheOne, RaisedWhy, ResolvedTimeout, RequestFor, Raw, CommandOf;
      hide PlainStart, TimeToMigrate, EndsInExit, AllTruthful, OwnValue;
      outcome, events := StopService(w, candidates, service, address, given);
      forall i ensures OnlyOne(candidates, i, AcceptorFor(service, address)) <==> IsTheOne(started, i, service, address) {
        OnlyTheOne(candidates, started, service, address, i);
      }
      forall i | IsTheOne(started, i, service, address)
        ensures 0 <= i < |started| == |candidates| && PlainStart(started[i])
        ensures candidates[i].raw == Some(Raw(CommandOf(started[i])))
        ensures service.Worker? ==>
                  && started[i].StartedWorker?
                  && TimeToMigrate(started[i], given, ResolvedTimeout(RequestFor(Service.Worker, Raw(CommandOf(started[i])), given)))
      {
        IsIndex(started, i, service, address);
        RunsAt(candidates, started, i);
        if service.Worker? {
          WorkerAnswers(started, i, address);
          TimeoutOfStarted(started[i], given);
        }
      }
    }
  }
}
