/** `dscli start -a`: a coordinator, then a worker; the coordinator is taken down again when the
    worker does not start. */
module CombinedStart {
  import opened Text
  import opened Processes
  import opened WorkerStart

  const CLEANUP_WAIT: real := 2.0
  const CLEANUP_INTERVAL: real := 0.1

  ghost predicate SignalTo(kind: Kind, c: nat) {
    IsSignal(kind) && kind.child == c
  }

  /** From `from` on process `c` is left alone. */
  ghost predicate LeftAlone(trace: seq<Event>, from: nat, c: nat) {
    forall k :: from <= k < |trace| ==> !SignalTo(trace[k].kind, c)
  }

  /** From `from` on no process is signalled. */
  ghost predicate NoSignals(trace: seq<Event>, from: nat) {
    forall k :: from <= k < |trace| ==> !IsSignal(trace[k].kind)
  }

  /** From `from` on, `k` rounds of looking at `c` and sleeping a tenth of a second. */
  ghost predicate Rounds(trace: seq<Event>, from: nat, k: nat, c: nat) {
    && from + 2 * k <= |trace|
    && forall j :: 0 <= j < k ==> trace[from + 2 * j].kind == Present(c) && trace[from + 2 * j + 1].kind == Slept(0.1)
  }

  /** Event `i` asks `c` to end, and no signal to `c` comes before it. If the request found no one or
      was refused, that is the end of it. Otherwise `c` is looked at every tenth of a second, twenty
      times at most, until it is seen gone, and that is the end; or a kill is tried, two seconds after
      the request or because looking at `c` raised. */
  ghost predicate TakenDownAt(trace: seq<Event>, from: nat, i: nat, c: nat) {
    && from <= i < |trace| && LeftAlone(trace[..i], from, c)
    && if trace[i].kind != TermSent(c) then
         |trace| == i + 1 && (trace[i].kind == Missed(c, Term) || trace[i].kind == Refused(c, Term))
       else CleanedUp(trace, i, c)
  }

  ghost predicate CleanedUp(trace: seq<Event>, i: nat, c: nat)
    requires i < |trace|
  {
    exists k: nat :: CleanedUpAfter(trace, i, c, k)
  }

  ghost predicate CleanedUpAfter(trace: seq<Event>, i: nat, c: nat, k: nat)
    requires i < |trace|
  {
    var n, last := i + 1 + 2 * k, trace[|trace| - 1];
    && k <= 20 && n < |trace| && Rounds(trace, i + 1, k, c)
    && if trace[n].kind == SawExit(c) then |trace| == n + 1
       else
         && IsKill(last.kind) && last.kind.child == c
         && if trace[n].kind == LookFailed(c) then |trace| == n + 2
            else |trace| == n + 1 && last.at >= trace[i].at + 2.0
  }

  /** Every process of `alive` from index `first` on that is still running had a signal refused. */
  ghost predicate NoneLeft(alive: seq<bool>, first: nat, events: seq<Event>) {
    forall c :: first <= c < |alive| && alive[c] ==> RefusedIn(events, c)
  }

  ghost predicate RefusedIn(events: seq<Event>, c: nat) {
    exists i :: 0 <= i < |events| && events[i].kind.Refused? && events[i].kind.child == c
  }

  /** The coordinator answered on its port and was then polled alive. */
  ghost predicate CoordinatorReady(events: seq<Event>, c: nat) {
    exists i :: 0 < i < |events| && events[i - 1].kind == PortSeen(c) && events[i].kind == SawAlive(c)
  }

  /** From `from` on, `k` turns of one second each: the coordinator polled alive, its port silent. */
  ghost predicate Turns(trace: seq<Event>, from: nat, k: nat, c: nat) {
    && from + 3 * k <= |trace|
    && forall j :: 0 <= j < k ==> TurnAt(trace, from + 3 * j, c)
  }

  ghost predicate TurnAt(trace: seq<Event>, i: nat, c: nat)
    requires i + 3 <= |trace|
  {
    trace[i].kind == SawAlive(c) && trace[i + 1].kind == PortSilent(c) && trace[i + 2].kind == Slept(1.0)
  }

  /** `wellFormed`: the address passes the address check; `buildable`: the command line is accepted. */
  datatype CoordinatorParams = CoordinatorParams(address: string, wellFormed: bool, buildable: bool)

  /** How a wait that began at `from` failed after `k` turns: the coordinator was seen exited, at the
      beginning of a turn or after its port had answered; or all `limit` turns went by, and a kill was
      tried no earlier than `deadline`. */
  ghost predicate GaveUp(trace: seq<Event>, from: nat, k: nat, c: nat, limit: nat, deadline: real) {
    && Turns(trace, from, k, c)
    && var n := from + 3 * k;
       if k < limit then
         && Ends(trace, SawExit(c))
         && (|trace| == n + 1 || (|trace| == n + 3 && trace[n].kind == SawAlive(c) && trace[n + 1].kind == PortSeen(c)))
       else k == limit && |trace| == n + 1 && IsKill(trace[n].kind) && trace[n].kind.child == c && trace[n].at >= deadline
  }

  ghost predicate InVain(events: seq<Event>, c: nat, limit: nat, deadline: real) {
    exists k: nat :: GaveUp(events, 2, k, c, limit, deadline)
  }

  /** Why there is no coordinator: rejected parameters, an address that answers, no process, or a wait
      in vain for the one that was launched. */
  ghost predicate NoCoordinator(params: CoordinatorParams, events: seq<Event>, c: nat, limit: nat, deadline: real) {
    if params.address == "" || !params.wellFormed then events == []
    else if events == [] then false
    else if events[0].kind == AddressBusy then |events| == 1
    else
      && events[0].kind == AddressFree
      && if !params.buildable then |events| == 1
         else LaunchFailed(events, c, limit, deadline)
  }

  /** One second of waiting for the coordinator: Some when the wait is over. */
  method CoordinatorTurn(w: World, c: nat) returns (r: Option<Result<nat, ()>>)
    requires w.Valid() && c < |w.alive|
    modifies w
    ensures w.Valid() && w.Drifted() && w.SameRun() && (r.Some? && r.value.Ok? ==> r.value.value == c)
    ensures r.None? ==> w.tally == old(w.tally).(polls := w.tally.polls) && w.now >= old(w.now) + 1.0
    ensures r.Some? && r.value.Err? ==>
              w.tally == old(w.tally).(open := old(w.tally).open - {c}, polls := w.tally.polls)
    ensures r.Some? && r.value.Ok? ==> w.tally == old(w.tally).(polls := w.tally.polls)
    // what was seen, in order
    ensures var n := |old(w.trace)|;
            match r
            case None => |w.trace| == n + 3 && TurnAt(w.trace, n, c)
            case Some(Err(_)) =>
              && Ends(w.trace, SawExit(c)) && |w.trace| in {n + 1, n + 3}
              && (|w.trace| == n + 3 ==> w.trace[n].kind == SawAlive(c) && w.trace[n + 1].kind == PortSeen(c))
            case Some(Ok(_)) => AnsweredAt(w.trace, n, c)
  {
    hide AllTruthful;
    var exited := w.Exited(c);
    if exited {
      return Some(Err(()));
    }
    var answers := w.PortAnswers(c);
    if answers {
      exited := w.Exited(c);
      return Some(if exited then Err(()) else Ok(c));
    }
    w.Sleep(1.0);
    return None;
  }

  /** The last things seen, from `n` on: polled alive, answered, polled alive. */
  ghost predicate AnsweredAt(trace: seq<Event>, n: nat, c: nat) {
    |trace| == n + 3 && trace[n].kind == SawAlive(c) && trace[n + 1].kind == PortSeen(c) && trace[n + 2].kind == SawAlive(c)
  }

  lemma NothingOpen(w: World)
    requires w.Valid() && w.tally.open == {}
    ensures NoneLeft(w.alive, w.born, w.Run())
  {
  }

  lemma OnlyRefused(w: World, c: nat)
    requires w.Valid() && w.tally.open == {c} && |w.trace| > w.mark && Ends(w.trace, Refused(c, Kill))
    ensures NoneLeft(w.alive, w.born, w.Run())
  {
    var run := w.Run();
    assert run[|run| - 1].kind == Refused(c, Kill);
  }

  lemma Unsignalled(w: World)
    requires w.Valid() && w.tally.signals == 0
    ensures NoSignals(w.trace, w.mark)
  {
    var run := w.Run();
    assert w.tally == Tallied(run);
    CountsAreExact(run);
    assert forall k :: w.mark <= k < |w.trace| ==> run[k - w.mark] == w.trace[k];
  }

  lemma NoTurns(trace: seq<Event>, c: nat)
    ensures Turns(trace, |trace|, 0, c)
  {
  }

  lemma StillTurns(trace: seq<Event>, more: seq<Event>, from: nat, k: nat, c: nat)
    requires trace <= more && Turns(trace, from, k, c)
    ensures Turns(more, from, k, c)
  {
    assert forall i :: 0 <= i < |trace| ==> more[i] == trace[i];
    forall j | 0 <= j < k ensures TurnAt(more, from + 3 * j, c) {
      assert TurnAt(trace, from + 3 * j, c);
    }
  }

  lemma OneMoreTurn(trace: seq<Event>, more: seq<Event>, from: nat, k: nat, c: nat)
    requires trace <= more && Turns(trace, from, k, c) && |trace| == from + 3 * k
    requires |more| == |trace| + 3 && TurnAt(more, |trace|, c)
    ensures Turns(more, from, k + 1, c)
  {
    StillTurns(trace, more, from, k, c);
  }

  /** During the turns no port answered. */
  lemma SilentTurns(trace: seq<Event>, from: nat, k: nat, c: nat, i: nat)
    requires Turns(trace, from, k, c) && from <= i < from + 3 * k
    ensures !trace[i].kind.PortSeen?
  {
    var j := (i - from) / 3;
    assert TurnAt(trace, from + 3 * j, c);
  }

  /** A wait in vain does not find the coordinator ready. */
  lemma NeverReady(trace: seq<Event>, mark: nat, k: nat, c: nat, limit: nat, deadline: real)
    requires mark + 2 <= |trace| && !trace[mark].kind.PortSeen? && !trace[mark + 1].kind.PortSeen?
    requires GaveUp(trace, mark + 2, k, c, limit, deadline)
    ensures !CoordinatorReady(trace[mark..], c)
  {
    hide Turns;
    var run, n := trace[mark..], mark + 2 + 3 * k;
    forall i | 0 < i < |run| ensures run[i - 1].kind != PortSeen(c) || run[i].kind != SawAlive(c) {
      assert run[i - 1] == trace[mark + i - 1] && run[i] == trace[mark + i];
      if mark + 2 <= mark + i - 1 < n {
        SilentTurns(trace, mark + 2, k, c, mark + i - 1);
      }
    }
  }

  lemma JustReady(trace: seq<Event>, mark: nat, n: nat, c: nat)
    requires mark <= n && AnsweredAt(trace, n, c)
    ensures CoordinatorReady(trace[mark..], c)
  {
    var run := trace[mark..];
    assert run[|run| - 2] == trace[n + 1] && run[|run| - 1] == trace[n + 2];
  }

  /** The same of the events of the run alone. */
  lemma GaveUpRun(trace: seq<Event>, mark: nat, k: nat, c: nat, limit: nat, deadline: real)
    requires mark + 2 <= |trace| && GaveUp(trace, mark + 2, k, c, limit, deadline)
    ensures InVain(trace[mark..], c, limit, deadline)
  {
    var run := trace[mark..];
    assert forall i :: 0 <= i < |run| ==> run[i] == trace[mark + i];
    forall j | 0 <= j < k ensures TurnAt(run, 2 + 3 * j, c) {
      assert TurnAt(trace, mark + 2 + 3 * j, c);
    }
    assert GaveUp(run, 2, k, c, limit, deadline);
  }

  /** Wait for the launched coordinator, second by second, as many turns as the timeout has seconds;
      kill it when none of them found it ready. `k` is the number of full turns. */
  method AwaitCoordinator(w: World, timeout: int, c: nat) returns (r: Result<nat, ()>, ghost k: nat)
    requires w.Valid() && c < |w.alive| && w.tally.open == {c} && |w.trace| > w.mark
    modifies w
    ensures w.Valid() && w.Drifted() && w.SameRun()
    ensures r.Ok? ==>
              && r.value == c && w.tally.open == {c} && w.tally.signals == old(w.tally).signals
              && k < Limit(timeout) && Turns(w.trace, |old(w.trace)|, k, c) && AnsweredAt(w.trace, |old(w.trace)| + 3 * k, c)
    ensures r.Err? ==>
              && NoneLeft(w.alive, w.born, w.Run())
              && GaveUp(w.trace, |old(w.trace)|, k, c, Limit(timeout), old(w.now) + Limit(timeout) as real)
  {
    hide w.Valid, Step, CoordinatorReady, NoneLeft, Turns, TurnAt;
    k := 0;
    NoTurns(w.trace, c);
    var i := 0;
    while i < timeout
      invariant 0 <= i <= Limit(timeout) && k == i && w.now >= old(w.now) + i as real
      invariant w.Valid() && w.Drifted() && w.SameRun() && w.tally == old(w.tally).(polls := w.tally.polls)
      invariant |w.trace| == |old(w.trace)| + 3 * k && Turns(w.trace, |old(w.trace)|, k, c)
    {
      ghost var before := w.trace;
      var turn := CoordinatorTurn(w, c);
      if turn.Some? {
        StillTurns(before, w.trace, |old(w.trace)|, k, c);
        if turn.value.Err? {
          NothingOpen(w);
        }
        return turn.value, k;
      }
      OneMoreTurn(before, w.trace, |old(w.trace)|, k, c);
      i := i + 1;
      k := k + 1;
    }
    ghost var before := w.trace;
    KillOpen(w, c);
    StillTurns(before, w.trace, |old(w.trace)|, k, c);
    r := Err(());
  }

  /** Kill the one open child. */
  method KillOpen(w: World, c: nat)
    requires w.Valid() && c < |w.alive| && w.tally.open == {c} && |w.trace| > w.mark
    modifies w
    ensures w.Valid() && w.Drifted() && w.SameRun() && NoneLeft(w.alive, w.born, w.Run())
    ensures |w.trace| == |old(w.trace)| + 1
    ensures var last := w.trace[|old(w.trace)|]; IsKill(last.kind) && last.kind.child == c && last.at >= old(w.now)
  {
    hide AllTruthful;
    var signal := w.Kill(c);
    if signal.NotPermitted? {
      OnlyRefused(w, c);
    } else {
      NothingOpen(w);
    }
  }

  /** The wait for the one process launched after the look at the address. */
  method Await(w: World, timeout: int, c: nat, ghost start: real) returns (r: Result<nat, ()>)
    requires w.Valid() && c < |w.alive| && w.tally.open == {c} && w.tally.signals == 0 && start <= w.now
    requires |w.trace| == w.mark + 2 && w.trace[w.mark].kind == AddressFree && w.trace[w.mark + 1].kind == Spawned(c)
    modifies w
    ensures w.Valid() && w.Drifted() && w.SameRun()
    ensures r.Ok? <==> CoordinatorReady(w.Run(), c)
    ensures r.Ok? ==> r.value == c && NoSignals(w.trace, w.mark)
    ensures r.Err? ==> NoneLeft(w.alive, w.born, w.Run()) && InVain(w.Run(), c, Limit(timeout), start + Limit(timeout) as real)
  {
    hide AllTruthful, NoneLeft, CoordinatorReady, NoSignals, InVain, Turns, AnsweredAt, Step;
    ghost var k, limit := 0, Limit(timeout);
    ghost var began := w.now;
    r, k := AwaitCoordinator(w, timeout, c);
    if r.Ok? {
      Unsignalled(w);
      JustReady(w.trace, w.mark, w.mark + 2 + 3 * k, c);
    } else {
      GaveUpEarlier(w.trace, w.mark + 2, k, c, limit, began + limit as real, start + limit as real);
      NeverReady(w.trace, w.mark, k, c, limit, start + limit as real);
      GaveUpRun(w.trace, w.mark, k, c, limit, start + limit as real);
    }
  }

  /** What became of the process to be launched: none could be, or it was waited for in vain. */
  ghost predicate LaunchFailed(events: seq<Event>, c: nat, limit: nat, deadline: real) {
    && |events| > 1
    && if events[1].kind == SpawnFailed then |events| == 2
       else events[1].kind == Spawned(c) && InVain(events, c, limit, deadline)
  }

  /** Launch the coordinator and wait for it. */
  method LaunchCoordinator(w: World, timeout: int, ghost start: real) returns (r: Result<nat, ()>)
    requires w.Valid() && w.tally == NOTHING && w.born == |w.alive| && start <= w.now
    requires |w.trace| == w.mark + 1 && Ends(w.trace, AddressFree)
    modifies w
    ensures w.Valid() && w.SameRun() && w.now >= old(w.now) && Grown(old(w.alive), w.alive) && |w.alive| <= |old(w.alive)| + 1
    ensures r.Ok? <==> CoordinatorReady(w.Run(), w.born)
    ensures r.Ok? ==> r.value == w.born < |w.alive| && NoSignals(w.trace, w.mark)
    ensures r.Err? ==>
              && NoneLeft(w.alive, w.born, w.Run())
              && LaunchFailed(w.Run(), w.born, Limit(timeout), start + Limit(timeout) as real)
  {
    hide AllTruthful, NoneLeft, CoordinatorReady, NoSignals, InVain;
    r := Err(());
    var child := w.Spawn();
    NoneYet(w);
    if child.Some? {
      assert w.tally.open == {child.value};
      r := Await(w, timeout, child.value, start);
    }
  }

  /** `start_coordinator`: Ok carries the process. */
  method StartCoordinator(w: World, timeout: int, params: CoordinatorParams) returns (r: Result<nat, ()>)
    requires w.Valid()
    modifies w
    ensures w.Valid() && old(w.trace) <= w.trace && w.mark == |old(w.trace)| && w.now >= old(w.now)
    ensures w.born == |old(w.alive)| && Grown(old(w.alive), w.alive) && |w.alive| <= |old(w.alive)| + 1
    ensures r.Ok? <==> CoordinatorReady(w.Run(), |old(w.alive)|)
    ensures r.Ok? ==> r.value == |old(w.alive)| < |w.alive| && NoSignals(w.trace, |old(w.trace)|)
    ensures r.Err? ==>
              && NoneLeft(w.alive, |old(w.alive)|, w.Run())
              && NoCoordinator(params, w.Run(), |old(w.alive)|, Limit(timeout), old(w.now) + Limit(timeout) as real)
  {
    hide AllTruthful, NoneLeft, CoordinatorReady, NoSignals, LaunchFailed;
    w.Begin();
    r := Err(());
    NoneYet(w);
    if params.address != "" && params.wellFormed {
      var taken := w.AddressAnswers();
      NoneYet(w);
      if !taken && params.buildable {
        r := LaunchCoordinator(w, timeout, old(w.now));
      }
    }
  }

  lemma GaveUpEarlier(trace: seq<Event>, from: nat, k: nat, c: nat, limit: nat, deadline: real, earlier: real)
    requires GaveUp(trace, from, k, c, limit, deadline) && earlier <= deadline
    ensures GaveUp(trace, from, k, c, limit, earlier)
  {
  }

  /** Before the first look at a coordinator there is none to be ready, and none left unless open. */
  lemma NoneYet(w: World)
    requires w.Valid() && forall i :: w.mark <= i < |w.trace| ==> !w.trace[i].kind.PortSeen?
    ensures w.tally.open == {} ==> NoneLeft(w.alive, w.born, w.Run())
    ensures forall c :: !CoordinatorReady(w.Run(), c)
  {
    if w.tally.open == {} {
      NothingOpen(w);
    }
    var run := w.Run();
    assert forall i :: 0 <= i < |run| ==> run[i] == w.trace[w.mark + i];
  }

  /** Look for the process every tenth of a second, for two seconds: true when it was found gone. The
      wait ends early only with that, or when looking raised. `k` is the number of full rounds. */
  method AwaitCleanup(w: World, c: nat) returns (gone: bool, ghost k: nat)
    requires w.Valid() && c < |w.alive|
    modifies w
    ensures w.Valid() && w.Drifted() && w.SameRun()
    ensures k <= 20 && Rounds(w.trace, |old(w.trace)|, k, c)
    ensures var n := |old(w.trace)| + 2 * k;
            if gone then |w.trace| == n + 1 && Ends(w.trace, SawExit(c))
            else if |w.trace| == n then w.now >= old(w.now) + 2.0
            else |w.trace| == n + 1 && Ends(w.trace, LookFailed(c))
  {
    hide w.Valid, Step, Rounds;
    k := 0;
    var deadline := w.Clock();
    ghost var start := deadline;
    deadline := deadline + CLEANUP_WAIT;
    var t := w.Clock();
    NoRounds(w.trace, c);
    while t < deadline
      invariant w.Valid() && w.Drifted() && w.SameRun() && t <= w.now
      invariant Rounds(w.trace, |old(w.trace)|, k, c) && |w.trace| == |old(w.trace)| + 2 * k
      invariant k <= 20 && (t - start) * 10.0 >= k as real
      decreases 20 - k
    {
      ghost var before := w.trace;
      var probe := CleanupRound(w, c);
      if !probe.StillThere? {
        StillRounds(before, w.trace, |old(w.trace)|, k, c);
        return probe.Gone?, k;
      }
      OneMoreRound(before, w.trace, |old(w.trace)|, k, c);
      k := k + 1;
      t := w.Clock();
    }
    return false, k;
  }

  /** One look, and a tenth of a second of sleep if the process is still there. */
  method CleanupRound(w: World, c: nat) returns (probe: Probe)
    requires w.Valid() && c < |w.alive|
    modifies w
    ensures w.Valid() && w.Drifted() && w.SameRun()
    ensures match probe
            case StillThere =>
              && |w.trace| == |old(w.trace)| + 2 && w.trace[|old(w.trace)|].kind == Present(c)
              && w.trace[|old(w.trace)| + 1].kind == Slept(0.1) && w.now >= old(w.now) + 0.1
            case Gone => |w.trace| == |old(w.trace)| + 1 && Ends(w.trace, SawExit(c))
            case ProbeError => |w.trace| == |old(w.trace)| + 1 && Ends(w.trace, LookFailed(c))
  {
    hide w.Valid, Step;
    probe := w.Look(c);
    if probe.StillThere? {
      w.Sleep(CLEANUP_INTERVAL);
    }
  }

  lemma NoRounds(trace: seq<Event>, c: nat)
    ensures Rounds(trace, |trace|, 0, c)
  {
  }

  lemma StillRounds(trace: seq<Event>, more: seq<Event>, from: nat, k: nat, c: nat)
    requires trace <= more && Rounds(trace, from, k, c)
    ensures Rounds(more, from, k, c)
  {
    assert forall i :: 0 <= i < |trace| ==> more[i] == trace[i];
  }

  lemma OneMoreRound(trace: seq<Event>, more: seq<Event>, from: nat, k: nat, c: nat)
    requires trace <= more && Rounds(trace, from, k, c) && |trace| == from + 2 * k && |more| == |trace| + 2
    requires more[|trace|].kind == Present(c) && more[|trace| + 1].kind == Slept(0.1)
    ensures Rounds(more, from, k + 1, c)
  {
    assert forall i :: 0 <= i < |trace| ==> more[i] == trace[i];
  }

  /** `kill_started_process`: a termination request first; in the end the process is gone, killed,
      or out of reach for lack of permission. */
  method KillStartedProcess(w: World, c: nat)
    requires w.Valid() && c < |w.alive|
    modifies w
    ensures w.Valid() && w.Drifted() && w.SameRun()
    ensures TakenDownAt(w.trace, |old(w.trace)|, |old(w.trace)|, c) && w.trace[|old(w.trace)|].at >= old(w.now)
    ensures w.alive[c] ==> w.trace[|w.trace| - 1].kind.Refused?
  {
    hide w.Valid, Step, Rounds, CleanedUp;
    var term := w.Terminate(c);
    ghost var i, k := |old(w.trace)|, 0;
    if term.Delivered? {
      var gone;
      gone, k := AwaitCleanup(w, c);
      ghost var before := w.trace;
      if gone {
        SeenGone(w, c);
      } else {
        var kill := w.Kill(c);
      }
      AllCleanedUp(before, w.trace, i, c, k);
    }
  }

  lemma SeenGone(w: World, c: nat)
    requires w.Valid() && c < |w.alive| && Ends(w.trace, SawExit(c))
    ensures !w.alive[c]
  {
    assert Truthful(w.trace[|w.trace| - 1].kind, w.alive);
  }

  /** Full rounds, and then the process seen gone, or a kill when it is due. */
  lemma AllCleanedUp(waited: seq<Event>, trace: seq<Event>, i: nat, c: nat, k: nat)
    requires i < |waited| && waited <= trace && k <= 20 && Rounds(waited, i + 1, k, c)
    requires var n, last := i + 1 + 2 * k, trace[|trace| - 1];
             if |trace| == |waited| then |trace| == n + 1 && last.kind == SawExit(c)
             else
               && |trace| == |waited| + 1 && IsKill(last.kind) && last.kind.child == c
               && if |waited| == n then last.at >= trace[i].at + 2.0
                  else |waited| == n + 1 && Ends(waited, LookFailed(c))
    ensures CleanedUp(trace, i, c)
  {
    hide Rounds;
    StillRounds(waited, trace, i + 1, k, c);
    assert CleanedUpAfter(trace, i, c, k);
  }

  lemma ReadyExtends(events: seq<Event>, more: seq<Event>, c: nat)
    requires CoordinatorReady(events, c) && events <= more
    ensures CoordinatorReady(more, c)
  {
    var i :| 0 < i < |events| && events[i - 1].kind == PortSeen(c) && events[i].kind == SawAlive(c);
    assert more[i - 1] == events[i - 1] && more[i] == events[i];
  }

  /** A worker that did not start leaves no child of its run behind, unless killing it was refused. */
  lemma WorkerLeavesNone(w: World, outcome: Outcome, limit: nat, deadline: real, stood: bool)
    requires w.Valid() && WellSupervised(w.Run(), outcome, limit, deadline, w.born, stood) && !outcome.Ready?
    ensures NoneLeft(w.alive, w.born, w.Run())
  {
    var events := w.Run();
    assert w.tally == Tallied(events);
    forall c | w.born <= c < |w.alive| && w.alive[c] ensures RefusedIn(events, c) {
      assert c in Sum(events).open;
      assert events[|events| - 1].kind.Refused? && events[|events| - 1].kind.child == c;
    }
  }

  /** A worker start signals no process older than its own; one that succeeds signals none at all. */
  lemma WorkerSignals(w: World, outcome: Outcome, limit: nat, deadline: real, stood: bool)
    requires w.Valid() && WellSupervised(w.Run(), outcome, limit, deadline, w.born, stood)
    ensures outcome.Ready? ==> NoSignals(w.trace, w.mark)
    ensures forall c :: 0 <= c < w.born ==> LeftAlone(w.trace, w.mark, c)
  {
    var events := w.Run();
    assert forall k :: w.mark <= k < |w.trace| ==> events[k - w.mark] == w.trace[k];
  }

  /** Nothing comes back to life, and what was refused stays refused: with the coordinator settled
      too, none of the processes from it on is left. */
  lemma NoneLeftWith(alive0: seq<bool>, alive: seq<bool>, c: nat, run: seq<Event>, more: seq<Event>)
    requires c < |alive| == |alive0| && NoneLeft(alive0, c + 1, run)
    requires forall k :: 0 <= k < |alive| && alive[k] ==> alive0[k]
    requires alive[c] ==> more != [] && more[|more| - 1].kind.Refused? && more[|more| - 1].kind.child == c
    ensures NoneLeft(alive, c, run + more)
  {
    var events := run + more;
    forall k | c <= k < |alive| && alive[k] ensures RefusedIn(events, k) {
      if k == c {
        assert events[|events| - 1] == more[|more| - 1];
      } else {
        var i :| 0 <= i < |run| && run[i].kind.Refused? && run[i].kind.child == k;
        assert events[i] == run[i];
      }
    }
  }

  lemma After(first: seq<Event>, middle: seq<Event>, last: seq<Event>)
    requires first <= middle <= last
    ensures last[|first|..] == middle[|first|..] + last[|middle|..]
  {
  }

  /** Take the coordinator `c` down after a worker run that left nothing of its own behind. */
  method RollBack(w: World, c: nat)
    requires w.Valid() && c < |w.alive| && NoneLeft(w.alive, c + 1, w.Run()) && LeftAlone(w.trace, w.mark, c)
    modifies w
    ensures w.Valid() && w.SameRun() && w.now >= old(w.now)
    ensures |w.trace| > |old(w.trace)| && TakenDownAt(w.trace, w.mark, |old(w.trace)|, c)
    ensures w.trace[|old(w.trace)|].at >= old(w.now)
    ensures NoneLeft(w.alive, c, w.Run())
  {
    ghost var run, alive, before := w.Run(), w.alive, w.trace;
    KillStartedProcess(w, c);
    assert w.trace[..|before|] == before;
    After(w.trace[..w.mark], before, w.trace);
    NoneLeftWith(alive, w.alive, c, run, w.trace[|before|..]);
  }

  /** The worker start whose events are those from `p` to `i` failed, for a reason it gives, and then
      the coordinator `c` was taken down from `i` on. */
  ghost predicate RolledBackAt(trace: seq<Event>, from: nat, p: nat, i: nat, c: nat, params: WorkerParams, worker: Outcome,
                               deadline: real) {
    && from <= p <= i && TakenDownAt(trace, from, i, c) && !worker.Ready?
    && StartExplained(params, trace[p..i], worker, deadline, trace[i].at)
  }

  ghost predicate RolledBack(trace: seq<Event>, from: nat, p: nat, c: nat, params: WorkerParams, deadline: real) {
    exists i: nat, worker: Outcome :: RolledBackAt(trace, from, p, i, c, params, worker, deadline)
  }

  /** By `p` the coordinator had come up; the worker start from there failed and was rolled back. */
  ghost predicate UpAndDown(trace: seq<Event>, from: nat, p: nat, c: nat, params: WorkerParams, deadline: real) {
    from <= p <= |trace| && CoordinatorReady(trace[from..p], c) && RolledBack(trace, from, p, c, params, deadline)
  }

  ghost predicate WasUpAndDown(trace: seq<Event>, from: nat, c: nat, params: WorkerParams, deadline: real) {
    exists p: nat :: UpAndDown(trace, from, p, c, params, deadline)
  }

  /** A worker was polled alive and then its health file was seen, and that is the last of it. */
  ghost predicate WorkerSeen(trace: seq<Event>, from: nat, c: nat) {
    var n := |trace|;
    n >= from + 2 && trace[n - 2].kind.SawAlive? && trace[n - 2].kind.child > c && trace[n - 1].kind.HealthSeen?
  }

  lemma LaterNow(params: WorkerParams, events: seq<Event>, outcome: Outcome, deadline: real, now: real, later: real)
    requires StartExplained(params, events, outcome, deadline, now) && now <= later
    ensures StartExplained(params, events, outcome, deadline, later)
  {
    hide Tells, Unfit;
  }

  /** Start the worker; if it does not start, take the coordinator `c` down, and not otherwise. */
  method StartWorkerOrRollBack(w: World, cmd: StartCommand, params: WorkerParams, c: nat) returns (worker: Outcome)
    requires w.Valid() && c + 1 == |w.alive|
    modifies w
    ensures w.Valid() && old(w.trace) <= w.trace
    ensures worker.Ready? ==> NoSignals(w.trace, |old(w.trace)|) && WorkerSeen(w.trace, |old(w.trace)|, c)
    ensures !worker.Ready? ==>
              && RolledBack(w.trace, |old(w.trace)|, |old(w.trace)|, c, params, old(w.now) + cmd.timeout as real)
              && NoneLeft(w.alive, c, w.trace[|old(w.trace)|..])
  {
    hide NoneLeft, TakenDownAt, NoSignals, LeftAlone, AllTruthful, Step, StartExplained, RolledBack;
    worker := cmd.StartWorker(w, params);
    ghost var limit, deadline, stood :=
      Limit(cmd.timeout), old(w.now) + cmd.timeout as real, StoodOutside(old(w.disk), w.disk);
    WorkerSignals(w, worker, limit, deadline, stood);
    if worker.Ready? {
      assert |w.Run()| >= 2;
    } else {
      WorkerLeavesNone(w, worker, limit, deadline, stood);
      ghost var before, now := w.trace, w.now;
      RollBack(w, c);
      BackFrom(before, w.trace, w.mark, c, params, worker, deadline, now);
    }
  }

  lemma BackFrom(before: seq<Event>, trace: seq<Event>, mark: nat, c: nat, params: WorkerParams, worker: Outcome,
                 deadline: real, now: real)
    requires mark <= |before| < |trace| && before <= trace && !worker.Ready?
    requires TakenDownAt(trace, mark, |before|, c) && trace[|before|].at >= now
    requires StartExplained(params, before[mark..], worker, deadline, now)
    ensures RolledBack(trace, mark, mark, c, params, deadline)
  {
    hide TakenDownAt, StartExplained;
    assert trace[mark..|before|] == before[mark..];
    LaterNow(params, before[mark..], worker, deadline, now, trace[|before|].at);
    assert RolledBackAt(trace, mark, mark, |before|, c, params, worker, deadline);
  }

  /** What was left alone before and rolled back since was rolled back from the earlier point on. */
  lemma RolledBackSince(first: seq<Event>, middle: seq<Event>, last: seq<Event>, c: nat, params: WorkerParams, deadline: real,
                        earlier: real)
    requires first <= middle <= last && NoSignals(middle, |first|) && earlier <= deadline
    requires RolledBack(last, |middle|, |middle|, c, params, deadline)
    ensures RolledBack(last, |first|, |middle|, c, params, earlier)
  {
    hide StartExplained;
    var i: nat, worker: Outcome :| RolledBackAt(last, |middle|, |middle|, i, c, params, worker, deadline);
    TakenDownSince(first, middle, last, i, c);
    EarlierDeadline(params, last[|middle|..i], worker, deadline, last[i].at, earlier);
    assert RolledBackAt(last, |first|, |middle|, i, c, params, worker, earlier);
  }

  lemma EarlierDeadline(params: WorkerParams, events: seq<Event>, outcome: Outcome, deadline: real, now: real, earlier: real)
    requires StartExplained(params, events, outcome, deadline, now) && earlier <= deadline
    ensures StartExplained(params, events, outcome, earlier, now)
  {
    hide Tells, Unfit;
  }

  lemma TakenDownSince(first: seq<Event>, middle: seq<Event>, last: seq<Event>, i: nat, c: nat)
    requires first <= middle <= last && NoSignals(middle, |first|) && TakenDownAt(last, |middle|, i, c)
    ensures TakenDownAt(last, |first|, i, c)
  {
    forall k | |first| <= k < i ensures !SignalTo(last[..i][k].kind, c) {
      if k < |middle| {
        assert last[k] == middle[k];
      }
    }
  }

  lemma NoSignalsSince(first: seq<Event>, middle: seq<Event>, last: seq<Event>)
    requires first <= middle <= last && NoSignals(middle, |first|) && NoSignals(last, |middle|)
    ensures NoSignals(last, |first|)
  {
    assert forall k :: 0 <= k < |middle| ==> last[k] == middle[k];
  }

  /** After a rollback the last thing seen is no health file. */
  lemma RolledBackIsOver(trace: seq<Event>, from: nat, p: nat, c: nat, params: WorkerParams, deadline: real, first: nat)
    requires RolledBack(trace, from, p, c, params, deadline)
    ensures !WorkerSeen(trace, first, c)
  {
    hide StartExplained;
  }

  lemma NoCoordinatorIsOver(params: CoordinatorParams, trace: seq<Event>, from: nat, c: nat, limit: nat, deadline: real)
    requires from <= |trace| && NoCoordinator(params, trace[from..], c, limit, deadline)
    ensures !WorkerSeen(trace, from, c)
  {
    var events := trace[from..];
    assert events != [] ==> events[|events| - 1] == trace[|trace| - 1];
  }

  /** The `-a` branch of `run`. The coordinator, if one is launched, is the first new process. */
  method StartBoth(w: World, cmd: StartCommand, coordinator: CoordinatorParams, params: WorkerParams)
    returns (success: bool)
    requires w.Valid()
    modifies w
    ensures w.Valid() && old(w.trace) <= w.trace
    // success: the coordinator was seen ready, then the worker, and no process was signalled
    ensures success <==>
              && CoordinatorReady(w.trace[|old(w.trace)|..], |old(w.alive)|)
              && WorkerSeen(w.trace, |old(w.trace)|, |old(w.alive)|)
    ensures success ==> NoSignals(w.trace, |old(w.trace)|)
    // failure: no process launched here is left running, unless a signal to it was refused
    ensures !success ==> NoneLeft(w.alive, |old(w.alive)|, w.trace[|old(w.trace)|..])
    // the coordinator did not come up, or the worker did not and the coordinator was taken down,
    // asked to end before any other signal to it
    ensures !success ==>
              if CoordinatorReady(w.trace[|old(w.trace)|..], |old(w.alive)|) then
                WasUpAndDown(w.trace, |old(w.trace)|, |old(w.alive)|, params, old(w.now) + cmd.timeout as real)
              else
                NoCoordinator(coordinator, w.trace[|old(w.trace)|..], |old(w.alive)|, Limit(cmd.timeout),
                              old(w.now) + Limit(cmd.timeout) as real)
  {
    hide NoneLeft, RolledBack, NoSignals, CoordinatorReady, WorkerSeen, NoCoordinator, AllTruthful, Step;
    ghost var c := |w.alive|;
    var started := StartCoordinator(w, cmd.timeout, coordinator);
    if started.Err? {
      NoCoordinatorIsOver(coordinator, w.trace, |old(w.trace)|, c, Limit(cmd.timeout), old(w.now) + Limit(cmd.timeout) as real);
      return false;
    }
    ghost var up, before, now := w.Run(), w.trace, w.now;
    var outcome := StartWorkerOrRollBack(w, cmd, params, started.value);
    After(old(w.trace), before, w.trace);
    ReadyExtends(up, w.trace[|old(w.trace)|..], c);
    if outcome.Ready? {
      NoSignalsSince(old(w.trace), before, w.trace);
      SeenLonger(w.trace, |before|, |old(w.trace)|, c);
    } else {
      NoneLeftExtends(w.alive, c, up, w.trace[|before|..]);
      RolledBackSince(old(w.trace), before, w.trace, c, params, now + cmd.timeout as real, old(w.now) + cmd.timeout as real);
      RolledBackIsOver(w.trace, |old(w.trace)|, |before|, c, params, old(w.now) + cmd.timeout as real, |old(w.trace)|);
      assert w.trace[|old(w.trace)|..|before|] == up;
      assert UpAndDown(w.trace, |old(w.trace)|, |before|, c, params, old(w.now) + cmd.timeout as real);
    }
    return outcome.Ready?;
  }

  lemma SeenLonger(trace: seq<Event>, from: nat, earlier: nat, c: nat)
    requires WorkerSeen(trace, from, c) && earlier <= from
    ensures WorkerSeen(trace, earlier, c)
  {
  }

  lemma NoneLeftExtends(alive: seq<bool>, c: nat, before: seq<Event>, events: seq<Event>)
    requires NoneLeft(alive, c, events)
    ensures NoneLeft(alive, c, before + events)
  {
    forall k | c <= k < |alive| && alive[k] ensures RefusedIn(before + events, k) {
      var i :| 0 <= i < |events| && events[i].kind.Refused? && events[i].kind.child == k;
      assert (before + events)[|before| + i] == events[i];
    }
  }
}
