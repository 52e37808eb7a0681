/** The world a supervising command acts on: a clock, processes that may exit at any moment, a
    store lock, a health file, ports. Whatever the command does or sees is kept in `trace`, and it is
    the world that keeps it, not the command. The bodies of `World` choose freely among the answers
    its contracts allow. */
module Processes {
  import opened Text
  import opened WorkerOutput

  datatype Kind =
    | LockBusy                // the store lock probe found another holder
    | LockFree                // the store lock probe found none
    | Spawned(child: nat)
    | SpawnFailed             // no process could be launched
    | SawAlive(child: nat)
    | SawExit(child: nat)     // exit observed by looking
    | Printed(child: nat, reason: Reason)    // what an exited child's output told
    | HealthSeen(file: HealthFile)
    | HealthMissing           // nothing stood at the health path
    | RemoveFailed            // the health path could not be cleared
    | PortSeen(child: nat)    // the service answered on its port
    | PortSilent(child: nat)  // it did not
    | AddressBusy             // an address to be used already answered
    | AddressFree             // it did not
    | Checked(child: nat)     // one round of a waiting loop: the process status was read
    | Present(child: nat)     // a look found the process still there
    | Slept(seconds: real)    // a sleep was begun
    | LookFailed(child: nat)  // looking at a process raised
    | TermSent(child: nat)
    | KillSent(child: nat)
    | Missed(child: nat, request: Request)   // a signal found no process
    | Refused(child: nat, request: Request)  // a signal was not permitted

  datatype Request = Term | Kill

  /** What stands at the health path. Each file ever put there has its own number. */
  datatype HealthFile = HealthFile(id: nat, regular: bool)

  /** `files` counts the files ever put at the health path, `changes` what others did there. */
  datatype Disk = Disk(files: nat, health: Option<HealthFile>, changes: nat)

  /** What may have become of the health path: what stands there now stood there before, or is new. */
  ghost predicate Later(d0: Disk, d: Disk) {
    && d0.files <= d.files && d0.changes <= d.changes
    && (d.health.Some? ==> d.health == d0.health || d.health.value.id >= d0.files)
    && (d.changes == d0.changes ==> d.health == d0.health)
  }

  /** Something stood there, and no one else touched the path. */
  ghost predicate Stood(d0: Disk, d: Disk) {
    d0.health.Some? && d.changes == d0.changes
  }

  datatype Event = Event(at: real, kind: Kind)

  datatype Signal = Delivered | NoSuchProcess | NotPermitted

  datatype Probe = StillThere | Gone | ProbeError

  // ----- what a trace says -----

  /** `open`: the children launched and not yet seen exit, killed or found gone; `peak`: the most
      there ever were at once; `rounds`: lock-blocked probes plus launches; `conflicts`: store
      lock conflicts met; `clear`: the last probe found the lock free and no launch has used that
      yet; `guarded`: every launch followed such a probe; `signals`: signals sent or tried; `healthy`:
      times the health file was seen; `polls`: polls that found a child running. */
  datatype Tally = Tally(
    open: set<nat>, peak: nat, rounds: nat, conflicts: nat, clear: bool, guarded: bool,
    signals: nat, healthy: nat, polls: nat)

  const NOTHING := Tally({}, 0, 0, 0, false, true, 0, 0, 0)

  ghost function Step(t: Tally, kind: Kind): Tally {
    match kind
    case Spawned(c) =>
      var open := t.open + {c};
      t.(open := open, peak := if |open| > t.peak then |open| else t.peak, rounds := t.rounds + 1,
         clear := false, guarded := t.guarded && t.clear)
    case SawExit(c) => t.(open := t.open - {c})
    case TermSent(_) => t.(signals := t.signals + 1)
    case KillSent(c) => t.(open := t.open - {c}, signals := t.signals + 1)
    case Missed(c, _) => t.(open := t.open - {c}, signals := t.signals + 1)
    case Refused(_, _) => t.(signals := t.signals + 1)
    case SawAlive(_) => t.(polls := t.polls + 1)
    case HealthSeen(_) => t.(healthy := t.healthy + 1)
    case LockFree => t.(clear := true)
    case LockBusy => t.(rounds := t.rounds + 1, conflicts := t.conflicts + 1, clear := false)
    case Printed(_, reason) => if reason.LockConflict? then t.(conflicts := t.conflicts + 1) else t
    case _ => t
  }

  ghost function Sum(events: seq<Event>): Tally {
    if events == [] then NOTHING
    else Step(Sum(events[..|events| - 1]), events[|events| - 1].kind)
  }

  /** `Sum` by the name under which `World.Valid` speaks of it. */
  ghost function Tallied(events: seq<Event>): Tally { Sum(events) }

  lemma SumAppend(events: seq<Event>, e: Event)
    ensures Sum(events + [e]) == Step(Sum(events), e.kind)
  {
    assert (events + [e])[..|events|] == events;
  }

  lemma PeakStep(t: Tally, kind: Kind)
    requires |t.open| <= t.peak
    ensures |Step(t, kind).open| <= Step(t, kind).peak && t.peak <= Step(t, kind).peak
  {
    if !kind.Spawned? {
      OpenStep(t, kind);
      if kind.SawExit? || kind.KillSent? || kind.Missed? {
        Shrinks(t.open, kind.child);
      }
    }
  }

  lemma OpenStep(t: Tally, kind: Kind)
    requires !kind.Spawned?
    ensures Step(t, kind).peak == t.peak
    ensures Step(t, kind).open == if kind.SawExit? || kind.KillSent? || kind.Missed? then t.open - {kind.child} else t.open
  {
  }

  lemma {:induction false} PeakBounds(events: seq<Event>)
    ensures |Sum(events).open| <= Sum(events).peak
  {
    if events != [] {
      var last := |events| - 1;
      PeakBounds(events[..last]);
      PeakStep(Sum(events[..last]), events[last].kind);
    }
  }

  /** The peak bounds the number of open children after every prefix of the trace. */
  lemma {:induction false} PeakBoundsEveryPrefix(events: seq<Event>, k: nat)
    requires k <= |events|
    ensures |Sum(events[..k]).open| <= Sum(events).peak
  {
    if k == |events| {
      assert events[..k] == events;
      PeakBounds(events);
    } else {
      var last := |events| - 1;
      PeakBoundsEveryPrefix(events[..last], k);
      assert events[..last][..k] == events[..k];
      PeakBounds(events[..last]);
      PeakStep(Sum(events[..last]), events[last].kind);
    }
  }

  /** A free probe at `j` that nothing has used or contradicted before `i`. */
  ghost predicate FreeFrom(events: seq<Event>, j: int, i: int)
    requires i <= |events|
  {
    && 0 <= j < i && events[j].kind == LockFree
    && (forall m :: j < m < i ==> !events[m].kind.Spawned? && !events[m].kind.LockBusy?)
  }

  /** No launch without a probe of its own that found the lock free. */
  ghost predicate ProbedFirst(events: seq<Event>) {
    forall i :: 0 <= i < |events| && events[i].kind.Spawned? ==> exists j :: FreeFrom(events, j, i)
  }

  lemma ClearStep(t: Tally, kind: Kind)
    ensures Step(t, kind).clear ==> kind == LockFree || (t.clear && !kind.Spawned? && !kind.LockBusy?)
    ensures Step(t, kind).guarded ==> t.guarded && (kind.Spawned? ==> t.clear)
  {
  }

  /** A free probe in the beginning is one in the whole. */
  lemma FreeInLonger(before: seq<Event>, events: seq<Event>, j: int, i: int)
    requires before <= events && i <= |before| && FreeFrom(before, j, i)
    ensures FreeFrom(events, j, i)
  {
    assert forall m :: 0 <= m < |before| ==> before[m] == events[m];
  }

  lemma StillFree(events: seq<Event>, j: int)
    requires events != [] && FreeFrom(events, j, |events| - 1)
    requires !events[|events| - 1].kind.Spawned? && !events[|events| - 1].kind.LockBusy?
    ensures FreeFrom(events, j, |events|)
  {
  }

  lemma ProbedInLonger(before: seq<Event>, events: seq<Event>)
    requires |events| == |before| + 1 && before <= events && ProbedFirst(before)
    requires events[|before|].kind.Spawned? ==> exists j :: FreeFrom(before, j, |before|)
    ensures ProbedFirst(events)
  {
    hide FreeFrom;
    forall i | 0 <= i < |events| && events[i].kind.Spawned? ensures exists j :: FreeFrom(events, j, i) {
      assert i < |before| ==> before[i] == events[i];
      var j :| FreeFrom(before, j, i);
      FreeInLonger(before, events, j, i);
    }
  }

  lemma {:induction false} GuardedMeansProbed(events: seq<Event>)
    ensures Sum(events).guarded ==> ProbedFirst(events)
    ensures Sum(events).clear ==> exists j :: FreeFrom(events, j, |events|)
  {
    if events != [] {
      var last := |events| - 1;
      var before := events[..last];
      GuardedMeansProbed(before);
      ClearStep(Sum(before), events[last].kind);
      if Sum(events).clear {
        if events[last].kind == LockFree {
          assert FreeFrom(events, last, |events|);
        } else {
          hide FreeFrom, Step;
          var j :| FreeFrom(before, j, last);
          FreeInLonger(before, events, j, last);
          StillFree(events, j);
        }
      }
      if Sum(events).guarded {
        hide FreeFrom, Step, ProbedFirst;
        ProbedInLonger(before, events);
      }
    }
  }

  /** A signal, whether or not it reached anyone. */
  ghost predicate IsSignal(kind: Kind) {
    kind.TermSent? || kind.KillSent? || kind.Missed? || kind.Refused?
  }

  /** A kill, whether or not it reached anyone. */
  ghost predicate IsKill(kind: Kind) {
    kind.KillSent? || ((kind.Missed? || kind.Refused?) && kind.request == Kill)
  }

  lemma {:induction false} CountsAreExact(events: seq<Event>)
    ensures Sum(events).signals == 0 ==> forall i :: 0 <= i < |events| ==> !IsSignal(events[i].kind)
    ensures Sum(events).healthy == 0 ==> forall i :: 0 <= i < |events| ==> !events[i].kind.HealthSeen?
    ensures Sum(events).polls == 0 ==> forall i :: 0 <= i < |events| ==> !events[i].kind.SawAlive?
  {
    if events != [] {
      hide Step, IsSignal;
      var last := |events| - 1;
      CountsAreExact(events[..last]);
      CountsStep(Sum(events[..last]), events[last].kind);
      assert forall i :: 0 <= i < last ==> events[..last][i] == events[i];
    }
  }

  lemma CountsStep(t: Tally, kind: Kind)
    ensures Step(t, kind).signals == t.signals + if IsSignal(kind) then 1 else 0
    ensures Step(t, kind).healthy == t.healthy + if kind.HealthSeen? then 1 else 0
    ensures Step(t, kind).polls == t.polls + if kind.SawAlive? then 1 else 0
  {
  }

  lemma Shrinks(s: set<nat>, c: nat)
    ensures |s - {c}| <= |s|
  {
    if c in s {
      assert s == (s - {c}) + {c};
    } else {
      assert s - {c} == s;
    }
  }

  /** What is reported as ended has ended. */
  ghost predicate Truthful(kind: Kind, alive: seq<bool>) {
    kind.SawExit? || kind.KillSent? || kind.Missed? ==> kind.child < |alive| && !alive[kind.child]
  }

  ghost predicate AllTruthful(events: seq<Event>, alive: seq<bool>) {
    forall i {:trigger Truthful(events[i].kind, alive)} :: 0 <= i < |events| ==> Truthful(events[i].kind, alive)
  }

  lemma StillTruthful(events: seq<Event>, alive0: seq<bool>, alive: seq<bool>)
    requires AllTruthful(events, alive0) && Grown(alive0, alive)
    ensures AllTruthful(events, alive)
  {
    forall i | 0 <= i < |events| ensures Truthful(events[i].kind, alive) {
      assert Truthful(events[i].kind, alive0);
    }
  }

  /** A process that runs and is held open stays so, whatever is noted truthfully. */
  lemma StillOpen(t: Tally, kind: Kind, alive: seq<bool>, born: nat)
    requires Truthful(kind, alive) && forall c :: born <= c < |alive| && alive[c] ==> c in t.open
    ensures forall c :: born <= c < |alive| && alive[c] ==> c in Step(t, kind).open
  {
  }

  /** Processes are only added, and none comes back to life. */
  ghost predicate Grown(alive0: seq<bool>, alive: seq<bool>) {
    |alive0| <= |alive| && forall c :: 0 <= c < |alive0| && alive[c] ==> alive0[c]
  }

  class World {
    var now: real
    var alive: seq<bool>      // by launch order: a process is named by its index
    var disk: Disk            // the health path
    const said: nat -> string // what each process has written when it is over
    ghost var trace: seq<Event>
    ghost var mark: nat       // where in the trace the current run began
    ghost var born: nat       // the first process the current run could launch
    ghost var tally: Tally    // of the current run

    /** The events of the current run. */
    ghost function Run(): seq<Event>
      requires mark <= |trace|
      reads this
    {
      trace[mark..]
    }

    /** The trace is truthful, the tally is up to date, and a process launched in the current run
        that is really running is one the tally holds open. */
    ghost predicate Valid()
      reads this
    {
      && AllTruthful(trace, alive)
      && mark <= |trace| && born <= |alive|
      && (forall events {:trigger Tallied(events)} :: events == Run() ==> tally == Tallied(events))
      && (forall c :: born <= c < |alive| && alive[c] ==> c in tally.open)
      && (disk.health.Some? ==> disk.health.value.id < disk.files)
    }

    /** Nothing was done or seen in between. */
    twostate predicate Quiet()
      reads this
    {
      trace == old(trace) && mark == old(mark) && born == old(born) && tally == old(tally)
    }

    /** Exactly one thing was done or seen, just now. */
    twostate predicate Did(kind: Kind)
      reads this
    {
      DidAt(kind, now)
    }

    /** Exactly one thing was done or seen, and that at `at`. */
    twostate predicate DidAt(kind: Kind, at: real)
      reads this
    {
      && trace == old(trace) + [Event(at, kind)]
      && mark == old(mark) && born == old(born) && tally == Step(old(tally), kind)
    }

    /** The trace only grew, within one run. */
    twostate predicate SameRun()
      reads this
    {
      old(trace) <= trace && mark == old(mark) && born == old(born)
    }

    /** What may have happened by itself: time passed, running processes exited, the health path
        changed. */
    twostate predicate Drifted()
      reads this
    {
      && old(now) <= now && Later(old(disk), disk)
      && |alive| == |old(alive)|
      && (forall c :: 0 <= c < |alive| && alive[c] ==> old(alive)[c])
    }

    /** Time passes; any running processes exit; something may appear at the health path or go. */
    method Drift()
      requires Valid()
      modifies this
      ensures Valid() && Drifted() && Quiet()
    {
      var passed: real := *;
      if passed > 0.0 {
        now := now + passed;
      }
      var appears, goes: bool := *, *;
      if appears {
        var regular: bool := *;
        disk := Disk(disk.files + 1, Some(HealthFile(disk.files, regular)), disk.changes + 1);
      } else if goes {
        disk := disk.(health := None, changes := disk.changes + 1);
      }
      var exits: set<nat> := *;
      var before := alive;
      alive := seq(|before|, c requires 0 <= c < |before| => before[c] && c !in exits);
      StillTruthful(trace, before, alive);
    }

    ghost method Note(kind: Kind)
      requires Valid() && Truthful(kind, alive)
      modifies this`trace, this`tally
      ensures Valid() && Did(kind)
    {
      hide Sum, Step, Truthful;
      assert tally == Tallied(Run());
      SumAppend(Run(), Event(now, kind));
      assert (trace + [Event(now, kind)])[mark..] == Run() + [Event(now, kind)];
      StillOpen(tally, kind, alive, born);
      trace := trace + [Event(now, kind)];
      tally := Step(tally, kind);
    }

    /** A new run begins here. */
    ghost method Begin()
      requires Valid()
      modifies this`mark, this`born, this`tally
      ensures Valid() && mark == |trace| && born == |alive| && tally == NOTHING
    {
      mark, born := |trace|, |alive|;
      tally := NOTHING;
    }

    /** `time.monotonic()`. */
    method Clock() returns (t: real)
      requires Valid()
      modifies this
      ensures Valid() && Drifted() && Quiet() && t == now
    {
      Drift();
      t := now;
    }

    /** `time.sleep(d)`: at least `d` passes. */
    method Sleep(d: real)
      requires Valid() && d >= 0.0
      modifies this
      ensures Valid() && Drifted() && now >= old(now) + d && DidAt(Slept(d), old(now))
    {
      Note(Slept(d));
      now := now + d;
      Drift();
    }

    method LockHeldElsewhere() returns (busy: bool)
      requires Valid()
      modifies this
      ensures Valid() && Drifted()
      ensures Did(if busy then LockBusy else LockFree)
    {
      Drift();
      busy := *;
      if busy {
        Note(LockBusy);
      } else {
        Note(LockFree);
      }
    }

    /** `subprocess.Popen`: a new process, or None when it raises. */
    method Spawn() returns (child: Option<nat>)
      requires Valid()
      modifies this
      ensures Valid() && old(now) <= now && Later(old(disk), disk)
      ensures child.None? ==> Drifted() && Did(SpawnFailed)
      ensures child.Some? ==>
                && child.value == |old(alive)| && |alive| == |old(alive)| + 1
                && (forall c :: 0 <= c < |old(alive)| && alive[c] ==> old(alive)[c])
                && Did(Spawned(child.value))
    {
      Drift();
      child := None;
      var ok: bool := *;
      if ok {
        child := Some(|alive|);
        Note(Spawned(child.value));
        StillTruthful(trace, alive, alive + [true]);
        alive := alive + [true];
      } else {
        Note(SpawnFailed);
      }
    }

    /** `process.poll() is not None`. */
    method Exited(c: nat) returns (exited: bool)
      requires Valid() && c < |alive|
      modifies this
      ensures Valid() && Drifted() && exited == !alive[c]
      ensures Did(if exited then SawExit(c) else SawAlive(c))
    {
      Drift();
      exited := !alive[c];
      if exited {
        Note(SawExit(c));
      } else {
        Note(SawAlive(c));
      }
    }

    /** The output of an exited child; None when waiting for it times out. */
    method Communicate(c: nat) returns (output: Option<string>)
      requires Valid() && c < |alive| && !alive[c]
      modifies this
      ensures Valid() && Drifted() && (output.Some? ==> output.value == said(c))
      ensures Did(Printed(c, ReasonIn(output)))
    {
      hide ReasonIn;
      Drift();
      var ended: bool := *;
      output := if ended then Some(said(c)) else None;
      Note(Printed(c, ReasonIn(output)));
    }

    /** Remove a regular file from the health path; false when that raises. */
    method RemoveHealthFile() returns (ok: bool)
      requires Valid()
      modifies this
      ensures Valid() && old(now) <= now && Grown(old(alive), alive) && |alive| == |old(alive)|
      ensures if ok then Quiet() else Did(RemoveFailed)
      ensures old(disk).files <= disk.files && old(disk).changes <= disk.changes
      ensures ok && disk.changes == old(disk).changes ==>
                disk.health == if old(disk).health.Some? && !old(disk).health.value.regular then old(disk).health else None
      ensures ok && disk.health.Some? ==>
                disk.health.value.id >= old(disk).files || (disk.health == old(disk).health && !disk.health.value.regular)
    {
      Drift();
      ok := true;
      if disk.health.Some? && disk.health.value.regular {
        Drift();
        ok := *;
        if ok {
          disk := disk.(health := None);
        } else {
          Note(RemoveFailed);
        }
      }
    }

    method HealthFileExists() returns (there: bool)
      requires Valid()
      modifies this
      ensures Valid() && Drifted() && there == disk.health.Some?
      ensures Did(if there then HealthSeen(disk.health.value) else HealthMissing)
    {
      Drift();
      there := disk.health.Some?;
      if there {
        Note(HealthSeen(disk.health.value));
      } else {
        Note(HealthMissing);
      }
    }

    /** Whether a launched service answers on its port. */
    method PortAnswers(c: nat) returns (answers: bool)
      requires Valid()
      modifies this
      ensures Valid() && Drifted()
      ensures Did(if answers then PortSeen(c) else PortSilent(c))
    {
      Drift();
      answers := *;
      if answers {
        Note(PortSeen(c));
      } else {
        Note(PortSilent(c));
      }
    }

    /** Whether an address accepts a connection, without saying for which process. */
    method AddressAnswers() returns (answers: bool)
      requires Valid()
      modifies this
      ensures Valid() && Drifted()
      ensures Did(if answers then AddressBusy else AddressFree)
    {
      Drift();
      answers := *;
      if answers {
        Note(AddressBusy);
      } else {
        Note(AddressFree);
      }
    }

    /** `os.kill(pid, SIGKILL)`: what it reaches is as good as dead. */
    method Kill(c: nat) returns (signal: Signal)
      requires Valid() && c < |alive|
      modifies this
      ensures Valid() && Drifted() && (!signal.NotPermitted? ==> !alive[c])
      ensures Did(match signal
                  case Delivered => KillSent(c)
                  case NoSuchProcess => Missed(c, Request.Kill)
                  case NotPermitted => Refused(c, Request.Kill))
    {
      Drift();
      signal := *;
      if signal.NoSuchProcess? && alive[c] {
        signal := Delivered;
      }
      match signal {
        case Delivered =>
          StillTruthful(trace, alive, alive[c := false]);
          alive := alive[c := false];
          Note(KillSent(c));
        case NoSuchProcess =>
          Note(Missed(c, Request.Kill));
        case NotPermitted =>
          Note(Refused(c, Request.Kill));
      }
    }

    /** `os.kill(pid, SIGTERM)`. */
    method Terminate(c: nat) returns (signal: Signal)
      requires Valid() && c < |alive|
      modifies this
      ensures Valid() && Drifted() && (signal.NoSuchProcess? ==> !alive[c])
      ensures Did(match signal
                  case Delivered => TermSent(c)
                  case NoSuchProcess => Missed(c, Term)
                  case NotPermitted => Refused(c, Term))
    {
      Drift();
      signal := *;
      if signal.NoSuchProcess? && alive[c] {
        signal := Delivered;
      }
      match signal {
        case Delivered =>
          Note(TermSent(c));
        case NoSuchProcess =>
          Note(Missed(c, Term));
        case NotPermitted =>
          Note(Refused(c, Term));
      }
    }

    /** `os.kill(pid, 0)`. */
    method Look(c: nat) returns (probe: Probe)
      requires Valid() && c < |alive|
      modifies this
      ensures Valid() && Drifted() && (probe.Gone? ==> !alive[c])
      ensures Did(match probe
                  case StillThere => Present(c)
                  case Gone => SawExit(c)
                  case ProbeError => LookFailed(c))
    {
      Drift();
      probe := *;
      if probe.Gone? && alive[c] {
        probe := StillThere;
      }
      match probe {
        case StillThere =>
          Note(Present(c));
        case Gone =>
          Note(SawExit(c));
        case ProbeError =>
          Note(LookFailed(c));
      }
    }

    /** Reading `/proc/<pid>/stat`, which begins a round of waiting. */
    method ReadStatus(c: nat) returns (probe: Probe)
      requires Valid() && c < |alive|
      modifies this
      ensures Valid() && Drifted() && (probe.Gone? ==> !alive[c])
      ensures var checked := old(trace) + [Event(old(now), Checked(c))];
              match probe
              case StillThere => trace == checked
              case Gone => trace == checked + [Event(now, SawExit(c))]
              case ProbeError => trace == checked + [Event(now, LookFailed(c))]
    {
      Note(Checked(c));
      Drift();
      probe := *;
      if probe.Gone? && alive[c] {
        probe := StillThere;
      }
      match probe {
        case StillThere =>
        case Gone =>
          Note(SawExit(c));
        case ProbeError =>
          Note(LookFailed(c));
      }
    }
  }
}
