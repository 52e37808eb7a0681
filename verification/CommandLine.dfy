/** The command line `dscli start` builds for a service, and what `dscli stop` reads back from
    `/proc/<pid>/cmdline` to recognise that service. */
module CommandLine {
  import opened Text

  datatype Param = Param(key: string, value: string)

  /** The numactl options given, by name. */
  datatype Numactl = Numactl(given: map<string, string>, localalloc: bool) {
    /** Those that are passed on, in the order in which they are. */
    function Options(): seq<Param> {
      Chosen(given, NUMACTL_KEYS)
    }
  }

  datatype BuildError = Injection | BadKvEventsConfig | UmsRunMissing | NumactlMissing

  /** What the host offers: the package directory and the directory holding `ums_run`, if any. */
  datatype Host = Host(baseDir: string, umsDir: Option<string>, hasNumactl: bool)

  const NUL: char := '\0'
  const DSCLI_ONLY := {"service_type"}
  const COORDINATOR_FILTERED := {"service_type", "worker_address"}
  const NUMACTL_KEYS := ["cpunodebind", "physcpubind", "interleave", "preferred", "membind"]
  const UMS_RUN := "ums_run"
  const WORKER_BIN := "datasystem_worker"
  const COORDINATOR_BIN := "datasystem_coordinator"
  const KV_EVENTS := "kv_events_config"

  predicate Dangerous(c: char) {
    || c == ';' || c == '&' || c == '|' || c == '`' || c == '$' || c == '(' || c == ')' || c == '<' || c == '>'
    || c == '{' || c == '}' || c == '!' || c == '*' || c == '?' || '\t' <= c <= '\r' || c == '\'' || c == '"'
    || c == '\\'
  }

  predicate NoInjection(s: string) {
    forall c :: c in s ==> !Dangerous(c)
  }

  // ----- building -----

  function Flag(p: Param): string {
    "--" + p.key + "=" + p.value
  }

  /** A parameter reaches the process when it is not reserved and its value is not blank. */
  predicate Kept(p: Param, excluded: set<string>) {
    p.key !in excluded && Strip(p.value) != ""
  }

  /** `jsonOk` is the JSON check made on `kv_events_config` alone. */
  function Validate(p: Param, jsonOk: string -> bool): Option<BuildError> {
    if p.key == KV_EVENTS && !jsonOk(p.value) then Some(BadKvEventsConfig)
    else if p.key != KV_EVENTS && !NoInjection(p.value) then Some(Injection)
    else if !NoInjection(p.key) then Some(Injection)
    else None
  }

  /** The kept parameters in order, as flags. */
  function Flags(params: seq<Param>, excluded: set<string>): seq<string> {
    if params == [] then []
    else (if Kept(params[0], excluded) then [Flag(params[0])] else []) + Flags(params[1..], excluded)
  }

  /** The first validation failure among the kept parameters. */
  function FirstFailure(params: seq<Param>, excluded: set<string>, jsonOk: string -> bool): Option<BuildError> {
    if params == [] then None
    else if Kept(params[0], excluded) && Validate(params[0], jsonOk).Some? then Validate(params[0], jsonOk)
    else FirstFailure(params[1..], excluded, jsonOk)
  }

  method ProcessParams(params: seq<Param>, excluded: set<string>, jsonOk: string -> bool)
    returns (r: Result<seq<string>, BuildError>)
    ensures match FirstFailure(params, excluded, jsonOk)
            case Some(e) => r == Err(e)
            case None => r == Ok(Flags(params, excluded))
  {
    var flags: seq<string> := [];
    for i := 0 to |params|
      invariant FirstFailure(params, excluded, jsonOk) == FirstFailure(params[i..], excluded, jsonOk)
      invariant Flags(params, excluded) == flags + Flags(params[i..], excluded)
    {
      assert params[i..][1..] == params[i + 1..];
      if Kept(params[i], excluded) {
        var failure := Validate(params[i], jsonOk);
        if failure.Some? {
          return Err(failure.value);
        }
        flags := flags + [Flag(params[i])];
      }
    }
    assert params[|params|..] == [] && flags + [] == flags;
    return Ok(flags);
  }

  function Chosen(given: map<string, string>, keys: seq<string>): seq<Param> {
    if keys == [] then []
    else (if keys[0] in given then [Param(keys[0], given[keys[0]])] else []) + Chosen(given, keys[1..])
  }

  function NumactlArgs(opts: Numactl): seq<string> {
    ["numactl"] + AsFlags(opts.Options())
    + (if opts.localalloc then ["--localalloc"] else [])
  }

  /** What precedes the parameters on a worker's command line. */
  function WorkerHead(host: Host, useUms: bool, useNumactl: bool, opts: Numactl): seq<string>
    requires useUms ==> host.umsDir.Some?
  {
    (if useUms then [host.umsDir.value + "/" + UMS_RUN] else [])
    + (if useNumactl then NumactlArgs(opts) else [])
    + [host.baseDir + "/" + WORKER_BIN]
  }

  method NumactlCommand(opts: Numactl) returns (r: Result<seq<string>, BuildError>)
    ensures r.Ok? <==> forall p :: p in opts.Options() ==> NoInjection(p.value)
    ensures r.Ok? ==> r.value == NumactlArgs(opts)
  {
    hide NoInjection, Chosen;
    var flags := OptionFlags(opts.given, NUMACTL_KEYS);
    if flags.Err? {
      return Err(Injection);
    }
    return Ok(["numactl"] + flags.value + if opts.localalloc then ["--localalloc"] else []);
  }

  /** The loop over the known options. */
  method OptionFlags(given: map<string, string>, keys: seq<string>) returns (r: Result<seq<string>, ()>)
    ensures r.Ok? <==> forall p :: p in Chosen(given, keys) ==> NoInjection(p.value)
    ensures r.Ok? ==> r.value == AsFlags(Chosen(given, keys))
  {
    hide NoInjection, Chosen, AsFlags;
    var cmd: seq<string> := [];
    ghost var passed: seq<Param> := [];
    NoFlags();
    for i := 0 to |keys|
      invariant Chosen(given, keys) == passed + Chosen(given, keys[i..]) && cmd == AsFlags(passed)
      invariant forall p :: p in passed ==> NoInjection(p.value)
    {
      ghost var later := Chosen(given, keys[i + 1..]);
      ChosenOne(given, keys[i], keys[i + 1..]);
      assert [keys[i]] + keys[i + 1..] == keys[i..];
      if keys[i] in given {
        var value := given[keys[i]];
        assert Chosen(given, keys) == passed + ([Param(keys[i], value)] + later);
        if !NoInjection(value) {
          return Err(());
        }
        cmd := cmd + ["--" + keys[i] + "=" + value];
        OneMoreFlag(passed, Param(keys[i], value));
        passed := passed + [Param(keys[i], value)];
        assert Chosen(given, keys) == passed + later;
      } else {
        assert [] + later == later;
      }
    }
    ChosenNone(given);
    assert keys[|keys|..] == [] && passed + [] == passed;
    return Ok(cmd);
  }

  lemma NoFlags()
    ensures AsFlags([]) == []
  {
  }

  lemma OneMoreFlag(params: seq<Param>, p: Param)
    ensures AsFlags(params + [p]) == AsFlags(params) + ["--" + p.key + "=" + p.value]
  {
  }

  function AsFlags(params: seq<Param>): seq<string> {
    seq(|params|, i requires 0 <= i < |params| => Flag(params[i]))
  }

  function Given(given: map<string, string>, key: string): seq<Param> {
    if key in given then [Param(key, given[key])] else []
  }

  /** The five options that are passed on, in this order, and no other. */
  lemma OptionsInOrder(opts: Numactl)
    ensures var g := opts.given;
            opts.Options() == Given(g, "cpunodebind") + Given(g, "physcpubind") + Given(g, "interleave") + Given(g, "preferred")
                              + Given(g, "membind")
  {
    ChosenFive(opts.given, "cpunodebind", "physcpubind", "interleave", "preferred", "membind");
  }

  lemma ChosenFive(g: map<string, string>, a: string, b: string, c: string, d: string, e: string)
    ensures Chosen(g, [a, b, c, d, e]) == Given(g, a) + Given(g, b) + Given(g, c) + Given(g, d) + Given(g, e)
  {
    hide Given, Chosen;
    ChosenOne(g, a, [b, c, d, e]);
    ChosenOne(g, b, [c, d, e]);
    ChosenOne(g, c, [d, e]);
    ChosenOne(g, d, [e]);
    ChosenOne(g, e, []);
    ChosenNone(g);
    assert [a] + [b, c, d, e] == [a, b, c, d, e] && [b] + [c, d, e] == [b, c, d, e] && [c] + [d, e] == [c, d, e];
    assert [d] + [e] == [d, e] && [e] + [] == [e];
  }

  lemma ChosenOne(given: map<string, string>, key: string, keys: seq<string>)
    ensures Chosen(given, [key] + keys) == Given(given, key) + Chosen(given, keys)
  {
    assert ([key] + keys)[1..] == keys;
  }

  lemma ChosenNone(given: map<string, string>)
    ensures Chosen(given, []) == []
  {
  }

  lemma {:induction false} OptionKeys(given: map<string, string>, keys: seq<string>)
    ensures forall p :: p in Chosen(given, keys) ==> p.key in keys
  {
    if keys != [] {
      OptionKeys(given, keys[1..]);
    }
  }

  /** Fails exactly when a tool is missing or a text is rejected; otherwise head plus flags. */
  method BuildCommand(host: Host, params: seq<Param>, useUms: bool, useNumactl: bool, opts: Numactl,
                      jsonOk: string -> bool)
    returns (r: Result<seq<string>, BuildError>)
    ensures r.Ok? <==>
            && (useUms ==> host.umsDir.Some?)
            && (useNumactl ==> host.hasNumactl && forall p :: p in opts.Options() ==> NoInjection(p.value))
            && NoInjection(host.baseDir + "/" + "datasystem_worker")
            && FirstFailure(params, {"service_type"}, jsonOk).None?
    ensures r.Ok? ==> r.value == WorkerHead(host, useUms, useNumactl, opts) + Flags(params, {"service_type"})
    ensures r.Ok? ==>
              WorkerHead(host, useUms, useNumactl, opts) ==
              (if useUms then [host.umsDir.value + "/" + "ums_run"] else [])
              + (if useNumactl then
                   ["numactl"] + AsFlags(opts.Options()) + (if opts.localalloc then ["--localalloc"] else [])
                 else [])
              + [host.baseDir + "/" + "datasystem_worker"]
  {
    var cmd: seq<string> := [];
    if useUms {
      if host.umsDir.None? {
        return Err(UmsRunMissing);
      }
      cmd := [host.umsDir.value + "/" + UMS_RUN];
    }
    if useNumactl {
      if !host.hasNumactl {
        return Err(NumactlMissing);
      }
      var numactl := NumactlCommand(opts);
      if numactl.Err? {
        return numactl;
      }
      cmd := cmd + numactl.value;
    }
    var worker := host.baseDir + "/" + WORKER_BIN;
    if !NoInjection(worker) {
      return Err(Injection);
    }
    cmd := cmd + [worker];
    var flags := ProcessParams(params, DSCLI_ONLY, jsonOk);
    if flags.Err? {
      return flags;
    }
    return Ok(cmd + flags.value);
  }

  method BuildCoordinatorCommand(host: Host, params: seq<Param>, jsonOk: string -> bool)
    returns (r: Result<seq<string>, BuildError>)
    ensures r.Ok? <==> NoInjection(host.baseDir + "/" + "datasystem_coordinator")
                       && FirstFailure(params, {"service_type", "worker_address"}, jsonOk).None?
    ensures r.Ok? ==>
              r.value == [host.baseDir + "/" + "datasystem_coordinator"] + Flags(params, {"service_type", "worker_address"})
  {
    var coordinator := host.baseDir + "/" + COORDINATOR_BIN;
    if !NoInjection(coordinator) {
      return Err(Injection);
    }
    var flags := ProcessParams(params, COORDINATOR_FILTERED, jsonOk);
    if flags.Err? {
      return flags;
    }
    return Ok([coordinator] + flags.value);
  }

  // ----- what the flags say -----

  /** A parameter is written as a flag if and only if it is not reserved and its value holds more than
      blanks. */
  lemma FlagOf(p: Param, excluded: set<string>)
    ensures Flags([p], excluded) ==
            if p.key !in excluded && exists i :: 0 <= i < |p.value| && !IsSpace(p.value[i])
            then ["--" + p.key + "=" + p.value] else []
  {
    KeptIs(p, excluded);
    assert [p][1..] == [];
  }

  lemma KeptIs(p: Param, excluded: set<string>)
    ensures Kept(p, excluded) <==> p.key !in excluded && exists i :: 0 <= i < |p.value| && !IsSpace(p.value[i])
  {
    if i :| 0 <= i < |p.value| && !IsSpace(p.value[i]) {
      StripKeeps(p.value, i);
    } else {
      BlankStrips(p.value);
    }
  }

  /** Flags stand in the order of the parameters. */
  lemma {:induction false} FlagsConcat(a: seq<Param>, b: seq<Param>, excluded: set<string>)
    ensures Flags(a + b, excluded) == Flags(a, excluded) + Flags(b, excluded)
  {
    if a == [] {
      assert a + b == b;
    } else {
      assert (a + b)[1..] == a[1..] + b;
      FlagsConcat(a[1..], b, excluded);
    }
  }

  /** What is wrong with one parameter: a dangerous character in its key or value; but of the events
      configuration, which is JSON, only that it is no such thing. */
  lemma FailureOf(p: Param, excluded: set<string>, jsonOk: string -> bool)
    ensures FirstFailure([p], excluded, jsonOk) ==
            if !Kept(p, excluded) then None
            else if p.key == "kv_events_config" then if jsonOk(p.value) then None else Some(BadKvEventsConfig)
            else if exists c :: (c in p.key || c in p.value) && c in DANGEROUS then Some(Injection)
            else None
  {
    assert [p][1..] == [];
    if p.key == "kv_events_config" {
      KvKeyIsFine();
    }
    forall c: char ensures Dangerous(c) <==> c in DANGEROUS {
      DangerousIs(c);
    }
  }

  lemma KvKeyIsFine()
    ensures NoInjection("kv_events_config")
  {
  }

  /** The characters a shell would act on, quotes, the backslash and line ends. */
  const DANGEROUS: set<char> :=
    {';', '&', '|', '`', '$', '(', ')', '<', '>', '{', '}', '!', '*', '?', '"', '\'', '\\', '\t', '\n', '\U{0b}', '\U{0c}', '\r'}

  lemma DangerousIs(c: char)
    ensures Dangerous(c) <==> c in DANGEROUS
  {
    if '\t' <= c <= '\r' {
      assert c as int in {9, 10, 11, 12, 13};
    }
  }

  /** The first parameter with something wrong decides. */
  lemma {:induction false} FirstFailureConcat(a: seq<Param>, b: seq<Param>, excluded: set<string>, jsonOk: string -> bool)
    ensures var first := FirstFailure(a, excluded, jsonOk);
            FirstFailure(a + b, excluded, jsonOk) == if first.Some? then first else FirstFailure(b, excluded, jsonOk)
  {
    if a == [] {
      assert a + b == b;
    } else {
      assert (a + b)[1..] == a[1..] + b;
      FirstFailureConcat(a[1..], b, excluded, jsonOk);
    }
  }

  // ----- reading back -----

  /** The bytes of `/proc/<pid>/cmdline`: every argument ends with a NUL. */
  function Raw(args: seq<string>): string {
    Join(args + [""], NUL)
  }

  /** Argument by argument, each followed by a NUL. */
  lemma RawIs(arg: string, rest: seq<string>)
    ensures Raw([]) == "" && Raw([arg] + rest) == arg + ['\0'] + Raw(rest)
  {
    assert ([arg] + rest + [""])[1..] == rest + [""];
  }

  function NonEmpty(parts: seq<string>): seq<string> {
    if parts == [] then [] else (if parts[0] != "" then [parts[0]] else []) + NonEmpty(parts[1..])
  }

  function Args(raw: string): seq<string> {
    NonEmpty(Split(raw, NUL))
  }

  /** `--key=` or `-key=` at the head of `arg`: the text after it. */
  function Attached(arg: string, key: string): Option<string> {
    if "--" + key + "=" <= arg then Some(arg[|key| + 3..])
    else if "-" + key + "=" <= arg then Some(arg[|key| + 2..])
    else None
  }

  function FirstAttached(args: seq<string>, key: string): Option<string> {
    if args == [] then None
    else if Attached(args[0], key).Some? then Attached(args[0], key)
    else FirstAttached(args[1..], key)
  }

  predicate IsOption(arg: string, key: string) {
    arg == "--" + key || arg == "-" + key
  }

  function FirstDetached(args: seq<string>, key: string): Option<string> {
    if |args| < 2 then None
    else if IsOption(args[0], key) then Some(args[1])
    else FirstDetached(args[1..], key)
  }

  function Value(args: seq<string>, key: string): Option<string> {
    if FirstAttached(args, key).Some? then FirstAttached(args, key) else FirstDetached(args, key)
  }

  /** The two search loops of the source. */
  method GetValueFromProcessCmdline(raw: string, key: string) returns (r: Option<string>)
    ensures r == Value(Args(raw), key)
  {
    var args := Args(raw);
    for i := 0 to |args|
      invariant FirstAttached(args, key) == FirstAttached(args[i..], key)
    {
      assert args[i..][1..] == args[i + 1..];
      if "--" + key + "=" <= args[i] {
        return Some(args[i][|key| + 3..]);
      }
      if "-" + key + "=" <= args[i] {
        return Some(args[i][|key| + 2..]);
      }
    }
    var i := 0;
    while i < |args| - 1
      invariant 0 <= i <= |args|
      invariant FirstDetached(args, key) == FirstDetached(args[i..], key)
    {
      assert args[i..][1..] == args[i + 1..];
      if IsOption(args[i], key) {
        return Some(args[i + 1]);
      }
      i := i + 1;
    }
    return None;
  }

  /** How a key can be given: with an equals sign after two dashes or one, or as two arguments; what
      comes first counts, but anything with an equals sign before what comes without. */
  lemma ValueForms(key: string, v: string, before: seq<string>, after: seq<string>)
    requires forall arg :: arg in before ==> Ignores(arg, key)
    ensures Value(before + ["--" + key + "=" + v] + after, key) == Some(v)
    ensures !("-" <= key) ==> Value(before + ["-" + key + "=" + v] + after, key) == Some(v)
    ensures (forall arg :: arg in [v] + after ==> Attached(arg, key).None?) && '=' !in key ==>
              && Value(before + ["--" + key] + ([v] + after), key) == Some(v)
              && Value(before + ["-" + key] + ([v] + after), key) == Some(v)
  {
    hide Value;
    AttachedForm("--" + key + "=" + v, key, v, before, after);
    if !("-" <= key) {
      assert ("--" + key + "=")[1] == '-' && ("-" + key + "=" + v)[1] != '-';
      AttachedForm("-" + key + "=" + v, key, v, before, after);
    }
    if (forall arg :: arg in [v] + after ==> Attached(arg, key).None?) && '=' !in key {
      NothingAttached("--" + key, key);
      NothingAttached("-" + key, key);
      DetachedForm("--" + key, key, v, before, after);
      DetachedForm("-" + key, key, v, before, after);
    }
  }

  lemma AttachedForm(arg: string, key: string, v: string, before: seq<string>, after: seq<string>)
    requires Attached(arg, key) == Some(v) && forall other :: other in before ==> Ignores(other, key)
    ensures Value(before + [arg] + after, key) == Some(v)
  {
    hide Attached;
    assert before + [arg] + after == before + ([arg] + after);
    FirstAttachedSkips(before, [arg] + after, key);
  }

  lemma DetachedForm(arg: string, key: string, v: string, before: seq<string>, after: seq<string>)
    requires IsOption(arg, key) && forall other :: other in before ==> Ignores(other, key)
    requires forall other :: other in [arg] + ([v] + after) ==> Attached(other, key).None?
    ensures Value(before + [arg] + ([v] + after), key) == Some(v)
  {
    hide Attached, IsOption;
    var rest := [arg] + ([v] + after);
    assert before + [arg] + ([v] + after) == before + rest;
    FirstAttachedSkips(before, rest, key);
    NoneAttached(rest, key);
    FirstDetachedSkips(before, rest, key);
    assert rest[1] == v;
  }

  lemma {:induction false} NoneAttached(args: seq<string>, key: string)
    requires forall arg :: arg in args ==> Attached(arg, key).None?
    ensures FirstAttached(args, key).None?
  {
    if args != [] {
      NoneAttached(args[1..], key);
    }
  }

  lemma {:induction false} FirstDetachedSkips(head: seq<string>, rest: seq<string>, key: string)
    requires |rest| >= 2 && forall arg :: arg in head ==> Ignores(arg, key)
    ensures FirstDetached(head + rest, key) == FirstDetached(rest, key)
  {
    if head == [] {
      assert head + rest == rest;
    } else {
      assert (head + rest)[0] == head[0] && head[0] in head;
      assert (head + rest)[1..] == head[1..] + rest;
      FirstDetachedSkips(head[1..], rest, key);
    }
  }

  /** Neither a process without a command line nor `dscli` itself is ever taken for a service. */
  lemma NeverDscli(dir: string, rest: seq<string>, flagName: string, address: string, binary: string)
    requires NUL !in dir && forall arg :: arg in rest ==> Passable(arg)
    ensures !IsExpectedProcess("", flagName, address, binary)
    ensures !IsExpectedProcess(Raw(["dscli"] + rest), flagName, address, binary)
    ensures !IsExpectedProcess(Raw([dir + "/" + "dscli"] + rest), flagName, address, binary)
  {
    hide Raw, Value;
    assert Split("", NUL) == [""] && NonEmpty([""]) == NonEmpty([]) == [];
    assert Passable("dscli") && Passable(dir + "/" + "dscli");
    RawRoundTrip(["dscli"] + rest);
    RawRoundTrip([dir + "/" + "dscli"] + rest);
    BasenameOf(dir, "dscli");
    assert '/' !in "dscli";
  }

  function Basename(path: string): string {
    if '/' !in path then path
    else if path[0] == '/' && '/' !in path[1..] then path[1..]
    else Basename(path[1..])
  }

  /** Verify a candidate process against its command line. */
  predicate IsExpectedProcess(raw: string, flagName: string, address: string, binary: string) {
    var args := Args(raw);
    && args != []
    && Basename(args[0]) != "dscli"
    && (exists i :: 0 <= i < |args| && Basename(args[i]) == binary)
    && Value(args, flagName) == Some(address)
  }

  /** A process that matched the search, with its command line if that could be read. */
  datatype Candidate = Candidate(pid: nat, raw: Option<string>)

  datatype PidError = NoMatch | SeveralMatches

  predicate Accepted(c: Candidate, flagName: string, address: string, binary: string) {
    c.raw.Some? && IsExpectedProcess(c.raw.value, flagName, address, binary)
  }

  function Acceptor(flagName: string, address: string, binary: string): Candidate -> bool {
    c => Accepted(c, flagName, address, binary)
  }

  /** Candidate `i` is accepted and no other is. */
  ghost predicate OnlyOne(candidates: seq<Candidate>, i: int, accepts: Candidate -> bool) {
    && 0 <= i < |candidates|
    && forall j :: 0 <= j < |candidates| ==> (accepts(candidates[j]) <==> j == i)
  }

  lemma SameOne(candidates: seq<Candidate>, i: int, j: int, accepts: Candidate -> bool)
    requires OnlyOne(candidates, i, accepts) && OnlyOne(candidates, j, accepts)
    ensures i == j
  {
    assert accepts(candidates[i]);
  }

  /** The process to stop: there must be exactly one. */
  method GetUniquePid(candidates: seq<Candidate>, accepts: Candidate -> bool) returns (r: Result<Candidate, PidError>)
    ensures match r
            case Ok(c) => exists i :: OnlyOne(candidates, i, accepts) && candidates[i] == c
            case Err(_) => forall i :: !OnlyOne(candidates, i, accepts)
    ensures r == Err(NoMatch) <==> forall j :: 0 <= j < |candidates| ==> !accepts(candidates[j])
  {
    var found: seq<int> := [];
    for k := 0 to |candidates|
      invariant forall m :: 0 <= m < |found| ==> 0 <= found[m] < k && accepts(candidates[found[m]])
      invariant forall m, n :: 0 <= m < n < |found| ==> found[m] < found[n]
      invariant forall j :: 0 <= j < k && accepts(candidates[j]) ==> j in found
    {
      if accepts(candidates[k]) {
        found := found + [k];
      }
    }
    if found == [] {
      forall i ensures !OnlyOne(candidates, i, accepts) {
        assert 0 <= i < |candidates| ==> !accepts(candidates[i]);
      }
      return Err(NoMatch);
    }
    assert accepts(candidates[found[0]]);
    if |found| > 1 {
      assert accepts(candidates[found[1]]) && found[0] < found[1];
      return Err(SeveralMatches);
    }
    assert OnlyOne(candidates, found[0], accepts);
    return Ok(candidates[found[0]]);
  }

  // ----- what is written is what is read -----

  /** A key that can be asked for without meeting another option's text. */
  predicate PlainKey(key: string) {
    '=' !in key && !("-" <= key) && key !in NUMACTL_KEYS && key != "localalloc"
  }

  predicate Ignores(arg: string, key: string) {
    Attached(arg, key).None? && !IsOption(arg, key)
  }

  /** The value a parameter list gives to a key: that of its kept entry, if it has one. */
  function KeptValue(params: seq<Param>, excluded: set<string>, key: string): Option<string> {
    if params == [] then None
    else if Kept(params[0], excluded) && params[0].key == key then Some(params[0].value)
    else KeptValue(params[1..], excluded, key)
  }

  lemma FlagAnswers(p: Param, key: string)
    requires '=' !in p.key && '=' !in key && !("-" <= key)
    ensures Attached(Flag(p), key) == if p.key == key then Some(p.value) else None
    ensures !IsOption(Flag(p), key)
  {
    var arg := Flag(p);
    assert arg[2 + |p.key|] == '=';
    assert forall i :: 0 <= i < |p.key| ==> arg[2 + i] == p.key[i];
    var probe := "--" + key + "=";
    assert forall i :: 0 <= i < |key| ==> probe[2 + i] == key[i];
    assert probe[2 + |key|] == '=';
    if probe <= arg {
      assert |key| == |p.key|;
      assert p.key == key by {
        assert forall i :: 0 <= i < |key| ==> key[i] == probe[2 + i] == arg[2 + i] == p.key[i];
      }
      assert arg[|key| + 3..] == p.value;
    }
    if p.key == key {
      assert arg == probe + p.value;
    }
    var single := "-" + key + "=";
    assert single[1] != '-' && arg[1] == '-';
    assert ("--" + key)[1] == '-';
  }

  lemma {:induction false} FirstAttachedSkips(head: seq<string>, rest: seq<string>, key: string)
    requires forall arg :: arg in head ==> Ignores(arg, key)
    ensures FirstAttached(head + rest, key) == FirstAttached(rest, key)
  {
    if head == [] {
      assert head + rest == rest;
    } else {
      assert (head + rest)[0] == head[0] && head[0] in head;
      assert (head + rest)[1..] == head[1..] + rest;
      FirstAttachedSkips(head[1..], rest, key);
    }
  }

  lemma {:induction false} FirstAttachedInFlags(params: seq<Param>, excluded: set<string>, key: string)
    requires forall p :: p in params ==> '=' !in p.key
    requires '=' !in key && !("-" <= key)
    ensures FirstAttached(Flags(params, excluded), key) == KeptValue(params, excluded, key)
    ensures forall arg :: arg in Flags(params, excluded) ==> !IsOption(arg, key)
  {
    if params != [] {
      FirstAttachedInFlags(params[1..], excluded, key);
      FlagAnswers(params[0], key);
      var rest := Flags(params[1..], excluded);
      if Kept(params[0], excluded) {
        assert Flags(params, excluded)[1..] == rest;
      } else {
        assert Flags(params, excluded) == rest;
      }
    }
  }

  lemma {:induction false} NothingDetached(args: seq<string>, key: string)
    requires forall arg :: arg in args ==> !IsOption(arg, key)
    ensures FirstDetached(args, key).None?
  {
    if |args| >= 2 {
      NothingDetached(args[1..], key);
    }
  }

  /** Reading a key from head plus flags gives the kept value of that key, and nothing else. */
  lemma ReadBack(head: seq<string>, params: seq<Param>, excluded: set<string>, key: string)
    requires forall arg :: arg in head ==> Ignores(arg, key)
    requires forall p :: p in params ==> '=' !in p.key
    requires '=' !in key && !("-" <= key)
    ensures Value(head + Flags(params, excluded), key) == KeptValue(params, excluded, key)
  {
    FirstAttachedSkips(head, Flags(params, excluded), key);
    FirstAttachedInFlags(params, excluded, key);
    NothingDetached(head + Flags(params, excluded), key);
  }

  // ----- through the kernel's NUL-separated form -----

  predicate Passable(arg: string) {
    arg != "" && NUL !in arg
  }

  lemma {:induction false} NonEmptyKeeps(args: seq<string>)
    requires forall arg :: arg in args ==> arg != ""
    ensures NonEmpty(args + [""]) == args
  {
    var parts := args + [""];
    if args == [] {
      assert NonEmpty(parts) == NonEmpty(parts[1..]) == [];
    } else {
      assert parts[0] == args[0] && args[0] in args;
      assert parts[1..] == args[1..] + [""];
      assert forall arg :: arg in args[1..] ==> arg in args;
      NonEmptyKeeps(args[1..]);
    }
  }

  lemma RawRoundTrip(args: seq<string>)
    requires forall arg :: arg in args ==> Passable(arg)
    ensures Args(Raw(args)) == args
  {
    SplitJoin(args + [""], NUL);
    NonEmptyKeeps(args);
  }

  lemma {:induction false} FlagsPassable(params: seq<Param>, excluded: set<string>)
    requires forall p :: p in params ==> NUL !in p.key && NUL !in p.value
    ensures forall arg :: arg in Flags(params, excluded) ==> Passable(arg)
  {
    if params != [] {
      FlagsPassable(params[1..], excluded);
      assert params[0] in params;
    }
  }

  // ----- start and stop agree on what a process is -----

  predicate AbsoluteDir(dir: string) {
    "/" <= dir && NUL !in dir
  }

  predicate PlainHost(host: Host) {
    AbsoluteDir(host.baseDir) && (host.umsDir.Some? ==> AbsoluteDir(host.umsDir.value))
  }

  predicate PlainParams(params: seq<Param>) {
    forall p :: p in params ==> '=' !in p.key && NUL !in p.key && NUL !in p.value
  }

  predicate PlainNumactl(opts: Numactl) {
    forall p :: p in opts.Options() ==> NUL !in p.value
  }

  lemma {:induction false} BasenameOf(dir: string, name: string)
    requires '/' !in name
    ensures Basename(dir + "/" + name) == name
  {
    var path := dir + "/" + name;
    assert path[|dir|] == '/';
    if dir == "" {
      assert path[1..] == name;
    } else {
      assert path[1..] == dir[1..] + "/" + name;
      assert path[1..][|dir| - 1] == '/';
      BasenameOf(dir[1..], name);
    }
  }

  lemma NumactlIgnores(opts: Numactl, key: string)
    requires PlainNumactl(opts) && PlainKey(key)
    ensures forall arg :: arg in NumactlArgs(opts) ==> Ignores(arg, key) && Passable(arg)
  {
    hide Ignores, Passable, Flag, PlainKey;
    forall arg | arg in NumactlArgs(opts) ensures Ignores(arg, key) && Passable(arg) {
      if arg == "numactl" {
        WordIgnores(arg, key);
      } else if arg == "--localalloc" {
        LocalallocIgnores(key);
      } else {
        var i :| 0 <= i < |opts.Options()| && arg == Flag(opts.Options()[i]);
        assert opts.Options()[i] in opts.Options();
        OptionKeys(opts.given, NUMACTL_KEYS);
        NumactlKeysPlain(opts.Options()[i].key);
        NotANumactlKey(key, opts.Options()[i].key);
        PlainFlagIgnores(opts.Options()[i], key);
      }
    }
  }

  lemma WordIgnores(word: string, key: string)
    requires word == "numactl"
    ensures Ignores(word, key) && Passable(word)
  {
    assert word[0] == 'n';
  }

  lemma PlainFlagIgnores(p: Param, key: string)
    requires PlainKey(key) && p.key != key && '=' !in p.key && NUL !in p.key && NUL !in p.value
    ensures Ignores(Flag(p), key) && Passable(Flag(p))
  {
    FlagAnswers(p, key);
  }

  lemma NotANumactlKey(key: string, other: string)
    requires PlainKey(key) && other in NUMACTL_KEYS
    ensures other != key
  {
  }

  lemma NumactlKeysPlain(key: string)
    requires key in NUMACTL_KEYS
    ensures '=' !in key && NUL !in key
  {
  }

  lemma LocalallocIgnores(key: string)
    requires PlainKey(key)
    ensures Ignores("--localalloc", key) && Passable("--localalloc")
  {
    var arg := "--localalloc";
    assert forall c :: c in arg ==> c != '=' && c != NUL;
    NothingAttached(arg, key);
    assert arg[2..] == "localalloc" && arg[1] == '-';
    OptionIs(arg, key);
  }

  lemma NothingAttached(arg: string, key: string)
    requires '=' !in arg
    ensures Attached(arg, key).None?
  {
    assert ("--" + key + "=")[|key| + 2] == '=' && ("-" + key + "=")[|key| + 1] == '=';
  }

  /** What asking for `key` by a bare option would take. */
  lemma OptionIs(arg: string, key: string)
    requires |arg| > 2 && arg[1] == '-' && !("-" <= key)
    ensures IsOption(arg, key) ==> arg[2..] == key
  {
    assert ("--" + key)[2..] == key;
    assert ("-" + key)[1..] == key;
  }

  lemma PathIgnores(path: string, key: string)
    requires "/" <= path
    ensures Ignores(path, key)
  {
    assert ("--" + key + "=")[0] == '-' && ("-" + key + "=")[0] == '-';
    assert ("--" + key)[0] == '-' && ("-" + key)[0] == '-';
  }

  predicate IsName(s: string) {
    forall i :: 0 <= i < |s| ==> 'a' <= s[i] <= 'z' || s[i] == '_'
  }

  lemma NamesAreFine(s: string)
    requires IsName(s)
    ensures NoInjection(s) && '=' !in s && NUL !in s
  {
  }

  lemma BinaryNames()
    ensures IsName(WORKER_BIN) && IsName(UMS_RUN)
  {
  }

  lemma BinaryPathIgnores(dir: string, name: string, key: string)
    requires AbsoluteDir(dir) && IsName(name)
    ensures Ignores(dir + "/" + name, key) && Passable(dir + "/" + name)
  {
    hide Ignores;
    NamesAreFine(name);
    PathIgnores(dir + "/" + name, key);
  }

  lemma WorkerHeadIgnores(host: Host, useUms: bool, useNumactl: bool, opts: Numactl, key: string)
    requires PlainHost(host) && (useUms ==> host.umsDir.Some?) && PlainNumactl(opts) && PlainKey(key)
    ensures var head := WorkerHead(host, useUms, useNumactl, opts);
            head != [] && forall arg :: arg in head ==> Ignores(arg, key) && Passable(arg)
  {
    hide Ignores, Passable, NumactlArgs, IsName;
    NumactlIgnores(opts, key);
    BinaryNames();
    BinaryPathIgnores(host.baseDir, WORKER_BIN, key);
    if useUms {
      BinaryPathIgnores(host.umsDir.value, UMS_RUN, key);
    }
  }

  lemma WorkerHeadNames(host: Host, useUms: bool, useNumactl: bool, opts: Numactl)
    requires useUms ==> host.umsDir.Some?
    ensures var head := WorkerHead(host, useUms, useNumactl, opts);
            && head != [] && Basename(head[0]) != "dscli"
            && Basename(head[|head| - 1]) == WORKER_BIN
  {
    var head := WorkerHead(host, useUms, useNumactl, opts);
    BasenameOf(host.baseDir, WORKER_BIN);
    assert head[|head| - 1] == host.baseDir + "/" + WORKER_BIN;
    if useUms {
      BasenameOf(host.umsDir.value, UMS_RUN);
      assert head[0] == host.umsDir.value + "/" + UMS_RUN;
      assert |UMS_RUN| != |"dscli"|;
    } else if useNumactl {
      assert head[0] == "numactl";
      assert Basename("numactl") == "numactl";
    } else {
      assert head[0] == host.baseDir + "/" + WORKER_BIN;
    }
  }

  /** Every parameter that reached the worker is read back as it was given, every other key as
      absent. */
  lemma StopReadsWhatStartWrote(host: Host, params: seq<Param>, useUms: bool, useNumactl: bool, opts: Numactl,
                                key: string)
    requires PlainHost(host) && (useUms ==> host.umsDir.Some?) && PlainNumactl(opts) && PlainParams(params)
    requires PlainKey(key)
    ensures var cmd := WorkerHead(host, useUms, useNumactl, opts) + Flags(params, DSCLI_ONLY);
            Args(Raw(cmd)) == cmd && Value(Args(Raw(cmd)), key) == KeptValue(params, DSCLI_ONLY, key)
  {
    var head := WorkerHead(host, useUms, useNumactl, opts);
    WorkerHeadIgnores(host, useUms, useNumactl, opts, key);
    FlagsPassable(params, DSCLI_ONLY);
    RawRoundTrip(head + Flags(params, DSCLI_ONLY));
    ReadBack(head, params, DSCLI_ONLY, key);
  }

  /** `dscli stop` takes a started worker for the one at `address` exactly when that is the
      worker address it was started with. */
  lemma WorkerRecognised(host: Host, params: seq<Param>, useUms: bool, useNumactl: bool, opts: Numactl,
                         address: string)
    requires PlainHost(host) && (useUms ==> host.umsDir.Some?) && PlainNumactl(opts) && PlainParams(params)
    ensures var cmd := WorkerHead(host, useUms, useNumactl, opts) + Flags(params, DSCLI_ONLY);
            IsExpectedProcess(Raw(cmd), "worker_address", address, WORKER_BIN)
            <==> KeptValue(params, DSCLI_ONLY, "worker_address") == Some(address)
  {
    WorkerAddressIsPlain();
    StopReadsWhatStartWrote(host, params, useUms, useNumactl, opts, "worker_address");
    WorkerHeadNames(host, useUms, useNumactl, opts);
    var head := WorkerHead(host, useUms, useNumactl, opts);
    var cmd := head + Flags(params, DSCLI_ONLY);
    assert cmd[0] == head[0] && cmd[|head| - 1] == head[|head| - 1];
  }

  lemma WorkerAddressIsPlain()
    ensures PlainKey("worker_address")
  {
    assert "worker_address"[0] == 'w';
  }

  lemma CoordinatorAddressIsPlain()
    ensures PlainKey("coordinator_address")
  {
    var key := "coordinator_address";
    assert key[0] == 'c' && |key| == 19;
    assert forall i :: 0 <= i < |NUMACTL_KEYS| ==> |NUMACTL_KEYS[i]| < 19;
  }

  lemma CoordinatorReads(host: Host, params: seq<Param>, key: string)
    requires PlainHost(host) && PlainParams(params) && PlainKey(key)
    ensures var cmd := [host.baseDir + "/" + COORDINATOR_BIN] + Flags(params, COORDINATOR_FILTERED);
            && Args(Raw(cmd)) == cmd
            && Value(cmd, key) == KeptValue(params, COORDINATOR_FILTERED, key)
  {
    hide Raw, Args, Flags, KeptValue, Value;
    var head := [host.baseDir + "/" + COORDINATOR_BIN];
    PathIgnores(head[0], key);
    FlagsPassable(params, COORDINATOR_FILTERED);
    assert Passable(head[0]);
    RawRoundTrip(head + Flags(params, COORDINATOR_FILTERED));
    ReadBack(head, params, COORDINATOR_FILTERED, key);
  }

  /** The same for a coordinator started with `-c`, `-C` or `-a`. */
  lemma CoordinatorRecognised(host: Host, params: seq<Param>, address: string)
    requires PlainHost(host) && PlainParams(params)
    ensures var cmd := [host.baseDir + "/" + COORDINATOR_BIN] + Flags(params, COORDINATOR_FILTERED);
            IsExpectedProcess(Raw(cmd), "coordinator_address", address, COORDINATOR_BIN)
            <==> KeptValue(params, COORDINATOR_FILTERED, "coordinator_address") == Some(address)
  {
    hide Raw, Args, Flags, KeptValue, Value, Basename, PlainKey, PlainParams;
    CoordinatorAddressIsPlain();
    CoordinatorReads(host, params, "coordinator_address");
    BasenameOf(host.baseDir, COORDINATOR_BIN);
    var cmd := [host.baseDir + "/" + COORDINATOR_BIN] + Flags(params, COORDINATOR_FILTERED);
    assert Basename(cmd[0]) == COORDINATOR_BIN;
    assert |COORDINATOR_BIN| != |"dscli"|;
  }

  // The binary name is searched for in every argument, so a worker can pass for a coordinator.

  /** Some parameter text of the worker ends in a path component named like the coordinator. */
  ghost predicate CarriesCoordinatorName(params: seq<Param>, opts: seq<Param>) {
    || (exists p :: p in params && Kept(p, DSCLI_ONLY) && Basename(Flag(p)) == COORDINATOR_BIN)
    || (exists p :: p in opts && Basename(Flag(p)) == COORDINATOR_BIN)
  }

  lemma {:induction false} FlagsAre(params: seq<Param>, excluded: set<string>, arg: string)
    ensures arg in Flags(params, excluded) <==> exists p :: p in params && Kept(p, excluded) && Flag(p) == arg
  {
    if params != [] {
      FlagsAre(params[1..], excluded, arg);
      assert forall p :: p in params <==> p == params[0] || p in params[1..];
    }
  }

  lemma NumactlCoordinatorName(opts: Numactl, arg: string)
    requires arg in NumactlArgs(opts) && Basename(arg) == COORDINATOR_BIN
    ensures exists p :: p in opts.Options() && Flag(p) == arg
  {
    hide Basename, Flag;
    NotNamedSo("numactl");
    NotNamedSo("--localalloc");
    var i :| 0 <= i < |opts.Options()| && arg == Flag(opts.Options()[i]);
    assert opts.Options()[i] in opts.Options();
  }

  lemma NotNamedSo(word: string)
    requires word == "numactl" || word == "--localalloc"
    ensures Basename(word) != COORDINATOR_BIN
  {
    assert '/' !in word && |word| < 22 && |COORDINATOR_BIN| == 22;
  }

  lemma NumactlFlagInHead(host: Host, useUms: bool, opts: Numactl, p: Param)
    requires (useUms ==> host.umsDir.Some?) && p in opts.Options()
    ensures Flag(p) in WorkerHead(host, useUms, true, opts)
  {
    var i :| 0 <= i < |opts.Options()| && opts.Options()[i] == p;
    assert NumactlArgs(opts)[1 + i] == Flag(p);
    assert Flag(p) in NumactlArgs(opts);
  }

  lemma HeadCoordinatorName(host: Host, useUms: bool, useNumactl: bool, opts: Numactl)
    requires useUms ==> host.umsDir.Some?
    ensures (exists arg :: arg in WorkerHead(host, useUms, useNumactl, opts) && Basename(arg) == COORDINATOR_BIN)
            <==> useNumactl && exists p :: p in opts.Options() && Basename(Flag(p)) == COORDINATOR_BIN
  {
    var head := WorkerHead(host, useUms, useNumactl, opts);
    assert |COORDINATOR_BIN| == 22 && |WORKER_BIN| == 17 && |UMS_RUN| == 7;
    BasenameOf(host.baseDir, WORKER_BIN);
    if useUms {
      BasenameOf(host.umsDir.value, UMS_RUN);
    }
    forall p | useNumactl && p in opts.Options() ensures Flag(p) in head {
      NumactlFlagInHead(host, useUms, opts, p);
    }
    forall arg | arg in head && Basename(arg) == COORDINATOR_BIN
      ensures useNumactl && exists p :: p in opts.Options() && Flag(p) == arg
    {
      assert useNumactl && arg in NumactlArgs(opts);
      NumactlCoordinatorName(opts, arg);
    }
  }

  /** Exactly when `dscli stop -c` would take a worker for the coordinator at `address`. */
  lemma WorkerMistakenForCoordinator(host: Host, params: seq<Param>, useUms: bool, useNumactl: bool, opts: Numactl,
                                     address: string)
    requires PlainHost(host) && (useUms ==> host.umsDir.Some?) && PlainNumactl(opts) && PlainParams(params)
    ensures var cmd := WorkerHead(host, useUms, useNumactl, opts) + Flags(params, DSCLI_ONLY);
            IsExpectedProcess(Raw(cmd), "coordinator_address", address, COORDINATOR_BIN)
            <==> KeptValue(params, DSCLI_ONLY, "coordinator_address") == Some(address)
                 && CarriesCoordinatorName(params, if useNumactl then opts.Options() else [])
  {
    hide Raw, Args, Flags, KeptValue, Value, Basename, PlainKey, PlainParams, WorkerHead, Kept, Flag;
    CoordinatorAddressIsPlain();
    StopReadsWhatStartWrote(host, params, useUms, useNumactl, opts, "coordinator_address");
    WorkerHeadNames(host, useUms, useNumactl, opts);
    HeadCoordinatorName(host, useUms, useNumactl, opts);
    var head := WorkerHead(host, useUms, useNumactl, opts);
    var flags := Flags(params, DSCLI_ONLY);
    var cmd := head + flags;
    forall arg ensures arg in flags <==> exists p :: p in params && Kept(p, DSCLI_ONLY) && Flag(p) == arg {
      FlagsAre(params, DSCLI_ONLY, arg);
    }
    assert cmd[0] == head[0];
    assert (exists i :: 0 <= i < |cmd| && Basename(cmd[i]) == COORDINATOR_BIN)
      <==> exists arg :: arg in cmd && Basename(arg) == COORDINATOR_BIN by {
      if i :| 0 <= i < |cmd| && Basename(cmd[i]) == COORDINATOR_BIN {
        assert cmd[i] in cmd;
      }
    }
    assert forall arg :: arg in cmd <==> arg in head || arg in flags;
  }

  // One such worker: its log directory is named like the coordinator.

  /** A flag whose value ends in a path component named like the coordinator carries that name. */
  lemma NamedLikeCoordinator(key: string, dir: string)
    ensures Basename(Flag(Param(key, dir + "/" + COORDINATOR_BIN))) == COORDINATOR_BIN
  {
    BasenameOf("--" + key + "=" + dir, COORDINATOR_BIN);
    assert Flag(Param(key, dir + "/" + COORDINATOR_BIN)) == "--" + key + "=" + dir + "/" + COORDINATOR_BIN;
  }

  lemma PlainParamAccepted(p: Param, jsonOk: string -> bool)
    requires p.key != KV_EVENTS && NoInjection(p.key) && NoInjection(p.value)
    ensures Validate(p, jsonOk).None?
  {
  }

  lemma CoordinatorKeyIsFine()
    ensures IsName("coordinator_address") && "coordinator_address" != KV_EVENTS
  {
    assert |"coordinator_address"| == 19 && |KV_EVENTS| == 16;
  }

  lemma LogDirKeyIsFine()
    ensures IsName("log_dir") && "log_dir" != KV_EVENTS && "log_dir" !in DSCLI_ONLY
  {
    assert |KV_EVENTS| == 16 && |"log_dir"| == 7 && |"service_type"| == 12;
  }

  lemma CoordinatorBinIsFine()
    ensures IsName(COORDINATOR_BIN)
  {
  }

  lemma LogDirIsFine(dir: string)
    requires NoInjection(dir)
    ensures NoInjection(dir + "/" + COORDINATOR_BIN)
  {
    CoordinatorBinIsFine();
    NamesAreFine(COORDINATOR_BIN);
  }

  lemma {:induction false} AllAccepted(params: seq<Param>, jsonOk: string -> bool)
    requires forall p :: p in params ==> Validate(p, jsonOk).None?
    ensures FirstFailure(params, DSCLI_ONLY, jsonOk).None?
  {
    hide Validate, Kept;
    if params != [] {
      AllAccepted(params[1..], jsonOk);
    }
  }

  /** A worker started for the coordinator at `address` with a log directory named like the
      coordinator's binary is taken by `dscli stop -c` for that coordinator, whatever else it was
      started with. */
  lemma LogDirNamedLikeCoordinator(host: Host, params: seq<Param>, useUms: bool, useNumactl: bool, opts: Numactl,
                                   address: string, dir: string)
    requires PlainHost(host) && (useUms ==> host.umsDir.Some?) && PlainNumactl(opts) && PlainParams(params)
    requires KeptValue(params, DSCLI_ONLY, "coordinator_address") == Some(address)
    requires Param("log_dir", dir + "/" + COORDINATOR_BIN) in params
    ensures IsExpectedProcess(Raw(WorkerHead(host, useUms, useNumactl, opts) + Flags(params, DSCLI_ONLY)),
                              "coordinator_address", address, COORDINATOR_BIN)
  {
    hide Flags, IsExpectedProcess, KeptValue, Raw, WorkerHead, Strip, Kept, Basename, Flag;
    var p := Param("log_dir", dir + "/" + COORDINATOR_BIN);
    LogDirKept(dir);
    NamedLikeCoordinator("log_dir", dir);
    assert CarriesCoordinatorName(params, if useNumactl then opts.Options() else []);
    WorkerMistakenForCoordinator(host, params, useUms, useNumactl, opts, address);
  }

  lemma LogDirKept(dir: string)
    ensures Kept(Param("log_dir", dir + "/" + COORDINATOR_BIN), DSCLI_ONLY)
  {
    var value := dir + "/" + COORDINATOR_BIN;
    LogDirKeyIsFine();
    assert value[|dir|] == '/';
    StripKeeps(value, |dir|);
  }

  /** Such parameters pass every check of the command builder: a coordinator address, a worker
      address and that log directory, of harmless characters. */
  lemma LogDirIsAccepted(address: string, worker: string, dir: string, jsonOk: string -> bool)
    requires NoInjection(address) && NoInjection(worker) && NoInjection(dir)
    ensures FirstFailure([Param("coordinator_address", address), Param("worker_address", worker),
                          Param("log_dir", dir + "/" + COORDINATOR_BIN)], DSCLI_ONLY, jsonOk).None?
  {
    hide FirstFailure, NoInjection, Validate, IsName;
    var first, second, third :=
      Param("coordinator_address", address), Param("worker_address", worker), Param("log_dir", dir + "/" + COORDINATOR_BIN);
    CoordinatorKeyIsFine();
    WorkerKeyIsFine();
    LogDirKeyIsFine();
    NamesAreFine("coordinator_address");
    NamesAreFine("worker_address");
    NamesAreFine("log_dir");
    LogDirIsFine(dir);
    PlainParamAccepted(first, jsonOk);
    PlainParamAccepted(second, jsonOk);
    PlainParamAccepted(third, jsonOk);
    AllAccepted([first, second, third], jsonOk);
  }

  lemma WorkerKeyIsFine()
    ensures IsName("worker_address") && "worker_address" != KV_EVENTS
  {
    assert |"worker_address"| == 14 && |KV_EVENTS| == 16;
  }

  lemma KeyWithEquals(k: string, x: string, v: string)
    ensures var p := Param(k + "=" + x, v);
            Attached(Flag(p), k) == Some(x + "=" + v) && p.key != k
  {
    var p := Param(k + "=" + x, v);
    var probe := "--" + k + "=";
    assert Flag(p) == probe + (x + "=" + v);
    assert Flag(p)[|probe|..] == x + "=" + v;
    assert |p.key| > |k|;
  }

  lemma OneFlag(p: Param, k: string)
    requires Kept(p, DSCLI_ONLY) && p.key != k
    ensures KeptValue([p], DSCLI_ONLY, k) == None && Flags([p], DSCLI_ONLY) == [Flag(p)]
  {
    assert [p][1..] == [];
  }

  /** Why the keys must hold no `=`: a kept key `k=x` answers for the key `k`, which the
      parameters do not hold. */
  lemma EqualsInKey(host: Host, useUms: bool, useNumactl: bool, opts: Numactl, k: string, x: string, v: string)
    requires PlainHost(host) && (useUms ==> host.umsDir.Some?) && PlainNumactl(opts) && PlainKey(k)
    requires Strip(v) != "" && k + "=" + x !in DSCLI_ONLY && NUL !in k && NUL !in x && NUL !in v
    ensures var params := [Param(k + "=" + x, v)];
            var cmd := WorkerHead(host, useUms, useNumactl, opts) + Flags(params, DSCLI_ONLY);
            && KeptValue(params, DSCLI_ONLY, k) == None
            && Value(Args(Raw(cmd)), k) == Some(x + "=" + v)
  {
    hide WorkerHead, Raw, Args, Flags, KeptValue, Attached, Strip, PlainKey, Flag, FirstDetached;
    var p := Param(k + "=" + x, v);
    var head, flags := WorkerHead(host, useUms, useNumactl, opts), Flags([p], DSCLI_ONLY);
    KeyWithEquals(k, x, v);
    OneFlag(p, k);
    WorkerHeadIgnores(host, useUms, useNumactl, opts, k);
    FirstAttachedSkips(head, flags, k);
    FlagsPassable([p], DSCLI_ONLY);
    RawRoundTrip(head + flags);
  }

  // ----- among the processes that were started, stop finds the one it is asked for -----

  datatype Started =
    | StartedWorker(host: Host, params: seq<Param>, useUms: bool, useNumactl: bool, opts: Numactl)
    | StartedCoordinator(host: Host, params: seq<Param>)

  predicate PlainStart(s: Started) {
    && PlainHost(s.host) && PlainParams(s.params)
    && (s.StartedWorker? ==> (s.useUms ==> s.host.umsDir.Some?) && PlainNumactl(s.opts))
  }

  function CommandOf(s: Started): seq<string>
    requires PlainStart(s)
  {
    match s
    case StartedWorker(host, params, useUms, useNumactl, opts) =>
      WorkerHead(host, useUms, useNumactl, opts) + Flags(params, DSCLI_ONLY)
    case StartedCoordinator(host, params) =>
      [host.baseDir + "/" + COORDINATOR_BIN] + Flags(params, COORDINATOR_FILTERED)
  }

  /** What became of the started processes, as the search finds them. */
  ghost predicate Runs(candidates: seq<Candidate>, started: seq<Started>) {
    && |candidates| == |started|
    && forall i :: 0 <= i < |started| ==> PlainStart(started[i]) && candidates[i].raw == Some(Raw(CommandOf(started[i])))
  }

  predicate IsWorkerAt(s: Started, address: string) {
    s.StartedWorker? && KeptValue(s.params, DSCLI_ONLY, "worker_address") == Some(address)
  }

  lemma {:induction false} ExcludedIsAbsent(params: seq<Param>, excluded: set<string>, key: string)
    requires key in excluded
    ensures KeptValue(params, excluded, key) == None
  {
    if params != [] {
      ExcludedIsAbsent(params[1..], excluded, key);
    }
  }

  /** A coordinator is never taken for a worker: its command line holds no worker address. */
  lemma CoordinatorIsNoWorker(host: Host, params: seq<Param>, address: string)
    requires PlainHost(host) && PlainParams(params)
    ensures !IsExpectedProcess(Raw([host.baseDir + "/" + COORDINATOR_BIN] + Flags(params, COORDINATOR_FILTERED)),
                               "worker_address", address, WORKER_BIN)
  {
    hide Raw, Args, Flags, KeptValue, Value, Basename;
    WorkerAddressIsPlain();
    CoordinatorReads(host, params, "worker_address");
    ExcludedIsAbsent(params, COORDINATOR_FILTERED, "worker_address");
  }

  lemma AcceptedAsWorker(s: Started, c: Candidate, address: string)
    requires PlainStart(s) && c.raw == Some(Raw(CommandOf(s)))
    ensures Acceptor("worker_address", address, WORKER_BIN)(c) <==> IsWorkerAt(s, address)
  {
    hide Raw, Flags, KeptValue, IsExpectedProcess, WorkerHead;
    match s
    case StartedWorker(host, params, useUms, useNumactl, opts) =>
      WorkerRecognised(host, params, useUms, useNumactl, opts, address);
    case StartedCoordinator(host, params) =>
      CoordinatorIsNoWorker(host, params, address);
  }

  /** Of any workers and coordinators that were started, stop settles on process `i` if and only if
      that is a worker started with the address and no other is. */
  lemma OnlyItsWorker(candidates: seq<Candidate>, started: seq<Started>, address: string, i: int)
    requires Runs(candidates, started)
    ensures OnlyOne(candidates, i, Acceptor("worker_address", address, WORKER_BIN)) <==>
            0 <= i < |started| && forall j :: 0 <= j < |started| ==> (IsWorkerAt(started[j], address) <==> j == i)
  {
    hide Acceptor, IsWorkerAt, PlainStart, CommandOf, Raw;
    forall j | 0 <= j < |started|
      ensures Acceptor("worker_address", address, WORKER_BIN)(candidates[j]) <==> IsWorkerAt(started[j], address)
    {
      AcceptedAsWorker(started[j], candidates[j], address);
    }
  }

  /** What stop takes for the coordinator at an address: a coordinator started with it, or a worker
      started for it that carries the name of the coordinator's binary. */
  ghost predicate PassesForCoordinator(s: Started, address: string) {
    match s
    case StartedCoordinator(_, params) => KeptValue(params, COORDINATOR_FILTERED, "coordinator_address") == Some(address)
    case StartedWorker(_, params, _, useNumactl, opts) =>
      && KeptValue(params, DSCLI_ONLY, "coordinator_address") == Some(address)
      && CarriesCoordinatorName(params, if useNumactl then opts.Options() else [])
  }

  lemma AcceptedAsCoordinator(s: Started, c: Candidate, address: string)
    requires PlainStart(s) && c.raw == Some(Raw(CommandOf(s)))
    ensures Acceptor("coordinator_address", address, COORDINATOR_BIN)(c) <==> PassesForCoordinator(s, address)
  {
    hide Raw, Flags, KeptValue, IsExpectedProcess, WorkerHead, CarriesCoordinatorName;
    match s
    case StartedWorker(host, params, useUms, useNumactl, opts) =>
      WorkerMistakenForCoordinator(host, params, useUms, useNumactl, opts, address);
    case StartedCoordinator(host, params) =>
      CoordinatorRecognised(host, params, address);
  }

  /** Of any workers and coordinators that were started, stop settles on process `i` if and only if
      that alone passes for the coordinator at the address. */
  lemma OnlyItsCoordinator(candidates: seq<Candidate>, started: seq<Started>, address: string, i: int)
    requires Runs(candidates, started)
    ensures OnlyOne(candidates, i, Acceptor("coordinator_address", address, COORDINATOR_BIN)) <==>
            0 <= i < |started| && forall j :: 0 <= j < |started| ==> (PassesForCoordinator(started[j], address) <==> j == i)
  {
    hide Acceptor, PassesForCoordinator, PlainStart, CommandOf, Raw;
    forall j | 0 <= j < |started|
      ensures Acceptor("coordinator_address", address, COORDINATOR_BIN)(candidates[j]) <==> PassesForCoordinator(started[j], address)
    {
      AcceptedAsCoordinator(started[j], candidates[j], address);
    }
  }
}
