# Verified model of the openYuanrong datasystem control and analysis tools

This project models, in Dafny, the parts of the openYuanrong datasystem repository that decide
what happens to processes and what the numbers in its reports mean, and proves what those parts
promise.

* **Process supervision.** `dscli start` launches a worker under a deadline: probe the store lock,
  launch, poll, classify exits, retry. `dscli start -a` starts a coordinator and a worker, or
  neither. `dscli stop` asks, waits, kills, waits. They act on a `World` (`Processes.dfy`): a clock
  that only moves forward, processes that may exit at any moment, a lock probe, a health path, and
  signals that may be refused. The bodies of `World` choose freely, so each theorem covers every
  interleaving. The world keeps everything done or seen in a ghost trace, failed looks, unread
  output and processes that could not be launched included, and the main theorems are statements
  about all events of a run.
* **Parsers and printers.** The flag parser, the command line that start writes and stop reads
  back, and the jemalloc option normaliser.
* **Resource and access logs.** Decoding a record from its sub-field widths alone, two algorithms
  for counter deltas, time bins, and tables that must agree.
* **Latency accounting.** Clamped differences that must add up again.
* **Selection and reduction.** Two-stage top-K, a one-pass scan against separate scans, percentile
  thresholds, greedy line splitting, downsampling.

`Text.dfy`, `Numbers.dfy` and `Ranking.dfy` hold what several modules share: splitting and joining,
a little arithmetic, and the stable sort with its first-k laws. `WorkerOutput.dfy` says what the
output of an exited worker tells.

Check the project with `dafny verify dfyconfig.toml`.

## Where the code does not do what it is said to do

* The content of a grep line is described as extracted without losing colons. The split is greedy,
  so a content with a time of day loses its beginning (`GrepLines.TimestampLosesItsHour`), and any
  trace that stands only there; `GrepLines.ContentOfGrepLine` and `GrepLines.TraceLost` say exactly
  when.
* A worker that reports OBS without ETCD is decoded as one that reports ETCD
  (`ResourceLayout.DecodesRight`).
* A comma in the log directory breaks the jemalloc option text that is printed
  (`JemallocConf.CommaInLogDir`).
* A worker can pass for a coordinator, because the name of the binary is looked for in every
  argument (`CommandLine.LogDirNamedLikeCoordinator`); `CommandLine.WorkerMistakenForCoordinator`
  says exactly when.
* Time ranges that touch are meant to be disjoint; a NaN latency or bound is the exception
  (`BucketScan.TouchingRanges`).
* A query or remote get whose inner share was not reported disappears from the latency chart
  (`LatencyAccounting.Trace.FillGet`).
* A health path that is a directory is not cleared before a start and counts as ready
  (`WorkerStart.StartCommand.StartWorker`).

## Model

| member | source | states |
|---|---|---|
| `WorkerStart.StartCommand.Supervise` | cli/start.py:818-896 | For every interleaving of clock, exits, lock probes and health-path changes, the events of the run satisfy `WellSupervised`: after every prefix at most one launched child is not known to have ended; each launch has a lock probe of its own that found the lock free, with no launch or busy probe in between; success is a poll that found the child alive followed at once by the health file, and a health file is never seen without that being success; one signal at most is sent or tried, and that is a kill of a child of this run, last, and not before the whole timeout; a failure leaves no child unless the kill was refused; blocked probes plus launches are at most the timeout in seconds; all time is spent looking: every sleep lasts a second, or until the deadline if that is sooner, and comes right after trouble with the lock or after the child was polled alive and nothing found at the health path; a lock conflict is reported exactly when it was the last thing met, with the number of all busy probes and conflicting outputs met. And `Explained`: the outcome is what the last thing met tells, a sleep aside (health file, output told of an address conflict, of a lock conflict or lock busy, of nothing known or could not be read, no process could be launched, or a kill), a lock conflict only when the time is up, and without any event the time must be up. The loop terminates. |
| `WorkerStart.StartCommand.StartWorker` | cli/start.py:770-896 | The same for the whole operation. Success rests on something put at the health path after the operation began, or on something already there that is not a regular file; and if such a thing stands there untouched, any child polled alive before the deadline means success with that very thing. Every outcome is accounted for by parameters, events and time: rejected parameters, an address that answered, a health path that is missing, unsafe or could not be cleared, or the loop, and that only after a look at the address. |
| `WorkerStart.StartCommand.Prepare` | cli/start.py:790-817 | The checks before the loop in their order; if one ends the start, which outcome it gives and that no process was launched; otherwise what the health path holds: nothing regular that was there before. |
| `WorkerStart.StartCommand.Attempts` | cli/start.py:818-883 | The outer loop: bounded number of turns, retry count equal to conflicts, one child at a time. |
| `WorkerStart.StartCommand.Turn` | cli/start.py:821-883 | A turn that lets the loop go on has met one more conflict, left no child, and used a second or the rest of the deadline. |
| `WorkerStart.StartCommand.Launch` | cli/start.py:835-891 | A launch needs a fresh free probe; it ends in success, in one more conflict with the child gone, or in a failure that leaves no child unless the kill was refused. |
| `WorkerStart.StartCommand.SeeThrough` | cli/start.py:844-891 | One launched child up to its end, with the same outcomes. |
| `WorkerStart.StartCommand.Watch` | cli/start.py:844-866 | Polling ends in time: success with child alive and health file seen last, a conflict, a classified exit, or only after the deadline; and every sleep comes right after a look that found the child running without its health file. |
| `WorkerStart.StartCommand.PollOnce` | cli/start.py:845-865 | One poll: an exited child is never reported ready, and a child found alive is reported ready if and only if something stands at the health path; to go on, both looks were made. |
| `WorkerStart.StartCommand.GiveUp` | cli/start.py:867-891 | At the deadline an exited child is classified, any other is killed; the child stays open only if the kill was refused. |
| `WorkerStart.StartCommand.KillChild` | cli/start.py:887-890 | One kill attempt, whichever way it ends; only a refusal leaves the child open. |
| `WorkerStart.StartCommand.HandleExited` | cli/start.py:736-768 | An exited child is always asked for its output, and what that told decides: an address conflict raises, also when the output tells of the lock as well; a lock conflict adds one to the count and raises exactly when not retryable; anything else, and output that could not be read, is abnormal. A child found running only counts as polled. |
| `WorkerOutput.AddressConflictIs` | cli/start.py:685-696 | Exactly which words, in whatever case, make an output tell of an address conflict. |
| `WorkerOutput.StoreLockConflictIs` | cli/start.py:637-646 | The same for the store lock. |
| `WorkerStart.HardlyAnything` | cli/start.py:789-814 | A start that ends before the loop is accounted for and harmless. |
| `WorkerStart.FromTally` | cli/start.py:818-896 | The running tally kept while supervising implies the statement about all events of the run. |
| `Processes.PeakBoundsEveryPrefix` | cli/start.py:818-896 | The peak of a trace bounds the number of open children after each of its prefixes. |
| `Processes.GuardedMeansProbed` | cli/start.py:820-842 | The guarded flag of a trace means that before every launch there is an unused probe that found the lock free. |
| `Processes.CountsAreExact` | cli/start.py:846-889 | No counted signal, no counted sight of the health file, or no counted poll of a running child means there is none anywhere in the trace. |
| `CombinedStart.StartBoth` | cli/start.py:279-297 | All or nothing, judged from the events alone: success if and only if the coordinator answered on its port and was then polled alive and the last things seen are a worker polled alive and its health file; then no process was signalled. After a failure no process launched here is running unless a signal to it was refused. If the coordinator had come up, the worker start after it failed for a reason its events give, and then the coordinator was taken down, asked to end before any other signal to it; if not, parameters and events say why. |
| `CombinedStart.StartWorkerOrRollBack` | cli/start.py:287-297 | A worker that does not start, for a reason its events give, takes the coordinator down, request first; one that starts leaves every process unsignalled. |
| `CombinedStart.StartCoordinator` | cli/start.py:898-979 | Success if and only if the port answered and the next poll found the process alive; a failure leaves no process unless the kill was refused, and is accounted for event by event: rejected parameters, an address that answered, no process, an exit seen, or exactly as many turns as the timeout has seconds, each a poll, a silent port and a second of sleep, and then a kill. |
| `CombinedStart.AwaitCoordinator` | cli/start.py:938-972 | The wait behind that, turn by turn: ready in one of the turns, seen exited at the beginning of one or after the port had answered, or killed after all of them. |
| `CombinedStart.LaunchCoordinator` | cli/start.py:921-972 | Launch and wait: no process could be launched, or the one launched was waited for in vain. |
| `CombinedStart.CoordinatorTurn` | cli/start.py:938-964 | One second of it: a port that answers does not count when the process has exited meanwhile. |
| `CombinedStart.KillStartedProcess` | cli/start.py:997-1028 | The first thing done is the termination request; if that goes out, the process is looked at every tenth of a second, twenty times at most, until it is seen gone; else a kill is tried, two seconds after the request or right after a look that raised; it is left running only if the last signal was refused. |
| `CombinedStart.AwaitCleanup` | cli/start.py:1010-1019 | Rounds of a look and a tenth of a second of sleep, twenty at most; ends with the process seen gone, with a look that raised, or after the whole two seconds. |
| `CombinedStart.RollBack` | cli/start.py:295-297 | After a worker run that left nothing and did not signal the coordinator, nothing at all is left, and the first signal to the coordinator was the request. |
| `CombinedStart.WorkerSignals` | cli/start.py:818-896 | A worker start signals no process older than its own, and one that succeeds signals none. |
| `CombinedStart.RolledBackSince` | cli/start.py:286-297 | A coordinator taken down by the rollback was not signalled before it, all the way back to the start of the command. |
| `ServiceStop.StopCommand.StopService` | cli/stop.py:320-356 | Exactly one candidate must be accepted, or nothing is done; for that process, with the timeout its own command line, the configuration and the command give: one termination request, then rounds of reading the status, looking and a fifth of a second of sleep, and a kill only after the whole timeout of that, then such rounds for at most ten seconds; a normal return if and only if a wait saw the exit; it raises only because a signal found no one or was refused, a look raised, or the whole forced wait went by. |
| `ServiceStop.StopCommand.StopStarted` | cli/stop.py:320-356 | Among any workers and coordinators that start launched, stop acts on the one that answers for the service and address, and on no process at all if there is not exactly one. Unless the command names a positive timeout, a worker gets 180 seconds and its `shared_memory_size_mb` divided by its `data_migrate_rate_limit_mb` before it is killed; where it was started without one of them the configuration counts, and failing a positive number 1024 MB and 40 MB a second. |
| `ServiceStop.StopCommand.Stop` | cli/stop.py:334-356 | The same for the process found, with the timeout field left as it was on every path. |
| `ServiceStop.StopCommand.Force` | cli/stop.py:340-353 | Kill and capped wait: the timeout is lowered for the wait and restored whatever happens; success if and only if the wait saw the exit, and otherwise a reason for raising. |
| `ServiceStop.StopCommand.WaitExit` | cli/stop.py:455-479 | True only with the exit seen by one of its looks, raised only by one of them, false only after the whole timeout; no sleep but a fifth of a second right after the status was read and the process found there; at most five rounds a second, all begun within the timeout; terminates. |
| `ServiceStop.StopCommand.CheckOnce` | cli/stop.py:467-477 | One look: an exit is reported only for a process that is gone. |
| `ServiceStop.EscalatesWith` | cli/stop.py:334-356 | Request, wait and whatever follows make up a proper escalation. |
| `ServiceStop.StopSignals` | cli/stop.py:334-356 | One termination request, first, and at most one kill, after the whole limit and nothing but looking; an exit is seen only at the very end; a signal that failed is the last thing there is. |
| `ServiceStop.RaisedInTheEnd` | cli/stop.py:350-356 | What accounts for raising at the end accounts for it in the whole run. |
| `ServiceStop.ForcedEvents` | cli/stop.py:340-353 | A kill followed by one capped wait is a proper forced end. |
| `ServiceStop.ResolvedTimeout` | cli/stop.py:279-318 | Always positive; a positive override wins; otherwise a coordinator gets the base timeout and a worker the base plus the time its memory takes to migrate. |
| `ServiceStop.SettingPriority` | cli/stop.py:248-277 | What is on the command line decides alone, usable or not; the configuration has a say only in its absence, and then the same say; an unusable value never gets through and a usable one that decides is never passed over. |
| `ServiceStop.TimeoutOfStarted` | cli/stop.py:279-303 | The same of the timeout alone, for every worker start launched, every configuration and every override. |
| `CliArgs.ParseCliArgs` | cli/start.py:473-492 | Accepts exactly the token language ( `--`* `--name` value )* `--`* with non-empty names and values that are no flags; the result is the last-wins dictionary of every document that spells the tokens. |
| `CliArgs.ScanComplete` | cli/start.py:473-492 | Every sentence of the language is accepted with its last-wins dictionary. |
| `CliArgs.ScanSound` | cli/start.py:473-492 | Whatever is accepted is a sentence of the language, and the document is produced. |
| `CliArgs.PrintThenParse` | cli/start.py:473-492 | Printing a dictionary as flag and value tokens and parsing them gives the dictionary back. |
| `CliArgs.ScanFailures` | cli/start.py:473-492 | After any sentence, a value without a name and a name without a value fail, each naming its culprit. |
| `JemallocConf.NormalizedReadsBack` | cli/start.py:536-600 | The printed options are read back as the very entries they were printed from if and only if the prefix has no comma and no outer blank; user entries keep place, key and (but for `prof`) value; at most `prof` and `prof_prefix` are added; a prefix given by the user always qualifies. |
| `JemallocConf.NormalizedTwice` | cli/start.py:536-600 | Normalising the result again, with any log directory, gives the same text and directory when the prefix is clean. |
| `JemallocConf.CommaInLogDir` | cli/start.py:585-600 | The family where reading back fails: any log directory with a comma whose profile directory the path check lets through, and any user options without `prof` and `prof_prefix`. |
| `JemallocConf.PrintParse` | cli/start.py:542-562 | A list of entries is read back from its own print if and only if every key and value is clean and the keys are distinct. |
| `JemallocConf.ParsedConfIsClean` | cli/start.py:542-562 | Whatever is parsed is clean and has distinct keys. |
| `JemallocConf.CompletedKeepsUserEntries` | cli/start.py:564-589 | Completing keeps the user entries in place and ends with `prof` true and the chosen prefix. |
| `JemallocConf.DirnameEmpty` | cli/start.py:591-595 | A prefix is refused for want of a directory exactly when it holds no slash. |
| `JemallocConf.DirnameIs` | cli/start.py:591-595 | The directory of a path is what stands before the slashes before its last name; with nothing before them it is the root. |
| `JemallocConf.DerivedDirectory` | cli/start.py:585-589 | Without a prefix of the user the profiles go to `jemalloc` under the log directory. |
| `JemallocConf.BadOption` | cli/start.py:542-562 | After any good options the first bad one is reported by its kind and place, a repeated key by its name. |
| `JemallocConf.NormalizedCases` | cli/start.py:564-600 | Which error, or which directory and source, comes out of any options that could be read, in the order of the checks. |
| `JemallocConf.ProfMustBeTrue` | cli/start.py:564-570 | `prof` is refused exactly when it is given as anything but true, in whatever case. |
| `JemallocConf.ParseOptions` | cli/start.py:539-562 | The loop fills the list and the dictionary alike, and fails as the specification does. |
| `JemallocConf.ForceProfIn` | cli/start.py:564-576 | `prof` is set in place or appended, and refused when given and not true. |
| `JemallocConf.Normalize` | cli/start.py:537-600 | The imperative normaliser computes the function the laws above are about. |
| `CommandLine.StopReadsWhatStartWrote` | cli/start.py:1030-1096 | Through the NUL-separated form of the kernel, every kept parameter is read back as its original value and every other key as absent, whatever launcher words precede them. |
| `CommandLine.WorkerRecognised` | cli/stop.py:402-420 | A started worker is accepted for an address if and only if that is its own worker address. |
| `CommandLine.CoordinatorRecognised` | cli/stop.py:402-420 | The same for a coordinator, whose command line drops the worker address. |
| `CommandLine.WorkerMistakenForCoordinator` | cli/stop.py:413-420 | Exactly when a worker passes for the coordinator at an address: it was given that coordinator address and one of its arguments ends in a path component with the name of the coordinator binary. |
| `CommandLine.LogDirNamedLikeCoordinator` | cli/stop.py:416-419 | Any worker started for the coordinator at an address whose log directory is named like the binary of the coordinator is accepted as that coordinator, whatever else it was started with. |
| `CommandLine.LogDirIsAccepted` | cli/start.py:1030-1040 | A coordinator address, a worker address and such a log directory, none with a character that is refused, pass every check of the command builder. |
| `CommandLine.EqualsInKey` | cli/stop.py:229-238 | Why keys must hold no equals sign: through launcher words and kernel form, such a key answers for a shorter one that was never given. |
| `CommandLine.GetUniquePid` | cli/stop.py:358-400 | A process is returned if and only if it alone among the candidates is accepted; the first error means that none is. |
| `CommandLine.OnlyItsWorker` | cli/stop.py:386-420 | Among any workers and coordinators built by start, stop settles on a process if and only if it is a worker started with the address and no other is. |
| `CommandLine.OnlyItsCoordinator` | cli/stop.py:386-420 | The same for a coordinator, with the workers that pass for one counted in. |
| `CommandLine.CoordinatorIsNoWorker` | cli/stop.py:413-420 | A coordinator is never accepted as a worker. |
| `CommandLine.ReadBack` | cli/stop.py:229-246 | Reading a key from launcher words plus flags gives the kept value of that key. |
| `CommandLine.RawRoundTrip` | cli/stop.py:223-228 | Splitting the kernel form gives back the arguments. |
| `CommandLine.RawIs` | cli/stop.py:223-228 | The kernel form, argument by argument: each followed by a NUL. |
| `CommandLine.GetValueFromProcessCmdline` | cli/stop.py:210-246 | The two search loops compute the first attached value, or else the first detached one. |
| `CommandLine.ValueForms` | cli/stop.py:229-246 | The four ways a key can be given are read as its value, whatever comes before and after. |
| `CommandLine.NeverDscli` | cli/stop.py:413-415 | Neither a process without a command line nor `dscli` itself is accepted. |
| `CommandLine.BuildCommand` | cli/start.py:1042-1096 | Fails exactly when a tool is missing or a text is rejected; otherwise the launchers, the numactl options, the worker binary and the kept flags, in this order. |
| `CommandLine.BuildCoordinatorCommand` | cli/start.py:1098-1106 | The same for the coordinator. |
| `CommandLine.NumactlCommand` | cli/start.py:1066-1085 | Fails exactly when the value of an option that is passed on is rejected; otherwise those options as flags. |
| `CommandLine.OptionsInOrder` | cli/start.py:1073-1083 | The five options that are passed on, in their order, and no other. |
| `CommandLine.FlagOf` | cli/start.py:1030-1040 | A parameter becomes its flag if and only if it is not reserved and its value holds more than blanks. |
| `CommandLine.FlagsConcat` | cli/start.py:1030-1040 | Flags stand in the order of the parameters. |
| `CommandLine.FailureOf` | cli/start.py:1033-1040 | A kept parameter is rejected exactly for one of the dangerous characters, spelled out, in key or value, or, of the events configuration, for not being the JSON it should be. |
| `CommandLine.FirstFailureConcat` | cli/start.py:1030-1040 | The first rejected parameter decides. |
| `CommandLine.ProcessParams` | cli/start.py:1030-1040 | The first rejected kept parameter decides the error; blank and reserved ones are skipped unchecked. |
| `TopElapsed.ReportedTopIsExact` | scripts/perf_analyze/plot_urma_performance.py:174 | Ranking the local tops gives, rank by rank, the same elapsed time and worker as ranking all records, ties included. |
| `TopElapsed.RankWorkers` | scripts/perf_analyze/plot_urma_performance.py:311-316 | Every worker gets the count it has in the ranking of all records, the table holds exactly the workers with a count, and the counts add up to the smaller of 1000 and the number of records. That ranking is of the slowest: no record left out took longer than one in it, and of those that took as long none has a greater name, or the same and a later timestamp. |
| `TopElapsed.TopIsTop` | scripts/perf_analyze/plot_urma_performance.py:315 | The first 1000 of the ranking are a part of the records, in order, and nothing slower is left out. |
| `TopElapsed.LexIsSmaller` | scripts/perf_analyze/plot_urma_performance.py:315 | Names and timestamps are compared at the first place where they differ. |
| `TopElapsed.CountNames` | scripts/perf_analyze/plot_urma_performance.py:314-316 | Exact counts by name, and no name without a count. |
| `TopElapsed.CountsAddUp` | scripts/perf_analyze/plot_urma_performance.py:311-316 | Counted worker by worker, the global top is as long as it can be. |
| `TopElapsed.KeyLessTotal` | scripts/perf_analyze/plot_urma_performance.py:311-316 | The order by elapsed time and name is total on keys, which is what makes ties harmless. |
| `Ranking.TwoStages` | scripts/perf_analyze/plot_urma_performance.py:174 | For any order that is total on keys, the top of the union of local tops has the keys of the top of everything. |
| `Ranking.TakeMerge` | scripts/perf_analyze/plot_urma_performance.py:174 | The first k of a merge depend only on the first k of either side. |
| `Ranking.SortPermutes` | scripts/perf_analyze/plot_urma_performance.py:315 | The sort keeps every record with its multiplicity. |
| `Ranking.SortDescends` | scripts/perf_analyze/plot_urma_performance.py:315 | The sort leaves no later record above an earlier one. |
| `Ranking.SortLast` | scripts/generate_resource_report.py:311-312 | A stable sort ends with the lowest element, and of those that tie with the last. |
| `ResourceLayout.DecodesRight` | scripts/generate_resource_report.py:185-204 | For all settings and all texts that are numbers where that is checked, every group gets its own text back if and only if the worker does not report OBS without ETCD; in that one case the text of the OBS rate is what is filed under ETCD, and OBS is absent. |
| `ResourceLayout.ObsFiledUnderEtcd` | scripts/generate_resource_report.py:121-122 | Without ETCD the OBS rate stands where the ETCD rate would, and is taken for it. |
| `ResourceLayout.DecodesRendered` | scripts/generate_resource_report.py:185-204 | What decoding a rendered record gives in every case; a current record is never taken for a legacy one. |
| `ResourceLayout.GarbledYieldsNothing` | scripts/generate_resource_report.py:194-203 | One sub-field that is no finite number in a column of several, and the record yields nothing. |
| `ResourceLayout.RecordLayout` | scripts/generate_resource_report.py:114-131 | A record names exactly the groups the worker reports, each once, in the common order, each with its own number of sub-fields. |
| `ResourceLayout.WidthsIdentify` | scripts/generate_resource_report.py:114-131 | Two settings have the same widths exactly when they are equal up to the OBS/ETCD confusion. |
| `ResourceLayout.BuildResourceLayouts` | scripts/generate_resource_report.py:114-134 | The table maps the widths of each of the 32 settings to the names of its canonical form, and has no other entry. |
| `ResourceLayout.FillTable` | scripts/generate_resource_report.py:114-134 | Of two settings with the same widths the later one wins. |
| `ResourceLayout.LegacyInBounds` | scripts/generate_resource_report.py:185-192 | Indexing a legacy record stays inside it for every legacy column count. |
| `ResourceLayout.LegacyColumnsByName` | scripts/generate_resource_report.py:107-111 | Which column of a legacy record each group is read from, with and without the column of the queue. |
| `ResourceLayout.QueueColumnIgnored` | scripts/generate_resource_report.py:189-192 | The extra queue column of the two wider legacy formats changes nothing in what is decoded. |
| `TimeBinning.BinIsFloor` | scripts/generate_resource_report.py:265-277 | The rebuilt fields are legal; the bin is on the same day, a whole number of intervals into it, at most the timestamp and less than one interval before it. |
| `TimeBinning.BinIdempotent` | scripts/generate_resource_report.py:265-277 | The bin of a bin is itself. |
| `TimeBinning.BinMonotone` | scripts/generate_resource_report.py:265-277 | Later timestamps never get earlier bins, across days too. |
| `TimeBinning.BinAtAgrees` | scripts/generate_access_log_report.py:51-63 | Binning the fields and binning microseconds agree. |
| `CacheCounters.DeltasAgree` | scripts/generate_resource_report.py:290-326 | The two delta algorithms, one walking the bins of all hosts with gaps after sorting each bin, one walking the bins of the host, give the same deltas for every host and bin. |
| `CacheCounters.ComputeOcDeltas` | scripts/generate_resource_report.py:290-326 | Each host gets, for every bin but its first, what each counter gained since the bin before, nothing where it was reset, and no other delta; hosts without data get none. |
| `CacheCounters.PerHostDeltas` | scripts/generate_resource_report.py:407-424 | The same from the bins of one host alone. |
| `CacheCounters.WalkBins` | scripts/generate_resource_report.py:316-324 | A walk over any ascending list that covers the bins of the host yields its deltas: gaps do not count. |
| `CacheCounters.DeltasUnique` | scripts/generate_resource_report.py:290-326 | The description of the deltas leaves no choice. |
| `CacheCounters.LastBySorting` | scripts/generate_resource_report.py:303-312 | Grouping, sorting by time and taking the last gives the last sample of each bin. |
| `CacheCounters.LastByOverwriting` | scripts/generate_resource_report.py:407-413 | So does overwriting in order. |
| `CacheCounters.GroupByBin` | scripts/generate_resource_report.py:303-308 | Each bin holds exactly its samples, in order. |
| `CacheCounters.LastOfEach` | scripts/generate_resource_report.py:310-312 | The counters of the latest sample of every group, and of those taken at the same time of the last one. |
| `CacheCounters.CollectBins` | scripts/generate_resource_report.py:295-299 | Ascending, and exactly the bins some host has a sample in. |
| `CacheCounters.DeltasTelescope` | scripts/generate_resource_report.py:316-324 | The deltas of a host add up to exactly the growth from first to last bin plus all the counter fell by in between, so to the growth alone if and only if it was never reset; and bin by bin each is the growth since the bin before, or nothing after a fall. |
| `CacheCounters.ClusterConserves` | scripts/generate_resource_report.py:383-388 | Adding the cluster values over the bins is adding the deltas over the hosts. |
| `CacheCounters.HitRateInRange` | scripts/generate_resource_report.py:390-394 | Every hit rate is -1 or between 0 and 1, -1 exactly when nothing was counted, and otherwise times all requests it gives the hits from memory, disk, second level and remote. |
| `LatencyAccounting.Trace.ComputeDelays` | scripts/generate_trace_latency_report.py:404-444 | GET: request delay, worker span and response delay add up to at least the client latency, and to exactly that if and only if every worker record lies inside the request. SET: the residual form adds up to at least the latency, and to exactly that if and only if request delay plus worker time fits. |
| `LatencyAccounting.Trace.FillGet` | scripts/generate_trace_latency_report.py:456-488 | Whatever was reported, bars plus losses equal worker cost plus overlaps; with the shares of master and remote worker reported the seven bars reach the cost and meet it exactly when the phases nest; without them exactly the query and the unwritten part of the remote get are missing from the chart, if and only if the phases fit into the cost. |
| `LatencyAccounting.Trace.FillQuery` | scripts/generate_trace_latency_report.py:456-466 | The two bars of the query against the query, with what is lost and what is counted twice; what the worker reports of the query goes before what the master reports. |
| `LatencyAccounting.Trace.FillRemote` | scripts/generate_trace_latency_report.py:468-480 | The three bars of the remote get against the remote get, likewise. |
| `LatencyAccounting.Trace.FillSet` | scripts/generate_trace_latency_report.py:503-515 | The bars of a publish reach its cost, and meet it exactly when master, create and publish nest. |
| `LatencyAccounting.Trace.LongestWork` | scripts/generate_trace_latency_report.py:404-415 | The duration of a GET record that no other exceeds, or those of a longest create and a longest publish together; zero stands for none. |
| `LatencyAccounting.Window` | scripts/generate_trace_latency_report.py:420-428 | The window of the records: every record lies inside it, and some record begins with it and some ends with it. |
| `BucketScan.BucketsRefineScans` | scripts/perf_analyze/trace_collector.py:305-336 | Every bucket of the one pass is part of what the separate scan finds, and all of it when no line mentions two requested operations. |
| `BucketScan.PassVersusScan` | scripts/perf_analyze/trace_collector.py:316-331 | The exact difference: the pass takes a line for an operation if and only if the scan does and no operation listed earlier is on the line. |
| `BucketScan.ShadowedLine` | scripts/perf_analyze/trace_collector.py:316-331 | A line with two operations is lost to the later one. |
| `BucketScan.CollectBucketTraces` | scripts/perf_analyze/trace_collector.py:305-336 | After the pass each bucket holds exactly the traces of the lines taken for its operation and range. |
| `BucketScan.ExtractTracesTime` | scripts/perf_analyze/trace_collector.py:669-729 | The scan returns exactly the traces of the lines it takes. |
| `BucketScan.TakeLine` | scripts/perf_analyze/trace_collector.py:315-331 | One line changes only the buckets of its first operation whose range it meets. |
| `BucketScan.Distribute` | scripts/perf_analyze/trace_collector.py:329-331 | One reading reaches every range of its operation that wants it and nothing else. |
| `BucketScan.TouchingRanges` | scripts/perf_analyze/trace_collector.py:659-666 | Ranges that meet at a point both take a latency exactly when a NaN is involved; the point itself is in neither. |
| `BucketScan.ParsedSpecs` | scripts/perf_analyze/trace_collector.py:439-444 | Each range text is parsed to its own range, in order. |
| `BucketScan.RangeOfOne` | scripts/perf_analyze/trace_collector.py:634-647 | No text asks for no bounds, a text without a comma for a lower bound. |
| `BucketScan.RangeOfTwo` | scripts/perf_analyze/trace_collector.py:648-654 | Around one comma stand the bounds, either of which may be missing; a bound that is no number is refused. |
| `BucketScan.RangeOfThree` | scripts/perf_analyze/trace_collector.py:655-656 | A second comma is refused. |
| `BucketScan.ReadsColumns` | scripts/perf_analyze/trace_collector.py:318-328 | The tenth column of a line is its latency, the sixth its trace; a line is skipped exactly when one of them is missing. |
| `GrepLines.ContentOfGrepLine` | scripts/perf_analyze/trace_collector.py:291-294 | Of `path:number:content` the content is returned whole if and only if it has no number field of its own; otherwise what follows the last of them. |
| `GrepLines.SplitsAtLastMatch` | scripts/perf_analyze/trace_collector.py:83 | The greedy split returns what follows the last number field and fails exactly without one. |
| `GrepLines.NumberFieldIs` | scripts/perf_analyze/trace_collector.py:83 | Having a number field means beginning with digits and a colon, or containing them between colons. |
| `GrepLines.TimestampLosesItsHour` | scripts/perf_analyze/trace_collector.py:291-294 | Any content with a time of day loses its beginning. |
| `GrepLines.TraceLost` | scripts/perf_analyze/trace_collector.py:393-400 | A line is filed under a trace if and only if the trace occurs after the last number field of its content; so a trace on the line is lost if and only if all its occurrences begin before that. |
| `GrepLines.FileLines` | scripts/perf_analyze/trace_collector.py:393-400 | The pairs filed are exactly those of a line and a pattern that its extracted content holds. |
| `Percentile.EnoughReachThreshold` | scripts/perf_analyze/trace_collector.py:790-806 | The threshold lies between adjacent order statistics, and at least n - ceil((n-1)p), hence at least one, of the records reach it. |
| `Percentile.PercentileInterpolates` | scripts/perf_analyze/trace_collector.py:790-806 | The threshold stands at place (n-1)p of the sorted values, interpolated evenly between two places. |
| `Percentile.PercentileMonotone` | scripts/perf_analyze/trace_collector.py:790-806 | Raising the percentile never lowers the threshold. |
| `Percentile.FilterTraces` | scripts/perf_analyze/trace_collector.py:861-888 | Exactly the distinct traces with a record at or above the threshold, in the order first seen; at least one when the times are those of the records. |
| `Percentile.SomeSelected` | scripts/perf_analyze/trace_collector.py:861-888 | A threshold taken of the times themselves is reached by some record. |
| `Percentile.SelectionsNested` | scripts/perf_analyze/trace_collector.py:861-888 | A trace selected at a higher percentile is selected at every lower one. |
| `Downsampling.DownsampleSeries` | scripts/perf_analyze/plot_urma_chip_inflight.py:735-761 | Unchanged for steps up to one and without timestamps; otherwise an error exactly when a series is not as long as the timestamps, and else ceil(n/N) points, each the median time and the means of its own bucket. |
| `Downsampling.TimesStayOrdered` | scripts/perf_analyze/plot_urma_chip_inflight.py:735-761 | Ordered timestamps stay ordered. |
| `Downsampling.MeanBetween` | scripts/perf_analyze/plot_urma_chip_inflight.py:735-761 | Each mean lies between any bounds of its bucket. |
| `Downsampling.MedianBetween` | scripts/perf_analyze/plot_urma_chip_inflight.py:735-761 | Each time lies between the first and the last of its bucket. |
| `Downsampling.MedianIs` | scripts/perf_analyze/plot_urma_chip_inflight.py:735-741 | The time in the middle of the bucket, or halfway between the two in the middle. |
| `Downsampling.BucketSizes` | scripts/perf_analyze/plot_urma_chip_inflight.py:735-761 | Every bucket holds n samples in their order, the last one perhaps fewer. |
| `Downsampling.SumIsConserved` | scripts/perf_analyze/plot_urma_chip_inflight.py:735-761 | Weighted by bucket size, the means add up to the sum of the original series. |
| `AccessLogStats.TablesAgree` | scripts/generate_access_log_report.py:159-247 | For every API the rows of the detail table add up to its line of the summary, requests and errors alike. |
| `AccessLogStats.ComputeStats` | scripts/generate_access_log_report.py:159-228 | A true row for every bin and API that occur together, each once, in order, and no other row; bins and APIs are exactly those that occur, in order; the rows of an API account for all its records. |
| `AccessLogStats.ComputeOverall` | scripts/generate_access_log_report.py:239-247 | The summary has exactly the APIs that occur, with their exact counts. |
| `AccessLogStats.BinsPartition` | scripts/generate_access_log_report.py:159-228 | The bins share the records out: none lost, none counted twice. |
| `AccessLogStats.GroupRecords` | scripts/generate_access_log_report.py:161-163 | Each group holds exactly the records of its bin and API, in order. |
| `AccessLogStats.BinRows` | scripts/generate_access_log_report.py:185-228 | One bin adds exactly its rows, in order, after the rows already there. |

## Left out

- The C++ engine, the transfer engine, the public headers and the Go binding.
- HTML, SVG and JavaScript output; ssh, scp, pgrep, grep, file walking, gzip and subprocess plumbing, whose results are inputs here.
- Floating-point rounding (exact arithmetic instead), date labels, and Unicode: blanks, digits, letter case and UTF-8 decoding are ASCII here.
- Defaults filled in from configuration files, JSON validation, real-path resolution and the safe-path and address checks, which are parameters or fields here.
- Messages of errors, and log lines; an error is one of a few kinds.
- The regular expressions that take latencies and traces out of log lines, apart from the greedy split; file boundaries and per-file errors in scans (the lines of all files form one sequence); sorted output, where only membership matters; the source directories and matched lines collected beside the buckets.
- Averages of gauges, percentile columns and request rates in the reports; the per-minute samples and the second downsampling in the performance plot.
- NaN among the values a percentile is taken of.
- Latencies as fractions: times are whole microseconds, so rounding to three digits of a millisecond is exact.
- WorkerStart.StartCommand.Supervise: does not say which child wrote the health file, because nothing in the source ties the file to a process; a file left by an earlier child of the same run counts.
- ServiceStop.StopCommand.StopService: the processes whose command line matches the search text are given as candidates; that a wall clock may be set back is not modelled.
- ServiceStop.StopCommand.WaitExit: does not promise a least number of looks, because the clock may pass the timeout between any two readings.
- JemallocConf.NormalizedTwice: the condition is sufficient; a comma whose remainder happens to read as further options gives the same text again, although not the same entries.
- A killed process counts as ended from the moment the kill is delivered; a sleep lasts at least as long as asked.
