/** `dscli start --jemalloc_prof_conf`: parsing, completing and re-printing MALLOC_CONF. */
module JemallocConf {
  import opened Text

  datatype Entry = Entry(key: string, value: string)

  datatype ConfError =
    | Empty
    | EmptyOption(position: nat)
    | NotKeyValue(position: nat)
    | MissingPart(position: nat)
    | Duplicate(key: string)
    | ProfNotTrue
    | NoLogDir
    | PrefixWithoutDirectory
    | UnsafeDirectory

  datatype Source = FromUser | FromLogDir

  datatype Profile = Profile(text: string, parent: string, source: Source)

  const PROF := "prof"
  const PREFIX := "prof_prefix"

  // ----- parsing -----

  function IndexOf(s: string, c: char): (i: nat)
    requires c in s
    ensures i < |s| && s[i] == c && c !in s[..i]
  {
    if s[0] == c then 0 else 1 + IndexOf(s[1..], c)
  }

  /** One stripped option, cut at its first colon. */
  function ParseKeyValue(t: string, position: nat): Result<Entry, ConfError> {
    if t == "" then Err(EmptyOption(position))
    else if ':' !in t then Err(NotKeyValue(position))
    else
      var colon := IndexOf(t, ':');
      var key, value := Strip(t[..colon]), Strip(t[colon + 1..]);
      if key == "" || value == "" then Err(MissingPart(position)) else Ok(Entry(key, value))
  }

  function ParseItem(item: string, position: nat): Result<Entry, ConfError> {
    ParseKeyValue(Strip(item), position)
  }

  predicate HasKey(entries: seq<Entry>, key: string) {
    exists i :: 0 <= i < |entries| && entries[i].key == key
  }

  function Lookup(entries: seq<Entry>, key: string): (r: Option<string>)
    ensures r.Some? <==> HasKey(entries, key)
    ensures r.Some? ==> Entry(key, r.value) in entries
  {
    if entries == [] then None
    else if entries[0].key == key then
      assert HasKey(entries, key);
      Some(entries[0].value)
    else
      var r := Lookup(entries[1..], key);
      assert HasKey(entries, key) <==> HasKey(entries[1..], key) by {
        if HasKey(entries[1..], key) {
          var i :| 0 <= i < |entries[1..]| && entries[1..][i].key == key;
          assert entries[i + 1].key == key;
        }
        if HasKey(entries, key) {
          var i :| 0 <= i < |entries| && entries[i].key == key;
          assert entries[1..][i - 1].key == key;
        }
      }
      r
  }

  function ParseItems(items: seq<string>, position: nat, seen: seq<Entry>): Result<seq<Entry>, ConfError> {
    if items == [] then Ok(seen)
    else match ParseItem(items[0], position)
      case Err(e) => Err(e)
      case Ok(entry) =>
        if HasKey(seen, entry.key) then Err(Duplicate(entry.key))
        else ParseItems(items[1..], position + 1, seen + [entry])
  }

  /** The ordered entries of a configuration text. */
  function ParseConf(conf: string): Result<seq<Entry>, ConfError> {
    if Strip(conf) == "" then Err(Empty) else ParseItems(Split(conf, ','), 1, [])
  }

  // ----- completing -----

  /** `os.path.join(log_dir, "jemalloc", "datasystem_worker")` for a non-empty `log_dir`. */
  function DerivedPrefix(logDir: string): string
    requires logDir != ""
  {
    (if logDir[|logDir| - 1] == '/' then logDir else logDir + "/") + "jemalloc/datasystem_worker"
  }

  function RTrimSlash(s: string): string {
    if s != "" && s[|s| - 1] == '/' then RTrimSlash(s[..|s| - 1]) else s
  }

  function LastSlash(s: string): (i: int)
    ensures -1 <= i < |s|
  {
    if s == "" then -1 else if s[|s| - 1] == '/' then |s| - 1 else LastSlash(s[..|s| - 1])
  }

  /** `os.path.dirname`. */
  function Dirname(path: string): string {
    var head := path[..LastSlash(path) + 1];
    if forall c :: c in head ==> c == '/' then head else RTrimSlash(head)
  }

  function ForceProf(entries: seq<Entry>): seq<Entry> {
    if HasKey(entries, PROF)
    then seq(|entries|, i requires 0 <= i < |entries| =>
               if entries[i].key == PROF then Entry(PROF, "true") else entries[i])
    else entries + [Entry(PROF, "true")]
  }

  function ChosenPrefix(user: seq<Entry>, logDir: string): string
    requires HasKey(user, PREFIX) || logDir != ""
  {
    if HasKey(user, PREFIX) then Lookup(user, PREFIX).value else DerivedPrefix(logDir)
  }

  /** The entries that are printed: the user's, `prof` forced to true, a prefix added if missing. */
  function Completed(user: seq<Entry>, logDir: string): seq<Entry>
    requires HasKey(user, PREFIX) || logDir != ""
  {
    if HasKey(user, PREFIX) then ForceProf(user)
    else ForceProf(user) + [Entry(PREFIX, DerivedPrefix(logDir))]
  }

  predicate ProfAccepted(user: seq<Entry>) {
    Lookup(user, PROF).Some? ==> Lower(Lookup(user, PROF).value) == "true"
  }

  /** The directory of the prefix, made safe. `resolve` is `realpath` followed by the safe path
      check; None when that check raises. */
  function DirectoryOf(prefix: string, resolve: string -> Option<string>): Result<string, ConfError> {
    var dir := Dirname(prefix);
    if dir == "" then Err(PrefixWithoutDirectory)
    else if resolve(dir).None? then Err(UnsafeDirectory)
    else Ok(resolve(dir).value)
  }

  /** The checks made once the options have been read. */
  function Directory(user: seq<Entry>, logDir: string, resolve: string -> Option<string>): Result<string, ConfError> {
    if !ProfAccepted(user) then Err(ProfNotTrue)
    else if !HasKey(user, PREFIX) && logDir == "" then Err(NoLogDir)
    else DirectoryOf(ChosenPrefix(user, logDir), resolve)
  }

  // ----- printing -----

  function PrintEntry(e: Entry): string {
    e.key + ":" + e.value
  }

  function PrintEntries(entries: seq<Entry>): seq<string> {
    seq(|entries|, i requires 0 <= i < |entries| => PrintEntry(entries[i]))
  }

  function Print(entries: seq<Entry>): string {
    Join(PrintEntries(entries), ',')
  }

  function Normalized(conf: string, logDir: string, resolve: string -> Option<string>): Result<Profile, ConfError> {
    match ParseConf(conf)
    case Err(e) => Err(e)
    case Ok(user) =>
      match Directory(user, logDir, resolve)
      case Err(e) => Err(e)
      case Ok(parent) =>
        Ok(Profile(Print(Completed(user, logDir)), parent, if HasKey(user, PREFIX) then FromUser else FromLogDir))
  }

  // ----- what a parsed entry looks like -----

  /** Text that survives a print/parse cycle as one value. */
  predicate CleanValue(v: string) {
    v != "" && Trimmed(v) && ',' !in v
  }

  predicate Clean(e: Entry) {
    CleanValue(e.key) && ':' !in e.key && CleanValue(e.value)
  }

  predicate AllClean(entries: seq<Entry>) {
    forall i :: 0 <= i < |entries| ==> Clean(entries[i])
  }

  predicate DistinctKeys(entries: seq<Entry>) {
    forall i, j :: 0 <= i < j < |entries| ==> entries[i].key != entries[j].key
  }

  lemma ParsedItemIsClean(t: string, position: nat)
    requires ',' !in t
    ensures ParseKeyValue(t, position).Ok? ==> Clean(ParseKeyValue(t, position).value)
  {
    if ':' in t {
      var colon := IndexOf(t, ':');
      StripTrims(t[..colon]);
      StripTrims(t[colon + 1..]);
      assert ':' !in t[..colon];
    }
  }

  lemma {:induction false} ParsedItemsAreClean(items: seq<string>, position: nat, seen: seq<Entry>)
    requires forall item :: item in items ==> ',' !in item
    requires AllClean(seen) && DistinctKeys(seen)
    ensures var r := ParseItems(items, position, seen);
            r.Ok? ==> AllClean(r.value) && DistinctKeys(r.value) && |r.value| == |seen| + |items|
  {
    if items != [] {
      StripTrims(items[0]);
      ParsedItemIsClean(Strip(items[0]), position);
      var first := ParseItem(items[0], position);
      if first.Ok? && !HasKey(seen, first.value.key) {
        ParsedItemsAreClean(items[1..], position + 1, seen + [first.value]);
      }
    }
  }

  lemma ParsedConfIsClean(conf: string)
    ensures var r := ParseConf(conf);
            r.Ok? ==> r.value != [] && AllClean(r.value) && DistinctKeys(r.value)
  {
    JoinSplit(conf, ',');
    ParsedItemsAreClean(Split(conf, ','), 1, []);
  }

  lemma PrintedEntryParses(e: Entry, position: nat)
    requires Clean(e)
    ensures ParseItem(PrintEntry(e), position) == Ok(e)
    ensures ',' !in PrintEntry(e)
  {
    var t := PrintEntry(e);
    StripTrims(t);
    assert t[|t| - 1] == e.value[|e.value| - 1];
    var colon := IndexOf(t, ':');
    assert t[|e.key|] == ':';
    assert colon == |e.key|;
    assert t[..colon] == e.key && t[colon + 1..] == e.value;
    StripTrims(e.key);
    StripTrims(e.value);
  }

  lemma NotYetGiven(entries: seq<Entry>, k: nat)
    requires DistinctKeys(entries) && k < |entries|
    ensures !HasKey(entries[..k], entries[k].key)
  {
  }

  lemma ParseStep(items: seq<string>, position: nat, seen: seq<Entry>, entry: Entry)
    requires items != [] && ParseItem(items[0], position) == Ok(entry) && !HasKey(seen, entry.key)
    ensures ParseItems(items, position, seen) == ParseItems(items[1..], position + 1, seen + [entry])
  {
    hide ParseItem, HasKey;
  }

  lemma {:induction false} GoodThenMore(good: seq<Entry>, k: nat, rest: seq<string>)
    requires AllClean(good) && DistinctKeys(good) && k <= |good|
    ensures ParseItems(PrintEntries(good)[k..] + rest, k + 1, good[..k]) == ParseItems(rest, |good| + 1, good)
    decreases |good| - k
  {
    hide ParseItems, ParseItem, HasKey, DistinctKeys, PrintEntry;
    var items := PrintEntries(good);
    if k == |good| {
      assert items[k..] + rest == rest && good[..k] == good;
    } else {
      var here := items[k..] + rest;
      PrintedEntryParses(good[k], k + 1);
      NotYetGiven(good, k);
      ParseStep(here, k + 1, good[..k], good[k]);
      assert here[1..] == items[k + 1..] + rest;
      assert good[..k] + [good[k]] == good[..k + 1];
      GoodThenMore(good, k + 1, rest);
    }
  }

  lemma PrintedText(entries: seq<Entry>)
    requires entries != [] && AllClean(entries)
    ensures Split(Print(entries), ',') == PrintEntries(entries)
    ensures Strip(Print(entries)) != ""
  {
    var items := PrintEntries(entries);
    forall item | item in items ensures ',' !in item {
      var i :| 0 <= i < |items| && items[i] == item;
      PrintedEntryParses(entries[i], 1);
    }
    SplitJoin(items, ',');
    var text := Print(entries);
    assert items[0][0] == entries[0].key[0];
    assert text[0] == items[0][0];
    StripTrims(text);
  }

  /** A list of entries is read back from its own print exactly when it is clean and has
      distinct keys. */
  lemma PrintParse(entries: seq<Entry>)
    requires entries != []
    ensures ParseConf(Print(entries)) == Ok(entries) <==> AllClean(entries) && DistinctKeys(entries)
  {
    if AllClean(entries) && DistinctKeys(entries) {
      PrintedText(entries);
      GoodThenMore(entries, 0, []);
      assert PrintEntries(entries)[0..] + [] == PrintEntries(entries) && entries[..0] == [];
    } else {
      ParsedConfIsClean(Print(entries));
    }
  }

  // ----- the completed configuration -----

  /** What completing keeps of the user's entries and what it adds. */
  ghost predicate Completes(all: seq<Entry>, user: seq<Entry>) {
    && |user| <= |all|
    && (forall i :: 0 <= i < |user| ==> all[i].key == user[i].key)
    && (forall i :: 0 <= i < |user| && user[i].key != "prof" ==> all[i] == user[i])
    && (forall i :: |user| <= i < |all| ==> all[i].key in {"prof", "prof_prefix"})
    && DistinctKeys(all)
    && Lookup(all, "prof") == Some("true")
    && Lookup(all, "prof_prefix").Some?
  }

  lemma {:induction false} LookupIs(entries: seq<Entry>, i: nat)
    requires i < |entries| && DistinctKeys(entries)
    ensures Lookup(entries, entries[i].key) == Some(entries[i].value)
  {
    if i > 0 {
      LookupIs(entries[1..], i - 1);
    }
  }

  lemma ForceProfKeeps(user: seq<Entry>)
    requires DistinctKeys(user)
    ensures var all := ForceProf(user);
            && |user| <= |all| && DistinctKeys(all) && Lookup(all, PROF) == Some("true")
            && (forall i :: 0 <= i < |user| ==> all[i].key == user[i].key)
            && (forall i :: 0 <= i < |user| && user[i].key != PROF ==> all[i] == user[i])
            && (forall i :: |user| <= i < |all| ==> all[i].key == PROF)
  {
    var all := ForceProf(user);
    if HasKey(user, PROF) {
      var i :| 0 <= i < |user| && user[i].key == PROF;
      LookupIs(all, i);
    } else {
      LookupIs(all, |user|);
    }
  }

  lemma AddPrefixKeeps(forced: seq<Entry>, prefix: string)
    requires DistinctKeys(forced) && !HasKey(forced, PREFIX)
    ensures var all := forced + [Entry(PREFIX, prefix)];
            DistinctKeys(all) && Lookup(all, PREFIX) == Some(prefix) && Lookup(all, PROF) == Lookup(forced, PROF)
  {
    var all := forced + [Entry(PREFIX, prefix)];
    LookupIs(all, |forced|);
    if HasKey(forced, PROF) {
      var i :| 0 <= i < |forced| && forced[i].key == PROF;
      LookupIs(forced, i);
      LookupIs(all, i);
    } else {
      assert !HasKey(all, PROF);
    }
  }

  /** Completing keeps the user's entries in place, apart from the value of `prof`, and adds at
      most `prof` and `prof_prefix`. */
  lemma CompletedKeepsUserEntries(user: seq<Entry>, logDir: string)
    requires DistinctKeys(user) && (HasKey(user, PREFIX) || logDir != "")
    ensures Completes(Completed(user, logDir), user)
    ensures Lookup(Completed(user, logDir), PREFIX) == Some(ChosenPrefix(user, logDir))
  {
    hide Lookup, HasKey, DistinctKeys, ForceProf, DerivedPrefix;
    ForceProfKeeps(user);
    if HasKey(user, PREFIX) {
      ForcedKeepsPrefix(user);
    } else {
      ForcedAddsNoPrefix(user);
      AddPrefixKeeps(ForceProf(user), DerivedPrefix(logDir));
    }
  }

  lemma ForcedKeepsPrefix(user: seq<Entry>)
    requires DistinctKeys(user) && HasKey(user, PREFIX)
    ensures Lookup(ForceProf(user), PREFIX) == Lookup(user, PREFIX)
  {
    ForceProfKeeps(user);
    var i :| 0 <= i < |user| && user[i].key == PREFIX;
    LookupIs(user, i);
    LookupIs(ForceProf(user), i);
  }

  lemma ForcedAddsNoPrefix(user: seq<Entry>)
    requires DistinctKeys(user) && !HasKey(user, PREFIX)
    ensures !HasKey(ForceProf(user), PREFIX)
  {
    ForceProfKeeps(user);
  }

  lemma LiteralsClean()
    ensures Clean(Entry(PROF, "true")) && CleanValue(PREFIX) && ':' !in PREFIX
  {
  }

  lemma ForcedIsClean(user: seq<Entry>)
    requires AllClean(user)
    ensures AllClean(ForceProf(user))
  {
    LiteralsClean();
    var forced := ForceProf(user);
    assert forall i :: 0 <= i < |forced| ==> forced[i] == Entry(PROF, "true") || forced[i] in user;
  }

  lemma AppendIsClean(entries: seq<Entry>, key: string, value: string)
    requires AllClean(entries) && CleanValue(key) && ':' !in key
    ensures AllClean(entries + [Entry(key, value)]) <==> CleanValue(value)
  {
    var all := entries + [Entry(key, value)];
    assert all[|entries|] == Entry(key, value);
  }

  lemma CompletedIsClean(user: seq<Entry>, logDir: string)
    requires AllClean(user) && (HasKey(user, PREFIX) || logDir != "")
    ensures AllClean(Completed(user, logDir)) <==> CleanValue(ChosenPrefix(user, logDir))
  {
    ForcedIsClean(user);
    LiteralsClean();
    if HasKey(user, PREFIX) {
      assert Entry(PREFIX, ChosenPrefix(user, logDir)) in user;
    } else {
      AppendIsClean(ForceProf(user), PREFIX, DerivedPrefix(logDir));
    }
  }

  /** The printed configuration is read back as exactly the entries it was printed from if and
      only if the prefix in it holds no comma and no outer blank. Only a prefix derived from
      `log_dir` can fail that. */
  lemma NormalizedReadsBack(conf: string, logDir: string, resolve: string -> Option<string>)
    requires Normalized(conf, logDir, resolve).Ok?
    ensures var user := ParseConf(conf).value;
            var text := Normalized(conf, logDir, resolve).value.text;
            && Completes(Completed(user, logDir), user)
            && (ParseConf(text) == Ok(Completed(user, logDir)) <==> CleanValue(ChosenPrefix(user, logDir)))
            && (HasKey(user, PREFIX) ==> CleanValue(ChosenPrefix(user, logDir)))
  {
    ParsedConfIsClean(conf);
    var user := ParseConf(conf).value;
    CompletedKeepsUserEntries(user, logDir);
    CompletedIsClean(user, logDir);
    PrintParse(Completed(user, logDir));
    if HasKey(user, PREFIX) {
      assert Entry(PREFIX, ChosenPrefix(user, logDir)) in user;
    }
  }

  lemma ForcedAgain(all: seq<Entry>)
    requires DistinctKeys(all) && Lookup(all, PROF) == Some("true")
    ensures ForceProf(all) == all
  {
    forall i | 0 <= i < |all| && all[i].key == PROF ensures all[i] == Entry(PROF, "true") {
      LookupIs(all, i);
    }
  }

  lemma CompletedAgain(user: seq<Entry>, logDir: string, again: string)
    requires DistinctKeys(user) && (HasKey(user, PREFIX) || logDir != "")
    ensures HasKey(Completed(user, logDir), PREFIX)
    ensures Completed(Completed(user, logDir), again) == Completed(user, logDir)
  {
    CompletedKeepsUserEntries(user, logDir);
    ForcedAgain(Completed(user, logDir));
  }

  lemma LowerTrue()
    ensures Lower("true") == "true"
  {
  }

  lemma DirectoryAgain(user: seq<Entry>, logDir: string, again: string, resolve: string -> Option<string>)
    requires DistinctKeys(user) && Directory(user, logDir, resolve).Ok?
    ensures HasKey(Completed(user, logDir), PREFIX)
    ensures Directory(Completed(user, logDir), again, resolve) == Directory(user, logDir, resolve)
  {
    CompletedKeepsUserEntries(user, logDir);
    LowerTrue();
    assert ProfAccepted(Completed(user, logDir));
  }

  /** Normalising is idempotent, whatever `log_dir` the second run is given, when the prefix of
      the first run is clean. */
  lemma NormalizedTwice(conf: string, logDir: string, again: string, resolve: string -> Option<string>)
    requires Normalized(conf, logDir, resolve).Ok?
    requires CleanValue(ChosenPrefix(ParseConf(conf).value, logDir))
    ensures var first := Normalized(conf, logDir, resolve).value;
            Normalized(first.text, again, resolve) == Ok(first.(source := FromUser))
  {
    NormalizedReadsBack(conf, logDir, resolve);
    ParsedConfIsClean(conf);
    var user := ParseConf(conf).value;
    CompletedAgain(user, logDir, again);
    DirectoryAgain(user, logDir, again, resolve);
  }

  lemma {:induction false} SlashFound(path: string)
    requires '/' in path
    ensures 0 <= LastSlash(path) && path[LastSlash(path)] == '/'
  {
    if path[|path| - 1] != '/' {
      SlashFound(path[..|path| - 1]);
    }
  }

  lemma {:induction false} TrimKeepsOther(s: string, i: nat)
    requires i < |s| && s[i] != '/'
    ensures RTrimSlash(s) != ""
  {
    if s[|s| - 1] == '/' {
      TrimKeepsOther(s[..|s| - 1], i);
    }
  }

  /** A prefix has a directory exactly when it holds a slash. */
  lemma DirnameEmpty(path: string)
    ensures Dirname(path) == "" <==> '/' !in path
  {
    var head := path[..LastSlash(path) + 1];
    if '/' in path {
      SlashFound(path);
      if c :| c in head && c != '/' {
        var i :| 0 <= i < |head| && head[i] == c;
        TrimKeepsOther(head, i);
      }
    } else {
      NoSlashFound(path);
      assert head == "";
    }
  }

  /** `n` slashes. */
  function Slashes(n: nat): string {
    seq(n, _ => '/')
  }

  lemma {:induction false} LastSlashIs(head: string, base: string)
    requires '/' !in base && head != "" && head[|head| - 1] == '/'
    ensures LastSlash(head + base) == |head| - 1
  {
    if base == "" {
      assert head + base == head;
    } else {
      var path := head + base;
      assert path[..|path| - 1] == head + base[..|base| - 1];
      LastSlashIs(head, base[..|base| - 1]);
    }
  }

  lemma {:induction false} TrimsSlashes(dir: string, n: nat)
    requires dir != "" && dir[|dir| - 1] != '/'
    ensures RTrimSlash(dir + Slashes(n)) == dir
  {
    var s := dir + Slashes(n);
    if n == 0 {
      assert s == dir;
    } else {
      assert s[..|s| - 1] == dir + Slashes(n - 1);
      TrimsSlashes(dir, n - 1);
    }
  }

  /** The directory of a path is what stands before the slashes before its last name; a path with
      nothing before them is in the root. */
  lemma DirnameIs(dir: string, n: nat, base: string)
    requires '/' !in base && (dir == "" || dir[|dir| - 1] != '/') && n > 0
    ensures Dirname(dir + Slashes(n) + base) == if dir == "" then Slashes(n) else dir
  {
    var head := dir + Slashes(n);
    LastSlashIs(head, base);
    assert (head + base)[..|head|] == head;
    if dir == "" {
      assert head == Slashes(n);
    } else {
      assert dir[|dir| - 1] in head;
      TrimsSlashes(dir, n);
    }
  }

  lemma JoinedNames()
    ensures "jemalloc/datasystem_worker" == "jemalloc" + ("/" + "datasystem_worker")
    ensures '/' !in "datasystem_worker" && Slashes(1) == "/"
  {
  }

  lemma DirnameUnder(top: string, name: string, base: string)
    requires '/' !in base && name != "" && name[|name| - 1] != '/'
    ensures Dirname(top + (name + ("/" + base))) == top + name
  {
    hide Dirname;
    assert Slashes(1) == "/";
    assert (top + name) + Slashes(1) + base == top + (name + ("/" + base));
    DirnameIs(top + name, 1, base);
  }

  /** Without a prefix of the user's, profiles go to `jemalloc` under the log directory. */
  lemma DerivedDirectory(logDir: string)
    requires logDir != ""
    ensures Dirname(DerivedPrefix(logDir)) == (if logDir[|logDir| - 1] == '/' then logDir else logDir + "/") + "jemalloc"
    ensures logDir < DerivedPrefix(logDir)
  {
    hide Dirname;
    JoinedNames();
    DirnameUnder(if logDir[|logDir| - 1] == '/' then logDir else logDir + "/", "jemalloc", "datasystem_worker");
  }

  predicate SaysTrue(v: string) {
    |v| == 4 && v[0] in {'t', 'T'} && v[1] in {'r', 'R'} && v[2] in {'u', 'U'} && v[3] in {'e', 'E'}
  }

  lemma LowerIsTrue(v: string)
    ensures Lower(v) == "true" <==> SaysTrue(v)
  {
    if |v| == 4 {
      assert Lower(v) == [LowerChar(v[0]), LowerChar(v[1]), LowerChar(v[2]), LowerChar(v[3])];
      assert "true" == ['t', 'r', 'u', 'e'];
    } else {
      assert |Lower(v)| != |"true"|;
    }
  }

  /** Options are refused over `prof` exactly when the user gives it as anything but true. */
  lemma ProfMustBeTrue(user: seq<Entry>, i: nat)
    requires DistinctKeys(user) && i < |user| && user[i].key == "prof"
    ensures ProfAccepted(user) <==> SaysTrue(user[i].value)
  {
    LookupIs(user, i);
    LowerIsTrue(user[i].value);
  }

  lemma ProfMayBeMissing(user: seq<Entry>)
    requires forall i :: 0 <= i < |user| ==> user[i].key != "prof"
    ensures ProfAccepted(user)
  {
  }

  lemma {:induction false} NoSlashFound(path: string)
    requires '/' !in path
    ensures LastSlash(path) == -1
  {
    if path != "" {
      NoSlashFound(path[..|path| - 1]);
    }
  }

  /** A comma anywhere in `log_dir` is enough to break reading back: whatever options the user
      gives, short of `prof` and `prof_prefix`, the run succeeds and prints such a text, provided the
      directory is one the path check lets through. */
  lemma CommaInLogDir(user: seq<Entry>, logDir: string, resolve: string -> Option<string>)
    requires user != [] && AllClean(user) && DistinctKeys(user) && !HasKey(user, PROF) && !HasKey(user, PREFIX)
    requires ',' in logDir && resolve(Dirname(DerivedPrefix(logDir))).Some?
    ensures var first := Normalized(Print(user), logDir, resolve);
            first.Ok? && ParseConf(first.value.text) != Ok(Completed(user, logDir))
  {
    hide Print, ParseConf, AllClean, DistinctKeys, Directory, DerivedPrefix, Completed, Completes, HasKey, CleanValue;
    PrintParse(user);
    DirectoryFound(user, logDir, resolve);
    NormalizedReadsBack(Print(user), logDir, resolve);
    CommaInPrefix(logDir);
  }

  lemma DirectoryFound(user: seq<Entry>, logDir: string, resolve: string -> Option<string>)
    requires !HasKey(user, PROF) && !HasKey(user, PREFIX) && logDir != ""
    requires resolve(Dirname(DerivedPrefix(logDir))).Some?
    ensures Directory(user, logDir, resolve).Ok?
  {
    hide Dirname, HasKey;
    var prefix := DerivedPrefix(logDir);
    assert prefix[|prefix| - 18] == '/';
    DirnameEmpty(prefix);
  }

  lemma CommaInPrefix(logDir: string)
    requires ',' in logDir
    ensures !CleanValue(DerivedPrefix(logDir))
  {
  }

  // ----- what is refused, and why -----

  /** What is wrong with one option, if anything is, at its place in the list. */
  ghost function Complaint(item: string, position: nat): Option<ConfError> {
    var t := Strip(item);
    if t == "" then Some(EmptyOption(position))
    else if forall i :: 0 <= i < |t| ==> t[i] != ':' then Some(NotKeyValue(position))
    else if HalfMissing(t) then Some(MissingPart(position))
    else None
  }

  lemma FirstColon(t: string, i: nat)
    requires ':' in t && i < |t| && t[i] == ':' && ':' !in t[..i]
    ensures i == IndexOf(t, ':')
  {
    var k := IndexOf(t, ':');
    assert forall j :: 0 <= j < i ==> t[j] in t[..i];
    assert forall j :: 0 <= j < k ==> t[j] in t[..k];
  }

  /** The key or the value around the first colon is missing. */
  ghost predicate HalfMissing(t: string) {
    exists i :: 0 <= i < |t| && t[i] == ':' && ':' !in t[..i] && (Strip(t[..i]) == "" || Strip(t[i + 1..]) == "")
  }

  lemma HalfMissingIs(t: string)
    requires ':' in t
    ensures var k := IndexOf(t, ':'); HalfMissing(t) <==> Strip(t[..k]) == "" || Strip(t[k + 1..]) == ""
  {
    hide Strip;
    if i :| 0 <= i < |t| && t[i] == ':' && ':' !in t[..i] && (Strip(t[..i]) == "" || Strip(t[i + 1..]) == "") {
      FirstColon(t, i);
    }
  }

  lemma ComplaintIs(item: string, position: nat)
    ensures match ParseItem(item, position)
            case Err(e) => Complaint(item, position) == Some(e)
            case Ok(_) => Complaint(item, position).None?
  {
    hide Strip, IndexOf, HalfMissing;
    var t := Strip(item);
    if ':' in t {
      HalfMissingIs(t);
    }
  }

  /** After good options, the first bad one is reported with its kind and its place, counted from one;
      and an option whose key has been given before is reported by that key. */
  lemma BadOption(good: seq<Entry>, bad: string, rest: seq<string>)
    requires AllClean(good) && DistinctKeys(good)
    ensures var r := ParseItems(PrintEntries(good) + ([bad] + rest), 1, []);
            match ParseItem(bad, |good| + 1)
            case Err(_) => Complaint(bad, |good| + 1).Some? && r == Err(Complaint(bad, |good| + 1).value)
            case Ok(entry) => HasKey(good, entry.key) ==> r == Err(Duplicate(entry.key))
  {
    hide ParseItem, Complaint, AllClean, DistinctKeys;
    ComplaintIs(bad, |good| + 1);
    GoodThenMore(good, 0, [bad] + rest);
    assert good[..0] == [] && PrintEntries(good)[0..] == PrintEntries(good);
    assert ([bad] + rest)[1..] == rest;
  }

  /** What normalising does with options that could be read, case by case, in this order: a `prof` that
      is not true; no prefix and no log directory; a prefix without a directory; a directory the path
      check refuses; and otherwise the directory it resolves to, and whose prefix it was. */
  lemma NormalizedCases(conf: string, logDir: string, resolve: string -> Option<string>)
    requires ParseConf(conf).Ok?
    ensures var user, r := ParseConf(conf).value, Normalized(conf, logDir, resolve);
            var own := HasKey(user, "prof_prefix");
            if exists i :: 0 <= i < |user| && user[i].key == "prof" && !SaysTrue(user[i].value) then r == Err(ProfNotTrue)
            else if !own && logDir == "" then r == Err(NoLogDir)
            else
              var prefix := if own then Lookup(user, "prof_prefix").value else DerivedPrefix(logDir);
              if '/' !in prefix then r == Err(PrefixWithoutDirectory)
              else if resolve(Dirname(prefix)).None? then r == Err(UnsafeDirectory)
              else
                && r.Ok? && Some(r.value.parent) == resolve(Dirname(prefix))
                && r.value.source == (if own then FromUser else FromLogDir)
  {
    hide ParseConf, Lookup, Dirname, DerivedPrefix, Print, Completed, SaysTrue;
    ParsedConfIsClean(conf);
    var user := ParseConf(conf).value;
    ProfCases(user);
    if HasKey(user, "prof_prefix") || logDir != "" {
      DirnameEmpty(ChosenPrefix(user, logDir));
    }
  }

  lemma ProfCases(user: seq<Entry>)
    requires DistinctKeys(user)
    ensures ProfAccepted(user) <==> !exists i :: 0 <= i < |user| && user[i].key == "prof" && !SaysTrue(user[i].value)
  {
    hide SaysTrue, ProfAccepted;
    forall i: nat | i < |user| && user[i].key == "prof" ensures ProfAccepted(user) <==> SaysTrue(user[i].value) {
      ProfMustBeTrue(user, i);
    }
    if forall i :: 0 <= i < |user| ==> user[i].key != "prof" {
      ProfMayBeMissing(user);
    }
  }

  // ----- the loop of the source -----

  /** The dictionary `values` and the list `entries` that the source keeps side by side. */
  ghost predicate Mirrors(values: map<string, string>, entries: seq<Entry>) {
    && DistinctKeys(entries)
    && (forall i :: 0 <= i < |entries| ==> entries[i].key in values && values[entries[i].key] == entries[i].value)
    && (forall key :: key in values ==> HasKey(entries, key))
  }

  lemma MirrorsLookup(values: map<string, string>, entries: seq<Entry>, key: string)
    requires Mirrors(values, entries)
    ensures Lookup(entries, key) == if key in values then Some(values[key]) else None
  {
    if key in values {
      var i :| 0 <= i < |entries| && entries[i].key == key;
      LookupIs(entries, i);
    }
  }

  lemma MirrorsAppend(values: map<string, string>, entries: seq<Entry>, entry: Entry)
    requires Mirrors(values, entries) && entry.key !in values
    ensures Mirrors(values[entry.key := entry.value], entries + [entry])
  {
    var v, e := values[entry.key := entry.value], entries + [entry];
    forall key | key in v ensures HasKey(e, key) {
      if key == entry.key {
        assert e[|entries|].key == key;
      } else {
        var i :| 0 <= i < |entries| && entries[i].key == key;
        assert e[i].key == key;
      }
    }
  }

  /** The loop of the source, filling `entries` and `values`. */
  method ParseOptions(conf: string) returns (r: Result<(seq<Entry>, map<string, string>), ConfError>)
    ensures match r
            case Err(e) => ParseConf(conf) == Err(e)
            case Ok((entries, values)) => ParseConf(conf) == Ok(entries) && Mirrors(values, entries)
  {
    if Strip(conf) == "" {
      return Err(Empty);
    }
    var items := Split(conf, ',');
    var entries: seq<Entry> := [];
    var values: map<string, string> := map[];
    var i := 0;
    while i < |items|
      invariant 0 <= i <= |items|
      invariant ParseItems(items[i..], i + 1, entries) == ParseConf(conf)
      invariant Mirrors(values, entries)
    {
      var parsed := ParseItem(items[i], i + 1);
      assert items[i..][1..] == items[i + 1..];
      if parsed.Err? {
        return Err(parsed.error);
      }
      var entry := parsed.value;
      MirrorsLookup(values, entries, entry.key);
      if entry.key in values {
        return Err(Duplicate(entry.key));
      }
      MirrorsAppend(values, entries, entry);
      values := values[entry.key := entry.value];
      entries := entries + [entry];
      i := i + 1;
    }
    assert items[i..] == [];
    return Ok((entries, values));
  }

  /** `prof` set to true in place, or appended; None when it was given and is not true. */
  method ForceProfIn(entries: seq<Entry>, values: map<string, string>) returns (r: Option<seq<Entry>>)
    requires Mirrors(values, entries)
    ensures r == if ProfAccepted(entries) then Some(ForceProf(entries)) else None
  {
    MirrorsLookup(values, entries, PROF);
    if PROF in values {
      if Lower(values[PROF]) != "true" {
        return None;
      }
      return Some(seq(|entries|, j requires 0 <= j < |entries| =>
                        if entries[j].key == PROF then Entry(PROF, "true") else entries[j]));
    }
    return Some(entries + [Entry(PROF, "true")]);
  }

  /** The normaliser as written. */
  method Normalize(conf: string, logDir: string, resolve: string -> Option<string>)
    returns (r: Result<Profile, ConfError>)
    ensures r == Normalized(conf, logDir, resolve)
  {
    var parsed := ParseOptions(conf);
    if parsed.Err? {
      return Err(parsed.error);
    }
    var (user, values) := parsed.value;
    var forced := ForceProfIn(user, values);
    if forced.None? {
      return Err(ProfNotTrue);
    }
    var entries := forced.value;
    MirrorsLookup(values, user, PREFIX);
    var prefix, source := "", FromUser;
    if PREFIX in values {
      prefix := values[PREFIX];
    } else {
      if logDir == "" {
        return Err(NoLogDir);
      }
      prefix, source := DerivedPrefix(logDir), FromLogDir;
      entries := entries + [Entry(PREFIX, prefix)];
    }
    assert prefix == ChosenPrefix(user, logDir) && entries == Completed(user, logDir);
    var parent := DirectoryOf(prefix, resolve);
    if parent.Err? {
      return Err(parent.error);
    }
    return Ok(Profile(Print(entries), parent.value, source));
  }
}
