/** The set of log files that messages are routed to. */
module RoutedLogs {
  import opened LogRouting
  import opened Messages
  import opened Options

  /** A log file that is in use; one that could not be opened accepts nothing. */
  datatype UsedFile = UsedFile(settings: Settings, isOpen: bool)

  /** `logs` holds, for each path, the messages that its file has accepted so far. */
  datatype Router = Router(
    directory: string, configs: seq<LogFileConfig>, cache: Cache,
    files: map<string, UsedFile>, logs: map<string, seq<Message>>)

  const EMPTY: Router := Router("", [], map[], map[], map[])

  function LogOf(r: Router, path: string): seq<Message> {
    if path in r.logs then r.logs[path] else []
  }

  function ValidConfigs(logs: seq<LogFileConfig>): seq<LogFileConfig> {
    if logs == [] then [] else
      ValidConfigs(logs[..|logs| - 1]) + (if logs[|logs| - 1].filter.isValid then [logs[|logs| - 1]] else [])
  }

  ghost predicate StrictlyIncreasing(at: seq<nat>) {
    forall i, j :: 0 <= i < j < |at| ==> at[i] < at[j]
  }

  /** `used` holds exactly the entries of `logs` with a valid filter, each as often as it stands
      there and in that order: the one at `at[i]` comes `i`-th. */
  ghost predicate AreTheValid(used: seq<LogFileConfig>, logs: seq<LogFileConfig>, at: seq<nat>) {
    && |at| == |used| && StrictlyIncreasing(at)
    && (forall i :: 0 <= i < |at| ==> at[i] < |logs| && logs[at[i]].filter.isValid && used[i] == logs[at[i]])
    && (forall k :: 0 <= k < |logs| && logs[k].filter.isValid ==> k in at)
  }

  lemma OneMoreEntry(used: seq<LogFileConfig>, front: seq<LogFileConfig>, at: seq<nat>, last: LogFileConfig)
    requires AreTheValid(used, front, at)
    ensures !last.filter.isValid ==> AreTheValid(used, front + [last], at)
    ensures last.filter.isValid ==> AreTheValid(used + [last], front + [last], at + [|front|])
  {
    var logs, more := front + [last], at + [|front|];
    assert forall i :: 0 <= i < |at| ==> more[i] == at[i];
    assert more[|at|] == |front|;
    forall k | 0 <= k < |logs| && logs[k].filter.isValid && k < |front| ensures k in at && k in more {
      assert front[k].filter.isValid;
    }
  }

  lemma {:induction false} ValidConfigsAre(logs: seq<LogFileConfig>) returns (at: seq<nat>)
    ensures AreTheValid(ValidConfigs(logs), logs, at)
  {
    at := [];
    if logs != [] {
      var n := |logs| - 1;
      at := ValidConfigsAre(logs[..n]);
      OneMoreEntry(ValidConfigs(logs[..n]), logs[..n], at, logs[n]);
      assert logs == logs[..n] + [logs[n]];
      at := if logs[n].filter.isValid then at + [n] else at;
    }
  }

  /** Configurations whose filter is invalid are left out. */
  function Configured(r: Router, config: FilesConfig): Router {
    Router(config.logDirectory, ValidConfigs(config.logs), map[], map[], r.logs)
  }

  function Closed(r: Router): Router {
    r.(files := map[])
  }

  /** `canOpen` says which files can be opened. */
  type Openable = string -> bool

  function FileFor(r: Router, route: Route, canOpen: Openable): UsedFile {
    if route.path in r.files then r.files[route.path] else UsedFile(route.settings, canOpen(route.path))
  }

  /** Appends to one file, which is opened when it is first used. */
  function Logged(r: Router, route: Route, m: Message, canOpen: Openable): Router {
    var file := FileFor(r, route, canOpen);
    r.(files := r.files[route.path := file],
       logs := if file.isOpen then r.logs[route.path := LogOf(r, route.path) + [m]] else r.logs)
  }

  function LoggedToAll(r: Router, routes: seq<Route>, m: Message, canOpen: Openable): Router {
    if routes == [] then r
    else Logged(LoggedToAll(r, routes[..|routes| - 1], m, canOpen), routes[|routes| - 1], m, canOpen)
  }

  function RoutesOf(r: Router, m: Message): Routes {
    RoutedByAll(r.directory, r.cache, r.configs, m)
  }

  function Processed(r: Router, m: Message, canOpen: Openable): Router {
    var routes := RoutesOf(r, m);
    LoggedToAll(r.(cache := routes.cache), routes.routes, m, canOpen)
  }

  // ------------------------------------------------------------------ one message

  /** Logging to different paths: each gets the message once if its file is open, in the file
      with the settings of its route if it was not in use, and no other log changes. */
  lemma {:induction false} EachPathOnce(r: Router, routes: seq<Route>, m: Message, canOpen: Openable, path: string)
    requires OncePerPath(routes)
    ensures var s := LoggedToAll(r, routes, m, canOpen);
      && s.directory == r.directory && s.configs == r.configs && s.cache == r.cache
      && (!HasRoute(routes, path) ==> LogOf(s, path) == LogOf(r, path))
      && (!HasRoute(routes, path) ==> (path in s.files <==> path in r.files))
      && (path in r.files ==> path in s.files && s.files[path] == r.files[path])
      && (HasRoute(routes, path) ==> path in s.files)
      && (HasRoute(routes, path) ==> LogOf(s, path) == LogOf(r, path) + if s.files[path].isOpen then [m] else [])
      && (forall i :: 0 <= i < |routes| && routes[i].path == path && path !in r.files ==>
            s.files[path] == UsedFile(routes[i].settings, canOpen(path)))
  {
    if routes != [] {
      var n := |routes| - 1;
      var front, last := routes[..n], routes[n];
      EachPathOnce(r, front, m, canOpen, path);
      HasRouteFront(routes, path);
    }
  }

  lemma HasRouteFront(routes: seq<Route>, path: string)
    requires routes != [] && OncePerPath(routes)
    ensures var front, last := routes[..|routes| - 1], routes[|routes| - 1];
      && (HasRoute(routes, path) <==> HasRoute(front, path) || last.path == path)
      && (last.path == path ==> !HasRoute(front, path))
  {}

  ghost predicate IsTarget(r: Router, m: Message, path: string) {
    exists k: nat :: LeadsTo(r.directory, r.configs, m, k, path)
  }

  /** The cache holds paths of messages that were seen, and the next one is alike to them. */
  ghost predicate CanRoute(r: Router, seen: set<Message>, m: Message) {
    CacheFrom(r.directory, r.cache, seen) && AlikeAll(seen, m)
  }

  lemma SeeingMore(r: Router, seen: set<Message>, m: Message)
    requires CanRoute(r, seen, m)
    ensures CanRoute(r, seen + {m}, m)
  {
    forall key | key in r.cache ensures IsEntry(r.directory, seen + {m}, key, r.cache[key]) {
      assert IsEntry(r.directory, seen, key, r.cache[key]);
    }
  }

  lemma TargetsAreRoutes(r: Router, seen: set<Message>, m: Message, path: string)
    requires CanRoute(r, seen, m)
    ensures HasRoute(RoutesOf(r, m).routes, path) <==> IsTarget(r, m, path)
    ensures OncePerPath(RoutesOf(r, m).routes)
    ensures CacheFrom(r.directory, RoutesOf(r, m).cache, seen + {m})
    ensures AreDirect(r.directory, r.configs, m, RoutesOf(r, m).routes)
  {
    var routes := RoutesOf(r, m).routes;
    SeeingMore(r, seen, m);
    RoutingIsDirect(r.directory, r.cache, r.configs, seen + {m}, m);
    if HasRoute(routes, path) {
      var i :| 0 <= i < |routes| && routes[i].path == path;
      assert HasSource(r.directory, r.configs, m, routes[i]);
    }
  }

  /** A message that is alike to those before it is appended once to each open file among the
      direct paths of the configurations that accept it, and to no other; a file not in use
      before gets the settings of the first configuration that leads to it. */
  lemma ProcessedDirectly(r: Router, seen: set<Message>, m: Message, canOpen: Openable, path: string)
    requires CanRoute(r, seen, m)
    ensures var s := Processed(r, m, canOpen);
      && CacheFrom(s.directory, s.cache, seen + {m}) && s.directory == r.directory && s.configs == r.configs
      && (path in s.files <==> path in r.files || IsTarget(r, m, path))
      && LogOf(s, path) == LogOf(r, path) + (if IsTarget(r, m, path) && s.files[path].isOpen then [m] else [])
      && (path in r.files ==> s.files[path] == r.files[path])
      && (path in s.files && path !in r.files ==>
            s.files[path].isOpen == canOpen(path)
            && exists k: nat :: IsFirstTo(r.directory, r.configs, m, k, path)
                             && r.configs[k].settings == s.files[path].settings)
  {
    var routes := RoutesOf(r, m);
    TargetsAreRoutes(r, seen, m, path);
    EachPathOnce(r.(cache := routes.cache), routes.routes, m, canOpen, path);
    if HasRoute(routes.routes, path) && path !in r.files {
      var i :| 0 <= i < |routes.routes| && routes.routes[i].path == path;
      assert HasSource(r.directory, r.configs, m, routes.routes[i]);
    }
  }

  // ------------------------------------------------------------------ every run

  datatype Operation = Configure(config: FilesConfig) | Process(message: Message) | Close

  function After(ops: seq<Operation>, canOpen: Openable): Router {
    if ops == [] then EMPTY else
      var r := After(ops[..|ops| - 1], canOpen);
      match ops[|ops| - 1]
      case Configure(config) => Configured(r, config)
      case Process(m) => Processed(r, m, canOpen)
      case Close => Closed(r)
  }

  /** The messages processed since the last configuration. */
  function SeenSince(ops: seq<Operation>): set<Message> {
    if ops == [] then {} else
      match ops[|ops| - 1]
      case Configure(_) => {}
      case Process(m) => SeenSince(ops[..|ops| - 1]) + {m}
      case Close => SeenSince(ops[..|ops| - 1])
  }

  /** Each message is alike to those since the last configuration before it. */
  ghost predicate NoneMistaken(ops: seq<Operation>) {
    ops == []
    || (var front, last := ops[..|ops| - 1], ops[|ops| - 1];
        NoneMistaken(front) && (last.Process? ==> AlikeAll(SeenSince(front), last.message)))
  }

  /** The configuration in force after the operations. */
  function InForce(ops: seq<Operation>): FilesConfig {
    if ops == [] then FilesConfig("", []) else
      match ops[|ops| - 1]
      case Configure(config) => config
      case _ => InForce(ops[..|ops| - 1])
  }

  /** The entry at `k` has a valid filter, accepts the message, and gives it this path. */
  ghost predicate Sends(config: FilesConfig, m: Message, k: nat, path: string) {
    && k < |config.logs| && config.logs[k].filter.isValid && config.logs[k].filter.accepts(m) == Some(true)
    && DirectPath(config.logDirectory, m, config.logs[k].pathPattern) == path
  }

  /** And no entry before it does. */
  ghost predicate SendsFirst(config: FilesConfig, m: Message, k: nat, path: string) {
    Sends(config, m, k, path) && forall l: nat :: l < k ==> !Sends(config, m, l, path)
  }

  lemma LeadsToIsSends(config: FilesConfig, at: seq<nat>, m: Message, i: nat, path: string)
    requires AreTheValid(ValidConfigs(config.logs), config.logs, at) && i < |at|
    ensures LeadsTo(config.logDirectory, ValidConfigs(config.logs), m, i, path) <==> Sends(config, m, at[i], path)
  {}

  /** Routing by the valid entries is routing by the configuration as it stands. */
  lemma TargetIsSent(config: FilesConfig, m: Message, path: string)
    ensures (exists k: nat :: LeadsTo(config.logDirectory, ValidConfigs(config.logs), m, k, path))
       <==> exists k: nat :: Sends(config, m, k, path)
  {
    var at := ValidConfigsAre(config.logs);
    if k: nat :| LeadsTo(config.logDirectory, ValidConfigs(config.logs), m, k, path) {
      LeadsToIsSends(config, at, m, k, path);
    }
    if k: nat :| Sends(config, m, k, path) {
      assert k in at;
      var i: nat :| i < |at| && at[i] == k;
      LeadsToIsSends(config, at, m, i, path);
    }
  }

  lemma FirstIsSentFirst(config: FilesConfig, m: Message, i: nat, path: string) returns (k: nat)
    requires IsFirstTo(config.logDirectory, ValidConfigs(config.logs), m, i, path)
    ensures SendsFirst(config, m, k, path) && config.logs[k] == ValidConfigs(config.logs)[i]
  {
    var at := ValidConfigsAre(config.logs);
    k := at[i];
    LeadsToIsSends(config, at, m, i, path);
    forall l: nat | l < k ensures !Sends(config, m, l, path) {
      if Sends(config, m, l, path) {
        assert l in at;
        var j: nat :| j < |at| && at[j] == l;
        LeadsToIsSends(config, at, m, j, path);
      }
    }
  }

  /** The messages for a path, each of them once, found without cache and without files. */
  ghost function MessagesFor(ops: seq<Operation>, path: string): seq<Message> {
    if ops == [] then [] else
      var front, last := ops[..|ops| - 1], ops[|ops| - 1];
      MessagesFor(front, path)
      + if last.Process? && exists k: nat :: Sends(InForce(front), last.message, k, path)
        then [last.message] else []
  }

  lemma {:induction false} RunsAgree(ops: seq<Operation>, canOpen: Openable)
    requires NoneMistaken(ops)
    ensures var r := After(ops, canOpen);
      && CacheFrom(r.directory, r.cache, SeenSince(ops))
      && r.directory == InForce(ops).logDirectory && r.configs == ValidConfigs(InForce(ops).logs)
  {
    if ops != [] {
      var front, last := ops[..|ops| - 1], ops[|ops| - 1];
      RunsAgree(front, canOpen);
      if last.Process? {
        ProcessedDirectly(After(front, canOpen), SeenSince(front), last.message, canOpen, "");
      }
    }
  }

  lemma {:induction false} FilesStayOpen(ops: seq<Operation>, canOpen: Openable, path: string)
    requires NoneMistaken(ops) && forall p :: canOpen(p)
    ensures path in After(ops, canOpen).files ==> After(ops, canOpen).files[path].isOpen
  {
    if ops != [] {
      var front, last := ops[..|ops| - 1], ops[|ops| - 1];
      FilesStayOpen(front, canOpen, path);
      RunsAgree(front, canOpen);
      if last.Process? {
        ProcessedDirectly(After(front, canOpen), SeenSince(front), last.message, canOpen, path);
      }
    }
  }

  /** After any sequence of operations in which no message is mistaken for another, if files can
      be opened, the log of each path holds exactly the messages for that path, each once, in
      order. */
  lemma {:induction false} LogsHoldTheirMessages(ops: seq<Operation>, canOpen: Openable, path: string)
    requires NoneMistaken(ops) && forall p :: canOpen(p)
    ensures LogOf(After(ops, canOpen), path) == MessagesFor(ops, path)
  {
    if ops != [] {
      var front, last := ops[..|ops| - 1], ops[|ops| - 1];
      var r := After(front, canOpen);
      LogsHoldTheirMessages(front, canOpen, path);
      RunsAgree(front, canOpen);
      if last.Process? {
        ProcessedDirectly(r, SeenSince(front), last.message, canOpen, path);
        TargetIsSent(InForce(front), last.message, path);
        FilesStayOpen(ops, canOpen, path);
      }
    }
  }

  /** In any such run, a file that a message makes has the settings of the first entry of the
      configuration that sends the message there. */
  lemma NewFilesAreFirst(ops: seq<Operation>, m: Message, canOpen: Openable, path: string)
    requires NoneMistaken(ops) && AlikeAll(SeenSince(ops), m)
    requires path !in After(ops, canOpen).files && path in Processed(After(ops, canOpen), m, canOpen).files
    ensures exists k: nat ::
      SendsFirst(InForce(ops), m, k, path)
      && Processed(After(ops, canOpen), m, canOpen).files[path] == UsedFile(InForce(ops).logs[k].settings, canOpen(path))
  {
    var r := After(ops, canOpen);
    RunsAgree(ops, canOpen);
    ProcessedDirectly(r, SeenSince(ops), m, canOpen, path);
    var i: nat :| IsFirstTo(r.directory, r.configs, m, i, path)
               && r.configs[i].settings == Processed(r, m, canOpen).files[path].settings;
    var k := FirstIsSentFirst(InForce(ops), m, i, path);
  }

  /** All the routes' files are open. */
  ghost predicate AllAccept(files: map<string, UsedFile>, routes: seq<Route>) {
    forall i :: 0 <= i < |routes| ==> routes[i].path in files && files[routes[i].path].isOpen
  }

  ghost predicate AllUsed(files: map<string, UsedFile>, routes: seq<Route>) {
    forall i :: 0 <= i < |routes| ==> routes[i].path in files
  }

  lemma OneMoreLogged(r: Router, routes: seq<Route>, i: nat, m: Message, canOpen: Openable)
    requires i < |routes|
    ensures LoggedToAll(r, routes[..i + 1], m, canOpen)
         == Logged(LoggedToAll(r, routes[..i], m, canOpen), routes[i], m, canOpen)
  {
    assert routes[..i + 1][..i] == routes[..i];
  }

  lemma OneMoreAccepts(before: map<string, UsedFile>, after: map<string, UsedFile>, routes: seq<Route>, i: nat)
    requires i < |routes| && AllUsed(before, routes[..i]) && routes[i].path in after
    requires forall path :: path in before ==> path in after && after[path] == before[path]
    ensures AllUsed(after, routes[..i + 1])
    ensures AllAccept(after, routes[..i + 1]) <==> AllAccept(before, routes[..i]) && after[routes[i].path].isOpen
  {}

  // ------------------------------------------------------------------ in place

  class LogFiles {
    var logDirectory: string
    var filteredLogConfigs: seq<LogFileConfig>
    var logPathCache: map<CacheKey, string>
    var logFiles: map<string, UsedFile>
    /** What the files on disk were given. */
    var logs: map<string, seq<Message>>

    constructor ()
      ensures View() == EMPTY
    {
      logDirectory, filteredLogConfigs, logPathCache, logFiles, logs := "", [], map[], map[], map[];
    }

    function View(): Router
      reads this
    {
      Router(logDirectory, filteredLogConfigs, logPathCache, logFiles, logs)
    }

    /** Takes over exactly the entries with a valid filter, in their order. */
    method Configure(config: FilesConfig) returns (ghost at: seq<nat>)
      modifies this
      ensures View() == Configured(old(View()), config)
      ensures AreTheValid(filteredLogConfigs, config.logs, at)
      ensures logDirectory == config.logDirectory && logPathCache == map[] && logFiles == map[] && logs == old(logs)
    {
      logFiles, filteredLogConfigs, logPathCache := map[], [], map[];
      logDirectory := config.logDirectory;
      for i := 0 to |config.logs|
        invariant filteredLogConfigs == ValidConfigs(config.logs[..i])
        invariant View() == Router(config.logDirectory, filteredLogConfigs, map[], map[], old(logs))
      {
        assert config.logs[..i + 1][..i] == config.logs[..i];
        if config.logs[i].filter.isValid {
          filteredLogConfigs := filteredLogConfigs + [config.logs[i]];
        }
      }
      assert config.logs[..|config.logs|] == config.logs;
      at := ValidConfigsAre(config.logs);
    }

    method Close()
      modifies this`logFiles
      ensures View() == Closed(old(View())) && logFiles == map[]
    {
      logFiles := map[];
    }

    method LogPathFromCache(m: Message, config: LogFileConfig) returns (path: string)
      ensures path == var key := KeyOf(m, config.pathPattern); if key in logPathCache then logPathCache[key] else ""
    {
      var cacheKey := KeyOf(m, config.pathPattern);
      path := if cacheKey in logPathCache then logPathCache[cacheKey] else "";
    }

    method LogPath(m: Message, config: LogFileConfig) returns (path: string)
      modifies this`logPathCache
      ensures path == PathOf(logDirectory, old(logPathCache), m, config.pathPattern)
      ensures logPathCache == Remembered(logDirectory, old(logPathCache), m, config.pathPattern)
    {
      path := LogPathFromCache(m, config);
      if path == "" {
        path := DirectPath(logDirectory, m, config.pathPattern);
        logPathCache := logPathCache[KeyOf(m, config.pathPattern) := path];
      }
    }

    method LogPathConfigs(m: Message) returns (routes: seq<Route>)
      modifies this`logPathCache
      ensures Routes(logPathCache, routes) == RoutesOf(old(View()), m)
    {
      routes := [];
      for i := 0 to |filteredLogConfigs|
        invariant Routes(logPathCache, routes)
               == RoutedByAll(logDirectory, old(logPathCache), filteredLogConfigs[..i], m)
      {
        var config := filteredLogConfigs[i];
        assert filteredLogConfigs[..i + 1][..i] == filteredLogConfigs[..i];
        if config.filter.accepts(m) == Some(true) {
          var path := LogPath(m, config);
          if !HasRoute(routes, path) {
            routes := routes + [Route(path, config.settings)];
          }
        }
      }
      assert filteredLogConfigs[..|filteredLogConfigs|] == filteredLogConfigs;
    }

    method Process(m: Message, canOpen: Openable) returns (rc: bool)
      modifies this
      ensures View() == Processed(old(View()), m, canOpen)
      ensures rc <==> AllAccept(logFiles, RoutesOf(old(View()), m).routes)
    {
      var routes := LogPathConfigs(m);
      rc := AppendToAll(routes, m, canOpen);
    }

    method AppendToAll(routes: seq<Route>, m: Message, canOpen: Openable) returns (rc: bool)
      modifies this`logFiles, this`logs
      ensures View() == LoggedToAll(old(View()), routes, m, canOpen)
      ensures rc <==> AllAccept(logFiles, routes)
    {
      rc := true;
      for i := 0 to |routes|
        invariant View() == LoggedToAll(old(View()), routes[..i], m, canOpen)
        invariant AllUsed(logFiles, routes[..i]) && (rc <==> AllAccept(logFiles, routes[..i]))
      {
        ghost var before := logFiles;
        var ok := Append(routes[i], m, canOpen);
        OneMoreLogged(old(View()), routes, i, m, canOpen);
        OneMoreAccepts(before, logFiles, routes, i);
        rc := rc && ok;
      }
      assert routes[..|routes|] == routes;
    }

    /** Hands the message to the route's file, which is opened when it is not in use. */
    method Append(route: Route, m: Message, canOpen: Openable) returns (rc: bool)
      modifies this`logFiles, this`logs
      ensures View() == Logged(old(View()), route, m, canOpen)
      ensures route.path in logFiles && rc == logFiles[route.path].isOpen
      ensures forall path :: path in old(logFiles) ==> path in logFiles && logFiles[path] == old(logFiles[path])
    {
      if route.path !in logFiles {
        logFiles := logFiles[route.path := UsedFile(route.settings, canOpen(route.path))];
      }
      rc := logFiles[route.path].isOpen;
      if rc {
        logs := logs[route.path := (if route.path in logs then logs[route.path] else []) + [m]];
      }
    }
  }
}
