/** Routing messages to log files by their paths, which are kept in a cache. */
module LogRouting {
  import opened Messages
  import opened Options
  import opened RollIntervals
  import TextForm

  datatype Settings = Settings(
    permissions: nat, period: RollPeriod, size: int, keep: uint32, binary: bool,
    user: string, group: string, compress: string)

  /** A filter is parsed for each message, and accepts it only if that succeeds. */
  datatype Filter = Filter(isValid: bool, accepts: Message -> Option<bool>)

  datatype LogFileConfig = LogFileConfig(filter: Filter, pathPattern: string, settings: Settings)

  datatype FilesConfig = FilesConfig(logDirectory: string, logs: seq<LogFileConfig>)

  predicate Accepts(config: LogFileConfig, m: Message) {
    config.filter.accepts(m) == Some(true)
  }

  // ------------------------------------------------------------------ cache keys

  datatype CacheKey = CacheKey(facilitySeverity: bv8, hostname: string, appname: string, pathPattern: string)

  function Code(facility: bv8, severity: bv8): bv8 {
    facility | severity
  }

  function KeyOf(m: Message, pattern: string): CacheKey {
    CacheKey(Code(m.header.facility, m.header.severity), m.header.origin.hostname, m.header.origin.appname, pattern)
  }

  /** Keys are equal when the codes, the names and the patterns are. */
  lemma KeysEqual(m: Message, n: Message, p: string, q: string)
    ensures KeyOf(m, p) == KeyOf(n, q) <==>
      && (m.header.facility | m.header.severity) == (n.header.facility | n.header.severity)
      && m.header.origin.hostname == n.header.origin.hostname
      && m.header.origin.appname == n.header.origin.appname && p == q
  {
    assert KeyOf(m, p).facilitySeverity == (m.header.facility | m.header.severity);
    assert KeyOf(n, q).facilitySeverity == (n.header.facility | n.header.severity);
  }

  /** The order of strings. */
  predicate Before(a: string, b: string) {
    b != "" && (a == "" || a[0] < b[0] || (a[0] == b[0] && Before(a[1..], b[1..])))
  }

  lemma {:induction false} BeforeIsTotal(a: string, b: string)
    ensures !Before(a, a)
    ensures Before(a, b) ==> !Before(b, a)
    ensures !Before(a, b) && !Before(b, a) <==> a == b
    decreases |a|
  {
    if a != "" && b != "" {
      BeforeIsTotal(a[1..], b[1..]);
      BeforeIsTotal(a[1..], a[1..]);
      assert a == [a[0]] + a[1..] && b == [b[0]] + b[1..];
    } else if a != "" {
      BeforeIsTotal(a[1..], a[1..]);
    }
  }

  lemma {:induction false} BeforeIsTransitive(a: string, b: string, c: string)
    requires Before(a, b) && Before(b, c)
    ensures Before(a, c)
    decreases |a|
  {
    if a != "" && a[0] == b[0] == c[0] {
      BeforeIsTransitive(a[1..], b[1..], c[1..]);
    }
  }

  /** `operator<` of the keys. */
  predicate Less(k: CacheKey, l: CacheKey) {
    if k.facilitySeverity < l.facilitySeverity then true
    else if k.facilitySeverity == l.facilitySeverity then
      if Before(k.hostname, l.hostname) then true
      else if k.hostname == l.hostname then
        if Before(k.appname, l.appname) then true
        else k.appname == l.appname && Before(k.pathPattern, l.pathPattern)
      else false
    else false
  }

  /** The order of the keys is strict and total, and only equal keys are neither before nor
      after each other: the map finds a key exactly if that key was stored. */
  lemma KeysAreOrdered(k: CacheKey, l: CacheKey, m: CacheKey)
    ensures !Less(k, k)
    ensures Less(k, l) && Less(l, m) ==> Less(k, m)
    ensures !Less(k, l) && !Less(l, k) <==> k == l
  {
    BeforeIsTotal(k.hostname, l.hostname);
    BeforeIsTotal(k.appname, l.appname);
    BeforeIsTotal(k.pathPattern, l.pathPattern);
    if Less(k, l) && Less(l, m) {
      LessIsTransitive(k, l, m);
    }
  }

  lemma LessIsTransitive(k: CacheKey, l: CacheKey, m: CacheKey)
    requires Less(k, l) && Less(l, m)
    ensures Less(k, m)
  {
    if Before(k.hostname, l.hostname) && Before(l.hostname, m.hostname) {
      BeforeIsTransitive(k.hostname, l.hostname, m.hostname);
    }
    if Before(k.appname, l.appname) && Before(l.appname, m.appname) {
      BeforeIsTransitive(k.appname, l.appname, m.appname);
    }
    if Before(k.pathPattern, l.pathPattern) && Before(l.pathPattern, m.pathPattern) {
      BeforeIsTransitive(k.pathPattern, l.pathPattern, m.pathPattern);
    }
  }

  /** Two facilities have severities with which their codes are the same if, and only if, they
      differ in the three lowest bits at most; the wire lets such facilities through. */
  lemma FacilitiesCollide(f: bv8, g: bv8)
    ensures (exists s, t :: IsSeverity(s) && IsSeverity(t) && Code(f, s) == Code(g, t)) <==> f & 0xf8 == g & 0xf8
  {
    if f & 0xf8 == g & 0xf8 {
      assert f | DEBUG == g | DEBUG;
      assert IsSeverity(DEBUG) && Code(f, DEBUG) == Code(g, DEBUG);
    }
    forall s, t | IsSeverity(s) && IsSeverity(t) && Code(f, s) == Code(g, t) ensures f & 0xf8 == g & 0xf8 {
      assert (f | s) & 0xf8 == f & 0xf8 && (g | t) & 0xf8 == g & 0xf8;
    }
  }

  // ------------------------------------------------------------------ paths

  /** The pattern with `%H`, `%I` and `%F` replaced. */
  function Replaced(pattern: string, host: string, app: string, facility: string): string {
    if pattern == "" then ""
    else if |pattern| > 1 && pattern[0] == '%' && pattern[1] in "HIF" then
      (if pattern[1] == 'H' then host else if pattern[1] == 'I' then app else facility)
      + Replaced(pattern[2..], host, app, facility)
    else [pattern[0]] + Replaced(pattern[1..], host, app, facility)
  }

  lemma EachDirective(host: string, app: string, facility: string)
    ensures Replaced("%H", host, app, facility) == host
    ensures Replaced("%I", host, app, facility) == app
    ensures Replaced("%F", host, app, facility) == facility
  {
    assert Replaced("", host, app, facility) == "";
    assert "%H"[2..] == "%I"[2..] == "%F"[2..] == "";
  }

  /** Any other percent sign stays. */
  lemma OtherPercent(rest: string, host: string, app: string, facility: string)
    requires rest == "" || (rest[0] != 'H' && rest[0] != 'I' && rest[0] != 'F')
    ensures Replaced("%" + rest, host, app, facility) == "%" + Replaced(rest, host, app, facility)
  {
    assert ("%" + rest)[1..] == rest;
  }

  /** A pattern without `%` is its own replacement, as `LogPath` takes for granted. */
  lemma {:induction false} NothingToReplace(pattern: string, host: string, app: string, facility: string)
    requires '%' !in pattern
    ensures Replaced(pattern, host, app, facility) == pattern
  {
    if pattern != "" {
      assert pattern[0] in pattern;
      NothingToReplace(pattern[1..], host, app, facility);
    }
  }

  /** Replacing goes part by part, wherever a pattern is cut but after a `%`. */
  lemma {:induction false} ReplacedInParts(a: string, b: string, host: string, app: string, facility: string)
    requires a == "" || a[|a| - 1] != '%'
    ensures Replaced(a + b, host, app, facility) == Replaced(a, host, app, facility) + Replaced(b, host, app, facility)
  {
    if a == "" {
      assert a + b == b;
    } else if |a| > 1 && a[0] == '%' && a[1] in "HIF" {
      assert (a + b)[2..] == a[2..] + b;
      ReplacedInParts(a[2..], b, host, app, facility);
    } else {
      assert (a + b)[1..] == a[1..] + b;
      ReplacedInParts(a[1..], b, host, app, facility);
    }
  }

  /** The path of a message's log file, without the cache. */
  function DirectPath(directory: string, m: Message, pattern: string): (path: string)
    ensures path != ""
  {
    var origin := m.header.origin;
    if pattern == "" then "logs/" + origin.hostname + "/" + origin.appname
    else
      var p := if '%' !in pattern then pattern
               else Replaced(pattern, origin.hostname, origin.appname, TextForm.FacilityName(m.header.facility));
      if p != "" && p[0] == '/' then p else directory + "/" + p
  }

  /** A pattern gives an absolute path, or one in the log directory; an empty pattern gives a path
      below `logs`. */
  lemma PathsAreRooted(directory: string, m: Message, pattern: string)
    ensures var path, origin := DirectPath(directory, m, pattern), m.header.origin;
      if pattern == "" then path == "logs/" + origin.hostname + "/" + origin.appname
      else
        var p := Replaced(pattern, origin.hostname, origin.appname, TextForm.FacilityName(m.header.facility));
        (p != "" && p[0] == '/' && path == p) || ((p == "" || p[0] != '/') && path == directory + "/" + p)
  {
    var origin := m.header.origin;
    if '%' !in pattern {
      NothingToReplace(pattern, origin.hostname, origin.appname, TextForm.FacilityName(m.header.facility));
    }
  }

  type Cache = map<CacheKey, string>

  function PathOf(directory: string, cache: Cache, m: Message, pattern: string): string {
    var key := KeyOf(m, pattern);
    if key in cache && cache[key] != "" then cache[key] else DirectPath(directory, m, pattern)
  }

  function Remembered(directory: string, cache: Cache, m: Message, pattern: string): Cache {
    cache[KeyOf(m, pattern) := PathOf(directory, cache, m, pattern)]
  }

  // ------------------------------------------------------------------ messages with one key

  /** Messages that have the same cache keys have the same facility name. */
  predicate Alike(m: Message, n: Message) {
    KeyOf(m, "") == KeyOf(n, "")
    ==> TextForm.FacilityName(m.header.facility) == TextForm.FacilityName(n.header.facility)
  }

  ghost predicate AlikeAll(seen: set<Message>, m: Message) {
    forall n :: n in seen ==> Alike(n, m)
  }

  lemma OthersAreUnknown(f: bv8)
    ensures TextForm.FacilityName(f) == "unknown" <==> !IsFacility(f)
  {
    if IsFacility(f) {
      TextForm.FacilityRoundTrip(f);
      UnknownIsNobody();
      KnownName(f, TextForm.FacilityName(f));
    } else {
      NobodysName(f);
    }
  }

  lemma NobodysName(f: bv8)
    requires !IsFacility(f)
    ensures TextForm.FacilityName(f) == "unknown"
  {}

  lemma KnownName(f: bv8, name: string)
    requires TextForm.FacilityValue(name) == f && TextForm.FacilityValue("unknown") == LOCAL7
    requires f == LOCAL7 ==> name != "unknown"
    ensures name != "unknown"
  {}

  lemma UnknownIsNobody()
    ensures TextForm.FacilityValue("unknown") == LOCAL7 && TextForm.FacilityName(LOCAL7) != "unknown"
  {
    assert |TextForm.FacilityName(LOCAL7)| == 6 && |"unknown"| == 7;
  }

  lemma SameUpperBits(f: bv8, g: bv8)
    requires f & 0xf8 == g & 0xf8 && f & 7 == 0 && g & 7 == 0
    ensures f == g
  {}

  /** What it takes, with the severities that there are: messages with the same key are both of
      the enumeration's facilities, or neither is. */
  lemma AlikeByFacility(m: Message, n: Message)
    requires IsSeverity(m.header.severity) && IsSeverity(n.header.severity)
    ensures Alike(m, n)
       <==> (KeyOf(m, "") == KeyOf(n, "") ==> (IsFacility(m.header.facility) <==> IsFacility(n.header.facility)))
  {
    var f, g := m.header.facility, n.header.facility;
    OthersAreUnknown(f);
    OthersAreUnknown(g);
    if KeyOf(m, "") == KeyOf(n, "") && IsFacility(f) && IsFacility(g) {
      FacilitiesCollide(f, g);
      SameUpperBits(f, g);
    }
  }

  lemma SameKeySamePath(directory: string, m: Message, n: Message, p: string, q: string)
    requires Alike(m, n) && KeyOf(m, p) == KeyOf(n, q)
    ensures DirectPath(directory, m, p) == DirectPath(directory, n, q)
  {}

  ghost predicate IsEntry(directory: string, seen: set<Message>, key: CacheKey, path: string) {
    exists m :: m in seen && KeyOf(m, key.pathPattern) == key && DirectPath(directory, m, key.pathPattern) == path
  }

  /** Every entry is the direct path of a message that was seen. */
  ghost predicate CacheFrom(directory: string, cache: Cache, seen: set<Message>) {
    forall key :: key in cache ==> IsEntry(directory, seen, key, cache[key])
  }

  lemma RememberingDirectly(directory: string, cache: Cache, seen: set<Message>, m: Message, pattern: string)
    requires CacheFrom(directory, cache, seen) && m in seen && AlikeAll(seen, m)
    ensures PathOf(directory, cache, m, pattern) == DirectPath(directory, m, pattern)
    ensures CacheFrom(directory, Remembered(directory, cache, m, pattern), seen)
  {
    var key := KeyOf(m, pattern);
    if key in cache {
      assert IsEntry(directory, seen, key, cache[key]);
      var n :| n in seen && KeyOf(n, pattern) == key && DirectPath(directory, n, pattern) == cache[key];
      SameKeySamePath(directory, n, m, pattern, pattern);
    }
    assert IsEntry(directory, seen, key, DirectPath(directory, m, pattern));
  }

  // ------------------------------------------------------------------ routes

  datatype Route = Route(path: string, settings: Settings)

  predicate HasRoute(routes: seq<Route>, path: string) {
    exists i :: 0 <= i < |routes| && routes[i].path == path
  }

  function AddRoute(routes: seq<Route>, path: string, settings: Settings): seq<Route> {
    if HasRoute(routes, path) then routes else routes + [Route(path, settings)]
  }

  datatype Routes = Routes(cache: Cache, routes: seq<Route>)

  /** The loop of `LogPathConfigs`, one configuration after the other. */
  function RoutedBy(directory: string, r: Routes, config: LogFileConfig, m: Message): Routes {
    if !Accepts(config, m) then r else
      Routes(Remembered(directory, r.cache, m, config.pathPattern),
             AddRoute(r.routes, PathOf(directory, r.cache, m, config.pathPattern), config.settings))
  }

  function RoutedByAll(directory: string, cache: Cache, configs: seq<LogFileConfig>, m: Message): Routes {
    if configs == [] then Routes(cache, []) else
      var n := |configs| - 1;
      RoutedBy(directory, RoutedByAll(directory, cache, configs[..n], m), configs[n], m)
  }

  /** The configuration at `k` accepts the message, and gives it this path. */
  ghost predicate LeadsTo(directory: string, configs: seq<LogFileConfig>, m: Message, k: nat, path: string) {
    k < |configs| && Accepts(configs[k], m) && DirectPath(directory, m, configs[k].pathPattern) == path
  }

  ghost predicate IsFirstTo(directory: string, configs: seq<LogFileConfig>, m: Message, k: nat, path: string) {
    LeadsTo(directory, configs, m, k, path) && forall l: nat :: l < k ==> !LeadsTo(directory, configs, m, l, path)
  }

  ghost predicate OncePerPath(routes: seq<Route>) {
    forall i, j :: 0 <= i < j < |routes| ==> routes[i].path != routes[j].path
  }

  lemma AddRouteAdds(routes: seq<Route>, path: string, settings: Settings, p: string)
    ensures OncePerPath(routes) ==> OncePerPath(AddRoute(routes, path, settings))
    ensures HasRoute(AddRoute(routes, path, settings), p) <==> HasRoute(routes, p) || p == path
  {
    var more := AddRoute(routes, path, settings);
    if HasRoute(routes, p) {
      var i :| 0 <= i < |routes| && routes[i].path == p;
      assert more[i].path == p;
    } else if p == path {
      assert more[|routes|].path == p;
    }
  }

  /** Each path once; exactly the direct paths by accepting configurations; each with the
      settings of the first configuration that gives it. */
  ghost predicate AreDirect(directory: string, configs: seq<LogFileConfig>, m: Message, routes: seq<Route>) {
    && OncePerPath(routes)
    && (forall k: nat, path :: LeadsTo(directory, configs, m, k, path) ==> HasRoute(routes, path))
    && (forall i :: 0 <= i < |routes| ==> HasSource(directory, configs, m, routes[i]))
  }

  ghost predicate HasSource(directory: string, configs: seq<LogFileConfig>, m: Message, route: Route) {
    exists k: nat :: IsFirstTo(directory, configs, m, k, route.path) && configs[k].settings == route.settings
  }

  lemma SourceStays(directory: string, configs: seq<LogFileConfig>, m: Message, route: Route)
    requires configs != [] && HasSource(directory, configs[..|configs| - 1], m, route)
    ensures HasSource(directory, configs, m, route)
  {}

  /** A configuration that does not accept the message. */
  lemma ConfigSkipped(directory: string, configs: seq<LogFileConfig>, m: Message, routes: seq<Route>)
    requires configs != [] && AreDirect(directory, configs[..|configs| - 1], m, routes)
    requires !Accepts(configs[|configs| - 1], m)
    ensures AreDirect(directory, configs, m, routes)
  {
    forall k: nat, p | LeadsTo(directory, configs, m, k, p) ensures HasRoute(routes, p) {
      assert LeadsTo(directory, configs[..|configs| - 1], m, k, p);
    }
    forall i | 0 <= i < |routes| ensures HasSource(directory, configs, m, routes[i]) {
      SourceStays(directory, configs, m, routes[i]);
    }
  }

  lemma RoutesReachAll(directory: string, configs: seq<LogFileConfig>, m: Message, routes: seq<Route>, k: nat, p: string)
    requires configs != [] && AreDirect(directory, configs[..|configs| - 1], m, routes)
    requires LeadsTo(directory, configs, m, k, p)
    ensures var c := configs[|configs| - 1];
      HasRoute(AddRoute(routes, DirectPath(directory, m, c.pathPattern), c.settings), p)
  {
    var n := |configs| - 1;
    var path := DirectPath(directory, m, configs[n].pathPattern);
    AddRouteAdds(routes, path, configs[n].settings, p);
    if k < n {
      ReachedBefore(directory, configs, m, routes, k, p);
    } else {
      assert p == path;
    }
  }

  lemma ReachedBefore(directory: string, configs: seq<LogFileConfig>, m: Message, routes: seq<Route>, k: nat, p: string)
    requires configs != [] && AreDirect(directory, configs[..|configs| - 1], m, routes)
    requires LeadsTo(directory, configs, m, k, p) && k < |configs| - 1
    ensures HasRoute(routes, p)
  {
    assert LeadsTo(directory, configs[..|configs| - 1], m, k, p);
  }

  /** A configuration that does. */
  lemma ConfigAdded(directory: string, configs: seq<LogFileConfig>, m: Message, routes: seq<Route>)
    requires configs != [] && AreDirect(directory, configs[..|configs| - 1], m, routes)
    requires Accepts(configs[|configs| - 1], m)
    ensures var c := configs[|configs| - 1];
      AreDirect(directory, configs, m, AddRoute(routes, DirectPath(directory, m, c.pathPattern), c.settings))
  {
    var path, settings := DirectPath(directory, m, configs[|configs| - 1].pathPattern), configs[|configs| - 1].settings;
    var more := AddRoute(routes, path, settings);
    AddRouteAdds(routes, path, settings, path);
    forall k: nat, p | LeadsTo(directory, configs, m, k, p) ensures HasRoute(more, p) {
      RoutesReachAll(directory, configs, m, routes, k, p);
    }
    forall i | 0 <= i < |more| ensures HasSource(directory, configs, m, more[i]) {
      if i < |routes| {
        SourceStays(directory, configs, m, routes[i]);
      } else {
        FirstConfigTo(directory, configs, m, routes);
      }
    }
  }

  lemma FirstConfigTo(directory: string, configs: seq<LogFileConfig>, m: Message, routes: seq<Route>)
    requires configs != [] && AreDirect(directory, configs[..|configs| - 1], m, routes)
    requires var c := configs[|configs| - 1];
      Accepts(c, m) && !HasRoute(routes, DirectPath(directory, m, c.pathPattern))
    ensures var c := configs[|configs| - 1];
      HasSource(directory, configs, m, Route(DirectPath(directory, m, c.pathPattern), c.settings))
  {
    var n := |configs| - 1;
    var path := DirectPath(directory, m, configs[n].pathPattern);
    assert LeadsTo(directory, configs, m, n, path);
    forall l: nat | l < n ensures !LeadsTo(directory, configs, m, l, path) {
      assert LeadsTo(directory, configs, m, l, path) ==> LeadsTo(directory, configs[..n], m, l, path);
    }
    assert IsFirstTo(directory, configs, m, n, path);
  }

  /** Cached routing is direct routing, as long as the messages seen are alike. */
  lemma {:induction false} RoutingIsDirect(directory: string, cache: Cache, configs: seq<LogFileConfig>,
                                           seen: set<Message>, m: Message)
    requires CacheFrom(directory, cache, seen) && m in seen && AlikeAll(seen, m)
    ensures CacheFrom(directory, RoutedByAll(directory, cache, configs, m).cache, seen)
    ensures AreDirect(directory, configs, m, RoutedByAll(directory, cache, configs, m).routes)
  {
    if configs != [] {
      var n := |configs| - 1;
      var r := RoutedByAll(directory, cache, configs[..n], m);
      RoutingIsDirect(directory, cache, configs[..n], seen, m);
      RememberingDirectly(directory, r.cache, seen, m, configs[n].pathPattern);
      if Accepts(configs[n], m) {
        ConfigAdded(directory, configs, m, r.routes);
      } else {
        ConfigSkipped(directory, configs, m, r.routes);
      }
    }
  }
}
