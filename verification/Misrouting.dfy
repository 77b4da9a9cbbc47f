/** Exactly when the cache of log paths gives every message its own path. */
module Misrouting {
  import opened LogRouting
  import opened Messages
  import opened Options
  import opened RollIntervals
  import opened RoutedLogs
  import TextForm
  import Wire

  /** A configuration, and then messages. */
  function Run(config: FilesConfig, ms: seq<Message>): seq<Operation> {
    if ms == [] then [Configure(config)] else Run(config, ms[..|ms| - 1]) + [Process(ms[|ms| - 1])]
  }

  function Everything(path: string): bool { true }

  function Logs(config: FilesConfig, ms: seq<Message>): Router {
    After(Run(config, ms), Everything)
  }

  ghost predicate AllAlike(ms: seq<Message>) {
    forall i, j :: 0 <= i < |ms| && 0 <= j < |ms| ==> Alike(ms[i], ms[j])
  }

  ghost predicate RoutesRightly(config: FilesConfig, ms: seq<Message>) {
    forall path :: LogOf(Logs(config, ms), path) == MessagesFor(Run(config, ms), path)
  }

  function AsSet(ms: seq<Message>): set<Message> {
    set m | m in ms
  }

  lemma LastOfRun(config: FilesConfig, ms: seq<Message>)
    requires ms != []
    ensures var run, n := Run(config, ms), |ms| - 1;
      run != [] && run[..|run| - 1] == Run(config, ms[..n]) && run[|run| - 1] == Process(ms[n])
  {}

  lemma {:induction false} NoneMistakenInRun(config: FilesConfig, ms: seq<Message>)
    requires AllAlike(ms)
    ensures NoneMistaken(Run(config, ms)) && SeenSince(Run(config, ms)) == AsSet(ms)
  {
    if ms == [] {
      assert Run(config, ms)[..0] == [];
    } else {
      LastOfRun(config, ms);
      NoneMistakenInRun(config, ms[..|ms| - 1]);
      SeenInRun(ms, ms[|ms| - 1]);
    }
  }

  lemma SeenInRun(ms: seq<Message>, last: Message)
    requires ms != [] && last == ms[|ms| - 1] && AllAlike(ms)
    ensures AlikeAll(AsSet(ms[..|ms| - 1]), last)
    ensures AsSet(ms) == AsSet(ms[..|ms| - 1]) + {last}
  {
    assert ms == ms[..|ms| - 1] + [last];
  }

  // ------------------------------------------------------------------ two messages not alike

  const SOME_SETTINGS: Settings := Settings(0, Days1, 0, 0, false, "", "", "")

  /** Logs only these two messages, by their facility. */
  function OnlyThese(m: Message, n: Message): LogFileConfig {
    LogFileConfig(Filter(true, x => Some(x == m || x == n)), "%F", SOME_SETTINGS)
  }

  function ByFacility(m: Message, n: Message): FilesConfig {
    FilesConfig("", [OnlyThese(m, n)])
  }

  function FacilityPath(m: Message): string {
    DirectPath("", m, "%F")
  }

  lemma PathByFacility(m: Message)
    ensures FacilityPath(m) == "/" + TextForm.FacilityName(m.header.facility)
  {
    var f := TextForm.FacilityName(m.header.facility);
    EachDirective(m.header.origin.hostname, m.header.origin.appname, f);
    NamesAreRelative(m.header.facility);
    PathsAreRooted("", m, "%F");
    assert "" + "/" + f == "/" + f;
  }

  lemma NamesAreRelative(f: bv8)
    ensures TextForm.FacilityName(f) != "" && TextForm.FacilityName(f)[0] != '/'
  {}

  lemma PathsDiffer(m: Message, n: Message)
    requires !Alike(m, n)
    ensures FacilityPath(m) != FacilityPath(n) && KeyOf(m, "%F") == KeyOf(n, "%F")
  {
    PathByFacility(m);
    PathByFacility(n);
    Tails(TextForm.FacilityName(m.header.facility), TextForm.FacilityName(n.header.facility));
  }

  lemma Tails(f: string, g: string)
    ensures "/" + f == "/" + g ==> f == g
  {
    assert ("/" + f)[1..] == f && ("/" + g)[1..] == g;
  }

  lemma InForceInRun(config: FilesConfig, ms: seq<Message>)
    ensures InForce(Run(config, ms)) == config
  {
    if ms != [] {
      LastOfRun(config, ms);
      InForceInRun(config, ms[..|ms| - 1]);
    }
  }

  lemma OnlyOneConfig(c: LogFileConfig)
    requires c.filter.isValid
    ensures ValidConfigs([c]) == [c]
  {
    assert [c][..0] == [];
  }

  /** The first of the two messages has decided the path of both. */
  ghost predicate DecidedBy(r: Router, first: Message) {
    && KeyOf(first, "%F") in r.cache && r.cache[KeyOf(first, "%F")] == FacilityPath(first)
    && (forall path :: path != FacilityPath(first) ==> LogOf(r, path) == [])
  }

  ghost predicate Undecided(r: Router) {
    r.cache == map[] && (forall path :: LogOf(r, path) == [])
  }

  ghost predicate LogsOnly(r: Router, m: Message, n: Message) {
    r.configs == [OnlyThese(m, n)] && r.directory == "" && AllOpen(r)
  }

  predicate AllOpen(r: Router) {
    forall path :: path in r.files ==> r.files[path].isOpen
  }

  lemma OneConfig(directory: string, cache: Cache, c: LogFileConfig, x: Message)
    ensures RoutedByAll(directory, cache, [c], x) == RoutedBy(directory, Routes(cache, []), c, x)
  {
    assert [c][..0] == [];
    assert RoutedByAll(directory, cache, [], x) == Routes(cache, []);
  }

  lemma OneRoute(r: Router, route: Route, x: Message)
    ensures LoggedToAll(r, [], x, Everything) == r
    ensures LoggedToAll(r, [route], x, Everything) == Logged(r, route, x, Everything)
    ensures AddRoute([], route.path, route.settings) == [route]
  {
    assert [route][..0] == [];
    assert !HasRoute([], route.path);
  }

  function RouteFor(r: Router, x: Message): Route {
    Route(PathOf("", r.cache, x, "%F"), SOME_SETTINGS)
  }

  lemma LoggedOnce(r: Router, m: Message, n: Message, x: Message)
    requires LogsOnly(r, m, n)
    ensures Processed(r, x, Everything)
         == if x == m || x == n then
              Logged(r.(cache := Remembered("", r.cache, x, "%F")), RouteFor(r, x), x, Everything)
            else r
  {
    OneConfig("", r.cache, OnlyThese(m, n), x);
    OneRoute(r, RouteFor(r, x), x);
    OneRoute(r.(cache := Remembered("", r.cache, x, "%F")), RouteFor(r, x), x);
  }

  /** The message goes to the path that the cache has, or else to its own, which is then kept. */
  lemma LoggedWhere(r: Router, m: Message, n: Message, x: Message, first: Message)
    requires LogsOnly(r, m, n) && (x == m || x == n) && KeyOf(x, "%F") == KeyOf(first, "%F")
    requires if Undecided(r) then first == x else DecidedBy(r, first)
    ensures LogsOnly(Processed(r, x, Everything), m, n) && DecidedBy(Processed(r, x, Everything), first)
  {
    var s := Processed(r, x, Everything);
    LoggedOnce(r, m, n, x);
    assert RouteFor(r, x).path == FacilityPath(first);
    forall path | path != FacilityPath(first) ensures LogOf(s, path) == [] {
      assert LogOf(s, path) == LogOf(r, path);
    }
    assert s.cache == Remembered("", r.cache, x, "%F");
  }

  /** Either neither of the two was seen, or `first` was, before the other. */
  ghost predicate DecidedSoFar(r: Router, m: Message, n: Message, seen: bool, first: Message) {
    && LogsOnly(r, m, n) && (first == m || first == n)
    && if seen then DecidedBy(r, first) else Undecided(r)
  }

  lemma DecidedNext(r: Router, m: Message, n: Message, x: Message, seen: bool, was: Message) returns (first: Message)
    requires !Alike(m, n) && DecidedSoFar(r, m, n, seen, was)
    ensures first == if !seen && (x == m || x == n) then x else was
    ensures DecidedSoFar(Processed(r, x, Everything), m, n, seen || x == m || x == n, first)
  {
    first := if !seen && (x == m || x == n) then x else was;
    if x == m || x == n {
      PathsDiffer(m, n);
      if seen {
        StillDecided(r, was);
      }
      LoggedWhere(r, m, n, x, first);
    } else {
      LoggedOnce(r, m, n, x);
    }
  }

  predicate SeesOne(m: Message, n: Message, ms: seq<Message>) {
    m in ms || n in ms
  }

  lemma SeesOneLast(m: Message, n: Message, front: seq<Message>, last: Message)
    ensures SeesOne(m, n, front + [last]) <==> SeesOne(m, n, front) || last == m || last == n
  {}

  function AllProcessed(r: Router, ms: seq<Message>): Router {
    if ms == [] then r else Processed(AllProcessed(r, ms[..|ms| - 1]), ms[|ms| - 1], Everything)
  }

  lemma {:induction false} LogsAre(config: FilesConfig, ms: seq<Message>)
    ensures Logs(config, ms) == AllProcessed(Logs(config, []), ms)
  {
    if ms != [] {
      LastOfRun(config, ms);
      LogsAre(config, ms[..|ms| - 1]);
    }
  }

  lemma {:induction false} DecidedAfter(r: Router, m: Message, n: Message, ms: seq<Message>) returns (first: Message)
    requires !Alike(m, n) && DecidedSoFar(r, m, n, false, m)
    ensures DecidedSoFar(AllProcessed(r, ms), m, n, SeesOne(m, n, ms), first)
  {
    first := m;
    if ms != [] {
      var front, last := ms[..|ms| - 1], ms[|ms| - 1];
      first := DecidedAfter(r, m, n, front);
      first := DecidedNext(AllProcessed(r, front), m, n, last, SeesOne(m, n, front), first);
      SeesOneLast(m, n, front, last);
      assert front + [last] == ms;
    }
  }

  lemma Decided(m: Message, n: Message, ms: seq<Message>) returns (first: Message)
    requires !Alike(m, n)
    ensures first == m || first == n
    ensures SeesOne(m, n, ms) ==> DecidedBy(Logs(ByFacility(m, n), ms), first)
  {
    Configures(m, n);
    LogsAre(ByFacility(m, n), ms);
    first := DecidedAfter(Logs(ByFacility(m, n), []), m, n, ms);
  }

  lemma StillDecided(r: Router, first: Message)
    requires DecidedBy(r, first)
    ensures !Undecided(r)
  {}

  lemma Configures(m: Message, n: Message)
    ensures LogsOnly(Logs(ByFacility(m, n), []), m, n) && Undecided(Logs(ByFacility(m, n), []))
  {
    var config := ByFacility(m, n);
    OnlyOneConfig(OnlyThese(m, n));
    assert Run(config, []) == [Configure(config)] && [Configure(config)][..0] == [];
    assert After([], Everything) == EMPTY;
    assert Logs(config, []) == Configured(EMPTY, config);
  }

  lemma {:induction false} ShouldGetSome(m: Message, n: Message, ms: seq<Message>, x: Message)
    requires x in ms && (x == m || x == n)
    ensures MessagesFor(Run(ByFacility(m, n), ms), FacilityPath(x)) != []
  {
    var front, last := ms[..|ms| - 1], ms[|ms| - 1];
    LastOfRun(ByFacility(m, n), ms);
    if last == x {
      InForceInRun(ByFacility(m, n), front);
      assert Sends(ByFacility(m, n), x, 0, FacilityPath(x));
    } else {
      assert ms == front + [last];
      ShouldGetSome(m, n, front, x);
    }
  }

  /** Two messages that are not alike, logged by their facility: one of their logs stays empty. */
  lemma NotAlikeMisroutes(m: Message, n: Message, ms: seq<Message>)
    requires !Alike(m, n) && m in ms && n in ms
    ensures !RoutesRightly(ByFacility(m, n), ms)
  {
    var config := ByFacility(m, n);
    var first := Decided(m, n, ms);
    ShouldGetSome(m, n, ms, m);
    ShouldGetSome(m, n, ms, n);
    PathsDiffer(m, n);
    var other := if first == m then n else m;
    assert LogOf(Logs(config, ms), FacilityPath(other)) != MessagesFor(Run(config, ms), FacilityPath(other));
  }

  /** The cache routes a list of messages rightly under every configuration if, and only if, any
      two of them that have the same cache keys have the same facility name. */
  lemma RoutedRightlyExactly(ms: seq<Message>)
    ensures AllAlike(ms) <==> forall config :: RoutesRightly(config, ms)
  {
    if AllAlike(ms) {
      forall config, path ensures LogOf(Logs(config, ms), path) == MessagesFor(Run(config, ms), path) {
        NoneMistakenInRun(config, ms);
        LogsHoldTheirMessages(Run(config, ms), Everything, path);
      }
    } else {
      var i, j :| 0 <= i < |ms| && 0 <= j < |ms| && !Alike(ms[i], ms[j]);
      NotAlikeMisroutes(ms[i], ms[j], ms);
    }
  }

  /** Two messages that reading from the wire accepts, and of which the second is appended to the
      log of the first one's facility. */
  lemma MisroutedFromTheWire(o: Origin, text: Text) returns (m: Message, n: Message)
    requires Wire.IsHostname(o.hostname) && Wire.IsAppName(o.appname)
    ensures Wire.IsAccepted(m) && Wire.IsAccepted(n)
    ensures var run := [Configure(ByFacility(m, n)), Process(m), Process(n)];
      LogOf(After(run, Everything), FacilityPath(n)) != MessagesFor(run, FacilityPath(n))
  {
    m, n := Message(Header(0, 1, 0, o), text), Message(Header(0, 0, 1, o), text);
    var config := ByFacility(m, n);
    TwoMessages(config, m, n);
    assert TextForm.FacilityName(1)[0] == 'u' && TextForm.FacilityName(0)[0] == 'k';
    Configures(m, n);
    var first := DecidedNext(Logs(config, []), m, n, m, false, m);
    first := DecidedNext(Logs(config, [m]), m, n, n, true, m);
    PathsDiffer(m, n);
    ShouldGetSome(m, n, [m, n], n);
  }

  lemma TwoMessages(config: FilesConfig, m: Message, n: Message)
    ensures Run(config, [m, n]) == [Configure(config), Process(m), Process(n)]
    ensures Logs(config, [m]) == Processed(Logs(config, []), m, Everything)
    ensures Logs(config, [m, n]) == Processed(Logs(config, [m]), n, Everything)
  {
    assert [m, n][..1] == [m] && [m][..0] == [];
    assert Run(config, []) == [Configure(config)];
    assert Run(config, [m]) == [Configure(config)] + [Process(m)];
    assert Run(config, [m, n]) == Run(config, [m]) + [Process(n)];
    LastOfRun(config, [m]);
    LastOfRun(config, [m, n]);
  }
}
