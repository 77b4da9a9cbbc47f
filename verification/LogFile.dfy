/**
  A log file that rolls over: the active file, its numbered archives, and the history of
  everything it accepted.
 */
module RollingLog {
  import opened Archives
  import opened Decimal
  import opened Messages
  import opened Options
  import opened RollIntervals

  /** Everything a log file accepted: the closed segments, oldest first, and the active one. */
  datatype History = History(closed: seq<seq<Message>>, active: seq<Message>) {

    function Roll(): History {
      History(closed + [active], [])
    }

    function Append(msg: Message): History {
      this.(active := active + [msg])
    }

    function Accepted(): seq<Message> {
      Concatenation(closed) + active
    }
  }

  function Concatenation(segments: seq<seq<Message>>): seq<Message> {
    if segments == [] then []
    else Concatenation(segments[..|segments| - 1]) + segments[|segments| - 1]
  }

  lemma RollKeepsAccepted(h: History)
    ensures h.Roll().Accepted() == h.Accepted()
  {}

  lemma AppendAccepts(h: History, msg: Message)
    ensures h.Append(msg).Accepted() == h.Accepted() + [msg]
  {}

  /** One call of `Process` on an open file, by whether it rolled. */
  datatype Step = Step(msg: Message, rolled: bool)

  function StepTo(h: History, step: Step): History {
    (if step.rolled then h.Roll() else h).Append(step.msg)
  }

  function RunOf(start: History, steps: seq<Step>): History {
    if steps == [] then start
    else StepTo(RunOf(start, steps[..|steps| - 1]), steps[|steps| - 1])
  }

  function MessagesOf(steps: seq<Step>): seq<Message> {
    if steps == [] then [] else MessagesOf(steps[..|steps| - 1]) + [steps[|steps| - 1].msg]
  }

  function RollsOf(steps: seq<Step>): nat {
    if steps == [] then 0
    else RollsOf(steps[..|steps| - 1]) + if steps[|steps| - 1].rolled then 1 else 0
  }

  /** Over any run, the closed segments and the active one hold exactly what was there and
      the accepted messages, in order, and each roll closes one segment. */
  lemma {:induction false} RunKeepsEverything(start: History, steps: seq<Step>)
    ensures RunOf(start, steps).Accepted() == start.Accepted() + MessagesOf(steps)
    ensures |RunOf(start, steps).closed| == |start.closed| + RollsOf(steps)
  {
    if steps != [] {
      var front := steps[..|steps| - 1];
      var last := steps[|steps| - 1];
      var h := RunOf(start, front);
      RunKeepsEverything(start, front);
      RollKeepsAccepted(h);
      AppendAccepts(if last.rolled then h.Roll() else h, last.msg);
      assert start.Accepted() + MessagesOf(front) + [last.msg] == start.Accepted() + MessagesOf(steps);
    }
  }

  /** Closed segments are never touched again. */
  lemma {:induction false} ClosedSegmentsStay(start: History, steps: seq<Step>)
    ensures start.closed <= RunOf(start, steps).closed
  {
    if steps != [] {
      ClosedSegmentsStay(start, steps[..|steps| - 1]);
    }
  }

  function ArchiveLimit(keep: uint32): nat {
    if keep == 0 then 1 else keep
  }

  /** What archive `n` holds; until it is compressed, archive 0 lies under another name. */
  ghost function Archived(series: Series, files: Directory, compressing: bool, n: nat): Option<seq<Message>> {
    if n == 0 && compressing then
      match Lookup(files, series.UncompressedName())
      case Some(Plain(log)) => Some(log)
      case _ => None
    else
      match Lookup(files, series.ArchiveName(n))
      case Some(Compressed(log)) => Some(log)
      case _ => None
  }

  /** The `n`-th most recently closed segment, while it is kept. */
  function KeptSegment(closed: seq<seq<Message>>, keep: uint32, n: nat): Option<seq<Message>> {
    if n < |closed| && n < ArchiveLimit(keep) then Some(closed[|closed| - 1 - n]) else None
  }

  /** The archives are a sliding window over the closed segments. */
  ghost predicate ShowsWindow(series: Series, files: Directory, compressing: bool,
                              keep: uint32, closed: seq<seq<Message>>)
  {
    && series.CanonicallyNamed(files)
    && (series.UncompressedName() in files <==> compressing)
    && (compressing ==> series.ArchiveName(0) !in files)
    && forall n: nat ::
         && Archived(series, files, compressing, n) == KeptSegment(closed, keep, n)
         && (series.ArchiveName(n) in files ==> files[series.ArchiveName(n)].Compressed?)
  }

  /** Shifting the archives and renaming the active file slides the window by one segment. */
  lemma WindowSlides(series: Series, before: Directory, shifted: Directory, after: Directory,
                     keep: uint32, closed: seq<seq<Message>>, active: seq<Message>)
    requires ShowsWindow(series, before, false, keep, closed)
    requires series.Shifted(before, shifted, keep)
    requires after == (shifted - {series.base})[series.UncompressedName() := Plain(active)]
    ensures ShowsWindow(series, after, true, keep, closed + [active])
  {
    series.NamesDistinct();
    var pending := series.UncompressedName();
    assert Lookup(shifted, series.ArchiveName(0)) == series.MovedTo(before, keep, 0);
    assert series.ArchiveName(0) !in after;
    assert series.CanonicallyNamed(after) by {
      assert forall name :: name in after && name != pending ==> name in shifted;
    }
    forall n: nat
      ensures Archived(series, after, true, n) == KeptSegment(closed + [active], keep, n)
      ensures series.ArchiveName(n) in after ==> after[series.ArchiveName(n)].Compressed?
    {
      assert series.ArchiveNumber(series.ArchiveName(n)) == Some(n);
      SegmentSlides(series, before, shifted, after, keep, closed, active, n);
    }
  }

  lemma SegmentSlides(series: Series, before: Directory, shifted: Directory, after: Directory,
                      keep: uint32, closed: seq<seq<Message>>, active: seq<Message>, n: nat)
    requires n > 0 ==> Archived(series, before, false, n - 1) == KeptSegment(closed, keep, n - 1)
    requires n > 0 && series.ArchiveName(n - 1) in before ==> before[series.ArchiveName(n - 1)].Compressed?
    requires Lookup(shifted, series.ArchiveName(n)) == series.MovedTo(before, keep, n)
    requires series.ArchiveName(n) != series.base && series.ArchiveName(n) != series.UncompressedName()
    requires after == (shifted - {series.base})[series.UncompressedName() := Plain(active)]
    ensures Archived(series, after, true, n) == KeptSegment(closed + [active], keep, n)
    ensures series.ArchiveName(n) in after ==> after[series.ArchiveName(n)].Compressed?
  {}

  /** Compressing archive 0 leaves the window as it is. */
  lemma WindowCompressed(series: Series, before: Directory, after: Directory,
                         keep: uint32, closed: seq<seq<Message>>)
    requires ShowsWindow(series, before, true, keep, closed)
    requires before[series.UncompressedName()].Plain?
    requires after == (before - {series.UncompressedName()})
                          [series.ArchiveName(0) := Compressed(before[series.UncompressedName()].log)]
    ensures ShowsWindow(series, after, false, keep, closed)
  {
    series.NamesDistinct();
    forall n: nat
      ensures Archived(series, after, false, n) == KeptSegment(closed, keep, n)
      ensures series.ArchiveName(n) in after ==> after[series.ArchiveName(n)].Compressed?
    {
      series.NumberOfName(n);
      assert Archived(series, before, true, n) == KeptSegment(closed, keep, n);
    }
  }

  /** The window does not depend on the active file. */
  lemma WindowIgnoresActive(series: Series, before: Directory, after: Directory, compressing: bool,
                            keep: uint32, closed: seq<seq<Message>>)
    requires ShowsWindow(series, before, compressing, keep, closed)
    requires forall name :: name != series.base ==> Lookup(after, name) == Lookup(before, name)
    ensures ShowsWindow(series, after, compressing, keep, closed)
  {
    series.NamesDistinct();
    assert Lookup(after, series.UncompressedName()) == Lookup(before, series.UncompressedName());
    series.NumberOfName(0);
    assert Lookup(after, series.ArchiveName(0)) == Lookup(before, series.ArchiveName(0));
    assert series.CanonicallyNamed(after) by {
      forall name | name in after && series.IsArchive(name)
        ensures name == series.ArchiveName(series.ArchiveNumber(name).value)
        ensures series.ArchiveNumber(name).value < 0xffff_ffff_ffff_ffff
      {
        assert Lookup(after, name) == Lookup(before, name);
      }
    }
    forall n: nat
      ensures Archived(series, after, compressing, n) == KeptSegment(closed, keep, n)
      ensures series.ArchiveName(n) in after ==> after[series.ArchiveName(n)].Compressed?
    {
      series.NumberOfName(n);
      assert Lookup(after, series.ArchiveName(n)) == Lookup(before, series.ArchiveName(n));
      assert Archived(series, before, compressing, n) == KeptSegment(closed, keep, n);
    }
  }

  /** When a message makes the file roll: the write position reached the size limit, or both
      the timestamp and the clock reached the end of the interval. */
  predicate RollNeeded(rollSize: int, position: nat, timestamp: uint64, end: int, now: int) {
    (rollSize > 0 && position >= rollSize) || (Secs(timestamp) >= end && now >= end)
  }

  class LogFile {
    const fs: FileSystem
    const series: Series
    const keep: uint32
    const rollSize: int
    const rollInterval: RollInterval
    var isOpen: bool
    /** Whether the last closed segment is still being compressed. */
    var compressing: bool
    ghost var history: History

    ghost predicate ShowsActive()
      reads this, fs
    {
      if series.base in fs.files then fs.files[series.base] == Plain(history.active)
      else !isOpen && history.active == []
    }

    ghost predicate Valid()
      reads this, fs
    {
      ShowsWindow(series, fs.files, compressing, keep, history.closed) && ShowsActive()
    }

    /** Files that do not belong to this log. */
    ghost predicate IsForeign(name: string) {
      name != series.base && name != series.UncompressedName() && !series.IsArchive(name)
    }

    /** Starts without archives; the log may exist from an earlier run. */
    constructor (fs: FileSystem, series: Series, keep: uint32, rollSize: int, rp: RollPeriod, now: int, offset: int)
      requires forall name :: name in fs.files ==> !series.IsArchive(name)
      requires series.UncompressedName() !in fs.files
      requires series.base in fs.files ==> fs.files[series.base].Plain?
      ensures Valid() && !isOpen && this.fs == fs && fresh(rollInterval)
      ensures history == History([], if series.base in fs.files then fs.files[series.base].log else [])
      ensures rollInterval.endTime == IntervalEnd(rp, now, offset)
    {
      this.fs, this.series, this.keep, this.rollSize := fs, series, keep, rollSize;
      isOpen, compressing := false, false;
      history := History([], if series.base in fs.files then fs.files[series.base].log else []);
      var interval := new RollInterval(rp, now, offset);
      rollInterval := interval;
      new;
      series.NamesDistinct();
    }

    /** Shifts the archives and turns the active file into archive 0. */
    method Roll(now: int, offset: int)
      requires Valid() && !isOpen && !compressing && series.base in fs.files
      modifies this, fs, rollInterval
      ensures Valid() && !isOpen && series.base !in fs.files
      ensures history == old(history).Roll() && compressing
      ensures forall name :: IsForeign(name) ==> Lookup(fs.files, name) == old(Lookup(fs.files, name))
      ensures rollInterval.endTime == IntervalEnd(rollInterval.period, now, offset)
    {
      ghost var before := fs.files;
      ghost var shifted := RollFiles();
      compressing := true;
      WindowSlides(series, before, shifted, fs.files, keep, history.closed, history.active);
      history := history.Roll();
      rollInterval.SetToCurrent(now, offset);
    }

    method RollFiles() returns (ghost shifted: Directory)
      requires Valid() && !isOpen && !compressing && series.base in fs.files
      modifies fs
      ensures series.Shifted(old(fs.files), shifted, keep)
      ensures fs.files == (shifted - {series.base})[series.UncompressedName() := Plain(history.active)]
      ensures forall name :: IsForeign(name) ==> Lookup(fs.files, name) == old(Lookup(fs.files, name))
    {
      series.NamesDistinct();
      ghost var before := fs.files;
      RollArchives(fs, series, keep);
      shifted := fs.files;
      assert Lookup(shifted, series.base) == Lookup(before, series.base);
      assert Lookup(shifted, series.UncompressedName()) == Lookup(before, series.UncompressedName());
      fs.Rename(series.base, series.UncompressedName());
    }

    /** The background compression started by a roll ends. */
    method FinishCompression()
      requires Valid() && compressing && fs.files[series.UncompressedName()].Plain?
      modifies this, fs
      ensures Valid() && !compressing && isOpen == old(isOpen) && history == old(history)
      ensures forall name :: IsForeign(name) ==> Lookup(fs.files, name) == old(Lookup(fs.files, name))
    {
      series.NamesDistinct();
      ghost var before := fs.files;
      var log := fs.files[series.UncompressedName()].log;
      fs.Remove(series.UncompressedName());
      fs.Write(series.ArchiveName(0), Compressed(log));
      compressing := false;
      WindowCompressed(series, before, fs.files, keep, history.closed);
    }

    /** Opens for appending; a file last written before the interval started rolls first. */
    method Open(modified: int, now: int, offset: int) returns (rolled: bool)
      requires Valid()
      requires !isOpen && series.base in fs.files && rollInterval.StartTime() > modified ==> !compressing
      modifies this, fs, rollInterval
      ensures Valid() && isOpen
      ensures rolled == (!old(isOpen) && series.base in old(fs.files)
                         && old(rollInterval.endTime) - IncrementSeconds(rollInterval.period) > modified)
      ensures history == if rolled then old(history).Roll() else old(history)
      ensures compressing == (old(compressing) || rolled)
      ensures rollInterval.endTime == if rolled then IntervalEnd(rollInterval.period, now, offset)
                                      else old(rollInterval.endTime)
      ensures forall name :: IsForeign(name) ==> Lookup(fs.files, name) == old(Lookup(fs.files, name))
    {
      rolled := false;
      if !isOpen {
        if series.base in fs.files && rollInterval.StartTime() > modified {
          Roll(now, offset);
          rolled := true;
        }
        ghost var before := fs.files;
        if series.base !in fs.files {
          fs.Write(series.base, Plain([]));
        }
        isOpen := true;
        WindowIgnoresActive(series, before, fs.files, compressing, keep, history.closed);
      }
    }

    method Close()
      requires Valid()
      modifies this`isOpen
      ensures Valid() && !isOpen
    {
      isOpen := false;
    }

    /** Appends the message, rolling first when needed; a closed file accepts nothing. */
    method Process(msg: Message, position: nat, now: int, offset: int) returns (rc: bool)
      requires Valid()
      requires isOpen && RollNeeded(rollSize, position, msg.header.timestamp, rollInterval.endTime, now)
           ==> !compressing
      modifies this, fs, rollInterval
      ensures Valid() && isOpen == old(isOpen) && rc == isOpen
      ensures var rolls := rc && RollNeeded(rollSize, position, msg.header.timestamp,
                                            old(rollInterval.endTime), now);
        && history == (if rc then StepTo(old(history), Step(msg, rolls)) else old(history))
        && rollInterval.endTime == (if rolls then IntervalEnd(rollInterval.period, now, offset)
                                    else old(rollInterval.endTime))
      ensures compressing
           == (old(compressing)
               || (rc && RollNeeded(rollSize, position, msg.header.timestamp, old(rollInterval.endTime), now)))
      ensures isOpen && rollSize > 0 && position >= rollSize ==> history == old(history).Roll().Append(msg)
      ensures isOpen && (rollSize <= 0 || position < rollSize) ==>
        var end := old(rollInterval.endTime);
        if Secs(msg.header.timestamp) >= end && now >= end then history == old(history).Roll().Append(msg)
        else history == old(history).Append(msg) && rollInterval.endTime == end
      ensures !rc ==> fs.files == old(fs.files)
      ensures forall name :: IsForeign(name) ==> Lookup(fs.files, name) == old(Lookup(fs.files, name))
    {
      rc := false;
      if isOpen {
        if RollNeeded(rollSize, position, msg.header.timestamp, rollInterval.endTime, now) {
          isOpen := false;
          Roll(now, offset);
          var again := Open(now, now, offset);
        }
        ghost var before := fs.files;
        fs.Write(series.base, Plain(fs.files[series.base].log + [msg]));
        history := history.Append(msg);
        WindowIgnoresActive(series, before, fs.files, compressing, keep, history.closed);
        rc := true;
      }
    }
  }

  /** A message and what is known when it is processed. */
  datatype Call = Call(msg: Message, position: nat, now: int, offset: int)

  function Given(calls: seq<Call>): seq<Message> {
    if calls == [] then [] else Given(calls[..|calls| - 1]) + [calls[|calls| - 1].msg]
  }

  lemma PendingSegmentIsPlain(series: Series, files: Directory, keep: uint32, closed: seq<seq<Message>>)
    requires ShowsWindow(series, files, true, keep, closed) && closed != []
    ensures files[series.UncompressedName()].Plain?
  {}

  /** When a log's next interval ends, after one call. */
  function NextEnd(rollSize: int, rp: RollPeriod, end: int, c: Call): int {
    if RollNeeded(rollSize, c.position, c.msg.header.timestamp, end, c.now) then IntervalEnd(rp, c.now, c.offset)
    else end
  }

  function EndAfter(rollSize: int, rp: RollPeriod, end: int, calls: seq<Call>): int {
    if calls == [] then end
    else NextEnd(rollSize, rp, EndAfter(rollSize, rp, end, calls[..|calls| - 1]), calls[|calls| - 1])
  }

  /** Which calls roll. */
  function StepsOf(rollSize: int, rp: RollPeriod, end: int, calls: seq<Call>): seq<Step> {
    if calls == [] then [] else
      var front, last := calls[..|calls| - 1], calls[|calls| - 1];
      StepsOf(rollSize, rp, end, front)
      + [Step(last.msg, RollNeeded(rollSize, last.position, last.msg.header.timestamp,
                                   EndAfter(rollSize, rp, end, front), last.now))]
  }

  /** How many calls roll: those at which the file has reached its size limit, or both the
      timestamp and the clock have reached the end of the interval in force. */
  function RollsDemanded(rollSize: int, rp: RollPeriod, end: int, calls: seq<Call>): nat {
    if calls == [] then 0 else
      var front, c := calls[..|calls| - 1], calls[|calls| - 1];
      var e := EndAfter(rollSize, rp, end, front);
      RollsDemanded(rollSize, rp, end, front)
      + if (rollSize > 0 && c.position >= rollSize) || (Secs(c.msg.header.timestamp) >= e && c.now >= e) then 1 else 0
  }

  lemma {:induction false} RollsAreDemanded(rollSize: int, rp: RollPeriod, end: int, calls: seq<Call>)
    ensures RollsOf(StepsOf(rollSize, rp, end, calls)) == RollsDemanded(rollSize, rp, end, calls)
  {
    if calls != [] {
      var steps := StepsOf(rollSize, rp, end, calls);
      RollsAreDemanded(rollSize, rp, end, calls[..|calls| - 1]);
      assert steps[..|steps| - 1] == StepsOf(rollSize, rp, end, calls[..|calls| - 1]);
    }
  }

  lemma {:induction false} StepsGiveMessages(rollSize: int, rp: RollPeriod, end: int, calls: seq<Call>)
    ensures MessagesOf(StepsOf(rollSize, rp, end, calls)) == Given(calls)
  {
    if calls != [] {
      var steps := StepsOf(rollSize, rp, end, calls);
      StepsGiveMessages(rollSize, rp, end, calls[..|calls| - 1]);
      assert steps[..|steps| - 1] == StepsOf(rollSize, rp, end, calls[..|calls| - 1]);
    }
  }

  lemma RunOfOneMore(h: History, steps: seq<Step>, step: Step)
    ensures RunOf(h, steps + [step]) == StepTo(RunOf(h, steps), step)
  {
    assert (steps + [step])[..|steps|] == steps;
  }

  /** The archives on disk: `base.n.ext` holds the `n`-th most recently closed segment, for the
      first of them and as many as are to be kept, and no other archive is there. */
  ghost predicate KeepsOnDisk(base: string, ext: string, files: Directory, keep: uint32, closed: seq<seq<Message>>) {
    forall n: nat ::
      Lookup(files, base + "." + Digits(n) + "." + ext)
      == if n < |closed| && (n == 0 || n < keep) then Some(Compressed(closed[|closed| - 1 - n])) else None
  }

  lemma WindowOnDisk(series: Series, files: Directory, keep: uint32, closed: seq<seq<Message>>)
    requires ShowsWindow(series, files, false, keep, closed)
    ensures KeepsOnDisk(series.base, series.ext, files, keep, closed)
  {
    forall n: nat
      ensures Lookup(files, series.base + "." + Digits(n) + "." + series.ext)
           == if n < |closed| && (n == 0 || n < keep) then Some(Compressed(closed[|closed| - 1 - n])) else None
    {
      assert Archived(series, files, false, n) == KeptSegment(closed, keep, n);
      assert series.ArchiveName(n) in files ==> files[series.ArchiveName(n)].Compressed?;
    }
  }

  /** Any sequence of messages, each compression ending before the next of them: archive `n`
      holds the `n`-th most recently closed segment for exactly the `n` below both the number
      of closed segments and the limit; and the closed segments, oldest first, with the active
      file are what was there before followed by every message, in order. Exactly the calls
      roll that need it, and foreign files stay as they are. */
  method ProcessAll(log: LogFile, calls: seq<Call>)
    requires log.Valid() && log.isOpen && !log.compressing
    modifies log, log.fs, log.rollInterval
    ensures log.Valid() && log.isOpen && !log.compressing
    ensures KeepsOnDisk(log.series.base, log.series.ext, log.fs.files, log.keep, log.history.closed)
    ensures log.fs.files[log.series.base] == Plain(log.history.active)
    ensures var steps := StepsOf(log.rollSize, log.rollInterval.period, old(log.rollInterval.endTime), calls);
      && log.history == RunOf(old(log.history), steps) && MessagesOf(steps) == Given(calls)
      && log.history.Accepted() == old(log.history.Accepted()) + Given(calls)
      && |log.history.closed| == |old(log.history.closed)|
            + RollsDemanded(log.rollSize, log.rollInterval.period, old(log.rollInterval.endTime), calls)
      && old(log.history.closed) <= log.history.closed
    ensures log.rollInterval.endTime
         == EndAfter(log.rollSize, log.rollInterval.period, old(log.rollInterval.endTime), calls)
    ensures forall name :: log.IsForeign(name) ==> Lookup(log.fs.files, name) == old(Lookup(log.fs.files, name))
  {
    ghost var size, period, end := log.rollSize, log.rollInterval.period, log.rollInterval.endTime;
    for i := 0 to |calls|
      invariant log.Valid() && log.isOpen && !log.compressing
      invariant log.history == RunOf(old(log.history), StepsOf(size, period, end, calls[..i]))
      invariant log.rollInterval.endTime == EndAfter(size, period, end, calls[..i])
      invariant forall name :: log.IsForeign(name) ==> Lookup(log.fs.files, name) == old(Lookup(log.fs.files, name))
    {
      ghost var step := Step(calls[i].msg, RollNeeded(size, calls[i].position, calls[i].msg.header.timestamp,
                                                      log.rollInterval.endTime, calls[i].now));
      RunOfOneMore(old(log.history), StepsOf(size, period, end, calls[..i]), step);
      OneMoreCall(size, period, end, calls, i);
      ProcessOne(log, calls[i]);
    }
    assert calls[..|calls|] == calls;
    WindowOnDisk(log.series, log.fs.files, log.keep, log.history.closed);
    StepsGiveMessages(size, period, end, calls);
    RollsAreDemanded(size, period, end, calls);
    RunKeepsEverything(old(log.history), StepsOf(size, period, end, calls));
    ClosedSegmentsStay(old(log.history), StepsOf(size, period, end, calls));
  }

  lemma OneMoreCall(rollSize: int, rp: RollPeriod, end: int, calls: seq<Call>, i: nat)
    requires i < |calls|
    ensures EndAfter(rollSize, rp, end, calls[..i + 1])
         == NextEnd(rollSize, rp, EndAfter(rollSize, rp, end, calls[..i]), calls[i])
    ensures StepsOf(rollSize, rp, end, calls[..i + 1])
         == StepsOf(rollSize, rp, end, calls[..i])
            + [Step(calls[i].msg, RollNeeded(rollSize, calls[i].position, calls[i].msg.header.timestamp,
                                             EndAfter(rollSize, rp, end, calls[..i]), calls[i].now))]
  {
    assert calls[..i + 1][..i] == calls[..i];
  }

  method ProcessOne(log: LogFile, call: Call)
    requires log.Valid() && log.isOpen && !log.compressing
    modifies log, log.fs, log.rollInterval
    ensures log.Valid() && log.isOpen && !log.compressing
    ensures var rolled := RollNeeded(log.rollSize, call.position, call.msg.header.timestamp,
                                     old(log.rollInterval.endTime), call.now);
      log.history == StepTo(old(log.history), Step(call.msg, rolled))
    ensures log.rollInterval.endTime
         == NextEnd(log.rollSize, log.rollInterval.period, old(log.rollInterval.endTime), call)
    ensures forall name :: log.IsForeign(name) ==> Lookup(log.fs.files, name) == old(Lookup(log.fs.files, name))
  {
    var _ := log.Process(call.msg, call.position, call.now, call.offset);
    if log.compressing {
      PendingSegmentIsPlain(log.series, log.fs.files, log.keep, log.history.closed);
      log.FinishCompression();
    }
  }

  // ------------------------------------------------------------------ marks

  /** The clock does not go back and the offset does not change. */
  ghost predicate IsMonotone(calls: seq<Call>, start: int, offset: int) {
    && (forall i :: 0 <= i < |calls| ==> start <= calls[i].now && calls[i].offset == offset)
    && (forall i, j :: 0 <= i < j < |calls| ==> calls[i].now <= calls[j].now)
  }

  /** The end of the interval is always the end of the one around an earlier time, either when
      the log was made or when it rolled last. */
  lemma {:induction false} EndIsIntervalEnd(rollSize: int, rp: RollPeriod, start: int, offset: int, calls: seq<Call>)
      returns (t: int)
    requires IsMonotone(calls, start, offset)
    ensures EndAfter(rollSize, rp, IntervalEnd(rp, start, offset), calls) == IntervalEnd(rp, t, offset)
    ensures t == start || exists i :: 0 <= i < |calls| && t == calls[i].now
  {
    t := start;
    if calls != [] {
      var front, last := calls[..|calls| - 1], calls[|calls| - 1];
      var end := EndAfter(rollSize, rp, IntervalEnd(rp, start, offset), front);
      t := EndIsIntervalEnd(rollSize, rp, start, offset, front);
      assert forall i :: 0 <= i < |front| ==> front[i] == calls[i];
      if RollNeeded(rollSize, last.position, last.msg.header.timestamp, end, last.now) {
        t := last.now;
      }
    }
  }

  /** The end of the interval never goes back, and a roll that the time demanded moves it
      forward. */
  lemma EndAdvances(rollSize: int, rp: RollPeriod, start: int, offset: int, calls: seq<Call>, i: nat)
    requires IsMonotone(calls, start, offset) && i < |calls|
    ensures var end, next := EndAfter(rollSize, rp, IntervalEnd(rp, start, offset), calls[..i]),
                             EndAfter(rollSize, rp, IntervalEnd(rp, start, offset), calls[..i + 1]);
      end <= next && (TimeDemands(calls[i], end) ==> end < next)
  {
    var end := EndAfter(rollSize, rp, IntervalEnd(rp, start, offset), calls[..i]);
    var t := EndIsIntervalEnd(rollSize, rp, start, offset, calls[..i]);
    assert t <= calls[i].now;
    OneMoreCall(rollSize, rp, IntervalEnd(rp, start, offset), calls, i);
    IntervalEndGrows(rp, t, calls[i].now, offset);
    if TimeDemands(calls[i], end) {
      TimedRollAdvances(rp, t, calls[i].now, offset);
    }
  }

  /** Both the timestamp and the clock have reached the mark. */
  predicate TimeDemands(c: Call, end: int) {
    Secs(c.msg.header.timestamp) >= end && c.now >= end
  }

  /** No mark triggers two rolls: after a roll that the time demanded, every later mark lies
      beyond the one that it was demanded by. */
  lemma {:induction false} MarksAdvance(rollSize: int, rp: RollPeriod, start: int, offset: int, calls: seq<Call>,
                                        i: nat, j: nat)
    requires IsMonotone(calls, start, offset) && i < j <= |calls|
    ensures var end := EndAfter(rollSize, rp, IntervalEnd(rp, start, offset), calls[..i]);
      var later := EndAfter(rollSize, rp, IntervalEnd(rp, start, offset), calls[..j]);
      end <= later && (TimeDemands(calls[i], end) ==> end < later)
    decreases j
  {
    EndAdvances(rollSize, rp, start, offset, calls, j - 1);
    if i < j - 1 {
      MarksAdvance(rollSize, rp, start, offset, calls, i, j - 1);
    }
  }
}
