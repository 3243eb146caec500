/** Writing a session log and reading it back (crates/core rollout.rs). */
module Rollout {
  import opened Basics
  import opened LogLines
  import opened SessionSummary

  function LineOf(c: Codec, e: Envelope): Bytes {
    c.serialise(e) + [NL]
  }

  /** What is written on one line is read back from it. */
  ghost predicate RoundTrips(c: Codec) {
    forall e :: NL !in c.serialise(e) && !c.blank(LineOf(c, e)) && c.parse(LineOf(c, e)) == Some(e)
  }

  /** The line end does not matter to reading. */
  ghost predicate IgnoresLineEnds(c: Codec) {
    forall l | IsLine(l) :: EventOn(c, l) == EventOn(c, Content(l))
  }

  // ----- The recorder -----

  /** The log on disk, the writer's running summary, and the cache last written beside the log. */
  datatype Recorder = Recorder(log: Bytes, meta: Summary, cache: Option<Summary>)

  /** One append: it completes, or fails after some of the line reached the disk. */
  datatype Write = Write(e: Envelope, failsAfter: Option<nat>)

  /** A recorder continues from what the log says, or from nothing when the log cannot be read. */
  function Created(c: Codec, cache: Option<Summary>, log: Bytes, read: bool): Recorder {
    Recorder(log, if read then Refreshed(c, cache, log) else FRESH, cache)
  }

  /** The events after which the cache is written. */
  predicate WritesCache(e: Envelope) {
    e.event.SessionStart? || e.event.TurnEnd?
  }

  function Prefix(line: Bytes, n: nat): Bytes {
    if n <= |line| then line[..n] else line
  }

  function Wrote(c: Codec, r: Recorder, w: Write): Recorder {
    var line := LineOf(c, w.e);
    if w.failsAfter.Some? then r.(log := r.log + Prefix(line, w.failsAfter.value))
    else
      var m := ApplyEvent(r.meta.(bytesScanned := r.meta.bytesScanned + |line|), r.meta.bytesScanned, w.e);
      Recorder(r.log + line, m, if WritesCache(w.e) then Some(m) else r.cache)
  }

  function AfterWrites(c: Codec, r: Recorder, ws: seq<Write>): Recorder {
    if ws == [] then r else Wrote(c, AfterWrites(c, r, ws[..|ws| - 1]), ws[|ws| - 1])
  }

  /** Where the fold of a refresh begins. */
  function Resumes(cache: Option<Summary>, log: Bytes): (at: nat)
    ensures at <= |log|
  {
    if Usable(cache, |log|) then cache.value.bytesScanned else 0
  }

  /**
   The bytes on disk the writer never accounted for: a torn tail it found, or a
   whole log it could not read, and failed writes of its own.
   */
  function Lost(c: Codec, cache: Option<Summary>, log: Bytes, read: bool, ws: seq<Write>): nat {
    if ws == [] then if read then |Tail(log[Resumes(cache, log)..])| else |log|
    else
      var last := ws[|ws| - 1];
      Lost(c, cache, log, read, ws[..|ws| - 1]) +
      if last.failsAfter.Some? then |Prefix(LineOf(c, last.e), last.failsAfter.value)| else 0
  }

  // The cache beside the log is the running summary right after a session starts or
  // a turn ends, and what it was after anything else.
  lemma CacheIsCurrentAfter(c: Codec, r: Recorder, e: Envelope)
    ensures var after := Wrote(c, r, Write(e, None));
            match e.event
            case SessionStart(_, _, _) => after.cache == Some(after.meta)
            case TurnEnd(_) => after.cache == Some(after.meta)
            case _ => after.cache == r.cache
  {
  }

  lemma WroteLine(c: Codec, m: Summary, e: Envelope)
    requires RoundTrips(c)
    ensures ApplyEvent(m.(bytesScanned := m.bytesScanned + |LineOf(c, e)|), m.bytesScanned, e) ==
        FoldLine(c, m, LineOf(c, e))
    ensures IsLine(LineOf(c, e))
  {
    assert EventOn(c, LineOf(c, e)) == Some(e);
    assert LineOf(c, e)[..|c.serialise(e)|] == c.serialise(e);
  }

  lemma FoldLineCounts(c: Codec, m: Summary, line: Bytes)
    ensures FoldLine(c, m, line).bytesScanned == m.bytesScanned + |line|
  {
  }

  // At a boundary a completed write keeps the writer's summary equal to a full scan.
  lemma ScanOneMore(c: Codec, log: Bytes, e: Envelope)
    requires RoundTrips(c) && AtBoundary(log)
    ensures Scan(c, log + LineOf(c, e)) == FoldLine(c, Scan(c, log), LineOf(c, e))
    ensures AtBoundary(log + LineOf(c, e))
  {
    WroteLine(c, FRESH, e);
    LinesAtBoundary(log, LineOf(c, e));
    SingleLine(LineOf(c, e));
    FoldOneMore(c, FRESH, Lines(log), LineOf(c, e));
  }

  /** Refreshing may start from this cache: the code would discard it, or it is what a scan once gave. */
  ghost predicate Trusted(c: Codec, cache: Option<Summary>, log: Bytes) {
    Usable(cache, |log|) ==> OnceScanned(c, cache.value, log)
  }

  // Whatever the cache, a recorder starts where its refresh stopped.
  lemma CreatedSummary(c: Codec, cache: Option<Summary>, log: Bytes, read: bool)
    ensures Created(c, cache, log, read).meta.version == VERSION
    ensures Created(c, cache, log, read).meta.bytesScanned + Lost(c, cache, log, read, []) == |log|
  {
    var at := Resumes(cache, log);
    var m := if Usable(cache, |log|) then cache.value else FRESH;
    FoldCountsBytes(c, m, Lines(log[at..]));
    TailIsWhatLinesLeave(log[at..]);
  }

  // From a trusted cache it starts from a scan, and nothing is lost before the
  // first write exactly when the log ends a line.
  lemma CreatedFromTrusted(c: Codec, cache: Option<Summary>, log: Bytes)
    requires Trusted(c, cache, log)
    ensures Created(c, cache, log, true).meta == Scan(c, log)
    ensures Lost(c, cache, log, true, []) == |Tail(log)|
    ensures Lost(c, cache, log, true, []) == 0 <==> AtBoundary(log)
  {
    RefreshAgreesWithScan(c, cache, log);
    CreatedSummary(c, cache, log, true);
    ScanStops(c, log);
    TailIsWhatLinesLeave(log);
  }

  // What the writer accounts for and what it lost are the whole log, whatever
  // cache it started from.
  lemma {:induction false} AccountedAndLost(c: Codec, cache: Option<Summary>, log: Bytes, read: bool, ws: seq<Write>)
    requires RoundTrips(c)
    ensures var r := AfterWrites(c, Created(c, cache, log, read), ws);
            r.meta.bytesScanned + Lost(c, cache, log, read, ws) == |r.log|
  {
    if ws == [] {
      CreatedSummary(c, cache, log, read);
    } else {
      var before := AfterWrites(c, Created(c, cache, log, read), ws[..|ws| - 1]);
      AccountedAndLost(c, cache, log, read, ws[..|ws| - 1]);
      WroteLine(c, before.meta, ws[|ws| - 1].e);
      FoldLineCounts(c, before.meta, LineOf(c, ws[|ws| - 1].e));
    }
  }

  /** What a recorder that lost nothing keeps. */
  ghost predicate InStep(c: Codec, r: Recorder) {
    AtBoundary(r.log) && r.meta == Scan(c, r.log)
  }

  lemma CompletedWrite(c: Codec, r: Recorder, e: Envelope)
    requires RoundTrips(c)
    ensures var m := FoldLine(c, r.meta, LineOf(c, e));
            Wrote(c, r, Write(e, None)) ==
                Recorder(r.log + LineOf(c, e), m, if WritesCache(e) then Some(m) else r.cache)
  {
    WroteLine(c, r.meta, e);
  }

  lemma CompletedWriteKeepsStep(c: Codec, r: Recorder, e: Envelope)
    requires RoundTrips(c) && InStep(c, r)
    ensures InStep(c, Wrote(c, r, Write(e, None)))
  {
    CompletedWrite(c, r, e);
    ScanOneMore(c, r.log, e);
  }

  lemma WriteKeepsStep(c: Codec, r: Recorder, w: Write)
    requires RoundTrips(c) && InStep(c, r)
    requires w.failsAfter.Some? ==> Prefix(LineOf(c, w.e), w.failsAfter.value) == []
    ensures InStep(c, Wrote(c, r, w))
  {
    if w.failsAfter.None? {
      CompletedWriteKeepsStep(c, r, w.e);
    } else {
      assert r.log + [] == r.log;
    }
  }

  lemma {:induction false} NothingLostStaysInStep(c: Codec, cache: Option<Summary>, log: Bytes, read: bool,
      ws: seq<Write>)
    requires RoundTrips(c) && Trusted(c, cache, log) && Lost(c, cache, log, read, ws) == 0
    ensures InStep(c, AfterWrites(c, Created(c, cache, log, read), ws))
  {
    if ws == [] {
      if read {
        CreatedFromTrusted(c, cache, log);
      }
    } else {
      NothingLostStaysInStep(c, cache, log, read, ws[..|ws| - 1]);
      WriteKeepsStep(c, AfterWrites(c, Created(c, cache, log, read), ws[..|ws| - 1]), ws[|ws| - 1]);
    }
  }

  lemma CompletedWriteEndsLine(c: Codec, r: Recorder, e: Envelope)
    ensures AtBoundary(Wrote(c, r, Write(e, None)).log)
  {
    var log := Wrote(c, r, Write(e, None)).log;
    assert log == r.log + c.serialise(e) + [NL];
  }

  lemma ScanCountsAtBoundary(c: Codec, log: Bytes)
    requires AtBoundary(log)
    ensures Scan(c, log).bytesScanned == |log|
  {
    ScanStops(c, log);
    TailIsWhatLinesLeave(log);
  }

  // From a trusted cache: after a completed write the writer's summary is what a
  // scan of the log gives exactly when the log began at a line boundary and no
  // write of the writer's left bytes behind.
  lemma WriterAgreesExactlyWhen(c: Codec, cache: Option<Summary>, log: Bytes, read: bool, ws: seq<Write>)
    requires RoundTrips(c) && Trusted(c, cache, log)
    requires ws != [] && ws[|ws| - 1].failsAfter.None?
    ensures var r := AfterWrites(c, Created(c, cache, log, read), ws);
            r.meta == Scan(c, r.log) <==> Lost(c, cache, log, read, ws) == 0
  {
    var before, last := AfterWrites(c, Created(c, cache, log, read), ws[..|ws| - 1]), ws[|ws| - 1];
    AccountedAndLost(c, cache, log, read, ws);
    assert AfterWrites(c, Created(c, cache, log, read), ws) == Wrote(c, before, Write(last.e, None));
    CompletedWriteEndsLine(c, before, last.e);
    ScanCountsAtBoundary(c, Wrote(c, before, Write(last.e, None)).log);
    if Lost(c, cache, log, read, ws) == 0 {
      NothingLostStaysInStep(c, cache, log, read, ws);
    }
  }

  // A torn tail is enough: after one completed write the writer's summary and a
  // scan differ.
  lemma TornTailSplitsTheViews(c: Codec, e: Envelope)
    requires RoundTrips(c)
    ensures var r := AfterWrites(c, Created(c, None, [65], true), [Write(e, None)]);
            r.meta != Scan(c, r.log)
  {
    var log: Bytes := [65];
    var ws := [Write(e, None)];
    assert FirstLine(log) == None && Tail(log) == log;
    assert Lost(c, None, log, true, ws[..0]) == 1 && Lost(c, None, log, true, ws) == 1;
    WriterAgreesExactlyWhen(c, None, log, true, ws);
  }

  // ----- Listing after bytes were lost -----

  lemma {:induction false} VersionKept(c: Codec, r: Recorder, ws: seq<Write>)
    requires r.meta.version == VERSION
    ensures AfterWrites(c, r, ws).meta.version == VERSION
  {
    if ws != [] {
      VersionKept(c, r, ws[..|ws| - 1]);
    }
  }

  /** The lines of the writes that completed. */
  function Completed(c: Codec, ws: seq<Write>): seq<Bytes> {
    if ws == [] then []
    else
      var last := ws[|ws| - 1];
      Completed(c, ws[..|ws| - 1]) + if last.failsAfter.None? then [LineOf(c, last.e)] else []
  }

  // The writer's summary is what it began with and each completed write, once.
  lemma {:induction false} WriterCountsCompletedWrites(c: Codec, r: Recorder, ws: seq<Write>)
    requires RoundTrips(c)
    ensures AfterWrites(c, r, ws).meta == FoldLines(c, r.meta, Completed(c, ws))
  {
    if ws != [] {
      var init, last := ws[..|ws| - 1], ws[|ws| - 1];
      WriterCountsCompletedWrites(c, r, init);
      if last.failsAfter.None? {
        CompletedWrite(c, AfterWrites(c, r, init), last.e);
        FoldOneMore(c, r.meta, Completed(c, init), LineOf(c, last.e));
      } else {
        assert Completed(c, init) + [] == Completed(c, init);
      }
    }
  }

  // A cache is refreshed with what follows the bytes it accounts for.
  lemma RefreshFrom(c: Codec, m: Summary, log: Bytes, more: Bytes)
    requires m.version == VERSION && m.bytesScanned <= |log|
    ensures Refreshed(c, Some(m), log + more) == FoldLines(c, m, Lines(log[m.bytesScanned..] + more))
  {
    DropOfAppend(log, more, m.bytesScanned);
  }

  // Whoever lists a closed session later sees the writer's summary with the last
  // bytes of the log, as many as were lost, folded on top of it, wherever in a
  // line they begin.
  lemma ListingAfterLoss(c: Codec, cache: Option<Summary>, log: Bytes, read: bool, ws: seq<Write>, more: Bytes)
    requires RoundTrips(c)
    ensures var r := AfterWrites(c, Created(c, cache, log, read), ws);
            var lost := Lost(c, cache, log, read, ws);
            && r.meta.bytesScanned == |r.log| - lost && r.meta.version == VERSION
            && Refreshed(c, Some(r.meta), r.log + more) ==
                FoldLines(c, r.meta, Lines(r.log[r.meta.bytesScanned..] + more))
  {
    var r := AfterWrites(c, Created(c, cache, log, read), ws);
    AccountedAndLost(c, cache, log, read, ws);
    CreatedSummary(c, cache, log, read);
    VersionKept(c, Created(c, cache, log, read), ws);
    RefreshFrom(c, r.meta, r.log, more);
  }

  lemma OffsetRealigned(c: Codec, m: Summary, log: Bytes, more: Bytes)
    requires m.version == VERSION && m.bytesScanned <= |log| && AtBoundary(log)
    ensures Refreshed(c, Some(m), log + more).bytesScanned == Scan(c, log + more).bytesScanned
  {
    var again := log[m.bytesScanned..];
    RefreshFrom(c, m, log, more);
    LinesAtBoundary(again, more);
    LinesAtBoundary(log, more);
    FoldCountsBytes(c, m, Lines(again + more));
    TailIsWhatLinesLeave(again + more);
    ScanStops(c, log + more);
  }

  // After a completed write that listing's offset is right again, so every later
  // one goes on from there: what was counted wrong stays wrong.
  lemma OffsetIsRightAfterLoss(c: Codec, cache: Option<Summary>, log: Bytes, read: bool, ws: seq<Write>, more: Bytes)
    requires RoundTrips(c)
    requires ws != [] && ws[|ws| - 1].failsAfter.None?
    ensures var r := AfterWrites(c, Created(c, cache, log, read), ws);
            Refreshed(c, Some(r.meta), r.log + more).bytesScanned == Scan(c, r.log + more).bytesScanned
  {
    var made := Created(c, cache, log, read);
    var r := AfterWrites(c, made, ws);
    AccountedAndLost(c, cache, log, read, ws);
    CreatedSummary(c, cache, log, read);
    VersionKept(c, made, ws);
    CompletedWriteEndsLine(c, AfterWrites(c, made, ws[..|ws| - 1]), ws[|ws| - 1].e);
    OffsetRealigned(c, r.meta, r.log, more);
  }

  lemma GarbledLine(line: Bytes)
    requires IsLine(line)
    ensures IsLine([65] + line) && IsLine([NL])
  {
    var all := [65] + line;
    assert all[..|all| - 1] == [65] + line[..|line| - 1];
  }

  lemma OneUnreadableLine(c: Codec, m: Summary, line: Bytes, more: Bytes)
    requires IsLine(line) && EventOn(c, line) == None
    ensures FoldLines(c, m, Lines(line + more)).usage == m.usage.Plus(Bill(c, Lines(more)))
  {
    SingleLine(line);
    LinesAtBoundary(line, more);
    UsageGrowsByTheBill(c, m, [line] + Lines(more));
    assert ([line] + Lines(more))[1..] == Lines(more);
  }

  lemma OneWriteAfterTornTail(c: Codec, e: Envelope)
    requires RoundTrips(c)
    ensures var r := AfterWrites(c, Created(c, None, [65], true), [Write(e, None)]);
            r.log == [65] + LineOf(c, e) && r.meta == FoldLine(c, FRESH, LineOf(c, e))
  {
    var log: Bytes := [65];
    assert log[0..] == log && FirstLine(log) == None;
    assert [Write(e, None)][..0] == [];
    CompletedWrite(c, Created(c, None, log, true), e);
  }

  lemma PlusCommutes(a: Usage, b: Usage)
    ensures a.Plus(b) == b.Plus(a) && NO_USAGE.Plus(a) == a
  {
  }

  lemma TurnIsBilled(c: Codec, e: Envelope)
    requires RoundTrips(c) && e.event.TurnEnd?
    ensures var m := FoldLine(c, FRESH, LineOf(c, e));
            m.usage == e.event.usage && m.version == VERSION && m.bytesScanned == |LineOf(c, e)|
    ensures IsLine(LineOf(c, e))
  {
    WroteLine(c, FRESH, e);
    FoldLineCounts(c, FRESH, LineOf(c, e));
  }

  lemma GarbledTurn(c: Codec, m: Summary, line: Bytes, more: Bytes)
    requires IsLine(line) && m.version == VERSION && m.bytesScanned == |line|
    requires EventOn(c, [65] + line) == None && EventOn(c, [NL]) == None
    ensures Refreshed(c, Some(m), [65] + line + more).usage == Scan(c, [65] + line + more).usage.Plus(m.usage)
  {
    assert ([65] + line)[|line|..] == [NL];
    RefreshFrom(c, m, [65] + line, more);
    GarbledLine(line);
    OneUnreadableLine(c, m, [NL], more);
    OneUnreadableLine(c, FRESH, [65] + line, more);
    PlusCommutes(m.usage, Bill(c, Lines(more)));
    PlusCommutes(Bill(c, Lines(more)), NO_USAGE);
  }

  // A turn written after a torn tail is billed in every later listing and in no
  // scan, however the log grows, if its line is unreadable behind the torn bytes.
  lemma ListingsNeverAgreeAgain(c: Codec, e: Envelope, more: Bytes)
    requires RoundTrips(c) && e.event.TurnEnd? && e.event.usage != NO_USAGE
    requires EventOn(c, [65] + LineOf(c, e)) == None && EventOn(c, [NL]) == None
    ensures var r := AfterWrites(c, Created(c, None, [65], true), [Write(e, None)]);
            && Refreshed(c, Some(r.meta), r.log + more).usage == Scan(c, r.log + more).usage.Plus(e.event.usage)
            && Refreshed(c, Some(r.meta), r.log + more) != Scan(c, r.log + more)
  {
    var r := AfterWrites(c, Created(c, None, [65], true), [Write(e, None)]);
    OneWriteAfterTornTail(c, e);
    TurnIsBilled(c, e);
    GarbledTurn(c, r.meta, LineOf(c, e), more);
  }

  lemma PlusRearranges(a: Usage, b: Usage, c: Usage)
    ensures a.Plus(b).Plus(c) == a.Plus(c).Plus(b)
  {
  }

  // A completed write carries an overcount on.
  lemma OvercountStays(c: Codec, m: Summary, log: Bytes, over: Usage, f: Envelope)
    requires RoundTrips(c) && AtBoundary(log)
    requires m.usage == Scan(c, log).usage.Plus(over)
    ensures FoldLine(c, m, LineOf(c, f)).usage == Scan(c, log + LineOf(c, f)).usage.Plus(over)
  {
    var line := LineOf(c, f);
    ScanOneMore(c, log, f);
    LineUsage(c, m, line);
    LineUsage(c, Scan(c, log), line);
    PlusRearranges(Scan(c, log).usage, over, Spent(EventOf(c, line)));
  }

  lemma OneMoreWrite(c: Codec, cache: Option<Summary>, log: Bytes, f: Envelope)
    requires RoundTrips(c)
    ensures var second := AfterWrites(c, Created(c, cache, log, true), [Write(f, None)]);
            && second.log == log + LineOf(c, f)
            && second.meta == FoldLine(c, Refreshed(c, cache, log), LineOf(c, f))
    ensures Lost(c, cache, log, true, [Write(f, None)]) == |Tail(log[Resumes(cache, log)..])|
  {
    assert [Write(f, None)][..0] == [];
    CompletedWrite(c, Created(c, cache, log, true), f);
  }

  lemma BoundaryBehindTornByte(line: Bytes)
    requires IsLine(line)
    ensures AtBoundary([65] + line) && ([65] + line)[|line|..] == [NL] && Tail([NL]) == []
  {
    GarbledLine(line);
    SingleLine([NL]);
  }

  lemma {:induction false} ResumedOvercount(c: Codec, m: Summary, line: Bytes, over: Usage, f: Envelope)
    requires RoundTrips(c) && IsLine(line) && over != NO_USAGE
    requires m.version == VERSION && m.bytesScanned == |line|
    requires Refreshed(c, Some(m), [65] + line).usage == Scan(c, [65] + line).usage.Plus(over)
    ensures var log := [65] + line;
            var second := AfterWrites(c, Created(c, Some(m), log, true), [Write(f, None)]);
            && AtBoundary(log) && Lost(c, Some(m), log, true, [Write(f, None)]) == 0
            && second.meta != Scan(c, second.log)
  {
    var log := [65] + line;
    BoundaryBehindTornByte(line);
    OneMoreWrite(c, Some(m), log, f);
    OvercountStays(c, Refreshed(c, Some(m), log), log, over, f);
  }

  // And a writer that resumes from that cache is wrong although the log ends a
  // line and no byte is lost.
  lemma {:induction false} ResumedFromBadCache(c: Codec, e: Envelope, f: Envelope)
    requires RoundTrips(c) && e.event.TurnEnd? && e.event.usage != NO_USAGE
    requires EventOn(c, [65] + LineOf(c, e)) == None && EventOn(c, [NL]) == None
    ensures var first := AfterWrites(c, Created(c, None, [65], true), [Write(e, None)]);
            var cache, log := Some(first.meta), first.log;
            var second := AfterWrites(c, Created(c, cache, log, true), [Write(f, None)]);
            && AtBoundary(log) && Lost(c, cache, log, true, [Write(f, None)]) == 0
            && second.meta != Scan(c, second.log)
  {
    var first := AfterWrites(c, Created(c, None, [65], true), [Write(e, None)]);
    OneWriteAfterTornTail(c, e);
    TurnIsBilled(c, e);
    GarbledTurn(c, first.meta, LineOf(c, e), []);
    assert first.log + [] == first.log;
    ResumedOvercount(c, first.meta, LineOf(c, e), e.event.usage, f);
  }

  class RolloutRecorder {
    var log: Bytes
    var cache: Option<Summary>
    const meta: SessionMeta

    function View(): Recorder
      reads this, meta
    {
      Recorder(log, meta.View(), cache)
    }

    constructor (c: Codec, cache: Option<Summary>, log: Bytes, read: bool)
      ensures fresh(meta) && View() == Created(c, cache, log, read)
    {
      var m;
      if read {
        m := Refresh(c, cache, log);
      } else {
        m := new SessionMeta(FRESH);
      }
      this.log := log;
      this.cache := cache;
      meta := m;
    }

    /** Append one event; `failsAfter` is where the write fails, if it does. */
    method Append(c: Codec, e: Envelope, failsAfter: Option<nat>) returns (ok: bool)
      modifies this, meta
      ensures View() == Wrote(c, old(View()), Write(e, failsAfter)) && ok == failsAfter.None?
    {
      var line := c.serialise(e) + [NL];
      if failsAfter.Some? {
        log := log + Prefix(line, failsAfter.value);
        return false;
      }
      log := log + line;
      meta.Append(|line|, e);
      if WritesCache(e) {
        cache := Some(meta.View());
      }
      ok := true;
    }

    method Close()
      modifies this
      ensures View() == old(View()).(cache := Some(old(View()).meta))
    {
      cache := Some(meta.View());
    }
  }

  // ----- Reading back -----

  function Contents(lines: seq<Bytes>): seq<Bytes>
    requires forall l | l in lines :: IsLine(l)
  {
    if lines == [] then [] else [Content(lines[0])] + Contents(lines[1..])
  }

  /** The events that can be read, in order; the rest is skipped. */
  function Readable(c: Codec, pieces: seq<Bytes>): seq<Envelope> {
    if pieces == [] then []
    else (match EventOn(c, pieces[0]) case Some(e) => [e] case None => []) + Readable(c, pieces[1..])
  }

  /** A text line by line, a torn one at the end included. */
  function Pieces(text: Bytes): seq<Bytes> {
    LinesAreLines(text);
    Contents(Lines(text)) + if Tail(text) == [] then [] else [Tail(text)]
  }

  function ReadLogFrom(c: Codec, log: Bytes, from: nat): seq<Envelope> {
    if from > |log| then [] else Readable(c, Pieces(log[from..]))
  }

  function ReadLog(c: Codec, log: Bytes): seq<Envelope> {
    ReadLogFrom(c, log, 0)
  }

  lemma {:induction false} ReadableConcat(c: Codec, a: seq<Bytes>, b: seq<Bytes>)
    ensures Readable(c, a + b) == Readable(c, a) + Readable(c, b)
  {
    if a == [] {
      assert a + b == b;
    } else {
      assert (a + b)[1..] == a[1..] + b;
      ReadableConcat(c, a[1..], b);
    }
  }

  lemma {:induction false} ContentsConcat(a: seq<Bytes>, b: seq<Bytes>)
    requires forall l | l in a + b :: IsLine(l)
    requires forall l | l in a :: IsLine(l)
    requires forall l | l in b :: IsLine(l)
    ensures Contents(a + b) == Contents(a) + Contents(b)
  {
    if a == [] {
      assert a + b == b;
      assert [] + Contents(b) == Contents(b);
    } else {
      assert (a + b)[1..] == a[1..] + b;
      ContentsConcat(a[1..], b);
      Regroup([Content(a[0])], Contents(a[1..]), Contents(b));
    }
  }

  // Reading from a line boundary gives exactly the rest of what reading from
  // the beginning gives.
  lemma ReadLogSplits(c: Codec, log: Bytes, at: nat)
    requires at <= |log| && AtBoundary(log[..at])
    ensures ReadLog(c, log) == ReadLog(c, log[..at]) + ReadLogFrom(c, log, at)
  {
    var a, b := log[..at], log[at..];
    assert a + b == log && log[0..] == log && a[0..] == a;
    LinesAtBoundary(a, b);
    TailIsWhatLinesLeave(a);
    LinesAreLines(a);
    LinesAreLines(b);
    LinesAreLines(log);
    ContentsConcat(Lines(a), Lines(b));
    var torn := if Tail(b) == [] then [] else [Tail(b)];
    ReadableConcat(c, Contents(Lines(a)), Contents(Lines(b)) + torn);
    Regroup(Contents(Lines(a)), Contents(Lines(b)), torn);
    assert Contents(Lines(a)) + [] == Contents(Lines(a));
  }

  lemma PrependLine(first: Bytes, rest: Bytes)
    requires IsLine(first)
    ensures Lines(first + rest) == [first] + Lines(rest)
  {
    SingleLine(first);
    LinesAtBoundary(first, rest);
  }

  lemma {:induction false} LinesOfFlatten(lines: seq<Bytes>, rest: Bytes)
    requires forall l | l in lines :: IsLine(l)
    ensures Lines(Flatten(lines) + rest) == lines + Lines(rest)
  {
    if lines == [] {
      assert [] + rest == rest;
      assert [] + Lines(rest) == Lines(rest);
    } else {
      var first, others := lines[0], lines[1..];
      LinesOfFlatten(others, rest);
      assert first in lines;
      PrependLine(first, Flatten(others) + rest);
      FlattenCons(first, others);
      assert [first] + others == lines;
      Regroup(first, Flatten(others), rest);
      Reassociate(first, others, Lines(rest));
    }
  }

  // A log cut where one of its lines begins.
  lemma CutAtLine(log: Bytes, i: nat)
    requires i <= |Lines(log)|
    ensures log == Flatten(Lines(log)[..i]) + (Flatten(Lines(log)[i..]) + Tail(log))
  {
    var lines := Lines(log);
    LinesAndTail(log);
    FlattenConcat(lines[..i], lines[i..]);
    assert lines[..i] + lines[i..] == lines;
    Regroup(Flatten(lines[..i]), Flatten(lines[i..]), Tail(log));
  }

  lemma Halves(log: Bytes, before: Bytes, after: Bytes)
    requires log == before + after
    ensures |before| <= |log| && log[..|before|] == before && log[|before|..] == after
  {
  }

  lemma NoNewlineNoLines(s: Bytes)
    requires NL !in s
    ensures Lines(s) == []
  {
  }

  // The line that begins at a recorded baseline, and what lies before it.
  lemma LinesFromBaseline(log: Bytes, i: nat)
    requires i < |Lines(log)|
    ensures var at := StartOf(Lines(log), i);
            at <= |log| && AtBoundary(log[..at]) && Lines(log[at..]) == Lines(log)[i..]
  {
    var lines := Lines(log);
    CutAtLine(log, i);
    LinesAreLines(log);
    TailHasNoNewline(log);
    var before, after := Flatten(lines[..i]), Flatten(lines[i..]) + Tail(log);
    Halves(log, before, after);
    FlattenEndsInNewline(lines[..i]);
    LinesOfFlatten(lines[i..], Tail(log));
    NoNewlineNoLines(Tail(log));
  }

  lemma FirstIsRead(c: Codec, log: Bytes, at: nat)
    requires IgnoresLineEnds(c)
    requires at <= |log| && Lines(log[at..]) != [] && EventOn(c, Lines(log[at..])[0]).Some?
    ensures ReadLogFrom(c, log, at) != [] && Some(ReadLogFrom(c, log, at)[0]) == EventOn(c, Lines(log[at..])[0])
  {
    var text := log[at..];
    LinesAreLines(text);
    var first := Lines(text)[0];
    assert first in Lines(text);
    var pieces := Contents(Lines(text)) + if Tail(text) == [] then [] else [Tail(text)];
    assert pieces[0] == Content(first);
  }

  lemma ReadableOneMore(c: Codec, pieces: seq<Bytes>, piece: Bytes)
    ensures Readable(c, pieces + [piece]) ==
            Readable(c, pieces) + match EventOn(c, piece) case Some(e) => [e] case None => []
  {
    ReadableConcat(c, pieces, [piece]);
    assert [piece][1..] == [];
  }

  lemma ReadableHas(c: Codec, pieces: seq<Bytes>) returns (places: seq<nat>)
    ensures |places| == |Readable(c, pieces)|
    ensures forall k | 0 <= k < |places| ::
              places[k] < |pieces| && EventOn(c, pieces[places[k]]) == Some(Readable(c, pieces)[k])
    ensures forall k | 0 <= k < |places| - 1 :: places[k] < places[k + 1]
    ensures forall i | 0 <= i < |pieces| && EventOn(c, pieces[i]).Some? :: i in places
  {
    places := [];
    for n := 0 to |pieces|
      invariant |places| == |Readable(c, pieces[..n])|
      invariant forall k | 0 <= k < |places| ::
                  places[k] < n && EventOn(c, pieces[places[k]]) == Some(Readable(c, pieces[..n])[k])
      invariant forall k | 0 <= k < |places| - 1 :: places[k] < places[k + 1]
      invariant forall i | 0 <= i < n && EventOn(c, pieces[i]).Some? :: i in places
    {
      ReadableOneMore(c, pieces[..n], pieces[n]);
      assert pieces[..n + 1] == pieces[..n] + [pieces[n]];
      if EventOn(c, pieces[n]).Some? {
        places := places + [n];
      }
    }
    assert pieces[..|pieces|] == pieces;
  }

  lemma {:induction false} ContentsAre(lines: seq<Bytes>, i: nat)
    requires (forall l | l in lines :: IsLine(l)) && i < |lines|
    ensures |Contents(lines)| == |lines| && Contents(lines)[i] == Content(lines[i])
  {
    if |lines| > 1 {
      ContentsAre(lines[1..], if i > 0 then i - 1 else 0);
    }
  }

  // A log's pieces are its lines, with the torn tail, if there is one, last.
  lemma PiecesAre(log: Bytes, i: nat)
    requires i < |Pieces(log)|
    ensures |Pieces(log)| == |Lines(log)| + if Tail(log) == [] then 0 else 1
    ensures if i < |Lines(log)| then IsLine(Lines(log)[i]) && Pieces(log)[i] == Content(Lines(log)[i])
            else Pieces(log)[i] == Tail(log)
  {
    LinesAreLines(log);
    if Lines(log) != [] {
      var k := if i < |Lines(log)| then i else 0;
      assert Lines(log)[k] in Lines(log);
      ContentsAre(Lines(log), k);
    }
  }

  // Reading a log gives the event of every line that has one, and of the torn tail
  // if it has one: each once, and in the order of the log.
  lemma ReadsEachLineOnce(c: Codec, log: Bytes) returns (places: seq<nat>)
    ensures |places| == |ReadLog(c, log)|
    ensures forall k | 0 <= k < |places| ::
              places[k] < |Pieces(log)| && EventOn(c, Pieces(log)[places[k]]) == Some(ReadLog(c, log)[k])
    ensures forall k | 0 <= k < |places| - 1 :: places[k] < places[k + 1]
    ensures forall i | 0 <= i < |Pieces(log)| && EventOn(c, Pieces(log)[i]).Some? :: i in places
  {
    assert log[0..] == log;
    places := ReadableHas(c, Pieces(log));
  }

  function AllComplete(es: seq<Envelope>): (ws: seq<Write>)
    ensures |ws| == |es|
  {
    if es == [] then [] else AllComplete(es[..|es| - 1]) + [Write(es[|es| - 1], None)]
  }

  lemma LineReads(c: Codec, line: Bytes, e: Envelope)
    requires IgnoresLineEnds(c) && IsLine(line) && EventOn(c, line) == Some(e)
    ensures Readable(c, Pieces(line)) == [e]
  {
    SingleLine(line);
    var piece := Content(line);
    assert EventOn(c, piece) == Some(e);
    ContentsAre([line], 0);
    assert Pieces(line) == [piece];
    ReadableOneMore(c, [], piece);
    assert [] + [piece] == [piece];
  }

  lemma OneLineIsRead(c: Codec, log: Bytes, e: Envelope)
    requires RoundTrips(c) && IgnoresLineEnds(c) && AtBoundary(log)
    ensures ReadLog(c, log + LineOf(c, e)) == ReadLog(c, log) + [e]
  {
    var line := LineOf(c, e);
    WroteLine(c, FRESH, e);
    assert EventOn(c, line) == Some(e);
    LineReads(c, line, e);
    Halves(log + line, log, line);
    ReadLogSplits(c, log + line, |log|);
  }

  lemma AllCompleteOneMore(c: Codec, r: Recorder, es: seq<Envelope>)
    requires RoundTrips(c) && es != []
    ensures AfterWrites(c, r, AllComplete(es)).log ==
            AfterWrites(c, r, AllComplete(es[..|es| - 1])).log + LineOf(c, es[|es| - 1])
    ensures AtBoundary(AfterWrites(c, r, AllComplete(es)).log)
  {
    var before, last := AfterWrites(c, r, AllComplete(es[..|es| - 1])), es[|es| - 1];
    assert AllComplete(es)[..|es| - 1] == AllComplete(es[..|es| - 1]);
    CompletedWrite(c, before, last);
    CompletedWriteEndsLine(c, before, last);
  }

  // What was written one event after another is read back, to the event.
  lemma {:induction false} WrittenIsRead(c: Codec, r: Recorder, es: seq<Envelope>)
    requires RoundTrips(c) && IgnoresLineEnds(c) && AtBoundary(r.log)
    ensures var after := AfterWrites(c, r, AllComplete(es));
            AtBoundary(after.log) && ReadLog(c, after.log) == ReadLog(c, r.log) + es
  {
    if es == [] {
      assert ReadLog(c, r.log) + [] == ReadLog(c, r.log);
    } else {
      var init, last := es[..|es| - 1], es[|es| - 1];
      WrittenIsRead(c, r, init);
      AllCompleteOneMore(c, r, es);
      OneLineIsRead(c, AfterWrites(c, r, AllComplete(init)).log, last);
      Regroup(ReadLog(c, r.log), init, [last]);
      assert init + [last] == es;
    }
  }

  lemma EmptyLogReadsNothing(c: Codec)
    ensures ReadLog(c, []) == []
  {
    var log: Bytes := [];
    assert log[0..] == log;
  }

  // A resume that seeks to the recorded baseline reads the log from exactly the
  // last newline-terminated event history can be rebuilt from, and misses
  // nothing after it.
  lemma SeekingToTheBaseline(c: Codec, log: Bytes)
    requires IgnoresLineEnds(c)
    requires Scan(c, log).baseline.Some?
    ensures var at := Scan(c, log).baseline.value;
            var tail := ReadLogFrom(c, log, at);
            && at <= |log| && AtBoundary(log[..at])
            && ReadLog(c, log) == ReadLog(c, log[..at]) + tail
            && tail != [] && IsBaseline(Some(tail[0].event))
            && forall j | 0 < j < |Lines(log[at..])| :: !IsBaseline(EventOf(c, Lines(log[at..])[j]))
  {
    BaselineOfLines(c, Lines(log));
    var at := Scan(c, log).baseline.value;
    var i: nat :| LastBaseline(c, Lines(log), i) && at == StartOf(Lines(log), i);
    LinesFromBaseline(log, i);
    ReadLogSplits(c, log, at);
    FirstIsRead(c, log, at);
  }

  // With no baseline recorded, no complete line of the log is one.
  lemma NoBaselineRecorded(c: Codec, log: Bytes, i: nat)
    requires Scan(c, log).baseline.None? && i < |Lines(log)|
    ensures !IsBaseline(EventOf(c, Lines(log)[i]))
  {
    BaselineOfLines(c, Lines(log));
    var k := |Lines(log)| - 1;
    while k > i && !IsBaseline(EventOf(c, Lines(log)[k]))
      invariant i <= k < |Lines(log)|
      invariant forall j | k < j < |Lines(log)| :: !IsBaseline(EventOf(c, Lines(log)[j]))
    {
      k := k - 1;
    }
    assert !LastBaseline(c, Lines(log), k);
  }
}
