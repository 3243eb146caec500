/**
 The life of one session's log: writers open it, append to it, close or die, and
 listings refresh the cache beside it in between (crates/core rollout.rs, meta.rs,
 resume.rs). At most one writer is open at a time.
 */
module SessionHistory {
  import opened Basics
  import opened LogLines
  import opened SessionSummary
  import opened Rollout

  /** The log, the cache beside it, and the running summary of the writer that is open, if one is. */
  datatype State = State(log: Bytes, cache: Option<Summary>, writer: Option<Summary>)

  datatype Step =
    | Open(read: bool)
    | Append(w: Write)
    | List
    | Close
    | Die

  predicate Enabled(s: State, step: Step) {
    match step
    case Open(_) => s.writer.None?
    case Append(_) => s.writer.Some?
    case List => true
    case Close => s.writer.Some?
    case Die => s.writer.Some?
  }

  function Next(c: Codec, s: State, step: Step): State
    requires Enabled(s, step)
  {
    match step
    case Open(read) => s.(writer := Some(Created(c, s.cache, s.log, read).meta))
    case Append(w) =>
      var r := Wrote(c, Recorder(s.log, s.writer.value, s.cache), w);
      State(r.log, r.cache, Some(r.meta))
    case List => s.(cache := Some(Refreshed(c, s.cache, s.log)))
    case Close => s.(cache := s.writer, writer := None)
    case Die => s.(writer := None)
  }

  ghost predicate History(c: Codec, states: seq<State>, steps: seq<Step>) {
    && |states| == |steps| + 1
    && states[0].writer == None && Honest(c, states[0].cache, states[0].log)
    && forall i | 0 <= i < |steps| :: Enabled(states[i], steps[i]) && states[i + 1] == Next(c, states[i], steps[i])
  }

  predicate Completes(step: Step) {
    step.Append? && step.w.failsAfter.None?
  }

  /** The open writer accounts for the whole log: no torn tail and no failed write lies behind its offset. */
  predicate AtTheEnd(s: State) {
    s.writer.Some? && s.writer.value.bytesScanned == |s.log|
  }

  predicate Agrees(c: Codec, s: State) {
    s.writer.Some? && s.writer.value == Scan(c, s.log)
  }

  /** Neither the cache nor the writer's summary misleads. */
  ghost predicate Sound(c: Codec, s: State) {
    && Honest(c, s.cache, s.log)
    && (s.writer.Some? ==> s.writer.value.version == VERSION && OnceScanned(c, s.writer.value, s.log))
  }

  // A summary that was a scan once, and accounts for the whole log, is its scan.
  lemma ScannedToTheEnd(c: Codec, m: Summary, log: Bytes)
    requires OnceScanned(c, m, log) && m.bytesScanned == |log|
    ensures m == Scan(c, log) && AtBoundary(log)
  {
    var n :| 0 <= n <= |log| && m == Scan(c, log[..n]);
    ScanStops(c, log[..n]);
    assert log[..n] == log;
    TailIsWhatLinesLeave(log);
  }

  lemma NothingScanned(c: Codec, log: Bytes)
    ensures OnceScanned(c, FRESH, log)
  {
    assert log[..0] == [] && Scan(c, []) == FRESH;
  }

  lemma OpenKeepsSound(c: Codec, s: State, read: bool)
    requires Sound(c, s) && s.writer.None?
    ensures Sound(c, Next(c, s, Open(read)))
  {
    RefreshAgreesWithScan(c, s.cache, s.log);
    ScanStops(c, s.log);
    ScannedNow(c, s.log);
    NothingScanned(c, s.log);
  }

  lemma CompletedKeepsSound(c: Codec, s: State, e: Envelope)
    requires RoundTrips(c) && Sound(c, s) && AtTheEnd(s)
    ensures Sound(c, Next(c, s, Append(Write(e, None)))) && Agrees(c, Next(c, s, Append(Write(e, None))))
  {
    var line := LineOf(c, e);
    ScannedToTheEnd(c, s.writer.value, s.log);
    CompletedWrite(c, Recorder(s.log, s.writer.value, s.cache), e);
    ScanOneMore(c, s.log, e);
    ScanStops(c, s.log + line);
    ScannedNow(c, s.log + line);
    HonestAsTheLogGrows(c, s.cache, s.log, line);
  }

  lemma FailedKeepsSound(c: Codec, s: State, w: Write)
    requires Sound(c, s) && s.writer.Some? && w.failsAfter.Some?
    ensures Sound(c, Next(c, s, Append(w)))
  {
    var part := Prefix(LineOf(c, w.e), w.failsAfter.value);
    HonestAsTheLogGrows(c, s.cache, s.log, part);
    OnceScannedAsTheLogGrows(c, s.writer.value, s.log, part);
  }

  // A step keeps the cache and the writer sound if a write that completes finds
  // the writer at the end of the log.
  lemma StepKeepsSound(c: Codec, s: State, step: Step)
    requires RoundTrips(c) && Sound(c, s) && Enabled(s, step)
    requires Completes(step) ==> AtTheEnd(s)
    ensures Sound(c, Next(c, s, step))
    ensures Completes(step) ==> Agrees(c, Next(c, s, step))
  {
    match step
    case Open(read) => OpenKeepsSound(c, s, read);
    case Append(w) =>
      if w.failsAfter.None? {
        CompletedKeepsSound(c, s, w.e);
      } else {
        FailedKeepsSound(c, s, w);
      }
    case List =>
      RefreshAgreesWithScan(c, s.cache, s.log);
      ScannedNow(c, s.log);
    case _ =>
  }

  // A listing may come at any time, a writer open or not; it writes what a scan
  // shows and leaves the writer alone.
  lemma ListingWritesTheScan(c: Codec, s: State)
    requires Sound(c, s)
    ensures Enabled(s, List) && Next(c, s, List) == s.(cache := Some(Scan(c, s.log)))
  {
    RefreshAgreesWithScan(c, s.cache, s.log);
  }

  // A writer ends in one of two ways, and either makes room for the next: closing
  // leaves its summary as the cache, dying leaves the cache as it was.
  lemma WriterEnds(c: Codec, s: State)
    ensures s.writer.Some? <==> Enabled(s, Close)
    ensures s.writer.Some? <==> Enabled(s, Die)
    ensures s.writer.Some? ==>
              Next(c, s, Close) == State(s.log, s.writer, None) && Next(c, s, Die) == State(s.log, s.cache, None)
  {
  }

  // A writer that closes at the end of the log leaves a cache that is the scan.
  lemma ClosingLeavesTheScan(c: Codec, s: State)
    requires Sound(c, s) && AtTheEnd(s)
    ensures Enabled(s, Close) && Next(c, s, Close).cache == Some(Scan(c, s.log))
  {
    ScannedToTheEnd(c, s.writer.value, s.log);
  }

  // Whatever went before, a writer whose summary equals a scan after a completed
  // write was at the end of the log before it.
  lemma AgreesOnlyFromTheEnd(c: Codec, s: State, e: Envelope)
    requires RoundTrips(c) && s.writer.Some?
    requires Agrees(c, Next(c, s, Append(Write(e, None))))
    ensures AtTheEnd(s)
  {
    var r := Recorder(s.log, s.writer.value, s.cache);
    CompletedWrite(c, r, e);
    FoldLineCounts(c, s.writer.value, LineOf(c, e));
    CompletedWriteEndsLine(c, r, e);
    ScanCountsAtBoundary(c, s.log + LineOf(c, e));
  }

  lemma {:induction false} SoundUpTo(c: Codec, states: seq<State>, steps: seq<Step>, n: nat)
    requires RoundTrips(c) && History(c, states, steps) && n < |states|
    requires forall k | 0 <= k < n && Completes(steps[k]) :: AtTheEnd(states[k])
    ensures Sound(c, states[n])
  {
    if n > 0 {
      SoundUpTo(c, states, steps, n - 1);
      StepKeepsSound(c, states[n - 1], steps[n - 1]);
    }
  }

  // Over any history that begins with an honest cache: the running summary of
  // every writer equals a scan of the log after each of its completed writes,
  // exactly when each of those writes found the writer at the end of the log.
  lemma WritersAgreeExactlyWhen(c: Codec, states: seq<State>, steps: seq<Step>)
    requires RoundTrips(c) && History(c, states, steps)
    ensures (forall n | 0 <= n < |steps| && Completes(steps[n]) :: Agrees(c, states[n + 1])) <==>
            (forall n | 0 <= n < |steps| && Completes(steps[n]) :: AtTheEnd(states[n]))
  {
    if forall n | 0 <= n < |steps| && Completes(steps[n]) :: AtTheEnd(states[n]) {
      forall n | 0 <= n < |steps| && Completes(steps[n])
        ensures Agrees(c, states[n + 1])
      {
        SoundUpTo(c, states, steps, n);
        StepKeepsSound(c, states[n], steps[n]);
      }
    } else {
      var n :| 0 <= n < |steps| && Completes(steps[n]) && !AtTheEnd(states[n]);
      if Agrees(c, states[n + 1]) {
        AgreesOnlyFromTheEnd(c, states[n], steps[n].w.e);
      }
    }
  }

  // And until the first write that does not, every listing and every writer that
  // opens a readable log starts from what a scan would show.
  lemma LaterListingAgrees(c: Codec, states: seq<State>, steps: seq<Step>, n: nat)
    requires RoundTrips(c) && History(c, states, steps) && n < |states|
    requires forall k | 0 <= k < n && Completes(steps[k]) :: AtTheEnd(states[k])
    ensures Refreshed(c, states[n].cache, states[n].log) == Scan(c, states[n].log)
  {
    SoundUpTo(c, states, steps, n);
    RefreshAgreesWithScan(c, states[n].cache, states[n].log);
  }

  /** The bytes on disk the open writer never accounted for. */
  function Behind(s: State): int {
    if s.writer.Some? then |s.log| - s.writer.value.bytesScanned else 0
  }

  /** What a step leaves behind the writer, of which `before` was behind already. */
  function Leaves(c: Codec, s: State, step: Step, before: int): int {
    match step
    case Open(read) => Lost(c, s.cache, s.log, read, [])
    case Append(w) => before + if w.failsAfter.Some? then |Prefix(LineOf(c, w.e), w.failsAfter.value)| else 0
    case List => before
    case Close => 0
    case Die => 0
  }

  // Where those bytes come from: a torn tail, or a log that could not be read,
  // when the writer opened, and its own failed writes; nothing else, and nothing
  // makes up for them.
  lemma StepLeavesBehind(c: Codec, s: State, step: Step)
    requires RoundTrips(c) && Enabled(s, step)
    ensures Behind(Next(c, s, step)) == Leaves(c, s, step, Behind(s))
  {
    match step
    case Open(read) => CreatedSummary(c, s.cache, s.log, read);
    case Append(w) =>
      if w.failsAfter.None? {
        CompletedWrite(c, Recorder(s.log, s.writer.value, s.cache), w.e);
        FoldLineCounts(c, s.writer.value, LineOf(c, w.e));
      }
    case _ =>
  }
}
