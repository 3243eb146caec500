/** What is derived from a session's log, as a fold over its lines (crates/core meta.rs). */
module SessionSummary {
  import opened Basics
  import opened LogLines

  datatype Usage = Usage(input: nat, output: nat, cached: nat, reasoning: nat) {
    function Plus(other: Usage): Usage {
      Usage(input + other.input, output + other.output, cached + other.cached, reasoning + other.reasoning)
    }
  }

  const NO_USAGE := Usage(0, 0, 0, 0)

  datatype Role = User | Other

  /** The events the summary reads; `line` is the person's input flattened to one line. */
  datatype Event =
    | SessionStart(cwd: string, model: string, parent: Option<string>)
    | TurnStart(line: string, approvalPolicy: Option<string>)
    | ModelRequest(messages: seq<Role>, effort: Option<string>, requested: Option<string>)
    | ModelResponse(usage: Usage)
    | TurnEnd(usage: Usage)
    | SubagentEnd(usage: Usage)
    | Checkpoint(turn: nat, snapshot: string)
    | Rewound(history: Option<seq<Role>>)
    | Unrelated

  datatype Envelope = Envelope(at: string, event: Event)

  /** How lines are read and written. */
  datatype Codec = Codec(parse: Bytes -> Option<Envelope>, blank: Bytes -> bool, serialise: Envelope -> Bytes)

  const VERSION: nat := 1

  datatype Summary = Summary(
    version: nat, cwd: Option<string>, parent: Option<string>, updatedAt: string, turns: nat, summary: string,
    usage: Usage, contextInput: nat, model: Option<string>, lastStepModel: Option<string>, effort: Option<string>,
    approvalPolicy: Option<string>, snapshots: map<nat, string>, baseline: Option<nat>, bytesScanned: nat,
    turnInput: nat)

  const FRESH := Summary(
    VERSION, None, None, "", 0, "", NO_USAGE, 0, None, None, None, None, map[], None, 0, 0)

  /** How many messages of a person a rewind kept. */
  function Survived(history: seq<Role>): nat {
    if history == [] then 0 else Survived(history[1..]) + if history[0] == User then 1 else 0
  }

  /** The places where a person speaks. */
  function SpokenAt(history: seq<Role>): set<nat> {
    set i: nat | i < |history| && history[i] == User
  }

  lemma {:induction false} SurvivedOneMore(history: seq<Role>, role: Role)
    ensures Survived(history + [role]) == Survived(history) + if role == User then 1 else 0
  {
    if history == [] {
      assert ([] + [role])[1..] == [];
    } else {
      SurvivedOneMore(history[1..], role);
      assert (history + [role])[1..] == history[1..] + [role];
    }
  }

  lemma SpokenOneMore(history: seq<Role>, role: Role)
    ensures SpokenAt(history + [role]) == SpokenAt(history) + if role == User then {|history|} else {}
    ensures |history| !in SpokenAt(history)
  {
  }

  // What survives a rewind is counted as the messages of a person.
  lemma {:induction false} SurvivedCounts(history: seq<Role>)
    ensures Survived(history) == |SpokenAt(history)|
  {
    if history != [] {
      var init, last := history[..|history| - 1], history[|history| - 1];
      assert history == init + [last];
      SurvivedCounts(init);
      SurvivedOneMore(init, last);
      SpokenOneMore(init, last);
      assert SpokenAt(init) + {} == SpokenAt(init);
    }
  }

  function Retain(snapshots: map<nat, string>, survived: nat): map<nat, string> {
    map turn | turn in snapshots && turn < survived :: snapshots[turn]
  }

  /** The summary after one event; `at` is where its line starts. */
  function ApplyEvent(s: Summary, at: nat, e: Envelope): Summary {
    var m := s.(updatedAt := e.at);
    match e.event
    case SessionStart(cwd, model, parent) =>
      m.(cwd := m.cwd.Or(Some(cwd)), parent := m.parent.Or(parent), model := m.model.Or(Some(model)))
    case TurnStart(line, policy) =>
      m.(turns := m.turns + 1, summary := if m.summary == "" then line else m.summary, approvalPolicy := policy)
    case ModelRequest(messages, effort, requested) =>
      m.(baseline := if messages != [] then Some(at) else m.baseline, effort := effort,
         lastStepModel := requested.Or(m.lastStepModel))
    case ModelResponse(usage) => m.(contextInput := if usage.input > 0 then usage.input else m.contextInput)
    case TurnEnd(usage) =>
      m.(usage := m.usage.Plus(usage), turnInput := if usage.input > 0 then usage.input else m.turnInput)
    case SubagentEnd(usage) => m.(usage := m.usage.Plus(usage))
    case Checkpoint(turn, snapshot) => m.(snapshots := m.snapshots[turn := snapshot])
    case Rewound(None) => m
    case Rewound(Some(history)) => m.(baseline := Some(at), snapshots := Retain(m.snapshots, Survived(history)))
    case Unrelated => m
  }

  /** The event on a line, if it is neither blank nor unreadable. */
  function EventOn(c: Codec, line: Bytes): Option<Envelope> {
    if c.blank(line) then None else c.parse(line)
  }

  function FoldLine(c: Codec, m: Summary, line: Bytes): Summary {
    var next := m.(bytesScanned := m.bytesScanned + |line|);
    match EventOn(c, line)
    case None => next
    case Some(e) => ApplyEvent(next, m.bytesScanned, e)
  }

  function FoldLines(c: Codec, m: Summary, lines: seq<Bytes>): Summary {
    if lines == [] then m else FoldLine(c, FoldLines(c, m, lines[..|lines| - 1]), lines[|lines| - 1])
  }

  /** Folding line after line as they are read. */
  function Read(c: Codec, m: Summary, rest: Bytes): Summary
    decreases |rest|
  {
    match FirstLine(rest)
    case None => m
    case Some(n) => Read(c, FoldLine(c, m, rest[..n]), rest[n..])
  }

  /** The summary of a whole log, read from its beginning. */
  function Scan(c: Codec, log: Bytes): Summary {
    FoldLines(c, FRESH, Lines(log))
  }

  lemma FoldOneMore(c: Codec, m: Summary, lines: seq<Bytes>, line: Bytes)
    ensures FoldLines(c, m, lines + [line]) == FoldLine(c, FoldLines(c, m, lines), line)
  {
    assert (lines + [line])[..|lines|] == lines;
  }

  lemma {:induction false} FoldConcat(c: Codec, m: Summary, a: seq<Bytes>, b: seq<Bytes>)
    ensures FoldLines(c, m, a + b) == FoldLines(c, FoldLines(c, m, a), b)
    decreases |b|
  {
    if b == [] {
      assert a + b == a;
    } else {
      var init, last := b[..|b| - 1], b[|b| - 1];
      assert a + b == (a + init) + [last];
      FoldConcat(c, m, a, init);
      FoldOneMore(c, m, a + init, last);
    }
  }

  // Reading line after line folds exactly the complete lines.
  lemma {:induction false} ReadFoldsLines(c: Codec, m: Summary, rest: Bytes)
    ensures Read(c, m, rest) == FoldLines(c, m, Lines(rest))
    decreases |rest|
  {
    var n := FirstLine(rest);
    if n.Some? {
      var line, after := rest[..n.value], rest[n.value..];
      ReadFoldsLines(c, FoldLine(c, m, line), after);
      FoldConcat(c, m, [line], Lines(after));
      FoldOneMore(c, m, [], line);
      assert [] + [line] == [line];
    }
  }

  lemma {:induction false} FoldCountsBytes(c: Codec, m: Summary, lines: seq<Bytes>)
    ensures FoldLines(c, m, lines).bytesScanned == m.bytesScanned + |Flatten(lines)|
    ensures FoldLines(c, m, lines).version == m.version
  {
    if lines != [] {
      var init, last := lines[..|lines| - 1], lines[|lines| - 1];
      FoldCountsBytes(c, m, init);
      FlattenConcat(init, [last]);
      assert lines == init + [last];
      assert [last][1..] == [];
    }
  }

  // A scan stops exactly before the torn tail.
  lemma ScanStops(c: Codec, log: Bytes)
    ensures Scan(c, log).bytesScanned == |log| - |Tail(log)|
    ensures Scan(c, log).version == VERSION
    ensures log[Scan(c, log).bytesScanned..] == Tail(log)
  {
    FoldCountsBytes(c, FRESH, Lines(log));
    TailIsWhatLinesLeave(log);
  }

  // ----- Refreshing a cache -----

  /** Whether a cache read beside a log of this length may be used. */
  predicate Usable(cache: Option<Summary>, len: nat) {
    cache.Some? && cache.value.version == VERSION && cache.value.bytesScanned <= len
  }

  function Refreshed(c: Codec, cache: Option<Summary>, log: Bytes): Summary {
    var m := if Usable(cache, |log|) then cache.value else FRESH;
    FoldLines(c, m, Lines(log[m.bytesScanned..]))
  }

  /** `m` is what a scan of the log gave when the log was shorter, or gives now. */
  ghost predicate OnceScanned(c: Codec, m: Summary, log: Bytes) {
    exists n | 0 <= n <= |log| :: m == Scan(c, log[..n])
  }

  /** A cache that never misleads: none, another version's, or what a scan once gave. */
  ghost predicate Honest(c: Codec, cache: Option<Summary>, log: Bytes) {
    cache.None? || cache.value.version != VERSION || OnceScanned(c, cache.value, log)
  }

  lemma DropOfAppend(a: Bytes, b: Bytes, k: nat)
    requires k <= |a|
    ensures (a + b)[k..] == a[k..] + b
  {
  }

  lemma ResumedScan(c: Codec, log: Bytes, n: nat)
    requires n <= |log|
    ensures var m := Scan(c, log[..n]);
            m.bytesScanned <= |log| && m.version == VERSION
                && FoldLines(c, m, Lines(log[m.bytesScanned..])) == Scan(c, log)
  {
    var early, more := log[..n], log[n..];
    assert early + more == log;
    ScanStops(c, early);
    LinesOfAppend(early, more);
    FoldConcat(c, FRESH, Lines(early), Lines(Tail(early) + more));
    DropOfAppend(early, more, Scan(c, early).bytesScanned);
  }

  // Folding only the growth agrees with scanning everything, wherever the
  // earlier scan stopped and whatever torn or unreadable lines lie between.
  lemma RefreshAgreesWithScan(c: Codec, cache: Option<Summary>, log: Bytes)
    requires Usable(cache, |log|) ==> OnceScanned(c, cache.value, log)
    ensures Refreshed(c, cache, log) == Scan(c, log)
  {
    if Usable(cache, |log|) {
      var n :| 0 <= n <= |log| && cache.value == Scan(c, log[..n]);
      ResumedScan(c, log, n);
    }
    assert log[0..] == log;
  }

  lemma OnceScannedAsTheLogGrows(c: Codec, m: Summary, log: Bytes, more: Bytes)
    requires OnceScanned(c, m, log)
    ensures OnceScanned(c, m, log + more)
  {
    var n :| 0 <= n <= |log| && m == Scan(c, log[..n]);
    assert (log + more)[..n] == log[..n];
  }

  lemma ScannedNow(c: Codec, log: Bytes)
    ensures OnceScanned(c, Scan(c, log), log)
  {
    assert log[..|log|] == log;
  }

  // A later refresh may start from an earlier one: the cache stays honest as the log grows.
  lemma HonestAsTheLogGrows(c: Codec, cache: Option<Summary>, log: Bytes, more: Bytes)
    requires Honest(c, cache, log)
    ensures Honest(c, cache, log + more)
    ensures Honest(c, Some(Scan(c, log)), log + more)
  {
    ScannedNow(c, log);
    OnceScannedAsTheLogGrows(c, Scan(c, log), log, more);
    if cache.Some? && cache.value.version == VERSION {
      OnceScannedAsTheLogGrows(c, cache.value, log, more);
    }
  }

  // ----- What the summary says about the log -----

  /** The event on a line, without its time. */
  function EventOf(c: Codec, line: Bytes): Option<Event> {
    match EventOn(c, line)
    case None => None
    case Some(e) => Some(e.event)
  }

  predicate IsBaseline(e: Option<Event>) {
    e.Some? && ((e.value.ModelRequest? && e.value.messages != []) || (e.value.Rewound? && e.value.history.Some?))
  }

  /** What a line spends. */
  function Spent(e: Option<Event>): Usage {
    match e
    case Some(TurnEnd(usage)) => usage
    case Some(SubagentEnd(usage)) => usage
    case _ => NO_USAGE
  }

  /** A conversation rewind that kept no more than `turn` of a person's messages. */
  predicate Discards(e: Option<Event>, turn: nat) {
    e.Some? && e.value.Rewound? && e.value.history.Some? && |SpokenAt(e.value.history.value)| <= turn
  }

  predicate Records(e: Option<Event>, turn: nat) {
    e.Some? && e.value.Checkpoint? && e.value.turn == turn
  }

  lemma LineBaseline(c: Codec, m: Summary, line: Bytes)
    ensures FoldLine(c, m, line).baseline == if IsBaseline(EventOf(c, line)) then Some(m.bytesScanned) else m.baseline
  {
  }

  lemma LineUsage(c: Codec, m: Summary, line: Bytes)
    ensures FoldLine(c, m, line).usage == m.usage.Plus(Spent(EventOf(c, line)))
  {
  }

  lemma LineSnapshot(c: Codec, m: Summary, line: Bytes, turn: nat, snapshot: string)
    ensures var e := EventOf(c, line);
            (turn in FoldLine(c, m, line).snapshots && FoldLine(c, m, line).snapshots[turn] == snapshot) <==>
            if Records(e, turn) then e.value.snapshot == snapshot
            else !Discards(e, turn) && turn in m.snapshots && m.snapshots[turn] == snapshot
  {
    var e := EventOf(c, line);
    if e.Some? && e.value.Rewound? && e.value.history.Some? {
      SurvivedCounts(e.value.history.value);
    }
  }

  /** Line `i` is the last that later history can be rebuilt from. */
  predicate LastBaseline(c: Codec, lines: seq<Bytes>, i: nat) {
    i < |lines| && IsBaseline(EventOf(c, lines[i])) && forall j | i < j < |lines| :: !IsBaseline(EventOf(c, lines[j]))
  }

  /** Where line `i` begins. */
  function StartOf(lines: seq<Bytes>, i: nat): nat
    requires i <= |lines|
  {
    |Flatten(lines[..i])|
  }

  lemma LastBaselineOneMore(c: Codec, lines: seq<Bytes>, line: Bytes, i: nat)
    ensures LastBaseline(c, lines + [line], i) <==>
            if IsBaseline(EventOf(c, line)) then i == |lines| else LastBaseline(c, lines, i)
    ensures i <= |lines| ==> StartOf(lines + [line], i) == StartOf(lines, i)
  {
    var all := lines + [line];
    assert all[|lines|] == line;
    assert forall j | 0 <= j < |lines| :: all[j] == lines[j];
    if i <= |lines| {
      assert all[..i] == lines[..i];
    }
  }

  lemma BaselineOneMore(c: Codec, init: seq<Bytes>, line: Bytes)
    requires match FoldLines(c, FRESH, init).baseline
             case None => forall i: nat :: !LastBaseline(c, init, i)
             case Some(at) => exists i: nat :: LastBaseline(c, init, i) && at == StartOf(init, i)
    ensures match FoldLines(c, FRESH, init + [line]).baseline
            case None => forall i: nat :: !LastBaseline(c, init + [line], i)
            case Some(at) => exists i: nat :: LastBaseline(c, init + [line], i) && at == StartOf(init + [line], i)
  {
    var m := FoldLines(c, FRESH, init);
    FoldOneMore(c, FRESH, init, line);
    LineBaseline(c, m, line);
    if IsBaseline(EventOf(c, line)) {
      FoldCountsBytes(c, FRESH, init);
      LastBaselineOneMore(c, init, line, |init|);
      assert init[..|init|] == init;
      assert LastBaseline(c, init + [line], |init|) && m.bytesScanned == StartOf(init + [line], |init|);
    } else if m.baseline.Some? {
      var i: nat :| LastBaseline(c, init, i) && m.baseline.value == StartOf(init, i);
      LastBaselineOneMore(c, init, line, i);
      assert LastBaseline(c, init + [line], i) && m.baseline.value == StartOf(init + [line], i);
    } else {
      forall i: nat
        ensures !LastBaseline(c, init + [line], i)
      {
        LastBaselineOneMore(c, init, line, i);
      }
    }
  }

  // The recorded baseline is where the last complete baseline line begins; there
  // is none exactly when no complete line is one.
  lemma {:induction false} BaselineOfLines(c: Codec, lines: seq<Bytes>)
    ensures match FoldLines(c, FRESH, lines).baseline
            case None => forall i: nat :: !LastBaseline(c, lines, i)
            case Some(at) => exists i: nat :: LastBaseline(c, lines, i) && at == StartOf(lines, i)
  {
    if lines != [] {
      var init, line := lines[..|lines| - 1], lines[|lines| - 1];
      assert lines == init + [line];
      BaselineOfLines(c, init);
      BaselineOneMore(c, init, line);
    }
  }

  /** Line `i` is the last checkpoint of `turn` and names `snapshot`; no later conversation rewind discards the turn. */
  predicate SnapshotStands(c: Codec, lines: seq<Bytes>, turn: nat, snapshot: string, i: nat) {
    && i < |lines| && EventOf(c, lines[i]) == Some(Checkpoint(turn, snapshot))
    && forall j | i < j < |lines| :: !Records(EventOf(c, lines[j]), turn) && !Discards(EventOf(c, lines[j]), turn)
  }

  lemma StandsOneMore(c: Codec, init: seq<Bytes>, line: Bytes, turn: nat, snapshot: string, i: nat)
    ensures var e := EventOf(c, line);
            SnapshotStands(c, init + [line], turn, snapshot, i) <==>
            if Records(e, turn) then i == |init| && e.value.snapshot == snapshot
            else !Discards(e, turn) && SnapshotStands(c, init, turn, snapshot, i)
  {
    var all := init + [line];
    assert all[|init|] == line;
    assert forall j | 0 <= j < |init| :: all[j] == init[j];
  }

  // `snapshots` holds exactly the snapshots that still stand.
  lemma {:induction false} SnapshotsStanding(c: Codec, lines: seq<Bytes>, turn: nat, snapshot: string)
    ensures turn in FoldLines(c, FRESH, lines).snapshots && FoldLines(c, FRESH, lines).snapshots[turn] == snapshot <==>
            exists i: nat :: SnapshotStands(c, lines, turn, snapshot, i)
  {
    if lines != [] {
      var init, line := lines[..|lines| - 1], lines[|lines| - 1];
      assert lines == init + [line];
      SnapshotsStanding(c, init, turn, snapshot);
      LineSnapshot(c, FoldLines(c, FRESH, init), line, turn, snapshot);
      StandsOneMore(c, init, line, turn, snapshot, |init|);
      if i: nat :| SnapshotStands(c, init, turn, snapshot, i) {
        StandsOneMore(c, init, line, turn, snapshot, i);
      }
      if i: nat :| SnapshotStands(c, lines, turn, snapshot, i) {
        StandsOneMore(c, init, line, turn, snapshot, i);
      }
    }
  }

  /** What all lines spend together. */
  function Bill(c: Codec, lines: seq<Bytes>): Usage {
    if lines == [] then NO_USAGE else Spent(EventOf(c, lines[0])).Plus(Bill(c, lines[1..]))
  }

  lemma {:induction false} BillOneMore(c: Codec, init: seq<Bytes>, line: Bytes)
    ensures Bill(c, init + [line]) == Bill(c, init).Plus(Spent(EventOf(c, line)))
  {
    if init == [] {
      assert ([] + [line])[1..] == [];
    } else {
      BillOneMore(c, init[1..], line);
      assert (init + [line])[1..] == init[1..] + [line];
    }
  }

  lemma UsageOneMore(c: Codec, m: Summary, init: seq<Bytes>, line: Bytes)
    requires FoldLines(c, m, init).usage == m.usage.Plus(Bill(c, init))
    ensures FoldLines(c, m, init + [line]).usage == m.usage.Plus(Bill(c, init + [line]))
  {
    FoldOneMore(c, m, init, line);
    LineUsage(c, FoldLines(c, m, init), line);
    BillOneMore(c, init, line);
  }

  lemma {:induction false} UsageGrowsByTheBill(c: Codec, m: Summary, lines: seq<Bytes>)
    ensures FoldLines(c, m, lines).usage == m.usage.Plus(Bill(c, lines))
  {
    if lines != [] {
      var init, line := lines[..|lines| - 1], lines[|lines| - 1];
      assert lines == init + [line];
      UsageGrowsByTheBill(c, m, init);
      UsageOneMore(c, m, init, line);
    }
  }

  // Every finished turn and subagent is billed once, rewinds or not.
  lemma UsageIsTheBill(c: Codec, lines: seq<Bytes>)
    ensures FoldLines(c, FRESH, lines).usage == Bill(c, lines)
  {
    UsageGrowsByTheBill(c, FRESH, lines);
  }

  function Said<T>(c: Codec, line: Bytes, pick: Event -> Option<T>): Option<T> {
    match EventOf(c, line)
    case None => None
    case Some(e) => pick(e)
  }

  /** What the first line that says something, by `pick`, says. */
  function First<T>(c: Codec, lines: seq<Bytes>, pick: Event -> Option<T>): Option<T> {
    if lines == [] then None else Said(c, lines[0], pick).Or(First(c, lines[1..], pick))
  }

  /** What the last one says. */
  function Last<T>(c: Codec, lines: seq<Bytes>, pick: Event -> Option<T>): Option<T> {
    if lines == [] then None else Said(c, lines[|lines| - 1], pick).Or(Last(c, lines[..|lines| - 1], pick))
  }

  lemma {:induction false} FirstOneMore<T>(c: Codec, init: seq<Bytes>, line: Bytes, pick: Event -> Option<T>)
    ensures First(c, init + [line], pick) == First(c, init, pick).Or(Said(c, line, pick))
  {
    if init == [] {
      assert ([] + [line])[1..] == [];
    } else {
      FirstOneMore(c, init[1..], line, pick);
      assert (init + [line])[1..] == init[1..] + [line];
    }
  }

  lemma LastOneMore<T>(c: Codec, init: seq<Bytes>, line: Bytes, pick: Event -> Option<T>)
    ensures Last(c, init + [line], pick) == Said(c, line, pick).Or(Last(c, init, pick))
  {
    assert (init + [line])[..|init|] == init;
  }

  function StartedIn(e: Event): Option<string> {
    if e.SessionStart? then Some(e.cwd) else None
  }

  function OpenedModel(e: Event): Option<string> {
    if e.SessionStart? then Some(e.model) else None
  }

  function NamedParent(e: Event): Option<string> {
    if e.SessionStart? then e.parent else None
  }

  function OpeningLine(e: Event): Option<string> {
    if e.TurnStart? && e.line != "" then Some(e.line) else None
  }

  function StepModel(e: Event): Option<string> {
    if e.ModelRequest? then e.requested else None
  }

  function StepEffort(e: Event): Option<Option<string>> {
    if e.ModelRequest? then Some(e.effort) else None
  }

  function TurnPolicy(e: Event): Option<Option<string>> {
    if e.TurnStart? then Some(e.approvalPolicy) else None
  }

  function StepInput(e: Event): Option<nat> {
    if e.ModelResponse? && e.usage.input > 0 then Some(e.usage.input) else None
  }

  function TurnInput(e: Event): Option<nat> {
    if e.TurnEnd? && e.usage.input > 0 then Some(e.usage.input) else None
  }

  /** What a listing shows as the model in use and as the size of the context. */
  function CurrentModel(m: Summary): Option<string> {
    m.lastStepModel.Or(m.model)
  }

  function Context(m: Summary): nat {
    if m.contextInput > 0 then m.contextInput else m.turnInput
  }

  /** Directory, parent, opening model and title are what the first lines that name them say. */
  predicate KeepsTheFirst(c: Codec, m: Summary, lines: seq<Bytes>) {
    && m.cwd == First(c, lines, StartedIn) && m.parent == First(c, lines, NamedParent)
    && m.model == First(c, lines, OpenedModel) && m.summary == First(c, lines, OpeningLine).GetOr("")
  }

  predicate KeepsTheLast(c: Codec, m: Summary, lines: seq<Bytes>) {
    && m.lastStepModel == Last(c, lines, StepModel)
    && m.contextInput == Last(c, lines, StepInput).GetOr(0) && m.turnInput == Last(c, lines, TurnInput).GetOr(0)
  }

  predicate KeepsTheSettings(c: Codec, m: Summary, lines: seq<Bytes>) {
    && m.effort == Last(c, lines, StepEffort).GetOr(None) && m.approvalPolicy == Last(c, lines, TurnPolicy).GetOr(None)
  }

  lemma SettingsOneMore(c: Codec, m: Summary, init: seq<Bytes>, line: Bytes)
    requires KeepsTheSettings(c, m, init)
    ensures KeepsTheSettings(c, FoldLine(c, m, line), init + [line])
  {
    LastOneMore(c, init, line, StepEffort);
    LastOneMore(c, init, line, TurnPolicy);
  }

  lemma {:induction false} FirstOpeningIsSomething(c: Codec, lines: seq<Bytes>)
    ensures First(c, lines, OpeningLine) != Some("")
  {
    if lines != [] {
      FirstOpeningIsSomething(c, lines[1..]);
    }
  }

  lemma OpeningOneMore(c: Codec, m: Summary, init: seq<Bytes>, line: Bytes)
    requires m.summary == First(c, init, OpeningLine).GetOr("")
    ensures FoldLine(c, m, line).summary == First(c, init + [line], OpeningLine).GetOr("")
  {
    FirstOneMore(c, init, line, OpeningLine);
    FirstOpeningIsSomething(c, init);
  }

  lemma FirstsOneMore(c: Codec, m: Summary, init: seq<Bytes>, line: Bytes)
    requires KeepsTheFirst(c, m, init)
    ensures KeepsTheFirst(c, FoldLine(c, m, line), init + [line])
  {
    FirstOneMore(c, init, line, StartedIn);
    FirstOneMore(c, init, line, NamedParent);
    FirstOneMore(c, init, line, OpenedModel);
    OpeningOneMore(c, m, init, line);
  }

  lemma LastsOneMore(c: Codec, m: Summary, init: seq<Bytes>, line: Bytes)
    requires KeepsTheLast(c, m, init)
    ensures KeepsTheLast(c, FoldLine(c, m, line), init + [line])
  {
    LastOneMore(c, init, line, StepModel);
    LastOneMore(c, init, line, StepInput);
    LastOneMore(c, init, line, TurnInput);
  }

  lemma {:induction false} LastInputIsPositive(c: Codec, lines: seq<Bytes>)
    ensures Last(c, lines, StepInput) != Some(0)
  {
    if lines != [] {
      LastInputIsPositive(c, lines[..|lines| - 1]);
    }
  }

  // Where the session began and how it opened come from the first lines that say
  // so; the model and the context shown come from the last ones, falling back to
  // the opening model and to what the last turn reported.
  lemma {:induction false} FirstsAndLasts(c: Codec, lines: seq<Bytes>)
    ensures KeepsTheFirst(c, FoldLines(c, FRESH, lines), lines) && KeepsTheLast(c, FoldLines(c, FRESH, lines), lines)
    ensures KeepsTheSettings(c, FoldLines(c, FRESH, lines), lines)
    ensures CurrentModel(FoldLines(c, FRESH, lines)) == Last(c, lines, StepModel).Or(First(c, lines, OpenedModel))
    ensures Context(FoldLines(c, FRESH, lines)) == Last(c, lines, StepInput).Or(Last(c, lines, TurnInput)).GetOr(0)
  {
    if lines != [] {
      var init, line := lines[..|lines| - 1], lines[|lines| - 1];
      assert lines == init + [line];
      FirstsAndLasts(c, init);
      FirstsOneMore(c, FoldLines(c, FRESH, init), init, line);
      LastsOneMore(c, FoldLines(c, FRESH, init), init, line);
      SettingsOneMore(c, FoldLines(c, FRESH, init), init, line);
    }
    LastInputIsPositive(c, lines);
  }

  // ----- The code itself -----

  class SessionMeta {
    var version: nat
    var cwd: Option<string>
    var parent: Option<string>
    var updatedAt: string
    var turns: nat
    var summary: string
    var usage: Usage
    var contextInput: nat
    var model: Option<string>
    var lastStepModel: Option<string>
    var effort: Option<string>
    var approvalPolicy: Option<string>
    var snapshots: map<nat, string>
    var baseline: Option<nat>
    var bytesScanned: nat
    var turnInput: nat

    function View(): Summary
      reads this
    {
      Summary(version, cwd, parent, updatedAt, turns, summary, usage, contextInput, model, lastStepModel, effort,
              approvalPolicy, snapshots, baseline, bytesScanned, turnInput)
    }

    constructor (m: Summary)
      ensures View() == m
    {
      version, cwd, parent, updatedAt := m.version, m.cwd, m.parent, m.updatedAt;
      turns, summary, usage, contextInput := m.turns, m.summary, m.usage, m.contextInput;
      model, lastStepModel, effort := m.model, m.lastStepModel, m.effort;
      approvalPolicy, snapshots, baseline := m.approvalPolicy, m.snapshots, m.baseline;
      bytesScanned, turnInput := m.bytesScanned, m.turnInput;
    }

    method Apply(at: nat, envelope: Envelope)
      modifies this
      ensures View() == ApplyEvent(old(View()), at, envelope)
    {
      updatedAt := envelope.at;
      match envelope.event {
        case SessionStart(_, _, _) => ApplyOpening(at, envelope);
        case TurnStart(_, _) => ApplyOpening(at, envelope);
        case ModelRequest(messages, effort', requested) =>
          baseline := if messages != [] then Some(at) else baseline;
          effort := effort';
          lastStepModel := requested.Or(lastStepModel);
        case ModelResponse(used) =>
          contextInput := if used.input > 0 then used.input else contextInput;
        case _ => ApplyOutcome(at, envelope);
      }
    }

    /** The events that open something: the session and its turns. */
    method ApplyOpening(at: nat, envelope: Envelope)
      requires updatedAt == envelope.at && (envelope.event.SessionStart? || envelope.event.TurnStart?)
      modifies this
      ensures View() == ApplyEvent(old(View()), at, envelope)
    {
      match envelope.event {
        case SessionStart(cwd', model', parent') =>
          cwd := cwd.Or(Some(cwd'));
          parent := parent.Or(parent');
          model := model.Or(Some(model'));
        case TurnStart(line, policy) =>
          turns := turns + 1;
          summary := if summary == "" then line else summary;
          approvalPolicy := policy;
      }
    }

    /** The events that close something: turns, subagents, checkpoints and rewinds. */
    method ApplyOutcome(at: nat, envelope: Envelope)
      requires updatedAt == envelope.at
      requires !envelope.event.SessionStart? && !envelope.event.TurnStart?
      requires !envelope.event.ModelRequest? && !envelope.event.ModelResponse?
      modifies this
      ensures View() == ApplyEvent(old(View()), at, envelope)
    {
      match envelope.event {
        case TurnEnd(used) =>
          usage := usage.Plus(used);
          turnInput := if used.input > 0 then used.input else turnInput;
        case SubagentEnd(used) =>
          usage := usage.Plus(used);
        case Checkpoint(turn, snapshot) =>
          snapshots := snapshots[turn := snapshot];
        case Rewound(None) =>
        case Rewound(Some(history)) =>
          baseline := Some(at);
          snapshots := Retain(snapshots, Survived(history));
        case _ =>
      }
    }

    /** Take in an event of the writer's own, of `len` bytes on disk. */
    method Append(len: nat, envelope: Envelope)
      modifies this
      ensures View() == ApplyEvent(old(View()).(bytesScanned := old(bytesScanned) + len), old(bytesScanned), envelope)
    {
      var at := bytesScanned;
      bytesScanned := bytesScanned + len;
      Apply(at, envelope);
    }

    /** Account for one complete line. */
    method Take(c: Codec, line: Bytes)
      modifies this
      ensures View() == FoldLine(c, old(View()), line)
      ensures bytesScanned == old(bytesScanned) + |line|
    {
      var at := bytesScanned;
      bytesScanned := bytesScanned + |line|;
      if c.blank(line) {
        return;
      }
      var parsed := c.parse(line);
      if parsed.Some? {
        Apply(at, parsed.value);
      }
    }

    /** Read on from `bytesScanned` up to the last newline there is. */
    method Fold(c: Codec, log: Bytes)
      requires bytesScanned <= |log|
      modifies this
      ensures View() == Read(c, old(View()), log[old(bytesScanned)..])
    {
      ghost var start := View();
      while true
        invariant bytesScanned <= |log|
        invariant Read(c, View(), log[bytesScanned..]) == Read(c, start, log[start.bytesScanned..])
        decreases |log| - bytesScanned
      {
        var rest := log[bytesScanned..];
        var read := FirstLine(rest);
        if read.None? {
          break;
        }
        Take(c, rest[..read.value]);
        assert log[bytesScanned..] == rest[read.value..];
      }
    }
  }

  /** A summary of the whole log, from the cache where that can be used. */
  method Refresh(c: Codec, cache: Option<Summary>, log: Bytes) returns (meta: SessionMeta)
    ensures fresh(meta) && meta.View() == Refreshed(c, cache, log)
  {
    meta := new SessionMeta(if Usable(cache, |log|) then cache.value else FRESH);
    ReadFoldsLines(c, meta.View(), log[meta.bytesScanned..]);
    if meta.bytesScanned < |log| {
      meta.Fold(c, log);
    }
  }
}
