/**
 Refreshing at most once within a process, however many callers ask
 (`refresh_once` in auth-codex and auth-grok). The generation is read without
 the mutex, so every step below may be interleaved with any other caller's.
 */
module SingleFlight {
  import opened Basics
  import opened Credentials

  /** A completed attempt: who made it, the generation it had observed, and how it ended. */
  datatype Attempt = Attempt(caller: nat, mode: Mode, observed: nat, stale: bool, ok: bool, exchanged: bool)

  datatype Phase =
    | Queued(mode: Mode, observed: nat)
    | Performing(mode: Mode, observed: nat)
    | Written(mode: Mode, observed: nat)
    | Published(mode: Mode, observed: nat)
    | Returned(mode: Mode, observed: nat, attempt: nat, ok: bool)
    | Cancelled

  /** `generation` and `outcome` are guarded by the mutex; `atomic` is the copy read without it. */
  datatype State = State(
    generation: nat, outcome: bool, atomic: nat, holder: Option<nat>, callers: map<nat, Phase>,
    stored: Option<Tokens>, attempts: seq<Attempt>)

  datatype Step =
    | Arrive(c: nat, mode: Mode)
    | Enter(c: nat)
    | Complete(c: nat, o: Oracle, issuer: string)
    | Publish(c: nat)
    | Leave(c: nat)
    | Cancel(c: nat)
    | Elsewhere(stored: Option<Tokens>)

  predicate Inside(ph: Phase) {
    ph.Performing? || ph.Written? || ph.Published?
  }

  predicate Enabled(s: State, step: Step) {
    match step
    case Arrive(c, _) => c !in s.callers
    case Enter(c) => c in s.callers && s.callers[c].Queued? && s.holder == None
    case Complete(c, _, _) => c in s.callers && s.callers[c].Performing?
    case Publish(c) => c in s.callers && s.callers[c].Written?
    case Leave(c) => c in s.callers && s.callers[c].Published?
    case Cancel(c) => c in s.callers && (s.callers[c].Queued? || s.callers[c].Performing?)
    case Elsewhere(_) => true
  }

  function Next(s: State, step: Step): State
    requires Enabled(s, step)
  {
    match step
    case Arrive(c, mode) => s.(callers := s.callers[c := Queued(mode, s.atomic)])
    case Enter(c) =>
      var Queued(mode, observed) := s.callers[c];
      if s.generation != observed then
        var last := if s.generation > 0 then s.generation - 1 else 0;
        s.(callers := s.callers[c := Returned(mode, observed, last, s.outcome)])
      else s.(holder := Some(c), callers := s.callers[c := Performing(mode, observed)])
    case Complete(c, o, issuer) =>
      var Performing(mode, observed) := s.callers[c];
      var r := Refresh(s.stored, mode, o, issuer);
      s.(generation := s.generation + 1, outcome := r.ok, stored := r.stored,
         callers := s.callers[c := Written(mode, observed)],
         attempts := s.attempts + [Attempt(c, mode, observed, o.stale, r.ok, r.presented.Some?)])
    case Publish(c) =>
      s.(atomic := s.generation, callers := s.callers[c := Published(s.callers[c].mode, s.callers[c].observed)])
    case Leave(c) =>
      var Published(mode, observed) := s.callers[c];
      s.(holder := None, callers := s.callers[c := Returned(mode, observed, observed, s.outcome)])
    case Cancel(c) =>
      s.(holder := if s.holder == Some(c) then None else s.holder, callers := s.callers[c := Cancelled])
    case Elsewhere(stored) => s.(stored := stored)
  }

  predicate Initial(s: State) {
    s.generation == 0 && s.outcome && s.atomic == 0 && s.holder == None && s.callers == map[] && s.attempts == []
  }

  ghost predicate ValidRun(states: seq<State>, steps: seq<Step>) {
    && |states| == |steps| + 1 && Initial(states[0])
    && forall i | 0 <= i < |steps| :: Enabled(states[i], steps[i]) && states[i + 1] == Next(states[i], steps[i])
  }

  // ----- What every step keeps -----

  predicate PhaseOk(s: State, c: nat, ph: Phase) {
    match ph
    case Queued(_, observed) => observed <= s.atomic
    case Performing(_, observed) => observed == s.generation == s.atomic
    case Written(mode, observed) =>
      s.generation == observed + 1 && s.atomic == observed && observed < |s.attempts|
      && s.attempts[observed].caller == c && s.attempts[observed].mode == mode && s.attempts[observed].ok == s.outcome
    case Published(mode, observed) =>
      s.generation == observed + 1 == s.atomic && observed < |s.attempts|
      && s.attempts[observed].caller == c && s.attempts[observed].mode == mode && s.attempts[observed].ok == s.outcome
    case Returned(mode, observed, attempt, ok) =>
      observed <= attempt < |s.attempts| && attempt < s.atomic && s.attempts[attempt].ok == ok
      && (s.attempts[attempt].caller == c ==> s.attempts[attempt].mode == mode && attempt == observed)
    case Cancelled => true
  }

  predicate AttemptOk(s: State, i: nat)
    requires i < |s.attempts|
  {
    var a := s.attempts[i];
    && a.observed == i && a.caller in s.callers
    && (s.callers[a.caller].Written? || s.callers[a.caller].Published? || s.callers[a.caller].Returned?)
    && s.callers[a.caller].observed == i && s.callers[a.caller].mode == a.mode
    && (a.ok ==> (a.exchanged <==> a.mode == Force || a.stale))
  }

  predicate Inv(s: State) {
    && |s.attempts| == s.generation
    && (s.holder.None? ==> s.atomic == s.generation)
    && s.atomic <= s.generation
    && (s.generation > 0 ==> s.outcome == s.attempts[s.generation - 1].ok)
    && (s.holder.Some? ==> s.holder.value in s.callers)
    && (forall c | c in s.callers :: Inside(s.callers[c]) <==> s.holder == Some(c))
    && (forall c | c in s.callers :: PhaseOk(s, c, s.callers[c]))
    && (forall i | 0 <= i < |s.attempts| :: AttemptOk(s, i))
  }

  lemma InsideKept(s: State, step: Step, c: nat)
    requires Inv(s) && Enabled(s, step) && c in Next(s, step).callers
    ensures Inside(Next(s, step).callers[c]) <==> Next(s, step).holder == Some(c)
  {
    assert c in s.callers ==> (Inside(s.callers[c]) <==> s.holder == Some(c));
  }

  lemma OtherPhaseKept(s: State, step: Step, c: nat)
    requires Inv(s) && Enabled(s, step) && c in s.callers && Next(s, step).callers[c] == s.callers[c]
    ensures PhaseOk(Next(s, step), c, s.callers[c])
  {
    assert PhaseOk(s, c, s.callers[c]);
    if step.Complete? || step.Publish? {
      assert PhaseOk(s, step.c, s.callers[step.c]);
      assert !Inside(s.callers[c]);
    }
  }

  lemma OwnPhaseKept(s: State, step: Step)
    requires Inv(s) && Enabled(s, step) && !step.Elsewhere?
    ensures PhaseOk(Next(s, step), step.c, Next(s, step).callers[step.c])
  {
    if !step.Arrive? {
      assert PhaseOk(s, step.c, s.callers[step.c]);
    }
    if step.Enter? && s.generation > 0 {
      assert AttemptOk(s, s.generation - 1);
    }
  }

  lemma PhaseKept(s: State, step: Step, c: nat)
    requires Inv(s) && Enabled(s, step) && c in Next(s, step).callers
    ensures PhaseOk(Next(s, step), c, Next(s, step).callers[c])
  {
    if step.Elsewhere? || c != step.c {
      OtherPhaseKept(s, step, c);
    } else {
      OwnPhaseKept(s, step);
    }
  }

  lemma AttemptKept(s: State, step: Step, i: nat)
    requires Inv(s) && Enabled(s, step) && i < |Next(s, step).attempts|
    ensures AttemptOk(Next(s, step), i)
  {
    if i < |s.attempts| {
      assert AttemptOk(s, i);
    } else {
      assert PhaseOk(s, step.c, s.callers[step.c]);
      RefreshesExactlyWhen(s.stored, s.callers[step.c].mode, step.o, step.issuer);
    }
  }

  lemma CountersMove(s: State, step: Step)
    requires Inv(s) && Enabled(s, step)
    ensures s.atomic <= Next(s, step).atomic <= s.atomic + 1
    ensures Next(s, step).atomic == s.atomic + 1 ==> step.Publish?
    ensures s.attempts <= Next(s, step).attempts
  {
    if step.Publish? {
      assert PhaseOk(s, step.c, s.callers[step.c]);
    }
  }

  lemma CountersKept(s: State, step: Step)
    requires Inv(s) && Enabled(s, step)
    ensures var t := Next(s, step);
            && |t.attempts| == t.generation
            && (t.holder.None? ==> t.atomic == t.generation)
            && t.atomic <= t.generation
            && (t.generation > 0 ==> t.outcome == t.attempts[t.generation - 1].ok)
            && (t.holder.Some? ==> t.holder.value in t.callers)
  {
    if !step.Arrive? && !step.Elsewhere? {
      assert PhaseOk(s, step.c, s.callers[step.c]);
    }
  }

  lemma StepKeepsInv(s: State, step: Step)
    requires Inv(s) && Enabled(s, step)
    ensures Inv(Next(s, step))
  {
    var t := Next(s, step);
    forall c | c in t.callers
      ensures (Inside(t.callers[c]) <==> t.holder == Some(c)) && PhaseOk(t, c, t.callers[c])
    {
      InsideKept(s, step, c);
      PhaseKept(s, step, c);
    }
    forall i: nat | i < |t.attempts|
      ensures AttemptOk(t, i)
    {
      AttemptKept(s, step, i);
    }
    CountersKept(s, step);
  }

  lemma {:induction false} RunKeepsInv(states: seq<State>, steps: seq<Step>, n: nat)
    requires ValidRun(states, steps) && n < |states|
    ensures Inv(states[n])
  {
    if n > 0 {
      RunKeepsInv(states, steps, n - 1);
      StepKeepsInv(states[n - 1], steps[n - 1]);
    }
  }

  // A caller may be cancelled while it waits or refreshes; if it was refreshing,
  // whoever waits can go in. And other processes may change what is stored.
  lemma CancellationFreesTheMutex(s: State, c: nat, d: nat, stored: Option<Tokens>)
    requires Inv(s) && c in s.callers && (s.callers[c].Queued? || s.callers[c].Performing?)
    ensures Enabled(s, Cancel(c)) && Next(s, Cancel(c)).holder != Some(c)
    ensures s.callers[c].Performing? && d in s.callers && s.callers[d].Queued? ==> Enabled(Next(s, Cancel(c)), Enter(d))
    ensures Enabled(s, Elsewhere(stored)) && Next(s, Elsewhere(stored)) == s.(stored := stored)
  {
    assert Inside(s.callers[c]) <==> s.holder == Some(c);
  }

  // The generation counts the completed attempts, and no two of them observed
  // the same generation: at most one caller exchanges for each.
  lemma OneAttemptPerGeneration(states: seq<State>, steps: seq<Step>, n: nat)
    requires ValidRun(states, steps) && n < |states|
    ensures states[n].generation == |states[n].attempts|
    ensures forall i, j | 0 <= i < j < |states[n].attempts| ::
        states[n].attempts[i].observed != states[n].attempts[j].observed
    ensures forall i, j | 0 <= i < j < |states[n].attempts| ::
        states[n].attempts[i].caller != states[n].attempts[j].caller
  {
    RunKeepsInv(states, steps, n);
    forall i, j | 0 <= i < j < |states[n].attempts|
      ensures states[n].attempts[i].observed != states[n].attempts[j].observed
      ensures states[n].attempts[i].caller != states[n].attempts[j].caller
    {
      assert AttemptOk(states[n], i) && AttemptOk(states[n], j);
    }
  }

  // Never two callers exchanging at once.
  lemma OneCallerInside(states: seq<State>, steps: seq<Step>, n: nat, a: nat, b: nat)
    requires ValidRun(states, steps) && n < |states|
    requires a in states[n].callers && b in states[n].callers && Inside(states[n].callers[a])
        && Inside(states[n].callers[b])
    ensures a == b
  {
    RunKeepsInv(states, steps, n);
  }

  /** Step `r` is where caller `c` read the generation it observed. */
  ghost predicate ReadAt(states: seq<State>, steps: seq<Step>, n: nat, c: nat, observed: nat, r: nat)
    requires ValidRun(states, steps) && n < |states|
  {
    r < n && steps[r].Arrive? && steps[r].c == c && states[r].atomic == observed
  }

  lemma {:induction false} EveryCallerRead(states: seq<State>, steps: seq<Step>, n: nat, c: nat)
    requires ValidRun(states, steps) && n < |states| && c in states[n].callers && !states[n].callers[c].Cancelled?
    ensures exists r: nat :: ReadAt(states, steps, n, c, states[n].callers[c].observed, r)
  {
    if c !in states[n - 1].callers {
      assert ReadAt(states, steps, n, c, states[n].callers[c].observed, n - 1);
    } else {
      EveryCallerRead(states, steps, n - 1, c);
      var r: nat :| ReadAt(states, steps, n - 1, c, states[n - 1].callers[c].observed, r);
      assert ReadAt(states, steps, n, c, states[n].callers[c].observed, r);
    }
  }

  lemma AtomicMoves(states: seq<State>, steps: seq<Step>, n: nat)
    requires ValidRun(states, steps) && n < |steps|
    ensures states[n].atomic <= states[n + 1].atomic <= states[n].atomic + 1
    ensures states[n].atomic < states[n + 1].atomic ==> steps[n].Publish?
  {
    RunKeepsInv(states, steps, n);
    CountersMove(states[n], steps[n]);
  }

  lemma {:induction false} PublishedBetween(states: seq<State>, steps: seq<Step>, r: nat, n: nat, k: nat)
      returns (p: nat)
    requires ValidRun(states, steps) && r <= n < |states|
    requires states[r].atomic <= k < states[n].atomic
    ensures r <= p < n && steps[p].Publish? && states[p].atomic == k && states[p + 1].atomic == k + 1
    decreases n
  {
    p := n - 1;
    AtomicMoves(states, steps, p);
    if k < states[p].atomic {
      p := PublishedBetween(states, steps, r, p, k);
    }
  }

  // Every caller that returns, returns the outcome of an attempt that was
  // published after the caller had read the generation: never an old answer.
  lemma OutcomeIsNewerThanTheRead(states: seq<State>, steps: seq<Step>, n: nat, c: nat) returns (r: nat, p: nat)
    requires ValidRun(states, steps) && n < |states| && c in states[n].callers && states[n].callers[c].Returned?
    ensures var Returned(_, observed, attempt, ok) := states[n].callers[c];
            && ReadAt(states, steps, n, c, observed, r)
            && r < p < n && steps[p].Publish? && states[p].atomic == attempt && states[p + 1].atomic == attempt + 1
            && attempt < |states[n].attempts| && states[n].attempts[attempt].ok == ok
  {
    RunKeepsInv(states, steps, n);
    EveryCallerRead(states, steps, n, c);
    r :| ReadAt(states, steps, n, c, states[n].callers[c].observed, r);
    p := PublishedBetween(states, steps, r, n, states[n].callers[c].attempt);
  }

  // A caller told it worked is backed by an exchange exactly when the attempt it
  // was answered from was forced or found the credential stale; its own forced
  // attempt always is one.
  lemma SuccessIsBackedExactlyWhen(states: seq<State>, steps: seq<Step>, n: nat, c: nat)
    requires ValidRun(states, steps) && n < |states| && c in states[n].callers && states[n].callers[c].Returned?
    requires states[n].callers[c].ok
    ensures states[n].callers[c].attempt < |states[n].attempts|
    ensures var a := states[n].attempts[states[n].callers[c].attempt];
            && (a.exchanged <==> a.mode == Force || a.stale)
            && (a.caller == c && states[n].callers[c].mode == Force ==> a.exchanged)
  {
    RunKeepsInv(states, steps, n);
    assert AttemptOk(states[n], states[n].callers[c].attempt);
  }

  lemma OneMore(states: seq<State>, steps: seq<Step>, step: Step) returns (states': seq<State>, steps': seq<Step>)
    requires ValidRun(states, steps) && Enabled(states[|steps|], step)
    ensures ValidRun(states', steps') && states'[|steps'|] == Next(states[|steps|], step)
  {
    states', steps' := states + [Next(states[|steps|], step)], steps + [step];
  }

  // So a forced caller queued behind an attempt that finds the credential fresh
  // is told it worked although nothing was exchanged.
  lemma ForcedCallerMayRideAlong(t: Tokens) returns (states: seq<State>, steps: seq<Step>)
    ensures ValidRun(states, steps)
    ensures var s := states[|steps|];
            && 2 in s.callers && s.callers[2] == Returned(Force, 0, 0, true)
            && |s.attempts| == 1 && !s.attempts[0].exchanged
  {
    states, steps := [State(0, true, 0, None, map[], Some(t), [])], [];
    states, steps := OneMore(states, steps, Arrive(1, IfStale));
    states, steps := OneMore(states, steps, Enter(1));
    states, steps := OneMore(states, steps, Arrive(2, Force));
    states, steps := OneMore(states, steps, Complete(1, Oracle(false, None, false), ""));
    states, steps := OneMore(states, steps, Publish(1));
    states, steps := OneMore(states, steps, Leave(1));
    states, steps := OneMore(states, steps, Enter(2));
  }

  /** What one caller holding the mutex does, end to end: its steps one after another. */
  function Turn(s: State, c: nat, o: Oracle, issuer: string): (t: State)
    requires Enabled(s, Enter(c))
    ensures c in t.callers && t.callers[c].Returned?
  {
    var entered := Next(s, Enter(c));
    if entered.callers[c].Returned? then entered
    else Next(Next(Next(entered, Complete(c, o, issuer)), Publish(c)), Leave(c))
  }

  class Refresher {
    var generation: nat
    var outcome: bool
    var atomic: nat
    const file: CredentialFile

    constructor (file: CredentialFile)
      ensures this.file == file && generation == 0 && outcome && atomic == 0
    {
      this.file := file;
      generation, outcome, atomic := 0, true, 0;
    }

    /** The part of `refresh_once` after the mutex is taken; `observed` was read before it. */
    method RefreshOnce(observed: nat, mode: Mode, o: Oracle, issuer: string) returns (ok: bool)
      modifies this, file
      ensures var before := State(old(generation), old(outcome), old(atomic), None, map[0 := Queued(mode, observed)],
          old(file.stored), []);
              var after := Turn(before, 0, o, issuer);
              && State(generation, outcome, atomic, None, after.callers, file.stored, after.attempts) == after
              && ok == after.callers[0].ok
    {
      if generation != observed {
        return outcome;
      }
      ok := file.PerformRefresh(mode, o, issuer);
      generation := generation + 1;
      outcome := ok;
      atomic := generation;
    }
  }
}
