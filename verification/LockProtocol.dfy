/** The waiting loop of the lock file (credentials `lock.rs`). */
module MutationLock {
  /** What one turn of the loop meets: the file made, a file already there, or another failure. */
  datatype Sight = Created | Exists(stale: bool, waited: nat) | Failed

  datatype Acquired = Taken | Broken | Locked | StillTrying

  predicate KeepsWaiting(sight: Sight, deadline: nat) {
    sight.Exists? && (sight.stale || sight.waited < deadline)
  }

  function Ending(sight: Sight): Acquired {
    match sight
    case Created => Taken
    case Failed => Broken
    case Exists(_, _) => Locked
  }

  /** The result after these turns: that of the first one that does not go on waiting. */
  function Acquire(sights: seq<Sight>, deadline: nat): Acquired {
    if sights == [] then StillTrying
    else if KeepsWaiting(sights[0], deadline) then Acquire(sights[1..], deadline)
    else Ending(sights[0])
  }

  /** `turns` says how far into `sights` the loop went; a stale file is removed and the loop goes straight on. */
  method AcquireWithin(sights: seq<Sight>, deadline: nat) returns (r: Acquired, turns: nat)
    ensures r == Acquire(sights, deadline) && turns <= |sights|
    ensures r == StillTrying ==> turns == |sights|
    ensures r != StillTrying ==>
        turns > 0 && r == Ending(sights[turns - 1]) && !KeepsWaiting(sights[turns - 1], deadline)
    ensures forall i | 0 <= i < (if r == StillTrying then turns else turns - 1) :: KeepsWaiting(sights[i], deadline)
  {
    turns := 0;
    while turns < |sights|
      invariant turns <= |sights|
      invariant Acquire(sights, deadline) == Acquire(sights[turns..], deadline)
      invariant forall i | 0 <= i < turns :: KeepsWaiting(sights[i], deadline)
    {
      var sight := sights[turns];
      turns := turns + 1;
      if sight.Created? {
        return Taken, turns;
      }
      if sight.Failed? {
        return Broken, turns;
      }
      if sight.stale {
        continue;
      }
      if sight.waited >= deadline {
        return Locked, turns;
      }
    }
    r := StillTrying;
  }

  // Until the deadline a lock is waited for, fresh or stale: one that goes away in
  // time is taken, and one still there and fresh at the deadline is given up.
  lemma {:induction false} WaitsUntilTheDeadline(before: seq<Sight>, last: Sight, deadline: nat)
    requires forall i | 0 <= i < |before| :: before[i].Exists? && before[i].waited < deadline
    requires last.Exists? ==> !last.stale && last.waited >= deadline
    ensures Acquire(before, deadline) == StillTrying
    ensures Acquire(before + [last], deadline) ==
            if last.Created? then Taken else if last.Failed? then Broken else Locked
  {
    if before != [] {
      WaitsUntilTheDeadline(before[1..], last, deadline);
      assert (before + [last])[1..] == before[1..] + [last];
    }
  }

  // The deadline is only looked at after a turn that found the lock fresh: past
  // the deadline the wait ends exactly when some turn does, so a stale lock that
  // cannot be removed is waited for without end.
  lemma {:induction false} DeadlineEndsTheWaitExactlyWhen(sights: seq<Sight>, deadline: nat)
    requires forall i | 0 <= i < |sights| :: sights[i].Exists? && sights[i].waited >= deadline
    ensures var freshOnce := exists i | 0 <= i < |sights| :: !sights[i].stale;
            Acquire(sights, deadline) == if freshOnce then Locked else StillTrying
  {
    if sights != [] && sights[0].stale {
      var rest := sights[1..];
      DeadlineEndsTheWaitExactlyWhen(rest, deadline);
      assert forall i | 0 < i < |sights| :: sights[i] == rest[i - 1];
      if i :| 0 <= i < |sights| && !sights[i].stale {
        assert !rest[i - 1].stale;
      }
    }
  }

  // A lock found stale at every turn outlasts any deadline, however many turns.
  lemma StaleLockOutlivesTheDeadline(deadline: nat, turns: nat)
    ensures Acquire(seq(turns, _ => Exists(true, deadline)), deadline) == StillTrying
  {
    DeadlineEndsTheWaitExactlyWhen(seq(turns, _ => Exists(true, deadline)), deadline);
  }
}

/**
 What the lock file protects: processes that refresh one credential at the same
 time (`perform_refresh` under `begin_account`), and an issuer that replaces the
 refresh token each time it is used and refuses the replaced one.
 */
module LockProtocol {
  import opened Basics
  import opened Credentials

  // The age in seconds past which a lock is given up for its holder.
  const STALE_AFTER: nat := 60

  /** One attempt by one process to change the credential. From `Holding` to `Finished` it believes it has the lock. */
  datatype Phase =
    | Waiting
    | Judged
    | Holding
    | Loaded(tokens: Tokens)
    | Exchanged(tokens: Tokens)
    | Finished
    | Gone

  datatype LockFile = LockFile(owner: nat, made: nat)

  /** `live` is the one refresh token the issuer still accepts. */
  datatype State = State(now: nat, file: Option<LockFile>, procs: map<nat, Phase>, stored: Option<Tokens>, live: string)

  datatype Step =
    | Tick
    | Arrive(p: nat)
    | Claim(p: nat)
    | Judge(p: nat)
    | Break(p: nat)
    | GiveUp(p: nat)
    | Load(p: nat, due: bool)
    | Exchange(p: nat, answer: Option<Grant>, issuer: string)
    | LoseAnswer(p: nat, lost: Grant)
    | Save(p: nat, written: bool)
    | Replace(p: nat, tokens: Option<Tokens>)
    | Abandon(p: nat)
    | Release(p: nat)
    | Die(p: nat)

  predicate Holds(ph: Phase) {
    ph.Holding? || ph.Loaded? || ph.Exchanged? || ph.Finished?
  }

  predicate HoldsIn(s: State, p: nat) {
    p in s.procs && Holds(s.procs[p])
  }

  predicate Accepted(s: State, t: Tokens) {
    t.refresh == Some(s.live)
  }

  predicate Enabled(s: State, step: Step) {
    match step
    case Tick => true
    case Arrive(p) => p !in s.procs
    case Claim(p) => p in s.procs && s.procs[p].Waiting? && s.file.None?
    case Judge(p) => p in s.procs && s.procs[p].Waiting? && s.file.Some? && s.now > s.file.value.made + STALE_AFTER
    case Break(p) => p in s.procs && s.procs[p].Judged?
    case GiveUp(p) => p in s.procs && s.procs[p].Waiting?
    case Load(p, _) => p in s.procs && s.procs[p].Holding?
    case Exchange(p, _, _) => p in s.procs && s.procs[p].Loaded?
    case LoseAnswer(p, _) => p in s.procs && s.procs[p].Loaded? && Accepted(s, s.procs[p].tokens)
    case Save(p, _) => p in s.procs && s.procs[p].Exchanged?
    case Replace(p, _) => p in s.procs && s.procs[p].Holding?
    case Abandon(p) => HoldsIn(s, p)
    case Release(p) => p in s.procs && s.procs[p].Finished?
    case Die(p) => p in s.procs
  }

  function AfterGrant(live: string, grant: Grant): string {
    grant.refresh.GetOr(live)
  }

  function Next(s: State, step: Step): State
    requires Enabled(s, step)
  {
    match step
    case Tick => s.(now := s.now + 1)
    case Arrive(p) => s.(procs := s.procs[p := Waiting])
    case Claim(p) => s.(file := Some(LockFile(p, s.now)), procs := s.procs[p := Holding])
    case Judge(p) => s.(procs := s.procs[p := Judged])
    case Break(p) => s.(file := None, procs := s.procs[p := Waiting])
    case GiveUp(p) => s.(procs := s.procs[p := Gone])
    case Load(p, due) =>
      var goesOn := due && s.stored.Some? && s.stored.value.refresh.Some?;
      s.(procs := s.procs[p := if goesOn then Loaded(s.stored.value) else Finished])
    case Exchange(p, answer, issuer) =>
      var t := s.procs[p].tokens;
      if answer.Some? && Accepted(s, t) then
        s.(procs := s.procs[p := Exchanged(IntoTokens(answer.value, t.refresh, t.account, t.issuer.Or(Some(issuer))))],
           live := AfterGrant(s.live, answer.value))
      else s.(procs := s.procs[p := Finished])
    case LoseAnswer(p, grant) => s.(procs := s.procs[p := Finished], live := AfterGrant(s.live, grant))
    case Save(p, written) =>
      s.(procs := s.procs[p := Finished], stored := if written then Some(s.procs[p].tokens) else s.stored)
    case Replace(p, tokens) =>
      s.(procs := s.procs[p := Finished], stored := tokens,
         live := if tokens.Some? then tokens.value.refresh.GetOr(s.live) else s.live)
    case Abandon(p) => s.(procs := s.procs[p := Finished])
    case Release(p) => s.(file := None, procs := s.procs[p := Gone])
    case Die(p) => s.(procs := s.procs[p := Gone])
  }

  /** A run may begin with a lock file that somebody left behind. */
  predicate Initial(s: State) {
    s.procs == map[]
  }

  ghost predicate ValidRun(states: seq<State>, steps: seq<Step>) {
    && |states| == |steps| + 1 && Initial(states[0])
    && forall i | 0 <= i < |steps| :: Enabled(states[i], steps[i]) && states[i + 1] == Next(states[i], steps[i])
  }

  // ----- Who holds the lock -----

  /** Whoever believes it holds the lock made the file that is there. */
  ghost predicate Owned(s: State) {
    forall p | HoldsIn(s, p) :: s.file.Some? && s.file.value.owner == p
  }

  /** The step removes, as stale, the lock of a process that is still at work. */
  predicate Robs(s: State, step: Step) {
    step.Break? && s.file.Some? && HoldsIn(s, s.file.value.owner)
  }

  lemma OwnedIsExclusive(s: State, a: nat, b: nat)
    requires Owned(s) && HoldsIn(s, a) && HoldsIn(s, b)
    ensures a == b
  {
  }

  lemma StepKeepsOwnedExactlyWhen(s: State, step: Step)
    requires Owned(s) && Enabled(s, step)
    ensures Owned(Next(s, step)) <==> !Robs(s, step)
  {
    var t := Next(s, step);
    if Robs(s, step) {
      assert HoldsIn(t, s.file.value.owner);
    } else {
      forall p | HoldsIn(t, p)
        ensures t.file.Some? && t.file.value.owner == p
      {
        assert HoldsIn(s, p) || (step.Claim? && step.p == p);
        assert step.Release? ==> HoldsIn(s, step.p);
      }
    }
  }

  lemma {:induction false} OwnedUpTo(states: seq<State>, steps: seq<Step>, n: nat)
    requires ValidRun(states, steps) && n < |states|
    requires forall k | 0 <= k < n :: !Robs(states[k], steps[k])
    ensures Owned(states[n])
  {
    if n > 0 {
      OwnedUpTo(states, steps, n - 1);
      StepKeepsOwnedExactlyWhen(states[n - 1], steps[n - 1]);
    }
  }

  // Whoever holds the lock is the one whose file is there, all through a run,
  // exactly when the run never breaks the lock of a process still at work.
  lemma LockIsOwnedExactlyWhen(states: seq<State>, steps: seq<Step>)
    requires ValidRun(states, steps)
    ensures (forall n | 0 <= n < |states| :: Owned(states[n])) <==>
        (forall k | 0 <= k < |steps| :: !Robs(states[k], steps[k]))
  {
    if forall k | 0 <= k < |steps| :: !Robs(states[k], steps[k]) {
      forall n | 0 <= n < |states|
        ensures Owned(states[n])
      {
        OwnedUpTo(states, steps, n);
      }
    } else {
      var k :| 0 <= k < |steps| && Robs(states[k], steps[k]);
      if Owned(states[k]) {
        StepKeepsOwnedExactlyWhen(states[k], steps[k]);
        assert !Owned(states[k + 1]);
      }
    }
  }

  lemma {:induction false} NobodyJudged(states: seq<State>, steps: seq<Step>, n: nat, p: nat)
    requires ValidRun(states, steps) && n < |states| && p in states[n].procs
    requires forall k | 0 <= k < |steps| :: !steps[k].Judge?
    ensures !states[n].procs[p].Judged?
  {
    if n > 0 && p in states[n - 1].procs {
      NobodyJudged(states, steps, n - 1, p);
    }
  }

  // A run in which every lock file is gone within STALE_AFTER of being made
  // breaks no lock at all.
  lemma PromptRunsRobNobody(states: seq<State>, steps: seq<Step>, k: nat)
    requires ValidRun(states, steps) && k < |steps|
    requires forall n | 0 <= n < |states| :: states[n].file.Some? ==>
        states[n].now <= states[n].file.value.made + STALE_AFTER
    ensures !steps[k].Judge? && !steps[k].Break?
  {
    if steps[k].Break? {
      forall i | 0 <= i < |steps|
        ensures !steps[i].Judge?
      {
        assert Enabled(states[i], steps[i]);
      }
      NobodyJudged(states, steps, k, steps[k].p);
    }
  }

  // ----- What is exchanged -----

  /** What a holder has loaded is still what is stored, and can be renewed. */
  ghost predicate Steady(s: State) {
    && Owned(s)
    && (forall p | p in s.procs && s.procs[p].Loaded? ::
        s.stored == Some(s.procs[p].tokens) && s.procs[p].tokens.refresh.Some?)
    && (forall p | p in s.procs && s.procs[p].Exchanged? ::
          s.stored.Some? && s.stored.value.refresh.Some? && s.procs[p].tokens.refresh.Some?)
  }

  lemma StepKeepsSteady(s: State, step: Step)
    requires Steady(s) && Enabled(s, step) && !Robs(s, step)
    ensures Steady(Next(s, step))
  {
    var t := Next(s, step);
    StepKeepsOwnedExactlyWhen(s, step);
    forall p | p in t.procs && t.procs[p].Loaded?
      ensures t.stored == Some(t.procs[p].tokens) && t.procs[p].tokens.refresh.Some?
    {
      if step.Save? || step.Replace? {
        assert HoldsIn(s, p) && HoldsIn(s, step.p);
      }
    }
    forall p | p in t.procs && t.procs[p].Exchanged?
      ensures t.stored.Some? && t.stored.value.refresh.Some? && t.procs[p].tokens.refresh.Some?
    {
      if step.Save? || step.Replace? {
        assert HoldsIn(s, p) && HoldsIn(s, step.p);
      }
    }
  }

  lemma {:induction false} SteadyUpTo(states: seq<State>, steps: seq<Step>, n: nat)
    requires ValidRun(states, steps) && n < |states|
    requires forall k | 0 <= k < n :: !Robs(states[k], steps[k])
    ensures Steady(states[n])
  {
    if n > 0 {
      SteadyUpTo(states, steps, n - 1);
      StepKeepsSteady(states[n - 1], steps[n - 1]);
    }
  }

  // While no working process is robbed, whoever exchanges is alone and presents
  // the refresh token that was stored last.
  lemma ExchangePresentsTheStoredToken(states: seq<State>, steps: seq<Step>, n: nat, other: nat)
    requires ValidRun(states, steps) && n < |steps| && steps[n].Exchange?
    requires forall k | 0 <= k < n :: !Robs(states[k], steps[k])
    requires HoldsIn(states[n], other)
    ensures other == steps[n].p && states[n].stored == Some(states[n].procs[other].tokens)
  {
    SteadyUpTo(states, steps, n);
    assert Enabled(states[n], steps[n]);
    OwnedIsExclusive(states[n], other, steps[n].p);
  }

  /** The newest credential the issuer granted that somebody still has: being saved, or saved. */
  function Newest(s: State): Option<Tokens> {
    if s.file.Some? && s.file.value.owner in s.procs && s.procs[s.file.value.owner].Exchanged? then
      Some(s.procs[s.file.value.owner].tokens)
    else s.stored
  }

  /** The newest credential can still be renewed, if it ever could. */
  predicate Renewable(s: State) {
    Newest(s).Some? && Newest(s).value.refresh.Some? ==> Accepted(s, Newest(s).value)
  }

  /** The step throws away the refresh token the issuer has just put in place of the stored one. */
  predicate Strands(s: State, step: Step) {
    match step
    case LoseAnswer(_, grant) => grant.refresh.Some? && grant.refresh.value != s.live
    case Die(p) => p in s.procs && s.procs[p].Exchanged? && s.stored.Some?
        && s.procs[p].tokens.refresh != s.stored.value.refresh
    case Abandon(p) => p in s.procs && s.procs[p].Exchanged? && s.stored.Some?
        && s.procs[p].tokens.refresh != s.stored.value.refresh
    case Save(p, written) =>
      !written && p in s.procs && s.procs[p].Exchanged? && s.stored.Some?
          && s.procs[p].tokens.refresh != s.stored.value.refresh
    case _ => false
  }

  lemma StepKeepsRenewableExactlyWhen(s: State, step: Step)
    requires Steady(s) && Renewable(s) && Enabled(s, step) && !Robs(s, step)
    ensures Renewable(Next(s, step)) <==> !Strands(s, step)
  {
    if !step.Tick? && !step.Arrive? && HoldsIn(s, step.p) {
      assert s.file.Some? && s.file.value.owner == step.p;
    }
  }

  lemma {:induction false} RenewableUpTo(states: seq<State>, steps: seq<Step>, n: nat)
    requires ValidRun(states, steps) && n < |states| && Renewable(states[0])
    requires forall k | 0 <= k < n :: !Robs(states[k], steps[k]) && !Strands(states[k], steps[k])
    ensures Renewable(states[n])
  {
    if n > 0 {
      RenewableUpTo(states, steps, n - 1);
      SteadyUpTo(states, steps, n - 1);
      StepKeepsRenewableExactlyWhen(states[n - 1], steps[n - 1]);
    }
  }

  // While no working process is robbed, the login stays renewable all through a
  // run exactly when no step loses a replaced refresh token before it is saved.
  lemma LoginStaysRenewableExactlyWhen(states: seq<State>, steps: seq<Step>)
    requires ValidRun(states, steps) && Renewable(states[0])
    requires forall k | 0 <= k < |steps| :: !Robs(states[k], steps[k])
    ensures (forall n | 0 <= n < |states| :: Renewable(states[n])) <==>
        (forall k | 0 <= k < |steps| :: !Strands(states[k], steps[k]))
  {
    if forall k | 0 <= k < |steps| :: !Strands(states[k], steps[k]) {
      forall n | 0 <= n < |states|
        ensures Renewable(states[n])
      {
        RenewableUpTo(states, steps, n);
      }
    } else {
      var k :| 0 <= k < |steps| && Strands(states[k], steps[k]);
      if Renewable(states[k]) {
        SteadyUpTo(states, steps, k);
        StepKeepsRenewableExactlyWhen(states[k], steps[k]);
        assert !Renewable(states[k + 1]);
      }
    }
  }

  // And then no exchange ever presents a superseded refresh token.
  lemma NoSupersededTokenIsPresented(states: seq<State>, steps: seq<Step>, n: nat)
    requires ValidRun(states, steps) && Renewable(states[0]) && n < |steps| && steps[n].Exchange?
    requires forall k | 0 <= k < n :: !Robs(states[k], steps[k]) && !Strands(states[k], steps[k])
    ensures Accepted(states[n], states[n].procs[steps[n].p].tokens)
  {
    RenewableUpTo(states, steps, n);
    SteadyUpTo(states, steps, n);
    assert Enabled(states[n], steps[n]) && HoldsIn(states[n], steps[n].p);
  }

  /** The holder's steps one after another, with nobody in between. */
  function Alone(s: State, p: nat, mode: Mode, o: Oracle, issuer: string): State
    requires p in s.procs && s.procs[p].Holding?
  {
    var loaded := Next(s, Load(p, mode == Force || o.stale));
    if loaded.procs[p].Finished? then loaded
    else
      var exchanged := Next(loaded, Exchange(p, o.grant, issuer));
      if exchanged.procs[p].Finished? then exchanged else Next(exchanged, Save(p, o.saves))
  }

  // Undisturbed, the steps of a process are one refresh of a renewable credential.
  lemma AloneIsRefresh(s: State, p: nat, mode: Mode, o: Oracle, issuer: string)
    requires p in s.procs && s.procs[p].Holding?
    requires s.stored.Some? && s.stored.value.refresh.Some? ==> Accepted(s, s.stored.value)
    ensures Alone(s, p, mode, o, issuer).stored == Refresh(s.stored, mode, o, issuer).stored
    ensures Alone(s, p, mode, o, issuer).procs[p] == Finished
  {
  }

  // From a free lock to a free lock: an undisturbed turn of a waiting process is
  // one refresh, and it touches nothing but the credential.
  lemma TurnIsRefresh(s: State, p: nat, mode: Mode, o: Oracle, issuer: string)
    requires p in s.procs && s.procs[p] == Waiting && s.file == None
    requires s.stored.Some? && s.stored.value.refresh.Some? ==> Accepted(s, s.stored.value)
    ensures var r := Refresh(s.stored, mode, o, issuer);
            var live := if r.presented.Some? && o.grant.Some? then o.grant.value.refresh.GetOr(s.live) else s.live;
            Next(Alone(Next(s, Claim(p)), p, mode, o, issuer), Release(p)) ==
            State(s.now, None, s.procs[p := Gone], r.stored, live)
  {
    AloneIsRefresh(Next(s, Claim(p)), p, mode, o, issuer);
  }

  // The same of a login or a logout.
  lemma TurnReplaces(s: State, p: nat, tokens: Option<Tokens>)
    requires p in s.procs && s.procs[p] == Waiting && s.file == None
    ensures var t := Next(Next(Next(s, Claim(p)), Replace(p, tokens)), Release(p));
            && t == State(s.now, None, s.procs[p := Gone], tokens, t.live)
            && (if tokens.Some? && tokens.value.refresh.Some? then Accepted(t, tokens.value) else t.live == s.live)
  {
  }

  // A waiter can give up and a holder can stop, and neither changes anything but
  // the lock.
  lemma AnyoneMayLeave(s: State, p: nat)
    requires p in s.procs
    ensures s.procs[p].Waiting? ==> Next(s, GiveUp(p)) == s.(procs := s.procs[p := Gone])
    ensures Holds(s.procs[p]) ==> Next(Next(s, Abandon(p)), Release(p)) == s.(file := None, procs := s.procs[p := Gone])
  {
  }

  // A process that dies leaves its lock behind. A waiter judges it stale once it is
  // more than a minute old, not before, and then gets in.
  lemma DeadLockIsTakenOver(s: State, p: nat, q: nat, later: nat)
    requires p != q && p in s.procs && q in s.procs && s.procs[q] == Waiting
    requires s.file.Some? && s.file.value.owner == p
    ensures var dead := Next(s, Die(p)).(now := later);
            && dead == s.(now := later, procs := s.procs[p := Gone]) && !Enabled(dead, Claim(q))
            && (Enabled(dead, Judge(q)) <==> later > s.file.value.made + 60)
            && (Enabled(dead, Judge(q)) ==>
                  Next(Next(Next(dead, Judge(q)), Break(q)), Claim(q)) ==
                  dead.(file := Some(LockFile(q, later)), procs := dead.procs[q := Holding]))
  {
  }

  // An answer that is lost leaves the issuer as the exchange would, and the
  // process with nothing to save.
  lemma LostAnswerIsAnExchange(s: State, p: nat, grant: Grant, issuer: string)
    requires p in s.procs && s.procs[p].Loaded? && Accepted(s, s.procs[p].tokens)
    ensures var answered := Next(s, Exchange(p, Some(grant), issuer));
            && answered.procs[p].Exchanged?
            && Next(s, LoseAnswer(p, grant)) == answered.(procs := s.procs[p := Finished])
  {
  }

  // The credential changes only at the hands of a process that believes it holds
  // the lock, and the issuer replaces a refresh token only on a login or on being
  // shown it. No step touches another process.
  lemma OnlyHoldersChangeTheCredential(s: State, step: Step)
    requires Enabled(s, step)
    ensures var t := Next(s, step);
            && (t.stored != s.stored || t.live != s.live ==> !step.Tick? && HoldsIn(s, step.p))
            && (t.live != s.live && !step.Replace? ==> Accepted(s, s.procs[step.p].tokens))
            && (step.Tick? ==> t.procs == s.procs)
            && (!step.Tick? ==> step.p in t.procs && t.procs == s.procs[step.p := t.procs[step.p]])
  {
  }

  // ----- The order of one process's steps -----

  predicate By(step: Step, p: nat) {
    !step.Tick? && step.p == p
  }

  /** Whether a process that did `a` last may do `b` next. */
  predicate Follows(a: Step, b: Step) {
    match b
    case Tick => true
    case Arrive(_) => false
    case Claim(_) => a.Arrive? || a.Break?
    case Judge(_) => a.Arrive? || a.Break?
    case GiveUp(_) => a.Arrive? || a.Break?
    case Break(_) => a.Judge?
    case Load(_, _) => a.Claim?
    case Replace(_, _) => a.Claim?
    case Exchange(_, _, _) => a.Load?
    case LoseAnswer(_, _) => a.Load?
    case Save(_, _) => a.Exchange?
    case Release(_) => a.Load? || a.Exchange? || a.LoseAnswer? || a.Save? || a.Replace? || a.Abandon?
    case Abandon(_) => a.Claim? || a.Load? || a.Exchange? || a.LoseAnswer? || a.Save? || a.Replace? || a.Abandon?
    case Die(_) => true
  }

  lemma {:induction false} PhaseKept(states: seq<State>, steps: seq<Step>, m: nat, n: nat, p: nat)
    requires ValidRun(states, steps) && m <= n < |states|
    requires forall k | m <= k < n :: !By(steps[k], p)
    ensures p in states[m].procs <==> p in states[n].procs
    ensures p in states[m].procs ==> states[m].procs[p] == states[n].procs[p]
    decreases n
  {
    if m < n {
      PhaseKept(states, steps, m, n - 1, p);
      OnlyHoldersChangeTheCredential(states[n - 1], steps[n - 1]);
    }
  }

  // In every run a process arrives first.
  lemma FirstArrives(states: seq<State>, steps: seq<Step>, n: nat)
    requires ValidRun(states, steps) && n < |steps| && !steps[n].Tick?
    requires forall k | 0 <= k < n :: !By(steps[k], steps[n].p)
    ensures steps[n].Arrive?
  {
    PhaseKept(states, steps, 0, n, steps[n].p);
    assert Enabled(states[n], steps[n]);
  }

  // And its steps come in order: it waits before it claims, claims before it loads
  // or replaces, loads before it exchanges, exchanges before it saves, and is done
  // before it releases, whatever the others do in between.
  lemma StepsComeInOrder(states: seq<State>, steps: seq<Step>, m: nat, n: nat, p: nat)
    requires ValidRun(states, steps) && m < n < |steps| && By(steps[m], p) && By(steps[n], p)
    requires forall k | m < k < n :: !By(steps[k], p)
    ensures Follows(steps[m], steps[n])
  {
    assert Enabled(states[m], steps[m]) && Enabled(states[n], steps[n]);
    OnlyHoldersChangeTheCredential(states[m], steps[m]);
    PhaseKept(states, steps, m + 1, n, p);
  }

  // ----- What holds whoever is robbed -----

  ghost predicate HasRefreshTokens(s: State) {
    && s.stored.Some? && s.stored.value.refresh.Some?
    && (forall p | p in s.procs && (s.procs[p].Loaded? || s.procs[p].Exchanged?) :: s.procs[p].tokens.refresh.Some?)
  }

  // Even with two processes inside at once, a stored refresh token is only ever
  // replaced by another one, unless a login or a logout replaces the credential.
  lemma {:induction false} StoredRefreshTokenIsNeverLost(states: seq<State>, steps: seq<Step>, n: nat)
    requires ValidRun(states, steps) && n < |states| && states[0].stored.Some? && states[0].stored.value.refresh.Some?
    requires forall k | 0 <= k < n :: !steps[k].Replace?
    ensures HasRefreshTokens(states[n])
  {
    if n > 0 {
      StoredRefreshTokenIsNeverLost(states, steps, n - 1);
    }
  }

  // ----- How exclusion is lost -----

  lemma OneMore(states: seq<State>, steps: seq<Step>, step: Step) returns (states': seq<State>, steps': seq<Step>)
    requires ValidRun(states, steps) && Enabled(states[|steps|], step)
    ensures ValidRun(states', steps') && states'[|steps'|] == Next(states[|steps|], step)
  {
    states', steps' := states + [Next(states[|steps|], step)], steps + [step];
  }

  lemma {:induction false} Wait(states: seq<State>, steps: seq<Step>, ticks: nat)
      returns (states': seq<State>, steps': seq<Step>)
    requires ValidRun(states, steps)
    ensures ValidRun(states', steps')
    ensures states'[|steps'|] == states[|steps|].(now := states[|steps|].now + ticks)
    decreases ticks
  {
    states', steps' := states, steps;
    if ticks > 0 {
      states', steps' := OneMore(states, steps, Tick);
      states', steps' := Wait(states', steps', ticks - 1);
    }
  }

  // Two waiters that both judged a dead process's lock stale both remove it: the
  // second removes the first one's new lock, and both are inside.
  lemma TwoWaitersBothIn(t: Tokens) returns (states: seq<State>, steps: seq<Step>)
    ensures ValidRun(states, steps)
    ensures var s := states[|steps|];
            && HoldsIn(s, 1) && HoldsIn(s, 2) && s.procs[1] == s.procs[2] == Holding
            && s.stored == Some(t) && s.live == t.refresh.GetOr("")
  {
    states, steps := [State(0, None, map[], Some(t), t.refresh.GetOr(""))], [];
    states, steps := OneMore(states, steps, Arrive(0));
    states, steps := OneMore(states, steps, Claim(0));
    states, steps := OneMore(states, steps, Die(0));
    states, steps := Wait(states, steps, STALE_AFTER + 1);
    states, steps := OneMore(states, steps, Arrive(1));
    states, steps := OneMore(states, steps, Judge(1));
    states, steps := OneMore(states, steps, Arrive(2));
    states, steps := OneMore(states, steps, Judge(2));
    states, steps := OneMore(states, steps, Break(1));
    states, steps := OneMore(states, steps, Claim(1));
    states, steps := OneMore(states, steps, Break(2));
    states, steps := OneMore(states, steps, Claim(2));
  }

  // And the slower of the two then presents a refresh token the faster one's
  // exchange has replaced, which the issuer refuses.
  lemma SlowerWaiterIsRefused(t: Tokens, grant: Grant, issuer: string) returns (states: seq<State>, steps: seq<Step>)
    requires t.refresh.Some? && grant.refresh.Some? && grant.refresh != t.refresh
    ensures ValidRun(states, steps)
    ensures var s := states[|steps|];
            && 2 in s.procs && s.procs[2] == Loaded(t) && !Accepted(s, t)
            && Next(s, Exchange(2, Some(grant), issuer)).procs[2] == Finished
  {
    states, steps := TwoWaitersBothIn(t);
    states, steps := OneMore(states, steps, Load(1, true));
    states, steps := OneMore(states, steps, Load(2, true));
    states, steps := OneMore(states, steps, Exchange(1, Some(grant), issuer));
  }
}
