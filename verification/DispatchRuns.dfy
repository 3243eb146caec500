/**
 Many calls of one session at once. Between taking and releasing the session
 lock a call may wait for a reviewer while other calls go on; every such
 interleaving is a run of the step system below.
 */
module DispatchRuns {
  import opened Basics
  import opened Approval
  import opened ApprovalRules
  import opened Dispatching

  /** Where one call is. `asking`: the domain its body is having reviewed. */
  datatype Phase =
    | Asking(p: Pending)
    | Running(p: Pending, granted: Rights, r: Runtime, asking: Option<string>)
    | Over

  datatype State = State(shared: Shared, lock: Option<nat>, calls: map<nat, Phase>)

  datatype Step =
    | Start(c: nat, call: Call, tools: map<string, Tool>, policy: Policy)
    | Answer(c: nat, reviewers: seq<Reviewer>)
    | Ask(c: nat, domain: string, cancelled: bool)
    | AskAnswered(c: nat, reviewers: seq<Reviewer>, cancelled: bool, remembers: bool)
    | Abandon(c: nat)
    | Close(c: nat)
    | StoreChanges(store: Option<set<string>>)

  predicate Holds(ph: Phase) {
    match ph
    case Asking(p) => p.held
    case Running(_, _, _, asking) => asking.Some?
    case Over => false
  }

  /** Whether a request gets as far as taking the session lock. */
  predicate NeedsLock(r: Runtime, domain: string, cancelled: bool) {
    !cancelled && !r.closed && domain !in r.allowed && Human(r.policy)
  }

  predicate Enabled(s: State, step: Step) {
    match step
    case Start(c, call, tools, policy) =>
      c !in s.calls &&
      var a := Admit(call, tools, policy, s.shared);
      (a.Stopped? || !a.p.held || s.lock == None)
    case Answer(c, _) => c in s.calls && s.calls[c].Asking?
    case Ask(c, domain, cancelled) =>
      c in s.calls && s.calls[c].Running? && s.calls[c].asking == None
      && (NeedsLock(s.calls[c].r, domain, cancelled) ==> s.lock == None)
    case AskAnswered(c, _, _, _) => c in s.calls && s.calls[c].Running? && s.calls[c].asking.Some?
    case Abandon(c) => c in s.calls && (s.calls[c].Asking? || (s.calls[c].Running? && s.calls[c].asking.Some?))
    case Close(c) => c in s.calls && s.calls[c].Running?
    case StoreChanges(_) => true
  }

  function Release(s: State, c: nat): Option<nat> {
    if s.lock == Some(c) then None else s.lock
  }

  function Begin(p: Pending, granted: Rights): Phase {
    Running(p, granted, Runtime(p.policy, granted.domains, false, p.objectArguments), None)
  }

  function Next(s: State, step: Step): State
    requires Enabled(s, step)
  {
    match step
    case Start(c, call, tools, policy) => (
      match Admit(call, tools, policy, s.shared)
      case Stopped => s.(calls := s.calls[c := Over])
      case Waiting(p) => s.(calls := s.calls[c := Asking(p)], lock := if p.held then Some(c) else s.lock)
      case Cleared(p) =>
        State(After(p, None, s.shared), s.lock, s.calls[c := Begin(p, Granted(p, None).value)]))
    case Answer(c, reviewers) =>
      var p := s.calls[c].p;
      var d := ReviewOutcome(reviewers, p.policy, p.requirement);
      State(After(p, Some(d), s.shared), Release(s, c),
            s.calls[c := if d.Allows() then Begin(p, Granted(p, Some(d)).value) else Over])
    case Ask(c, domain, cancelled) => (
      var ph := s.calls[c];
      match Request(ph.r, domain, cancelled, s.shared)
      case Settled(_, r, shared) => State(shared, s.lock, s.calls[c := ph.(r := r)])
      case Ask => s.(lock := Some(c), calls := s.calls[c := ph.(asking := Some(domain))]))
    case AskAnswered(c, reviewers, cancelled, remembers) =>
      var ph := s.calls[c];
      var d := ReviewOutcome(reviewers, ph.r.policy, ReviewRequired);
      var (_, r, shared) := Answered(ph.r, ph.asking.value, d, cancelled, remembers, s.shared);
      State(shared, Release(s, c), s.calls[c := ph.(r := r, asking := None)])
    case Abandon(c) =>
      var ph := s.calls[c];
      s.(lock := Release(s, c), calls := s.calls[c := if ph.Asking? then Over else ph.(asking := None)])
    case Close(c) => s.(calls := s.calls[c := s.calls[c].(r := s.calls[c].r.(closed := true))])
    case StoreChanges(store) => s.(shared := s.shared.(store := store))
  }

  /** A call is as its admission left it. */
  predicate Sound(p: Pending) {
    && (p.held <==> Human(p.policy) && p.rights.domains != [])
    && (p.known ==> p.rights.domains == [] || p.held) && (p.rights.domains == [] ==> p.known)
    && (!p.known || p.rights.PerCall() ==> p.requirement == ReviewRequired || p.requirement == Always)
  }

  lemma AdmitIsSound(call: Call, tools: map<string, Tool>, policy: Policy, s: Shared)
    ensures var a := Admit(call, tools, policy, s);
            !a.Stopped? ==> Sound(a.p) && a.p.policy == policy && a.p.rights == tools[call.name].rights
                            && (a.Cleared? ==> Granted(a.p, None) == Some(a.p.rights))
  {
  }

  /** A call's steps one after another, with nobody in between. */
  function CallAlone(s: State, c: nat, call: Call, tools: map<string, Tool>, policy: Policy,
      reviewers: seq<Reviewer>): State
    requires c !in s.calls && s.lock == None
  {
    var started := Next(s, Start(c, call, tools, policy));
    if started.calls[c].Asking? then Next(started, Answer(c, reviewers)) else started
  }

  // Undisturbed, they are one dispatch: it ends with the lock free, and with the
  // body running exactly when the call runs, with what it was given.
  lemma CallAloneIsDispatch(s: State, c: nat, call: Call, tools: map<string, Tool>, policy: Policy,
      reviewers: seq<Reviewer>)
    requires c !in s.calls && s.lock == None
    ensures var (outcome, shared) := DispatchOutcome(call, tools, policy, reviewers, s.shared);
            var t := CallAlone(s, c, call, tools, policy, reviewers);
            && t.shared == shared && t.lock == None && c in t.calls && t.calls == s.calls[c := t.calls[c]]
            && (outcome.Refused? <==> t.calls[c] == Over)
            && (outcome.Ran? ==>
                  var Running(_, granted, r, asking) := t.calls[c];
                  && granted == outcome.approved && asking == None
                  && r == Runtime(policy, outcome.approved.domains, false, call.objectArguments))
  {
    AdmitIsSound(call, tools, policy, s.shared);
  }

  /** The same for one request of a running body. */
  function RequestAlone(s: State, c: nat, domain: string, cancelled: bool, later: bool, reviewers: seq<Reviewer>,
      remembers: bool): State
    requires c in s.calls && s.calls[c].Running? && s.calls[c].asking == None && s.lock == None
  {
    var asked := Next(s, Step.Ask(c, domain, cancelled));
    if asked.calls[c].asking.Some? then Next(asked, AskAnswered(c, reviewers, later, remembers)) else asked
  }

  lemma RequestAloneIsRequest(s: State, c: nat, domain: string, cancelled: bool, later: bool, reviewers: seq<Reviewer>,
      remembers: bool)
    requires c in s.calls && s.calls[c].Running? && s.calls[c].asking == None && s.lock == None
    ensures var (_, r, shared) := RequestOutcome(s.calls[c].r, domain, cancelled, later, reviewers, remembers,
        s.shared);
            RequestAlone(s, c, domain, cancelled, later, reviewers, remembers) ==
            State(shared, None, s.calls[c := s.calls[c].(r := r)])
  {
  }

  // While another call holds the session lock, a call can start exactly when it is
  // turned away at once, needs no network, or is under a policy that asks nobody
  // about it.
  lemma StartsBesideTheLock(s: State, c: nat, call: Call, tools: map<string, Tool>, policy: Policy)
    requires c !in s.calls && s.lock.Some?
    ensures Enabled(s, Start(c, call, tools, policy)) <==>
            || Admit(call, tools, policy, s.shared).Stopped? || tools[call.name].rights.domains == []
            || policy == Auto || policy == Never
  {
    AdmitIsSound(call, tools, policy, s.shared);
  }

  // And a running body can make a request exactly when nobody has to be asked
  // about it: it is given up, too late or for something the call may reach, or the
  // policy asks nobody.
  lemma AsksBesideTheLock(s: State, c: nat, domain: string, cancelled: bool)
    requires c in s.calls && s.calls[c].Running? && s.calls[c].asking == None && s.lock.Some?
    ensures var r := s.calls[c].r;
            Enabled(s, Step.Ask(c, domain, cancelled)) <==>
            cancelled || r.closed || domain in r.allowed || r.policy == Auto || r.policy == Never
  {
  }

  // The environment may step in anywhere: a call that waits for an answer can be
  // given up, which frees the lock and leaves nothing behind, and the persistent
  // store can change.
  lemma WaitingCanBeGivenUp(s: State, c: nat, store: Option<set<string>>)
    requires c in s.calls && (s.calls[c].Asking? || (s.calls[c].Running? && s.calls[c].asking.Some?))
    ensures Enabled(s, Abandon(c)) && Next(s, Abandon(c)).lock != Some(c) && Next(s, Abandon(c)).shared == s.shared
    ensures Enabled(s, StoreChanges(store)) && Next(s, StoreChanges(store)).shared.store == store
  {
  }

  // A body whose call has failed asks for nothing more.
  lemma ClosedAsksNothing(s: State, c: nat, domain: string, later: bool, reviewers: seq<Reviewer>, remembers: bool)
    requires c in s.calls && s.calls[c].Running? && s.calls[c].asking == None && s.lock == None
    ensures var closed := Next(s, Close(c));
            RequestAlone(closed, c, domain, false, later, reviewers, remembers) == closed
  {
  }

  // And an answer that comes after the call has failed grants nothing: it frees
  // the lock and is forgotten.
  lemma LateAnswerGrantsNothing(s: State, c: nat, reviewers: seq<Reviewer>, cancelled: bool, remembers: bool)
    requires c in s.calls && s.calls[c].Running? && s.calls[c].asking.Some? && s.lock == Some(c)
    ensures var closed := Next(s, Close(c));
            Next(closed, AskAnswered(c, reviewers, cancelled, remembers)) ==
            State(s.shared, None, s.calls[c := closed.calls[c].(asking := None)])
  {
  }

  predicate Initial(s: State) {
    s.shared.allowed == {} && s.shared.always == {} && s.lock == None && s.calls == map[]
  }

  ghost predicate ValidRun(states: seq<State>, steps: seq<Step>) {
    && |states| == |steps| + 1 && Initial(states[0])
    && forall i | 0 <= i < |steps| :: Enabled(states[i], steps[i]) && states[i + 1] == Next(states[i], steps[i])
  }

  // ----- What every step keeps -----

  /** Where a domain a running body can reach may come from. */
  predicate Reachable(p: Pending, domain: string, allowed: set<string>) {
    if Human(p.policy) then domain in allowed else p.policy == Never || domain in p.rights.domains
  }

  predicate PhaseOk(ph: Phase, allowed: set<string>) {
    match ph
    case Asking(p) => Sound(p)
    case Over => true
    case Running(p, granted, r, asking) =>
      && Sound(p) && granted == p.rights && r.policy == p.policy
      && (asking.Some? ==> Human(p.policy))
      && forall d | d in r.allowed :: Reachable(p, d, allowed)
  }

  /** At most one call holds the session lock, and it is the one waiting on a network answer. */
  predicate LockOk(s: State) {
    && (s.lock.Some? ==> s.lock.value in s.calls)
    && forall c | c in s.calls :: Holds(s.calls[c]) <==> s.lock == Some(c)
  }

  predicate Inv(s: State) {
    LockOk(s) && forall c | c in s.calls :: PhaseOk(s.calls[c], s.shared.allowed)
  }

  lemma StepGrows(s: State, step: Step)
    requires Enabled(s, step)
    ensures s.shared.allowed <= Next(s, step).shared.allowed
    ensures Next(s, step).shared.required == s.shared.required
  {
  }

  lemma StepKeepsLock(s: State, step: Step)
    requires LockOk(s) && Enabled(s, step)
    requires step.Ask? ==> PhaseOk(s.calls[step.c], s.shared.allowed)
    ensures LockOk(Next(s, step))
  {
  }

  lemma StepKeepsPhases(s: State, step: Step)
    requires Inv(s) && Enabled(s, step)
    ensures forall c | c in Next(s, step).calls :: PhaseOk(Next(s, step).calls[c], Next(s, step).shared.allowed)
  {
    if step.Start? {
      AdmitIsSound(step.call, step.tools, step.policy, s.shared);
    }
    StepGrows(s, step);
  }

  // Grants are never taken back, and a body always has what its call declared.
  lemma StepKeepsInv(s: State, step: Step)
    requires Inv(s) && Enabled(s, step)
    ensures Inv(Next(s, step))
  {
    StepKeepsLock(s, step);
    StepKeepsPhases(s, step);
  }

  lemma {:induction false} RunKeepsInv(states: seq<State>, steps: seq<Step>, n: nat)
    requires ValidRun(states, steps) && n < |states|
    ensures Inv(states[n]) && states[n].shared.required == states[0].shared.required
  {
    if n > 0 {
      RunKeepsInv(states, steps, n - 1);
      StepKeepsInv(states[n - 1], steps[n - 1]);
      StepGrows(states[n - 1], steps[n - 1]);
    }
  }

  lemma {:induction false} GrantsOnlyGrow(states: seq<State>, steps: seq<Step>, m: nat, n: nat)
    requires ValidRun(states, steps) && m <= n < |states|
    ensures states[m].shared.allowed <= states[n].shared.allowed
    decreases n
  {
    if m < n {
      GrantsOnlyGrow(states, steps, m, n - 1);
      StepGrows(states[n - 1], steps[n - 1]);
    }
  }

  /** Somebody is being asked about the call's network access. */
  predicate UnderReview(ph: Phase) {
    match ph
    case Asking(p) => !p.known
    case Running(_, _, _, asking) => asking.Some?
    case Over => false
  }

  // A call is under review from when its network access is put to reviewers until
  // they answer or it gives up.
  lemma ReviewBeginsAndEnds(s: State, step: Step)
    requires Enabled(s, step)
    ensures match step
            case Start(c, call, tools, policy) =>
              (UnderReview(Next(s, step).calls[c]) <==>
               var a := Admit(call, tools, policy, s.shared);
               a.Waiting? && a.p.rights.domains != []
                 && (Human(policy) ==> exists d | d in a.p.rights.domains :: d !in GrantedDomains(s.shared)))
            case Ask(c, domain, cancelled) =>
              UnderReview(Next(s, step).calls[c]) <==> Request(s.calls[c].r, domain, cancelled, s.shared).Ask?
            case Answer(c, _) => !UnderReview(Next(s, step).calls[c])
            case AskAnswered(c, _, _, _) => !UnderReview(Next(s, step).calls[c])
            case Abandon(c) => !UnderReview(Next(s, step).calls[c])
            case _ => forall c | c in s.calls :: UnderReview(s.calls[c]) <==> UnderReview(Next(s, step).calls[c])
  {
  }

  // Under the policies that ask people, two calls never have network access under
  // review at the same time.
  lemma OneNetworkReviewAtATime(states: seq<State>, steps: seq<Step>, n: nat, a: nat, b: nat)
    requires ValidRun(states, steps) && n < |states| && a in states[n].calls && b in states[n].calls
    requires UnderReview(states[n].calls[a]) && Human(states[n].calls[a].p.policy)
    requires UnderReview(states[n].calls[b]) && Human(states[n].calls[b].p.policy)
    ensures a == b
  {
    RunKeepsInv(states, steps, n);
    assert PhaseOk(states[n].calls[a], states[n].shared.allowed)
        && PhaseOk(states[n].calls[b], states[n].shared.allowed);
    assert Holds(states[n].calls[a]) && Holds(states[n].calls[b]);
  }

  const NEW_DOMAIN := NO_RIGHTS.(domains := ["example.com"])

  lemma AutomaticReview(s: Shared, call: Call)
    requires s.required == [] && s.always == {} && call.name == "bash" && !call.reserved && call.denials == []
    ensures Admit(call, map["bash" := Tool(Execute, ByPolicy, NEW_DOMAIN)], Auto, s) ==
            Waiting(Pending("bash", call.objectArguments, NEW_DOMAIN, Auto, ReviewRequired, false, false))
  {
  }

  // Under Auto they can: the session lock is never taken.
  lemma TwoAutomaticReviews() returns (states: seq<State>, steps: seq<Step>)
    ensures ValidRun(states, steps)
    ensures var calls := states[|steps|].calls;
            0 in calls && 1 in calls && UnderReview(calls[0]) && UnderReview(calls[1])
  {
    var call, tools := Call("bash", true, false, []), map["bash" := Tool(Execute, ByPolicy, NEW_DOMAIN)];
    var s0 := State(Shared({}, None, {}, []), None, map[]);
    AutomaticReview(s0.shared, call);
    var s1 := Next(s0, Start(0, call, tools, Auto));
    var s2 := Next(s1, Start(1, call, tools, Auto));
    states, steps := [s0, s1, s2], [Start(0, call, tools, Auto), Start(1, call, tools, Auto)];
  }

  // Once a domain is granted no later request of a running body asks about it, and
  // no later call under a policy that asks people has it reviewed, if all the
  // domains the call declares are granted.
  lemma GrantedIsNotAskedAgain(states: seq<State>, steps: seq<Step>, m: nat, n: nat)
    requires ValidRun(states, steps) && m <= n < |steps|
    ensures match steps[n]
            case Ask(c, domain, _) => domain in states[m].shared.allowed ==> states[n + 1].calls[c].asking == None
            case Start(c, call, tools, policy) =>
              var a := Admit(call, tools, policy, states[n].shared);
              (!a.Stopped? && Human(policy) && forall d | d in a.p.rights.domains :: d in states[m].shared.allowed) ==>
              a.p.known && c in states[n + 1].calls && !UnderReview(states[n + 1].calls[c])
            case _ => true
  {
    GrantsOnlyGrow(states, steps, m, n);
  }

  // ----- Where grants come from -----

  /** A non-automatic reviewer is the first to answer, and allows. */
  ghost predicate PersonAllows(reviewers: seq<Reviewer>, policy: Policy, requirement: Requirement) {
    exists k: nat, d: Decision :: d.Allows() && Decides(reviewers, policy, requirement, k, d) && !reviewers[k].automatic
  }

  lemma PersonDecided(reviewers: seq<Reviewer>, policy: Policy, requirement: Requirement)
    requires ReviewOutcome(reviewers, policy, requirement).Allows()
    requires Human(policy) && (requirement == ReviewRequired || requirement == Always)
    ensures PersonAllows(reviewers, policy, requirement)
  {
    var k := OutcomeIsSomebodys(reviewers, policy, requirement);
    assert Decides(reviewers, policy, requirement, k, ReviewOutcome(reviewers, policy, requirement));
  }

  // A person's answer counts when, of the people among the reviewers, the first to answer allows.
  lemma PersonAllowsMeans(reviewers: seq<Reviewer>, policy: Policy, requirement: Requirement)
    requires Human(policy) && (requirement == ReviewRequired || requirement == Always)
    ensures PersonAllows(reviewers, policy, requirement) <==>
            FirstAnswer(Those(reviewers, IsPerson)).Allows()
  {
    OutcomeIsFirstAnswer(reviewers, policy, requirement);
    OutcomeIsAskedOf(reviewers, policy, requirement);
    if ReviewOutcome(reviewers, policy, requirement).Allows() {
      PersonDecided(reviewers, policy, requirement);
    }
  }

  /**
   Step `i` is why `d` is in the session's grants: a person's answer there put it in,
   or a call the guards let pass, or a request of its body, found it in the store.
   */
  ghost predicate Justified(states: seq<State>, steps: seq<Step>, i: nat, d: string)
    requires ValidRun(states, steps) && i < |steps|
  {
    var s := states[i];
    match steps[i]
    case Start(c, call, tools, policy) =>
      var a := Admit(call, tools, policy, s.shared);
      !a.Stopped? && a.p.known && Human(policy) && d in tools[call.name].rights.domains && Stored(s.shared, d)
    case Answer(c, reviewers) =>
      var p := s.calls[c].p;
      Human(p.policy) && d in p.rights.domains && PersonAllows(reviewers, p.policy, p.requirement)
      && d in Next(s, steps[i]).shared.allowed
    case Ask(c, domain, _) =>
      Human(s.calls[c].p.policy) && domain == d && Stored(s.shared, d) && d in Next(s, steps[i]).shared.allowed
    case AskAnswered(c, reviewers, _, _) =>
      Human(s.calls[c].p.policy) && s.calls[c].asking == Some(d)
          && PersonAllows(reviewers, s.calls[c].p.policy, ReviewRequired)
      && d in Next(s, steps[i]).shared.allowed
    case _ => false
  }

  ghost predicate Backed(states: seq<State>, steps: seq<Step>, n: nat, d: string)
    requires ValidRun(states, steps) && n < |states|
  {
    exists i: nat | i < n :: Justified(states, steps, i, d)
  }

  /** A call waiting with only known domains got them from somewhere as well. */
  ghost predicate WaitingBacked(states: seq<State>, steps: seq<Step>, n: nat)
    requires ValidRun(states, steps) && n < |states|
  {
    forall c, d | c in states[n].calls && states[n].calls[c].Asking? && states[n].calls[c].p.held
                  && states[n].calls[c].p.known && d in states[n].calls[c].p.rights.domains ::
                      Backed(states, steps, n, d)
  }

  ghost predicate AllBacked(states: seq<State>, steps: seq<Step>, n: nat)
    requires ValidRun(states, steps) && n < |states|
  {
    (forall d | d in states[n].shared.allowed :: Backed(states, steps, n, d)) && WaitingBacked(states, steps, n)
  }

  lemma BackedLater(states: seq<State>, steps: seq<Step>, n: nat, d: string)
    requires ValidRun(states, steps) && n + 1 < |states|
    ensures Backed(states, steps, n, d) ==> Backed(states, steps, n + 1, d)
    ensures Justified(states, steps, n, d) ==> Backed(states, steps, n + 1, d)
  {
  }

  // One step adds only what it can justify or what was backed before.
  lemma NewGrantIsBacked(states: seq<State>, steps: seq<Step>, n: nat, d: string)
    requires ValidRun(states, steps) && n + 1 < |states|
    requires AllBacked(states, steps, n) && Inv(states[n])
    requires d in states[n + 1].shared.allowed
    ensures Backed(states, steps, n + 1, d)
  {
    BackedLater(states, steps, n, d);
    var s := states[n];
    if d !in s.shared.allowed {
      match steps[n]
      case Start(c, call, tools, policy) =>
      case Answer(c, reviewers) =>
        var p := s.calls[c].p;
        if !p.known {
          PersonDecided(reviewers, p.policy, p.requirement);
        }
      case Ask(c, domain, _) =>
      case AskAnswered(c, reviewers, _, _) =>
        PersonDecided(reviewers, s.calls[c].r.policy, ReviewRequired);
    }
  }

  lemma StillWaitingBacked(states: seq<State>, steps: seq<Step>, n: nat, c: nat, d: string)
    requires ValidRun(states, steps) && n + 1 < |states|
    requires AllBacked(states, steps, n)
    requires c in states[n + 1].calls && states[n + 1].calls[c].Asking? && states[n + 1].calls[c].p.held
    requires states[n + 1].calls[c].p.known && d in states[n + 1].calls[c].p.rights.domains
    ensures Backed(states, steps, n + 1, d)
  {
    BackedLater(states, steps, n, d);
    var s := states[n];
    if !(c in s.calls && s.calls[c].Asking?) {
      var Start(_, call, tools, policy) := steps[n];
      assert KnownDomains(s.shared, tools[call.name].rights.domains);
    }
  }

  lemma {:induction false} EverythingIsBacked(states: seq<State>, steps: seq<Step>, n: nat)
    requires ValidRun(states, steps) && n < |states|
    ensures AllBacked(states, steps, n)
  {
    if n > 0 {
      EverythingIsBacked(states, steps, n - 1);
      RunKeepsInv(states, steps, n - 1);
      forall d | d in states[n].shared.allowed
        ensures Backed(states, steps, n, d)
      {
        NewGrantIsBacked(states, steps, n - 1, d);
      }
      forall c, d | c in states[n].calls && states[n].calls[c].Asking? && states[n].calls[c].p.held
                    && states[n].calls[c].p.known && d in states[n].calls[c].p.rights.domains
        ensures Backed(states, steps, n, d)
      {
        StillWaitingBacked(states, steps, n - 1, c, d);
      }
    }
  }

  // In every interleaving, every domain in the session's grants was allowed by a
  // person under a policy that asks people, or was in the persistent store when
  // a call under such a policy looked.
  lemma GrantsComeFromPeople(states: seq<State>, steps: seq<Step>, n: nat, d: string)
    requires ValidRun(states, steps) && n < |states|
    requires d in states[n].shared.allowed
    ensures exists i: nat | i < n :: Justified(states, steps, i, d)
  {
    EverythingIsBacked(states, steps, n);
  }

  // And so does every domain a running body can reach under such a policy.
  lemma ReachComesFromPeople(states: seq<State>, steps: seq<Step>, n: nat, c: nat, d: string)
    requires ValidRun(states, steps) && n < |states| && c in states[n].calls && states[n].calls[c].Running?
    requires Human(states[n].calls[c].p.policy) && d in states[n].calls[c].r.allowed
    ensures exists i: nat | i < n :: Justified(states, steps, i, d)
  {
    RunKeepsInv(states, steps, n);
    assert PhaseOk(states[n].calls[c], states[n].shared.allowed);
    assert Reachable(states[n].calls[c].p, d, states[n].shared.allowed);
    GrantsComeFromPeople(states, steps, n, d);
  }

  // ----- Where permission to run comes from -----

  /** Step `b` admitted call `c` as `p`. */
  ghost predicate Admitted(states: seq<State>, steps: seq<Step>, n: nat, c: nat, p: Pending, b: nat)
    requires ValidRun(states, steps) && n < |states|
  {
    && b < n && steps[b].Start? && steps[b].c == c
    && var a := Admit(steps[b].call, steps[b].tools, steps[b].policy, states[b].shared);
       !a.Stopped? && a.p == p
  }

  ghost predicate AnsweredIn(states: seq<State>, steps: seq<Step>, n: nat, c: nat, p: Pending, i: nat)
    requires ValidRun(states, steps) && n < |states|
  {
    && i < n && steps[i].Answer? && steps[i].c == c && states[i].calls[c] == Asking(p)
    && exists k: nat, d: Decision :: d.Allows() && Decides(steps[i].reviewers, p.policy, p.requirement, k, d)
  }

  predicate ClearedAt(states: seq<State>, steps: seq<Step>, b: nat)
    requires b < |steps| && b < |states| && steps[b].Start?
  {
    Admit(steps[b].call, steps[b].tools, steps[b].policy, states[b].shared).Cleared?
  }

  ghost predicate Provenance(states: seq<State>, steps: seq<Step>, n: nat, c: nat)
    requires ValidRun(states, steps) && n < |states| && c in states[n].calls
  {
    match states[n].calls[c]
    case Over => true
    case Asking(p) => exists b: nat :: Admitted(states, steps, n, c, p, b) && !ClearedAt(states, steps, b)
    case Running(p, _, _, _) =>
      exists b: nat :: Admitted(states, steps, n, c, p, b) &&
                       (ClearedAt(states, steps, b) || exists i: nat :: b < i && AnsweredIn(states, steps, n, c, p, i))
  }

  lemma AnswerProvenance(states: seq<State>, steps: seq<Step>, n: nat, c: nat)
    requires ValidRun(states, steps) && n + 1 < |states|
    requires steps[n].Answer? && steps[n].c == c && Provenance(states, steps, n, c)
    ensures Provenance(states, steps, n + 1, c)
  {
    var p := states[n].calls[c].p;
    var b: nat :| Admitted(states, steps, n, c, p, b) && !ClearedAt(states, steps, b);
    assert Admitted(states, steps, n + 1, c, p, b);
    if states[n + 1].calls[c].Running? {
      var k := OutcomeIsSomebodys(steps[n].reviewers, p.policy, p.requirement);
      assert AnsweredIn(states, steps, n + 1, c, p, n);
    }
  }

  lemma AnsweredLater(states: seq<State>, steps: seq<Step>, n: nat, c: nat, p: Pending, i: nat)
    requires ValidRun(states, steps) && n + 1 < |states| && AnsweredIn(states, steps, n, c, p, i)
    ensures AnsweredIn(states, steps, n + 1, c, p, i)
  {
  }

  lemma OtherPhaseKept(s: State, step: Step, c: nat)
    requires Enabled(s, step) && c in s.calls && !(step.Answer? && step.c == c)
    ensures c in Next(s, step).calls
    ensures var after := Next(s, step).calls[c];
            after.Over? || (!s.calls[c].Over? && after.p == s.calls[c].p && after.Asking? == s.calls[c].Asking?)
  {
  }

  lemma ProvenanceLater(states: seq<State>, steps: seq<Step>, n: nat, c: nat)
    requires ValidRun(states, steps) && n + 1 < |states|
    requires c in states[n].calls && Provenance(states, steps, n, c)
    ensures c in states[n + 1].calls && Provenance(states, steps, n + 1, c)
  {
    if steps[n].Answer? && steps[n].c == c {
      AnswerProvenance(states, steps, n, c);
    } else {
      OtherPhaseKept(states[n], steps[n], c);
      if !states[n + 1].calls[c].Over? {
        var p := states[n].calls[c].p;
        var b: nat :| Admitted(states, steps, n, c, p, b) &&
          (if states[n].calls[c].Asking? then !ClearedAt(states, steps, b)
           else ClearedAt(states, steps, b) || exists i: nat :: b < i && AnsweredIn(states, steps, n, c, p, i));
        assert Admitted(states, steps, n + 1, c, p, b);
        if i: nat :| b < i && AnsweredIn(states, steps, n, c, p, i) {
          AnsweredLater(states, steps, n, c, p, i);
        }
      }
    }
  }

  lemma {:induction false} CallsHaveProvenance(states: seq<State>, steps: seq<Step>, n: nat, c: nat)
    requires ValidRun(states, steps) && n < |states| && c in states[n].calls
    ensures Provenance(states, steps, n, c)
  {
    if n > 0 {
      if c in states[n - 1].calls {
        CallsHaveProvenance(states, steps, n - 1, c);
        ProvenanceLater(states, steps, n - 1, c);
      } else if !states[n].calls[c].Over? {
        assert Admitted(states, steps, n, c, states[n].calls[c].p, n - 1);
      }
    }
  }

  // In every interleaving a body runs with exactly what its call declared. If
  // that includes more than domains, and the policy is not Never, a reviewer the
  // policy admits answered this very call.
  lemma RunningWithPerCallRights(states: seq<State>, steps: seq<Step>, n: nat, c: nat)
    requires ValidRun(states, steps) && n < |states| && c in states[n].calls && states[n].calls[c].Running?
    ensures var p := states[n].calls[c].p;
            exists b: nat :: Admitted(states, steps, n, c, p, b) && steps[b].call.name in steps[b].tools
                             && states[n].calls[c].granted == steps[b].tools[steps[b].call.name].rights
    ensures var p := states[n].calls[c].p;
            p.rights.PerCall() && p.policy != Never ==> exists i: nat :: AnsweredIn(states, steps, n, c, p, i)
  {
    RunKeepsInv(states, steps, n);
    CallsHaveProvenance(states, steps, n, c);
    var p := states[n].calls[c].p;
    var b: nat :| Admitted(states, steps, n, c, p, b) &&
      (ClearedAt(states, steps, b) || exists i: nat :: b < i && AnsweredIn(states, steps, n, c, p, i));
    AdmitIsSound(steps[b].call, steps[b].tools, steps[b].policy, states[b].shared);
  }

  lemma {:induction false} CallsStay(states: seq<State>, steps: seq<Step>, m: nat, n: nat, c: nat)
    requires ValidRun(states, steps) && m <= n < |states| && c in states[m].calls
    ensures c in states[n].calls
    decreases n
  {
    if m < n {
      CallsStay(states, steps, m, n - 1, c);
    }
  }

  lemma StartsOnce(states: seq<State>, steps: seq<Step>, a: nat, b: nat)
    requires ValidRun(states, steps) && a < |steps| && b < |steps|
    requires steps[a].Start? && steps[b].Start? && steps[a].c == steps[b].c
    ensures a == b
  {
    assert Enabled(states[a], steps[a]) && Enabled(states[b], steps[b]);
    if a < b {
      CallsStay(states, steps, a + 1, b, steps[a].c);
    } else if b < a {
      CallsStay(states, steps, b + 1, a, steps[a].c);
    }
  }

  /** Step `b` starts call `c`, of a tool a person has to decide about. */
  predicate StartsForPeople(states: seq<State>, steps: seq<Step>, b: nat, c: nat) {
    && b < |steps| && b < |states| && steps[b].Start? && steps[b].c == c
    && steps[b].call.name in steps[b].tools
    && (Covered(states[0].shared.required, steps[b].call.name) || steps[b].tools[steps[b].call.name].approval == Always)
  }

  // In every interleaving a tool covered by an approval rule, or one that declared
  // that it always asks when the call started, runs only on a person's answer to
  // this very call.
  lemma RunningOnAPersonsAnswer(states: seq<State>, steps: seq<Step>, n: nat, c: nat, b: nat)
    requires ValidRun(states, steps) && n < |states| && c in states[n].calls && states[n].calls[c].Running?
    requires StartsForPeople(states, steps, b, c)
    ensures exists i: nat | b < i < n && steps[i].Answer? && steps[i].c == c ::
              PersonAllows(steps[i].reviewers, steps[b].policy, Always)
  {
    CallsHaveProvenance(states, steps, n, c);
    var p := states[n].calls[c].p;
    var start: nat :| Admitted(states, steps, n, c, p, start) &&
      (ClearedAt(states, steps, start) || exists i: nat :: start < i && AnsweredIn(states, steps, n, c, p, i));
    StartsOnce(states, steps, start, b);
    RunKeepsInv(states, steps, b);
    assert p.requirement == Always && p.policy == steps[b].policy && !ClearedAt(states, steps, b);
    var i: nat :| start < i && AnsweredIn(states, steps, n, c, p, i);
    assert PersonAllows(steps[i].reviewers, p.policy, Always);
  }

  // ----- Where standing permission comes from -----

  ghost predicate RememberedAt(states: seq<State>, steps: seq<Step>, i: nat, tool: string)
    requires ValidRun(states, steps) && i < |steps|
  {
    && steps[i].Answer?
    && var p := states[i].calls[steps[i].c].p;
       p.name == tool && !p.rights.PerCall() &&
       exists k: nat :: Decides(steps[i].reviewers, p.policy, p.requirement, k, AllowAlways)
  }

  lemma AdmissionRemembersNothing(s: State, step: Step)
    requires Enabled(s, step)
    ensures !step.Answer? ==> Next(s, step).shared.always == s.shared.always
  {
  }

  // "Allow always" is remembered only where an eligible reviewer said so, for a
  // call that asked for nothing beyond domains.
  lemma {:induction false} MemoryComesFromReviewers(states: seq<State>, steps: seq<Step>, n: nat, tool: string)
    requires ValidRun(states, steps) && n < |states|
    requires tool in states[n].shared.always
    ensures exists i: nat | i < n :: RememberedAt(states, steps, i, tool)
  {
    var s := states[n - 1];
    if tool in s.shared.always {
      MemoryComesFromReviewers(states, steps, n - 1, tool);
    } else {
      AdmissionRemembersNothing(s, steps[n - 1]);
      var p := s.calls[steps[n - 1].c].p;
      var k := OutcomeIsSomebodys(steps[n - 1].reviewers, p.policy, p.requirement);
      assert RememberedAt(states, steps, n - 1, tool);
    }
  }
}
