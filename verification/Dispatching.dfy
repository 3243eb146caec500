/** One tool call through the approval pipeline, and the requests its body makes while it runs. */
module Dispatching {
  import opened Basics
  import opened Approval
  import opened ApprovalRules

  /** What a call declares it needs, or what it was given. */
  datatype Rights = Rights(
    domains: seq<string>, ports: seq<nat>, listeners: seq<nat>, sockets: seq<string>, roots: seq<string>)
  {
    /** Whether anything is asked for that is never granted beyond one call. */
    predicate PerCall() {
      ports != [] || listeners != [] || sockets != [] || roots != []
    }
  }

  const NO_RIGHTS := Rights([], [], [], [], [])

  /** What a tool says about one particular call. */
  datatype Tool = Tool(kind: ToolKind, approval: Requirement, rights: Rights)

  /**
   A call: the tool it names, whether its arguments are an object, whether they
   carry the reserved marker, and each guard's verdict.
   */
  datatype Call = Call(name: string, objectArguments: bool, reserved: bool, denials: seq<bool>)

  predicate Denied(call: Call) {
    exists i | 0 <= i < |call.denials| :: call.denials[i]
  }

  /** What calls of one session share. `store` is the persistent domain store, when one is installed. */
  datatype Shared = Shared(allowed: set<string>, store: Option<set<string>>, always: set<string>, required: seq<string>)

  predicate Stored(s: Shared, domain: string) {
    s.store.Some? && domain in s.store.value
  }

  predicate KnownDomains(s: Shared, domains: seq<string>) {
    forall d | d in domains :: d in s.allowed || Stored(s, d)
  }

  /** A call that passed the guards. `held`: it holds the session lock; `known`: no network review is due. */
  datatype Pending = Pending(
    name: string, objectArguments: bool, rights: Rights, policy: Policy, requirement: Requirement,
    held: bool, known: bool)

  datatype Admission = Stopped | Waiting(p: Pending) | Cleared(p: Pending)

  /** Everything `dispatch` settles before a reviewer is asked. */
  function Admit(call: Call, tools: map<string, Tool>, policy: Policy, s: Shared): Admission {
    if call.name !in tools || call.reserved || Denied(call) then Stopped
    else
      var tool := tools[call.name];
      var held := Human(policy) && tool.rights.domains != [];
      var known := tool.rights.domains == [] || (held && KnownDomains(s, tool.rights.domains));
      var declared := if Covered(s.required, call.name) then Always else tool.approval;
      var requirement := if (!known || tool.rights.PerCall()) && declared != Always then ReviewRequired else declared;
      var standing := (requirement == ByPolicy || requirement == Confined) && call.name in s.always;
      var p := Pending(call.name, call.objectArguments, tool.rights, policy, requirement, held, known);
      if NeedsApproval(policy, tool.kind, requirement) && !standing then Waiting(p) else Cleared(p)
  }

  /** What the body may use; `None` when the call is refused. No answer means nobody was asked. */
  function Granted(p: Pending, answer: Option<Decision>): Option<Rights> {
    if answer.Some? then
      if answer.value.Allows() then Some(p.rights) else None
    else if p.policy == Never then Some(p.rights)
    else Some(NO_RIGHTS.(domains := if p.known then p.rights.domains else []))
  }

  function After(p: Pending, answer: Option<Decision>, s: Shared): Shared {
    if Granted(p, answer).None? then s
    else
      s.(always := if answer == Some(AllowAlways) && !p.rights.PerCall() then s.always + {p.name} else s.always,
         allowed := if p.held then s.allowed + (set d | d in Granted(p, answer).value.domains) else s.allowed)
  }

  datatype Outcome = Refused(abort: bool) | Ran(approved: Rights)

  function Settle(p: Pending, answer: Option<Decision>, s: Shared): (Outcome, Shared) {
    match Granted(p, answer)
    case None => (Refused(answer == Some(Abort)), s)
    case Some(rights) => (Ran(rights), After(p, answer, s))
  }

  function DispatchOutcome(call: Call, tools: map<string, Tool>, policy: Policy, reviewers: seq<Reviewer>, s: Shared)
    : (Outcome, Shared)
  {
    match Admit(call, tools, policy, s)
    case Stopped => (Refused(false), s)
    case Cleared(p) => Settle(p, None, s)
    case Waiting(p) => Settle(p, Some(ReviewOutcome(reviewers, policy, p.requirement)), s)
  }

  // ----- What holds of every single call -----

  // A body runs with exactly what its call declared, however it came to run.
  lemma RunsWithDeclaredRights(call: Call, tools: map<string, Tool>, policy: Policy, reviewers: seq<Reviewer>,
      s: Shared)
    requires DispatchOutcome(call, tools, policy, reviewers, s).0.Ran?
    ensures call.name in tools
    ensures DispatchOutcome(call, tools, policy, reviewers, s).0.approved == tools[call.name].rights
  {
  }

  predicate OnlyDomains(r: Rights) {
    r == Rights(r.domains, [], [], [], [])
  }

  predicate AsksPeople(policy: Policy) {
    policy in {OnRequest, AcceptEdits, OnFailure}
  }

  predicate Approves(d: Decision) {
    d in {Allow, AllowAlways}
  }

  /** The domains people granted: for this session, or for good. */
  function GrantedDomains(s: Shared): set<string> {
    s.allowed + s.store.GetOr({})
  }

  /** The call asks for something nobody has granted: more than domains, or a domain not yet granted by people. */
  predicate AsksForMore(tool: Tool, policy: Policy, s: Shared) {
    var asked := set d | d in tool.rights.domains;
    !OnlyDomains(tool.rights) || !(asked <= if AsksPeople(policy) then GrantedDomains(s) else {})
  }

  /** A person has to decide about every call of this tool. */
  predicate ForPeople(name: string, tool: Tool, s: Shared) {
    Covered(s.required, name) || tool.approval == Always
  }

  /** Whether the policy has this kind of call reviewed when nothing else settles it. */
  predicate ReviewedKind(policy: Policy, kind: ToolKind, confined: bool) {
    match policy
    case OnRequest => kind in {Edit, Execute, Network}
    case AcceptEdits => kind in {Execute, Network}
    case Auto => !confined && kind in {Edit, Execute, Network}
    case OnFailure => false
    case Never => false
  }

  /** When somebody has to be asked, as the settings are documented. */
  predicate MustAsk(name: string, tool: Tool, policy: Policy, s: Shared) {
    ForPeople(name, tool, s) ||
    (policy != Never &&
     (AsksForMore(tool, policy, s) || tool.approval == ReviewRequired ||
      (tool.approval != AutoApproved && name !in s.always
          && ReviewedKind(policy, tool.kind, tool.approval == Confined))))
  }

  /** What is asked of reviewers. */
  function AskedAs(name: string, tool: Tool, policy: Policy, s: Shared): Requirement {
    if ForPeople(name, tool, s) then Always else if AsksForMore(tool, policy, s) then ReviewRequired else tool.approval
  }

  lemma AsksForMoreMeans(tool: Tool, policy: Policy, s: Shared)
    ensures AsksForMore(tool, policy, s) <==>
            tool.rights.PerCall()
                || (tool.rights.domains != [] && !(Human(policy) && KnownDomains(s, tool.rights.domains)))
  {
    var asked := set d | d in tool.rights.domains;
    if tool.rights.domains != [] {
      assert tool.rights.domains[0] in asked;
    }
  }

  lemma AdmissionAsksExactlyWhen(call: Call, tools: map<string, Tool>, policy: Policy, s: Shared)
    requires call.name in tools && !call.reserved && true !in call.denials
    ensures var a := Admit(call, tools, policy, s);
            && !a.Stopped? && (a.Waiting? <==> MustAsk(call.name, tools[call.name], policy, s))
            && a.p.requirement == AskedAs(call.name, tools[call.name], policy, s)
  {
    AsksForMoreMeans(tools[call.name], policy, s);
  }

  // Exactly which calls run: those no guard stops for which nobody has to be
  // asked, or of which the first eligible reviewer to answer approves.
  lemma RunsExactlyWhen(call: Call, tools: map<string, Tool>, policy: Policy, reviewers: seq<Reviewer>, s: Shared)
    ensures DispatchOutcome(call, tools, policy, reviewers, s).0.Ran? <==>
            && call.name in tools && !call.reserved && true !in call.denials
            && var tool := tools[call.name];
               (MustAsk(call.name, tool, policy, s) ==>
                  exists i: nat, d: Decision ::
                      Approves(d) && Decides(reviewers, policy, AskedAs(call.name, tool, policy, s), i, d))
  {
    if call.name in tools && !call.reserved && true !in call.denials {
      AdmissionAsksExactlyWhen(call, tools, policy, s);
      OutcomeIsFirstAnswer(reviewers, policy, AskedAs(call.name, tools[call.name], policy, s));
    }
  }

  // Exactly what a call leaves behind: a person's policy grants the domains of a
  // call that ran, and "allow always" is remembered only for a call that was
  // asked about and wanted nothing beyond domains. Only an answer can abort.
  lemma RemembersExactly(call: Call, tools: map<string, Tool>, policy: Policy, reviewers: seq<Reviewer>, s: Shared)
    requires call.name in tools && !call.reserved && true !in call.denials
    ensures var (outcome, after) := DispatchOutcome(call, tools, policy, reviewers, s);
            var tool := tools[call.name];
            var asked := MustAsk(call.name, tool, policy, s);
            var answer := ReviewOutcome(reviewers, policy, AskedAs(call.name, tool, policy, s));
            && after.store == s.store && after.required == s.required
            && after.allowed ==
               s.allowed + (if outcome.Ran? && AsksPeople(policy) then set d | d in tool.rights.domains else {})
            && after.always ==
               s.always + (if asked && answer == AllowAlways && OnlyDomains(tool.rights) then {call.name} else {})
            && (outcome == Refused(true) <==> asked && answer == Abort)
  {
    AdmissionAsksExactlyWhen(call, tools, policy, s);
    var a := Admit(call, tools, policy, s);
    assert (set d | d in tools[call.name].rights.domains) == {} || tools[call.name].rights.domains != [];
    assert s.allowed + {} == s.allowed && s.always + {} == s.always;
  }

  // Ports, listeners, sockets and roots are reviewed for each call anew, by the
  // first eligible reviewer to answer, whatever was allowed before.
  lemma PerCallRightsAreReviewed(call: Call, tools: map<string, Tool>, policy: Policy, reviewers: seq<Reviewer>,
      s: Shared)
    requires DispatchOutcome(call, tools, policy, reviewers, s).0.Ran?
    requires policy != Never && !OnlyDomains(DispatchOutcome(call, tools, policy, reviewers, s).0.approved)
    ensures var due := if ForPeople(call.name, tools[call.name], s) then Always else ReviewRequired;
            exists i: nat, d: Decision :: Approves(d)
              && Decides(reviewers, policy, due, i, d)
              && (reviewers[i].automatic ==> policy == Auto)
  {
    var p := Admit(call, tools, policy, s).p;
    var i := OutcomeIsSomebodys(reviewers, policy, p.requirement);
    AsksForMoreMeans(tools[call.name], policy, s);
    var d := ReviewOutcome(reviewers, policy, p.requirement);
    assert Approves(d) && Decides(reviewers, policy, p.requirement, i, d);
    assert p.requirement == if ForPeople(call.name, tools[call.name], s) then Always else ReviewRequired;
  }

  // A call that runs unreviewed reaches only domains already granted or stored,
  // unless the policy is Never.
  lemma UnreviewedDomainsWereGranted(call: Call, tools: map<string, Tool>, policy: Policy, s: Shared)
    requires policy != Never && Admit(call, tools, policy, s).Cleared?
    ensures forall d | d in tools[call.name].rights.domains :: d in GrantedDomains(s) && AsksPeople(policy)
  {
  }

  // A tool a person must decide about runs only on a person's own answer to this
  // very call, under every policy and whatever is remembered.
  lemma PersonDecides(call: Call, tools: map<string, Tool>, policy: Policy, reviewers: seq<Reviewer>, s: Shared)
    requires DispatchOutcome(call, tools, policy, reviewers, s).0.Ran?
    requires Covered(s.required, call.name) || tools[call.name].approval == Always
    ensures exists i: nat, d: Decision ::
        Approves(d) && Decides(reviewers, policy, Always, i, d) && !reviewers[i].automatic
  {
    var i := OutcomeIsSomebodys(reviewers, policy, Always);
    assert Decides(reviewers, policy, Always, i, ReviewOutcome(reviewers, policy, Always)) && !reviewers[i].automatic;
  }

  // A guard's denial is final: the body never runs and nothing is remembered.
  lemma GuardDenialIsFinal(call: Call, tools: map<string, Tool>, policy: Policy, reviewers: seq<Reviewer>, s: Shared,
      i: nat)
    requires i < |call.denials| && call.denials[i]
    ensures DispatchOutcome(call, tools, policy, reviewers, s) == (Refused(false), s)
  {
    assert Denied(call);
  }

  // Guards that deny nothing change nothing.
  lemma SilentGuardsDoNothing(call: Call, tools: map<string, Tool>, policy: Policy, reviewers: seq<Reviewer>, s: Shared)
    requires true !in call.denials
    ensures DispatchOutcome(call, tools, policy, reviewers, s) ==
            DispatchOutcome(call.(denials := []), tools, policy, reviewers, s)
  {
    assert !Denied(call) && !Denied(call.(denials := []));
  }

  // Adding guards only ever stops calls: one that still runs runs as it did without them.
  lemma MoreGuardsNeverHelp(call: Call, more: seq<bool>, tools: map<string, Tool>, policy: Policy,
      reviewers: seq<Reviewer>, s: Shared)
    requires DispatchOutcome(call.(denials := call.denials + more), tools, policy, reviewers, s).0.Ran?
    ensures DispatchOutcome(call, tools, policy, reviewers, s) ==
            DispatchOutcome(call.(denials := call.denials + more), tools, policy, reviewers, s)
  {
    var stricter := call.(denials := call.denials + more);
    assert forall i | 0 <= i < |call.denials| :: stricter.denials[i] == call.denials[i];
  }

  // Under Auto and Never a call neither sees nor touches what people granted.
  lemma AutomationIgnoresGrants(call: Call, tools: map<string, Tool>, policy: Policy, reviewers: seq<Reviewer>,
      s: Shared, t: Shared)
    requires policy == Auto || policy == Never
    requires s.always == t.always && s.required == t.required
    ensures DispatchOutcome(call, tools, policy, reviewers, s).0 == DispatchOutcome(call, tools, policy, reviewers, t).0
    ensures DispatchOutcome(call, tools, policy, reviewers, s).1.always ==
        DispatchOutcome(call, tools, policy, reviewers, t).1.always
    ensures DispatchOutcome(call, tools, policy, reviewers, s).1.allowed == s.allowed
    ensures DispatchOutcome(call, tools, policy, reviewers, s).1.store == s.store
  {
    assert Admit(call, tools, policy, s) == Admit(call, tools, policy, t);
  }

  // ----- Requests made by a running body -----

  /** The reviewer a running call asks: its policy, the domains it may reach, whether its arguments are an object. */
  datatype Runtime = Runtime(policy: Policy, allowed: seq<string>, closed: bool, objectArguments: bool)

  /** What happens before anybody is asked; `Ask` means a person has to be. */
  datatype Lookup = Settled(ok: bool, r: Runtime, s: Shared) | Ask

  function Request(r: Runtime, domain: string, cancelled: bool, s: Shared): Lookup {
    if cancelled || r.closed then Settled(false, r, s)
    else if domain in r.allowed then Settled(true, r, s)
    else if r.policy == Never then Settled(true, r.(allowed := r.allowed + [domain]), s)
    else if r.policy == Auto then Settled(false, r, s)
    else if domain in s.allowed then Settled(true, r, s)
    else if Stored(s, domain) then Settled(true, r, s.(allowed := s.allowed + {domain}))
    else if !r.objectArguments then Settled(false, r, s)
    else Ask
  }

  /** The answer to a request that had to be asked; `remembers` is whether the store accepts a new domain. */
  function Answered(r: Runtime, domain: string, d: Decision, cancelled: bool, remembers: bool, s: Shared)
    : (bool, Runtime, Shared)
  {
    if !d.Allows() || cancelled || r.closed then (false, r, s)
    else if d == AllowAlways && (s.store.None? || !remembers) then (false, r, s)
    else
      var store := if d == AllowAlways then Some(s.store.value + {domain}) else s.store;
      (true, r.(allowed := r.allowed + [domain]), s.(store := store, allowed := s.allowed + {domain}))
  }

  function RequestOutcome(r: Runtime, domain: string, cancelled: bool, later: bool, reviewers: seq<Reviewer>,
      remembers: bool, s: Shared)
    : (bool, Runtime, Shared)
  {
    match Request(r, domain, cancelled, s)
    case Settled(ok, r', s') => (ok, r', s')
    case Ask => Answered(r, domain, ReviewOutcome(reviewers, r.policy, ReviewRequired), later, remembers, s)
  }

  // The same two-run property for a running body.
  lemma RunningAutomationIgnoresGrants(r: Runtime, domain: string, cancelled: bool, later: bool,
      reviewers: seq<Reviewer>, remembers: bool, s: Shared, t: Shared)
    requires r.policy == Auto || r.policy == Never
    ensures var (ok, r', s') := RequestOutcome(r, domain, cancelled, later, reviewers, remembers, s);
            s' == s && ok == RequestOutcome(r, domain, cancelled, later, reviewers, remembers, t).0
            && r' == RequestOutcome(r, domain, cancelled, later, reviewers, remembers, t).1
  {
  }

  // A request succeeds only where access was already there, the policy is Never,
  // or a person allowed this very domain now.
  lemma RequestSucceedsExactlyWhen(r: Runtime, domain: string, cancelled: bool, later: bool,
                                   reviewers: seq<Reviewer>, remembers: bool, s: Shared)
    ensures RequestOutcome(r, domain, cancelled, later, reviewers, remembers, s).0 <==>
            !cancelled && !r.closed &&
            (domain in r.allowed || r.policy == Never ||
             (AsksPeople(r.policy) &&
              (domain in GrantedDomains(s) ||
               (r.objectArguments && !later &&
                exists i: nat, d: Decision ::
                    Approves(d) && Decides(reviewers, r.policy, ReviewRequired, i, d) && !reviewers[i].automatic &&
                               (d == AllowAlways ==> s.store.Some? && remembers)))))
  {
    OutcomeIsFirstAnswer(reviewers, r.policy, ReviewRequired);
    var d := ReviewOutcome(reviewers, r.policy, ReviewRequired);
    if d.Allows() {
      var i := OutcomeIsSomebodys(reviewers, r.policy, ReviewRequired);
      assert Decides(reviewers, r.policy, ReviewRequired, i, d);
    }
  }

  // Exactly what a request leaves behind: a domain that came from people joins the
  // session's grants, only an answer of "allow always" reaches the store, and only
  // a domain nobody had granted before is added to the call's own.
  lemma RequestRemembersExactly(r: Runtime, domain: string, cancelled: bool, later: bool,
                                reviewers: seq<Reviewer>, remembers: bool, s: Shared)
    ensures var (ok, r', s') := RequestOutcome(r, domain, cancelled, later, reviewers, remembers, s);
            var granted := domain in GrantedDomains(s);
            var byPeople := ok && domain !in r.allowed && AsksPeople(r.policy);
            var always := byPeople && !granted && ReviewOutcome(reviewers, r.policy, ReviewRequired) == AllowAlways;
            && s'.allowed == s.allowed + (if byPeople then {domain} else {})
            && s'.store == (if always then Some(s.store.GetOr({}) + {domain}) else s.store)
            && s'.always == s.always && s'.required == s.required
            && var gained := ok && domain !in r.allowed && (r.policy == Never || !granted);
               r' == r.(allowed := r.allowed + if gained then [domain] else [])
  {
    assert s.allowed + {} == s.allowed && r.allowed + [] == r.allowed;
    assert domain in s.allowed ==> s.allowed + {domain} == s.allowed;
  }

  // ----- The code itself -----

  class Session {
    var allowed: set<string>
    var store: Option<set<string>>
    const memory: ApprovalMemory

    constructor (memory: ApprovalMemory, store: Option<set<string>>)
      ensures this.memory == memory && this.store == store && allowed == {}
    {
      this.memory := memory;
      this.store := store;
      allowed := {};
    }

    function State(): Shared
      reads this, memory
    {
      Shared(allowed, store, memory.always, memory.required)
    }

    /** The answer, what it grants, and what is remembered. */
    method ReviewAndGrant(p: Pending, asks: bool, reviewers: seq<Reviewer>) returns (outcome: Outcome)
      modifies this, memory
      ensures (outcome, State()) ==
              Settle(p, if asks then Some(ReviewOutcome(reviewers, p.policy, p.requirement)) else None, old(State()))
    {
      var approved := NO_RIGHTS;
      if p.known {
        approved := approved.(domains := p.rights.domains);
      }
      if asks {
        var decision := Review(reviewers, p.policy, p.requirement);
        match decision {
          case Allow =>
            approved := p.rights;
          case AllowAlways =>
            if !p.rights.PerCall() {
              memory.AllowAlways(p.name);
            }
            approved := p.rights;
          case Deny =>
            return Refused(false);
          case Abort =>
            return Refused(true);
        }
      } else if p.policy == Never {
        approved := p.rights;
      }
      if p.held {
        allowed := allowed + (set d | d in approved.domains);
      }
      outcome := Ran(approved);
    }

    /** What is settled before anybody is asked. */
    method Dispatch(call: Call, tools: map<string, Tool>, policy: Policy, reviewers: seq<Reviewer>)
        returns (outcome: Outcome)
      modifies this, memory
      ensures (outcome, State()) == DispatchOutcome(call, tools, policy, reviewers, old(State()))
    {
      if call.name !in tools {
        return Refused(false);
      }
      var tool := tools[call.name];
      if call.reserved {
        return Refused(false);
      }
      if Denied(call) {
        return Refused(false);
      }
      var approval := tool.approval;
      var rule := memory.RequiredRule(call.name);
      if rule.Some? {
        approval := Always;
      }
      var rights := tool.rights;
      var locked := Human(policy) && rights.domains != [];
      var needsNetworkReview := rights.domains != [] && !(locked && KnownDomains(State(), rights.domains));
      if (needsNetworkReview || rights.PerCall()) && approval != Always {
        approval := ReviewRequired;
      }
      var standing := (approval == ByPolicy || approval == Confined) && memory.IsAlwaysAllowed(call.name);
      var asks := NeedsApproval(policy, tool.kind, approval) && !standing;
      var p := Pending(call.name, call.objectArguments, rights, policy, approval, locked, !needsNetworkReview);
      assert Admit(call, tools, policy, State()) == if asks then Waiting(p) else Cleared(p);
      outcome := ReviewAndGrant(p, asks, reviewers);
    }
  }

  class RuntimePermissionReviewer {
    const session: Session
    const policy: Policy
    const objectArguments: bool
    var closed: bool
    var allowed: seq<string>

    constructor (session: Session, policy: Policy, objectArguments: bool, approvedDomains: seq<string>)
      ensures this.session == session && View() == Runtime(policy, approvedDomains, false, objectArguments)
    {
      this.session := session;
      this.policy := policy;
      this.objectArguments := objectArguments;
      closed := false;
      allowed := approvedDomains;
    }

    function View(): Runtime
      reads this
    {
      Runtime(policy, allowed, closed, objectArguments)
    }

    /** One request; `cancelled` and `later` are the cancellation flag before and after a reviewer was asked. */
    method Permission(domain: string, cancelled: bool, later: bool, reviewers: seq<Reviewer>, remembers: bool)
        returns (ok: bool)
      modifies this, session
      ensures (ok, View(), session.State()) ==
              RequestOutcome(old(View()), domain, cancelled, later, reviewers, remembers, old(session.State()))
    {
      if cancelled || closed {
        return false;
      }
      if domain in allowed {
        return true;
      }
      if policy == Never {
        allowed := allowed + [domain];
        return true;
      }
      if policy == Auto {
        return false;
      }
      if domain in session.allowed {
        return true;
      }
      if session.store.Some? && domain in session.store.value {
        session.allowed := session.allowed + {domain};
        return true;
      }
      if !objectArguments {
        return false;
      }
      var decision := Review(reviewers, policy, ReviewRequired);
      if !decision.Allows() {
        return false;
      }
      if later || closed {
        return false;
      }
      if decision == AllowAlways {
        if session.store.None? || !remembers {
          return false;
        }
        session.store := Some(session.store.value + {domain});
      }
      session.allowed := session.allowed + {domain};
      allowed := allowed + [domain];
      ok := true;
    }
  }
}
