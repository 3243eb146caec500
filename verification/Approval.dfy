/** When a call needs somebody's assent, and who may give it (crates/core approval.rs, dispatch.rs `review`). */
module Approval {
  import opened Basics

  datatype Policy = OnRequest | AcceptEdits | Auto | OnFailure | Never
  datatype Requirement = ByPolicy | AutoApproved | Confined | ReviewRequired | Always
  datatype ToolKind = Read | Search | Edit | Execute | Network | Meta

  /** Whether `approval_reason` gives a reason to ask. */
  predicate NeedsApproval(policy: Policy, kind: ToolKind, approval: Requirement) {
    if approval == Always then true
    else if policy == Never then false
    else if approval == ReviewRequired then true
    else if approval == AutoApproved then false
    else if policy == Auto && approval == Confined then false
    else match policy
      case Never => false
      case OnFailure => false
      case AcceptEdits => kind == Execute || kind == Network
      case OnRequest => kind == Edit || kind == Execute || kind == Network
      case Auto => kind == Edit || kind == Execute || kind == Network
  }

  /** The policies under which network grants are a person's and outlive the call. */
  predicate Human(policy: Policy) {
    policy != Auto && policy != Never
  }

  datatype Decision = Allow | AllowAlways | Deny | Abort {
    predicate Allows() {
      Allow? || AllowAlways?
    }
  }

  /** A registered reviewer and what it says to the request at hand, if anything. */
  datatype Reviewer = Reviewer(automatic: bool, onRequest: bool, answer: Option<Decision>)

  predicate Eligible(r: Reviewer, policy: Policy, requirement: Requirement) {
    if requirement == Always then !r.automatic
    else if policy == Auto then r.automatic
    else if requirement == ReviewRequired then !r.automatic
    else r.onRequest
  }

  /** Reviewer `i` is the first eligible one to answer, and answers `d`. */
  predicate Decides(reviewers: seq<Reviewer>, policy: Policy, requirement: Requirement, i: nat, d: Decision) {
    && i < |reviewers|
    && Eligible(reviewers[i], policy, requirement) && reviewers[i].answer == Some(d)
    && forall j | 0 <= j < i :: Eligible(reviewers[j], policy, requirement) ==> reviewers[j].answer == None
  }

  function ReviewOutcome(reviewers: seq<Reviewer>, policy: Policy, requirement: Requirement): Decision {
    if reviewers == [] then Deny
    else if Eligible(reviewers[0], policy, requirement) && reviewers[0].answer.Some? then reviewers[0].answer.value
    else ReviewOutcome(reviewers[1..], policy, requirement)
  }

  lemma DecidesLater(reviewers: seq<Reviewer>, policy: Policy, requirement: Requirement, i: nat, d: Decision)
    requires reviewers != [] && !(Eligible(reviewers[0], policy, requirement) && reviewers[0].answer.Some?)
    ensures Decides(reviewers, policy, requirement, i + 1, d) <==> Decides(reviewers[1..], policy, requirement, i, d)
    ensures !Decides(reviewers, policy, requirement, 0, d)
  {
    var rest := reviewers[1..];
    assert forall j | 0 <= j < |rest| :: rest[j] == reviewers[j + 1];
    assert forall j | 0 < j < |reviewers| :: reviewers[j] == rest[j - 1];
  }

  // The first eligible answer is the outcome.
  lemma {:induction false} FirstAnswerIsOutcome(reviewers: seq<Reviewer>, policy: Policy, requirement: Requirement,
      i: nat, d: Decision)
    requires Decides(reviewers, policy, requirement, i, d)
    ensures ReviewOutcome(reviewers, policy, requirement) == d
  {
    if !(Eligible(reviewers[0], policy, requirement) && reviewers[0].answer.Some?) {
      DecidesLater(reviewers, policy, requirement, i - 1, d);
      FirstAnswerIsOutcome(reviewers[1..], policy, requirement, i - 1, d);
    }
  }

  // An outcome other than a denial is an eligible reviewer's own answer.
  lemma {:induction false} OutcomeIsSomebodys(reviewers: seq<Reviewer>, policy: Policy, requirement: Requirement)
      returns (i: nat)
    requires ReviewOutcome(reviewers, policy, requirement) != Deny
    ensures Decides(reviewers, policy, requirement, i, ReviewOutcome(reviewers, policy, requirement))
  {
    if Eligible(reviewers[0], policy, requirement) && reviewers[0].answer.Some? {
      i := 0;
    } else {
      i := OutcomeIsSomebodys(reviewers[1..], policy, requirement);
      DecidesLater(reviewers, policy, requirement, i, ReviewOutcome(reviewers, policy, requirement));
      i := i + 1;
    }
  }

  // The outcome is the first eligible answer; with nobody to ask it is a denial.
  lemma OutcomeIsFirstAnswer(reviewers: seq<Reviewer>, policy: Policy, requirement: Requirement)
    ensures forall i: nat, d | Decides(reviewers, policy, requirement, i, d) ::
        ReviewOutcome(reviewers, policy, requirement) == d
    ensures (forall i: nat, d :: !Decides(reviewers, policy, requirement, i, d)) ==>
        ReviewOutcome(reviewers, policy, requirement) == Deny
  {
    forall i: nat, d | Decides(reviewers, policy, requirement, i, d)
      ensures ReviewOutcome(reviewers, policy, requirement) == d
    {
      FirstAnswerIsOutcome(reviewers, policy, requirement, i, d);
    }
    if ReviewOutcome(reviewers, policy, requirement) != Deny {
      var i := OutcomeIsSomebodys(reviewers, policy, requirement);
    }
  }

  // ----- Who is asked -----

  predicate IsPerson(r: Reviewer) { !r.automatic }
  predicate IsMachine(r: Reviewer) { r.automatic }
  predicate TakesRequests(r: Reviewer) { r.onRequest }

  /** The reviewers that `who` picks out, in order. */
  function Those(reviewers: seq<Reviewer>, who: Reviewer -> bool): seq<Reviewer> {
    if reviewers == [] then []
    else (if who(reviewers[0]) then [reviewers[0]] else []) + Those(reviewers[1..], who)
  }

  /** The first answer given, whoever gives it. */
  function FirstAnswer(reviewers: seq<Reviewer>): Decision {
    if reviewers == [] then Deny else reviewers[0].answer.GetOr(FirstAnswer(reviewers[1..]))
  }

  lemma {:induction false} FirstAnswerMeans(reviewers: seq<Reviewer>)
    ensures (forall r | r in reviewers :: r.answer == None) ==> FirstAnswer(reviewers) == Deny
    ensures forall i, d | 0 <= i < |reviewers| && reviewers[i].answer == Some(d)
                          && (forall j | 0 <= j < i :: reviewers[j].answer == None) :: FirstAnswer(reviewers) == d
  {
    if reviewers != [] {
      FirstAnswerMeans(reviewers[1..]);
      assert forall j | 0 < j < |reviewers| :: reviewers[1..][j - 1] == reviewers[j];
    }
  }

  lemma {:induction false} AskedAreThose(reviewers: seq<Reviewer>, policy: Policy, requirement: Requirement,
      who: Reviewer -> bool)
    requires forall r | r in reviewers :: Eligible(r, policy, requirement) == who(r)
    ensures ReviewOutcome(reviewers, policy, requirement) == FirstAnswer(Those(reviewers, who))
  {
    if reviewers != [] {
      var first, rest := reviewers[0], reviewers[1..];
      assert first in reviewers;
      AskedAreThose(rest, policy, requirement, who);
      assert [first] + Those(rest, who) != [] && ([first] + Those(rest, who))[1..] == Those(rest, who);
      assert [] + Those(rest, who) == Those(rest, who);
    }
  }

  // Whose answer counts: where a person is required, people's; under Auto, the
  // automatic reviewers'; where a review is required, people's; and otherwise that
  // of those enabled for ordinary requests.
  lemma OutcomeIsAskedOf(reviewers: seq<Reviewer>, policy: Policy, requirement: Requirement)
    ensures requirement == Always ==>
              ReviewOutcome(reviewers, policy, requirement) == FirstAnswer(Those(reviewers, IsPerson))
    ensures requirement != Always && policy == Auto ==>
              ReviewOutcome(reviewers, policy, requirement) == FirstAnswer(Those(reviewers, IsMachine))
    ensures requirement == ReviewRequired && policy != Auto ==>
              ReviewOutcome(reviewers, policy, requirement) == FirstAnswer(Those(reviewers, IsPerson))
    ensures requirement in {ByPolicy, AutoApproved, Confined} && policy != Auto ==>
              ReviewOutcome(reviewers, policy, requirement) == FirstAnswer(Those(reviewers, TakesRequests))
  {
    if requirement == Always || (requirement == ReviewRequired && policy != Auto) {
      AskedAreThose(reviewers, policy, requirement, IsPerson);
    } else if policy == Auto {
      AskedAreThose(reviewers, policy, requirement, IsMachine);
    } else {
      AskedAreThose(reviewers, policy, requirement, TakesRequests);
    }
  }

  // A guardian that is not enabled for ordinary requests does not stand in for the
  // person behind it.
  lemma PersonBehindTheGuardian(d: Decision, guardian: Decision)
    ensures ReviewOutcome([Reviewer(true, false, Some(guardian)), Reviewer(false, true, Some(d))], OnRequest,
        ByPolicy) == d
  {
    var reviewers := [Reviewer(true, false, Some(guardian)), Reviewer(false, true, Some(d))];
    OutcomeIsAskedOf(reviewers, OnRequest, ByPolicy);
    assert reviewers[1..] == [reviewers[1]] && reviewers[1..][1..] == [];
  }

  method Review(reviewers: seq<Reviewer>, policy: Policy, requirement: Requirement) returns (decision: Decision)
    ensures decision == ReviewOutcome(reviewers, policy, requirement)
  {
    for n := 0 to |reviewers|
      invariant ReviewOutcome(reviewers, policy, requirement) == ReviewOutcome(reviewers[n..], policy, requirement)
    {
      var contributor := reviewers[n];
      if Eligible(contributor, policy, requirement) {
        if contributor.answer.Some? {
          return contributor.answer.value;
        }
      }
      assert reviewers[n..][1..] == reviewers[n + 1..];
    }
    decision := Deny;
  }
}
