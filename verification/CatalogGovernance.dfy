/** The proposal lifecycle: policies are versions in an append-only list, and a change becomes the
    next version only through review, timelock, re-validation and execution on chain. */
module CatalogGovernance {
  import opened Wrappers
  import opened Text
  import opened Ordering
  import opened FeedPolicies
  import opened FeedEncoding
  import opened CatalogDiffs
  import opened CatalogValidation
  import opened OnChainPlans

  // Durations in milliseconds.
  const REVIEW_WINDOW := 48 * 60 * 60 * 1000
  const TIMELOCK := 24 * 60 * 60 * 1000
  const HIGH_IMPACT_TIMELOCK := 48 * 60 * 60 * 1000
  const REQUIRED_APPROVALS := 2
  const HIGH_IMPACT_APPROVALS := 3
  const MAX_REVIEWERS := 7
  const MAX_DESCRIPTION := 2000

  datatype Status = InReview | Approved | Rejected | Activated | Expired

  datatype Decision = Approve | Reject

  datatype Review = Review(reviewer: string, decision: Decision, at: int)

  datatype Risk = Low | Medium | High | Critical

  datatype Impact = Impact(risk: Risk, approvalBlocked: bool)

  datatype Execution = Execution(actionIndex: int, onChainProposalId: int)

  datatype Activation = Activation(at: int, version: int, actor: string, executions: seq<Execution>)

  datatype Proposal = Proposal(
    id: int,
    proposer: string,
    description: string,
    change: CatalogChange,
    status: Status,
    createdAt: int,
    reviewDeadlineAt: int,
    timelockEndsAt: Option<int>,
    activation: Option<Activation>,
    reviews: seq<Review>,
    findings: seq<Finding>,
    highImpact: bool,
    requiredApprovals: int,
    sourceAddresses: Addresses,
    plan: OnChainPlan,
    impact: Option<Impact>)

  datatype Error =
    | ActorRequired | DescriptionRequired | DescriptionTooLong | CatalogPolicyInvalid | MissingSourceAddress
    | PolicyVersionNotFound | RollbackTargetIsLive | ProposalNotFound | ImpactNotAccepted
    | ProposalNotInReview | ReviewWindowExpired | SelfReviewForbidden | AttestationRequired | AlreadyReviewed
    | ReviewLimitReached | ConflictOfInterest | ImpactAnalysisRequired | ImpactAnalysisBlocked
    | ProposalNotApproved | TimelockActive | PolicyDrift | PlanDrifted | EmergencyOverrideActive
    | ExecutionInvalid | ExecutionIncomplete

  /** Policy versions, the genesis policy first. */
  type Versions = vs: seq<CatalogPolicy> | |vs| > 0 witness [CatalogPolicy(1, 0, None, [])]

  function Append(vs: Versions, v: CatalogPolicy): Versions { vs + [v] }

  datatype State = State(versions: Versions, proposals: map<int, Proposal>, proposalCount: nat)

  datatype Outcome = Outcome(state: State, result: Result<Proposal, Error>)

  datatype ProposalInput = ProposalInput(
    proposer: string,
    description: string,
    change: CatalogChange,
    sourceAddresses: Addresses)

  datatype RollbackInput = RollbackInput(
    proposer: string,
    targetVersion: int,
    description: Option<string>,
    sourceAddresses: Addresses)

  /** What the emergency registry restricts at the moment of an activation. */
  datatype Restrictions = Restrictions(halted: bool, assets: set<string>)

  predicate IsFrozen(r: Restrictions, asset: string) {
    r.halted || NormalizeAsset(asset) in r.assets
  }

  function Genesis(feeds: seq<FeedPolicy>): State {
    State([CatalogPolicy(1, 0, None, Sort(NormalizeFeeds(feeds), FeedAsset))], map[], 0)
  }

  function Current(s: State): CatalogPolicy
  {
    s.versions[|s.versions| - 1]
  }

  function Fail(s: State, e: Error): Outcome { Outcome(s, Err(e)) }

  function Store(s: State, p: Proposal): Outcome { Outcome(s.(proposals := s.proposals[p.id := p]), Ok(p)) }

  // ── createProposal ────────────────────────────────────────────────────────

  function Approvals(highImpact: bool): int {
    if highImpact then HIGH_IMPACT_APPROVALS else REQUIRED_APPROVALS
  }

  function NewProposal(s: State, input: ProposalInput, change: CatalogChange, v: Validation, plan: OnChainPlan, now: int): Proposal {
    Proposal(s.proposalCount + 1, Trim(input.proposer), Trim(input.description), change, InReview, now, now + REVIEW_WINDOW,
             None, None, [], v.findings, v.highImpact, Approvals(v.highImpact), input.sourceAddresses, plan, None)
  }

  function CreateProposal(s: State, input: ProposalInput, now: int): Outcome
  {
    if Trim(input.proposer) == "" then Fail(s, ActorRequired)
    else if Trim(input.description) == "" then Fail(s, DescriptionRequired)
    else if |input.description| > MAX_DESCRIPTION then Fail(s, DescriptionTooLong)
    else
      var change := NormalizeChange(input.change);
      var v := Validate(Current(s), change);
      if v.errors != [] then Fail(s, CatalogPolicyInvalid)
      else
        var plan := Plan(Current(s).feeds, v.nextFeeds, input.sourceAddresses);
        if plan.missingSourceAddresses != [] then Fail(s, MissingSourceAddress)
        else
          var p := NewProposal(s, input, change, v, plan, now);
          Outcome(State(s.versions, s.proposals[p.id := p], s.proposalCount + 1), Ok(p))
  }

  // ── createRollbackProposal ────────────────────────────────────────────────

  function FindVersion(versions: seq<CatalogPolicy>, version: int): Option<CatalogPolicy> {
    if versions == [] then None
    else if versions[0].version == version then Some(versions[0])
    else FindVersion(versions[1..], version)
  }

  function RemovedAssets(current: seq<FeedPolicy>, target: seq<FeedPolicy>): seq<string> {
    if current == [] then [] else
      var n := |current| - 1;
      RemovedAssets(current[..n], target) + (if current[n].asset in Index(target) then [] else [current[n].asset])
  }

  function RollbackChange(current: CatalogPolicy, target: CatalogPolicy): CatalogChange {
    CatalogChange(current.version, Rollback, target.feeds, RemovedAssets(current.feeds, target.feeds))
  }

  function RollbackDescription(input: RollbackInput, from: int): string {
    if input.description.Some? && Trim(input.description.value) != "" then Trim(input.description.value)
    else "Rollback catalog policy from v" + Decimal(from) + " to v" + Decimal(input.targetVersion)
  }

  function RollbackProposal(s: State, input: RollbackInput, target: CatalogPolicy): ProposalInput
  {
    ProposalInput(input.proposer, RollbackDescription(input, Current(s).version),
                  RollbackChange(Current(s), target), input.sourceAddresses)
  }

  function CreateRollback(s: State, input: RollbackInput, now: int): Outcome
  {
    if input.targetVersion == Current(s).version then Fail(s, RollbackTargetIsLive)
    else
      var target := FindVersion(s.versions, input.targetVersion);
      if target.None? then Fail(s, PolicyVersionNotFound)
      else CreateProposal(s, RollbackProposal(s, input, target.value), now)
  }

  // ── attachImpact ──────────────────────────────────────────────────────────

  function AttachImpact(s: State, id: int, impact: Impact): Outcome {
    if id !in s.proposals then Fail(s, ProposalNotFound)
    else if s.proposals[id].status != InReview then Fail(s, ImpactNotAccepted)
    else Store(s, s.proposals[id].(id := id, impact := Some(impact)))
  }

  // ── recordReview ──────────────────────────────────────────────────────────

  function ApprovalCount(reviews: seq<Review>): (n: nat)
    ensures n <= |reviews|
  {
    if reviews == [] then 0 else
      ApprovalCount(reviews[..|reviews| - 1]) + (if reviews[|reviews| - 1].decision == Approve then 1 else 0)
  }

  predicate HasReviewed(reviews: seq<Review>, actor: string) {
    exists i :: 0 <= i < |reviews| && reviews[i].reviewer == actor
  }

  predicate Completes(p: Proposal, decision: Decision) {
    decision == Approve && ApprovalCount(p.reviews) + 1 >= p.requiredApprovals
  }

  function Lock(highImpact: bool): int { if highImpact then HIGH_IMPACT_TIMELOCK else TIMELOCK }

  /** The proposal with one more review on it. */
  function Reviewed(p: Proposal, review: Review): Proposal {
    var q := p.(reviews := p.reviews + [review]);
    if review.decision == Reject then q.(status := Rejected)
    else if Completes(p, review.decision) then
      q.(status := Approved, timelockEndsAt := Some(review.at + Lock(p.highImpact)))
    else q
  }

  /** The refusals that come before the conflict-of-interest register is asked. */
  function ReviewGate(p: Proposal, actor: string, attested: bool, now: int): Option<Error> {
    if p.status != InReview then Some(ProposalNotInReview)
    else if now > p.reviewDeadlineAt then Some(ReviewWindowExpired)
    else if actor == p.proposer then Some(SelfReviewForbidden)
    else if !attested then Some(AttestationRequired)
    else if HasReviewed(p.reviews, actor) then Some(AlreadyReviewed)
    else if |p.reviews| >= MAX_REVIEWERS then Some(ReviewLimitReached)
    else None
  }

  function CompletionGate(p: Proposal, decision: Decision): Option<Error> {
    if !Completes(p, decision) then None
    else if p.impact.None? then Some(ImpactAnalysisRequired)
    else if p.impact.value.approvalBlocked then Some(ImpactAnalysisBlocked)
    else None
  }

  /** `recused` says whether the conflict-of-interest register gives any reason against the actor. */
  function RecordReview(s: State, id: int, reviewer: string, decision: Decision, attested: bool, recused: bool, now: int): Outcome {
    var actor := Trim(reviewer);
    if actor == "" then Fail(s, ActorRequired)
    else if id !in s.proposals then Fail(s, ProposalNotFound)
    else
      var p := s.proposals[id];
      var gate := ReviewGate(p, actor, attested, now);
      if gate == Some(ReviewWindowExpired) then
        Fail(s.(proposals := s.proposals[id := p.(status := Expired)]), ReviewWindowExpired)
      else if gate.Some? then Fail(s, gate.value)
      else if recused then Fail(s, ConflictOfInterest)
      else
        var completion := CompletionGate(p, decision);
        if completion.Some? then Fail(s, completion.value)
        else Store(s, Reviewed(p, Review(actor, decision, now)).(id := id))
  }

  // ── activate ──────────────────────────────────────────────────────────────

  predicate BadExecution(expected: nat, executions: seq<Execution>, i: nat)
    requires i < |executions|
  {
    || !(0 <= executions[i].actionIndex < expected)
    || (exists j :: 0 <= j < i && executions[j].actionIndex == executions[i].actionIndex)
    || executions[i].onChainProposalId <= 0
  }

  /** Executions name every action of the plan once. */
  function ExecutionsError(expected: nat, executions: seq<Execution>): Option<Error> {
    if exists i :: 0 <= i < |executions| && BadExecution(expected, executions, i) then Some(ExecutionInvalid)
    else if |executions| != expected then Some(ExecutionIncomplete)
    else None
  }

  predicate AnyFrozen(assets: seq<string>, r: Restrictions) {
    exists i :: 0 <= i < |assets| && IsFrozen(r, assets[i])
  }

  /** The refusals of an activation that do not depend on the live policy. */
  function ActivationGate(p: Proposal, now: int): Option<Error> {
    if p.status != Approved then Some(ProposalNotApproved)
    else if p.timelockEndsAt.None? || now < p.timelockEndsAt.value then Some(TimelockActive)
    else None
  }

  function SafetyGate(current: CatalogPolicy, p: Proposal, executions: seq<Execution>, r: Restrictions): Option<Error> {
    var v := Validate(current, p.change);
    if v.errors != [] then Some(PolicyDrift)
    else if Plan(current.feeds, v.nextFeeds, p.sourceAddresses).digest != p.plan.digest then Some(PlanDrifted)
    else if AnyFrozen(Touched(v.diff), r) then Some(EmergencyOverrideActive)
    else ExecutionsError(|p.plan.actions|, executions)
  }

  function NextPolicy(current: CatalogPolicy, p: Proposal, now: int): CatalogPolicy {
    CatalogPolicy(current.version + 1, now, Some(p.id), Project(current.feeds, p.change))
  }

  function Activate(s: State, id: int, actor: string, executions: seq<Execution>, r: Restrictions, now: int): Outcome
  {
    var caller := Trim(actor);
    if caller == "" then Fail(s, ActorRequired)
    else if id !in s.proposals then Fail(s, ProposalNotFound)
    else
      var p := s.proposals[id];
      var gate := ActivationGate(p, now);
      if gate.Some? then Fail(s, gate.value)
      else
        var safety := SafetyGate(Current(s), p, executions, r);
        if safety.Some? then Fail(s, safety.value)
        else
          var next := NextPolicy(Current(s), p, now);
          var q := p.(status := Activated, activation := Some(Activation(now, next.version, caller, executions)));
          Outcome(State(Append(s.versions, next), s.proposals[id := q], s.proposalCount), Ok(q))
  }

  // ── sweepExpired ──────────────────────────────────────────────────────────

  predicate Lapsed(p: Proposal, now: int) {
    p.status == InReview && now > p.reviewDeadlineAt
  }

  function Swept(p: Proposal, now: int): Proposal {
    if Lapsed(p, now) then p.(status := Expired) else p
  }

  function SweepExpired(s: State, now: int): State {
    s.(proposals := map id | id in s.proposals :: Swept(s.proposals[id], now))
  }

  ghost function LapsedBelow(proposals: map<int, Proposal>, k: int, now: int): set<int> {
    set id | id in proposals && id < k && Lapsed(proposals[id], now)
  }

  lemma LapsedPush(proposals: map<int, Proposal>, k: int, now: int)
    ensures |LapsedBelow(proposals, k + 1, now)|
         == |LapsedBelow(proposals, k, now)| + (if k in proposals && Lapsed(proposals[k], now) then 1 else 0)
  {
    hide Lapsed;
    assert LapsedBelow(proposals, k + 1, now)
        == LapsedBelow(proposals, k, now) + (if k in proposals && Lapsed(proposals[k], now) then {k} else {});
  }

  lemma SweepPush(start: map<int, Proposal>, k: int, now: int)
    ensures SweptBelow(start, k + 1, now)
         == if k in start then SweptBelow(start, k, now)[k := Swept(start[k], now)] else SweptBelow(start, k, now)
  {
    hide Swept;
  }

  /** The proposals after the sweep has visited the ids below `k`. */
  ghost function SweptBelow(start: map<int, Proposal>, k: int, now: int): map<int, Proposal> {
    map id | id in start :: if id < k then Swept(start[id], now) else start[id]
  }

  // ── The engine ────────────────────────────────────────────────────────────

  class Governance {
    var versions: Versions
    var proposals: map<int, Proposal>
    var proposalCount: nat

    ghost predicate Valid()
      reads this
    {
      forall id :: id in proposals ==> proposals[id].id == id && 1 <= id <= proposalCount
    }

    ghost function Value(): State
      reads this
    {
      State(versions, proposals, proposalCount)
    }

    constructor (genesisFeeds: seq<FeedPolicy>)
      ensures Valid() && Value() == Genesis(genesisFeeds)
    {
      versions := [CatalogPolicy(1, 0, None, Sort(NormalizeFeeds(genesisFeeds), FeedAsset))];
      proposals := map[];
      proposalCount := 0;
    }

    method SubmitProposal(input: ProposalInput, now: int) returns (r: Result<Proposal, Error>)
      requires Valid()
      modifies this
      ensures Valid() && Outcome(Value(), r) == CreateProposal(old(Value()), input, now)
    {
      hide Validate, Plan, NormalizeChange, Trim, Trimmed, Approvals;
      var proposer := Trim(input.proposer);
      if proposer == "" { return Err(ActorRequired); }
      if Trim(input.description) == "" { return Err(DescriptionRequired); }
      if |input.description| > MAX_DESCRIPTION { return Err(DescriptionTooLong); }
      var current := versions[|versions| - 1];
      var change := NormalizeChange(input.change);
      var validation := ValidateCatalogChange(current, change);
      if |validation.errors| > 0 { return Err(CatalogPolicyInvalid); }
      var plan := BuildOnChainPlan(current, validation.nextFeeds, input.sourceAddresses);
      if |plan.missingSourceAddresses| > 0 { return Err(MissingSourceAddress); }
      proposalCount := proposalCount + 1;
      var p := Proposal(proposalCount, proposer, Trim(input.description), change, InReview, now, now + REVIEW_WINDOW,
                        None, None, [], validation.findings, validation.highImpact, Approvals(validation.highImpact),
                        input.sourceAddresses, plan, None);
      proposals := proposals[proposalCount := p];
      r := Ok(p);
    }

    method SubmitRollback(input: RollbackInput, now: int) returns (r: Result<Proposal, Error>)
      requires Valid()
      modifies this
      ensures Valid() && Outcome(Value(), r) == CreateRollback(old(Value()), input, now)
    {
      hide CreateProposal, FindVersion, RemovedAssets;
      var current := versions[|versions| - 1];
      if input.targetVersion == current.version { return Err(RollbackTargetIsLive); }
      var target := FindVersion(versions, input.targetVersion);
      if target.None? { return Err(PolicyVersionNotFound); }
      var change := CatalogChange(current.version, Rollback, target.value.feeds, RemovedAssets(current.feeds, target.value.feeds));
      r := SubmitProposal(
        ProposalInput(input.proposer, RollbackDescription(input, current.version), change, input.sourceAddresses), now);
    }

    method RecordImpact(id: int, impact: Impact) returns (r: Result<Proposal, Error>)
      requires Valid()
      modifies this`proposals
      ensures Valid() && Outcome(Value(), r) == AttachImpact(old(Value()), id, impact)
    {
      if id !in proposals { return Err(ProposalNotFound); }
      var proposal := proposals[id];
      if proposal.status != InReview { return Err(ImpactNotAccepted); }
      proposal := proposal.(impact := Some(impact));
      proposals := proposals[id := proposal];
      r := Ok(proposal);
    }

    method SubmitReview(id: int, reviewer: string, decision: Decision, attested: bool, recused: bool, now: int)
      returns (r: Result<Proposal, Error>)
      requires Valid()
      modifies this`proposals
      ensures Valid() && Outcome(Value(), r) == RecordReview(old(Value()), id, reviewer, decision, attested, recused, now)
    {
      hide Trim, Trimmed, ApprovalCount, HasReviewed;
      var actor := Trim(reviewer);
      if actor == "" { return Err(ActorRequired); }
      if id !in proposals { return Err(ProposalNotFound); }
      var proposal := proposals[id];
      if proposal.status != InReview { return Err(ProposalNotInReview); }
      if now > proposal.reviewDeadlineAt {
        proposals := proposals[id := proposal.(status := Expired)];
        return Err(ReviewWindowExpired);
      }
      if actor == proposal.proposer { return Err(SelfReviewForbidden); }
      if !attested { return Err(AttestationRequired); }
      if HasReviewed(proposal.reviews, actor) { return Err(AlreadyReviewed); }
      if |proposal.reviews| >= MAX_REVIEWERS { return Err(ReviewLimitReached); }
      if recused { return Err(ConflictOfInterest); }
      var completes := decision == Approve && ApprovalCount(proposal.reviews) + 1 >= proposal.requiredApprovals;
      if completes {
        if proposal.impact.None? { return Err(ImpactAnalysisRequired); }
        if proposal.impact.value.approvalBlocked { return Err(ImpactAnalysisBlocked); }
      }
      var updated := proposal.(reviews := proposal.reviews + [Review(actor, decision, now)]);
      if decision == Reject {
        updated := updated.(status := Rejected);
      } else if completes {
        updated := updated.(status := Approved);
        var timelock := if proposal.highImpact then HIGH_IMPACT_TIMELOCK else TIMELOCK;
        updated := updated.(timelockEndsAt := Some(now + timelock));
      }
      proposals := proposals[id := updated];
      r := Ok(updated);
    }

    /** The first of the assets that is frozen, which the refusal names. */
    static method CheckFrozen(assets: seq<string>, restrictions: Restrictions) returns (frozen: Option<string>)
      ensures frozen.Some? <==> AnyFrozen(assets, restrictions)
      ensures frozen.Some? ==> exists i :: 0 <= i < |assets| && assets[i] == frozen.value && IsFrozen(restrictions, assets[i])
                                           && !AnyFrozen(assets[..i], restrictions)
    {
      hide IsFrozen;
      for i := 0 to |assets|
        invariant !AnyFrozen(assets[..i], restrictions)
      {
        if IsFrozen(restrictions, assets[i]) { return Some(assets[i]); }
        assert assets[..i + 1] == assets[..i] + [assets[i]];
      }
      assert assets[..|assets|] == assets;
      frozen := None;
    }

    static method AssertExecutionsComplete(expected: nat, executions: seq<Execution>) returns (e: Option<Error>)
      ensures e == ExecutionsError(expected, executions)
    {
      var seen: set<int> := {};
      for i := 0 to |executions|
        invariant forall j :: 0 <= j < i ==> !BadExecution(expected, executions, j)
        invariant |seen| == i
        invariant forall x :: x in seen <==> exists j :: 0 <= j < i && executions[j].actionIndex == x
      {
        var execution := executions[i];
        if !(0 <= execution.actionIndex < expected) || execution.actionIndex in seen || execution.onChainProposalId <= 0 {
          assert BadExecution(expected, executions, i);
          return Some(ExecutionInvalid);
        }
        assert !BadExecution(expected, executions, i);
        seen := seen + {execution.actionIndex};
      }
      e := if |seen| != expected then Some(ExecutionIncomplete) else None;
    }

    method ActivateProposal(id: int, actor: string, executions: seq<Execution>, restrictions: Restrictions, now: int)
      returns (r: Result<Proposal, Error>)
      requires Valid()
      modifies this`versions, this`proposals
      ensures Valid() && Outcome(Value(), r) == Activate(old(Value()), id, actor, executions, restrictions, now)
    {
      hide Validate, Plan, Project, AnyFrozen, ExecutionsError, Trim, Trimmed;
      var caller := Trim(actor);
      if caller == "" { return Err(ActorRequired); }
      if id !in proposals { return Err(ProposalNotFound); }
      var proposal := proposals[id];
      if proposal.status != Approved { return Err(ProposalNotApproved); }
      if proposal.timelockEndsAt.None? || now < proposal.timelockEndsAt.value { return Err(TimelockActive); }
      var current := versions[|versions| - 1];
      var validation := ValidateCatalogChange(current, proposal.change);
      if |validation.errors| > 0 { return Err(PolicyDrift); }
      var plan := BuildOnChainPlan(current, validation.nextFeeds, proposal.sourceAddresses);
      if plan.digest != proposal.plan.digest { return Err(PlanDrifted); }
      var frozen := CheckFrozen(validation.diff.added + validation.diff.removed + validation.diff.modified, restrictions);
      if frozen.Some? { return Err(EmergencyOverrideActive); }
      var incomplete := AssertExecutionsComplete(|proposal.plan.actions|, executions);
      if incomplete.Some? { return Err(incomplete.value); }
      var feeds := ProjectFeeds(current, proposal.change);
      var next := CatalogPolicy(current.version + 1, now, Some(proposal.id), feeds);
      versions := versions + [next];
      proposal := proposal.(status := Activated, activation := Some(Activation(now, next.version, caller, executions)));
      proposals := proposals[id := proposal];
      r := Ok(proposal);
    }

    /** Proposals are visited in the order they were stored, which is the order of their ids. */
    method Sweep(now: int) returns (expired: nat)
      requires Valid()
      modifies this`proposals
      ensures Valid() && Value() == SweepExpired(old(Value()), now)
      ensures expired == |LapsedBelow(old(proposals), proposalCount + 1, now)|
    {
      hide LapsedBelow;
      expired := 0;
      ghost var start := proposals;
      assert LapsedBelow(start, 1, now) == {} by { NoneLapsed(start, now); }
      assert SweptBelow(start, 1, now) == start;
      for id := 1 to proposalCount + 1
        invariant proposals == SweptBelow(start, id, now)
        invariant expired == |LapsedBelow(start, id, now)|
      {
        hide SweptBelow;
        LapsedPush(start, id, now);
        SweepPush(start, id, now);
        assert id in proposals <==> id in start by { SweptKeys(start, id, now); }
        if id in proposals {
          SweptKeys(start, id, now);
          if proposals[id].status == InReview && now > proposals[id].reviewDeadlineAt {
            proposals := proposals[id := proposals[id].(status := Expired)];
            expired := expired + 1;
          }
        }
      }
    }
  }

  lemma NoneLapsed(start: map<int, Proposal>, now: int)
    requires forall id :: id in start ==> 1 <= id
    ensures LapsedBelow(start, 1, now) == {}
  {
  }

  lemma SweptKeys(start: map<int, Proposal>, id: int, now: int)
    ensures SweptBelow(start, id, now).Keys == start.Keys
    ensures id in start ==> SweptBelow(start, id, now)[id] == start[id]
  {
  }
}
