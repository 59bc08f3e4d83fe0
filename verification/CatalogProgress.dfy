/** Nothing in the lifecycle is a dead end: every change that can be proposed can be activated. */
module CatalogProgress {
  import opened Wrappers
  import opened Text
  import opened FeedPolicies
  import opened CatalogDiffs
  import opened CatalogValidation
  import opened OnChainPlans
  import opened CatalogGovernance
  import opened CatalogRuns

  lemma {:induction false} RunSplit(s: State, a: seq<Event>, b: seq<Event>)
    ensures Run(s, a + b) == Run(Run(s, a), b)
    decreases |b|
  {
    hide Step;
    if b == [] {
      assert a + b == a;
    } else {
      RunSplit(s, a, b[..|b| - 1]);
      assert (a + b)[..|a + b| - 1] == a + b[..|b| - 1];
    }
  }

  lemma RunOne(s: State, e: Event)
    ensures Run(s, [e]) == Step(s, e)
  {
    hide Step;
    assert [e][..0] == [];
  }

  // ── Approvals ─────────────────────────────────────────────────────────────

  /** Reviewers under distinct names, none of them the proposer's. */
  ghost predicate Independents(reviewers: seq<string>, proposer: string) {
    && (forall i :: 0 <= i < |reviewers| ==> reviewers[i] != "" && Trimmed(reviewers[i]) && reviewers[i] != proposer)
    && (forall i, j :: 0 <= i < j < |reviewers| ==> reviewers[i] != reviewers[j])
  }

  function Approvers(reviewers: seq<string>, now: int): (r: seq<Review>)
    ensures |r| == |reviewers| && forall i :: 0 <= i < |r| ==> r[i] == Review(reviewers[i], Approve, now)
  {
    seq(|reviewers|, i requires 0 <= i < |reviewers| => Review(reviewers[i], Approve, now))
  }

  function ApprovalEvents(id: int, reviewers: seq<string>, now: int): seq<Event> {
    if reviewers == [] then [] else
      var n := |reviewers| - 1;
      ApprovalEvents(id, reviewers[..n], now) + [SubmitReview(id, reviewers[n], Approve, true, false, now)]
  }

  /** The proposal after these reviewers approved it at `now`. */
  function Endorsed(p: Proposal, reviewers: seq<string>, now: int): Proposal {
    var q := p.(reviews := Approvers(reviewers, now));
    if |reviewers| == p.requiredApprovals then q.(status := Approved, timelockEndsAt := Some(now + Lock(p.highImpact))) else q
  }

  ghost predicate Awaiting(p: Proposal, now: int) {
    && p.status == InReview && p.reviews == [] && now <= p.reviewDeadlineAt && p.impact.Some? && !p.impact.value.approvalBlocked
    && 0 < p.requiredApprovals <= MAX_REVIEWERS
  }

  lemma ApprovalRecorded(s: State, id: int, p: Proposal, reviewers: seq<string>, now: int)
    requires id in s.proposals && p.id == id && Awaiting(p, now) && reviewers != []
    requires |reviewers| <= p.requiredApprovals && Independents(reviewers, p.proposer)
    requires s.proposals[id] == Endorsed(p, reviewers[..|reviewers| - 1], now)
    ensures Step(s, SubmitReview(id, reviewers[|reviewers| - 1], Approve, true, false, now))
         == s.(proposals := s.proposals[id := Endorsed(p, reviewers, now)])
  {
    hide Trim, Trimmed, ApprovalCount;
    var n := |reviewers| - 1;
    var q := s.proposals[id];
    assert Trim(reviewers[n]) == reviewers[n];
    assert !HasReviewed(q.reviews, reviewers[n]);
    ApprovalsCounted(q.reviews);
    assert q.reviews + [Review(reviewers[n], Approve, now)] == Approvers(reviewers, now);
  }

  lemma {:induction false} ApprovalsRecorded(s: State, id: int, reviewers: seq<string>, now: int)
    requires id in s.proposals && s.proposals[id].id == id && Awaiting(s.proposals[id], now)
    requires |reviewers| <= s.proposals[id].requiredApprovals && Independents(reviewers, s.proposals[id].proposer)
    ensures Run(s, ApprovalEvents(id, reviewers, now)) == s.(proposals := s.proposals[id := Endorsed(s.proposals[id], reviewers, now)])
    decreases |reviewers|
  {
    hide Step;
    var p := s.proposals[id];
    if reviewers == [] {
      assert Endorsed(p, [], now) == p;
      assert s.proposals[id := p] == s.proposals;
    } else {
      var n := |reviewers| - 1;
      ApprovalsRecorded(s, id, reviewers[..n], now);
      var t := s.(proposals := s.proposals[id := Endorsed(p, reviewers[..n], now)]);
      ApprovalRecorded(t, id, p, reviewers, now);
      var last := [SubmitReview(id, reviewers[n], Approve, true, false, now)];
      RunSplit(s, ApprovalEvents(id, reviewers[..n], now), last);
      RunOne(t, last[0]);
      assert t.proposals[id := Endorsed(p, reviewers, now)] == s.proposals[id := Endorsed(p, reviewers, now)];
    }
  }

  // ── Execution ─────────────────────────────────────────────────────────────

  /** Every action of a plan, executed once. */
  function InFull(n: nat): (r: seq<Execution>)
    ensures |r| == n && forall i :: 0 <= i < n ==> r[i] == Execution(i, i + 1)
  {
    seq(n, i => Execution(i, i + 1))
  }

  lemma InFullAccepted(n: nat)
    ensures ExecutionsError(n, InFull(n)) == None
  {
    forall i | 0 <= i < n ensures !BadExecution(n, InFull(n), i) {}
  }

  const UNRESTRICTED: Restrictions := Restrictions(false, {})

  lemma ApprovedActivates(s: State, id: int, actor: string, now: int)
    requires id in s.proposals && Trim(actor) != ""
    requires var p := s.proposals[id]; var v := Validate(Current(s), p.change);
      && p.id == id && p.status == Approved && p.timelockEndsAt.Some? && now >= p.timelockEndsAt.value
      && v.errors == [] && p.plan == Plan(Current(s).feeds, v.nextFeeds, p.sourceAddresses)
    ensures var p := s.proposals[id];
      Step(s, Execute(id, actor, InFull(|p.plan.actions|), UNRESTRICTED, now)).versions
      == s.versions + [CatalogPolicy(Current(s).version + 1, now, Some(id), Project(Current(s).feeds, p.change))]
  {
    hide Validate, Plan, Trim, Project, Touched, ExecutionsError;
    InFullAccepted(|s.proposals[id].plan.actions|);
  }

  // ── The whole way ─────────────────────────────────────────────────────────

  const REPORT: Impact := Impact(Low, false)

  /** The state with the proposal stored and its impact report attached. */
  function Reported(s: State, input: ProposalInput, now: int): State
    requires CreateProposal(s, input, now).result.Ok?
  {
    var o := CreateProposal(s, input, now);
    o.state.(proposals := o.state.proposals[o.result.value.id := o.result.value.(impact := Some(REPORT))])
  }

  lemma ReportedReady(s: State, input: ProposalInput, now: int)
    requires CreateProposal(s, input, now).result.Ok?
    ensures var p := CreateProposal(s, input, now).result.value; var t := Reported(s, input, now);
      && t.versions == s.versions && p.id in t.proposals && t.proposals[p.id] == p.(impact := Some(REPORT))
      && Step(CreateProposal(s, input, now).state, Attach(p.id, REPORT)) == t
      && Awaiting(t.proposals[p.id], now) && p.change == NormalizeChange(input.change)
      && var v := Validate(Current(s), p.change);
         v.errors == [] && p.plan == Plan(Current(s).feeds, v.nextFeeds, p.sourceAddresses)
  {
    hide Validate, Plan, Trim, NormalizeChange;
  }

  lemma RunTwo(s: State, input: ProposalInput, now: int)
    requires CreateProposal(s, input, now).result.Ok?
    ensures var p := CreateProposal(s, input, now).result.value;
      Run(s, [Create(input, now)] + [Attach(p.id, REPORT)]) == Reported(s, input, now)
  {
    hide CreateProposal, Run, Reported;
    var o := CreateProposal(s, input, now);
    ReportedReady(s, input, now);
    RunSplit(s, [Create(input, now)], [Attach(o.result.value.id, REPORT)]);
    RunOne(s, Create(input, now));
    RunOne(o.state, Attach(o.result.value.id, REPORT));
  }

  /** A proposal the engine accepts becomes the next version by as many approvals as it requires, the
      execution of its plan, and the wait for its timelock, whatever the policy and the change. */
  lemma EveryProposalCanBeActivated(s: State, input: ProposalInput, now: int, reviewers: seq<string>, actor: string) returns (events: seq<Event>)
    requires var o := CreateProposal(s, input, now);
      && o.result.Ok? && Trim(actor) != ""
      && |reviewers| == o.result.value.requiredApprovals && Independents(reviewers, o.result.value.proposer)
    ensures var p := CreateProposal(s, input, now).result.value;
      Run(s, events).versions == s.versions + [CatalogPolicy(Current(s).version + 1, now + Lock(p.highImpact), Some(p.id),
                                                             Project(Current(s).feeds, NormalizeChange(input.change)))]
  {
    hide CreateProposal, Reported, Run, Step, Validate, Plan, Trim, NormalizeChange, Project, Independents, ApprovalEvents;
    var p := CreateProposal(s, input, now).result.value;
    var t := Reported(s, input, now);
    var first := [Create(input, now)] + [Attach(p.id, REPORT)];
    var approvals := ApprovalEvents(p.id, reviewers, now);
    ReportedReady(s, input, now);
    RunTwo(s, input, now);
    StoredId(s, input, now);
    ApprovalsRecorded(t, p.id, reviewers, now);
    RunSplit(s, first, approvals);
    var u := t.(proposals := t.proposals[p.id := Endorsed(t.proposals[p.id], reviewers, now)]);
    var later := now + Lock(p.highImpact);
    var execute := Execute(p.id, actor, InFull(|p.plan.actions|), UNRESTRICTED, later);
    ApprovedActivates(u, p.id, actor, later);
    events := first + approvals + [execute];
    RunSplit(s, first + approvals, [execute]);
    RunOne(u, execute);
  }

  lemma StoredId(s: State, input: ProposalInput, now: int)
    requires CreateProposal(s, input, now).result.Ok?
    ensures Reported(s, input, now).proposals[CreateProposal(s, input, now).result.value.id].id == CreateProposal(s, input, now).result.value.id
  {
    hide Validate, Plan, Trim, NormalizeChange;
  }
}
