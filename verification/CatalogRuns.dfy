/** What every run of the proposal lifecycle keeps. */
module CatalogRuns {
  import opened Wrappers
  import opened Text
  import opened Ordering
  import opened FeedPolicies
  import opened CatalogDiffs
  import opened CatalogValidation
  import opened OnChainPlans
  import opened CatalogGovernance

  datatype Event =
    | Create(input: ProposalInput, now: int)
    | CreateRollbackOf(rollback: RollbackInput, now: int)
    | Attach(id: int, impact: Impact)
    | SubmitReview(id: int, reviewer: string, decision: Decision, attested: bool, recused: bool, now: int)
    | Execute(id: int, actor: string, executions: seq<Execution>, restrictions: Restrictions, now: int)
    | SweepAt(now: int)

  function Step(s: State, e: Event): State {
    match e
    case Create(input, now) => CreateProposal(s, input, now).state
    case CreateRollbackOf(input, now) => CreateRollback(s, input, now).state
    case Attach(id, impact) => AttachImpact(s, id, impact).state
    case SubmitReview(id, reviewer, decision, attested, recused, now) =>
      RecordReview(s, id, reviewer, decision, attested, recused, now).state
    case Execute(id, actor, executions, r, now) => Activate(s, id, actor, executions, r, now).state
    case SweepAt(now) => SweepExpired(s, now)
  }

  function Run(s: State, events: seq<Event>): State {
    if events == [] then s else Step(Run(s, events[..|events| - 1]), events[|events| - 1])
  }

  // ── The invariant ─────────────────────────────────────────────────────────

  /** The proposal was validated and planned against the version it names. */
  ghost predicate Grounded(versions: Versions, p: Proposal) {
    && NormalChange(p.change)
    && 1 <= p.change.baseVersion <= |versions|
    && var base := versions[p.change.baseVersion - 1];
       var v := Validate(base, p.change);
    && v.errors == [] && p.highImpact == v.highImpact
    && p.plan == Plan(base.feeds, v.nextFeeds, p.sourceAddresses)
    && p.plan.missingSourceAddresses == []
  }

  ghost predicate AllApprove(reviews: seq<Review>) {
    forall i :: 0 <= i < |reviews| ==> reviews[i].decision == Approve
  }

  /** Reviewers are distinct, none is the proposer, and all reviewed in time. */
  ghost predicate Independent(p: Proposal) {
    && (forall i, j :: 0 <= i < j < |p.reviews| ==> p.reviews[i].reviewer != p.reviews[j].reviewer)
    && (forall i :: 0 <= i < |p.reviews| ==> p.reviews[i].reviewer != p.proposer && p.reviews[i].at <= p.reviewDeadlineAt)
    && p.requiredApprovals == Approvals(p.highImpact)
    && p.reviewDeadlineAt == p.createdAt + REVIEW_WINDOW
  }

  /** The required number of reviews, all approvals, an unblocked impact report, and a timelock
      counted from the last approval. */
  ghost predicate FullyApproved(p: Proposal) {
    && |p.reviews| == p.requiredApprovals && AllApprove(p.reviews)
    && p.impact.Some? && !p.impact.value.approvalBlocked
    && |p.reviews| > 0
    && p.timelockEndsAt == Some(p.reviews[|p.reviews| - 1].at + Lock(p.highImpact))
  }

  ghost predicate StatusMeans(p: Proposal) {
    match p.status
    case InReview => AllApprove(p.reviews) && |p.reviews| < p.requiredApprovals && p.activation.None?
    case Expired => AllApprove(p.reviews) && |p.reviews| < p.requiredApprovals && p.activation.None?
    case Rejected => |p.reviews| > 0 && p.reviews[|p.reviews| - 1].decision == Reject && p.activation.None?
    case Approved => FullyApproved(p) && p.activation.None?
    case Activated => FullyApproved(p) && p.activation.Some? && p.activation.value.at >= p.timelockEndsAt.value
  }

  /** An activated proposal is the one recorded in the version after its base. */
  ghost predicate Published(versions: Versions, p: Proposal) {
    p.status == Activated ==>
      && p.activation.Some? && 1 <= p.change.baseVersion < |versions|
      && p.activation.value.version == p.change.baseVersion + 1
      && versions[p.change.baseVersion]
         == CatalogPolicy(p.change.baseVersion + 1, p.activation.value.at, Some(p.id),
                          Project(versions[p.change.baseVersion - 1].feeds, p.change))
  }

  ghost predicate ProposalOk(versions: Versions, p: Proposal) {
    Grounded(versions, p) && Independent(p) && StatusMeans(p) && Published(versions, p)
  }

  /** Version k was activated by an activated proposal that names it. */
  ghost predicate Sourced(s: State, k: nat)
    requires k < |s.versions|
  {
    && s.versions[k].proposalId.Some?
    && var id := s.versions[k].proposalId.value;
    && id in s.proposals && s.proposals[id].status == Activated && s.proposals[id].change.baseVersion == k
  }

  ghost predicate History(s: State) {
    && (forall k :: 0 <= k < |s.versions| ==> s.versions[k].version == k + 1 && NormalFeeds(s.versions[k].feeds) && SortedFeeds(s.versions[k].feeds))
    && (forall k :: 1 <= k < |s.versions| ==> OrderedFeeds(s.versions[k].feeds) && Sourced(s, k))
  }

  ghost predicate Ledger(s: State) {
    forall id :: id in s.proposals ==>
      s.proposals[id].id == id && 1 <= id <= s.proposalCount && ProposalOk(s.versions, s.proposals[id])
  }

  ghost predicate Inv(s: State) {
    History(s) && Ledger(s)
  }

  // ── It holds at the start ─────────────────────────────────────────────────

  lemma GenesisInv(feeds: seq<FeedPolicy>)
    ensures Inv(Genesis(feeds))
  {
    hide NormalFeeds, OrderedFeeds, NormalizeFeeds, Sort, SortedBy;
    NormalizeFeedsNormal(feeds);
  }

  // ── Appending a version disturbs no proposal ──────────────────────────────

  lemma ProposalOkAppend(versions: Versions, v: CatalogPolicy, p: Proposal)
    requires ProposalOk(versions, p)
    ensures ProposalOk(Append(versions, v), p)
  {
    hide Validate, Plan, NormalChange, Independent, StatusMeans, Project;
  }

  /** Replacing one proposal by a sound one, without undoing an activation, keeps the invariant. */
  lemma Replace(s: State, p: Proposal)
    requires Inv(s) && p.id in s.proposals
    requires ProposalOk(s.versions, p)
    requires s.proposals[p.id].status != Activated
    ensures Inv(s.(proposals := s.proposals[p.id := p]))
  {
    hide ProposalOk, NormalFeeds, OrderedFeeds;
    var t := s.(proposals := s.proposals[p.id := p]);
    forall k | 1 <= k < |t.versions| ensures OrderedFeeds(t.versions[k].feeds) && Sourced(t, k) {
      assert Sourced(s, k);
    }
  }

  // ── Each step keeps it ────────────────────────────────────────────────────

  lemma CreateKeeps(s: State, input: ProposalInput, now: int)
    requires Inv(s)
    ensures Inv(CreateProposal(s, input, now).state)
  {
    hide ProposalOk, NormalChange, Validate, Plan, NormalizeChange, Trim, Trimmed, NormalFeeds, OrderedFeeds;
    var t := CreateProposal(s, input, now).state;
    if CreateProposal(s, input, now).result.Ok? {
      NewProposalOk(s, input, now);
      forall id | id in t.proposals
        ensures t.proposals[id].id == id && 1 <= id <= t.proposalCount && ProposalOk(t.versions, t.proposals[id])
      {
        if id != t.proposalCount { assert id in s.proposals; }
      }
      forall k | 1 <= k < |t.versions| ensures OrderedFeeds(t.versions[k].feeds) && Sourced(t, k) {
        assert Sourced(s, k);
      }
    }
  }

  lemma NewProposalOk(s: State, input: ProposalInput, now: int)
    requires Inv(s)
    requires CreateProposal(s, input, now).result.Ok?
    ensures ProposalOk(s.versions, CreateProposal(s, input, now).result.value)
    ensures CreateProposal(s, input, now).result.value.change.baseVersion == |s.versions|
  {
    hide NormalChange, Plan, NormalizeChange, Trim, Trimmed, NormalFeeds, OrderedFeeds, Validate;
    var change := NormalizeChange(input.change);
    NormalizeChangeNormal(input.change);
    NormalizeChangeIdempotent(input.change);
    AcceptedBase(Current(s), change);
    assert Current(s).version == |s.versions|;
  }

  lemma AcceptedBase(current: CatalogPolicy, change: CatalogChange)
    requires Validate(current, change).errors == []
    ensures NormalizeChange(change).baseVersion == current.version && change.baseVersion == current.version
  {
    hide Validate, Acceptable;
    AcceptedExactly(current, change);
    AcceptableBase(current, NormalizeChange(change));
  }

  lemma AcceptableBase(current: CatalogPolicy, change: CatalogChange)
    requires Acceptable(current, change)
    ensures change.baseVersion == current.version
  {
    hide Project, Diff, Touched, GuardRails;
  }

  lemma AttachedOk(versions: Versions, p: Proposal, impact: Impact)
    requires ProposalOk(versions, p) && p.status == InReview
    ensures ProposalOk(versions, p.(impact := Some(impact)))
  {
    hide Validate, Plan, NormalChange;
  }

  lemma AttachKeeps(s: State, id: int, impact: Impact)
    requires Inv(s)
    ensures Inv(AttachImpact(s, id, impact).state)
  {
    hide ProposalOk, History;
    if id in s.proposals && s.proposals[id].status == InReview {
      AttachedOk(s.versions, s.proposals[id], impact);
      Replace(s, s.proposals[id].(id := id, impact := Some(impact)));
    }
  }

  lemma {:induction false} ApprovalsCounted(reviews: seq<Review>)
    requires AllApprove(reviews)
    ensures ApprovalCount(reviews) == |reviews|
  {
    if reviews != [] { ApprovalsCounted(reviews[..|reviews| - 1]); }
  }

  lemma ReviewedOk(versions: Versions, p: Proposal, review: Review)
    requires ProposalOk(versions, p) && p.status == InReview
    requires review.reviewer != p.proposer && !HasReviewed(p.reviews, review.reviewer)
    requires review.at <= p.reviewDeadlineAt
    requires CompletionGate(p, review.decision).None?
    ensures ProposalOk(versions, Reviewed(p, review))
  {
    hide Validate, Plan, NormalChange;
    ApprovalsCounted(p.reviews);
    var q := Reviewed(p, review);
    assert q.reviews == p.reviews + [review];
    assert Independent(q);
    assert Grounded(versions, q);
    if review.decision == Approve { assert AllApprove(q.reviews); }
    assert StatusMeans(q);
  }

  lemma ReviewKeeps(s: State, id: int, reviewer: string, decision: Decision, attested: bool, recused: bool, now: int)
    requires Inv(s)
    ensures Inv(RecordReview(s, id, reviewer, decision, attested, recused, now).state)
  {
    hide Trim, Trimmed, ProposalOk, History;
    if id in s.proposals {
      var p := s.proposals[id];
      var actor := Trim(reviewer);
      var gate := ReviewGate(p, actor, attested, now);
      if gate == Some(ReviewWindowExpired) {
        ExpireKeeps(s, id);
      } else if actor != "" && gate.None? && !recused && CompletionGate(p, decision).None? {
        var q := Reviewed(p, Review(actor, decision, now));
        ReviewedOk(s.versions, p, Review(actor, decision, now));
        assert q.id == id && q.(id := id) == q;
        Replace(s, q);
      }
    }
  }

  lemma ExpiredOk(versions: Versions, p: Proposal)
    requires ProposalOk(versions, p) && p.status == InReview
    ensures ProposalOk(versions, p.(status := Expired))
  {
    hide Validate, Plan, NormalChange;
  }

  lemma ExpireKeeps(s: State, id: int)
    requires Inv(s) && id in s.proposals && s.proposals[id].status == InReview
    ensures Inv(s.(proposals := s.proposals[id := s.proposals[id].(status := Expired)]))
  {
    hide ProposalOk, History;
    ExpiredOk(s.versions, s.proposals[id]);
    Replace(s, s.proposals[id].(status := Expired));
  }

  lemma SweepKeeps(s: State, now: int)
    requires Inv(s)
    ensures Inv(SweepExpired(s, now))
  {
    hide ProposalOk, NormalFeeds, OrderedFeeds;
    var t := SweepExpired(s, now);
    forall id | id in t.proposals ensures ProposalOk(t.versions, t.proposals[id]) {
      if Lapsed(s.proposals[id], now) { ExpiredOk(s.versions, s.proposals[id]); }
    }
    forall k | 1 <= k < |t.versions| ensures OrderedFeeds(t.versions[k].feeds) && Sourced(t, k) {
      assert Sourced(s, k);
    }
  }

  /** The proposal an accepted activation leaves behind. */
  lemma ActivatedOk(versions: Versions, p: Proposal, now: int, a: Activation, next: CatalogPolicy)
    requires ProposalOk(versions, p) && p.status == Approved && p.timelockEndsAt.Some? && now >= p.timelockEndsAt.value
    requires p.change.baseVersion == |versions| && a.at == now && a.version == |versions| + 1
    requires next == CatalogPolicy(|versions| + 1, now, Some(p.id), Project(versions[|versions| - 1].feeds, p.change))
    ensures ProposalOk(Append(versions, next), p.(status := Activated, activation := Some(a)))
  {
    hide Validate, Plan, NormalChange, Project;
    var q := p.(status := Activated, activation := Some(a));
    assert Grounded(Append(versions, next), q);
    assert Published(Append(versions, next), q);
  }

  lemma ActivateKeeps(s: State, id: int, actor: string, executions: seq<Execution>, r: Restrictions, now: int)
    requires Inv(s)
    ensures Inv(Activate(s, id, actor, executions, r, now).state)
  {
    hide ProposalOk, Validate, Plan, Trim, Trimmed, SafetyGate, NormalFeeds, OrderedFeeds, Project;
    var o := Activate(s, id, actor, executions, r, now);
    if o.result.Ok? {
      var p := s.proposals[id];
      var next := NextPolicy(Current(s), p, now);
      assert Current(s).version == |s.versions|;
      AcceptedActivation(s, id, executions, r);
      ActivatedOk(s.versions, p, now, o.result.value.activation.value, next);
      AppendKeeps(s, o.result.value, next);
    }
  }

  lemma AcceptedActivation(s: State, id: int, executions: seq<Execution>, r: Restrictions)
    requires Inv(s) && id in s.proposals
    requires SafetyGate(Current(s), s.proposals[id], executions, r).None?
    ensures s.proposals[id].change.baseVersion == |s.versions|
    ensures NormalFeeds(Project(Current(s).feeds, s.proposals[id].change))
    ensures OrderedFeeds(Project(Current(s).feeds, s.proposals[id].change))
  {
    hide Validate, Plan, AnyFrozen, ExecutionsError, NormalFeeds, OrderedFeeds, Project, StatusMeans, Independent, Published;
    var p := s.proposals[id];
    AcceptedBase(Current(s), p.change);
    assert Current(s).version == |s.versions|;
    assert NormalChange(p.change);
    ProjectNormal(Current(s).feeds, p.change);
  }

  lemma AppendKeeps(s: State, q: Proposal, next: CatalogPolicy)
    requires Inv(s) && q.id in s.proposals && q.status == Activated && s.proposals[q.id].status != Activated
    requires q.change.baseVersion == |s.versions| && next.version == |s.versions| + 1 && next.proposalId == Some(q.id)
    requires NormalFeeds(next.feeds) && OrderedFeeds(next.feeds)
    requires ProposalOk(Append(s.versions, next), q)
    ensures Inv(State(Append(s.versions, next), s.proposals[q.id := q], s.proposalCount))
  {
    hide ProposalOk, NormalFeeds, OrderedFeeds, SortedFeeds;
    OrderedSorted(next.feeds);
    var t := State(Append(s.versions, next), s.proposals[q.id := q], s.proposalCount);
    forall id | id in t.proposals ensures t.proposals[id].id == id && 1 <= id <= t.proposalCount && ProposalOk(t.versions, t.proposals[id]) {
      if id != q.id { ProposalOkAppend(s.versions, next, s.proposals[id]); }
    }
    forall k | 1 <= k < |t.versions| ensures OrderedFeeds(t.versions[k].feeds) && Sourced(t, k) {
      if k < |s.versions| { assert Sourced(s, k); }
    }
  }

  lemma StepKeeps(s: State, e: Event)
    requires Inv(s)
    ensures Inv(Step(s, e))
  {
    hide Inv, CreateProposal, CreateRollback, AttachImpact, RecordReview, Activate, SweepExpired;
    match e
    case Create(input, now) => CreateKeeps(s, input, now);
    case CreateRollbackOf(input, now) => RollbackKeeps(s, input, now);
    case Attach(id, impact) => AttachKeeps(s, id, impact);
    case SubmitReview(id, reviewer, decision, attested, recused, now) =>
      ReviewKeeps(s, id, reviewer, decision, attested, recused, now);
    case Execute(id, actor, executions, r, now) => ActivateKeeps(s, id, actor, executions, r, now);
    case SweepAt(now) => SweepKeeps(s, now);
  }

  lemma RollbackKeeps(s: State, input: RollbackInput, now: int)
    requires Inv(s)
    ensures Inv(CreateRollback(s, input, now).state)
  {
    hide Inv, CreateProposal, FindVersion, RollbackProposal;
    var target := FindVersion(s.versions, input.targetVersion);
    if target.Some? { CreateKeeps(s, RollbackProposal(s, input, target.value), now); }
  }

  lemma {:induction false} RunKeeps(s: State, events: seq<Event>)
    requires Inv(s)
    ensures Inv(Run(s, events))
  {
    hide Inv, Step;
    if events != [] {
      RunKeeps(s, events[..|events| - 1]);
      StepKeeps(Run(s, events[..|events| - 1]), events[|events| - 1]);
    }
  }
}
