/** Exactly when each operation of the proposal engine is accepted in a reachable state, and exactly what
    it then changes, in the fields of the stored proposal. */
module CatalogOperations {
  import opened Wrappers
  import opened Text
  import opened Ordering
  import opened FeedPolicies
  import opened FeedEncoding
  import opened CatalogDiffs
  import opened CatalogValidation
  import opened OnChainPlans
  import opened CatalogGovernance
  import opened CatalogRuns
  import opened CatalogTheorems

  const HOUR := 60 * 60 * 1000

  /** Only proposal `id` differs between two states. */
  ghost predicate OnlyProposal(s: State, t: State, id: int) {
    && t.versions == s.versions && t.proposalCount == s.proposalCount && t.proposals.Keys == s.proposals.Keys
    && forall k :: k in s.proposals && k != id ==> t.proposals[k] == s.proposals[k]
  }

  /** The engine starts with version 1, made by no proposal: the given feeds, normalised and in the order of
      their assets. */
  lemma GenesisMeans(feeds: seq<FeedPolicy>)
    ensures var s := Genesis(feeds);
      && |s.versions| == 1 && s.proposals == map[] && s.proposalCount == 0
      && s.versions[0].version == 1 && s.versions[0].activatedAt == 0 && s.versions[0].proposalId == None
      && SortedBy(s.versions[0].feeds, FeedAsset)
      && multiset(s.versions[0].feeds) == multiset(NormalizeFeeds(feeds))
  {
    hide Sort, SortedBy;
    SortCorrect(NormalizeFeeds(feeds), FeedAsset);
  }

  // ── createProposal ────────────────────────────────────────────────────────

  /** A proposal is accepted exactly when it has an author and a description of at most 2000 characters, its
      normalised change may be applied to the live policy, and no provider address is missing. */
  lemma CreateAcceptedExactly(s: State, input: ProposalInput, now: int)
    ensures CreateProposal(s, input, now).result.Ok? <==>
      && Trim(input.proposer) != "" && Trim(input.description) != "" && |input.description| <= 2000
      && Acceptable(Current(s), NormalizeChange(input.change))
      && Plan(Current(s).feeds, Project(Current(s).feeds, NormalizeChange(input.change)), input.sourceAddresses).missingSourceAddresses == []
  {
    hide Validate, Plan, NormalizeChange, Project, Acceptable, Trim;
    AcceptedExactly(Current(s), NormalizeChange(input.change));
    NormalizeChangeIdempotent(input.change);
    ValidatedFeeds(Current(s), NormalizeChange(input.change));
  }

  lemma ValidatedFeeds(current: CatalogPolicy, change: CatalogChange)
    ensures Validate(current, change).nextFeeds == Project(current.feeds, NormalizeChange(change))
  {
    hide NormalizeChange, Project, Findings, Diff;
  }

  /** It is stored under the next number, in review for 48 hours, with the author and description trimmed, no
      reviews, two approvals required or three in the high-impact lane, and the plan of its change; nothing else
      changes. A refusal changes nothing. */
  lemma CreatedMeans(s: State, input: ProposalInput, now: int)
    ensures var o := CreateProposal(s, input, now);
      var change := NormalizeChange(input.change);
      var next := Project(Current(s).feeds, change);
      && (o.result.Err? ==> o.state == s)
      && (o.result.Ok? ==>
           && var p := o.result.value;
           && o.state == State(s.versions, s.proposals[s.proposalCount + 1 := p], s.proposalCount + 1)
           && p.id == s.proposalCount + 1 && p.proposer == Trim(input.proposer) && p.description == Trim(input.description)
           && p.change == change && p.status == InReview && p.createdAt == now && p.reviewDeadlineAt == now + 48 * HOUR
           && p.timelockEndsAt.None? && p.activation.None? && p.reviews == [] && p.impact.None?
           && (p.highImpact <==> change.kind == Rollback || !Tightens(Index(Current(s).feeds), Index(next)))
           && p.requiredApprovals == (if p.highImpact then 3 else 2)
           && p.sourceAddresses == input.sourceAddresses && p.plan == Plan(Current(s).feeds, next, input.sourceAddresses)
           && p.findings == Validate(Current(s), change).findings)
  {
    hide Validate, Plan, NormalizeChange, Project, Trim, Tightens, Index;
    var change := NormalizeChange(input.change);
    NormalizeChangeIdempotent(input.change);
    ValidatedFeeds(Current(s), change);
    LowImpactExact(Current(s), change);
  }

  // ── createRollbackProposal ────────────────────────────────────────────────

  /** A rollback names a version other than the live one, and is then the proposal of that version's feeds
      and of the removal of every live asset it lacks. */
  lemma RollbackMeans(s: State, input: RollbackInput, now: int, a: string)
    requires Inv(s)
    ensures var o := CreateRollback(s, input, now);
      && (input.targetVersion == |s.versions| ==> o == Outcome(s, Err(RollbackTargetIsLive)))
      && (input.targetVersion < 1 || input.targetVersion > |s.versions| ==> o == Outcome(s, Err(PolicyVersionNotFound)))
      && (1 <= input.targetVersion < |s.versions| ==>
           exists r: ProposalInput ::
             && o == CreateProposal(s, r, now) && r.proposer == input.proposer && r.sourceAddresses == input.sourceAddresses
             && (input.description.Some? && Trim(input.description.value) != "" ==> r.description == Trim(input.description.value))
             && r.change.baseVersion == |s.versions| && r.change.kind == Rollback
             && r.change.upserts == s.versions[input.targetVersion - 1].feeds
             && (a in r.change.removals <==> a in Index(Current(s).feeds) && a !in Index(s.versions[input.targetVersion - 1].feeds)))
  {
    hide CreateProposal, FindVersion, Decimal, Trim, Index, Inv, RemovedAssets;
    LiveVersion(s);
    VersionFound(s, input.targetVersion);
    if 1 <= input.targetVersion < |s.versions| {
      var target := s.versions[input.targetVersion - 1];
      RemovalsMean(Current(s).feeds, target.feeds, a);
      var r := RollbackProposal(s, input, target);
      assert CreateRollback(s, input, now) == CreateProposal(s, r, now);
    }
  }

  lemma {:induction false} RemovalsMean(current: seq<FeedPolicy>, target: seq<FeedPolicy>, a: string)
    ensures a in RemovedAssets(current, target) <==> a in Index(current) && a !in Index(target)
  {
    if current != [] { RemovalsMean(current[..|current| - 1], target, a); }
  }

  lemma {:induction false} VersionNumbered(versions: seq<CatalogPolicy>, from: int, v: int)
    requires forall k :: 0 <= k < |versions| ==> versions[k].version == from + k
    ensures FindVersion(versions, v) == if from <= v < from + |versions| then Some(versions[v - from]) else None
  {
    if versions != [] { VersionNumbered(versions[1..], from + 1, v); }
  }

  lemma VersionFound(s: State, v: int)
    requires Inv(s)
    ensures FindVersion(s.versions, v) == if 1 <= v <= |s.versions| then Some(s.versions[v - 1]) else None
  {
    hide Ledger, NormalFeeds, OrderedFeeds, SortedFeeds, FindVersion;
    VersionNumbered(s.versions, 1, v);
  }

  // ── attachImpact ──────────────────────────────────────────────────────────

  /** An impact report is taken exactly while the proposal is in review, and changes nothing but the report. */
  lemma AttachMeans(s: State, id: int, impact: Impact)
    requires Inv(s)
    ensures var o := AttachImpact(s, id, impact);
      && (o.result.Ok? <==> id in s.proposals && s.proposals[id].status == InReview)
      && (o.result.Err? ==> o.state == s)
      && (o.result.Ok? ==>
           OnlyProposal(s, o.state, id) && o.state.proposals[id] == s.proposals[id].(impact := Some(impact)) == o.result.value)
  {
    hide History, ProposalOk;
  }

  // ── recordReview ──────────────────────────────────────────────────────────

  /** In a reachable state a review is accepted exactly when its author is named and attested, is not the
      proposer, has not reviewed before and is not recused, the proposal is in review and within its deadline,
      and, if this is the approval that completes it, an unblocked impact report is on record. */
  lemma ReviewAcceptedExactly(s: State, id: int, reviewer: string, decision: Decision, attested: bool, recused: bool, now: int)
    requires Inv(s)
    ensures RecordReview(s, id, reviewer, decision, attested, recused, now).result.Ok? <==>
      && Trim(reviewer) != "" && attested && !recused && id in s.proposals
      && var p := s.proposals[id];
      && p.status == InReview && now <= p.createdAt + 48 * HOUR && Trim(reviewer) != p.proposer
      && (forall i :: 0 <= i < |p.reviews| ==> p.reviews[i].reviewer != Trim(reviewer))
      && (decision == Approve && |p.reviews| + 1 == (if p.highImpact then 3 else 2) ==> p.impact.Some? && !p.impact.value.approvalBlocked)
  {
    hide Trim, Inv, Grounded, Published;
    if id in s.proposals {
      LedgerOk(s, id);
      if s.proposals[id].status == InReview { ApprovalsCounted(s.proposals[id].reviews); }
    }
  }

  /** An accepted review is appended with its author, decision and time, whatever the decision. A rejection
      leaves the proposal Rejected; the approval that completes it leaves it Approved, with a timelock of 24
      hours, 48 in the high-impact lane; any other approval leaves it in review. Nothing else changes. */
  lemma ReviewRecorded(s: State, id: int, reviewer: string, decision: Decision, attested: bool, recused: bool, now: int)
    requires Inv(s) && RecordReview(s, id, reviewer, decision, attested, recused, now).result.Ok?
    ensures id in s.proposals
    ensures var o := RecordReview(s, id, reviewer, decision, attested, recused, now);
      var p := s.proposals[id];
      var complete := |p.reviews| + 1 == (if p.highImpact then 3 else 2);
      && OnlyProposal(s, o.state, id) && o.state.proposals[id] == o.result.value
      && o.result.value == p.(
           reviews := p.reviews + [Review(Trim(reviewer), decision, now)],
           status := (if decision == Reject then Rejected else if complete then Approved else InReview),
           timelockEndsAt := (if decision == Approve && complete then Some(now + (if p.highImpact then 48 else 24) * HOUR)
                              else p.timelockEndsAt))
  {
    hide Trim, Inv, Grounded, Published;
    LedgerOk(s, id);
    LedgerId(s, id);
    var p := s.proposals[id];
    assert p.status == InReview;
    ApprovalsCounted(p.reviews);
  }

  lemma LedgerId(s: State, id: int)
    requires Inv(s) && id in s.proposals
    ensures s.proposals[id].id == id
  {
    hide History, ProposalOk;
  }

  /** A refused review changes nothing, except that one past the deadline marks the proposal expired. */
  lemma ReviewRefused(s: State, id: int, reviewer: string, decision: Decision, attested: bool, recused: bool, now: int)
    requires Inv(s) && RecordReview(s, id, reviewer, decision, attested, recused, now).result.Err?
    ensures var o := RecordReview(s, id, reviewer, decision, attested, recused, now);
      var late := Trim(reviewer) != "" && id in s.proposals && s.proposals[id].status == InReview && now > s.proposals[id].createdAt + 48 * HOUR;
      && (late <==> o.result == Err(ReviewWindowExpired))
      && (!late ==> o.state == s)
      && (late ==> OnlyProposal(s, o.state, id) && o.state.proposals[id] == s.proposals[id].(status := Expired))
  {
    hide Trim, Inv, Grounded, Published, ApprovalCount;
    if id in s.proposals { LedgerOk(s, id); }
  }

  // ── activate ──────────────────────────────────────────────────────────────

  /** Every action of the plan is executed once, under an on-chain proposal. */
  ghost predicate ExecutedInFull(plan: OnChainPlan, executions: seq<Execution>) {
    && |executions| == |plan.actions|
    && (forall i :: 0 <= i < |executions| ==> 0 <= executions[i].actionIndex < |plan.actions| && executions[i].onChainProposalId > 0)
    && (forall i, j :: 0 <= i < j < |executions| ==> executions[i].actionIndex != executions[j].actionIndex)
  }

  lemma ExecutionsMean(plan: OnChainPlan, executions: seq<Execution>)
    ensures ExecutionsError(|plan.actions|, executions) == None <==> ExecutedInFull(plan, executions)
  {
    var n := |plan.actions|;
    if ExecutionsError(n, executions) == None {
      forall i | 0 <= i < |executions| ensures !BadExecution(n, executions, i) {}
      forall i | 0 <= i < |executions| ensures 0 <= executions[i].actionIndex < n && executions[i].onChainProposalId > 0 {
        assert !BadExecution(n, executions, i);
      }
      forall i, j | 0 <= i < j < |executions| ensures executions[i].actionIndex != executions[j].actionIndex {
        assert !BadExecution(n, executions, j);
      }
    }
    if ExecutedInFull(plan, executions) {
      forall i | 0 <= i < |executions| ensures !BadExecution(n, executions, i) {}
    }
  }

  /** The asset is in only one of the lists, or its feed differs. */
  ghost predicate Differs(before: seq<FeedPolicy>, after: seq<FeedPolicy>, a: string) {
    || (a in Index(before) && a !in Index(after)) || (a !in Index(before) && a in Index(after))
    || (a in Index(before) && a in Index(after) && Index(before)[a] != Index(after)[a])
  }

  lemma TouchedMeans(before: seq<FeedPolicy>, after: seq<FeedPolicy>, a: string)
    ensures a in Touched(Diff(before, after)) <==> Differs(before, after, a)
  {
    hide Index, Diff;
    DiffPartition(before, after, a);
  }

  /** In a reachable state an activation is accepted exactly when its caller is named, the proposal is approved
      and its timelock has passed, the live version is still the one it was based on, no asset it changes is
      frozen, and every action of its plan was executed. */
  lemma ActivateAcceptedExactly(s: State, id: int, actor: string, executions: seq<Execution>, r: Restrictions, now: int)
    requires Inv(s)
    ensures Activate(s, id, actor, executions, r, now).result.Ok? <==>
      && Trim(actor) != "" && id in s.proposals
      && var p := s.proposals[id];
      && p.status == Approved && p.timelockEndsAt.Some? && now >= p.timelockEndsAt.value
      && p.change.baseVersion == |s.versions|
      && (forall a :: Differs(Current(s).feeds, Project(Current(s).feeds, p.change), a) ==> !r.halted && NormalizeAsset(a) !in r.assets)
      && ExecutedInFull(p.plan, executions)
  {
    hide Trim, Inv, Validate, Plan, Project, ExecutionsError, ExecutedInFull, NormalizeAsset, Differs, Touched;
    if id in s.proposals {
      var p := s.proposals[id];
      LiveVersion(s);
      DriftExact(s, id);
      ExecutionsMean(p.plan, executions);
      FrozenMeans(s, id, r);
    }
  }

  lemma FrozenMeans(s: State, id: int, r: Restrictions)
    requires Inv(s) && id in s.proposals
    ensures var p := s.proposals[id];
      AnyFrozen(Touched(Validate(Current(s), p.change).diff), r) <==>
      exists a :: Differs(Current(s).feeds, Project(Current(s).feeds, p.change), a) && (r.halted || NormalizeAsset(a) in r.assets)
  {
    hide Inv, Grounded, Independent, StatusMeans, Published, Project, NormalizeAsset, Touched, Diff, Differs, Findings, NormalizeChange;
    var p := s.proposals[id];
    var after := Project(Current(s).feeds, p.change);
    GroundedNormal(s, id);
    NormalChangeFixed(p.change);
    var touched := Touched(Diff(Current(s).feeds, after));
    assert Validate(Current(s), p.change).diff == Diff(Current(s).feeds, after);
    forall a ensures a in touched <==> Differs(Current(s).feeds, after, a) { TouchedMeans(Current(s).feeds, after, a); }
    if AnyFrozen(touched, r) {
      var i :| 0 <= i < |touched| && IsFrozen(r, touched[i]);
      assert touched[i] in touched;
    }
    if a :| Differs(Current(s).feeds, after, a) && (r.halted || NormalizeAsset(a) in r.assets) {
      var i :| 0 <= i < |touched| && touched[i] == a;
      assert IsFrozen(r, touched[i]);
    }
  }

  lemma GroundedNormal(s: State, id: int)
    requires Inv(s) && id in s.proposals
    ensures NormalChange(s.proposals[id].change)
  {
    hide Inv, Independent, StatusMeans, Published, NormalChange;
    LedgerOk(s, id);
  }

  /** It then appends one version, numbered next, with the caller's time and the proposal's number and change,
      and marks the proposal activated. A refusal changes nothing. */
  lemma ActivateMeans(s: State, id: int, actor: string, executions: seq<Execution>, r: Restrictions, now: int)
    requires Inv(s)
    ensures var o := Activate(s, id, actor, executions, r, now);
      && (o.result.Err? ==> o.state == s)
      && (o.result.Ok? ==>
           && id in s.proposals
           && var p := s.proposals[id];
           && o.state.versions == s.versions + [CatalogPolicy(|s.versions| + 1, now, Some(id), Project(Current(s).feeds, p.change))]
           && o.state.proposalCount == s.proposalCount
           && o.state.proposals == s.proposals[id := o.result.value]
           && o.result.value == p.(status := Activated, activation := Some(Activation(now, |s.versions| + 1, Trim(actor), executions))))
  {
    hide Trim, Inv, SafetyGate, Project;
    LiveVersion(s);
    if id in s.proposals { LedgerId(s, id); }
  }

  // ── sweepExpired ──────────────────────────────────────────────────────────

  /** A sweep expires exactly the proposals in review whose 48 hours have passed. */
  lemma SweepMeans(s: State, now: int, id: int)
    requires Inv(s) && id in s.proposals
    ensures var t := SweepExpired(s, now); var p := s.proposals[id];
      && t.versions == s.versions && t.proposalCount == s.proposalCount && t.proposals.Keys == s.proposals.Keys
      && t.proposals[id] == if p.status == InReview && now > p.createdAt + 48 * HOUR then p.(status := Expired) else p
  {
    hide Inv, Grounded, StatusMeans, Published;
    LedgerOk(s, id);
  }

  // ── Final states ──────────────────────────────────────────────────────────

  lemma StepKeepsFinal(s: State, e: Event, id: int)
    requires Inv(s) && id in s.proposals && s.proposals[id].status in {Rejected, Activated, Expired}
    ensures id in Step(s, e).proposals && Step(s, e).proposals[id] == s.proposals[id]
  {
    hide Validate, Plan, NormalizeChange, Trim, SafetyGate, RollbackProposal, FindVersion, Project, ProposalOk, History, ApprovalCount;
  }

  /** A proposal that was rejected, activated or expired is never changed again. */
  lemma {:induction false} FinalIsFinal(s: State, events: seq<Event>, id: int)
    requires Inv(s) && id in s.proposals && s.proposals[id].status in {Rejected, Activated, Expired}
    ensures id in Run(s, events).proposals && Run(s, events).proposals[id] == s.proposals[id]
  {
    hide Inv, Step;
    if events != [] {
      FinalIsFinal(s, events[..|events| - 1], id);
      RunKeeps(s, events[..|events| - 1]);
      StepKeepsFinal(Run(s, events[..|events| - 1]), events[|events| - 1], id);
    }
  }

  /** One accepted rejection, at any moment of any run, stops a proposal for good. */
  lemma RejectionStops(feeds: seq<FeedPolicy>, events: seq<Event>, id: int, reviewer: string, attested: bool, recused: bool, now: int, later: seq<Event>)
    requires RecordReview(Run(Genesis(feeds), events), id, reviewer, Reject, attested, recused, now).result.Ok?
    ensures var t := RecordReview(Run(Genesis(feeds), events), id, reviewer, Reject, attested, recused, now).state;
      id in Run(t, later).proposals && Run(t, later).proposals[id].status == Rejected
      && Review(Trim(reviewer), Reject, now) in Run(t, later).proposals[id].reviews
  {
    hide Genesis, Run, RecordReview, Inv, Trim;
    var s := Run(Genesis(feeds), events);
    GenesisInv(feeds);
    RunKeeps(Genesis(feeds), events);
    ReviewRecorded(s, id, reviewer, Reject, attested, recused, now);
    ReviewKeeps(s, id, reviewer, Reject, attested, recused, now);
    FinalIsFinal(RecordReview(s, id, reviewer, Reject, attested, recused, now).state, later, id);
  }
}
