/** Theorems about every run that starts from a genesis policy. */
module CatalogTheorems {
  import opened Wrappers
  import opened Text
  import opened FeedPolicies
  import opened CatalogDiffs
  import opened CatalogValidation
  import opened OnChainPlans
  import opened CatalogGovernance
  import opened CatalogRuns

  // ── Versions ──────────────────────────────────────────────────────────────

  ghost predicate Extends(before: seq<CatalogPolicy>, after: seq<CatalogPolicy>) {
    before <= after
  }

  lemma StepExtends(s: State, e: Event)
    ensures Extends(s.versions, Step(s, e).versions)
  {
    hide Validate, Plan, NormalizeChange, Trim, Trimmed, SafetyGate, RollbackProposal, FindVersion, Project;
  }

  /** A stored version is never rewritten or dropped, whatever happens later. */
  lemma {:induction false} HistoryAppendOnly(s: State, events: seq<Event>)
    ensures Extends(s.versions, Run(s, events).versions)
  {
    hide Step;
    if events != [] {
      HistoryAppendOnly(s, events[..|events| - 1]);
      StepExtends(Run(s, events[..|events| - 1]), events[|events| - 1]);
    }
  }

  /** The proposal that produced version `k + 1`. */
  ghost function Origin(s: State, k: nat): (p: Proposal)
    requires Inv(s) && 1 <= k < |s.versions|
    ensures p.id in s.proposals && p == s.proposals[p.id] && p.status == Activated && p.change.baseVersion == k
    ensures s.versions[k].proposalId == Some(p.id) && ProposalOk(s.versions, p)
  {
    hide ProposalOk;
    assert Sourced(s, k);
    s.proposals[s.versions[k].proposalId.value]
  }

  /** Versions are numbered from 1. Version k + 1 was produced by exactly one activated proposal, whose
      base is version k and which was activated no earlier than its timelock after the last of its
      approvals. */
  lemma VersionsTraceToProposals(feeds: seq<FeedPolicy>, events: seq<Event>, k: nat)
    requires k < |Run(Genesis(feeds), events).versions|
    ensures var s := Run(Genesis(feeds), events);
      && s.versions[k].version == k + 1
      && (k > 0 ==> exists id :: id in s.proposals && Produced(s, id, k))
      && (forall i, j :: i in s.proposals && j in s.proposals && Produced(s, i, k) && Produced(s, j, k) ==> i == j)
  {
    hide Validate, Plan, Project, Grounded, Independent, Genesis, Run;
    var s := Run(Genesis(feeds), events);
    GenesisInv(feeds);
    RunKeeps(Genesis(feeds), events);
    if k > 0 {
      var p := Origin(s, k);
      OriginProduced(s, p.id, k);
    }
    forall i, j | i in s.proposals && j in s.proposals && Produced(s, i, k) && Produced(s, j, k) ensures i == j {
      ActivatedUnique(s, i, j);
    }
  }

  /** Proposal `id` is activated as version `k + 1`, on base `k`, after its timelock. */
  ghost predicate Produced(s: State, id: int, k: nat)
    requires id in s.proposals
  {
    var p := s.proposals[id];
    && p.status == Activated && p.change.baseVersion == k
    && p.activation.Some? && p.activation.value.version == k + 1
    && |p.reviews| == p.requiredApprovals && |p.reviews| > 0
    && p.activation.value.at >= p.reviews[|p.reviews| - 1].at + (if p.highImpact then 48 * 60 * 60 * 1000 else 24 * 60 * 60 * 1000)
  }

  lemma OriginProduced(s: State, id: int, k: nat)
    requires Inv(s) && id in s.proposals && s.proposals[id].status == Activated && s.proposals[id].change.baseVersion == k
    ensures Produced(s, id, k)
  {
    hide Grounded, Independent, Validate, Plan, Project, History;
    assert ProposalOk(s.versions, s.proposals[id]);
  }

  /** Two proposals with the same base are never both activated. */
  lemma ActivatedUnique(s: State, i: int, j: int)
    requires Inv(s) && i in s.proposals && j in s.proposals
    requires s.proposals[i].status == Activated && s.proposals[j].status == Activated
    requires s.proposals[i].change.baseVersion == s.proposals[j].change.baseVersion
    ensures i == j
  {
    hide Grounded, Independent, StatusMeans, Validate, Plan, Project, History;
    assert Published(s.versions, s.proposals[i]) && Published(s.versions, s.proposals[j]);
  }

  // ── Drift ─────────────────────────────────────────────────────────────────

  lemma LedgerOk(s: State, id: int)
    requires Inv(s) && id in s.proposals
    ensures ProposalOk(s.versions, s.proposals[id])
  {
    hide ProposalOk, History;
  }

  lemma LiveVersion(s: State)
    requires Inv(s)
    ensures Current(s).version == |s.versions|
  {
    hide Ledger, NormalFeeds, OrderedFeeds;
  }

  lemma DriftExact(s: State, id: int)
    requires Inv(s) && id in s.proposals
    ensures var p := s.proposals[id];
      && (Validate(Current(s), p.change).errors != [] <==> Current(s).version != p.change.baseVersion)
      && (Validate(Current(s), p.change).errors == [] ==>
            Plan(Current(s).feeds, Validate(Current(s), p.change).nextFeeds, p.sourceAddresses) == p.plan)
  {
    hide Inv, Validate, Plan, Published, Independent, StatusMeans, NormalChange, NormalizeChange;
    var p := s.proposals[id];
    LedgerOk(s, id);
    LiveVersion(s);
    if Validate(Current(s), p.change).errors == [] { AcceptedBase(Current(s), p.change); }
  }

  /** In every reachable state, for every proposal and so for every approved one past its timelock,
      re-validation fails exactly when the live version is not the one the proposal names. */
  lemma DriftIsVersionChange(feeds: seq<FeedPolicy>, events: seq<Event>, id: int)
    requires id in Run(Genesis(feeds), events).proposals
    ensures var s := Run(Genesis(feeds), events);
      Validate(Current(s), s.proposals[id].change).errors != [] <==>
      Current(s).version != s.proposals[id].change.baseVersion
  {
    hide Validate, Plan, Genesis, Run, Inv;
    GenesisInv(feeds);
    RunKeeps(Genesis(feeds), events);
    DriftExact(Run(Genesis(feeds), events), id);
  }

  /** An activation is never refused because its plan drifted. */
  lemma PlanNeverDrifts(feeds: seq<FeedPolicy>, events: seq<Event>, id: int, actor: string,
                        executions: seq<Execution>, r: Restrictions, now: int)
    ensures Activate(Run(Genesis(feeds), events), id, actor, executions, r, now).result != Err(PlanDrifted)
  {
    hide Genesis, Run, Validate, Plan, Trim, Trimmed, Inv, Project;
    var s := Run(Genesis(feeds), events);
    GenesisInv(feeds);
    RunKeeps(Genesis(feeds), events);
    if id in s.proposals { DriftExact(s, id); }
  }

  // ── Review ────────────────────────────────────────────────────────────────

  /** A proposal that reached approval holds exactly the required reviews, all of them approvals in
      time by distinct people other than its author, with an unblocked impact report; one still in
      review holds fewer. */
  lemma ApprovalsSound(feeds: seq<FeedPolicy>, events: seq<Event>, id: int)
    requires id in Run(Genesis(feeds), events).proposals
    ensures var p := Run(Genesis(feeds), events).proposals[id];
      && p.requiredApprovals == (if p.highImpact then 3 else 2)
      && (p.status == Approved || p.status == Activated ==>
            |p.reviews| == p.requiredApprovals && AllApprove(p.reviews) && p.impact.Some? && !p.impact.value.approvalBlocked)
      && (p.status == InReview ==> |p.reviews| < p.requiredApprovals)
      && (forall i, j :: 0 <= i < j < |p.reviews| ==> p.reviews[i].reviewer != p.reviews[j].reviewer)
      && (forall i :: 0 <= i < |p.reviews| ==>
            p.reviews[i].reviewer != p.proposer && p.reviews[i].at <= p.createdAt + 48 * 60 * 60 * 1000)
  {
    hide Genesis, Run, Grounded, Published, History;
    GenesisInv(feeds);
    RunKeeps(Genesis(feeds), events);
  }

  /** The review-limit refusal cannot happen. */
  lemma ReviewLimitUnreachable(feeds: seq<FeedPolicy>, events: seq<Event>, id: int, reviewer: string,
                               decision: Decision, attested: bool, recused: bool, now: int)
    ensures RecordReview(Run(Genesis(feeds), events), id, reviewer, decision, attested, recused, now).result
         != Err(ReviewLimitReached)
  {
    hide Genesis, Run, Trim, Trimmed, HasReviewed, ApprovalCount;
    var s := Run(Genesis(feeds), events);
    if id in s.proposals { ApprovalsSound(feeds, events, id); }
  }

  // ── Guard rails ───────────────────────────────────────────────────────────

  /** Feeds that pass every guard rail, at least one of them enabled. */
  ghost predicate Sound(feeds: seq<FeedPolicy>) {
    SomeEnabled(feeds) && forall f :: f in feeds ==> GuardRails(f)
  }

  lemma ProjectSound(current: CatalogPolicy, change: CatalogChange)
    requires forall f :: f in current.feeds ==> GuardRails(f)
    requires NormalChange(change) && Validate(current, change).errors == []
    ensures Sound(Project(current.feeds, change))
    ensures forall f :: f in change.upserts ==> GuardRails(f)
  {
    hide GuardRails, Project, Validate, SomeEnabled, Diff, Touched;
    AcceptedExactly(current, change);
    NormalChangeFixed(change);
    forall f | f in Project(current.feeds, change) ensures GuardRails(f) { ProjectMembers(current.feeds, change, f); }
  }

  lemma {:induction false} VersionSound(s: State, k: nat)
    requires Inv(s) && k < |s.versions| && Sound(s.versions[0].feeds)
    ensures Sound(s.versions[k].feeds)
  {
    hide Inv, Sound, Validate, Project, Plan, Independent, StatusMeans, NormalChange;
    if k > 0 {
      VersionSound(s, k - 1);
      var p := Origin(s, k);
      SoundRails(s.versions[k - 1].feeds);
      ProjectSound(s.versions[k - 1], p.change);
    }
  }

  lemma SoundRails(feeds: seq<FeedPolicy>)
    requires Sound(feeds)
    ensures forall f :: f in feeds ==> GuardRails(f)
  {
  }

  /** From a genesis policy that meets the guard rails with distinct assets, every version of every
      run has an enabled feed, meets the guard rails, and lists each asset once. */
  lemma EveryVersionSound(feeds: seq<FeedPolicy>, events: seq<Event>, k: nat)
    requires k < |Run(Genesis(feeds), events).versions|
    requires Sound(Genesis(feeds).versions[0].feeds) && OrderedFeeds(Genesis(feeds).versions[0].feeds)
    ensures Sound(Run(Genesis(feeds), events).versions[k].feeds)
    ensures OrderedFeeds(Run(Genesis(feeds), events).versions[k].feeds)
  {
    hide Genesis, Run, Sound, OrderedFeeds, Ledger;
    var s := Run(Genesis(feeds), events);
    GenesisInv(feeds);
    RunKeeps(Genesis(feeds), events);
    HistoryAppendOnly(Genesis(feeds), events);
    assert s.versions[0] == Genesis(feeds).versions[0];
    VersionSound(s, k);
  }

  // ── Loosening needs the high-impact lane ──────────────────────────────────

  lemma TightensTransitive(a: Catalog, b: Catalog, c: Catalog)
    requires Tightens(a, b) && Tightens(b, c)
    ensures Tightens(a, c)
  {
    hide NoLooser;
    forall k | k in a && k in c ensures NoLooser(a[k], c[k]) { NoLooserTransitive(a[k], b[k], c[k]); }
  }

  lemma TightensReflexive(a: Catalog)
    ensures Tightens(a, a)
  {
    hide NoLooser;
    forall k | k in a ensures NoLooser(a[k], a[k]) { NoLooserReflexive(a[k]); }
  }

  lemma OriginTightens(s: State, k: nat)
    requires Inv(s) && 1 <= k < |s.versions| && !Origin(s, k).highImpact
    ensures Tightens(Index(s.versions[k - 1].feeds), Index(s.versions[k].feeds))
  {
    hide Inv, Validate, Plan, Independent, StatusMeans, NormalChange, Tightens, Index, Project;
    var p := Origin(s, k);
    LowImpactExact(s.versions[k - 1], p.change);
    NextFeedsProject(s.versions[k - 1], p.change);
  }

  lemma NextFeedsProject(current: CatalogPolicy, change: CatalogChange)
    requires NormalChange(change)
    ensures Validate(current, change).nextFeeds == Project(current.feeds, change)
  {
    hide Project, Findings, Diff, RisksFindings, Errors;
    NormalChangeFixed(change);
  }

  /** Over any stretch of versions produced only by proposals outside the high-impact lane, the
      assets and their switches stay, and no bound is widened, no minimum lowered, no provider of an
      enabled feed dropped. */
  lemma {:induction false} StretchTightens(s: State, i: nat, j: nat)
    requires Inv(s) && i <= j < |s.versions|
    requires forall k :: i < k <= j ==> !Origin(s, k).highImpact
    ensures Tightens(Index(s.versions[i].feeds), Index(s.versions[j].feeds))
    decreases j
  {
    hide Inv, Tightens, Index, ProposalOk;
    if i == j {
      TightensReflexive(Index(s.versions[i].feeds));
    } else {
      StretchTightens(s, i, j - 1);
      OriginTightens(s, j);
      TightensTransitive(Index(s.versions[i].feeds), Index(s.versions[j - 1].feeds), Index(s.versions[j].feeds));
    }
  }

  /** Conversely, a version that is looser than the one before it in any respect went through three
      approvals and at least 48 hours after the last of them. */
  lemma LooseningWasReviewed(feeds: seq<FeedPolicy>, events: seq<Event>, k: nat)
    requires 1 <= k < |Run(Genesis(feeds), events).versions|
    requires var s := Run(Genesis(feeds), events);
      !Tightens(Index(s.versions[k - 1].feeds), Index(s.versions[k].feeds))
    ensures var s := Run(Genesis(feeds), events);
      exists id :: id in s.proposals && Produced(s, id, k) && |s.proposals[id].reviews| == 3
        && AllApprove(s.proposals[id].reviews)
        && s.proposals[id].activation.value.at >= s.proposals[id].reviews[2].at + 48 * 60 * 60 * 1000
  {
    hide Genesis, Run, Tightens, Index, Inv, ProposalOk;
    var s := Run(Genesis(feeds), events);
    GenesisInv(feeds);
    RunKeeps(Genesis(feeds), events);
    var p := Origin(s, k);
    if !p.highImpact { OriginTightens(s, k); }
    OriginProduced(s, p.id, k);
    ApprovalsSound(feeds, events, p.id);
  }

  // ── Currency, denomination and storage scale ──────────────────────────────

  /** Two feeds quote in the same currency, denomination and number of stored decimals. */
  ghost predicate SameQuote(f: FeedPolicy, g: FeedPolicy) {
    && f.quoteUnit.Some? && g.quoteUnit.Some?
    && f.quoteUnit.value.currency == g.quoteUnit.value.currency
    && f.quoteUnit.value.denomination == g.quoteUnit.value.denomination
    && f.quoteUnit.value.scaleDecimals == g.quoteUnit.value.scaleDecimals
  }

  lemma TightensQuote(b: seq<FeedPolicy>, a: seq<FeedPolicy>, f: FeedPolicy, g: FeedPolicy)
    requires OrderedFeeds(b) && OrderedFeeds(a) && NormalFeeds(b) && NormalFeeds(a) && Tightens(Index(b), Index(a))
    requires f in b && g in a && f.asset == g.asset
    ensures SameQuote(f, g)
  {
    hide Index, OrderedFeeds, NormalizeAsset, NormalizeSource;
    OrderedLookup(b, f);
    OrderedLookup(a, g);
    assert NormalFeed(f) && NormalFeed(g);
  }

  /** No stretch of versions outside the high-impact lane changes the currency, denomination or storage scale
      of a feed. */
  lemma StretchKeepsScale(s: State, i: nat, j: nat, f: FeedPolicy, g: FeedPolicy)
    requires Inv(s) && i < j < |s.versions| && OrderedFeeds(s.versions[i].feeds)
    requires forall k :: i < k <= j ==> !Origin(s, k).highImpact
    requires f in s.versions[i].feeds && g in s.versions[j].feeds && f.asset == g.asset
    ensures SameQuote(f, g)
  {
    hide Ledger, NormalFeeds, OrderedFeeds, SortedFeeds, Tightens, Index, SameQuote;
    StretchTightens(s, i, j);
    TightensQuote(s.versions[i].feeds, s.versions[j].feeds, f, g);
  }

  /** A version that changes one of them took three approvals and at least 48 hours after the last. */
  lemma ScaleChangeWasReviewed(feeds: seq<FeedPolicy>, events: seq<Event>, k: nat, f: FeedPolicy, g: FeedPolicy)
    requires 1 <= k < |Run(Genesis(feeds), events).versions|
    requires var s := Run(Genesis(feeds), events);
      && OrderedFeeds(s.versions[k - 1].feeds) && f in s.versions[k - 1].feeds && g in s.versions[k].feeds && f.asset == g.asset
      && !SameQuote(f, g)
    ensures var s := Run(Genesis(feeds), events);
      exists id :: id in s.proposals && Produced(s, id, k) && |s.proposals[id].reviews| == 3
        && AllApprove(s.proposals[id].reviews)
        && s.proposals[id].activation.value.at >= s.proposals[id].reviews[2].at + 48 * 60 * 60 * 1000
  {
    hide Genesis, Run, Ledger, NormalFeeds, OrderedFeeds, SortedFeeds, Tightens, Index, SameQuote, Produced;
    var s := Run(Genesis(feeds), events);
    GenesisInv(feeds);
    RunKeeps(Genesis(feeds), events);
    if Tightens(Index(s.versions[k - 1].feeds), Index(s.versions[k].feeds)) {
      TightensQuote(s.versions[k - 1].feeds, s.versions[k].feeds, f, g);
      assert false;
    }
    LooseningWasReviewed(feeds, events, k);
  }
}
