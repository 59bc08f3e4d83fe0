/** The three registries wired together: the catalog asks the emergency registry what is frozen and
    the conflict-of-interest register who is recused. */
module GovernanceSystem {
  import opened Wrappers
  import opened Text
  import opened Ordering
  import opened FeedPolicies
  import opened CatalogDiffs
  import opened CatalogValidation
  import OnChainPlans
  import C = CatalogGovernance
  import Runs = CatalogRuns
  import Rollback = CatalogRollback
  import Mirror = ContractMirror
  import Theorems = CatalogTheorems
  import E = EmergencyActions
  import EmergencyRuns
  import Effects = EmergencyEffects
  import R = CoiRegister

  datatype System = System(catalog: C.State, emergency: E.Registry, coi: R.Register)

  /** Calls on the three registries; what one registry asks of another is not part of the call. */
  datatype Event =
    | Propose(input: C.ProposalInput, now: int)
    | ProposeRollback(rollback: C.RollbackInput, now: int)
    | RecordImpact(id: int, impact: C.Impact)
    | ReviewProposal(id: int, reviewer: string, decision: C.Decision, attested: bool, now: int)
    | ActivateProposal(id: int, actor: string, executions: seq<C.Execution>, now: int)
    | SweepProposals(now: int)
    | OpenEmergency(emergency: E.OpenInput, now: int)
    | ReviewEmergency(id: int, reviewer: string, verdict: E.Decision, attested: bool, now: int)
    | RenewEmergency(id: int, actor: string, expiresAt: E.TimeArg, duration: E.TimeArg, now: int)
    | RevokeEmergency(id: int, actor: string, reason: Option<string>, now: int)
    | DiscloseEmergency(id: int, summary: string, actor: string, now: int)
    | ReadEmergencies(now: int)
    | Conflict(call: R.Call)

  // ── The wiring ────────────────────────────────────────────────────────────

  /** Assets and providers a proposal decides about. */
  function ProposalRequest(change: CatalogChange): R.RecusalRequest {
    R.RecusalRequest(
      Listing((set f | f in change.upserts :: f.asset) + Elements(change.removals)),
      Listing(set f, s | f in change.upserts && s in f.sources :: s))
  }

  function EmergencyRequest(a: E.Action): R.RecusalRequest {
    R.RecusalRequest(if E.Blank(a.asset) then [] else [a.asset.value], if E.Blank(a.source) then [] else [a.source.value])
  }

  predicate RecusedFrom(coi: R.Register, actor: string, request: R.RecusalRequest, now: int) {
    R.Recused(R.Sweep(coi, now).disclosures, actor, request)
  }

  /** Whether a review gets as far as asking the register. */
  predicate AsksRegister(s: C.State, id: int, reviewer: string, attested: bool, now: int) {
    Trim(reviewer) != "" && id in s.proposals && C.ReviewGate(s.proposals[id], Trim(reviewer), attested, now).None?
  }

  function PausedAssets(actions: map<int, E.Action>): (r: set<string>)
    ensures forall x :: x in r <==> exists id :: id in actions && E.Pauses(actions[id], x)
  {
    var ids := set id | id in actions && E.IsOpen(actions[id]) && actions[id].kind == E.PauseFeed && !E.Blank(actions[id].asset);
    var r := set id | id in ids :: actions[id].asset.value;
    assert forall x :: x in r <==> exists id :: id in actions && E.Pauses(actions[id], x) by {
      forall id, x | id in actions && E.Pauses(actions[id], x) ensures x in r { assert id in ids; }
      forall x | x in r ensures exists id :: id in actions && E.Pauses(actions[id], x) {
        var id :| id in ids && actions[id].asset.value == x;
        assert E.Pauses(actions[id], x);
      }
    }
    r
  }

  predicate Halted(actions: map<int, E.Action>) {
    exists id :: id in actions && E.Halts(actions[id])
  }

  function RestrictionsAt(emergency: E.Registry, now: int): C.Restrictions {
    var swept := E.Sweep(emergency, now).actions;
    C.Restrictions(Halted(swept), PausedAssets(swept))
  }

  /** Whether an activation gets as far as asking what is frozen. */
  predicate AsksFrozen(s: C.State, id: int, actor: string, now: int) {
    && Trim(actor) != "" && id in s.proposals && C.ActivationGate(s.proposals[id], now).None?
    && var p := s.proposals[id];
       var v := Validate(C.Current(s), p.change);
    && v.errors == []
    && OnChainPlans.Plan(C.Current(s).feeds, v.nextFeeds, p.sourceAddresses).digest == p.plan.digest
  }

  function EmergencyRecused(sys: System, id: int, reviewer: string, now: int): bool {
    id in sys.emergency.actions && RecusedFrom(sys.coi, Trim(reviewer), EmergencyRequest(sys.emergency.actions[id]), now)
  }

  /** The catalog event a system event stands for, with the answers of the other registries filled in. */
  function CatalogEvent(sys: System, e: Event): Option<Runs.Event> {
    match e
    case Propose(input, now) => Some(Runs.Create(input, now))
    case ProposeRollback(input, now) => Some(Runs.CreateRollbackOf(input, now))
    case RecordImpact(id, impact) => Some(Runs.Attach(id, impact))
    case ReviewProposal(id, reviewer, decision, attested, now) =>
      Some(Runs.SubmitReview(id, reviewer, decision, attested,
             id in sys.catalog.proposals
             && RecusedFrom(sys.coi, Trim(reviewer), ProposalRequest(sys.catalog.proposals[id].change), now), now))
    case ActivateProposal(id, actor, executions, now) =>
      Some(Runs.Execute(id, actor, executions, RestrictionsAt(sys.emergency, now), now))
    case SweepProposals(now) => Some(Runs.SweepAt(now))
    case _ => None
  }

  function EmergencyCall(sys: System, e: Event): Option<EmergencyRuns.Call> {
    match e
    case OpenEmergency(input, now) => Some(EmergencyRuns.OpenCall(input, 1, now))
    case ReviewEmergency(id, reviewer, verdict, attested, now) =>
      Some(EmergencyRuns.ReviewCall(id, reviewer, verdict, attested, EmergencyRecused(sys, id, reviewer, now), now))
    case RenewEmergency(id, actor, expiresAt, duration, now) => Some(EmergencyRuns.RenewCall(id, actor, expiresAt, duration, now))
    case RevokeEmergency(id, actor, reason, now) => Some(EmergencyRuns.RevokeCall(id, actor, reason, now))
    case DiscloseEmergency(id, summary, actor, now) => Some(EmergencyRuns.DiscloseCall(id, summary, actor, now))
    case ReadEmergencies(now) => Some(EmergencyRuns.ReadCall(now))
    case ActivateProposal(id, actor, _, now) =>
      if AsksFrozen(sys.catalog, id, actor, now) then Some(EmergencyRuns.ReadCall(now)) else None
    case _ => None
  }

  function RegisterCall(sys: System, e: Event): Option<R.Call> {
    match e
    case Conflict(call) => Some(call)
    case ReviewProposal(id, reviewer, _, attested, now) =>
      if AsksRegister(sys.catalog, id, reviewer, attested, now) then Some(R.ReadCall(now)) else None
    case ReviewEmergency(id, reviewer, verdict, attested, now) =>
      if AsksRegisterForEmergency(sys.emergency, id, reviewer, attested, now) then Some(R.ReadCall(now)) else None
    case _ => None
  }

  predicate AsksRegisterForEmergency(r: E.Registry, id: int, reviewer: string, attested: bool, now: int) {
    && Trim(reviewer) != "" && id in r.actions
    && var a := E.Sweep(r, now).actions[id];
    && a.status == E.Active && now <= a.reviewDeadlineAt && Trim(reviewer) != a.actor && attested
  }

  function Step(sys: System, e: Event): System {
    var c, m, r := CatalogEvent(sys, e), EmergencyCall(sys, e), RegisterCall(sys, e);
    System(
      if c.Some? then Runs.Step(sys.catalog, c.value) else sys.catalog,
      if m.Some? then EmergencyRuns.Next(sys.emergency, m.value) else sys.emergency,
      if r.Some? then R.Next(sys.coi, r.value) else sys.coi)
  }

  function Start(feeds: seq<FeedPolicy>): System {
    System(C.Genesis(feeds), EmergencyRuns.EMPTY, R.Register(map[], map[], 0))
  }

  function Run(sys: System, events: seq<Event>): System {
    if events == [] then sys else Step(Run(sys, events[..|events| - 1]), events[|events| - 1])
  }

  lemma {:induction false} CatalogInv(feeds: seq<FeedPolicy>, events: seq<Event>)
    ensures Runs.Inv(Run(Start(feeds), events).catalog)
  {
    hide Runs.Inv, Runs.Step, EmergencyRuns.Next, R.Next, CatalogEvent, EmergencyCall, RegisterCall;
    if events == [] {
      Runs.GenesisInv(feeds);
    } else {
      var sys, e := Run(Start(feeds), events[..|events| - 1]), events[|events| - 1];
      CatalogInv(feeds, events[..|events| - 1]);
      if CatalogEvent(sys, e).Some? { Runs.StepKeeps(sys.catalog, CatalogEvent(sys, e).value); }
    }
  }

  // ── No activation against an emergency ────────────────────────────────────

  /** The asset is added, removed or modified between the two feed lists. */
  predicate Changes(before: seq<FeedPolicy>, after: seq<FeedPolicy>, asset: string) {
    var b, a := Index(before), Index(after);
    !(asset !in b && asset !in a) && !(asset in b && asset in a && b[asset] == a[asset])
  }

  lemma InForceSurvivesSweep(a: E.Action, now: int)
    requires Effects.InForce(a, now)
    ensures E.IsOpen(E.SweepAction(a, now)) && E.SweepAction(a, now).kind == a.kind && E.SweepAction(a, now).asset == a.asset
  {
  }

  lemma RestrictionsCover(r: E.Registry, x: int, now: int)
    requires x in r.actions && Effects.InForce(r.actions[x], now)
    ensures r.actions[x].kind == E.HaltPublishing ==> RestrictionsAt(r, now).halted
    ensures r.actions[x].kind == E.PauseFeed && !E.Blank(r.actions[x].asset) ==>
      r.actions[x].asset.value in RestrictionsAt(r, now).assets
  {
    hide E.SweepAction, Effects.InForce;
    InForceSurvivesSweep(r.actions[x], now);
    var swept := E.Sweep(r, now).actions;
    if r.actions[x].kind == E.PauseFeed && !E.Blank(r.actions[x].asset) {
      assert E.Pauses(swept[x], r.actions[x].asset.value);
    }
    if r.actions[x].kind == E.HaltPublishing { assert E.Halts(swept[x]); }
  }

  lemma ChangedTouched(before: seq<FeedPolicy>, after: seq<FeedPolicy>, asset: string)
    ensures Changes(before, after, asset) <==> asset in Touched(Diff(before, after))
  {
    hide Index, Listing;
    var d := Diff(before, after);
    assert asset in Touched(d) <==> asset in d.added || asset in d.removed || asset in d.modified;
  }

  lemma AcceptedUnfrozen(s: C.State, id: int, actor: string, executions: seq<C.Execution>, r: C.Restrictions, now: int)
    requires Runs.Inv(s) && C.Activate(s, id, actor, executions, r, now).result.Ok?
    ensures var t := C.Activate(s, id, actor, executions, r, now).state;
      var d := Diff(C.Current(s).feeds, C.Current(t).feeds);
      Touched(d) != [] && !C.AnyFrozen(Touched(d), r)
  {
    hide Runs.Inv, Validate, OnChainPlans.Plan, Project, Diff, Trim, Trimmed, C.ExecutionsError, C.AnyFrozen, Touched, NormalizeChange;
    Rollback.ActivationPublishes(s, id, actor, executions, r, now);
    Mirror.AcceptedExecutions(s, id, actor, executions, r, now);
    Mirror.PlanComplete(s, id);
    var p := s.proposals[id];
    Theorems.NextFeedsProject(C.Current(s), p.change);
    AcceptedExactly(C.Current(s), p.change);
    NormalChangeFixed(p.change);
    AcceptableTouches(C.Current(s), p.change);
    ValidationDiff(C.Current(s), p.change);
  }

  lemma ValidationDiff(current: CatalogPolicy, change: CatalogChange)
    ensures Validate(current, change).diff == Diff(current.feeds, Validate(current, change).nextFeeds)
  {
    hide Diff, Project, Findings, RisksFindings, Errors, NormalizeChange;
  }

  lemma AcceptableTouches(current: CatalogPolicy, change: CatalogChange)
    requires Acceptable(current, change)
    ensures Touched(Diff(current.feeds, Project(current.feeds, change))) != []
  {
    hide Diff, Project, Touched, GuardRails;
  }

  lemma AssetNormal(before: seq<FeedPolicy>, after: seq<FeedPolicy>, asset: string)
    requires NormalFeeds(before) && NormalFeeds(after) && Changes(before, after, asset)
    ensures NormalizeAsset(asset) == asset
  {
    hide Index, NormalFeeds, NormalizeAsset;
    if asset in Index(before) { Rollback.IndexNormal(before, asset); } else { Rollback.IndexNormal(after, asset); }
  }

  lemma ActivatedShapes(s: C.State, id: int, actor: string, executions: seq<C.Execution>, r: C.Restrictions, now: int)
    requires Runs.Inv(s)
    ensures NormalFeeds(C.Current(s).feeds) && NormalFeeds(C.Current(C.Activate(s, id, actor, executions, r, now).state).feeds)
  {
    hide C.Activate, Runs.Ledger, NormalFeeds, OrderedFeeds;
    Runs.ActivateKeeps(s, id, actor, executions, r, now);
  }

  lemma FrozenTouched(touched: seq<string>, r: C.Restrictions, asset: string)
    requires asset in touched && C.IsFrozen(r, asset)
    ensures C.AnyFrozen(touched, r)
  {
    hide C.IsFrozen;
  }

  /** In every run of the system: when an activation is accepted, no halt is in force, and no pause is
      in force on any asset that the new version adds, removes or modifies. */
  lemma ActivationRespectsEmergencies(feeds: seq<FeedPolicy>, events: seq<Event>, id: int, actor: string,
                                      executions: seq<C.Execution>, now: int, x: int)
    requires var sys := Run(Start(feeds), events);
      && C.Activate(sys.catalog, id, actor, executions, RestrictionsAt(sys.emergency, now), now).result.Ok?
      && x in sys.emergency.actions && Effects.InForce(sys.emergency.actions[x], now)
    ensures var sys := Run(Start(feeds), events);
      var t := C.Activate(sys.catalog, id, actor, executions, RestrictionsAt(sys.emergency, now), now).state;
      && sys.emergency.actions[x].kind != E.HaltPublishing
      && (sys.emergency.actions[x].kind == E.PauseFeed && !E.Blank(sys.emergency.actions[x].asset) ==>
            !Changes(C.Current(sys.catalog).feeds, C.Current(t).feeds, sys.emergency.actions[x].asset.value))
  {
    hide Run, Start, Runs.Inv, C.Activate, RestrictionsAt, Effects.InForce, Diff, Touched, Changes, NormalFeeds, NormalizeAsset;
    var sys := Run(Start(feeds), events);
    var r := RestrictionsAt(sys.emergency, now);
    CatalogInv(feeds, events);
    RestrictionsCover(sys.emergency, x, now);
    AcceptedUnfrozen(sys.catalog, id, actor, executions, r, now);
    ActivatedShapes(sys.catalog, id, actor, executions, r, now);
    var before, after := C.Current(sys.catalog).feeds, C.Current(C.Activate(sys.catalog, id, actor, executions, r, now).state).feeds;
    var touched := Touched(Diff(before, after));
    assert !C.IsFrozen(r, touched[0]);
    var action := sys.emergency.actions[x];
    if action.kind == E.PauseFeed && !E.Blank(action.asset) && Changes(before, after, action.asset.value) {
      AssetNormal(before, after, action.asset.value);
      ChangedTouched(before, after, action.asset.value);
      FrozenTouched(touched, r, action.asset.value);
      assert false;
    }
  }

  // ── No review by a recused reviewer ───────────────────────────────────────

  /** Step `j` of the run is the accepted review that put `review` on proposal `id`, and at that
      moment the register held nothing against the reviewer. */
  ghost predicate CleanReview(feeds: seq<FeedPolicy>, events: seq<Event>, id: int, change: CatalogChange, review: C.Review, j: nat)
    requires j < |events|
  {
    var sys := Run(Start(feeds), events[..j]);
    && events[j].ReviewProposal? && events[j].id == id && events[j].now == review.at
    && Trim(events[j].reviewer) == review.reviewer && events[j].decision == review.decision
    && !R.Recused(sys.coi.disclosures, review.reviewer, ProposalRequest(change))
  }

  /** One event adds at most one review to a proposal, by a reviewer who is not recused. */
  lemma StepReviews(s: C.State, e: Runs.Event, id: int)
    requires Runs.Inv(s) && id in s.proposals
    ensures id in Runs.Step(s, e).proposals
    ensures Runs.Step(s, e).proposals[id].reviews != s.proposals[id].reviews ==>
      && e.SubmitReview? && e.id == id && !e.recused
      && Runs.Step(s, e).proposals[id].reviews == s.proposals[id].reviews + [C.Review(Trim(e.reviewer), e.decision, e.now)]
  {
    hide Validate, OnChainPlans.Plan, NormalizeChange, Trim, Trimmed, C.SafetyGate, C.RollbackProposal, C.FindVersion, Project;
    hide Runs.ProposalOk, Runs.History, C.ReviewGate, C.CompletionGate, C.ApprovalCount;
  }

  lemma NewProposalsUnreviewed(s: C.State, e: Runs.Event, id: int)
    requires id !in s.proposals && id in Runs.Step(s, e).proposals
    ensures Runs.Step(s, e).proposals[id].reviews == []
  {
    hide Validate, OnChainPlans.Plan, NormalizeChange, Trim, Trimmed, C.SafetyGate, C.RollbackProposal, C.FindVersion, Project;
    hide C.ReviewGate, C.CompletionGate, C.ApprovalCount;
  }

  lemma CleanExtends(feeds: seq<FeedPolicy>, events: seq<Event>, id: int, change: CatalogChange, review: C.Review, j: nat)
    requires j < |events| - 1 && CleanReview(feeds, events[..|events| - 1], id, change, review, j)
    ensures CleanReview(feeds, events, id, change, review, j)
  {
    hide Run, Start, ProposalRequest, R.Recused, Trim;
    assert events[..|events| - 1][..j] == events[..j];
  }

  lemma CleanStep(feeds: seq<FeedPolicy>, events: seq<Event>, id: int, i: nat)
    requires events != []
    requires var sys := Run(Start(feeds), events[..|events| - 1]);
      id in sys.catalog.proposals && i == |sys.catalog.proposals[id].reviews|
    requires id in Run(Start(feeds), events).catalog.proposals
    requires i < |Run(Start(feeds), events).catalog.proposals[id].reviews|
    ensures var p := Run(Start(feeds), events).catalog.proposals[id];
      CleanReview(feeds, events, id, p.change, p.reviews[i], |events| - 1)
  {
    hide Runs.Inv, Runs.Step, Run, Start, EmergencyRuns.Next, R.Next, R.Sweep, R.Recused, ProposalRequest, Trim, Trimmed, RestrictionsAt;
    var sys, e := Run(Start(feeds), events[..|events| - 1]), events[|events| - 1];
    CatalogInv(feeds, events[..|events| - 1]);
    assert Run(Start(feeds), events) == Step(sys, e) by { RunLast(Start(feeds), events); }
    var c := CatalogEvent(sys, e);
    assert c.Some?;
    StepReviews(sys.catalog, c.value, id);
    Rollback.StepKeepsChange(sys.catalog, c.value, id);
    R.SweepKeepsRecusal(sys.coi, e.now, Trim(e.reviewer), ProposalRequest(sys.catalog.proposals[id].change));
  }

  lemma RunLast(sys: System, events: seq<Event>)
    requires events != []
    ensures Run(sys, events) == Step(Run(sys, events[..|events| - 1]), events[|events| - 1])
  {
    hide Step;
  }

  /** How the reviews of a proposal grow over the last event of a run. */
  lemma ReviewGrowth(feeds: seq<FeedPolicy>, events: seq<Event>, id: int)
    requires events != [] && id in Run(Start(feeds), events).catalog.proposals
    ensures var before, after := Run(Start(feeds), events[..|events| - 1]).catalog, Run(Start(feeds), events).catalog;
      if id in before.proposals
      then && after.proposals[id].change == before.proposals[id].change
           && before.proposals[id].reviews <= after.proposals[id].reviews
           && |after.proposals[id].reviews| <= |before.proposals[id].reviews| + 1
      else after.proposals[id].reviews == []
  {
    hide Runs.Inv, Runs.Step, Run, Start, EmergencyRuns.Next, R.Next, CatalogEvent, EmergencyCall, RegisterCall;
    var sys, e := Run(Start(feeds), events[..|events| - 1]), events[|events| - 1];
    RunLast(Start(feeds), events);
    CatalogInv(feeds, events[..|events| - 1]);
    var c := CatalogEvent(sys, e);
    if c.Some? {
      if id in sys.catalog.proposals {
        StepReviews(sys.catalog, c.value, id);
        Rollback.StepKeepsChange(sys.catalog, c.value, id);
      } else {
        NewProposalsUnreviewed(sys.catalog, c.value, id);
      }
    }
  }

  /** In every run of the system, every review a proposal holds was given by someone against whom the
      register held no declaration, active or expired, for that proposal's assets and providers. */
  lemma {:induction false} ReviewersNotRecused(feeds: seq<FeedPolicy>, events: seq<Event>, id: int, i: nat)
    requires id in Run(Start(feeds), events).catalog.proposals
    requires i < |Run(Start(feeds), events).catalog.proposals[id].reviews|
    ensures var p := Run(Start(feeds), events).catalog.proposals[id];
      exists j :: 0 <= j < |events| && CleanReview(feeds, events, id, p.change, p.reviews[i], j)
  {
    hide Run, Start, CleanReview;
    if events == [] {
      NoReviewsAtStart(feeds, id);
      assert false;
    }
    var n := |events| - 1;
    var before := Run(Start(feeds), events[..n]).catalog;
    ReviewGrowth(feeds, events, id);
    if i < |before.proposals[id].reviews| {
      ReviewersNotRecused(feeds, events[..n], id, i);
      var p := before.proposals[id];
      var j :| 0 <= j < n && CleanReview(feeds, events[..n], id, p.change, p.reviews[i], j);
      CleanExtends(feeds, events, id, p.change, p.reviews[i], j);
    } else {
      CleanStep(feeds, events, id, i);
    }
  }

  lemma NoReviewsAtStart(feeds: seq<FeedPolicy>, id: int)
    ensures id !in Run(Start(feeds), []).catalog.proposals
  {
    hide Sort, NormalizeFeeds;
  }
}
