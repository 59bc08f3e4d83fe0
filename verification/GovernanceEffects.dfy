/** What the three registries promise each other over whole runs of the system, told in the events: which
    declarations bar a reviewer, and which emergency openings bar an activation. */
module GovernanceEffects {
  import opened Wrappers
  import opened Text
  import opened Ordering
  import opened FeedPolicies
  import opened GovernanceSystem
  import C = CatalogGovernance
  import E = EmergencyActions
  import EmergencyRuns
  import Emergency = EmergencyEffects
  import R = CoiRegister
  import Coi = CoiEffects

  // ── Declarations ──────────────────────────────────────────────────────────

  /** The declaration is about something the change decides: the protocol always, an asset it upserts or
      removes, or a provider of a feed it upserts, up to case and surrounding space. */
  ghost predicate ConcernsChange(input: R.DeclareInput, change: CatalogChange) {
    var name := NormalizeAsset(input.counterparty);
    || input.scope == "protocol"
    || (input.scope == "asset" &&
        (|| (exists i :: 0 <= i < |change.upserts| && NormalizeAsset(change.upserts[i].asset) == name)
         || (exists i :: 0 <= i < |change.removals| && NormalizeAsset(change.removals[i]) == name)))
    || (input.scope == "source" &&
        exists i, k :: 0 <= i < |change.upserts| && 0 <= k < |change.upserts[i].sources|
                    && NormalizeAsset(change.upserts[i].sources[k]) == name)
  }

  /** A review is asked about every asset the change upserts or removes and every provider it upserts, and
      about nothing else. */
  lemma RequestMeans(change: CatalogChange, x: string)
    ensures x in ProposalRequest(change).assets <==>
      || (exists i :: 0 <= i < |change.upserts| && change.upserts[i].asset == x)
      || (exists i :: 0 <= i < |change.removals| && change.removals[i] == x)
    ensures x in ProposalRequest(change).sources <==>
      exists i, k :: 0 <= i < |change.upserts| && 0 <= k < |change.upserts[i].sources| && change.upserts[i].sources[k] == x
  {
    hide Listing;
    var sources := set f, s | f in change.upserts && s in f.sources :: s;
    assert x in ProposalRequest(change).sources <==> x in sources;
    if x in sources {
      var f :| f in change.upserts && x in f.sources;
      var i, k :| 0 <= i < |change.upserts| && change.upserts[i] == f && 0 <= k < |f.sources| && f.sources[k] == x;
    }
    if i, k :| 0 <= i < |change.upserts| && 0 <= k < |change.upserts[i].sources| && change.upserts[i].sources[k] == x {
      var f := change.upserts[i];
      assert f in change.upserts && x in f.sources;
    }
  }

  lemma ConcernsMeans(input: R.DeclareInput, change: CatalogChange)
    ensures Coi.Concerns(input, ProposalRequest(change)) <==> ConcernsChange(input, change)
  {
    hide ProposalRequest, NormalizeAsset;
    var request, name := ProposalRequest(change), NormalizeAsset(input.counterparty);
    AssetConcerns(change, request, name);
    SourceConcerns(change, request, name);
  }

  lemma AssetConcerns(change: CatalogChange, request: R.RecusalRequest, name: string)
    requires request == ProposalRequest(change)
    ensures (exists i :: 0 <= i < |request.assets| && NormalizeAsset(request.assets[i]) == name) <==>
      || (exists i :: 0 <= i < |change.upserts| && NormalizeAsset(change.upserts[i].asset) == name)
      || (exists i :: 0 <= i < |change.removals| && NormalizeAsset(change.removals[i]) == name)
  {
    hide ProposalRequest, NormalizeAsset;
    if i :| 0 <= i < |request.assets| && NormalizeAsset(request.assets[i]) == name { RequestMeans(change, request.assets[i]); }
    if i :| 0 <= i < |change.upserts| && NormalizeAsset(change.upserts[i].asset) == name { RequestMeans(change, change.upserts[i].asset); }
    if i :| 0 <= i < |change.removals| && NormalizeAsset(change.removals[i]) == name { RequestMeans(change, change.removals[i]); }
  }

  lemma SourceConcerns(change: CatalogChange, request: R.RecusalRequest, name: string)
    requires request == ProposalRequest(change)
    ensures (exists i :: 0 <= i < |request.sources| && NormalizeAsset(request.sources[i]) == name) <==>
      exists i, k :: 0 <= i < |change.upserts| && 0 <= k < |change.upserts[i].sources|
                  && NormalizeAsset(change.upserts[i].sources[k]) == name
  {
    hide ProposalRequest, NormalizeAsset;
    if i :| 0 <= i < |request.sources| && NormalizeAsset(request.sources[i]) == name { RequestMeans(change, request.sources[i]); }
    if i, k :| 0 <= i < |change.upserts| && 0 <= k < |change.upserts[i].sources| && NormalizeAsset(change.upserts[i].sources[k]) == name {
      RequestMeans(change, change.upserts[i].sources[k]);
    }
  }

  /** Event `i` of the run is an accepted declaration that answers with number `id`. */
  ghost predicate DeclaredAt(feeds: seq<FeedPolicy>, events: seq<Event>, i: int, id: int) {
    && 0 <= i < |events| && events[i].Conflict? && events[i].call.DeclareCall?
    && var answer := R.Declare(Run(Start(feeds), events[..i]).coi, events[i].call.input, events[i].call.now).result;
       answer.Ok? && answer.value.id == id
  }

  /** Event `i` of the run is an accepted withdrawal of declaration `id`. */
  ghost predicate WithdrawnAt(feeds: seq<FeedPolicy>, events: seq<Event>, i: int, id: int) {
    && 0 <= i < |events| && events[i].Conflict? && events[i].call.WithdrawCall? && events[i].call.id == id
    && R.Withdraw(Run(Start(feeds), events[..i]).coi, id, events[i].call.actor, events[i].call.now).result.Ok?
  }

  lemma LastStep(feeds: seq<FeedPolicy>, events: seq<Event>, id: int)
    requires events != []
    ensures var n := |events| - 1;
      && (forall i :: i != n ==> (DeclaredAt(feeds, events, i, id) <==> DeclaredAt(feeds, events[..n], i, id)))
      && (forall i :: i != n ==> (WithdrawnAt(feeds, events, i, id) <==> WithdrawnAt(feeds, events[..n], i, id)))
      && !DeclaredAt(feeds, events[..n], n, id) && !WithdrawnAt(feeds, events[..n], n, id)
  {
    hide Run, R.Declare, R.Withdraw;
    var n := |events| - 1;
    forall i: nat | i < n ensures events[..n][..i] == events[..i] && events[..n][i] == events[i] { }
  }

  /** The register takes a declaration or a withdrawal from the event that carries it, and from no other. */
  lemma RegisterStep(sys: System, e: Event) returns (c: R.Call)
    ensures e.Conflict? ==> c == e.call
    ensures !e.Conflict? ==> c.ReadCall?
    ensures Step(sys, e).coi == R.Next(sys.coi, c) || (!e.Conflict? && Step(sys, e).coi == sys.coi)
  {
    hide C.Genesis, EmergencyRuns.Next, R.Next, CatalogEvent, EmergencyCall, AsksRegister, AsksRegisterForEmergency;
    var asked := RegisterCall(sys, e);
    c := if asked.Some? then asked.value else R.ReadCall(0);
  }

  ghost predicate StemsFrom(events: seq<Event>, i: int, d: R.Disclosure) {
    0 <= i < |events| && events[i].Conflict? && events[i].call.DeclareCall? && Coi.Stems(d, events[i].call.input)
  }

  /** What a run has made of declaration `id`. */
  ghost predicate History(feeds: seq<FeedPolicy>, events: seq<Event>, id: int) {
    var s := Run(Start(feeds), events).coi;
    && R.Numbered(s)
    && if id in s.disclosures then
         && (exists i :: DeclaredAt(feeds, events, i, id))
         && (forall i :: DeclaredAt(feeds, events, i, id) ==> StemsFrom(events, i, s.disclosures[id]))
         && (s.disclosures[id].status == R.Withdrawn <==> exists j :: WithdrawnAt(feeds, events, j, id))
       else forall i :: !DeclaredAt(feeds, events, i, id) && !WithdrawnAt(feeds, events, i, id)
  }

  lemma OldStep(feeds: seq<FeedPolicy>, events: seq<Event>, id: int)
    requires events != [] && History(feeds, events[..|events| - 1], id)
    requires id in Run(Start(feeds), events[..|events| - 1]).coi.disclosures
    ensures History(feeds, events, id)
  {
    hide Run, Step, Start, R.Next, R.Declare, R.Withdraw, R.Numbered, Coi.Stems;
    var n := |events| - 1;
    var sys, e := Run(Start(feeds), events[..n]), events[n];
    RunLast(Start(feeds), events);
    LastStep(feeds, events, id);
    var c := RegisterStep(sys, e);
    Coi.CallOn(sys.coi, c, id);
    assert !DeclaredAt(feeds, events, n, id);
    var i :| DeclaredAt(feeds, events[..n], i, id);
    assert DeclaredAt(feeds, events, i, id);
    forall i | DeclaredAt(feeds, events, i, id) ensures StemsFrom(events, i, Run(Start(feeds), events).coi.disclosures[id]) {
      assert StemsFrom(events[..n], i, sys.coi.disclosures[id]);
      Coi.StemsKept(sys.coi.disclosures[id], Run(Start(feeds), events).coi.disclosures[id], events[i].call.input);
    }
    if j :| WithdrawnAt(feeds, events[..n], j, id) { assert WithdrawnAt(feeds, events, j, id); }
    assert WithdrawnAt(feeds, events, n, id) <==>
      e.Conflict? && e.call.WithdrawCall? && e.call.id == id && R.Withdraw(sys.coi, id, e.call.actor, e.call.now).result.Ok?;
  }

  lemma NewStep(feeds: seq<FeedPolicy>, events: seq<Event>, id: int)
    requires events != [] && History(feeds, events[..|events| - 1], id)
    requires id !in Run(Start(feeds), events[..|events| - 1]).coi.disclosures
    ensures History(feeds, events, id)
  {
    hide Run, Step, Start, R.Next, R.Declare, R.Withdraw, R.Numbered, Trim;
    var n := |events| - 1;
    var sys, e := Run(Start(feeds), events[..n]), events[n];
    RunLast(Start(feeds), events);
    LastStep(feeds, events, id);
    var c := RegisterStep(sys, e);
    Coi.CallBrings(sys.coi, c, id);
    if id in Run(Start(feeds), events).coi.disclosures { assert DeclaredAt(feeds, events, n, id); }
  }

  lemma {:induction false} RunHistory(feeds: seq<FeedPolicy>, events: seq<Event>, id: int)
    ensures History(feeds, events, id)
  {
    hide History, Run;
    if events == [] {
      EmptyHistory(feeds, id);
    } else {
      var n := |events| - 1;
      RunHistory(feeds, events[..n], id);
      if id in Run(Start(feeds), events[..n]).coi.disclosures { OldStep(feeds, events, id); } else { NewStep(feeds, events, id); }
    }
  }

  lemma EmptyHistory(feeds: seq<FeedPolicy>, id: int)
    ensures History(feeds, [], id)
  {
    hide C.Genesis;
  }

  /** Event `i` declared a conflict as this actor, and no event has withdrawn it. */
  ghost predicate StandsFor(feeds: seq<FeedPolicy>, events: seq<Event>, i: int, actor: string) {
    && 0 <= i < |events| && events[i].Conflict? && events[i].call.DeclareCall? && Trim(events[i].call.input.actor) == actor
    && var answer := R.Declare(Run(Start(feeds), events[..i]).coi, events[i].call.input, events[i].call.now).result;
       answer.Ok? && forall j :: !WithdrawnAt(feeds, events, j, answer.value.id)
  }

  lemma DeclarationBars(feeds: seq<FeedPolicy>, events: seq<Event>, i: int, id: int, actor: string, request: R.RecusalRequest)
    requires DeclaredAt(feeds, events, i, id)
    ensures id in Run(Start(feeds), events).coi.disclosures
    ensures R.Recuses(Run(Start(feeds), events).coi.disclosures[id], actor, request) <==>
      StandsFor(feeds, events, i, actor) && Coi.Concerns(events[i].call.input, request)
  {
    hide Run, Start, R.Recuses, Coi.Concerns, WithdrawnAt, Trim, Coi.Stems, R.Declare;
    RunHistory(feeds, events, id);
    Coi.RecusesMeans(Run(Start(feeds), events).coi.disclosures[id], events[i].call.input, actor, request);
  }

  lemma RecusedExactly(feeds: seq<FeedPolicy>, events: seq<Event>, actor: string, request: R.RecusalRequest, now: int)
    ensures RecusedFrom(Run(Start(feeds), events).coi, actor, request, now) <==>
      exists i :: StandsFor(feeds, events, i, actor) && Coi.Concerns(events[i].call.input, request)
  {
    hide Run, Start, R.Recuses, Coi.Concerns, WithdrawnAt, Trim, R.Declare, R.Sweep;
    var s := Run(Start(feeds), events).coi;
    R.SweepKeepsRecusal(s, now, actor, request);
    if id :| id in s.disclosures && R.Recuses(s.disclosures[id], actor, request) {
      var i := Declaring(feeds, events, id);
      DeclarationBars(feeds, events, i, id, actor, request);
    }
    if i :| StandsFor(feeds, events, i, actor) && Coi.Concerns(events[i].call.input, request) {
      var id := R.Declare(Run(Start(feeds), events[..i]).coi, events[i].call.input, events[i].call.now).result.value.id;
      DeclarationBars(feeds, events, i, id, actor, request);
    }
  }

  /** Event `i` declared, as this actor, a conflict that concerns the change, and no event has withdrawn it. */
  ghost predicate BarsReviewer(feeds: seq<FeedPolicy>, events: seq<Event>, i: int, actor: string, change: CatalogChange) {
    StandsFor(feeds, events, i, actor) && ConcernsChange(events[i].call.input, change)
  }

  /** In every run of the system and at any time, someone is recused from reviewing a change exactly when
      they declared a conflict that concerns it and have not withdrawn it. */
  lemma ReviewerRecusedExactly(feeds: seq<FeedPolicy>, events: seq<Event>, actor: string, change: CatalogChange, now: int)
    ensures RecusedFrom(Run(Start(feeds), events).coi, actor, ProposalRequest(change), now) <==>
      exists i :: BarsReviewer(feeds, events, i, actor, change)
  {
    hide RecusedFrom, Run, Start, Coi.Concerns, ConcernsChange, WithdrawnAt, Trim, R.Declare, ProposalRequest;
    RecusedExactly(feeds, events, actor, ProposalRequest(change), now);
    forall i | StandsFor(feeds, events, i, actor)
      ensures Coi.Concerns(events[i].call.input, ProposalRequest(change)) <==> ConcernsChange(events[i].call.input, change)
    {
      ConcernsMeans(events[i].call.input, change);
    }
    if i :| StandsFor(feeds, events, i, actor) && Coi.Concerns(events[i].call.input, ProposalRequest(change)) {
      assert BarsReviewer(feeds, events, i, actor, change);
    }
  }

  /** The declaration is about what the emergency action restricts. */
  ghost predicate ConcernsAction(input: R.DeclareInput, a: E.Action) {
    var name := NormalizeAsset(input.counterparty);
    || input.scope == "protocol"
    || (input.scope == "asset" && a.asset.Some? && a.asset.value != "" && NormalizeAsset(a.asset.value) == name)
    || (input.scope == "source" && a.source.Some? && a.source.value != "" && NormalizeAsset(a.source.value) == name)
  }

  lemma ConcernsActionMeans(input: R.DeclareInput, a: E.Action)
    ensures Coi.Concerns(input, EmergencyRequest(a)) <==> ConcernsAction(input, a)
  {
    hide NormalizeAsset;
    var request := EmergencyRequest(a);
    if a.asset.Some? && a.asset.value != "" { assert request.assets[0] == a.asset.value; }
    if a.source.Some? && a.source.value != "" { assert request.sources[0] == a.source.value; }
  }

  /** The same for the review of an emergency action: it is refused to those who declared a conflict with
      what the action restricts, and to nobody else. */
  lemma EmergencyReviewerRecusedExactly(feeds: seq<FeedPolicy>, events: seq<Event>, id: int, reviewer: string, now: int)
    ensures var sys := Run(Start(feeds), events);
      EmergencyRecused(sys, id, reviewer, now) <==>
        id in sys.emergency.actions
        && exists i :: StandsFor(feeds, events, i, Trim(reviewer)) && ConcernsAction(events[i].call.input, sys.emergency.actions[id])
  {
    hide RecusedFrom, Run, Start, Coi.Concerns, ConcernsAction, WithdrawnAt, Trim, R.Declare, EmergencyRequest;
    var sys := Run(Start(feeds), events);
    if id in sys.emergency.actions {
      var a := sys.emergency.actions[id];
      RecusedExactly(feeds, events, Trim(reviewer), EmergencyRequest(a), now);
      forall i | StandsFor(feeds, events, i, Trim(reviewer))
        ensures Coi.Concerns(events[i].call.input, EmergencyRequest(a)) <==> ConcernsAction(events[i].call.input, a)
      {
        ConcernsActionMeans(events[i].call.input, a);
      }
    }
  }

  lemma Declaring(feeds: seq<FeedPolicy>, events: seq<Event>, id: int) returns (i: int)
    requires id in Run(Start(feeds), events).coi.disclosures
    ensures DeclaredAt(feeds, events, i, id)
  {
    hide Run, Start, DeclaredAt, WithdrawnAt, StemsFrom, R.Numbered;
    RunHistory(feeds, events, id);
    i :| DeclaredAt(feeds, events, i, id);
  }

  /** Event `j` of the run put this review on proposal `id`, and until then no standing declaration of the
      reviewer concerned the change. */
  ghost predicate Unconflicted(feeds: seq<FeedPolicy>, events: seq<Event>, id: int, change: CatalogChange, review: C.Review, j: int) {
    && 0 <= j < |events| && events[j].ReviewProposal? && events[j].id == id && events[j].now == review.at
    && Trim(events[j].reviewer) == review.reviewer && events[j].decision == review.decision
    && forall i :: !BarsReviewer(feeds, events[..j], i, review.reviewer, change)
  }

  /** In every run of the system, every review a proposal holds was given while no standing declaration of
      its author named an asset the change upserts or removes, a provider it upserts, or the protocol. */
  lemma ReviewsUnconflicted(feeds: seq<FeedPolicy>, events: seq<Event>, id: int, i: nat)
    requires id in Run(Start(feeds), events).catalog.proposals
    requires i < |Run(Start(feeds), events).catalog.proposals[id].reviews|
    ensures var p := Run(Start(feeds), events).catalog.proposals[id];
      exists j :: Unconflicted(feeds, events, id, p.change, p.reviews[i], j)
  {
    hide Run, Start, R.Recused, BarsReviewer, Trim, R.Sweep, ProposalRequest;
    ReviewersNotRecused(feeds, events, id, i);
    var p := Run(Start(feeds), events).catalog.proposals[id];
    var j :| 0 <= j < |events| && CleanReview(feeds, events, id, p.change, p.reviews[i], j);
    ReviewerRecusedExactly(feeds, events[..j], p.reviews[i].reviewer, p.change, p.reviews[i].at);
    R.SweepKeepsRecusal(Run(Start(feeds), events[..j]).coi, p.reviews[i].at, p.reviews[i].reviewer, ProposalRequest(p.change));
    assert Unconflicted(feeds, events, id, p.change, p.reviews[i], j);
  }

  // ── Emergencies ───────────────────────────────────────────────────────────

  /** What an activation is told to be frozen is what the emergency registry answers for that asset. */
  lemma FrozenAgree(r: E.Registry, asset: string, t: int)
    ensures C.IsFrozen(RestrictionsAt(r, t), asset) <==> E.AssetFrozen(r.actions, asset, t)
  {
    hide E.SweepAction, E.StopsAsset, E.Halts, E.Pauses, NormalizeAsset;
    var x, swept := NormalizeAsset(asset), E.Sweep(r, t).actions;
    forall id | id in r.actions ensures E.StopsAsset(r.actions[id], x, t) <==> E.Halts(swept[id]) || E.Pauses(swept[id], x) {
      E.SweptStops(r.actions[id], x, t);
    }
  }

  /** The event is an accepted revocation, or an accepted overturning review, of action `id`. */
  ghost predicate Lifts(sys: System, e: Event, id: int) {
    || (e.RevokeEmergency? && e.id == id && E.RevokeAction(sys.emergency, id, e.actor, e.reason, e.now).result.Ok?)
    || (e.ReviewEmergency? && e.id == id && e.verdict == E.Overturn
        && E.ReviewAction(sys.emergency, id, e.reviewer, e.verdict, e.attested, EmergencyRecused(sys, id, e.reviewer, e.now), e.now).result.Ok?)
  }

  /** The time of an event that may reach the emergency registry. */
  ghost predicate NotAfter(e: Event, t: int) {
    match e
    case OpenEmergency(_, now) => now <= t
    case ReviewEmergency(_, _, _, _, now) => now <= t
    case RenewEmergency(_, _, _, _, now) => now <= t
    case RevokeEmergency(_, _, _, now) => now <= t
    case DiscloseEmergency(_, _, _, now) => now <= t
    case ReadEmergencies(now) => now <= t
    case ActivateProposal(_, _, _, now) => now <= t
    case _ => true
  }

  lemma {:induction false} EmergencyInv(feeds: seq<FeedPolicy>, events: seq<Event>)
    ensures EmergencyRuns.Inv(Run(Start(feeds), events).emergency)
  {
    hide EmergencyRuns.Inv, C.Genesis, EmergencyRuns.Next, R.Next, CatalogEvent, EmergencyCall, RegisterCall, Run;
    if events == [] {
      EmergencyRuns.EmptyInv();
      assert Run(Start(feeds), events) == Start(feeds) by { RunNone(Start(feeds)); }
    } else {
      var n := |events| - 1;
      var sys, e := Run(Start(feeds), events[..n]), events[n];
      EmergencyInv(feeds, events[..n]);
      RunLast(Start(feeds), events);
      if EmergencyCall(sys, e).Some? { EmergencyRuns.NextKeeps(sys.emergency, EmergencyCall(sys, e).value); }
    }
  }

  lemma RunNone(sys: System)
    ensures Run(sys, []) == sys
  {
  }

  /** What one event does to an action that exists. */
  lemma StepEvolves(sys: System, e: Event, id: int, t: int)
    requires EmergencyRuns.Inv(sys.emergency) && id in sys.emergency.actions && NotAfter(e, t)
    ensures id in Step(sys, e).emergency.actions
    ensures var a, b := sys.emergency.actions[id], Step(sys, e).emergency.actions[id];
      && b.kind == a.kind && b.asset == a.asset && b.source == a.source && a.expiresAt <= b.expiresAt
      && (E.IsOpen(a) && t < a.expiresAt && !Lifts(sys, e, id) ==> E.IsOpen(b))
      && (Lifts(sys, e, id) || a.status == E.Revoked ==> b.status == E.Revoked)
  {
    hide C.Genesis, EmergencyRuns.Inv, EmergencyRuns.Next, R.Next, CatalogEvent, RegisterCall, AsksFrozen, EmergencyRecused;
    hide E.RevokeAction, E.ReviewAction, E.Open, E.RenewAction, E.PublishDisclosure, E.Sweep;
    var c := EmergencyCall(sys, e);
    if c.Some? {
      assert c.value.now <= t;
      Emergency.CallEvolves(sys.emergency, c.value, id);
      assert Lifts(sys, e, id) <==> Emergency.Lifts(sys.emergency, c.value, id);
    }
  }

  /** The action opened by `input` is still in force at `t`. */
  ghost predicate Holds(a: E.Action, input: E.OpenInput, t: int) {
    Emergency.Named(a, input) && (a.status == E.Active || a.status == E.Reviewed) && t < a.expiresAt
  }

  lemma NamedKept(a: E.Action, b: E.Action, input: E.OpenInput)
    requires Emergency.Named(a, input) && b.kind == a.kind && b.asset == a.asset && b.source == a.source
    ensures Emergency.Named(b, input)
  {
    hide NormalizeAsset, NormalizeSource;
  }

  lemma OpenStep(sys: System, e: Event)
    requires e.OpenEmergency? && E.Open(sys.emergency, e.emergency, 1, e.now).result.Ok?
    ensures var a := E.Open(sys.emergency, e.emergency, 1, e.now).result.value;
      && a.id in Step(sys, e).emergency.actions && Step(sys, e).emergency.actions[a.id] == a
      && forall t :: t < a.expiresAt ==> Holds(a, e.emergency, t)
  {
    hide E.Open, C.Genesis, R.Next, RegisterCall, E.Sweep, Emergency.Named, Emergency.AsksFor, Trim;
    Emergency.OpenMeans(sys.emergency, e.emergency, 1, e.now);
  }

  /** An accepted opening at event `k` holds at `t`, before the end it was answered with, if nothing has
      lifted it since and no event came after `t`. */
  lemma {:induction false} OpeningHolds(feeds: seq<FeedPolicy>, events: seq<Event>, k: nat, t: int)
    requires k < |events| && events[k].OpenEmergency?
    requires var answer := E.Open(Run(Start(feeds), events[..k]).emergency, events[k].emergency, 1, events[k].now).result;
      && answer.Ok? && t < answer.value.expiresAt
      && forall l :: k < l < |events| ==> NotAfter(events[l], t) && !Lifts(Run(Start(feeds), events[..l]), events[l], answer.value.id)
    ensures var id := E.Open(Run(Start(feeds), events[..k]).emergency, events[k].emergency, 1, events[k].now).result.value.id;
      id in Run(Start(feeds), events).emergency.actions && Holds(Run(Start(feeds), events).emergency.actions[id], events[k].emergency, t)
  {
    hide Run, Start, Step, Lifts, E.Open, NotAfter, Emergency.Named;
    var n := |events| - 1;
    var sys, e := Run(Start(feeds), events[..n]), events[n];
    RunLast(Start(feeds), events);
    if n == k {
      OpenStep(sys, e);
    } else {
      var before := events[..n];
      assert before[..k] == events[..k] && before[k] == events[k];
      forall l | k < l < n ensures before[..l] == events[..l] && before[l] == events[l] { }
      OpeningHolds(feeds, before, k, t);
      EmergencyInv(feeds, before);
      var id := E.Open(Run(Start(feeds), events[..k]).emergency, events[k].emergency, 1, events[k].now).result.value.id;
      StepEvolves(sys, e, id, t);
      NamedKept(sys.emergency.actions[id], Run(Start(feeds), events).emergency.actions[id], events[k].emergency);
    }
  }

  /** In every run of the system: once an emergency was opened with "halt-publishing", no activation is
      accepted before the end it was answered with, and once opened with "pause-feed", none that adds,
      removes or modifies the asset it named, unless the emergency was revoked or overturned first. */
  lemma OpeningStopsActivation(feeds: seq<FeedPolicy>, events: seq<Event>, k: nat, id: int, actor: string, executions: seq<C.Execution>, t: int)
    requires k < |events| && events[k].OpenEmergency?
    requires var answer := E.Open(Run(Start(feeds), events[..k]).emergency, events[k].emergency, 1, events[k].now).result;
      && answer.Ok? && t < answer.value.expiresAt
      && forall l :: k < l < |events| ==> NotAfter(events[l], t) && !Lifts(Run(Start(feeds), events[..l]), events[l], answer.value.id)
    requires var sys := Run(Start(feeds), events);
      C.Activate(sys.catalog, id, actor, executions, RestrictionsAt(sys.emergency, t), t).result.Ok?
    ensures events[k].emergency.kind != "halt-publishing"
    ensures var sys := Run(Start(feeds), events);
      var after := C.Activate(sys.catalog, id, actor, executions, RestrictionsAt(sys.emergency, t), t).state;
      events[k].emergency.kind == "pause-feed" ==>
        && events[k].emergency.asset.Some?
        && !Changes(C.Current(sys.catalog).feeds, C.Current(after).feeds, NormalizeAsset(events[k].emergency.asset.value))
  {
    hide Run, Start, Lifts, E.Open, NotAfter, Changes, C.Activate, RestrictionsAt, NormalizeAsset, NormalizeSource, Trim;
    var input := events[k].emergency;
    var sys := Run(Start(feeds), events);
    var answer := E.Open(Run(Start(feeds), events[..k]).emergency, input, 1, events[k].now).result;
    OpeningHolds(feeds, events, k, t);
    ActivationRespectsEmergencies(feeds, events, id, actor, executions, t, answer.value.id);
    ScopeGiven(Run(Start(feeds), events[..k]).emergency, input, events[k].now);
  }

  lemma ScopeGiven(r: E.Registry, input: E.OpenInput, now: int)
    requires E.Open(r, input, 1, now).result.Ok?
    ensures input.kind == "pause-feed" ==> input.asset.Some? && NormalizeAsset(input.asset.value) != ""
  {
    hide E.Open, Trim, NormalizeAsset, NormalizeSource, Emergency.AsksFor, Emergency.Named, Emergency.InForce;
    Emergency.OpenAcceptedExactly(r, input, 1, now);
  }

  /** Once an event has lifted an action, no event of any continuation puts it in force again. */
  lemma {:induction false} LiftedForGood(feeds: seq<FeedPolicy>, events: seq<Event>, k: nat, id: int)
    requires k < |events| && id in Run(Start(feeds), events[..k]).emergency.actions && Lifts(Run(Start(feeds), events[..k]), events[k], id)
    ensures id in Run(Start(feeds), events).emergency.actions && Run(Start(feeds), events).emergency.actions[id].status == E.Revoked
  {
    hide Run, Start, Step, Lifts;
    var n := |events| - 1;
    var sys, e := Run(Start(feeds), events[..n]), events[n];
    RunLast(Start(feeds), events);
    EmergencyInv(feeds, events[..n]);
    if n != k {
      assert events[..n][..k] == events[..k] && events[..n][k] == events[k];
      LiftedForGood(feeds, events[..n], k, id);
    }
    var t := TimeOf(e);
    StepEvolves(sys, e, id, t);
  }

  lemma TimeOf(e: Event) returns (t: int)
    ensures NotAfter(e, t)
  {
    t := match e
      case OpenEmergency(_, now) => now
      case ReviewEmergency(_, _, _, _, now) => now
      case RenewEmergency(_, _, _, _, now) => now
      case RevokeEmergency(_, _, _, now) => now
      case DiscloseEmergency(_, _, _, now) => now
      case ReadEmergencies(now) => now
      case ActivateProposal(_, _, _, now) => now
      case _ => 0;
  }
}
