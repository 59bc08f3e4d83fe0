/** What each emergency call does to the registry, in the fields of its input, and what a run of calls
    restricts: an asset or a provider is frozen exactly because of an action opened for it. */
module EmergencyEffects {
  import opened Wrappers
  import opened Text
  import opened EmergencyActions
  import opened EmergencyRuns

  // ── sweep ─────────────────────────────────────────────────────────────────

  /** What a sweep at `now` leaves of an action. */
  ghost predicate Swept(a: Action, b: Action, now: int) {
    var ended := (a.status == Active || a.status == Reviewed) && a.expiresAt <= now;
    && b.id == a.id && b.kind == a.kind && b.asset == a.asset && b.source == a.source && b.reason == a.reason
    && b.actor == a.actor && b.createdAt == a.createdAt && b.expiresAt == a.expiresAt
    && b.reviewDeadlineAt == a.reviewDeadlineAt && b.reviewer == a.reviewer && b.reviewedAt == a.reviewedAt
    && b.reviewDecision == a.reviewDecision && b.renewals == a.renewals
    && b.policyVersionAtCreation == a.policyVersionAtCreation && b.revocation == a.revocation
    && b.status == (if !ended then a.status else if a.status == Reviewed then Expired else ExpiredUnreviewed)
    && b.reviewOverdue == (a.reviewOverdue || (a.reviewedAt == None && b.status == ExpiredUnreviewed))
    && b.disclosure.publishedAt == a.disclosure.publishedAt && b.disclosure.publishedBy == a.disclosure.publishedBy
    && b.disclosure.summary == a.disclosure.summary
    && b.disclosure.overdue == (a.disclosure.overdue || (a.disclosure.publishedAt == None && a.expiresAt + 24 * 60 * 60 * 1000 <= now))
  }

  /** All actions but `except` are as a sweep leaves them. */
  ghost predicate OthersSwept(r: Registry, s: Registry, now: int, except: int) {
    && s.actions.Keys - {except} == r.actions.Keys - {except}
    && forall id :: id in r.actions && id != except ==> id in s.actions && Swept(r.actions[id], s.actions[id], now)
  }

  lemma SweepMeans(r: Registry, now: int)
    ensures var s := Sweep(r, now);
      && s.count == r.count && s.actions.Keys == r.actions.Keys
      && forall id :: id in r.actions ==> Swept(r.actions[id], s.actions[id], now)
  {
    hide Swept, SweepAction;
    forall id | id in r.actions ensures Swept(r.actions[id], SweepAction(r.actions[id], now), now) {
      SweepActionMeans(r.actions[id], now);
    }
  }

  lemma SweepActionMeans(a: Action, now: int)
    ensures Swept(a, SweepAction(a, now), now)
  {
  }

  // ── open ──────────────────────────────────────────────────────────────────

  /** The name a caller gives to a kind of action. */
  function KindName(kind: Kind): string {
    match kind
    case PauseFeed => "pause-feed"
    case FreezeSource => "freeze-source"
    case HaltPublishing => "halt-publishing"
  }

  /** The end a caller asks for: the given time, else the given duration from now. */
  ghost predicate AsksFor(expiresAt: TimeArg, duration: TimeArg, now: int, at: int) {
    expiresAt == Ms(at) || (expiresAt == Absent && duration == Ms(at - now))
  }

  ghost predicate Given(s: Option<string>, normalize: string -> string) { s.Some? && normalize(s.value) != "" }

  ghost predicate Keeps(s: Option<string>, normalize: string -> string, stored: Option<string>) {
    stored.Some? == s.Some? && (s.Some? ==> stored.value == normalize(s.value))
  }

  /** The action has the kind, asset and source that the input names. */
  ghost predicate Named(a: Action, input: OpenInput) {
    input.kind == KindName(a.kind) && Keeps(input.asset, NormalizeAsset, a.asset) && Keeps(input.source, NormalizeSource, a.source)
  }

  /** The input is named, reasoned, restrictive, bounded and scoped as the rules ask. */
  ghost predicate Proper(input: OpenInput, now: int) {
    && Trim(input.actor) != ""
    && input.kind in {"pause-feed", "freeze-source", "halt-publishing"}
    && 0 < |Trim(input.reason)| <= 500
    && (exists at :: AsksFor(input.expiresAt, input.duration, now, at) && now < at <= now + 72 * 60 * 60 * 1000)
    && (input.kind == "pause-feed" ==> Given(input.asset, NormalizeAsset))
    && (input.kind == "freeze-source" ==> Given(input.source, NormalizeSource))
    && (input.kind == "halt-publishing" ==> !Given(input.asset, NormalizeAsset) && !Given(input.source, NormalizeSource))
  }

  /** The action is open and has not run out. */
  ghost predicate InForce(a: Action, t: int) {
    (a.status == Active || a.status == Reviewed) && t < a.expiresAt
  }

  lemma GateMeans(input: OpenInput, now: int)
    ensures OpenGate(input, now).Ok? <==> Proper(input, now)
    ensures OpenGate(input, now).Ok? ==>
      AsksFor(input.expiresAt, input.duration, now, OpenGate(input, now).value) && now < OpenGate(input, now).value <= now + 72 * 60 * 60 * 1000
  {
    hide Trim, Trimmed, NormalizeAsset, NormalizeSource, ResolveExpiry;
    ExpiryMeans(now, input.expiresAt, input.duration);
  }

  lemma ExpiryMeans(now: int, expiresAt: TimeArg, duration: TimeArg)
    ensures var e := ResolveExpiry(now, expiresAt, duration, None);
      && (e.Ok? <==> exists at :: AsksFor(expiresAt, duration, now, at) && now < at <= now + 72 * 60 * 60 * 1000)
      && (e.Ok? ==> AsksFor(expiresAt, duration, now, e.value) && now < e.value <= now + 72 * 60 * 60 * 1000)
  {
    var given := if expiresAt != Absent then expiresAt else match duration case Ms(d) => Ms(now + d) case _ => duration;
    if given.Ms? { assert AsksFor(expiresAt, duration, now, given.ms); }
    forall at | AsksFor(expiresAt, duration, now, at) ensures given == Ms(at) { }
  }

  lemma CoveredMeans(r: Registry, input: OpenInput, now: int)
    requires ParseKind(input.kind).Some?
    ensures Covered(Sweep(r, now), ParseKind(input.kind).value, MapOption(input.asset, NormalizeAsset), MapOption(input.source, NormalizeSource))
      <==> exists id :: id in r.actions && Named(r.actions[id], input)
             && InForce(r.actions[id], now)
  {
    hide Sweep, NormalizeAsset, NormalizeSource, Trim, Swept, Named, SameScope;
    SweepMeans(r, now);
    var s := Sweep(r, now);
    var kind, asset, source := ParseKind(input.kind).value, MapOption(input.asset, NormalizeAsset), MapOption(input.source, NormalizeSource);
    forall id | id in r.actions
      ensures IsOpen(s.actions[id]) && SameScope(s.actions[id], kind, asset, source) <==>
        Named(r.actions[id], input) && InForce(r.actions[id], now)
    {
      ScopeMeans(r.actions[id], s.actions[id], input, now);
    }
  }

  lemma ScopeMeans(a: Action, b: Action, input: OpenInput, now: int)
    requires ParseKind(input.kind).Some? && Swept(a, b, now)
    ensures IsOpen(b) && SameScope(b, ParseKind(input.kind).value, MapOption(input.asset, NormalizeAsset), MapOption(input.source, NormalizeSource))
      <==> Named(a, input) && InForce(a, now)
  {
    hide NormalizeAsset, NormalizeSource, Trim;
  }

  /** An action can be opened exactly when its input is proper and no action of the same kind, asset and
      source is in force. */
  lemma OpenAcceptedExactly(r: Registry, input: OpenInput, version: int, now: int)
    ensures Open(r, input, version, now).result.Ok? <==>
      Proper(input, now) && forall id :: id in r.actions && Named(r.actions[id], input) ==> !InForce(r.actions[id], now)
  {
    hide OpenGate, Sweep, Covered, Trim, Trimmed, NormalizeAsset, NormalizeSource, Named, NewAction, Given, AsksFor;
    GateMeans(input, now);
    if ParseKind(input.kind).Some? {
      CoveredMeans(r, input, now);
      NewNamed(r.count + 1, ParseKind(input.kind).value, input, version, now);
    }
  }

  lemma NewNamed(id: int, kind: Kind, input: OpenInput, version: int, now: int)
    ensures forall at :: var a := NewAction(id, kind, input, at, version, now);
      a.kind == kind && a.asset == MapOption(input.asset, NormalizeAsset) && a.source == MapOption(input.source, NormalizeSource)
  {
    hide NormalizeAsset, NormalizeSource, Trim;
  }

  /** What opening an action stores. */
  ghost predicate Opened(a: Action, input: OpenInput, version: int, now: int) {
    && Named(a, input) && a.reason == Trim(input.reason) && a.actor == Trim(input.actor)
    && a.createdAt == now && AsksFor(input.expiresAt, input.duration, now, a.expiresAt)
    && now < a.expiresAt <= now + 72 * 60 * 60 * 1000
    && a.reviewDeadlineAt == (if a.expiresAt < now + 24 * 60 * 60 * 1000 then a.expiresAt else now + 24 * 60 * 60 * 1000)
    && a.status == Active && a.reviewer == None && a.reviewedAt == None && a.reviewDecision == None && !a.reviewOverdue
    && a.renewals == 0 && a.policyVersionAtCreation == version && a.revocation == None
    && a.disclosure == Disclosure(None, "", "", false)
  }

  lemma OpenMeans(r: Registry, input: OpenInput, version: int, now: int)
    ensures var o := Open(r, input, version, now);
      if o.result.Ok?
      then && o.result.value.id == r.count + 1 == o.state.count && Opened(o.result.value, input, version, now)
           && o.state.actions.Keys == r.actions.Keys + {r.count + 1} && o.state.actions[r.count + 1] == o.result.value
           && OthersSwept(r, o.state, now, r.count + 1)
      else o.state == r || o.state == Sweep(r, now)
  {
    hide OpenGate, Sweep, Covered, Trim, Trimmed, NormalizeAsset, NormalizeSource, NewAction, Opened, Swept;
    SweepMeans(r, now);
    var o := Open(r, input, version, now);
    if o.result.Ok? {
      GateMeans(input, now);
      NewOpened(r.count + 1, input, OpenGate(input, now).value, version, now);
    }
  }

  lemma NewOpened(id: int, input: OpenInput, at: int, version: int, now: int)
    requires ParseKind(input.kind).Some? && AsksFor(input.expiresAt, input.duration, now, at) && now < at <= now + 72 * 60 * 60 * 1000
    ensures var a := NewAction(id, ParseKind(input.kind).value, input, at, version, now);
      a.id == id && Opened(a, input, version, now)
  {
    hide NormalizeAsset, NormalizeSource, Trim;
  }

  // ── review ────────────────────────────────────────────────────────────────

  /** A review is accepted exactly when it is signed, the action is waiting for one, its deadline has
      not passed, and the reviewer is independent, has attested and is not recused. */
  lemma ReviewAcceptedExactly(r: Registry, id: int, reviewer: string, decision: Decision, attested: bool, recused: bool, now: int)
    ensures ReviewAction(r, id, reviewer, decision, attested, recused, now).result.Ok? <==>
      && Trim(reviewer) != "" && id in r.actions
      && r.actions[id].status == Active && now < r.actions[id].expiresAt && now <= r.actions[id].reviewDeadlineAt
      && Trim(reviewer) != r.actions[id].actor && attested && !recused
  {
    hide Sweep, Trim, Trimmed;
    SweepMeans(r, now);
  }

  /** An accepted review records who decided what and when. Confirming keeps the action in force;
      overturning it closes it as revoked by the reviewer. */
  lemma ReviewMeans(r: Registry, id: int, reviewer: string, decision: Decision, attested: bool, recused: bool, now: int)
    requires ReviewAction(r, id, reviewer, decision, attested, recused, now).result.Ok?
    ensures var o := ReviewAction(r, id, reviewer, decision, attested, recused, now);
      && id in r.actions && id in o.state.actions && o.state.actions[id] == o.result.value && o.state.count == r.count
      && var a, b := r.actions[id], o.result.value;
      && b.id == id && b.kind == a.kind && b.asset == a.asset && b.source == a.source && b.reason == a.reason && b.actor == a.actor
      && b.createdAt == a.createdAt && b.expiresAt == a.expiresAt && b.reviewDeadlineAt == a.reviewDeadlineAt
      && b.renewals == a.renewals && b.policyVersionAtCreation == a.policyVersionAtCreation
      && b.reviewer == Some(Trim(reviewer)) && b.reviewedAt == Some(now) && b.reviewDecision == Some(decision) && !b.reviewOverdue
      && (decision == Confirm ==> b.status == Reviewed && b.revocation == a.revocation)
      && (decision == Overturn ==>
            b.status == Revoked && b.revocation == Some(Revocation(Trim(reviewer), now, Some("overturned on independent review"))))
      && OthersSwept(r, o.state, now, id)
  {
    hide Sweep, Trim, Trimmed;
    SweepMeans(r, now);
  }

  // ── renew ─────────────────────────────────────────────────────────────────

  /** An action can be renewed to `at`. */
  ghost predicate RenewableTo(a: Action, at: int, now: int) {
    && a.status == Reviewed && now < a.expiresAt && a.renewals < 2
    && a.expiresAt < at <= a.expiresAt + 72 * 60 * 60 * 1000
    && at <= a.createdAt + 72 * 60 * 60 * 1000 * (a.renewals + 2)
  }

  lemma RenewGateMeans(a: Action, expiresAt: TimeArg, duration: TimeArg, now: int)
    requires a.status == Reviewed ==> now < a.expiresAt
    ensures var g := RenewGate(a, expiresAt, duration, now);
      && (g.Ok? <==> exists at :: AsksFor(expiresAt, duration, now, at) && RenewableTo(a, at, now))
      && (g.Ok? ==> AsksFor(expiresAt, duration, now, g.value) && RenewableTo(a, g.value, now))
  {
    var given := if expiresAt != Absent then expiresAt else match duration case Ms(d) => Ms(now + d) case _ => duration;
    if given.Ms? { assert AsksFor(expiresAt, duration, now, given.ms); }
    forall at | AsksFor(expiresAt, duration, now, at) ensures given == Ms(at) { }
  }

  lemma RenewableSwept(a: Action, b: Action, at: int, now: int)
    requires Swept(a, b, now)
    ensures RenewableTo(a, at, now) <==> RenewableTo(b, at, now)
    ensures b.status == Reviewed ==> now < b.expiresAt
  {
  }

  /** Only a confirmed action still in force is renewed, at most twice, to a later end within 72 hours
      of the old one. */
  lemma RenewAcceptedExactly(r: Registry, id: int, actor: string, expiresAt: TimeArg, duration: TimeArg, now: int)
    ensures RenewAction(r, id, actor, expiresAt, duration, now).result.Ok? <==>
      && Trim(actor) != "" && id in r.actions
      && exists at :: AsksFor(expiresAt, duration, now, at) && RenewableTo(r.actions[id], at, now)
  {
    hide Sweep, Trim, Trimmed, RenewGate, RenewedAction, RenewableTo, AsksFor, Swept;
    SweepMeans(r, now);
    if id in r.actions {
      var b := Sweep(r, now).actions[id];
      forall at ensures RenewableTo(r.actions[id], at, now) <==> RenewableTo(b, at, now) {
        RenewableSwept(r.actions[id], b, at, now);
      }
      RenewableSwept(r.actions[id], b, 0, now);
      RenewGateMeans(b, expiresAt, duration, now);
    }
  }

  /** A renewal moves the end, counts itself and asks for a new review; nothing else of the action changes. */
  ghost predicate Renewed(a: Action, b: Action, expiresAt: TimeArg, duration: TimeArg, now: int) {
    && AsksFor(expiresAt, duration, now, b.expiresAt) && RenewableTo(a, b.expiresAt, now)
    && b.renewals == a.renewals + 1 && b.status == Active
    && b.reviewer == None && b.reviewedAt == None && b.reviewDecision == None && !b.reviewOverdue
    && b.reviewDeadlineAt == (if b.expiresAt < now + 24 * 60 * 60 * 1000 then b.expiresAt else now + 24 * 60 * 60 * 1000)
    && b.kind == a.kind && b.asset == a.asset && b.source == a.source && b.reason == a.reason && b.actor == a.actor
    && b.createdAt == a.createdAt && b.policyVersionAtCreation == a.policyVersionAtCreation && b.revocation == a.revocation
  }

  lemma RenewedMeans(a: Action, b: Action, expiresAt: TimeArg, duration: TimeArg, now: int)
    requires Swept(a, b, now) && RenewGate(b, expiresAt, duration, now).Ok?
    ensures Renewed(a, RenewedAction(b, RenewGate(b, expiresAt, duration, now).value, now), expiresAt, duration, now)
  {
    hide RenewGate, AsksFor, RenewableTo;
    RenewableSwept(a, b, RenewGate(b, expiresAt, duration, now).value, now);
    RenewGateMeans(b, expiresAt, duration, now);
  }

  lemma RenewMeans(r: Registry, id: int, actor: string, expiresAt: TimeArg, duration: TimeArg, now: int)
    requires RenewAction(r, id, actor, expiresAt, duration, now).result.Ok?
    ensures var o := RenewAction(r, id, actor, expiresAt, duration, now);
      && id in r.actions && id in o.state.actions && o.state.actions[id] == o.result.value && o.state.count == r.count
      && o.result.value.id == id && Renewed(r.actions[id], o.result.value, expiresAt, duration, now)
      && OthersSwept(r, o.state, now, id)
  {
    hide Sweep, Trim, Trimmed, RenewGate, Swept, RenewableTo, AsksFor;
    SweepMeans(r, now);
    RenewedMeans(r.actions[id], Sweep(r, now).actions[id], expiresAt, duration, now);
  }

  // ── revoke and disclose ───────────────────────────────────────────────────

  /** Anyone may revoke an action that is in force. */
  lemma RevokeAcceptedExactly(r: Registry, id: int, actor: string, reason: Option<string>, now: int)
    ensures RevokeAction(r, id, actor, reason, now).result.Ok? <==>
      && Trim(actor) != "" && id in r.actions
      && InForce(r.actions[id], now)
      && (reason.Some? ==> |reason.value| <= 500)
  {
    hide Sweep, Trim, Trimmed;
    SweepMeans(r, now);
  }

  lemma RevokeMeans(r: Registry, id: int, actor: string, reason: Option<string>, now: int)
    requires RevokeAction(r, id, actor, reason, now).result.Ok?
    ensures var o := RevokeAction(r, id, actor, reason, now);
      && id in r.actions && id in o.state.actions && o.state.actions[id] == o.result.value && o.state.count == r.count
      && var a, b := r.actions[id], o.result.value;
      && b == a.(id := id, status := Revoked, revocation := b.revocation)
      && b.revocation.Some? && b.revocation.value.actor == Trim(actor) && b.revocation.value.at == now
      && b.revocation.value.reason == (if reason.Some? && Trim(reason.value) != "" then Some(Trim(reason.value)) else None)
      && OthersSwept(r, o.state, now, id)
  {
    hide Sweep, Trim, Trimmed;
    SweepMeans(r, now);
  }

  /** The public account of an action is published once, after the action has closed. */
  lemma DiscloseAcceptedExactly(r: Registry, id: int, summary: string, actor: string, now: int)
    ensures PublishDisclosure(r, id, summary, actor, now).result.Ok? <==>
      && Trim(actor) != "" && 0 < |Trim(summary)| <= 2000 && id in r.actions
      && !InForce(r.actions[id], now)
      && r.actions[id].disclosure.publishedAt == None
  {
    hide Sweep, Trim, Trimmed;
    SweepMeans(r, now);
  }

  lemma DiscloseMeans(r: Registry, id: int, summary: string, actor: string, now: int)
    requires PublishDisclosure(r, id, summary, actor, now).result.Ok?
    ensures var o := PublishDisclosure(r, id, summary, actor, now);
      && id in r.actions && id in o.state.actions && o.state.actions[id] == o.result.value && o.state.count == r.count
      && var a, b := r.actions[id], o.result.value;
      && Swept(a.(id := id, disclosure := b.disclosure), b, now)
      && b.disclosure == Disclosure(Some(now), Trim(actor), Trim(summary), now > a.expiresAt + 24 * 60 * 60 * 1000)
      && OthersSwept(r, o.state, now, id)
  {
    hide Sweep, Trim, Trimmed;
    SweepMeans(r, now);
  }

  // ── One call ──────────────────────────────────────────────────────────────

  /** The call is an accepted revocation or overturning review of action `id`. */
  ghost predicate Lifts(r: Registry, c: Call, id: int) {
    && (c.RevokeCall? || (c.ReviewCall? && c.decision == Overturn)) && c.id == id
    && Perform(r, c).result.Ok?
  }

  /** The call is an accepted opening or renewal that answers with action `id`. */
  ghost predicate Sets(r: Registry, c: Call, id: int) {
    && (c.OpenCall? || c.RenewCall?) && Perform(r, c).result.Ok? && Perform(r, c).result.value.id == id
  }

  /** What a call at `now` makes of an action that exists: scope, author and reason never change, the
      end moves only by a renewal, and the action leaves force only by being lifted or running out. */
  ghost predicate Evolves(a: Action, b: Action, now: int, lifted: bool, until: Option<int>) {
    && b.kind == a.kind && b.asset == a.asset && b.source == a.source && b.reason == a.reason && b.actor == a.actor
    && b.createdAt == a.createdAt
    && (until.None? ==> b.expiresAt == a.expiresAt)
    && (until.Some? ==> InForce(a, now) && a.expiresAt < b.expiresAt == until.value && IsOpen(b))
    && (lifted ==> InForce(a, now) && b.status == Revoked)
    && (InForce(a, now) && !lifted ==> IsOpen(b))
    && (IsOpen(b) ==> IsOpen(a))
    && (a.status == Revoked ==> b.status == Revoked)
  }

  ghost function NewEnd(r: Registry, c: Call, id: int): Option<int> {
    if Sets(r, c, id) then Some(Perform(r, c).result.value.expiresAt) else None
  }

  lemma SweptEvolves(a: Action, b: Action, now: int)
    requires a == b || Swept(a, b, now)
    ensures Evolves(a, b, now, false, None)
  {
  }

  lemma OpenEvolves(r: Registry, c: Call, id: int)
    requires Inv(r) && id in r.actions && c.OpenCall?
    ensures id in Next(r, c).actions && Evolves(r.actions[id], Next(r, c).actions[id], c.now, false, None)
    ensures !Sets(r, c, id)
  {
    hide Open, Sweep, Swept, Evolves, Opened, ActionOk;
    OpenMeans(r, c.input, c.version, c.now);
    SweepMeans(r, c.now);
    SweptEvolves(r.actions[id], Next(r, c).actions[id], c.now);
  }

  lemma ReviewEvolves(r: Registry, c: Call, id: int)
    requires id in r.actions && c.ReviewCall?
    ensures id in Next(r, c).actions && Evolves(r.actions[id], Next(r, c).actions[id], c.now, Lifts(r, c, id), None)
  {
    hide Sweep, Trim, Trimmed, Swept, Evolves;
    SweepMeans(r, c.now);
    var o := ReviewAction(r, c.id, c.reviewer, c.decision, c.attested, c.recused, c.now);
    var a, b := r.actions[id], o.state.actions[id];
    if o.result.Ok? && c.id == id {
      ReviewAcceptedExactly(r, c.id, c.reviewer, c.decision, c.attested, c.recused, c.now);
      ReviewMeans(r, c.id, c.reviewer, c.decision, c.attested, c.recused, c.now);
      ReviewedEvolves(a, b, c.decision, c.now);
    } else {
      var swept := Sweep(r, c.now).actions[id];
      SweptEvolves(a, a, c.now);
      SweptEvolves(a, swept, c.now);
      FlaggedEvolves(a, swept, c.now);
      assert b == a || b == swept || b == swept.(reviewOverdue := true);
    }
  }

  lemma FlaggedEvolves(a: Action, b: Action, now: int)
    requires Evolves(a, b, now, false, None)
    ensures Evolves(a, b.(reviewOverdue := true), now, false, None)
  {
  }

  lemma ReviewedEvolves(a: Action, b: Action, decision: Decision, now: int)
    requires InForce(a, now)
    requires b.kind == a.kind && b.asset == a.asset && b.source == a.source && b.reason == a.reason && b.actor == a.actor
    requires b.createdAt == a.createdAt && b.expiresAt == a.expiresAt && b.status == if decision == Confirm then Reviewed else Revoked
    ensures Evolves(a, b, now, decision == Overturn, None)
  {
  }

  lemma RenewEvolves(r: Registry, c: Call, id: int)
    requires id in r.actions && c.RenewCall?
    ensures id in Next(r, c).actions && Evolves(r.actions[id], Next(r, c).actions[id], c.now, false, NewEnd(r, c, id))
  {
    hide Sweep, Swept, Renewed, Evolves, Trim, Trimmed, RenewGate, RenewedAction;
    SweepMeans(r, c.now);
    var o := RenewAction(r, c.id, c.actor, c.expiresAt, c.duration, c.now);
    if o.result.Ok? {
      RenewMeans(r, c.id, c.actor, c.expiresAt, c.duration, c.now);
      RenewedEvolves(r.actions[c.id], o.result.value, c.expiresAt, c.duration, c.now);
    }
    if !(o.result.Ok? && c.id == id) { SweptEvolves(r.actions[id], o.state.actions[id], c.now); }
  }

  lemma RenewedEvolves(a: Action, b: Action, expiresAt: TimeArg, duration: TimeArg, now: int)
    requires Renewed(a, b, expiresAt, duration, now)
    ensures Evolves(a, b, now, false, Some(b.expiresAt))
  {
  }

  lemma RevokeEvolves(r: Registry, c: Call, id: int)
    requires id in r.actions && c.RevokeCall?
    ensures id in Next(r, c).actions && Evolves(r.actions[id], Next(r, c).actions[id], c.now, Lifts(r, c, id), None)
  {
    hide Sweep, Swept, Evolves, Trim, Trimmed, RevokeReason;
    SweepMeans(r, c.now);
    var o := RevokeAction(r, c.id, c.actor, c.reason, c.now);
    if o.result.Ok? && c.id == id {
      RevokeAcceptedExactly(r, id, c.actor, c.reason, c.now);
      RevokeMeans(r, id, c.actor, c.reason, c.now);
      RevokedEvolves(r.actions[id], o.state.actions[id], c.now);
    } else {
      SweptEvolves(r.actions[id], o.state.actions[id], c.now);
    }
  }

  lemma RevokedEvolves(a: Action, b: Action, now: int)
    requires InForce(a, now) && b == a.(id := b.id, status := Revoked, revocation := b.revocation)
    ensures Evolves(a, b, now, true, None)
  {
  }

  lemma DiscloseEvolves(r: Registry, c: Call, id: int)
    requires id in r.actions && c.DiscloseCall?
    ensures id in Next(r, c).actions && Evolves(r.actions[id], Next(r, c).actions[id], c.now, false, None)
  {
    hide Sweep, Swept, Evolves, Trim, Trimmed;
    SweepMeans(r, c.now);
    var o := PublishDisclosure(r, c.id, c.summary, c.actor, c.now);
    var a, b := r.actions[id], o.state.actions[id];
    if o.result.Ok? && c.id == id {
      DiscloseMeans(r, id, c.summary, c.actor, c.now);
      DisclosedEvolves(a, b, c.now);
    } else {
      SweptEvolves(a, b, c.now);
    }
  }

  lemma DisclosedEvolves(a: Action, b: Action, now: int)
    requires Swept(a.(id := b.id, disclosure := b.disclosure), b, now)
    ensures Evolves(a, b, now, false, None)
  {
  }

  lemma ReadEvolves(r: Registry, c: Call, id: int)
    requires id in r.actions && c.ReadCall?
    ensures id in Next(r, c).actions && Evolves(r.actions[id], Next(r, c).actions[id], c.now, false, None)
  {
    hide Sweep, Swept, Evolves;
    SweepMeans(r, c.now);
    SweptEvolves(r.actions[id], Sweep(r, c.now).actions[id], c.now);
  }

  lemma CallEvolves(r: Registry, c: Call, id: int)
    requires Inv(r) && id in r.actions
    ensures id in Next(r, c).actions
    ensures Evolves(r.actions[id], Next(r, c).actions[id], c.now, Lifts(r, c, id), NewEnd(r, c, id))
  {
    hide Next, Evolves, Perform, Inv;
    match c
    case OpenCall(_, _, _) => OpenEvolves(r, c, id);
    case ReviewCall(_, _, _, _, _, _) => ReviewEvolves(r, c, id);
    case RenewCall(_, _, _, _, _) => RenewEvolves(r, c, id);
    case RevokeCall(_, _, _, _) => RevokeEvolves(r, c, id);
    case DiscloseCall(_, _, _, _) => DiscloseEvolves(r, c, id);
    case ReadCall(_) => ReadEvolves(r, c, id);
  }

  /** Only an accepted opening brings an action into the registry, and it is the one it answers with. */
  lemma CallBrings(r: Registry, c: Call, id: int)
    requires Inv(r) && id !in r.actions
    ensures !Lifts(r, c, id)
    ensures id in Next(r, c).actions <==> c.OpenCall? && Sets(r, c, id)
    ensures Sets(r, c, id) ==> c.OpenCall? && Next(r, c).actions[id] == Perform(r, c).result.value && Opened(Next(r, c).actions[id], c.input, c.version, c.now)
  {
    hide Trim, Trimmed, Sweep, Open, Inv, RevokeReason, IsOpen, RenewGate, RenewedAction, ReviewedAction, Opened, Swept;
    SweepMeans(r, c.now);
    if c.OpenCall? { OpenMeans(r, c.input, c.version, c.now); }
  }

  // ── Runs ──────────────────────────────────────────────────────────────────

  /** Call `i` of the run is an accepted opening that answers with action `id`. */
  ghost predicate OpenedAt(calls: seq<Call>, i: int, id: int) {
    0 <= i < |calls| && calls[i].OpenCall? && Sets(Final(EMPTY, calls[..i]), calls[i], id)
  }

  ghost predicate LiftedAt(calls: seq<Call>, i: int, id: int) {
    0 <= i < |calls| && Lifts(Final(EMPTY, calls[..i]), calls[i], id)
  }

  /** The end last promised for an action: by its opening or by its latest renewal. */
  ghost function Until(calls: seq<Call>, id: int): Option<int> {
    if calls == [] then None else
      var n := |calls| - 1;
      var end := NewEnd(Final(EMPTY, calls[..n]), calls[n], id);
      if end.Some? then end else Until(calls[..n], id)
  }

  /** Call `i` of the run is an opening that names the scope of `a`, at the time `a` was created. */
  ghost predicate Names(calls: seq<Call>, i: int, a: Action) {
    0 <= i < |calls| && calls[i].OpenCall? && Named(a, calls[i].input) && calls[i].now == a.createdAt
  }

  /** What the last call of a run adds to its history. */
  lemma LastStep(calls: seq<Call>, id: int)
    requires calls != []
    ensures var n := |calls| - 1;
      var r, c := Final(EMPTY, calls[..n]), calls[n];
      && Final(EMPTY, calls) == Next(r, c)
      && Until(calls, id) == (if NewEnd(r, c, id).Some? then NewEnd(r, c, id) else Until(calls[..n], id))
      && (OpenedAt(calls, n, id) <==> c.OpenCall? && Sets(r, c, id)) && (LiftedAt(calls, n, id) <==> Lifts(r, c, id))
      && (forall i :: i != n ==> (OpenedAt(calls, i, id) <==> OpenedAt(calls[..n], i, id)))
      && (forall i :: i != n ==> (LiftedAt(calls, i, id) <==> LiftedAt(calls[..n], i, id)))
      && !OpenedAt(calls[..n], n, id) && !LiftedAt(calls[..n], n, id)
  {
    hide Next, Sets, Lifts, NewEnd;
    var n := |calls| - 1;
    forall i: nat | i < n ensures calls[..n][..i] == calls[..i] && calls[..n][i] == calls[i] { }
  }

  /** What a run has made of action `id`: it is there exactly when a call opened it; its scope is the
      one that call named; its end is the one last promised; it is closed once lifted, and open as long
      as it is not lifted and no call has come at or after its end. */
  ghost predicate History(calls: seq<Call>, id: int, t: int) {
    var actions := Final(EMPTY, calls).actions;
    if id in actions then
      && var a := actions[id];
      && (exists i :: OpenedAt(calls, i, id))
      && (forall i :: OpenedAt(calls, i, id) ==> Names(calls, i, a))
      && Until(calls, id) == Some(a.expiresAt)
      && ((exists j :: LiftedAt(calls, j, id)) ==> a.status == Revoked)
      && ((forall j :: !LiftedAt(calls, j, id)) ==> IsOpen(a) || a.expiresAt <= t)
    else forall i :: !OpenedAt(calls, i, id) && !LiftedAt(calls, i, id)
  }

  lemma NamesStep(calls: seq<Call>, i: int, a: Action, b: Action)
    requires calls != [] && Names(calls[..|calls| - 1], i, a)
    requires b.kind == a.kind && b.asset == a.asset && b.source == a.source && b.createdAt == a.createdAt
    ensures Names(calls, i, b)
  {
    hide NormalizeAsset, NormalizeSource, KindName;
  }

  lemma OldStep(calls: seq<Call>, id: int, t: int)
    requires calls != [] && History(calls[..|calls| - 1], id, t) && t <= calls[|calls| - 1].now
    requires id in Final(EMPTY, calls[..|calls| - 1]).actions
    ensures History(calls, id, calls[|calls| - 1].now)
  {
    hide Final, Next, Sets, Lifts, NewEnd, Inv, Until, OpenedAt, LiftedAt, Names;
    var n := |calls| - 1;
    var r, c := Final(EMPTY, calls[..n]), calls[n];
    LastStep(calls, id);
    RunKeeps(calls[..n]);
    CallEvolves(r, c, id);
    if c.OpenCall? { OpenEvolves(r, c, id); }
    assert !OpenedAt(calls, n, id);
    var a, b := r.actions[id], Final(EMPTY, calls).actions[id];
    forall i | OpenedAt(calls, i, id) ensures Names(calls, i, b) { NamesStep(calls, i, a, b); }
    var i :| OpenedAt(calls[..n], i, id);
    assert OpenedAt(calls, i, id);
    LiftStep(calls, id);
  }

  lemma LiftStep(calls: seq<Call>, id: int)
    requires calls != []
    ensures var n := |calls| - 1;
      (exists j :: LiftedAt(calls, j, id)) <==> (exists j :: LiftedAt(calls[..n], j, id)) || Lifts(Final(EMPTY, calls[..n]), calls[n], id)
  {
    hide Final, Next, Sets, Lifts, NewEnd, Until, OpenedAt, LiftedAt;
    LastStep(calls, id);
    var n := |calls| - 1;
    if j :| LiftedAt(calls[..n], j, id) { assert LiftedAt(calls, j, id); }
    if Lifts(Final(EMPTY, calls[..n]), calls[n], id) { assert LiftedAt(calls, n, id); }
  }

  lemma NewStep(calls: seq<Call>, id: int, t: int)
    requires calls != [] && History(calls[..|calls| - 1], id, t)
    requires id !in Final(EMPTY, calls[..|calls| - 1]).actions
    ensures History(calls, id, calls[|calls| - 1].now)
  {
    hide Final, Next, Sets, Lifts, Inv, Until, OpenedAt, LiftedAt, Names, Opened, Perform;
    var n := |calls| - 1;
    var r, c := Final(EMPTY, calls[..n]), calls[n];
    LastStep(calls, id);
    RunKeeps(calls[..n]);
    CallBrings(r, c, id);
    if id in Final(EMPTY, calls).actions {
      assert OpenedAt(calls, n, id);
      OpenedNames(calls, Final(EMPTY, calls).actions[id]);
    }
  }

  lemma OpenedNames(calls: seq<Call>, a: Action)
    requires calls != [] && calls[|calls| - 1].OpenCall?
    requires var c := calls[|calls| - 1]; Opened(a, c.input, c.version, c.now)
    ensures Names(calls, |calls| - 1, a) && IsOpen(a)
  {
    hide Named, AsksFor, Trim;
  }

  lemma {:induction false} RunHistory(calls: seq<Call>, id: int, from: int)
    requires Timed(calls, from)
    ensures History(calls, id, if calls == [] then from else calls[|calls| - 1].now)
  {
    hide History, Final;
    if calls == [] {
      EmptyHistory(id, from);
    } else {
      var n := |calls| - 1;
      RunHistory(calls[..n], id, from);
      var t := if n == 0 then from else calls[n - 1].now;
      if id in Final(EMPTY, calls[..n]).actions { OldStep(calls, id, t); } else { NewStep(calls, id, t); }
    }
  }

  lemma EmptyHistory(id: int, t: int)
    ensures History([], id, t)
  {
  }

  /** Call `i` opened an action that is neither revoked nor overturned since, and whose last promised end lies after `t`. */
  ghost predicate StandsAt(calls: seq<Call>, i: int, t: int) {
    && 0 <= i < |calls| && calls[i].OpenCall?
    && var answer := Perform(Final(EMPTY, calls[..i]), calls[i]).result;
    && answer.Ok?
    && (forall j :: !LiftedAt(calls, j, answer.value.id))
    && Until(calls, answer.value.id).Some? && t < Until(calls, answer.value.id).value
  }

  /** The input asks for a halt, or for a pause of this asset. */
  ghost predicate AsksToStopAsset(input: OpenInput, asset: string) {
    input.kind == "halt-publishing"
    || (input.kind == "pause-feed" && NormalizeAsset(asset) != "" && input.asset.Some? && NormalizeAsset(input.asset.value) == NormalizeAsset(asset))
  }

  ghost predicate AsksToStopSource(input: OpenInput, source: string) {
    input.kind == "halt-publishing"
    || (input.kind == "freeze-source" && NormalizeSource(source) != "" && input.source.Some? && NormalizeSource(input.source.value) == NormalizeSource(source))
  }

  lemma StopsExactly(a: Action, input: OpenInput, x: string, t: int)
    requires Named(a, input)
    ensures StopsAsset(a, NormalizeAsset(x), t) <==> InForce(a, t) && AsksToStopAsset(input, x)
    ensures StopsSource(a, NormalizeSource(x), t) <==> InForce(a, t) && AsksToStopSource(input, x)
  {
    hide NormalizeAsset, NormalizeSource;
  }

  lemma InForceExactly(calls: seq<Call>, id: int, i: int, from: int, t: int)
    requires Timed(calls, from) && (calls != [] ==> calls[|calls| - 1].now <= t) && OpenedAt(calls, i, id)
    ensures id in Final(EMPTY, calls).actions && Names(calls, i, Final(EMPTY, calls).actions[id])
    ensures InForce(Final(EMPTY, calls).actions[id], t) <==> StandsAt(calls, i, t)
  {
    hide Final, Named, Perform, Lifts, Until, Timed;
    RunHistory(calls, id, from);
  }

  /** Some accepted call of the run opened a halt or a pause of the asset which still stands. */
  ghost predicate AssetStopped(calls: seq<Call>, asset: string, t: int) {
    exists i :: StandsAt(calls, i, t) && AsksToStopAsset(calls[i].input, asset)
  }

  /** Some accepted call of the run opened a halt or a freeze of the provider which still stands. */
  ghost predicate SourceStopped(calls: seq<Call>, source: string, t: int) {
    exists i :: StandsAt(calls, i, t) && AsksToStopSource(calls[i].input, source)
  }

  /** At any time of any run, an asset or a provider is frozen exactly because of accepted openings that
      asked to stop it and still stand. */
  lemma FrozenExactly(calls: seq<Call>, x: string, from: int, t: int)
    requires Timed(calls, from) && (calls != [] ==> calls[|calls| - 1].now <= t)
    ensures AssetFrozen(Final(EMPTY, calls).actions, x, t) <==> AssetStopped(calls, x, t)
    ensures SourceFrozen(Final(EMPTY, calls).actions, x, t) <==> SourceStopped(calls, x, t)
  {
    hide *;
    var actions := Final(EMPTY, calls).actions;
    if AssetFrozen(actions, x, t) || SourceFrozen(actions, x, t) { FrozenStopped(calls, x, from, t); }
    if AssetStopped(calls, x, t) || SourceStopped(calls, x, t) { StoppedFrozen(calls, x, from, t); }
  }

  lemma FrozenStopped(calls: seq<Call>, x: string, from: int, t: int)
    requires Timed(calls, from) && (calls != [] ==> calls[|calls| - 1].now <= t)
    ensures AssetFrozen(Final(EMPTY, calls).actions, x, t) ==> AssetStopped(calls, x, t)
    ensures SourceFrozen(Final(EMPTY, calls).actions, x, t) ==> SourceStopped(calls, x, t)
  {
    hide Final, Named, StopsAsset, StopsSource, AsksToStopAsset, AsksToStopSource, NormalizeAsset, NormalizeSource, StandsAt, InForce;
    hide OpenedAt, Timed;
    var actions := Final(EMPTY, calls).actions;
    if id :| id in actions && StopsAsset(actions[id], NormalizeAsset(x), t) {
      var i := Opening(calls, id, from);
      InForceExactly(calls, id, i, from, t);
      StopsExactly(actions[id], calls[i].input, x, t);
      assert StandsAt(calls, i, t);
    }
    if id :| id in actions && StopsSource(actions[id], NormalizeSource(x), t) {
      var i := Opening(calls, id, from);
      InForceExactly(calls, id, i, from, t);
      StopsExactly(actions[id], calls[i].input, x, t);
      assert StandsAt(calls, i, t);
    }
  }

  lemma StoppedFrozen(calls: seq<Call>, x: string, from: int, t: int)
    requires Timed(calls, from) && (calls != [] ==> calls[|calls| - 1].now <= t)
    ensures AssetStopped(calls, x, t) ==> AssetFrozen(Final(EMPTY, calls).actions, x, t)
    ensures SourceStopped(calls, x, t) ==> SourceFrozen(Final(EMPTY, calls).actions, x, t)
  {
    hide Final, Named, StopsAsset, StopsSource, AsksToStopAsset, AsksToStopSource, NormalizeAsset, NormalizeSource, InForce;
    hide OpenedAt, Timed, Perform, LiftedAt, Until;
    var actions := Final(EMPTY, calls).actions;
    if i :| StandsAt(calls, i, t) && AsksToStopAsset(calls[i].input, x) {
      var id := Answered(calls, i, t);
      InForceExactly(calls, id, i, from, t);
      StopsExactly(actions[id], calls[i].input, x, t);
    }
    if i :| StandsAt(calls, i, t) && AsksToStopSource(calls[i].input, x) {
      var id := Answered(calls, i, t);
      InForceExactly(calls, id, i, from, t);
      StopsExactly(actions[id], calls[i].input, x, t);
    }
  }

  lemma Opening(calls: seq<Call>, id: int, from: int) returns (i: int)
    requires Timed(calls, from) && id in Final(EMPTY, calls).actions
    ensures OpenedAt(calls, i, id)
  {
    hide Final, OpenedAt, LiftedAt, Until, Names, Timed;
    RunHistory(calls, id, from);
    i :| OpenedAt(calls, i, id);
  }

  lemma Answered(calls: seq<Call>, i: int, t: int) returns (id: int)
    requires StandsAt(calls, i, t)
    ensures OpenedAt(calls, i, id)
  {
    hide Final, Perform, Until;
    id := Perform(Final(EMPTY, calls[..i]), calls[i]).result.value.id;
  }

  // ── What an opening and a revocation promise ──────────────────────────────

  lemma {:induction false} PromiseKept(calls: seq<Call>, i: int, id: int)
    requires OpenedAt(calls, i, id)
    ensures Until(calls, id).Some? && Perform(Final(EMPTY, calls[..i]), calls[i]).result.value.expiresAt <= Until(calls, id).value
    ensures id in Final(EMPTY, calls).actions && Until(calls, id) == Some(Final(EMPTY, calls).actions[id].expiresAt)
  {
    hide Final, Next, Perform, Lifts, Inv, Until, Opened;
    var n := |calls| - 1;
    var r, c := Final(EMPTY, calls[..n]), calls[n];
    LastStep(calls, id);
    RunKeeps(calls[..n]);
    if i == n {
      if id in r.actions { OpenEvolves(r, c, id); assert false; }
      CallBrings(r, c, id);
    } else {
      PromiseKept(calls[..n], i, id);
      assert calls[..n][..i] == calls[..i];
      CallEvolves(r, c, id);
    }
  }

  /** After an accepted "pause-feed" of an asset, that asset is frozen at every moment until the end that
      was answered, whatever is called in between, unless that action is revoked or overturned; the same
      for "freeze-source" and its provider, and for "halt-publishing" and everything. */
  lemma OpeningHolds(calls: seq<Call>, i: int, from: int, t: int, x: string)
    requires Timed(calls, from) && 0 <= i < |calls| && calls[i].OpenCall? && calls[|calls| - 1].now <= t
    requires var answer := Perform(Final(EMPTY, calls[..i]), calls[i]).result;
      answer.Ok? && t < answer.value.expiresAt && forall j :: i < j ==> !LiftedAt(calls, j, answer.value.id)
    ensures calls[i].input.kind == "pause-feed" ==>
      calls[i].input.asset.Some? && AssetFrozen(Final(EMPTY, calls).actions, calls[i].input.asset.value, t)
    ensures calls[i].input.kind == "freeze-source" ==>
      calls[i].input.source.Some? && SourceFrozen(Final(EMPTY, calls).actions, calls[i].input.source.value, t)
    ensures calls[i].input.kind == "halt-publishing" ==>
      AssetFrozen(Final(EMPTY, calls).actions, x, t) && SourceFrozen(Final(EMPTY, calls).actions, x, t)
  {
    hide Final, Perform, Lifts, Until, Timed, AssetFrozen, SourceFrozen, NormalizeAsset, NormalizeSource;
    var r, c := Final(EMPTY, calls[..i]), calls[i];
    OpenStands(calls, i, from, t);
    ProperScope(r, c);
    FrozenExactly(calls, x, from, t);
    if c.input.kind == "pause-feed" { FrozenExactly(calls, c.input.asset.value, from, t); }
    if c.input.kind == "freeze-source" { FrozenExactly(calls, c.input.source.value, from, t); }
  }

  lemma ProperScope(r: Registry, c: Call)
    requires c.OpenCall? && Perform(r, c).result.Ok?
    ensures c.input.kind == "pause-feed" ==> Given(c.input.asset, NormalizeAsset)
    ensures c.input.kind == "freeze-source" ==> Given(c.input.source, NormalizeSource)
  {
    hide Open, Trim, Given, AsksFor, Named, InForce;
    OpenAcceptedExactly(r, c.input, c.version, c.now);
  }

  /** An action cannot be lifted before it is opened. */
  lemma OpenStands(calls: seq<Call>, i: int, from: int, t: int)
    requires Timed(calls, from) && 0 <= i < |calls| && calls[i].OpenCall?
    requires var answer := Perform(Final(EMPTY, calls[..i]), calls[i]).result;
      answer.Ok? && t < answer.value.expiresAt && forall j :: i < j ==> !LiftedAt(calls, j, answer.value.id)
    ensures StandsAt(calls, i, t)
  {
    hide Final, Perform, Until, Timed, Inv;
    var r := Final(EMPTY, calls[..i]);
    var id := Perform(r, calls[i]).result.value.id;
    assert OpenedAt(calls, i, id);
    PromiseKept(calls, i, id);
    RunKeeps(calls[..i]);
    assert id !in r.actions by { if id in r.actions { OpenEvolves(r, calls[i], id); assert false; } }
    TimedPrefix(calls, i, from);
    RunHistory(calls[..i], id, from);
    forall j: nat | j < i ensures LiftedAt(calls, j, id) ==> LiftedAt(calls[..i], j, id) {
      assert calls[..i][..j] == calls[..j];
    }
  }

  lemma TimedPrefix(calls: seq<Call>, i: nat, from: int)
    requires Timed(calls, from) && i <= |calls|
    ensures Timed(calls[..i], from)
  {
  }

  /** Once an action is revoked or overturned it restricts nothing again, at any time of any continuation. */
  lemma LiftingEnds(calls: seq<Call>, j: int, id: int, from: int, x: string, t: int)
    requires Timed(calls, from) && LiftedAt(calls, j, id)
    ensures id in Final(EMPTY, calls).actions
    ensures !StopsAsset(Final(EMPTY, calls).actions[id], x, t) && !StopsSource(Final(EMPTY, calls).actions[id], x, t)
  {
    hide Final, OpenedAt, LiftedAt, Until, Names, Timed;
    RunHistory(calls, id, from);
  }
}
