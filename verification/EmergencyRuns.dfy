/** What every run of the emergency registry keeps. */
module EmergencyRuns {
  import opened Wrappers
  import opened Text
  import opened EmergencyActions

  datatype Call =
    | OpenCall(input: OpenInput, version: int, now: int)
    | ReviewCall(id: int, reviewer: string, decision: Decision, attested: bool, recused: bool, now: int)
    | RenewCall(id: int, actor: string, expiresAt: TimeArg, duration: TimeArg, now: int)
    | RevokeCall(id: int, actor: string, reason: Option<string>, now: int)
    | DiscloseCall(id: int, summary: string, actor: string, now: int)
    | ReadCall(now: int)

  /** What a caller gets to see: the answer of a call that acts, or the registry a read is taken from. */
  datatype Observation = Answer(result: Result<Action, Error>) | View(registry: Registry)

  function Perform(r: Registry, c: Call): Outcome
    requires !c.ReadCall?
  {
    match c
    case OpenCall(input, version, now) => Open(r, input, version, now)
    case ReviewCall(id, reviewer, decision, attested, recused, now) =>
      ReviewAction(r, id, reviewer, decision, attested, recused, now)
    case RenewCall(id, actor, expiresAt, duration, now) => RenewAction(r, id, actor, expiresAt, duration, now)
    case RevokeCall(id, actor, reason, now) => RevokeAction(r, id, actor, reason, now)
    case DiscloseCall(id, summary, actor, now) => PublishDisclosure(r, id, summary, actor, now)
  }

  /** `get`, `list`, `activeOverlays`, `isFrozen`, `overdueReviews` and `overdueDisclosures` sweep and
      then only read. */
  function Next(r: Registry, c: Call): Registry {
    if c.ReadCall? then Sweep(r, c.now) else Perform(r, c).state
  }

  function Observe(r: Registry, c: Call): Observation {
    if c.ReadCall? then View(Sweep(r, c.now)) else Answer(Perform(r, c).result)
  }

  function Final(r: Registry, calls: seq<Call>): Registry {
    if calls == [] then r else Next(Final(r, calls[..|calls| - 1]), calls[|calls| - 1])
  }

  function Observations(r: Registry, calls: seq<Call>): seq<Observation>
    decreases |calls|
  {
    if calls == [] then [] else [Observe(r, calls[0])] + Observations(Next(r, calls[0]), calls[1..])
  }

  /** The clock does not run backwards. */
  ghost predicate Timed(calls: seq<Call>, from: int) {
    forall i :: 0 <= i < |calls| ==> from <= calls[i].now && forall j :: i < j < |calls| ==> calls[i].now <= calls[j].now
  }

  const EMPTY := Registry(map[], 0)

  // ── Lazy expiry cannot be observed ────────────────────────────────────────

  lemma ExpireTwice(a: Action, t1: int, t2: int)
    requires t1 <= t2
    ensures FlagReview(ExpireAction(FlagReview(ExpireAction(a, t1)), t2)) == FlagReview(ExpireAction(a, t2))
    ensures FlagReview(ExpireAction(a, t1)).disclosure == a.disclosure && FlagReview(ExpireAction(a, t1)).expiresAt == a.expiresAt
  {
  }

  /** Disclosure flags and expiry touch different parts of an action. */
  lemma FlagsCommute(a: Action, t1: int, t2: int)
    ensures FlagReview(ExpireAction(FlagDisclosure(a, t1), t2)) == FlagDisclosure(FlagReview(ExpireAction(a, t2)), t1)
  {
  }

  lemma FlagTwice(a: Action, t1: int, t2: int)
    requires t1 <= t2
    ensures FlagDisclosure(FlagDisclosure(a, t1), t2) == FlagDisclosure(a, t2)
  {
  }

  lemma SweepActionTwice(a: Action, t1: int, t2: int)
    requires t1 <= t2
    ensures SweepAction(SweepAction(a, t1), t2) == SweepAction(a, t2)
  {
    hide FlagReview, ExpireAction, FlagDisclosure;
    var b := FlagReview(ExpireAction(a, t1));
    FlagsCommute(b, t1, t2);
    ExpireTwice(a, t1, t2);
    FlagTwice(FlagReview(ExpireAction(a, t2)), t1, t2);
  }

  /** Sweeping at an earlier time makes no difference to a sweep at a later one. */
  lemma SweepTwice(r: Registry, t1: int, t2: int)
    requires t1 <= t2
    ensures Sweep(Sweep(r, t1), t2) == Sweep(r, t2)
  {
    hide SweepAction;
    forall id | id in r.actions ensures SweepAction(SweepAction(r.actions[id], t1), t2) == SweepAction(r.actions[id], t2) {
      SweepActionTwice(r.actions[id], t1, t2);
    }
    assert Sweep(Sweep(r, t1), t2).actions == Sweep(r, t2).actions;
  }

  /** Two registries that differ only in expiry not yet applied at `t`. */
  ghost predicate Agree(r: Registry, s: Registry, t: int) {
    Sweep(r, t) == Sweep(s, t)
  }

  lemma AgreeLater(r: Registry, s: Registry, t: int, u: int)
    requires Agree(r, s, t) && t <= u
    ensures Agree(r, s, u)
  {
    hide Sweep;
    SweepTwice(r, t, u);
    SweepTwice(s, t, u);
  }

  /** Sweeping first changes neither what a call answers nor what it leaves behind. */
  lemma SweptCall(r: Registry, c: Call)
    ensures Observe(Sweep(r, c.now), c) == Observe(r, c)
    ensures Agree(Next(Sweep(r, c.now), c), Next(r, c), c.now)
  {
    hide Trim, Trimmed, OpenGate, ParseKind, Covered, NewAction, Refuse, Put, ReviewedAction, RenewGate, RenewedAction;
    hide RevokeReason, IsOpen, Sweep;
    SweepTwice(r, c.now, c.now);
    assert Sweep(r, c.now).count == r.count by { SweepCount(r, c.now); }
    assert forall e :: Refuse(r, e) == Outcome(r, Err(e)) by { RefuseIs(r); }
    assert forall e :: Refuse(Sweep(r, c.now), e) == Outcome(Sweep(r, c.now), Err(e)) by { RefuseIs(Sweep(r, c.now)); }
  }

  lemma SweepCount(r: Registry, t: int)
    ensures Sweep(r, t).count == r.count
    ensures Sweep(r, t).actions.Keys == r.actions.Keys
  {
  }

  lemma RefuseIs(r: Registry)
    ensures forall e :: Refuse(r, e) == Outcome(r, Err(e))
  {
  }

  lemma AgreeingCall(r: Registry, s: Registry, c: Call)
    requires Agree(r, s, c.now)
    ensures Observe(r, c) == Observe(s, c)
    ensures Agree(Next(r, c), Next(s, c), c.now)
  {
    hide Observe, Next, Sweep;
    SweptCall(r, c);
    SweptCall(s, c);
  }

  lemma {:induction false} AgreeingRuns(r: Registry, s: Registry, calls: seq<Call>, t: int)
    requires Agree(r, s, t) && Timed(calls, t)
    ensures Observations(r, calls) == Observations(s, calls)
    decreases |calls|
  {
    hide Observe, Next, Agree;
    if calls != [] {
      AgreeLater(r, s, t, calls[0].now);
      AgreeingCall(r, s, calls[0]);
      AgreeingRuns(Next(r, calls[0]), Next(s, calls[0]), calls[1..], calls[0].now);
    }
  }

  /** Leaving a read out of a run changes no answer and no view of any later call. */
  lemma ReadsUnobservable(r: Registry, before: seq<Call>, now: int, after: seq<Call>)
    requires Timed(after, now)
    ensures Observations(Final(r, before + [ReadCall(now)]), after) == Observations(Final(r, before), after)
  {
    hide Sweep, Observations;
    var s := Final(r, before);
    assert (before + [ReadCall(now)])[..|before|] == before;
    assert Final(r, before + [ReadCall(now)]) == Sweep(s, now);
    SweepTwice(s, now, now);
    AgreeingRuns(Sweep(s, now), s, after, now);
  }

  // ── The invariant of an action ────────────────────────────────────────────

  ghost predicate ActionOk(a: Action) {
    && 0 <= a.renewals <= MAX_RENEWALS
    && a.expiresAt <= a.createdAt + MAX_DURATION * (a.renewals + 1)
    && a.reviewDeadlineAt <= a.expiresAt
    && (a.status == Reviewed ==>
          && a.reviewDecision == Some(Confirm)
          && a.reviewer.Some? && a.reviewer.value != a.actor
          && a.reviewedAt.Some? && a.reviewedAt.value <= a.reviewDeadlineAt)
    && (a.status == Active ==> a.reviewDecision.None? && a.reviewedAt.None?)
  }

  ghost predicate OneActionPerScope(actions: map<int, Action>) {
    forall i, j :: i in actions && j in actions && i != j && IsOpen(actions[i]) && IsOpen(actions[j]) ==>
      !SameScope(actions[i], actions[j].kind, actions[j].asset, actions[j].source)
  }

  ghost predicate Inv(r: Registry) {
    && (forall id :: id in r.actions ==> r.actions[id].id == id && 1 <= id <= r.count && ActionOk(r.actions[id]))
    && OneActionPerScope(r.actions)
  }

  lemma SweepActionOk(a: Action, now: int)
    requires ActionOk(a)
    ensures ActionOk(SweepAction(a, now)) && SweepAction(a, now).id == a.id
    ensures IsOpen(SweepAction(a, now)) ==> SweepAction(a, now) == FlagDisclosure(a, now) && now < a.expiresAt
    ensures SameScope(SweepAction(a, now), a.kind, a.asset, a.source)
  {
  }

  lemma SweepKeeps(r: Registry, now: int)
    requires Inv(r)
    ensures Inv(Sweep(r, now))
  {
    hide ActionOk, SweepAction;
    forall id | id in r.actions
      ensures ActionOk(SweepAction(r.actions[id], now)) && SweepAction(r.actions[id], now).id == id
      ensures IsOpen(SweepAction(r.actions[id], now)) ==> IsOpen(r.actions[id])
      ensures SameScope(SweepAction(r.actions[id], now), r.actions[id].kind, r.actions[id].asset, r.actions[id].source)
    {
      SweepActionOk(r.actions[id], now);
    }
  }

  /** Replacing an action by a sound one of the same scope that is open only if it was. */
  lemma PutKeeps(r: Registry, a: Action)
    requires Inv(r) && a.id in r.actions && ActionOk(a)
    requires IsOpen(a) ==> IsOpen(r.actions[a.id])
    requires SameScope(a, r.actions[a.id].kind, r.actions[a.id].asset, r.actions[a.id].source)
    ensures Inv(r.(actions := r.actions[a.id := a]))
  {
    hide ActionOk, IsOpen;
  }

  lemma OpenKeeps(r: Registry, input: OpenInput, version: int, now: int)
    requires Inv(r)
    ensures Inv(Open(r, input, version, now).state)
  {
    hide Sweep, OpenGate, ParseKind, ActionOk, IsOpen, NewAction;
    SweepKeeps(r, now);
    var o := Open(r, input, version, now);
    if o.result.Ok? {
      var s := Sweep(r, now);
      SweepCount(r, now);
      NewActionOk(r.count + 1, input, version, now);
    }
  }

  lemma NewActionOk(id: int, input: OpenInput, version: int, now: int)
    requires OpenGate(input, now).Ok? && ParseKind(input.kind).Some?
    ensures var a := NewAction(id, ParseKind(input.kind).value, input, OpenGate(input, now).value, version, now);
      ActionOk(a) && a.id == id && now < a.expiresAt
  {
    hide Trim, Trimmed, ParseKind, NormalizeAsset, NormalizeSource, ScopeError;
  }

  lemma ReviewKeeps(r: Registry, id: int, reviewer: string, decision: Decision, attested: bool, recused: bool, now: int)
    requires Inv(r)
    ensures Inv(ReviewAction(r, id, reviewer, decision, attested, recused, now).state)
  {
    hide Sweep, Trim, Trimmed, ReviewedAction;
    SweepKeeps(r, now);
    var s := Sweep(r, now);
    if id in s.actions {
      var a := s.actions[id];
      if a.status == Active {
        var actor := Trim(reviewer);
        PutKeeps(s, a.(reviewOverdue := true));
        if now <= a.reviewDeadlineAt && actor != a.actor {
          ReviewedActionOk(a, actor, decision, now);
          PutKeeps(s, ReviewedAction(a, actor, decision, now));
        }
      }
    }
  }

  lemma ReviewedActionOk(a: Action, actor: string, decision: Decision, now: int)
    requires ActionOk(a) && a.status == Active && now <= a.reviewDeadlineAt && actor != a.actor
    ensures var b := ReviewedAction(a, actor, decision, now);
      ActionOk(b) && b.id == a.id && SameScope(b, a.kind, a.asset, a.source) && b.(id := a.id) == b
  {
  }

  lemma RenewKeeps(r: Registry, id: int, actor: string, expiresAt: TimeArg, duration: TimeArg, now: int)
    requires Inv(r)
    ensures Inv(RenewAction(r, id, actor, expiresAt, duration, now).state)
  {
    hide Sweep, Trim, Trimmed, RenewGate, RenewedAction, ActionOk;
    SweepKeeps(r, now);
    var s := Sweep(r, now);
    if id in s.actions && RenewGate(s.actions[id], expiresAt, duration, now).Ok? {
      RenewedActionOk(s.actions[id], expiresAt, duration, now);
      PutKeeps(s, RenewedAction(s.actions[id], RenewGate(s.actions[id], expiresAt, duration, now).value, now));
    }
  }

  /** A renewal stays within one more window; the cumulative cap is never what refuses it. */
  lemma RenewedActionOk(a: Action, expiresAt: TimeArg, duration: TimeArg, now: int)
    requires ActionOk(a)
    ensures var g := RenewGate(a, expiresAt, duration, now);
      && g != Err(RenewalTotalCapExceeded)
      && (g.Ok? ==>
            && a.status == Reviewed
            && var b := RenewedAction(a, g.value, now);
               ActionOk(b) && b.id == a.id && SameScope(b, a.kind, a.asset, a.source) && b.(id := a.id) == b)
  {
  }

  lemma RevokeKeeps(r: Registry, id: int, actor: string, reason: Option<string>, now: int)
    requires Inv(r)
    ensures Inv(RevokeAction(r, id, actor, reason, now).state)
  {
    hide Sweep, Trim, Trimmed, RevokeReason;
    SweepKeeps(r, now);
    var s := Sweep(r, now);
    if id in s.actions {
      PutKeeps(s, s.actions[id].(id := id, status := Revoked, revocation := Some(Revocation(Trim(actor), now, RevokeReason(reason)))));
    }
  }

  lemma DiscloseKeeps(r: Registry, id: int, summary: string, actor: string, now: int)
    requires Inv(r)
    ensures Inv(PublishDisclosure(r, id, summary, actor, now).state)
  {
    hide Sweep, Trim, Trimmed;
    SweepKeeps(r, now);
    var s := Sweep(r, now);
    if id in s.actions {
      var a := s.actions[id];
      PutKeeps(s, a.(id := id, disclosure := Disclosure(Some(now), Trim(actor), Trim(summary), now > a.expiresAt + DISCLOSURE_WINDOW)));
    }
  }

  lemma NextKeeps(r: Registry, c: Call)
    requires Inv(r)
    ensures Inv(Next(r, c))
  {
    hide Inv, Sweep, Open, ReviewAction, RenewAction, RevokeAction, PublishDisclosure;
    match c
    case OpenCall(input, version, now) => OpenKeeps(r, input, version, now);
    case ReviewCall(id, reviewer, decision, attested, recused, now) => ReviewKeeps(r, id, reviewer, decision, attested, recused, now);
    case RenewCall(id, actor, expiresAt, duration, now) => RenewKeeps(r, id, actor, expiresAt, duration, now);
    case RevokeCall(id, actor, reason, now) => RevokeKeeps(r, id, actor, reason, now);
    case DiscloseCall(id, summary, actor, now) => DiscloseKeeps(r, id, summary, actor, now);
    case ReadCall(now) => SweepKeeps(r, now);
  }

  /** In every run no two open actions share kind, asset and source, and every action stays within
      72 hours for each of its at most three windows. */
  lemma {:induction false} RunKeeps(calls: seq<Call>)
    ensures Inv(Final(EMPTY, calls))
  {
    hide Inv, Next;
    if calls == [] {
      EmptyInv();
    } else {
      RunKeeps(calls[..|calls| - 1]);
      NextKeeps(Final(EMPTY, calls[..|calls| - 1]), calls[|calls| - 1]);
    }
  }

  lemma EmptyInv()
    ensures Inv(EMPTY)
  {
  }

  /** No renewal of any run is refused for the cumulative cap. */
  lemma TotalCapUnreachable(calls: seq<Call>, id: int, actor: string, expiresAt: TimeArg, duration: TimeArg, now: int)
    ensures RenewAction(Final(EMPTY, calls), id, actor, expiresAt, duration, now).result != Err(RenewalTotalCapExceeded)
  {
    hide Final, Trim, Trimmed, RenewGate, RenewedAction, Sweep;
    var r := Final(EMPTY, calls);
    RunKeeps(calls);
    SweepKeeps(r, now);
    var s := Sweep(r, now);
    if id in s.actions { RenewedActionOk(s.actions[id], expiresAt, duration, now); }
  }

  /** Nothing is restricted by an action more than 216 hours after it was opened. */
  lemma RestrictionsEnd(calls: seq<Call>, id: int, now: int)
    requires id in Final(EMPTY, calls).actions
    requires IsOpen(Sweep(Final(EMPTY, calls), now).actions[id])
    ensures now < Final(EMPTY, calls).actions[id].createdAt + 216 * 60 * 60 * 1000
  {
    hide Final, SweepAction;
    RunKeeps(calls);
    SweepActionOk(Final(EMPTY, calls).actions[id], now);
  }

  // ── Confirmations and renewals alternate ──────────────────────────────────

  predicate Confirmed(a: Action) { a.reviewDecision == Some(Confirm) }

  /** The call is an accepted confirmation of action `id`. */
  predicate IsConfirmation(r: Registry, c: Call, id: int) {
    c.ReviewCall? && c.id == id && c.decision == Confirm && Perform(r, c).result.Ok?
  }

  predicate IsRenewal(r: Registry, c: Call, id: int) {
    c.RenewCall? && c.id == id && Perform(r, c).result.Ok?
  }

  function Confirmations(calls: seq<Call>, id: int): nat {
    if calls == [] then 0 else
      var n := |calls| - 1;
      Confirmations(calls[..n], id) + (if IsConfirmation(Final(EMPTY, calls[..n]), calls[n], id) then 1 else 0)
  }

  function Renewals(calls: seq<Call>, id: int): nat {
    if calls == [] then 0 else
      var n := |calls| - 1;
      Renewals(calls[..n], id) + (if IsRenewal(Final(EMPTY, calls[..n]), calls[n], id) then 1 else 0)
  }

  /** The review state of an action moves from `a` to `b`, by a renewal, by a confirmation, or not at all. */
  ghost predicate Moves(a: Action, b: Action, renewed: bool, confirmed: bool) {
    && b.renewals == a.renewals + (if renewed then 1 else 0)
    && (renewed ==> Confirmed(a) && !Confirmed(b))
    && (confirmed ==> !Confirmed(a) && Confirmed(b))
    && (!renewed && !confirmed ==> (Confirmed(a) <==> Confirmed(b)))
  }

  lemma OtherEffect(r: Registry, c: Call, id: int)
    requires Inv(r) && id in r.actions && !c.ReviewCall? && !c.RenewCall?
    ensures id in Next(r, c).actions && Moves(r.actions[id], Next(r, c).actions[id], false, false)
  {
    hide Trim, Trimmed, OpenGate, ParseKind, Covered, RevokeReason, Sweep, NewAction, Inv, IsOpen;
    ReviewStateSwept(r, c.now, id);
    SweepCount(r, c.now);
    if c.OpenCall? && OpenGate(c.input, c.now).Ok? && ParseKind(c.input.kind).Some? {
      NewActionOk(r.count + 1, c.input, c.version, c.now);
    }
  }

  lemma ReviewEffect(r: Registry, c: Call, id: int)
    requires Inv(r) && id in r.actions && c.ReviewCall?
    ensures id in Next(r, c).actions && Moves(r.actions[id], Next(r, c).actions[id], false, IsConfirmation(r, c, id))
  {
    hide Trim, Trimmed, Sweep, Inv;
    ReviewStateSwept(r, c.now, id);
    SweepCount(r, c.now);
  }

  lemma RenewEffect(r: Registry, c: Call, id: int)
    requires Inv(r) && id in r.actions && c.RenewCall?
    ensures id in Next(r, c).actions && Moves(r.actions[id], Next(r, c).actions[id], IsRenewal(r, c, id), false)
  {
    hide Trim, Trimmed, Sweep, Inv, ResolveExpiry;
    ReviewStateSwept(r, c.now, id);
    SweepCount(r, c.now);
  }

  /** How one call moves the review state of an action that already exists. */
  lemma CallEffect(r: Registry, c: Call, id: int)
    requires Inv(r) && id in r.actions
    ensures id in Next(r, c).actions
    ensures Moves(r.actions[id], Next(r, c).actions[id], IsRenewal(r, c, id), IsConfirmation(r, c, id))
  {
    hide Next, Moves, Perform, Inv;
    if c.ReviewCall? { ReviewEffect(r, c, id); }
    else if c.RenewCall? { RenewEffect(r, c, id); }
    else { OtherEffect(r, c, id); }
  }

  /** A call on an action that is not there neither confirms nor renews it; a new action has no
      renewals and no confirmation. */
  lemma FreshEffect(r: Registry, c: Call, id: int)
    requires Inv(r) && id !in r.actions
    ensures !IsRenewal(r, c, id) && !IsConfirmation(r, c, id)
    ensures id in Next(r, c).actions ==> Next(r, c).actions[id].renewals == 0 && !Confirmed(Next(r, c).actions[id])
  {
    hide Trim, Trimmed, Sweep, OpenGate, ParseKind, Covered, Inv, RevokeReason, IsOpen;
    SweepCount(r, c.now);
  }

  /** In every run, each action has been confirmed once per renewal, and once more exactly when its
      current window is confirmed: no renewal without a confirmation before it, and no second
      confirmation without a renewal in between. */
  lemma {:induction false} ReviewsAlternateWithRenewals(calls: seq<Call>, id: int)
    ensures var r := Final(EMPTY, calls);
      if id in r.actions
      then && r.actions[id].renewals == Renewals(calls, id)
           && Confirmations(calls, id) == Renewals(calls, id) + (if Confirmed(r.actions[id]) then 1 else 0)
      else Renewals(calls, id) == 0 && Confirmations(calls, id) == 0
  {
    hide Next, IsRenewal, IsConfirmation, Confirmed;
    if calls != [] {
      var n := |calls| - 1;
      var r := Final(EMPTY, calls[..n]);
      ReviewsAlternateWithRenewals(calls[..n], id);
      RunKeeps(calls[..n]);
      if id in r.actions { CallEffect(r, calls[n], id); } else { FreshEffect(r, calls[n], id); }
    }
  }

  lemma ReviewStateSwept(r: Registry, now: int, id: int)
    requires Inv(r) && id in r.actions
    ensures var a, b := r.actions[id], Sweep(r, now).actions[id];
      && b.renewals == a.renewals && b.reviewDecision == a.reviewDecision && b.expiresAt == a.expiresAt
      && (b.status == Reviewed ==> a.status == Reviewed) && (b.status == Active ==> a.status == Active)
      && (b.status == Reviewed ==> Confirmed(b)) && (b.status == Active ==> b.reviewDecision.None?)
      && b.reviewDeadlineAt == a.reviewDeadlineAt && id <= r.count
  {
  }

  // ── A missed review deadline is final ─────────────────────────────────────

  /** The action is not confirmed and can no longer be. */
  ghost predicate PastReview(a: Action, t: int) {
    a.status != Reviewed && (a.status == Active ==> t > a.reviewDeadlineAt)
  }

  lemma MissedStep(r: Registry, c: Call, id: int, t: int)
    requires Inv(r) && id in r.actions && PastReview(r.actions[id], t) && t <= c.now
    ensures id in Next(r, c).actions && PastReview(Next(r, c).actions[id], c.now)
    ensures Next(r, c).actions[id].expiresAt == r.actions[id].expiresAt
  {
    hide Trim, Trimmed, Sweep, OpenGate, ParseKind, Covered, Inv, RevokeReason, ResolveExpiry;
    ReviewStateSwept(r, c.now, id);
    SweepCount(r, c.now);
  }

  /** Once an action is past its review deadline without a confirmation, no later call of any run
      confirms it or moves its expiry. */
  lemma {:induction false} MissedReviewIsFinal(r: Registry, calls: seq<Call>, id: int, t: int)
    requires Inv(r) && id in r.actions && PastReview(r.actions[id], t) && Timed(calls, t)
    ensures var s := Final(r, calls);
      id in s.actions && s.actions[id].expiresAt == r.actions[id].expiresAt && s.actions[id].status != Reviewed
  {
    var _ := MissedReview(r, calls, id, t);
  }

  lemma {:induction false} MissedReview(r: Registry, calls: seq<Call>, id: int, t: int) returns (u: int)
    requires Inv(r) && id in r.actions && PastReview(r.actions[id], t) && Timed(calls, t)
    ensures var s := Final(r, calls);
      && id in s.actions && s.actions[id].expiresAt == r.actions[id].expiresAt && PastReview(s.actions[id], u) && Inv(s)
      && u == if calls == [] then t else calls[|calls| - 1].now
  {
    hide Inv, Next;
    u := t;
    if calls != [] {
      var n := |calls| - 1;
      var v := MissedReview(r, calls[..n], id, t);
      MissedStep(Final(r, calls[..n]), calls[n], id, v);
      NextKeeps(Final(r, calls[..n]), calls[n]);
      u := calls[n].now;
    }
  }
}
