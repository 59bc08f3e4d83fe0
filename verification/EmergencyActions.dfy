/** Emergency actions: restrictive powers with an expiry, an independent review and bounded
    renewals. Expiry is applied lazily, at the start of each call. */
module EmergencyActions {
  import opened Wrappers
  import opened Text

  // Durations in milliseconds.
  const MAX_DURATION := 72 * 60 * 60 * 1000
  const REVIEW_WINDOW := 24 * 60 * 60 * 1000
  const DISCLOSURE_WINDOW := 24 * 60 * 60 * 1000
  const MAX_RENEWALS := 2
  const MAX_REASON_LENGTH := 500
  const MAX_DISCLOSURE_LENGTH := 2000

  datatype Kind = PauseFeed | FreezeSource | HaltPublishing

  datatype Status = Active | Reviewed | Expired | Revoked | ExpiredUnreviewed

  datatype Decision = Confirm | Overturn

  datatype Disclosure = Disclosure(publishedAt: Option<int>, publishedBy: string, summary: string, overdue: bool)

  datatype Revocation = Revocation(actor: string, at: int, reason: Option<string>)

  datatype Action = Action(
    id: int,
    kind: Kind,
    asset: Option<string>,
    source: Option<string>,
    reason: string,
    actor: string,
    createdAt: int,
    expiresAt: int,
    reviewDeadlineAt: int,
    status: Status,
    reviewer: Option<string>,
    reviewedAt: Option<int>,
    reviewDecision: Option<Decision>,
    reviewOverdue: bool,
    renewals: int,
    policyVersionAtCreation: int,
    revocation: Option<Revocation>,
    disclosure: Disclosure)

  datatype Error =
    | InvalidRequest | KindNotPermitted | ReasonTooLong | ExpiryRequired | InvalidExpiry | ExpiryNotExtending
    | ExpiryTooFar | ScopeRequired | ScopeNotAllowed | DuplicateAction | ActionNotFound | AlreadyReviewed
    | ActionClosed | ReviewDeadlinePassed | IndependentReviewRequired | AttestationRequired | ConflictOfInterest
    | ReviewRequiredBeforeRenewal | RenewalLimitReached | RenewalTooLong | RenewalTotalCapExceeded
    | DisclosureTooLong | DisclosureBeforeClose | DisclosureAlreadyPublished

  datatype Registry = Registry(actions: map<int, Action>, count: nat)

  datatype Outcome = Outcome(state: Registry, result: Result<Action, Error>)

  /** An optional time argument: left out, not a time, or a number of milliseconds. */
  datatype TimeArg = Absent | Malformed | Ms(ms: int)

  datatype OpenInput = OpenInput(
    kind: string,
    reason: string,
    actor: string,
    asset: Option<string>,
    source: Option<string>,
    expiresAt: TimeArg,
    duration: TimeArg)

  predicate IsOpen(a: Action) { a.status == Active || a.status == Reviewed }

  // ── sweep ─────────────────────────────────────────────────────────────────

  function ExpireAction(a: Action, now: int): Action {
    if IsOpen(a) && now >= a.expiresAt
    then a.(status := if a.status == Reviewed then Expired else ExpiredUnreviewed)
    else a
  }

  function FlagReview(a: Action): Action {
    if a.reviewedAt.None? && !IsOpen(a) && a.status == ExpiredUnreviewed then a.(reviewOverdue := true) else a
  }

  function FlagDisclosure(a: Action, now: int): Action {
    if a.disclosure.publishedAt.None? && now >= a.expiresAt + DISCLOSURE_WINDOW
    then a.(disclosure := a.disclosure.(overdue := true))
    else a
  }

  function SweepAction(a: Action, now: int): Action {
    FlagDisclosure(FlagReview(ExpireAction(a, now)), now)
  }

  function Sweep(r: Registry, now: int): Registry {
    r.(actions := map id | id in r.actions :: SweepAction(r.actions[id], now))
  }

  // ── Expiry of a new or renewed action ─────────────────────────────────────

  function ResolveExpiry(now: int, expiresAt: TimeArg, duration: TimeArg, floor: Option<int>): Result<int, Error> {
    var given := if expiresAt != Absent then expiresAt
                 else match duration case Ms(d) => Ms(now + d) case _ => duration;
    match given
    case Absent => Err(ExpiryRequired)
    case Malformed => Err(InvalidExpiry)
    case Ms(at) =>
      if at <= (if floor.Some? then floor.value else now) then Err(ExpiryNotExtending)
      else if floor.None? && at > now + MAX_DURATION then Err(ExpiryTooFar)
      else Ok(at)
  }

  // ── open ──────────────────────────────────────────────────────────────────

  function ParseKind(kind: string): Option<Kind> {
    if kind == "pause-feed" then Some(PauseFeed)
    else if kind == "freeze-source" then Some(FreezeSource)
    else if kind == "halt-publishing" then Some(HaltPublishing)
    else None
  }

  predicate Blank(s: Option<string>) { s.None? || s.value == "" }

  function ScopeError(kind: Kind, asset: Option<string>, source: Option<string>): Option<Error> {
    match kind
    case PauseFeed => if Blank(asset) then Some(ScopeRequired) else None
    case FreezeSource => if Blank(source) then Some(ScopeRequired) else None
    case HaltPublishing => if !Blank(asset) || !Blank(source) then Some(ScopeNotAllowed) else None
  }

  function MapOption(s: Option<string>, f: string -> string): Option<string> {
    match s case None => None case Some(v) => Some(f(v))
  }

  predicate SameScope(a: Action, kind: Kind, asset: Option<string>, source: Option<string>) {
    a.kind == kind && a.asset == asset && a.source == source
  }

  predicate Covered(r: Registry, kind: Kind, asset: Option<string>, source: Option<string>) {
    exists id :: id in r.actions && IsOpen(r.actions[id]) && SameScope(r.actions[id], kind, asset, source)
  }

  const UNPUBLISHED := Disclosure(None, "", "", false)

  function NewAction(id: int, kind: Kind, input: OpenInput, expiresAt: int, version: int, now: int): Action {
    Action(id, kind, MapOption(input.asset, NormalizeAsset), MapOption(input.source, NormalizeSource),
           Trim(input.reason), Trim(input.actor), now, expiresAt, Min(now + REVIEW_WINDOW, expiresAt), Active,
           None, None, None, false, 0, version, None, UNPUBLISHED)
  }

  /** What is refused before the registry is looked at. */
  function OpenGate(input: OpenInput, now: int): Result<int, Error> {
    if Trim(input.actor) == "" then Err(InvalidRequest)
    else if ParseKind(input.kind).None? then Err(KindNotPermitted)
    else if Trim(input.reason) == "" then Err(InvalidRequest)
    else if |Trim(input.reason)| > MAX_REASON_LENGTH then Err(ReasonTooLong)
    else
      var expiry := ResolveExpiry(now, input.expiresAt, input.duration, None);
      var scope := ScopeError(ParseKind(input.kind).value, MapOption(input.asset, NormalizeAsset), MapOption(input.source, NormalizeSource));
      if expiry.Ok? && scope.Some? then Err(scope.value) else expiry
  }

  function Open(r: Registry, input: OpenInput, version: int, now: int): Outcome {
    var gate := OpenGate(input, now);
    if gate.Err? || ParseKind(input.kind).None? then Outcome(r, if gate.Err? then Err(gate.error) else Err(KindNotPermitted))
    else
      var s := Sweep(r, now);
      var a := NewAction(r.count + 1, ParseKind(input.kind).value, input, gate.value, version, now);
      if Covered(s, a.kind, a.asset, a.source) then Outcome(s, Err(DuplicateAction))
      else Outcome(Registry(s.actions[a.id := a], r.count + 1), Ok(a))
  }

  // ── review, renew, revoke, disclose ───────────────────────────────────────

  function Put(r: Registry, a: Action): Outcome { Outcome(r.(actions := r.actions[a.id := a]), Ok(a)) }

  function Refuse(r: Registry, e: Error): Outcome { Outcome(r, Err(e)) }

  function ReviewedAction(a: Action, actor: string, decision: Decision, now: int): Action {
    var b := a.(reviewer := Some(actor), reviewedAt := Some(now), reviewDecision := Some(decision), reviewOverdue := false);
    if decision == Overturn
    then b.(status := Revoked, revocation := Some(Revocation(actor, now, Some("overturned on independent review"))))
    else b.(status := Reviewed)
  }

  function ReviewAction(r: Registry, id: int, reviewer: string, decision: Decision, attested: bool, recused: bool, now: int): Outcome {
    var actor := Trim(reviewer);
    if actor == "" then Refuse(r, InvalidRequest)
    else
      var s := Sweep(r, now);
      if id !in s.actions then Refuse(s, ActionNotFound)
      else
        var a := s.actions[id];
        if a.status == Reviewed then Refuse(s, AlreadyReviewed)
        else if a.status != Active then Refuse(s, ActionClosed)
        else if now > a.reviewDeadlineAt then
          Outcome(s.(actions := s.actions[id := a.(reviewOverdue := true)]), Err(ReviewDeadlinePassed))
        else if actor == a.actor then Refuse(s, IndependentReviewRequired)
        else if !attested then Refuse(s, AttestationRequired)
        else if recused then Refuse(s, ConflictOfInterest)
        else Put(s, ReviewedAction(a, actor, decision, now).(id := id))
  }

  function RenewedAction(a: Action, expiresAt: int, now: int): Action {
    a.(expiresAt := expiresAt, renewals := a.renewals + 1, status := Active, reviewer := None, reviewedAt := None,
       reviewDecision := None, reviewOverdue := false, reviewDeadlineAt := Min(now + REVIEW_WINDOW, expiresAt))
  }

  function RenewGate(a: Action, expiresAt: TimeArg, duration: TimeArg, now: int): Result<int, Error> {
    if a.status != Reviewed then Err(ReviewRequiredBeforeRenewal)
    else if a.renewals >= MAX_RENEWALS then Err(RenewalLimitReached)
    else
      var expiry := ResolveExpiry(now, expiresAt, duration, Some(a.expiresAt));
      if expiry.Err? then expiry
      else if expiry.value > a.expiresAt + MAX_DURATION then Err(RenewalTooLong)
      else if expiry.value > a.createdAt + MAX_DURATION * (a.renewals + 2) then Err(RenewalTotalCapExceeded)
      else expiry
  }

  function RenewAction(r: Registry, id: int, actor: string, expiresAt: TimeArg, duration: TimeArg, now: int): Outcome {
    if Trim(actor) == "" then Refuse(r, InvalidRequest)
    else
      var s := Sweep(r, now);
      if id !in s.actions then Refuse(s, ActionNotFound)
      else
        var gate := RenewGate(s.actions[id], expiresAt, duration, now);
        if gate.Err? then Refuse(s, gate.error)
        else Put(s, RenewedAction(s.actions[id], gate.value, now).(id := id))
  }

  function RevokeReason(reason: Option<string>): Option<string> {
    if reason.Some? && Trim(reason.value) != "" then Some(Trim(reason.value)) else None
  }

  function RevokeAction(r: Registry, id: int, actor: string, reason: Option<string>, now: int): Outcome {
    var caller := Trim(actor);
    if caller == "" then Refuse(r, InvalidRequest)
    else
      var s := Sweep(r, now);
      if id !in s.actions then Refuse(s, ActionNotFound)
      else if !IsOpen(s.actions[id]) then Refuse(s, ActionClosed)
      else if reason.Some? && |reason.value| > MAX_REASON_LENGTH then Refuse(s, ReasonTooLong)
      else Put(s, s.actions[id].(id := id, status := Revoked, revocation := Some(Revocation(caller, now, RevokeReason(reason)))))
  }

  function PublishDisclosure(r: Registry, id: int, summary: string, actor: string, now: int): Outcome {
    if Trim(actor) == "" || Trim(summary) == "" then Refuse(r, InvalidRequest)
    else if |Trim(summary)| > MAX_DISCLOSURE_LENGTH then Refuse(r, DisclosureTooLong)
    else
      var s := Sweep(r, now);
      if id !in s.actions then Refuse(s, ActionNotFound)
      else
        var a := s.actions[id];
        if IsOpen(a) then Refuse(s, DisclosureBeforeClose)
        else if a.disclosure.publishedAt.Some? then Refuse(s, DisclosureAlreadyPublished)
        else Put(s, a.(id := id, disclosure := Disclosure(Some(now), Trim(actor), Trim(summary), now > a.expiresAt + DISCLOSURE_WINDOW)))
  }

  // ── activeOverlays ────────────────────────────────────────────────────────

  datatype Overlays = Overlays(assets: set<string>, sources: set<string>, halted: bool)

  predicate Pauses(a: Action, asset: string) { IsOpen(a) && a.kind == PauseFeed && a.asset == Some(asset) && asset != "" }

  predicate Freezes(a: Action, source: string) { IsOpen(a) && a.kind == FreezeSource && a.source == Some(source) && source != "" }

  predicate Halts(a: Action) { IsOpen(a) && a.kind == HaltPublishing }

  /** The overlays of a swept registry. */
  ghost predicate OverlaysOf(o: Overlays, actions: map<int, Action>) {
    && (forall x :: x in o.assets <==> exists id :: id in actions && Pauses(actions[id], x))
    && (forall x :: x in o.sources <==> exists id :: id in actions && Freezes(actions[id], x))
    && (o.halted <==> exists id :: id in actions && Halts(actions[id]))
  }

  // ── isFrozen ──────────────────────────────────────────────────────────────

  /** The action stops publishing of the asset at time `t`: it is Active or Reviewed, has not run out,
      and either halts everything or pauses this asset. */
  ghost predicate StopsAsset(a: Action, asset: string, t: int) {
    && (a.status == Active || a.status == Reviewed) && t < a.expiresAt
    && (a.kind == HaltPublishing || (a.kind == PauseFeed && asset != "" && a.asset == Some(asset)))
  }

  ghost predicate StopsSource(a: Action, source: string, t: int) {
    && (a.status == Active || a.status == Reviewed) && t < a.expiresAt
    && (a.kind == HaltPublishing || (a.kind == FreezeSource && source != "" && a.source == Some(source)))
  }

  ghost predicate AssetFrozen(actions: map<int, Action>, asset: string, t: int) {
    exists id :: id in actions && StopsAsset(actions[id], NormalizeAsset(asset), t)
  }

  ghost predicate SourceFrozen(actions: map<int, Action>, source: string, t: int) {
    exists id :: id in actions && StopsSource(actions[id], NormalizeSource(source), t)
  }

  lemma SweptStops(a: Action, x: string, t: int)
    ensures StopsAsset(a, x, t) <==> Halts(SweepAction(a, t)) || Pauses(SweepAction(a, t), x)
    ensures StopsSource(a, x, t) <==> Halts(SweepAction(a, t)) || Freezes(SweepAction(a, t), x)
  {
  }

  lemma OverlaysFreeze(r: Registry, o: Overlays, x: string, t: int)
    requires OverlaysOf(o, Sweep(r, t).actions)
    ensures o.halted || NormalizeAsset(x) in o.assets <==> AssetFrozen(r.actions, x, t)
    ensures o.halted || NormalizeSource(x) in o.sources <==> SourceFrozen(r.actions, x, t)
  {
    hide SweepAction, StopsAsset, StopsSource, Halts, Pauses, Freezes, NormalizeAsset, NormalizeSource;
    var swept := Sweep(r, t).actions;
    forall id | id in r.actions
      ensures StopsAsset(r.actions[id], NormalizeAsset(x), t) <==> Halts(swept[id]) || Pauses(swept[id], NormalizeAsset(x))
      ensures StopsSource(r.actions[id], NormalizeSource(x), t) <==> Halts(swept[id]) || Freezes(swept[id], NormalizeSource(x))
    {
      SweptStops(r.actions[id], NormalizeAsset(x), t);
      SweptStops(r.actions[id], NormalizeSource(x), t);
    }
  }

  // ── The registry ──────────────────────────────────────────────────────────

  /** The actions after the sweep has visited the ids below `k`. */
  ghost function SweptBelow(start: map<int, Action>, k: int, now: int): map<int, Action> {
    map id | id in start :: if id < k then SweepAction(start[id], now) else start[id]
  }

  lemma SweepPush(start: map<int, Action>, k: int, now: int)
    ensures SweptBelow(start, k, now).Keys == start.Keys
    ensures SweptBelow(start, k + 1, now)
         == if k in start then SweptBelow(start, k, now)[k := SweepAction(start[k], now)] else SweptBelow(start, k, now)
    ensures k in start ==> SweptBelow(start, k, now)[k] == start[k]
  {
    hide SweepAction;
  }

  predicate RunsOut(a: Action, now: int) { IsOpen(a) && now >= a.expiresAt }

  ghost function RunsOutBelow(start: map<int, Action>, k: int, now: int): set<int> {
    set id | id in start && id < k && RunsOut(start[id], now)
  }

  lemma RunsOutPush(start: map<int, Action>, k: int, now: int)
    ensures |RunsOutBelow(start, k + 1, now)| == |RunsOutBelow(start, k, now)| + (if k in start && RunsOut(start[k], now) then 1 else 0)
  {
    hide RunsOut;
    assert RunsOutBelow(start, k + 1, now) == RunsOutBelow(start, k, now) + (if k in start && RunsOut(start[k], now) then {k} else {});
  }

  class EmergencyActionRegistry {
    var actions: map<int, Action>
    var actionCount: nat

    ghost predicate Valid()
      reads this
    {
      forall id :: id in actions ==> actions[id].id == id && 1 <= id <= actionCount
    }

    ghost function Value(): Registry
      reads this
    {
      Registry(actions, actionCount)
    }

    constructor ()
      ensures Valid() && Value() == Registry(map[], 0)
    {
      actions := map[];
      actionCount := 0;
    }

    /** Actions are visited in the order they were stored, which is the order of their ids. */
    method SweepAll(now: int) returns (changed: nat)
      requires Valid()
      modifies this`actions
      ensures Valid() && Value() == Sweep(old(Value()), now)
      ensures changed == |set id | id in old(actions) && RunsOut(old(actions)[id], now)|
    {
      hide SweepAction, RunsOut;
      changed := 0;
      ghost var start := actions;
      assert RunsOutBelow(start, 1, now) == {};
      for id := 1 to actionCount + 1
        invariant actions == SweptBelow(start, id, now)
        invariant Valid() && changed == |RunsOutBelow(start, id, now)|
      {
        SweepPush(start, id, now);
        RunsOutPush(start, id, now);
        if id in actions {
          var action, closed := SweepOne(actions[id], now);
          if closed { changed := changed + 1; }
          actions := actions[id := action];
          assert action.id == id;
        }
      }
      assert RunsOutBelow(start, actionCount + 1, now) == set id | id in start && RunsOut(start[id], now);
    }

    static method SweepOne(a: Action, now: int) returns (action: Action, changed: bool)
      ensures action == SweepAction(a, now) && action.id == a.id
      ensures changed <==> RunsOut(a, now)
    {
      action, changed := a, false;
      var expired := now >= action.expiresAt;
      if (action.status == Active || action.status == Reviewed) && expired {
        action := action.(status := if action.status == Reviewed then Expired else ExpiredUnreviewed);
        changed := true;
      }
      if action.reviewedAt.None? && !IsOpen(action) && action.status == ExpiredUnreviewed {
        action := action.(reviewOverdue := true);
      }
      if action.disclosure.publishedAt.None? && now >= action.expiresAt + DISCLOSURE_WINDOW {
        action := action.(disclosure := action.disclosure.(overdue := true));
      }
    }

    method OpenAction(input: OpenInput, version: int, now: int) returns (r: Result<Action, Error>)
      requires Valid()
      modifies this
      ensures Valid() && Outcome(Value(), r) == Open(old(Value()), input, version, now)
    {
      hide Trim, Trimmed, Sweep, ResolveExpiry, NormalizeAsset, NormalizeSource, Covered, ParseKind;
      var actor := Trim(input.actor);
      if actor == "" { return Err(InvalidRequest); }
      var kind := ParseKind(input.kind);
      if kind.None? { return Err(KindNotPermitted); }
      var reason := Trim(input.reason);
      if reason == "" { return Err(InvalidRequest); }
      if |reason| > MAX_REASON_LENGTH { return Err(ReasonTooLong); }
      var expiry := ResolveExpiry(now, input.expiresAt, input.duration, None);
      if expiry.Err? { return Err(expiry.error); }
      var asset := MapOption(input.asset, NormalizeAsset);
      var source := MapOption(input.source, NormalizeSource);
      var scope := ScopeError(kind.value, asset, source);
      if scope.Some? { return Err(scope.value); }
      var _ := SweepAll(now);
      var duplicate := FindOpen(kind.value, asset, source);
      if duplicate { return Err(DuplicateAction); }
      actionCount := actionCount + 1;
      var action := Action(actionCount, kind.value, asset, source, reason, actor, now, expiry.value,
                           Min(now + REVIEW_WINDOW, expiry.value), Active, None, None, None, false, 0, version, None, UNPUBLISHED);
      actions := actions[actionCount := action];
      r := Ok(action);
    }

    method FindOpen(kind: Kind, asset: Option<string>, source: Option<string>) returns (found: bool)
      requires Valid()
      ensures found <==> Covered(Value(), kind, asset, source)
    {
      hide IsOpen, SameScope;
      for id := 1 to actionCount + 1
        invariant forall j :: j in actions && j < id ==> !(IsOpen(actions[j]) && SameScope(actions[j], kind, asset, source))
      {
        if id in actions && IsOpen(actions[id]) && SameScope(actions[id], kind, asset, source) { return true; }
      }
      found := false;
    }

    method Review(id: int, reviewer: string, decision: Decision, attested: bool, recused: bool, now: int)
      returns (r: Result<Action, Error>)
      requires Valid()
      modifies this`actions
      ensures Valid() && Outcome(Value(), r) == ReviewAction(old(Value()), id, reviewer, decision, attested, recused, now)
    {
      hide Trim, Trimmed, Sweep;
      var actor := Trim(reviewer);
      if actor == "" { return Err(InvalidRequest); }
      var _ := SweepAll(now);
      if id !in actions { return Err(ActionNotFound); }
      var action := actions[id];
      if action.status == Reviewed { return Err(AlreadyReviewed); }
      if action.status != Active { return Err(ActionClosed); }
      if now > action.reviewDeadlineAt {
        actions := actions[id := action.(reviewOverdue := true)];
        return Err(ReviewDeadlinePassed);
      }
      if actor == action.actor { return Err(IndependentReviewRequired); }
      if !attested { return Err(AttestationRequired); }
      if recused { return Err(ConflictOfInterest); }
      action := action.(reviewer := Some(actor), reviewedAt := Some(now), reviewDecision := Some(decision), reviewOverdue := false);
      if decision == Overturn {
        action := action.(status := Revoked, revocation := Some(Revocation(actor, now, Some("overturned on independent review"))));
      } else {
        action := action.(status := Reviewed);
      }
      actions := actions[id := action];
      r := Ok(action);
    }

    method Renew(id: int, actor: string, expiresAt: TimeArg, duration: TimeArg, now: int) returns (r: Result<Action, Error>)
      requires Valid()
      modifies this`actions
      ensures Valid() && Outcome(Value(), r) == RenewAction(old(Value()), id, actor, expiresAt, duration, now)
    {
      hide Trim, Trimmed, Sweep, ResolveExpiry;
      if Trim(actor) == "" { return Err(InvalidRequest); }
      var _ := SweepAll(now);
      if id !in actions { return Err(ActionNotFound); }
      var action := actions[id];
      if action.status != Reviewed { return Err(ReviewRequiredBeforeRenewal); }
      if action.renewals >= MAX_RENEWALS { return Err(RenewalLimitReached); }
      var expiry := ResolveExpiry(now, expiresAt, duration, Some(action.expiresAt));
      if expiry.Err? { return Err(expiry.error); }
      if expiry.value > action.expiresAt + MAX_DURATION { return Err(RenewalTooLong); }
      if expiry.value > action.createdAt + MAX_DURATION * (action.renewals + 2) { return Err(RenewalTotalCapExceeded); }
      action := action.(expiresAt := expiry.value, renewals := action.renewals + 1, status := Active, reviewer := None,
                        reviewedAt := None, reviewDecision := None, reviewOverdue := false,
                        reviewDeadlineAt := Min(now + REVIEW_WINDOW, expiry.value));
      actions := actions[id := action];
      r := Ok(action);
    }

    method Revoke(id: int, actor: string, reason: Option<string>, now: int) returns (r: Result<Action, Error>)
      requires Valid()
      modifies this`actions
      ensures Valid() && Outcome(Value(), r) == RevokeAction(old(Value()), id, actor, reason, now)
    {
      hide Trim, Trimmed, Sweep;
      var caller := Trim(actor);
      if caller == "" { return Err(InvalidRequest); }
      var _ := SweepAll(now);
      if id !in actions { return Err(ActionNotFound); }
      var action := actions[id];
      if !IsOpen(action) { return Err(ActionClosed); }
      if reason.Some? && |reason.value| > MAX_REASON_LENGTH { return Err(ReasonTooLong); }
      action := action.(status := Revoked, revocation := Some(Revocation(caller, now, RevokeReason(reason))));
      actions := actions[id := action];
      r := Ok(action);
    }

    method Disclose(id: int, summary: string, actor: string, now: int) returns (r: Result<Action, Error>)
      requires Valid()
      modifies this`actions
      ensures Valid() && Outcome(Value(), r) == PublishDisclosure(old(Value()), id, summary, actor, now)
    {
      hide Trim, Trimmed, Sweep;
      var caller, text := Trim(actor), Trim(summary);
      if caller == "" || text == "" { return Err(InvalidRequest); }
      if |text| > MAX_DISCLOSURE_LENGTH { return Err(DisclosureTooLong); }
      var _ := SweepAll(now);
      if id !in actions { return Err(ActionNotFound); }
      var action := actions[id];
      if IsOpen(action) { return Err(DisclosureBeforeClose); }
      if action.disclosure.publishedAt.Some? { return Err(DisclosureAlreadyPublished); }
      action := action.(disclosure := Disclosure(Some(now), caller, text, now > action.expiresAt + DISCLOSURE_WINDOW));
      actions := actions[id := action];
      r := Ok(action);
    }

    method ActiveOverlays(now: int) returns (o: Overlays)
      requires Valid()
      modifies this`actions
      ensures Valid() && Value() == Sweep(old(Value()), now)
      ensures OverlaysOf(o, actions)
    {
      hide Sweep;
      var _ := SweepAll(now);
      var assets: set<string>, sources: set<string>, halted := {}, {}, false;
      for id := 1 to actionCount + 1
        invariant forall x :: x in assets <==> exists j :: j in actions && j < id && Pauses(actions[j], x)
        invariant forall x :: x in sources <==> exists j :: j in actions && j < id && Freezes(actions[j], x)
        invariant halted <==> exists j :: j in actions && j < id && Halts(actions[j])
      {
        if id in actions && IsOpen(actions[id]) {
          var action := actions[id];
          if action.kind == PauseFeed && !Blank(action.asset) { assets := assets + {action.asset.value}; }
          if action.kind == FreezeSource && !Blank(action.source) { sources := sources + {action.source.value}; }
          if action.kind == HaltPublishing { halted := true; }
        }
      }
      o := Overlays(assets, sources, halted);
    }

    method IsFrozen(asset: string, now: int) returns (frozen: bool)
      requires Valid()
      modifies this`actions
      ensures Valid() && Value() == Sweep(old(Value()), now)
      ensures frozen <==> AssetFrozen(old(actions), asset, now)
    {
      hide Sweep, OverlaysOf, AssetFrozen, SourceFrozen, NormalizeAsset, NormalizeSource;
      ghost var before := Value();
      var overlays := ActiveOverlays(now);
      OverlaysFreeze(before, overlays, asset, now);
      frozen := overlays.halted || NormalizeAsset(asset) in overlays.assets;
    }

    method IsSourceFrozen(source: string, now: int) returns (frozen: bool)
      requires Valid()
      modifies this`actions
      ensures Valid() && Value() == Sweep(old(Value()), now)
      ensures frozen <==> SourceFrozen(old(actions), source, now)
    {
      hide Sweep, OverlaysOf, AssetFrozen, SourceFrozen, NormalizeAsset, NormalizeSource;
      ghost var before := Value();
      var overlays := ActiveOverlays(now);
      OverlaysFreeze(before, overlays, source, now);
      frozen := overlays.halted || NormalizeSource(source) in overlays.sources;
    }
  }
}
