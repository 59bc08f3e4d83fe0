/** The conflict-of-interest register: scoped, time-bounded declarations that recuse their author,
    and attestations that make a reviewer eligible. */
module CoiRegister {
  import opened Wrappers
  import opened Text

  // Durations in milliseconds.
  const MAX_DISCLOSURE := 365 * 24 * 60 * 60 * 1000
  const ATTESTATION_VALIDITY := 90 * 24 * 60 * 60 * 1000
  const MAX_DETAILS_LENGTH := 2000
  const MAX_STATEMENT_LENGTH := 500

  datatype Relationship = Financial | Employment | ProviderAffiliation | TokenHolding | Family | Other

  datatype Scope = AssetScope | SourceScope | ProtocolScope

  datatype Status = Active | Withdrawn | Expired

  datatype Disclosure = Disclosure(
    id: int,
    actor: string,
    relationship: Relationship,
    counterparty: string,
    scope: Scope,
    details: string,
    disclosedAt: int,
    expiresAt: int,
    status: Status,
    closedAt: Option<int>)

  datatype Attestation = Attestation(attestedAt: int, expiresAt: int)

  datatype RecusalRequest = RecusalRequest(assets: seq<string>, sources: seq<string>)

  datatype Error =
    | InvalidRequest | AttestationRequired | InvalidRelationship | InvalidScope | DetailsTooLong | DetailsRequired
    | InvalidExpiry | ExpiryInPast | ExpiryTooFar | DuplicateDisclosure | DisclosureNotFound
    | NotDisclosureOwner | DisclosureNotActive | StatementTooLong

  datatype Register = Register(disclosures: map<int, Disclosure>, attestations: map<string, Attestation>, count: nat)

  datatype Outcome = Outcome(state: Register, result: Result<Disclosure, Error>)

  /** An optional expiry: left out, not a time, or a time in milliseconds. */
  datatype TimeArg = Absent | Malformed | At(ms: int)

  datatype DeclareInput = DeclareInput(
    actor: string,
    relationship: string,
    counterparty: string,
    scope: string,
    details: string,
    expiresAt: TimeArg,
    attested: bool)

  function ParseRelationship(s: string): Option<Relationship> {
    if s == "financial" then Some(Financial)
    else if s == "employment" then Some(Employment)
    else if s == "provider-affiliation" then Some(ProviderAffiliation)
    else if s == "token-holding" then Some(TokenHolding)
    else if s == "family" then Some(Family)
    else if s == "other" then Some(Other)
    else None
  }

  function ParseScope(s: string): Option<Scope> {
    if s == "asset" then Some(AssetScope)
    else if s == "source" then Some(SourceScope)
    else if s == "protocol" then Some(ProtocolScope)
    else None
  }

  // ── declare ───────────────────────────────────────────────────────────────

  function Expiry(arg: TimeArg, now: int): Result<int, Error> {
    match arg
    case Absent => Ok(now + MAX_DISCLOSURE)
    case Malformed => Err(InvalidExpiry)
    case At(ms) =>
      if ms <= now then Err(ExpiryInPast) else if ms > now + MAX_DISCLOSURE then Err(ExpiryTooFar) else Ok(ms)
  }

  /** The declaration an accepted input makes, before it gets its number. */
  function Draft(input: DeclareInput, now: int): Result<Disclosure, Error> {
    var relationship, scope := ParseRelationship(input.relationship), ParseScope(input.scope);
    if Trim(input.actor) == "" then Err(InvalidRequest)
    else if !input.attested then Err(AttestationRequired)
    else if relationship.None? then Err(InvalidRelationship)
    else if scope.None? then Err(InvalidScope)
    else if Trim(input.counterparty) == "" then Err(InvalidRequest)
    else if |Trim(input.details)| > MAX_DETAILS_LENGTH then Err(DetailsTooLong)
    else if relationship.value == Other && Trim(input.details) == "" then Err(DetailsRequired)
    else
      var expiry := Expiry(input.expiresAt, now);
      if expiry.Err? then Err(expiry.error)
      else Ok(Disclosure(0, Trim(input.actor), relationship.value, Trim(input.counterparty), scope.value,
                         Trim(input.details), now, expiry.value, Active, None))
  }

  predicate Repeats(d: Disclosure, draft: Disclosure) {
    && d.status == Active && d.actor == draft.actor && d.relationship == draft.relationship && d.scope == draft.scope
    && NormalizeAsset(d.counterparty) == NormalizeAsset(draft.counterparty)
  }

  predicate HasRepeat(disclosures: map<int, Disclosure>, draft: Disclosure) {
    exists id :: id in disclosures && Repeats(disclosures[id], draft)
  }

  function Declare(r: Register, input: DeclareInput, now: int): Outcome {
    var draft := Draft(input, now);
    if draft.Err? then Outcome(r, draft)
    else if HasRepeat(r.disclosures, draft.value) then Outcome(r, Err(DuplicateDisclosure))
    else
      var d := draft.value.(id := r.count + 1);
      Outcome(Register(r.disclosures[d.id := d], r.attestations, r.count + 1), Ok(d))
  }

  // ── withdraw, sweep, attest ───────────────────────────────────────────────

  function Withdraw(r: Register, id: int, actor: string, now: int): Outcome {
    if id !in r.disclosures then Outcome(r, Err(DisclosureNotFound))
    else if Trim(actor) == "" then Outcome(r, Err(InvalidRequest))
    else if r.disclosures[id].actor != Trim(actor) then Outcome(r, Err(NotDisclosureOwner))
    else if r.disclosures[id].status != Active then Outcome(r, Err(DisclosureNotActive))
    else
      var d := r.disclosures[id].(status := Withdrawn, closedAt := Some(now));
      Outcome(r.(disclosures := r.disclosures[id := d]), Ok(d))
  }

  function SweepOne(d: Disclosure, now: int): Disclosure {
    if d.status == Active && now >= d.expiresAt then d.(status := Expired) else d
  }

  function Sweep(r: Register, now: int): Register {
    r.(disclosures := map id | id in r.disclosures :: SweepOne(r.disclosures[id], now))
  }

  function Attest(r: Register, actor: string, statementLength: nat, now: int): (Register, Result<Attestation, Error>) {
    if Trim(actor) == "" then (r, Err(InvalidRequest))
    else if statementLength > MAX_STATEMENT_LENGTH then (r, Err(StatementTooLong))
    else
      var a := Attestation(now, now + ATTESTATION_VALIDITY);
      (r.(attestations := r.attestations[Trim(actor) := a]), Ok(a))
  }

  predicate Attested(r: Register, actor: string, now: int) {
    actor in r.attestations && now < r.attestations[actor].expiresAt
  }

  // ── Recusal ───────────────────────────────────────────────────────────────

  /** The counterparty is one of the names, ignoring case and surrounding space. */
  predicate Names(names: seq<string>, counterparty: string) {
    exists i :: 0 <= i < |names| && NormalizeAsset(names[i]) == NormalizeAsset(counterparty)
  }

  predicate Covers(d: Disclosure, request: RecusalRequest) {
    match d.scope
    case ProtocolScope => true
    case AssetScope => Names(request.assets, d.counterparty)
    case SourceScope => Names(request.sources, d.counterparty)
  }

  /** The declaration stands against its author taking part in the decision. */
  predicate Recuses(d: Disclosure, actor: string, request: RecusalRequest) {
    d.actor == actor && d.status != Withdrawn && Covers(d, request)
  }

  predicate Recused(disclosures: map<int, Disclosure>, actor: string, request: RecusalRequest) {
    exists id :: id in disclosures && Recuses(disclosures[id], actor, request)
  }

  datatype Reason = ExpiredDeclaration(id: int) | ActiveRelationship(id: int)

  function ReasonOf(d: Disclosure, id: int): Reason { if d.status == Expired then ExpiredDeclaration(id) else ActiveRelationship(id) }

  predicate Mentions(reasons: seq<Reason>, id: int) {
    exists k :: 0 <= k < |reasons| && reasons[k].id == id
  }

  lemma MentionsPush(reasons: seq<Reason>, reason: Reason, id: int)
    ensures Mentions(reasons + [reason], id) <==> Mentions(reasons, id) || reason.id == id
  {
    var more := reasons + [reason];
    assert more[|reasons|] == reason;
    if Mentions(reasons, id) {
      var k :| 0 <= k < |reasons| && reasons[k].id == id;
      assert more[k].id == id;
    }
  }

  lemma NoMentions()
    ensures forall id :: !Mentions([], id)
  {
  }

  lemma FirstMentioned(reasons: seq<Reason>)
    ensures reasons != [] ==> Mentions(reasons, reasons[0].id)
  {
  }

  lemma ReasonMeans(d: Disclosure, id: int)
    ensures ReasonOf(d, id).id == id && (ReasonOf(d, id).ExpiredDeclaration? <==> d.status == Expired)
  {
  }

  datatype Eligibility = Eligible | NotAttested | Conflicted(reasons: seq<Reason>)

  // ── The register ──────────────────────────────────────────────────────────

  ghost function SweptBelow(start: map<int, Disclosure>, k: int, now: int): map<int, Disclosure> {
    map id | id in start :: if id < k then SweepOne(start[id], now) else start[id]
  }

  lemma SweepPush(start: map<int, Disclosure>, k: int, now: int)
    ensures SweptBelow(start, k, now).Keys == start.Keys
    ensures SweptBelow(start, k + 1, now)
         == if k in start then SweptBelow(start, k, now)[k := SweepOne(start[k], now)] else SweptBelow(start, k, now)
    ensures k in start ==> SweptBelow(start, k, now)[k] == start[k]
  {
    hide SweepOne;
  }

  predicate RanOut(d: Disclosure, now: int) { d.status == Active && now >= d.expiresAt }

  ghost function RanOutBelow(start: map<int, Disclosure>, k: int, now: int): set<int> {
    set id | id in start && id < k && RanOut(start[id], now)
  }

  lemma RanOutPush(start: map<int, Disclosure>, k: int, now: int)
    ensures |RanOutBelow(start, k + 1, now)| == |RanOutBelow(start, k, now)| + (if k in start && RanOut(start[k], now) then 1 else 0)
  {
    hide RanOut;
    assert RanOutBelow(start, k + 1, now) == RanOutBelow(start, k, now) + (if k in start && RanOut(start[k], now) then {k} else {});
  }

  class ConflictRegister {
    var disclosures: map<int, Disclosure>
    var attestations: map<string, Attestation>
    var disclosureCount: nat

    ghost predicate Valid()
      reads this
    {
      forall id :: id in disclosures ==> disclosures[id].id == id && 1 <= id <= disclosureCount
    }

    ghost function Value(): Register
      reads this
    {
      Register(disclosures, attestations, disclosureCount)
    }

    constructor ()
      ensures Valid() && Value() == Register(map[], map[], 0)
    {
      disclosures, attestations, disclosureCount := map[], map[], 0;
    }

    method DeclareConflict(input: DeclareInput, now: int) returns (r: Result<Disclosure, Error>)
      requires Valid()
      modifies this
      ensures Valid() && Outcome(Value(), r) == Declare(old(Value()), input, now)
    {
      hide Draft, Repeats;
      var draft := Draft(input, now);
      if draft.Err? { return Err(draft.error); }
      for id := 1 to disclosureCount + 1
        invariant forall j :: j in disclosures && j < id ==> !Repeats(disclosures[j], draft.value)
      {
        if id in disclosures && Repeats(disclosures[id], draft.value) { return Err(DuplicateDisclosure); }
      }
      disclosureCount := disclosureCount + 1;
      var d := draft.value.(id := disclosureCount);
      disclosures := disclosures[disclosureCount := d];
      r := Ok(d);
    }

    method WithdrawDisclosure(id: int, actor: string, now: int) returns (r: Result<Disclosure, Error>)
      requires Valid()
      modifies this`disclosures
      ensures Valid() && Outcome(Value(), r) == Withdraw(old(Value()), id, actor, now)
    {
      hide Trim, Trimmed;
      if id !in disclosures { return Err(DisclosureNotFound); }
      var caller := Trim(actor);
      if caller == "" { return Err(InvalidRequest); }
      var d := disclosures[id];
      if d.actor != caller { return Err(NotDisclosureOwner); }
      if d.status != Active { return Err(DisclosureNotActive); }
      d := d.(status := Withdrawn, closedAt := Some(now));
      disclosures := disclosures[id := d];
      r := Ok(d);
    }

    /** Declarations are visited in the order they were stored, which is the order of their numbers. */
    method SweepAll(now: int) returns (expired: nat)
      requires Valid()
      modifies this`disclosures
      ensures Valid() && Value() == Sweep(old(Value()), now)
      ensures expired == |set id | id in old(disclosures) && RanOut(old(disclosures)[id], now)|
    {
      expired := 0;
      ghost var start := disclosures;
      assert RanOutBelow(start, 1, now) == {};
      for id := 1 to disclosureCount + 1
        invariant disclosures == SweptBelow(start, id, now)
        invariant Valid() && expired == |RanOutBelow(start, id, now)|
      {
        SweepPush(start, id, now);
        RanOutPush(start, id, now);
        if id in disclosures && disclosures[id].status == Active && now >= disclosures[id].expiresAt {
          disclosures := disclosures[id := disclosures[id].(status := Expired)];
          expired := expired + 1;
        }
      }
      assert RanOutBelow(start, disclosureCount + 1, now) == set id | id in start && RanOut(start[id], now);
    }

    method AttestActor(actor: string, statementLength: nat, now: int) returns (r: Result<Attestation, Error>)
      requires Valid()
      modifies this`attestations
      ensures Valid() && (Value(), r) == Attest(old(Value()), actor, statementLength, now)
    {
      hide Trim, Trimmed;
      var identity := Trim(actor);
      if identity == "" { return Err(InvalidRequest); }
      if statementLength > MAX_STATEMENT_LENGTH { return Err(StatementTooLong); }
      var a := Attestation(now, now + ATTESTATION_VALIDITY);
      attestations := attestations[identity := a];
      r := Ok(a);
    }

    /** One reason for each declaration that recuses the actor, of the kind its status gives, and none
        besides. */
    method RecusalReasons(actor: string, request: RecusalRequest, now: int) returns (reasons: seq<Reason>)
      requires Valid()
      modifies this`disclosures
      ensures Valid() && Value() == Sweep(old(Value()), now)
      ensures forall id :: Mentions(reasons, id) <==> id in disclosures && Recuses(disclosures[id], actor, request)
      ensures forall i, j :: 0 <= i < j < |reasons| ==> reasons[i].id != reasons[j].id
      ensures forall i :: 0 <= i < |reasons| ==>
                reasons[i].id in disclosures && (reasons[i].ExpiredDeclaration? <==> disclosures[reasons[i].id].status == Expired)
      ensures reasons != [] <==> Recused(disclosures, actor, request)
    {
      hide Sweep, Recuses, Mentions, ReasonOf;
      var _ := SweepAll(now);
      reasons := [];
      assert forall j :: !Mentions([], j) by { NoMentions(); }
      for id := 1 to disclosureCount + 1
        invariant forall j :: Mentions(reasons, j) <==> j in disclosures && j < id && Recuses(disclosures[j], actor, request)
        invariant forall i :: 0 <= i < |reasons| ==>
                    reasons[i].id < id && reasons[i].id in disclosures
                    && (reasons[i].ExpiredDeclaration? <==> disclosures[reasons[i].id].status == Expired)
        invariant forall i, j :: 0 <= i < j < |reasons| ==> reasons[i].id != reasons[j].id
      {
        if id in disclosures && Recuses(disclosures[id], actor, request) {
          var reason := ReasonOf(disclosures[id], id);
          assert reason.id == id && (reason.ExpiredDeclaration? <==> disclosures[id].status == Expired) by { ReasonMeans(disclosures[id], id); }
          forall j ensures Mentions(reasons + [reason], j) <==> Mentions(reasons, j) || j == id { MentionsPush(reasons, reason, j); }
          reasons := reasons + [reason];
        }
      }
      assert reasons != [] ==> Mentions(reasons, reasons[0].id) by { FirstMentioned(reasons); }
      assert reasons == [] ==> forall j :: !Mentions(reasons, j) by { NoMentions(); }
    }

    method CheckEligibility(actor: string, request: RecusalRequest, now: int) returns (e: Eligibility)
      requires Valid()
      modifies this`disclosures
      ensures Valid()
      ensures e.NotAttested? <==> !Attested(old(Value()), actor, now)
      ensures e.Eligible? <==> Attested(old(Value()), actor, now) && !Recused(Sweep(old(Value()), now).disclosures, actor, request)
      ensures e.Conflicted? ==> forall id :: Mentions(e.reasons, id) <==> id in disclosures && Recuses(disclosures[id], actor, request)
      ensures Value() == if Attested(old(Value()), actor, now) then Sweep(old(Value()), now) else old(Value())
    {
      hide Sweep, Recused, Recuses, Mentions, ReasonOf;
      if actor !in attestations || now >= attestations[actor].expiresAt { return NotAttested; }
      var reasons := RecusalReasons(actor, request, now);
      e := if |reasons| > 0 then Conflicted(reasons) else Eligible;
    }
  }

  // ── Runs ──────────────────────────────────────────────────────────────────

  datatype Call =
    | DeclareCall(input: DeclareInput, now: int)
    | WithdrawCall(id: int, actor: string, now: int)
    | AttestCall(actor: string, statementLength: nat, now: int)
    | ReadCall(now: int)

  /** `list` and `recusalReasons` sweep and then only read. */
  function Next(r: Register, c: Call): Register {
    match c
    case DeclareCall(input, now) => Declare(r, input, now).state
    case WithdrawCall(id, actor, now) => Withdraw(r, id, actor, now).state
    case AttestCall(actor, n, now) => Attest(r, actor, n, now).0
    case ReadCall(now) => Sweep(r, now)
  }

  function Final(r: Register, calls: seq<Call>): Register {
    if calls == [] then r else Next(Final(r, calls[..|calls| - 1]), calls[|calls| - 1])
  }

  ghost predicate Numbered(r: Register) {
    forall id :: id in r.disclosures ==> 1 <= id <= r.count
  }

  /** Everything about a declaration that a recusal depends on, except whether it was withdrawn. */
  ghost predicate SameTerms(d: Disclosure, e: Disclosure) {
    d.actor == e.actor && d.scope == e.scope && d.counterparty == e.counterparty && d.expiresAt == e.expiresAt
  }

  lemma NextKeepsTerms(r: Register, c: Call, id: int)
    requires Numbered(r) && id in r.disclosures
    ensures Numbered(Next(r, c)) && id in Next(r, c).disclosures
    ensures var d, e := r.disclosures[id], Next(r, c).disclosures[id];
      && SameTerms(d, e)
      && (d.status != Active ==> e.status == d.status)
      && (e.status == Withdrawn && d.status != Withdrawn ==> WithdrawnBy(r, c, id))
  {
    hide Draft, HasRepeat, Trim, Trimmed;
  }

  /** The call is the author's own withdrawal of declaration `id`, and it is accepted. */
  predicate WithdrawnBy(r: Register, c: Call, id: int) {
    && c.WithdrawCall? && c.id == id && id in r.disclosures && Trim(c.actor) == r.disclosures[id].actor
    && Withdraw(r, c.id, c.actor, c.now).result.Ok?
  }

  ghost predicate EverWithdrawn(r: Register, calls: seq<Call>, id: int) {
    exists i :: 0 <= i < |calls| && WithdrawnBy(Final(r, calls[..i]), calls[i], id)
  }

  lemma EverPush(r: Register, calls: seq<Call>, id: int)
    requires calls != []
    ensures EverWithdrawn(r, calls[..|calls| - 1], id) ==> EverWithdrawn(r, calls, id)
    ensures WithdrawnBy(Final(r, calls[..|calls| - 1]), calls[|calls| - 1], id) ==> EverWithdrawn(r, calls, id)
  {
    hide WithdrawnBy, Final;
    var n := |calls| - 1;
    if EverWithdrawn(r, calls[..n], id) {
      var i :| 0 <= i < n && WithdrawnBy(Final(r, calls[..n][..i]), calls[..n][i], id);
      assert calls[..n][..i] == calls[..i];
    }
  }

  lemma {:induction false} TermsKept(r: Register, calls: seq<Call>, id: int)
    requires Numbered(r) && id in r.disclosures
    ensures var s := Final(r, calls);
      && Numbered(s) && id in s.disclosures && SameTerms(r.disclosures[id], s.disclosures[id])
      && (r.disclosures[id].status != Active ==> s.disclosures[id].status == r.disclosures[id].status)
      && (s.disclosures[id].status == Withdrawn && r.disclosures[id].status != Withdrawn ==> EverWithdrawn(r, calls, id))
  {
    hide Next, WithdrawnBy, EverWithdrawn;
    if calls != [] {
      var n := |calls| - 1;
      TermsKept(r, calls[..n], id);
      NextKeepsTerms(Final(r, calls[..n]), calls[n], id);
      EverPush(r, calls, id);
    }
  }

  /** A declaration that recuses its author keeps doing so through every later call, unless the
      author withdraws that very declaration. */
  lemma RecusalEndsOnlyByWithdrawal(r: Register, calls: seq<Call>, id: int, actor: string, request: RecusalRequest)
    requires Numbered(r) && id in r.disclosures && Recuses(r.disclosures[id], actor, request)
    ensures id in Final(r, calls).disclosures
    ensures !Recuses(Final(r, calls).disclosures[id], actor, request) ==> EverWithdrawn(r, calls, id)
  {
    hide Final, EverWithdrawn, Names;
    TermsKept(r, calls, id);
  }

  /** A declaration marked expired recuses its author for good: no later call can lift it. */
  lemma ExpiredRecusesForever(r: Register, calls: seq<Call>, id: int, actor: string, request: RecusalRequest)
    requires Numbered(r) && id in r.disclosures && Recuses(r.disclosures[id], actor, request)
    requires r.disclosures[id].status == Expired
    ensures Recused(Final(r, calls).disclosures, actor, request)
  {
    hide Final, EverWithdrawn, Names;
    TermsKept(r, calls, id);
    assert Recuses(Final(r, calls).disclosures[id], actor, request);
  }

  /** Applying expiry never changes who is recused. */
  lemma SweepKeepsRecusal(r: Register, now: int, actor: string, request: RecusalRequest)
    ensures Recused(Sweep(r, now).disclosures, actor, request) <==> Recused(r.disclosures, actor, request)
  {
    hide Names;
    if Recused(r.disclosures, actor, request) {
      var id :| id in r.disclosures && Recuses(r.disclosures[id], actor, request);
      assert Recuses(Sweep(r, now).disclosures[id], actor, request);
    }
    if Recused(Sweep(r, now).disclosures, actor, request) {
      var id :| id in Sweep(r, now).disclosures && Recuses(Sweep(r, now).disclosures[id], actor, request);
      assert Recuses(r.disclosures[id], actor, request);
    }
  }

  // ── Lazy expiry can be observed here ──────────────────────────────────────

  /** `withdraw` does not apply expiry first. A read at `earlier` changes its answer exactly when the
      author withdraws a declaration that is still marked active although it had run out by then. */
  lemma WithdrawSeesSweep(r: Register, id: int, actor: string, earlier: int, now: int)
    ensures Withdraw(Sweep(r, earlier), id, actor, now).result != Withdraw(r, id, actor, now).result <==>
      && id in r.disclosures && Trim(actor) != "" && r.disclosures[id].actor == Trim(actor)
      && r.disclosures[id].status == Active && r.disclosures[id].expiresAt <= earlier
  {
    hide Trim, Trimmed;
  }

  /** `declare` does not apply expiry first either. A read at `earlier` changes its answer exactly when
      every active declaration it repeats had run out by then, and there is one. */
  lemma DeclareSeesSweep(r: Register, input: DeclareInput, earlier: int, now: int)
    ensures Declare(Sweep(r, earlier), input, now).result != Declare(r, input, now).result <==>
      && Draft(input, now).Ok? && HasRepeat(r.disclosures, Draft(input, now).value)
      && forall id :: id in r.disclosures && Repeats(r.disclosures[id], Draft(input, now).value) ==> r.disclosures[id].expiresAt <= earlier
  {
    hide Draft, NormalizeAsset;
    if Draft(input, now).Ok? { RepeatsAfterSweep(r, Draft(input, now).value, earlier); }
  }

  lemma RepeatsAfterSweep(r: Register, draft: Disclosure, earlier: int)
    ensures HasRepeat(Sweep(r, earlier).disclosures, draft) <==>
      exists id :: id in r.disclosures && Repeats(r.disclosures[id], draft) && earlier < r.disclosures[id].expiresAt
  {
    hide NormalizeAsset;
    if HasRepeat(Sweep(r, earlier).disclosures, draft) {
      var id :| id in Sweep(r, earlier).disclosures && Repeats(Sweep(r, earlier).disclosures[id], draft);
      assert Repeats(r.disclosures[id], draft);
    }
    if exists id :: id in r.disclosures && Repeats(r.disclosures[id], draft) && earlier < r.disclosures[id].expiresAt {
      var id :| id in r.disclosures && Repeats(r.disclosures[id], draft) && earlier < r.disclosures[id].expiresAt;
      assert Repeats(Sweep(r, earlier).disclosures[id], draft);
    }
  }

  /** For every declaration a new register accepts: its withdrawal, once the declaration has run out, is
      accepted if nobody looked at the register, and refused if it was listed first. */
  lemma ListingBlocksWithdrawal(input: DeclareInput, now: int, later: int)
    requires Draft(input, now).Ok? && later >= Draft(input, now).value.expiresAt
    ensures var empty := Register(map[], map[], 0);
      && Withdraw(Final(empty, [DeclareCall(input, now)]), 1, input.actor, later).result.Ok?
      && Withdraw(Final(empty, [DeclareCall(input, now), ReadCall(later)]), 1, input.actor, later).result == Err(DisclosureNotActive)
  {
    hide Draft, Trim, Trimmed;
    var empty, declare := Register(map[], map[], 0), DeclareCall(input, now);
    var d := Draft(input, now).value.(id := 1);
    DraftFields(input, now);
    assert [declare][..0] == [] && [declare, ReadCall(later)][..1] == [declare];
    assert Final(empty, [declare]) == Register(map[1 := d], map[], 1);
  }

  /** And a declaration repeated after the first has run out is refused if nobody looked at the register,
      and accepted if it was listed first. */
  lemma ListingAdmitsRepeat(input: DeclareInput, now: int, later: int)
    requires Draft(input, now).Ok? && Draft(input, later).Ok? && later >= Draft(input, now).value.expiresAt
    ensures var empty := Register(map[], map[], 0);
      && Declare(Final(empty, [DeclareCall(input, now)]), input, later).result == Err(DuplicateDisclosure)
      && Declare(Final(empty, [DeclareCall(input, now), ReadCall(later)]), input, later).result.Ok?
  {
    hide Draft, Trim, Trimmed, NormalizeAsset;
    var empty, declare := Register(map[], map[], 0), DeclareCall(input, now);
    var d := Draft(input, now).value.(id := 1);
    DraftFields(input, now);
    DraftSame(input, now, later);
    assert [declare][..0] == [] && [declare, ReadCall(later)][..1] == [declare];
    var r := Register(map[1 := d], map[], 1);
    assert Final(empty, [declare]) == r;
    assert Repeats(r.disclosures[1], Draft(input, later).value);
    assert Final(empty, [declare, ReadCall(later)]) == Sweep(r, later);
  }

  lemma DraftSame(input: DeclareInput, now: int, later: int)
    requires Draft(input, now).Ok? && Draft(input, later).Ok?
    ensures var d, e := Draft(input, now).value, Draft(input, later).value;
      d.actor == e.actor && d.relationship == e.relationship && d.scope == e.scope && d.counterparty == e.counterparty
  {
    hide Trim, Trimmed, Expiry, ParseRelationship, ParseScope;
  }

  lemma DraftFields(input: DeclareInput, now: int)
    requires Draft(input, now).Ok?
    ensures var d := Draft(input, now).value; d.actor == Trim(input.actor) && d.actor != "" && d.status == Active
  {
    hide Trim, Trimmed, Expiry, ParseRelationship, ParseScope;
  }

  /** Such a declaration: a financial interest in a provider, left open for a year. */
  lemma DeclarationAccepted(now: int)
    ensures Draft(DeclareInput("ann", "financial", "band", "source", "", Absent, true), now).Ok?
  {
    hide Trim;
    PlainTrim("ann");
    PlainTrim("band");
    assert Trimmed("");
  }

  lemma PlainTrim(s: string)
    requires s != "" && 'a' <= s[0] <= 'z' && 'a' <= s[|s| - 1] <= 'z'
    ensures Trim(s) == s
  {
    hide Trim;
    assert Trimmed(s);
  }
}
