/** What each call on the conflict-of-interest register does, in the fields of its input, and whom a run
    of calls recuses: exactly the authors of declarations that concern the request and were not withdrawn. */
module CoiEffects {
  import opened Wrappers
  import opened Text
  import opened CoiRegister

  const NOTHING := Register(map[], map[], 0)

  // ── declare ───────────────────────────────────────────────────────────────

  function RelationshipName(r: Relationship): string {
    match r
    case Financial => "financial"
    case Employment => "employment"
    case ProviderAffiliation => "provider-affiliation"
    case TokenHolding => "token-holding"
    case Family => "family"
    case Other => "other"
  }

  function ScopeName(s: Scope): string {
    match s
    case AssetScope => "asset"
    case SourceScope => "source"
    case ProtocolScope => "protocol"
  }

  /** The input is signed, attested, of a known relationship and scope, described and bounded as the rules ask. */
  ghost predicate Proper(input: DeclareInput, now: int) {
    && Trim(input.actor) != "" && input.attested
    && input.relationship in {"financial", "employment", "provider-affiliation", "token-holding", "family", "other"}
    && input.scope in {"asset", "source", "protocol"}
    && Trim(input.counterparty) != "" && |Trim(input.details)| <= 2000
    && (input.relationship == "other" ==> Trim(input.details) != "")
    && (input.expiresAt == Absent || (input.expiresAt.At? && now < input.expiresAt.ms <= now + 365 * 24 * 60 * 60 * 1000))
  }

  /** What an accepted declaration stores. */
  ghost predicate Declared(d: Disclosure, input: DeclareInput, now: int) {
    && d.actor == Trim(input.actor) && RelationshipName(d.relationship) == input.relationship
    && ScopeName(d.scope) == input.scope && d.counterparty == Trim(input.counterparty) && d.details == Trim(input.details)
    && d.disclosedAt == now && d.status == Active && d.closedAt == None
    && d.expiresAt == (if input.expiresAt.At? then input.expiresAt.ms else now + 365 * 24 * 60 * 60 * 1000)
  }

  /** An active declaration by the same actor, of the same relationship and scope, on the same counterparty. */
  ghost predicate SameAs(d: Disclosure, input: DeclareInput) {
    && d.status == Active && d.actor == Trim(input.actor) && RelationshipName(d.relationship) == input.relationship
    && ScopeName(d.scope) == input.scope && NormalizeAsset(d.counterparty) == NormalizeAsset(Trim(input.counterparty))
  }

  lemma DraftMeans(input: DeclareInput, now: int)
    ensures Draft(input, now).Ok? <==> Proper(input, now)
    ensures Draft(input, now).Ok? ==> Declared(Draft(input, now).value, input, now)
  {
    hide Trim, Trimmed;
  }

  lemma RepeatsMeans(d: Disclosure, input: DeclareInput, now: int)
    requires Draft(input, now).Ok?
    ensures Repeats(d, Draft(input, now).value) <==> SameAs(d, input)
  {
    hide Trim, Trimmed, Draft, NormalizeAsset;
    DraftMeans(input, now);
  }

  /** A declaration is accepted exactly when its input is proper and no active one says the same. */
  lemma DeclareAcceptedExactly(r: Register, input: DeclareInput, now: int)
    ensures Declare(r, input, now).result.Ok? <==>
      Proper(input, now) && forall id :: id in r.disclosures ==> !SameAs(r.disclosures[id], input)
  {
    hide Draft, Repeats, SameAs, Proper, Declared;
    DraftMeans(input, now);
    if Draft(input, now).Ok? {
      forall id | id in r.disclosures ensures Repeats(r.disclosures[id], Draft(input, now).value) <==> SameAs(r.disclosures[id], input) {
        RepeatsMeans(r.disclosures[id], input, now);
      }
    }
  }

  /** An accepted declaration is stored under the next number, as its input says; nothing else changes. */
  lemma DeclareMeans(r: Register, input: DeclareInput, now: int)
    ensures var o := Declare(r, input, now);
      if o.result.Ok?
      then && o.result.value.id == r.count + 1 == o.state.count && Declared(o.result.value, input, now)
           && o.state.disclosures == r.disclosures[r.count + 1 := o.result.value] && o.state.attestations == r.attestations
      else o.state == r
  {
    hide Draft, HasRepeat, Trim, Trimmed, Proper;
    DraftMeans(input, now);
  }

  // ── withdraw, sweep, attest ───────────────────────────────────────────────

  lemma WithdrawAcceptedExactly(r: Register, id: int, actor: string, now: int)
    ensures Withdraw(r, id, actor, now).result.Ok? <==>
      id in r.disclosures && Trim(actor) != "" && r.disclosures[id].actor == Trim(actor) && r.disclosures[id].status == Active
  {
    hide Trim, Trimmed;
  }

  /** A withdrawal closes that declaration and changes nothing else. */
  lemma WithdrawMeans(r: Register, id: int, actor: string, now: int)
    ensures var o := Withdraw(r, id, actor, now);
      if o.result.Ok?
      then && id in r.disclosures && o.state.count == r.count && o.state.attestations == r.attestations
           && o.state.disclosures == r.disclosures[id := o.result.value]
           && var d, e := r.disclosures[id], o.result.value;
           && e.status == Withdrawn && e.closedAt == Some(now)
           && e.id == d.id && e.actor == d.actor && e.relationship == d.relationship && e.counterparty == d.counterparty
           && e.scope == d.scope && e.details == d.details && e.disclosedAt == d.disclosedAt && e.expiresAt == d.expiresAt
      else o.state == r
  {
    hide Trim, Trimmed;
  }

  /** Applying expiry marks the active declarations that have run out, and changes nothing else. */
  lemma SweepMeans(r: Register, now: int)
    ensures var s := Sweep(r, now);
      && s.count == r.count && s.attestations == r.attestations && s.disclosures.Keys == r.disclosures.Keys
      && forall id :: id in r.disclosures ==>
           s.disclosures[id] ==
             (if r.disclosures[id].status == Active && r.disclosures[id].expiresAt <= now
              then r.disclosures[id].(status := Expired) else r.disclosures[id])
  {
  }

  // ── Who is recused ────────────────────────────────────────────────────────

  /** The declaration made by this input is about something the request decides: the protocol always, an
      asset or a provider when the request lists it, up to case and surrounding space. */
  ghost predicate Concerns(input: DeclareInput, request: RecusalRequest) {
    || input.scope == "protocol"
    || (input.scope == "asset" &&
        exists i :: 0 <= i < |request.assets| && NormalizeAsset(request.assets[i]) == NormalizeAsset(input.counterparty))
    || (input.scope == "source" &&
        exists i :: 0 <= i < |request.sources| && NormalizeAsset(request.sources[i]) == NormalizeAsset(input.counterparty))
  }

  /** Trimming twice is trimming once, so the stored counterparty normalises like the given one. */
  lemma TrimmedCounterparty(s: string)
    ensures NormalizeAsset(Trim(s)) == NormalizeAsset(s)
  {
    TrimTwice(s);
  }

  lemma TrimTwice(s: string)
    ensures Trim(Trim(s)) == Trim(s)
  {
  }

  /** The stored declaration keeps what the input said about whom and what it concerns. */
  ghost predicate Stems(d: Disclosure, input: DeclareInput) {
    d.actor == Trim(input.actor) && ScopeName(d.scope) == input.scope && d.counterparty == Trim(input.counterparty)
  }

  lemma RecusesMeans(d: Disclosure, input: DeclareInput, actor: string, request: RecusalRequest)
    requires Stems(d, input)
    ensures Recuses(d, actor, request) <==> actor == Trim(input.actor) && d.status != Withdrawn && Concerns(input, request)
  {
    hide NormalizeAsset, Trim;
    TrimmedCounterparty(input.counterparty);
  }

  // ── Runs ──────────────────────────────────────────────────────────────────

  /** Call `i` of the run is an accepted declaration that answers with number `id`. */
  ghost predicate DeclaredAt(calls: seq<Call>, i: int, id: int) {
    && 0 <= i < |calls| && calls[i].DeclareCall?
    && var answer := Declare(Final(NOTHING, calls[..i]), calls[i].input, calls[i].now).result;
       answer.Ok? && answer.value.id == id
  }

  /** Call `i` of the run is an accepted withdrawal of declaration `id`. */
  ghost predicate WithdrawnAt(calls: seq<Call>, i: int, id: int) {
    && 0 <= i < |calls| && calls[i].WithdrawCall? && calls[i].id == id
    && Withdraw(Final(NOTHING, calls[..i]), id, calls[i].actor, calls[i].now).result.Ok?
  }

  /** What the last call of a run adds to its history. */
  lemma LastStep(calls: seq<Call>, id: int)
    requires calls != []
    ensures var n := |calls| - 1;
      && Final(NOTHING, calls) == Next(Final(NOTHING, calls[..n]), calls[n])
      && (forall i :: i != n ==> (DeclaredAt(calls, i, id) <==> DeclaredAt(calls[..n], i, id)))
      && (forall i :: i != n ==> (WithdrawnAt(calls, i, id) <==> WithdrawnAt(calls[..n], i, id)))
      && !DeclaredAt(calls[..n], n, id) && !WithdrawnAt(calls[..n], n, id)
  {
    hide Next, Declare, Withdraw;
    var n := |calls| - 1;
    forall i: nat | i < n ensures calls[..n][..i] == calls[..i] && calls[..n][i] == calls[i] { }
  }

  ghost predicate StemsFrom(calls: seq<Call>, i: int, d: Disclosure) {
    0 <= i < |calls| && calls[i].DeclareCall? && Stems(d, calls[i].input)
  }

  /** What a run has made of declaration `id`: it is there exactly when a call declared it, says what that
      call said, and is withdrawn exactly when a call withdrew it. */
  ghost predicate History(calls: seq<Call>, id: int) {
    var s := Final(NOTHING, calls);
    && Numbered(s)
    && if id in s.disclosures then
         && (exists i :: DeclaredAt(calls, i, id))
         && (forall i :: DeclaredAt(calls, i, id) ==> StemsFrom(calls, i, s.disclosures[id]))
         && (s.disclosures[id].status == Withdrawn <==> exists j :: WithdrawnAt(calls, j, id))
       else forall i :: !DeclaredAt(calls, i, id) && !WithdrawnAt(calls, i, id)
  }

  lemma CallOn(r: Register, c: Call, id: int)
    requires Numbered(r) && id in r.disclosures
    ensures Numbered(Next(r, c)) && id in Next(r, c).disclosures
    ensures c.DeclareCall? && Declare(r, c.input, c.now).result.Ok? ==> Declare(r, c.input, c.now).result.value.id != id
    ensures var d, e := r.disclosures[id], Next(r, c).disclosures[id];
      && e.actor == d.actor && e.scope == d.scope && e.counterparty == d.counterparty
      && (e.status == Withdrawn <==> d.status == Withdrawn || (c.WithdrawCall? && c.id == id && Withdraw(r, id, c.actor, c.now).result.Ok?))
  {
    hide Draft, HasRepeat, Trim, Trimmed;
  }

  lemma CallBrings(r: Register, c: Call, id: int)
    requires Numbered(r) && id !in r.disclosures
    ensures Numbered(Next(r, c))
    ensures id in Next(r, c).disclosures <==>
      c.DeclareCall? && Declare(r, c.input, c.now).result.Ok? && Declare(r, c.input, c.now).result.value.id == id
    ensures id in Next(r, c).disclosures ==> Declared(Next(r, c).disclosures[id], c.input, c.now)
    ensures c.WithdrawCall? && c.id == id ==> Withdraw(r, id, c.actor, c.now).result.Err?
  {
    hide Declare, Declared, Trim, Trimmed;
    if c.DeclareCall? { DeclareMeans(r, c.input, c.now); }
  }

  lemma OldStep(calls: seq<Call>, id: int)
    requires calls != [] && History(calls[..|calls| - 1], id) && id in Final(NOTHING, calls[..|calls| - 1]).disclosures
    ensures History(calls, id)
  {
    hide Final, Next, Declare, Withdraw, Numbered, Stems;
    var n := |calls| - 1;
    var r, c := Final(NOTHING, calls[..n]), calls[n];
    LastStep(calls, id);
    CallOn(r, c, id);
    assert !DeclaredAt(calls, n, id);
    var i :| DeclaredAt(calls[..n], i, id);
    assert DeclaredAt(calls, i, id);
    forall i | DeclaredAt(calls, i, id) ensures StemsFrom(calls, i, Final(NOTHING, calls).disclosures[id]) {
      assert StemsFrom(calls[..n], i, r.disclosures[id]);
      StemsKept(r.disclosures[id], Final(NOTHING, calls).disclosures[id], calls[i].input);
    }
    if j :| WithdrawnAt(calls[..n], j, id) { assert WithdrawnAt(calls, j, id); }
    assert WithdrawnAt(calls, n, id) <==> c.WithdrawCall? && c.id == id && Withdraw(r, id, c.actor, c.now).result.Ok?;
  }

  lemma StemsKept(d: Disclosure, e: Disclosure, input: DeclareInput)
    requires Stems(d, input) && e.actor == d.actor && e.scope == d.scope && e.counterparty == d.counterparty
    ensures Stems(e, input)
  {
    hide Trim;
  }

  lemma NewStep(calls: seq<Call>, id: int)
    requires calls != [] && History(calls[..|calls| - 1], id) && id !in Final(NOTHING, calls[..|calls| - 1]).disclosures
    ensures History(calls, id)
  {
    hide Final, Next, Declare, Withdraw, Numbered, Trim;
    var n := |calls| - 1;
    LastStep(calls, id);
    CallBrings(Final(NOTHING, calls[..n]), calls[n], id);
    if id in Final(NOTHING, calls).disclosures { assert DeclaredAt(calls, n, id); }
  }

  lemma {:induction false} RunHistory(calls: seq<Call>, id: int)
    ensures History(calls, id)
  {
    hide History, Final;
    if calls == [] {
      EmptyHistory(id);
    } else {
      var n := |calls| - 1;
      RunHistory(calls[..n], id);
      if id in Final(NOTHING, calls[..n]).disclosures { OldStep(calls, id); } else { NewStep(calls, id); }
    }
  }

  lemma EmptyHistory(id: int)
    ensures History([], id)
  {
  }

  /** In every run: the declaration that call `i` made recuses an actor from a request exactly when the
      actor made it, no call has withdrawn it, and it concerns the request. */
  lemma DeclarationRecusesExactly(calls: seq<Call>, i: int, id: int, actor: string, request: RecusalRequest)
    requires DeclaredAt(calls, i, id)
    ensures id in Final(NOTHING, calls).disclosures
    ensures Recuses(Final(NOTHING, calls).disclosures[id], actor, request) <==>
      actor == Trim(calls[i].input.actor) && Concerns(calls[i].input, request) && forall j :: !WithdrawnAt(calls, j, id)
  {
    hide Final, Recuses, Concerns, WithdrawnAt, Trim, Stems, Declare;
    RunHistory(calls, id);
    RecusesMeans(Final(NOTHING, calls).disclosures[id], calls[i].input, actor, request);
  }

  /** Call `i` declared, as this actor, something the request decides, and no call has withdrawn it. */
  ghost predicate StandsAgainst(calls: seq<Call>, i: int, actor: string, request: RecusalRequest) {
    && 0 <= i < |calls| && calls[i].DeclareCall? && Trim(calls[i].input.actor) == actor && Concerns(calls[i].input, request)
    && var answer := Declare(Final(NOTHING, calls[..i]), calls[i].input, calls[i].now).result;
       answer.Ok? && forall j :: !WithdrawnAt(calls, j, answer.value.id)
  }

  /** In every run, an actor is recused from a request exactly because of such a declaration, and asking at
      a later time does not change the answer. */
  lemma RecusedExactly(calls: seq<Call>, actor: string, request: RecusalRequest, now: int)
    ensures Recused(Sweep(Final(NOTHING, calls), now).disclosures, actor, request) <==>
      exists i :: StandsAgainst(calls, i, actor, request)
  {
    hide Final, Recuses, Concerns, WithdrawnAt, Trim, Declare, Sweep;
    var s := Final(NOTHING, calls);
    SweepKeepsRecusal(s, now, actor, request);
    if id :| id in s.disclosures && Recuses(s.disclosures[id], actor, request) {
      var i := Declaring(calls, id);
      DeclarationRecusesExactly(calls, i, id, actor, request);
      assert StandsAgainst(calls, i, actor, request);
    }
    if i :| StandsAgainst(calls, i, actor, request) {
      var id := Declare(Final(NOTHING, calls[..i]), calls[i].input, calls[i].now).result.value.id;
      DeclarationRecusesExactly(calls, i, id, actor, request);
    }
  }

  lemma Declaring(calls: seq<Call>, id: int) returns (i: int)
    requires id in Final(NOTHING, calls).disclosures
    ensures DeclaredAt(calls, i, id)
  {
    hide Final, DeclaredAt, WithdrawnAt, StemsFrom, Numbered;
    RunHistory(calls, id);
    i :| DeclaredAt(calls, i, id);
  }

  // ── Attestations ──────────────────────────────────────────────────────────

  /** Call `i` of the run attests for this actor and is accepted. */
  ghost predicate AttestsAt(calls: seq<Call>, i: int, actor: string) {
    0 <= i < |calls| && calls[i].AttestCall? && Trim(calls[i].actor) == actor && actor != "" && calls[i].statementLength <= 500
  }

  lemma AttestationStep(r: Register, c: Call, actor: string)
    ensures var s := Next(r, c);
      if c.AttestCall? && Trim(c.actor) == actor && actor != "" && c.statementLength <= 500
      then actor in s.attestations && s.attestations[actor] == Attestation(c.now, c.now + 90 * 24 * 60 * 60 * 1000)
      else (actor in s.attestations <==> actor in r.attestations) && (actor in r.attestations ==> s.attestations[actor] == r.attestations[actor])
  {
    hide Draft, HasRepeat, Trim, Trimmed;
  }

  /** In every run, an actor's attestation is valid exactly for 90 days from their latest accepted one. */
  lemma {:induction false} AttestedExactly(calls: seq<Call>, actor: string, now: int)
    ensures Attested(Final(NOTHING, calls), actor, now) <==>
      exists i :: AttestsAt(calls, i, actor) && (forall j :: i < j ==> !AttestsAt(calls, j, actor)) && now < calls[i].now + 90 * 24 * 60 * 60 * 1000
  {
    hide Next, Trim;
    if calls != [] {
      var n := |calls| - 1;
      var before := calls[..n];
      AttestedExactly(before, actor, now);
      AttestationStep(Final(NOTHING, before), calls[n], actor);
      forall i | i != n ensures AttestsAt(calls, i, actor) <==> AttestsAt(before, i, actor) { }
      if AttestsAt(calls, n, actor) {
        assert forall j :: n < j ==> !AttestsAt(calls, j, actor);
      } else if i :| AttestsAt(before, i, actor) && (forall j :: i < j ==> !AttestsAt(before, j, actor)) && now < before[i].now + 90 * 24 * 60 * 60 * 1000 {
        assert AttestsAt(calls, i, actor) && forall j :: i < j ==> !AttestsAt(calls, j, actor);
      }
    }
  }
}
