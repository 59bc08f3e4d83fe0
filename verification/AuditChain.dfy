/** The tamper-evident audit log: entries of several writers in one file, each writer's entries
    chained by message authentication codes (HMACs). */
module AuditChain {
  import opened Wrappers

  // ── Entries and digests ───────────────────────────────────────────────────

  /** The descriptive fields of an entry; structured ones as their JSON text. */
  datatype Fields = Fields(event: string, timestamp: string, ip: string, userAgent: string, apiKeyPrefix: string,
                           details: Option<string>, prevState: Option<string>, newState: Option<string>)

  /** What an entry's HMAC covers, the previous HMAC included. */
  datatype Payload = Payload(fields: Fields, keyId: Option<string>, writerId: Option<string>, seqNo: Option<int>, previous: Digest)

  /** HMAC-SHA256 is a free constructor: equal digests come from equal secrets and equal payloads. `Text`
      is any string that is not the HMAC of something. */
  datatype Digest = Text(text: string) | Mac(secret: string, payload: Payload)

  datatype Entry = Entry(fields: Fields, keyId: Option<string>, writerId: Option<string>, seqNo: Option<int>,
                         prevHmac: Option<Digest>, hmac: Digest)

  datatype Secrets = Secrets(keyring: map<string, string>, currentKeyId: string)

  const EMPTY: Digest := Text("")

  function PrevHmac(e: Entry): Digest { if e.prevHmac.Some? then e.prevHmac.value else EMPTY }

  function Signed(e: Entry): Payload { Payload(e.fields, e.keyId, e.writerId, e.seqNo, PrevHmac(e)) }

  function Writer(e: Entry): string { if e.writerId.Some? then e.writerId.value else "legacy" }

  /** The signing secret for a key id; an absent or empty id means the current key. */
  function SecretFor(s: Secrets, keyId: Option<string>): Option<string> {
    var id := if keyId.Some? && keyId.value != "" then keyId.value else s.currentKeyId;
    if id in s.keyring && s.keyring[id] != "" then Some(s.keyring[id]) else None
  }

  /** Two entries agree in everything a digest covers; a missing previous digest counts as the empty text. */
  ghost predicate SameContent(a: Entry, b: Entry) {
    && a.fields == b.fields && a.keyId == b.keyId && a.writerId == b.writerId && a.seqNo == b.seqNo
    && (|| a.prevHmac == b.prevHmac
        || (a.prevHmac.None? && b.prevHmac == Some(Text("")))
        || (b.prevHmac.None? && a.prevHmac == Some(Text(""))))
  }

  lemma SignedMeans(a: Entry, b: Entry)
    ensures Signed(a) == Signed(b) <==> SameContent(a, b)
  {
  }

  // ── What the verifier checks ──────────────────────────────────────────────

  /** The last entry of the writer before index `i`. */
  function Prev(log: seq<Entry>, writer: string, i: nat): (r: Option<nat>)
    requires i <= |log|
    ensures r.Some? ==> r.value < i && Writer(log[r.value]) == writer
    ensures forall k :: (if r.Some? then r.value + 1 else 0) <= k < i ==> Writer(log[k]) != writer
  {
    if i == 0 then None else if Writer(log[i - 1]) == writer then Some(i - 1) else Prev(log, writer, i - 1)
  }

  function LastIndex(log: seq<Entry>, hmac: Digest): (r: Option<nat>)
    ensures r.Some? ==> r.value < |log| && log[r.value].hmac == hmac
    ensures forall k :: (if r.Some? then r.value + 1 else 0) <= k < |log| ==> log[k].hmac != hmac
  {
    if log == [] then None
    else if log[|log| - 1].hmac == hmac then Some(|log| - 1) else LastIndex(log[..|log| - 1], hmac)
  }

  predicate Follows(previous: Entry, e: Entry) {
    && PrevHmac(e) == previous.hmac
    && (e.seqNo.Some? && previous.seqNo.Some? ==> e.seqNo.value == previous.seqNo.value + 1)
  }

  predicate SignedProperly(s: Secrets, e: Entry) {
    var secret := SecretFor(s, e.keyId);
    secret.Some? && Mac(secret.value, Signed(e)) == e.hmac
  }

  /** A writer's first entry starts a chain or is anchored at an entry of the file that is not later;
      the first line of the file may be anchored in pruned history. */
  predicate Anchored(log: seq<Entry>, i: nat)
    requires i < |log|
  {
    PrevHmac(log[i]) == EMPTY || i == 0 || (var a := LastIndex(log, PrevHmac(log[i])); a.Some? && a.value <= i)
  }

  predicate EntryOk(s: Secrets, log: seq<Entry>, i: nat)
    requires i < |log|
  {
    var p := Prev(log, Writer(log[i]), i);
    && (if p.Some? then Follows(log[p.value], log[i]) else Anchored(log, i))
    && SignedProperly(s, log[i])
  }

  predicate Verified(s: Secrets, log: seq<Entry>) {
    forall i :: 0 <= i < |log| ==> EntryOk(s, log, i)
  }

  // ── verifyAuditLogChain ───────────────────────────────────────────────────

  /** The indices of a writer's entries among the first `n`, in file order. */
  function Group(log: seq<Entry>, writer: string, n: nat): (g: seq<nat>)
    requires n <= |log|
    ensures forall k :: 0 <= k < |g| ==> g[k] < n && Writer(log[g[k]]) == writer
  {
    if n == 0 then [] else Group(log, writer, n - 1) + (if Writer(log[n - 1]) == writer then [n - 1] else [])
  }

  lemma {:induction false} GroupComplete(log: seq<Entry>, writer: string, n: nat, i: nat)
    requires i < n <= |log| && Writer(log[i]) == writer
    ensures i in Group(log, writer, n)
    decreases n
  {
    hide Writer;
    if i == n - 1 {
      assert Group(log, writer, n)[|Group(log, writer, n - 1)|] == i;
    } else {
      GroupComplete(log, writer, n - 1, i);
    }
  }

  lemma {:induction false} GroupAscends(log: seq<Entry>, writer: string, n: nat, a: nat, b: nat)
    requires n <= |log| && a < b < |Group(log, writer, n)|
    ensures Group(log, writer, n)[a] < Group(log, writer, n)[b]
    decreases n
  {
    hide Writer;
    var shorter := Group(log, writer, n - 1);
    if b < |shorter| { GroupAscends(log, writer, n - 1, a, b); }
  }

  lemma {:induction false} GroupLinks(log: seq<Entry>, writer: string, n: nat, k: nat)
    requires n <= |log| && k < |Group(log, writer, n)|
    ensures var g := Group(log, writer, n);
            Prev(log, writer, g[k]) == if k == 0 then None else Some(g[k - 1])
    decreases n
  {
    hide Writer;
    var shorter := Group(log, writer, n - 1);
    if k < |shorter| {
      GroupLinks(log, writer, n - 1, k);
    } else {
      PrevIsLast(log, writer, n - 1);
    }
  }

  lemma {:induction false} PrevIsLast(log: seq<Entry>, writer: string, n: nat)
    requires n <= |log|
    ensures var g := Group(log, writer, n); Prev(log, writer, n) == if g == [] then None else Some(g[|g| - 1])
  {
    hide Writer;
    if n > 0 { PrevIsLast(log, writer, n - 1); }
  }

  ghost predicate HmacsIndexed(log: seq<Entry>, hmacIndex: map<Digest, nat>) {
    && (forall h :: h in hmacIndex <==> LastIndex(log, h).Some?)
    && (forall h :: h in hmacIndex ==> hmacIndex[h] == LastIndex(log, h).value)
  }

  ghost predicate Grouped(log: seq<Entry>, n: nat, byWriter: map<string, seq<nat>>)
    requires n <= |log|
  {
    && (forall w :: w in byWriter ==> byWriter[w] == Group(log, w, n))
    && (forall i :: 0 <= i < n ==> Writer(log[i]) in byWriter)
  }

  ghost predicate Listed(byWriter: map<string, seq<nat>>, order: seq<string>) {
    forall w :: w in byWriter <==> w in order
  }

  lemma HmacsIndexedNext(log: seq<Entry>, n: nat, hmacIndex: map<Digest, nat>)
    requires n < |log| && HmacsIndexed(log[..n], hmacIndex)
    ensures HmacsIndexed(log[..n + 1], hmacIndex[log[n].hmac := n])
  {
    assert log[..n + 1][..n] == log[..n];
  }

  lemma GroupNext(log: seq<Entry>, writer: string, n: nat)
    requires n < |log|
    ensures Group(log, writer, n + 1) == if Writer(log[n]) == writer then Group(log, writer, n) + [n] else Group(log, writer, n)
  {
    hide Writer;
  }

  lemma GroupedNext(log: seq<Entry>, n: nat, byWriter: map<string, seq<nat>>)
    requires n < |log| && Grouped(log, n, byWriter)
    ensures var w := Writer(log[n]);
            Grouped(log, n + 1, byWriter[w := (if w in byWriter then byWriter[w] else []) + [n]])
  {
    hide Writer, Group;
    var w := Writer(log[n]);
    if w !in byWriter { NoGroup(log, w, n); }
    var next := byWriter[w := (if w in byWriter then byWriter[w] else []) + [n]];
    forall v | v in next ensures next[v] == Group(log, v, n + 1) { GroupNext(log, v, n); }
  }

  method IndexEntries(log: seq<Entry>)
    returns (hmacIndex: map<Digest, nat>, byWriter: map<string, seq<nat>>, order: seq<string>)
    ensures HmacsIndexed(log, hmacIndex) && Grouped(log, |log|, byWriter) && Listed(byWriter, order)
  {
    hide Group, LastIndex;
    hmacIndex, byWriter, order := map[], map[], [];
    for index := 0 to |log|
      invariant HmacsIndexed(log[..index], hmacIndex) && Grouped(log, index, byWriter) && Listed(byWriter, order)
    {
      hide HmacsIndexed, Grouped;
      HmacsIndexedNext(log, index, hmacIndex);
      GroupedNext(log, index, byWriter);
      var entry := log[index];
      hmacIndex := hmacIndex[entry.hmac := index];
      var writer := Writer(entry);
      var group := if writer in byWriter then byWriter[writer] else [];
      if writer !in byWriter { order := order + [writer]; }
      byWriter := byWriter[writer := group + [index]];
    }
    assert log[..|log|] == log;
  }

  lemma {:induction false} NoGroup(log: seq<Entry>, writer: string, n: nat)
    requires n <= |log| && forall i :: 0 <= i < n ==> Writer(log[i]) != writer
    ensures Group(log, writer, n) == []
  {
    hide Writer;
    if n > 0 { NoGroup(log, writer, n - 1); }
  }

  /** Checks one entry against its writer's previous one, with the tests of
      `verifyAuditLogChain` in their order. */
  method CheckEntry(s: Secrets, log: seq<Entry>, hmacIndex: map<Digest, nat>, previous: Option<nat>, index: nat) returns (ok: bool)
    requires index < |log| && previous == Prev(log, Writer(log[index]), index)
    requires HmacsIndexed(log, hmacIndex)
    ensures ok <==> EntryOk(s, log, index)
  {
    hide LastIndex, Prev;
    var entry := log[index];
    var expectedPrev := if previous.Some? then log[previous.value].hmac else PrevHmac(entry);
    if PrevHmac(entry) != expectedPrev { return false; }
    if previous.Some? && entry.seqNo.Some? && log[previous.value].seqNo.Some?
       && entry.seqNo.value != log[previous.value].seqNo.value + 1 { return false; }
    var secret := SecretFor(s, entry.keyId);
    if secret.None? { return false; }
    if Mac(secret.value, Signed(entry)) != entry.hmac { return false; }
    if previous.None? && PrevHmac(entry) != EMPTY {
      var h := PrevHmac(entry);
      if (h !in hmacIndex || hmacIndex[h] > index) && index != 0 { return false; }
    }
    return true;
  }

  /** All earlier entries of the writer of entry `i` are in order. */
  ghost predicate FirstOfWriter(s: Secrets, log: seq<Entry>, i: nat)
    requires i < |log|
  {
    forall j :: 0 <= j < i && Writer(log[j]) == Writer(log[i]) ==> EntryOk(s, log, j)
  }

  lemma EarlierOk(s: Secrets, log: seq<Entry>, writer: string, k: nat)
    requires k < |Group(log, writer, |log|)|
    requires forall m :: 0 <= m < k ==> EntryOk(s, log, Group(log, writer, |log|)[m])
    ensures FirstOfWriter(s, log, Group(log, writer, |log|)[k])
  {
    hide EntryOk, Group, Writer;
    var g := Group(log, writer, |log|);
    forall j | 0 <= j < g[k] && Writer(log[j]) == writer ensures EntryOk(s, log, j) {
      GroupComplete(log, writer, |log|, j);
      var m :| 0 <= m < |g| && g[m] == j;
      if k < m { GroupAscends(log, writer, |log|, k, m); }
    }
  }

  /** Checks one writer's entries in file order, stopping at the first that fails. */
  method CheckGroup(s: Secrets, log: seq<Entry>, hmacIndex: map<Digest, nat>, writer: string, group: seq<nat>)
    returns (bad: Option<nat>)
    requires group == Group(log, writer, |log|)
    requires HmacsIndexed(log, hmacIndex)
    ensures bad.None? ==> forall i :: 0 <= i < |log| && Writer(log[i]) == writer ==> EntryOk(s, log, i)
    ensures bad.Some? ==> bad.value < |log| && !EntryOk(s, log, bad.value)
    ensures bad.Some? ==> Writer(log[bad.value]) == writer && FirstOfWriter(s, log, bad.value)
  {
    hide EntryOk, LastIndex, Prev, Group, HmacsIndexed, FirstOfWriter;
    var previous: Option<nat> := None;
    for k := 0 to |group|
      invariant previous == if k == 0 then None else Some(group[k - 1])
      invariant forall m :: 0 <= m < k ==> EntryOk(s, log, group[m])
    {
      GroupLinks(log, writer, |log|, k);
      var ok := CheckEntry(s, log, hmacIndex, previous, group[k]);
      if !ok {
        EarlierOk(s, log, writer, k);
        return Some(group[k]);
      }
      previous := Some(group[k]);
    }
    forall i | 0 <= i < |log| && Writer(log[i]) == writer ensures EntryOk(s, log, i) { GroupComplete(log, writer, |log|, i); }
    return None;
  }

  method VerifyAuditLogChain(s: Secrets, log: seq<Entry>) returns (valid: bool, firstInvalid: Option<nat>)
    ensures valid <==> Verified(s, log)
    ensures valid <==> firstInvalid.None?
    ensures !valid ==> firstInvalid.value < |log| && !EntryOk(s, log, firstInvalid.value) && FirstOfWriter(s, log, firstInvalid.value)
  {
    hide EntryOk, LastIndex, Prev, Group, HmacsIndexed, FirstOfWriter;
    var hmacIndex, byWriter, order := IndexEntries(log);
    for g := 0 to |order|
      invariant forall i :: 0 <= i < |log| && Writer(log[i]) in order[..g] ==> EntryOk(s, log, i)
    {
      var bad := CheckGroup(s, log, hmacIndex, order[g], byWriter[order[g]]);
      if bad.Some? { return false, bad; }
      assert order[..g + 1] == order[..g] + [order[g]];
    }
    assert order[..|order|] == order;
    return true, None;
  }

  // ── What verification means ───────────────────────────────────────────────

  /** Both entries are by the same writer; an entry without a writer is by "legacy". */
  ghost predicate OneWriter(a: Entry, b: Entry) {
    || a.writerId == b.writerId
    || (a.writerId.None? && b.writerId == Some("legacy"))
    || (b.writerId.None? && a.writerId == Some("legacy"))
  }

  /** The digest the entry names as the one before it. */
  ghost predicate NamesPrevious(e: Entry, h: Digest) {
    e.prevHmac == Some(h) || (e.prevHmac.None? && h == Text(""))
  }

  /** The secret is the non-empty one held for the entry's key, or for the current key if it names none. */
  ghost predicate KeyOf(s: Secrets, e: Entry, secret: string) {
    && secret != ""
    && (if e.keyId.None? || e.keyId == Some("")
        then s.currentKeyId in s.keyring && s.keyring[s.currentKeyId] == secret
        else e.keyId.value in s.keyring && s.keyring[e.keyId.value] == secret)
  }

  /** The entry's digest is the HMAC, under its key, of all its fields and the previous digest. */
  ghost predicate Authentic(s: Secrets, e: Entry) {
    exists secret, h :: KeyOf(s, e, secret) && NamesPrevious(e, h)
      && e.hmac == Mac(secret, Payload(e.fields, e.keyId, e.writerId, e.seqNo, h))
  }

  /** Entry `j` is the latest before `i` by the writer of `i`. */
  ghost predicate Latest(log: seq<Entry>, j: int, i: int) {
    0 <= j < i < |log| && OneWriter(log[j], log[i]) && forall k :: j < k < i ==> !OneWriter(log[k], log[i])
  }

  ghost predicate First(log: seq<Entry>, i: int) {
    0 <= i < |log| && forall k :: 0 <= k < i ==> !OneWriter(log[k], log[i])
  }

  /** Entry `i` continues entry `j`. */
  ghost predicate Continues(log: seq<Entry>, j: int, i: int)
    requires 0 <= j < |log| && 0 <= i < |log|
  {
    && NamesPrevious(log[i], log[j].hmac)
    && (log[i].seqNo.Some? && log[j].seqNo.Some? ==> log[i].seqNo.value == log[j].seqNo.value + 1)
  }

  /** Entry `i` may open its writer's chain: it names no previous digest, it is the first line, or the digest
      it names stands on a line up to its own and on none after it. */
  ghost predicate Opens(log: seq<Entry>, i: int)
    requires 0 <= i < |log|
  {
    || i == 0 || NamesPrevious(log[i], Text(""))
    || ((exists k :: 0 <= k <= i && NamesPrevious(log[i], log[k].hmac)) && forall k :: i < k < |log| ==> !NamesPrevious(log[i], log[k].hmac))
  }

  lemma WriterMeans(a: Entry, b: Entry)
    ensures Writer(a) == Writer(b) <==> OneWriter(a, b)
  {
  }

  lemma AuthenticMeans(s: Secrets, e: Entry)
    ensures SignedProperly(s, e) <==> Authentic(s, e)
  {
    assert NamesPrevious(e, PrevHmac(e));
    var secret := SecretFor(s, e.keyId);
    if secret.Some? { assert KeyOf(s, e, secret.value); }
  }

  lemma PreviousMeans(e: Entry, h: Digest)
    ensures PrevHmac(e) == h <==> NamesPrevious(e, h)
  {
  }

  lemma AnchoredMeans(log: seq<Entry>, i: nat)
    requires i < |log|
    ensures Anchored(log, i) <==> Opens(log, i)
  {
    hide PrevHmac, NamesPrevious, LastIndex;
    forall h ensures PrevHmac(log[i]) == h <==> NamesPrevious(log[i], h) { PreviousMeans(log[i], h); }
  }

  lemma EntryMeans(s: Secrets, log: seq<Entry>, i: nat)
    requires i < |log|
    ensures EntryOk(s, log, i) <==>
      Authentic(s, log[i]) && (First(log, i) ==> Opens(log, i)) && forall j :: Latest(log, j, i) ==> Continues(log, j, i)
  {
    hide Prev, Anchored, SignedProperly, Authentic, Opens, Writer, OneWriter, PrevHmac, NamesPrevious;
    AuthenticMeans(s, log[i]);
    AnchoredMeans(log, i);
    forall k | 0 <= k < i ensures Writer(log[k]) == Writer(log[i]) <==> OneWriter(log[k], log[i]) { WriterMeans(log[k], log[i]); }
    var p := Prev(log, Writer(log[i]), i);
    if p.Some? {
      assert Latest(log, p.value, i);
      PreviousMeans(log[i], log[p.value].hmac);
    }
  }

  /** A log verifies exactly when every entry is authentic, continues the latest earlier entry of its writer
      with the next number, or, having none, opens a chain. */
  lemma VerifiedExactly(s: Secrets, log: seq<Entry>)
    ensures Verified(s, log) <==>
      forall i :: 0 <= i < |log| ==>
        && Authentic(s, log[i]) && (First(log, i) ==> Opens(log, i)) && forall j :: Latest(log, j, i) ==> Continues(log, j, i)
  {
    hide EntryOk, Authentic, First, Opens, Continues;
    forall i | 0 <= i < |log|
      ensures EntryOk(s, log, i) <==>
        Authentic(s, log[i]) && (First(log, i) ==> Opens(log, i)) && forall j :: Latest(log, j, i) ==> Continues(log, j, i)
    {
      EntryMeans(s, log, i);
    }
  }

  // ── Chains pin their history ──────────────────────────────────────────────

  lemma {:induction false} PrevIs(log: seq<Entry>, writer: string, i: nat, k: nat)
    requires k < i <= |log| && Writer(log[k]) == writer
    requires forall m :: k < m < i ==> Writer(log[m]) != writer
    ensures Prev(log, writer, i) == Some(k)
  {
    if k < i - 1 { PrevIs(log, writer, i - 1, k); }
  }

  /** How many links a digest carries. */
  function Length(d: Digest): nat { if d.Text? then 0 else 1 + Length(d.payload.previous) }

  /** In a verified log a writer's digests grow along the file. */
  lemma {:induction false} DigestsGrow(s: Secrets, log: seq<Entry>, i: nat, j: nat)
    requires Verified(s, log) && i < j < |log| && Writer(log[i]) == Writer(log[j])
    ensures Length(log[i].hmac) < Length(log[j].hmac)
    decreases j
  {
    assert EntryOk(s, log, j);
    var p := Prev(log, Writer(log[j]), j);
    assert p.Some? && i <= p.value;
    assert Length(log[j].hmac) == 1 + Length(log[p.value].hmac);
    if i < p.value { DigestsGrow(s, log, i, p.value); }
  }

  /** Going back `k` entries of the same writer. */
  function Back(log: seq<Entry>, i: nat, k: nat): (r: Option<nat>)
    requires i < |log|
    ensures r.Some? ==> r.value < |log|
    decreases k
  {
    if k == 0 then Some(i) else
      var p := Prev(log, Writer(log[i]), i);
      if p.Some? then Back(log, p.value, k - 1) else None
  }

  /** Two verified logs that share one digest agree on every earlier entry of that writer, as far back
      as both go. */
  lemma {:induction false} SharedDigestPinsHistory(s: Secrets, log: seq<Entry>, other: seq<Entry>, i: nat, j: nat, k: nat)
    requires Verified(s, log) && Verified(s, other) && i < |log| && j < |other|
    requires log[i].hmac == other[j].hmac
    ensures var a, b := Back(log, i, k), Back(other, j, k);
            a.Some? && b.Some? ==> SameContent(log[a.value], other[b.value]) && log[a.value].hmac == other[b.value].hmac
    decreases k
  {
    hide Verified, EntryOk, Writer, Prev, PrevHmac;
    SignatureHolds(s, log, i);
    SignatureHolds(s, other, j);
    SignedMeans(log[i], other[j]);
    if k > 0 {
      var p, q := Prev(log, Writer(log[i]), i), Prev(other, Writer(other[j]), j);
      if p.Some? && q.Some? {
        LinkHolds(s, log, i);
        LinkHolds(s, other, j);
        SharedDigestPinsHistory(s, log, other, p.value, q.value, k - 1);
      }
    }
  }

  /** What can be written as a digest without the keys: any text, the HMAC under some other secret, or a
      digest copied from the log. */
  ghost predicate Known(s: Secrets, log: seq<Entry>, h: Digest) {
    h.Text? || h.secret !in s.keyring.Values || exists j :: 0 <= j < |log| && log[j].hmac == h
  }

  lemma KeyringSigned(s: Secrets, log: seq<Entry>, i: nat)
    requires Verified(s, log) && i < |log|
    ensures log[i].hmac.Mac? && log[i].hmac.payload == Signed(log[i]) && log[i].hmac.secret in s.keyring.Values
  {
    assert EntryOk(s, log, i);
    var secret := SecretFor(s, log[i].keyId);
    var id := if log[i].keyId.Some? && log[i].keyId.value != "" then log[i].keyId.value else s.currentKeyId;
    assert id in s.keyring.Keys && s.keyring[id] == secret.value;
  }

  /** Nothing is forged: a log that verifies and whose digests were written without the keys holds only
      copies of entries of the log they were taken from. */
  lemma OnlyCopiesVerify(s: Secrets, log: seq<Entry>, other: seq<Entry>, i: nat) returns (j: nat)
    requires Verified(s, log) && Verified(s, other) && i < |other| && Known(s, log, other[i].hmac)
    ensures j < |log| && log[j].hmac == other[i].hmac && SameContent(log[j], other[i])
  {
    hide Verified;
    KeyringSigned(s, other, i);
    j :| 0 <= j < |log| && log[j].hmac == other[i].hmac;
    SignatureHolds(s, log, j);
    SignedMeans(log[j], other[i]);
  }

  /** Changing anything a digest covers, and writing any digest that can be had without the keys, is
      rejected: also when the entry becomes a copy of another one. */
  lemma ChangeRejected(s: Secrets, log: seq<Entry>, i: nat, forged: Entry)
    requires Verified(s, log) && i < |log| && Known(s, log, forged.hmac) && !SameContent(forged, log[i])
    ensures !Verified(s, log[i := forged])
  {
    hide Verified, Known;
    var changed := log[i := forged];
    if Verified(s, changed) {
      var j := OnlyCopiesVerify(s, log, changed, i);
      SameWriter(log[j], forged);
      if i < j { DigestsGrow(s, changed, i, j); } else { DigestsGrow(s, changed, j, i); }
      assert false;
    }
  }

  lemma SameWriter(a: Entry, b: Entry)
    requires SameContent(a, b)
    ensures Writer(a) == Writer(b)
  {
  }

  /** Swapping two entries of one writer is rejected. */
  lemma SwapRejected(s: Secrets, log: seq<Entry>, i: nat, j: nat)
    requires Verified(s, log) && i < j < |log| && Writer(log[i]) == Writer(log[j])
    ensures !Verified(s, log[i := log[j]][j := log[i]])
  {
    hide Verified;
    DigestsGrow(s, log, i, j);
    var swapped := log[i := log[j]][j := log[i]];
    if Verified(s, swapped) {
      DigestsGrow(s, swapped, i, j);
      assert false;
    }
  }

  /** Dropping an entry between two others of its writer is rejected. */
  lemma DropRejected(s: Secrets, log: seq<Entry>, h: nat, i: nat, j: nat)
    requires Verified(s, log) && h < i < j < |log|
    requires Writer(log[h]) == Writer(log[i]) == Writer(log[j])
    ensures !Verified(s, log[..i] + log[i + 1..])
  {
    hide Verified, EntryOk, Writer, Prev, PrevHmac;
    var w := Writer(log[i]);
    var before := Prev(log, w, i).value;
    var after := NextOf(log, w, i, j);
    PrevIs(log, w, after, i);
    LinkHolds(s, log, after);
    DigestsGrow(s, log, before, i);
    var dropped := log[..i] + log[i + 1..];
    if Verified(s, dropped) {
      PrevIs(dropped, w, after - 1, before);
      LinkHolds(s, dropped, after - 1);
      assert false;
    }
  }

  lemma SignatureHolds(s: Secrets, log: seq<Entry>, i: nat)
    requires Verified(s, log) && i < |log|
    ensures log[i].hmac.Mac? && log[i].hmac.payload == Signed(log[i])
  {
    assert EntryOk(s, log, i);
  }

  lemma LinkHolds(s: Secrets, log: seq<Entry>, i: nat)
    requires Verified(s, log) && i < |log| && Prev(log, Writer(log[i]), i).Some?
    ensures PrevHmac(log[i]) == log[Prev(log, Writer(log[i]), i).value].hmac
  {
    assert EntryOk(s, log, i);
  }

  /** The next entry of the writer after `i`. */
  function NextOf(log: seq<Entry>, writer: string, i: nat, j: nat): (n: nat)
    requires i < j < |log| && Writer(log[j]) == writer
    ensures i < n <= j && Writer(log[n]) == writer && forall m :: i < m < n ==> Writer(log[m]) != writer
    decreases j - i
  {
    if Writer(log[i + 1]) == writer then i + 1 else
      NextOf(log, writer, i + 1, j)
  }

  // ── A pruned log ──────────────────────────────────────────────────────────

  lemma {:induction false} PrevInSuffix(log: seq<Entry>, k: nat, writer: string, i: nat)
    requires k <= i <= |log|
    ensures var p := Prev(log, writer, i);
            Prev(log[k..], writer, i - k) == if p.Some? && p.value >= k then Some(p.value - k) else None
    decreases i
  {
    hide Writer;
    if k < i {
      assert log[k..][i - 1 - k] == log[i - 1];
      PrevInSuffix(log, k, writer, i - 1);
    }
  }

  /** What remains of a verified log after its first `k` entries are pruned verifies exactly when the first
      remaining entry of each writer opens the file, starts a chain, or is anchored at a remaining entry. */
  lemma SuffixVerifiedExactly(s: Secrets, log: seq<Entry>, k: nat)
    requires Verified(s, log) && k <= |log|
    ensures Verified(s, log[k..]) <==>
            forall i :: 0 <= i < |log[k..]| && Prev(log[k..], Writer(log[k..][i]), i).None? ==> Anchored(log[k..], i)
  {
    hide Prev, Anchored, SignedProperly, Follows, Writer;
    var rest := log[k..];
    forall i | 0 <= i < |rest| ensures EntryOk(s, rest, i) <==> (Prev(rest, Writer(rest[i]), i).None? ==> Anchored(rest, i)) {
      assert rest[i] == log[k + i];
      assert EntryOk(s, log, k + i);
      PrevInSuffix(log, k, Writer(rest[i]), k + i);
    }
  }

  lemma DigestsDistinct(s: Secrets, log: seq<Entry>, i: nat, j: nat)
    requires Verified(s, log) && i < j < |log|
    ensures log[i].hmac != log[j].hmac
  {
    hide Verified;
    SignatureHolds(s, log, i);
    SignatureHolds(s, log, j);
    if log[i].hmac == log[j].hmac {
      SignedMeans(log[i], log[j]);
      SameWriter(log[i], log[j]);
      DigestsGrow(s, log, i, j);
      assert false;
    }
  }

  /** So pruning breaks the active file as soon as a writer with a pruned entry has its next one anywhere
      but at the top of what remains, as interleaved writers do. */
  lemma PrunedWriterFails(s: Secrets, log: seq<Entry>, p: nat, k: nat, i: nat)
    requires Verified(s, log) && p < k < i < |log| && Prev(log, Writer(log[i]), i) == Some(p)
    ensures !Verified(s, log[k..])
  {
    hide Verified, EntryOk, Prev, Writer, Anchored, PrevHmac, Signed;
    var rest := log[k..];
    LinkHolds(s, log, i);
    SignatureHolds(s, log, p);
    PrevInSuffix(log, k, Writer(log[i]), i);
    DigestPruned(s, log, p, k);
    assert rest[i - k] == log[i];
    NotAnchored(rest, i - k);
    SuffixVerifiedExactly(s, log, k);
  }

  lemma DigestPruned(s: Secrets, log: seq<Entry>, p: nat, k: nat)
    requires Verified(s, log) && p < k <= |log|
    ensures forall j :: 0 <= j < |log[k..]| ==> log[k..][j].hmac != log[p].hmac
  {
    hide Verified;
    forall j | 0 <= j < |log[k..]| ensures log[k..][j].hmac != log[p].hmac { DigestsDistinct(s, log, p, k + j); }
  }

  lemma NotAnchored(log: seq<Entry>, i: nat)
    requires 0 < i < |log| && PrevHmac(log[i]).Mac? && forall j :: 0 <= j < |log| ==> log[j].hmac != PrevHmac(log[i])
    ensures !Anchored(log, i)
  {
    hide PrevHmac;
  }
}
