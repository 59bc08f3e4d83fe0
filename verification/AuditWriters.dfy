/** Any number of processes appending to one audit log, each with its own chain state, and when the
    log they produce verifies. */
module AuditWriters {
  import opened Wrappers
  import opened AuditChain

  /** A process: its id, chain position, and whether it moved to a forked file. */
  datatype Process = Process(writerId: string, keyId: string, lastHmac: Digest, seqNo: nat, forked: bool)

  function Launch(writerId: string, keyId: string): Process { Process(writerId, keyId, EMPTY, 0, false) }

  /** Validates the log and continues after its last entry; an unverifiable log is forked. */
  function Initialized(keyring: map<string, string>, p: Process, log: seq<Entry>): Process {
    var forked := log != [] && !Verified(Secrets(keyring, p.keyId), log);
    p.(lastHmac := if !forked && log != [] then log[|log| - 1].hmac else EMPTY, seqNo := 0, forked := forked)
  }

  function SignedEntry(keyring: map<string, string>, p: Process, fields: Fields): Entry
    requires p.keyId in keyring
  {
    var payload := Payload(fields, Some(p.keyId), Some(p.writerId), Some(p.seqNo + 1), p.lastHmac);
    Entry(fields, Some(p.keyId), Some(p.writerId), Some(p.seqNo + 1), Some(p.lastHmac), Mac(keyring[p.keyId], payload))
  }

  function Advanced(p: Process, e: Entry): Process { p.(lastHmac := e.hmac, seqNo := p.seqNo + 1) }

  /** The module state of the logger in one process; the shared file is passed in and out. */
  class AuditLogger {
    const writerId: string
    const keyring: map<string, string>
    const keyId: string
    var lastHmac: Digest
    var writerSeq: nat
    var forked: bool

    ghost function Value(): Process
      reads this
    {
      Process(writerId, keyId, lastHmac, writerSeq, forked)
    }

    constructor (writerId: string, keyring: map<string, string>, keyId: string)
      ensures Value() == Launch(writerId, keyId) && this.keyring == keyring
    {
      this.writerId, this.keyring, this.keyId := writerId, keyring, keyId;
      lastHmac, writerSeq, forked := EMPTY, 0, false;
    }

    method InitializeAuditIntegrity(log: seq<Entry>)
      modifies this
      ensures Value() == Initialized(keyring, old(Value()), log)
    {
      forked := false;
      if |log| > 0 {
        var valid, _ := VerifyAuditLogChain(Secrets(keyring, keyId), log);
        if !valid { forked := true; }
      }
      lastHmac := if !forked && |log| > 0 then log[|log| - 1].hmac else EMPTY;
      writerSeq := 0;
    }

    /** `stored` is the shared file afterwards; `written` says whether the append reached the disk. */
    method AuditLog(log: seq<Entry>, fields: Fields, written: bool) returns (stored: seq<Entry>)
      requires keyId in keyring
      modifies this
      ensures var e := SignedEntry(keyring, old(Value()), fields);
              Value() == Advanced(old(Value()), e) && stored == if written && !forked then log + [e] else log
    {
      var sequence := writerSeq + 1;
      var payload := Payload(fields, Some(keyId), Some(writerId), Some(sequence), lastHmac);
      var hmac := Mac(keyring[keyId], payload);
      var entry := Entry(fields, Some(keyId), Some(writerId), Some(sequence), Some(lastHmac), hmac);
      lastHmac := hmac;
      writerSeq := sequence;
      stored := if written && !forked then log + [entry] else log;
    }
  }

  // ── Interleavings ─────────────────────────────────────────────────────────

  datatype Event =
    | Started(writerId: string, keyId: string)
    | Initialize(writerId: string)
    | Append(writerId: string, fields: Fields)

  datatype System = System(log: seq<Entry>, processes: map<string, Process>)

  /** Writer ids are unique: a second start under a known id does not happen. */
  function Step(keyring: map<string, string>, sys: System, event: Event): System {
    var w := event.writerId;
    match event
    case Started(_, keyId) =>
      if w in sys.processes || keyId == "" || keyId !in keyring || keyring[keyId] == "" then sys
      else sys.(processes := sys.processes[w := Launch(w, keyId)])
    case Initialize(_) =>
      if w !in sys.processes then sys
      else sys.(processes := sys.processes[w := Initialized(keyring, sys.processes[w], sys.log)])
    case Append(_, fields) =>
      if w !in sys.processes || sys.processes[w].keyId !in keyring then sys else
        var p := sys.processes[w];
        var e := SignedEntry(keyring, p, fields);
        System(if p.forked then sys.log else sys.log + [e], sys.processes[w := Advanced(p, e)])
  }

  function Run(keyring: map<string, string>, events: seq<Event>): System {
    if events == [] then System([], map[]) else Step(keyring, Run(keyring, events[..|events| - 1]), events[|events| - 1])
  }

  /** The append discipline: a process initializes only before its first append. */
  ghost predicate Disciplined(keyring: map<string, string>, events: seq<Event>) {
    forall k :: 0 <= k < |events| && events[k].Initialize? ==>
      var sys := Run(keyring, events[..k]);
      events[k].writerId in sys.processes ==> sys.processes[events[k].writerId].seqNo == 0
  }

  // ── The invariant ─────────────────────────────────────────────────────────

  ghost predicate HmacIn(log: seq<Entry>, h: Digest) { exists k :: 0 <= k < |log| && log[k].hmac == h }

  ghost predicate ProcessInv(keyring: map<string, string>, log: seq<Entry>, w: string, p: Process) {
    && p.writerId == w && !p.forked && p.keyId != "" && p.keyId in keyring && keyring[p.keyId] != ""
    && var last := Prev(log, w, |log|);
    if last.None? then p.seqNo == 0 && (p.lastHmac == EMPTY || HmacIn(log, p.lastHmac))
    else p.lastHmac == log[last.value].hmac && log[last.value].seqNo == Some(p.seqNo) && p.seqNo >= 1
  }

  ghost predicate Accounted(e: Entry, processes: map<string, Process>) {
    && e.writerId.Some? && e.seqNo.Some? && e.hmac.Mac? && e.hmac.payload == Signed(e)
    && e.writerId.value in processes && e.seqNo.value <= processes[e.writerId.value].seqNo
  }

  ghost predicate Inv(keyring: map<string, string>, sys: System) {
    && (forall id :: Verified(Secrets(keyring, id), sys.log))
    && (forall w :: w in sys.processes ==> ProcessInv(keyring, sys.log, w, sys.processes[w]))
    && (forall i :: 0 <= i < |sys.log| ==> Accounted(sys.log[i], sys.processes))
  }

  // ── Appending one entry ───────────────────────────────────────────────────

  lemma {:induction false} PrevPrefix(log: seq<Entry>, e: Entry, w: string, i: nat)
    requires i <= |log|
    ensures Prev(log + [e], w, i) == Prev(log, w, i)
  {
    hide Writer;
    if i > 0 {
      assert (log + [e])[i - 1] == log[i - 1];
      PrevPrefix(log, e, w, i - 1);
    }
  }

  lemma LastIndexPrefix(log: seq<Entry>, e: Entry, h: Digest)
    ensures LastIndex(log + [e], h) == if e.hmac == h then Some(|log|) else LastIndex(log, h)
  {
    assert (log + [e])[..|log|] == log;
  }

  /** A new digest leaves the verdict on every earlier entry as it was. */
  lemma OldEntryStays(s: Secrets, log: seq<Entry>, e: Entry, i: nat)
    requires i < |log| && EntryOk(s, log, i) && !HmacIn(log, e.hmac)
    ensures EntryOk(s, log + [e], i)
  {
    hide LastIndex, Prev, Writer, SignedProperly, Follows;
    PrevPrefix(log, e, Writer(log[i]), i);
    LastIndexPrefix(log, e, PrevHmac(log[i]));
  }

  lemma NewDigest(keyring: map<string, string>, sys: System, w: string, fields: Fields)
    requires Inv(keyring, sys) && w in sys.processes && sys.processes[w].keyId in keyring
    ensures !HmacIn(sys.log, SignedEntry(keyring, sys.processes[w], fields).hmac)
  {
    hide Verified;
    var e := SignedEntry(keyring, sys.processes[w], fields);
    assert ProcessInv(keyring, sys.log, w, sys.processes[w]);
    forall k | 0 <= k < |sys.log| ensures sys.log[k].hmac != e.hmac { assert Accounted(sys.log[k], sys.processes); }
  }

  lemma NewEntryOk(keyring: map<string, string>, id: string, log: seq<Entry>, w: string, p: Process, fields: Fields)
    requires ProcessInv(keyring, log, w, p)
    ensures var e := SignedEntry(keyring, p, fields); EntryOk(Secrets(keyring, id), log + [e], |log|)
  {
    hide Prev;
    var e := SignedEntry(keyring, p, fields);
    assert (log + [e])[|log|] == e && Writer(e) == w;
    PrevPrefix(log, e, w, |log|);
    if HmacIn(log, p.lastHmac) {
      var k :| 0 <= k < |log| && log[k].hmac == p.lastHmac;
      assert (log + [e])[k].hmac == p.lastHmac;
    }
  }

  lemma ExtendVerified(s: Secrets, log: seq<Entry>, e: Entry)
    requires Verified(s, log) && !HmacIn(log, e.hmac) && EntryOk(s, log + [e], |log|)
    ensures Verified(s, log + [e])
  {
    hide EntryOk, HmacIn;
    forall i | 0 <= i < |log + [e]| ensures EntryOk(s, log + [e], i) {
      if i < |log| { OldEntryStays(s, log, e, i); }
    }
  }

  lemma PrevAfter(log: seq<Entry>, e: Entry, w: string)
    ensures Prev(log + [e], w, |log| + 1) == if Writer(e) == w then Some(|log|) else Prev(log, w, |log|)
  {
    hide Writer;
    PrevPrefix(log, e, w, |log|);
  }

  lemma OtherProcess(keyring: map<string, string>, log: seq<Entry>, e: Entry, v: string, p: Process)
    requires ProcessInv(keyring, log, v, p) && Writer(e) != v
    ensures ProcessInv(keyring, log + [e], v, p)
  {
    hide Prev, Writer;
    PrevAfter(log, e, v);
    if HmacIn(log, p.lastHmac) {
      var k :| 0 <= k < |log| && log[k].hmac == p.lastHmac;
      assert (log + [e])[k].hmac == p.lastHmac;
    }
  }

  lemma OwnProcess(keyring: map<string, string>, log: seq<Entry>, w: string, p: Process, fields: Fields)
    requires ProcessInv(keyring, log, w, p)
    ensures var e := SignedEntry(keyring, p, fields); ProcessInv(keyring, log + [e], w, Advanced(p, e))
  {
    hide Prev;
    PrevAfter(log, SignedEntry(keyring, p, fields), w);
  }

  lemma AppendKeeps(keyring: map<string, string>, sys: System, w: string, fields: Fields)
    requires Inv(keyring, sys)
    ensures Inv(keyring, Step(keyring, sys, Append(w, fields)))
  {
    hide Verified, ProcessInv, HmacIn;
    if w in sys.processes && sys.processes[w].keyId in keyring {
      var p := sys.processes[w];
      var e := SignedEntry(keyring, p, fields);
      NotForked(keyring, sys, w);
      NewDigest(keyring, sys, w, fields);
      forall id ensures Verified(Secrets(keyring, id), sys.log + [e]) {
        NewEntryOk(keyring, id, sys.log, w, p, fields);
        ExtendVerified(Secrets(keyring, id), sys.log, e);
      }
      OwnProcess(keyring, sys.log, w, p, fields);
      forall v | v in sys.processes && v != w ensures ProcessInv(keyring, sys.log + [e], v, sys.processes[v]) {
        OtherProcess(keyring, sys.log, e, v, sys.processes[v]);
      }
    }
  }

  lemma NotForked(keyring: map<string, string>, sys: System, w: string)
    requires Inv(keyring, sys) && w in sys.processes
    ensures !sys.processes[w].forked && sys.processes[w].writerId == w
  {
    assert ProcessInv(keyring, sys.log, w, sys.processes[w]);
  }

  lemma StartKeeps(keyring: map<string, string>, sys: System, w: string, keyId: string)
    requires Inv(keyring, sys)
    ensures Inv(keyring, Step(keyring, sys, Started(w, keyId)))
  {
    hide Verified, HmacIn;
    if w !in sys.processes {
      forall i | 0 <= i < |sys.log| ensures Writer(sys.log[i]) != w { assert Accounted(sys.log[i], sys.processes); }
      assert Prev(sys.log, w, |sys.log|).None?;
    }
  }

  lemma InitializeKeeps(keyring: map<string, string>, sys: System, w: string)
    requires Inv(keyring, sys) && (w in sys.processes ==> sys.processes[w].seqNo == 0)
    ensures Inv(keyring, Step(keyring, sys, Initialize(w)))
  {
    hide Verified;
    if w in sys.processes {
      assert ProcessInv(keyring, sys.log, w, sys.processes[w]);
      assert Verified(Secrets(keyring, sys.processes[w].keyId), sys.log);
      if sys.log != [] { assert HmacIn(sys.log, sys.log[|sys.log| - 1].hmac); }
      var p := Initialized(keyring, sys.processes[w], sys.log);
      assert ProcessInv(keyring, sys.log, w, p);
    }
  }

  lemma {:induction false} RunKeeps(keyring: map<string, string>, events: seq<Event>)
    requires Disciplined(keyring, events)
    ensures Inv(keyring, Run(keyring, events))
  {
    hide Inv, Step;
    if events == [] {
      EmptyInv(keyring);
    } else {
      var n := |events| - 1;
      var shorter := events[..n];
      forall k | 0 <= k < n ensures events[..k] == shorter[..k] {}
      assert Disciplined(keyring, shorter);
      RunKeeps(keyring, shorter);
      var sys := Run(keyring, shorter);
      match events[n]
      case Started(w, keyId) => StartKeeps(keyring, sys, w, keyId);
      case Initialize(w) => InitializeKeeps(keyring, sys, w);
      case Append(w, fields) => AppendKeeps(keyring, sys, w, fields);
    }
  }

  lemma EmptyInv(keyring: map<string, string>)
    ensures Inv(keyring, System([], map[]))
  {
  }

  /** Every interleaving of processes that keep the append discipline leaves a log that verifies, and no
      process is ever sent to a forked file. */
  lemma HonestRunsVerify(keyring: map<string, string>, events: seq<Event>, currentKeyId: string)
    requires Disciplined(keyring, events)
    ensures Verified(Secrets(keyring, currentKeyId), Run(keyring, events).log)
    ensures forall w :: w in Run(keyring, events).processes ==> !Run(keyring, events).processes[w].forked
  {
    hide Verified, Run;
    RunKeeps(keyring, events);
    var sys := Run(keyring, events);
    forall w | w in sys.processes ensures !sys.processes[w].forked { NotForked(keyring, sys, w); }
  }

  // ── The log holds what was appended ───────────────────────────────────────

  /** The writer was started, under a key the keyring holds. */
  ghost predicate Launched(keyring: map<string, string>, events: seq<Event>, w: string) {
    exists k :: 0 <= k < |events| && events[k].Started? && events[k].writerId == w
             && events[k].keyId != "" && events[k].keyId in keyring && keyring[events[k].keyId] != ""
  }

  /** Who appended what, in order, leaving out writers that were not started. */
  ghost function Appended(keyring: map<string, string>, events: seq<Event>): seq<(string, Fields)> {
    if events == [] then [] else
      var n := |events| - 1;
      var e := events[n];
      Appended(keyring, events[..n]) + (if e.Append? && Launched(keyring, events[..n], e.writerId) then [(e.writerId, e.fields)] else [])
  }

  ghost function CountOf(list: seq<(string, Fields)>, w: string): nat {
    if list == [] then 0 else CountOf(list[..|list| - 1], w) + (if list[|list| - 1].0 == w then 1 else 0)
  }

  lemma LaunchedNext(keyring: map<string, string>, events: seq<Event>, w: string)
    requires events != []
    ensures var e := events[|events| - 1];
      Launched(keyring, events, w) <==>
        || Launched(keyring, events[..|events| - 1], w)
        || (e.Started? && e.writerId == w && e.keyId != "" && e.keyId in keyring && keyring[e.keyId] != "")
  {
    var n := |events| - 1;
    if Launched(keyring, events[..n], w) {
      var k :| 0 <= k < n && events[..n][k].Started? && events[..n][k].writerId == w
            && events[..n][k].keyId != "" && events[..n][k].keyId in keyring && keyring[events[..n][k].keyId] != "";
      assert events[k] == events[..n][k];
    }
  }

  /** The stored entry is what its writer appended, under the writer's name and next number. */
  ghost predicate Holds(e: Entry, list: seq<(string, Fields)>, i: nat)
    requires i < |list|
  {
    && e.fields == list[i].1 && e.writerId == Some(list[i].0) && e.seqNo == Some(CountOf(list[..i], list[i].0) + 1)
    && e.keyId.Some? && e.prevHmac.Some?
  }

  /** The processes are the started writers, each at the number of its appends. */
  ghost predicate Counted(keyring: map<string, string>, processes: map<string, Process>, events: seq<Event>, list: seq<(string, Fields)>) {
    && (forall w :: w in processes <==> Launched(keyring, events, w))
    && (forall w :: w in processes ==> processes[w].seqNo == CountOf(list, w))
  }

  ghost predicate Stored(log: seq<Entry>, list: seq<(string, Fields)>) {
    |log| == |list| && forall i :: 0 <= i < |list| ==> Holds(log[i], list, i)
  }

  ghost predicate Records(keyring: map<string, string>, sys: System, events: seq<Event>) {
    Counted(keyring, sys.processes, events, Appended(keyring, events)) && Stored(sys.log, Appended(keyring, events))
  }

  lemma CountPush(list: seq<(string, Fields)>, x: (string, Fields), w: string)
    ensures CountOf(list + [x], w) == CountOf(list, w) + (if x.0 == w then 1 else 0)
  {
    assert (list + [x])[..|list|] == list;
  }

  lemma HoldsPush(e: Entry, list: seq<(string, Fields)>, x: (string, Fields), i: nat)
    requires i < |list| && Holds(e, list, i)
    ensures Holds(e, list + [x], i)
  {
    assert (list + [x])[..i] == list[..i];
  }

  lemma StoredPush(log: seq<Entry>, e: Entry, list: seq<(string, Fields)>, x: (string, Fields))
    requires Stored(log, list) && Holds(e, list + [x], |list|)
    ensures Stored(log + [e], list + [x])
  {
    hide Holds;
    forall i | 0 <= i < |list| ensures Holds(log[i], list + [x], i) { HoldsPush(log[i], list, x, i); }
  }

  lemma CountedPush(keyring: map<string, string>, before: map<string, Process>, after: map<string, Process>,
                    events: seq<Event>, list: seq<(string, Fields)>, x: (string, Fields))
    requires events != [] && !events[|events| - 1].Started? && Counted(keyring, before, events[..|events| - 1], list)
    requires x.0 in before && after.Keys == before.Keys && after[x.0].seqNo == before[x.0].seqNo + 1
    requires forall w :: w in before && w != x.0 ==> after[w] == before[w]
    ensures Counted(keyring, after, events, list + [x])
  {
    hide Launched, CountOf;
    forall w ensures Launched(keyring, events, w) <==> Launched(keyring, events[..|events| - 1], w) { LaunchedNext(keyring, events, w); }
    forall w ensures CountOf(list + [x], w) == CountOf(list, w) + (if x.0 == w then 1 else 0) { CountPush(list, x, w); }
  }

  lemma AppendedStep(keyring: map<string, string>, events: seq<Event>)
    requires events != []
    ensures var n := |events| - 1;
      Appended(keyring, events) ==
        if events[n].Append? && Launched(keyring, events[..n], events[n].writerId)
        then Appended(keyring, events[..n]) + [(events[n].writerId, events[n].fields)] else Appended(keyring, events[..n])
  {
    hide Launched;
  }

  lemma AppendStep(keyring: map<string, string>, sys: System, w: string, fields: Fields)
    requires Inv(keyring, sys) && w in sys.processes
    ensures var p := sys.processes[w];
      && p.keyId in keyring && p.writerId == w
      && var e := SignedEntry(keyring, p, fields);
      Step(keyring, sys, Append(w, fields)) == System(sys.log + [e], sys.processes[w := Advanced(p, e)])
  {
    hide Verified, HmacIn;
    assert ProcessInv(keyring, sys.log, w, sys.processes[w]);
  }

  lemma AppendRecords(keyring: map<string, string>, events: seq<Event>, sys: System)
    requires events != [] && Inv(keyring, sys) && Records(keyring, sys, events[..|events| - 1]) && events[|events| - 1].Append?
    ensures Records(keyring, Step(keyring, sys, events[|events| - 1]), events)
  {
    hide Launched, Holds, CountOf, Inv, Appended, Stored, SignedEntry;
    var n := |events| - 1;
    var w, fields := events[n].writerId, events[n].fields;
    var list := Appended(keyring, events[..n]);
    AppendedStep(keyring, events);
    if w in sys.processes {
      AppendStep(keyring, sys, w, fields);
      var p := sys.processes[w];
      var e := SignedEntry(keyring, p, fields);
      NewHolds(keyring, p, list, fields);
      StoredPush(sys.log, e, list, (w, fields));
      CountedPush(keyring, sys.processes, sys.processes[w := Advanced(p, e)], events, list, (w, fields));
    } else {
      assert Step(keyring, sys, events[n]) == sys;
      CountedSame(keyring, sys.processes, events, list);
    }
  }

  lemma CountedSame(keyring: map<string, string>, processes: map<string, Process>, events: seq<Event>, list: seq<(string, Fields)>)
    requires events != [] && !events[|events| - 1].Started? && Counted(keyring, processes, events[..|events| - 1], list)
    ensures Counted(keyring, processes, events, list)
  {
    hide Launched, CountOf;
    forall w ensures Launched(keyring, events, w) <==> Launched(keyring, events[..|events| - 1], w) { LaunchedNext(keyring, events, w); }
  }

  lemma NewHolds(keyring: map<string, string>, p: Process, list: seq<(string, Fields)>, fields: Fields)
    requires p.keyId in keyring && p.seqNo == CountOf(list, p.writerId)
    ensures Holds(SignedEntry(keyring, p, fields), list + [(p.writerId, fields)], |list|)
  {
    hide CountOf;
    assert (list + [(p.writerId, fields)])[..|list|] == list;
  }

  lemma OtherRecords(keyring: map<string, string>, events: seq<Event>, sys: System)
    requires events != [] && Records(keyring, sys, events[..|events| - 1])
    requires var e := events[|events| - 1];
      e.Started? || (e.Initialize? && (e.writerId in sys.processes ==> sys.processes[e.writerId].seqNo == 0))
    ensures Records(keyring, Step(keyring, sys, events[|events| - 1]), events)
  {
    hide Launched, CountOf, Appended, Stored, Verified;
    var n := |events| - 1;
    var e := events[n];
    AppendedStep(keyring, events);
    forall v
      ensures Launched(keyring, events, v) <==>
        || Launched(keyring, events[..n], v)
        || (e.Started? && e.writerId == v && e.keyId != "" && e.keyId in keyring && keyring[e.keyId] != "")
    {
      LaunchedNext(keyring, events, v);
    }
    if e.Started? && e.writerId !in sys.processes { NeverAppended(keyring, events[..n], e.writerId); }
  }

  lemma {:induction false} NeverAppended(keyring: map<string, string>, events: seq<Event>, w: string)
    requires !Launched(keyring, events, w)
    ensures CountOf(Appended(keyring, events), w) == 0
  {
    hide Launched, CountOf;
    if events == [] {
      CountNone(w);
    } else {
      var n := |events| - 1;
      LaunchedNext(keyring, events, w);
      NeverAppended(keyring, events[..n], w);
      var e := events[n];
      if e.Append? && Launched(keyring, events[..n], e.writerId) {
        CountPush(Appended(keyring, events[..n]), (e.writerId, e.fields), w);
      } else {
        assert Appended(keyring, events) == Appended(keyring, events[..n]);
      }
    }
  }

  lemma CountNone(w: string)
    ensures CountOf([], w) == 0
  {
  }

  /** In every run that keeps the discipline the log holds, in order, exactly what the started writers
      appended, each entry under its writer's name and numbered by that writer from 1 on. */
  lemma {:induction false} LogHoldsAppended(keyring: map<string, string>, events: seq<Event>)
    requires Disciplined(keyring, events)
    ensures Records(keyring, Run(keyring, events), events)
  {
    hide Inv, Step, Records;
    if events == [] {
      NothingRecorded(keyring);
    } else {
      var n := |events| - 1;
      var shorter := events[..n];
      forall k | 0 <= k < n ensures events[..k] == shorter[..k] {}
      assert Disciplined(keyring, shorter);
      RunKeeps(keyring, shorter);
      LogHoldsAppended(keyring, shorter);
      var sys := Run(keyring, shorter);
      if events[n].Append? { AppendRecords(keyring, events, sys); } else { OtherRecords(keyring, events, sys); }
    }
  }

  lemma NothingRecorded(keyring: map<string, string>)
    ensures Records(keyring, System([], map[]), [])
  {
  }

  // ── Outside the discipline ────────────────────────────────────────────────

  /** A process that initializes again keeps the log verifiable exactly when it had appended nothing. */
  lemma InitializeAgainExact(keyring: map<string, string>, events: seq<Event>, w: string, fields: Fields, currentKeyId: string)
    requires Disciplined(keyring, events) && w in Run(keyring, events).processes
    ensures var sys := Run(keyring, events);
            var log := Step(keyring, Step(keyring, sys, Initialize(w)), Append(w, fields)).log;
            Verified(Secrets(keyring, currentKeyId), log) <==> sys.processes[w].seqNo == 0
  {
    hide Verified, Run;
    RunKeeps(keyring, events);
    var sys := Run(keyring, events);
    var s := Secrets(keyring, currentKeyId);
    var again := Step(keyring, sys, Initialize(w));
    var log := Step(keyring, again, Append(w, fields)).log;
    if sys.processes[w].seqNo == 0 {
      InitializeKeeps(keyring, sys, w);
      AppendKeeps(keyring, again, w, fields);
    } else {
      assert Verified(Secrets(keyring, sys.processes[w].keyId), sys.log);
      SequenceBreaks(keyring, s, sys.log, w, sys.processes[w], again.processes[w], fields);
    }
  }

  lemma SequenceBreaks(keyring: map<string, string>, s: Secrets, log: seq<Entry>, w: string, p: Process, again: Process, fields: Fields)
    requires ProcessInv(keyring, log, w, p) && p.seqNo > 0
    requires again.writerId == w && again.keyId in keyring && again.seqNo == 0
    ensures !Verified(s, log + [SignedEntry(keyring, again, fields)])
  {
    hide Prev, LastIndex;
    var e := SignedEntry(keyring, again, fields);
    var longer := log + [e];
    assert longer[|log|] == e && Writer(e) == w;
    PrevPrefix(log, e, w, |log|);
    assert !EntryOk(s, longer, |log|);
  }

  /** After an append that did not reach the disk, the process's next entry verifies exactly when it is
      the first of the file. */
  lemma LostAppendExact(keyring: map<string, string>, events: seq<Event>, w: string, lost: Fields, fields: Fields, currentKeyId: string)
    requires Disciplined(keyring, events) && w in Run(keyring, events).processes
    ensures var sys := Run(keyring, events);
            var p := sys.processes[w];
            && p.keyId in keyring
            && var next := SignedEntry(keyring, Advanced(p, SignedEntry(keyring, p, lost)), fields);
            Verified(Secrets(keyring, currentKeyId), sys.log + [next]) <==> sys.log == []
  {
    hide Verified, Run;
    RunKeeps(keyring, events);
    var sys := Run(keyring, events);
    var p := sys.processes[w];
    assert ProcessInv(keyring, sys.log, w, p);
    NewDigest(keyring, sys, w, lost);
    LostEntry(keyring, Secrets(keyring, currentKeyId), sys.log, w, p, lost, fields);
  }

  lemma LostEntry(keyring: map<string, string>, s: Secrets, log: seq<Entry>, w: string, p: Process, lost: Fields, fields: Fields)
    requires ProcessInv(keyring, log, w, p) && s.keyring == keyring && !HmacIn(log, SignedEntry(keyring, p, lost).hmac)
    ensures var e := SignedEntry(keyring, Advanced(p, SignedEntry(keyring, p, lost)), fields);
            Verified(s, log + [e]) <==> log == []
  {
    hide Prev, LastIndex;
    var h := SignedEntry(keyring, p, lost).hmac;
    var e := SignedEntry(keyring, Advanced(p, SignedEntry(keyring, p, lost)), fields);
    var longer := log + [e];
    assert longer[|log|] == e && Writer(e) == w && PrevHmac(e) == h && e.hmac != h;
    PrevPrefix(log, e, w, |log|);
    LastIndexPrefix(log, e, h);
    if log == [] {
      assert EntryOk(s, longer, 0);
    } else {
      assert !EntryOk(s, longer, |log|);
    }
  }

  /** The shortest failing runs: one process that has appended one entry. */
  function OneEntry(w: string, keyId: string, fields: Fields): seq<Event> { [Started(w, keyId), Append(w, fields)] }

  lemma OneEntryRun(keyring: map<string, string>, w: string, keyId: string, fields: Fields)
    requires keyId != "" && keyId in keyring && keyring[keyId] != ""
    ensures var sys := Run(keyring, OneEntry(w, keyId, fields));
            Disciplined(keyring, OneEntry(w, keyId, fields)) && w in sys.processes && sys.processes[w].seqNo == 1 && |sys.log| == 1
  {
    var events := OneEntry(w, keyId, fields);
    assert events[..1] == [Started(w, keyId)] && events[..1][..0] == [];
    assert Run(keyring, events[..1]) == System([], map[w := Launch(w, keyId)]);
  }

  /** If it initializes again, its next entry does not verify. */
  lemma InitializeAgainFails(keyring: map<string, string>, w: string, keyId: string, first: Fields, fields: Fields, currentKeyId: string)
    requires keyId != "" && keyId in keyring && keyring[keyId] != ""
    ensures var sys := Run(keyring, OneEntry(w, keyId, first));
            !Verified(Secrets(keyring, currentKeyId), Step(keyring, Step(keyring, sys, Initialize(w)), Append(w, fields)).log)
  {
    hide Run, Step, Verified, OneEntry, Disciplined;
    OneEntryRun(keyring, w, keyId, first);
    InitializeAgainExact(keyring, OneEntry(w, keyId, first), w, fields, currentKeyId);
  }

  /** If its second append does not reach the disk, its third entry does not verify. */
  lemma LostAppendFails(keyring: map<string, string>, w: string, keyId: string, first: Fields, lost: Fields, fields: Fields, currentKeyId: string)
    requires keyId != "" && keyId in keyring && keyring[keyId] != ""
    ensures var sys := Run(keyring, OneEntry(w, keyId, first));
            && w in sys.processes && sys.processes[w].keyId in keyring
            && var p := sys.processes[w];
            !Verified(Secrets(keyring, currentKeyId), sys.log + [SignedEntry(keyring, Advanced(p, SignedEntry(keyring, p, lost)), fields)])
  {
    hide Run, Step, Verified, OneEntry, Disciplined;
    OneEntryRun(keyring, w, keyId, first);
    LostAppendExact(keyring, OneEntry(w, keyId, first), w, lost, fields, currentKeyId);
  }

  // ── Two interleaved writers and a pruned file ─────────────────────────────

  /** Two processes take turns, two entries each. */
  function Turns(v: string, w: string, keyId: string, f: Fields): seq<Event> {
    [Started(v, keyId)] + [Started(w, keyId)] + [Append(v, f)] + [Append(w, f)] + [Append(v, f)] + [Append(w, f)]
  }

  lemma RunThen(keyring: map<string, string>, events: seq<Event>, e: Event)
    ensures Run(keyring, events + [e]) == Step(keyring, Run(keyring, events), e)
  {
    hide Step;
    assert (events + [e])[..|events|] == events;
  }

  lemma TurnsDisciplined(keyring: map<string, string>, v: string, w: string, keyId: string, f: Fields)
    ensures Disciplined(keyring, Turns(v, w, keyId, f))
  {
    hide Run;
    var events := Turns(v, w, keyId, f);
    forall k | 0 <= k < |events| ensures !events[k].Initialize? {}
  }

  /** Appending by a known process adds an entry of its own. */
  lemma AppendsOwn(keyring: map<string, string>, sys: System, w: string, f: Fields)
    requires Inv(keyring, sys) && w in sys.processes
    ensures var next := Step(keyring, sys, Append(w, f));
            next.processes.Keys == sys.processes.Keys && |next.log| == |sys.log| + 1 && sys.log == next.log[..|sys.log|]
            && Writer(next.log[|sys.log|]) == w
  {
    hide Verified, HmacIn;
    assert ProcessInv(keyring, sys.log, w, sys.processes[w]);
  }

  lemma TurnsWriters(keyring: map<string, string>, v: string, w: string, keyId: string, f: Fields)
    requires v != w && keyId != "" && keyId in keyring && keyring[keyId] != ""
    ensures var log := Run(keyring, Turns(v, w, keyId, f)).log;
            |log| == 4 && Writer(log[1]) == w && Writer(log[2]) == v && Writer(log[3]) == w
  {
    hide Run, Step, Inv, Writer;
    var started := [Started(v, keyId)] + [Started(w, keyId)];
    StartedTwo(keyring, v, w, keyId);
    var s0 := Run(keyring, started);
    RunThen(keyring, started, Append(v, f));
    RunThen(keyring, started + [Append(v, f)], Append(w, f));
    RunThen(keyring, started + [Append(v, f)] + [Append(w, f)], Append(v, f));
    RunThen(keyring, started + [Append(v, f)] + [Append(w, f)] + [Append(v, f)], Append(w, f));
    var s1 := Step(keyring, s0, Append(v, f));
    AppendsOwn(keyring, s0, v, f);
    AppendKeeps(keyring, s0, v, f);
    var s2 := Step(keyring, s1, Append(w, f));
    AppendsOwn(keyring, s1, w, f);
    AppendKeeps(keyring, s1, w, f);
    var s3 := Step(keyring, s2, Append(v, f));
    AppendsOwn(keyring, s2, v, f);
    AppendKeeps(keyring, s2, v, f);
    AppendsOwn(keyring, s3, w, f);
    assert Turns(v, w, keyId, f) == started + [Append(v, f)] + [Append(w, f)] + [Append(v, f)] + [Append(w, f)];
  }

  lemma StartedTwo(keyring: map<string, string>, v: string, w: string, keyId: string)
    requires v != w && keyId != "" && keyId in keyring && keyring[keyId] != ""
    ensures var sys := Run(keyring, [Started(v, keyId)] + [Started(w, keyId)]);
            Inv(keyring, sys) && v in sys.processes && w in sys.processes && sys.log == []
  {
    hide Inv;
    var one := [Started(v, keyId)];
    assert one[..0] == [];
    EmptyInv(keyring);
    RunThen(keyring, one, Started(w, keyId));
    StartKeeps(keyring, System([], map[]), v, keyId);
    StartKeeps(keyring, Run(keyring, one), w, keyId);
  }

  /** After the first two of their entries are pruned, a process that initializes on what remains forks it,
      although nothing was tampered with. */
  lemma PrunedTurnsFork(keyring: map<string, string>, v: string, w: string, keyId: string, f: Fields, p: Process)
    requires v != w && keyId != "" && keyId in keyring && keyring[keyId] != ""
    ensures var log := Run(keyring, Turns(v, w, keyId, f)).log;
            Verified(Secrets(keyring, p.keyId), log) && |log| == 4 && Initialized(keyring, p, log[2..]).forked
  {
    hide Run, Verified, Turns, Writer, Prev, Disciplined;
    var log := Run(keyring, Turns(v, w, keyId, f)).log;
    TurnsDisciplined(keyring, v, w, keyId, f);
    TurnsWriters(keyring, v, w, keyId, f);
    HonestRunsVerify(keyring, Turns(v, w, keyId, f), p.keyId);
    PrevIs(log, w, 3, 1);
    PrunedWriterFails(Secrets(keyring, p.keyId), log, 1, 2, 3);
  }
}
