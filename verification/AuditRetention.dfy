/** Retention of the audit log: aged lines are appended to one archive file per day, then the active
    log is replaced by the lines kept. Sweeps run in small steps, beside writers that keep appending,
    and may crash between any two steps. */
module AuditRetention {
  import opened Wrappers

  const DAY_MS: int := 86_400_000

  /** A line of the log together with what parsing it yields: nothing, an entry whose timestamp is not
      a date, or an entry with a timestamp in milliseconds. */
  datatype Line = Unparseable(text: string) | Undated(text: string) | Dated(text: string, stamp: int)

  function Day(stamp: int): int { stamp / DAY_MS }

  /** One archive file, or the lines a plan sends to it. */
  datatype Bucket = Bucket(day: int, lines: seq<Line>)

  // ── The plan ──────────────────────────────────────────────────────────────

  predicate Aged(line: Line, cutoff: int) { line.Dated? && line.stamp < cutoff }

  function Keep(lines: seq<Line>, cutoff: int): seq<Line> {
    if lines == [] then [] else
      var n := |lines| - 1;
      Keep(lines[..n], cutoff) + (if Aged(lines[n], cutoff) then [] else [lines[n]])
  }

  /** Adds a line to the bucket of its day; new buckets go last. */
  function AddTo(buckets: seq<Bucket>, day: int, line: Line): (r: seq<Bucket>)
    ensures |r| >= 1
  {
    if buckets == [] then [Bucket(day, [line])]
    else if buckets[0].day == day then [Bucket(day, buckets[0].lines + [line])] + buckets[1..]
    else [buckets[0]] + AddTo(buckets[1..], day, line)
  }

  function Buckets(lines: seq<Line>, cutoff: int): seq<Bucket> {
    if lines == [] then [] else
      var n := |lines| - 1;
      var rest := Buckets(lines[..n], cutoff);
      if Aged(lines[n], cutoff) then AddTo(rest, Day(lines[n].stamp), lines[n]) else rest
  }

  datatype Plan = Plan(keep: seq<Line>, buckets: seq<Bucket>, cutoff: int)

  function PlanFor(lines: seq<Line>, cutoff: int): Plan { Plan(Keep(lines, cutoff), Buckets(lines, cutoff), cutoff) }

  lemma {:induction false} AddToAt(buckets: seq<Bucket>, i: nat, day: int, line: Line)
    requires i <= |buckets| && forall j :: 0 <= j < i ==> buckets[j].day != day
    ensures i == |buckets| ==> AddTo(buckets, day, line) == buckets + [Bucket(day, [line])]
    ensures i < |buckets| && buckets[i].day == day ==> AddTo(buckets, day, line) == buckets[i := Bucket(day, buckets[i].lines + [line])]
    decreases i
  {
    if i > 0 {
      AddToAt(buckets[1..], i - 1, day, line);
      assert [buckets[0]] + buckets[1..] == buckets;
    }
  }

  method AddToBuckets(buckets: seq<Bucket>, day: int, line: Line) returns (r: seq<Bucket>)
    ensures r == AddTo(buckets, day, line)
  {
    hide AddTo;
    var i := 0;
    while i < |buckets| && buckets[i].day != day
      invariant 0 <= i <= |buckets| && forall j :: 0 <= j < i ==> buckets[j].day != day
    {
      i := i + 1;
    }
    AddToAt(buckets, i, day, line);
    if i == |buckets| {
      r := buckets + [Bucket(day, [line])];
    } else {
      r := buckets[i := Bucket(day, buckets[i].lines + [line])];
    }
  }

  method BuildPlan(lines: seq<Line>, now: int, retentionDays: int) returns (plan: Plan)
    ensures plan == PlanFor(lines, now - retentionDays * DAY_MS)
  {
    var cutoff := now - retentionDays * DAY_MS;
    var keep: seq<Line>, byDate: seq<Bucket> := [], [];
    for i := 0 to |lines|
      invariant keep == Keep(lines[..i], cutoff) && byDate == Buckets(lines[..i], cutoff)
    {
      assert lines[..i + 1][..i] == lines[..i];
      var line := lines[i];
      if !line.Dated? || line.stamp >= cutoff {
        keep := keep + [line];
      } else {
        byDate := AddToBuckets(byDate, Day(line.stamp), line);
      }
    }
    assert lines[..|lines|] == lines;
    plan := Plan(keep, byDate, cutoff);
  }

  ghost predicate Holds(buckets: seq<Bucket>, line: Line) {
    exists i :: 0 <= i < |buckets| && line in buckets[i].lines
  }

  lemma {:induction false} AddToHolds(buckets: seq<Bucket>, day: int, line: Line, x: Line)
    ensures Holds(AddTo(buckets, day, line), x) <==> x == line || Holds(buckets, x)
  {
    if buckets == [] {
      assert AddTo(buckets, day, line)[0].lines == [line];
    } else {
      var rest := buckets[1..];
      HoldsCons(buckets[0], rest, x);
      assert [buckets[0]] + rest == buckets;
      if buckets[0].day == day {
        HoldsCons(Bucket(day, buckets[0].lines + [line]), rest, x);
      } else {
        AddToHolds(rest, day, line, x);
        HoldsCons(buckets[0], AddTo(rest, day, line), x);
      }
    }
  }

  lemma HoldsCons(b: Bucket, rest: seq<Bucket>, x: Line)
    ensures Holds([b] + rest, x) <==> x in b.lines || Holds(rest, x)
  {
    var all := [b] + rest;
    if Holds(rest, x) {
      var i :| 0 <= i < |rest| && x in rest[i].lines;
      assert all[i + 1] == rest[i];
    }
    if x in b.lines { assert all[0] == b; }
    if Holds(all, x) {
      var i :| 0 <= i < |all| && x in all[i].lines;
      if i > 0 { assert rest[i - 1] == all[i]; }
    }
  }

  /** A plan keeps the lines that are not aged and sends exactly the aged ones to the archive. */
  lemma {:induction false} PlanSplits(lines: seq<Line>, cutoff: int, x: Line)
    ensures x in Keep(lines, cutoff) <==> x in lines && !Aged(x, cutoff)
    ensures Holds(Buckets(lines, cutoff), x) <==> x in lines && Aged(x, cutoff)
  {
    hide Holds, AddTo;
    if lines == [] {
      NothingHeld(x);
    } else {
      var n := |lines| - 1;
      PlanSplits(lines[..n], cutoff, x);
      assert lines == lines[..n] + [lines[n]];
      if Aged(lines[n], cutoff) { AddToHolds(Buckets(lines[..n], cutoff), Day(lines[n].stamp), lines[n], x); }
    }
  }

  lemma NothingHeld(x: Line)
    ensures !Holds([], x)
  {
  }

  lemma {:induction false} NoneAgedExactly(lines: seq<Line>, cutoff: int)
    ensures Buckets(lines, cutoff) == [] <==> forall x :: x in lines ==> !Aged(x, cutoff)
  {
    if lines != [] {
      var n := |lines| - 1;
      NoneAgedExactly(lines[..n], cutoff);
      assert lines == lines[..n] + [lines[n]];
    }
  }

  /** A sweep has nothing to archive exactly when no line is dated before its retention. */
  lemma NothingToArchiveExactly(lines: seq<Line>, now: int, retentionDays: int)
    ensures PlanFor(lines, now - retentionDays * DAY_MS).buckets == [] <==>
            forall x :: x in lines && x.Dated? ==> x.stamp >= now - retentionDays * DAY_MS
  {
    hide Buckets;
    NoneAgedExactly(lines, now - retentionDays * DAY_MS);
  }

  /** Zero days do not switch retention off: it leaves the log alone exactly when no line is dated before
      the present moment. */
  lemma ZeroDaysDisableExactly(lines: seq<Line>, now: int)
    ensures PlanFor(lines, now - 0 * DAY_MS).buckets == [] <==> forall x :: x in lines && x.Dated? ==> x.stamp >= now
  {
    hide PlanFor;
    NothingToArchiveExactly(lines, now, 0);
  }

  /** A log of one line from the past is emptied. */
  lemma ZeroDaysArchive(text: string, age: nat, now: int)
    requires age > 0
    ensures var line := Dated(text, now - age);
            PlanFor([line], now - 0 * DAY_MS) == Plan([], [Bucket(Day(now - age), [line])], now)
  {
    var line := Dated(text, now - age);
    assert [line][..0] == [];
    assert Keep([line], now) == Keep([line][..0], now) + [];
    assert Buckets([line], now) == AddTo(Buckets([line][..0], now), Day(line.stamp), line);
  }

  // ── The archive directory ─────────────────────────────────────────────────

  /** The directory is its listing sorted by file name, that is by day. */
  function Lookup(archive: seq<Bucket>, day: int): seq<Line> {
    if archive == [] then [] else if archive[0].day == day then archive[0].lines else Lookup(archive[1..], day)
  }

  /** Appends lines to the file of a day, creating it in its place. */
  function Put(archive: seq<Bucket>, day: int, lines: seq<Line>): seq<Bucket> {
    if archive == [] then [Bucket(day, lines)]
    else if archive[0].day == day then [Bucket(day, archive[0].lines + lines)] + archive[1..]
    else if archive[0].day < day then [archive[0]] + Put(archive[1..], day, lines)
    else [Bucket(day, lines)] + archive
  }

  function Missing(lines: seq<Line>, had: seq<Line>): seq<Line> {
    if lines == [] then [] else
      var n := |lines| - 1;
      Missing(lines[..n], had) + (if lines[n] in had then [] else [lines[n]])
  }

  /** Archives the first `count` of a bucket's lines that its file does not hold yet. */
  function ArchiveSome(archive: seq<Bucket>, b: Bucket, count: nat): seq<Bucket> {
    var missing := Missing(b.lines, Lookup(archive, b.day));
    var part := if count <= |missing| then missing[..count] else missing;
    if part == [] then archive else Put(archive, b.day, part)
  }

  function ArchiveBucket(archive: seq<Bucket>, b: Bucket): seq<Bucket> { ArchiveSome(archive, b, |b.lines|) }

  function ArchiveAll(archive: seq<Bucket>, buckets: seq<Bucket>): seq<Bucket> {
    if buckets == [] then archive else ArchiveBucket(ArchiveAll(archive, buckets[..|buckets| - 1]), buckets[|buckets| - 1])
  }

  method MissingLines(lines: seq<Line>, already: seq<Line>) returns (missing: seq<Line>)
    ensures missing == Missing(lines, already) && |missing| <= |lines|
  {
    missing := [];
    for j := 0 to |lines|
      invariant missing == Missing(lines[..j], already) && |missing| <= j
    {
      assert lines[..j + 1][..j] == lines[..j];
      if lines[j] !in already { missing := missing + [lines[j]]; }
    }
    assert lines[..|lines|] == lines;
  }

  lemma ArchiveAllNext(archive: seq<Bucket>, dated: seq<Bucket>, i: nat)
    requires i < |dated|
    ensures ArchiveAll(archive, dated[..i + 1]) == ArchiveBucket(ArchiveAll(archive, dated[..i]), dated[i])
  {
    hide ArchiveBucket;
    assert dated[..i + 1][..i] == dated[..i];
  }

  method ArchiveDated(archive: seq<Bucket>, dated: seq<Bucket>) returns (r: seq<Bucket>, appended: nat)
    ensures r == ArchiveAll(archive, dated)
    ensures |Flat(r)| == |Flat(archive)| + appended
  {
    hide Put, Flat, Missing, Lookup, ArchiveAll;
    ArchiveNothing(archive, dated);
    r, appended := archive, 0;
    for i := 0 to |dated|
      invariant r == ArchiveAll(archive, dated[..i])
      invariant |Flat(r)| == |Flat(archive)| + appended
    {
      ArchiveAllNext(archive, dated, i);
      var b := dated[i];
      var missing := MissingLines(b.lines, Lookup(r, b.day));
      assert |missing| == |b.lines| ==> missing[..|b.lines|] == missing;
      if |missing| > 0 {
        PutFlat(r, b.day, missing);
        r := Put(r, b.day, missing);
        appended := appended + |missing|;
      }
    }
    assert dated[..|dated|] == dated;
  }

  lemma ArchiveNothing(archive: seq<Bucket>, dated: seq<Bucket>)
    ensures ArchiveAll(archive, dated[..0]) == archive
  {
  }

  function Flat(buckets: seq<Bucket>): seq<Line> {
    if buckets == [] then [] else buckets[0].lines + Flat(buckets[1..])
  }

  lemma {:induction false} PutFlat(archive: seq<Bucket>, day: int, lines: seq<Line>)
    ensures |Flat(Put(archive, day, lines))| == |Flat(archive)| + |lines|
  {
    if archive != [] {
      if archive[0].day == day {
        assert ([Bucket(day, archive[0].lines + lines)] + archive[1..])[1..] == archive[1..];
      } else if archive[0].day < day {
        PutFlat(archive[1..], day, lines);
        assert ([archive[0]] + Put(archive[1..], day, lines))[1..] == Put(archive[1..], day, lines);
      } else {
        assert ([Bucket(day, lines)] + archive)[1..] == archive;
      }
    }
  }

  function Parseable(lines: seq<Line>): seq<Line> {
    if lines == [] then [] else
      Parseable(lines[..|lines| - 1]) + (if lines[|lines| - 1].Unparseable? then [] else [lines[|lines| - 1]])
  }

  // ── Sweeps as steps ───────────────────────────────────────────────────────

  datatype Phase =
    | Idle
    | Archiving(source: seq<Line>, plan: Plan, done: nat, attempt: nat)
    | Writing(source: seq<Line>, plan: Plan, attempt: nat)
    | Renaming(source: seq<Line>, plan: Plan, attempt: nat)

  /** The files, the running sweep, and the cutoff of the latest plan. */
  datatype State = State(active: seq<Line>, archive: seq<Bucket>, temp: Option<seq<Line>>, phase: Phase, latest: int)

  datatype Event =
    | Append(line: Line)
    | Begin(cutoff: int)
    | ArchiveNext
    | WriteTemp
    | CompareRename(cutoff: int)
    | Crash(partial: nat)

  /** The archive and the active log as one chain, the way verification reads it. */
  function ReadChain(st: State): seq<Line> { Parseable(Flat(st.archive) + st.active) }

  const MAX_ATTEMPTS: nat := 3

  /** A step that does not apply in the current phase does nothing. A crash may leave part of one
      archive append behind. The comparison with the log as read and the rename are one step; when
      the log changed, the sweep plans again, at most three times. */
  function Step(st: State, event: Event): State {
    match event
    case Append(line) => st.(active := st.active + [line])
    case Begin(cutoff) =>
      if !st.phase.Idle? then st else
        var plan := PlanFor(st.active, cutoff);
        st.(latest := cutoff, phase := if plan.buckets == [] then Idle else Archiving(st.active, plan, 0, 0))
    case ArchiveNext =>
      if !st.phase.Archiving? then st else
        var ph := st.phase;
        if ph.done < |ph.plan.buckets| then
          st.(archive := ArchiveBucket(st.archive, ph.plan.buckets[ph.done]), phase := ph.(done := ph.done + 1))
        else st.(phase := Writing(ph.source, ph.plan, ph.attempt))
    case WriteTemp =>
      if !st.phase.Writing? then st
      else st.(temp := Some(st.phase.plan.keep), phase := Renaming(st.phase.source, st.phase.plan, st.phase.attempt))
    case CompareRename(cutoff) =>
      if !st.phase.Renaming? then st else
        var ph := st.phase;
        if st.active == ph.source then st.(active := ph.plan.keep, temp := None, phase := Idle)
        else if ph.attempt + 1 < MAX_ATTEMPTS then
          st.(latest := cutoff, phase := Archiving(st.active, PlanFor(st.active, cutoff), 0, ph.attempt + 1))
        else st.(temp := None, phase := Idle)
    case Crash(partial) =>
      if st.phase.Archiving? && st.phase.done < |st.phase.plan.buckets| then
        st.(archive := ArchiveSome(st.archive, st.phase.plan.buckets[st.phase.done], partial), phase := Idle)
      else st.(phase := Idle)
  }

  const EMPTY_STATE: State := State([], [], None, Idle, 0)

  function Run(events: seq<Event>): State {
    if events == [] then EMPTY_STATE else Step(Run(events[..|events| - 1]), events[|events| - 1])
  }

  /** Everything writers have appended, in order. */
  function Written(events: seq<Event>): seq<Line> {
    if events == [] then [] else
      var e := events[|events| - 1];
      Written(events[..|events| - 1]) + (if e.Append? then [e.line] else [])
  }

  // ── The sweep as a program ────────────────────────────────────────────────

  function RunFrom(st: State, events: seq<Event>): State
    decreases |events|
  {
    if events == [] then st else Step(RunFrom(st, events[..|events| - 1]), events[|events| - 1])
  }

  lemma {:induction false} RunFromSplit(st: State, a: seq<Event>, b: seq<Event>)
    ensures RunFrom(st, a + b) == RunFrom(RunFrom(st, a), b)
    decreases |b|
  {
    hide Step;
    if b == [] {
      assert a + b == a;
    } else {
      RunFromSplit(st, a, b[..|b| - 1]);
      assert (a + b)[..|a + b| - 1] == a + b[..|b| - 1];
    }
  }

  /** The program's sweeps are runs of the step machine. */
  lemma {:induction false} RunContinues(before: seq<Event>, events: seq<Event>)
    ensures RunFrom(Run(before), events) == Run(before + events)
    decreases |events|
  {
    hide Step;
    if events == [] {
      assert before + events == before;
    } else {
      RunContinues(before, events[..|events| - 1]);
      assert (before + events)[..|before + events| - 1] == before + events[..|events| - 1];
    }
  }

  function Appends(lines: seq<Line>): seq<Event> {
    if lines == [] then [] else Appends(lines[..|lines| - 1]) + [Append(lines[|lines| - 1])]
  }

  function Archives(n: nat): seq<Event> { if n == 0 then [] else Archives(n - 1) + [ArchiveNext] }

  lemma {:induction false} AppendsRun(st: State, lines: seq<Line>)
    ensures RunFrom(st, Appends(lines)) == st.(active := st.active + lines)
    decreases |lines|
  {
    if lines == [] {
      assert st.active + [] == st.active;
    } else {
      var n := |lines| - 1;
      AppendsRun(st, lines[..n]);
      var events := Appends(lines);
      assert events[..|events| - 1] == Appends(lines[..n]);
      assert st.active + lines == (st.active + lines[..n]) + [lines[n]];
    }
  }

  lemma RunFromLast(st: State, events: seq<Event>, e: Event)
    ensures RunFrom(st, events + [e]) == Step(RunFrom(st, events), e)
  {
    hide Step;
    assert (events + [e])[..|events|] == events;
  }

  lemma {:induction false} ArchivesRun(st: State, n: nat)
    requires st.phase.Archiving? && st.phase.done == 0 && n <= |st.phase.plan.buckets|
    ensures RunFrom(st, Archives(n)) == st.(archive := ArchiveAll(st.archive, st.phase.plan.buckets[..n]), phase := st.phase.(done := n))
  {
    hide ArchiveBucket, ArchiveAll, RunFrom;
    if n == 0 {
      ArchiveNothing(st.archive, st.phase.plan.buckets);
      RunFromNothing(st);
    } else {
      ArchivesRun(st, n - 1);
      RunFromLast(st, Archives(n - 1), ArchiveNext);
      ArchiveAllNext(st.archive, st.phase.plan.buckets, n - 1);
    }
  }

  lemma RunFromNothing(st: State)
    ensures RunFrom(st, []) == st
  {
  }

  /** The steps of one attempt before its rename, with the lines other writers append meanwhile. */
  function AttemptSteps(plan: Plan, arrivals: seq<Line>): seq<Event> {
    Archives(|plan.buckets|) + ([ArchiveNext] + [WriteTemp]) + Appends(arrivals)
  }

  lemma AttemptRun(st: State, arrivals: seq<Line>)
    requires st.phase.Archiving? && st.phase.done == 0
    ensures var ph := st.phase;
            RunFrom(st, AttemptSteps(ph.plan, arrivals))
            == State(st.active + arrivals, ArchiveAll(st.archive, ph.plan.buckets), Some(ph.plan.keep),
                     Renaming(ph.source, ph.plan, ph.attempt), st.latest)
  {
    hide Archives, Appends, ArchiveAll;
    var ph := st.phase;
    var n := |ph.plan.buckets|;
    var pair := [ArchiveNext] + [WriteTemp];
    ArchivesRun(st, n);
    assert ph.plan.buckets[..n] == ph.plan.buckets;
    var done := st.(archive := ArchiveAll(st.archive, ph.plan.buckets), phase := ph.(done := n));
    RunFromSplit(st, Archives(n), pair);
    assert pair[..1] == [ArchiveNext] && [ArchiveNext][..0] == [];
    var ready := done.(temp := Some(ph.plan.keep), phase := Renaming(ph.source, ph.plan, ph.attempt));
    assert RunFrom(done, [ArchiveNext]) == done.(phase := Writing(ph.source, ph.plan, ph.attempt));
    assert RunFrom(done, pair) == ready;
    RunFromSplit(st, Archives(n) + pair, Appends(arrivals));
    AppendsRun(ready, arrivals);
  }

  /** The step ends a sweep that found nothing to archive, or one whose rename went through. */
  predicate Completes(st: State, event: Event) {
    || (event.Begin? && st.phase.Idle? && Buckets(st.active, event.cutoff) == [])
    || (event.CompareRename? && st.phase.Renaming? && st.active == st.phase.source)
  }

  /** `events` end with a step that completes a sweep. */
  ghost predicate EndsSweep(st: State, events: seq<Event>) {
    events != [] && Completes(RunFrom(st, events[..|events| - 1]), events[|events| - 1])
  }

  // ── What a program sweep writes ───────────────────────────────────────────

  function Joined(parts: seq<seq<Line>>): seq<Line> {
    if parts == [] then [] else Joined(parts[..|parts| - 1]) + parts[|parts| - 1]
  }

  ghost predicate NoCrash(events: seq<Event>) { forall i :: 0 <= i < |events| ==> !events[i].Crash? }

  lemma {:induction false} WrittenSplit(a: seq<Event>, b: seq<Event>)
    ensures Written(a + b) == Written(a) + Written(b)
    decreases |b|
  {
    if b == [] {
      assert a + b == a;
    } else {
      WrittenSplit(a, b[..|b| - 1]);
      assert (a + b)[..|a + b| - 1] == a + b[..|b| - 1];
    }
  }

  lemma {:induction false} AppendsWrite(lines: seq<Line>)
    ensures Written(Appends(lines)) == lines && NoCrash(Appends(lines))
  {
    hide Written;
    if lines == [] {
      NothingWritten();
    } else {
      var n := |lines| - 1;
      AppendsWrite(lines[..n]);
      OneWrites(lines[n]);
      WrittenSplit(Appends(lines[..n]), [Append(lines[n])]);
      assert lines == lines[..n] + [lines[n]];
    }
  }

  lemma {:induction false} ArchivesWriteNothing(n: nat)
    ensures Written(Archives(n)) == [] && NoCrash(Archives(n))
  {
    hide Written;
    if n == 0 {
      NothingWritten();
    } else {
      ArchivesWriteNothing(n - 1);
      OneWritesNothing(ArchiveNext);
      WrittenSplit(Archives(n - 1), [ArchiveNext]);
    }
  }

  /** One attempt writes what arrives during it, and nothing else. */
  lemma AttemptWrites(plan: Plan, arrivals: seq<Line>, retry: int)
    ensures var events := AttemptSteps(plan, arrivals) + [CompareRename(retry)]; Written(events) == arrivals && NoCrash(events)
  {
    hide Archives, Appends;
    var pair := [ArchiveNext] + [WriteTemp];
    ArchivesWriteNothing(|plan.buckets|);
    AppendsWrite(arrivals);
    PairWritesNothing();
    OneWritesNothing(CompareRename(retry));
    WrittenSplit(Archives(|plan.buckets|), pair);
    WrittenSplit(Archives(|plan.buckets|) + pair, Appends(arrivals));
    WrittenSplit(AttemptSteps(plan, arrivals), [CompareRename(retry)]);
  }

  lemma OneWrites(line: Line)
    ensures Written([Append(line)]) == [line]
  {
    assert [Append(line)][..0] == [];
  }

  lemma NothingWritten()
    ensures Written([]) == []
  {
  }

  lemma OneWritesNothing(e: Event)
    requires !e.Append?
    ensures Written([e]) == []
  {
    assert [e][..0] == [];
  }

  lemma PairWritesNothing()
    ensures Written([ArchiveNext] + [WriteTemp]) == []
  {
    OneWritesNothing(ArchiveNext);
    OneWritesNothing(WriteTemp);
    WrittenSplit([ArchiveNext], [WriteTemp]);
  }

  lemma JoinedNothing(parts: seq<seq<Line>>)
    ensures Joined(parts[..0]) == []
  {
  }

  lemma JoinedNext(parts: seq<seq<Line>>, i: nat)
    requires i < |parts|
    ensures Joined(parts[..i + 1]) == Joined(parts[..i]) + parts[i]
  {
    assert parts[..i + 1][..i] == parts[..i];
  }

  datatype Status = Completed | Skipped | Failed

  /** The log files of one directory, under the retention lock. */
  class AuditFiles {
    var active: seq<Line>
    var archive: seq<Bucket>
    var temp: Option<seq<Line>>
    ghost var latest: int

    ghost function Value(): State
      reads this
    {
      State(active, archive, temp, Idle, latest)
    }

    /** One sweep: `nows` are the clock readings of its attempts, `arrivals` the lines other writers
        append during each. It is a run of the step machine without crashes, in which exactly the lines of
        the attempts made are written, and does not report the sweep as skipped
        exactly when its last step completes a sweep. A rename that leaves an unparseable line behind
        is reported as failed. */
    method EnforceAuditRetention(nows: seq<int>, retentionDays: int, arrivals: seq<seq<Line>>)
      returns (status: Status, ghost events: seq<Event>, ghost attempts: nat)
      requires |nows| == MAX_ATTEMPTS + 1 && |arrivals| == MAX_ATTEMPTS
      modifies this
      ensures Value() == RunFrom(old(Value()), events)
      ensures attempts <= MAX_ATTEMPTS && Written(events) == Joined(arrivals[..attempts]) && NoCrash(events)
      ensures !status.Skipped? <==> EndsSweep(old(Value()), events)
      ensures status.Failed? ==> exists x :: x in active && x.Unparseable?
    {
      hide Step, ArchiveAll, AttemptSteps, RunFrom, Buckets, Keep, EndsSweep, Written, Joined;
      ghost var start := Value();
      var source := active;
      var plan := BuildPlan(source, nows[0], retentionDays);
      latest := plan.cutoff;
      events, attempts := [Begin(plan.cutoff)], 0;
      BeginRun(start, plan.cutoff);
      OneWritesNothing(Begin(plan.cutoff));
      JoinedNothing(arrivals);
      if |plan.buckets| == 0 { return Completed, events, 0; }
      var attempt, renamed := 0, false;
      ghost var st := start.(latest := plan.cutoff, phase := Archiving(source, plan, 0, 0));
      while attempt < MAX_ATTEMPTS && !renamed
        invariant 0 <= attempt <= MAX_ATTEMPTS && st == RunFrom(start, events)
        invariant Written(events) == Joined(arrivals[..attempt]) && NoCrash(events)
        invariant active == st.active && archive == st.archive && latest == st.latest
        invariant attempt == 0 ==> source == active && plan == PlanFor(active, nows[0] - retentionDays * DAY_MS) && !renamed
        invariant !renamed && attempt < MAX_ATTEMPTS ==>
                    st.phase == Archiving(active, PlanFor(active, nows[attempt] - retentionDays * DAY_MS), 0, attempt)
        invariant !renamed && attempt == MAX_ATTEMPTS ==> st.phase == Idle && st.temp == None && !EndsSweep(start, events)
        invariant renamed ==> st.phase == Idle && temp == st.temp && active == plan.keep && EndsSweep(start, events)
      {
        if attempt > 0 {
          source := active;
          plan := BuildPlan(source, nows[attempt], retentionDays);
        }
        var appended;
        archive, appended := ArchiveDated(archive, plan.buckets);
        temp := Some(plan.keep);
        active := active + arrivals[attempt];
        ghost var retry := nows[attempt + 1] - retentionDays * DAY_MS;
        ghost var ready := State(active, archive, temp, Renaming(source, plan, attempt), latest);
        AttemptRun(st, arrivals[attempt]);
        RunFromSplit(start, events, AttemptSteps(plan, arrivals[attempt]));
        RenameStep(start, events + AttemptSteps(plan, arrivals[attempt]), ready, retry);
        AttemptWrites(plan, arrivals[attempt], retry);
        WrittenSplit(events, AttemptSteps(plan, arrivals[attempt]) + [CompareRename(retry)]);
        JoinedNext(arrivals, attempt);
        assert events + AttemptSteps(plan, arrivals[attempt]) + [CompareRename(retry)]
            == events + (AttemptSteps(plan, arrivals[attempt]) + [CompareRename(retry)]);
        events := events + AttemptSteps(plan, arrivals[attempt]) + [CompareRename(retry)];
        st := RunFrom(start, events);
        if active == source {
          active, temp, renamed := plan.keep, None, true;
        } else if attempt + 1 < MAX_ATTEMPTS {
          latest := retry;
        }
        attempt := attempt + 1;
      }
      if !renamed {
        temp := None;
        return Skipped, events, attempt;
      }
      for i := 0 to |active|
        invariant Value() == st
      {
        if active[i].Unparseable? { return Failed, events, attempt; }
      }
      return Completed, events, attempt;
    }
  }

  lemma BeginRun(st: State, cutoff: int)
    requires st.phase.Idle?
    ensures var plan := PlanFor(st.active, cutoff);
            && RunFrom(st, [Begin(cutoff)])
               == st.(latest := cutoff, phase := if plan.buckets == [] then Idle else Archiving(st.active, plan, 0, 0))
            && (EndsSweep(st, [Begin(cutoff)]) <==> plan.buckets == [])
  {
    hide Buckets, Keep;
    assert [Begin(cutoff)][..0] == [];
  }

  lemma RenameStep(start: State, events: seq<Event>, st: State, cutoff: int)
    requires st.phase.Renaming? && st == RunFrom(start, events)
    ensures var ph := st.phase;
            && RunFrom(start, events + [CompareRename(cutoff)]) ==
              (if st.active == ph.source then st.(active := ph.plan.keep, temp := None, phase := Idle)
               else if ph.attempt + 1 < MAX_ATTEMPTS then
                 st.(latest := cutoff, phase := Archiving(st.active, PlanFor(st.active, cutoff), 0, ph.attempt + 1))
               else st.(temp := None, phase := Idle))
            && (EndsSweep(start, events + [CompareRename(cutoff)]) <==> st.active == ph.source)
  {
    hide PlanFor;
    assert (events + [CompareRename(cutoff)])[..|events|] == events;
  }

  // ── Nothing is lost ───────────────────────────────────────────────────────

  lemma {:induction false} PutHolds(archive: seq<Bucket>, day: int, lines: seq<Line>, x: Line)
    ensures Holds(Put(archive, day, lines), x) <==> x in lines || Holds(archive, x)
  {
    hide Holds;
    NothingHeld(x);
    if archive == [] {
      HoldsCons(Bucket(day, lines), [], x);
      assert [Bucket(day, lines)] + [] == [Bucket(day, lines)];
    } else {
      var rest := archive[1..];
      assert [archive[0]] + rest == archive;
      HoldsCons(archive[0], rest, x);
      if archive[0].day == day {
        HoldsCons(Bucket(day, archive[0].lines + lines), rest, x);
      } else if archive[0].day < day {
        PutHolds(rest, day, lines, x);
        HoldsCons(archive[0], Put(rest, day, lines), x);
      } else {
        HoldsCons(Bucket(day, lines), archive, x);
      }
    }
  }

  lemma {:induction false} LookupHolds(archive: seq<Bucket>, day: int, x: Line)
    requires x in Lookup(archive, day)
    ensures Holds(archive, x)
  {
    if archive[0].day != day {
      LookupHolds(archive[1..], day, x);
      assert [archive[0]] + archive[1..] == archive;
      HoldsCons(archive[0], archive[1..], x);
    }
  }

  lemma {:induction false} MissingMembers(lines: seq<Line>, had: seq<Line>, x: Line)
    ensures x in Missing(lines, had) <==> x in lines && x !in had
    ensures |Missing(lines, had)| <= |lines|
  {
    if lines != [] {
      var n := |lines| - 1;
      MissingMembers(lines[..n], had, x);
      assert lines == lines[..n] + [lines[n]];
    }
  }

  /** Archiving adds lines of the bucket only, removes none, and when complete covers the bucket. */
  lemma ArchiveSomeHolds(archive: seq<Bucket>, b: Bucket, count: nat, x: Line)
    ensures Holds(archive, x) ==> Holds(ArchiveSome(archive, b, count), x)
    ensures Holds(ArchiveSome(archive, b, count), x) ==> Holds(archive, x) || x in b.lines
    ensures count >= |b.lines| && x in b.lines ==> Holds(ArchiveSome(archive, b, count), x)
  {
    hide Holds, Lookup, Put, Missing;
    var had := Lookup(archive, b.day);
    var missing := Missing(b.lines, had);
    MissingMembers(b.lines, had, x);
    var part := if count <= |missing| then missing[..count] else missing;
    assert count == |missing| ==> missing[..count] == missing;
    PutHolds(archive, b.day, part, x);
    if x in had { LookupHolds(archive, b.day, x); }
  }

  /** What a running sweep has secured: every source line is kept by the plan, waits in a bucket not
      yet archived, or is in the archive. */
  ghost predicate Secured(st: State, x: Line) {
    match st.phase
    case Idle => true
    case Archiving(source, plan, done, _) =>
      done <= |plan.buckets| && (x in source ==> x in plan.keep || Holds(plan.buckets[done..], x) || Holds(st.archive, x))
    case Writing(source, plan, _) => x in source ==> x in plan.keep || Holds(st.archive, x)
    case Renaming(source, plan, _) => x in source ==> x in plan.keep || Holds(st.archive, x)
  }

  /** Nothing comes from anywhere but the writers. */
  ghost predicate Genuine(st: State, x: Line, written: bool) {
    && (x in st.active || Holds(st.archive, x) ==> written)
    && (st.phase.Archiving? && Holds(st.phase.plan.buckets, x) ==> written)
    && (!st.phase.Idle? && x in st.phase.plan.keep ==> written)
  }

  ghost predicate Kept(st: State, x: Line, written: bool) {
    && (written ==> x in st.active || Holds(st.archive, x))
    && Secured(st, x) && Genuine(st, x, written)
  }

  lemma PlanKeeps(st: State, x: Line, written: bool, cutoff: int, attempt: nat)
    requires Kept(st, x, written)
    ensures Kept(st.(phase := Archiving(st.active, PlanFor(st.active, cutoff), 0, attempt), latest := cutoff), x, written)
  {
    hide Holds, Keep, Buckets;
    PlanSplits(st.active, cutoff, x);
    var plan := PlanFor(st.active, cutoff);
    assert plan.buckets[0..] == plan.buckets;
  }

  lemma HoldsAt(buckets: seq<Bucket>, i: nat, x: Line)
    requires i < |buckets|
    ensures x in buckets[i].lines ==> Holds(buckets, x)
    ensures Holds(buckets[i..], x) <==> x in buckets[i].lines || Holds(buckets[i + 1..], x)
  {
    assert buckets[i..] == [buckets[i]] + buckets[i + 1..];
    HoldsCons(buckets[i], buckets[i + 1..], x);
  }

  lemma ArchiveKeeps(st: State, x: Line, written: bool)
    requires Kept(st, x, written) && st.phase.Archiving?
    ensures Kept(Step(st, ArchiveNext), x, written)
  {
    hide Holds, ArchiveSome;
    var ph := st.phase;
    if ph.done < |ph.plan.buckets| {
      var b := ph.plan.buckets[ph.done];
      HoldsAt(ph.plan.buckets, ph.done, x);
      ArchiveSomeHolds(st.archive, b, |b.lines|, x);
    } else {
      assert ph.plan.buckets[ph.done..] == [];
      NothingHeld(x);
    }
  }

  lemma CrashKeeps(st: State, x: Line, written: bool, partial: nat)
    requires Kept(st, x, written)
    ensures Kept(Step(st, Crash(partial)), x, written)
  {
    hide Holds, ArchiveSome;
    if st.phase.Archiving? && st.phase.done < |st.phase.plan.buckets| {
      HoldsAt(st.phase.plan.buckets, st.phase.done, x);
      ArchiveSomeHolds(st.archive, st.phase.plan.buckets[st.phase.done], partial, x);
    }
  }

  lemma RenameKeeps(st: State, x: Line, written: bool, cutoff: int)
    requires Kept(st, x, written)
    ensures Kept(Step(st, CompareRename(cutoff)), x, written)
  {
    hide Holds, Keep, Buckets;
    if st.phase.Renaming? && st.active != st.phase.source { PlanKeeps(st, x, written, cutoff, st.phase.attempt + 1); }
  }

  lemma StepKeeps(st: State, event: Event, x: Line, written: bool)
    requires Kept(st, x, written)
    ensures Kept(Step(st, event), x, written || event == Append(x))
  {
    hide Holds, Keep, Buckets, ArchiveBucket, ArchiveSome;
    match event
    case Append(line) =>
    case Begin(cutoff) => if st.phase.Idle? { PlanKeeps(st, x, written, cutoff, 0); }
    case ArchiveNext => if st.phase.Archiving? { ArchiveKeeps(st, x, written); }
    case WriteTemp =>
    case CompareRename(cutoff) => RenameKeeps(st, x, written, cutoff);
    case Crash(partial) => CrashKeeps(st, x, written, partial);
  }

  /** Retention loses and invents nothing: whatever the interleaving of writers, sweep steps and crashes,
      the lines in the active log or the archive are those ever written. */
  lemma {:induction false} NothingLost(events: seq<Event>, x: Line)
    ensures var st := Run(events); x in Written(events) <==> x in st.active || Holds(st.archive, x)
    ensures Kept(Run(events), x, x in Written(events))
  {
    hide Step, Secured, Genuine;
    if events == [] {
      NothingAtFirst(x);
    } else {
      var n := |events| - 1;
      NothingLost(events[..n], x);
      StepKeeps(Run(events[..n]), events[n], x, x in Written(events[..n]));
      GenuineMembers(Run(events), x, x in Written(events));
    }
  }

  lemma NothingAtFirst(x: Line)
    ensures Kept(EMPTY_STATE, x, false) && !Holds(EMPTY_STATE.archive, x)
  {
  }

  lemma GenuineMembers(st: State, x: Line, written: bool)
    requires Kept(st, x, written)
    ensures written <==> x in st.active || Holds(st.archive, x)
  {
    hide Holds;
  }
}
