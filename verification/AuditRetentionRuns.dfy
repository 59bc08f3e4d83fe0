/** With distinct, dated lines written in time order, every completed sweep leaves the archive followed
    by the active log equal to all that was ever written. */
module AuditRetentionRuns {
  import opened AuditRetention

  /** Lines as well-behaved writers produce them. */
  ghost predicate Orderly(lines: seq<Line>) {
    && (forall i :: 0 <= i < |lines| ==> lines[i].Dated?)
    && (forall i, j :: 0 <= i < j < |lines| ==> lines[i].stamp <= lines[j].stamp && lines[i] != lines[j])
  }

  /** Cutoffs follow the clock. */
  ghost predicate ClockForward(events: seq<Event>) {
    forall k :: 0 <= k < |events| ==>
      && (events[k].Begin? ==> events[k].cutoff >= Run(events[..k]).latest)
      && (events[k].CompareRename? ==> events[k].cutoff >= Run(events[..k]).latest)
  }

  // ── The archive of a prefix ───────────────────────────────────────────────

  /** The archive that holds exactly these lines. */
  function Shelve(lines: seq<Line>): seq<Bucket>
    requires forall i :: 0 <= i < |lines| ==> lines[i].Dated?
  {
    if lines == [] then [] else
      var n := |lines| - 1;
      Put(Shelve(lines[..n]), Day(lines[n].stamp), [lines[n]])
  }

  ghost predicate Ascending(buckets: seq<Bucket>) {
    forall i, j :: 0 <= i < j < |buckets| ==> buckets[i].day < buckets[j].day
  }

  ghost predicate DaysAbove(buckets: seq<Bucket>, day: int) { forall i :: 0 <= i < |buckets| ==> day < buckets[i].day }

  ghost predicate DaysUpTo(buckets: seq<Bucket>, day: int) { forall i :: 0 <= i < |buckets| ==> buckets[i].day <= day }

  lemma {:induction false} PutUpTo(buckets: seq<Bucket>, day: int, lines: seq<Line>, top: int)
    requires DaysUpTo(buckets, top) && day <= top
    ensures DaysUpTo(Put(buckets, day, lines), top)
  {
    if buckets != [] && buckets[0].day < day { PutUpTo(buckets[1..], day, lines, top); }
  }

  lemma DaysDiffer(buckets: seq<Bucket>, i: nat, j: nat, day: int)
    requires Ascending(buckets) && DaysUpTo(buckets, day) && i < j < |buckets|
    ensures buckets[i].day < day
  {
    assert buckets[i].day < buckets[j].day;
  }

  lemma {:induction false} PutLast(buckets: seq<Bucket>, day: int, lines: seq<Line>)
    requires DaysUpTo(buckets, day) && Ascending(buckets)
    ensures Flat(Put(buckets, day, lines)) == Flat(buckets) + lines
  {
    if buckets == [] {
      assert Flat([Bucket(day, lines)]) == lines + Flat([]);
    } else {
      var rest := buckets[1..];
      if buckets[0].day == day {
        if |buckets| > 1 { DaysDiffer(buckets, 0, 1, day); assert false; }
        var b := Bucket(day, buckets[0].lines + lines);
        assert [b] + rest == [b] && [b][1..] == [] && Flat([b]) == b.lines;
      } else {
        PutLast(rest, day, lines);
        var put := Put(rest, day, lines);
        assert ([buckets[0]] + put)[1..] == put;
        assert buckets[0].lines + (Flat(rest) + lines) == (buckets[0].lines + Flat(rest)) + lines;
      }
    }
  }

  lemma {:induction false} AddToLast(buckets: seq<Bucket>, day: int, line: Line)
    requires DaysUpTo(buckets, day)
    ensures AddTo(buckets, day, line) == Put(buckets, day, [line])
  {
    if buckets != [] && buckets[0].day != day { AddToLast(buckets[1..], day, line); }
  }

  lemma {:induction false} PutSorted(buckets: seq<Bucket>, day: int, lines: seq<Line>)
    requires Ascending(buckets)
    ensures Ascending(Put(buckets, day, lines))
  {
    if buckets != [] && buckets[0].day < day {
      PutSorted(buckets[1..], day, lines);
      PutAbove(buckets[1..], day, lines, buckets[0].day);
    }
  }

  lemma {:induction false} PutAbove(buckets: seq<Bucket>, day: int, lines: seq<Line>, low: int)
    requires DaysAbove(buckets, low) && low < day
    ensures DaysAbove(Put(buckets, day, lines), low)
  {
    if buckets != [] && buckets[0].day < day { PutAbove(buckets[1..], day, lines, low); }
  }

  /** Days ascend along a shelf, and reading it gives the lines back. */
  lemma {:induction false} ShelfReads(lines: seq<Line>)
    requires Orderly(lines)
    ensures var s := Shelve(lines);
            && Flat(s) == lines
            && Ascending(s)
            && (lines != [] ==> DaysUpTo(s, Day(lines[|lines| - 1].stamp)))
  {
    if lines != [] {
      var n := |lines| - 1;
      var shorter := lines[..n];
      ShelfReads(shorter);
      var top := Day(lines[n].stamp);
      if n > 0 { DayMonotone(lines[n - 1].stamp, lines[n].stamp); }
      assert DaysUpTo(Shelve(shorter), top);
      PutLast(Shelve(shorter), top, [lines[n]]);
      PutSorted(Shelve(shorter), top, [lines[n]]);
      PutUpTo(Shelve(shorter), top, [lines[n]], top);
      assert lines == shorter + [lines[n]];
    }
  }

  lemma DayMonotone(a: int, b: int)
    requires a <= b
    ensures Day(a) <= Day(b)
  {
  }

  lemma {:induction false} PutTwice(buckets: seq<Bucket>, day: int, a: seq<Line>, b: seq<Line>)
    ensures Put(Put(buckets, day, a), day, b) == Put(buckets, day, a + b)
  {
    if buckets == [] {
    } else if buckets[0].day == day {
      assert (buckets[0].lines + a) + b == buckets[0].lines + (a + b);
    } else if buckets[0].day < day {
      PutTwice(buckets[1..], day, a, b);
      assert ([buckets[0]] + Put(buckets[1..], day, a))[1..] == Put(buckets[1..], day, a);
    } else {
      assert ([Bucket(day, a)] + buckets)[1..] == buckets;
    }
  }

  lemma {:induction false} LookupPut(buckets: seq<Bucket>, day: int, lines: seq<Line>, d: int)
    requires Ascending(buckets)
    ensures Lookup(Put(buckets, day, lines), d) == if d == day then Lookup(buckets, d) + lines else Lookup(buckets, d)
  {
    if buckets == [] {
    } else if buckets[0].day == day {
      assert ([Bucket(day, buckets[0].lines + lines)] + buckets[1..])[1..] == buckets[1..];
    } else if buckets[0].day < day {
      LookupPut(buckets[1..], day, lines, d);
      assert ([buckets[0]] + Put(buckets[1..], day, lines))[1..] == Put(buckets[1..], day, lines);
    } else {
      assert ([Bucket(day, lines)] + buckets)[1..] == buckets;
      if d == day { AbsentDay(buckets, d); }
    }
  }

  lemma {:induction false} AbsentDay(buckets: seq<Bucket>, d: int)
    requires DaysAbove(buckets, d)
    ensures Lookup(buckets, d) == []
  {
    if buckets != [] { AbsentDay(buckets[1..], d); }
  }

  /** A file of the shelf holds the lines of its day. */
  lemma {:induction false} ShelfDay(lines: seq<Line>, d: int, x: Line)
    requires Orderly(lines)
    ensures x in Lookup(Shelve(lines), d) <==> x in lines && Day(x.stamp) == d
  {
    hide Day, Put, Lookup;
    if lines != [] {
      var n := |lines| - 1;
      ShelfDay(lines[..n], d, x);
      ShelfReads(lines[..n]);
      LookupPut(Shelve(lines[..n]), Day(lines[n].stamp), [lines[n]], d);
      assert lines == lines[..n] + [lines[n]];
    } else {
      assert Lookup([], d) == [] by { AbsentDay([], d); }
    }
  }

  // ── Archiving a stretch of one day ────────────────────────────────────────

  /** Lines `a` to `b` share the day `d`. */
  ghost predicate SameDay(all: seq<Line>, a: nat, b: nat, d: int) {
    a <= b <= |all| && forall i :: a <= i < b ==> all[i].Dated? && Day(all[i].stamp) == d
  }

  lemma ShelveLast(all: seq<Line>, b: nat)
    requires Orderly(all) && 0 < b <= |all|
    ensures Shelve(all[..b]) == Put(Shelve(all[..b - 1]), Day(all[b - 1].stamp), [all[b - 1]])
  {
    hide Day, Put;
    assert all[..b][..b - 1] == all[..b - 1];
  }

  lemma {:induction false} ShelveMore(all: seq<Line>, a: nat, b: nat, d: int)
    requires Orderly(all) && SameDay(all, a, b, d) && a < b
    ensures Put(Shelve(all[..a]), d, all[a..b]) == Shelve(all[..b])
    decreases b
  {
    hide Day, Put, Shelve, Orderly;
    OrderlySlice(all, 0, a);
    ShelveLast(all, b);
    if a == b - 1 {
      assert all[a..b] == [all[a]];
    } else {
      ShelveMore(all, a, b - 1, d);
      PutTwice(Shelve(all[..a]), d, all[a..b - 1], [all[b - 1]]);
      assert all[a..b] == all[a..b - 1] + [all[b - 1]];
    }
  }

  lemma InPrefixExactly(all: seq<Line>, a: nat, i: nat)
    requires Orderly(all) && a <= |all| && i < |all|
    ensures all[i] in all[..a] <==> i < a
  {
    assert i < a ==> all[..a][i] == all[i];
  }

  lemma {:induction false} MissingSplit(held: seq<Line>, other: seq<Line>, had: seq<Line>)
    requires (forall i :: 0 <= i < |held| ==> held[i] in had) && (forall i :: 0 <= i < |other| ==> other[i] !in had)
    ensures Missing(held + other, had) == other
    decreases |held| + |other|
  {
    var all := held + other;
    if other != [] {
      var n := |other| - 1;
      assert all[..|all| - 1] == held + other[..n];
      MissingSplit(held, other[..n], had);
      assert other == other[..n] + [other[n]];
    } else if held != [] {
      assert all[..|all| - 1] == held[..|held| - 1] + [];
      MissingSplit(held[..|held| - 1], [], had);
    }
  }

  /** Of a stretch `x..y` of one day, the archive of the first `a` lines lacks `a..y`. */
  lemma MissingStretch(all: seq<Line>, x: nat, y: nat, a: nat, d: int)
    requires Orderly(all) && SameDay(all, x, y, d) && x <= a <= |all|
    ensures Missing(all[x..y], Lookup(Shelve(all[..a]), d)) == if a < y then all[a..y] else []
  {
    hide Day, Lookup, Shelve, Orderly, Missing;
    OrderlySlice(all, 0, a);
    var m := if a < y then a else y;
    var had := Lookup(Shelve(all[..a]), d);
    forall i | x <= i < y ensures all[i] in had <==> i < a {
      ShelfDay(all[..a], d, all[i]);
      InPrefixExactly(all, a, i);
    }
    MissingSplit(all[x..m], all[m..y], had);
    assert all[x..m] + all[m..y] == all[x..y];
  }

  /** Archiving part of a stretch extends the archived prefix. */
  lemma ArchiveStretch(all: seq<Line>, x: nat, y: nat, a: nat, d: int, count: nat)
    requires Orderly(all) && SameDay(all, x, y, d) && x <= a <= |all|
    ensures var archived := if a >= y then a else if count <= y - a then a + count else y;
            ArchiveSome(Shelve(all[..a]), Bucket(d, all[x..y]), count) == Shelve(all[..archived])
  {
    hide Day, Lookup, Shelve, Put, Missing;
    MissingStretch(all, x, y, a, d);
    if a < y {
      var b := if count <= y - a then a + count else y;
      assert all[a..y][..b - a] == all[a..b];
      if a < b { ShelveMore(all, a, b, d); } else { assert all[a..b] == []; }
    }
  }

  // ── The plan of an orderly log ────────────────────────────────────────────

  function AgedCount(lines: seq<Line>, cutoff: int): (c: nat)
    ensures c <= |lines|
  {
    if lines == [] then 0 else
      var n := |lines| - 1;
      AgedCount(lines[..n], cutoff) + (if Aged(lines[n], cutoff) then 1 else 0)
  }

  /** The aged lines are a prefix. */
  lemma {:induction false} AgedPrefix(lines: seq<Line>, cutoff: int)
    requires Orderly(lines)
    ensures forall i :: 0 <= i < |lines| ==> (Aged(lines[i], cutoff) <==> i < AgedCount(lines, cutoff))
  {
    if lines != [] {
      var n := |lines| - 1;
      AgedPrefix(lines[..n], cutoff);
      forall i | 0 <= i < n ensures lines[..n][i] == lines[i] {}
    }
  }

  lemma {:induction false} OrderlyKeep(lines: seq<Line>, cutoff: int)
    requires Orderly(lines)
    ensures Keep(lines, cutoff) == lines[AgedCount(lines, cutoff)..]
  {
    hide Orderly, Aged;
    if lines != [] {
      var n := |lines| - 1;
      AgedPrefix(lines, cutoff);
      OrderlySlice(lines, 0, n);
      OrderlyKeep(lines[..n], cutoff);
      var c := AgedCount(lines, cutoff);
      if c <= n { assert lines[..n][c..] + [lines[n]] == lines[c..]; }
    }
  }

  lemma {:induction false} OrderlyBuckets(lines: seq<Line>, cutoff: int)
    requires Orderly(lines)
    ensures Buckets(lines, cutoff) == Shelve(lines[..AgedCount(lines, cutoff)])
  {
    hide Put, AddTo, Day, Shelve;
    if lines == [] {
      ShelveNothing(lines);
    } else {
      var n := |lines| - 1;
      AgedPrefix(lines, cutoff);
      OrderlySlice(lines, 0, n);
      OrderlyBuckets(lines[..n], cutoff);
      var c := AgedCount(lines, cutoff);
      if c <= n {
        assert lines[..n][..c] == lines[..c];
      } else {
        assert lines[..n][..n] == lines[..n] && lines[..c] == lines;
        ShelvedNext(lines);
      }
    }
  }

  lemma ShelveNothing(lines: seq<Line>)
    ensures Shelve(lines[..0]) == []
  {
  }

  /** The plan of an orderly log keeps the rest and shelves the aged prefix. */
  lemma OrderlyPlan(lines: seq<Line>, cutoff: int)
    requires Orderly(lines)
    ensures var c := AgedCount(lines, cutoff);
            && Keep(lines, cutoff) == lines[c..]
            && Buckets(lines, cutoff) == Shelve(lines[..c])
            && (forall i :: 0 <= i < |lines| ==> (Aged(lines[i], cutoff) <==> i < c))
  {
    hide Keep, Buckets, Shelve, AgedCount, Aged;
    AgedPrefix(lines, cutoff);
    OrderlyKeep(lines, cutoff);
    OrderlyBuckets(lines, cutoff);
  }

  lemma ShelvedNext(lines: seq<Line>)
    requires Orderly(lines) && lines != []
    ensures var n := |lines| - 1;
            AddTo(Shelve(lines[..n]), Day(lines[n].stamp), lines[n]) == Shelve(lines)
  {
    var n := |lines| - 1;
    ShelfReads(lines[..n]);
    if n > 0 { DayMonotone(lines[n - 1].stamp, lines[n].stamp); }
    AddToLast(Shelve(lines[..n]), Day(lines[n].stamp), lines[n]);
  }

  /** Where bucket `j` starts in the shelved lines. */
  function Offset(buckets: seq<Bucket>, j: nat): nat
    requires j <= |buckets|
  {
    if j == 0 then 0 else Offset(buckets, j - 1) + |buckets[j - 1].lines|
  }

  lemma {:induction false} FlatSplits(buckets: seq<Bucket>, j: nat)
    requires j <= |buckets|
    ensures Flat(buckets) == Flat(buckets[..j]) + Flat(buckets[j..])
    decreases j
  {
    if j == 0 {
      assert buckets[0..] == buckets;
    } else {
      FlatSplits(buckets[1..], j - 1);
      assert buckets[..j][1..] == buckets[1..][..j - 1] && buckets[1..][j - 1..] == buckets[j..];
    }
  }

  lemma {:induction false} OffsetIs(buckets: seq<Bucket>, j: nat)
    requires j <= |buckets|
    ensures Offset(buckets, j) == |Flat(buckets[..j])|
  {
    if j > 0 {
      OffsetIs(buckets, j - 1);
      var front := buckets[..j];
      FlatSplits(front, j - 1);
      assert front[..j - 1] == buckets[..j - 1] && front[j - 1..] == [buckets[j - 1]];
      assert [buckets[j - 1]][1..] == [];
    }
  }

  /** Bucket `j` is a contiguous stretch of the flattened lines. */
  lemma BucketStretch(buckets: seq<Bucket>, j: nat)
    requires j < |buckets|
    ensures var x := Offset(buckets, j); var y := Offset(buckets, j + 1);
            x <= y <= |Flat(buckets)| && Flat(buckets)[x..y] == buckets[j].lines
  {
    hide Offset, Flat;
    var x := Offset(buckets, j);
    OffsetIs(buckets, j);
    FlatSplits(buckets, j);
    FlatHead(buckets[j..]);
    OffsetNext(buckets, j);
    var tail := Flat(buckets[j..]);
    var n := |buckets[j].lines|;
    assert tail[..n] == buckets[j].lines;
    assert Flat(buckets)[x..x + n] == tail[..n];
  }

  lemma FlatHead(buckets: seq<Bucket>)
    requires buckets != []
    ensures Flat(buckets) == buckets[0].lines + Flat(buckets[1..])
  {
  }

  lemma OffsetNext(buckets: seq<Bucket>, j: nat)
    requires j < |buckets|
    ensures Offset(buckets, j + 1) == Offset(buckets, j) + |buckets[j].lines|
  {
  }

  lemma {:induction false} ShelfDays(lines: seq<Line>, j: nat, x: Line)
    requires Orderly(lines) && j < |Shelve(lines)| && x in Shelve(lines)[j].lines
    ensures x.Dated? && Day(x.stamp) == Shelve(lines)[j].day
  {
    hide Day, Put;
    ShelfReads(lines);
    LookupAt(Shelve(lines), j);
    ShelfDay(lines, Shelve(lines)[j].day, x);
  }

  lemma {:induction false} LookupAt(buckets: seq<Bucket>, j: nat)
    requires j < |buckets| && Ascending(buckets)
    ensures Lookup(buckets, buckets[j].day) == buckets[j].lines
  {
    if j > 0 { LookupAt(buckets[1..], j - 1); }
  }

  // ── The invariant ─────────────────────────────────────────────────────────

  /** How many lines have left the active log, and how many the archive holds. */
  function Pruned(all: seq<Line>, st: State): int { |all| - |st.active| }

  function Archived(st: State): nat { |Flat(st.archive)| }

  ghost predicate FilesInv(all: seq<Line>, st: State) {
    && Orderly(all)
    && 0 <= Pruned(all, st) <= Archived(st) <= |all|
    && st.active == all[Pruned(all, st)..]
    && st.archive == Shelve(all[..Archived(st)])
  }

  /** A sweep works on the log as it was when read. */
  ghost predicate SourceInv(all: seq<Line>, st: State, source: seq<Line>, plan: Plan)
    requires 0 <= Pruned(all, st) <= |all|
  {
    var k := Pruned(all, st);
    && k + |source| <= |all| && source == all[k..k + |source|]
    && plan == PlanFor(source, st.latest)
    && Archived(st) <= k + |source|
  }

  ghost predicate Inv(all: seq<Line>, st: State) {
    && FilesInv(all, st)
    && var k := Pruned(all, st);
    match st.phase
    case Idle => true
    case Archiving(source, plan, done, _) =>
      SourceInv(all, st, source, plan) && done <= |plan.buckets| && k + Offset(plan.buckets, done) <= Archived(st)
    case Writing(source, plan, _) => SourceInv(all, st, source, plan) && k + AgedCount(source, plan.cutoff) <= Archived(st)
    case Renaming(source, plan, _) => SourceInv(all, st, source, plan) && k + AgedCount(source, plan.cutoff) <= Archived(st)
  }

  lemma OrderlySlice(all: seq<Line>, a: nat, b: nat)
    requires Orderly(all) && a <= b <= |all|
    ensures Orderly(all[a..b]) && Orderly(all[..b])
  {
  }

  lemma OrderlyDated(all: seq<Line>)
    requires Orderly(all)
    ensures forall i :: 0 <= i < |all| ==> all[i].Dated?
  {
  }

  lemma ShelfLength(all: seq<Line>, a: nat)
    requires Orderly(all) && a <= |all|
    ensures |Flat(Shelve(all[..a]))| == a
  {
    hide Shelve, Flat;
    OrderlySlice(all, 0, a);
    ShelfReads(all[..a]);
  }

  /** Planning afresh starts a sweep that has archived nothing it needs yet. */
  lemma PlanInv(all: seq<Line>, st: State, cutoff: int, attempt: nat)
    requires FilesInv(all, st)
    ensures Inv(all, st.(phase := Archiving(st.active, PlanFor(st.active, cutoff), 0, attempt), latest := cutoff))
  {
    hide Shelve, Flat, Orderly, PlanFor;
    var k := Pruned(all, st);
    assert all[k..k + |st.active|] == st.active;
  }

  lemma SliceOfSlice(all: seq<Line>, k: nat, c: nat, x: nat, y: nat)
    requires k + c <= |all| && x <= y <= c
    ensures all[k..k + c][x..y] == all[k + x..k + y]
  {
    var part := all[k..k + c];
    forall i | 0 <= i < y - x ensures part[x..y][i] == all[k + x..k + y][i] { assert part[x + i] == all[k + x + i]; }
  }

  /** Bucket `j` of a plan is a stretch of one day of everything written. */
  lemma PlanStretch(all: seq<Line>, k: nat, source: seq<Line>, cutoff: int, j: nat)
    requires Orderly(all) && k + |source| <= |all| && source == all[k..k + |source|]
    requires j < |Buckets(source, cutoff)|
    ensures var b := Buckets(source, cutoff);
            var x, y := k + Offset(b, j), k + Offset(b, j + 1);
            y <= k + AgedCount(source, cutoff) && SameDay(all, x, y, b[j].day) && b[j].lines == all[x..y]
  {
    hide Offset, Flat, Shelve, Day, AgedCount, Buckets, Keep, Orderly;
    OrderlySlice(all, k, k + |source|);
    OrderlyPlan(source, cutoff);
    var c := AgedCount(source, cutoff);
    OrderlySlice(source, 0, c);
    var aged := source[..c];
    var b := Buckets(source, cutoff);
    ShelfReads(aged);
    assert aged == all[k..k + c];
    BucketStretch(b, j);
    var x, y := Offset(b, j), Offset(b, j + 1);
    SliceOfSlice(all, k, c, x, y);
    forall i | k + x <= i < k + y ensures all[i].Dated? && Day(all[i].stamp) == b[j].day {
      assert all[i] == b[j].lines[i - k - x];
      ShelfDays(aged, j, all[i]);
    }
  }

  /** Archiving `count` lines of the next bucket of a sweep. */
  lemma ArchiveInv(all: seq<Line>, st: State, count: nat)
    requires Inv(all, st) && st.phase.Archiving? && st.phase.done < |st.phase.plan.buckets|
    ensures var ph := st.phase;
            var next := st.(archive := ArchiveSome(st.archive, ph.plan.buckets[ph.done], count));
            && FilesInv(all, next) && SourceInv(all, next, ph.source, ph.plan)
            && (Archived(next) <= Archived(st) || Archived(next) <= Pruned(all, st) + AgedCount(ph.source, ph.plan.cutoff))
            && (count >= |ph.plan.buckets[ph.done].lines| ==> Pruned(all, st) + Offset(ph.plan.buckets, ph.done + 1) <= Archived(next))
  {
    hide Offset, Flat, Shelve, Day, AgedCount, Buckets, Keep, ArchiveSome, SameDay, Orderly;
    var ph := st.phase;
    var k, a := Pruned(all, st), Archived(st);
    var b := ph.plan.buckets;
    PlanStretch(all, k, ph.source, ph.plan.cutoff, ph.done);
    var x, y := k + Offset(b, ph.done), k + Offset(b, ph.done + 1);
    OffsetNext(b, ph.done);
    ArchiveStretch(all, x, y, a, b[ph.done].day, count);
    assert Bucket(b[ph.done].day, all[x..y]) == b[ph.done];
    var archived := if a >= y then a else if count <= y - a then a + count else y;
    ShelfLength(all, archived);
  }

  lemma AgedStamp(all: seq<Line>, k: nat, source: seq<Line>, cutoff: int, i: nat)
    requires Orderly(all) && k + |source| <= |all| && source == all[k..k + |source|]
    requires k <= i < k + AgedCount(source, cutoff)
    ensures all[i].Dated? && all[i].stamp < cutoff
  {
    hide AgedCount, Buckets, Keep, Shelve;
    OrderlySlice(all, k, k + |source|);
    OrderlyPlan(source, cutoff);
    assert source[i - k] == all[i];
  }

  lemma ArchiveStepInv(all: seq<Line>, st: State)
    requires Inv(all, st) && st.phase.Archiving?
    ensures Inv(all, Step(st, ArchiveNext))
  {
    hide Offset, Flat, Shelve, ArchiveSome, Orderly, Keep, Buckets, AgedCount;
    var ph := st.phase;
    if ph.done < |ph.plan.buckets| {
      ArchiveInv(all, st, |ph.plan.buckets[ph.done].lines|);
      FilesOnly(all, st.(archive := ArchiveBucket(st.archive, ph.plan.buckets[ph.done])), Step(st, ArchiveNext));
    } else {
      AllArchived(all, Pruned(all, st), ph.source, ph.plan.cutoff);
    }
  }

  lemma FilesOnly(all: seq<Line>, st: State, other: State)
    requires FilesInv(all, st) && other.active == st.active && other.archive == st.archive && other.latest == st.latest
    ensures FilesInv(all, other)
  {
    hide Flat, Shelve, Orderly;
  }

  lemma AllArchived(all: seq<Line>, k: nat, source: seq<Line>, cutoff: int)
    requires Orderly(all) && k + |source| <= |all| && source == all[k..k + |source|]
    ensures var b := Buckets(source, cutoff); Offset(b, |b|) == AgedCount(source, cutoff)
  {
    hide Offset, Flat, Shelve, AgedCount, Buckets, Keep;
    var b := Buckets(source, cutoff);
    OrderlySlice(all, k, k + |source|);
    OrderlyPlan(source, cutoff);
    OrderlySlice(source, 0, AgedCount(source, cutoff));
    ShelfReads(source[..AgedCount(source, cutoff)]);
    OffsetIs(b, |b|);
    assert b[..|b|] == b;
  }

  /** When a sweep is ready to rename, the archive holds all the lines it drops. */
  lemma ReadyKeeps(all: seq<Line>, st: State)
    requires Inv(all, st) && st.phase.Renaming?
    ensures var k := Pruned(all, st); var ph := st.phase; var c := AgedCount(ph.source, ph.plan.cutoff);
            k + c <= Archived(st) && ph.plan.keep == all[k + c..k + |ph.source|]
  {
    hide Flat, Shelve, AgedCount, Buckets, Keep;
    var k, ph := Pruned(all, st), st.phase;
    OrderlySlice(all, k, k + |ph.source|);
    OrderlyPlan(ph.source, ph.plan.cutoff);
    var c := AgedCount(ph.source, ph.plan.cutoff);
    assert ph.source[c..] == all[k + c..k + |ph.source|];
  }

  lemma RenameInv(all: seq<Line>, st: State, cutoff: int)
    requires Inv(all, st)
    ensures Inv(all, Step(st, CompareRename(cutoff)))
  {
    hide Flat, Shelve, AgedCount, PlanFor, Orderly;
    if st.phase.Renaming? {
      if st.active == st.phase.source {
        ReadyKeeps(all, st);
        var from := Pruned(all, st) + AgedCount(st.phase.source, st.phase.plan.cutoff);
        assert all[from..|all|] == all[from..];
      } else if st.phase.attempt + 1 < MAX_ATTEMPTS {
        PlanInv(all, st, cutoff, st.phase.attempt + 1);
      }
    }
  }

  lemma AppendInv(all: seq<Line>, st: State, line: Line)
    requires Inv(all, st) && Orderly(all + [line])
    ensures Inv(all + [line], Step(st, Append(line)))
  {
    hide Flat, Shelve, AgedCount, PlanFor, Orderly;
    var more := all + [line];
    var k, a := Pruned(all, st), Archived(st);
    assert more[..a] == all[..a] && more[k..] == all[k..] + [line];
    if !st.phase.Idle? {
      assert more[k..k + |st.phase.source|] == all[k..k + |st.phase.source|];
    }
  }

  lemma CrashInv(all: seq<Line>, st: State, partial: nat)
    requires Inv(all, st)
    ensures Inv(all, Step(st, Crash(partial)))
  {
    hide Flat, Shelve, ArchiveSome, Orderly, PlanFor, AgedCount, SourceInv, Offset;
    if st.phase.Archiving? && st.phase.done < |st.phase.plan.buckets| {
      ArchiveInv(all, st, partial);
      FilesOnly(all, st.(archive := ArchiveSome(st.archive, st.phase.plan.buckets[st.phase.done], partial)), Step(st, Crash(partial)));
    } else {
      FilesOnly(all, st, Step(st, Crash(partial)));
    }
  }

  lemma BeginInv(all: seq<Line>, st: State, cutoff: int)
    requires Inv(all, st)
    ensures Inv(all, Step(st, Begin(cutoff)))
  {
    hide Flat, Shelve, PlanFor, Orderly, SourceInv, Offset, AgedCount;
    if st.phase.Idle? { PlanInv(all, st, cutoff, 0); }
  }

  lemma {:induction false} RunInv(events: seq<Event>)
    requires Orderly(Written(events))
    ensures Inv(Written(events), Run(events))
  {
    hide Inv, Step;
    if events == [] {
      StartInv();
    } else {
      var n := |events| - 1;
      var shorter := events[..n];
      var all, st := Written(shorter), Run(shorter);
      OrderlyPrefix(shorter, events);
      RunInv(shorter);
      assert all + [] == all;
      match events[n]
      case Append(line) => AppendInv(all, st, line);
      case Begin(cutoff) => BeginInv(all, st, cutoff);
      case ArchiveNext => if st.phase.Archiving? { ArchiveStepInv(all, st); } else { Ignored(st); }
      case WriteTemp => WriteInv(all, st);
      case CompareRename(cutoff) => RenameInv(all, st, cutoff);
      case Crash(partial) => CrashInv(all, st, partial);
    }
  }

  lemma StartInv()
    ensures Inv([], EMPTY_STATE)
  {
    hide Shelve, Orderly, PlanFor, Offset, AgedCount;
    NothingArchived();
    ShelveNothing([]);
    NothingOrderly();
    var none: seq<Line> := [];
    assert none[..0] == none && none[0..] == none;
  }

  lemma NothingOrderly()
    ensures Orderly([])
  {
  }

  lemma Ignored(st: State)
    requires !st.phase.Archiving?
    ensures Step(st, ArchiveNext) == st
  {
  }

  lemma WriteInv(all: seq<Line>, st: State)
    requires Inv(all, st)
    ensures Inv(all, Step(st, WriteTemp))
  {
    hide Flat, Shelve, PlanFor, Orderly, AgedCount;
  }

  lemma OrderlyPrefix(shorter: seq<Event>, events: seq<Event>)
    requires events != [] && shorter == events[..|events| - 1] && Orderly(Written(events))
    ensures Orderly(Written(shorter))
  {
    var all := Written(events);
    assert Written(shorter) == all[..|Written(shorter)|];
    OrderlySlice(all, 0, |Written(shorter)|);
  }

  // ── A completed sweep ─────────────────────────────────────────────────────

  lemma {:induction false} DatedParse(lines: seq<Line>)
    requires forall i :: 0 <= i < |lines| ==> lines[i].Dated?
    ensures Parseable(lines) == lines
  {
    if lines != [] {
      DatedParse(lines[..|lines| - 1]);
      assert lines == lines[..|lines| - 1] + [lines[|lines| - 1]];
    }
  }

  /** The chain reads as everything written exactly when no line is both archived and active. */
  lemma ChainReadsExactly(all: seq<Line>, st: State)
    requires FilesInv(all, st)
    ensures ReadChain(st) == all <==> Archived(st) == Pruned(all, st)
  {
    hide Shelve, Flat, Parseable;
    var a, k := Archived(st), Pruned(all, st);
    OrderlySlice(all, 0, a);
    ShelfReads(all[..a]);
    var chain := all[..a] + all[k..];
    forall i | 0 <= i < |chain| ensures chain[i].Dated? { assert chain[i] == if i < a then all[i] else all[k + i - a]; }
    DatedParse(chain);
    if a == k { assert all[..a] + all[a..] == all; }
  }

  /** The cutoff by which a completing step prunes. */
  function SweepCutoff(st: State, event: Event): int
    requires Completes(st, event)
  {
    if event.Begin? then event.cutoff else st.phase.plan.cutoff
  }

  lemma CompletedFiles(all: seq<Line>, st: State, event: Event)
    requires Inv(all, st) && Completes(st, event)
    ensures var next := Step(st, event); var c := AgedCount(st.active, SweepCutoff(st, event));
            && FilesInv(all, next) && Archived(next) == Archived(st) && Pruned(all, next) == Pruned(all, st) + c
  {
    hide Flat, Shelve, Keep, Orderly;
    if event.Begin? {
      BeginInv(all, st, event.cutoff);
      NoneAgedExactly(st.active, event.cutoff);
      NoneAgedCount(st.active, event.cutoff);
    } else {
      RenameInv(all, st, event.cutoff);
      ReadyKeeps(all, st);
    }
  }

  lemma {:induction false} NoneAgedCount(lines: seq<Line>, cutoff: int)
    requires forall x :: x in lines ==> !Aged(x, cutoff)
    ensures AgedCount(lines, cutoff) == 0
  {
    if lines != [] {
      assert lines[|lines| - 1] in lines;
      NoneAgedCount(lines[..|lines| - 1], cutoff);
    }
  }

  lemma {:induction false} HoldsFlat(buckets: seq<Bucket>, x: Line)
    ensures Holds(buckets, x) <==> x in Flat(buckets)
  {
    if buckets == [] {
      NothingHeld(x);
    } else {
      HoldsFlat(buckets[1..], x);
      HoldsCons(buckets[0], buckets[1..], x);
      assert [buckets[0]] + buckets[1..] == buckets;
    }
  }

  /** Lines both archived and active are old enough for the sweep exactly when it prunes all of them. */
  lemma OverlapPruned(all: seq<Line>, st: State, cutoff: int)
    requires FilesInv(all, st)
    ensures (forall x :: x in st.active && Holds(st.archive, x) ==> Aged(x, cutoff)) <==>
            Archived(st) <= Pruned(all, st) + AgedCount(st.active, cutoff)
  {
    hide Shelve, Flat, Holds, AgedCount, Aged;
    var a, k := Archived(st), Pruned(all, st);
    OrderlySlice(all, 0, a);
    ShelfReads(all[..a]);
    OrderlySlice(all, k, |all|);
    assert all[k..|all|] == st.active;
    AgedPrefix(st.active, cutoff);
    forall i | 0 <= i < |st.active| ensures Holds(st.archive, st.active[i]) <==> k + i < a {
      HoldsFlat(st.archive, st.active[i]);
      InPrefixExactly(all, a, k + i);
    }
    if forall x :: x in st.active && Holds(st.archive, x) ==> Aged(x, cutoff) {
      if k + AgedCount(st.active, cutoff) < a {
        LastOverlap(st, a - k - 1, cutoff);
      }
    }
    if a <= k + AgedCount(st.active, cutoff) {
      forall x | x in st.active && Holds(st.archive, x) ensures Aged(x, cutoff) {
        var i :| 0 <= i < |st.active| && st.active[i] == x;
      }
    }
  }

  lemma LastOverlap(st: State, i: nat, cutoff: int)
    requires i < |st.active| && Holds(st.archive, st.active[i])
    requires forall x :: x in st.active && Holds(st.archive, x) ==> Aged(x, cutoff)
    ensures Aged(st.active[i], cutoff)
  {
    hide Holds, Aged;
  }

  /** After any run of writers, sweeps and crashes, whatever cutoffs they used: a completed sweep leaves the
      archive followed by the active log equal to everything written exactly when each line that was in both
      is older than its cutoff. */
  lemma SweepRestoresExactly(events: seq<Event>, event: Event)
    requires Orderly(Written(events)) && Completes(Run(events), event)
    ensures var st := Run(events);
            ReadChain(Run(events + [event])) == Written(events) <==>
            forall x :: x in st.active && Holds(st.archive, x) ==> Aged(x, SweepCutoff(st, event))
  {
    hide Orderly, Step, ReadChain, Completes, Flat, Holds, AgedCount, FilesInv;
    assert (events + [event])[..|events|] == events;
    var st, all := Run(events), Written(events);
    RunInv(events);
    InvFiles(all, st);
    CompletedFiles(all, st, event);
    OverlapPruned(all, st, SweepCutoff(st, event));
    ChainReadsExactly(all, Step(st, event));
    PrunedBelow(all, Step(st, event));
  }

  lemma InvFiles(all: seq<Line>, st: State)
    requires Inv(all, st)
    ensures FilesInv(all, st)
  {
    hide FilesInv, SourceInv, Offset, AgedCount;
  }

  lemma PrunedBelow(all: seq<Line>, st: State)
    requires FilesInv(all, st)
    ensures Pruned(all, st) <= Archived(st)
  {
    hide Flat, Shelve, Orderly;
  }

  // ── Cutoffs that follow the clock ─────────────────────────────────────────

  /** Everything archived is older than the latest cutoff. */
  ghost predicate Clocked(all: seq<Line>, st: State)
    requires Orderly(all) && Archived(st) <= |all|
  {
    forall i :: 0 <= i < Archived(st) ==> all[i].stamp < st.latest
  }

  lemma ArchiveClocked(all: seq<Line>, st: State, count: nat)
    requires Inv(all, st) && Clocked(all, st) && st.phase.Archiving? && st.phase.done < |st.phase.plan.buckets|
    ensures var next := st.(archive := ArchiveSome(st.archive, st.phase.plan.buckets[st.phase.done], count));
            Archived(next) <= |all| && Clocked(all, next)
  {
    hide Offset, Flat, Shelve, AgedCount, ArchiveSome, Buckets, Keep;
    ArchiveInv(all, st, count);
    var next := st.(archive := ArchiveSome(st.archive, st.phase.plan.buckets[st.phase.done], count));
    forall i | 0 <= i < Archived(next) ensures all[i].stamp < st.latest {
      if i >= Archived(st) { AgedStamp(all, Pruned(all, st), st.phase.source, st.phase.plan.cutoff, i); }
    }
  }

  lemma StepClocked(all: seq<Line>, st: State, event: Event)
    requires Inv(all, st) && Clocked(all, st) && !event.Append?
    requires event.Begin? || event.CompareRename? ==> event.cutoff >= st.latest
    ensures Archived(Step(st, event)) <= |all| && Clocked(all, Step(st, event))
  {
    hide Offset, Flat, Shelve, AgedCount, ArchiveSome, Buckets, Keep, SourceInv, Orderly;
    OrderlyDated(all);
    if st.phase.Archiving? && st.phase.done < |st.phase.plan.buckets| {
      match event
      case ArchiveNext => ArchiveClocked(all, st, |st.phase.plan.buckets[st.phase.done].lines|);
      case Crash(partial) => ArchiveClocked(all, st, partial);
      case _ =>
    }
  }

  lemma {:induction false} RunClocked(events: seq<Event>)
    requires Orderly(Written(events)) && ClockForward(events)
    ensures Archived(Run(events)) <= |Written(events)| && Clocked(Written(events), Run(events))
  {
    hide Step, Orderly, Flat, Inv;
    RunInv(events);
    InvBounds(Written(events), Run(events));
    if events != [] {
      var n := |events| - 1;
      var shorter := events[..n];
      forall k | 0 <= k < n ensures events[..k] == shorter[..k] {}
      assert ClockForward(shorter);
      OrderlyPrefix(shorter, events);
      RunClocked(shorter);
      RunInv(shorter);
      OrderlyDated(Written(events));
      OrderlyDated(Written(shorter));
      if events[n].Append? {
        AppendArchived(Run(shorter), events[n].line);
      } else {
        assert Written(shorter) + [] == Written(shorter);
        StepClocked(Written(shorter), Run(shorter), events[n]);
      }
    } else {
      NothingArchived();
    }
  }

  lemma InvBounds(all: seq<Line>, st: State)
    requires Inv(all, st)
    ensures Archived(st) <= |all|
  {
    hide Flat, Shelve, Orderly, SourceInv, Offset, AgedCount;
  }

  lemma AppendArchived(st: State, line: Line)
    ensures var next := Step(st, Append(line)); Archived(next) == Archived(st) && next.latest == st.latest
  {
    hide Flat;
  }

  lemma NothingArchived()
    ensures Archived(EMPTY_STATE) == 0
  {
  }

  /** After any run of writers, sweeps and crashes whose cutoffs follow the clock, each completed sweep
      leaves the archive followed by the active log equal to everything written, in order and without
      duplicates. */
  lemma CompletedSweepRestores(events: seq<Event>, event: Event)
    requires Orderly(Written(events)) && ClockForward(events + [event]) && Completes(Run(events), event)
    ensures ReadChain(Run(events + [event])) == Written(events)
  {
    hide Inv, Orderly, Step, ReadChain, Flat, Holds;
    var longer := events + [event];
    assert longer[..|events|] == events;
    assert longer[|events|] == event;
    forall k | 0 <= k < |events| ensures longer[..k] == events[..k] {}
    assert ClockForward(events);
    var all, st := Written(events), Run(events);
    RunInv(events);
    RunClocked(events);
    SweepLatest(all, st, event);
    forall x | x in st.active && Holds(st.archive, x) ensures Aged(x, SweepCutoff(st, event)) { ArchivedAged(all, st, x); }
    SweepRestoresExactly(events, event);
  }

  /** The cutoff of a completing step is no earlier than that of the latest plan before it. */
  lemma SweepLatest(all: seq<Line>, st: State, event: Event)
    requires Inv(all, st) && Completes(st, event) && event.cutoff >= st.latest
    ensures SweepCutoff(st, event) >= st.latest
  {
    hide Flat, Shelve, Orderly, Keep, Buckets, AgedCount;
  }

  lemma ArchivedAged(all: seq<Line>, st: State, x: Line)
    requires Inv(all, st) && Clocked(all, st) && Holds(st.archive, x)
    ensures Aged(x, st.latest)
  {
    hide Flat, Shelve, Holds, SourceInv, Offset, AgedCount;
    var a := Archived(st);
    OrderlySlice(all, 0, a);
    ShelfReads(all[..a]);
    HoldsFlat(st.archive, x);
    var i :| 0 <= i < a && all[..a][i] == x;
    assert all[i] == x;
  }

  lemma CompletesKind(st: State, event: Event)
    requires Completes(st, event)
    ensures event.Begin? || event.CompareRename?
  {
  }

  /** The same for a whole sweep of the program, after any run. */
  lemma SweepRestores(events: seq<Event>, sweep: seq<Event>)
    requires EndsSweep(Run(events), sweep) && Orderly(Written(events + sweep)) && ClockForward(events + sweep)
    ensures ReadChain(RunFrom(Run(events), sweep)) == Written(events + sweep)
  {
    hide Orderly, Step, ReadChain, Completes, Run;
    var n := |sweep| - 1;
    var before := events + sweep[..n];
    assert before + [sweep[n]] == events + sweep;
    assert (events + sweep)[..|before|] == before;
    RunContinues(events, sweep[..n]);
    RunContinues(events, sweep);
    CompletesKind(Run(before), sweep[n]);
    OrderlyPrefix(before, events + sweep);
    CompletedSweepRestores(before, sweep[n]);
    WrittenSame(before, sweep[n]);
  }

  lemma WrittenSame(events: seq<Event>, event: Event)
    requires !event.Append?
    ensures Written(events + [event]) == Written(events)
  {
    assert (events + [event])[..|events|] == events;
  }

  // ── Every archived line is in the file of its day ─────────────────────────

  /** All lines are dated within the day, counted in milliseconds since 1970. */
  ghost predicate Filed(b: Bucket) {
    forall x :: x in b.lines ==> x.Dated? && b.day * 86_400_000 <= x.stamp < (b.day + 1) * 86_400_000
  }

  ghost predicate AllFiled(buckets: seq<Bucket>) { forall i :: 0 <= i < |buckets| ==> Filed(buckets[i]) }

  lemma FiledCons(b: Bucket, rest: seq<Bucket>)
    ensures AllFiled([b] + rest) <==> Filed(b) && AllFiled(rest)
  {
    hide Filed;
    var all := [b] + rest;
    if AllFiled(all) {
      assert all[0] == b;
      forall i | 0 <= i < |rest| ensures Filed(rest[i]) { assert all[i + 1] == rest[i]; }
    }
  }

  lemma DayHolds(line: Line)
    requires line.Dated?
    ensures Filed(Bucket(Day(line.stamp), [line]))
  {
  }

  lemma FiledTogether(day: int, a: seq<Line>, b: seq<Line>)
    requires Filed(Bucket(day, a)) && Filed(Bucket(day, b))
    ensures Filed(Bucket(day, a + b))
  {
  }

  lemma {:induction false} AddToFiled(buckets: seq<Bucket>, day: int, line: Line)
    requires AllFiled(buckets) && Filed(Bucket(day, [line]))
    ensures AllFiled(AddTo(buckets, day, line))
  {
    hide Filed;
    if buckets != [] {
      assert [buckets[0]] + buckets[1..] == buckets;
      FiledCons(buckets[0], buckets[1..]);
      if buckets[0].day == day {
        FiledTogether(day, buckets[0].lines, [line]);
        FiledCons(Bucket(day, buckets[0].lines + [line]), buckets[1..]);
      } else {
        AddToFiled(buckets[1..], day, line);
        FiledCons(buckets[0], AddTo(buckets[1..], day, line));
      }
    }
  }

  lemma {:induction false} BucketsFiled(lines: seq<Line>, cutoff: int)
    ensures AllFiled(Buckets(lines, cutoff))
  {
    hide Filed, AddTo, Day;
    if lines != [] {
      var n := |lines| - 1;
      BucketsFiled(lines[..n], cutoff);
      if Aged(lines[n], cutoff) {
        DayHolds(lines[n]);
        AddToFiled(Buckets(lines[..n], cutoff), Day(lines[n].stamp), lines[n]);
      }
    }
  }

  lemma {:induction false} PutFiled(archive: seq<Bucket>, day: int, lines: seq<Line>)
    requires AllFiled(archive) && Filed(Bucket(day, lines))
    ensures AllFiled(Put(archive, day, lines))
  {
    hide Filed;
    if archive != [] {
      assert [archive[0]] + archive[1..] == archive;
      FiledCons(archive[0], archive[1..]);
      if archive[0].day == day {
        FiledTogether(day, archive[0].lines, lines);
        FiledCons(Bucket(day, archive[0].lines + lines), archive[1..]);
      } else if archive[0].day < day {
        PutFiled(archive[1..], day, lines);
        FiledCons(archive[0], Put(archive[1..], day, lines));
      } else {
        FiledCons(Bucket(day, lines), archive);
      }
    }
  }

  lemma {:induction false} MissingMembers(lines: seq<Line>, had: seq<Line>, x: Line)
    ensures x in Missing(lines, had) <==> x in lines && x !in had
  {
    if lines != [] {
      var n := |lines| - 1;
      MissingMembers(lines[..n], had, x);
      assert lines == lines[..n] + [lines[n]];
    }
  }

  lemma ArchiveFiled(archive: seq<Bucket>, b: Bucket, count: nat)
    requires AllFiled(archive) && Ascending(archive) && Filed(b)
    ensures AllFiled(ArchiveSome(archive, b, count)) && Ascending(ArchiveSome(archive, b, count))
  {
    hide Put, Missing, Lookup, Ascending;
    var missing := Missing(b.lines, Lookup(archive, b.day));
    var part := if count <= |missing| then missing[..count] else missing;
    forall x | x in missing ensures x in b.lines { MissingMembers(b.lines, Lookup(archive, b.day), x); }
    forall x | x in part ensures x in missing { }
    PutFiled(archive, b.day, part);
    PutSorted(archive, b.day, part);
  }

  ghost predicate FiledState(st: State) {
    AllFiled(st.archive) && Ascending(st.archive) && (!st.phase.Idle? ==> AllFiled(st.phase.plan.buckets))
  }

  lemma StepFiled(st: State, event: Event)
    requires FiledState(st)
    ensures FiledState(Step(st, event))
  {
    hide Filed, Ascending, Buckets, Keep, ArchiveSome, Missing;
    match event
    case Begin(cutoff) => BucketsFiled(st.active, cutoff);
    case CompareRename(cutoff) => BucketsFiled(st.active, cutoff);
    case ArchiveNext =>
      if st.phase.Archiving? && st.phase.done < |st.phase.plan.buckets| {
        var b := st.phase.plan.buckets[st.phase.done];
        ArchiveFiled(st.archive, b, |b.lines|);
      }
    case Crash(partial) =>
      if st.phase.Archiving? && st.phase.done < |st.phase.plan.buckets| {
        ArchiveFiled(st.archive, st.phase.plan.buckets[st.phase.done], partial);
      }
    case _ =>
  }

  /** In every run, with crashes and whatever was written, the archive is one file per day in ascending
      order, and each file holds only lines dated on its day. */
  lemma {:induction false} ArchiveFiledByDay(events: seq<Event>)
    ensures FiledState(Run(events))
  {
    hide Step, FiledState;
    if events == [] {
      NothingFiled();
    } else {
      ArchiveFiledByDay(events[..|events| - 1]);
      StepFiled(Run(events[..|events| - 1]), events[|events| - 1]);
    }
  }

  lemma NothingFiled()
    ensures FiledState(EMPTY_STATE)
  {
  }
}
