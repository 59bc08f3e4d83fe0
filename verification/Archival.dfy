/** Moving old price rows from the hot table to cold files in batches, purging by retention, and
    restoring from the files. */
module Archival {
  import opened Wrappers
  import opened Ordering

  const SECONDS_PER_DAY: int := 86400

  datatype Row = Row(id: int, asset: string, price: string, decimals: int, source: string, timestamp: int)

  /** The columns of the unique index. */
  datatype Key = Key(asset: string, source: string, timestamp: int)

  datatype Quote = Quote(price: string, decimals: int)

  function KeyOf(r: Row): Key { Key(r.asset, r.source, r.timestamp) }

  function QuoteOf(r: Row): Quote { Quote(r.price, r.decimals) }

  /** The primary key and the unique index hold. */
  ghost predicate TableOk(rows: seq<Row>) {
    forall i, j :: 0 <= i < j < |rows| ==>
      rows[i].timestamp == rows[j].timestamp ==>
        rows[i].id != rows[j].id && !(rows[i].asset == rows[j].asset && rows[i].source == rows[j].source)
  }

  function Newer(rows: seq<Row>, cutoff: int): seq<Row> {
    if rows == [] then [] else
      Newer(rows[..|rows| - 1], cutoff) + (if rows[|rows| - 1].timestamp < cutoff then [] else [rows[|rows| - 1]])
  }

  function Older(rows: seq<Row>, cutoff: int): seq<Row> {
    if rows == [] then [] else
      Older(rows[..|rows| - 1], cutoff) + (if rows[|rows| - 1].timestamp < cutoff then [rows[|rows| - 1]] else [])
  }

  predicate Matches(rows: seq<Row>, x: Row) {
    exists i :: 0 <= i < |rows| && rows[i].id == x.id && rows[i].timestamp == x.timestamp
  }

  /** The table without the rows whose id and timestamp are listed. */
  function Delete(hot: seq<Row>, rows: seq<Row>): seq<Row> {
    if hot == [] then [] else
      Delete(hot[..|hot| - 1], rows) + (if Matches(rows, hot[|hot| - 1]) then [] else [hot[|hot| - 1]])
  }

  function Flat(files: seq<seq<Row>>): seq<Row> {
    if files == [] then [] else Flat(files[..|files| - 1]) + files[|files| - 1]
  }

  // ── Filters ───────────────────────────────────────────────────────────────

  lemma {:induction false} Filters(rows: seq<Row>, cutoff: int, x: Row)
    ensures x in Newer(rows, cutoff) <==> x in rows && x.timestamp >= cutoff
    ensures x in Older(rows, cutoff) <==> x in rows && x.timestamp < cutoff
  {
    if rows != [] {
      Filters(rows[..|rows| - 1], cutoff, x);
      assert rows == rows[..|rows| - 1] + [rows[|rows| - 1]];
    }
  }

  lemma {:induction false} NoneOlder(rows: seq<Row>, cutoff: int)
    requires Older(rows, cutoff) == []
    ensures Newer(rows, cutoff) == rows
  {
    if rows != [] {
      NoneOlder(rows[..|rows| - 1], cutoff);
      assert rows == rows[..|rows| - 1] + [rows[|rows| - 1]];
    }
  }

  lemma {:induction false} DeleteMembers(hot: seq<Row>, rows: seq<Row>, x: Row)
    ensures x in Delete(hot, rows) <==> x in hot && !Matches(rows, x)
  {
    hide Matches;
    if hot != [] {
      DeleteMembers(hot[..|hot| - 1], rows, x);
      assert hot == hot[..|hot| - 1] + [hot[|hot| - 1]];
    }
  }

  /** Deleting keeps the table well formed. */
  lemma {:induction false} DeleteOk(hot: seq<Row>, rows: seq<Row>)
    requires TableOk(hot)
    ensures TableOk(Delete(hot, rows)) && NoDuplicates(Delete(hot, rows))
  {
    hide Matches;
    if hot != [] {
      var n := |hot| - 1;
      var d := Delete(hot[..n], rows);
      DeleteOk(hot[..n], rows);
      forall i | 0 <= i < |d| ensures !(d[i].id == hot[n].id && d[i].timestamp == hot[n].timestamp) && KeyOf(d[i]) != KeyOf(hot[n]) {
        DeleteMembers(hot[..n], rows, d[i]);
        var j :| 0 <= j < n && hot[j] == d[i];
      }
    }
  }

  lemma {:induction false} DeleteOldKeepsNew(hot: seq<Row>, rows: seq<Row>, cutoff: int)
    requires forall r :: r in rows ==> r.timestamp < cutoff
    ensures Newer(Delete(hot, rows), cutoff) == Newer(hot, cutoff)
  {
    hide Matches;
    if hot != [] {
      var n := |hot| - 1;
      DeleteOldKeepsNew(hot[..n], rows, cutoff);
      var d := Delete(hot[..n], rows);
      if Matches(rows, hot[n]) {
        MatchedOld(rows, hot[n], cutoff);
        assert d + [] == d && Newer(hot[..n], cutoff) + [] == Newer(hot[..n], cutoff);
      } else {
        assert (d + [hot[n]])[..|d|] == d;
      }
    }
  }

  lemma MatchedOld(rows: seq<Row>, x: Row, cutoff: int)
    requires Matches(rows, x) && forall r :: r in rows ==> r.timestamp < cutoff
    ensures x.timestamp < cutoff
  {
    var i :| 0 <= i < |rows| && rows[i].id == x.id && rows[i].timestamp == x.timestamp;
    assert rows[i] in rows;
  }

  lemma TableDistinct(hot: seq<Row>)
    requires TableOk(hot)
    ensures NoDuplicates(hot)
  {
  }

  lemma MatchesMember(hot: seq<Row>, rows: seq<Row>, x: Row)
    requires TableOk(hot) && (forall r :: r in rows ==> r in hot) && x in hot
    ensures Matches(rows, x) <==> x in rows
  {
    if Matches(rows, x) {
      var i :| 0 <= i < |rows| && rows[i].id == x.id && rows[i].timestamp == x.timestamp;
      assert rows[i] in hot;
      SamePrimaryKey(hot, rows[i], x);
    }
  }

  lemma SamePrimaryKey(hot: seq<Row>, a: Row, b: Row)
    requires TableOk(hot) && a in hot && b in hot && a.id == b.id && a.timestamp == b.timestamp
    ensures a == b
  {
    var i :| 0 <= i < |hot| && hot[i] == a;
    var j :| 0 <= j < |hot| && hot[j] == b;
    if i < j { assert false; }
    if j < i { assert false; }
  }

  lemma CopyCount(rows: seq<Row>, x: Row)
    requires NoDuplicates(rows)
    ensures multiset(rows)[x] == if x in rows then 1 else 0
  {
    SingleCopy(rows, x);
    assert x in multiset(rows) <==> x in rows;
  }

  /** Deleting a batch of the table's rows takes out exactly the batch. */
  lemma DeleteConserves(hot: seq<Row>, rows: seq<Row>)
    requires TableOk(hot) && NoDuplicates(rows) && forall r :: r in rows ==> r in hot
    ensures multiset(Delete(hot, rows)) + multiset(rows) == multiset(hot)
  {
    hide Delete, Matches, TableOk;
    var d := Delete(hot, rows);
    DeleteOk(hot, rows);
    TableDistinct(hot);
    forall x ensures multiset(d)[x] + multiset(rows)[x] == multiset(hot)[x] {
      CopyCount(d, x);
      CopyCount(rows, x);
      CopyCount(hot, x);
      DeleteMembers(hot, rows, x);
      if x in hot { MatchesMember(hot, rows, x); }
    }
    assert multiset(d) + multiset(rows) == multiset(hot);
  }

  // ── One batch ─────────────────────────────────────────────────────────────

  ghost predicate InTimeOrder(rows: seq<Row>) { forall i, j :: 0 <= i < j < |rows| ==> rows[i].timestamp <= rows[j].timestamp }

  /** The oldest rows before the cutoff, at most `limit` of them, in time order. */
  ghost predicate IsBatch(hot: seq<Row>, cutoff: int, limit: nat, rows: seq<Row>) {
    && |rows| <= limit && NoDuplicates(rows) && InTimeOrder(rows)
    && (forall r :: r in rows ==> r in hot && r.timestamp < cutoff)
    && (forall x :: x in hot && x.timestamp < cutoff && x !in rows ==>
          |rows| == limit && forall r :: r in rows ==> r.timestamp <= x.timestamp)
  }

  method EarliestIndex(rows: seq<Row>) returns (m: nat)
    requires rows != []
    ensures m < |rows| && forall x :: x in rows ==> rows[m].timestamp <= x.timestamp
  {
    m := 0;
    for i := 1 to |rows|
      invariant m < |rows| && forall j :: 0 <= j < i ==> rows[m].timestamp <= rows[j].timestamp
    {
      if rows[i].timestamp < rows[m].timestamp { m := i; }
    }
  }

  function Without(s: seq<Row>, m: nat): seq<Row>
    requires m < |s|
  {
    s[..m] + s[m + 1..]
  }

  lemma WithoutMembers(s: seq<Row>, m: nat, x: Row)
    requires m < |s| && NoDuplicates(s)
    ensures NoDuplicates(Without(s, m))
    ensures x in Without(s, m) <==> x in s && x != s[m]
  {
    if x in s {
      var i :| 0 <= i < |s| && s[i] == x;
      if i < m { assert Without(s, m)[i] == x; }
      if i > m { assert Without(s, m)[i - 1] == x; }
    }
  }

  lemma {:induction false} OlderDistinct(rows: seq<Row>, cutoff: int)
    requires NoDuplicates(rows)
    ensures NoDuplicates(Older(rows, cutoff))
  {
    if rows != [] {
      var n := |rows| - 1;
      OlderDistinct(rows[..n], cutoff);
      forall i | 0 <= i < |Older(rows[..n], cutoff)| ensures Older(rows[..n], cutoff)[i] != rows[n] {
        Filters(rows[..n], cutoff, Older(rows[..n], cutoff)[i]);
      }
    }
  }

  /** What selecting has done so far: the chosen rows come before the rest. */
  ghost predicate Choosing(olds: seq<Row>, rows: seq<Row>, rest: seq<Row>) {
    && NoDuplicates(rows) && NoDuplicates(rest) && InTimeOrder(rows)
    && (forall x :: x in olds <==> x in rows || x in rest)
    && (forall r, x :: r in rows && x in rest ==> r != x && r.timestamp <= x.timestamp)
  }

  lemma ChooseNext(olds: seq<Row>, rows: seq<Row>, rest: seq<Row>, m: nat)
    requires Choosing(olds, rows, rest) && m < |rest| && forall x :: x in rest ==> rest[m].timestamp <= x.timestamp
    ensures Choosing(olds, rows + [rest[m]], Without(rest, m))
  {
    hide Without;
    var next, left := rows + [rest[m]], Without(rest, m);
    forall x ensures x in left <==> x in rest && x != rest[m] { WithoutMembers(rest, m, x); }
    WithoutMembers(rest, m, rest[m]);
    forall i | 0 <= i < |rows| ensures rows[i] != rest[m] && rows[i].timestamp <= rest[m].timestamp { assert rows[i] in rows && rest[m] in rest; }
  }

  method SelectBatch(hot: seq<Row>, cutoff: int, limit: nat) returns (rows: seq<Row>)
    requires TableOk(hot)
    ensures IsBatch(hot, cutoff, limit, rows)
  {
    hide Older, TableOk, Choosing, Without;
    var candidates: seq<Row> := [];
    assert Older([], cutoff) == [] by { OlderNothing(cutoff); }
    for i := 0 to |hot|
      invariant candidates == Older(hot[..i], cutoff)
    {
      OlderNext(hot, i, cutoff);
      if hot[i].timestamp < cutoff { candidates := candidates + [hot[i]]; }
    }
    assert hot[..|hot|] == hot;
    TableDistinct(hot);
    OlderDistinct(hot, cutoff);
    rows := [];
    var rest := candidates;
    ChooseStart(candidates);
    while |rows| < limit && |rest| > 0
      invariant Choosing(candidates, rows, rest) && |rows| <= limit
      decreases |rest|
    {
      var m := EarliestIndex(rest);
      ChooseNext(candidates, rows, rest, m);
      WithoutLength(rest, m);
      rows, rest := rows + [rest[m]], Without(rest, m);
    }
    Chosen(hot, cutoff, limit, rows, rest);
  }

  lemma OlderNothing(cutoff: int)
    ensures Older([], cutoff) == []
  {
  }

  lemma OlderNext(hot: seq<Row>, i: nat, cutoff: int)
    requires i < |hot|
    ensures Older(hot[..i + 1], cutoff) == if hot[i].timestamp < cutoff then Older(hot[..i], cutoff) + [hot[i]] else Older(hot[..i], cutoff)
  {
    assert hot[..i + 1][..i] == hot[..i];
  }

  lemma ChooseStart(rows: seq<Row>)
    requires NoDuplicates(rows)
    ensures Choosing(rows, [], rows)
  {
  }

  lemma WithoutLength(s: seq<Row>, m: nat)
    requires m < |s|
    ensures |Without(s, m)| == |s| - 1
  {
  }

  lemma Chosen(hot: seq<Row>, cutoff: int, limit: nat, rows: seq<Row>, rest: seq<Row>)
    requires Choosing(Older(hot, cutoff), rows, rest) && |rows| <= limit && (|rows| == limit || rest == [])
    ensures IsBatch(hot, cutoff, limit, rows)
  {
    hide Older;
    forall x ensures x in Older(hot, cutoff) <==> x in hot && x.timestamp < cutoff { Filters(hot, cutoff, x); }
  }

  // ── The service ───────────────────────────────────────────────────────────

  datatype Summary = Summary(archivedCount: nat, deletedByRetention: nat, files: nat)

  function ArchiveCutoff(now: int, days: int): int { now - days * SECONDS_PER_DAY }

  /** The table after an archive pass. A batch size of zero selects nothing, so nothing moves. */
  function AfterArchive(hot: seq<Row>, cutoff: int, batchSize: nat): seq<Row> { if batchSize == 0 then hot else Newer(hot, cutoff) }

  function AfterPurge(hot: seq<Row>, now: int, retentionDays: int): seq<Row> {
    if retentionDays > 0 then Newer(hot, ArchiveCutoff(now, retentionDays)) else hot
  }

  class ArchivalService {
    var hot: seq<Row>
    var cold: seq<seq<Row>>
    var nextId: int
    const archiveAfterDays: int
    const retentionDays: int
    const batchSize: nat

    ghost predicate Valid()
      reads this
    {
      TableOk(hot) && forall r :: r in hot ==> r.id < nextId
    }

    /** Moves exactly the rows older than the cutoff: the table keeps the others in place, and the table
        and the files together hold the same rows as before. */
    method ArchiveOlderThan(cutoff: int) returns (count: nat, files: nat)
      requires Valid()
      modifies `hot, `cold
      ensures Valid() && hot == AfterArchive(old(hot), cutoff, batchSize)
      ensures old(cold) <= cold && files == |cold| - |old(cold)|
      ensures forall k :: |old(cold)| <= k < |cold| ==> 0 < |cold[k]| <= batchSize
      ensures multiset(hot) + multiset(Flat(cold)) == multiset(old(hot)) + multiset(Flat(old(cold)))
      ensures |hot| + count == |old(hot)|
    {
      hide Newer, Older, Delete, Flat, TableOk, Matches;
      count, files := 0, 0;
      while true
        invariant Valid() && Newer(hot, cutoff) == Newer(old(hot), cutoff)
        invariant batchSize == 0 ==> hot == old(hot)
        invariant old(cold) <= cold && files == |cold| - |old(cold)|
        invariant forall k :: |old(cold)| <= k < |cold| ==> 0 < |cold[k]| <= batchSize
        invariant multiset(hot) + multiset(Flat(cold)) == multiset(old(hot)) + multiset(Flat(old(cold)))
        invariant |hot| + count == |old(hot)|
        decreases |hot|
      {
        var rows := SelectBatch(hot, cutoff, batchSize);
        if |rows| == 0 {
          NothingLeft(hot, cutoff, batchSize, rows);
          break;
        }
        FlatNext(cold, rows);
        DeleteConserves(hot, rows);
        DeleteOldKeepsNew(hot, rows, cutoff);
        DeleteOk(hot, rows);
        forall r | r in Delete(hot, rows) ensures r in hot { DeleteMembers(hot, rows, r); }
        assert |multiset(Delete(hot, rows))| + |multiset(rows)| == |multiset(Delete(hot, rows)) + multiset(rows)|;
        cold := cold + [rows];
        files := files + 1;
        hot := Delete(hot, rows);
        count := count + |rows|;
      }
    }

    method PurgeOlderThan(cutoff: int) returns (deleted: nat)
      requires Valid()
      modifies `hot
      ensures Valid() && hot == Newer(old(hot), cutoff) && deleted == |Older(old(hot), cutoff)|
    {
      hide TableOk;
      var kept: seq<Row> := [];
      deleted := 0;
      for i := 0 to |hot|
        invariant kept == Newer(hot[..i], cutoff) && deleted == |Older(hot[..i], cutoff)|
        invariant hot == old(hot)
      {
        assert hot[..i + 1][..i] == hot[..i];
        if hot[i].timestamp < cutoff { deleted := deleted + 1; } else { kept := kept + [hot[i]]; }
      }
      assert hot[..|hot|] == hot;
      NewerOk(hot, cutoff);
      forall r | r in kept ensures r in hot { Filters(hot, cutoff, r); }
      hot := kept;
    }

    method CountOlderThan(cutoff: int) returns (n: nat)
      ensures n == |Older(hot, cutoff)|
    {
      n := 0;
      for i := 0 to |hot|
        invariant n == |Older(hot[..i], cutoff)|
      {
        assert hot[..i + 1][..i] == hot[..i];
        if hot[i].timestamp < cutoff { n := n + 1; }
      }
      assert hot[..|hot|] == hot;
    }

    method RunOnce(now: int, dryRun: bool) returns (s: Summary)
      requires Valid()
      modifies `hot, `cold
      ensures Valid() && old(cold) <= cold
      ensures dryRun ==> hot == old(hot) && cold == old(cold)
      ensures dryRun ==> s.archivedCount == |Older(hot, now - archiveAfterDays * 86400)|
      ensures dryRun ==> s.deletedByRetention == (if retentionDays > 0 then |Older(hot, now - retentionDays * 86400)| else 0)
      ensures !dryRun ==>
        var moved := if batchSize == 0 then old(hot) else Newer(old(hot), now - archiveAfterDays * 86400);
        && hot == (if retentionDays > 0 then Newer(moved, now - retentionDays * 86400) else moved)
        && multiset(moved) + multiset(Flat(cold)) == multiset(old(hot)) + multiset(Flat(old(cold)))
        && s.archivedCount == |old(hot)| - |moved|
        && s.deletedByRetention == ActualPurge(old(hot), now, archiveAfterDays, retentionDays, batchSize)
    {
      hide Newer, Older, Flat, TableOk;
      var cutoffArchive := ArchiveCutoff(now, archiveAfterDays);
      if dryRun {
        var would := CountOlderThan(cutoffArchive);
        var purge := 0;
        if retentionDays > 0 { purge := CountOlderThan(ArchiveCutoff(now, retentionDays)); }
        return Summary(would, purge, 0);
      }
      var count, files := ArchiveOlderThan(cutoffArchive);
      var purged := 0;
      if retentionDays > 0 { purged := PurgeOlderThan(ArchiveCutoff(now, retentionDays)); }
      return Summary(count, purged, files);
    }

    method RestoreFile(file: seq<Row>) returns (count: nat)
      requires Valid()
      modifies `hot, `nextId
      ensures Valid() && count == |file|
      ensures hot == Restored(old(hot), old(nextId), file) && nextId == old(nextId) + |hot| - |old(hot)|
    {
      hide TableOk, HasKey, Restored;
      count := 0;
      RestoredNothing(hot, nextId);
      for i := 0 to |file|
        invariant Valid() && count == i
        invariant hot == Restored(old(hot), old(nextId), file[..i]) && nextId == old(nextId) + |hot| - |old(hot)|
      {
        var r := file[i];
        assert file[..i + 1] == file[..i] + [r];
        RestoredNext(old(hot), old(nextId), file[..i], r);
        if !HasKey(hot, KeyOf(r)) {
          InsertOk(hot, nextId, r);
          hot, nextId := hot + [r.(id := nextId)], nextId + 1;
        }
        count := count + 1;
      }
      assert file[..|file|] == file;
    }

    /** Re-inserts, file by file, every archived row whose key the table lacks, under a new id. The
        targets are one named file, or all files in the order their names sort. */
    method Restore(targets: seq<seq<Row>>) returns (count: nat)
      requires Valid() && forall f :: f in targets ==> f in cold
      modifies `hot, `nextId
      ensures Valid() && hot == Restored(old(hot), old(nextId), Flat(targets)) && count == |Flat(targets)|
    {
      hide TableOk, Flat, Restored;
      count := 0;
      FlatNothing();
      RestoredNothing(hot, nextId);
      for f := 0 to |targets|
        invariant Valid() && count == |Flat(targets[..f])|
        invariant hot == Restored(old(hot), old(nextId), Flat(targets[..f])) && nextId == old(nextId) + |hot| - |old(hot)|
      {
        assert targets[..f + 1] == targets[..f] + [targets[f]];
        FlatNext(targets[..f], targets[f]);
        RestoredTwice(old(hot), old(nextId), Flat(targets[..f]), targets[f]);
        var n := RestoreFile(targets[f]);
        count := count + n;
      }
      assert targets[..|targets|] == targets;
    }
  }

  lemma NothingLeft(hot: seq<Row>, cutoff: int, limit: nat, rows: seq<Row>)
    requires IsBatch(hot, cutoff, limit, rows) && rows == []
    ensures limit > 0 ==> Newer(hot, cutoff) == hot
  {
    if limit > 0 {
      var older := Older(hot, cutoff);
      if older != [] {
        Filters(hot, cutoff, older[0]);
        assert false;
      }
      NoneOlder(hot, cutoff);
    }
  }

  lemma FlatNext(files: seq<seq<Row>>, rows: seq<Row>)
    ensures Flat(files + [rows]) == Flat(files) + rows
  {
    assert (files + [rows])[..|files|] == files;
  }

  lemma FlatNothing()
    ensures Flat([]) == []
  {
  }

  lemma {:induction false} NewerOk(rows: seq<Row>, cutoff: int)
    requires TableOk(rows)
    ensures TableOk(Newer(rows, cutoff))
  {
    if rows != [] {
      var n := |rows| - 1;
      var d := Newer(rows[..n], cutoff);
      NewerOk(rows[..n], cutoff);
      forall i | 0 <= i < |d| ensures !(d[i].id == rows[n].id && d[i].timestamp == rows[n].timestamp) && KeyOf(d[i]) != KeyOf(rows[n]) {
        Filters(rows[..n], cutoff, d[i]);
        var j :| 0 <= j < n && rows[j] == d[i];
      }
    }
  }

  // ── Retention ─────────────────────────────────────────────────────────────

  /** The rows a pass removes without having archived them: retention is on, they are older than it,
      and the archive pass did not take them, being younger than the archive age or moving nothing. */
  lemma PurgedExactly(hot: seq<Row>, now: int, archiveAfterDays: int, retentionDays: int, batchSize: nat, x: Row)
    ensures var moved := AfterArchive(hot, ArchiveCutoff(now, archiveAfterDays), batchSize);
            x in moved && x !in AfterPurge(moved, now, retentionDays) <==>
              && x in hot && retentionDays > 0 && x.timestamp < now - retentionDays * 86400
              && (batchSize == 0 || x.timestamp >= now - archiveAfterDays * 86400)
  {
    hide Newer;
    var moved := AfterArchive(hot, ArchiveCutoff(now, archiveAfterDays), batchSize);
    Filters(hot, ArchiveCutoff(now, archiveAfterDays), x);
    Filters(moved, ArchiveCutoff(now, retentionDays), x);
  }

  /** The retention step of a pass removes nothing, whatever the table held, exactly when retention is
      off, or rows are archived at all and retention is at least the archive age. */
  lemma PurgesNothingExactly(now: int, archiveAfterDays: int, retentionDays: int, batchSize: nat)
    ensures (forall hot :: var moved := AfterArchive(hot, ArchiveCutoff(now, archiveAfterDays), batchSize);
                           AfterPurge(moved, now, retentionDays) == moved)
            <==> retentionDays <= 0 || (batchSize > 0 && retentionDays >= archiveAfterDays)
  {
    hide Older, Newer;
    var a, r := ArchiveCutoff(now, archiveAfterDays), ArchiveCutoff(now, retentionDays);
    if retentionDays <= 0 {
    } else if batchSize > 0 && retentionDays >= archiveAfterDays {
      forall hot ensures Newer(Newer(hot, a), r) == Newer(hot, a) {
        NoOverlap(hot, a, r);
        NoneOlder(Newer(hot, a), r);
      }
    } else {
      UnarchivedRowPurged(now, archiveAfterDays, retentionDays, batchSize);
    }
  }

  /** A table of one row, just young enough not to be archived, or not archived because batches are
      empty: retention removes the row and no file holds it. */
  lemma UnarchivedRowPurged(now: int, archiveAfterDays: int, retentionDays: int, batchSize: nat)
    requires retentionDays > 0 && (batchSize == 0 || retentionDays < archiveAfterDays)
    ensures var cutoff := ArchiveCutoff(now, archiveAfterDays);
            var row := Row(1, "XLM", "1", 7, "band", if batchSize == 0 then ArchiveCutoff(now, retentionDays) - 1 else cutoff);
            row in AfterArchive([row], cutoff, batchSize) && row !in AfterPurge(AfterArchive([row], cutoff, batchSize), now, retentionDays)
  {
    var cutoff := ArchiveCutoff(now, archiveAfterDays);
    var row := Row(1, "XLM", "1", 7, "band", if batchSize == 0 then ArchiveCutoff(now, retentionDays) - 1 else cutoff);
    PurgedExactly([row], now, archiveAfterDays, retentionDays, batchSize, row);
  }

  lemma NoOverlap(hot: seq<Row>, a: int, r: int)
    requires r <= a
    ensures Older(Newer(hot, a), r) == []
  {
    hide Older, Newer;
    var purged := Older(Newer(hot, a), r);
    if purged != [] {
      Filters(Newer(hot, a), r, purged[0]);
      Filters(hot, a, purged[0]);
      assert false;
    }
  }

  lemma {:induction false} OlderSplits(hot: seq<Row>, a: int, r: int)
    ensures |Older(hot, r)| == |Older(Newer(hot, a), r)| + |Older(Older(hot, a), r)|
  {
    if hot != [] {
      var n := |hot| - 1;
      OlderSplits(hot[..n], a, r);
      OlderAppends(Newer(hot[..n], a), hot[n], r);
      OlderAppends(Older(hot[..n], a), hot[n], r);
    }
  }

  lemma OlderAppends(rows: seq<Row>, x: Row, cutoff: int)
    ensures Older(rows + [x], cutoff) == if x.timestamp < cutoff then Older(rows, cutoff) + [x] else Older(rows, cutoff)
    ensures Older(rows + [], cutoff) == Older(rows, cutoff)
  {
    assert (rows + [x])[..|rows|] == rows && rows + [] == rows;
  }

  /** What a dry run announces as purged, and what a pass then purges. */
  function AnnouncedPurge(hot: seq<Row>, now: int, retentionDays: int): nat {
    if retentionDays > 0 then |Older(hot, ArchiveCutoff(now, retentionDays))| else 0
  }

  function ActualPurge(hot: seq<Row>, now: int, archiveAfterDays: int, retentionDays: int, batchSize: nat): nat {
    AnnouncedPurge(AfterArchive(hot, ArchiveCutoff(now, archiveAfterDays), batchSize), now, retentionDays)
  }

  /** A dry run announces the number of rows a pass then purges exactly when retention is off, nothing is
      archived, or no row is older than both ages: it counts rows the pass would have archived first. */
  lemma DryRunPurgeExactly(hot: seq<Row>, now: int, archiveAfterDays: int, retentionDays: int, batchSize: nat)
    ensures AnnouncedPurge(hot, now, retentionDays) == ActualPurge(hot, now, archiveAfterDays, retentionDays, batchSize) <==>
            || retentionDays <= 0 || batchSize == 0
            || forall x :: x in hot ==> !(x.timestamp < now - archiveAfterDays * 86400 && x.timestamp < now - retentionDays * 86400)
  {
    hide Older, Newer;
    var a, r := ArchiveCutoff(now, archiveAfterDays), ArchiveCutoff(now, retentionDays);
    OlderSplits(hot, a, r);
    var both := Older(Older(hot, a), r);
    forall x ensures x in both <==> x in hot && x.timestamp < a && x.timestamp < r {
      Filters(Older(hot, a), r, x);
      Filters(hot, a, x);
    }
    if both != [] { assert both[0] in both; }
  }

  /** A table of one row older than both ages: the dry run announces it as purged, the pass archives it. */
  lemma DryRunOvercounts(now: int, archiveAfterDays: int, retentionDays: int, batchSize: nat)
    requires retentionDays > 0 && batchSize > 0
    ensures var row := Row(1, "XLM", "1", 7, "band", Min(ArchiveCutoff(now, archiveAfterDays), ArchiveCutoff(now, retentionDays)) - 1);
            AnnouncedPurge([row], now, retentionDays) == 1 && ActualPurge([row], now, archiveAfterDays, retentionDays, batchSize) == 0
  {
    var row := Row(1, "XLM", "1", 7, "band", Min(ArchiveCutoff(now, archiveAfterDays), ArchiveCutoff(now, retentionDays)) - 1);
    OneOldRow(row, ArchiveCutoff(now, archiveAfterDays));
    OneOldRow(row, ArchiveCutoff(now, retentionDays));
    OlderNothing(ArchiveCutoff(now, retentionDays));
  }

  lemma OneOldRow(row: Row, cutoff: int)
    requires row.timestamp < cutoff
    ensures Older([row], cutoff) == [row] && Newer([row], cutoff) == []
  {
    assert [row][..0] == [];
    assert Older([row], cutoff) == Older([row][..0], cutoff) + [row] && Newer([row], cutoff) == Newer([row][..0], cutoff) + [];
  }

  // ── Restoring ─────────────────────────────────────────────────────────────

  predicate HasKey(rows: seq<Row>, k: Key) { exists i :: 0 <= i < |rows| && KeyOf(rows[i]) == k }

  /** Insert-if-absent of the rows, one after the other. */
  function Restored(hot: seq<Row>, nextId: int, rows: seq<Row>): seq<Row>
    decreases |rows|
  {
    if rows == [] then hot else
      var done := Restored(hot, nextId, rows[..|rows| - 1]);
      var r := rows[|rows| - 1];
      if HasKey(done, KeyOf(r)) then done else done + [r.(id := nextId + |done| - |hot|)]
  }

  lemma RestoredNothing(hot: seq<Row>, nextId: int)
    ensures Restored(hot, nextId, []) == hot
  {
  }

  lemma RestoredNext(hot: seq<Row>, nextId: int, rows: seq<Row>, r: Row)
    ensures var done := Restored(hot, nextId, rows);
            Restored(hot, nextId, rows + [r]) == if HasKey(done, KeyOf(r)) then done else done + [r.(id := nextId + |done| - |hot|)]
  {
    hide HasKey;
    assert (rows + [r])[..|rows|] == rows;
  }

  lemma {:induction false} RestoredTwice(hot: seq<Row>, nextId: int, a: seq<Row>, b: seq<Row>)
    ensures var done := Restored(hot, nextId, a);
            Restored(done, nextId + |done| - |hot|, b) == Restored(hot, nextId, a + b)
    decreases |b|
  {
    hide HasKey;
    if b == [] {
      assert a + b == a;
    } else {
      RestoredTwice(hot, nextId, a, b[..|b| - 1]);
      assert (a + b)[..|a + b| - 1] == a + b[..|b| - 1];
    }
  }

  lemma InsertOk(hot: seq<Row>, nextId: int, r: Row)
    requires TableOk(hot) && (forall x :: x in hot ==> x.id < nextId) && !HasKey(hot, KeyOf(r))
    ensures TableOk(hot + [r.(id := nextId)])
  {
    forall i | 0 <= i < |hot| ensures hot[i].id < nextId && KeyOf(hot[i]) != KeyOf(r) { assert hot[i] in hot; }
  }

  /** The price a table or file holds under a key. */
  function Price(rows: seq<Row>, k: Key): Option<Quote> {
    if rows == [] then None
    else
      var p := Price(rows[..|rows| - 1], k);
      if p.Some? then p else if KeyOf(rows[|rows| - 1]) == k then Some(QuoteOf(rows[|rows| - 1])) else None
  }

  lemma {:induction false} PriceHasKey(rows: seq<Row>, k: Key)
    ensures HasKey(rows, k) <==> Price(rows, k).Some?
  {
    if rows != [] {
      var n := |rows| - 1;
      PriceHasKey(rows[..n], k);
      if HasKey(rows[..n], k) {
        var i :| 0 <= i < n && KeyOf(rows[..n][i]) == k;
        assert KeyOf(rows[i]) == k;
      }
      if HasKey(rows, k) {
        var i :| 0 <= i < |rows| && KeyOf(rows[i]) == k;
        if i < n { assert KeyOf(rows[..n][i]) == k; }
      }
    }
  }

  /** Restoring adds what the table lacks and changes nothing it has. */
  lemma {:induction false} RestoredPrice(hot: seq<Row>, nextId: int, rows: seq<Row>, k: Key)
    ensures Price(Restored(hot, nextId, rows), k) == if Price(hot, k).Some? then Price(hot, k) else Price(rows, k)
    decreases |rows|
  {
    hide HasKey;
    if rows != [] {
      var n := |rows| - 1;
      RestoredPrice(hot, nextId, rows[..n], k);
      var done := Restored(hot, nextId, rows[..n]);
      PriceHasKey(done, KeyOf(rows[n]));
      if !HasKey(done, KeyOf(rows[n])) {
        var row := rows[n].(id := nextId + |done| - |hot|);
        assert (done + [row])[..|done|] == done;
      }
    }
  }

  // ── Crashes between writing a file and deleting its rows ──────────────────

  datatype Store = Store(hot: seq<Row>, cold: seq<seq<Row>>, pending: Option<seq<Row>>, nextId: int)

  /** Other processes insert rows; a batch is written, then deleted; a crash may come in between. */
  datatype Event = Insert(row: Row) | WriteBatch(rows: seq<Row>) | DeleteBatch | Crash

  function Step(st: Store, event: Event): Store {
    match event
    case Insert(row) =>
      if HasKey(st.hot, KeyOf(row)) then st else st.(hot := st.hot + [row.(id := st.nextId)], nextId := st.nextId + 1)
    case WriteBatch(rows) =>
      if st.pending.None? && forall i :: 0 <= i < |rows| ==> rows[i] in st.hot
      then st.(cold := st.cold + [rows], pending := Some(rows)) else st
    case DeleteBatch => if st.pending.Some? then st.(hot := Delete(st.hot, st.pending.value), pending := None) else st
    case Crash => st.(pending := None)
  }

  function Run(events: seq<Event>): Store {
    if events == [] then Store([], [], None, 1) else Step(Run(events[..|events| - 1]), events[|events| - 1])
  }

  /** The rows the table ever took in. */
  function Inserted(events: seq<Event>): seq<Row> {
    if events == [] then [] else
      var before := events[..|events| - 1];
      var e := events[|events| - 1];
      Inserted(before) + (if e.Insert? && !HasKey(Run(before).hot, KeyOf(e.row)) then [e.row.(id := Run(before).nextId)] else [])
  }

  /** The rows ever taken in are those in the table or a file, under distinct ids; a pending batch is in
      a file. */
  ghost predicate Preserved(all: seq<Row>, st: Store) {
    && (forall x :: x in all <==> x in st.hot || x in Flat(st.cold))
    && (forall x :: x in all ==> x.id < st.nextId)
    && (forall x, y :: x in all && y in all && x.id == y.id ==> x == y)
    && (st.pending.Some? ==> forall r :: r in st.pending.value ==> r in Flat(st.cold))
  }

  lemma DeletePreserves(all: seq<Row>, st: Store)
    requires Preserved(all, st) && st.pending.Some?
    ensures Preserved(all, Step(st, DeleteBatch))
  {
    hide Delete, Flat;
    var rows := st.pending.value;
    forall x ensures x in all <==> x in Delete(st.hot, rows) || x in Flat(st.cold) {
      DeleteMembers(st.hot, rows, x);
      if x in st.hot && Matches(rows, x) {
        var i :| 0 <= i < |rows| && rows[i].id == x.id && rows[i].timestamp == x.timestamp;
        assert rows[i] in rows;
      }
    }
  }

  lemma InsertPreserves(all: seq<Row>, st: Store, row: Row)
    requires Preserved(all, st) && !HasKey(st.hot, KeyOf(row))
    ensures Preserved(all + [row.(id := st.nextId)], Step(st, Insert(row)))
  {
    hide Flat, HasKey;
  }

  lemma WritePreserves(all: seq<Row>, st: Store, rows: seq<Row>)
    requires Preserved(all, st)
    ensures Preserved(all, Step(st, WriteBatch(rows)))
  {
    hide Flat;
    FlatNext(st.cold, rows);
  }

  lemma {:induction false} RunPreserves(events: seq<Event>)
    ensures Preserved(Inserted(events), Run(events))
  {
    hide Step, Preserved, HasKey;
    if events == [] {
      StartPreserved();
    } else {
      var n := |events| - 1;
      var all, st := Inserted(events[..n]), Run(events[..n]);
      RunPreserves(events[..n]);
      assert all + [] == all;
      match events[n]
      case Insert(row) => if HasKey(st.hot, KeyOf(row)) { RefusedInsert(st, row); } else { InsertPreserves(all, st, row); }
      case WriteBatch(rows) => WritePreserves(all, st, rows);
      case DeleteBatch => if st.pending.Some? { DeletePreserves(all, st); } else { IdleDelete(st); }
      case Crash => CrashPreserves(all, st);
    }
  }

  lemma StartPreserved()
    ensures Preserved([], Store([], [], None, 1))
  {
  }

  lemma RefusedInsert(st: Store, row: Row)
    requires HasKey(st.hot, KeyOf(row))
    ensures Step(st, Insert(row)) == st
  {
  }

  lemma IdleDelete(st: Store)
    requires st.pending.None?
    ensures Step(st, DeleteBatch) == st
  {
  }

  lemma CrashPreserves(all: seq<Row>, st: Store)
    requires Preserved(all, st)
    ensures Preserved(all, Step(st, Crash))
  {
    hide Flat;
  }

  lemma {:induction false} FlatMembers(files: seq<seq<Row>>, x: Row)
    ensures x in Flat(files) <==> exists i :: 0 <= i < |files| && x in files[i]
  {
    if files != [] {
      var n := |files| - 1;
      FlatMembers(files[..n], x);
      if x in Flat(files[..n]) {
        var i :| 0 <= i < n && x in files[..n][i];
        assert x in files[i];
      }
      if i :| 0 <= i < n && x in files[i] { assert x in files[..n][i]; }
    }
  }

  lemma SameFilesSameRows(files: seq<seq<Row>>, others: seq<seq<Row>>, x: Row)
    requires forall f :: f in files ==> f in others
    ensures x in Flat(files) ==> x in Flat(others)
  {
    hide Flat;
    FlatMembers(files, x);
    FlatMembers(others, x);
    if x in Flat(files) {
      var i :| 0 <= i < |files| && x in files[i];
      assert files[i] in others;
    }
  }

  /** A row taken in under the key, with this price. */
  ghost predicate WasPriced(all: seq<Row>, k: Key, q: Quote) {
    exists x :: x in all && x.asset == k.asset && x.source == k.source && x.timestamp == k.timestamp
             && x.price == q.price && x.decimals == q.decimals
  }

  /** After any run of inserts, batches and crashes, restoring from all files, in whatever order they are
      listed, gives a price to exactly the keys ever taken in, and always one the key was taken in with.
      So a key that never had two prices gets its price back. */
  lemma RestoreReturnsAll(events: seq<Event>, files: seq<seq<Row>>, nextId: int, k: Key)
    requires forall f :: f in files <==> f in Run(events).cold
    ensures var p := Price(Restored(Run(events).hot, nextId, Flat(files)), k); var all := Inserted(events);
            && (p.Some? <==> exists q :: WasPriced(all, k, q))
            && (p.Some? ==> WasPriced(all, k, p.value))
            && ((forall q, r :: WasPriced(all, k, q) && WasPriced(all, k, r) ==> q == r) ==> p == Price(all, k))
  {
    hide Run, Inserted, Restored, Price, Flat;
    var st, all := Run(events), Inserted(events);
    RunPreserves(events);
    forall x ensures x in Flat(files) <==> x in Flat(st.cold) {
      SameFilesSameRows(files, st.cold, x);
      SameFilesSameRows(st.cold, files, x);
    }
    RestoredPrice(st.hot, nextId, Flat(files), k);
    PriceFrom(st.hot, k);
    PriceFrom(Flat(files), k);
    PriceFrom(all, k);
    forall x | x in all && KeyOf(x) == k
      ensures Price(all, k).Some? && (Price(st.hot, k).Some? || Price(Flat(files), k).Some?) {
      PricePresent(all, x);
      if x in st.hot { PricePresent(st.hot, x); } else { PricePresent(Flat(files), x); }
    }
  }

  lemma {:induction false} PriceFrom(rows: seq<Row>, k: Key)
    ensures Price(rows, k).Some? ==> WasPriced(rows, k, Price(rows, k).value)
  {
    if rows != [] {
      var n := |rows| - 1;
      PriceFrom(rows[..n], k);
      assert rows == rows[..n] + [rows[n]];
      if Price(rows[..n], k).Some? {
        var q := Price(rows[..n], k).value;
        var x :| x in rows[..n] && x.asset == k.asset && x.source == k.source && x.timestamp == k.timestamp
              && x.price == q.price && x.decimals == q.decimals;
        assert x in rows;
      } else {
        assert rows[n] in rows;
      }
    }
  }

  lemma PricePresent(rows: seq<Row>, x: Row)
    requires x in rows
    ensures Price(rows, KeyOf(x)).Some?
  {
    hide HasKey;
    var i :| 0 <= i < |rows| && rows[i] == x;
    HasKeyAt(rows, i);
    PriceHasKey(rows, KeyOf(x));
  }

  lemma HasKeyAt(rows: seq<Row>, i: nat)
    requires i < |rows|
    ensures HasKey(rows, KeyOf(rows[i]))
  {
  }
}
