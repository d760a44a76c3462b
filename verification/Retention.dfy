/** Pruning of raw packets, internal/storage/retention.go. */
module Retention {
  import opened Calendar
  import opened Store

  const SCAN_BATCH := 400
  const DELETE_CHUNK := 50
  const BUSY_MAX := 8

  function CutoffOf(z: Zone, now: int, retainMondayWeeks: nat): int {
    AddDays(z, WeekStart(z, now), -7 * retainMondayWeeks)
  }

  /** protectedPacketHashes: the UNION of both tables' hashes. */
  function ProtectedHashes(db: DB): set<Hash> {
    (set c | c in db.checkins :: c.hash) + (set l | l in db.links :: l.hash)
  }

  /** Monday traffic of a week that has not expired. */
  predicate DateRetained(z: Zone, observedAt: int, cutoff: int) {
    IsMonday(z, observedAt) && WeekStart(z, observedAt) >= cutoff
  }

  predicate ShouldRetain(z: Zone, r: RawRow, cutoff: int, protected: set<Hash>) {
    r.hash in protected || DateRetained(z, r.observedAt, cutoff)
  }

  /** SELECT ... WHERE id > afterID ORDER BY id. */
  function RowsAfter(rows: seq<RawRow>, afterID: int): seq<RawRow> {
    Filter((r: RawRow) => r.id > afterID, rows)
  }

  /** The same with LIMIT. */
  function ScanBatch(rows: seq<RawRow>, afterID: int, limit: nat): seq<RawRow> {
    var after := RowsAfter(rows, afterID);
    if |after| <= limit then after else after[..limit]
  }

  function ToDelete(z: Zone, rows: seq<RawRow>, cutoff: int, protected: set<Hash>): seq<int> {
    if rows == [] then []
    else
      var n := |rows| - 1;
      ToDelete(z, rows[..n], cutoff, protected)
      + if ShouldRetain(z, rows[n], cutoff, protected) then [] else [rows[n].id]
  }

  lemma {:induction false} ToDeleteIds(z: Zone, rows: seq<RawRow>, cutoff: int, protected: set<Hash>)
    ensures forall id :: id in ToDelete(z, rows, cutoff, protected) <==>
                         exists r :: r in rows && r.id == id && !ShouldRetain(z, r, cutoff, protected)
  {
    if rows != [] {
      var n := |rows| - 1;
      ToDeleteIds(z, rows[..n], cutoff, protected);
      assert rows == rows[..n] + [rows[n]];
      forall r ensures r in rows <==> r in rows[..n] || r == rows[n] {}
    }
  }

  /** A scan finds nothing only when there is nothing left, and what it finds is every row up
      to its last id. */
  lemma ScanCovers(rows: seq<RawRow>, afterID: int, limit: nat)
    requires RawInOrder(rows) && limit > 0
    ensures var batch := ScanBatch(rows, afterID, limit);
            && (forall r :: r in batch ==> r in rows && r.id > afterID)
            && (batch == [] ==> forall r :: r in rows ==> r.id <= afterID)
            && (batch != [] ==> batch[|batch| - 1].id > afterID)
            && (batch != [] ==> forall r :: r in rows && afterID < r.id <= batch[|batch| - 1].id ==> r in batch)
  {
    var after := RowsAfter(rows, afterID);
    FilterRawInOrder((r: RawRow) => r.id > afterID, rows);
    var batch := ScanBatch(rows, afterID, limit);
    assert batch <= after;
    if batch != [] {
      assert batch[|batch| - 1] in batch;
      forall r | r in rows && afterID < r.id <= batch[|batch| - 1].id ensures r in batch {
        assert r in after;
        var i :| 0 <= i < |after| && after[i] == r;
        assert after[|batch| - 1] == batch[|batch| - 1];
      }
    }
  }

  /** The midnights the cutoff is computed from exist in the zone. */
  ghost predicate CutoffIsMidnight(z: Zone, now: int, weeks: nat) {
    Regular(z, now) && HasMidnight(z, MondayOf(LocalDay(z, now)) - 7 * weeks)
  }

  lemma CutoffMeaning(z: Zone, now: int, weeks: nat)
    requires CutoffIsMidnight(z, now, weeks)
    ensures CutoffOf(z, now, weeks) == Midnight(z, MondayOf(LocalDay(z, now)) - 7 * weeks)
  {
    WeekStartMeaning(z, now);
    WeeksBack(MondayOf(LocalDay(z, now)), weeks);
  }

  /** In seconds. */
  lemma WeeksBack(monday: int, weeks: nat)
    ensures monday * DAY + -7 * weeks * DAY == (monday - 7 * weeks) * DAY
  {
  }

  /** An instant's week is not before the cutoff exactly when its local day is not before the
      cutoff's Monday; the week of the prune itself never is, the number of weeks being no less than 0. */
  lemma NotBeforeCutoffIff(z: Zone, nanos: int, now: int, weeks: nat)
    requires MonotoneDays(z) && CutoffIsMidnight(z, now, weeks) && Regular(z, SecondOf(nanos))
    ensures NanoWeekStart(z, nanos) >= CutoffOf(z, now, weeks) <==>
            LocalDay(z, SecondOf(nanos)) >= MondayOf(LocalDay(z, now)) - 7 * weeks
  {
    var day, first := LocalDay(z, SecondOf(nanos)), MondayOf(LocalDay(z, now)) - 7 * weeks;
    FractionKeepsBucket(z, nanos);
    WeekStartIsMidnight(z, SecondOf(nanos));
    CutoffMeaning(z, now, weeks);
    MidnightOrder(z, MondayOf(day), first);
    MondayReached(day, LocalDay(z, now), weeks);
  }

  lemma MondayReached(day: int, today: int, weeks: nat)
    ensures MondayOf(day) >= MondayOf(today) - 7 * weeks <==> day >= MondayOf(today) - 7 * weeks
  {
  }

  /** In a zone whose midnights exist, the date rule keeps the Mondays of the current week and of
      the given number of weeks before it, and no others. */
  lemma RetentionWindow(z: Zone, at: int, now: int, weeks: nat)
    requires MonotoneDays(z)
    requires HasMidnight(z, LocalDay(z, at)) && CutoffIsMidnight(z, now, weeks)
    ensures DateRetained(z, at, CutoffOf(z, now, weeks)) <==>
            IsMonday(z, at) && LocalDay(z, at) >= MondayOf(LocalDay(z, now)) - 7 * weeks
  {
    CutoffMeaning(z, now, weeks);
    RetainedFrom(z, at, MondayOf(LocalDay(z, now)) - 7 * weeks);
  }

  lemma RetainedFrom(z: Zone, at: int, first: int)
    requires MonotoneDays(z) && HasMidnight(z, LocalDay(z, at)) && HasMidnight(z, first)
    ensures DateRetained(z, at, Midnight(z, first)) <==> IsMonday(z, at) && LocalDay(z, at) >= first
  {
    if IsMonday(z, at) {
      WeekStartIsMidnight(z, at);
      MondayIsItsOwn(LocalDay(z, at));
      MidnightOrder(z, LocalDay(z, at), first);
    }
  }

  lemma MondayIsItsOwn(day: int)
    requires IsMondayDay(day)
    ensures MondayOf(day) == day
  {
  }

  /** With a retention of 0 weeks an unlinked packet of Monday 1970-01-26 is kept all that day. */
  lemma ZeroWeeksKeepThisMonday()
    ensures var z: Zone := t => 0;
            var r := RawRow(1, "hash", "payload", "SEA", 25 * DAY + 3600);
            ShouldRetain(z, r, CutoffOf(z, 25 * DAY + 7200, 0), {})
  {
    var z: Zone := t => 0;
    assert LocalDay(z, 25 * DAY + 3600) == 25 == LocalDay(z, 25 * DAY + 7200);
    assert WeekStart(z, 25 * DAY + 3600) == 25 * DAY == WeekStart(z, 25 * DAY + 7200);
  }

  /** A batch has 400 rows, or all there are. */
  lemma ScanIsFull(rows: seq<RawRow>, afterID: int)
    ensures var batch := ScanBatch(rows, afterID, SCAN_BATCH);
            |batch| <= 400 && (|batch| < 400 ==> forall r :: r in rows && r.id > afterID ==> r in batch)
  {
  }

  // ----- Which rows a prune keeps, in plain terms -----

  /** The local day of an instant is a Monday, of the current week or one of the given number of weeks
      before it. Day 4, 1970-01-05, was a Monday. */
  predicate RecentMonday(z: Zone, at: int, now: int, weeks: nat) {
    var day, today := (at + z(at)) / 86400, (now + z(now)) / 86400;
    day % 7 == 4 && day >= today - (today + 3) % 7 - 7 * weeks
  }

  lemma MondayNumbers(day: int)
    ensures IsMondayDay(day) <==> day % 7 == 4
    ensures MondayOf(day) == day - (day + 3) % 7
  {
  }

  lemma RecentMondayIff(z: Zone, at: int, now: int, weeks: nat)
    ensures RecentMonday(z, at, now, weeks) <==>
            IsMonday(z, at) && LocalDay(z, at) >= MondayOf(LocalDay(z, now)) - 7 * weeks
  {
    MondayNumbers(LocalDay(z, at));
    MondayNumbers(LocalDay(z, now));
  }

  /** Linked to a check-in or a link, or seen on a Monday of the window; nothing else. */
  ghost predicate Kept(z: Zone, db: DB, r: RawRow, now: int, weeks: nat) {
    || (exists c :: c in db.checkins && c.hash == r.hash)
    || (exists l :: l in db.links && l.hash == r.hash)
    || RecentMonday(z, r.observedAt, now, weeks)
  }

  /** Whatever the snapshot, a row is retained if and only if the snapshot has its hash or it was seen
      on a Monday of the window. */
  lemma RetainedIff(z: Zone, r: RawRow, now: int, weeks: nat, protected: set<Hash>)
    requires MonotoneDays(z) && HasMidnight(z, LocalDay(z, r.observedAt)) && CutoffIsMidnight(z, now, weeks)
    ensures ShouldRetain(z, r, CutoffOf(z, now, weeks), protected) <==>
            r.hash in protected || RecentMonday(z, r.observedAt, now, weeks)
  {
    RetentionWindow(z, r.observedAt, now, weeks);
    RecentMondayIff(z, r.observedAt, now, weeks);
  }

  /** The zone has the midnights of the observed days and of those the cutoff is computed from. */
  ghost predicate ZoneFits(z: Zone, db: DB, now: int, weeks: nat) {
    && MonotoneDays(z) && CutoffIsMidnight(z, now, weeks)
    && forall r | r in db.raw :: HasMidnight(z, LocalDay(z, r.observedAt))
  }

  lemma DoomedIsNotKept(z: Zone, db: DB, now: int, weeks: nat, r: RawRow)
    requires ZoneFits(z, db, now, weeks) && r in db.raw
    ensures ShouldRetain(z, r, CutoffOf(z, now, weeks), ProtectedHashes(db)) <==> Kept(z, db, r, now, weeks)
  {
    RetainedIff(z, r, now, weeks, ProtectedHashes(db));
  }

  /** After a prune: the kept rows and the observations of their packets, all links and all
      check-ins; so many rows were deleted as were not kept. */
  ghost predicate PrunedExactly(z: Zone, db: DB, after: DB, now: int, weeks: nat, deleted: nat) {
    && (forall r :: r in after.raw <==> r in db.raw && Kept(z, db, r, now, weeks))
    && (forall o :: o in after.obs <==>
                    o in db.obs && forall r | r in db.raw && r.hash == o.hash :: Kept(z, db, r, now, weeks))
    && after.links == db.links && after.checkins == db.checkins
    && deleted == |set r | r in db.raw && !Kept(z, db, r, now, weeks) :: r.id|
  }

  function DoomedIds(z: Zone, db: DB, cutoff: int, protected: set<Hash>): set<int> {
    set r | r in db.raw && !ShouldRetain(z, r, cutoff, protected) :: r.id
  }

  /** What a whole prune leaves behind. */
  function Pruned(z: Zone, db: DB, cutoff: int): DB {
    DeleteRaw(db, DoomedIds(z, db, cutoff, ProtectedHashes(db)))
  }

  lemma SameIdSameRow(db: DB, r: RawRow, q: RawRow)
    requires RawKeys(db) && r in db.raw && q in db.raw && r.id == q.id
    ensures r == q
  {
  }

  lemma DoomedUnprotected(z: Zone, db: DB, cutoff: int, ids: set<int>)
    requires RawKeys(db) && ids <= DoomedIds(z, db, cutoff, ProtectedHashes(db))
    ensures forall h | h in GoneHashes(db, ids) :: h !in ProtectedHashes(db)
    ensures DeleteRaw(db, ids).links == db.links
    ensures DeleteRaw(db, ids).checkins == db.checkins
  {
    forall h | h in GoneHashes(db, ids) ensures h !in ProtectedHashes(db) {
      var r :| r in db.raw && r.id in ids && r.hash == h;
      var q :| q in db.raw && q.id == r.id && !ShouldRetain(z, q, cutoff, ProtectedHashes(db));
      SameIdSameRow(db, r, q);
    }
    UnlinkedDeleteKeepsCheckins(db, ids);
  }

  /** A prune leaves exactly the rows the retain predicate accepts, in their order, with their
      observations, and no cascade reaches a check-in or a link. */
  lemma PrunedIsRetained(z: Zone, db: DB, cutoff: int)
    requires Consistent(db)
    ensures var after := Pruned(z, db, cutoff);
            && after.raw == Filter((r: RawRow) => ShouldRetain(z, r, cutoff, ProtectedHashes(db)), db.raw)
            && (forall o :: o in after.obs <==> o in db.obs && HasRaw(after, o.hash))
            && after.links == db.links
            && after.checkins == db.checkins
  {
    var protected := ProtectedHashes(db);
    var ids := DoomedIds(z, db, cutoff, protected);
    var after := Pruned(z, db, cutoff);
    DoomedUnprotected(z, db, cutoff, ids);
    forall r | r in db.raw ensures (r.id !in ids) == ShouldRetain(z, r, cutoff, protected) {
      if r.id in ids {
        var q :| q in db.raw && q.id == r.id && !ShouldRetain(z, q, cutoff, protected);
        SameIdSameRow(db, r, q);
      }
    }
    FilterAgree((r: RawRow) => r.id !in ids, (r: RawRow) => ShouldRetain(z, r, cutoff, protected), db.raw);
    forall o | o in db.obs ensures o.hash !in GoneHashes(db, ids) <==> HasRaw(after, o.hash) {
      var r :| r in db.raw && r.hash == o.hash;
      assert r in after.raw <==> r.id !in ids;
    }
  }

  /** Pruning again with the same arguments deletes nothing. */
  lemma PruneIdempotent(z: Zone, db: DB, cutoff: int)
    requires Consistent(db)
    ensures Pruned(z, Pruned(z, db, cutoff), cutoff) == Pruned(z, db, cutoff)
  {
    var after := Pruned(z, db, cutoff);
    PrunedIsRetained(z, db, cutoff);
    assert ProtectedHashes(after) == ProtectedHashes(db);
    assert DoomedIds(z, after, cutoff, ProtectedHashes(after)) == {};
    DeleteNothing(after);
  }

  function IdSet(ids: seq<int>): set<int> {
    set id | id in ids
  }

  /** How many of so many ids the first k chunks hold. */
  function ChunkEnd(k: nat, total: nat): (end: nat)
    ensures end <= total && (total > 0 ==> (end == 0 <==> k == 0))
  {
    if k * DELETE_CHUNK < total then k * DELETE_CHUNK else total
  }

  /** A chunk has 50 ids, or what is left. */
  lemma ChunksOfFifty(k: nat, total: nat)
    ensures ChunkEnd(k, total) == if 50 * k < total then 50 * k else total
  {
  }

  /** The ids of the first k chunks. */
  function FirstChunks(ids: seq<int>, k: nat): set<int> {
    IdSet(ids[..ChunkEnd(k, |ids|)])
  }

  lemma NoChunk(db: DB, ids: seq<int>)
    ensures DeleteRaw(db, IdSet(ids[..0])) == db
  {
    DeleteNothing(db);
    assert IdSet(ids[..0]) == {};
  }

  /** The end of the next chunk. */
  function NextEnd(start: nat, total: nat): (end: nat)
    requires start < total
    ensures start < end <= total
    ensures forall k: nat | start == ChunkEnd(k, total) :: end == ChunkEnd(k + 1, total)
  {
    if start + DELETE_CHUNK > total then total else start + DELETE_CHUNK
  }

  lemma OneMoreChunk(db: DB, ids: seq<int>, start: nat, end: nat)
    requires start <= end <= |ids|
    ensures DeleteRaw(DeleteRaw(db, IdSet(ids[..start])), IdSet(ids[start..end])) == DeleteRaw(db, IdSet(ids[..end]))
  {
    assert ids[..end] == ids[..start] + ids[start..end];
    assert IdSet(ids[..end]) == IdSet(ids[..start]) + IdSet(ids[start..end]);
    DeleteTwice(db, IdSet(ids[..start]), IdSet(ids[start..end]));
  }

  /** The chunk loop, each chunk retried while the database is busy. On an error the chunks
      already deleted stay deleted: `chunks` is their number. */
  method DeleteRawPacketIDs(ctx: Context, store: SQLiteStore, ids: seq<int>)
    returns (total: nat, err: bool, ghost chunks: nat)
    modifies store, ctx
    ensures Grown(old(store.trouble), store.trouble) && (old(ctx.expired) ==> ctx.expired)
    ensures err ==> Excused(old(store.trouble), store.trouble, ctx.expired, 9)
    ensures store.View() == DeleteRaw(old(store.View()), FirstChunks(ids, chunks))
    ensures !err ==> ChunkEnd(chunks, |ids|) == |ids|
    ensures total == |old(store.raw)| - |store.raw|
  {
    total, err, chunks := 0, false, 0;
    var start := 0;
    ghost var db := store.View();
    NoChunk(db, ids);
    while start < |ids|
      invariant start == ChunkEnd(chunks, |ids|) && !err
      invariant Grown(old(store.trouble), store.trouble) && (old(ctx.expired) ==> ctx.expired)
      invariant store.View() == DeleteRaw(db, IdSet(ids[..start]))
      invariant total == |db.raw| - |store.raw|
    {
      var end := NextEnd(start, |ids|);
      var chunk := ids[start..end];
      var n, failed := DeleteChunk(ctx, store, IdSet(chunk));
      if failed {
        err := true;
        return;
      }
      OneMoreChunk(db, ids, start, end);
      total := total + n;
      start, chunks := end, chunks + 1;
      err := ctx.Done();
      if err {
        return;
      }
    }
  }

  /** The retry loop around one chunk, which is tried nine times on a busy database. */
  method DeleteChunk(ctx: Context, store: SQLiteStore, ids: set<int>) returns (n: nat, failed: bool)
    modifies store, ctx
    ensures Grown(old(store.trouble), store.trouble) && store.trouble.busy <= old(store.trouble.busy) + 9
    ensures old(ctx.expired) ==> ctx.expired
    ensures failed ==> Excused(old(store.trouble), store.trouble, ctx.expired, 9)
    ensures store.View() == if failed then old(store.View()) else DeleteRaw(old(store.View()), ids)
    ensures n == |old(store.raw)| - |store.raw|
  {
    for attempt := 0 to BUSY_MAX + 1
      invariant store.View() == old(store.View()) && (old(ctx.expired) ==> ctx.expired)
      invariant store.trouble == Trouble(old(store.trouble.busy) + attempt, old(store.trouble.other))
    {
      var o;
      n, o := store.DeleteRawPackets(ids);
      if !o.Failed? {
        return n, false;
      }
      if !o.busy || attempt == BUSY_MAX {
        return 0, true;
      }
      var done := ctx.Done();
      if done {
        return 0, true;
      }
    }
    return 0, true;
  }

  method SelectToDelete(z: Zone, rows: seq<RawRow>, cutoff: int, protected: set<Hash>) returns (toDelete: seq<int>)
    ensures toDelete == ToDelete(z, rows, cutoff, protected)
  {
    toDelete := [];
    for i := 0 to |rows|
      invariant toDelete == ToDelete(z, rows[..i], cutoff, protected)
    {
      assert rows[..i + 1][..i] == rows[..i];
      if !ShouldRetain(z, rows[i], cutoff, protected) {
        toDelete := toDelete + [rows[i].id];
      }
    }
    assert rows[..|rows|] == rows;
  }

  lemma FewerAfter(rows: seq<RawRow>, lastID: int, maxID: int, r: RawRow)
    requires r in rows && lastID < r.id <= maxID
    ensures |RowsAfter(rows, maxID)| < |RowsAfter(rows, lastID)|
  {
    FilterShorter((q: RawRow) => q.id > lastID, (q: RawRow) => q.id > maxID, rows, r);
  }

  lemma FewerAfterDelete(db: DB, ids: set<int>, lastID: int, r: RawRow)
    requires r in db.raw && r.id in ids && lastID < r.id
    ensures |RowsAfter(DeleteRaw(db, ids).raw, lastID)| < |RowsAfter(db.raw, lastID)|
  {
    var keep := (q: RawRow) => q.id !in ids;
    var after := (q: RawRow) => q.id > lastID;
    var both := (q: RawRow) => q.id !in ids && q.id > lastID;
    FilterFilter(keep, after, both, db.raw);
    FilterShorter(after, both, db.raw, r);
  }

  lemma DeletedIsSubset(db: DB, ids: set<int>)
    requires RawKeys(db)
    ensures RawKeys(DeleteRaw(db, ids))
    ensures forall r :: r in DeleteRaw(db, ids).raw <==> r in db.raw && r.id !in ids
  {
    FilterRawInOrder((r: RawRow) => r.id !in ids, db.raw);
  }

  /** What the loop knows of a prune of db: only doomed rows are gone, every one of them up to
      lastID is, and the count is right. */
  ghost predicate Progress(z: Zone, db: DB, cutoff: int, now: DB, gone: set<int>, lastID: int) {
    && gone <= DoomedIds(z, db, cutoff, ProtectedHashes(db))
    && now == DeleteRaw(db, gone)
    && forall r | r in now.raw && r.id <= lastID :: ShouldRetain(z, r, cutoff, ProtectedHashes(db))
  }

  lemma DeleteProgress(z: Zone, db: DB, cutoff: int, now: DB, gone: set<int>, lastID: int, batch: seq<RawRow>, k: nat)
    requires RawKeys(db) && Progress(z, db, cutoff, now, gone, lastID)
    requires forall r | r in batch :: r in now.raw && r.id > lastID
    requires var ids := ToDelete(z, batch, cutoff, ProtectedHashes(db)); k <= |ids|
    ensures var ids := ToDelete(z, batch, cutoff, ProtectedHashes(db));
            && Progress(z, db, cutoff, DeleteRaw(now, IdSet(ids[..k])), gone + IdSet(ids[..k]), lastID)
            && (k == |ids| > 0 ==>
                  |RowsAfter(DeleteRaw(now, IdSet(ids[..k])).raw, lastID)| < |RowsAfter(now.raw, lastID)|)
  {
    var protected := ProtectedHashes(db);
    var ids := ToDelete(z, batch, cutoff, protected);
    ToDeleteIds(z, batch, cutoff, protected);
    DeletedIsSubset(db, gone);
    DeletedIsSubset(now, IdSet(ids[..k]));
    DeleteTwice(db, gone, IdSet(ids[..k]));
    forall id | id in ids[..k] ensures id in DoomedIds(z, db, cutoff, protected) {
      assert id in ids;
    }
    if k == |ids| > 0 {
      assert ids[..k] == ids && ids[0] in ids;
      var r :| r in batch && r.id == ids[0] && !ShouldRetain(z, r, cutoff, protected);
      FewerAfterDelete(now, IdSet(ids), lastID, r);
    }
  }

  lemma AdvanceProgress(z: Zone, db: DB, cutoff: int, now: DB, gone: set<int>, lastID: int, batch: seq<RawRow>)
    requires RawKeys(db) && Progress(z, db, cutoff, now, gone, lastID)
    requires batch == ScanBatch(now.raw, lastID, SCAN_BATCH)
    requires ToDelete(z, batch, cutoff, ProtectedHashes(db)) == []
    ensures batch == [] ==> now == Pruned(z, db, cutoff)
    ensures batch != [] ==>
              var maxID := batch[|batch| - 1].id;
              Progress(z, db, cutoff, now, gone, maxID) && |RowsAfter(now.raw, maxID)| < |RowsAfter(now.raw, lastID)|
  {
    var protected := ProtectedHashes(db);
    DeletedIsSubset(db, gone);
    ScanCovers(now.raw, lastID, SCAN_BATCH);
    ToDeleteIds(z, batch, cutoff, protected);
    if batch == [] {
      forall id | id in DoomedIds(z, db, cutoff, protected) ensures id in gone {
        var r :| r in db.raw && r.id == id && !ShouldRetain(z, r, cutoff, protected);
        assert r in now.raw <==> r.id !in gone;
      }
      assert gone == DoomedIds(z, db, cutoff, protected);
    } else {
      assert batch[|batch| - 1] in batch;
      forall r | r in now.raw && r.id <= batch[|batch| - 1].id ensures ShouldRetain(z, r, cutoff, protected) {
        if r.id > lastID {
          assert r in batch;
          assert r.id !in ToDelete(z, batch, cutoff, protected);
        }
      }
      FewerAfter(now.raw, lastID, batch[|batch| - 1].id, batch[|batch| - 1]);
    }
  }

  // ----- Counting what was deleted -----

  lemma SelectionDoomed(z: Zone, db: DB, now: DB, batch: seq<RawRow>, cutoff: int, protected: set<Hash>)
    requires (forall r | r in batch :: r in now.raw) && (forall r | r in now.raw :: r in db.raw)
    ensures IdSet(ToDelete(z, batch, cutoff, protected)) <= DoomedIds(z, db, cutoff, protected)
    ensures forall id | id in ToDelete(z, batch, cutoff, protected) :: exists r :: r in now.raw && r.id == id
  {
    ToDeleteIds(z, batch, cutoff, protected);
  }

  /** Deleting stored ids removes one row for each. */
  lemma {:induction false} RemovedCount(rows: seq<RawRow>, ids: set<int>)
    requires RawInOrder(rows) && forall id | id in ids :: exists r :: r in rows && r.id == id
    ensures |rows| - |Filter((r: RawRow) => r.id !in ids, rows)| == |ids|
  {
    if rows == [] {
      assert forall id :: id !in ids;
    } else {
      var first, rest := rows[0].id, rows[1..];
      var others := ids - {first};
      forall r | r in rest ensures r.id != first {}
      forall id | id in others ensures exists r :: r in rest && r.id == id {
        var r :| r in rows && r.id == id;
        assert r in rest;
      }
      RemovedCount(rest, others);
      FilterAgree((r: RawRow) => r.id !in others, (r: RawRow) => r.id !in ids, rest);
    }
  }

  lemma DoomedIdsMeaning(z: Zone, db: DB, now: int, weeks: nat)
    requires RawKeys(db) && ZoneFits(z, db, now, weeks)
    ensures var ids := DoomedIds(z, db, CutoffOf(z, now, weeks), ProtectedHashes(db));
            && ids == (set r | r in db.raw && !Kept(z, db, r, now, weeks) :: r.id)
            && forall r | r in db.raw :: r.id in ids <==> !Kept(z, db, r, now, weeks)
  {
    forall r | r in db.raw
      ensures ShouldRetain(z, r, CutoffOf(z, now, weeks), ProtectedHashes(db)) <==> Kept(z, db, r, now, weeks)
    {
      DoomedIsNotKept(z, db, now, weeks, r);
    }
    forall r, q | r in db.raw && q in db.raw && r.id == q.id ensures r == q {
      SameIdSameRow(db, r, q);
    }
  }

  lemma PruneMeaning(z: Zone, db: DB, now: int, weeks: nat)
    requires RawKeys(db) && ZoneFits(z, db, now, weeks)
    ensures var after := Pruned(z, db, CutoffOf(z, now, weeks));
            && |after.raw| <= |db.raw|
            && PrunedExactly(z, db, after, now, weeks, |db.raw| - |after.raw|)
  {
    var cutoff, protected := CutoffOf(z, now, weeks), ProtectedHashes(db);
    var ids := DoomedIds(z, db, cutoff, protected);
    DoomedIdsMeaning(z, db, now, weeks);
    DoomedUnprotected(z, db, cutoff, ids);
    DeletedIsSubset(db, ids);
    RemovedCount(db.raw, ids);
  }

  lemma PruneMeansIf(z: Zone, db: DB, now: int, weeks: nat, deleted: nat)
    requires RawKeys(db) && deleted == |db.raw| - |Pruned(z, db, CutoffOf(z, now, weeks)).raw|
    ensures ZoneFits(z, db, now, weeks) ==>
              PrunedExactly(z, db, Pruned(z, db, CutoffOf(z, now, weeks)), now, weeks, deleted)
  {
    if ZoneFits(z, db, now, weeks) {
      PruneMeaning(z, db, now, weeks);
    }
  }

  /** The whole prune, nothing else touching the store. It ends, although lastID stays put after
      a batch that deleted: fewer rows then lie beyond it. Without an error the store is exactly
      what Pruned says and the count is the number of rows removed. With one, some of the doomed
      rows are gone. If the error came from deleting the ids `failed`, the first `chunks` chunks of
      them are gone too and are not in the count: it is short exactly when that call had
      completed a chunk. */
  method PruneRawPackets(ctx: Context, store: SQLiteStore, z: Zone, now: int, retainMondayWeeks: nat)
    returns (deleted: nat, err: bool, ghost failed: seq<int>, ghost chunks: nat)
    requires RawKeys(store.View())
    modifies store, ctx
    ensures Grown(old(store.trouble), store.trouble) && (old(ctx.expired) ==> ctx.expired)
    ensures err ==> Excused(old(store.trouble), store.trouble, ctx.expired, 9)
    ensures var cutoff := CutoffOf(z, now, retainMondayWeeks);
            && (!err ==> failed == [] && store.View() == Pruned(z, old(store.View()), cutoff))
            && (err ==> StoppedEarly(z, old(store.View()), cutoff, store.View(), failed, chunks))
    ensures !err && ZoneFits(z, old(store.View()), now, retainMondayWeeks) ==>
              PrunedExactly(z, old(store.View()), store.View(), now, retainMondayWeeks, deleted)
    ensures deleted + |FirstChunks(failed, chunks)| == |old(store.raw)| - |store.raw|
    ensures deleted < |old(store.raw)| - |store.raw| <==> failed != [] && chunks > 0
  {
    var cutoff := CutoffOf(z, now, retainMondayWeeks);
    ghost var db := store.View();
    ghost var gone: set<int> := {};
    DeleteNothing(db);
    deleted, failed, chunks := 0, [], 0;
    NothingFailed();
    err := store.Query();
    if err {
      Stopped(z, db, cutoff, db, gone, 0, [], 0);
      return;
    }
    var protected := ProtectedHashes(store.View());
    var lastID := 0;
    while true
      invariant Progress(z, db, cutoff, store.View(), gone, lastID)
      invariant deleted == |db.raw| - |store.raw|
      invariant failed == [] && chunks == 0
      invariant Grown(old(store.trouble), store.trouble) && (old(ctx.expired) ==> ctx.expired)
      decreases |RowsAfter(store.raw, lastID)|
    {
      err := ctx.Done();
      if !err {
        err := store.Query();
      }
      if err {
        Stopped(z, db, cutoff, store.View(), gone, lastID, [], 0);
        return;
      }
      var rows := ScanBatch(store.raw, lastID, SCAN_BATCH);
      var toDelete := SelectToDelete(z, rows, cutoff, protected);
      if toDelete == [] {
        AdvanceProgress(z, db, cutoff, store.View(), gone, lastID, rows);
        if rows == [] {
          PruneMeansIf(z, db, now, retainMondayWeeks, deleted);
          return;
        }
        lastID := rows[|rows| - 1].id;
      } else {
        ghost var before := store.View();
        var n, fails;
        ghost var k;
        n, fails, k := DeleteRawPacketIDs(ctx, store, toDelete);
        BatchDeleted(z, db, cutoff, before, gone, lastID, toDelete, k);
        gone := gone + FirstChunks(toDelete, k);
        if fails {
          err, failed, chunks := true, toDelete, k;
          return;
        }
        deleted := deleted + n;
      }
    }
  }

  /** What the loop knows after deleting some chunks of a batch's selection. */
  lemma BatchDeleted(z: Zone, db: DB, cutoff: int, before: DB, gone: set<int>, lastID: int, ids: seq<int>, k: nat)
    requires RawKeys(db) && Progress(z, db, cutoff, before, gone, lastID) && ids != []
    requires ids == ToDelete(z, ScanBatch(before.raw, lastID, SCAN_BATCH), cutoff, ProtectedHashes(db))
    ensures var after := DeleteRaw(before, FirstChunks(ids, k));
            && Progress(z, db, cutoff, after, gone + FirstChunks(ids, k), lastID)
            && StoppedEarly(z, db, cutoff, after, ids, k)
            && |before.raw| - |after.raw| == |FirstChunks(ids, k)|
            && (|FirstChunks(ids, k)| > 0 <==> k > 0)
            && (ChunkEnd(k, |ids|) == |ids| ==> |RowsAfter(after.raw, lastID)| < |RowsAfter(before.raw, lastID)|)
  {
    var rows := ScanBatch(before.raw, lastID, SCAN_BATCH);
    DeletedIsSubset(db, gone);
    ScanCovers(before.raw, lastID, SCAN_BATCH);
    DeleteProgress(z, db, cutoff, before, gone, lastID, rows, ChunkEnd(k, |ids|));
    SelectionDoomed(z, db, before, rows, cutoff, ProtectedHashes(db));
    ChunksCount(before, ids, k);
    Stopped(z, db, cutoff, DeleteRaw(before, FirstChunks(ids, k)), gone + FirstChunks(ids, k), lastID, ids, k);
  }

  /** Only doomed rows are gone, those of the failing call's completed chunks among them. */
  ghost predicate StoppedEarly(z: Zone, db: DB, cutoff: int, now: DB, failed: seq<int>, chunks: nat) {
    var doomed := DoomedIds(z, db, cutoff, ProtectedHashes(db));
    && IdSet(failed) <= doomed
    && exists gone :: FirstChunks(failed, chunks) <= gone <= doomed && now == DeleteRaw(db, gone)
  }

  lemma Stopped(z: Zone, db: DB, cutoff: int, now: DB, gone: set<int>, lastID: int, failed: seq<int>, chunks: nat)
    requires Progress(z, db, cutoff, now, gone, lastID)
    requires IdSet(failed) <= DoomedIds(z, db, cutoff, ProtectedHashes(db)) && FirstChunks(failed, chunks) <= gone
    ensures StoppedEarly(z, db, cutoff, now, failed, chunks)
  {
  }

  lemma NothingFailed()
    ensures IdSet([]) == {} && FirstChunks([], 0) == {}
  {
  }

  lemma ChunksCount(db: DB, ids: seq<int>, k: nat)
    requires RawKeys(db) && ids != [] && forall id | id in ids :: exists r :: r in db.raw && r.id == id
    ensures |db.raw| - |DeleteRaw(db, FirstChunks(ids, k)).raw| == |FirstChunks(ids, k)|
    ensures |FirstChunks(ids, k)| > 0 <==> k > 0
  {
    var n := ChunkEnd(k, |ids|);
    forall id | id in ids[..n] ensures id in ids {}
    RemovedCount(db.raw, FirstChunks(ids, k));
    if k > 0 {
      assert ids[0] in ids[..n];
      assert ids[0] in FirstChunks(ids, k);
    }
  }
}
