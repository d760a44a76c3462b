/** Prune steps with nothing in between. */
module PruneRuns {
  import opened Calendar
  import opened Store
  import opened Ingest
  import opened Retention
  import opened Protocol
  import opened Safety

  ghost predicate PruneOnly(labels: seq<Label>) {
    forall l | l in labels :: l.PruneScan? || l.PruneDelete?
  }

  lemma PrependLabel(env: Env, s: State, l: Label, rest: seq<Label>)
    requires PruneOnly(rest) && (l == PruneScan || l == PruneDelete)
    ensures PruneOnly([l] + rest) && Run(env, s, [l] + rest) == Run(env, Next(env, s, l), rest)
  {
    RunStep(env, s, l, rest);
  }

  /** Chunk by chunk, all pending ids are deleted and the scan resumes where it was. */
  lemma {:induction false} DeletesAll(env: Env, s: State) returns (labels: seq<Label>)
    requires s.pruner.Deleting?
    ensures PruneOnly(labels)
    ensures Run(env, s, labels) ==
            s.(db := DeleteRaw(s.db, IdSet(s.pruner.pending)),
               pruner := Scanning(s.pruner.cutoff, s.pruner.protected, s.pruner.lastID))
    decreases |s.pruner.pending|
  {
    var pending := s.pruner.pending;
    var chunk := ChunkOf(pending);
    var rest := pending[|chunk|..];
    var t := Next(env, s, PruneDelete);
    assert pending == chunk + rest;
    assert IdSet(pending) == IdSet(chunk) + IdSet(rest);
    DeleteTwice(s.db, IdSet(chunk), IdSet(rest));
    if rest == [] {
      DeleteNothing(t.db);
      assert IdSet(rest) == {};
      labels := [];
    } else {
      labels := DeletesAll(env, t);
    }
    PrependLabel(env, s, PruneDelete, labels);
    labels := [PruneDelete] + labels;
  }

  lemma ScanResult(env: Env, s: State)
    requires s.pruner.Scanning?
    ensures var p := s.pruner;
            var batch := ScanBatch(s.db.raw, p.lastID, SCAN_BATCH);
            var ids := ToDelete(env.zone, batch, p.cutoff, p.protected);
            Next(env, s, PruneScan) == s.(pruner :=
              if batch == [] then Idle
              else if ids == [] then Scanning(p.cutoff, p.protected, batch[|batch| - 1].id)
              else Deleting(p.cutoff, p.protected, p.lastID, ids))
  {
  }

  /** The table a prune at s will leave: every rejected row gone, and no other. */
  function Finished(env: Env, s: State): DB
    requires !s.pruner.Idle?
  {
    DeleteRaw(s.db, DoomedIds(env.zone, s.db, s.pruner.cutoff, s.pruner.protected))
  }

  lemma NothingLeft(env: Env, s: State)
    requires Covered(env, s) && s.pruner.Scanning? && ScanBatch(s.db.raw, s.pruner.lastID, SCAN_BATCH) == []
    ensures Finished(env, s) == s.db
  {
    ScanCovers(s.db.raw, s.pruner.lastID, SCAN_BATCH);
    assert DoomedIds(env.zone, s.db, s.pruner.cutoff, s.pruner.protected) == {};
    DeleteNothing(s.db);
  }

  ghost predicate Selected(env: Env, s: State, ids: seq<int>)
    requires s.pruner.Scanning?
  {
    && ids != []
    && var batch := ScanBatch(s.db.raw, s.pruner.lastID, SCAN_BATCH);
       ids == ToDelete(env.zone, batch, s.pruner.cutoff, s.pruner.protected)
  }

  lemma SelectionAhead(env: Env, s: State, ids: seq<int>) returns (r: RawRow)
    requires Covered(env, s) && s.pruner.Scanning? && Selected(env, s, ids)
    ensures r in s.db.raw && r.id in ids && s.pruner.lastID < r.id
    ensures IdSet(ids) <= DoomedIds(env.zone, s.db, s.pruner.cutoff, s.pruner.protected)
  {
    var batch, first := ScanBatch(s.db.raw, s.pruner.lastID, SCAN_BATCH), ids[0];
    ScanCovers(s.db.raw, s.pruner.lastID, SCAN_BATCH);
    SelectionDoomed(env.zone, s.db, s.db, batch, s.pruner.cutoff, s.pruner.protected);
    ToDeleteIds(env.zone, batch, s.pruner.cutoff, s.pruner.protected);
    assert first in ids;
    r :| r in batch && r.id == first;
  }

  lemma DoomedLeft(z: Zone, db: DB, cutoff: int, protected: set<Hash>, ids: set<int>)
    requires RawKeys(db) && ids <= DoomedIds(z, db, cutoff, protected)
    ensures DoomedIds(z, db, cutoff, protected) == ids + DoomedIds(z, DeleteRaw(db, ids), cutoff, protected)
  {
    DeletedIsSubset(db, ids);
  }

  /** Deleting a selection first changes nothing about the end. */
  lemma SelectionFirst(env: Env, s: State, ids: seq<int>)
    requires Covered(env, s) && s.pruner.Scanning? && Selected(env, s, ids)
    ensures var t := s.(db := DeleteRaw(s.db, IdSet(ids)));
            && Covered(env, t)
            && Finished(env, t) == Finished(env, s)
            && |RowsAfter(t.db.raw, t.pruner.lastID)| < |RowsAfter(s.db.raw, s.pruner.lastID)|
  {
    var p, after := s.pruner, DeleteRaw(s.db, IdSet(ids));
    var r := SelectionAhead(env, s, ids);
    FewerAfterDelete(s.db, IdSet(ids), p.lastID, r);
    DoomedLeft(env.zone, s.db, p.cutoff, p.protected, IdSet(ids));
    DeleteTwice(s.db, IdSet(ids), DoomedIds(env.zone, after, p.cutoff, p.protected));
    DeletedIsSubset(s.db, IdSet(ids));
  }

  lemma OnTo(env: Env, s: State)
    requires Covered(env, s) && s.pruner.Scanning? && ScanBatch(s.db.raw, s.pruner.lastID, SCAN_BATCH) != []
    ensures var batch := ScanBatch(s.db.raw, s.pruner.lastID, SCAN_BATCH);
            |RowsAfter(s.db.raw, batch[|batch| - 1].id)| < |RowsAfter(s.db.raw, s.pruner.lastID)|
  {
    var batch := ScanBatch(s.db.raw, s.pruner.lastID, SCAN_BATCH);
    ScanCovers(s.db.raw, s.pruner.lastID, SCAN_BATCH);
    assert batch[|batch| - 1] in batch;
    FewerAfter(s.db.raw, s.pruner.lastID, batch[|batch| - 1].id, batch[|batch| - 1]);
  }

  /** From wherever a scan stands, and however stale its snapshot, prune steps alone come to an
      end, and every rejected row is then gone. */
  lemma {:induction false} ScanFinishes(env: Env, s: State) returns (labels: seq<Label>)
    requires Covered(env, s) && s.pruner.Scanning?
    ensures PruneOnly(labels)
    ensures Run(env, s, labels) == s.(db := Finished(env, s), pruner := Idle)
    decreases |RowsAfter(s.db.raw, s.pruner.lastID)|
  {
    var batch := ScanBatch(s.db.raw, s.pruner.lastID, SCAN_BATCH);
    var ids := ToDelete(env.zone, batch, s.pruner.cutoff, s.pruner.protected);
    var t := Next(env, s, PruneScan);
    ScanResult(env, s);
    ScanCovered(env, s);
    labels := [];
    if batch == [] {
      NothingLeft(env, s);
    } else if ids == [] {
      OnTo(env, s);
      labels := ScanFinishes(env, t);
    } else {
      SelectionFirst(env, s, ids);
      var deletes := DeletesAll(env, t);
      var u := Run(env, t, deletes);
      labels := ScanFinishes(env, u);
      RunConcat(env, t, deletes, labels);
      labels := deletes + labels;
    }
    PrependLabel(env, s, PruneScan, labels);
    labels := [PruneScan] + labels;
  }

  /** A whole prune, with nothing in between, leaves what PruneRawPackets leaves. */
  lemma PruneIsRun(env: Env, s: State, now: int, weeks: nat) returns (labels: seq<Label>)
    requires RawKeys(s.db) && s.pruner.Idle?
    ensures PruneOnly(labels)
    ensures Run(env, s, [PruneStart(now, weeks)] + labels) ==
            s.(db := Pruned(env.zone, s.db, CutoffOf(env.zone, now, weeks)))
  {
    var t := Next(env, s, PruneStart(now, weeks));
    labels := ScanFinishes(env, t);
    RunStep(env, s, PruneStart(now, weeks), labels);
  }

  /** Prune steps leave handlers alone, and add nothing. */
  lemma {:induction false} PruneOnlyRemoves(env: Env, s: State, labels: seq<Label>)
    requires PruneOnly(labels)
    ensures var t := Run(env, s, labels);
            && t.handlers == s.handlers && t.faulted == s.faulted
            && (forall r | r in t.db.raw :: r in s.db.raw)
            && (forall c | c in t.db.checkins :: c in s.db.checkins)
    decreases |labels|
  {
    if labels != [] {
      assert labels[0] in labels && PruneOnly(labels[1..]);
      PruneOnlyRemoves(env, Next(env, s, labels[0]), labels[1..]);
    }
  }
}
