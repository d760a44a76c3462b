/** What holds in every schedule whatever, old check-ins in flight included. */
module Safety {
  import opened Wrappers
  import opened Calendar
  import opened Store
  import opened Ingest
  import opened Retention
  import opened Migration
  import opened Protocol

  // ----- Ids are never reused -----

  /** From a to b, ids below the counter of a were handed to no new row. */
  ghost predicate Grown(a: DB, b: DB) {
    a.nextRaw <= b.nextRaw && forall r | r in b.raw && r.id < a.nextRaw :: r in a.raw
  }

  lemma NextGrows(env: Env, s: State, l: Label)
    ensures Grown(s.db, Next(env, s, l).db)
  {
    if l.Advance? && l.pid in s.handlers && s.handlers[l.pid].pc.AtRaw? {
      var m := s.handlers[l.pid].msg;
      AppendedRow(s.db.raw, RawRow(s.db.nextRaw, m.hash, m.payload, m.iata, SecondOf(m.observedAt)));
    }
  }

  /** Over any run, from any state: a row whose id was already given out is the row that had it. */
  lemma {:induction false} IdsNeverReused(env: Env, s: State, labels: seq<Label>)
    ensures s.db.nextRaw <= Run(env, s, labels).db.nextRaw
    ensures forall r | r in Run(env, s, labels).db.raw && r.id < s.db.nextRaw :: r in s.db.raw
    decreases |labels|
  {
    if labels != [] {
      NextGrows(env, s, labels[0]);
      IdsNeverReused(env, Next(env, s, labels[0]), labels[1..]);
    }
  }

  // ----- Where rows and check-ins come from -----

  /** Rows come from handled messages, ... */
  lemma NextRows(env: Env, s: State, l: Label)
    ensures forall r | r in Next(env, s, l).db.raw ::
              r in s.db.raw || exists p :: p in s.handlers && IsRowOf(r, s.handlers[p].msg)
  {
    if l.Advance? && l.pid in s.handlers && s.handlers[l.pid].pc.AtRaw? {
      var m := s.handlers[l.pid].msg;
      AppendedRow(s.db.raw, RawRow(s.db.nextRaw, m.hash, m.payload, m.iata, SecondOf(m.observedAt)));
    }
  }

  /** ... and these from Begin. */
  lemma NextHandlers(env: Env, s: State, l: Label)
    ensures var t := Next(env, s, l);
            forall p | p in t.handlers ::
              (p in s.handlers && t.handlers[p].msg == s.handlers[p].msg) || (l.Begin? && t.handlers[p].msg == l.msg)
  {
  }

  lemma NextCheckins(env: Env, s: State, l: Label)
    ensures forall c | c in Next(env, s, l).db.checkins ::
              c in s.db.checkins
              || exists p, clock, id :: p in s.handlers && MsgLink(env, s.handlers[p].msg).Some?
                                        && c == MsgCheckin(env, s.handlers[p].msg, clock).(id := id)
  {
    if && l.Advance? && l.pid in s.handlers && s.handlers[l.pid].pc.AtCheckin?
       && MsgLink(env, s.handlers[l.pid].msg).Some?
    {
      var c := MsgCheckin(env, s.handlers[l.pid].msg, l.clock);
      AppendedRow(s.db.checkins, c.(id := s.db.nextCheckin));
    }
  }

  /** A handler that does not own a stored packet does not come to, and adds no check-in of it. */
  lemma StepMakesNoOwner(env: Env, db: DB, h: Handler, fails: bool, clock: int, hash: Hash)
    requires HasRaw(db, hash) && (Owner(env, h) ==> h.msg.hash != hash)
    ensures var step := StepHandler(env, db, h, fails, clock);
            && (step.next.Some? && Owner(env, step.next.value) ==> h.msg.hash != hash)
            && (step.next.Some? ==> step.next.value.msg == h.msg)
            && forall c | c in step.db.checkins :: c in db.checkins || c.hash != hash
  {
    if h.pc == AtCheckin && MsgLink(env, h.msg).Some? {
      AppendedRow(db.checkins, MsgCheckin(env, h.msg, clock).(id := db.nextCheckin));
    }
  }

  /** No handler is about to link or check in the packet. */
  ghost predicate Unowned(env: Env, s: State, hash: Hash) {
    forall p | p in s.handlers && Owner(env, s.handlers[p]) :: s.handlers[p].msg.hash != hash
  }

  ghost predicate StoredThroughout(env: Env, s: State, hash: Hash, labels: seq<Label>)
    decreases |labels|
  {
    HasRaw(s.db, hash) && (labels == [] || StoredThroughout(env, Next(env, s, labels[0]), hash, labels[1..]))
  }

  lemma NextUnowned(env: Env, s: State, l: Label, hash: Hash)
    requires HasRaw(s.db, hash) && Unowned(env, s, hash)
    ensures Unowned(env, Next(env, s, l), hash)
    ensures forall c | c in Next(env, s, l).db.checkins && c.hash == hash :: c in s.db.checkins
  {
    if l.Advance? && l.pid in s.handlers {
      StepMakesNoOwner(env, s.db, s.handlers[l.pid], l.fails, l.clock, hash);
    }
  }

  /** Once a packet is stored and nobody owns it, no schedule checks it in for as long as it stays
      stored, whatever is sent again. */
  lemma {:induction false} NeverCheckedInLater(env: Env, s: State, labels: seq<Label>, hash: Hash)
    requires Unowned(env, s, hash) && StoredThroughout(env, s, hash, labels)
    ensures forall c | c in Run(env, s, labels).db.checkins && c.hash == hash :: c in s.db.checkins
    decreases |labels|
  {
    if labels != [] {
      NextUnowned(env, s, labels[0], hash);
      NeverCheckedInLater(env, Next(env, s, labels[0]), labels[1..], hash);
    }
  }

  // ----- Keys and references -----

  lemma AttemptConsistent(db: DB, st: Statement, fails: bool)
    requires Consistent(db)
    ensures Consistent(Attempt(db, st, fails))
  {
    ApplyConsistent(db, st);
  }

  lemma AdvanceConsistent(env: Env, db: DB, h: Handler, fails: bool, clock: int)
    requires Consistent(db)
    ensures Consistent(StepHandler(env, db, h, fails, clock).db)
  {
    match h.pc
    case AtRaw => AttemptConsistent(db, RawStatement(h.msg), fails);
    case AtObs(_) => AttemptConsistent(db, ObsStatement(h.msg), fails);
    case AtLink =>
      if MsgLink(env, h.msg).Some? {
        AttemptConsistent(db, LinkStatement(env, h.msg), fails);
      }
    case AtCheckin =>
      if MsgLink(env, h.msg).Some? {
        AttemptConsistent(db, CheckinStatement(env, h.msg, clock), fails);
      }
  }

  lemma LinksConsistent(env: Env, db: DB, links: set<Link>)
    requires Consistent(db) && links <= db.links + DerivedLinks(env, db)
    ensures Consistent(db.(links := links))
  {
    forall l | l in links ensures HasRaw(db, l.hash) {
      if l !in db.links {
        var r :| r in db.raw && RowLink(env, r) == Some(l);
      }
    }
    assert forall h :: HasRaw(db.(links := links), h) == HasRaw(db, h);
  }

  lemma NextConsistent(env: Env, s: State, l: Label)
    requires Consistent(s.db)
    ensures Consistent(Next(env, s, l).db)
  {
    match l
    case Advance(pid, fails, clock) =>
      if pid in s.handlers {
        AdvanceConsistent(env, s.db, s.handlers[pid], fails, clock);
      }
    case PruneDelete =>
      if s.pruner.Deleting? {
        DeleteConsistent(s.db, IdSet(ChunkOf(s.pruner.pending)));
      }
    case MigrateSchema =>
      if Quiet(s) {
        MigrateEstablishesIndex(s.db);
      }
    case RestoreLinks(skipped) =>
      LinksConsistent(env, s.db, s.db.links + set l | l in DerivedLinks(env, s.db) && l.hash !in skipped);
    case _ =>
  }

  /** In every run: at most one check-in per packet and per week and user, and every link, check-in
      and observation refers to a stored packet. */
  lemma {:induction false} RunConsistent(env: Env, s: State, labels: seq<Label>)
    requires Consistent(s.db)
    ensures Consistent(Run(env, s, labels).db)
    decreases |labels|
  {
    if labels != [] {
      NextConsistent(env, s, labels[0]);
      RunConsistent(env, Next(env, s, labels[0]), labels[1..]);
    }
  }

  // ----- A prune with other steps in between -----

  /** However stale the snapshot, rows up to lastID are retained. */
  ghost predicate ScanSafe(env: Env, db: DB, cutoff: int, protected: set<Hash>, lastID: int) {
    lastID < db.nextRaw && forall r | r in db.raw && r.id <= lastID :: ShouldRetain(env.zone, r, cutoff, protected)
  }

  /** An id waiting to be deleted still names the row that was scanned, or none. */
  ghost predicate PendingSafe(env: Env, db: DB, cutoff: int, protected: set<Hash>, pending: seq<int>) {
    && (forall id | id in pending :: id < db.nextRaw)
    && (forall r | r in db.raw && r.id in pending :: !ShouldRetain(env.zone, r, cutoff, protected))
  }

  ghost predicate PruneCovered(env: Env, db: DB, p: Pruner) {
    match p
    case Idle => true
    case Scanning(cutoff, protected, lastID) => ScanSafe(env, db, cutoff, protected, lastID)
    case Deleting(cutoff, protected, lastID, pending) =>
      ScanSafe(env, db, cutoff, protected, lastID) && PendingSafe(env, db, cutoff, protected, pending)
  }

  ghost predicate Covered(env: Env, s: State) {
    RawKeys(s.db) && PruneCovered(env, s.db, s.pruner)
  }

  ghost predicate Safe(env: Env, s: State) {
    Consistent(s.db) && Covered(env, s)
  }

  lemma GrownCovered(env: Env, a: DB, b: DB, p: Pruner)
    requires Grown(a, b) && PruneCovered(env, a, p)
    ensures PruneCovered(env, b, p)
  {
  }

  /** The selected ids are those of the batch's rejected rows, and of no other stored row. */
  lemma SelectionIsRejected(env: Env, db: DB, cutoff: int, protected: set<Hash>, lastID: int)
    requires RawKeys(db)
    ensures var batch := ScanBatch(db.raw, lastID, SCAN_BATCH);
            var ids := ToDelete(env.zone, batch, cutoff, protected);
            PendingSafe(env, db, cutoff, protected, ids)
            && forall r | r in db.raw && r.id in ids :: r in batch
  {
    var batch := ScanBatch(db.raw, lastID, SCAN_BATCH);
    var ids := ToDelete(env.zone, batch, cutoff, protected);
    ScanCovers(db.raw, lastID, SCAN_BATCH);
    ToDeleteIds(env.zone, batch, cutoff, protected);
    forall r | r in db.raw && r.id in ids ensures r in batch && !ShouldRetain(env.zone, r, cutoff, protected) {
      var q :| q in batch && q.id == r.id && !ShouldRetain(env.zone, q, cutoff, protected);
      SameIdSameRow(db, r, q);
    }
  }

  lemma ScanCovered(env: Env, s: State)
    requires Covered(env, s) && s.pruner.Scanning?
    ensures Covered(env, ScanStep(env, s))
  {
    var p := s.pruner;
    var batch := ScanBatch(s.db.raw, p.lastID, SCAN_BATCH);
    var ids := ToDelete(env.zone, batch, p.cutoff, p.protected);
    ScanCovers(s.db.raw, p.lastID, SCAN_BATCH);
    ToDeleteIds(env.zone, batch, p.cutoff, p.protected);
    SelectionIsRejected(env, s.db, p.cutoff, p.protected, p.lastID);
    if batch != [] && ids == [] {
      var last := batch[|batch| - 1];
      assert last in batch;
      forall r | r in s.db.raw && r.id <= last.id ensures ShouldRetain(env.zone, r, p.cutoff, p.protected) {
        if r.id > p.lastID {
          assert r in batch && r.id !in ids;
        }
      }
    }
  }

  lemma DeleteCovered(env: Env, s: State)
    requires Covered(env, s) && s.pruner.Deleting?
    ensures PruneCovered(env, DeleteStep(s).db, DeleteStep(s).pruner)
  {
    var p, t := s.pruner, DeleteStep(s);
    forall id | id in p.pending[|ChunkOf(p.pending)|..] ensures id in p.pending {}
  }

  lemma NextSafe(env: Env, s: State, l: Label)
    requires Safe(env, s)
    ensures Safe(env, Next(env, s, l))
  {
    NextConsistent(env, s, l);
    NextGrows(env, s, l);
    GrownCovered(env, s.db, Next(env, s, l).db, s.pruner);
    if l.PruneScan? && s.pruner.Scanning? {
      ScanCovered(env, s);
    }
    if l.PruneDelete? && s.pruner.Deleting? {
      DeleteCovered(env, s);
    }
  }

  lemma {:induction false} RunSafe(env: Env, s: State, labels: seq<Label>)
    requires Safe(env, s)
    ensures Safe(env, Run(env, s, labels))
    decreases |labels|
  {
    if labels != [] {
      NextSafe(env, s, labels[0]);
      RunSafe(env, Next(env, s, labels[0]), labels[1..]);
    }
  }

  /** When a prune finds nothing more to scan, every stored row, those inserted meanwhile included,
      is one its predicate retains. */
  lemma PruneLeavesOnlyRetained(env: Env, labels: seq<Label>)
    ensures var s := Run(env, START, labels);
            s.pruner.Scanning? && ScanStep(env, s).pruner.Idle? ==>
              forall r | r in s.db.raw :: ShouldRetain(env.zone, r, s.pruner.cutoff, s.pruner.protected)
  {
    var s := Run(env, START, labels);
    RunSafe(env, START, labels);
    if s.pruner.Scanning? {
      ScanCovers(s.db.raw, s.pruner.lastID, SCAN_BATCH);
    }
  }

  // ----- What is deleted is what was scanned -----

  /** The prune of t is deleting what its scan at s selected. */
  ghost predicate SelectedAt(env: Env, s: State, t: State) {
    && t.pruner.Deleting?
    && s.pruner == Scanning(t.pruner.cutoff, t.pruner.protected, t.pruner.lastID)
    && var batch := ScanBatch(s.db.raw, s.pruner.lastID, SCAN_BATCH);
       forall id | id in t.pruner.pending :: id in ToDelete(env.zone, batch, s.pruner.cutoff, s.pruner.protected)
  }

  lemma NextSelected(env: Env, s: State, l: Label)
    requires Next(env, s, l).pruner.Deleting?
    ensures s.pruner.Scanning? ==> l == PruneScan && SelectedAt(env, s, Next(env, s, l))
    ensures !s.pruner.Scanning? ==> s.pruner.Deleting?
    ensures forall before | SelectedAt(env, before, s) :: SelectedAt(env, before, Next(env, s, l))
  {
  }

  lemma RunSnoc(env: Env, s: State, labels: seq<Label>, l: Label)
    ensures Run(env, s, labels + [l]) == Next(env, Run(env, s, labels), l)
  {
    RunConcat(env, s, labels, [l]);
    assert [l] == [l] + [];
    RunStep(env, Run(env, s, labels), l, []);
  }

  /** The step at which the pending ids were selected. */
  lemma {:induction false} PendingSelected(env: Env, s: State, labels: seq<Label>) returns (k: nat)
    requires s.pruner.Idle? && Run(env, s, labels).pruner.Deleting?
    ensures k < |labels| && labels[k] == PruneScan
    ensures SelectedAt(env, Run(env, s, labels[..k]), Run(env, s, labels))
    decreases |labels|
  {
    var n := |labels| - 1;
    var mid := Run(env, s, labels[..n]);
    assert labels == labels[..n] + [labels[n]];
    RunSnoc(env, s, labels[..n], labels[n]);
    NextSelected(env, mid, labels[n]);
    if mid.pruner.Scanning? {
      k := n;
    } else {
      k := PendingSelected(env, s, labels[..n]);
      assert labels[..n][..k] == labels[..k];
    }
  }

  lemma SelectedWasScanned(env: Env, s: State, t: State)
    requires RawKeys(s.db) && Grown(s.db, t.db) && SelectedAt(env, s, t)
    ensures forall r | r in t.db.raw && r.id in t.pruner.pending ::
              && r in s.db.raw && r in ScanBatch(s.db.raw, s.pruner.lastID, SCAN_BATCH)
              && !ShouldRetain(env.zone, r, s.pruner.cutoff, s.pruner.protected)
  {
    SelectionIsRejected(env, s.db, s.pruner.cutoff, s.pruner.protected, s.pruner.lastID);
  }

  /** Whatever was inserted and deleted since, the rows a prune is about to delete are the very
      rows it scanned. */
  lemma PendingWasScanned(env: Env, labels: seq<Label>) returns (k: nat)
    requires Run(env, START, labels).pruner.Deleting?
    ensures k < |labels| && labels[k] == PruneScan
    ensures var s, t := Run(env, START, labels[..k]), Run(env, START, labels);
            && SelectedAt(env, s, t)
            && forall r | r in t.db.raw && r.id in t.pruner.pending ::
                 && r in s.db.raw && r in ScanBatch(s.db.raw, s.pruner.lastID, SCAN_BATCH)
                 && !ShouldRetain(env.zone, r, s.pruner.cutoff, s.pruner.protected)
  {
    k := PendingSelected(env, START, labels);
    var s, t := Run(env, START, labels[..k]), Run(env, START, labels);
    RunSafe(env, START, labels[..k]);
    RunConcat(env, START, labels[..k], labels[k..]);
    assert labels == labels[..k] + labels[k..];
    IdsNeverReused(env, s, labels[k..]);
    SelectedWasScanned(env, s, t);
  }

  /** So a row removed by a delete step was in the table, and rejected, at the scan that selected it. */
  lemma DeletesOnlyScanned(env: Env, labels: seq<Label>) returns (k: nat)
    requires Run(env, START, labels).pruner.Deleting?
    ensures k < |labels| && labels[k] == PruneScan
    ensures var s, t := Run(env, START, labels[..k]), Run(env, START, labels);
            && SelectedAt(env, s, t)
            && forall r | r in t.db.raw && r !in DeleteStep(t).db.raw ::
                 && r in s.db.raw && r in ScanBatch(s.db.raw, s.pruner.lastID, SCAN_BATCH)
                 && !ShouldRetain(env.zone, r, s.pruner.cutoff, s.pruner.protected)
  {
    k := PendingWasScanned(env, labels);
    var t := Run(env, START, labels);
    forall id | id in ChunkOf(t.pruner.pending) ensures id in t.pruner.pending {}
  }
}
