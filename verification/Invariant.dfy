/** What every step of the protocol keeps while check-ins in flight are recent. */
module Invariant {
  import opened Wrappers
  import opened Calendar
  import opened Store
  import opened Ingest
  import opened Retention
  import opened Migration
  import opened Protocol
  import opened Safety
  import opened Grounding

  // ----- The inductive invariant -----

  /** However stale the snapshot, the row of everything linked or checked in since is retained. */
  ghost predicate LinkedRetained(env: Env, db: DB, p: Pruner) {
    !p.Idle? ==> forall r | r in db.raw && r.hash in ProtectedHashes(db) ::
      ShouldRetain(env.zone, r, p.cutoff, p.protected)
  }

  predicate WillLink(env: Env, h: Handler, l: Link) {
    (h.pc == AtObs(true) || h.pc == AtLink) && MsgLink(env, h.msg) == Some(l)
  }

  predicate WillCheckIn(env: Env, h: Handler, l: Link) {
    h.pc == AtCheckin && MsgLink(env, h.msg) == Some(l)
  }

  ghost predicate LinkOnItsWay(env: Env, handlers: map<nat, Handler>, l: Link) {
    exists p :: p in handlers && WillLink(env, handlers[p], l)
  }

  ghost predicate CheckinOnItsWay(env: Env, handlers: map<nat, Handler>, l: Link) {
    exists p :: p in handlers && WillCheckIn(env, handlers[p], l)
  }

  /** Nothing is missing but what a running handler is about to insert. */
  ghost predicate Complete(env: Env, db: DB, handlers: map<nat, Handler>) {
    && (forall l | l in DerivedLinks(env, db) :: l in db.links || LinkOnItsWay(env, handlers, l))
    && (forall l | l in db.links :: HasCheckin(db, l.week, l.username) || CheckinOnItsWay(env, handlers, l))
  }

  /** Beyond Grounded: every owner has its row, what is linked is retained, and nothing is missing. */
  ghost predicate Accounted(env: Env, s: State) {
    && RowsStand(env, s.db, s.handlers)
    && LinkedRetained(env, s.db, s.pruner)
    && (!s.faulted ==> Complete(env, s.db, s.handlers))
  }

  ghost predicate Inv(env: Env, s: State) {
    Safe(env, s) && Grounded(env, s) && Accounted(env, s)
  }

  /** The snapshot lacks the packet and its week lies before the cutoff. */
  predicate Late(env: Env, s: State, m: Msg)
    requires !s.pruner.Idle?
  {
    m.hash !in s.pruner.protected && NanoWeekStart(env.zone, m.observedAt) < s.pruner.cutoff
  }

  /** No check-in in flight is late for the running prune. */
  ghost predicate Recent(env: Env, s: State) {
    s.pruner.Idle? || forall p | p in s.handlers && Owner(env, s.handlers[p]) :: !Late(env, s, s.handlers[p].msg)
  }

  ghost predicate RecentThroughout(env: Env, s: State, labels: seq<Label>)
    decreases |labels|
  {
    Recent(env, s) && (labels == [] || RecentThroughout(env, Next(env, s, labels[0]), labels[1..]))
  }

  /** What the rest of the system relies on: check-ins and links stay, and so does every
      observation of a linked packet. */
  ghost predicate Keeps(a: DB, b: DB) {
    && a.links <= b.links
    && (forall c | c in a.checkins :: c in b.checkins)
    && (forall l, o | l in a.links && Obs(l.hash, o) in a.obs :: Obs(l.hash, o) in b.obs)
  }

  // ----- Each step keeps it -----

  lemma OwnerRow(env: Env, s: State, pid: nat) returns (r: RawRow)
    requires Inv(env, s) && pid in s.handlers && Owner(env, s.handlers[pid])
    ensures r in s.db.raw && IsRowOf(r, s.handlers[pid].msg)
    ensures RowLink(env, r) == MsgLink(env, s.handlers[pid].msg)
    ensures RowLink(env, r).value in DerivedLinks(env, s.db)
    ensures HasRaw(s.db, r.hash)
    ensures Recent(env, s) && !s.pruner.Idle? ==> ShouldRetain(env.zone, r, s.pruner.cutoff, s.pruner.protected)
  {
    r := OwnerStands(env, s, pid);
    RowLinkIsMsgLink(env, r, s.handlers[pid].msg);
  }

  /** What the other handlers have on their way, they still have. */
  lemma OthersKeep(env: Env, a: map<nat, Handler>, b: map<nat, Handler>, pid: nat)
    requires forall p | p in a && p != pid :: p in b && b[p] == a[p]
    ensures forall l | LinkOnItsWay(env, a, l) :: LinkOnItsWay(env, b, l) || (pid in a && WillLink(env, a[pid], l))
    ensures forall l | CheckinOnItsWay(env, a, l) ::
              CheckinOnItsWay(env, b, l) || (pid in a && WillCheckIn(env, a[pid], l))
  {
  }

  lemma CompleteAfterRaw(env: Env, db: DB, after: DB, handlers: map<nat, Handler>, pid: nat, m: Msg)
    requires Complete(env, db, handlers) && pid in handlers && handlers[pid].pc == AtRaw
    requires after.links == db.links && after.checkins == db.checkins
    requires forall l | l in DerivedLinks(env, after) :: l in DerivedLinks(env, db) || MsgLink(env, m) == Some(l)
    ensures Complete(env, after, handlers[pid := Handler(m, AtObs(true))])
  {
    var next := handlers[pid := Handler(m, AtObs(true))];
    OthersKeep(env, handlers, next, pid);
    MoreCheckins(db, after);
    forall l | l in DerivedLinks(env, after) ensures l in db.links || LinkOnItsWay(env, next, l) {
      if l !in DerivedLinks(env, db) {
        assert WillLink(env, next[pid], l);
      }
    }
  }

  lemma AdvanceRawKeeps(env: Env, s: State, pid: nat, clock: int)
    requires Inv(env, s) && pid in s.handlers && s.handlers[pid].pc == AtRaw
    requires !HasRaw(s.db, s.handlers[pid].msg.hash)
    ensures Accounted(env, AdvanceHandler(env, s, pid, false, clock))
  {
    var m := s.handlers[pid].msg;
    var t := AdvanceHandler(env, s, pid, false, clock);
    var row := StoreFreshRow(env, s.db, m);
    assert ProtectedHashes(t.db) == ProtectedHashes(s.db);
    assert m.hash !in ProtectedHashes(s.db);
    assert row in t.db.raw && IsRowOf(row, m);
    if !t.faulted {
      CompleteAfterRaw(env, s.db, t.db, s.handlers, pid, m);
    }
  }

  /** A handler that owns nothing before or after. */
  lemma IdleHandlerKeeps(env: Env, s: State, pid: nat, handlers: map<nat, Handler>)
    requires Inv(env, s)
    requires pid in s.handlers ==> s.handlers[pid].pc == AtRaw
    requires pid in handlers ==> handlers[pid].pc == AtRaw || handlers[pid].pc == AtObs(false)
    requires forall p | p in s.handlers && p != pid :: p in handlers && handlers[p] == s.handlers[p]
    requires forall p | p in handlers && p != pid :: p in s.handlers && handlers[p] == s.handlers[p]
    ensures Accounted(env, s.(handlers := handlers))
  {
    OthersKeep(env, s.handlers, handlers, pid);
  }

  lemma CompleteAfterObs(env: Env, db: DB, after: DB, handlers: map<nat, Handler>, next: map<nat, Handler>, pid: nat)
    requires Complete(env, db, handlers) && pid in handlers && handlers[pid].pc.AtObs?
    requires after == db.(obs := after.obs)
    requires forall p | p in handlers && p != pid :: p in next && next[p] == handlers[p]
    requires Owner(env, handlers[pid]) ==> pid in next && next[pid] == handlers[pid].(pc := AtLink)
    ensures Complete(env, after, next)
  {
    OthersKeep(env, handlers, next, pid);
    MoreCheckins(db, after);
    assert DerivedLinks(env, after) == DerivedLinks(env, db);
    forall l | WillLink(env, handlers[pid], l) ensures LinkOnItsWay(env, next, l) {
      assert WillLink(env, next[pid], l);
    }
  }

  lemma AdvanceObsKeeps(env: Env, s: State, pid: nat, fails: bool, clock: int)
    requires Inv(env, s) && pid in s.handlers && s.handlers[pid].pc.AtObs?
    ensures Accounted(env, AdvanceHandler(env, s, pid, fails, clock))
  {
    var t := AdvanceHandler(env, s, pid, fails, clock);
    assert t.db == s.db.(obs := t.db.obs);
    assert ProtectedHashes(t.db) == ProtectedHashes(s.db);
    if !t.faulted {
      CompleteAfterObs(env, s.db, t.db, s.handlers, t.handlers, pid);
    }
  }

  /** Linking or checking in a retained row keeps the snapshot safe. */
  lemma PruneAfterInsert(env: Env, db: DB, after: DB, p: Pruner, r: RawRow)
    requires RawKeys(db) && LinkedRetained(env, db, p) && r in db.raw && after.raw == db.raw
    requires ProtectedHashes(after) <= ProtectedHashes(db) + {r.hash}
    requires !p.Idle? ==> ShouldRetain(env.zone, r, p.cutoff, p.protected)
    ensures LinkedRetained(env, after, p)
  {
  }

  lemma CompleteAfterLink(env: Env, db: DB, after: DB, handlers: map<nat, Handler>, pid: nat, l: Link)
    requires Complete(env, db, handlers) && pid in handlers && WillLink(env, handlers[pid], l)
    requires after == db.(links := db.links + {l})
    ensures Complete(env, after, handlers[pid := handlers[pid].(pc := AtCheckin)])
  {
    var next := handlers[pid := handlers[pid].(pc := AtCheckin)];
    OthersKeep(env, handlers, next, pid);
    MoreCheckins(db, after);
    assert WillCheckIn(env, next[pid], l);
    assert DerivedLinks(env, after) == DerivedLinks(env, db);
  }

  lemma AdvanceLinkKeeps(env: Env, s: State, pid: nat, fails: bool, clock: int)
    requires Inv(env, s) && Recent(env, s) && pid in s.handlers && s.handlers[pid].pc == AtLink
    ensures Accounted(env, AdvanceHandler(env, s, pid, fails, clock))
    ensures Keeps(s.db, AdvanceHandler(env, s, pid, fails, clock).db)
  {
    var m := s.handlers[pid].msg;
    var t := AdvanceHandler(env, s, pid, fails, clock);
    var r := OwnerRow(env, s, pid);
    var l := MsgLink(env, m).value;
    LinkAttempted(env, s.db, m, fails);
    assert ProtectedHashes(t.db) <= ProtectedHashes(s.db) + {r.hash};
    PruneAfterInsert(env, s.db, t.db, s.pruner, r);
    if !t.faulted {
      CompleteAfterLink(env, s.db, t.db, s.handlers, pid, l);
    }
  }

  lemma CompleteAfterCheckin(env: Env, db: DB, after: DB, handlers: map<nat, Handler>, pid: nat, l: Link)
    requires Complete(env, db, handlers) && pid in handlers && WillCheckIn(env, handlers[pid], l)
    requires after.raw == db.raw && after.links == db.links && forall c | c in db.checkins :: c in after.checkins
    requires HasCheckin(after, l.week, l.username)
    ensures Complete(env, after, handlers - {pid})
  {
    OthersKeep(env, handlers, handlers - {pid}, pid);
    MoreCheckins(db, after);
    assert DerivedLinks(env, after) == DerivedLinks(env, db);
  }

  lemma AdvanceCheckinKeeps(env: Env, s: State, pid: nat, fails: bool, clock: int)
    requires Inv(env, s) && Recent(env, s) && pid in s.handlers && s.handlers[pid].pc == AtCheckin
    ensures Accounted(env, AdvanceHandler(env, s, pid, fails, clock))
    ensures Keeps(s.db, AdvanceHandler(env, s, pid, fails, clock).db)
  {
    var m := s.handlers[pid].msg;
    var t := AdvanceHandler(env, s, pid, fails, clock);
    var r := OwnerRow(env, s, pid);
    var c := CheckinInserted(env, s.db, m, r, fails, clock);
    assert ProtectedHashes(t.db) <= ProtectedHashes(s.db) + {r.hash};
    PruneAfterInsert(env, s.db, t.db, s.pruner, r);
    if !t.faulted {
      CheckinLands(s.db, MsgCheckin(env, m, clock));
      CompleteAfterCheckin(env, s.db, t.db, s.handlers, pid, MsgLink(env, m).value);
    }
  }

  lemma MoreCheckins(a: DB, b: DB)
    requires forall c | c in a.checkins :: c in b.checkins
    ensures forall w, u :: HasCheckin(a, w, u) ==> HasCheckin(b, w, u)
  {
  }

  lemma AdvanceKeeps(env: Env, s: State, pid: nat, fails: bool, clock: int)
    requires Inv(env, s) && Recent(env, s) && pid in s.handlers
    ensures var t := AdvanceHandler(env, s, pid, fails, clock); Accounted(env, t) && Keeps(s.db, t.db)
  {
    var h := s.handlers[pid];
    match h.pc {
      case AtRaw =>
        if fails || HasRaw(s.db, h.msg.hash) {
          IdleHandlerKeeps(env, s, pid, AdvanceHandler(env, s, pid, fails, clock).handlers);
        } else {
          AdvanceRawKeeps(env, s, pid, clock);
        }
      case AtObs(_) => AdvanceObsKeeps(env, s, pid, fails, clock);
      case AtLink => AdvanceLinkKeeps(env, s, pid, fails, clock);
      case AtCheckin => AdvanceCheckinKeeps(env, s, pid, fails, clock);
    }
  }

  /** The heart of the matter: the cascade of a delete decided on long ago reaches no link and no
      check-in, not even those inserted since. */
  lemma DeleteMissesCheckins(env: Env, s: State)
    requires Inv(env, s) && s.pruner.Deleting?
    ensures var t := DeleteStep(s);
            && t.db.links == s.db.links && t.db.checkins == s.db.checkins
            && (forall r :: r in t.db.raw <==> r in s.db.raw && r.id !in ChunkOf(s.pruner.pending))
            && (forall r :: r in s.db.raw && r.hash in ProtectedHashes(s.db) ==> r in t.db.raw)
            && Keeps(s.db, t.db)
  {
    var p := s.pruner;
    var ids := IdSet(ChunkOf(p.pending));
    forall id | id in ids ensures id in p.pending {}
    forall h | h in GoneHashes(s.db, ids) ensures h !in ProtectedHashes(s.db) {
      var r :| r in s.db.raw && r.id in ids && r.hash == h;
      assert !ShouldRetain(env.zone, r, p.cutoff, p.protected);
    }
    UnlinkedDeleteKeepsCheckins(s.db, ids);
  }

  lemma RowsAfterDelete(env: Env, s: State, after: DB)
    requires Inv(env, s) && Recent(env, s) && s.pruner.Deleting?
    requires forall r | r in s.db.raw && r.id !in s.pruner.pending :: r in after.raw
    ensures RowsStand(env, after, s.handlers)
  {
    forall pid | pid in s.handlers && Owner(env, s.handlers[pid])
      ensures exists r :: r in after.raw && IsRowOf(r, s.handlers[pid].msg)
    {
      var r := OwnerRow(env, s, pid);
      assert r in after.raw;
    }
  }

  lemma DeleteKeeps(env: Env, s: State)
    requires Inv(env, s) && Recent(env, s) && s.pruner.Deleting?
    ensures Accounted(env, DeleteStep(s)) && Keeps(s.db, DeleteStep(s).db)
  {
    var p := s.pruner;
    var t := DeleteStep(s);
    var chunk := ChunkOf(p.pending);
    DeleteMissesCheckins(env, s);
    forall id | id in chunk ensures id in p.pending {}
    RowsAfterDelete(env, s, t.db);
    assert ProtectedHashes(t.db) == ProtectedHashes(s.db);
    if !t.faulted {
      MoreCheckins(s.db, t.db);
      assert DerivedLinks(env, t.db) <= DerivedLinks(env, s.db);
    }
  }

  lemma MigrateKeeps(env: Env, s: State)
    requires Inv(env, s) && Quiet(s)
    ensures Accounted(env, s.(db := Migrated(s.db))) && Keeps(s.db, Migrated(s.db))
  {
    MigratedDerived(env, s.db);
    if !s.faulted {
      MoreCheckins(s.db, Migrated(s.db));
    }
  }

  lemma RestoreKeeps(env: Env, s: State, skipped: set<Hash>)
    requires Inv(env, s) && Quiet(s)
    ensures var t := Next(env, s, RestoreLinks(skipped)); Accounted(env, t) && Keeps(s.db, t.db)
  {
    var t := Next(env, s, RestoreLinks(skipped));
    RestoreGrounded(env, s.db, skipped);
    if !s.faulted {
      assert forall l | l in DerivedLinks(env, s.db) :: !LinkOnItsWay(env, s.handlers, l);
      assert t.db.links == s.db.links;
    }
  }

  lemma CrashKeeps(env: Env, s: State)
    requires Inv(env, s)
    ensures Accounted(env, Next(env, s, Crash))
  {
  }

  lemma PruneStartKeeps(env: Env, s: State, now: int, weeks: nat)
    requires Inv(env, s)
    ensures Accounted(env, Next(env, s, PruneStart(now, weeks)))
  {
  }

  lemma ScanMovesOn(env: Env, s: State)
    ensures var t := Next(env, s, PruneScan);
            && t == s.(pruner := t.pruner)
            && (t.pruner.Idle? || (!s.pruner.Idle? && t.pruner.cutoff == s.pruner.cutoff
                                   && t.pruner.protected == s.pruner.protected))
  {
  }

  lemma PruneScanKeeps(env: Env, s: State)
    requires Inv(env, s)
    ensures Accounted(env, Next(env, s, PruneScan)) && Next(env, s, PruneScan).db == s.db
  {
    ScanMovesOn(env, s);
  }

  lemma PruneStopKeeps(env: Env, s: State)
    requires Inv(env, s)
    ensures Accounted(env, Next(env, s, PruneStop))
  {
  }

  /** Every step keeps the invariant, every check-in, every link, and every observation of a linked packet. */
  lemma NextKeeps(env: Env, s: State, l: Label)
    requires Inv(env, s) && Recent(env, s)
    ensures Inv(env, Next(env, s, l)) && Keeps(s.db, Next(env, s, l).db)
  {
    NextSafe(env, s, l);
    NextGrounded(env, s, l);
    match l
    case Begin(pid, msg) => if pid !in s.handlers { IdleHandlerKeeps(env, s, pid, Next(env, s, l).handlers); }
    case Advance(pid, fails, clock) => if pid in s.handlers { AdvanceKeeps(env, s, pid, fails, clock); }
    case PruneStart(now, weeks) => PruneStartKeeps(env, s, now, weeks);
    case PruneScan => PruneScanKeeps(env, s);
    case PruneDelete => if s.pruner.Deleting? { DeleteKeeps(env, s); }
    case PruneStop => PruneStopKeeps(env, s);
    case Crash => CrashKeeps(env, s);
    case MigrateSchema => if Quiet(s) { MigrateKeeps(env, s); }
    case RestoreLinks(skipped) => if Quiet(s) { RestoreKeeps(env, s, skipped); }
  }

  // ----- Whole runs -----

  lemma {:induction false} RunKeeps(env: Env, s: State, labels: seq<Label>)
    requires Inv(env, s) && RecentThroughout(env, s, labels)
    ensures Inv(env, Run(env, s, labels)) && Keeps(s.db, Run(env, s, labels).db)
    decreases |labels|
  {
    if labels != [] {
      NextKeeps(env, s, labels[0]);
      RunKeeps(env, Next(env, s, labels[0]), labels[1..]);
      var mid, end := Next(env, s, labels[0]).db, Run(env, s, labels).db;
      forall l, o | l in s.db.links && Obs(l.hash, o) in s.db.obs ensures Obs(l.hash, o) in end.obs {
        assert l in mid.links && Obs(l.hash, o) in mid.obs;
      }
    }
  }

  lemma StartInv(env: Env)
    ensures Inv(env, START)
  {
  }
}
