/** What every step keeps as long as each check-in in flight still has its raw row, and what goes
wrong once one has not. */
module Grounding {
  import opened Wrappers
  import opened Calendar
  import opened Store
  import opened Ingest
  import opened Retention
  import opened Migration
  import opened Protocol
  import opened Safety

  predicate CheckinOfRow(env: Env, r: RawRow, c: CheckinRow) {
    RowLink(env, r) == Some(LinkOf(c)) && c.date == LocalDay(env.zone, r.observedAt)
  }

  /** Links and check-ins are what the stored rows imply. */
  ghost predicate DataDerived(env: Env, db: DB) {
    && db.links <= DerivedLinks(env, db)
    && forall c | c in db.checkins :: exists r :: r in db.raw && CheckinOfRow(env, r, c)
  }

  /** Every owner's row is stored. */
  ghost predicate RowsStand(env: Env, db: DB, handlers: map<nat, Handler>) {
    forall p | p in handlers && Owner(env, handlers[p]) :: exists r :: r in db.raw && IsRowOf(r, handlers[p].msg)
  }

  /** Handlers about to link or check in are owners; a packet has one owner and then no check-in yet. */
  ghost predicate Exclusive(env: Env, db: DB, handlers: map<nat, Handler>) {
    && (forall p | p in handlers && (handlers[p].pc == AtLink || handlers[p].pc == AtCheckin) ::
          Owner(env, handlers[p]))
    && (forall p, c | p in handlers && Owner(env, handlers[p]) && c in db.checkins :: c.hash != handlers[p].msg.hash)
    && (forall p, q | && p in handlers && q in handlers && p != q
                      && Owner(env, handlers[p]) && Owner(env, handlers[q]) ::
          handlers[p].msg.hash != handlers[q].msg.hash)
  }

  ghost predicate Grounded(env: Env, s: State) {
    DataDerived(env, s.db) && Exclusive(env, s.db, s.handlers)
  }

  ghost predicate RowsStandThroughout(env: Env, s: State, labels: seq<Label>)
    decreases |labels|
  {
    && RowsStand(env, s.db, s.handlers)
    && (labels == [] || RowsStandThroughout(env, Next(env, s, labels[0]), labels[1..]))
  }

  // ----- Each step keeps it -----

  lemma OwnerStands(env: Env, s: State, pid: nat) returns (r: RawRow)
    requires RowsStand(env, s.db, s.handlers) && pid in s.handlers && Owner(env, s.handlers[pid])
    ensures r in s.db.raw && IsRowOf(r, s.handlers[pid].msg)
    ensures RowLink(env, r) == MsgLink(env, s.handlers[pid].msg)
    ensures RowLink(env, r).value in DerivedLinks(env, s.db)
    ensures HasRaw(s.db, r.hash)
  {
    r :| r in s.db.raw && IsRowOf(r, s.handlers[pid].msg);
    RowLinkIsMsgLink(env, r, s.handlers[pid].msg);
  }

  lemma StoreFreshRow(env: Env, db: DB, m: Msg) returns (row: RawRow)
    requires Consistent(db) && !HasRaw(db, m.hash)
    ensures var after := Apply(db, RawStatement(m)).0;
            && after == db.(raw := db.raw + [row], nextRaw := db.nextRaw + 1)
            && row.id == db.nextRaw && IsRowOf(row, m)
            && (forall r :: r in after.raw <==> r in db.raw || r == row)
            && (forall l :: l in DerivedLinks(env, after) <==> l in DerivedLinks(env, db) || MsgLink(env, m) == Some(l))
  {
    row := RawRow(db.nextRaw, m.hash, m.payload, m.iata, SecondOf(m.observedAt));
    AppendedRow(db.raw, row);
    RowLinkIsMsgLink(env, row, m);
  }

  lemma ExclusiveAfterRaw(env: Env, db: DB, handlers: map<nat, Handler>, pid: nat, m: Msg)
    requires Consistent(db) && Exclusive(env, db, handlers) && RowsStand(env, db, handlers)
    requires pid in handlers && handlers[pid] == Handler(m, AtRaw) && !HasRaw(db, m.hash)
    ensures Exclusive(env, db, handlers[pid := Handler(m, AtObs(true))])
  {
  }

  lemma AdvanceRawGrounded(env: Env, s: State, pid: nat, clock: int)
    requires Consistent(s.db) && Grounded(env, s) && RowsStand(env, s.db, s.handlers)
    requires pid in s.handlers && s.handlers[pid].pc == AtRaw && !HasRaw(s.db, s.handlers[pid].msg.hash)
    ensures Grounded(env, AdvanceHandler(env, s, pid, false, clock))
  {
    var row := StoreFreshRow(env, s.db, s.handlers[pid].msg);
    ExclusiveAfterRaw(env, s.db, s.handlers, pid, s.handlers[pid].msg);
    assert DataDerived(env, AdvanceHandler(env, s, pid, false, clock).db);
  }

  /** A handler that owns nothing before or after. */
  lemma IdleExclusive(env: Env, db: DB, a: map<nat, Handler>, b: map<nat, Handler>, pid: nat)
    requires Exclusive(env, db, a)
    requires pid in b ==> b[pid].pc == AtRaw || b[pid].pc == AtObs(false)
    requires forall p | p in b && p != pid :: p in a && b[p] == a[p]
    ensures Exclusive(env, db, b)
  {
  }

  lemma AdvanceObsGrounded(env: Env, s: State, pid: nat, fails: bool, clock: int)
    requires Grounded(env, s) && pid in s.handlers && s.handlers[pid].pc.AtObs?
    ensures Grounded(env, AdvanceHandler(env, s, pid, fails, clock))
  {
    var t := AdvanceHandler(env, s, pid, fails, clock);
    assert t.db == s.db.(obs := t.db.obs);
    assert DerivedLinks(env, t.db) == DerivedLinks(env, s.db);
  }

  lemma AddedLink(env: Env, db: DB, r: RawRow, l: Link)
    requires DataDerived(env, db) && r in db.raw && RowLink(env, r) == Some(l)
    ensures var after := db.(links := db.links + {l});
            DataDerived(env, after) && DerivedLinks(env, after) == DerivedLinks(env, db)
  {
    var after := db.(links := db.links + {l});
    assert DerivedLinks(env, after) == DerivedLinks(env, db);
  }

  lemma LinkAttempted(env: Env, db: DB, m: Msg, fails: bool)
    requires MsgLink(env, m).Some? && HasRaw(db, m.hash)
    ensures Attempt(db, LinkStatement(env, m), fails) ==
            if fails then db else db.(links := db.links + {MsgLink(env, m).value})
    ensures !Apply(db, LinkStatement(env, m)).1.Failed?
  {
  }

  lemma AdvanceLinkGrounded(env: Env, s: State, pid: nat, fails: bool, clock: int)
    requires Grounded(env, s) && RowsStand(env, s.db, s.handlers)
    requires pid in s.handlers && s.handlers[pid].pc == AtLink
    ensures Grounded(env, AdvanceHandler(env, s, pid, fails, clock))
  {
    var m := s.handlers[pid].msg;
    var r := OwnerStands(env, s, pid);
    LinkAttempted(env, s.db, m, fails);
    AddedLink(env, s.db, r, MsgLink(env, m).value);
  }

  /** What a check-in insert does to the tables. */
  lemma CheckinInserted(env: Env, db: DB, m: Msg, r: RawRow, fails: bool, clock: int) returns (c: CheckinRow)
    requires DataDerived(env, db) && r in db.raw && IsRowOf(r, m) && MsgLink(env, m).Some?
    ensures var after := Attempt(db, CheckinStatement(env, m, clock), fails);
            && DataDerived(env, after) && DerivedLinks(env, after) == DerivedLinks(env, db)
            && after == db.(checkins := after.checkins, nextCheckin := after.nextCheckin)
            && (forall d :: d in after.checkins ==> d in db.checkins || d == c)
            && (forall d :: d in db.checkins ==> d in after.checkins)
            && c.hash == r.hash
  {
    var after := Attempt(db, CheckinStatement(env, m, clock), fails);
    c := MsgCheckin(env, m, clock).(id := db.nextCheckin);
    RowLinkIsMsgLink(env, r, m);
    AppendedRow(db.checkins, c);
    assert CheckinOfRow(env, r, c);
    assert DerivedLinks(env, after) == DerivedLinks(env, db);
  }

  lemma ExclusiveAfterCheckin(env: Env, db: DB, after: DB, handlers: map<nat, Handler>, pid: nat)
    requires Exclusive(env, db, handlers) && pid in handlers && handlers[pid].pc == AtCheckin
    requires forall c | c in after.checkins :: c in db.checkins || c.hash == handlers[pid].msg.hash
    ensures Exclusive(env, after, handlers - {pid})
  {
  }

  lemma AdvanceCheckinGrounded(env: Env, s: State, pid: nat, fails: bool, clock: int)
    requires Grounded(env, s) && RowsStand(env, s.db, s.handlers)
    requires pid in s.handlers && s.handlers[pid].pc == AtCheckin
    ensures Grounded(env, AdvanceHandler(env, s, pid, fails, clock))
  {
    var m := s.handlers[pid].msg;
    var t := AdvanceHandler(env, s, pid, fails, clock);
    var r := OwnerStands(env, s, pid);
    var c := CheckinInserted(env, s.db, m, r, fails, clock);
    ExclusiveAfterCheckin(env, s.db, t.db, s.handlers, pid);
  }

  lemma AdvanceGrounded(env: Env, s: State, pid: nat, fails: bool, clock: int)
    requires Consistent(s.db) && Grounded(env, s) && RowsStand(env, s.db, s.handlers) && pid in s.handlers
    ensures Grounded(env, AdvanceHandler(env, s, pid, fails, clock))
  {
    var h := s.handlers[pid];
    match h.pc
    case AtRaw =>
      if fails || HasRaw(s.db, h.msg.hash) {
        IdleExclusive(env, s.db, s.handlers, AdvanceHandler(env, s, pid, fails, clock).handlers, pid);
      } else {
        AdvanceRawGrounded(env, s, pid, clock);
      }
    case AtObs(_) => AdvanceObsGrounded(env, s, pid, fails, clock);
    case AtLink => AdvanceLinkGrounded(env, s, pid, fails, clock);
    case AtCheckin => AdvanceCheckinGrounded(env, s, pid, fails, clock);
  }

  /** A cascade takes a link or a check-in only together with the row it comes from. */
  lemma DeleteGrounded(env: Env, db: DB, ids: set<int>)
    requires DataDerived(env, db)
    ensures DataDerived(env, DeleteRaw(db, ids))
  {
    var after := DeleteRaw(db, ids);
    forall r | r in db.raw && r.hash !in GoneHashes(db, ids) ensures r in after.raw {}
    forall l | l in after.links ensures l in DerivedLinks(env, after) {
      var r :| r in db.raw && RowLink(env, r) == Some(l);
      assert r in after.raw;
    }
    forall c | c in after.checkins ensures exists r :: r in after.raw && CheckinOfRow(env, r, c) {
      var r :| r in db.raw && CheckinOfRow(env, r, c);
      assert r in after.raw;
    }
  }

  lemma MigratedDerived(env: Env, db: DB)
    requires Consistent(db) && DataDerived(env, db)
    ensures DataDerived(env, Migrated(db)) && DerivedLinks(env, Migrated(db)) == DerivedLinks(env, db)
    ensures Migrated(db).raw == db.raw && Migrated(db).obs == db.obs && Migrated(db).checkins == db.checkins
    ensures forall l | l in Migrated(db).links :: l in db.links || HasCheckin(db, l.week, l.username)
  {
    var added := set c | c in db.checkins :: LinkOf(c);
    var after := db.(links := db.links + added);
    MigrateKeepsUnique(db);
    assert Migrated(db) == after;
    assert DerivedLinks(env, after) == DerivedLinks(env, db);
    forall l | l in added ensures l in DerivedLinks(env, db) && HasCheckin(db, l.week, l.username) {
      var c :| c in db.checkins && LinkOf(c) == l;
      var r :| r in db.raw && CheckinOfRow(env, r, c);
    }
  }

  lemma RestoreGrounded(env: Env, db: DB, skipped: set<Hash>)
    requires DataDerived(env, db)
    ensures var after := db.(links := db.links + set l | l in DerivedLinks(env, db) && l.hash !in skipped);
            DataDerived(env, after) && DerivedLinks(env, after) == DerivedLinks(env, db)
  {
    var after := db.(links := db.links + set l | l in DerivedLinks(env, db) && l.hash !in skipped);
    assert DerivedLinks(env, after) == DerivedLinks(env, db);
  }

  /** With every owner's row stored, a step leaves links and check-ins derived and packets with one
      owner each. */
  lemma NextGrounded(env: Env, s: State, l: Label)
    requires Consistent(s.db) && Grounded(env, s) && RowsStand(env, s.db, s.handlers)
    ensures Grounded(env, Next(env, s, l))
  {
    match l
    case Begin(pid, msg) =>
      if pid !in s.handlers {
        IdleExclusive(env, s.db, s.handlers, Next(env, s, l).handlers, pid);
      }
    case Advance(pid, fails, clock) => if pid in s.handlers { AdvanceGrounded(env, s, pid, fails, clock); }
    case PruneDelete => if s.pruner.Deleting? { DeleteGrounded(env, s.db, IdSet(ChunkOf(s.pruner.pending))); }
    case MigrateSchema => if Quiet(s) { MigratedDerived(env, s.db); }
    case RestoreLinks(skipped) => if Quiet(s) { RestoreGrounded(env, s.db, skipped); }
    case _ =>
  }

  lemma {:induction false} RunGrounded(env: Env, s: State, labels: seq<Label>)
    requires Consistent(s.db) && Grounded(env, s) && RowsStandThroughout(env, s, labels)
    ensures Grounded(env, Run(env, s, labels)) && RowsStand(env, Run(env, s, labels).db, Run(env, s, labels).handlers)
    decreases |labels|
  {
    if labels != [] {
      NextConsistent(env, s, labels[0]);
      NextGrounded(env, s, labels[0]);
      RunGrounded(env, Next(env, s, labels[0]), labels[1..]);
    }
  }

  // ----- Whole runs in which no row is pulled from under its handler -----

  /** A state some schedule leads to from the empty store, every check-in in flight always having
      its raw row. */
  ghost predicate Rooted(env: Env, s: State) {
    exists labels :: RowsStandThroughout(env, START, labels) && Run(env, START, labels) == s
  }

  lemma RootedGrounded(env: Env, s: State)
    requires Rooted(env, s)
    ensures Grounded(env, s) && RowsStand(env, s.db, s.handlers) && Consistent(s.db)
  {
    var labels :| RowsStandThroughout(env, START, labels) && Run(env, START, labels) == s;
    RunGrounded(env, START, labels);
    RunConsistent(env, START, labels);
  }

  /** A Monday check-in in flight keeps its raw row, so its last insert cannot fail on a reference
      and cannot collide on the packet hash: unless the statement itself fails, the user is checked in. */
  lemma InFlightCheckinLands(env: Env, s: State, pid: nat, clock: int)
    requires Rooted(env, s) && pid in s.handlers && s.handlers[pid].pc == AtCheckin
    ensures var m := s.handlers[pid].msg;
            && MsgLink(env, m).Some?
            && HasRaw(s.db, m.hash)
            && (forall c | c in s.db.checkins :: c.hash != m.hash)
            && var t := AdvanceHandler(env, s, pid, false, clock);
               && t.faulted == s.faulted
               && HasCheckin(t.db, MsgLink(env, m).value.week, MsgLink(env, m).value.username)
  {
    RootedGrounded(env, s);
    var r := OwnerStands(env, s, pid);
    CheckinLands(s.db, MsgCheckin(env, s.handlers[pid].msg, clock));
  }

  /** Every check-in comes from a stored row, with its date and week. */
  lemma CheckinsComeFromRows(env: Env, s: State)
    requires Rooted(env, s)
    ensures forall c | c in s.db.checkins :: exists r :: r in s.db.raw && CheckinOfRow(env, r, c)
  {
    RootedGrounded(env, s);
  }

  // ----- A row pulled from under its handler -----

  /** The links, and those of the check-ins, are all ones that stored rows yield. */
  ghost predicate LinksDerived(env: Env, db: DB) {
    db.links <= DerivedLinks(env, db) && forall c | c in db.checkins :: LinkOf(c) in DerivedLinks(env, db)
  }

  /** A stored row yields the handler's link; or there is no more than its check-in left to insert,
      and that will be ignored. */
  ghost predicate Standing(env: Env, db: DB, h: Handler)
    requires Owner(env, h)
  {
    || MsgLink(env, h.msg).value in DerivedLinks(env, db)
    || (h.pc == AtCheckin && CheckinConflict(db, MsgCheckin(env, h.msg, 0)))
  }

  ghost predicate AllStanding(env: Env, s: State) {
    forall p | p in s.handlers && Owner(env, s.handlers[p]) :: Standing(env, s.db, s.handlers[p])
  }

  ghost predicate NoDelete(labels: seq<Label>) {
    forall l | l in labels :: !l.PruneDelete?
  }

  lemma NextKeepsStanding(env: Env, s: State, l: Label)
    requires Consistent(s.db) && LinksDerived(env, s.db) && AllStanding(env, s)
    ensures LinksDerived(env, Next(env, s, l).db)
    ensures !l.PruneDelete? ==> AllStanding(env, Next(env, s, l))
  {
    match l
    case PruneDelete => if s.pruner.Deleting? { DeletedLinks(env, s.db, IdSet(ChunkOf(s.pruner.pending))); }
    case Advance(pid, fails, clock) => if pid in s.handlers { AdvanceKeepsStanding(env, s, pid, fails, clock); }
    case MigrateSchema => if Quiet(s) { MigratedLinks(env, s.db); }
    case RestoreLinks(skipped) =>
      if Quiet(s) {
        var after := Next(env, s, l).db;
        assert DerivedLinks(env, after) == DerivedLinks(env, s.db);
      }
    case _ =>
  }

  /** A cascade takes a link or a check-in only together with the row it comes from. */
  lemma DeletedLinks(env: Env, db: DB, ids: set<int>)
    requires LinksDerived(env, db)
    ensures LinksDerived(env, DeleteRaw(db, ids))
  {
    var after := DeleteRaw(db, ids);
    forall r | r in db.raw && r.hash !in GoneHashes(db, ids) ensures r in after.raw {}
    forall l | l in DerivedLinks(env, db) && l.hash !in GoneHashes(db, ids) ensures l in DerivedLinks(env, after) {
      var r :| r in db.raw && RowLink(env, r) == Some(l);
      assert r in after.raw;
    }
  }

  lemma MigratedLinks(env: Env, db: DB)
    requires Consistent(db) && LinksDerived(env, db)
    ensures LinksDerived(env, Migrated(db))
  {
    MigrateKeepsUnique(db);
    assert DerivedLinks(env, Migrated(db)) == DerivedLinks(env, db);
  }

  /** Inserts add rows, so that links stay derived, and conflicts stay conflicts. */
  lemma GrowingStands(env: Env, a: DB, b: DB, h: Handler)
    requires Owner(env, h) && Standing(env, a, h)
    requires (forall r | r in a.raw :: r in b.raw) && forall c | c in a.checkins :: c in b.checkins
    ensures DerivedLinks(env, a) <= DerivedLinks(env, b)
    ensures Standing(env, b, h)
  {
  }

  lemma AdvanceKeepsStanding(env: Env, s: State, pid: nat, fails: bool, clock: int)
    requires LinksDerived(env, s.db) && AllStanding(env, s) && pid in s.handlers
    ensures var t := AdvanceHandler(env, s, pid, fails, clock); LinksDerived(env, t.db) && AllStanding(env, t)
  {
    var t := AdvanceHandler(env, s, pid, fails, clock);
    StepAdds(env, s.db, s.handlers[pid], fails, clock);
    assert DerivedLinks(env, s.db) <= DerivedLinks(env, t.db);
    StepLinks(env, s.db, s.handlers[pid], fails, clock);
    forall p | p in t.handlers && Owner(env, t.handlers[p]) ensures Standing(env, t.db, t.handlers[p]) {
      if p != pid {
        GrowingStands(env, s.db, t.db, t.handlers[p]);
      }
    }
  }

  lemma StepAdds(env: Env, db: DB, h: Handler, fails: bool, clock: int)
    ensures var after := StepHandler(env, db, h, fails, clock).db;
            && (forall r | r in db.raw :: r in after.raw)
            && db.links <= after.links
            && (forall c | c in db.checkins :: c in after.checkins)
  {
  }

  /** The one handler that moves. */
  lemma StepLinks(env: Env, db: DB, h: Handler, fails: bool, clock: int)
    requires LinksDerived(env, db) && (Owner(env, h) ==> Standing(env, db, h))
    ensures var step := StepHandler(env, db, h, fails, clock);
            && LinksDerived(env, step.db)
            && (step.next.Some? && Owner(env, step.next.value) ==> Standing(env, step.db, step.next.value))
  {
    var m := h.msg;
    var step := StepHandler(env, db, h, fails, clock);
    StepAdds(env, db, h, fails, clock);
    match h.pc
    case AtRaw =>
      AppendedRow(db.raw, RawRow(db.nextRaw, m.hash, m.payload, m.iata, SecondOf(m.observedAt)));
      if !fails && !HasRaw(db, m.hash) {
        var row := RawRow(db.nextRaw, m.hash, m.payload, m.iata, SecondOf(m.observedAt));
        assert row in step.db.raw;
        RowLinkIsMsgLink(env, row, m);
      }
    case AtObs(_) => assert DerivedLinks(env, step.db) == DerivedLinks(env, db);
    case AtLink => assert DerivedLinks(env, step.db) == DerivedLinks(env, db);
    case AtCheckin =>
      assert DerivedLinks(env, step.db) == DerivedLinks(env, db);
      if MsgLink(env, m).Some? {
        AppendedRow(db.checkins, MsgCheckin(env, m, clock).(id := db.nextCheckin));
      }
  }

  lemma {:induction false} RunKeepsStanding(env: Env, s: State, labels: seq<Label>)
    requires Consistent(s.db) && LinksDerived(env, s.db) && AllStanding(env, s) && NoDelete(labels)
    ensures LinksDerived(env, Run(env, s, labels).db)
    decreases |labels|
  {
    if labels != [] {
      NextConsistent(env, s, labels[0]);
      NextKeepsStanding(env, s, labels[0]);
      RunKeepsStanding(env, Next(env, s, labels[0]), labels[1..]);
    }
  }

  ghost predicate StandThroughout(env: Env, s: State, labels: seq<Label>)
    decreases |labels|
  {
    AllStanding(env, s) && (labels == [] || StandThroughout(env, Next(env, s, labels[0]), labels[1..]))
  }

  lemma {:induction false} RunLinksDerived(env: Env, s: State, labels: seq<Label>)
    requires Consistent(s.db) && LinksDerived(env, s.db) && StandThroughout(env, s, labels)
    ensures LinksDerived(env, Run(env, s, labels).db)
    decreases |labels|
  {
    if labels != [] {
      NextConsistent(env, s, labels[0]);
      NextKeepsStanding(env, s, labels[0]);
      RunLinksDerived(env, Next(env, s, labels[0]), labels[1..]);
    }
  }

  /** A state some schedule leads to from the empty store, every owner always standing. */
  ghost predicate Stood(env: Env, s: State) {
    exists labels :: StandThroughout(env, START, labels) && Run(env, START, labels) == s
  }

  /** The link table agrees with its source: it holds only derived links, ... */
  lemma LinksComeFromRows(env: Env, s: State)
    requires Stood(env, s)
    ensures s.db.links <= DerivedLinks(env, s.db)
    ensures forall c | c in s.db.checkins :: LinkOf(c) in DerivedLinks(env, s.db)
  {
    var labels :| StandThroughout(env, START, labels) && Run(env, START, labels) == s;
    RunLinksDerived(env, START, labels);
  }

  lemma RestoreAll(env: Env, s: State)
    requires Quiet(s)
    ensures Next(env, s, RestoreLinks({})) == s.(db := Restored(env, s.db))
  {
    var derived, none: set<Hash> := DerivedLinks(env, s.db), {};
    assert (set l | l in derived && l.hash !in none) == derived;
  }

  /** ... and all of them after a restore without errors. */
  lemma RestoreMakesLinksExact(env: Env, s: State)
    requires Stood(env, s) && Quiet(s)
    ensures var t := Next(env, s, RestoreLinks({}));
            t.db == Restored(env, s.db) && t.db.links == DerivedLinks(env, t.db)
  {
    LinksComeFromRows(env, s);
    RestoreMendsIff(env, s.db);
    RestoreAll(env, s);
  }

  /** Wherever a crash hits, with handlers and a prune half done, the restore command run next
      makes the links exact and changes nothing else. */
  lemma RestoreAfterCrash(env: Env, s: State)
    requires Stood(env, s)
    ensures var t := Next(env, Next(env, s, Crash), RestoreLinks({}));
            && Quiet(t) && t.db == Restored(env, s.db)
            && t.db.links == DerivedLinks(env, t.db)
  {
    LinksComeFromRows(env, s);
    RestoreMendsIff(env, s.db);
    RestoreAll(env, Next(env, s, Crash));
  }

  // ----- A handler that finishes over another row -----

  lemma {:induction false} FreePid(taken: set<nat>) returns (q: nat)
    ensures forall p | p in taken :: p < q
  {
    q := 0;
    if taken != {} {
      var p :| p in taken;
      var rest := FreePid(taken - {p});
      q := if p < rest then rest else p + 1;
      forall x | x in taken ensures x < q {
        assert x == p || x in taken - {p};
      }
    }
  }

  /** The hash of a message gets a stored row, and if it had none, one that yields no link: the same
      packet observed again, not on a Monday. */
  lemma OtherRow(env: Env, s: State, m: Msg, at: int) returns (labels: seq<Label>)
    requires Consistent(s.db) && !IsMondayDay(NanoDay(env.zone, at))
    ensures NoDelete(labels) && NoNewPrune(labels)
    ensures var t := Run(env, s, labels);
            && HasRaw(t.db, m.hash)
            && t.db.checkins == s.db.checkins && t.db.nextCheckin == s.db.nextCheckin
            && DerivedLinks(env, t.db) == DerivedLinks(env, s.db)
            && (forall p | p in s.handlers :: p in t.handlers && t.handlers[p] == s.handlers[p])
  {
    labels := [];
    if !HasRaw(s.db, m.hash) {
      var q := FreePid(s.handlers.Keys);
      var other := m.(observedAt := at);
      var u := Next(env, s, Begin(q, other));
      var row := StoreFreshRow(env, s.db, other);
      labels := [Begin(q, other)] + [Advance(q, false, 0)];
      RunStep(env, s, Begin(q, other), [Advance(q, false, 0)]);
      assert [Advance(q, false, 0)] == [Advance(q, false, 0)] + [];
      RunStep(env, u, Advance(q, false, 0), []);
      assert u.handlers[q] == Handler(other, AtRaw);
      var t := Next(env, u, Advance(q, false, 0));
      assert row in t.db.raw;
    }
  }

  ghost predicate NoNewPrune(labels: seq<Label>) {
    forall l | l in labels :: !l.PruneStart?
  }

  /** The handler goes on until its link, or if that is already in, its check-in, is inserted. */
  lemma Finishes(env: Env, s: State, pid: nat) returns (labels: seq<Label>)
    requires pid in s.handlers && Owner(env, s.handlers[pid]) && HasRaw(s.db, s.handlers[pid].msg.hash)
    requires s.handlers[pid].pc == AtCheckin ==> !CheckinConflict(s.db, MsgCheckin(env, s.handlers[pid].msg, 0))
    ensures NoDelete(labels) && NoNewPrune(labels)
    ensures var t, l := Run(env, s, labels).db, MsgLink(env, s.handlers[pid].msg).value;
            && t.raw == s.db.raw
            && (s.handlers[pid].pc != AtCheckin ==> l in t.links)
            && (s.handlers[pid].pc == AtCheckin ==> exists c :: c in t.checkins && LinkOf(c) == l)
  {
    var step, m := Advance(pid, false, 0), s.handlers[pid].msg;
    assert [step] == [step] + [];
    if s.handlers[pid].pc == AtObs(true) {
      var u := Next(env, s, step);
      assert u.handlers[pid] == Handler(m, AtLink);
      RunStep(env, s, step, [step]);
      RunStep(env, u, step, []);
      LinkAttempted(env, u.db, m, false);
      labels := [step] + [step];
    } else {
      RunStep(env, s, step, []);
      labels := [step];
      var t := Next(env, s, step).db;
      if s.handlers[pid].pc == AtLink {
        LinkAttempted(env, s.db, m, false);
      } else {
        assert t.checkins[|s.db.checkins|] in t.checkins;
      }
    }
  }

  /** Over another row of its packet, or none, a handler can leave a link or a check-in that no
      stored row yields. */
  lemma Orphans(env: Env, s: State, pid: nat, at: int) returns (labels: seq<Label>)
    requires Consistent(s.db) && !IsMondayDay(NanoDay(env.zone, at))
    requires pid in s.handlers && Owner(env, s.handlers[pid]) && !Standing(env, s.db, s.handlers[pid])
    ensures NoDelete(labels) && NoNewPrune(labels)
    ensures var t, l := Run(env, s, labels).db, MsgLink(env, s.handlers[pid].msg).value;
            && l !in DerivedLinks(env, t)
            && (s.handlers[pid].pc != AtCheckin ==> l in t.links)
            && (s.handlers[pid].pc == AtCheckin ==> exists c :: c in t.checkins && LinkOf(c) == l)
  {
    var first := OtherRow(env, s, s.handlers[pid].msg, at);
    var t := Run(env, s, first);
    var rest := Finishes(env, t, pid);
    RunConcat(env, s, first, rest);
    labels := first + rest;
  }

  /** From a state whose links are derived, they stay derived in every continuation without a delete
      if and only if every owner is standing. */
  lemma LinksStayDerivedIff(env: Env, s: State, at: int)
    requires Consistent(s.db) && LinksDerived(env, s.db) && !IsMondayDay(NanoDay(env.zone, at))
    ensures (forall labels | NoDelete(labels) :: LinksDerived(env, Run(env, s, labels).db)) <==> AllStanding(env, s)
  {
    if AllStanding(env, s) {
      forall labels | NoDelete(labels) ensures LinksDerived(env, Run(env, s, labels).db) {
        RunKeepsStanding(env, s, labels);
      }
    } else {
      var pid :| pid in s.handlers && Owner(env, s.handlers[pid]) && !Standing(env, s.db, s.handlers[pid]);
      var labels := Orphans(env, s, pid, at);
      assert NoDelete(labels) && !LinksDerived(env, Run(env, s, labels).db);
    }
  }
}
