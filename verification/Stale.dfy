/** Check-ins that come too late for a prune: exactly which rows, links and check-ins it removes. */
module Stale {
  import opened Calendar
  import opened Store
  import opened Ingest
  import opened Retention
  import opened Migration
  import opened Protocol
  import opened Safety
  import opened PruneRuns
  import opened Grounding
  import opened Invariant

  /** The running prune will not delete the row. */
  ghost predicate Spared(env: Env, s: State, r: RawRow) {
    r in s.db.raw && (s.pruner.Idle? || ShouldRetain(env.zone, r, s.pruner.cutoff, s.pruner.protected))
  }

  /** The row stays, and so does everything that refers to it. */
  ghost predicate KeepsRow(a: DB, b: DB, r: RawRow) {
    && r in b.raw
    && (forall l | l in a.links && l.hash == r.hash :: l in b.links)
    && (forall c | c in a.checkins && c.hash == r.hash :: c in b.checkins)
  }

  lemma DeleteSpares(env: Env, s: State, r: RawRow)
    requires Safe(env, s) && s.pruner.Deleting? && Spared(env, s, r)
    ensures KeepsRow(s.db, DeleteStep(s).db, r)
  {
    var ids := IdSet(ChunkOf(s.pruner.pending));
    forall id | id in ids ensures id in s.pruner.pending {}
    assert r.hash !in GoneHashes(s.db, ids);
  }

  lemma NextSpares(env: Env, s: State, l: Label, r: RawRow)
    requires Safe(env, s) && Spared(env, s, r) && !l.PruneStart?
    ensures Spared(env, Next(env, s, l), r) && KeepsRow(s.db, Next(env, s, l).db, r)
  {
    match l
    case Advance(pid, fails, clock) =>
      if pid in s.handlers {
        StepAdds(env, s.db, s.handlers[pid], fails, clock);
      }
    case PruneDelete => if s.pruner.Deleting? { DeleteSpares(env, s, r); }
    case MigrateSchema => MigrateKeepsUnique(s.db);
    case _ =>
  }

  lemma {:induction false} RunSpares(env: Env, s: State, labels: seq<Label>, r: RawRow)
    requires Safe(env, s) && Spared(env, s, r) && NoNewPrune(labels)
    ensures KeepsRow(s.db, Run(env, s, labels).db, r)
    decreases |labels|
  {
    if labels != [] {
      var t := Next(env, s, labels[0]);
      NextSpares(env, s, labels[0], r);
      NextSafe(env, s, labels[0]);
      RunSpares(env, t, labels[1..], r);
    }
  }

  /** Prune steps alone remove every rejected row, with everything that refers to it. */
  lemma PruneRemoves(env: Env, s: State, r: RawRow) returns (labels: seq<Label>)
    requires Safe(env, s) && !s.pruner.Idle? && r in s.db.raw && !Spared(env, s, r)
    ensures PruneOnly(labels)
    ensures !HasRaw(Run(env, s, labels).db, r.hash) && Consistent(Run(env, s, labels).db)
  {
    var t, deletes := s, [];
    if s.pruner.Deleting? {
      deletes := DeletesAll(env, s);
      t := Run(env, s, deletes);
      RunSafe(env, s, deletes);
      DeletedIsSubset(s.db, IdSet(s.pruner.pending));
    }
    var scans := ScanFinishes(env, t);
    RunConcat(env, s, deletes, scans);
    labels := deletes + scans;
    RunConsistent(env, s, labels);
    var doomed := DoomedIds(env.zone, t.db, t.pruner.cutoff, t.pruner.protected);
    DeletedIsSubset(t.db, doomed);
    assert forall q | q in t.db.raw :: q in s.db.raw;
  }

  /** Whatever else the schedule does, a running prune can remove a row if and only if its predicate
      rejects it. */
  lemma RowIsLostIff(env: Env, s: State, r: RawRow)
    requires Safe(env, s) && !s.pruner.Idle? && r in s.db.raw
    ensures (exists labels :: NoNewPrune(labels) && r !in Run(env, s, labels).db.raw) <==>
            !ShouldRetain(env.zone, r, s.pruner.cutoff, s.pruner.protected)
  {
    if Spared(env, s, r) {
      forall labels | NoNewPrune(labels) ensures r in Run(env, s, labels).db.raw {
        RunSpares(env, s, labels, r);
      }
    } else {
      var labels := PruneRemoves(env, s, r);
      assert NoNewPrune(labels) && r !in Run(env, s, labels).db.raw;
    }
  }

  /** The same for a link and a check-in of the row's packet. */
  lemma CheckinIsLostIff(env: Env, s: State, r: RawRow, l: Link, c: CheckinRow)
    requires Safe(env, s) && !s.pruner.Idle? && r in s.db.raw
    requires l in s.db.links && l.hash == r.hash && c in s.db.checkins && c.hash == r.hash
    ensures var rejected := !ShouldRetain(env.zone, r, s.pruner.cutoff, s.pruner.protected);
            && ((exists labels :: NoNewPrune(labels) && l !in Run(env, s, labels).db.links) <==> rejected)
            && ((exists labels :: NoNewPrune(labels) && c !in Run(env, s, labels).db.checkins) <==> rejected)
  {
    if Spared(env, s, r) {
      forall labels | NoNewPrune(labels)
        ensures l in Run(env, s, labels).db.links && c in Run(env, s, labels).db.checkins
      {
        RunSpares(env, s, labels, r);
      }
    } else {
      var labels := PruneRemoves(env, s, r);
      var t := Run(env, s, labels).db;
      assert NoNewPrune(labels) && l !in t.links && c !in t.checkins;
    }
  }

  /** For a check-in in flight that is: exactly when the snapshot does not know its packet and its
      week lies before the cutoff. */
  lemma OwnerIsRejectedIff(env: Env, s: State, pid: nat, r: RawRow)
    requires !s.pruner.Idle? && pid in s.handlers && Owner(env, s.handlers[pid]) && IsRowOf(r, s.handlers[pid].msg)
    ensures !ShouldRetain(env.zone, r, s.pruner.cutoff, s.pruner.protected) <==>
            r.hash !in s.pruner.protected
            && NanoWeekStart(env.zone, s.handlers[pid].msg.observedAt) < s.pruner.cutoff
  {
    RowLinkIsMsgLink(env, r, s.handlers[pid].msg);
  }

  /** So the raw row under a check-in in flight can go if and only if that is the case, ... */
  lemma InFlightRowIsLostIff(env: Env, s: State, pid: nat, r: RawRow)
    requires Safe(env, s) && !s.pruner.Idle?
    requires pid in s.handlers && Owner(env, s.handlers[pid])
    requires r in s.db.raw && IsRowOf(r, s.handlers[pid].msg)
    ensures (exists labels :: NoNewPrune(labels) && r !in Run(env, s, labels).db.raw) <==>
            r.hash !in s.pruner.protected
            && NanoWeekStart(env.zone, s.handlers[pid].msg.observedAt) < s.pruner.cutoff
  {
    RowIsLostIff(env, s, r);
    OwnerIsRejectedIff(env, s, pid, r);
  }

  /** The two last inserts of a handler, nothing standing in their way. */
  lemma LastInserts(env: Env, s: State, pid: nat, clock: int)
    requires pid in s.handlers && s.handlers[pid].pc == AtLink && Owner(env, s.handlers[pid])
    requires HasRaw(s.db, s.handlers[pid].msg.hash)
    requires !CheckinConflict(s.db, MsgCheckin(env, s.handlers[pid].msg, clock))
    ensures var m := s.handlers[pid].msg;
            var l, c := MsgLink(env, m).value, MsgCheckin(env, m, clock).(id := s.db.nextCheckin);
            var t := Run(env, s, [Advance(pid, false, clock)] + [Advance(pid, false, clock)]);
            t.pruner == s.pruner && t.db.raw == s.db.raw && l in t.db.links && c in t.db.checkins
  {
    var step := Advance(pid, false, clock);
    var u := Next(env, s, step);
    RunStep(env, s, step, [step]);
    assert [step] == [step] + [];
    RunStep(env, u, step, []);
    LinkAttempted(env, s.db, s.handlers[pid].msg, false);
    assert u.handlers[pid] == Handler(s.handlers[pid].msg, AtCheckin);
    assert HasRaw(u.db, s.handlers[pid].msg.hash);
    var t := Next(env, u, step);
    assert t.db.checkins[|s.db.checkins|] in t.db.checkins;
  }

  /** ... and the link and check-in it inserts while a prune runs can be cascaded away if and only
      if that is the case. */
  lemma InFlightCheckinIsLostIff(env: Env, s: State, pid: nat, r: RawRow, clock: int)
    requires Safe(env, s) && !s.pruner.Idle?
    requires pid in s.handlers && s.handlers[pid].pc == AtLink && Owner(env, s.handlers[pid])
    requires r in s.db.raw && IsRowOf(r, s.handlers[pid].msg)
    requires !CheckinConflict(s.db, MsgCheckin(env, s.handlers[pid].msg, clock))
    ensures var m := s.handlers[pid].msg;
            var l, c := MsgLink(env, m).value, MsgCheckin(env, m, clock).(id := s.db.nextCheckin);
            var t := Run(env, s, [Advance(pid, false, clock)] + [Advance(pid, false, clock)]);
            var late := r.hash !in s.pruner.protected && NanoWeekStart(env.zone, m.observedAt) < s.pruner.cutoff;
            && l in t.db.links && c in t.db.checkins
            && ((exists labels :: NoNewPrune(labels) && l !in Run(env, t, labels).db.links) <==> late)
            && ((exists labels :: NoNewPrune(labels) && c !in Run(env, t, labels).db.checkins) <==> late)
  {
    var m, steps := s.handlers[pid].msg, [Advance(pid, false, clock)] + [Advance(pid, false, clock)];
    var l, c := MsgLink(env, m).value, MsgCheckin(env, m, clock).(id := s.db.nextCheckin);
    LastInserts(env, s, pid, clock);
    OwnerIsRejectedIff(env, s, pid, r);
    RunSafe(env, s, steps);
    CheckinIsLostIff(env, Run(env, s, steps), r, l, c);
  }

  // ----- Orphans -----

  /** A link, or a check-in with it, that no stored row yields. */
  ghost predicate Orphaned(env: Env, db: DB, l: Link) {
    (l in db.links || exists c :: c in db.checkins && LinkOf(c) == l) && l !in DerivedLinks(env, db)
  }

  lemma StoredRowYields(env: Env, db: DB, r: RawRow, m: Msg)
    requires r in db.raw && IsRowOf(r, m) && MsgLink(env, m).Some?
    ensures MsgLink(env, m).value in DerivedLinks(env, db)
  {
    RowLinkIsMsgLink(env, r, m);
  }

  /** A check-in in flight can end up as a link or a check-in without a row it comes from if and only
      if it is late for the running prune. */
  lemma InFlightIsOrphanedIff(env: Env, s: State, pid: nat, r: RawRow, at: int)
    requires Safe(env, s) && !s.pruner.Idle? && !IsMondayDay(NanoDay(env.zone, at))
    requires pid in s.handlers && Owner(env, s.handlers[pid])
    requires r in s.db.raw && IsRowOf(r, s.handlers[pid].msg)
    requires s.handlers[pid].pc == AtCheckin ==> !CheckinConflict(s.db, MsgCheckin(env, s.handlers[pid].msg, 0))
    ensures var m := s.handlers[pid].msg;
            (exists labels :: NoNewPrune(labels) && Orphaned(env, Run(env, s, labels).db, MsgLink(env, m).value)) <==>
            Late(env, s, m)
  {
    var m := s.handlers[pid].msg;
    OwnerIsRejectedIff(env, s, pid, r);
    if Late(env, s, m) {
      var removal := PruneRemoves(env, s, r);
      PruneOnlyRemoves(env, s, removal);
      var t := Run(env, s, removal);
      assert MsgLink(env, m).value !in DerivedLinks(env, t.db);
      var orphaning := Orphans(env, t, pid, at);
      RunConcat(env, s, removal, orphaning);
      assert NoNewPrune(removal + orphaning);
    } else {
      forall labels | NoNewPrune(labels) ensures MsgLink(env, m).value in DerivedLinks(env, Run(env, s, labels).db) {
        RunSpares(env, s, labels, r);
        StoredRowYields(env, Run(env, s, labels).db, r, m);
      }
    }
  }

  // ----- When nothing in flight is late -----

  /** While a prune runs, no check-in in flight is late if and only if no continuation removes the
      row of one. */
  lemma RecentIffNoRowIsLost(env: Env, s: State)
    requires Safe(env, s) && RowsStand(env, s.db, s.handlers) && !s.pruner.Idle?
    ensures Recent(env, s) <==>
            forall p, r, labels | p in s.handlers && Owner(env, s.handlers[p]) && r in s.db.raw
                                  && IsRowOf(r, s.handlers[p].msg) && NoNewPrune(labels) ::
              r in Run(env, s, labels).db.raw
  {
    forall p, r | p in s.handlers && Owner(env, s.handlers[p]) && r in s.db.raw && IsRowOf(r, s.handlers[p].msg)
      ensures (exists labels :: NoNewPrune(labels) && r !in Run(env, s, labels).db.raw) <==>
              Late(env, s, s.handlers[p].msg)
    {
      InFlightRowIsLostIff(env, s, p, r);
    }
    if !Recent(env, s) {
      var p :| p in s.handlers && Owner(env, s.handlers[p]) && Late(env, s, s.handlers[p].msg);
      var r := OwnerStands(env, s, p);
      assert exists labels :: NoNewPrune(labels) && r !in Run(env, s, labels).db.raw;
    }
  }

  /** Observed no earlier than the Monday that many weeks before the current one. */
  predicate InWindow(z: Zone, m: Msg, now: int, weeks: nat) {
    LocalDay(z, SecondOf(m.observedAt)) >= MondayOf(LocalDay(z, now)) - 7 * weeks
  }

  /** While the prune of an instant runs, no check-in in flight is late exactly when all that the
      snapshot lacks were observed in its window; so those of the current week never are, the number
      of weeks being no less than 0. */
  lemma RecentIffInWindow(env: Env, s: State, now: int, weeks: nat)
    requires !s.pruner.Idle? && s.pruner.cutoff == CutoffOf(env.zone, now, weeks)
    requires MonotoneDays(env.zone) && CutoffIsMidnight(env.zone, now, weeks)
    requires forall p | p in s.handlers && Owner(env, s.handlers[p]) ::
               Regular(env.zone, SecondOf(s.handlers[p].msg.observedAt))
    ensures Recent(env, s) <==>
            forall p | p in s.handlers && Owner(env, s.handlers[p]) ::
              s.handlers[p].msg.hash in s.pruner.protected || InWindow(env.zone, s.handlers[p].msg, now, weeks)
  {
    forall p | p in s.handlers && Owner(env, s.handlers[p])
      ensures NanoWeekStart(env.zone, s.handlers[p].msg.observedAt) >= s.pruner.cutoff <==>
              InWindow(env.zone, s.handlers[p].msg, now, weeks)
    {
      NotBeforeCutoffIff(env.zone, s.handlers[p].msg.observedAt, now, weeks);
    }
  }

  /** A message observed in the current week or since. */
  lemma LiveIsInWindow(z: Zone, m: Msg, now: int, weeks: nat)
    requires || (MonotoneDays(z) && now <= SecondOf(m.observedAt))
             || LocalDay(z, SecondOf(m.observedAt)) >= MondayOf(LocalDay(z, now))
    ensures InWindow(z, m, now, weeks)
  {
  }
}
