/** Check-ins that get in each other's way: a packet whose row was pulled from under its handler
arrives again and is handled anew. */
module Displaced {
  import opened Wrappers
  import opened Store
  import opened Ingest
  import opened Migration
  import opened Protocol
  import opened Safety
  import opened PruneRuns
  import opened Grounding
  import opened Invariant
  import opened Runs
  import opened Stale

  // ----- The late handler goes without -----

  /** A schedule that leaves the handler where it is. */
  ghost predicate Waits(labels: seq<Label>, pid: nat) {
    forall l | l in labels :: LeavesAlone(l, pid)
  }

  predicate LeavesAlone(l: Label, pid: nat) {
    !(l.Advance? && l.pid == pid) && !l.Crash?
  }

  /** The handler is the only one with that packet, and the packet has no check-in yet. */
  ghost predicate Sole(env: Env, s: State, pid: nat, m: Msg) {
    && pid in s.handlers && s.handlers[pid] == Handler(m, AtCheckin)
    && (forall p | p in s.handlers && p != pid && Owner(env, s.handlers[p]) :: s.handlers[p].msg.hash != m.hash)
    && (forall c | c in s.db.checkins :: c.hash != m.hash)
  }

  lemma AdvanceSole(env: Env, s: State, p: nat, fails: bool, clock: int, pid: nat, m: Msg)
    requires Sole(env, s, pid, m) && HasRaw(s.db, m.hash) && p in s.handlers && p != pid
    ensures Sole(env, AdvanceHandler(env, s, p, fails, clock), pid, m)
  {
    StepMakesNoOwner(env, s.db, s.handlers[p], fails, clock, m.hash);
  }

  lemma NextSole(env: Env, s: State, l: Label, pid: nat, m: Msg)
    requires Safe(env, s) && Sole(env, s, pid, m) && HasRaw(s.db, m.hash) && LeavesAlone(l, pid)
    ensures Sole(env, Next(env, s, l), pid, m)
  {
    match l
    case Advance(p, fails, clock) => if p in s.handlers { AdvanceSole(env, s, p, fails, clock, pid, m); }
    case _ =>
  }

  lemma {:induction false} RunSole(env: Env, s: State, labels: seq<Label>, pid: nat, m: Msg, r: RawRow)
    requires Safe(env, s) && Sole(env, s, pid, m) && Spared(env, s, r) && r.hash == m.hash
    requires NoNewPrune(labels) && Waits(labels, pid)
    ensures Sole(env, Run(env, s, labels), pid, m) && r in Run(env, s, labels).db.raw
    decreases |labels|
  {
    if labels != [] {
      var t := Next(env, s, labels[0]);
      assert LeavesAlone(labels[0], pid);
      assert HasRaw(s.db, m.hash);
      NextSole(env, s, labels[0], pid, m);
      NextSpares(env, s, labels[0], r);
      NextSafe(env, s, labels[0]);
      RunSole(env, t, labels[1..], pid, m, r);
    }
  }

  /** The same packet observed at another instant is a check-in of a week for which, like for that
      of the message itself, the user has none. */
  predicate OtherWeek(env: Env, db: DB, m: Msg, at: int) {
    var other := MsgLink(env, m.(observedAt := at));
    && MsgLink(env, m).Some? && other.Some?
    && other.value.week != MsgLink(env, m).value.week
    && !HasCheckin(db, other.value.week, other.value.username)
    && !HasCheckin(db, MsgLink(env, m).value.week, other.value.username)
  }

  /** With the row gone, the packet arrives again and is checked in for the other week. */
  lemma Displaces(env: Env, s: State, m: Msg, at: int) returns (labels: seq<Label>, q: nat)
    requires Consistent(s.db) && !HasRaw(s.db, m.hash) && OtherWeek(env, s.db, m, at)
    ensures q !in s.handlers && NoNewPrune(labels) && forall pid | pid in s.handlers :: Waits(labels, pid)
    ensures var t := Run(env, s, labels);
            && t.handlers == s.handlers && t.faulted == s.faulted
            && HasRaw(t.db, m.hash)
            && (exists c :: c in t.db.checkins && c.hash == m.hash)
            && !HasCheckin(t.db, MsgLink(env, m).value.week, MsgLink(env, m).value.username)
  {
    q := FreePid(s.handlers.Keys);
    var other := m.(observedAt := at);
    labels := HandlerRun(q, other, NO_FAULTS, 0);
    HandledIsRun(env, s, q, other, NO_FAULTS, 0);
    HandledChecksIn(env, s.db, other, 0);
    var c := MsgCheckin(env, other, 0).(id := s.db.nextCheckin);
    var after := Run(env, s, labels).db;
    assert after.checkins == s.db.checkins + [c];
    assert after.checkins[|s.db.checkins|] == c;
    AppendedRow(s.db.checkins, c);
  }

  lemma LateIsDisplaced(env: Env, s: State, pid: nat, m: Msg, r: RawRow, at: int) returns (labels: seq<Label>)
    requires Safe(env, s) && !s.pruner.Idle? && pid in s.handlers && s.handlers[pid] == Handler(m, AtCheckin)
    requires r in s.db.raw && r.hash == m.hash && !Spared(env, s, r) && OtherWeek(env, s.db, m, at)
    ensures NoNewPrune(labels) && Waits(labels, pid)
    ensures var t := Run(env, s, labels);
            && pid in t.handlers && t.handlers[pid] == s.handlers[pid] && t.faulted == s.faulted
            && HasRaw(t.db, m.hash)
            && (exists c :: c in t.db.checkins && c.hash == m.hash)
            && !HasCheckin(t.db, MsgLink(env, m).value.week, MsgLink(env, m).value.username)
  {
    var removal := PruneRemoves(env, s, r);
    PruneOnlyRemoves(env, s, removal);
    var rest, q := Displaces(env, Run(env, s, removal), m, at);
    RunConcat(env, s, removal, rest);
    labels := removal + rest;
    forall l | l in removal ensures LeavesAlone(l, pid) {}
    assert Waits(rest, pid);
  }

  /** While a handler waits to check in, its packet can get another check-in, no statement failing, so
      that its own insert conflicts on the hash, if and only if it is late for the running prune. */
  lemma HashConflictIff(env: Env, s: State, pid: nat, r: RawRow, at: int)
    requires Safe(env, s) && Exclusive(env, s.db, s.handlers) && !s.faulted && !s.pruner.Idle?
    requires pid in s.handlers && s.handlers[pid].pc == AtCheckin
    requires r in s.db.raw && IsRowOf(r, s.handlers[pid].msg) && OtherWeek(env, s.db, s.handlers[pid].msg, at)
    ensures var m := s.handlers[pid].msg;
            (exists labels :: NoNewPrune(labels) && Waits(labels, pid) && !Run(env, s, labels).faulted
                              && exists c :: c in Run(env, s, labels).db.checkins && c.hash == m.hash) <==>
            Late(env, s, m)
  {
    var m := s.handlers[pid].msg;
    OwnerIsRejectedIff(env, s, pid, r);
    if Late(env, s, m) {
      var labels := LateIsDisplaced(env, s, pid, m, r, at);
    } else {
      forall labels | NoNewPrune(labels) && Waits(labels, pid)
        ensures forall c | c in Run(env, s, labels).db.checkins :: c.hash != m.hash
      {
        RunSole(env, s, labels, pid, m, r);
      }
    }
  }

  /** The handler's last insert goes through without a fault and leaves its user without a check-in
      of the week. */
  ghost predicate Missed(env: Env, t: State, pid: nat, m: Msg, clock: int)
    requires MsgLink(env, m).Some?
  {
    && pid in t.handlers && t.handlers[pid] == Handler(m, AtCheckin)
    && var u := AdvanceHandler(env, t, pid, false, clock);
       !u.faulted && !HasCheckin(u.db, MsgLink(env, m).value.week, MsgLink(env, m).value.username)
  }

  lemma ConflictMisses(env: Env, t: State, pid: nat, m: Msg, clock: int)
    requires pid in t.handlers && t.handlers[pid] == Handler(m, AtCheckin) && MsgLink(env, m).Some? && !t.faulted
    requires exists c :: c in t.db.checkins && c.hash == m.hash
    requires !HasCheckin(t.db, MsgLink(env, m).value.week, MsgLink(env, m).value.username)
    ensures Missed(env, t, pid, m, clock)
  {
    assert CheckinConflict(t.db, MsgCheckin(env, m, clock));
  }

  /** A handler can so miss its check-in, no statement failing, if and only if it is late for the
      running prune. */
  lemma CheckinIsMissedIff(env: Env, s: State, pid: nat, r: RawRow, at: int, clock: int)
    requires Safe(env, s) && Exclusive(env, s.db, s.handlers) && !s.faulted && !s.pruner.Idle?
    requires pid in s.handlers && s.handlers[pid].pc == AtCheckin
    requires r in s.db.raw && IsRowOf(r, s.handlers[pid].msg) && OtherWeek(env, s.db, s.handlers[pid].msg, at)
    ensures var m := s.handlers[pid].msg;
            (exists labels :: NoNewPrune(labels) && Waits(labels, pid)
                              && Missed(env, Run(env, s, labels), pid, m, clock)) <==>
            Late(env, s, m)
  {
    var m := s.handlers[pid].msg;
    OwnerIsRejectedIff(env, s, pid, r);
    if Late(env, s, m) {
      var labels := LateIsDisplaced(env, s, pid, m, r, at);
      ConflictMisses(env, Run(env, s, labels), pid, m, clock);
    } else {
      forall labels | NoNewPrune(labels) && Waits(labels, pid)
        ensures !Missed(env, Run(env, s, labels), pid, m, clock)
      {
        RunSole(env, s, labels, pid, m, r);
        CheckinLands(Run(env, s, labels).db, MsgCheckin(env, m, clock));
      }
    }
  }

  // ----- The handler that comes after it goes without -----

  /** Every link, check-in and handler in flight of the message's packet carries its link. */
  ghost predicate OneLink(env: Env, s: State, m: Msg) {
    && (forall l | l in s.db.links && l.hash == m.hash :: MsgLink(env, m) == Some(l))
    && (forall c | c in s.db.checkins && c.hash == m.hash :: MsgLink(env, m) == Some(LinkOf(c)))
    && (forall p | p in s.handlers && Owner(env, s.handlers[p]) && s.handlers[p].msg.hash == m.hash ::
          MsgLink(env, s.handlers[p].msg) == MsgLink(env, m))
  }

  lemma GroundedHasOneLink(env: Env, s: State, pid: nat, r: RawRow)
    requires RawKeys(s.db) && Grounded(env, s) && pid in s.handlers && Owner(env, s.handlers[pid])
    requires r in s.db.raw && IsRowOf(r, s.handlers[pid].msg)
    ensures OneLink(env, s, s.handlers[pid].msg)
  {
    DerivedIsOneLink(env, s.db, s.handlers[pid].msg, r);
  }

  /** Of a stored packet no other link is derived than that of its row. */
  lemma DerivedOfRow(env: Env, db: DB, r: RawRow)
    requires RawKeys(db) && r in db.raw
    ensures forall l | l in DerivedLinks(env, db) && l.hash == r.hash :: RowLink(env, r) == Some(l)
  {
  }

  lemma DerivedIsOneLink(env: Env, db: DB, m: Msg, r: RawRow)
    requires RawKeys(db) && r in db.raw && IsRowOf(r, m)
    ensures forall l | l in DerivedLinks(env, db) && l.hash == m.hash :: MsgLink(env, m) == Some(l)
  {
    RowLinkIsMsgLink(env, r, m);
    DerivedOfRow(env, db, r);
  }

  lemma StepKeepsOneLink(env: Env, db: DB, h: Handler, fails: bool, clock: int, m: Msg)
    requires HasRaw(db, m.hash) && (Owner(env, h) && h.msg.hash == m.hash ==> MsgLink(env, h.msg) == MsgLink(env, m))
    ensures var step := StepHandler(env, db, h, fails, clock);
            && (forall l | l in step.db.links && l.hash == m.hash :: l in db.links || MsgLink(env, m) == Some(l))
            && (forall c | c in step.db.checkins && c.hash == m.hash ::
                  c in db.checkins || MsgLink(env, m) == Some(LinkOf(c)))
            && (step.next.Some? ==> step.next.value.msg == h.msg)
            && (step.next.Some? && Owner(env, step.next.value) && h.msg.hash == m.hash ==>
                  MsgLink(env, h.msg) == MsgLink(env, m))
  {
    if h.pc == AtCheckin && MsgLink(env, h.msg).Some? {
      AppendedRow(db.checkins, MsgCheckin(env, h.msg, clock).(id := db.nextCheckin));
    }
  }

  lemma AdvanceKeepsOneLink(env: Env, s: State, pid: nat, fails: bool, clock: int, m: Msg)
    requires OneLink(env, s, m) && HasRaw(s.db, m.hash) && pid in s.handlers
    ensures OneLink(env, AdvanceHandler(env, s, pid, fails, clock), m)
  {
    StepKeepsOneLink(env, s.db, s.handlers[pid], fails, clock, m);
  }

  lemma MigrateKeepsOneLink(env: Env, s: State, m: Msg)
    requires Consistent(s.db) && OneLink(env, s, m)
    ensures OneLink(env, s.(db := Migrated(s.db)), m)
  {
    MigrateKeepsUnique(s.db);
  }

  lemma RestoreKeepsOneLink(env: Env, s: State, skipped: set<Hash>, m: Msg, r: RawRow)
    requires RawKeys(s.db) && OneLink(env, s, m) && r in s.db.raw && IsRowOf(r, m)
    ensures OneLink(env, Next(env, s, RestoreLinks(skipped)), m)
  {
    DerivedIsOneLink(env, s.db, m, r);
  }

  lemma NextKeepsOneLink(env: Env, s: State, l: Label, m: Msg, r: RawRow)
    requires Safe(env, s) && OneLink(env, s, m) && r in s.db.raw && IsRowOf(r, m)
    ensures OneLink(env, Next(env, s, l), m)
  {
    match l
    case Advance(pid, fails, clock) =>
      if pid in s.handlers {
        AdvanceKeepsOneLink(env, s, pid, fails, clock, m);
      }
    case MigrateSchema => if Quiet(s) { MigrateKeepsOneLink(env, s, m); }
    case RestoreLinks(skipped) => RestoreKeepsOneLink(env, s, skipped, m, r);
    case _ =>
  }

  lemma {:induction false} RunKeepsOneLink(env: Env, s: State, labels: seq<Label>, m: Msg, r: RawRow)
    requires Safe(env, s) && OneLink(env, s, m) && Spared(env, s, r) && IsRowOf(r, m) && NoNewPrune(labels)
    ensures OneLink(env, Run(env, s, labels), m)
    decreases |labels|
  {
    if labels != [] {
      NextKeepsOneLink(env, s, labels[0], m, r);
      NextSpares(env, s, labels[0], r);
      NextSafe(env, s, labels[0]);
      RunKeepsOneLink(env, Next(env, s, labels[0]), labels[1..], m, r);
    }
  }

  lemma RunAfter(env: Env, s: State, labels: seq<Label>, l: Label)
    requires NoNewPrune(labels) && !l.PruneStart?
    ensures NoNewPrune(labels + [l]) && Run(env, s, labels + [l]) == Next(env, Run(env, s, labels), l)
  {
    RunSnoc(env, s, labels, l);
  }

  /** The packet arrives, is stored and linked, and its handler is about to check it in. */
  lemma Arrives(env: Env, s: State, m: Msg) returns (labels: seq<Label>, q: nat)
    requires !HasRaw(s.db, m.hash) && MsgLink(env, m).Some?
    ensures NoNewPrune(labels) && q !in s.handlers
    ensures var t := Run(env, s, labels);
            && t == s.(db := t.db, handlers := s.handlers[q := Handler(m, AtCheckin)])
            && HasRaw(t.db, m.hash) && t.db.links == s.db.links + {MsgLink(env, m).value}
            && t.db.checkins == s.db.checkins && t.db.nextCheckin == s.db.nextCheckin
  {
    q := FreePid(s.handlers.Keys);
    labels := [];
    RunAfter(env, s, labels, Begin(q, m));
    labels := labels + [Begin(q, m)];
    RunAfter(env, s, labels, Advance(q, false, 0));
    labels := labels + [Advance(q, false, 0)];
    RunAfter(env, s, labels, Advance(q, false, 0));
    labels := labels + [Advance(q, false, 0)];
    FirstTwoSteps(env, s, q, m, NO_FAULTS, 0);
    var u := ObservedState(env, s, q, m, NO_FAULTS);
    RunAfter(env, s, labels, Advance(q, false, 0));
    labels := labels + [Advance(q, false, 0)];
    Links(env, s, m, q);
  }

  lemma Links(env: Env, s: State, m: Msg, q: nat)
    requires !HasRaw(s.db, m.hash) && MsgLink(env, m).Some? && q !in s.handlers
    ensures var t := Next(env, ObservedState(env, s, q, m, NO_FAULTS), Advance(q, false, 0));
            && t == s.(db := t.db, handlers := s.handlers[q := Handler(m, AtCheckin)])
            && HasRaw(t.db, m.hash) && t.db.links == s.db.links + {MsgLink(env, m).value}
            && t.db.checkins == s.db.checkins && t.db.nextCheckin == s.db.nextCheckin
  {
    var stored := Attempt(s.db, RawStatement(m), false);
    var observed := Attempt(stored, ObsStatement(m), false);
    assert stored.raw[|s.db.raw|] in stored.raw && observed.raw == stored.raw;
    LinkAttempted(env, observed, m, false);
    OneStep(env, observed, s.handlers, q, Handler(m, AtLink), s.pruner, s.faulted, false, 0);
  }

  /** A handler, wherever it stands, goes on to the end; nothing stands in the way of its check-in. */
  lemma ChecksIn(env: Env, s: State, base: map<nat, Handler>, pid: nat, h: Handler) returns (labels: seq<Label>)
    requires pid !in base && s.handlers == base[pid := h] && Owner(env, h)
    requires HasRaw(s.db, h.msg.hash) && !CheckinConflict(s.db, MsgCheckin(env, h.msg, 0))
    ensures NoNewPrune(labels)
    ensures var t := Run(env, s, labels);
            && t == s.(db := t.db, handlers := base)
            && s.db.links <= t.db.links
            && t.db.checkins == s.db.checkins + [MsgCheckin(env, h.msg, 0).(id := s.db.nextCheckin)]
  {
    var step := Advance(pid, false, 0);
    OneStep(env, s.db, base, pid, h, s.pruner, s.faulted, false, 0);
    var u := Next(env, s, step);
    RunAfter(env, s, [], step);
    labels := [step];
    assert [] + [step] == [step];
    match h.pc
    case AtCheckin =>
    case AtLink =>
      var more := LinksAndChecksIn(env, s, base, pid, h.msg);
      labels := more;
    case AtObs(_) =>
      assert u.db == s.db.(obs := u.db.obs);
      var more := LinksAndChecksIn(env, u, base, pid, h.msg);
      RunConcat(env, s, labels, more);
      labels := labels + more;
  }

  lemma LinksAndChecksIn(env: Env, s: State, base: map<nat, Handler>, pid: nat, m: Msg) returns (labels: seq<Label>)
    requires pid !in base && s.handlers == base[pid := Handler(m, AtLink)] && MsgLink(env, m).Some?
    requires HasRaw(s.db, m.hash) && !CheckinConflict(s.db, MsgCheckin(env, m, 0))
    ensures NoNewPrune(labels)
    ensures var t := Run(env, s, labels);
            && t == s.(db := t.db, handlers := base)
            && s.db.links <= t.db.links
            && t.db.checkins == s.db.checkins + [MsgCheckin(env, m, 0).(id := s.db.nextCheckin)]
  {
    var step := Advance(pid, false, 0);
    var t := LastTwoSteps(env, s.(handlers := base), pid, m, NO_FAULTS, 0);
    LinkAttempted(env, s.db, m, false);
    assert s == State(s.db, base[pid := Handler(m, AtLink)], s.pruner, s.faulted);
    RunAfter(env, s, [], step);
    RunAfter(env, s, [] + [step], step);
    labels := [] + [step] + [step];
  }

  /** The insert of the handler that arrived later is ignored. */
  lemma Ignored(env: Env, s: State, base: map<nat, Handler>, q: nat, m: Msg)
    requires q !in base && s.handlers == base[q := Handler(m, AtCheckin)] && MsgLink(env, m).Some?
    requires exists c :: c in s.db.checkins && c.hash == m.hash
    ensures Next(env, s, Advance(q, false, 0)) == s.(handlers := base)
  {
    assert CheckinConflict(s.db, MsgCheckin(env, m, 0));
    OneStep(env, s.db, base, q, Handler(m, AtCheckin), s.pruner, s.faulted, false, 0);
  }

  /** With the row gone, the packet arrives again for another week; the first handler checks in, and
      the second one's insert is ignored. */
  lemma LeavesLinkAlone(env: Env, s: State, pid: nat, at: int) returns (labels: seq<Label>)
    requires Consistent(s.db) && pid in s.handlers && Owner(env, s.handlers[pid])
    requires !HasRaw(s.db, s.handlers[pid].msg.hash) && OtherWeek(env, s.db, s.handlers[pid].msg, at)
    ensures NoNewPrune(labels)
    ensures var m, t := s.handlers[pid].msg, Run(env, s, labels);
            var l := MsgLink(env, m.(observedAt := at)).value;
            && t.faulted == s.faulted && t.handlers == s.handlers - {pid}
            && l in t.db.links && !HasCheckin(t.db, l.week, l.username)
  {
    var h := s.handlers[pid];
    var m, other := h.msg, h.msg.(observedAt := at);
    var arrival, q := Arrives(env, s, other);
    var u := Run(env, s, arrival);
    var rest := s.handlers - {pid};
    var base := rest[q := Handler(other, AtCheckin)];
    assert u.handlers == base[pid := h];
    assert !CheckinConflict(u.db, MsgCheckin(env, m, 0));
    var finish := ChecksIn(env, u, base, pid, h);
    RunConcat(env, s, arrival, finish);
    var v := Run(env, u, finish);
    var c := MsgCheckin(env, m, 0).(id := u.db.nextCheckin);
    AppendedRow(u.db.checkins, c);
    Ignored(env, v, rest, q, other);
    RunAfter(env, s, arrival + finish, Advance(q, false, 0));
    labels := arrival + finish + [Advance(q, false, 0)];
  }

  /** A check-in in flight can bring it about that, no statement failing, a link of its packet for
      another week is left without a check-in of its user and without a handler to insert one, if and
      only if it is late for the running prune. */
  lemma LinkIsLeftAloneIff(env: Env, s: State, pid: nat, r: RawRow, at: int)
    requires Safe(env, s) && Grounded(env, s) && !s.faulted && !s.pruner.Idle?
    requires pid in s.handlers && Owner(env, s.handlers[pid])
    requires r in s.db.raw && IsRowOf(r, s.handlers[pid].msg) && OtherWeek(env, s.db, s.handlers[pid].msg, at)
    ensures var m := s.handlers[pid].msg;
            var l := MsgLink(env, m.(observedAt := at)).value;
            (exists labels :: NoNewPrune(labels) && !Run(env, s, labels).faulted
                              && l in Run(env, s, labels).db.links
                              && !HasCheckin(Run(env, s, labels).db, l.week, l.username)
                              && Unowned(env, Run(env, s, labels), l.hash)) <==>
            Late(env, s, m)
  {
    var m := s.handlers[pid].msg;
    var l := MsgLink(env, m.(observedAt := at)).value;
    OwnerIsRejectedIff(env, s, pid, r);
    if Late(env, s, m) {
      var removal := PruneRemoves(env, s, r);
      PruneOnlyRemoves(env, s, removal);
      var t := Run(env, s, removal);
      var rest := LeavesLinkAlone(env, t, pid, at);
      RunConcat(env, s, removal, rest);
      assert Unowned(env, Run(env, t, rest), l.hash);
      assert NoNewPrune(removal + rest);
    } else {
      GroundedHasOneLink(env, s, pid, r);
      forall labels | NoNewPrune(labels) ensures l !in Run(env, s, labels).db.links {
        RunKeepsOneLink(env, s, labels, m, r);
      }
    }
  }
}
