/** Schedules in which a check-in three weeks old, handled while a prune runs, goes wrong. */
module LateRuns {
  import opened Wrappers
  import opened Calendar
  import opened Extraction
  import opened Store
  import opened Ingest
  import opened Retention
  import opened Protocol
  import opened Safety
  import opened Grounding
  import opened Invariant
  import opened Displaced

  const UTC: Zone := t => 0

  function SampleEnv(): Env {
    Env(UTC, payload => Some(Candidate("avery", "Avery", "#meshmonday")))
  }

  /** Observed on Monday 1970-01-05. */
  const OLD_MESSAGE := Msg("hash", "payload", "SEA", "observer", 4 * DAY * NANOS)

  const OLD_ROW := RawRow(1, "hash", "payload", "SEA", 4 * DAY)
  const OLD_LINK := Link(4, "avery", "hash")

  lemma OldMessageIsCheckin()
    ensures SecondOf(OLD_MESSAGE.observedAt) == 4 * DAY
    ensures WeekStart(UTC, 4 * DAY) == 4 * DAY
    ensures MsgLink(SampleEnv(), OLD_MESSAGE) == Some(OLD_LINK)
  {
  }

  function Stored(pruner: Pruner): State {
    State(EMPTY.(raw := [OLD_ROW], nextRaw := 2), map[0 := Handler(OLD_MESSAGE, AtObs(true))], pruner, false)
  }

  lemma StoreOldMessage()
    ensures var env := SampleEnv();
            Next(env, Next(env, START, Begin(0, OLD_MESSAGE)), Advance(0, false, 0)) == Stored(Idle)
  {
  }

  lemma SnapshotMissesOldMessage()
    ensures Next(SampleEnv(), Stored(Idle), PruneStart(25 * DAY, 0)) == Stored(Scanning(25 * DAY, {}, 0))
  {
    assert LocalDay(UTC, 25 * DAY) == 25 && WeekStart(UTC, 25 * DAY) == 25 * DAY;
    assert CutoffOf(UTC, 25 * DAY, 0) == 25 * DAY;
    assert ProtectedHashes(Stored(Idle).db) == {};
  }

  lemma OldMessageLandsMidPrune()
    ensures var env, s := SampleEnv(), Stored(Scanning(25 * DAY, {}, 0));
            var step := Advance(0, false, 0);
            var t := Next(env, Next(env, Next(env, s, step), step), step);
            && t.db.raw == [OLD_ROW] && t.db.links == {OLD_LINK}
            && |t.db.checkins| == 1 && t.db.checkins[0].hash == "hash"
            && t.pruner == s.pruner && !t.faulted
  {
    OldMessageIsCheckin();
    var env, s := SampleEnv(), Stored(Scanning(25 * DAY, {}, 0));
    assert OLD_ROW in s.db.raw;
    var s4 := Next(env, s, Advance(0, false, 0));
    assert s4.handlers[0] == Handler(OLD_MESSAGE, AtLink) && s4.db.raw == s.db.raw;
    var s5 := Next(env, s4, Advance(0, false, 0));
    assert s5.handlers[0] == Handler(OLD_MESSAGE, AtCheckin) && s5.db.raw == s.db.raw;
    assert s5.db.links == {OLD_LINK};
  }

  lemma CascadeRemoves(env: Env, s: State)
    requires env.zone == UTC && s.pruner == Scanning(25 * DAY, {}, 0)
    requires s.db.raw == [OLD_ROW] && s.db.links == {OLD_LINK}
    requires |s.db.checkins| == 1 && s.db.checkins[0].hash == "hash"
    ensures var t := Next(env, Next(env, s, PruneScan), PruneDelete);
            t.db.raw == [] && t.db.checkins == [] && t.db.links == {}
  {
    OldMessageIsCheckin();
    var row, hash := OLD_ROW, OLD_ROW.hash;
    assert RowsAfter([row], 0) == [row];
    assert ScanBatch(s.db.raw, 0, SCAN_BATCH) == [row];
    assert [row][..0] == [];
    assert ToDelete(UTC, [row], 25 * DAY, {}) == [1];
    var u := Next(env, s, PruneScan);
    assert u == s.(pruner := Deleting(25 * DAY, {}, 0, [1]));
    assert ChunkOf([1]) == [1] && 1 in IdSet([1]);
    assert row in s.db.raw;
    assert hash in GoneHashes(s.db, IdSet([1]));
    assert Next(env, u, PruneDelete).db == DeleteRaw(s.db, IdSet([1]));
  }

  /** A check-in three weeks old that is handled while a prune with its snapshot already taken runs
      is inserted and then removed by the cascade: the assumption on weeks is needed. */
  lemma StaleCheckinIsCascadedAway()
    ensures var env := SampleEnv();
            var step := Advance(0, false, 0);
            var s := Run(env, START, [Begin(0, OLD_MESSAGE), step, PruneStart(25 * DAY, 0)] + [step, step, step]);
            var t := Run(env, s, [PruneScan] + [PruneDelete]);
            && |s.db.checkins| == 1 && |s.db.links| == 1 && !s.faulted
            && t.db.raw == [] && t.db.checkins == [] && t.db.links == {}
  {
    var env, step := SampleEnv(), Advance(0, false, 0);
    StoreOldMessage();
    SnapshotMissesOldMessage();
    OldMessageLandsMidPrune();
    var mid := RunThree(env, START, Begin(0, OLD_MESSAGE), step, PruneStart(25 * DAY, 0));
    RunConcat(env, START, [Begin(0, OLD_MESSAGE), step, PruneStart(25 * DAY, 0)], [step, step, step]);
    var s := RunThree(env, mid, step, step, step);
    CascadeRemoves(env, s);
    RunStep(env, s, PruneScan, [PruneDelete]);
    RunStep(env, Next(env, s, PruneScan), PruneDelete, []);
    assert [PruneDelete] == [PruneDelete] + [];
  }

  // ----- An orphaned link, and a link without a check-in -----

  /** The same packet, observed again on Monday 1970-01-26. */
  const NEW_MESSAGE := Msg("hash", "payload", "SEA", "o2", 25 * DAY * NANOS)

  const NEW_ROW := RawRow(2, "hash", "payload", "SEA", 25 * DAY)
  const NEW_LINK := Link(25, "avery", "hash")

  const RUNNING := Scanning(25 * DAY, {}, 0)

  lemma NewMessageIsCheckin()
    ensures SecondOf(NEW_MESSAGE.observedAt) == 25 * DAY
    ensures MsgLink(SampleEnv(), NEW_MESSAGE) == Some(NEW_LINK)
    ensures RowLink(SampleEnv(), NEW_ROW) == Some(NEW_LINK)
  {
    FractionKeepsBucket(UTC, NEW_MESSAGE.observedAt);
    assert LocalDay(UTC, 25 * DAY) == 25;
    assert WeekStart(UTC, 25 * DAY) == 25 * DAY;
    RowLinkIsMsgLink(SampleEnv(), NEW_ROW, NEW_MESSAGE);
  }

  /** The old message's handler has stored its row and is about to link it. */
  function Linking(db: DB, pruner: Pruner): State {
    State(db, map[0 := Handler(OLD_MESSAGE, AtLink)], pruner, false)
  }

  const OBSERVED := EMPTY.(raw := [OLD_ROW], nextRaw := 2, obs := {Obs("hash", "observer")})
  const PULLED := EMPTY.(nextRaw := 2)

  lemma OldMessageObserved()
    ensures Next(SampleEnv(), Stored(Idle), Advance(0, false, 0)) == Linking(OBSERVED, Idle)
  {
    OldMessageIsCheckin();
    assert OLD_ROW in Stored(Idle).db.raw;
  }

  lemma RowIsPulled()
    ensures var env := SampleEnv();
            var s := Next(env, Linking(OBSERVED, Idle), PruneStart(25 * DAY, 0));
            Next(env, Next(env, s, PruneScan), PruneDelete) == Linking(PULLED, RUNNING)
  {
    var env := SampleEnv();
    OldMessageIsCheckin();
    assert LocalDay(UTC, 25 * DAY) == 25 && WeekStart(UTC, 25 * DAY) == 25 * DAY;
    assert CutoffOf(UTC, 25 * DAY, 0) == 25 * DAY;
    assert ProtectedHashes(OBSERVED) == {};
    OldRowIsSelected();
    OldRowIsDeleted();
  }

  lemma OldRowIsSelected()
    ensures ToDelete(UTC, ScanBatch([OLD_ROW], 0, SCAN_BATCH), 25 * DAY, {}) == [1]
    ensures ScanBatch([OLD_ROW], 0, SCAN_BATCH) != []
  {
    OldMessageIsCheckin();
    assert RowsAfter([OLD_ROW], 0) == [OLD_ROW];
    assert [OLD_ROW][..0] == [];
  }

  lemma OldRowIsDeleted()
    ensures DeleteRaw(OBSERVED, IdSet(ChunkOf([1]))) == PULLED
  {
    var row := OLD_ROW;
    assert row in OBSERVED.raw && 1 in IdSet([1]);
    assert row.hash in GoneHashes(OBSERVED, IdSet([1]));
  }

  /** The packet is stored again. */
  const AGAIN := EMPTY.(raw := [NEW_ROW], nextRaw := 3)

  function Both(db: DB, first: Pc, again: Pc): State {
    State(db, map[0 := Handler(OLD_MESSAGE, first), 1 := Handler(NEW_MESSAGE, again)], RUNNING, false)
  }

  lemma PacketIsStoredAgain()
    ensures var env := SampleEnv();
            Next(env, Next(env, Linking(PULLED, RUNNING), Begin(1, NEW_MESSAGE)), Advance(1, false, 0))
            == Both(AGAIN, AtLink, AtObs(true))
  {
    NewMessageIsCheckin();
  }

  const ORPHANED := AGAIN.(links := {OLD_LINK})

  lemma OldLinkLands()
    ensures Next(SampleEnv(), Both(AGAIN, AtLink, AtObs(true)), Advance(0, false, 0))
            == Both(ORPHANED, AtCheckin, AtObs(true))
  {
    OldMessageIsCheckin();
    assert NEW_ROW in AGAIN.raw;
  }

  lemma OnlyNewLinkIsDerived()
    ensures DerivedLinks(SampleEnv(), ORPHANED) == {NEW_LINK}
  {
    NewMessageIsCheckin();
    assert NEW_ROW in ORPHANED.raw;
  }

  const FIRST: seq<Label> := [Begin(0, OLD_MESSAGE), Advance(0, false, 0), Advance(0, false, 0)]
  const PRUNE: seq<Label> := [PruneStart(25 * DAY, 0), PruneScan, PruneDelete]
  const SECOND: seq<Label> := [Begin(1, NEW_MESSAGE), Advance(1, false, 0), Advance(0, false, 0)]

  lemma RunToOrphan()
    ensures Run(SampleEnv(), START, FIRST + (PRUNE + SECOND)) == Both(ORPHANED, AtCheckin, AtObs(true))
  {
    var env := SampleEnv();
    StoreOldMessage();
    OldMessageObserved();
    RowIsPulled();
    PacketIsStoredAgain();
    OldLinkLands();
    RunConcat(env, START, FIRST, PRUNE + SECOND);
    var a := RunThree(env, START, FIRST[0], FIRST[1], FIRST[2]);
    RunConcat(env, a, PRUNE, SECOND);
    var b := RunThree(env, a, PRUNE[0], PRUNE[1], PRUNE[2]);
    var c := RunThree(env, b, SECOND[0], SECOND[1], SECOND[2]);
  }

  /** No statement fails, and yet the table holds a link that no stored row yields, and a restore
      keeps it. */
  lemma LinkIsOrphaned()
    ensures var env := SampleEnv();
            var t := Run(env, START, FIRST + (PRUNE + SECOND));
            && !t.faulted
            && t.db.links == {OLD_LINK} && DerivedLinks(env, t.db) == {NEW_LINK}
            && OLD_LINK in Restored(env, t.db).links
            && Restored(env, t.db).links != DerivedLinks(env, Restored(env, t.db))
  {
    RunToOrphan();
    OnlyNewLinkIsDerived();
    RestoreMendsIff(SampleEnv(), ORPHANED);
    assert OLD_LINK in ORPHANED.links && OLD_LINK !in DerivedLinks(SampleEnv(), ORPHANED);
  }

  /** The old message is checked in for its week. */
  const CHECKED_IN := ORPHANED.(checkins := [MsgCheckinOld(1)], nextCheckin := 2)

  function MsgCheckinOld(id: int): CheckinRow {
    CheckinRow(id, "hash", "avery", "Avery", "#meshmonday", "SEA", 4, 4, 0)
  }

  lemma OldCheckinLands()
    ensures Next(SampleEnv(), Both(ORPHANED, AtCheckin, AtObs(true)), Advance(0, false, 0))
            == State(CHECKED_IN, map[1 := Handler(NEW_MESSAGE, AtObs(true))], RUNNING, false)
  {
    OldMessageIsCheckin();
    FractionKeepsBucket(UTC, OLD_MESSAGE.observedAt);
    assert LocalDay(UTC, 4 * DAY) == 4;
    assert MsgCheckin(SampleEnv(), OLD_MESSAGE, 0) == MsgCheckinOld(0);
    assert NEW_ROW in ORPHANED.raw;
  }

  const LINKED := CHECKED_IN.(obs := {Obs("hash", "o2")}, links := {OLD_LINK, NEW_LINK})

  lemma NewLinkLands()
    ensures var env := SampleEnv();
            var s := State(CHECKED_IN, map[1 := Handler(NEW_MESSAGE, AtObs(true))], RUNNING, false);
            Next(env, Next(env, s, Advance(1, false, 0)), Advance(1, false, 0))
            == State(LINKED, map[1 := Handler(NEW_MESSAGE, AtCheckin)], RUNNING, false)
  {
    NewMessageIsCheckin();
    assert NEW_ROW in CHECKED_IN.raw;
    assert {OLD_LINK} + {NEW_LINK} == {OLD_LINK, NEW_LINK};
  }

  lemma NewCheckinConflicts()
    ensures var s := State(LINKED, map[1 := Handler(NEW_MESSAGE, AtCheckin)], RUNNING, false);
            Next(SampleEnv(), s, Advance(1, false, 0)) == State(LINKED, map[], RUNNING, false)
  {
    NewMessageIsCheckin();
    assert MsgCheckinOld(1) in LINKED.checkins;
  }

  const THIRD: seq<Label> := [Advance(0, false, 0), Advance(1, false, 0), Advance(1, false, 0)]

  /** Going on, the new message's link has no check-in in the end: its insert conflicts with the
      check-in of the old one on the packet hash, and that counts as no failure. */
  lemma LinkHasNoCheckin()
    ensures var env := SampleEnv();
            var t := Next(env, Run(env, START, (FIRST + (PRUNE + SECOND)) + THIRD), Advance(1, false, 0));
            && t.handlers == map[] && !t.faulted
            && NEW_LINK in t.db.links && !HasCheckin(t.db, NEW_LINK.week, NEW_LINK.username)
  {
    var env := SampleEnv();
    RunToOrphan();
    OldCheckinLands();
    NewLinkLands();
    NewCheckinConflicts();
    var s := Both(ORPHANED, AtCheckin, AtObs(true));
    RunConcat(env, START, FIRST + (PRUNE + SECOND), THIRD);
    var t := RunThree(env, s, THIRD[0], THIRD[1], THIRD[2]);
  }

  // ----- A late handler at its last insert, without any fault -----

  const AWAITING := OBSERVED.(links := {OLD_LINK})

  function Awaiting(): State {
    State(AWAITING, map[0 := Handler(OLD_MESSAGE, AtCheckin)], RUNNING, false)
  }

  lemma OldMessageAwaits()
    ensures var env := SampleEnv();
            var s := Next(env, Stored(Idle), PruneStart(25 * DAY, 0));
            Next(env, Next(env, s, Advance(0, false, 0)), Advance(0, false, 0)) == Awaiting()
  {
    OldMessageIsCheckin();
    SnapshotMissesOldMessage();
    assert OLD_ROW in OBSERVED.raw;
  }

  const BEGIN: seq<Label> := [Begin(0, OLD_MESSAGE), Advance(0, false, 0), PruneStart(25 * DAY, 0)]
  const LINK: seq<Label> := [Advance(0, false, 0)] + [Advance(0, false, 0)]

  lemma RunToAwaiting()
    ensures Run(SampleEnv(), START, BEGIN + LINK) == Awaiting()
  {
    var env := SampleEnv();
    StoreOldMessage();
    OldMessageAwaits();
    RunConcat(env, START, BEGIN, LINK);
    var s := RunThree(env, START, BEGIN[0], BEGIN[1], BEGIN[2]);
    RunStep(env, s, Advance(0, false, 0), [Advance(0, false, 0)]);
    assert [Advance(0, false, 0)] == [Advance(0, false, 0)] + [];
    RunStep(env, Next(env, s, Advance(0, false, 0)), Advance(0, false, 0), []);
  }

  lemma OtherWeekLink()
    ensures MsgLink(SampleEnv(), OLD_MESSAGE.(observedAt := 25 * DAY * NANOS)) == Some(NEW_LINK)
  {
    FractionKeepsBucket(UTC, 25 * DAY * NANOS);
    assert LocalDay(UTC, 25 * DAY) == 25;
    assert WeekStart(UTC, 25 * DAY) == 25 * DAY;
  }

  lemma AwaitingIsSafe()
    ensures Safe(SampleEnv(), Awaiting())
  {
    RunToAwaiting();
    RunSafe(SampleEnv(), START, BEGIN + LINK);
  }

  lemma AwaitingIsGrounded()
    ensures OLD_ROW in AWAITING.raw && IsRowOf(OLD_ROW, OLD_MESSAGE) && Grounded(SampleEnv(), Awaiting())
  {
    OldMessageIsCheckin();
    assert OLD_ROW in AWAITING.raw;
    RowLinkIsMsgLink(SampleEnv(), OLD_ROW, OLD_MESSAGE);
    assert OLD_LINK in DerivedLinks(SampleEnv(), AWAITING);
  }

  lemma AwaitingIsLate()
    ensures Late(SampleEnv(), Awaiting(), OLD_MESSAGE)
    ensures OtherWeek(SampleEnv(), AWAITING, OLD_MESSAGE, 25 * DAY * NANOS)
  {
    OldMessageIsCheckin();
    FractionKeepsBucket(UTC, OLD_MESSAGE.observedAt);
    OtherWeekLink();
  }

  /** Five steps from the empty store, none of them failing, lead to a state in which a handler may
      miss its check-in, may meet another one of its packet, and may leave another week's link alone. */
  lemma LateHandlerMayMiss()
    ensures var env := SampleEnv();
            var s := Run(env, START, BEGIN + LINK);
            && !s.faulted
            && (exists labels :: NoNewPrune(labels) && Waits(labels, 0) && !Run(env, s, labels).faulted
                                 && exists c :: c in Run(env, s, labels).db.checkins && c.hash == "hash")
            && (exists labels :: NoNewPrune(labels) && Waits(labels, 0)
                                 && Missed(env, Run(env, s, labels), 0, OLD_MESSAGE, 0))
            && (exists labels :: NoNewPrune(labels) && !Run(env, s, labels).faulted
                                 && NEW_LINK in Run(env, s, labels).db.links
                                 && !HasCheckin(Run(env, s, labels).db, 25, "avery")
                                 && Unowned(env, Run(env, s, labels), "hash"))
  {
    var env, s, at := SampleEnv(), Awaiting(), 25 * DAY * NANOS;
    RunToAwaiting();
    AwaitingIsSafe();
    AwaitingIsGrounded();
    AwaitingIsLate();
    OtherWeekLink();
    HashConflictIff(env, s, 0, OLD_ROW, at);
    CheckinIsMissedIff(env, s, 0, OLD_ROW, at, 0);
    LinkIsLeftAloneIff(env, s, 0, OLD_ROW, at);
  }
}
