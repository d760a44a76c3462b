/** From ingest to leaderboard: what a board computed from a reachable store can say. */
module EndToEnd {
  import opened Wrappers
  import opened Calendar
  import opened Store
  import opened Ingest
  import opened Migration
  import opened Protocol
  import opened Safety
  import opened Grounding
  import opened Runs
  import opened Leaderboard
  import MeshWeeks
  import Streak

  // ----- The rows the leaderboard reads -----

  /** The EXISTS clause: some packet linked to the check-in's week and user was stored for one of the
      regions; without regions there is no such clause. */
  ghost predicate InRegions(db: DB, regions: seq<string>, c: CheckinRow) {
    regions == [] || exists l, r :: l in db.links && l.week == c.week && l.username == c.username
                                    && r in db.raw && r.hash == l.hash && r.iata in regions
  }

  /** ListCheckinsSince: the check-ins dated from a day on and seen in the regions, each once, in
      any order. */
  ghost predicate Listing(db: DB, trackDay: int, regions: seq<string>, list: seq<CheckinRow>) {
    && (forall c :: c in list <==> c in db.checkins && c.date >= trackDay && InRegions(db, regions, c))
    && (forall i, j :: 0 <= i < j < |list| ==> list[i] != list[j])
  }

  /** The week text read back is midnight UTC of its day. */
  function RowsOfList(list: seq<CheckinRow>): (rows: seq<Row>)
    ensures |rows| == |list|
    ensures forall i | 0 <= i < |list| :: rows[i] == Row(list[i].username, list[i].displayName, list[i].week * DAY)
  {
    seq(|list|, i requires 0 <= i < |list| => Row(list[i].username, list[i].displayName, list[i].week * DAY))
  }

  /** The message was observed by now, on a day whose midnight the zone has. */
  predicate Timely(z: Zone, now: int, m: Msg) {
    SecondOf(m.observedAt) <= now && HasMidnight(z, LocalDay(z, SecondOf(m.observedAt)))
  }

  predicate TimelyLabel(z: Zone, now: int, l: Label) {
    l.Begin? ==> Timely(z, now, l.msg)
  }

  /** The messages of a run. */
  ghost predicate Observed(z: Zone, now: int, labels: seq<Label>) {
    forall l | l in labels :: TimelyLabel(z, now, l)
  }

  /** Dated on its week's Monday, no later than the last day. */
  predicate OnMonday(c: CheckinRow, last: int) {
    c.week == c.date && IsMondayDay(c.week) && c.week <= last
  }

  ghost predicate Dated(env: Env, now: int, s: State) {
    && (forall p | p in s.handlers :: Timely(env.zone, now, s.handlers[p].msg))
    && (forall c | c in s.db.checkins :: OnMonday(c, LocalDay(env.zone, now)))
  }

  lemma TimelyCheckin(env: Env, now: int, m: Msg, clock: int)
    requires MonotoneDays(env.zone) && Timely(env.zone, now, m) && MsgLink(env, m).Some?
    ensures OnMonday(MsgCheckin(env, m, clock), LocalDay(env.zone, now))
  {
    var at := SecondOf(m.observedAt);
    FractionKeepsBucket(env.zone, m.observedAt);
    assert MondayOf(LocalDay(env.zone, at)) == LocalDay(env.zone, at);
    WeekStartMeaning(env.zone, at);
  }

  lemma NextDated(env: Env, now: int, s: State, l: Label)
    requires MonotoneDays(env.zone) && Dated(env, now, s) && TimelyLabel(env.zone, now, l)
    ensures Dated(env, now, Next(env, s, l))
  {
    NextHandlers(env, s, l);
    NextCheckins(env, s, l);
    forall c | c in Next(env, s, l).db.checkins && c !in s.db.checkins
      ensures OnMonday(c, LocalDay(env.zone, now))
    {
      var p, clock, id :| p in s.handlers && MsgLink(env, s.handlers[p].msg).Some?
                          && c == MsgCheckin(env, s.handlers[p].msg, clock).(id := id);
      TimelyCheckin(env, now, s.handlers[p].msg, clock);
    }
  }

  lemma {:induction false} RunDated(env: Env, now: int, s: State, labels: seq<Label>)
    requires MonotoneDays(env.zone) && Dated(env, now, s) && Observed(env.zone, now, labels)
    ensures Dated(env, now, Run(env, s, labels))
    decreases |labels|
  {
    if labels != [] {
      NextDated(env, now, s, labels[0]);
      RunDated(env, now, Next(env, s, labels[0]), labels[1..]);
    }
  }

  /** After any run a check-in's week is the Monday it was made on. */
  lemma CheckinOnMonday(env: Env, labels: seq<Label>, now: int, c: CheckinRow)
    requires MonotoneDays(env.zone) && Observed(env.zone, now, labels) && c in Run(env, START, labels).db.checkins
    ensures c.week == c.date && IsMondayDay(c.week) && c.week <= LocalDay(env.zone, now)
  {
    RunDated(env, now, START, labels);
  }

  /** A check-in whose packet was stored for a listed region is on the list, if it was handled, like
      everything else, without faults. */
  lemma OwnRegionIsListed(env: Env, s: State, trackDay: int, regions: seq<string>,
                          list: seq<CheckinRow>, c: CheckinRow)
    requires Reachable(env, s) && !s.faulted && s.handlers == map[] && Listing(s.db, trackDay, regions, list)
    requires c in s.db.checkins && c.date >= trackDay
    requires exists r :: r in s.db.raw && r.hash == c.hash && r.iata in regions
    ensures c in list
  {
    ReachableInv(env, s);
    ReachableIsRooted(env, s);
    CheckinsComeFromRows(env, s);
    FaultFreeRunsAreComplete(env, s);
    var r :| r in s.db.raw && CheckinOfRow(env, r, c);
    assert LinkOf(c) in DerivedLinks(env, s.db);
  }

  /** The user was heard in one of the regions that week: a packet stored for it yields their link. */
  ghost predicate HeardIn(env: Env, db: DB, regions: seq<string>, c: CheckinRow) {
    exists r :: r in db.raw && r.iata in regions && RowLink(env, r) == Some(Link(c.week, c.username, r.hash))
  }

  /** After a fault-free run the list has exactly the check-ins dated from that day on, of the users
      heard in the regions that week if any are given. */
  lemma ListedIff(env: Env, s: State, trackDay: int, regions: seq<string>, list: seq<CheckinRow>, c: CheckinRow)
    requires Reachable(env, s) && !s.faulted && s.handlers == map[] && Listing(s.db, trackDay, regions, list)
    ensures c in list <==>
            && c in s.db.checkins && c.date >= trackDay
            && (regions == [] || HeardIn(env, s.db, regions, c))
  {
    ReachableInv(env, s);
    FaultFreeRunsAreComplete(env, s);
    InRegionsIff(env, s.db, regions, c);
  }

  lemma InRegionsIff(env: Env, db: DB, regions: seq<string>, c: CheckinRow)
    requires RawKeys(db) && db.links == DerivedLinks(env, db)
    ensures InRegions(db, regions, c) <==> regions == [] || HeardIn(env, db, regions, c)
  {
    if regions != [] {
      if l, r :| l in db.links && l.week == c.week && l.username == c.username
                 && r in db.raw && r.hash == l.hash && r.iata in regions {
        var q :| q in db.raw && RowLink(env, q) == Some(l);
        assert q.hash == l.hash;
        assert q == r;
      }
      if r :| r in db.raw && r.iata in regions && RowLink(env, r) == Some(Link(c.week, c.username, r.hash)) {
        assert Link(c.week, c.username, r.hash) in db.links;
      }
    }
  }

  // ----- Counting weeks -----

  ghost predicate NoDuplicates(s: seq<int>) {
    forall i, j :: 0 <= i < j < |s| ==> s[i] != s[j]
  }

  lemma {:induction false} DistinctSize(s: seq<int>)
    requires NoDuplicates(s)
    ensures |set x | x in s| == |s|
  {
    if s != [] {
      var n := |s| - 1;
      DistinctSize(s[..n]);
      assert s[n] !in s[..n];
      assert (set x | x in s) == (set x | x in s[..n]) + {s[n]};
    }
  }

  /** No two of a user's rows share a week. */
  ghost predicate OneRowPerWeek(rows: seq<Row>, u: string) {
    forall i, j :: 0 <= i < j < |rows| && rows[i].username == u && rows[j].username == u ==>
      rows[i].weekStart != rows[j].weekStart
  }

  lemma {:induction false} WeeksComeFromRows(rows: seq<Row>, u: string, w: int)
    requires w in WeeksOf(rows, u)
    ensures exists i :: 0 <= i < |rows| && rows[i].username == u && rows[i].weekStart == w
  {
    var n := |rows| - 1;
    if w in WeeksOf(rows[..n], u) {
      WeeksComeFromRows(rows[..n], u, w);
      var i :| 0 <= i < n && rows[..n][i].username == u && rows[..n][i].weekStart == w;
      assert rows[i].username == u && rows[i].weekStart == w;
    } else {
      assert rows[n].username == u && rows[n].weekStart == w;
    }
  }

  lemma {:induction false} DistinctWeeks(rows: seq<Row>, u: string)
    requires OneRowPerWeek(rows, u)
    ensures NoDuplicates(WeeksOf(rows, u))
  {
    if rows != [] {
      var n := |rows| - 1;
      var before, w := WeeksOf(rows[..n], u), rows[n].weekStart;
      DistinctWeeks(rows[..n], u);
      if rows[n].username == u {
        if w in before {
          WeeksComeFromRows(rows[..n], u, w);
        }
        assert WeeksOf(rows, u) == before + [w];
      } else {
        assert WeeksOf(rows, u) == before;
      }
    }
  }

  /** The number of Mondays from the week of one day to the week of another. */
  function MondaysBetween(trackDay: int, day: int): int {
    (MondayOf(day) - MondayOf(trackDay)) / 7 + 1
  }

  predicate IsMondayWeek(w: int, trackDay: int, last: int) {
    w % DAY == 0 && IsMondayDay(w / DAY) && trackDay <= w / DAY <= last
  }

  lemma EarlierMonday(w: int, trackDay: int, last: int)
    requires IsMondayWeek(w, trackDay, last)
    ensures w != MondayOf(last) * DAY ==> IsMondayWeek(w, trackDay, last - 7)
    ensures MondaysBetween(trackDay, last) >= 1
    ensures MondaysBetween(trackDay, last) == MondaysBetween(trackDay, last - 7) + 1
  {
  }

  /** Mondays from the tracked day to the last one are no more than the Mondays there are. */
  lemma {:induction false} MondaysBound(weeks: set<int>, trackDay: int, last: int)
    requires forall w | w in weeks :: IsMondayWeek(w, trackDay, last)
    ensures weeks != {} ==> |weeks| <= MondaysBetween(trackDay, last)
    decreases |weeks|, last - trackDay
  {
    if weeks != {} {
      var newest := MondayOf(last) * DAY;
      var rest := weeks - {newest};
      forall w | w in weeks ensures w != newest ==> IsMondayWeek(w, trackDay, last - 7) {
        EarlierMonday(w, trackDay, last);
      }
      var w :| w in weeks;
      EarlierMonday(w, trackDay, last);
      MondaysBound(rest, trackDay, last - 7);
    }
  }

  // ----- The theorem -----

  lemma ListedOncePerWeek(db: DB, trackDay: int, regions: seq<string>, list: seq<CheckinRow>, u: string)
    requires OnePerWeek(db.checkins) && Listing(db, trackDay, regions, list)
    ensures OneRowPerWeek(RowsOfList(list), u)
  {
  }

  lemma UserWeek(env: Env, labels: seq<Label>, now: int, trackDay: int, regions: seq<string>,
                 list: seq<CheckinRow>, u: string, w: int)
    requires MonotoneDays(env.zone) && Observed(env.zone, now, labels)
    requires Listing(Run(env, START, labels).db, trackDay, regions, list) && w in WeeksOf(RowsOfList(list), u)
    ensures IsMondayWeek(w, trackDay, LocalDay(env.zone, now))
  {
    WeeksComeFromRows(RowsOfList(list), u, w);
    var i :| 0 <= i < |list| && RowsOfList(list)[i].username == u && RowsOfList(list)[i].weekStart == w;
    var c := list[i];
    assert c in list;
    CheckinOnMonday(env, labels, now, c);
    MondayWeek(c.week, trackDay, LocalDay(env.zone, now));
  }

  lemma MondayWeek(day: int, trackDay: int, last: int)
    requires IsMondayDay(day) && trackDay <= day <= last
    ensures IsMondayWeek(day * DAY, trackDay, last)
  {
  }

  lemma UserTotal(env: Env, labels: seq<Label>, now: int, trackDay: int, regions: seq<string>,
                  list: seq<CheckinRow>, u: string)
    requires MonotoneDays(env.zone) && Observed(env.zone, now, labels)
    requires Listing(Run(env, START, labels).db, trackDay, regions, list)
    ensures var weeks := WeeksOf(RowsOfList(list), u);
            && Streak.Aligned(weeks)
            && (weeks != [] ==> |weeks| <= MondaysBetween(trackDay, LocalDay(env.zone, now)))
  {
    var weeks, last := WeeksOf(RowsOfList(list), u), LocalDay(env.zone, now);
    RunConsistent(env, START, labels);
    ListedOncePerWeek(Run(env, START, labels).db, trackDay, regions, list, u);
    DistinctWeeks(RowsOfList(list), u);
    DistinctSize(weeks);
    forall w | w in weeks ensures IsMondayWeek(w, trackDay, last) {
      UserWeek(env, labels, now, trackDay, regions, list, u, w);
    }
    forall x, y | x in weeks && y in weeks ensures Streak.WholeWeeksApart(x, y) {
      MondaysAligned(x, y);
    }
    MondaysBound((set w | w in weeks), trackDay, last);
    assert weeks != [] ==> weeks[0] in set w | w in weeks;
  }

  /** After any run whatever, and for any regions: no streak on the board is longer than its user's
      check-in total, and no total exceeds the number of Mondays from the tracked week to the
      current one. */
  lemma BoardWithinMondays(env: Env, labels: seq<Label>, now: int, trackDay: int, regions: seq<string>,
                           list: seq<CheckinRow>, season: Season, board: seq<Entry>, e: Entry)
    requires MonotoneDays(env.zone) && Observed(env.zone, now, labels)
    requires Listing(Run(env, START, labels).db, trackDay, regions, list)
    requires IsBoard(RowsOfList(list), season, board) && e in board
    ensures 1 <= e.longestStreak <= e.mostCheckins <= MondaysBetween(trackDay, LocalDay(env.zone, now))
  {
    var weeks := WeeksOf(RowsOfList(list), e.username);
    assert e.username in Users(RowsOfList(list));
    UserTotal(env, labels, now, trackDay, regions, list, e.username);
    HasWeek(RowsOfList(list), e.username);
    Streak.StreakIsLongestRun(weeks);
  }

  lemma MondaysAligned(x: int, y: int)
    requires x % DAY == 0 == y % DAY && IsMondayDay(x / DAY) && IsMondayDay(y / DAY)
    ensures Streak.WholeWeeksApart(x, y)
  {
  }

  lemma {:induction false} HasWeek(rows: seq<Row>, u: string)
    requires u in Users(rows)
    ensures WeeksOf(rows, u) != []
  {
    var n := |rows| - 1;
    if rows[n].username != u {
      NextUsers(rows, n);
      assert rows[..n + 1] == rows;
      HasWeek(rows[..n], u);
    }
  }

  /** The midnights of the two dates a season is computed from exist, and the UTC offsets at their
      Mondays differ by less than a day. */
  ghost predicate SeasonDates(z: Zone, trackedFrom: int, now: int) {
    && MonotoneDays(z) && Regular(z, trackedFrom) && Regular(z, now)
    && -DAY < z(WeekStart(z, now)) - z(WeekStart(z, trackedFrom)) < DAY
  }

  /** From the tracked week's Monday to the current one's. */
  function SpanDays(z: Zone, trackedFrom: int, now: int): int {
    MondayOf(LocalDay(z, now)) - MondayOf(LocalDay(z, trackedFrom))
  }

  /** The season counts every Monday of its span exactly when the later Monday's offset is not
      greater, as long as the span fits a time.Duration. */
  lemma SeasonCountsMondays(z: Zone, trackedFrom: int, now: int)
    requires SeasonDates(z, trackedFrom, now)
    requires 0 <= SpanDays(z, trackedFrom, now)
    ensures SeasonOf(z, trackedFrom, now).weeks ==
            if SpanDays(z, trackedFrom, now) > MeshWeeks.LAST_EXACT_DAYS
            then MeshWeeks.SATURATED_WEEKS
            else MondaysBetween(LocalDay(z, trackedFrom), LocalDay(z, now))
                 - if z(WeekStart(z, now)) > z(WeekStart(z, trackedFrom)) then 1 else 0
  {
    var start := WeekStart(z, trackedFrom);
    WeekStartIdempotent(z, trackedFrom);
    WeekStartMeaning(z, trackedFrom);
    var m, n := MondayOf(LocalDay(z, trackedFrom)), MondayOf(LocalDay(z, now));
    assert MondayOf(LocalDay(z, start)) == m;
    MeshWeeks.CountWeeksExact(z, start, now);
    if m == n {
      WeekStartIsMidnight(z, trackedFrom);
      WeekStartIsMidnight(z, now);
    }
    WholeWeeks(LocalDay(z, trackedFrom), LocalDay(z, now));
  }

  lemma WholeWeeks(day: int, later: int)
    ensures (MondayOf(later) - MondayOf(day)) % 7 == 0
    ensures MondaysBetween(day, later) == (MondayOf(later) - MondayOf(day)) / 7 + 1
  {
  }

  /** On a board of any run a total exceeds the season length beside it exactly when the UTC offset at
      the current week's Monday is greater than at the tracked one's and the user never missed a
      Monday; past the range of a time.Duration, exactly when it exceeds the constant length. */
  lemma ExceedsSeasonIff(env: Env, labels: seq<Label>, now: int, trackedFrom: int, regions: seq<string>,
                         list: seq<CheckinRow>, board: seq<Entry>, e: Entry)
    requires SeasonDates(env.zone, trackedFrom, now) && Observed(env.zone, now, labels)
    requires Listing(Run(env, START, labels).db, LocalDay(env.zone, trackedFrom), regions, list)
    requires IsBoard(RowsOfList(list), SeasonOf(env.zone, trackedFrom, now), board) && e in board
    ensures e.mostCheckins > e.seasonWeeks <==>
            if SpanDays(env.zone, trackedFrom, now) > MeshWeeks.LAST_EXACT_DAYS
            then e.mostCheckins > MeshWeeks.SATURATED_WEEKS
            else && env.zone(WeekStart(env.zone, now)) > env.zone(WeekStart(env.zone, trackedFrom))
                 && e.mostCheckins == MondaysBetween(LocalDay(env.zone, trackedFrom), LocalDay(env.zone, now))
  {
    var z, season := env.zone, SeasonOf(env.zone, trackedFrom, now);
    BoardWithinMondays(env, labels, now, LocalDay(z, trackedFrom), regions, list, season, board, e);
    WholeWeeks(LocalDay(z, trackedFrom), LocalDay(z, now));
    SeasonCountsMondays(z, trackedFrom, now);
  }

  // ----- Where the season comes out too short -----

  /** One user checking in on each of the ten Mondays from 5 January to 9 March 2026. */
  const TEN_WEEKS: seq<Row> := seq(10, i => Row("avery", "Avery", (20458 + 7 * i) * DAY))

  lemma {:induction false} AllRowsCount(rows: seq<Row>, u: string)
    requires forall r | r in rows :: r.username == u
    ensures |WeeksOf(rows, u)| == |rows|
  {
    if rows != [] {
      AllRowsCount(rows[..|rows| - 1], u);
    }
  }

  /** With the default settings, once daylight saving time has begun, a user who never missed a
      Monday is shown with ten check-ins out of nine season weeks. */
  lemma FullAttendanceExceedsSeason()
    ensures var season := SeasonOf(MeshWeeks.PacificSpring(), 20458 * DAY + 28800, 20521 * DAY + 43200);
            var e := EntryOf(TEN_WEEKS, "avery", season);
            e.mostCheckins == 10 && e.seasonWeeks == 9
  {
    var z, from := MeshWeeks.PacificSpring(), 20458 * DAY + 28800;
    MeshWeeks.SpringForwardLosesAWeek();
    assert WeekStart(z, from) == from by {
      assert LocalDay(z, from) == 20458 && Midnight(z, 20458) == from;
    }
    AllRowsCount(TEN_WEEKS, "avery");
  }
}
