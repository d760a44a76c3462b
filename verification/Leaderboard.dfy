/** Compute of internal/leaderboard/service.go. */
module Leaderboard {
  import opened Calendar
  import opened Text
  import opened Sorting
  import Streak
  import MeshWeeks

  /** The columns of a check-in that the leaderboard reads. */
  datatype Row = Row(username: string, displayName: string, weekStart: int)

  datatype Entry = Entry(
    username: string,
    displayName: string,
    mostCheckins: nat,
    seasonWeeks: int,
    trackedFrom: int,
    longestStreak: nat,
    streakStart: int)

  datatype Season = Season(weeks: int, trackedFrom: int)

  function SeasonOf(z: Zone, trackedFrom: int, now: int): Season {
    var weeks := MeshWeeks.CountWeeksInclusive(z, WeekStart(z, trackedFrom), now);
    Season(if weeks < 1 then 1 else weeks, LocalDay(z, trackedFrom))
  }

  /** A season is never shorter than a week, and begins on the tracked local day. */
  lemma SeasonMeaning(z: Zone, trackedFrom: int, now: int)
    ensures var season := SeasonOf(z, trackedFrom, now);
            var counted := MeshWeeks.CountWeeksInclusive(z, WeekStart(z, trackedFrom), now);
            && season.weeks >= 1 && season.weeks >= counted && (counted >= 1 ==> season.weeks == counted)
            && (counted < 1 ==> season.weeks == 1)
            && season.trackedFrom == (trackedFrom + z(trackedFrom)) / 86400
  {
  }

  // ----- One user's entry, as a function of the rows -----

  function WeeksOf(rows: seq<Row>, username: string): seq<int> {
    if rows == [] then []
    else
      var n := |rows| - 1;
      WeeksOf(rows[..n], username) + if rows[n].username == username then [rows[n].weekStart] else []
  }

  /** The first non-empty display name the user appears with. */
  function NameOf(rows: seq<Row>, username: string): string {
    if rows == [] then ""
    else
      var n := |rows| - 1;
      var name := NameOf(rows[..n], username);
      if name == "" && rows[n].username == username then rows[n].displayName else name
  }

  function EntryOf(rows: seq<Row>, username: string, season: Season): Entry {
    var weeks := WeeksOf(rows, username);
    var (longest, start) := Streak.StreakOf(weeks);
    var name := NameOf(rows, username);
    Entry(username, if name != "" then name else username, |weeks|, season.weeks, season.trackedFrom,
          longest, start / DAY)
  }

  function Users(rows: seq<Row>): (users: set<string>)
    ensures forall u :: u in users <==> exists i :: 0 <= i < |rows| && rows[i].username == u
  {
    set i | 0 <= i < |rows| :: rows[i].username
  }

  /** The display name is that of the user's first row that has one. */
  lemma {:induction false} NameIsFirstNonEmpty(rows: seq<Row>, username: string) returns (i: nat)
    ensures i <= |rows|
    ensures forall j | 0 <= j < i && rows[j].username == username :: rows[j].displayName == ""
    ensures i < |rows| ==> rows[i].username == username && NameOf(rows, username) == rows[i].displayName != ""
    ensures i == |rows| ==> NameOf(rows, username) == ""
  {
    i := 0;
    if rows != [] {
      var n := |rows| - 1;
      i := NameIsFirstNonEmpty(rows[..n], username);
      forall j | 0 <= j < i && rows[j].username == username ensures rows[j].displayName == "" {
        assert rows[..n][j] == rows[j];
      }
      if i == n && (rows[n].username != username || rows[n].displayName == "") {
        i := n + 1;
      }
    }
  }

  // ----- The order of the board -----

  /** The comparator handed to sort.Slice. */
  predicate Less(a: Entry, b: Entry) {
    if a.mostCheckins != b.mostCheckins then a.mostCheckins > b.mostCheckins
    else if a.longestStreak != b.longestStreak then a.longestStreak > b.longestStreak
    else TextBefore(a.username, b.username)
  }

  /** The comparator is a strict total order on entries of distinct users. */
  lemma LessIsStrictTotalOrder(a: Entry, b: Entry, c: Entry)
    ensures !Less(a, a)
    ensures Less(a, b) && Less(b, c) ==> Less(a, c)
    ensures a.username != b.username ==> Less(a, b) || Less(b, a)
  {
    TextIrreflexive(a.username);
    TextTrichotomy(a.username, b.username);
    if TextBefore(a.username, b.username) && TextBefore(b.username, c.username) {
      TextTransitive(a.username, b.username, c.username);
    }
  }

  ghost predicate Ranked(es: seq<Entry>) {
    forall i, j :: 0 <= i < j < |es| ==> Less(es[i], es[j])
  }

  ghost predicate DistinctUsers(es: seq<Entry>) {
    forall i, j :: 0 <= i < j < |es| ==> es[i].username != es[j].username
  }

  predicate OtherUser(a: Entry, b: Entry) {
    a.username != b.username
  }

  lemma LessIsWeakOrder()
    ensures WeakOrder(Less)
  {
    forall a: Entry, b: Entry, c: Entry ensures Less(a, c) ==> Less(a, b) || Less(b, c) {
      TextTrichotomy(a.username, b.username);
      if Less(a, c) && !Less(a, b) && TextBefore(b.username, a.username) && TextBefore(a.username, c.username) {
        TextTransitive(b.username, a.username, c.username);
      }
    }
    forall a: Entry, b: Entry ensures Less(a, b) ==> !Less(b, a) {
      LessIsStrictTotalOrder(a, b, a);
    }
  }

  function Rank(es: seq<Entry>): (r: seq<Entry>)
    ensures multiset(r) == multiset(es)
  {
    Sort(Less, es)
  }

  lemma RankRanked(es: seq<Entry>)
    requires DistinctUsers(es)
    ensures Ranked(Rank(es))
  {
    LessIsWeakOrder();
    SortOrdered(Less, es);
    SortPairwise(Less, OtherUser, es);
    var r := Rank(es);
    forall i, j | 0 <= i < j < |r| ensures Less(r[i], r[j]) {
      assert OtherUser(r[i], r[j]);
      LessIsStrictTotalOrder(r[i], r[j], r[i]);
    }
  }

  // ----- What Compute returns -----

  /** One entry for each user with a row, and the entries ranked. */
  ghost predicate IsBoard(rows: seq<Row>, season: Season, board: seq<Entry>) {
    && Ranked(board)
    && (forall e :: e in board <==> e.username in Users(rows) && e == EntryOf(rows, e.username, season))
  }

  /** A ranked sequence is determined by its members. */
  lemma {:induction false} RankedUnique(s: seq<Entry>, t: seq<Entry>)
    requires Ranked(s) && Ranked(t)
    requires forall e :: e in s <==> e in t
    ensures s == t
  {
    assert t != [] ==> t[0] in t;
    if s != [] {
      assert s[0] in t;
      assert t[0] in s;
      var i :| 0 <= i < |t| && t[i] == s[0];
      var j :| 0 <= j < |s| && s[j] == t[0];
      if i > 0 && j > 0 {
        LessIsStrictTotalOrder(s[0], t[0], s[0]);
      }
      assert s[0] == t[0];
      forall e ensures e in s[1..] <==> e in t[1..] {
        LessIsStrictTotalOrder(s[0], s[0], s[0]);
        assert e in s[1..] <==> e in s && e != s[0];
        assert e in t[1..] <==> e in t && e != t[0];
      }
      RankedUnique(s[1..], t[1..]);
    }
  }

  /** So there is one board: the order in which the map is walked cannot show. */
  lemma BoardUnique(rows: seq<Row>, season: Season, b: seq<Entry>, c: seq<Entry>)
    requires IsBoard(rows, season, b) && IsBoard(rows, season, c)
    ensures b == c
  {
    RankedUnique(b, c);
  }

  // ----- What an entry says about the rows -----

  /** The user has a row of that week. */
  predicate HasRow(rows: seq<Row>, u: string, week: int) {
    exists i :: 0 <= i < |rows| && rows[i].username == u && rows[i].weekStart == week
  }

  /** The user has rows for k weeks on end, from one week on. */
  ghost predicate Attends(rows: seq<Row>, u: string, start: int, k: nat) {
    forall j :: 0 <= j < k ==> HasRow(rows, u, Streak.Later(start, j))
  }

  /** All weeks of the user's rows are whole numbers of weeks apart. */
  ghost predicate OnWeeks(rows: seq<Row>, u: string) {
    forall i, j | 0 <= i < |rows| && 0 <= j < |rows| && rows[i].username == u && rows[j].username == u ::
      (rows[i].weekStart - rows[j].weekStart) % 604800 == 0
  }

  /** No row of the user before the i-th has a display name. */
  predicate Nameless(rows: seq<Row>, u: string, i: nat)
    requires i <= |rows|
  {
    forall j :: 0 <= j < i && rows[j].username == u ==> rows[j].displayName == ""
  }

  /** The entry of a user, in terms of the rows: how many there are; the first name among them; the
      longest run of weeks attended, and the day on which the earliest such run begins. */
  ghost predicate Describes(rows: seq<Row>, season: Season, e: Entry) {
    && e.mostCheckins == |Places(rows, e.username)|
    && e.seasonWeeks == season.weeks && e.trackedFrom == season.trackedFrom
    && (if Nameless(rows, e.username, |rows|) then e.displayName == e.username
        else exists i :: 0 <= i < |rows| && rows[i].username == e.username && Nameless(rows, e.username, i)
                         && e.displayName == rows[i].displayName != "")
    && (OnWeeks(rows, e.username) ==> LongestAttendance(rows, e))
  }

  ghost predicate LongestAttendance(rows: seq<Row>, e: Entry) {
    exists start ::
      && e.streakStart == start / 86400
      && Attends(rows, e.username, start, e.longestStreak)
      && forall s, k: nat | Attends(rows, e.username, s, k) ::
           k <= e.longestStreak && (k == e.longestStreak ==> start <= s)
  }

  /** The places of the user's rows. */
  function Places(rows: seq<Row>, u: string): set<int> {
    set i | 0 <= i < |rows| && rows[i].username == u
  }

  lemma NextPlace(rows: seq<Row>, u: string)
    requires rows != []
    ensures var n := |rows| - 1;
            && Places(rows, u) == Places(rows[..n], u) + (if rows[n].username == u then {n} else {})
            && n !in Places(rows[..n], u)
  {
    var n := |rows| - 1;
    forall i | 0 <= i < n ensures rows[..n][i] == rows[i] {}
  }

  lemma {:induction false} WeeksCount(rows: seq<Row>, u: string)
    ensures |WeeksOf(rows, u)| == |Places(rows, u)|
  {
    if rows != [] {
      WeeksCount(rows[..|rows| - 1], u);
      NextPlace(rows, u);
    }
  }

  lemma {:induction false} WeeksAreRows(rows: seq<Row>, u: string)
    ensures forall w :: w in WeeksOf(rows, u) <==> HasRow(rows, u, w)
  {
    if rows != [] {
      var n := |rows| - 1;
      WeeksAreRows(rows[..n], u);
      forall w
        ensures HasRow(rows, u, w) <==> HasRow(rows[..n], u, w) || (rows[n].username == u && rows[n].weekStart == w)
      {
        if i :| 0 <= i < n && rows[..n][i].username == u && rows[..n][i].weekStart == w {
          assert rows[i].username == u && rows[i].weekStart == w;
        }
        if i :| 0 <= i < |rows| && rows[i].username == u && rows[i].weekStart == w {
          assert i < n ==> rows[..n][i] == rows[i];
        }
      }
    }
  }

  lemma WeeksApart(x: int, y: int)
    requires (x - y) % 604800 == 0
    ensures Streak.WholeWeeksApart(x, y)
  {
    var k := (x - y) / 604800;
    assert x == y + 7 * k * DAY;
  }

  lemma StreakDescribed(rows: seq<Row>, u: string, season: Season)
    requires u in Users(rows) && OnWeeks(rows, u)
    ensures LongestAttendance(rows, EntryOf(rows, u, season))
  {
    var weeks, e := WeeksOf(rows, u), EntryOf(rows, u, season);
    WeeksAreRows(rows, u);
    var i :| 0 <= i < |rows| && rows[i].username == u;
    assert HasRow(rows, u, rows[i].weekStart);
    forall x, y | x in weeks && y in weeks ensures Streak.WholeWeeksApart(x, y) {
      WeeksApart(x, y);
    }
    Streak.StreakIsLongestRun(weeks);
    var (longest, start) := Streak.StreakOf(weeks);
    forall s, k: nat ensures Attends(rows, u, s, k) <==> Streak.Run(weeks, s, k) {}
  }

  lemma NameDescribed(rows: seq<Row>, u: string, season: Season)
    ensures var e := EntryOf(rows, u, season);
            if Nameless(rows, u, |rows|) then e.displayName == u
            else exists i :: 0 <= i < |rows| && rows[i].username == u && Nameless(rows, u, i)
                             && e.displayName == rows[i].displayName != ""
  {
    var i := NameIsFirstNonEmpty(rows, u);
  }

  lemma EntryDescribes(rows: seq<Row>, u: string, season: Season)
    requires u in Users(rows)
    ensures Describes(rows, season, EntryOf(rows, u, season))
  {
    WeeksCount(rows, u);
    NameDescribed(rows, u, season);
    if OnWeeks(rows, u) {
      StreakDescribed(rows, u, season);
    }
  }

  class UserState {
    var displayName: string
    var total: nat
    var weeks: seq<int>

    constructor (name: string)
      ensures displayName == name && total == 0 && weeks == []
    {
      displayName := name;
      total := 0;
      weeks := [];
    }
  }

  /** The state object of a user agrees with the rows read so far. */
  ghost predicate Tracks(s: UserState, rows: seq<Row>, username: string)
    reads s
  {
    s.displayName == NameOf(rows, username) && s.weeks == WeeksOf(rows, username) && s.total == |s.weeks|
  }

  lemma NextRow(rows: seq<Row>, i: nat, username: string)
    requires i < |rows|
    ensures var mine := rows[i].username == username;
            && WeeksOf(rows[..i + 1], username) ==
               WeeksOf(rows[..i], username) + (if mine then [rows[i].weekStart] else [])
            && NameOf(rows[..i + 1], username) ==
               (if mine && NameOf(rows[..i], username) == "" then rows[i].displayName else NameOf(rows[..i], username))
  {
    assert rows[..i + 1][..i] == rows[..i];
  }

  lemma NextUsers(rows: seq<Row>, i: nat)
    requires i < |rows|
    ensures Users(rows[..i + 1]) == Users(rows[..i]) + {rows[i].username}
  {
  }

  lemma {:induction false} NewUser(rows: seq<Row>, username: string)
    requires username !in Users(rows)
    ensures WeeksOf(rows, username) == [] && NameOf(rows, username) == ""
  {
    if rows != [] {
      var n := |rows| - 1;
      NextUsers(rows, n);
      assert rows[..n + 1] == rows;
      NewUser(rows[..n], username);
    }
  }

  /** The grouping loop: one fresh state object per username. */
  method GroupByUser(rows: seq<Row>) returns (byUser: map<string, UserState>)
    ensures byUser.Keys == Users(rows)
    ensures forall u <- byUser :: fresh(byUser[u]) && Tracks(byUser[u], rows, u)
  {
    byUser := map[];
    for i := 0 to |rows|
      invariant byUser.Keys == Users(rows[..i])
      invariant forall u <- byUser :: fresh(byUser[u]) && Tracks(byUser[u], rows[..i], u)
      invariant forall u <- byUser, v <- byUser :: u != v ==> byUser[u] != byUser[v]
    {
      var c := rows[i];
      if c.username !in byUser {
        NewUser(rows[..i], c.username);
        var state := new UserState(c.displayName);
        byUser := byUser[c.username := state];
      }
      Count(byUser[c.username], c, rows, i);
      NextUsers(rows, i);
      forall u <- byUser ensures Tracks(byUser[u], rows[..i + 1], u) {
        NextRow(rows, i, u);
      }
    }
    assert rows[..|rows|] == rows;
  }

  /** The loop's work on one row; a new state already carries the row's display name. */
  method Count(state: UserState, c: Row, ghost rows: seq<Row>, ghost i: nat)
    requires i < |rows| && c == rows[i]
    requires state.weeks == WeeksOf(rows[..i], c.username) && state.total == |state.weeks|
    requires state.displayName == NameOf(rows[..i], c.username)
             || (NameOf(rows[..i], c.username) == "" && state.displayName == c.displayName)
    modifies state
    ensures Tracks(state, rows[..i + 1], c.username)
  {
    NextRow(rows, i, c.username);
    if state.displayName == "" {
      state.displayName := c.displayName;
    }
    state.total := state.total + 1;
    state.weeks := state.weeks + [c.weekStart];
  }

  method ComputeEntry(username: string, state: UserState, season: Season, ghost rows: seq<Row>) returns (e: Entry)
    requires Tracks(state, rows, username)
    ensures e == EntryOf(rows, username, season)
  {
    var weeks := new int[|state.weeks|](i requires 0 <= i < |state.weeks| reads state => state.weeks[i]);
    assert weeks[..] == state.weeks;
    var longest, streakStart := Streak.LongestMondayStreak(weeks);
    e := Entry(username, if state.displayName != "" then state.displayName else username, state.total,
               season.weeks, season.trackedFrom, longest, streakStart / DAY);
  }

  /** The entries that users contribute. */
  ghost predicate EntriesFor(rows: seq<Row>, season: Season, users: set<string>, es: seq<Entry>) {
    && DistinctUsers(es)
    && forall e :: e in es <==> e.username in users && e == EntryOf(rows, e.username, season)
  }

  lemma AddEntry(rows: seq<Row>, season: Season, users: set<string>, es: seq<Entry>, username: string)
    requires EntriesFor(rows, season, users, es) && username !in users
    ensures EntriesFor(rows, season, users + {username}, es + [EntryOf(rows, username, season)])
  {
  }

  /** Walks the map in whatever order: the loop picks any user not yet visited. */
  method CollectEntries(rows: seq<Row>, byUser: map<string, UserState>, season: Season) returns (results: seq<Entry>)
    requires forall u <- byUser :: Tracks(byUser[u], rows, u)
    ensures EntriesFor(rows, season, byUser.Keys, results)
  {
    results := [];
    ghost var visited := {};
    var pending := byUser.Keys;
    while pending != {}
      invariant visited + pending == byUser.Keys && visited !! pending
      invariant forall u <- byUser :: Tracks(byUser[u], rows, u)
      invariant EntriesFor(rows, season, visited, results)
      decreases pending
    {
      var username :| username in pending;
      var result := ComputeEntry(username, byUser[username], season, rows);
      AddEntry(rows, season, visited, results, username);
      results := results + [result];
      visited := visited + {username};
      pending := pending - {username};
    }
    assert visited == byUser.Keys;
  }

  lemma RankGivesBoard(rows: seq<Row>, season: Season, results: seq<Entry>)
    requires EntriesFor(rows, season, Users(rows), results)
    ensures IsBoard(rows, season, Rank(results))
  {
    RankRanked(results);
    forall e ensures e in Rank(results) <==> e in results {
      assert e in Rank(results) <==> e in multiset(Rank(results));
    }
  }

  predicate OnBoard(board: seq<Entry>, u: string) {
    exists e :: e in board && e.username == u
  }

  lemma BoardDescribes(rows: seq<Row>, season: Season, board: seq<Entry>)
    requires IsBoard(rows, season, board)
    ensures forall e | e in board :: Describes(rows, season, e)
    ensures forall e | e in board :: e.mostCheckins > 0
    ensures forall i | 0 <= i < |rows| :: OnBoard(board, rows[i].username)
    ensures forall i, j | 0 <= i < j < |board| :: board[i].username != board[j].username
  {
    forall e | e in board ensures Describes(rows, season, e) {
      EntryDescribes(rows, e.username, season);
    }
    forall e | e in board ensures e.mostCheckins > 0 {
      var i :| 0 <= i < |rows| && rows[i].username == e.username;
      WeeksCount(rows, e.username);
      assert i in Places(rows, e.username);
    }
    forall i | 0 <= i < |rows| ensures OnBoard(board, rows[i].username) {
      var e := EntryOf(rows, rows[i].username, season);
      assert e in board && e.username == rows[i].username;
    }
    forall i, j | 0 <= i < j < |board| ensures board[i].username != board[j].username {
      assert board[i] in board && board[j] in board;
      LessIsStrictTotalOrder(board[i], board[j], board[i]);
    }
  }

  method Compute(rows: seq<Row>, trackedFrom: int, now: int, z: Zone) returns (board: seq<Entry>)
    ensures IsBoard(rows, SeasonOf(z, trackedFrom, now), board)
    ensures forall e | e in board :: Describes(rows, SeasonOf(z, trackedFrom, now), e)
    ensures forall e | e in board :: e.mostCheckins > 0
    ensures forall i | 0 <= i < |rows| :: OnBoard(board, rows[i].username)
    ensures forall i, j | 0 <= i < j < |board| :: board[i].username != board[j].username
    ensures forall i, j | 0 <= i < j < |board| ::
              var a, b := board[i], board[j];
              && a.mostCheckins >= b.mostCheckins
              && (a.mostCheckins == b.mostCheckins ==> a.longestStreak >= b.longestStreak)
              && (a.mostCheckins == b.mostCheckins && a.longestStreak == b.longestStreak ==>
                    TextBefore(a.username, b.username))
  {
    var seasonWeeks := MeshWeeks.CountWeeksInclusive(z, WeekStart(z, trackedFrom), now);
    if seasonWeeks < 1 {
      seasonWeeks := 1;
    }
    var season := Season(seasonWeeks, LocalDay(z, trackedFrom));
    var byUser := GroupByUser(rows);
    var results := CollectEntries(rows, byUser, season);
    RankGivesBoard(rows, season, results);
    board := Rank(results);
    BoardDescribes(rows, season, board);
  }

  // ----- Totals -----

  function Total(board: seq<Entry>): nat {
    if board == [] then 0 else board[0].mostCheckins + Total(board[1..])
  }

  function RowsOf(rows: seq<Row>, users: set<string>): nat {
    if rows == [] then 0
    else
      var n := |rows| - 1;
      RowsOf(rows[..n], users) + if rows[n].username in users then 1 else 0
  }

  lemma {:induction false} AddUser(rows: seq<Row>, users: set<string>, u: string)
    requires u !in users
    ensures RowsOf(rows, users + {u}) == RowsOf(rows, users) + |WeeksOf(rows, u)|
  {
    if rows != [] {
      AddUser(rows[..|rows| - 1], users, u);
    }
  }

  lemma {:induction false} AllUsers(rows: seq<Row>, users: set<string>)
    requires Users(rows) <= users
    ensures RowsOf(rows, users) == |rows|
    ensures RowsOf(rows, {}) == 0
  {
    if rows != [] {
      var n := |rows| - 1;
      NextUsers(rows, n);
      assert rows[..n + 1] == rows;
      AllUsers(rows[..n], users);
    }
  }

  function UsersOf(es: seq<Entry>): set<string> {
    if es == [] then {} else {es[0].username} + UsersOf(es[1..])
  }

  lemma {:induction false} UsersOfMembers(es: seq<Entry>)
    ensures forall u :: u in UsersOf(es) <==> exists e :: e in es && e.username == u
  {
    if es != [] {
      UsersOfMembers(es[1..]);
      assert es == [es[0]] + es[1..];
    }
  }

  lemma {:induction false} TotalCountsRows(rows: seq<Row>, season: Season, es: seq<Entry>, before: set<string>)
    requires DistinctUsers(es)
    requires forall e | e in es :: e == EntryOf(rows, e.username, season) && e.username !in before
    ensures Total(es) + RowsOf(rows, before) == RowsOf(rows, before + UsersOf(es))
  {
    if es == [] {
      assert before + {} == before;
    } else {
      var u := es[0].username;
      assert es[0] in es;
      forall e | e in es[1..] ensures e in es && e.username != u {}
      AddUser(rows, before, u);
      TotalCountsRows(rows, season, es[1..], before + {u});
      assert before + {u} + UsersOf(es[1..]) == before + UsersOf(es);
    }
  }

  /** Every input row is counted once: the check-in totals add up to the number of rows. */
  lemma TotalsAddUp(rows: seq<Row>, season: Season, board: seq<Entry>)
    requires IsBoard(rows, season, board)
    ensures Total(board) == |rows|
  {
    forall i, j | 0 <= i < j < |board| ensures board[i].username != board[j].username {
      assert board[i] in board && board[j] in board;
      LessIsStrictTotalOrder(board[i], board[j], board[i]);
    }
    var users := UsersOf(board);
    UsersOfMembers(board);
    forall u | u in Users(rows) ensures u in users {
      assert EntryOf(rows, u, season).username == u;
      assert EntryOf(rows, u, season) in board;
    }
    TotalCountsRows(rows, season, board, {});
    assert {} + users == users;
    AllUsers(rows, users);
  }

  // ----- The order of the input rows -----

  lemma {:induction false} WeeksOfConcat(a: seq<Row>, b: seq<Row>, u: string)
    ensures WeeksOf(a + b, u) == WeeksOf(a, u) + WeeksOf(b, u)
  {
    if b == [] {
      assert a + b == a;
    } else {
      var n := |b| - 1;
      assert (a + b)[..|a| + n] == a + b[..n];
      WeeksOfConcat(a, b[..n], u);
    }
  }

  lemma WithoutOne(a: seq<Row>, b: seq<Row>, i: nat)
    requires a != [] && multiset(a) == multiset(b) && i < |b| && b[i] == a[0]
    ensures multiset(a[1..]) == multiset(b[..i] + b[i + 1..])
  {
    assert a == [a[0]] + a[1..];
    assert b == b[..i] + ([b[i]] + b[i + 1..]);
    assert multiset(a[1..]) == multiset(a) - multiset{a[0]};
    assert multiset(b[..i] + b[i + 1..]) == multiset(b) - multiset{a[0]};
  }

  lemma WeeksWithoutOne(b: seq<Row>, i: nat, u: string)
    requires i < |b|
    ensures multiset(WeeksOf(b, u)) == multiset(WeeksOf([b[i]], u)) + multiset(WeeksOf(b[..i] + b[i + 1..], u))
  {
    assert b == b[..i] + ([b[i]] + b[i + 1..]);
    WeeksOfConcat(b[..i], [b[i]] + b[i + 1..], u);
    WeeksOfConcat([b[i]], b[i + 1..], u);
    WeeksOfConcat(b[..i], b[i + 1..], u);
  }

  lemma {:induction false} WeeksOfPermutation(a: seq<Row>, b: seq<Row>, u: string)
    requires multiset(a) == multiset(b)
    ensures multiset(WeeksOf(a, u)) == multiset(WeeksOf(b, u))
    decreases |a|
  {
    assert |multiset(a)| == |a| && |multiset(b)| == |b|;
    if a != [] {
      assert a[0] in multiset(b);
      var i :| 0 <= i < |b| && b[i] == a[0];
      WithoutOne(a, b, i);
      WeeksOfPermutation(a[1..], b[..i] + b[i + 1..], u);
      WeeksWithoutOne(b, i, u);
      WeeksOfConcat([a[0]], a[1..], u);
      assert a == [a[0]] + a[1..];
    }
  }

  function Anonymous(e: Entry): Entry {
    e.(displayName := "")
  }

  function AnonymousBoard(board: seq<Entry>): (r: seq<Entry>)
    ensures |r| == |board| && forall i | 0 <= i < |r| :: r[i] == Anonymous(board[i])
  {
    seq(|board|, i requires 0 <= i < |board| => Anonymous(board[i]))
  }

  lemma AnonymousMembers(a: seq<Row>, b: seq<Row>, season: Season, boardA: seq<Entry>, boardB: seq<Entry>, e: Entry)
    requires multiset(a) == multiset(b) && IsBoard(a, season, boardA) && IsBoard(b, season, boardB)
    requires e in AnonymousBoard(boardA)
    ensures e in AnonymousBoard(boardB)
  {
    var i :| 0 <= i < |boardA| && e == Anonymous(boardA[i]);
    var u := boardA[i].username;
    assert boardA[i] in boardA;
    var k :| 0 <= k < |a| && a[k].username == u;
    assert a[k] in multiset(b);
    assert u in Users(b);
    WeeksOfPermutation(a, b, u);
    Streak.SortedOfMultiset(WeeksOf(a, u), WeeksOf(b, u));
    assert |multiset(WeeksOf(a, u))| == |WeeksOf(a, u)| && |multiset(WeeksOf(b, u))| == |WeeksOf(b, u)|;
    var f := EntryOf(b, u, season);
    assert f in boardB;
    assert Anonymous(f) == e;
  }

  /** Permuting the input rows changes no ranking, total, streak or streak start: only which
      display name of a user comes first can depend on the order. */
  lemma BoardIgnoresRowOrder(a: seq<Row>, b: seq<Row>, season: Season, boardA: seq<Entry>, boardB: seq<Entry>)
    requires multiset(a) == multiset(b) && IsBoard(a, season, boardA) && IsBoard(b, season, boardB)
    ensures AnonymousBoard(boardA) == AnonymousBoard(boardB)
  {
    var x, y := AnonymousBoard(boardA), AnonymousBoard(boardB);
    forall e ensures e in x <==> e in y {
      if e in x {
        AnonymousMembers(a, b, season, boardA, boardB, e);
      }
      if e in y {
        AnonymousMembers(b, a, season, boardB, boardA, e);
      }
    }
    forall i, j | 0 <= i < j < |x| ensures Less(x[i], x[j]) {
      assert Less(boardA[i], boardA[j]);
    }
    forall i, j | 0 <= i < j < |y| ensures Less(y[i], y[j]) {
      assert Less(boardB[i], boardB[j]);
    }
    RankedUnique(x, y);
  }
}
