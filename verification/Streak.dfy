/** longestMondayStreak of internal/leaderboard/service.go. */
module Streak {
  import opened Sorting
  import opened Calendar

  const WEEK := 7 * DAY
  const ZERO_TIME := -62135596800  // time.Time{} is 0001-01-01 00:00 UTC

  /** sameDay: the dates of two UTC instants have the same text. */
  predicate SameDay(a: int, b: int) {
    a / DAY == b / DAY
  }

  // ----- sort.Slice -----

  predicate Earlier(a: int, b: int) {
    a < b
  }

  function Sorted(s: seq<int>): (r: seq<int>)
    ensures multiset(r) == multiset(s) && |r| == |s|
  {
    Sort(Earlier, s)
  }

  ghost predicate Ascending(s: seq<int>) {
    forall i, j :: 0 <= i < j < |s| ==> s[i] <= s[j]
  }

  lemma SortedAscending(s: seq<int>)
    ensures Ascending(Sorted(s))
  {
    SortOrdered(Earlier, s);
  }

  lemma HeadIsLeast(s: seq<int>, t: seq<int>)
    requires s != [] && Ascending(s) && multiset(s) == multiset(t)
    ensures t != [] && s[0] <= t[0]
  {
    assert s[0] in multiset(t);
    assert t[0] in multiset(s);
  }

  /** A multiset has one ascending arrangement. */
  lemma {:induction false} AscendingUnique(s: seq<int>, t: seq<int>)
    requires Ascending(s) && Ascending(t) && multiset(s) == multiset(t)
    ensures s == t
  {
    if s == [] {
      assert |multiset(t)| == |t| == 0;
    } else {
      HeadIsLeast(s, t);
      HeadIsLeast(t, s);
      assert s == [s[0]] + s[1..] && t == [t[0]] + t[1..];
      assert multiset(s[1..]) == multiset(s) - multiset{s[0]} == multiset(t[1..]);
      AscendingUnique(s[1..], t[1..]);
    }
  }

  lemma SortedOfMultiset(s: seq<int>, t: seq<int>)
    requires multiset(s) == multiset(t)
    ensures Sorted(s) == Sorted(t)
  {
    SortedAscending(s);
    SortedAscending(t);
    AscendingUnique(Sorted(s), Sorted(t));
  }

  method SortWeeks(weeks: array<int>)
    modifies weeks
    ensures weeks[..] == Sorted(old(weeks[..]))
  {
    var sorted := Sorted(weeks[..]);
    forall i | 0 <= i < weeks.Length {
      weeks[i] := sorted[i];
    }
  }

  // ----- Dedup into a fresh copy, and the streak scan, as functions of the sorted weeks -----

  function Dedup(s: seq<int>): (r: seq<int>)
    ensures |r| <= |s|
    ensures s != [] ==> r != []
  {
    if |s| <= 1 then s
    else
      var n := |s| - 1;
      if SameDay(s[n], s[n - 1]) then Dedup(s[..n]) else Dedup(s[..n]) + [s[n]]
  }

  datatype Tally = Tally(best: nat, bestStart: int, current: nat, currentStart: int)

  function Advance(t: Tally, previous: int, week: int): Tally {
    var next := if week - previous == WEEK then t.(current := t.current + 1)
                else t.(current := 1, currentStart := week);
    if next.current > next.best then next.(best := next.current, bestStart := next.currentStart) else next
  }

  function Scan(d: seq<int>): Tally
    requires d != []
  {
    var n := |d| - 1;
    if n == 0 then Tally(1, d[0], 1, d[0])
    else
      Advance(Scan(d[..n]), d[n - 1], d[n])
  }

  function StreakOf(weeks: seq<int>): (nat, int) {
    if weeks == [] then (0, ZERO_TIME)
    else var t := Scan(Dedup(Sorted(weeks))); (t.best, t.bestStart)
  }

  lemma DedupNext(s: seq<int>, i: nat)
    requires 0 < i < |s|
    ensures Dedup(s[..i + 1]) == Dedup(s[..i]) + if SameDay(s[i], s[i - 1]) then [] else [s[i]]
  {
    assert s[..i + 1][..i] == s[..i];
  }

  /** The dedup loop. `dedup` is the prefix weeks[..kept] of the very array being read: the
      write index never passes the read index, and weeks[i - 1] is still the sorted value when
      it is compared, so the prefix ends up as a fresh-copy dedup of the weeks would. */
  method DedupInPlace(weeks: array<int>) returns (kept: nat)
    requires weeks.Length > 0
    modifies weeks
    ensures kept == |Dedup(old(weeks[..]))|
    ensures weeks[..] == Dedup(old(weeks[..])) + old(weeks[..])[kept..]
  {
    ghost var was := weeks[..];
    kept := 1;
    for i := 1 to weeks.Length
      invariant 1 <= kept <= i
      invariant forall k :: i - 1 <= k < weeks.Length ==> weeks[k] == was[k]
      invariant forall k :: kept <= k < weeks.Length ==> weeks[k] == was[k]
      invariant weeks[..kept] == Dedup(was[..i])
    {
      DedupNext(was, i);
      if !SameDay(weeks[i], weeks[i - 1]) {
        weeks[kept] := weeks[i];
        kept := kept + 1;
      }
    }
    assert was[..weeks.Length] == was;
    assert weeks[..] == weeks[..kept] + weeks[kept..];
  }

  /** The scan loop over the distinct weeks. */
  method ScanWeeks(weeks: array<int>, kept: nat) returns (t: Tally)
    requires 0 < kept <= weeks.Length
    ensures t == Scan(weeks[..kept])
  {
    t := Tally(1, weeks[0], 1, weeks[0]);
    for i := 1 to kept
      invariant t == Scan(weeks[..i])
    {
      assert weeks[..i + 1][..i] == weeks[..i];
      t := if weeks[i] - weeks[i - 1] == WEEK then t.(current := t.current + 1)
           else t.(current := 1, currentStart := weeks[i]);
      if t.current > t.best {
        t := t.(best := t.current, bestStart := t.currentStart);
      }
    }
  }

  method LongestMondayStreak(weeks: array<int>) returns (best: nat, bestStart: int)
    modifies weeks
    ensures (best, bestStart) == StreakOf(old(weeks[..]))
    ensures weeks.Length == 0 ==> best == 0 && bestStart == -62135596800
    ensures weeks.Length > 0 && Aligned(old(weeks[..])) ==> 1 <= best && Longest(old(weeks[..]), best, bestStart)
    ensures var sorted := Sorted(old(weeks[..]));
            weeks[..] == Dedup(sorted) + sorted[|Dedup(sorted)|..]
  {
    if weeks.Length == 0 {
      return 0, ZERO_TIME;
    }
    SortWeeks(weeks);
    ghost var dedup := Dedup(weeks[..]);
    var kept := DedupInPlace(weeks);
    assert weeks[..kept] == dedup;
    var t := ScanWeeks(weeks, kept);
    best, bestStart := t.best, t.bestStart;
    LongestIf(old(weeks[..]));
  }

  // ----- What a streak is -----

  /** The j-th week after a start. */
  function Later(start: int, j: int): int {
    start + j * WEEK
  }

  /** k consecutive weeks from start on all occur. */
  ghost predicate Run(weeks: seq<int>, start: int, k: nat) {
    forall j :: 0 <= j < k ==> Later(start, j) in weeks
  }

  /** All instants are a whole number of weeks apart, as week starts of one zone's dates are. */
  ghost predicate Aligned(weeks: seq<int>) {
    forall x, y :: x in weeks && y in weeks ==> WholeWeeksApart(x, y)
  }

  predicate WholeWeeksApart(x: int, y: int) {
    x % DAY == y % DAY && (x / DAY - y / DAY) % 7 == 0
  }

  ghost predicate StrictlyAscending(s: seq<int>) {
    forall i, j :: 0 <= i < j < |s| ==> s[i] < s[j]
  }

  lemma AlignedGap(x: int, y: int)
    requires WholeWeeksApart(x, y) && x < y
    ensures x + WEEK <= y && !SameDay(x, y)
  {
  }

  lemma DedupSnoc(p: seq<int>, x: int)
    requires p != []
    ensures Dedup(p + [x]) == Dedup(p) + if SameDay(x, p[|p| - 1]) then [] else [x]
  {
  }

  lemma ScanSnoc(p: seq<int>, x: int)
    requires p != []
    ensures Scan(p + [x]) == Advance(Scan(p), p[|p| - 1], x)
  {
  }

  lemma LastIsLatest(p: seq<int>, x: int, w: int)
    requires Ascending(p + [x]) && w in p
    ensures w <= p[|p| - 1] <= x
  {
    var s := p + [x];
    var i :| 0 <= i < |p| && p[i] == w;
    assert s[i] == w && s[|p| - 1] == p[|p| - 1] && s[|p|] == x;
  }

  /** One more week, the latest so far. */
  lemma DedupExtends(p: seq<int>, x: int, d: seq<int>)
    requires p != [] && Ascending(p + [x]) && forall w | w in p :: WholeWeeksApart(w, x)
    requires StrictlyAscending(d) && forall w :: w in d <==> w in p
    ensures var e := d + if SameDay(x, p[|p| - 1]) then [] else [x];
            StrictlyAscending(e) && forall w :: w in e <==> w in p + [x]
  {
    var y := p[|p| - 1];
    assert y in p;
    LastIsLatest(p, x, y);
    if y < x {
      AlignedGap(y, x);
      forall w | w in d ensures w < x {
        LastIsLatest(p, x, w);
      }
      var e := d + [x];
      forall i, j | 0 <= i < j < |e| ensures e[i] < e[j] {
        assert d[i] in d;
      }
    }
  }

  lemma {:induction false} DedupKeepsWeeks(s: seq<int>)
    requires Ascending(s) && Aligned(s)
    ensures StrictlyAscending(Dedup(s))
    ensures forall x :: x in Dedup(s) <==> x in s
  {
    if |s| > 1 {
      var n := |s| - 1;
      var p := s[..n];
      assert s == p + [s[n]];
      AlignedPrefix(p, s[n]);
      DedupKeepsWeeks(p);
      DedupSnoc(p, s[n]);
      DedupExtends(p, s[n], Dedup(p));
    }
  }

  lemma AlignedPrefix(p: seq<int>, x: int)
    requires Aligned(p + [x])
    ensures Aligned(p)
    ensures forall w | w in p :: WholeWeeksApart(w, x)
  {
  }

  ghost predicate Longest(weeks: seq<int>, best: nat, start: int) {
    && Run(weeks, start, best)
    && forall s, k: nat :: Run(weeks, s, k) ==> k <= best && (k == best && k > 0 ==> start <= s)
  }

  /** The streak still open at the last week: it ends there and cannot be extended backwards. */
  ghost predicate Open(d: seq<int>, t: Tally)
    requires d != []
  {
    && t.current >= 1
    && Run(d, t.currentStart, t.current)
    && Later(t.currentStart, t.current - 1) == d[|d| - 1]
    && t.currentStart - WEEK !in d
  }

  lemma RunMember(weeks: seq<int>, s: int, k: nat, j: int)
    requires Run(weeks, s, k) && 0 <= j < k
    ensures Later(s, j) in weeks
  {
  }

  lemma OpenExtends(p: seq<int>, x: int, t: Tally)
    requires p != [] && StrictlyAscending(p) && Open(p, t)
    requires p[|p| - 1] + WEEK <= x
    ensures Open(p + [x], Advance(t, p[|p| - 1], x))
  {
  }

  /** A run either avoids the last week or ends there, and then is no longer than the open streak. */
  lemma RunSplits(p: seq<int>, x: int, u: Tally, s: int, k: nat)
    requires k > 0 && StrictlyAscending(p + [x]) && Run(p + [x], s, k) && Open(p + [x], u)
    ensures Run(p, s, k) || (k <= u.current && (k == u.current ==> s == u.currentStart))
  {
    var d := p + [x];
    assert d[|d| - 1] == x;
    forall y | y in d ensures y <= x {}
    if j :| 0 <= j < k && Later(s, j) == x {
      if j + 1 < k {
        RunMember(d, s, k, j + 1);
      } else if k > u.current {
        RunMember(d, s, k, k - 1 - u.current);
      }
    } else {
      forall j | 0 <= j < k ensures Later(s, j) in p {
        RunMember(d, s, k, j);
      }
    }
  }

  lemma PrefixAscending(p: seq<int>, x: int)
    requires StrictlyAscending(p + [x])
    ensures StrictlyAscending(p)
  {
    var d := p + [x];
    forall i, j | 0 <= i < j < |p| ensures p[i] < p[j] {
      assert d[i] == p[i] && d[j] == p[j];
    }
  }

  lemma LatestGap(p: seq<int>, x: int)
    requires p != [] && StrictlyAscending(p + [x])
    requires forall w | w in p :: WholeWeeksApart(w, x)
    ensures p[|p| - 1] + WEEK <= x
  {
    var d, y := p + [x], p[|p| - 1];
    assert d[|p| - 1] == y && d[|p|] == x && y in p;
    AlignedGap(y, x);
  }

  lemma LongestExtends(p: seq<int>, x: int, t: Tally)
    requires p != [] && StrictlyAscending(p + [x]) && p[|p| - 1] + WEEK <= x
    requires Longest(p, t.best, t.bestStart) && Open(p, t)
    ensures var u := Advance(t, p[|p| - 1], x); Longest(p + [x], u.best, u.bestStart)
  {
    var d, u := p + [x], Advance(t, p[|p| - 1], x);
    PrefixAscending(p, x);
    OpenExtends(p, x, t);
    assert Run(d, u.bestStart, u.best);
    forall s, k: nat | Run(d, s, k)
      ensures k <= u.best && (k == u.best && k > 0 ==> u.bestStart <= s)
    {
      if k > 0 {
        RunSplits(p, x, u, s, k);
        if k == u.current && k == t.best {
          RunMember(p, t.bestStart, t.best, t.best - 1);
          assert Later(t.bestStart, t.best - 1) <= p[|p| - 1];
        }
      }
    }
  }

  lemma SingleWeek(x: int)
    ensures Longest([x], 1, x) && Open([x], Scan([x]))
  {
    assert Later(x, 0) == x;
    forall s, k: nat | Run([x], s, k) ensures k <= 1 && (k == 1 ==> x <= s) {
      if k > 0 {
        RunMember([x], s, k, 0);
      }
      if k > 1 {
        RunMember([x], s, k, 1);
      }
    }
  }

  lemma {:induction false} ScanLongest(d: seq<int>)
    requires d != [] && StrictlyAscending(d) && Aligned(d)
    ensures Longest(d, Scan(d).best, Scan(d).bestStart)
    ensures Open(d, Scan(d))
    ensures 1 <= Scan(d).best <= |d| && Scan(d).current <= |d|
  {
    var n := |d| - 1;
    if n == 0 {
      assert d == [d[0]];
      SingleWeek(d[0]);
    } else {
      var p, x := d[..n], d[n];
      assert d == p + [x];
      PrefixAscending(p, x);
      AlignedPrefix(p, x);
      ScanLongest(p);
      LatestGap(p, x);
      ScanSnoc(p, x);
      OpenExtends(p, x, Scan(p));
      LongestExtends(p, x, Scan(p));
    }
  }

  /** For Monday weeks in any order and with duplicates, the result is the length of the longest
      run of consecutive weeks and the first week of the earliest such run. */
  lemma StreakIsLongestRun(weeks: seq<int>)
    requires Aligned(weeks) && weeks != []
    ensures Longest(weeks, StreakOf(weeks).0, StreakOf(weeks).1)
    ensures 1 <= StreakOf(weeks).0 <= |weeks|
    ensures StreakOf(weeks).1 in weeks
  {
    SortedAscending(weeks);
    var sorted := Sorted(weeks);
    forall x ensures x in sorted <==> x in weeks {
      assert x in sorted <==> x in multiset(sorted);
      assert x in weeks <==> x in multiset(weeks);
    }
    DedupKeepsWeeks(sorted);
    var d := Dedup(sorted);
    ScanLongest(d);
    var best, start := Scan(d).best, Scan(d).bestStart;
    RunMember(d, start, best, 0);
    forall s, k: nat | Run(weeks, s, k) ensures Run(d, s, k) {}
  }

  lemma LongestIf(weeks: seq<int>)
    ensures weeks != [] && Aligned(weeks) ==>
              1 <= StreakOf(weeks).0 && Longest(weeks, StreakOf(weeks).0, StreakOf(weeks).1)
  {
    if weeks != [] && Aligned(weeks) {
      StreakIsLongestRun(weeks);
    }
  }

  lemma SortedOfAscending(s: seq<int>)
    requires Ascending(s)
    ensures Sorted(s) == s
  {
    SortedAscending(s);
    AscendingUnique(Sorted(s), s);
  }

  lemma ThreeScattered(a: int, b: int, c: int)
    requires !SameDay(b, a) && !SameDay(c, b) && b - a != WEEK && c - b != WEEK
    ensures Dedup([a, b, c]) == [a, b, c] && Scan([a, b, c]).best == 1
  {
    assert [a, b, c] == [a, b] + [c] && [a, b] == [a] + [b];
    DedupSnoc([a], b);
    DedupSnoc([a, b], c);
    ScanSnoc([a], b);
    ScanSnoc([a, b], c);
  }

  lemma OuterPairRuns(a: int, b: int, c: int)
    requires c == Later(a, 1)
    ensures Run([a, b, c], a, 2)
  {
  }

  lemma ScatteredStreak(a: int, b: int, c: int)
    requires a <= b <= c && !SameDay(b, a) && !SameDay(c, b) && b - a != WEEK && c - b != WEEK
    ensures StreakOf([a, b, c]).0 == 1
  {
    var weeks := [a, b, c];
    assert Ascending(weeks);
    SortedOfAscending(weeks);
    ThreeScattered(a, b, c);
    assert Sorted(weeks) == Dedup(weeks) == weeks;
  }

  /** The alignment is needed: a week in between hides a run. */
  lemma UnalignedWeekHidesRun()
    ensures Run([0, 3 * DAY, 7 * DAY], 0, 2) && StreakOf([0, 3 * DAY, 7 * DAY]).0 == 1
  {
    OuterPairRuns(0, 3 * DAY, 7 * DAY);
    ScatteredStreak(0, 3 * DAY, 7 * DAY);
  }
}
