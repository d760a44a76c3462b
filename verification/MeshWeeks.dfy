/** internal/checkins/mesh_weeks.go: how many week buckets a season has. */
module MeshWeeks {
  import opened Calendar

  const MAX_DURATION := 0x7FFF_FFFF_FFFF_FFFF  // nanoseconds in the largest time.Duration
  const LAST_EXACT_DAYS := 106750
  const SATURATED_WEEKS := 15251

  /** Go's conversion of a quotient to int: towards zero. */
  function TruncDiv(a: int, b: int): int
    requires b > 0
  {
    if a >= 0 then a / b else -((-a) / b)
  }

  /** time.Time.Sub in nanoseconds, saturating at the ends of time.Duration. */
  function Sub(later: int, earlier: int): int {
    var d := (later - earlier) * NANOS;
    if d > MAX_DURATION then MAX_DURATION
    else if d < -MAX_DURATION - 1 then -MAX_DURATION - 1
    else d
  }

  function CountWeeksInclusive(z: Zone, trackFrom: int, through: int): int {
    var from := WeekStart(z, trackFrom);
    var to := WeekStart(z, through);
    if to < from then 0
    else
      var fromDay := Midnight(z, LocalDay(z, from));
      var toDay := Midnight(z, LocalDay(z, to));
      TruncDiv(TruncDiv(Sub(toDay, fromDay), DAY * NANOS), 7) + 1
  }

  lemma ElapsedDays(from: int, to: int, days: int, gain: int)
    requires to - from == days * DAY - gain
    requires -DAY < gain < DAY && 0 <= days <= LAST_EXACT_DAYS && 0 <= to - from
    ensures TruncDiv(Sub(to, from), DAY * NANOS) == if gain <= 0 then days else days - 1
  {
  }

  lemma SaturatedDays(from: int, to: int, days: int, gain: int)
    requires to - from == days * DAY - gain
    requires -DAY < gain < DAY && days > LAST_EXACT_DAYS && days % 7 == 0
    ensures TruncDiv(TruncDiv(Sub(to, from), DAY * NANOS), 7) + 1 == SATURATED_WEEKS
  {
    assert (to - from) * NANOS > MAX_DURATION;
  }

  lemma DayShort(days: int)
    requires days % 7 == 0
    ensures (days - 1) / 7 == days / 7 - 1
  {
  }

  /** What the elapsed-hours division really counts: 0 when the weeks are out of order, the
      documented number of buckets when the later Monday's UTC offset is not greater than the
      earlier one's, one bucket too few when it is, and a constant once the span no longer
      fits a time.Duration. */
  lemma CountWeeksExact(z: Zone, trackFrom: int, through: int)
    requires MonotoneDays(z) && Regular(z, trackFrom) && Regular(z, through)
    requires var a, b := WeekStart(z, trackFrom), WeekStart(z, through); -DAY < z(b) - z(a) < DAY
    ensures var a, b := WeekStart(z, trackFrom), WeekStart(z, through);
            var days := MondayOf(LocalDay(z, through)) - MondayOf(LocalDay(z, trackFrom));
            CountWeeksInclusive(z, trackFrom, through) ==
            if days < 0 then 0
            else if days > LAST_EXACT_DAYS then SATURATED_WEEKS
            else if z(b) <= z(a) then days / 7 + 1
            else days / 7
  {
    var a, b := WeekStart(z, trackFrom), WeekStart(z, through);
    var m, n := MondayOf(LocalDay(z, trackFrom)), MondayOf(LocalDay(z, through));
    WeekStartIsMidnight(z, trackFrom);
    WeekStartIsMidnight(z, through);
    MidnightLocal(z, m);
    MidnightLocal(z, n);
    MidnightOrder(z, n, m);
    if m <= n {
      var gain := z(b) - z(a);
      assert b - a == (n - m) * DAY - gain && (n - m) % 7 == 0;
      if n - m <= LAST_EXACT_DAYS {
        ElapsedDays(a, b, n - m, gain);
        DayShort(n - m);
        assert gain > 0 ==> m != n;
      } else {
        SaturatedDays(a, b, n - m, gain);
      }
    }
  }

  /** Pacific time in 2026: clocks go forward on 8 March at 10:00 UTC. */
  function PacificSpring(): Zone {
    t => if t < 1772964000 then -28800 else -25200
  }

  /** With the default settings (track from Monday 5 January 2026, Pacific time), the week of
      Monday 9 March is the tenth bucket, and only nine are counted. */
  lemma SpringForwardLosesAWeek()
    ensures var z, from, through := PacificSpring(), 20458 * DAY + 28800, 20521 * DAY + 43200;
            && IsMondayDay(20458) && LocalDay(z, from) == 20458
            && IsMondayDay(20521) && LocalDay(z, through) == 20521
            && (20521 - 20458) / 7 + 1 == 10
            && CountWeeksInclusive(z, from, through) == 9
  {
  }
}
