/** Calendar arithmetic of internal/checkins/service.go.

An instant is a number of Unix seconds and a local day is a day number, day 0 being
1970-01-01. A zone is the function that gives the UTC offset in force at an instant. */
module Calendar {
  const DAY := 86400
  const NANOS := 1_000_000_000

  type Zone = int -> int

  function LocalSecond(z: Zone, t: int): int {
    t + z(t)
  }

  function LocalDay(z: Zone, t: int): int {
    LocalSecond(z, t) / DAY
  }

  /** time.Weekday: Sunday is 0, and day 0 was a Thursday. */
  function Weekday(day: int): int {
    (day + 4) % 7
  }

  predicate IsMondayDay(day: int) {
    Weekday(day) == 1
  }

  /** How many days ago the week's Monday was, as the source computes it. */
  function DaysSinceMonday(day: int): int {
    (Weekday(day) + 6) % 7
  }

  function MondayOf(day: int): int {
    day - DaysSinceMonday(day)
  }

  /** time.Date, given the local wall clock in seconds: Go guesses the offset at the wall
      clock read as UTC, then takes the offset in force at the instant so guessed. */
  function Date(z: Zone, wall: int): int {
    wall - z(wall - z(wall))
  }

  function Midnight(z: Zone, day: int): int {
    Date(z, day * DAY)
  }

  /** time.Time.AddDate(0, 0, days): same wall clock, other day. */
  function AddDays(z: Zone, t: int, days: int): int {
    Date(z, LocalSecond(z, t) + days * DAY)
  }

  predicate IsMonday(z: Zone, t: int) {
    IsMondayDay(LocalDay(z, t))
  }

  /** WeekStartMonday, step by step. */
  function WeekStart(z: Zone, t: int): int {
    var dayStart := Midnight(z, LocalDay(z, t));
    AddDays(z, dayStart, -DaysSinceMonday(LocalDay(z, t)))
  }

  /** The date text of a week start: its calendar day in the zone. */
  function WeekDate(z: Zone, t: int): int {
    LocalDay(z, WeekStart(z, t))
  }

  function SecondOf(nanos: int): int {
    nanos / NANOS
  }

  /** In numbers: a day has 86400 seconds, day 4 was a Monday, and the week goes back to the last one. */
  lemma DayMeaning(z: Zone, t: int)
    ensures LocalDay(z, t) == (t + z(t)) / 86400
    ensures IsMonday(z, t) <==> LocalDay(z, t) % 7 == 4
    ensures MondayOf(LocalDay(z, t)) == LocalDay(z, t) - (LocalDay(z, t) + 3) % 7
  {
  }

  // ----- Which midnights time.Date can find -----

  predicate HasMidnight(z: Zone, day: int) {
    LocalSecond(z, Midnight(z, day)) == day * DAY
  }

  /** The midnights of the instant's day and of its Monday exist in the zone. */
  ghost predicate Regular(z: Zone, t: int) {
    HasMidnight(z, LocalDay(z, t)) && HasMidnight(z, MondayOf(LocalDay(z, t)))
  }

  ghost predicate MonotoneDays(z: Zone) {
    forall s, t :: s <= t ==> LocalDay(z, s) <= LocalDay(z, t)
  }

  /** From lo to hi the zone changes its offset at most once, from before to after at instant shift. */
  ghost predicate SingleShift(z: Zone, lo: int, hi: int, shift: int, before: int, after: int) {
    && -DAY < before < DAY
    && -DAY < after < DAY
    && -DAY <= 2 * (after - before) <= DAY
    && forall t | lo <= t <= hi :: z(t) == if t < shift then before else after
  }

  /** The clocks went forward over the wall clock reading: it never occurred. */
  predicate Skipped(wall: int, shift: int, before: int, after: int) {
    shift + before <= wall < shift + after
  }

  /** time.Date finds a wall clock reading exactly when no forward shift skipped it. */
  lemma DateFindsWall(z: Zone, wall: int, lo: int, hi: int, shift: int, before: int, after: int)
    requires SingleShift(z, lo, hi, shift, before, after)
    requires lo + 2 * DAY <= wall <= hi - 2 * DAY
    ensures LocalSecond(z, Date(z, wall)) == wall <==> !Skipped(wall, shift, before, after)
  {
  }

  lemma MidnightLocal(z: Zone, day: int)
    requires HasMidnight(z, day)
    ensures LocalDay(z, Midnight(z, day)) == day
  {
  }

  lemma WeekStartIsMidnight(z: Zone, t: int)
    requires HasMidnight(z, LocalDay(z, t))
    ensures WeekStart(z, t) == Midnight(z, MondayOf(LocalDay(z, t)))
  {
  }

  /** The week start is the local midnight of a Monday, and the instant's local day is one
      of the seven days that begin there. */
  lemma WeekStartMeaning(z: Zone, t: int)
    requires Regular(z, t)
    ensures LocalSecond(z, WeekStart(z, t)) == MondayOf(LocalDay(z, t)) * DAY
    ensures IsMonday(z, WeekStart(z, t))
    ensures WeekDate(z, t) == MondayOf(LocalDay(z, t))
    ensures WeekDate(z, t) <= LocalDay(z, t) < WeekDate(z, t) + 7
  {
  }

  lemma WeekStartIdempotent(z: Zone, t: int)
    requires Regular(z, t)
    ensures WeekStart(z, WeekStart(z, t)) == WeekStart(z, t)
  {
    WeekStartMeaning(z, t);
    WeekStartIsMidnight(z, t);
    WeekStartIsMidnight(z, WeekStart(z, t));
  }

  /** Two instants share a week start exactly when their local days lie in the same Monday block. */
  lemma SameWeekStart(z: Zone, s: int, t: int)
    requires Regular(z, s) && Regular(z, t)
    ensures WeekStart(z, s) == WeekStart(z, t) <==>
            exists m :: IsMondayDay(m) && m <= LocalDay(z, s) < m + 7 && m <= LocalDay(z, t) < m + 7
  {
    WeekStartIsMidnight(z, s);
    WeekStartIsMidnight(z, t);
    SameBlock(LocalDay(z, s), LocalDay(z, t));
  }

  lemma BlockMonday(d: int, m: int)
    ensures IsMondayDay(m) && m <= d < m + 7 <==> m == MondayOf(d)
  {
  }

  lemma SameBlock(d: int, e: int)
    ensures MondayOf(d) == MondayOf(e) <==> exists m :: IsMondayDay(m) && m <= d < m + 7 && m <= e < m + 7
  {
    BlockMonday(d, MondayOf(d));
    BlockMonday(e, MondayOf(d));
    if m :| IsMondayDay(m) && m <= d < m + 7 && m <= e < m + 7 {
      BlockMonday(d, m);
      BlockMonday(e, m);
    }
  }

  /** Midnights come in the order of their days. */
  lemma MidnightOrder(z: Zone, d: int, e: int)
    requires MonotoneDays(z) && HasMidnight(z, d) && HasMidnight(z, e)
    ensures Midnight(z, d) < Midnight(z, e) <==> d < e
  {
    MidnightLocal(z, d);
    MidnightLocal(z, e);
    if Midnight(z, d) < Midnight(z, e) {
      assert LocalDay(z, Midnight(z, d)) <= LocalDay(z, Midnight(z, e));
    } else {
      assert LocalDay(z, Midnight(z, e)) <= LocalDay(z, Midnight(z, d));
    }
  }

  lemma WeekStartMonotone(z: Zone, s: int, t: int)
    requires MonotoneDays(z) && s <= t
    requires Regular(z, s) && Regular(z, t)
    ensures WeekStart(z, s) <= WeekStart(z, t)
  {
    WeekStartIsMidnight(z, s);
    WeekStartIsMidnight(z, t);
    assert LocalDay(z, s) <= LocalDay(z, t);
    MidnightOrder(z, MondayOf(LocalDay(z, t)), MondayOf(LocalDay(z, s)));
  }

  /** Around one offset change, the week start is the Monday midnight exactly when the change
      skipped neither today's midnight nor Monday's. */
  lemma WeekStartIsMondayMidnightIff(z: Zone, t: int, shift: int, before: int, after: int)
    requires SingleShift(z, (LocalDay(z, t) - 12) * DAY, (LocalDay(z, t) + 6) * DAY, shift, before, after)
    ensures LocalSecond(z, WeekStart(z, t)) == MondayOf(LocalDay(z, t)) * DAY <==>
            !Skipped(LocalDay(z, t) * DAY, shift, before, after)
            && !Skipped(MondayOf(LocalDay(z, t)) * DAY, shift, before, after)
  {
    var day := LocalDay(z, t);
    var lo, hi := (day - 12) * DAY, (day + 6) * DAY;
    DateFindsWall(z, day * DAY, lo, hi, shift, before, after);
    DateFindsWall(z, MondayOf(day) * DAY, lo, hi, shift, before, after);
    if HasMidnight(z, day) {
      WeekStartIsMidnight(z, t);
    } else {
      MissedMidnightMisplacesWeek(z, t, shift, before, after);
    }
  }

  lemma MissedMidnightMisplacesWeek(z: Zone, t: int, shift: int, before: int, after: int)
    requires SingleShift(z, (LocalDay(z, t) - 12) * DAY, (LocalDay(z, t) + 6) * DAY, shift, before, after)
    requires Skipped(LocalDay(z, t) * DAY, shift, before, after)
    ensures LocalSecond(z, WeekStart(z, t)) != MondayOf(LocalDay(z, t)) * DAY
  {
  }

  function SkippedSundayZone(): Zone {
    t => if t < 3 * DAY + 18000 then -18000 else -14400
  }

  /** Five hours west of Greenwich, clocks going forward at midnight of Sunday 1970-01-04: an hour
      into that Sunday the week is said to start on a Sunday at 23:00. */
  lemma SkippedSundayStartsOnSunday()
    ensures var z, t := SkippedSundayZone(), 3 * DAY + 21600;
            && Weekday(LocalDay(z, t)) == 0
            && !IsMonday(z, WeekStart(z, t))
            && WeekStart(z, WeekStart(z, t)) != WeekStart(z, t)
  {
  }

  // ----- Instants with a fraction of a second -----

  /** The local day of an instant in nanoseconds; the zone is read at the whole second below it. */
  function NanoDay(z: Zone, nanos: int): int {
    (nanos + z(SecondOf(nanos)) * NANOS) / (DAY * NANOS)
  }

  function NanoWeekStart(z: Zone, nanos: int): int {
    var dayStart := Midnight(z, NanoDay(z, nanos));
    AddDays(z, dayStart, -DaysSinceMonday(NanoDay(z, nanos)))
  }

  /** Dropping the fraction, as storing an instant as RFC 3339 text does, moves neither the
      local day nor the week of an observation. */
  lemma FractionKeepsBucket(z: Zone, nanos: int)
    ensures NanoDay(z, nanos) == LocalDay(z, SecondOf(nanos))
    ensures NanoWeekStart(z, nanos) == WeekStart(z, SecondOf(nanos))
  {
  }
}
