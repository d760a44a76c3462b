/** The "2006-01-02" dates in which sqlite.go stores and compares days as text. */
module IsoDates {
  import opened Text

  datatype Civil = Civil(year: nat, month: nat, day: nat)

  predicate Leap(year: nat) {
    year % 4 == 0 && (year % 100 != 0 || year % 400 == 0)
  }

  function MonthDays(year: nat, month: nat): nat {
    if month == 2 then (if Leap(year) then 29 else 28)
    else if month in {4, 6, 9, 11} then 30
    else 31
  }

  predicate Valid(c: Civil) {
    1 <= c.month <= 12 && 1 <= c.day <= MonthDays(c.year, c.month)
  }

  function Next(c: Civil): (r: Civil)
    requires Valid(c)
    ensures Valid(r) && Before(c, r)
  {
    if c.day < MonthDays(c.year, c.month) then c.(day := c.day + 1)
    else if c.month < 12 then Civil(c.year, c.month + 1, 1)
    else Civil(c.year + 1, 1, 1)
  }

  predicate Before(c: Civil, d: Civil) {
    || c.year < d.year
    || (c.year == d.year && c.month < d.month)
    || (c.year == d.year && c.month == d.month && c.day < d.day)
  }

  /** The n-th day from 0000-01-01 on. */
  function CivilOf(n: nat): (c: Civil)
    ensures Valid(c)
  {
    if n == 0 then Civil(0, 1, 1) else Next(CivilOf(n - 1))
  }

  function Digit(n: nat): char {
    '0' + (n % 10) as char
  }

  /** The last w decimal digits of n. */
  function Pad(n: nat, w: nat): (s: string)
    ensures |s| == w
  {
    if w == 0 then [] else Pad(n / 10, w - 1) + [Digit(n)]
  }

  function Pow10(w: nat): nat {
    if w == 0 then 1 else 10 * Pow10(w - 1)
  }

  /** time.Format("2006-01-02") for the years that fit four digits. */
  function Iso(c: Civil): string {
    Pad(c.year, 4) + ("-" + (Pad(c.month, 2) + ("-" + Pad(c.day, 2))))
  }

  /** Numbers of fixed width compare as text the way they compare as numbers. */
  lemma {:induction false} PadOrder(m: nat, n: nat, w: nat)
    requires m < Pow10(w) && n < Pow10(w)
    ensures TextBefore(Pad(m, w), Pad(n, w)) <==> m < n
    ensures Pad(m, w) == Pad(n, w) <==> m == n
  {
    if w > 0 {
      PadOrder(m / 10, n / 10, w - 1);
      TextBeforeConcat(Pad(m / 10, w - 1), Pad(n / 10, w - 1), [Digit(m)], [Digit(n)]);
      assert m == 10 * (m / 10) + m % 10 && n == 10 * (n / 10) + n % 10;
      assert Digit(m) == Digit(n) <==> m % 10 == n % 10;
    }
  }

  /** In years of four digits, text order on dates is calendar order. */
  lemma TextOrderIsDateOrder(c: Civil, d: Civil)
    requires Valid(c) && Valid(d) && c.year <= 9999 && d.year <= 9999
    ensures TextBefore(Iso(c), Iso(d)) <==> Before(c, d)
    ensures Iso(c) == Iso(d) <==> c == d
  {
    assert Pow10(4) == 10000 && Pow10(2) == 100;
    PadOrder(c.year, d.year, 4);
    PadOrder(c.month, d.month, 2);
    PadOrder(c.day, d.day, 2);
    var cDay, dDay := "-" + Pad(c.day, 2), "-" + Pad(d.day, 2);
    var cMonth, dMonth := "-" + (Pad(c.month, 2) + cDay), "-" + (Pad(d.month, 2) + dDay);
    TextBeforeConcat("-", "-", Pad(c.day, 2), Pad(d.day, 2));
    TextBeforeConcat(Pad(c.month, 2), Pad(d.month, 2), cDay, dDay);
    TextBeforeConcat("-", "-", Pad(c.month, 2) + cDay, Pad(d.month, 2) + dDay);
    TextBeforeConcat(Pad(c.year, 4), Pad(d.year, 4), cMonth, dMonth);
    TextIrreflexive("-");
  }

  lemma {:induction false} CivilOfOrder(m: nat, n: nat)
    requires m < n
    ensures Before(CivilOf(m), CivilOf(n))
  {
    if m < n - 1 {
      CivilOfOrder(m, n - 1);
    }
  }

  /** The text comparison in the queries is the comparison of day numbers, and equal texts
      are equal days: a table may as well hold the numbers. */
  lemma TextOrderIsDayOrder(m: nat, n: nat)
    requires CivilOf(m).year <= 9999 && CivilOf(n).year <= 9999
    ensures TextBefore(Iso(CivilOf(m)), Iso(CivilOf(n))) <==> m < n
    ensures Iso(CivilOf(m)) == Iso(CivilOf(n)) <==> m == n
  {
    TextOrderIsDateOrder(CivilOf(m), CivilOf(n));
    if m < n {
      CivilOfOrder(m, n);
    } else if n < m {
      CivilOfOrder(n, m);
    }
  }

  // ----- Days, counted by the leap year rule -----

  /** The days before January 1 of a year: 365 for each earlier year and one for each leap year,
      which are the multiples of 4, but of those of 100 only the multiples of 400. */
  function NewYear(year: nat): int {
    365 * year + Multiples(year, 4) - Multiples(year, 100) + Multiples(year, 400)
  }

  function Divides(k: nat, n: nat): nat
    requires k > 0
  {
    if n % k == 0 then 1 else 0
  }

  /** How many of the years below n are multiples of k. */
  function Multiples(n: nat, k: nat): nat
    requires k > 0
  {
    if n == 0 then 0 else Multiples(n - 1, k) + Divides(k, n - 1)
  }

  function YearDays(year: nat): nat {
    if Leap(year) then 366 else 365
  }

  lemma FourTimes(n: nat, k: nat)
    requires n == 4 * k
    ensures n % 4 == 0
  {
  }

  lemma HundredTimes(n: nat, k: nat)
    requires n == 100 * k
    ensures n % 100 == 0
  {
  }

  lemma LeapYearDays(year: nat)
    ensures YearDays(year) == 365 + Divides(4, year) - Divides(100, year) + Divides(400, year)
  {
    if year % 100 == 0 {
      FourTimes(year, 25 * (year / 100));
    }
    if year % 400 == 0 {
      HundredTimes(year, 4 * (year / 400));
    }
  }

  /** The days of a year before the first of a month. */
  function DaysBefore(year: nat, month: nat): nat {
    if month <= 1 then 0 else DaysBefore(year, month - 1) + MonthDays(year, month - 1)
  }

  lemma {:induction false} DayStep(n: nat, year: nat, month: nat, k: nat)
    requires CivilOf(n) == Civil(year, month, 1) && k < MonthDays(year, month)
    ensures CivilOf(n + k) == Civil(year, month, 1 + k)
  {
    if k > 0 {
      DayStep(n, year, month, k - 1);
    }
  }

  lemma MonthEnds(n: nat, year: nat, month: nat)
    requires CivilOf(n) == Civil(year, month, 1) && 1 <= month <= 12
    ensures CivilOf(n + MonthDays(year, month)) ==
            if month < 12 then Civil(year, month + 1, 1) else Civil(year + 1, 1, 1)
  {
    var last := n + MonthDays(year, month) - 1;
    DayStep(n, year, month, MonthDays(year, month) - 1);
    assert CivilOf(last + 1) == Next(CivilOf(last));
  }

  lemma {:induction false} MonthStep(n: nat, year: nat, month: nat)
    requires CivilOf(n) == Civil(year, 1, 1) && 1 <= month <= 12
    ensures CivilOf(n + DaysBefore(year, month)) == Civil(year, month, 1)
  {
    if month > 1 {
      MonthStep(n, year, month - 1);
      MonthEnds(n + DaysBefore(year, month - 1), year, month - 1);
    }
  }

  lemma YearLength(year: nat)
    ensures DaysBefore(year, 12) + 31 == YearDays(year)
  {
    assert DaysBefore(year, 2) == 31;
    assert DaysBefore(year, 3) == 31 + MonthDays(year, 2);
    assert DaysBefore(year, 5) == DaysBefore(year, 3) + 61;
    assert DaysBefore(year, 7) == DaysBefore(year, 5) + 61;
    assert DaysBefore(year, 9) == DaysBefore(year, 7) + 62;
    assert DaysBefore(year, 11) == DaysBefore(year, 9) + 61;
  }

  predicate StartsYear(n: int, year: nat) {
    n >= 0 && CivilOf(n) == Civil(year, 1, 1)
  }

  lemma YearEnds(n: int, year: nat)
    requires StartsYear(n, year)
    ensures StartsYear(n + YearDays(year), year + 1)
  {
    YearLength(year);
    MonthStep(n, year, 12);
    MonthEnds(n + DaysBefore(year, 12), year, 12);
  }

  lemma LeapStep(year: nat)
    ensures NewYear(year + 1) == NewYear(year) + YearDays(year)
  {
    LeapYearDays(year);
  }

  lemma {:induction false} YearStep(year: nat)
    ensures StartsYear(NewYear(year), year)
  {
    if year > 0 {
      YearStep(year - 1);
      YearEnds(NewYear(year - 1), year - 1);
      LeapStep(year - 1);
    }
  }

  /** Counting days from 0000-01-01 by stepping, and by the leap year rule, is the same. */
  lemma DayNumber(c: Civil)
    requires Valid(c)
    ensures var n := NewYear(c.year) + DaysBefore(c.year, c.month) + c.day - 1;
            n >= 0 && CivilOf(n) == c
  {
    YearStep(c.year);
    MonthStep(NewYear(c.year), c.year, c.month);
    DayStep(NewYear(c.year) + DaysBefore(c.year, c.month), c.year, c.month, c.day - 1);
  }

  // ----- The text in digits -----

  predicate Writes(s: string, n: nat) {
    if s == "" then n == 0
    else '0' <= s[|s| - 1] <= '9' && n % 10 == (s[|s| - 1] - '0') as int && Writes(s[..|s| - 1], n / 10)
  }

  lemma {:induction false} PadWrites(n: nat, w: nat)
    requires n < Pow10(w)
    ensures Writes(Pad(n, w), n)
  {
    if w > 0 {
      PadWrites(n / 10, w - 1);
      assert Pad(n, w)[..w - 1] == Pad(n / 10, w - 1);
    }
  }

  /** A date is written as four digits of year, two of month and two of day, with dashes between. */
  lemma IsoWrites(c: Civil)
    requires Valid(c) && c.year <= 9999
    ensures var s := Iso(c);
            && |s| == 10 && s[4] == s[7] == '-'
            && Writes(s[..4], c.year) && Writes(s[5..7], c.month) && Writes(s[8..], c.day)
  {
    assert Pow10(4) == 10000 && Pow10(2) == 100;
    PadWrites(c.year, 4);
    PadWrites(c.month, 2);
    PadWrites(c.day, 2);
    var year, month, day := Pad(c.year, 4), Pad(c.month, 2), Pad(c.day, 2);
    assert Iso(c)[..4] == year && Iso(c)[5..7] == month && Iso(c)[8..] == day;
  }
}
