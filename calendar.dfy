/** UTC calendar arithmetic on whole days counted from 1970-01-01, the
    granularity at which the watch date is chosen. Days before the epoch are
    not needed: every watch date lies on or after 2010-01-01. */
module Calendar {

  const EPOCH_YEAR: int := 1970

  datatype CivilDate = CivilDate(year: int, month: int, day: int)

  predicate IsLeapYear(y: int) {
    y % 4 == 0 && (y % 100 != 0 || y % 400 == 0)
  }

  function DaysInYear(y: int): nat {
    if IsLeapYear(y) then 366 else 365
  }

  function DaysInMonth(y: int, m: int): nat
    requires 1 <= m <= 12
  {
    if m == 2 then (if IsLeapYear(y) then 29 else 28)
    else if m == 4 || m == 6 || m == 9 || m == 11 then 30
    else 31
  }

  /** Days of year `y` that come before the first of month `m`. */
  function DaysBeforeMonth(y: int, m: int): nat
    requires 1 <= m <= 12
  {
    var common :=
      if m == 1 then 0 else if m == 2 then 31 else if m == 3 then 59 else if m == 4 then 90
      else if m == 5 then 120 else if m == 6 then 151 else if m == 7 then 181 else if m == 8 then 212
      else if m == 9 then 243 else if m == 10 then 273 else if m == 11 then 304 else 334;
    common + (if m > 2 && IsLeapYear(y) then 1 else 0)
  }

  predicate IsValidDate(c: CivilDate) {
    c.year >= EPOCH_YEAR && 1 <= c.month <= 12 && 1 <= c.day <= DaysInMonth(c.year, c.month)
  }

  /** Day number of January 1 of year `y` (`Date.UTC(y, 0, 1)` in days). */
  function JanFirst(y: int): nat
    requires y >= EPOCH_YEAR
    decreases y - EPOCH_YEAR
  {
    if y == EPOCH_YEAR then 0 else JanFirst(y - 1) + DaysInYear(y - 1)
  }

  /** Day number of a calendar date. */
  function DayNumber(c: CivilDate): nat
    requires IsValidDate(c)
  {
    JanFirst(c.year) + DaysBeforeMonth(c.year, c.month) + c.day - 1
  }

  /** The month, searched downwards from `m`, that holds day `doy` of year `y`. */
  function MonthOf(y: int, doy: nat, m: int): (r: int)
    requires 1 <= m <= 12
    requires doy < DaysBeforeMonth(y, m) + DaysInMonth(y, m)
    ensures 1 <= r <= m
    ensures DaysBeforeMonth(y, r) <= doy < DaysBeforeMonth(y, r) + DaysInMonth(y, r)
    decreases m
  {
    if m == 1 || DaysBeforeMonth(y, m) <= doy then m else MonthOf(y, doy, m - 1)
  }

  /** The date that is day `doy` (from 0) of year `y`. */
  function DateInYear(y: int, doy: nat): (c: CivilDate)
    requires y >= EPOCH_YEAR && doy < DaysInYear(y)
    ensures IsValidDate(c) && c.year == y
    ensures DaysBeforeMonth(y, c.month) + c.day - 1 == doy
  {
    var m := MonthOf(y, doy, 12);
    CivilDate(y, m, doy - DaysBeforeMonth(y, m) + 1)
  }

  /** The date `rem` days after January 1 of year `y`. */
  function CivilFrom(y: int, rem: nat): CivilDate
    requires y >= EPOCH_YEAR
    decreases rem
  {
    if rem < DaysInYear(y) then DateInYear(y, rem) else CivilFrom(y + 1, rem - DaysInYear(y))
  }

  /** `CivilFrom` lands on a valid date of year `y` or later whose day number
      is `rem` past January 1 of `y`. */
  lemma {:induction false} CivilFromValid(y: int, rem: nat)
    requires y >= EPOCH_YEAR
    ensures var c := CivilFrom(y, rem);
            IsValidDate(c) && c.year >= y && DayNumber(c) == JanFirst(y) + rem
    decreases rem
  {
    if rem >= DaysInYear(y) {
      CivilFromValid(y + 1, rem - DaysInYear(y));
    }
  }

  /** The UTC calendar date of a day number (`toISOString().split('T')[0]`,
      kept as its three fields). */
  function ToCivil(d: nat): (c: CivilDate)
    ensures IsValidDate(c) && DayNumber(c) == d
  {
    CivilFromValid(EPOCH_YEAR, d);
    CivilFrom(EPOCH_YEAR, d)
  }

  /** Skipping a whole year moves the count to the next January 1. */
  lemma CivilFromNextYear(y: int, k: nat)
    requires y >= EPOCH_YEAR
    ensures CivilFrom(y, DaysInYear(y) + k) == CivilFrom(y + 1, k)
  {
  }

  /** Counting from the epoch or from a later January 1 gives the same date. */
  lemma {:induction false} CivilFromShift(y: int, k: nat)
    requires y >= EPOCH_YEAR
    ensures CivilFrom(EPOCH_YEAR, JanFirst(y) + k) == CivilFrom(y, k)
    decreases y - EPOCH_YEAR
  {
    if y > EPOCH_YEAR {
      var len := DaysInYear(y - 1);
      var here := JanFirst(y - 1) + (len + k);
      assert JanFirst(y) + k == here;
      assert CivilFrom(EPOCH_YEAR, here) == CivilFrom(y - 1, len + k) by {
        CivilFromShift(y - 1, len + k);
      }
      assert CivilFrom(y - 1, len + k) == CivilFrom(y, k) by {
        CivilFromNextYear(y - 1, k);
      }
    }
  }

  /** Every day on or after January 1 of `y` falls in year `y` or later. */
  lemma YearLowerBound(y: int, d: nat)
    requires y >= EPOCH_YEAR && d >= JanFirst(y)
    ensures ToCivil(d).year >= y
  {
    CivilFromShift(y, d - JanFirst(y));
  }

  /** The month search finds the one month that holds the day. */
  lemma {:induction false} MonthOfUnique(y: int, doy: nat, m: int, m0: int)
    requires 1 <= m0 <= m <= 12
    requires DaysBeforeMonth(y, m0) <= doy < DaysBeforeMonth(y, m0) + DaysInMonth(y, m0)
    ensures MonthOf(y, doy, m) == m0
    decreases m
  {
    if m > m0 {
      assert DaysBeforeMonth(y, m) >= DaysBeforeMonth(y, m0) + DaysInMonth(y, m0);
      MonthOfUnique(y, doy, m - 1, m0);
    }
  }

  /** The day-number encoding is a bijection onto valid dates: decoding a
      date's day number gives the date back. */
  lemma DateRoundTrip(c: CivilDate)
    requires IsValidDate(c)
    ensures ToCivil(DayNumber(c)) == c
  {
    var doy := DaysBeforeMonth(c.year, c.month) + c.day - 1;
    assert doy < DaysInYear(c.year);
    CivilFromShift(c.year, doy);
    MonthOfUnique(c.year, doy, 12, c.month);
  }

  /** January 1 of `y` decodes to 1 January of `y`. */
  lemma JanFirstIsJanuaryFirst(y: int)
    requires y >= EPOCH_YEAR
    ensures ToCivil(JanFirst(y)) == CivilDate(y, 1, 1)
  {
    var c := CivilDate(y, 1, 1);
    assert IsValidDate(c);
    assert DayNumber(c) == JanFirst(y);
    DateRoundTrip(c);
  }
}
