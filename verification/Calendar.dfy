/** The Gregorian calendar the repeaters step through. */
module Calendar {

  const MAX_YEAR: nat := 9999

  datatype Date = Date(year: nat, month: nat, day: nat)

  predicate Leap(y: nat)
  {
    y % 4 == 0 && (y % 100 != 0 || y % 400 == 0)
  }

  function DaysInMonth(y: nat, m: nat): nat
  {
    if m == 2 then (if Leap(y) then 29 else 28)
    else if m == 4 || m == 6 || m == 9 || m == 11 then 30
    else 31
  }

  const MONTH_LENGTHS := [31, 28, 31, 30, 31, 30, 31, 31, 30, 31, 30, 31]

  /** The twelve month lengths of the calendar; leap years are those divisible by 4, except
      centuries not divisible by 400, and have one day more, in February. Every day of
      every month is a date, from the year 1 on. */
  lemma {:induction false} LengthsOfMonths(y: nat, m: nat)
    requires 1 <= m <= 12
    ensures DaysInMonth(y, m)
      == MONTH_LENGTHS[m - 1] + if m == 2 && ((y % 4 == 0 && y % 100 != 0) || y % 400 == 0) then 1 else 0
    ensures forall day: nat :: Valid(Date(y, m, day)) <==> y > 0 && 0 < day <= DaysInMonth(y, m)
  {
    CenturiesAreQuarters(y);
  }

  predicate Valid(d: Date)
  {
    1 <= d.year && 1 <= d.month <= 12 && 1 <= d.day <= DaysInMonth(d.year, d.month)
  }

  // --- day numbers --------------------------------------------------------

  function DaysBeforeYear(y: nat): int
  {
    var p := y - 1;
    365 * p + p / 4 - p / 100 + p / 400
  }

  function DaysBeforeMonth(y: nat, m: nat): nat
  {
    if m <= 1 then 0 else DaysBeforeMonth(y, m - 1) + DaysInMonth(y, m - 1)
  }

  /** The proleptic day number; 1 January of year 1 is day 1. */
  function Ordinal(d: Date): int
  {
    DaysBeforeYear(d.year) + DaysBeforeMonth(d.year, d.month) + d.day
  }

  function YearLength(y: nat): nat
  {
    if Leap(y) then 366 else 365
  }

  lemma {:induction false} YearStep(y: nat)
    requires y >= 1
    ensures DaysBeforeYear(y + 1) == DaysBeforeYear(y) + YearLength(y)
  {
    Quarter(y);
    Century(y);
    FourCenturies(y);
    CenturiesAreQuarters(y);
  }

  lemma {:induction false} Quarter(y: nat)
    requires y >= 1
    ensures y / 4 == (y - 1) / 4 + if y % 4 == 0 then 1 else 0
  {
  }

  lemma {:induction false} Century(y: nat)
    requires y >= 1
    ensures y / 100 == (y - 1) / 100 + if y % 100 == 0 then 1 else 0
  {
  }

  lemma {:induction false} CenturiesAreQuarters(y: nat)
    ensures y % 100 == 0 ==> y % 4 == 0
    ensures y % 400 == 0 ==> y % 100 == 0
  {
    if y % 100 == 0 {
      Divides(y, 4, y / 4, y % 4, 25, y / 100);
    }
    if y % 400 == 0 {
      Divides(y, 100, y / 100, y % 100, 4, y / 400);
    }
  }

  lemma {:induction false} Divides(y: int, p: int, a: int, r: int, c: int, q: int)
    requires (p == 4 && c == 25) || (p == 100 && c == 4)
    requires y == p * a + r && 0 <= r < p && y == p * c * q
    ensures r == 0
  {
  }

  lemma {:induction false} FourCenturies(y: nat)
    requires y >= 1
    ensures y / 400 == (y - 1) / 400 + if y % 400 == 0 then 1 else 0
  {
  }

  /** Days before each month, counted once. */
  lemma {:induction false} MonthTable(y: nat)
    ensures DaysBeforeMonth(y, 3) == 31 + DaysInMonth(y, 2)
    ensures DaysBeforeMonth(y, 12) + 31 == YearLength(y)
  {
    assert DaysBeforeMonth(y, 1) == 0;
    assert DaysBeforeMonth(y, 2) == 31;
    assert DaysBeforeMonth(y, 3) == 31 + DaysInMonth(y, 2);
    assert DaysBeforeMonth(y, 4) == 62 + DaysInMonth(y, 2);
    assert DaysBeforeMonth(y, 5) == 92 + DaysInMonth(y, 2);
    assert DaysBeforeMonth(y, 6) == 123 + DaysInMonth(y, 2);
    assert DaysBeforeMonth(y, 7) == 153 + DaysInMonth(y, 2);
    assert DaysBeforeMonth(y, 8) == 184 + DaysInMonth(y, 2);
    assert DaysBeforeMonth(y, 9) == 215 + DaysInMonth(y, 2);
    assert DaysBeforeMonth(y, 10) == 245 + DaysInMonth(y, 2);
    assert DaysBeforeMonth(y, 11) == 276 + DaysInMonth(y, 2);
    assert DaysBeforeMonth(y, 12) == 306 + DaysInMonth(y, 2);
  }

  // --- adding days --------------------------------------------------------

  function NextDay(d: Date): Date
  {
    if d.day < DaysInMonth(d.year, d.month) then d.(day := d.day + 1)
    else if d.month < 12 then Date(d.year, d.month + 1, 1)
    else Date(d.year + 1, 1, 1)
  }

  function AddDays(d: Date, n: nat): Date
    decreases n
  {
    if n == 0 then d else AddDays(NextDay(d), n - 1)
  }

  lemma {:induction false} NextDayOrdinal(d: Date)
    requires Valid(d)
    ensures Valid(NextDay(d)) && Ordinal(NextDay(d)) == Ordinal(d) + 1
  {
    if d.day == DaysInMonth(d.year, d.month) && d.month == 12 {
      YearStep(d.year);
      MonthTable(d.year);
    }
  }

  lemma {:induction false} AddDaysOrdinal(d: Date, n: nat)
    requires Valid(d)
    ensures Valid(AddDays(d, n)) && Ordinal(AddDays(d, n)) == Ordinal(d) + n
    decreases n
  {
    if n > 0 {
      NextDayOrdinal(d);
      AddDaysOrdinal(NextDay(d), n - 1);
    }
  }

  // --- adding months and years --------------------------------------------

  function Min(a: nat, b: nat): nat
  {
    if a < b then a else b
  }

  /** Months since month 0 of year 0. */
  function MonthIndex(d: Date): int
  {
    12 * d.year + d.month - 1
  }

  function MonthLength(k: nat): nat
  {
    DaysInMonth(k / 12, k % 12 + 1)
  }

  function AddMonths(d: Date, n: nat): Date
    requires d.month >= 1
  {
    var i := d.month - 1 + n;
    var year, month := d.year + i / 12, i % 12 + 1;
    Date(year, month, Min(d.day, DaysInMonth(year, month)))
  }

  /** 29 February falls back to the 28th in a year that has none. */
  function AddYears(d: Date, n: nat): Date
  {
    if d.day <= DaysInMonth(d.year + n, d.month) then d.(year := d.year + n)
    else Date(d.year + n, 2, 28)
  }

  /** Days before the first of month `k`. */
  function MonthStart(k: nat): int
  {
    DaysBeforeYear(k / 12) + DaysBeforeMonth(k / 12, k % 12 + 1)
  }

  lemma {:induction false} MonthStep(k: nat)
    requires k >= 12
    ensures MonthStart(k + 1) == MonthStart(k) + MonthLength(k)
    ensures 28 <= MonthLength(k) <= 31
  {
    var y, m := k / 12, k % 12;
    if m == 11 {
      assert (k + 1) / 12 == y + 1 && (k + 1) % 12 == 0;
      YearStep(y);
      MonthTable(y);
    } else {
      assert (k + 1) / 12 == y && (k + 1) % 12 == m + 1;
    }
  }

  lemma {:induction false} MonthsSpan(k: nat, n: nat)
    requires k >= 12
    ensures 28 * n <= MonthStart(k + n) - MonthStart(k) <= 31 * n
    decreases n
  {
    if n > 0 {
      MonthStep(k + n - 1);
      MonthsSpan(k, n - 1);
    }
  }

  /** A later month starts after the end of this one. */
  lemma {:induction false} MonthsAfter(k: nat, n: nat)
    requires k >= 12 && n > 0
    ensures MonthStart(k + n) >= MonthStart(k) + MonthLength(k)
  {
    MonthStep(k);
    MonthsSpan(k + 1, n - 1);
  }

  lemma {:induction false} YearsSpan(k: nat, n: nat)
    requires k >= 12
    ensures MonthStart(k + 12 * n) - MonthStart(k) <= 366 * n
    decreases n
  {
    if n > 0 {
      TwelveMonths(k);
      YearsSpan(k + 12, n - 1);
      assert (k + 12) + 12 * (n - 1) == k + 12 * n;
    }
  }

  lemma {:induction false} TwelveMonths(k: nat)
    requires k >= 12
    ensures MonthStart(k + 12) - MonthStart(k) <= 366
  {
    var y, m := k / 12, k % 12 + 1;
    assert (k + 12) / 12 == y + 1 && (k + 12) % 12 + 1 == m;
    YearStep(y);
    SameMonthStart(y, y + 1, m);
    NoTwoLeapYears(y);
  }

  lemma {:induction false} NoTwoLeapYears(y: nat)
    ensures !(Leap(y) && Leap(y + 1))
  {
  }

  lemma {:induction false} SameMonthStart(y: nat, z: nat, m: nat)
    ensures DaysBeforeMonth(z, m) - DaysBeforeMonth(y, m) <= if Leap(z) && !Leap(y) then 1 else 0
    decreases m
  {
    if m > 1 {
      SameMonthStart(y, z, m - 1);
      if m > 3 {
        LaterMonthsAgree(y, z, m);
      }
    }
  }

  /** After February the months before `m` differ at most by the leap day. */
  lemma {:induction false} LaterMonthsAgree(y: nat, z: nat, m: nat)
    requires m >= 3
    ensures DaysBeforeMonth(z, m) - DaysBeforeMonth(y, m) == DaysInMonth(z, 2) - DaysInMonth(y, 2)
    decreases m
  {
    if m > 3 {
      LaterMonthsAgree(y, z, m - 1);
    } else {
      MonthTable(y);
      MonthTable(z);
    }
  }

  lemma {:induction false} OrdinalByMonth(d: Date)
    requires Valid(d)
    ensures Ordinal(d) == MonthStart(MonthIndex(d)) + d.day && MonthIndex(d) >= 12
    ensures d.day <= MonthLength(MonthIndex(d))
  {
    var k := MonthIndex(d);
    assert k / 12 == d.year && k % 12 == d.month - 1;
  }

  lemma {:induction false} AddMonthsShape(d: Date, n: nat)
    requires Valid(d)
    ensures Valid(AddMonths(d, n)) && MonthIndex(AddMonths(d, n)) == MonthIndex(d) + n
    ensures AddMonths(d, n).day == Min(d.day, MonthLength(MonthIndex(d) + n))
  {
    var i := d.month - 1 + n;
    var k := MonthIndex(d) + n;
    assert i == 12 * (i / 12) + i % 12;
    assert k == 12 * (d.year + i / 12) + i % 12;
    assert k / 12 == d.year + i / 12 && k % 12 == i % 12;
  }

  /** A month step is strictly forward, by at most 31 days a month. */
  lemma {:induction false} AddMonthsForward(d: Date, n: nat)
    requires Valid(d) && n > 0
    ensures Valid(AddMonths(d, n))
    ensures 0 < Ordinal(AddMonths(d, n)) - Ordinal(d) <= 31 * n
  {
    AddMonthsShape(d, n);
    OrdinalByMonth(d);
    OrdinalByMonth(AddMonths(d, n));
    MonthsSpan(MonthIndex(d), n);
  }

  /** The leap-day fallback is the month clamp, twelve months at a time. */
  lemma {:induction false} YearsAreMonths(d: Date, n: nat)
    requires Valid(d)
    ensures AddYears(d, n) == AddMonths(d, 12 * n)
  {
    var i := d.month - 1 + 12 * n;
    assert i / 12 == n && i % 12 == d.month - 1;
  }

  lemma {:induction false} AddYearsForward(d: Date, n: nat)
    requires Valid(d) && n > 0
    ensures Valid(AddYears(d, n))
    ensures 0 < Ordinal(AddYears(d, n)) - Ordinal(d) <= 366 * n
  {
    YearsAreMonths(d, n);
    AddMonthsForward(d, 12 * n);
    AddMonthsShape(d, 12 * n);
    OrdinalByMonth(d);
    OrdinalByMonth(AddMonths(d, 12 * n));
    YearsSpan(MonthIndex(d), n);
  }
}
