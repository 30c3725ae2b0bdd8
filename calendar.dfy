/**
 * Proleptic Gregorian calendar arithmetic used by the cleantime calculator:
 * leap years, month lengths and a day ordinal (days since 0000-01-01) that
 * stands in for the millisecond timestamps of JavaScript Date objects.
 *
 * Months are 0-based (January is 0), as Date.getMonth() reports them.
 */
module Calendar {

  /** A calendar date as a Date object reports it: getFullYear(), getMonth(), getDate(). */
  datatype Date = Date(year: int, month: int, day: int)

  /** Gregorian rule: divisible by 4 and not by 100, or divisible by 400. */
  predicate IsLeapYear(y: int)
  {
    (y % 4 == 0 && y % 100 != 0) || y % 400 == 0
  }

  /**
   * Number of days of month m (0-based) in year y; this is what
   * new Date(y, m + 1, 1, 0, 0, -1).getDate() yields, one second before the
   * first day of the following month.
   */
  function DaysInMonth(y: int, m: int): (n: int)
    requires 0 <= m < 12
    ensures 28 <= n <= 31
    ensures n == 28 <==> m == 1 && !IsLeapYear(y)
    ensures n == 29 <==> m == 1 && IsLeapYear(y)
    ensures n == 30 <==> m in {3, 5, 8, 10}
  {
    if m == 1 then (if IsLeapYear(y) then 29 else 28)
    else if m == 3 || m == 5 || m == 8 || m == 10 then 30
    else 31
  }

  function DaysInYear(y: int): int
  {
    if IsLeapYear(y) then 366 else 365
  }

  /** A date that a Date object can report: a real day of a real month. */
  predicate ValidDate(d: Date)
  {
    0 <= d.month < 12 && 1 <= d.day <= DaysInMonth(d.year, d.month)
  }

  /** Days of year y that lie before the first day of month m (m == 12 gives the whole year). */
  function DaysBeforeMonth(y: int, m: int): int
    requires 0 <= m <= 12
  {
    [0, 31, 59, 90, 120, 151, 181, 212, 243, 273, 304, 334, 365][m]
      + (if m >= 2 && IsLeapYear(y) then 1 else 0)
  }

  /** Days from 0000-01-01 to the first day of year y (negative for years before 0). */
  function DaysBeforeYear(y: int): int
  {
    365 * y + (y + 3) / 4 - (y + 99) / 100 + (y + 399) / 400
  }

  /** Number of days from 0000-01-01 to d. */
  function Ordinal(d: Date): int
    requires 0 <= d.month < 12
  {
    DaysBeforeYear(d.year) + DaysBeforeMonth(d.year, d.month) + d.day - 1
  }

  /** Months counted from January of year 0; consecutive months have consecutive indices. */
  function MonthIndex(d: Date): int
  {
    d.year * 12 + d.month
  }

  /** Ordinal of the first day of the month with index k. */
  function MonthStart(k: int): int
  {
    DaysBeforeYear(k / 12) + DaysBeforeMonth(k / 12, k % 12)
  }

  /** Length of the month with index k. */
  function MonthLength(k: int): (n: int)
    ensures 28 <= n <= 31
  {
    DaysInMonth(k / 12, k % 12)
  }

  /** Calendar order of dates: by year, then month, then day. */
  predicate Before(a: Date, b: Date)
  {
    a.year < b.year
    || (a.year == b.year && a.month < b.month)
    || (a.year == b.year && a.month == b.month && a.day < b.day)
  }

  /** The day after d. */
  function NextDate(d: Date): (r: Date)
    requires ValidDate(d)
    ensures ValidDate(r) && Before(d, r)
  {
    if d.day < DaysInMonth(d.year, d.month) then Date(d.year, d.month, d.day + 1)
    else if d.month < 11 then Date(d.year, d.month + 1, 1)
    else Date(d.year + 1, 0, 1)
  }

  // ---------------------------------------------------------------------
  // Lemmas

  /** The twelve month lengths add up to the year length. */
  lemma DaysBeforeMonthStep(y: int, m: int)
    requires 0 <= m < 12
    ensures DaysBeforeMonth(y, m + 1) == DaysBeforeMonth(y, m) + DaysInMonth(y, m)
    ensures DaysBeforeMonth(y, 12) == DaysInYear(y)
  {
  }

  /** Counting multiples of n below a bound moves by one exactly at a multiple of n. */
  lemma CeilStep(y: int, n: int)
    requires n in {4, 100, 400}
    ensures (y + n) / n - (y + n - 1) / n == if y % n == 0 then 1 else 0
  {
    var q, r := y / n, y % n;
    assert y == n * q + r && 0 <= r < n;
    assert (y + n) / n == q + 1 by {
      assert y + n == n * (q + 1) + r;
    }
    if r == 0 {
      assert y + n - 1 == n * q + (n - 1);
    } else {
      assert y + n - 1 == n * (q + 1) + (r - 1);
    }
  }

  /** Multiples of 400 are multiples of 100, which are multiples of 4. */
  lemma DivisibilityChain(y: int)
    ensures y % 400 == 0 ==> y % 100 == 0
    ensures y % 100 == 0 ==> y % 4 == 0
  {
    var p, q, r := y / 400, y / 100, y % 100;
    assert y == 400 * p + y % 400 && y == 100 * q + r && 0 <= r < 100;
    if y % 400 == 0 {
      var k := 4 * p - q;
      assert r == 100 * k;
    }
    var s, t := y / 4, y % 4;
    assert y == 4 * s + t && 0 <= t < 4;
    if r == 0 {
      var k := 25 * q - s;
      assert t == 4 * k;
    }
  }

  lemma DaysBeforeYearStep(y: int)
    ensures DaysBeforeYear(y + 1) == DaysBeforeYear(y) + DaysInYear(y)
  {
    CeilStep(y, 4);
    CeilStep(y, 100);
    CeilStep(y, 400);
    DivisibilityChain(y);
    var leaps := (if y % 4 == 0 then 1 else 0) - (if y % 100 == 0 then 1 else 0) + (if y % 400 == 0 then 1 else 0);
    assert leaps == DaysInYear(y) - 365;
    calc {
      DaysBeforeYear(y + 1);
      365 * (y + 1) + (y + 4) / 4 - (y + 100) / 100 + (y + 400) / 400;
      365 * y + 365 + (y + 3) / 4 - (y + 99) / 100 + (y + 399) / 400 + leaps;
    }
  }

  /** Going from one month to the next adds the length of the month left behind. */
  lemma MonthStartStep(k: int)
    ensures MonthStart(k + 1) == MonthStart(k) + MonthLength(k)
  {
    var y, m := k / 12, k % 12;
    assert k == 12 * y + m;
    DaysBeforeMonthStep(y, m);
    if m < 11 {
      assert (k + 1) / 12 == y && (k + 1) % 12 == m + 1;
    } else {
      assert k + 1 == 12 * (y + 1);
      assert (k + 1) / 12 == y + 1 && (k + 1) % 12 == 0;
      DaysBeforeYearStep(y);
    }
  }

  /** Every month has 28 to 31 days, so n months span between 28n and 31n days. */
  lemma {:induction false} MonthStartGrowth(k1: int, k2: int)
    requires k1 <= k2
    ensures 28 * (k2 - k1) <= MonthStart(k2) - MonthStart(k1) <= 31 * (k2 - k1)
    decreases k2 - k1
  {
    if k1 < k2 {
      MonthStartGrowth(k1, k2 - 1);
      MonthStartStep(k2 - 1);
    }
  }

  /** The ordinal of a date is the start of its month plus its day offset. */
  lemma OrdinalByMonth(d: Date)
    requires 0 <= d.month < 12
    ensures Ordinal(d) == MonthStart(MonthIndex(d)) + d.day - 1
    ensures MonthLength(MonthIndex(d)) == DaysInMonth(d.year, d.month)
  {
    var k := MonthIndex(d);
    assert k / 12 == d.year && k % 12 == d.month;
  }

  /** Month indices order dates by year, then month. */
  lemma MonthIndexOrder(a: Date, b: Date)
    requires 0 <= a.month < 12 && 0 <= b.month < 12
    ensures MonthIndex(a) < MonthIndex(b) <==> a.year < b.year || (a.year == b.year && a.month < b.month)
    ensures MonthIndex(a) == MonthIndex(b) <==> a.year == b.year && a.month == b.month
  {
    if a.year < b.year {
      assert MonthIndex(a) < 12 * (a.year + 1) <= MonthIndex(b);
    } else if b.year < a.year {
      assert MonthIndex(b) < 12 * (b.year + 1) <= MonthIndex(a);
    }
  }

  /** A valid date of an earlier month has a smaller ordinal than any date of a later month. */
  lemma EarlierMonthSmallerOrdinal(a: Date, b: Date)
    requires ValidDate(a) && ValidDate(b) && MonthIndex(a) < MonthIndex(b)
    ensures Ordinal(a) < Ordinal(b)
  {
    OrdinalByMonth(a);
    OrdinalByMonth(b);
    MonthStartStep(MonthIndex(a));
    MonthStartGrowth(MonthIndex(a) + 1, MonthIndex(b));
  }

  /** On valid dates the day ordinal orders exactly as the calendar does. */
  lemma OrdinalOrder(a: Date, b: Date)
    requires ValidDate(a) && ValidDate(b)
    ensures Ordinal(a) < Ordinal(b) <==> Before(a, b)
    ensures Ordinal(a) == Ordinal(b) <==> a == b
  {
    MonthIndexOrder(a, b);
    if MonthIndex(a) < MonthIndex(b) {
      EarlierMonthSmallerOrdinal(a, b);
    } else if MonthIndex(b) < MonthIndex(a) {
      EarlierMonthSmallerOrdinal(b, a);
    }
  }

  /** The day after d has the next ordinal. */
  lemma NextDateOrdinal(d: Date)
    requires ValidDate(d)
    ensures Ordinal(NextDate(d)) == Ordinal(d) + 1
  {
    var e := NextDate(d);
    if d.day < DaysInMonth(d.year, d.month) {
      assert e == Date(d.year, d.month, d.day + 1);
    } else {
      OrdinalByMonth(d);
      OrdinalByMonth(e);
      assert e.day == 1 && MonthIndex(e) == MonthIndex(d) + 1;
      MonthStartStep(MonthIndex(d));
    }
  }
}
