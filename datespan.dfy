/**
 * The calendar difference between a start date and "now" (NACC.prototype.dateSpan):
 * the number of whole days elapsed and a normalised years/months/days breakdown.
 * "Now" is a parameter instead of a clock reading.
 */
module Spans {
  import opened Calendar

  /** Milliseconds in one day. */
  const MsPerDay := 86400000

  /** A point in local time: a calendar date and the milliseconds elapsed since its midnight. */
  datatype Instant = Instant(date: Date, msOfDay: int)

  predicate ValidInstant(t: Instant)
  {
    ValidDate(t.date) && 0 <= t.msOfDay < MsPerDay
  }

  /** The comparison dt2 > dt1, where dt1 is the midnight that starts the date `from`. */
  predicate Later(now: Instant, from: Date)
    requires 0 <= now.date.month < 12 && 0 <= from.month < 12
  {
    Ordinal(now.date) > Ordinal(from) || (Ordinal(now.date) == Ordinal(from) && now.msOfDay > 0)
  }

  /** The result object: total days and the calendar breakdown. */
  datatype Span = Span(totalDays: int, years: int, months: int, days: int)
  {
    /** The whole months of the span, as handed on to keytag selection. */
    function TotalMonths(): int
    {
      years * 12 + months
    }
  }

  /** The all-zero result, which the display reads as "no valid date". */
  const Zero := Span(0, 0, 0, 0)

  /**
   * Naive component subtraction; a negative day count borrows the length of
   * the start date's own month, then a negative month count borrows 12 months.
   */
  function DateSpan(from: Date, now: Instant): (s: Span)
    requires ValidDate(from) && ValidInstant(now)
    ensures !Later(now, from) ==> s == Zero
    ensures s.totalDays >= 0
    ensures s.totalDays > 0 <==> Before(from, now.date)
  {
    OrdinalOrder(from, now.date);
    if Later(now, from) then
      var years := now.date.year - from.year;
      var months := now.date.month - from.month;
      var days := now.date.day - from.day;
      var borrowed := if days < 0 then DaysInMonth(from.year, from.month) else 0;
      var months' := if days < 0 then months - 1 else months;
      var days' := days + borrowed;
      if months' < 0 then
        Span(Ordinal(now.date) - Ordinal(from), years - 1, months' + 12, days')
      else
        Span(Ordinal(now.date) - Ordinal(from), years, months', days')
    else
      Zero
  }

  // ---------------------------------------------------------------------
  // Lemmas

  /** For a start strictly before now the breakdown is normalised. */
  lemma SpanNormalised(from: Date, now: Instant)
    requires ValidDate(from) && ValidInstant(now)
    ensures var s := DateSpan(from, now);
      s.years >= 0 && 0 <= s.months <= 11 && 0 <= s.days <= 30
  {
    OrdinalOrder(from, now.date);
  }

  /**
   * The day borrow: when the day of "now" is smaller than the start day, one
   * month fewer is counted and the start month's length is added to the days.
   */
  lemma SpanBorrow(from: Date, now: Instant)
    requires ValidDate(from) && ValidInstant(now) && Later(now, from)
    ensures var s := DateSpan(from, now);
      var borrow := now.date.day < from.day;
      && s.TotalMonths() == MonthIndex(now.date) - MonthIndex(from) - (if borrow then 1 else 0)
      && s.days == now.date.day - from.day + (if borrow then DaysInMonth(from.year, from.month) else 0)
  {
  }

  /**
   * The breakdown agrees with the day count: the whole months contribute 28 to
   * 31 days each and the remaining days exactly `days`.
   */
  lemma SpanDaysBounds(from: Date, now: Instant)
    requires ValidDate(from) && ValidInstant(now)
    ensures var s := DateSpan(from, now);
      28 * s.TotalMonths() + s.days <= s.totalDays <= 31 * s.TotalMonths() + s.days
  {
    var s := DateSpan(from, now);
    if Later(now, from) {
      SpanBorrow(from, now);
      var a, b := from, now.date;
      var ka, kb := MonthIndex(a), MonthIndex(b);
      var tm, total := s.TotalMonths(), s.totalDays;
      OrdinalByMonth(a);
      OrdinalByMonth(b);
      assert total == MonthStart(kb) - MonthStart(ka) + b.day - a.day;
      var k0 := if b.day < a.day then ka + 1 else ka;
      if b.day < a.day {
        MonthStartStep(ka);
      }
      assert tm == kb - k0;
      assert total == MonthStart(kb) - MonthStart(k0) + s.days;
      SpanNormalised(from, now);
      MonthStartGrowth(k0, kb);
    }
  }

  /** Below one whole month, the breakdown's days are the total day count. */
  lemma SpanUnderAMonth(from: Date, now: Instant)
    requires ValidDate(from) && ValidInstant(now)
    requires DateSpan(from, now).TotalMonths() == 0
    ensures DateSpan(from, now).totalDays == DateSpan(from, now).days
  {
    SpanDaysBounds(from, now);
  }

  /** From a date to the same time-of-day's next calendar day: one day exactly. */
  lemma SpanOneDay(d: Date, ms: int)
    requires ValidDate(d) && 0 <= ms < MsPerDay
    ensures DateSpan(d, Instant(NextDate(d), ms)) == Span(1, 0, 0, 1)
  {
    NextDateOrdinal(d);
  }

  /** Leap day to the next March 1st: one year and one day. */
  lemma SpanFromLeapDay()
    ensures DateSpan(Date(2020, 1, 29), Instant(Date(2021, 2, 1), 0)) == Span(366, 1, 0, 1)
  {
  }

  /** January 31st to March 1st borrows the 31 days of January, not a fixed 30. */
  lemma SpanAcrossShortFebruary()
    ensures DateSpan(Date(2023, 0, 31), Instant(Date(2023, 2, 1), 0)) == Span(29, 0, 1, 1)
  {
  }
}
