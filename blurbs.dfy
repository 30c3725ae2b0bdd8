/**
 * Which result text the calculator shows (NACC.prototype.displayCalculationResults):
 * a "days" line and an optional "main" line, each a message template key plus
 * the numbers substituted into it. The formatting of the strings is not modelled.
 */
module Blurbs {
  import opened Calendar
  import opened Spans

  datatype Option<T> = None | Some(value: T)

  /** Keys of the message templates, named after the localisation table entries. */
  datatype Template =
    | ResultInvalid
    | Result1Day
    | ResultDaysFormat
    | ResultMonthsFormat
    | ResultMonthsAnd1DayFormat
    | ResultMonthsAndDaysFormat
    | Result1Year
    | Result1YearAnd1Day
    | Result1YearAnd1Month
    | Result1Year1MonthAnd1Day
    | Result1YearDaysFormat
    | ResultYearsFormat
    | ResultYearsMonthsFormat
    | ResultYearsMonthsAnd1DayFormat
    | ResultYearsAnd1MonthFormat
    | ResultYearsAnd1DayFormat
    | ResultYearsAndDaysFormat
    | ResultYears1MonthAndDaysFormat
    | ResultYearsMonthsAndDaysFormat
      // the two keys below are used by the display but have no entry in the string table
    | Result1MonthAnd1Day
    | Result1MonthDaysFormat

  /** A chosen template and the arguments handed to the formatter. */
  datatype Message = Message(template: Template, args: seq<int>)

  /** A years/months/days reading of a message. */
  datatype Ymd = Ymd(years: int, months: int, days: int)

  /** What the two lines and the keytag inputs of one displayed result are. */
  datatype Display = Display(daysBlurb: Message, mainBlurb: Option<Message>, tagDays: int, tagMonths: int)

  /** The day count a "days" message states, read off its template and arguments. */
  function DaysMeaning(m: Message): Option<int>
  {
    match m.template
    case Result1Day => if m.args == [] then Some(1) else None
    case ResultDaysFormat => if |m.args| == 1 then Some(m.args[0]) else None
    case _ => None
  }

  /** The years, months and days a "main" message states, read off its template and arguments. */
  function Meaning(m: Message): Option<Ymd>
  {
    var a := m.args;
    match m.template
    case Result1Year => if a == [] then Some(Ymd(1, 0, 0)) else None
    case Result1YearAnd1Month => if a == [] then Some(Ymd(1, 1, 0)) else None
    case Result1Year1MonthAnd1Day => if a == [] then Some(Ymd(1, 1, 1)) else None
    case Result1YearAnd1Day => if a == [] then Some(Ymd(1, 0, 1)) else None
    case Result1YearDaysFormat => if |a| == 1 then Some(Ymd(1, 0, a[0])) else None
    case ResultYearsFormat => if |a| == 1 then Some(Ymd(a[0], 0, 0)) else None
    case ResultYearsAnd1MonthFormat => if |a| == 1 then Some(Ymd(a[0], 1, 0)) else None
    case ResultYearsAnd1DayFormat => if |a| == 1 then Some(Ymd(a[0], 0, 1)) else None
    case ResultYears1MonthAndDaysFormat => if |a| == 2 then Some(Ymd(a[0], 1, a[1])) else None
    case ResultYearsMonthsAnd1DayFormat => if |a| == 2 then Some(Ymd(a[0], a[1], 1)) else None
    case ResultYearsMonthsFormat => if |a| == 2 then Some(Ymd(a[0], a[1], 0)) else None
    case ResultYearsAndDaysFormat => if |a| == 2 then Some(Ymd(a[0], 0, a[1])) else None
    case ResultYearsMonthsAndDaysFormat => if |a| == 3 then Some(Ymd(a[0], a[1], a[2])) else None
    case Result1MonthAnd1Day => if a == [] then Some(Ymd(0, 1, 1)) else None
    case Result1MonthDaysFormat => if |a| == 1 then Some(Ymd(0, 1, a[0])) else None
    case ResultMonthsAndDaysFormat => if |a| == 2 then Some(Ymd(0, a[0], a[1])) else None
    case ResultMonthsAnd1DayFormat => if |a| == 1 then Some(Ymd(0, a[0], 1)) else None
    case ResultMonthsFormat => if |a| == 1 then Some(Ymd(0, a[0], 0)) else None
    case _ => None
  }

  /** The "days" line: the invalid-date message, the one-day message, or the formatted count. */
  function DaysBlurb(totalDays: int): (m: Message)
    ensures m.template == ResultInvalid <==> totalDays <= 0
    ensures m.template == Result1Day <==> totalDays == 1
    ensures totalDays > 0 ==> DaysMeaning(m) == Some(totalDays)
  {
    if 0 < totalDays then
      if totalDays == 1 then Message(Result1Day, []) else Message(ResultDaysFormat, [totalDays])
    else
      Message(ResultInvalid, [])
  }

  /**
   * The "main" line: empty up to 90 days; beyond that a template picked by the
   * years, months and days of the span.
   */
  function MainBlurb(s: Span): (m: Option<Message>)
    ensures m.Some? ==> s.totalDays > 90
    ensures m.Some? && s.years >= 0 ==> Meaning(m.value) == Some(Ymd(s.years, s.months, s.days))
    ensures s.totalDays > 90 && s.years > 0 ==> m.Some?
    ensures s.totalDays > 90 && s.years == 0 && s.months >= 2 && s.days >= 0 ==> m.Some?
  {
    var y, mo, d := s.years, s.months, s.days;
    if 0 < s.totalDays && 90 < s.totalDays then
      if 0 < y then
        if y == 1 && mo == 0 && d == 0 then Some(Message(Result1Year, []))
        else if y == 1 && mo == 1 && d == 0 then Some(Message(Result1YearAnd1Month, []))
        else if y == 1 && mo == 1 && d == 1 then Some(Message(Result1Year1MonthAnd1Day, []))
        else if y == 1 && mo == 0 && d == 1 then Some(Message(Result1YearAnd1Day, []))
        else if y == 1 && mo == 0 && 1 < d then Some(Message(Result1YearDaysFormat, [d]))
        else if mo == 0 && d == 0 then Some(Message(ResultYearsFormat, [y]))
        else if mo == 1 && d == 0 then Some(Message(ResultYearsAnd1MonthFormat, [y]))
        else if mo == 0 && d == 1 then Some(Message(ResultYearsAnd1DayFormat, [y]))
        else if mo == 1 then Some(Message(ResultYears1MonthAndDaysFormat, [y, d]))
        else if d == 1 then Some(Message(ResultYearsMonthsAnd1DayFormat, [y, mo]))
        else if d == 0 then Some(Message(ResultYearsMonthsFormat, [y, mo]))
        else if mo == 0 then Some(Message(ResultYearsAndDaysFormat, [y, d]))
        else Some(Message(ResultYearsMonthsAndDaysFormat, [y, mo, d]))
      else
        if mo == 1 && d == 1 then Some(Message(Result1MonthAnd1Day, []))
        else if mo == 1 && 1 < d then Some(Message(Result1MonthDaysFormat, [d]))
        else if 1 < mo && 1 < d then Some(Message(ResultMonthsAndDaysFormat, [mo, d]))
        else if 1 < mo && d == 1 then Some(Message(ResultMonthsAnd1DayFormat, [mo]))
        else if 1 < mo && d == 0 then Some(Message(ResultMonthsFormat, [mo]))
        else None
    else
      None
  }

  /** Both lines, plus the day and month counts handed on to keytag selection. */
  function DisplayCalculationResults(s: Span): (r: Display)
    ensures r.daysBlurb.template == ResultInvalid <==> s.totalDays <= 0
    ensures r.daysBlurb.template == Result1Day <==> s.totalDays == 1
    ensures s.totalDays > 0 ==> DaysMeaning(r.daysBlurb) == Some(s.totalDays)
    ensures r.mainBlurb.Some? ==> s.totalDays > 90
    ensures s.totalDays > 90 && s.years > 0 ==> r.mainBlurb.Some?
    ensures s.totalDays > 90 && s.years == 0 && s.months >= 2 && s.days >= 0 ==> r.mainBlurb.Some?
    ensures r.mainBlurb.Some? && s.years >= 0 ==> Meaning(r.mainBlurb.value) == Some(Ymd(s.years, s.months, s.days))
    ensures r.tagDays == s.totalDays && r.tagMonths == s.years * 12 + s.months
  {
    Display(DaysBlurb(s.totalDays), MainBlurb(s), s.totalDays, s.TotalMonths())
  }

  // ---------------------------------------------------------------------
  // Lemmas about results of DateSpan

  /** A computed span of more than 90 days has at least two whole months. */
  lemma LongSpanHasTwoMonths(from: Date, now: Instant)
    requires ValidDate(from) && ValidInstant(now)
    requires DateSpan(from, now).totalDays > 90
    ensures DateSpan(from, now).TotalMonths() >= 2
  {
    SpanNormalised(from, now);
    SpanDaysBounds(from, now);
  }

  /** For a computed span the main line is shown exactly when more than 90 days have elapsed. */
  lemma MainBlurbShownIffOver90Days(from: Date, now: Instant)
    requires ValidDate(from) && ValidInstant(now)
    ensures var s := DateSpan(from, now);
      MainBlurb(s).Some? <==> s.totalDays > 90
  {
    var s := DateSpan(from, now);
    SpanNormalised(from, now);
    if s.totalDays > 90 {
      LongSpanHasTwoMonths(from, now);
    }
  }

  /**
   * The two one-month templates, which have no entry in the string table, are
   * never chosen for a computed span: 90 days and more always make two months.
   */
  lemma OneMonthTemplatesUnreachable(from: Date, now: Instant)
    requires ValidDate(from) && ValidInstant(now)
    ensures var m := MainBlurb(DateSpan(from, now));
      m.Some? ==> m.value.template != Result1MonthAnd1Day && m.value.template != Result1MonthDaysFormat
  {
    var s := DateSpan(from, now);
    SpanNormalised(from, now);
    if s.totalDays > 90 {
      LongSpanHasTwoMonths(from, now);
    }
  }
}
