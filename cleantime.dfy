/**
 * One calculation of the widget (calculate, displayCalculationResults,
 * createResultsDiv, createTagsDiv): the span from the start date to "now", the
 * two result lines and the keytags shown.
 */
module Cleantime {
  import opened Calendar
  import opened Spans
  import opened Blurbs
  import opened Keytags

  /**
   * The text chosen for the span, and the tags, which are built only when at
   * least one day has elapsed.
   */
  method Calculate(from: Date, now: Instant, special: bool) returns (display: Display, tags: seq<Keytag>)
    requires ValidDate(from) && ValidInstant(now)
    ensures display == DisplayCalculationResults(DateSpan(from, now))
    ensures tags == if 0 < display.tagDays then Tags(display.tagDays, display.tagMonths, special) else []
    ensures display.daysBlurb.template == ResultInvalid <==> !Before(from, now.date)
    ensures display.mainBlurb.Some? <==> display.tagDays > 90
    ensures var s := DateSpan(from, now);
      display.mainBlurb.Some? ==> Meaning(display.mainBlurb.value) == Some(Ymd(s.years, s.months, s.days))
    ensures White in tags <==> Before(from, now.date)
    ensures Red in tags <==> display.tagDays > 89
  {
    var span := DateSpan(from, now);
    display := DisplayCalculationResults(span);
    tags := [];
    if 0 < display.tagDays {
      tags := CreateTagsArray(display.tagDays, display.tagMonths, special);
    }
    SpanNormalised(from, now);
    MainBlurbShownIffOver90Days(from, now);
    ColourTagsExact(display.tagDays, display.tagMonths, special);
  }
}
