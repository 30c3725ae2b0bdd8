# NACC cleantime calculator — a Dafny model

The NACC widget (`nacc.js`) asks for a clean date through three menus: month, day and year. It
computes how long ago that date was. It then shows two result lines and the keytags earned so far.
The keytags are the milestone tags of Narcotics Anonymous: white, orange, green and red for days;
blue, yellow, year, gray and black for months; and optional special tags for later years.

This project models that core:

- `Calendar`: the Gregorian calendar the computation relies on. It covers leap years, month
  lengths and a day ordinal that stands in for the millisecond timestamps of `Date` objects.
- `Spans`: `dateSpan`. "Now" is a parameter, not a clock reading. The function gives the whole
  days elapsed and a years/months/days breakdown, with its day borrow.
- `Blurbs`: the choice `displayCalculationResults` makes. A line is a template key and the numbers
  handed to the formatter, and `Meaning` reads the years, months and days back out of a line.
- `Keytags`: `createTagsArray` and the image code of each tag. The method appends tags to a
  sequence in the order the widget appends images. It is proved equal to a specification
  function, and the milestone properties are proved about that function.
- `DayMenu`: `evaluateMonthDays` as a class. The class holds the day menu's array of disabled
  flags and its selected index.
- `Cleantime`: one calculation from the start date to the result lines and the tags.

Two rules of the code are worth knowing before the table:

- **Day borrow.** When the day of "now" is smaller than the start day, the code borrows the
  length of the start date's own month (nacc.js:284). `Spans.SpanAcrossShortFebruary` shows
  the rule: January 31st to March 1st borrows January's 31 days.
- **Special tags.** The yearly loop's special checks fire 12 months after the mark their
  constants name; see Findings.

## Model

| member | source | states |
|---|---|---|
| Calendar.DaysInMonth | nacc.js:284 | a month has 28 to 31 days; 28 exactly for February of a common year, 29 exactly for February of a Gregorian leap year, 30 exactly for April, June, September and November |
| Calendar.OrdinalOrder | nacc.js:266-267 | on valid dates the day ordinal orders exactly as the calendar does, and two dates share an ordinal only when equal, so the timestamp comparison `dt2 > dt1` can be read on dates |
| Calendar.NextDateOrdinal | nacc.js:267 | consecutive dates are one day apart in the day count |
| Spans.DateSpan | nacc.js:255-297 | if "now" is not later than the start, the result is all zero; the day count is never negative, and it is positive exactly when the start date lies before today's date |
| Spans.SpanNormalised | nacc.js:278-293 | after the two borrows, years are non-negative, months lie in 0..11 and days in 0..30 |
| Spans.SpanBorrow | nacc.js:278-293 | whole months are the month-index difference, less one when the day of "now" is below the start day; in that case the days gain the length of the start month |
| Spans.SpanDaysBounds | nacc.js:267-293 | the breakdown agrees with the day count: 28·(years·12 + months) + days ≤ totalDays ≤ 31·(years·12 + months) + days |
| Spans.SpanUnderAMonth | nacc.js:267-287 | below one whole month, the breakdown's days equal the total day count |
| Spans.SpanOneDay | nacc.js:266-293 | from any date to the next calendar day: 1 day, 0 years, 0 months, 1 day |
| Spans.SpanFromLeapDay | nacc.js:266-293 | 29 February 2020 to 1 March 2021 is 366 days: 1 year, 0 months, 1 day |
| Spans.SpanAcrossShortFebruary | nacc.js:282-288 | 31 January to 1 March 2023 is 29 days: 1 month and 1 day, borrowing January's 31 days |
| Blurbs.DaysBlurb | nacc.js:338-342 | the days line is the invalid-date message exactly when no day has elapsed, the singular one-day line exactly for one day; otherwise it states the elapsed day count |
| Blurbs.MainBlurb | nacc.js:345-391 | the main line appears only beyond 90 days; it always appears beyond 90 days with a year or more, and with at least two months; when it appears it states the years, months and days of the span |
| Blurbs.DisplayCalculationResults | nacc.js:336-399 | the days line is the invalid-date message exactly when no day has elapsed, the one-day line exactly for one day, and otherwise states the day count; the main line appears only beyond 90 days, always beyond 90 days with a year or more or with at least two months, and then states the years, months and days; the keytag inputs are the day count and years·12 + months |
| Blurbs.LongSpanHasTwoMonths | nacc.js:349 | a computed span of more than 90 days has at least two whole months |
| Blurbs.MainBlurbShownIffOver90Days | nacc.js:348-391 | for a computed span, the main line is shown exactly when more than 90 days have elapsed |
| Blurbs.OneMonthTemplatesUnreachable | nacc.js:379-384 | the two one-month templates, which are missing from the string table, are never chosen for a computed span |
| Keytags.Rank | nacc.js:560-719 | every tag has a rank from 1 to 14 in code order |
| Keytags.Code | nacc.js:560-719 | each tag's image code is two characters: its rank written in decimal |
| Keytags.ImageNamesDistinct | nacc.js:526-529 | two image names are equal only for the same tag and the same side |
| Keytags.CreateTagsArray | nacc.js:970-1045 | appends exactly the tags of the specification `Tags` for the given days, months and special flag |
| Keytags.AppendYearlyTags | nacc.js:1008-1042 | the yearly loop appends exactly the band of the specification: one step per 12 months from 24 up to the reduced month count, each step's band tag followed by the 10,000-day tag where earned |
| Keytags.BandMarks | nacc.js:1010-1042 | with the 10,000-day tag removed, the loop's output is one band tag per step, in step order |
| Keytags.NoTagsWithoutDays | nacc.js:973-975 | no tag is earned when no day has elapsed |
| Keytags.ColourTagsExact | nacc.js:973-987 | white, orange, green and red are earned exactly past 0, 29, 59 and 89 days |
| Keytags.MonthTagsExact | nacc.js:989-1008 | beyond 90 days, blue, yellow, year, gray and black are earned exactly past 5, 8, 11, 17 and 23 months; at 90 days or fewer none of them is |
| Keytags.BandRanks | nacc.js:1010-1042 | the yearly loop emits only black and the special tags |
| Keytags.TagsInFixedOrder | nacc.js:970-1045 | the tags before the loop are in strictly ascending code order, they form the head of the list, and every loop tag ranks at or after them; the loop's black tags repeat the fixed black |
| Keytags.BandSteps | nacc.js:1010-1038 | without the 10,000-day tag, the loop emits one tag per step, and step j's tag is the one for mark 24 + 12j |
| Keytags.BandTagChecks | nacc.js:1012-1033 | the fourth `i == 300` check never fires; three checks decide the step's tag |
| Keytags.BandLength | nacc.js:1010-1042 | the loop's output length is its step count plus one if it emits the 10,000-day tag |
| Keytags.TenKPlace | nacc.js:1010-1042 | the loop emits the 10,000-day tag exactly when special, over 9999 days and step 324 is reached; it does so once, right after step 324's tag |
| Keytags.StepsOfMonths | nacc.js:1008-1010 | the loop takes max(0, months/12 − 2) steps |
| Keytags.BandTagCount | nacc.js:989-1042 | beyond 90 days, the list holds the fixed tags, one tag per loop step, and possibly the 10,000-day tag |
| Keytags.BandAllBlackWithoutSpecial | nacc.js:1010-1038 | without special tags, every loop step emits a black tag |
| Keytags.NoTenKWithoutSpecial | nacc.js:1040 | without special tags, the loop never emits the 10,000-day tag |
| Keytags.BandWithSpecial | nacc.js:1010-1038 | with special tags, step i emits the decade tag at 120, the 25-year tag at 300, the 30-year tag at other multiples of 360, and black otherwise |
| Keytags.TenThousandDayTag | nacc.js:1008-1042 | the 10,000-day tag is present exactly when special, over 9999 days and at 336 months or more; it sits at one fixed place, right after a black tag |
| Keytags.DecadeTagAsWritten | nacc.js:1008-1018 | the decade tag is present exactly when special, beyond 90 days and at 132 months or more |
| Keytags.DecadeInBand | nacc.js:1010-1018 | the loop emits the decade tag exactly when special and its steps reach mark 120 |
| Keytags.SpecialTagsLateExample | nacc.js:1008-1042 | ten years (3653 days, 120 months) earn no decade tag, and 10,001 days over 328 months earn no 10,000-day tag |
| Keytags.IntendedSpecialTagsOnTime | nacc.js:1008-1042 | with each check applied to the month count its step stands for, the decade tag comes from 120 months on and the 10,000-day tag from 324 months on; the loop still emits one tag per year beyond two |
| DayMenu.MenuMonthLength | nacc.js:322-324 | the day found for the 1-based menu value is between 28 and 31 and is a valid day of the chosen month, and the day after it is the 1st of the following month, in the next year after December; so it is the chosen month's last day |
| DayMenu.DayPopup.constructor | nacc.js:821-831 | the day menu starts with 31 enabled options, with today's day selected |
| DayMenu.DayPopup.EvaluateMonthDays | nacc.js:321-330 | option i is disabled exactly when the chosen month has no day i + 1; the selection is unchanged when it lies inside the month, otherwise it moves to the month's last day; a selected day is a valid date of the chosen month |
| Cleantime.Calculate | nacc.js:438-440 | the shown lines are those of the span from the start date to now; tags are built only once a day has elapsed (the `0 < inNumDays` gate of `createTagsDiv`, nacc.js:947-960, reached through `createResultsDiv`, nacc.js:875-888); the main line appears exactly beyond 90 days and states the breakdown; white is shown exactly when the start lies before today, red exactly beyond 89 days |

## Left out

- Building the page is not modelled: DOM objects, style classes, the ring-top styling of a tag and event wiring. `createKeytag` and the other `create…` DOM builders fall under this.
- `generateID` is not modelled because it draws from `Math.random`.
- `getParameters` is not modelled because it reads the page URL.
- The constructor's option resolution is not modelled. The constructor sets the special-tags flag to false unconditionally (nacc.js:160); the model takes the flag as a parameter so that both settings are covered.
- `sprintf` is third-party code. Its formatting of the strings is not modelled: a line is its template key and its arguments.
- The localisation string table is not modelled. Two keys the display uses (nacc.js:381 and 383) have no entry there; `Blurbs.OneMonthTemplatesUnreachable` shows that neither is ever chosen.
- Two table entries are never used: `result_1_year_months_and_1_day_format` and `result_years_1_month_and_1_day_format`. As a result, 1 year, some months and 1 day is worded with the plural-years template, and several years, 1 month and 1 day with the "%d days" one.
- The decades tag (code 11) is never emitted by the selection; only its code is modelled.
- Spans.DateSpan: JavaScript `Date` arithmetic is replaced by calendar arithmetic. The model leaves out:
  - milliseconds beyond the day of "now", time zones, daylight-saving shifts (a 23- or 25-hour day can move `parseInt` of the millisecond difference by one);
  - the truncation of `parseInt` itself;
  - the rule that maps years 0 to 99 to 1900 to 1999, since the year menu starts at 1953.
- Spans.DateSpan and Cleantime.Calculate require a valid start date. Given an impossible day such as 31 February, JavaScript rolls over into the next month; the model does not, and `DayMenu.DayPopup.EvaluateMonthDays` disables such days.
- Cleantime.Calculate uses the tag selection as written, the one the widget shows; the corrected selection of the Findings is stated and proved alongside it as `Keytags.IntendedTags`.
- `monthOrYearPopupChanged` and `calculateCleantime` only forward menu values. They are covered by `DayMenu.DayPopup.EvaluateMonthDays` and `Cleantime.Calculate`, whose parameters are those values.

## Findings

| source | as written | input that shows it | evidently intended | confidence | as-written member | corrected member |
|---|---|---|---|---|---|---|
| nacc.js:1008-1042 | the month count is reduced by 12 before the yearly loop, but the special checks compare the loop counter itself (120, 300, multiples of 360, 324), so every special tag comes 12 months after its mark | 3653 days over 120 months with special tags earn no decade tag; 10,001 days over 328 months earn no 10,000-day tag | the decade tag from 120 months, the 10,000-day tag once past 9999 days from 324 months on (the constants 120, 300 and 360 are 10, 25 and 30 years in months, 324 months is 27 years, about where 10,000 days fall, and `inMonths -= 12` at nacc.js:1010 makes loop step i stand for month i + 12) | medium, not executed; the special tags show only on a page that sets the special-tags flag after construction, since the constructor resets it to false (nacc.js:160) | Keytags.SpecialTagsLateExample | Keytags.IntendedSpecialTagsOnTime |
