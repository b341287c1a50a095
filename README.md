# cwver in Dafny

`cwver` is a command-line tool that works with calendar-week version strings
such as `21w45.7`: two digits of the ISO 8601 week-year (2000 + YY), `w`, two
digits of the ISO week, `.`, and the weekday counted from Monday (1) to Sunday
(7). The tool converts dates to such strings and back. It also counts the
workdays of a regression range and proposes the date, or pair of dates, that
bisects the range by workdays. The workweek is a comma-separated list of
weekday numbers, e.g. `1,2,3,4,5`.

This project models the tool's core, every function of `src/main.rs` apart
from `main`, and proves properties of it:

- `calendar.dfy` (`Calendar`): a proleptic Gregorian calendar standing in for
  chrono's `NaiveDate`. A date is its day number from 0001-01-01. The module
  gives the weekday, conversion to and from (year, month, day), and conversion
  to and from ISO 8601 week dates, with both round trips proved.
- `text.dfy` (`Text`): ASCII digits, decimal numerals, and `str::split` with a
  one-character separator, with the split/join round trips proved.
- `workweek.dfy` (`Workweek`): Rust's `u32` parsing and `workdays_to_hashset`,
  a loop over the comma-separated tokens.
- `cwver.dfy` (`CwVer`): `parse_cwver_str`, modelled as the leftmost match of
  the pattern `(\d{2})w(\d{2})\.(\d{1})`, plus `cwver_str_to_date` and
  `date_to_cwver_str`.
- `workdays.dfy` (`Workdays`): the loops `count_workdays`, `next_workday` and
  `jump_n_workdays` as methods. Each is proved equal to a specification
  function, and the properties are proved about those functions.
- `bisect.dfy` (`Bisect`): `bisect_range` and the even split it produces.
- `errors.dfy` and `options.dfy`: the error kinds, and the `Result` and
  `Option` types.

`count_workdays` counts the start day as 1 whether or not it is a workday.
It adds the workdays strictly between the two dates and tests neither end.
The model keeps that rule (`Workdays.WorkdayCount`), and `Workdays.CountBounds`
states it as a cardinality.

## Model

| member | source | states |
|---|---|---|
| Workweek.ParseU32 | src/main.rs:145-147 | a token that parses as `u32` has a value in 0..2^32-1 |
| Workweek.ParseU32Decimal | src/main.rs:145-147 | every u32 written in decimal, with or without a leading `+`, parses back to itself |
| Workweek.ParseU32RejectsEmpty | src/main.rs:145-147 | the empty token and a lone sign are not numbers (so an empty workweek list is rejected) |
| Workweek.ParseWorkweek | src/main.rs:142-154 | Ok exactly when every comma-separated token is a u32 in 1..7; the set is the set of those values, never empty, so it holds some weekday 1..7; otherwise the error comes from the first bad token: unparsable, or out of range with its value |
| Workweek.CollectedDays | src/main.rs:152-153 | the values of accepted tokens, gathered into a set, are the workweek the tokens denote, lie in 1..7, and are never empty for at least one token |
| Text.Split | src/main.rs:144 | splitting always gives at least one piece, and no piece holds the separator |
| Text.JoinSplit | src/main.rs:144 | joining the pieces with the separator gives back the string |
| Text.SplitJoin | src/main.rs:144 | splitting the join of separator-free pieces gives back the pieces |
| Text.SplitPiece | src/main.rs:144 | a string without the separator is a single piece |
| Text.SplitConcat | src/main.rs:144 | a separator-free piece followed by the separator splits off as the first piece |
| Text.DecimalRoundTrip | src/main.rs:172-174 | reading the decimal numeral of n gives n |
| Text.Decimal | src/main.rs:172-174 | a numeral is a non-empty string of digits |
| Text.DigitChar | src/main.rs:181-184 | the digit written for 0..9 reads back as that value |
| CwVer.FindMatch | src/main.rs:169 | the scan returns the first index from `i` at which the pattern occurs, or None when it occurs nowhere from `i` on |
| CwVer.ParseCwVer | src/main.rs:168-176 | Some exactly when the pattern occurs somewhere in the string; the numbers are those of the leftmost occurrence, each within the range its digits allow |
| CwVer.ParseWhole | src/main.rs:168-176 | a seven-character string that is one occurrence parses to its own fields |
| CwVer.ParseExamples | src/main.rs:224-229 | the parses the tests expect: `21w01.2`, `00w00.0`, `99w99.9`, and None for `21w1.0` |
| CwVer.CwVerToDate | src/main.rs:156-166 | an unparsable string gives the parse error; a weekday D outside 1..7 gives the weekday error with D; for D in 1..7 the result is Ok exactly when week WW exists in week-year 2000 + YY, the Ok date has ISO week date (2000 + YY, WW, D), and every other outcome is the error naming the string |
| CwVer.WeekDateOrError | src/main.rs:164-165 | a date exactly when the week exists in the week-year, carrying the given week date; otherwise the error naming the string |
| CwVer.ConvertFields | src/main.rs:156-166 | a string whose parsed fields, read as (2000 + YY, WW, D), are the ISO week date of a date `d` converts to `d` |
| CwVer.ConvertExample1 | src/main.rs:233 | `21w01.1` converts to 2021-01-04 |
| CwVer.ConvertExample2 | src/main.rs:234 | `21w10.7` converts to 2021-03-14 |
| CwVer.ConvertExample3 | src/main.rs:235 | `21w52.7` converts to 2022-01-02 |
| CwVer.ConvertErrorExamples | src/main.rs:236-247 | `21w52.0` fails on the weekday; `21w00.1` and `21w53.1` fail because the week does not exist |
| CwVer.DateToCwVer | src/main.rs:178-186 | the formatted string has seven characters and is an occurrence of the pattern |
| CwVer.ParseFormatted | src/main.rs:178-186 | parsing a formatted date gives its ISO week-year mod 100, its week and its weekday |
| CwVer.Pad2Fields | src/main.rs:181-183 | `{:02}` of 0..99 writes two digits that read back as the number |
| CwVer.Pad2Digits | src/main.rs:181-183 | padding the value of two digits writes those digits |
| CwVer.FieldsDenoteDate | src/main.rs:156-186 | for week-years 2000-2099 the formatted fields, read as (2000 + YY, WW, D), are the date's ISO week date |
| CwVer.CwVerRoundTrip | src/main.rs:156-186 | for every date of ISO week-years 2000-2099, converting the formatted string gives the date back |
| CwVer.CwVerCanonical | src/main.rs:156-186 | a string that converts to a date has week-year 2000-2099, and formatting that date reproduces the leftmost occurrence of the pattern in the string |
| CwVer.FormattedFields | src/main.rs:178-186 | a date with ISO week date (2000 + YY, WW, D) formats as YY, WW and D |
| CwVer.MatchedText | src/main.rs:169-175 | an occurrence of the pattern is the formatting of its own parsed fields |
| CwVer.FormatsAs | src/main.rs:178-186 | formatting gives `s` back when `s` is one occurrence whose fields are the date's week date |
| CwVer.FormatExample1 | src/main.rs:252-255 | 2021-01-04 formats as `21w01.1` |
| CwVer.FormatExample2 | src/main.rs:256-259 | 2021-03-14 formats as `21w10.7` |
| CwVer.FormatExample3 | src/main.rs:260-263 | 2022-01-02 formats as `21w52.7` |
| CwVer.IsoWeekExample1 | src/main.rs:233 | 2021-01-04 is the Monday of ISO week 1 of 2021 |
| CwVer.IsoWeekExample2 | src/main.rs:234 | 2021-03-14 is the Sunday of ISO week 10 of 2021 |
| CwVer.IsoWeekExample3 | src/main.rs:235 | 2022-01-02 is the Sunday of ISO week 52 of 2021 |
| CwVer.Years2021And2022 | src/main.rs:233-235 | the starts of 2021-2023, week 1 of 2021 and 2022, and the 52 weeks of 2021 |
| CwVer.ExampleFields | src/main.rs:233-235 | the fields of the three example strings |
| CwVer.ExampleDates | src/main.rs:233-235 | the day numbers of 2021-01-04, 2021-03-14 and 2022-01-02 |
| Calendar.YearStartStep | src/main.rs:179 | the closed form for January 1 advances by 366 days in leap years and 365 otherwise |
| Calendar.YearStartMonotone | src/main.rs:179 | later years start later, at least 365 days per year |
| Calendar.YearUnique | src/main.rs:179 | at most one year contains a day |
| Calendar.SearchYearUp | src/main.rs:179 | the search ends at the year whose span holds the day |
| Calendar.YearOf | src/main.rs:179 | the year of a date is a year from 1 on whose span holds the date |
| Calendar.YearOfIs | src/main.rs:179 | a year whose span holds the date is its year |
| Calendar.Weekday | src/main.rs:184 | `number_from_monday` is in 1..7 |
| Calendar.WeekdaySucc | src/main.rs:199 | the next day has the next weekday, Sunday wrapping to Monday |
| Calendar.WeekdayInWeek | src/main.rs:209-217 | each weekday occurs within the seven days after any date |
| Calendar.DaysBeforeMonthStep | src/main.rs:233 | month offsets grow by the month lengths, from 0 up to the year's length |
| Calendar.FromYmd | src/main.rs:233 | `from_ymd` yields a date exactly for an existing month and day |
| Calendar.FromYmdInYear | src/main.rs:233 | the date of (y, m, d) lies in year y |
| Calendar.SearchMonth | src/main.rs:233 | the search finds the month holding the day of the year |
| Calendar.ToYmd | src/main.rs:233 | every date has a valid (year, month, day) in its own year |
| Calendar.YmdRoundTrip | src/main.rs:233 | splitting a date into (year, month, day) and building it back is the identity |
| Calendar.YmdRoundTripBack | src/main.rs:233 | building a date from a valid triple and splitting it is the identity |
| Calendar.MonthUnique | src/main.rs:233 | at most one month contains a day of the year |
| Calendar.WeeksInYearRule | src/main.rs:164 | a week-year has 52 or 53 weeks, and 53 exactly when January 1 is a Thursday, or a Wednesday in a leap year |
| Calendar.IsoWeekOf | src/main.rs:179 | `iso_week` gives a week that exists in its week-year and the date's weekday, and names the date |
| Calendar.FromIsoYwd | src/main.rs:164 | `from_isoywd_opt` yields a date exactly when the week is 1 up to the week-year's number of weeks |
| Calendar.IsoRoundTrip | src/main.rs:164-179 | building a date from its own ISO week date gives the date |
| Calendar.IsoRoundTripBack | src/main.rs:164-179 | the date built from an existing ISO week date has that ISO week date |
| Calendar.BuiltWeek | src/main.rs:164 | the date built from (y, w, wd) lies in the w-th week from week 1 of y, on weekday wd |
| Calendar.BuiltThursday | src/main.rs:164 | the Thursday of every week of week-year y lies in calendar year y |
| Calendar.IsoYearOfThursday | src/main.rs:179 | the week-year of a date is the calendar year of its week's Thursday, at most three days away |
| Calendar.NearbyYear | src/main.rs:179 | a day within three days of a date lies in its calendar year or a neighbouring one, on the side of the nearby year boundary |
| Calendar.IsoYearNearCalendarYear | src/main.rs:179-182 | the week-year equals the calendar year except within three days of a year boundary, where it is the neighbouring year |
| Workdays.TallyIsCardinality | src/main.rs:188-207 | the day-by-day tally of a range is the number of its workdays |
| Workdays.WorkdaysInLast | src/main.rs:198-205 | extending a range by one day adds one workday exactly when that day is a workday |
| Workdays.TallySplit | src/main.rs:198-205 | tallies of adjacent ranges add up |
| Workdays.TallyBounds | src/main.rs:198-205 | a range tallies at most its length, all of it under a seven-day workweek, nothing under an empty one |
| Workdays.TallyNone | src/main.rs:209-217 | a range without workdays tallies 0 |
| Workdays.SomeWorkdayMeansHasWorkday | src/main.rs:198-205 | a range holding a workday shows the workweek has a weekday |
| Workdays.CountBounds | src/main.rs:188-207 | a non-empty ordered range counts 1 plus the workdays strictly inside it, between 1 and its length; its length under a seven-day workweek; 1 under an empty workweek |
| Workdays.CountWorkdays | src/main.rs:188-207 | the loop returns the count of the specification: the ordering error, 0 for equal dates, otherwise 1 plus the workdays strictly between |
| Workdays.TestDayNumbers | src/main.rs:267-375 | the day numbers of the dates the tests use, 2021-01-03 to 2021-03-17, and that 2021-03-08 is a Monday |
| Workdays.CountExamples | src/main.rs:267-310 | the counts the tests expect, including the ordering error |
| Workdays.WorkdayWithinWeek | src/main.rs:209-217 | with some weekday in the workweek, a workday follows within seven days |
| Workdays.FirstWorkdayFrom | src/main.rs:211-216 | the first workday of an interval that holds one: a workday with none before it |
| Workdays.NextWorkdayAfter | src/main.rs:209-217 | the next workday lies 1 to 7 days later, with no workday in between |
| Workdays.NextWorkday | src/main.rs:209-217 | the loop returns the first workday after `from` |
| Workdays.NextWorkdayExamples | src/main.rs:209-217 | after Friday 2021-03-12 comes Monday under Monday-Friday and Saturday under seven days; three workdays on is Wednesday |
| Workdays.TallyThroughNext | src/main.rs:209-217 | stepping to the next workday passes exactly one more workday |
| Workdays.JumpWorkdays | src/main.rs:131-140 | advancing n times lands n to 7n days later, passes exactly n workdays, and for n > 0 lands on a workday |
| Workdays.JumpIncreasing | src/main.rs:131-140 | advancing further lands strictly later |
| Workdays.JumpEveryDay | src/main.rs:131-140 | under a seven-day workweek advancing by n workdays advances by n days |
| Workdays.JumpNWorkdays | src/main.rs:131-140 | the loop returns `from` advanced to the next workday n times |
| Workdays.JumpTallies | src/main.rs:131-140 | advancing by k >= 1 lands on a workday after `from`, with k - 1 workdays strictly between |
| Workdays.JumpCount | src/main.rs:131-140 | the range from `from` to the date k workdays on counts k |
| Workdays.JumpBeforeEnd | src/main.rs:131-140 | advancing by at most the workdays inside a range stays before its end |
| Workdays.TallyOrder | src/main.rs:198-205 | of two workdays, the later one closes a range with a larger tally |
| Workdays.JumpReachesWorkday | src/main.rs:131-140 | every workday after `from` is the date reached by advancing as many workdays as lie in the range from the day after `from` through it |
| Workdays.JumpRest | src/main.rs:131-140 | after advancing by k below the count c, the rest of the range counts c - k |
| Workdays.JumpSplitsRange | src/main.rs:118-140 | advancing by 1 <= k < c lands strictly inside the range on a workday and splits its count into k and c - k |
| Bisect.OrderedPair | src/main.rs:125-128 | the `ordset!` of two dates holds exactly those dates, ascending and without duplicates |
| Bisect.BisectRange | src/main.rs:118-129 | fails exactly when `from` is after `till`, with the count's ordering error |
| Bisect.BisectShape | src/main.rs:118-129 | an ordered range bisects without error: to nothing below a count of 2, else to one date when the count is even and two ascending dates when it is odd |
| Bisect.PairShape | src/main.rs:125-128 | the pair has one element when the dates coincide and two ascending ones otherwise |
| Bisect.BisectPoint | src/main.rs:118-129 | either half of a count of at least 2 leads to a date that splits the range evenly |
| Bisect.BisectHalves | src/main.rs:118-129 | every proposed date lies strictly inside the range on a workday and splits its count into two parts that add up and differ by at most one |
| Bisect.BisectComplete | src/main.rs:118-129 | conversely, every workday strictly inside the range that splits its count into parts that add up, the first being c/2 or (c+1)/2, is among the proposed dates |
| Bisect.BisectExactly | src/main.rs:118-129 | for an ordered range the proposed dates are exactly the dates that split it evenly |
| Bisect.HalvesOf | src/main.rs:126-127 | the halves c/2 and (c+1)/2 add up to c, coincide for even c and differ by one for odd c |
| Bisect.BisectExamplesCommercial | src/main.rs:317-354 | the Monday-Friday bisections the tests expect |
| Bisect.BisectEveryDay | src/main.rs:118-129 | when every day is a workday, a range of n >= 2 days bisects to the dates n/2 and (n+1)/2 days after its start |
| Bisect.BisectExamplesAllDays | src/main.rs:356-375 | the seven-day bisections the tests expect |

## Left out

- `main` (src/main.rs:12-116) is not modelled: argument parsing, printing, reading the local clock for `today`, and the panic for more than two bisection dates. The bisection never yields more than two dates (`Bisect.OrderedPair`).
- chrono is not part of this model. The calendar is a proleptic Gregorian one counted from 0001-01-01. Dates before that day and chrono's upper date limit are not modelled, so the successor day is always defined and the `succ` panic at the maximum date is left out.
- Error messages are modelled as error kinds with the values they mention (`Errors.Error`), not as formatted text.
- `Weekday::from_u32` (src/main.rs:162-163) is modelled as always succeeding: on 0..6 it cannot fail, so its error branch is unreachable.
- `\d` in the `regex` crate also matches non-ASCII Unicode digits, which Rust's integer parsing then rejects. The model treats only ASCII digits as digits, so a string whose leftmost `\d` match uses other digits is not covered.
- `bisect_range` converts the count to `f32` and back. The model uses exact integers c/2 and (c+1)/2. These agree with the float arithmetic for every count below 2^24, far beyond the day span of any realistic range.
- The `u32` count of `count_workdays` is unbounded (`nat`). It cannot overflow within chrono's date range.
- Collections: `im::HashSet<u32>` is a `set<int>`, and `im::OrdSet<NaiveDate>` is an ascending duplicate-free `seq<Date>`.
- Workdays.NextWorkday: requires a workweek containing some weekday 1..7. The source loops forever otherwise, which a workweek from `workdays_to_hashset` rules out (`Workweek.ParseWorkweek` ensures it).
- Workdays.NextWorkdayAfter: requires a workweek containing some weekday 1..7, for the same reason.
- Workdays.JumpNWorkdays: requires a workweek containing some weekday 1..7 when n > 0, for the same reason.
- Workdays.JumpWorkdays: requires a workweek containing some weekday 1..7 when n > 0, for the same reason.
- CwVer.CwVerRoundTrip: holds for ISO week-years 2000 to 2099 only. Formatting keeps the week-year mod 100 and conversion adds 2000, so other years do not round-trip.
