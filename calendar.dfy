/**
  A proleptic Gregorian calendar, standing in for the date type of the chrono
  library: a date is its day number, counted from 0001-01-01 (day 0, a Monday).
  It offers the successor day (+1), the weekday counted from Monday, conversion
  to and from (year, month, day), and conversion to and from the ISO 8601 week
  date (section 4.1.4 of ISO 8601:2004: week 1 of a week-year is the week that
  holds that year's first Thursday).
 */
module Calendar {
  import opened Options

  /** A date, as the number of days since 0001-01-01. */
  newtype Date = n: int | 0 <= n

  // ---------------------------------------------------------------------------
  // Years
  // ---------------------------------------------------------------------------

  /** The Gregorian leap rule: every fourth year, except centuries not divisible by 400. */
  predicate IsLeapYear(y: int) {
    y % 4 == 0 && (y % 100 != 0 || y % 400 == 0)
  }

  /** 366 days in a leap year, 365 otherwise. */
  function DaysInYear(y: int): int {
    if IsLeapYear(y) then 366 else 365
  }

  /** Day number of January 1 of year `y` (negative before year 1). */
  function YearStart(y: int): int {
    var p := y - 1;
    365 * p + p / 4 - p / 100 + p / 400
  }

  /** Stepping p by one raises p / 4 exactly when p + 1 is a multiple of 4 (likewise for 100 and 400 below). */
  lemma DivStep4(p: int)
    ensures (p + 1) / 4 == p / 4 + (if (p + 1) % 4 == 0 then 1 else 0)
  {
  }

  lemma DivStep100(p: int)
    ensures (p + 1) / 100 == p / 100 + (if (p + 1) % 100 == 0 then 1 else 0)
  {
  }

  lemma DivStep400(p: int)
    ensures (p + 1) / 400 == p / 400 + (if (p + 1) % 400 == 0 then 1 else 0)
  {
  }

  /** Centuries are multiples of four, and multiples of 400 are centuries. */
  lemma DivisorChain(y: int)
    ensures y % 100 == 0 ==> y % 4 == 0
    ensures y % 400 == 0 ==> y % 100 == 0
  {
    if y % 100 == 0 {
      assert y == 4 * (25 * (y / 100));
    }
    if y % 400 == 0 {
      assert y == 100 * (4 * (y / 400));
    }
  }

  /** Consecutive years are DaysInYear apart: the closed form agrees with the leap rule. */
  lemma YearStartStep(y: int)
    ensures YearStart(y + 1) == YearStart(y) + DaysInYear(y)
  {
    var p := y - 1;
    DivStep4(p);
    DivStep100(p);
    DivStep400(p);
    DivisorChain(y);
    assert p + 1 == y;
    assert YearStart(y + 1) - YearStart(y) == 365 + (y / 4 - p / 4) - (y / 100 - p / 100) + (y / 400 - p / 400);
  }

  /** Later years start later, each at least 365 days after the one before. */
  lemma {:induction false} YearStartMonotone(a: int, b: int)
    requires a <= b
    ensures YearStart(a) <= YearStart(b)
    ensures a < b ==> YearStart(a) + 365 <= YearStart(b)
    decreases b - a
  {
    if a < b {
      YearStartStep(b - 1);
      YearStartMonotone(a, b - 1);
    }
  }

  /** At most one year contains a given day number. */
  lemma YearUnique(x: int, y: int, z: int)
    requires YearStart(y) <= x < YearStart(y + 1)
    requires YearStart(z) <= x < YearStart(z + 1)
    ensures y == z
  {
    if y < z {
      YearStartMonotone(y + 1, z);
    } else if z < y {
      YearStartMonotone(z + 1, y);
    }
  }

  /** Walks forward from year `y`, which starts no later than day `x`, to the year containing `x`. */
  function SearchYearUp(x: int, y: int): (r: int)
    requires YearStart(y) <= x
    ensures y <= r && YearStart(r) <= x < YearStart(r + 1)
    decreases x - YearStart(y)
  {
    YearStartStep(y);
    if x < YearStart(y + 1) then y else SearchYearUp(x, y + 1)
  }

  /** The calendar year that contains date `d`. */
  function YearOf(d: Date): (y: int)
    ensures 1 <= y
    ensures YearStart(y) <= d as int < YearStart(y + 1)
  {
    // 146097 days make 400 years, so the guess never overshoots
    var guess := (d as int * 400) / 146097 + 1;
    SearchYearUp(d as int, guess)
  }

  /** YearOf is the only year whose span contains the date. */
  lemma YearOfIs(d: Date, y: int)
    requires YearStart(y) <= d as int < YearStart(y + 1)
    ensures YearOf(d) == y
  {
    YearUnique(d as int, y, YearOf(d));
  }

  // ---------------------------------------------------------------------------
  // Weekdays
  // ---------------------------------------------------------------------------

  /** The weekday "number from Monday": 1 = Monday ... 7 = Sunday. */
  function Weekday(d: Date): (wd: int)
    ensures 1 <= wd <= 7
  {
    d as int % 7 + 1
  }

  /** The successor day has the next weekday, Sunday wrapping round to Monday. */
  lemma WeekdaySucc(d: Date)
    ensures Weekday(d + 1) == if Weekday(d) == 7 then 1 else Weekday(d) + 1
  {
  }

  /** Every seven consecutive days hold each weekday exactly once. */
  lemma WeekdayInWeek(d: Date, k: int)
    requires 1 <= k <= 7
    ensures var x := d as int + 1 + (k - Weekday((d + 1) as Date)) % 7;
            d as int < x <= d as int + 7 && Weekday(x as Date) == k
  {
  }

  // ---------------------------------------------------------------------------
  // Year, month, day
  // ---------------------------------------------------------------------------

  datatype Ymd = Ymd(year: int, month: int, day: int)

  /** Length of month `m` (1 = January) of year `y`. */
  function DaysInMonth(y: int, m: int): int
    requires 1 <= m <= 12
  {
    if m == 2 then (if IsLeapYear(y) then 29 else 28)
    else if m == 4 || m == 6 || m == 9 || m == 11 then 30
    else 31
  }

  /** Number of days of year `y` before the first of month `m`; month 13 stands for the year's end. */
  function DaysBeforeMonth(y: int, m: int): int
    requires 1 <= m <= 13
  {
    [0, 31, 59, 90, 120, 151, 181, 212, 243, 273, 304, 334, 365][m - 1]
    + (if m > 2 && IsLeapYear(y) then 1 else 0)
  }

  /** Month offsets grow by the month lengths, from 0 to the length of the year. */
  lemma DaysBeforeMonthStep(y: int, m: int)
    requires 1 <= m <= 12
    ensures DaysBeforeMonth(y, m + 1) == DaysBeforeMonth(y, m) + DaysInMonth(y, m)
    ensures DaysBeforeMonth(y, 1) == 0 && DaysBeforeMonth(y, 13) == DaysInYear(y)
  {
  }

  /** Month 1..12 and a day that month has. */
  predicate ValidYmd(y: int, m: int, dom: int) {
    1 <= m <= 12 && 1 <= dom <= DaysInMonth(y, m)
  }

  /** The date of a (year, month, day) triple, or None when the month or day does not exist. */
  function FromYmd(y: int, m: int, dom: int): (r: Option<Date>)
    requires 1 <= y
    ensures r.Some? <==> ValidYmd(y, m, dom)
  {
    if ValidYmd(y, m, dom) then
      YearStartMonotone(1, y);
      Some((YearStart(y) + DaysBeforeMonth(y, m) + dom - 1) as Date)
    else None
  }

  /** A valid (year, month, day) lies within its year. */
  lemma FromYmdInYear(y: int, m: int, dom: int)
    requires 1 <= y && ValidYmd(y, m, dom)
    ensures YearOf(FromYmd(y, m, dom).value) == y
  {
    DaysBeforeMonthStep(y, m);
    YearStartStep(y);
    YearOfIs(FromYmd(y, m, dom).value, y);
  }

  /** Walks back from month `m` to the month holding day-of-year `doy` (0-based). */
  function SearchMonth(y: int, doy: int, m: int): (r: int)
    requires 1 <= m <= 12 && 0 <= doy < DaysBeforeMonth(y, m + 1)
    ensures 1 <= r <= m && DaysBeforeMonth(y, r) <= doy < DaysBeforeMonth(y, r + 1)
    decreases m
  {
    if DaysBeforeMonth(y, m) <= doy then m else SearchMonth(y, doy, m - 1)
  }

  /** The (year, month, day) of a date. */
  function ToYmd(d: Date): (r: Ymd)
    ensures 1 <= r.year && ValidYmd(r.year, r.month, r.day)
    ensures r.year == YearOf(d)
  {
    var y := YearOf(d);
    var doy := d as int - YearStart(y);
    YearStartStep(y);
    var m := SearchMonth(y, doy, 12);
    DaysBeforeMonthStep(y, m);
    Ymd(y, m, doy - DaysBeforeMonth(y, m) + 1)
  }

  /** Splitting a date into (year, month, day) and building it back gives the same date. */
  lemma YmdRoundTrip(d: Date)
    ensures var t := ToYmd(d); FromYmd(t.year, t.month, t.day) == Some(d)
  {
  }

  /** Building a date from a valid (year, month, day) and splitting it gives the same triple. */
  lemma {:induction false} YmdRoundTripBack(y: int, m: int, dom: int)
    requires 1 <= y && ValidYmd(y, m, dom)
    ensures ToYmd(FromYmd(y, m, dom).value) == Ymd(y, m, dom)
  {
    var d := FromYmd(y, m, dom).value;
    var t := ToYmd(d);
    FromYmdInYear(y, m, dom);
    var doy := d as int - YearStart(y);
    assert doy == DaysBeforeMonth(y, m) + dom - 1;
    DaysBeforeMonthStep(y, m);
    DaysBeforeMonthStep(y, t.month);
    MonthUnique(y, doy, m, t.month);
  }

  /** At most one month contains a given day of the year. */
  lemma MonthUnique(y: int, doy: int, m1: int, m2: int)
    requires 1 <= m1 <= 12 && 1 <= m2 <= 12
    requires DaysBeforeMonth(y, m1) <= doy < DaysBeforeMonth(y, m1 + 1)
    requires DaysBeforeMonth(y, m2) <= doy < DaysBeforeMonth(y, m2 + 1)
    ensures m1 == m2
  {
  }

  // ---------------------------------------------------------------------------
  // ISO 8601 week dates
  // ---------------------------------------------------------------------------

  datatype IsoWeekDate = IsoWeekDate(year: int, week: int, weekday: int)

  /**
    Index of the Monday-to-Sunday week holding day number `x` (day 0 is a
    Monday, so week i runs from day 7 * i to day 7 * i + 6).
   */
  function WeekIndex(x: int): int {
    x / 7
  }

  /** Index of ISO week 1 of week-year `y`: the week holding January 4. */
  function Week1Index(y: int): int {
    WeekIndex(YearStart(y) + 3)
  }

  /** Number of ISO weeks in week-year `y`. */
  function WeeksInYear(y: int): int {
    Week1Index(y + 1) - Week1Index(y)
  }

  /**
    A week-year has 52 or 53 weeks; it has 53 exactly when January 1 is a
    Thursday, or a Wednesday in a leap year.
   */
  lemma WeeksInYearRule(y: int)
    requires 1 <= y
    ensures WeeksInYear(y) == 52 || WeeksInYear(y) == 53
    ensures var jan1 := Weekday(YearStart(y) as Date);
            WeeksInYear(y) == 53 <==> jan1 == 4 || (jan1 == 3 && IsLeapYear(y))
  {
    YearStartStep(y);
    YearStartMonotone(1, y);
    var s := YearStart(y);
    var q, r := (s + 3) / 7, (s + 3) % 7;
    DivSeven(q - 1, r + 4);
    DivSeven(q + 52, r + DaysInYear(y) - 364);
  }

  /** Division by 7 of 7q + t, for t in [0, 13]. */
  lemma DivSeven(q: int, t: int)
    requires 0 <= t < 14
    ensures (7 * q + t) / 7 == q + (if t >= 7 then 1 else 0)
    ensures (7 * q + t) % 7 == (if t >= 7 then t - 7 else t)
  {
  }

  /** The ISO week date of `d`: the week-year is the year of the Thursday of d's week. */
  function IsoWeekOf(d: Date): (r: IsoWeekDate)
    ensures 1 <= r.year && 1 <= r.week <= WeeksInYear(r.year)
    ensures r.weekday == Weekday(d)
    ensures 7 * (Week1Index(r.year) + r.week - 1) + r.weekday - 1 == d as int
  {
    var thursday := (7 * WeekIndex(d as int) + 3) as Date;
    var y := YearOf(thursday);
    IsoWeekDate(y, WeekIndex(d as int) - Week1Index(y) + 1, Weekday(d))
  }

  /**
    The date of an ISO week date, or None when the week does not exist in that
    week-year (week 0, or week 53 of a 52-week year).
   */
  function FromIsoYwd(y: int, w: int, wd: int): (r: Option<Date>)
    requires 1 <= y && 1 <= wd <= 7
    ensures r.Some? <==> 1 <= w <= WeeksInYear(y)
  {
    if 1 <= w <= WeeksInYear(y) then
      YearStartMonotone(1, y);
      Some((7 * (Week1Index(y) + w - 1) + wd - 1) as Date)
    else None
  }

  /** Formatting a date as an ISO week date and building it back gives the same date. */
  lemma IsoRoundTrip(d: Date)
    ensures var t := IsoWeekOf(d); FromIsoYwd(t.year, t.week, t.weekday) == Some(d)
  {
  }

  /** Every date built from an ISO week date carries that week date. */
  lemma {:induction false} IsoRoundTripBack(y: int, w: int, wd: int)
    requires 1 <= y && 1 <= wd <= 7 && 1 <= w <= WeeksInYear(y)
    ensures IsoWeekOf(FromIsoYwd(y, w, wd).value) == IsoWeekDate(y, w, wd)
  {
    BuiltWeek(y, w, wd);
    BuiltThursday(y, w);
  }

  /** The date built from (y, w, wd) lies in week Week1Index(y) + w - 1, on weekday wd. */
  lemma BuiltWeek(y: int, w: int, wd: int)
    requires 1 <= y && 1 <= wd <= 7 && 1 <= w <= WeeksInYear(y)
    ensures var d := FromIsoYwd(y, w, wd).value;
            WeekIndex(d as int) == Week1Index(y) + w - 1 && Weekday(d) == wd
  {
    var q := Week1Index(y) + w - 1;
    assert FromIsoYwd(y, w, wd).value as int == 7 * q + wd - 1;
    DivSeven(q, wd - 1);
  }

  /** The Thursday of each week of week-year y falls in calendar year y. */
  lemma BuiltThursday(y: int, w: int)
    requires 1 <= y && 1 <= w <= WeeksInYear(y)
    ensures var thursday := 7 * (Week1Index(y) + w - 1) + 3;
            0 <= thursday && YearOf(thursday as Date) == y
  {
    var thursday := 7 * (Week1Index(y) + w - 1) + 3;
    WeekIndexBounds(YearStart(y) + 3);
    WeekIndexBounds(YearStart(y + 1) + 3);
    YearStartMonotone(1, y);
    YearOfIs(thursday as Date, y);
  }

  /** Week i spans days 7 * i to 7 * i + 6. */
  lemma WeekIndexBounds(x: int)
    ensures 7 * WeekIndex(x) <= x < 7 * WeekIndex(x) + 7
  {
  }

  /** The ISO week-year is the calendar year, or one off from it within three days of the year's edge. */
  lemma IsoYearNearCalendarYear(d: Date)
    ensures var iy := IsoWeekOf(d).year; var cy := YearOf(d);
            iy == cy || (iy == cy - 1 && d as int - YearStart(cy) < 3)
            || (iy == cy + 1 && YearStart(cy + 1) - d as int <= 3)
  {
    IsoYearOfThursday(d);
    NearbyYear(d, (7 * WeekIndex(d as int) + 3) as Date, YearOf(d));
  }

  /** The ISO week-year of `d` is the calendar year of the Thursday of its week, at most three days away. */
  lemma IsoYearOfThursday(d: Date)
    ensures var t := 7 * WeekIndex(d as int) + 3;
            && 0 <= t && d as int - 3 <= t <= d as int + 3
            && IsoWeekOf(d).year == YearOf(t as Date)
  {
    WeekIndexBounds(d as int);
  }

  /** A date `t` at most three days from `d` lies in the calendar year of `d` or a neighbouring one. */
  lemma NearbyYear(d: Date, t: Date, cy: int)
    requires YearStart(cy) <= d as int < YearStart(cy + 1)
    requires d as int - 3 <= t as int <= d as int + 3
    ensures var iy := YearOf(t);
            iy == cy || (iy == cy - 1 && d as int - YearStart(cy) < 3)
            || (iy == cy + 1 && YearStart(cy + 1) - d as int <= 3)
  {
    YearStartStep(cy - 1);
    YearStartStep(cy + 1);
    if (t as int) < YearStart(cy) {
      YearOfIs(t, cy - 1);
    } else if t as int >= YearStart(cy + 1) {
      YearOfIs(t, cy + 1);
    } else {
      YearOfIs(t, cy);
    }
  }
}
