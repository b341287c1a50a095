/**
  The calendar-week version string `YYwWW.D` (e.g. `21w45.7`: ISO week 45 of
  week-year 2021, day 7 of that week) and its conversion to and from dates.
 */
module CwVer {
  import opened Options
  import opened Calendar
  import opened Errors
  import opened Text

  /** The three numbers of a version string, as parsed, before any validation. */
  datatype CwVersion = CwVersion(year: int, week: int, weekday: int)

  // ---------------------------------------------------------------------------
  // Parsing: the unanchored pattern (\d{2})w(\d{2})\.(\d{1})
  // ---------------------------------------------------------------------------

  /** Two digits, `w`, two digits, `.`, one digit occur in `s` from index `i` on. */
  predicate MatchesAt(s: string, i: int) {
    && 0 <= i && i + 7 <= |s|
    && IsDigit(s[i]) && IsDigit(s[i + 1])
    && s[i + 2] == 'w'
    && IsDigit(s[i + 3]) && IsDigit(s[i + 4])
    && s[i + 5] == '.'
    && IsDigit(s[i + 6])
  }

  /** The leftmost occurrence of the pattern starts at `i`. */
  predicate IsFirstMatch(s: string, i: int) {
    MatchesAt(s, i) && forall j :: 0 <= j < i ==> !MatchesAt(s, j)
  }

  /** The three capture groups of an occurrence at `i`, read as decimal numbers. */
  function FieldsAt(s: string, i: int): CwVersion
    requires MatchesAt(s, i)
  {
    CwVersion(10 * DigitValue(s[i]) + DigitValue(s[i + 1]),
              10 * DigitValue(s[i + 3]) + DigitValue(s[i + 4]),
              DigitValue(s[i + 6]))
  }

  /** Scans `s` from index `i` on for the first occurrence of the pattern. */
  function FindMatch(s: string, i: nat): (r: Option<nat>)
    ensures r.Some? ==> i <= r.value && MatchesAt(s, r.value)
                        && forall j :: i <= j < r.value ==> !MatchesAt(s, j)
    ensures r.None? ==> forall j :: i <= j ==> !MatchesAt(s, j)
    decreases |s| - i
  {
    if |s| < i + 7 then None
    else if MatchesAt(s, i) then Some(i)
    else FindMatch(s, i + 1)
  }

  /**
    Parses a version string: succeeds exactly when the pattern occurs anywhere
    in `s`, and returns the numbers of its leftmost occurrence unvalidated.
   */
  function ParseCwVer(s: string): (r: Option<CwVersion>)
    ensures r.Some? <==> exists i :: MatchesAt(s, i)
    ensures r.Some? ==> exists i :: IsFirstMatch(s, i) && r.value == FieldsAt(s, i)
    ensures r.Some? ==> 0 <= r.value.year <= 99 && 0 <= r.value.week <= 99 && 0 <= r.value.weekday <= 9
  {
    match FindMatch(s, 0)
    case None => None
    case Some(i) => Some(FieldsAt(s, i))
  }

  // ---------------------------------------------------------------------------
  // Version string to date
  // ---------------------------------------------------------------------------

  /**
    Converts a version string to a date: the weekday digit is checked first,
    then the ISO week date (2000 + YY, WW, D) is built.
   */
  function CwVerToDate(s: string): (r: Result<Date>)
    ensures ParseCwVer(s).None? ==> r == Err(Malformed(s))
    ensures r.Ok? ==> var v := ParseCwVer(s).value;
                      IsoWeekOf(r.value) == IsoWeekDate(2000 + v.year, v.week, v.weekday)
    ensures r.Err? && r.error.NoSuchWeekDate? ==>
              var v := ParseCwVer(s).value;
              1 <= v.weekday <= 7 && !(1 <= v.week <= WeeksInYear(2000 + v.year))
    ensures ParseCwVer(s).Some? ==>
              var v := ParseCwVer(s).value;
              !(1 <= v.weekday <= 7) ==> r == Err(WeekdayOutOfRange(v.weekday))
    ensures ParseCwVer(s).Some? ==>
              var v := ParseCwVer(s).value;
              1 <= v.weekday <= 7 ==>
                && (r.Ok? <==> 1 <= v.week <= WeeksInYear(2000 + v.year))
                && (r.Err? ==> r.error == NoSuchWeekDate(s))
  {
    match ParseCwVer(s)
    case None => Err(Malformed(s))
    case Some(v) =>
      if v.weekday < 1 || v.weekday > 7 then Err(WeekdayOutOfRange(v.weekday))
      else WeekDateOrError(s, 2000 + v.year, v.week, v.weekday)
  }

  /**
    The date of the ISO week date (y, w, wd), or the error naming the version
    string `s` when week `w` does not exist in week-year `y`.
   */
  function WeekDateOrError(s: string, y: int, w: int, wd: int): (r: Result<Date>)
    requires 1 <= y && 1 <= wd <= 7
    ensures r.Ok? <==> 1 <= w <= WeeksInYear(y)
    ensures r.Ok? ==> IsoWeekOf(r.value) == IsoWeekDate(y, w, wd)
    ensures r.Err? ==> r.error == NoSuchWeekDate(s)
  {
    match FromIsoYwd(y, w, wd)
    case None => Err(NoSuchWeekDate(s))
    case Some(d) =>
      IsoRoundTripBack(y, w, wd);
      Ok(d)
  }

  // ---------------------------------------------------------------------------
  // Date to version string
  // ---------------------------------------------------------------------------

  /** `n` written with two decimal digits, zero-padded (the `{:02}` format). */
  function Pad2(n: int): (s: string)
    requires 0 <= n <= 99
  {
    [DigitChar(n / 10), DigitChar(n % 10)]
  }

  /**
    Formats a date: ISO week-year mod 100 and ISO week, both with two digits,
    then the weekday counted from Monday. Always a string the parser accepts.
   */
  function DateToCwVer(d: Date): (s: string)
    ensures |s| == 7 && MatchesAt(s, 0)
  {
    var t := IsoWeekOf(d);
    WeeksInYearRule(t.year);
    Pad2(t.year % 100) + "w" + Pad2(t.week) + "." + [DigitChar(t.weekday)]
  }

  /** Parsing a formatted date gives back its ISO week-year mod 100, week and weekday. */
  lemma ParseFormatted(d: Date)
    ensures var t := IsoWeekOf(d);
            ParseCwVer(DateToCwVer(d)) == Some(CwVersion(t.year % 100, t.week, t.weekday))
  {
    var t := IsoWeekOf(d);
    WeeksInYearRule(t.year);
    var yy, ww := Pad2(t.year % 100), Pad2(t.week);
    Pad2Fields(t.year % 100);
    Pad2Fields(t.week);
    var s := DateToCwVer(d);
    assert s == yy + "w" + ww + "." + [DigitChar(t.weekday)];
    assert s[0] == yy[0] && s[1] == yy[1] && s[3] == ww[0] && s[4] == ww[1] && s[6] == DigitChar(t.weekday);
    assert FieldsAt(s, 0) == CwVersion(t.year % 100, t.week, t.weekday);
    ParseWhole(s);
  }

  /** Two-digit padding writes two digits that read back as the number. */
  lemma Pad2Fields(n: int)
    requires 0 <= n <= 99
    ensures |Pad2(n)| == 2 && IsDigit(Pad2(n)[0]) && IsDigit(Pad2(n)[1])
    ensures 10 * DigitValue(Pad2(n)[0]) + DigitValue(Pad2(n)[1]) == n
  {
  }

  /** For every date of ISO week-years 2000 to 2099, conversion undoes formatting. */
  lemma CwVerRoundTrip(d: Date)
    requires 2000 <= IsoWeekOf(d).year <= 2099
    ensures CwVerToDate(DateToCwVer(d)) == Ok(d)
  {
    var t := IsoWeekOf(d);
    var v := CwVersion(t.year % 100, t.week, t.weekday);
    assert ParseCwVer(DateToCwVer(d)) == Some(v) by {
      ParseFormatted(d);
    }
    FieldsDenoteDate(d, v);
    ConvertFields(DateToCwVer(d), v, d);
  }

  /** The fields formatting writes for a week-year of 2000 to 2099, read as (2000 + YY, WW, D), are the date's ISO week date. */
  lemma FieldsDenoteDate(d: Date, v: CwVersion)
    requires 2000 <= IsoWeekOf(d).year <= 2099
    requires v == CwVersion(IsoWeekOf(d).year % 100, IsoWeekOf(d).week, IsoWeekOf(d).weekday)
    ensures IsoWeekOf(d) == IsoWeekDate(2000 + v.year, v.week, v.weekday)
  {
    Century(IsoWeekOf(d).year);
  }

  /** A year of 2000 to 2099 is 2000 plus its last two digits. */
  lemma Century(y: int)
    requires 2000 <= y <= 2099
    ensures 2000 + y % 100 == y
  {
  }

  /** A string whose parsed fields, read as (2000 + YY, WW, D), are the ISO week date of `d` converts to `d`. */
  lemma ConvertFields(s: string, v: CwVersion, d: Date)
    requires ParseCwVer(s) == Some(v)
    requires IsoWeekOf(d) == IsoWeekDate(2000 + v.year, v.week, v.weekday)
    ensures CwVerToDate(s) == Ok(d)
  {
    IsoRoundTrip(d);
  }

  /**
    Whatever a string converts to, formatting that date reproduces the leftmost
    occurrence of the pattern in the string, and its week-year is 2000 to 2099.
   */
  lemma CwVerCanonical(s: string, d: Date)
    requires CwVerToDate(s) == Ok(d)
    ensures 2000 <= IsoWeekOf(d).year <= 2099
    ensures exists i :: IsFirstMatch(s, i) && DateToCwVer(d) == s[i..i + 7]
  {
    var v := ParseCwVer(s).value;
    var i :| IsFirstMatch(s, i) && v == FieldsAt(s, i);
    FormattedFields(d, v);
    MatchedText(s, i);
  }

  /** A date whose ISO week date is (2000 + YY, WW, D) formats as those three numbers. */
  lemma FormattedFields(d: Date, v: CwVersion)
    requires 0 <= v.year <= 99 && 0 <= v.week <= 99 && 0 <= v.weekday <= 9
    requires IsoWeekOf(d) == IsoWeekDate(2000 + v.year, v.week, v.weekday)
    ensures DateToCwVer(d) == Pad2(v.year) + "w" + Pad2(v.week) + "." + [DigitChar(v.weekday)]
  {
    var t := IsoWeekOf(d);
    Century(2000 + v.year);
  }

  /** An occurrence of the pattern is the formatting of its own fields. */
  lemma MatchedText(s: string, i: int)
    requires MatchesAt(s, i)
    ensures var v := FieldsAt(s, i);
            s[i..i + 7] == Pad2(v.year) + "w" + Pad2(v.week) + "." + [DigitChar(v.weekday)]
  {
    Pad2Digits(s[i], s[i + 1]);
    Pad2Digits(s[i + 3], s[i + 4]);
    DigitCharOfValue(s[i + 6]);
  }

  /** Two-digit padding writes back the two digits a number was read from. */
  lemma Pad2Digits(hi: char, lo: char)
    requires IsDigit(hi) && IsDigit(lo)
    ensures Pad2(10 * DigitValue(hi) + DigitValue(lo)) == [hi, lo]
  {
    DigitCharOfValue(hi);
    DigitCharOfValue(lo);
  }

  // ---------------------------------------------------------------------------
  // The program's own examples
  // ---------------------------------------------------------------------------

  /** The parses the program's tests expect; a one-digit week does not match. */
  lemma ParseExamples()
    ensures ParseCwVer("21w01.2") == Some(CwVersion(21, 1, 2))
    ensures ParseCwVer("00w00.0") == Some(CwVersion(0, 0, 0))
    ensures ParseCwVer("99w99.9") == Some(CwVersion(99, 99, 9))
    ensures ParseCwVer("21w1.0") == None
  {
    assert MatchesAt("21w01.2", 0);
    assert MatchesAt("00w00.0", 0);
    assert MatchesAt("99w99.9", 0);
  }

  /** The week-years 2021 and 2022 start on the days their Januaries give. */
  lemma Years2021And2022()
    ensures YearStart(2021) == 737790 && YearStart(2022) == 738155 && YearStart(2023) == 738520
    ensures Week1Index(2021) == 105399 && Week1Index(2022) == 105451 && WeeksInYear(2021) == 52
  {
  }

  /** A string that is one occurrence of the pattern parses to its own fields. */
  lemma ParseWhole(s: string)
    requires |s| == 7 && MatchesAt(s, 0)
    ensures ParseCwVer(s) == Some(FieldsAt(s, 0))
  {
  }

  /** Formatting gives `s` back when `s` matches and its fields are the date's ISO week date. */
  lemma FormatsAs(d: Date, s: string)
    requires |s| == 7 && MatchesAt(s, 0)
    requires var v := FieldsAt(s, 0); IsoWeekOf(d) == IsoWeekDate(2000 + v.year, v.week, v.weekday)
    ensures DateToCwVer(d) == s
  {
    FormattedFields(d, FieldsAt(s, 0));
    MatchedText(s, 0);
    assert s[0..7] == s;
  }

  /** `21w01.1` is 2021-01-04. */
  lemma ConvertExample1()
    ensures CwVerToDate("21w01.1") == Ok(FromYmd(2021, 1, 4).value)
  {
    ParseWhole("21w01.1");
    assert FieldsAt("21w01.1", 0) == CwVersion(21, 1, 1);
    Years2021And2022();
    assert FromIsoYwd(2021, 1, 1) == Some(737793);
    assert FromYmd(2021, 1, 4).value == 737793;
  }

  /** `21w10.7` is 2021-03-14. */
  lemma ConvertExample2()
    ensures CwVerToDate("21w10.7") == Ok(FromYmd(2021, 3, 14).value)
  {
    ParseWhole("21w10.7");
    assert FieldsAt("21w10.7", 0) == CwVersion(21, 10, 7);
    Years2021And2022();
    assert FromIsoYwd(2021, 10, 7) == Some(737862);
    assert FromYmd(2021, 3, 14).value == 737862;
  }

  /** `21w52.7` is 2022-01-02, in the last week of week-year 2021. */
  lemma ConvertExample3()
    ensures CwVerToDate("21w52.7") == Ok(FromYmd(2022, 1, 2).value)
  {
    ParseWhole("21w52.7");
    assert FieldsAt("21w52.7", 0) == CwVersion(21, 52, 7);
    Years2021And2022();
    assert FromIsoYwd(2021, 52, 7) == Some(738156);
    assert FromYmd(2022, 1, 2).value == 738156;
  }

  /** Weekday 0 is out of range; week-year 2021 has no week 0 and no week 53. */
  lemma ConvertErrorExamples()
    ensures CwVerToDate("21w52.0") == Err(WeekdayOutOfRange(0))
    ensures CwVerToDate("21w00.1") == Err(NoSuchWeekDate("21w00.1"))
    ensures CwVerToDate("21w53.1") == Err(NoSuchWeekDate("21w53.1"))
  {
    ParseWhole("21w52.0");
    assert FieldsAt("21w52.0", 0) == CwVersion(21, 52, 0);
    ParseWhole("21w00.1");
    assert FieldsAt("21w00.1", 0) == CwVersion(21, 0, 1);
    ParseWhole("21w53.1");
    assert FieldsAt("21w53.1", 0) == CwVersion(21, 53, 1);
    Years2021And2022();
  }

  /** 2021-01-04 is the Monday of ISO week 1 of 2021. */
  lemma IsoWeekExample1()
    ensures IsoWeekOf(737793) == IsoWeekDate(2021, 1, 1)
  {
    Years2021And2022();
    YearOfIs(737793 + 3, 2021);
  }

  /** 2021-03-14 is the Sunday of ISO week 10 of 2021. */
  lemma IsoWeekExample2()
    ensures IsoWeekOf(737862) == IsoWeekDate(2021, 10, 7)
  {
    Years2021And2022();
    YearOfIs(737862 - 3, 2021);
  }

  /** 2022-01-02 is the Sunday of ISO week 52 of 2021. */
  lemma IsoWeekExample3()
    ensures IsoWeekOf(738156) == IsoWeekDate(2021, 52, 7)
  {
    Years2021And2022();
    YearOfIs(738156 - 3, 2021);
  }

  /** The fields of the three example strings. */
  lemma ExampleFields()
    ensures MatchesAt("21w01.1", 0) && FieldsAt("21w01.1", 0) == CwVersion(21, 1, 1)
    ensures MatchesAt("21w10.7", 0) && FieldsAt("21w10.7", 0) == CwVersion(21, 10, 7)
    ensures MatchesAt("21w52.7", 0) && FieldsAt("21w52.7", 0) == CwVersion(21, 52, 7)
  {
  }

  /** The day numbers of the three example dates. */
  lemma ExampleDates()
    ensures FromYmd(2021, 1, 4) == Some(737793)
    ensures FromYmd(2021, 3, 14) == Some(737862)
    ensures FromYmd(2022, 1, 2) == Some(738156)
  {
    Years2021And2022();
  }

  /** 2021-01-04 formats as `21w01.1`. */
  lemma FormatExample1()
    ensures DateToCwVer(FromYmd(2021, 1, 4).value) == "21w01.1"
  {
    ExampleDates();
    IsoWeekExample1();
    ExampleFields();
    FormatsAs(737793, "21w01.1");
  }

  /** 2021-03-14 formats as `21w10.7`. */
  lemma FormatExample2()
    ensures DateToCwVer(FromYmd(2021, 3, 14).value) == "21w10.7"
  {
    ExampleDates();
    IsoWeekExample2();
    ExampleFields();
    FormatsAs(737862, "21w10.7");
  }

  /** 2022-01-02 formats as `21w52.7`. */
  lemma FormatExample3()
    ensures DateToCwVer(FromYmd(2022, 1, 2).value) == "21w52.7"
  {
    ExampleDates();
    IsoWeekExample3();
    ExampleFields();
    FormatsAs(738156, "21w52.7");
  }
}
