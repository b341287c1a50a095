/**
  Workday arithmetic over a workweek: counting the workdays of a range under
  the program's own counting rule, finding the next workday after a date, and
  advancing a date by n workdays.
 */
module Workdays {
  import opened Options
  import opened Calendar
  import opened Errors

  /** `d` falls on a weekday of the workweek `w`. */
  predicate IsWorkday(w: set<int>, d: Date) {
    Weekday(d) in w
  }

  /** Some weekday 1..7 is in `w`, so every date has a next workday. */
  predicate HasWorkday(w: set<int>) {
    exists k :: 1 <= k <= 7 && k in w
  }

  // ---------------------------------------------------------------------------
  // Workdays of a half-open range of days
  // ---------------------------------------------------------------------------

  /** The workdays `d` with lo <= d < hi. */
  function WorkdaysIn(w: set<int>, lo: Date, hi: Date): set<Date> {
    set d: Date | lo <= d < hi && IsWorkday(w, d)
  }

  /** The number of workdays `d` with lo <= d < hi, tallied one day at a time, last day first. */
  function Tally(w: set<int>, lo: Date, hi: Date): nat
    decreases hi as int - lo as int
  {
    if hi <= lo then 0 else Tally(w, lo, hi - 1) + (if IsWorkday(w, hi - 1) then 1 else 0)
  }

  /** The tally is the number of workdays in the range. */
  lemma {:induction false} TallyIsCardinality(w: set<int>, lo: Date, hi: Date)
    requires lo <= hi
    ensures Tally(w, lo, hi) == |WorkdaysIn(w, lo, hi)|
    decreases hi as int - lo as int
  {
    if lo == hi {
      assert WorkdaysIn(w, lo, hi) == {};
    } else {
      TallyIsCardinality(w, lo, hi - 1);
      WorkdaysInLast(w, lo, hi);
    }
  }

  /** Extending a range by one day adds that day exactly when it is a workday. */
  lemma WorkdaysInLast(w: set<int>, lo: Date, hi: Date)
    requires lo < hi
    ensures |WorkdaysIn(w, lo, hi)| == |WorkdaysIn(w, lo, hi - 1)| + (if IsWorkday(w, hi - 1) then 1 else 0)
  {
    var earlier := WorkdaysIn(w, lo, hi - 1);
    assert hi - 1 !in earlier;
    if IsWorkday(w, hi - 1) {
      assert WorkdaysIn(w, lo, hi) == earlier + {hi - 1};
    } else {
      assert WorkdaysIn(w, lo, hi) == earlier;
    }
  }

  /** A range split in two tallies the sum of its parts. */
  lemma {:induction false} TallySplit(w: set<int>, lo: Date, mid: Date, hi: Date)
    requires lo <= mid <= hi
    ensures Tally(w, lo, hi) == Tally(w, lo, mid) + Tally(w, mid, hi)
    decreases hi as int - mid as int
  {
    if mid < hi {
      TallySplit(w, lo, mid, hi - 1);
    }
  }

  /**
    A range holds no more workdays than days; all of them when the workweek
    has every weekday, none when it has no weekday 1..7.
   */
  lemma {:induction false} TallyBounds(w: set<int>, lo: Date, hi: Date)
    requires lo <= hi
    ensures Tally(w, lo, hi) <= hi as int - lo as int
    ensures (forall k :: 1 <= k <= 7 ==> k in w) ==> Tally(w, lo, hi) == hi as int - lo as int
    ensures !HasWorkday(w) ==> Tally(w, lo, hi) == 0
    decreases hi as int - lo as int
  {
    if lo < hi {
      TallyBounds(w, lo, hi - 1);
      assert 1 <= Weekday(hi - 1) <= 7;
    }
  }

  /** A range free of workdays tallies 0. */
  lemma {:induction false} TallyNone(w: set<int>, lo: Date, hi: Date)
    requires forall x: Date :: lo <= x < hi ==> !IsWorkday(w, x)
    ensures Tally(w, lo, hi) == 0
    decreases hi as int - lo as int
  {
    if lo < hi {
      TallyNone(w, lo, hi - 1);
    }
  }

  /** A range holding a workday proves the workweek names a weekday. */
  lemma SomeWorkdayMeansHasWorkday(w: set<int>, lo: Date, hi: Date)
    requires Tally(w, lo, hi) > 0
    ensures HasWorkday(w)
  {
    if !HasWorkday(w) {
      TallyBounds(w, lo, hi);
    }
  }

  // ---------------------------------------------------------------------------
  // count_workdays
  // ---------------------------------------------------------------------------

  /**
    The count the program reports for a range: an error when `from` is after
    `till`, 0 for an empty range, and otherwise 1 for the start day plus the
    workdays strictly between the two dates; neither end is checked for being a workday.
   */
  function WorkdayCount(w: set<int>, from: Date, till: Date): Result<nat> {
    if from > till then Err(Unordered(from, till))
    else if from == till then Ok(0)
    else Ok(1 + Tally(w, from + 1, till))
  }

  /**
    The count of a non-empty range is one more than the number of workdays
    strictly inside it, at least 1 and at most its length in days; exactly its
    length under a seven-day workweek, and 1 under a workweek with no weekday.
   */
  lemma CountBounds(w: set<int>, from: Date, till: Date)
    requires from < till
    ensures WorkdayCount(w, from, till).Ok?
    ensures WorkdayCount(w, from, till).value == 1 + |set d: Date | from < d < till && IsWorkday(w, d)|
    ensures 1 <= WorkdayCount(w, from, till).value <= till as int - from as int
    ensures (forall k :: 1 <= k <= 7 ==> k in w) ==> WorkdayCount(w, from, till).value == till as int - from as int
    ensures !HasWorkday(w) ==> WorkdayCount(w, from, till).value == 1
  {
    TallyBounds(w, from + 1, till);
    TallyIsCardinality(w, from + 1, till);
    assert WorkdaysIn(w, from + 1, till) == set d: Date | from < d < till && IsWorkday(w, d);
  }

  /** count_workdays: walks day by day from `from`, counting from 1, and stops on reaching `till`. */
  method CountWorkdays(w: set<int>, from: Date, till: Date) returns (r: Result<nat>)
    ensures r == WorkdayCount(w, from, till)
  {
    if from > till {
      return Err(Unordered(from, till));
    }
    if from == till {
      return Ok(0);
    }
    var current := from;
    var count: nat := 1;
    while true
      invariant from <= current < till
      invariant count == 1 + Tally(w, from + 1, current + 1)
      decreases till as int - current as int
    {
      current := current + 1;
      if current == till {
        return Ok(count);
      }
      if Weekday(current) in w {
        count := count + 1;
      }
    }
  }

  // ---------------------------------------------------------------------------
  // next_workday
  // ---------------------------------------------------------------------------

  /** Some workday lies within the seven days after `d`. */
  lemma WorkdayWithinWeek(w: set<int>, d: Date)
    requires HasWorkday(w)
    ensures exists x: Date :: d < x <= d + 7 && IsWorkday(w, x)
  {
    var k :| 1 <= k <= 7 && k in w;
    WeekdayInWeek(d, k);
    var x := (d as int + 1 + (k - Weekday(d + 1)) % 7) as Date;
    assert d < x <= d + 7 && IsWorkday(w, x);
  }

  /** The first workday in [e, last], given that there is one. */
  function FirstWorkdayFrom(w: set<int>, e: Date, last: Date): (r: Date)
    requires exists x: Date :: e <= x <= last && IsWorkday(w, x)
    ensures e <= r <= last && IsWorkday(w, r)
    ensures forall x: Date :: e <= x < r ==> !IsWorkday(w, x)
    decreases last as int - e as int
  {
    if IsWorkday(w, e) then e
    else
      assert exists x: Date :: e + 1 <= x <= last && IsWorkday(w, x) by {
        var x: Date :| e <= x <= last && IsWorkday(w, x);
        assert x != e;
      }
      FirstWorkdayFrom(w, e + 1, last)
  }

  /** The earliest workday strictly after `d`, at most a week later. */
  function NextWorkdayAfter(w: set<int>, d: Date): (r: Date)
    requires HasWorkday(w)
    ensures d < r <= d + 7 && IsWorkday(w, r)
    ensures forall x: Date :: d < x < r ==> !IsWorkday(w, x)
  {
    WorkdayWithinWeek(w, d);
    FirstWorkdayFrom(w, d + 1, d + 7)
  }

  /** Extending a range from just after `j` through j's next workday adds one workday. */
  lemma TallyThroughNext(w: set<int>, lo: Date, j: Date)
    requires HasWorkday(w) && lo <= j + 1
    ensures Tally(w, lo, NextWorkdayAfter(w, j) + 1) == Tally(w, lo, j + 1) + 1
  {
    var next := NextWorkdayAfter(w, j);
    TallyNone(w, j + 1, next);
    TallySplit(w, lo, j + 1, next + 1);
  }

  /** next_workday: steps forward from the day after `from` until a workday. */
  method NextWorkday(w: set<int>, from: Date) returns (next: Date)
    requires HasWorkday(w)
    ensures from < next && IsWorkday(w, next)
    ensures forall x: Date :: from < x < next ==> !IsWorkday(w, x)
    ensures next == NextWorkdayAfter(w, from)
  {
    next := from + 1;
    while Weekday(next) !in w
      invariant from < next <= NextWorkdayAfter(w, from)
      invariant forall x: Date :: from < x < next ==> !IsWorkday(w, x)
      decreases NextWorkdayAfter(w, from) as int - next as int
    {
      next := next + 1;
    }
    assert IsWorkday(w, next);
  }

  // ---------------------------------------------------------------------------
  // jump_n_workdays
  // ---------------------------------------------------------------------------

  /**
    `from` advanced to the next workday `n` times: a date one to seven days
    per step later, which passes exactly `n` workdays (those after `from`, up
    to and including itself) and, for n > 0, is itself a workday.
   */
  function JumpWorkdays(w: set<int>, from: Date, n: nat): (r: Date)
    requires n > 0 ==> HasWorkday(w)
    ensures from as int + n <= r as int <= from as int + 7 * n
    ensures Tally(w, from + 1, r + 1) == n
    ensures n > 0 ==> IsWorkday(w, r)
    decreases n
  {
    if n == 0 then from
    else
      var j := JumpWorkdays(w, from, n - 1);
      TallyThroughNext(w, from + 1, j);
      NextWorkdayAfter(w, j)
  }

  /** Advancing further lands strictly later. */
  lemma {:induction false} JumpIncreasing(w: set<int>, from: Date, m: nat, n: nat)
    requires m < n && HasWorkday(w)
    ensures JumpWorkdays(w, from, m) < JumpWorkdays(w, from, n)
    decreases n
  {
    var prev := JumpWorkdays(w, from, n - 1);
    assert JumpWorkdays(w, from, n) == NextWorkdayAfter(w, prev);
    if m < n - 1 {
      JumpIncreasing(w, from, m, n - 1);
    }
  }

  /**
    Every workday after `from` is reached by advancing: by as many workdays as
    lie after `from`, up to and including it.
   */
  lemma JumpReachesWorkday(w: set<int>, from: Date, p: Date)
    requires from < p && IsWorkday(w, p)
    ensures HasWorkday(w) && Tally(w, from + 1, p + 1) >= 1
    ensures JumpWorkdays(w, from, Tally(w, from + 1, p + 1)) == p
  {
    assert 1 <= Weekday(p) <= 7 && Weekday(p) in w;
    var k := Tally(w, from + 1, p + 1);
    assert k == Tally(w, from + 1, p) + 1;
    var q := JumpWorkdays(w, from, k);
    TallyOrder(w, from + 1, q, p);
    TallyOrder(w, from + 1, p, q);
  }

  /** Of two workdays, the later one closes a range with a larger tally. */
  lemma TallyOrder(w: set<int>, lo: Date, a: Date, b: Date)
    requires lo <= a + 1 && IsWorkday(w, b)
    ensures a < b ==> Tally(w, lo, a + 1) < Tally(w, lo, b + 1)
  {
    if a < b {
      TallySplit(w, lo, a + 1, b + 1);
      assert Tally(w, a + 1, b + 1) == Tally(w, a + 1, b) + 1;
    }
  }

  /** When every weekday is a workday, advancing by n workdays advances by n days. */
  lemma JumpEveryDay(w: set<int>, from: Date, n: nat)
    requires forall k :: 1 <= k <= 7 ==> k in w
    ensures HasWorkday(w) && JumpWorkdays(w, from, n) as int == from as int + n
  {
    assert 1 in w;
    var r := JumpWorkdays(w, from, n);
    TallyBounds(w, from + 1, r + 1);
  }

  /** jump_n_workdays: applies next_workday `n` times. */
  method JumpNWorkdays(from: Date, n: nat, w: set<int>) returns (date: Date)
    requires n > 0 ==> HasWorkday(w)
    ensures date == JumpWorkdays(w, from, n)
  {
    var i: nat := 0;
    date := from;
    while i < n
      invariant i <= n
      invariant date == JumpWorkdays(w, from, i)
    {
      date := NextWorkday(w, date);
      i := i + 1;
    }
  }

  /**
    Advancing by k, for 1 <= k below the count c of a range, lands strictly
    inside the range, on a workday, and splits its count into k before and
    c - k after.
   */
  lemma JumpSplitsRange(w: set<int>, from: Date, till: Date, k: nat)
    requires from < till && 1 <= k < WorkdayCount(w, from, till).value
    ensures HasWorkday(w)
    ensures var p := JumpWorkdays(w, from, k);
            && from < p < till && IsWorkday(w, p)
            && WorkdayCount(w, from, p) == Ok(k)
            && WorkdayCount(w, p, till) == Ok(WorkdayCount(w, from, till).value - k)
  {
    SomeWorkdayMeansHasWorkday(w, from + 1, till);
    JumpCount(w, from, k);
    JumpRest(w, from, till, k);
  }

  /** Advancing by k >= 1 lands on a workday after `from`, with k - 1 workdays strictly between. */
  lemma JumpTallies(w: set<int>, from: Date, k: nat)
    requires 1 <= k && HasWorkday(w)
    ensures var p := JumpWorkdays(w, from, k);
            from < p && IsWorkday(w, p) && Tally(w, from + 1, p) == k - 1
  {
    var p := JumpWorkdays(w, from, k);
    assert Tally(w, from + 1, p + 1) == Tally(w, from + 1, p) + 1;
  }

  /** Advancing by k >= 1 gives a date whose range from `from` counts k. */
  lemma JumpCount(w: set<int>, from: Date, k: nat)
    requires 1 <= k && HasWorkday(w)
    ensures var p := JumpWorkdays(w, from, k);
            from < p && IsWorkday(w, p) && WorkdayCount(w, from, p) == Ok(k)
  {
    JumpTallies(w, from, k);
  }

  /** Advancing by at most the number of workdays in (from, till) stays before `till`. */
  lemma JumpBeforeEnd(w: set<int>, from: Date, till: Date, k: nat)
    requires from < till && HasWorkday(w) && 1 <= k <= Tally(w, from + 1, till)
    ensures var p := JumpWorkdays(w, from, k);
            p < till && Tally(w, p + 1, till) == Tally(w, from + 1, till) - k
  {
    var p := JumpWorkdays(w, from, k);
    JumpTallies(w, from, k);
    if p >= till {
      TallySplit(w, from + 1, till, p);
      assert false;
    }
    TallySplit(w, from + 1, p + 1, till);
  }

  /** Advancing by k below the count c of a range leaves a range to `till` that counts c - k. */
  lemma JumpRest(w: set<int>, from: Date, till: Date, k: nat)
    requires from < till && HasWorkday(w) && 1 <= k < WorkdayCount(w, from, till).value
    ensures var p := JumpWorkdays(w, from, k);
            p < till && WorkdayCount(w, p, till) == Ok(WorkdayCount(w, from, till).value - k)
  {
    JumpTallies(w, from, k);
    JumpBeforeEnd(w, from, till, k);
  }

  // ---------------------------------------------------------------------------
  // The program's own examples
  // ---------------------------------------------------------------------------

  /** Monday to Friday, the default workweek. */
  const Commercial: set<int> := {1, 2, 3, 4, 5}
  /** Every day of the week. */
  const AllDays: set<int> := {1, 2, 3, 4, 5, 6, 7}

  /** The day numbers of the dates in the program's tests; 2021-03-08 is a Monday. */
  lemma TestDayNumbers()
    ensures FromYmd(2021, 1, 3) == Some(737792) && FromYmd(2021, 1, 4) == Some(737793)
    ensures FromYmd(2021, 3, 1) == Some(737849) && FromYmd(2021, 3, 4) == Some(737852)
    ensures FromYmd(2021, 3, 5) == Some(737853) && FromYmd(2021, 3, 7) == Some(737855)
    ensures FromYmd(2021, 3, 8) == Some(737856) && FromYmd(2021, 3, 9) == Some(737857)
    ensures FromYmd(2021, 3, 10) == Some(737858) && FromYmd(2021, 3, 11) == Some(737859)
    ensures FromYmd(2021, 3, 12) == Some(737860) && FromYmd(2021, 3, 13) == Some(737861)
    ensures FromYmd(2021, 3, 14) == Some(737862) && FromYmd(2021, 3, 15) == Some(737863)
    ensures FromYmd(2021, 3, 17) == Some(737865)
    ensures Weekday(737856) == 1
  {
    assert YearStart(2021) == 737790;
  }

  /**
    The counts the program's tests expect, with dates as day numbers (see
    `TestDayNumbers`).
   */  /**
    The counts the program's tests expect (dates as day numbers: 2021-01-03 is
    737792, 2021-03-11 is 737859 and 2021-03-14 is 737862; 2021-03-08 is a Monday).
   */
  lemma CountExamples()
    ensures WorkdayCount(Commercial, 737793, 737792) == Err(Unordered(737793, 737792))
    ensures WorkdayCount(Commercial, 737862, 737862) == Ok(0)
    ensures WorkdayCount(Commercial, 737860, 737863) == Ok(1)
    ensures WorkdayCount(AllDays, 737860, 737863) == Ok(3)
    ensures WorkdayCount(AllDays, 737859, 737860) == Ok(1)
  {
  }

  /** From Friday 2021-03-12 (737860) the next workday is Monday, or Saturday when every day counts. */
  lemma NextWorkdayExamples()
    ensures NextWorkdayAfter(Commercial, 737860) == 737863
    ensures NextWorkdayAfter(AllDays, 737860) == 737861
    ensures JumpWorkdays(Commercial, 737860, 3) == 737865
  {
    assert Weekday(737860) == 5;
  }
}
