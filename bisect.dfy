/**
  Bisecting a regression range: the date or two dates that split the workday
  count of a range into halves.
 */
module Bisect {
  import opened Calendar
  import opened Errors
  import opened Workdays

  /** Two dates as an ordered set: ascending, without duplicates. */
  function OrderedPair(a: Date, b: Date): (r: seq<Date>)
    ensures forall x :: x in r <==> x == a || x == b
    ensures forall i, j :: 0 <= i < j < |r| ==> r[i] < r[j]
    ensures |r| == if a == b then 1 else 2
  {
    if a == b then [a] else if a < b then [a, b] else [b, a]
  }

  /**
    The dates to test next: none when the range counts fewer than 2 workdays,
    otherwise the dates reached by advancing from `from` by c/2 and by
    (c+1)/2 workdays, c being the count; count errors pass through.
   */
  function BisectRange(w: set<int>, from: Date, till: Date): (r: Result<seq<Date>>)
    ensures r.Err? <==> from > till
    ensures r.Err? ==> r.error == Unordered(from, till)
  {
    match WorkdayCount(w, from, till)
    case Err(e) => Err(e)
    case Ok(c) =>
      if c < 2 then Ok([])
      else
        SomeWorkdayMeansHasWorkday(w, from + 1, till);
        Ok(OrderedPair(JumpWorkdays(w, from, c / 2), JumpWorkdays(w, from, (c + 1) / 2)))
  }

  /** The two halves of c: equal when c is even, one apart when c is odd. */
  lemma HalvesOf(c: nat)
    ensures c / 2 + (c + 1) / 2 == c
    ensures c % 2 == 0 ==> c / 2 == (c + 1) / 2
    ensures c % 2 == 1 ==> c / 2 + 1 == (c + 1) / 2
  {
  }

  /** A range of count c >= 2 bisects to the dates c/2 and (c+1)/2 workdays after its start. */
  lemma BisectValue(w: set<int>, from: Date, till: Date)
    requires from < till && WorkdayCount(w, from, till).value >= 2
    ensures HasWorkday(w)
    ensures var c := WorkdayCount(w, from, till).value;
            BisectRange(w, from, till) == Ok(OrderedPair(JumpWorkdays(w, from, c / 2), JumpWorkdays(w, from, (c + 1) / 2)))
  {
    SomeWorkdayMeansHasWorkday(w, from + 1, till);
  }

  /**
    An ordered range bisects without error; below a count of 2 to no date,
    otherwise to one date when the count is even and two ascending dates when
    it is odd.
   */
  lemma BisectShape(w: set<int>, from: Date, till: Date)
    requires from <= till
    ensures BisectRange(w, from, till).Ok?
    ensures WorkdayCount(w, from, till).value < 2 ==> BisectRange(w, from, till).value == []
    ensures var c := WorkdayCount(w, from, till).value;
            var ps := BisectRange(w, from, till).value;
            c >= 2 ==>
              && |ps| == (if c % 2 == 0 then 1 else 2)
              && forall i, j :: 0 <= i < j < |ps| ==> ps[i] < ps[j]
  {
    var c := WorkdayCount(w, from, till).value;
    if c >= 2 {
      BisectValue(w, from, till);
      var lo, hi := c / 2, (c + 1) / 2;
      var a, b := JumpWorkdays(w, from, lo), JumpWorkdays(w, from, hi);
      assert (c % 2 == 0 ==> a == b) && (c % 2 == 1 ==> a < b) by {
        HalvesOf(c);
        if c % 2 == 1 {
          JumpIncreasing(w, from, lo, hi);
        }
      }
      PairShape(a, b, c);
    }
  }

  /** The ordered pair of two dates that coincide for even c and ascend for odd c. */
  lemma PairShape(a: Date, b: Date, c: nat)
    requires (c % 2 == 0 ==> a == b) && (c % 2 == 1 ==> a < b)
    ensures var ps := OrderedPair(a, b);
            && |ps| == (if c % 2 == 0 then 1 else 2)
            && forall i, j :: 0 <= i < j < |ps| ==> ps[i] < ps[j]
  {
  }

  /**
    `p` lies strictly inside the range, is a workday, and splits the range's
    count c into two parts that add up to c and differ by at most one.
   */
  predicate SplitsEvenly(w: set<int>, from: Date, till: Date, p: Date) {
    var c := WorkdayCount(w, from, till);
    && c.Ok?
    && from < p < till && IsWorkday(w, p)
    && WorkdayCount(w, from, p).Ok? && WorkdayCount(w, p, till).Ok?
    && WorkdayCount(w, from, p).value + WorkdayCount(w, p, till).value == c.value
    && WorkdayCount(w, from, p).value in {c.value / 2, (c.value + 1) / 2}
  }

  /** Advancing by either half of a count of at least 2 gives a date that splits the range evenly. */
  lemma BisectPoint(w: set<int>, from: Date, till: Date, k: nat)
    requires from < till
    requires var c := WorkdayCount(w, from, till).value; c >= 2 && (k == c / 2 || k == (c + 1) / 2)
    ensures HasWorkday(w) && SplitsEvenly(w, from, till, JumpWorkdays(w, from, k))
  {
    HalvesOf(WorkdayCount(w, from, till).value);
    JumpSplitsRange(w, from, till, k);
  }

  /** Every date of a bisection splits the range evenly. */
  lemma BisectHalves(w: set<int>, from: Date, till: Date)
    requires from <= till
    ensures BisectRange(w, from, till).Ok?
    ensures forall p :: p in BisectRange(w, from, till).value ==> SplitsEvenly(w, from, till, p)
  {
    var c := WorkdayCount(w, from, till).value;
    if c >= 2 {
      BisectValue(w, from, till);
      var lo, hi := c / 2, (c + 1) / 2;
      BisectPoint(w, from, till, lo);
      BisectPoint(w, from, till, hi);
      assert BisectRange(w, from, till).value == OrderedPair(JumpWorkdays(w, from, lo), JumpWorkdays(w, from, hi));
    }
  }

  /** Conversely, every date that splits the range evenly is proposed. */
  lemma BisectComplete(w: set<int>, from: Date, till: Date, p: Date)
    requires SplitsEvenly(w, from, till, p)
    ensures BisectRange(w, from, till).Ok? && p in BisectRange(w, from, till).value
  {
    var c := WorkdayCount(w, from, till).value;
    var k := WorkdayCount(w, from, p).value;
    assert k == Tally(w, from + 1, p + 1) && c >= 2 by {
      assert Tally(w, from + 1, p + 1) == Tally(w, from + 1, p) + 1;
    }
    JumpReachesWorkday(w, from, p);
    BisectValue(w, from, till);
  }

  /** The proposed dates are exactly the dates that split the range evenly. */
  lemma BisectExactly(w: set<int>, from: Date, till: Date)
    requires from <= till
    ensures BisectRange(w, from, till).Ok?
    ensures forall p :: p in BisectRange(w, from, till).value <==> SplitsEvenly(w, from, till, p)
  {
    BisectHalves(w, from, till);
    forall p | SplitsEvenly(w, from, till, p)
      ensures p in BisectRange(w, from, till).value
    {
      BisectComplete(w, from, till, p);
    }
  }

  /**
    The bisections the program's tests expect under the Monday-to-Friday
    workweek, with dates as day numbers (see `Workdays.TestDayNumbers`).
   */
  lemma BisectExamplesCommercial()
    ensures BisectRange(Commercial, 737856, 737857) == Ok([])
    ensures BisectRange(Commercial, 737856, 737858) == Ok([737857])
    ensures BisectRange(Commercial, 737856, 737860) == Ok([737858])
    ensures BisectRange(Commercial, 737856, 737863) == Ok([737858, 737859])
  {
    assert Tally(Commercial, 737857, 737857) == 0;
    assert Tally(Commercial, 737857, 737858) == 1;
    assert Tally(Commercial, 737857, 737860) == 3;
    assert Tally(Commercial, 737857, 737863) == 4;
  }

  /**
    When every day is a workday, a range of n >= 2 days bisects at its
    arithmetic midpoint: the dates `a` and `b`, n/2 and (n+1)/2 days after `from`.
   */
  lemma BisectEveryDay(w: set<int>, from: Date, till: Date, a: Date, b: Date)
    requires forall k :: 1 <= k <= 7 ==> k in w
    requires from as int + 2 <= till as int
    requires a as int == from as int + (till as int - from as int) / 2
    requires b as int == from as int + (till as int - from as int + 1) / 2
    ensures BisectRange(w, from, till) == Ok(OrderedPair(a, b))
  {
    TallyBounds(w, from + 1, till);
    var c := WorkdayCount(w, from, till).value;
    assert c == till as int - from as int;
    BisectValue(w, from, till);
    JumpEveryDay(w, from, c / 2);
    JumpEveryDay(w, from, (c + 1) / 2);
    assert JumpWorkdays(w, from, c / 2) == a;
    assert JumpWorkdays(w, from, (c + 1) / 2) == b;
  }

  /** The bisections the program's tests expect when every day is a workday. */
  lemma BisectExamplesAllDays()
    ensures BisectRange(AllDays, 737849, 737855) == Ok([737852])
    ensures BisectRange(AllDays, 737849, 737856) == Ok([737852, 737853])
  {
    BisectEveryDay(AllDays, 737849, 737855, 737852, 737852);
    BisectEveryDay(AllDays, 737849, 737856, 737852, 737853);
  }
}
