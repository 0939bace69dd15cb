/** The calendar of the one year the chart covers, and ISO date strings for it. */
module Calendar {
  import opened Text

  const YEAR: nat := 2026

  /** Month lengths of 2026 (not a leap year); Python's `date` computes the same lengths. */
  const DAYS_IN_MONTH: seq<nat> := [31, 28, 31, 30, 31, 30, 31, 31, 30, 31, 30, 31]

  /** The number of days of a month of 2026, as Python's `date` counts them: February has 28,
      April, June, September and November have 30, and the other months 31. */
  function MonthLength(month: int): (n: nat)
    requires 1 <= month <= 12
    ensures 28 <= n <= 31
  {
    if month == 2 then 28
    else if month == 4 || month == 6 || month == 9 || month == 11 then 30
    else 31
  }

  /** The month-length table agrees with the calendar. */
  lemma MonthLengthTable(month: int)
    requires 1 <= month <= 12
    ensures DAYS_IN_MONTH[month - 1] == MonthLength(month)
  {
  }

  /** `date(YEAR, month, day)` succeeds exactly for these arguments. */
  predicate ValidDate(month: int, day: int) {
    1 <= month <= 12 && 1 <= day <= MonthLength(month)
  }

  /** Two-digit zero-padded decimal. */
  function Pad2(n: nat): (s: string)
    requires n < 100
    ensures |s| == 2 && AllDigits(s)
  {
    [DigitChar(n / 10), DigitChar(n % 10)]
  }

  lemma Pad2Injective(a: nat, b: nat)
    requires a < 100 && b < 100 && Pad2(a) == Pad2(b)
    ensures a == b
  {
    assert DigitValue(Pad2(a)[0]) == a / 10 && DigitValue(Pad2(a)[1]) == a % 10;
  }

  /** `date(YEAR, month, day).isoformat()`: "YYYY-MM-DD". */
  function IsoDate(month: nat, day: nat): (s: string)
    requires month < 100 && day < 100
    ensures |s| == 10
  {
    Pad2(YEAR / 100) + Pad2(YEAR % 100) + "-" + Pad2(month) + "-" + Pad2(day)
  }

  const YEAR_PREFIX: string := Pad2(YEAR / 100) + Pad2(YEAR % 100) + "-"

  lemma IsoDateShape(month: nat, day: nat)
    requires month < 100 && day < 100
    ensures IsoDate(month, day) == YEAR_PREFIX + (Pad2(month) + ("-" + Pad2(day)))
  {
  }

  /** Different dates have different ISO strings. */
  lemma IsoDateInjective(m1: nat, d1: nat, m2: nat, d2: nat)
    requires m1 < 100 && d1 < 100 && m2 < 100 && d2 < 100
    requires IsoDate(m1, d1) == IsoDate(m2, d2)
    ensures m1 == m2 && d1 == d2
  {
    var s1, s2 := IsoDate(m1, d1), IsoDate(m2, d2);
    assert s1[5..7] == Pad2(m1) && s2[5..7] == Pad2(m2);
    assert s1[8..10] == Pad2(d1) && s2[8..10] == Pad2(d2);
    Pad2Injective(m1, m2);
    Pad2Injective(d1, d2);
  }

  /** Comparing two zero-padded numbers followed by equally long tails, as strings. */
  lemma {:induction false} LexLessPad2(a: nat, b: nat, x: string, y: string)
    requires a < 100 && b < 100
    ensures LexLess(Pad2(a) + x, Pad2(b) + y) == (a < b || (a == b && LexLess(x, y)))
  {
    var s, t := Pad2(a) + x, Pad2(b) + y;
    assert s[0] == DigitChar(a / 10) && t[0] == DigitChar(b / 10);
    assert s[1..][0] == DigitChar(a % 10) && t[1..][0] == DigitChar(b % 10);
    assert s[1..][1..] == x && t[1..][1..] == y;
    if a == b {
      LexLessCommonPrefix(Pad2(a), x, y);
    }
  }

  /** Sorting ISO date strings of one year sorts the dates chronologically. */
  lemma IsoDateOrder(m1: nat, d1: nat, m2: nat, d2: nat)
    requires m1 < 100 && d1 < 100 && m2 < 100 && d2 < 100
    ensures LexLess(IsoDate(m1, d1), IsoDate(m2, d2)) == (m1 < m2 || (m1 == m2 && d1 < d2))
  {
    IsoDateShape(m1, d1);
    IsoDateShape(m2, d2);
    LexLessCommonPrefix(YEAR_PREFIX, Pad2(m1) + ("-" + Pad2(d1)), Pad2(m2) + ("-" + Pad2(d2)));
    LexLessPad2(m1, m2, "-" + Pad2(d1), "-" + Pad2(d2));
    LexLessCommonPrefix("-", Pad2(d1), Pad2(d2));
    LexLessPad2(d1, d2, [], []);
    assert Pad2(d1) + [] == Pad2(d1) && Pad2(d2) + [] == Pad2(d2);
    LexLessIrreflexive([]);
  }

  /** ISO strings of days 1..n of a month. */
  function MonthDates(month: nat, n: nat): set<string>
    requires month < 100 && n < 100
  {
    if n == 0 then {} else MonthDates(month, n - 1) + {IsoDate(month, n)}
  }

  /** ISO strings of every day of months 1..k. */
  function DatesThrough(k: nat): set<string>
    requires k <= 12
  {
    if k == 0 then {} else DatesThrough(k - 1) + MonthDates(k, MonthLength(k))
  }

  /** The 365 ISO strings of the year, January 1 to December 31. */
  function YearDates(): set<string> {
    DatesThrough(|DAYS_IN_MONTH|)
  }

  lemma {:induction false} MonthDatesMember(month: nat, n: nat, m: nat, d: nat)
    requires month < 100 && n < 100 && m < 100 && d < 100
    ensures IsoDate(m, d) in MonthDates(month, n) <==> m == month && 1 <= d <= n
  {
    if n > 0 {
      MonthDatesMember(month, n - 1, m, d);
      if IsoDate(m, d) == IsoDate(month, n) {
        IsoDateInjective(m, d, month, n);
      }
    }
  }

  lemma {:induction false} MonthDatesShape(month: nat, n: nat, s: string)
    requires month < 100 && n < 100 && s in MonthDates(month, n)
    ensures exists d: nat :: 1 <= d <= n && s == IsoDate(month, d)
  {
    if s != IsoDate(month, n) {
      MonthDatesShape(month, n - 1, s);
    }
  }

  lemma {:induction false} MonthDatesCard(month: nat, n: nat)
    requires month < 100 && n < 100
    ensures |MonthDates(month, n)| == n
  {
    if n > 0 {
      MonthDatesCard(month, n - 1);
      MonthDatesMember(month, n - 1, month, n);
    }
  }

  lemma {:induction false} DatesThroughMember(k: nat, m: nat, d: nat)
    requires k <= 12 && m < 100 && d < 100
    ensures IsoDate(m, d) in DatesThrough(k) <==> 1 <= m <= k && ValidDate(m, d)
  {
    if k > 0 {
      DatesThroughMember(k - 1, m, d);
      MonthDatesMember(k, MonthLength(k), m, d);
    }
  }

  function SumDays(k: nat): nat
    requires k <= 12
  {
    if k == 0 then 0 else SumDays(k - 1) + MonthLength(k)
  }

  lemma {:induction false} DatesThroughCard(k: nat)
    requires k <= 12
    ensures |DatesThrough(k)| == SumDays(k)
  {
    if k > 0 {
      var n, earlier := MonthLength(k), DatesThrough(k - 1);
      DatesThroughCard(k - 1);
      MonthDatesCard(k, n);
      forall s | s in MonthDates(k, n)
        ensures s !in earlier
      {
        MonthDatesShape(k, n, s);
        var d: nat :| 1 <= d <= n && s == IsoDate(k, d);
        DatesThroughMember(k - 1, k, d);
      }
      assert earlier !! MonthDates(k, n);
    }
  }

  /** The month lengths add up to 365 days. */
  lemma YearLength()
    ensures SumDays(12) == 365
  {
    assert SumDays(1) == 31;
    assert SumDays(2) == 59;
    assert SumDays(3) == 90;
    assert SumDays(4) == 120;
    assert SumDays(5) == 151;
    assert SumDays(6) == 181;
    assert SumDays(7) == 212;
    assert SumDays(8) == 243;
    assert SumDays(9) == 273;
    assert SumDays(10) == 304;
    assert SumDays(11) == 334;
  }

  /** The year has exactly 365 distinct ISO dates. */
  lemma YearDatesCard()
    ensures |YearDates()| == 365
  {
    DatesThroughCard(12);
    YearLength();
  }

  lemma {:induction false} DatesThroughLength(k: nat, s: string)
    requires k <= 12 && s in DatesThrough(k)
    ensures |s| == 10
  {
    var n := MonthLength(k);
    if s in DatesThrough(k - 1) {
      DatesThroughLength(k - 1, s);
    } else {
      assert s in MonthDates(k, n);
      MonthDatesShape(k, n, s);
      var d: nat :| 1 <= d <= n && s == IsoDate(k, d);
    }
  }

  /** Every date string of the year is ten characters long. */
  lemma YearDatesLength(s: string)
    requires s in YearDates()
    ensures |s| == 10
  {
    DatesThroughLength(|DAYS_IN_MONTH|, s);
  }

  /** A date string belongs to the year exactly when its month and day form a valid date. */
  lemma InYearDates(m: nat, d: nat)
    requires m < 100 && d < 100
    ensures IsoDate(m, d) in YearDates() <==> ValidDate(m, d)
  {
    DatesThroughMember(12, m, d);
  }
}
