/** The checks run on the classified records of a location: the number of distinct days, the
    days of the year that have no record, and the days with an implausible number of tides. */
module Validate {
  import opened Tides
  import opened Calendar

  /** A problem the validator reports. */
  datatype Issue =
    | DayCountMismatch(found: nat)        // the number of distinct days is not 365
    | MissingDates(missing: set<string>)  // days of the year without any record
    | SuspiciousCounts(days: seq<string>) // days with fewer than one or more than four records

  /** The distinct dates of the records. */
  function DatesOf(s: seq<Tide>): set<string> {
    set t | t in s :: t.date
  }

  /** How many records fall on date `d`. */
  function CountOn(s: seq<Tide>, d: string): nat {
    if s == [] then 0
    else CountOn(s[..|s| - 1], d) + (if s[|s| - 1].date == d then 1 else 0)
  }

  /** The distinct dates in order of first appearance: the key order of `day_counts`. */
  function FirstSeen(s: seq<Tide>): seq<string> {
    if s == [] then []
    else
      var init, d := s[..|s| - 1], s[|s| - 1].date;
      if d in FirstSeen(init) then FirstSeen(init) else FirstSeen(init) + [d]
  }

  /** A day count the validator flags. */
  predicate Suspicious(c: nat) {
    c < 1 || c > 4
  }

  /** The flagged days, in order of first appearance. */
  function SuspiciousDays(s: seq<Tide>, days: seq<string>): (r: seq<string>)
    ensures forall d :: d in r <==> d in days && Suspicious(CountOn(s, d))
  {
    if days == [] then []
    else
      var init, d := days[..|days| - 1], days[|days| - 1];
      assert days == init + [d];
      SuspiciousDays(s, init) + (if Suspicious(CountOn(s, d)) then [d] else [])
  }

  /** The issues about which days of the year have records: a day-count mismatch, followed by
      the missing days when there are any; nothing when there are 365 distinct days. */
  function DateIssues(days: set<string>): seq<Issue> {
    var missing := YearDates() - days;
    if |days| != 365 then
      [DayCountMismatch(|days|)] + (if missing != {} then [MissingDates(missing)] else [])
    else []
  }

  /** The issue about days with an implausible number of records, if there are such days. */
  function CountIssues(s: seq<Tide>): seq<Issue> {
    var suspicious := SuspiciousDays(s, FirstSeen(s));
    if suspicious != [] then [SuspiciousCounts(suspicious)] else []
  }

  /** `validate_data` as a function of the records. */
  function ValidateSpec(s: seq<Tide>): seq<Issue> {
    DateIssues(DatesOf(s)) + CountIssues(s)
  }

  /** A date has a record exactly when its count is positive. */
  lemma {:induction false} CountOnPositive(s: seq<Tide>, d: string)
    ensures CountOn(s, d) > 0 <==> d in DatesOf(s)
  {
    if s != [] {
      var init := s[..|s| - 1];
      CountOnPositive(init, d);
      assert s == init + [s[|s| - 1]];
      assert DatesOf(s) == DatesOf(init) + {s[|s| - 1].date};
    }
  }

  /** The first-appearance list holds every date once. */
  lemma {:induction false} FirstSeenDates(s: seq<Tide>)
    ensures forall d :: d in FirstSeen(s) <==> d in DatesOf(s)
    ensures forall i, j :: 0 <= i < j < |FirstSeen(s)| ==> FirstSeen(s)[i] != FirstSeen(s)[j]
  {
    if s != [] {
      var init := s[..|s| - 1];
      FirstSeenDates(init);
      assert s == init + [s[|s| - 1]];
      assert DatesOf(s) == DatesOf(init) + {s[|s| - 1].date};
    }
  }

  /** Only days with more than four records are flagged: a listed day has at least one, so
      the "fewer than one" test never fires. */
  lemma SuspiciousMeansCrowded(s: seq<Tide>, d: string)
    ensures d in SuspiciousDays(s, FirstSeen(s)) <==> CountOn(s, d) > 4
  {
    FirstSeenDates(s);
    CountOnPositive(s, d);
  }

  /** A day-count issue is reported exactly when the records do not span 365 distinct dates,
      and it carries the number they do span. */
  lemma DayCountExactly(s: seq<Tide>)
    ensures (exists i :: 0 <= i < |ValidateSpec(s)| && ValidateSpec(s)[i].DayCountMismatch?)
      <==> |DatesOf(s)| != 365
    ensures forall i :: 0 <= i < |ValidateSpec(s)| && ValidateSpec(s)[i].DayCountMismatch? ==>
      ValidateSpec(s)[i].found == |DatesOf(s)|
  {
    if |DatesOf(s)| != 365 {
      assert ValidateSpec(s)[0].DayCountMismatch?;
    }
  }

  /** A suspicious-count issue is reported exactly when some date has more than four records,
      and it lists exactly those dates. */
  lemma CrowdedExactly(s: seq<Tide>)
    ensures (exists i :: 0 <= i < |ValidateSpec(s)| && ValidateSpec(s)[i].SuspiciousCounts?)
      <==> exists d :: CountOn(s, d) > 4
    ensures forall i :: 0 <= i < |ValidateSpec(s)| && ValidateSpec(s)[i].SuspiciousCounts? ==>
      forall d :: d in ValidateSpec(s)[i].days <==> CountOn(s, d) > 4
  {
    var dates := DateIssues(DatesOf(s));
    var suspicious := SuspiciousDays(s, FirstSeen(s));
    var r := ValidateSpec(s);
    assert r == dates + CountIssues(s);
    forall d
      ensures d in suspicious <==> CountOn(s, d) > 4
    {
      SuspiciousMeansCrowded(s, d);
    }
    forall i | 0 <= i < |r| && r[i].SuspiciousCounts?
      ensures r[i] == SuspiciousCounts(suspicious)
    {
      assert i >= |dates|;
    }
    if d :| CountOn(s, d) > 4 {
      assert d in suspicious;
      assert r[|dates|].SuspiciousCounts?;
    }
    if i :| 0 <= i < |r| && r[i].SuspiciousCounts? {
      assert CountOn(s, suspicious[0]) > 4;
    }
  }

  lemma {:induction false} SubsetCard(a: set<string>, b: set<string>)
    requires a <= b
    ensures |a| <= |b|
    decreases a
  {
    if a != {} {
      var x :| x in a;
      SubsetCard(a - {x}, b - {x});
    }
  }

  /** Dates of the year are determined by their count: a subset of the year's dates with 365
      members is the whole year. */
  lemma FullYear(days: set<string>)
    requires days <= YearDates()
    ensures |days| == 365 <==> days == YearDates()
  {
    YearDatesCard();
    if days != YearDates() {
      var x :| x in YearDates() && x !in days;
      SubsetCard(days, YearDates() - {x});
    }
  }

  /** For records dated in the year, the dates are reported missing exactly when some day of
      the year has no record, and then exactly those days. */
  lemma MissingExactly(s: seq<Tide>)
    requires DatesOf(s) <= YearDates()
    ensures (exists i :: 0 <= i < |ValidateSpec(s)| && ValidateSpec(s)[i].MissingDates?)
      <==> DatesOf(s) != YearDates()
    ensures forall i :: 0 <= i < |ValidateSpec(s)| && ValidateSpec(s)[i].MissingDates? ==>
      ValidateSpec(s)[i].missing == YearDates() - DatesOf(s)
  {
    FullYear(DatesOf(s));
    var days := DatesOf(s);
    if days != YearDates() {
      var x :| x in YearDates() && x !in days;
      assert x in YearDates() - days;
      assert ValidateSpec(s)[1].MissingDates?;
    }
  }

  /** For records dated in the year, validation passes exactly when every day of the year has
      between one and four records. */
  lemma PassesExactly(s: seq<Tide>)
    requires DatesOf(s) <= YearDates()
    ensures ValidateSpec(s) == [] <==>
      forall d :: d in YearDates() ==> 1 <= CountOn(s, d) <= 4
  {
    var days := DatesOf(s);
    FullYear(days);
    FirstSeenDates(s);
    var suspicious := SuspiciousDays(s, FirstSeen(s));
    if ValidateSpec(s) == [] {
      assert CountIssues(s) == [];
      forall d | d in YearDates()
        ensures 1 <= CountOn(s, d) <= 4
      {
        CountOnPositive(s, d);
        assert d !in suspicious;
      }
    } else if forall d :: d in YearDates() ==> 1 <= CountOn(s, d) <= 4 {
      forall d | d in YearDates()
        ensures d in days
      {
        CountOnPositive(s, d);
      }
      assert DateIssues(days) == [];
      forall d | d in suspicious
        ensures false
      {
      }
      NoMembersEmpty(suspicious);
    }
  }

  lemma NoMembersEmpty(r: seq<string>)
    ensures (forall d :: d !in r) ==> r == []
  {
    if r != [] {
      assert r[0] in r;
    }
  }

  /** The days of the year before day `day` of month `month`. */
  function DatesBefore(month: nat, day: nat): set<string>
    requires ValidDate(month, day)
  {
    DatesThrough(month - 1) + MonthDates(month, day - 1)
  }

  /** Within a month, the walk adds the day and moves to the next one. */
  lemma NextDayStep(month: nat, day: nat)
    requires ValidDate(month, day) && ValidDate(month, day + 1)
    ensures DatesBefore(month, day) + {IsoDate(month, day)} == DatesBefore(month, day + 1)
  {
  }

  /** On the last day of a month, adding it completes the month. */
  lemma MonthComplete(month: nat, day: nat)
    requires ValidDate(month, day) && !ValidDate(month, day + 1)
    ensures DatesBefore(month, day) + {IsoDate(month, day)} == DatesThrough(month)
  {
    assert day == MonthLength(month);
  }

  /** After the last day of a month other than December, the walk goes on at the first of the
      next month. */
  lemma NextMonthStep(month: nat, day: nat)
    requires ValidDate(month, day) && !ValidDate(month, day + 1) && month < 12
    ensures ValidDate(month + 1, 1)
    ensures DatesBefore(month + 1, 1) == DatesBefore(month, day) + {IsoDate(month, day)}
  {
    MonthComplete(month, day);
  }

  /** After December 31 the walk has seen every day of the year. */
  lemma YearComplete(month: nat, day: nat)
    requires month == 12 && ValidDate(month, day) && !ValidDate(month, day + 1)
    ensures YearDates() == DatesBefore(month, day) + {IsoDate(month, day)}
  {
    MonthComplete(month, day);
    assert |DAYS_IN_MONTH| == month;
  }

  /** The days of the year, walked from January 1: each step moves to the next day of the
      month, `d.replace(day=d.day + 1)`, or when that fails to the first of the next month,
      and after December 31 the walk leaves the year. */
  method ExpectedDates() returns (expected: set<string>)
    ensures expected == YearDates()
  {
    expected := {};
    var month, day := 1, 1;
    var inYear := true;
    while inYear
      invariant ValidDate(month, day)
      invariant inYear ==> expected == DatesBefore(month, day)
      invariant !inYear ==> expected == YearDates()
      decreases inYear, 12 - month, MonthLength(month) - day
    {
      if ValidDate(month, day + 1) {
        NextDayStep(month, day);
        expected := expected + {IsoDate(month, day)};
        day := day + 1;
      } else if month == 12 {
        YearComplete(month, day);
        expected := expected + {IsoDate(month, day)};
        inYear := false;
      } else {
        NextMonthStep(month, day);
        expected := expected + {IsoDate(month, day)};
        month, day := month + 1, 1;
      }
    }
  }

  /** The `day_counts` loop: a count per date, with dates in order of first appearance. */
  method CountDays(s: seq<Tide>) returns (keys: seq<string>, counts: map<string, nat>)
    ensures keys == FirstSeen(s)
    ensures forall d :: d in counts <==> d in DatesOf(s)
    ensures forall d :: d in counts ==> counts[d] == CountOn(s, d)
  {
    keys, counts := [], map[];
    for i := 0 to |s|
      invariant keys == FirstSeen(s[..i])
      invariant forall d :: d in counts <==> d in keys
      invariant forall d :: d in counts ==> counts[d] == CountOn(s[..i], d)
    {
      assert s[..i + 1][..i] == s[..i];
      var d := s[i].date;
      assert forall d' :: CountOn(s[..i + 1], d') == CountOn(s[..i], d') + (if d' == d then 1 else 0);
      if d !in counts {
        FirstSeenDates(s[..i]);
        CountOnPositive(s[..i], d);
        keys := keys + [d];
        counts := counts[d := 1];
      } else {
        counts := counts[d := counts[d] + 1];
      }
    }
    assert s[..|s|] == s;
    FirstSeenDates(s);
  }

  /** The `day_counts` check: the days whose count is below one or above four, in order of
      first appearance. */
  method FlagDays(s: seq<Tide>) returns (suspicious: seq<string>)
    ensures suspicious == SuspiciousDays(s, FirstSeen(s))
  {
    var keys, counts := CountDays(s);
    FirstSeenDates(s);
    suspicious := [];
    for i := 0 to |keys|
      invariant suspicious == SuspiciousDays(s, keys[..i])
    {
      assert keys[..i + 1][..i] == keys[..i];
      var c := counts[keys[i]];
      if c < 1 || c > 4 {
        suspicious := suspicious + [keys[i]];
      }
    }
    assert keys[..|keys|] == keys;
  }

  /** `validate_data`: the issues found in the records, in the order the checks run. */
  method ValidateData(s: seq<Tide>) returns (issues: seq<Issue>)
    ensures issues == ValidateSpec(s)
  {
    issues := [];
    var uniqueDays := set t | t in s :: t.date;
    if |uniqueDays| != 365 {
      issues := issues + [DayCountMismatch(|uniqueDays|)];
      var expected := ExpectedDates();
      var missing := expected - uniqueDays;
      if missing != {} {
        issues := issues + [MissingDates(missing)];
      }
    }
    assert issues == DateIssues(DatesOf(s));
    var suspicious := FlagDays(s);
    if suspicious != [] {
      issues := issues + [SuspiciousCounts(suspicious)];
    }
  }
}
