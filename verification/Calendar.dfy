/** Seconds since 1970 to calendar date and time (generation_log.rs).

    Month lengths are those of section 5.7 of RFC 3339, the leap rule that of its Appendix C.
 */
module Calendar {
  datatype Parts = Parts(year: nat, month: nat, day: nat, hour: nat, minute: nat, second: nat)

  predicate IsLeap(y: nat) { (y % 4 == 0 && y % 100 != 0) || y % 400 == 0 }
  function YearLength(y: nat): nat { if IsLeap(y) then 366 else 365 }

  function MonthLengths(leap: bool): (m: seq<nat>)
    ensures |m| == 12
  {
    [31, if leap then 29 else 28, 31, 30, 31, 30, 31, 31, 30, 31, 30, 31]
  }

  /** Days from 1 January 1970 to 1 January of year y. */
  function DaysBeforeYear(y: nat): nat
    requires y >= 1970
  {
    if y == 1970 then 0 else DaysBeforeYear(y - 1) + YearLength(y - 1)
  }

  /** Days from 1 January to the first day of the month after the first `months` months. */
  function DaysBeforeMonth(months: nat, leap: bool): nat
    requires months <= 12
  {
    if months == 0 then 0 else DaysBeforeMonth(months - 1, leap) + MonthLengths(leap)[months-1]
  }

  predicate IsDate(p: Parts) {
    p.year >= 1970 && 1 <= p.month <= 12 && 1 <= p.day <= MonthLengths(IsLeap(p.year))[p.month-1]
  }

  predicate IsTime(p: Parts) { p.hour < 24 && p.minute < 60 && p.second < 60 }

  predicate Valid(p: Parts) { IsDate(p) && IsTime(p) }

  function DayNumber(p: Parts): nat
    requires IsDate(p)
  {
    DaysBeforeYear(p.year) + DaysBeforeMonth(p.month - 1, IsLeap(p.year)) + p.day - 1
  }

  function SecondOfDay(p: Parts): nat { (p.hour * 60 + p.minute) * 60 + p.second }

  /** Counting seconds from 1970. */
  function SecondsSince1970(p: Parts): nat
    requires IsDate(p)
  {
    DayNumber(p) * 86400 + SecondOfDay(p)
  }

  // ---- the conversion ----

  /** Whole years out of a day count; each round takes the days of one year away. */
  lemma {:induction false} YearsAreLong(y: nat)
    requires y >= 1970
    ensures DaysBeforeYear(y) >= (y - 1970) * 365
  {
    if y > 1970 { YearsAreLong(y - 1); }
  }

  method DaysToYear(days0: nat) returns (y: nat, days: nat)
    ensures y >= 1970 && days < YearLength(y) && DaysBeforeYear(y) + days == days0
    ensures y - 1970 <= days0 / 365
  {
    days := days0;
    y := 1970;
    while true
      invariant y >= 1970 && DaysBeforeYear(y) + days == days0
      decreases days
    {
      var dy := if IsLeap(y) then 366 else 365;
      if days < dy { break; }
      days := days - dy;
      y := y + 1;
    }
    YearsAreLong(y);
  }

  lemma {:induction false} YearIsTwelveMonths(leap: bool)
    ensures DaysBeforeMonth(12, leap) == if leap then 366 else 365
  {
    var feb := if leap then 29 else 28;
    assert DaysBeforeMonth(2, leap) == DaysBeforeMonth(1, leap) + feb == 31 + feb;
    assert DaysBeforeMonth(4, leap) == DaysBeforeMonth(3, leap) + 30 == 92 + feb;
    assert DaysBeforeMonth(6, leap) == DaysBeforeMonth(5, leap) + 30 == 153 + feb;
    assert DaysBeforeMonth(8, leap) == DaysBeforeMonth(7, leap) + 31 == 215 + feb;
    assert DaysBeforeMonth(10, leap) == DaysBeforeMonth(9, leap) + 31 == 276 + feb;
    assert DaysBeforeMonth(12, leap) == DaysBeforeMonth(11, leap) + 31 == 337 + feb;
  }

  method DaysToMonth(days0: nat, leap: bool) returns (month: nat, day: nat)
    requires days0 < if leap then 366 else 365
    ensures 1 <= month <= 12 && 1 <= day <= MonthLengths(leap)[month-1]
    ensures DaysBeforeMonth(month - 1, leap) + day - 1 == days0
  {
    var months := MonthLengths(leap);
    var days := days0;
    month := 1;
    YearIsTwelveMonths(leap);
    for i := 0 to |months|
      invariant month == i + 1 && DaysBeforeMonth(i, leap) + days == days0
    {
      if days < months[i] { break; }
      days := days - months[i];
      month := month + 1;
    }
    day := days + 1;
  }

  method EpochToParts(secs0: nat) returns (p: Parts)
    ensures Valid(p) && SecondsSince1970(p) == secs0
  {
    var secs := secs0;
    var s := secs % 60;
    secs := secs / 60;
    var mi := secs % 60;
    secs := secs / 60;
    var h := secs % 24;
    secs := secs / 24;
    assert secs0 == secs * 86400 + ((h * 60 + mi) * 60 + s);
    var y, remaining := DaysToYear(secs);
    var mo, d := DaysToMonth(remaining, IsLeap(y));
    p := Parts(y, mo, d, h, mi, s);
    assert DayNumber(p) == secs;
  }

  // ---- a calendar ----

  /** Earlier in the calendar: year first, second last. */
  predicate Earlier(p: Parts, q: Parts) {
    p.year < q.year || (p.year == q.year &&
    (p.month < q.month || (p.month == q.month &&
    (p.day < q.day || (p.day == q.day &&
    (p.hour < q.hour || (p.hour == q.hour &&
    (p.minute < q.minute || (p.minute == q.minute && p.second < q.second)))))))))
  }

  lemma {:induction false} YearsAscend(y: nat, z: nat)
    requires 1970 <= y < z
    ensures DaysBeforeYear(y) + YearLength(y) <= DaysBeforeYear(z)
    decreases z
  {
    if y + 1 < z { YearsAscend(y, z - 1); }
  }

  lemma {:induction false} MonthsAscend(m: nat, n: nat, leap: bool)
    requires m < n <= 12
    ensures DaysBeforeMonth(m, leap) + MonthLengths(leap)[m] <= DaysBeforeMonth(n, leap)
    decreases n
  {
    if m + 1 < n { MonthsAscend(m, n - 1, leap); }
  }

  /** A date is within its year. */
  lemma DayOfYear(p: Parts)
    requires IsDate(p)
    ensures DaysBeforeYear(p.year) <= DayNumber(p) < DaysBeforeYear(p.year) + YearLength(p.year)
  {
    var leap := IsLeap(p.year);
    YearIsTwelveMonths(leap);
    MonthsAscend(p.month - 1, 12, leap);
  }

  lemma DaysAscend(p: Parts, q: Parts)
    requires IsDate(p) && IsDate(q)
    requires p.year < q.year || (p.year == q.year && (p.month < q.month || (p.month == q.month && p.day < q.day)))
    ensures DayNumber(p) < DayNumber(q)
  {
    if p.year < q.year {
      DayOfYear(p);
      DayOfYear(q);
      YearsAscend(p.year, q.year);
    } else if p.month < q.month {
      MonthsAscend(p.month - 1, q.month - 1, IsLeap(p.year));
    }
  }

  lemma SecondOfDayIsSmall(p: Parts)
    requires IsTime(p)
    ensures SecondOfDay(p) < 86400
  {
  }

  /** Counting seconds is strictly monotone in the calendar's order. */
  lemma SecondsAscend(p: Parts, q: Parts)
    requires Valid(p) && Valid(q) && Earlier(p, q)
    ensures SecondsSince1970(p) < SecondsSince1970(q)
  {
    SecondOfDayIsSmall(p);
    SecondOfDayIsSmall(q);
    if p.year == q.year && p.month == q.month && p.day == q.day {
      assert SecondOfDay(p) < SecondOfDay(q);
    } else {
      DaysAscend(p, q);
    }
  }

  /** So the conversion's answer is the only valid one, and later seconds are later in the calendar. */
  lemma ConversionIsTheInverse(p: Parts, q: Parts)
    requires Valid(p) && Valid(q)
    ensures SecondsSince1970(p) == SecondsSince1970(q) <==> p == q
    ensures SecondsSince1970(p) < SecondsSince1970(q) <==> Earlier(p, q)
  {
    if Earlier(p, q) { SecondsAscend(p, q); }
    if Earlier(q, p) { SecondsAscend(q, p); }
  }

  /** The Gregorian count of leap days: every fourth year, not every hundredth, but every four hundredth. */
  function LeapYearsBefore(y: nat): int
    requires y >= 1
  {
    (y - 1) / 4 - (y - 1) / 100 + (y - 1) / 400
  }

  lemma LeapStep(y: nat)
    requires y >= 1
    ensures LeapYearsBefore(y + 1) == LeapYearsBefore(y) + if IsLeap(y) then 1 else 0
  {
    QuotientStep(y, 4);
    QuotientStep(y, 100);
    QuotientStep(y, 400);
    RulesNest(y);
  }

  lemma RulesNest(y: nat)
    ensures y % 400 == 0 ==> y % 100 == 0
    ensures y % 100 == 0 ==> y % 4 == 0
  {
    var a, b := y / 400, y / 100;
    if y % 400 == 0 { assert y == 100 * (4 * a); }
    if y % 100 == 0 { assert y == 4 * (25 * b); }
  }

  lemma QuotientStep(y: nat, d: nat)
    requires y >= 1 && (d == 4 || d == 100 || d == 400)
    ensures y / d == (y - 1) / d + if y % d == 0 then 1 else 0
  {
  }

  /** The year loop, in closed form. */
  lemma {:induction false} DaysBeforeYearInClosedForm(y: nat)
    requires y >= 1970
    ensures DaysBeforeYear(y) == (y - 1970) * 365 + LeapYearsBefore(y) - 477
  {
    if y > 1970 {
      DaysBeforeYearInClosedForm(y - 1);
      LeapStep(y - 1);
    }
  }

  // ---- second after second ----

  /** Thirty days in April, June, September and November, 28 or 29 in February, and 31 in the others. */
  function DaysIn(month: nat, leap: bool): nat {
    if month == 4 || month == 6 || month == 9 || month == 11 then 30
    else if month == 2 then (if leap then 29 else 28)
    else 31
  }

  lemma MonthLengthsAre(month: nat, leap: bool)
    requires 1 <= month <= 12
    ensures MonthLengths(leap)[month-1] == DaysIn(month, leap)
  {
  }

  function NextDay(p: Parts): Parts {
    if p.day < DaysIn(p.month, IsLeap(p.year)) then p.(day := p.day + 1)
    else if p.month < 12 then p.(month := p.month + 1, day := 1)
    else p.(year := p.year + 1, month := 1, day := 1)
  }

  /** What a clock shows one second later. */
  function NextSecond(p: Parts): Parts {
    if p.second < 59 then p.(second := p.second + 1)
    else if p.minute < 59 then p.(minute := p.minute + 1, second := 0)
    else if p.hour < 23 then p.(hour := p.hour + 1, minute := 0, second := 0)
    else NextDay(p).(hour := 0, minute := 0, second := 0)
  }

  lemma NextDayIsOneLater(p: Parts)
    requires IsDate(p)
    ensures IsDate(NextDay(p)) && DayNumber(NextDay(p)) == DayNumber(p) + 1
  {
    var leap := IsLeap(p.year);
    MonthLengthsAre(p.month, leap);
    if p.day == DaysIn(p.month, leap) {
      assert DaysBeforeMonth(p.month, leap) == DaysBeforeMonth(p.month - 1, leap) + p.day;
      if p.month == 12 { YearIsTwelveMonths(leap); }
    }
  }

  lemma NextSecondOfDay(p: Parts, q: Parts)
    requires IsTime(p) && q == NextSecond(p) && !(p.second == 59 && p.minute == 59 && p.hour == 23)
    ensures IsTime(q) && SecondOfDay(q) == SecondOfDay(p) + 1 && q.year == p.year && q.month == p.month
            && q.day == p.day
  {
  }

  lemma SameDay(p: Parts, q: Parts)
    requires IsDate(p) && q.year == p.year && q.month == p.month && q.day == p.day
    ensures IsDate(q) && DayNumber(q) == DayNumber(p)
  {
  }

  lemma AtMidnight(p: Parts)
    requires Valid(p) && p.second == 59 && p.minute == 59 && p.hour == 23
    ensures Valid(NextSecond(p)) && SecondsSince1970(NextSecond(p)) == SecondsSince1970(p) + 1
  {
    var d, q := NextDay(p), NextSecond(p);
    NextDayIsOneLater(p);
    SameDay(d, q);
    assert SecondOfDay(p) == 86399 && SecondOfDay(q) == 0;
  }

  lemma WithinTheDay(p: Parts)
    requires Valid(p) && !(p.second == 59 && p.minute == 59 && p.hour == 23)
    ensures Valid(NextSecond(p)) && SecondsSince1970(NextSecond(p)) == SecondsSince1970(p) + 1
  {
    NextSecondOfDay(p, NextSecond(p));
    SameDay(p, NextSecond(p));
  }

  /** The count starts at midnight of 1 January 1970 and goes up by one as the clock does: no date but the ones the
      clock shows fits it. */
  lemma CountFollowsTheClock(p: Parts)
    requires Valid(p)
    ensures SecondsSince1970(Parts(1970, 1, 1, 0, 0, 0)) == 0
    ensures Valid(NextSecond(p)) && SecondsSince1970(NextSecond(p)) == SecondsSince1970(p) + 1
  {
    if p.second == 59 && p.minute == 59 && p.hour == 23 { AtMidnight(p); } else { WithinTheDay(p); }
  }
}
