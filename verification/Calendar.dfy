/**
 The proleptic Gregorian calendar, counted in days: day 0 is Monday, 1 January of year 1.
 Go's time package is not part of this model; what packs/jobs/cron.go reads of it is the
 month, the day of the month and the weekday of a date, and "the date i days later".
 */
module Calendar {

  predicate Leap(y: nat) {
    y % 4 == 0 && (y % 100 != 0 || y % 400 == 0)
  }

  function MonthLength(leap: bool, m: nat): nat {
    if m == 2 then (if leap then 29 else 28)
    else if m == 4 || m == 6 || m == 9 || m == 11 then 30
    else 31
  }

  // Days of a year before the first of month m; m = 13 gives the length of the year.
  function MonthStart(leap: bool, m: nat): (s: nat)
    requires 1 <= m <= 13
    ensures m <= 12 ==> s + MonthLength(leap, m) <= 366
  {
    (if leap && m > 2 then 1 else 0) +
    (if m <= 6 then
       if m <= 3 then (if m == 1 then 0 else if m == 2 then 31 else 59)
       else if m == 4 then 90 else if m == 5 then 120 else 151
     else if m <= 9 then (if m == 7 then 181 else if m == 8 then 212 else 243)
     else if m <= 11 then (if m == 10 then 273 else 304)
     else if m == 12 then 334 else 365)
  }

  function YearLength(y: nat): nat {
    if Leap(y) then 366 else 365
  }

  // The day number of 1 January of year y.
  function YearStart(y: nat): nat
    requires y >= 1
  {
    if y == 1 then 0 else YearStart(y - 1) + YearLength(y - 1)
  }

  datatype Date = Date(year: nat, month: nat, day: nat)

  predicate ValidDate(d: Date) {
    && d.year >= 1
    && 1 <= d.month <= 12
    && 1 <= d.day <= MonthLength(Leap(d.year), d.month)
  }

  function DayOfYear(leap: bool, m: nat, d: nat): nat
    requires 1 <= m <= 12 && d >= 1
  {
    MonthStart(leap, m) + d - 1
  }

  function DayNumber(d: Date): nat
    requires ValidDate(d)
  {
    YearStart(d.year) + DayOfYear(Leap(d.year), d.month, d.day)
  }

  // Sunday is 0, as in Go.
  function Weekday(n: nat): (w: nat)
    ensures w < 7
  {
    (n + 1) % 7
  }

  lemma CarryEvery(y: nat, n: nat)
    requires y >= 1 && (n == 4 || n == 100 || n == 400)
    ensures y / n == (y - 1) / n + (if y % n == 0 then 1 else 0)
  {
  }

  lemma Centuries(y: nat)
    ensures y % 400 == 0 ==> y % 100 == 0
    ensures y % 100 == 0 ==> y % 4 == 0
  {
    if y % 400 == 0 {
      assert y == 100 * (4 * (y / 400));
    }
    if y % 100 == 0 {
      assert y == 4 * (25 * (y / 100));
    }
  }

  // The same count in closed form: a leap day every fourth year, but for three centuries in four.
  lemma {:induction false} YearStartClosedForm(y: nat)
    requires y >= 1
    ensures YearStart(y) == 365 * (y - 1) + (y - 1) / 4 - (y - 1) / 100 + (y - 1) / 400
  {
    if y > 1 {
      YearStartClosedForm(y - 1);
      CarryEvery(y - 1, 4);
      CarryEvery(y - 1, 100);
      CarryEvery(y - 1, 400);
      Centuries(y - 1);
    }
  }

  lemma YearStartsGrow(y: nat, z: nat)
    requires 1 <= y < z
    ensures YearStart(y) + YearLength(y) <= YearStart(z)
    decreases z - y
  {
    if y + 1 < z {
      YearStartsGrow(y + 1, z);
    }
  }

  lemma DayOfYearInYear(leap: bool, m: nat, d: nat)
    requires 1 <= m <= 12 && 1 <= d <= MonthLength(leap, m)
    ensures DayOfYear(leap, m, d) < (if leap then 366 else 365)
  {
  }

  function YearFrom(n: nat, y: nat): (r: nat)
    requires y >= 1 && YearStart(y) <= n
    ensures r >= 1 && YearStart(r) <= n < YearStart(r) + YearLength(r)
    decreases n - YearStart(y)
  {
    if n < YearStart(y + 1) then y else YearFrom(n, y + 1)
  }

  function MonthFrom(leap: bool, k: nat, m: nat): (r: nat)
    requires 1 <= m <= 12 && MonthStart(leap, m) <= k < MonthStart(leap, 13)
    ensures 1 <= r <= 12 && MonthStart(leap, r) <= k < MonthStart(leap, r + 1)
    decreases 12 - m
  {
    if k < MonthStart(leap, m + 1) then m else MonthFrom(leap, k, m + 1)
  }

  function DateInYear(y: nat, k: nat): (d: Date)
    requires y >= 1 && k < YearLength(y)
    ensures ValidDate(d) && d.year == y && DayOfYear(Leap(y), d.month, d.day) == k
  {
    var m := MonthFrom(Leap(y), k, 1);
    Date(y, m, k - MonthStart(Leap(y), m) + 1)
  }

  // The date of a day number: the inverse of DayNumber, in both directions.
  function DateOf(n: nat): (d: Date)
    ensures ValidDate(d) && DayNumber(d) == n
  {
    var y := YearFrom(n, 1);
    DateInYear(y, n - YearStart(y))
  }

  lemma DateInYearIsInverse(d: Date)
    requires ValidDate(d)
    ensures DayOfYear(Leap(d.year), d.month, d.day) < YearLength(d.year)
    ensures DateInYear(d.year, DayOfYear(Leap(d.year), d.month, d.day)) == d
  {
    var leap := Leap(d.year);
    DayOfYearInYear(leap, d.month, d.day);
    var e := DateInYear(d.year, DayOfYear(leap, d.month, d.day));
    SameDayOfYear(leap, d.month, d.day, e.month, e.day);
  }

  lemma SameDayOfYear(leap: bool, m: nat, d: nat, m': nat, d': nat)
    requires 1 <= m <= 12 && 1 <= d <= MonthLength(leap, m)
    requires 1 <= m' <= 12 && 1 <= d' <= MonthLength(leap, m')
    requires DayOfYear(leap, m, d) == DayOfYear(leap, m', d')
    ensures m == m' && d == d'
  {
  }

  lemma DateOfDayNumber(d: Date)
    requires ValidDate(d)
    ensures DateOf(DayNumber(d)) == d
  {
    var y := YearFrom(DayNumber(d), 1);
    DateInYearIsInverse(d);
    if d.year < y {
      YearStartsGrow(d.year, y);
    } else if y < d.year {
      YearStartsGrow(y, d.year);
    }
  }

  // The same date a year later is at most 366 days away.
  lemma YearShift(y: nat, m: nat, d: nat)
    requires y >= 1 && 1 <= m <= 12 && 1 <= d <= MonthLength(false, m)
    ensures YearLength(y) + DayOfYear(Leap(y + 1), m, d) <= DayOfYear(Leap(y), m, d) + 366
  {
  }

  lemma DateOfThisYearOrTheNext(y: nat, n: nat, m: nat, d: nat) returns (there: Date)
    requires y >= 1 && YearStart(y) <= n < YearStart(y) + YearLength(y)
    requires 1 <= m <= 12 && 1 <= d <= MonthLength(false, m)
    ensures ValidDate(there) && there.month == m && there.day == d
    ensures n <= DayNumber(there) <= n + 366
  {
    YearShift(y, m, d);
    there := Date(if n <= YearStart(y) + DayOfYear(Leap(y), m, d) then y else y + 1, m, d);
  }

  // A day of a month that every year has comes back within 366 days.
  lemma DateReturns(n: nat, m: nat, d: nat) returns (k: nat)
    requires 1 <= m <= 12 && 1 <= d <= MonthLength(false, m)
    ensures n <= k <= n + 366 && DateOf(k).month == m && DateOf(k).day == d
  {
    var there := DateOfThisYearOrTheNext(YearFrom(n, 1), n, m, d);
    k := DayNumber(there);
    DateOfDayNumber(there);
  }

  lemma WeekdayShift(n: nat, off: nat)
    requires off < 7
    ensures Weekday(n + off) == if Weekday(n) + off < 7 then Weekday(n) + off else Weekday(n) + off - 7
  {
  }

  lemma SameMonthDate(d: Date, off: nat)
    requires ValidDate(d) && d.day + off <= 28
    ensures ValidDate(d.(day := d.day + off)) && DayNumber(d.(day := d.day + off)) == DayNumber(d) + off
  {
  }

  lemma SameMonth(n: nat, off: nat)
    requires DateOf(n).day + off <= 28
    ensures DateOf(n + off) == DateOf(n).(day := DateOf(n).day + off)
  {
    SameMonthDate(DateOf(n), off);
    DateOfDayNumber(DateOf(n).(day := DateOf(n).day + off));
  }

  // Every month has every weekday in its first seven days.
  lemma WeekdayReturns(n: nat, m: nat, w: nat) returns (k: nat)
    requires 1 <= m <= 12 && w < 7
    ensures n <= k <= n + 372 && DateOf(k).month == m && Weekday(k) == w
  {
    var first := DateReturns(n, m, 1);
    var off := if w >= Weekday(first) then w - Weekday(first) else w + 7 - Weekday(first);
    k := first + off;
    SameMonth(first, off);
    WeekdayShift(first, off);
  }
}
