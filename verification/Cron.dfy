/**
 Cron schedules: the day rule and the search for the earliest due instant
 (packs/jobs/cron.go). Instants are integers; a time zone is the pair of functions the
 search uses of it, the local date of an instant and the instant a wall-clock time of a
 date is placed at.
 */
module Cron {
  import opened Wrappers
  import opened Calendar

  // One membership array per field, indexed by value, and the two "*" marks.
  datatype Fields = Fields(minutes: seq<bool>, hours: seq<bool>, days: seq<bool>, months: seq<bool>,
                           weekdays: seq<bool>, anyDom: bool, anyDow: bool)

  type Schedule = c: Fields |
    |c.minutes| == 60 && |c.hours| == 24 && |c.days| == 32 && |c.months| == 13 && |c.weekdays| == 8
    witness Fields(seq(60, i => true), seq(24, i => true), seq(32, i => true), seq(13, i => true),
                   seq(8, i => true), true, true)

  datatype Zone = Zone(dayOf: int -> nat, place: (nat, nat, nat) -> int)

  // The days one search looks at after the first.
  const HORIZON := 366 * 5

  predicate DayDue(c: Schedule, n: nat) {
    var d := DateOf(n);
    var dom, dow := c.days[d.day], c.weekdays[Weekday(n)];
    c.months[d.month] &&
    if c.anyDom && c.anyDow then true
    else if c.anyDom then dow
    else if c.anyDow then dom
    else dom || dow
  }

  // x is the instant of an admitted wall-clock time of day d.
  ghost predicate DueAt(c: Schedule, z: Zone, d: nat, h: nat, m: nat, x: int) {
    h < 24 && m < 60 && DayDue(c, d) && c.hours[h] && c.minutes[m] && z.place(d, h, m) == x
  }

  ghost predicate DueOn(c: Schedule, z: Zone, d: nat, x: int) {
    exists h, m :: DueAt(c, z, d, h, m, x)
  }

  ghost predicate Due(c: Schedule, z: Zone, x: int) {
    exists d: nat :: DueOn(c, z, d, x)
  }

  ghost function DueInstants(c: Schedule, z: Zone): iset<int> {
    iset x | Due(c, z, x)
  }

  // x is the least instant of a set after t.
  ghost predicate IsLeastAfter(due: iset<int>, t: int, x: int) {
    x in due && t < x && forall y :: y in due && t < y ==> x <= y
  }

  // x is the least due instant after t.
  ghost predicate IsNext(c: Schedule, z: Zone, t: int, x: int) {
    IsLeastAfter(DueInstants(c, z), t, x)
  }

  // What the search relies on: the same minute of a later hour is not earlier (equal where
  // a clock change skips an hour), and days follow each other.
  ghost predicate HourOrder(z: Zone) {
    forall d: nat, h: nat, k: nat, m: nat :: h <= k < 24 && m < 60 ==> z.place(d, h, m) <= z.place(d, k, m)
  }

  // The clock skips the first hour after day d: its times are placed on the last hour of d.
  ghost predicate FallsBack(z: Zone, d: nat) {
    && (forall l: nat :: l < 60 ==> z.place(d + 1, 0, l) == z.place(d, 23, l))
    && (forall h: nat, m: nat, l: nat :: h < 23 && m < 60 && l < 60 ==> z.place(d, h, m) <= z.place(d, 23, l))
  }

  ghost predicate DayOrder(z: Zone) {
    && (forall d: nat, e: nat, h: nat, m: nat, k: nat, l: nat :: d < e && h < 24 && m < 60 && k < 24 && l < 60 ==>
          z.place(d, h, m) < z.place(e, k, l) || (e == d + 1 && k == 0 && FallsBack(z, d)))
    && (forall t: int, d: nat, h: nat, m: nat :: h < 24 && m < 60 && d < z.dayOf(t) ==> z.place(d, h, m) <= t)
    && (forall t: int, d: nat, h: nat, m: nat :: h < 24 && m < 60 && z.dayOf(t) < d ==>
          t < z.place(d, h, m) || (d == z.dayOf(t) + 1 && h == 0 && FallsBack(z, z.dayOf(t))))
  }

  ghost predicate Ordered(z: Zone) {
    HourOrder(z) && DayOrder(z)
  }

  // No day of a search from t holds a due instant after t.
  ghost predicate NothingBefore(c: Schedule, z: Zone, t: int, end: nat) {
    forall d: nat, x :: z.dayOf(t) <= d < end && DueOn(c, z, d, x) ==> x <= t
  }

  ghost predicate NothingWithin(c: Schedule, z: Zone, t: int) {
    NothingBefore(c, z, t, z.dayOf(t) + HORIZON + 1)
  }

  // The values a field holds, ascending.
  method Values(on: seq<bool>) returns (vs: seq<nat>)
    ensures forall v: nat :: v in vs <==> v < |on| && on[v]
    ensures forall a, b :: 0 <= a < b < |vs| ==> vs[a] < vs[b]
  {
    vs := [];
    for v := 0 to |on|
      invariant forall w: nat :: w in vs <==> w < v && on[w]
      invariant forall a :: 0 <= a < |vs| ==> vs[a] < v
      invariant forall a, b :: 0 <= a < b < |vs| ==> vs[a] < vs[b]
    {
      if on[v] {
        vs := vs + [v];
      }
    }
  }

  // x is one of the instants the hours and minutes name on a day.
  ghost predicate TimeAt(z: Zone, day: nat, hs: seq<nat>, ms: seq<nat>, h: nat, m: nat, x: int) {
    h in hs && m in ms && z.place(day, h, m) == x
  }

  ghost predicate TimeOn(z: Zone, day: nat, hs: seq<nat>, ms: seq<nat>, x: int) {
    exists h, m :: TimeAt(z, day, hs, ms, h, m, x)
  }

  // best is the least of the seen instants after t.
  ghost predicate Least(best: Option<int>, t: int, seen: set<int>) {
    match best
    case None => forall x :: x in seen ==> x <= t
    case Some(b) => b in seen && t < b && forall x :: x in seen && t < x ==> b <= x
  }

  // The instants of one hour.
  ghost function Instants(z: Zone, day: nat, h: nat, ms: seq<nat>): set<int> {
    set m | m in ms :: z.place(day, h, m)
  }

  ghost function AllInstants(z: Zone, day: nat, hs: seq<nat>, ms: seq<nat>): (s: set<int>)
    ensures forall x :: x in s <==> TimeOn(z, day, hs, ms, x)
  {
    var s := set h, m | h in hs && m in ms :: z.place(day, h, m);
    forall x ensures x in s <==> TimeOn(z, day, hs, ms, x) {
      if x in s {
        var h, m :| h in hs && m in ms && z.place(day, h, m) == x;
        assert TimeAt(z, day, hs, ms, h, m, x);
      }
    }
    s
  }

  // The two inner loops of the search: one due day, with the early end of the hour loop
  // on every day but the first.
  method EarliestOn(z: Zone, t: int, day: nat, hours: seq<nat>, minutes: seq<nat>, later: bool)
    returns (best: Option<int>)
    requires forall h :: h in hours ==> h < 24
    requires forall m :: m in minutes ==> m < 60
    requires forall a, b :: 0 <= a < b < |hours| ==> hours[a] < hours[b]
    requires later ==> z.dayOf(t) < day
    ensures best.Some? ==> TimeOn(z, day, hours, minutes, best.value) && t < best.value
    ensures best.None? ==> forall x :: TimeOn(z, day, hours, minutes, x) ==> x <= t
    ensures best.Some? && Ordered(z) ==> forall x :: TimeOn(z, day, hours, minutes, x) && t < x ==> best.value <= x
  {
    best := None;
    var a := 0;
    while a < |hours|
      invariant 0 <= a <= |hours|
      invariant Least(best, t, AllInstants(z, day, hours[..a], minutes))
    {
      best := EarliestIn(z, t, day, hours[a], minutes, best, AllInstants(z, day, hours[..a], minutes));
      OneMoreHour(z, day, hours, a, minutes);
      a := a + 1;
      if best.Some? && later {
        if Ordered(z) {
          LaterHoursAreLater(z, t, day, hours, minutes, a, best.value);
        }
        assert hours[..a] <= hours;
        MoreHours(z, day, hours, a, minutes);
        return;
      }
    }
    assert hours[..a] == hours;
  }

  // One hour of the day: the minute loop.
  method EarliestIn(z: Zone, t: int, day: nat, h: nat, minutes: seq<nat>, before: Option<int>, ghost had: set<int>)
    returns (best: Option<int>)
    requires Least(before, t, had)
    ensures Least(best, t, had + Instants(z, day, h, minutes))
  {
    best := before;
    for b := 0 to |minutes|
      invariant Least(best, t, had + Instants(z, day, h, minutes[..b]))
    {
      var at := z.place(day, h, minutes[b]);
      assert Instants(z, day, h, minutes[..b + 1]) == Instants(z, day, h, minutes[..b]) + {at} by {
        assert minutes[..b + 1] == minutes[..b] + [minutes[b]];
      }
      if t < at && (best.None? || at < best.value) {
        best := Some(at);
      }
    }
    assert minutes[..|minutes|] == minutes;
  }

  lemma OneMoreHour(z: Zone, day: nat, hs: seq<nat>, a: nat, ms: seq<nat>)
    requires a < |hs|
    ensures AllInstants(z, day, hs[..a + 1], ms) == AllInstants(z, day, hs[..a], ms) + Instants(z, day, hs[a], ms)
  {
    assert hs[..a + 1] == hs[..a] + [hs[a]];
    var s, s1, i := AllInstants(z, day, hs[..a], ms), AllInstants(z, day, hs[..a + 1], ms), Instants(z, day, hs[a], ms);
    forall x ensures x in s1 <==> x in s || x in i {
      if x in s1 {
        var h, m :| TimeAt(z, day, hs[..a + 1], ms, h, m, x);
        assert h == hs[a] || TimeAt(z, day, hs[..a], ms, h, m, x);
      }
      if x in s {
        var h, m :| TimeAt(z, day, hs[..a], ms, h, m, x);
        assert TimeAt(z, day, hs[..a + 1], ms, h, m, x);
      }
      if x in i {
        var m :| m in ms && z.place(day, hs[a], m) == x;
        assert TimeAt(z, day, hs[..a + 1], ms, hs[a], m, x);
      }
    }
  }

  lemma MoreHours(z: Zone, day: nat, hs: seq<nat>, a: nat, ms: seq<nat>)
    requires a <= |hs|
    ensures forall x :: TimeOn(z, day, hs[..a], ms, x) ==> TimeOn(z, day, hs, ms, x)
  {
    forall x | TimeOn(z, day, hs[..a], ms, x) ensures TimeOn(z, day, hs, ms, x) {
      var h, m :| TimeAt(z, day, hs[..a], ms, h, m, x);
      assert TimeAt(z, day, hs, ms, h, m, x);
    }
  }

  // Why the hour loop may stop: on a later day the last hour visited holds, minute for minute, instants
  // not later than those of the hours left. They are after t, but for a skipped first hour, and then
  // the hours left are later than all of it.
  lemma LaterHoursAreLater(z: Zone, t: int, day: nat, hours: seq<nat>, minutes: seq<nat>, a: nat, best: int)
    requires Ordered(z) && z.dayOf(t) < day && 0 < a <= |hours|
    requires forall h :: h in hours ==> h < 24
    requires forall m :: m in minutes ==> m < 60
    requires forall i, j :: 0 <= i < j < |hours| ==> hours[i] < hours[j]
    requires Least(Some(best), t, AllInstants(z, day, hours[..a], minutes))
    ensures forall x :: TimeOn(z, day, hours, minutes, x) && t < x ==> best <= x
  {
    forall x | TimeOn(z, day, hours, minutes, x) && t < x
      ensures best <= x
    {
      var k, m :| TimeAt(z, day, hours, minutes, k, m, x);
      var i :| 0 <= i < |hours| && hours[i] == k;
      var h := if i < a then k else hours[a - 1];
      assert h in hours[..a];
      assert TimeAt(z, day, hours[..a], minutes, h, m, z.place(day, h, m));
      assert TimeOn(z, day, hours[..a], minutes, z.place(day, h, m));
      if z.place(day, h, m) <= t {
        SkippedHour(z, t, day, hours, minutes, a, k, m, best);
      }
    }
  }

  // Only the first hour was visited, and it was skipped: any later hour is after it.
  lemma SkippedHour(z: Zone, t: int, day: nat, hours: seq<nat>, minutes: seq<nat>, a: nat, k: nat, m: nat, best: int)
    requires Ordered(z) && z.dayOf(t) < day && 0 < a <= |hours| && hours[a - 1] <= k < 24 && m < 60
    requires forall v :: v in minutes ==> v < 60
    requires forall i, j :: 0 <= i < j < |hours| ==> hours[i] < hours[j]
    requires z.place(day, hours[a - 1], m) <= t < z.place(day, k, m)
    requires TimeOn(z, day, hours[..a], minutes, best)
    ensures best <= z.place(day, k, m)
  {
    var d := z.dayOf(t);
    assert day == d + 1 && hours[a - 1] == 0 && a == 1 && FallsBack(z, d);
    var h, v :| TimeAt(z, day, hours[..a], minutes, h, v, best);
    assert h == 0 && best == z.place(d, 23, v);
    assert z.place(d, 23, v) < z.place(d + 1, k, m);
  }

  lemma DueTimes(c: Schedule, z: Zone, day: nat, hours: seq<nat>, minutes: seq<nat>)
    requires forall v: nat :: v in hours <==> v < 24 && c.hours[v]
    requires forall v: nat :: v in minutes <==> v < 60 && c.minutes[v]
    requires DayDue(c, day)
    ensures forall x :: TimeOn(z, day, hours, minutes, x) <==> DueOn(c, z, day, x)
  {
    forall x ensures TimeOn(z, day, hours, minutes, x) <==> DueOn(c, z, day, x) {
      if TimeOn(z, day, hours, minutes, x) {
        var h, m :| TimeAt(z, day, hours, minutes, h, m, x);
        assert DueAt(c, z, day, h, m, x);
      }
      if DueOn(c, z, day, x) {
        var h, m :| DueAt(c, z, day, h, m, x);
        assert TimeAt(z, day, hours, minutes, h, m, x);
      }
    }
  }

  // ---- Which days are due ----

  // x is the instant of an admitted hour and minute of day d, whatever the day.
  ghost predicate TimeOf(c: Schedule, z: Zone, d: nat, x: int) {
    exists h: nat, m: nat :: h < 24 && m < 60 && c.hours[h] && c.minutes[m] && z.place(d, h, m) == x
  }

  predicate MonthOn(c: Schedule, d: nat) {
    c.months[DateOf(d).month]
  }

  predicate DayOn(c: Schedule, d: nat) {
    c.days[DateOf(d).day]
  }

  predicate WeekdayOn(c: Schedule, d: nat) {
    c.weekdays[Weekday(d)]
  }

  // The day matches a restricted day field, when there is one, and its month is admitted.
  ghost predicate Matches(c: Schedule, d: nat) {
    && MonthOn(c, d)
    && ((c.anyDom && c.anyDow) || (!c.anyDom && DayOn(c, d)) || (!c.anyDow && WeekdayOn(c, d)))
  }

  // An admitted time of a day that matches either field.
  ghost predicate Admitted(c: Schedule, z: Zone, d: nat, x: int) {
    Matches(c, d) && TimeOf(c, z, d, x)
  }

  lemma DueIsAdmitted(c: Schedule, z: Zone, d: nat, x: int)
    ensures DueOn(c, z, d, x) <==> Admitted(c, z, d, x)
  {
    if DueOn(c, z, d, x) {
      var h, m :| DueAt(c, z, d, h, m, x);
      assert TimeOf(c, z, d, x);
    }
    if Admitted(c, z, d, x) {
      var h: nat, m: nat :| h < 24 && m < 60 && c.hours[h] && c.minutes[m] && z.place(d, h, m) == x;
      assert DueAt(c, z, d, h, m, x);
    }
  }

  ghost predicate DueByMonth(c: Schedule, z: Zone, x: int) {
    exists d: nat :: TimeOf(c, z, d, x) && MonthOn(c, d)
  }

  ghost predicate DueByDay(c: Schedule, z: Zone, x: int) {
    exists d: nat :: TimeOf(c, z, d, x) && MonthOn(c, d) && DayOn(c, d)
  }

  ghost predicate DueByWeekday(c: Schedule, z: Zone, x: int) {
    exists d: nat :: TimeOf(c, z, d, x) && MonthOn(c, d) && WeekdayOn(c, d)
  }

  /** With no day field restricted, an instant of an admitted hour and minute is due exactly when its day's
      month is admitted; with one, exactly when that field admits its day too. */
  lemma OneFieldDecides(c: Schedule, z: Zone, x: int)
    ensures c.anyDom && c.anyDow ==> (Due(c, z, x) <==> DueByMonth(c, z, x))
    ensures !c.anyDom && c.anyDow ==> (Due(c, z, x) <==> DueByDay(c, z, x))
    ensures c.anyDom && !c.anyDow ==> (Due(c, z, x) <==> DueByWeekday(c, z, x))
  {
    DueWhenAdmitted(c, z, x);
    if AdmittedTime(c, z, x) {
      var d: nat :| Admitted(c, z, d, x);
      assert TimeOf(c, z, d, x) && MonthOn(c, d);
    }
    if c.anyDom && c.anyDow && DueByMonth(c, z, x) {
      var d: nat :| TimeOf(c, z, d, x) && MonthOn(c, d);
      assert Admitted(c, z, d, x);
    }
    if !c.anyDom && c.anyDow && DueByDay(c, z, x) {
      var d: nat :| TimeOf(c, z, d, x) && MonthOn(c, d) && DayOn(c, d);
      assert Admitted(c, z, d, x);
    }
    if c.anyDom && !c.anyDow && DueByWeekday(c, z, x) {
      var d: nat :| TimeOf(c, z, d, x) && MonthOn(c, d) && WeekdayOn(c, d);
      assert Admitted(c, z, d, x);
    }
  }

  ghost predicate AdmittedTime(c: Schedule, z: Zone, x: int) {
    exists d: nat :: Admitted(c, z, d, x)
  }

  /** With both restricted, a day is due that either field alone would make due. */
  lemma EitherFieldMakesADayDue(c: Schedule, z: Zone)
    requires !c.anyDom && !c.anyDow
    ensures DueInstants(c, z) == DueInstants(c.(anyDow := true), z) + DueInstants(c.(anyDom := true), z)
  {
    forall x
      ensures Due(c, z, x) <==> Due(c.(anyDow := true), z, x) || Due(c.(anyDom := true), z, x)
    {
      DueWhenAdmitted(c, z, x);
      DueWhenAdmitted(c.(anyDow := true), z, x);
      DueWhenAdmitted(c.(anyDom := true), z, x);
      EitherField(c, z, x);
    }
  }

  lemma DueWhenAdmitted(c: Schedule, z: Zone, x: int)
    ensures Due(c, z, x) <==> AdmittedTime(c, z, x)
  {
    if d: nat :| DueOn(c, z, d, x) {
      DueIsAdmitted(c, z, d, x);
    }
    if d: nat :| Admitted(c, z, d, x) {
      DueIsAdmitted(c, z, d, x);
    }
  }

  lemma EitherField(c: Schedule, z: Zone, x: int)
    requires !c.anyDom && !c.anyDow
    ensures forall d: nat :: Admitted(c, z, d, x) <==>
              Admitted(c.(anyDow := true), z, d, x) || Admitted(c.(anyDom := true), z, d, x)
  {
    assert forall d: nat :: TimeOf(c, z, d, x) <==> TimeOf(c.(anyDow := true), z, d, x);
    assert forall d: nat :: TimeOf(c, z, d, x) <==> TimeOf(c.(anyDom := true), z, d, x);
  }

  // x is the least admitted time after t.
  ghost predicate IsLeastAdmitted(c: Schedule, z: Zone, t: int, x: int) {
    t < x && AdmittedTime(c, z, x) && forall y :: AdmittedTime(c, z, y) && t < y ==> x <= y
  }

  ghost predicate NoneAdmittedWithin(c: Schedule, z: Zone, t: int) {
    forall d: nat, x :: z.dayOf(t) <= d <= z.dayOf(t) + HORIZON && Admitted(c, z, d, x) ==> x <= t
  }

  lemma NextIsLeastAdmitted(c: Schedule, z: Zone, t: int, x: int)
    requires IsNext(c, z, t, x)
    ensures IsLeastAdmitted(c, z, t, x)
  {
    DueWhenAdmitted(c, z, x);
    forall y | AdmittedTime(c, z, y) && t < y
      ensures x <= y
    {
      DueWhenAdmitted(c, z, y);
      assert y in DueInstants(c, z);
    }
  }

  lemma NothingAdmitted(c: Schedule, z: Zone, t: int)
    ensures NothingWithin(c, z, t) <==> NoneAdmittedWithin(c, z, t)
  {
    forall d: nat, x
      ensures DueOn(c, z, d, x) <==> Admitted(c, z, d, x)
    {
      DueIsAdmitted(c, z, d, x);
    }
  }

  /** The earliest due instant after t; None when the horizon holds none. No admitted time after t, of a day
      that matches either day field, is earlier. */
  method Next(c: Schedule, z: Zone, t: int) returns (r: Option<int>)
    ensures r.Some? ==> Due(c, z, r.value) && t < r.value
    ensures r.Some? && Ordered(z) ==> IsNext(c, z, t, r.value) && IsLeastAdmitted(c, z, t, r.value)
    ensures r.None? <==> NothingWithin(c, z, t)
    ensures r.None? <==> NoneAdmittedWithin(c, z, t)
  {
    var hours := Values(c.hours);
    var minutes := Values(c.minutes);
    for i := 0 to HORIZON + 1
      invariant NothingBefore(c, z, t, z.dayOf(t) + i)
    {
      var best := EarliestDueOn(c, z, t, z.dayOf(t) + i, hours, minutes, i > 0);
      if best.Some? {
        FoundOn(c, z, t, z.dayOf(t) + i, best.value);
        return best;
      }
      NothingOn(c, z, t, z.dayOf(t) + i);
    }
    NothingAdmitted(c, z, t);
    return None;
  }

  // best is the least due instant of the day after t, as far as the zone's order tells.
  ghost predicate LeastDueOn(c: Schedule, z: Zone, t: int, day: nat, best: Option<int>) {
    match best
    case None => forall x :: DueOn(c, z, day, x) ==> x <= t
    case Some(b) =>
      && DueOn(c, z, day, b) && t < b
      && (Ordered(z) ==> forall x :: DueOn(c, z, day, x) && t < x ==> b <= x)
  }

  method EarliestDueOn(c: Schedule, z: Zone, t: int, day: nat, hours: seq<nat>, minutes: seq<nat>, later: bool)
    returns (best: Option<int>)
    requires forall v: nat :: v in hours <==> v < 24 && c.hours[v]
    requires forall v: nat :: v in minutes <==> v < 60 && c.minutes[v]
    requires forall a, b :: 0 <= a < b < |hours| ==> hours[a] < hours[b]
    requires later ==> z.dayOf(t) < day
    ensures LeastDueOn(c, z, t, day, best)
  {
    if !DayDue(c, day) {
      return None;
    }
    DueTimes(c, z, day, hours, minutes);
    best := EarliestOn(z, t, day, hours, minutes, later);
  }

  lemma NothingOn(c: Schedule, z: Zone, t: int, day: nat)
    requires NothingBefore(c, z, t, day) && LeastDueOn(c, z, t, day, None)
    ensures NothingBefore(c, z, t, day + 1)
  {
  }

  lemma FoundOn(c: Schedule, z: Zone, t: int, day: nat, best: int)
    requires z.dayOf(t) <= day <= z.dayOf(t) + HORIZON && NothingBefore(c, z, t, day)
    requires LeastDueOn(c, z, t, day, Some(best))
    ensures Due(c, z, best) && t < best && !NothingWithin(c, z, t) && !NoneAdmittedWithin(c, z, t)
    ensures Ordered(z) ==> IsNext(c, z, t, best) && IsLeastAdmitted(c, z, t, best)
  {
    NothingAdmitted(c, z, t);
    if Ordered(z) {
      EarlierDaysAreOver(c, z, t, day, best);
      NextIsLeastAdmitted(c, z, t, best);
    }
  }

  // Instants of days before the one found are not after t; those of later days are later, or fall on the
  // last hour of the day found.
  lemma EarlierDaysAreOver(c: Schedule, z: Zone, t: int, day: nat, best: int)
    requires Ordered(z) && z.dayOf(t) <= day && NothingBefore(c, z, t, day)
    requires DueOn(c, z, day, best) && t < best
    requires forall x :: DueOn(c, z, day, x) && t < x ==> best <= x
    ensures IsNext(c, z, t, best)
  {
    forall y | Due(c, z, y) && t < y
      ensures best <= y
    {
      var d: nat :| DueOn(c, z, d, y);
      var k, l :| DueAt(c, z, d, k, l, y);
      var h, m :| DueAt(c, z, day, h, m, best);
      assert z.place(d, k, l) == y && z.place(day, h, m) == best;
      if day < d && y <= best {
        assert d == day + 1 && k == 0 && FallsBack(z, day) && y == z.place(day, 23, l);
        if h == 23 {
          assert DueAt(c, z, day, 23, l, y) && DueOn(c, z, day, y);
        }
      }
    }
  }

  lemma {:induction false} LeastAfterEnumerates(due: iset<int>, t: int, xs: seq<int>)
    requires |xs| > 0 && IsLeastAfter(due, t, xs[0])
    requires forall i :: 0 <= i < |xs| - 1 ==> IsLeastAfter(due, xs[i], xs[i + 1])
    ensures forall i, j :: 0 <= i < j < |xs| ==> xs[i] < xs[j]
    ensures forall x :: x in xs <==> x in due && t < x <= xs[|xs| - 1]
  {
    var last := |xs| - 1;
    if last > 0 {
      var init := xs[..last];
      LeastAfterEnumerates(due, t, init);
      assert IsLeastAfter(due, xs[last - 1], xs[last]);
      assert xs == init + [xs[last]];
    }
  }

  /** Running the search from its own results visits every due instant once, in order. */
  lemma VisitsEveryDueInstant(c: Schedule, z: Zone, t: int, xs: seq<int>)
    requires |xs| > 0 && IsNext(c, z, t, xs[0])
    requires forall i :: 0 <= i < |xs| - 1 ==> IsNext(c, z, xs[i], xs[i + 1])
    ensures forall i, j :: 0 <= i < j < |xs| ==> xs[i] < xs[j]
    ensures forall x :: x in xs <==> Due(c, z, x) && t < x <= xs[|xs| - 1]
  {
    LeastAfterEnumerates(DueInstants(c, z), t, xs);
  }

  const MINUTE := 60_000_000_000
  const DAY := 1440 * MINUTE

  // A zone whose clock never changes.
  function FixedZone(offset: int): Zone {
    Zone(t => if t + offset < 0 then 0 else (t + offset) / DAY,
         (d, h, m) => d * DAY + (h * 60 + m) * MINUTE - offset)
  }

  const HOUR := 60 * MINUTE

  // The wall-clock time as one number.
  function Clock(d: nat, h: nat, m: nat): int {
    d * DAY + (h * 60 + m) * MINUTE
  }

  // A zone whose clock changes once, by shift; a time the change skips is placed as after it.
  function ChangingZone(offset: int, change: int, shift: int): Zone {
    Zone(t => var l := t + offset + (if t < change then 0 else shift); if l < 0 then 0 else l / DAY,
         (d: nat, h: nat, m: nat) => Clock(d, h, m) - offset - (if Clock(d, h, m) < change + offset then 0 else shift))
  }

  lemma ClockOrder(d: nat, h: nat, m: nat, e: nat, k: nat, l: nat)
    requires h < 24 && m < 60 && k < 24 && l < 60 && (d < e || (d == e && h < k))
    ensures Clock(d, h, m) < Clock(e, k, l)
    ensures Clock(e, k, l) < Clock(d, h, m) + HOUR && d < e ==> e == d + 1 && h == 23 && k == 0
  {
    assert d < e ==> d * DAY + DAY <= e * DAY;
    assert d + 1 < e ==> d * DAY + 2 * DAY <= e * DAY;
  }

  // The change comes between two times less than an hour apart on two days: at midnight, then.
  lemma ChangeAtMidnight(d: nat, m: nat, l: nat, at: int)
    requires m < 60 && l < 60 && at % HOUR == 0 && Clock(d, 23, m) < at <= Clock(d + 1, 0, l)
    ensures at == Clock(d + 1, 0, 0) == Clock(d, 23, 0) + HOUR
  {
    var hours := d * 24 + 23;
    assert Clock(d, 23, 0) == hours * HOUR;
    assert at == at / HOUR * HOUR;
    assert at / HOUR == hours + 1;
  }

  lemma SkippedMidnightFallsBack(offset: int, change: int, d: nat)
    requires change + offset == Clock(d + 1, 0, 0)
    ensures FallsBack(ChangingZone(offset, change, HOUR), d)
  {
    var z := ChangingZone(offset, change, HOUR);
    forall h: nat, m: nat, l: nat | h < 23 && m < 60 && l < 60
      ensures z.place(d, h, m) <= z.place(d, 23, l)
    {
      ClockOrder(d, h, m, d, 23, l);
      ClockOrder(d, 23, l, d + 1, 0, 0);
    }
    forall l: nat | l < 60
      ensures z.place(d + 1, 0, l) == z.place(d, 23, l)
    {
      ClockOrder(d, 23, l, d + 1, 0, 0);
      assert Clock(d + 1, 0, l) == Clock(d, 23, l) + HOUR;
    }
  }

  lemma DaysFollow(offset: int, change: int, shift: int, d: nat, h: nat, m: nat, e: nat, k: nat, l: nat)
    requires shift == 0 || ((shift == HOUR || shift == -HOUR) && (change + offset) % HOUR == 0)
    requires d < e && h < 24 && m < 60 && k < 24 && l < 60
    ensures var z := ChangingZone(offset, change, shift);
            z.place(d, h, m) < z.place(e, k, l) || (e == d + 1 && k == 0 && FallsBack(z, d))
  {
    var z := ChangingZone(offset, change, shift);
    ClockOrder(d, h, m, e, k, l);
    if z.place(e, k, l) <= z.place(d, h, m) {
      if Clock(e, k, l) < Clock(d, h, m) + HOUR {
        ChangeAtMidnight(d, m, l, change + offset);
      } else {
        // A whole hour apart: the change puts the two on one instant, at the same minute.
        HourApart(d, h, m, e, k, l, change + offset);
      }
      SkippedMidnightFallsBack(offset, change, d);
    }
  }

  lemma HourApart(d: nat, h: nat, m: nat, e: nat, k: nat, l: nat, at: int)
    requires d < e && h < 24 && m < 60 && k < 24 && l < 60 && at % HOUR == 0
    requires Clock(e, k, l) == Clock(d, h, m) + HOUR && Clock(d, h, m) < at <= Clock(e, k, l)
    ensures e == d + 1 && k == 0 && at == Clock(d + 1, 0, 0)
  {
    assert d + 1 < e ==> (d + 2) * DAY <= e * DAY;
    assert e == d + 1;
    assert k * 60 + l + 1380 == h * 60 + m;
    ChangeAtMidnight(d, m, l, at);
  }

  lemma HoursFollow(offset: int, change: int, shift: int, d: nat, h: nat, k: nat, m: nat)
    requires shift <= HOUR && h <= k < 24 && m < 60
    ensures ChangingZone(offset, change, shift).place(d, h, m) <= ChangingZone(offset, change, shift).place(d, k, m)
  {
    assert Clock(d, k, m) == Clock(d, h, m) + (k - h) * HOUR;
  }

  lemma DaysBefore(offset: int, change: int, shift: int, t: int, d: nat, h: nat, m: nat)
    requires h < 24 && m < 60 && d < ChangingZone(offset, change, shift).dayOf(t)
    ensures ChangingZone(offset, change, shift).place(d, h, m) <= t
  {
    var l := t + offset + (if t < change then 0 else shift);
    assert Clock(d, h, m) < (d + 1) * DAY <= l / DAY * DAY <= l;
  }

  lemma DaysAfter(offset: int, change: int, shift: int, t: int, d: nat, h: nat, m: nat)
    requires shift == 0 || ((shift == HOUR || shift == -HOUR) && (change + offset) % HOUR == 0)
    requires h < 24 && m < 60 && ChangingZone(offset, change, shift).dayOf(t) < d
    ensures var z := ChangingZone(offset, change, shift);
            t < z.place(d, h, m) || (d == z.dayOf(t) + 1 && h == 0 && FallsBack(z, z.dayOf(t)))
  {
    var z := ChangingZone(offset, change, shift);
    var l := t + offset + (if t < change then 0 else shift);
    var wall, at := Clock(d, h, m), change + offset;
    assert l < (z.dayOf(t) + 1) * DAY <= d * DAY <= wall;
    assert d * DAY == d * 24 * HOUR;
    if z.place(d, h, m) <= t {
      if t < change {
        assert l < at <= wall <= l + HOUR;
        Aligned(at, d * 24);
        assert at == d * DAY && d * DAY - HOUR <= l;
        LastHourOf(l, d);
        SkippedMidnightFallsBack(offset, change, d - 1);
      } else {
        Aligned(at, d * 24);
        assert false;
      }
    }
  }

  // A whole hour close to another is that one.
  lemma Aligned(at: int, hours: int)
    requires at % HOUR == 0
    ensures hours * HOUR - HOUR < at < hours * HOUR + HOUR ==> at == hours * HOUR
  {
    assert at == at / HOUR * HOUR;
  }

  lemma LastHourOf(l: int, d: nat)
    requires d > 0 && d * DAY - HOUR <= l < d * DAY
    ensures l >= 0 && l / DAY == d - 1
  {
    assert (d - 1) * DAY <= l < (d - 1) * DAY + DAY;
  }

  /** A clock that goes an hour forward or back once, at a full hour of any day, midnight too, keeps the
      order the search relies on. */
  lemma ChangingZoneIsOrdered(offset: int, change: int, shift: int)
    requires shift == 0 || ((shift == HOUR || shift == -HOUR) && (change + offset) % HOUR == 0)
    ensures Ordered(ChangingZone(offset, change, shift))
  {
    var z := ChangingZone(offset, change, shift);
    forall d: nat, h: nat, k: nat, m: nat | h <= k < 24 && m < 60
      ensures z.place(d, h, m) <= z.place(d, k, m)
    {
      HoursFollow(offset, change, shift, d, h, k, m);
    }
    forall d: nat, e: nat, h: nat, m: nat, k: nat, l: nat | d < e && h < 24 && m < 60 && k < 24 && l < 60
      ensures z.place(d, h, m) < z.place(e, k, l) || (e == d + 1 && k == 0 && FallsBack(z, d))
    {
      DaysFollow(offset, change, shift, d, h, m, e, k, l);
    }
    forall t: int, d: nat, h: nat, m: nat | h < 24 && m < 60 && d < z.dayOf(t)
      ensures z.place(d, h, m) <= t
    {
      DaysBefore(offset, change, shift, t, d, h, m);
    }
    forall t: int, d: nat, h: nat, m: nat | h < 24 && m < 60 && z.dayOf(t) < d
      ensures t < z.place(d, h, m) || (d == z.dayOf(t) + 1 && h == 0 && FallsBack(z, z.dayOf(t)))
    {
      DaysAfter(offset, change, shift, t, d, h, m);
    }
  }

  lemma FixedZoneIsOrdered(offset: int)
    ensures Ordered(FixedZone(offset))
  {
    var z := FixedZone(offset);
    forall d: nat, e: nat, h: nat, m: nat, k: nat, l: nat | d < e && h < 24 && m < 60 && k < 24 && l < 60
      ensures z.place(d, h, m) < z.place(e, k, l)
    {
      assert (h * 60 + m) * MINUTE < DAY && d * DAY + DAY <= e * DAY;
    }
    forall t: int, d: nat, h: nat, m: nat | h < 24 && m < 60 && d < z.dayOf(t)
      ensures z.place(d, h, m) <= t
    {
      assert (h * 60 + m) * MINUTE < DAY && (d + 1) * DAY <= z.dayOf(t) * DAY <= t + offset;
    }
    forall t: int, d: nat, h: nat, m: nat | h < 24 && m < 60 && z.dayOf(t) < d
      ensures t < z.place(d, h, m)
    {
      assert t + offset < (z.dayOf(t) + 1) * DAY <= d * DAY;
    }
  }

  // What a parsed expression always has: a value in every field.
  ghost predicate Filled(c: Schedule) {
    && (exists h :: 0 <= h < 24 && c.hours[h])
    && (exists m :: 0 <= m < 60 && c.minutes[m])
    && (exists w :: 0 <= w < 7 && c.weekdays[w])
  }

  predicate LeapDay(n: nat) {
    DateOf(n).month == 2 && DateOf(n).day == 29
  }

  // 29 February is the only date the day and month fields admit.
  predicate LeapDayOnly(c: Schedule) {
    && !c.anyDom && c.anyDow && c.months[2] && c.days[29]
    && forall m, d :: 1 <= m <= 12 && 1 <= d <= MonthLength(true, m) && c.months[m] && c.days[d] ==> m == 2 && d == 29
  }

  lemma DueDayReturns(c: Schedule, e: nat, n: nat) returns (k: nat)
    requires Filled(c) && DayDue(c, e) && !LeapDayOnly(c)
    ensures n <= k <= n + 372 && DayDue(c, k)
  {
    var m := DateOf(e).month;
    if c.anyDow && !c.anyDom {
      if c.days[29] && c.months[2] {
        var m', d' :| 1 <= m' <= 12 && 1 <= d' <= MonthLength(true, m') && c.months[m'] && c.days[d']
            && !(m' == 2 && d' == 29);
        k := DateReturns(n, m', d');
      } else {
        k := DateReturns(n, m, DateOf(e).day);
      }
    } else {
      var w :| 0 <= w < 7 && c.weekdays[w];
      k := WeekdayReturns(n, m, if c.anyDom && c.anyDow then 0 else w);
    }
  }

  lemma LaterDueDayIsFound(c: Schedule, z: Zone, t: int, d: nat)
    requires Filled(c) && DayOrder(z)
    requires z.dayOf(t) + 1 < d <= z.dayOf(t) + HORIZON && DayDue(c, d)
    ensures !NothingWithin(c, z, t)
  {
    var h :| 0 <= h < 24 && c.hours[h];
    var m :| 0 <= m < 60 && c.minutes[m];
    assert DueAt(c, z, d, h, m, z.place(d, h, m));
    assert DueOn(c, z, d, z.place(d, h, m));
  }

  /** The search answers "never" exactly for an expression no date ever meets, unless its
      only date is 29 February. */
  lemma NeverMeansNeverDue(c: Schedule, z: Zone, t: int)
    requires Filled(c) && DayOrder(z) && !LeapDayOnly(c)
    ensures NothingWithin(c, z, t) <==> forall n: nat :: !DayDue(c, n)
  {
    if e: nat :| DayDue(c, e) {
      var k := DueDayReturns(c, e, z.dayOf(t) + 2);
      LaterDueDayIsFound(c, z, t, k);
    }
  }

  lemma LeapDayOnlyDays(c: Schedule, n: nat)
    requires LeapDayOnly(c)
    ensures DayDue(c, n) <==> LeapDay(n)
  {
  }

  // The day is no leap day, or all its times have passed.
  ghost predicate OverOn(c: Schedule, z: Zone, t: int, d: nat) {
    LeapDay(d) ==> forall x :: DueOn(c, z, d, x) ==> x <= t
  }

  /** When 29 February is the only date, it answers "never" exactly when no leap day with a time left
      lies in the horizon, though one lies beyond. Tomorrow's times can have passed where the clock
      skips midnight and the schedule has no later hour. */
  lemma NeverForTheLeapDay(c: Schedule, z: Zone, t: int)
    requires Filled(c) && DayOrder(z) && LeapDayOnly(c)
    ensures NothingWithin(c, z, t) <==>
            && (forall d: nat :: z.dayOf(t) + 1 < d <= z.dayOf(t) + HORIZON ==> !LeapDay(d))
            && OverOn(c, z, t, z.dayOf(t)) && OverOn(c, z, t, z.dayOf(t) + 1)
  {
    forall d: nat | z.dayOf(t) + 1 < d <= z.dayOf(t) + HORIZON && LeapDay(d) && NothingWithin(c, z, t)
      ensures false
    {
      LeapDayOnlyDays(c, d);
      LaterDueDayIsFound(c, z, t, d);
    }
    forall d: nat, x | z.dayOf(t) <= d <= z.dayOf(t) + HORIZON && DueOn(c, z, d, x)
      ensures LeapDay(d)
    {
      LeapDayOnlyDays(c, d);
    }
  }

  // "0 0 29 2 *"
  function LeapDayMidnight(): Schedule {
    Fields(seq(60, i => i == 0), seq(24, i => i == 0), seq(32, i => i == 29), seq(13, i => i == 2),
           seq(8, i => true), false, true)
  }

  lemma LeapDayMidnightIsLeapDayOnly()
    ensures Filled(LeapDayMidnight()) && LeapDayOnly(LeapDayMidnight())
  {
    var c := LeapDayMidnight();
    assert c.hours[0] && c.minutes[0] && c.weekdays[0];
  }

  lemma MidnightIsOnItsDay(day: nat)
    ensures FixedZone(0).dayOf(day * DAY) == day
  {
    assert day * DAY / DAY == day;
  }

  /** "0 0 29 2 *" searched from 1 March of a year before a century that skips its leap day
      (2096, say): nothing within the horizon, and the search says never, although 29 February
      eight years on is due. */
  lemma LeapDayBeyondTheHorizon(y: nat, from: nat, t: int)
    requires y >= 1 && Leap(y) && !Leap(y + 4) && Leap(y + 8)
    requires from == DayNumber(Date(y, 3, 1)) && t == from * DAY
    ensures NothingWithin(LeapDayMidnight(), FixedZone(0), t)
    ensures DayDue(LeapDayMidnight(), DayNumber(Date(y + 8, 2, 29)))
  {
    var c, z := LeapDayMidnight(), FixedZone(0);
    LeapDayMidnightIsLeapDayOnly();
    DateOfDayNumber(Date(y + 8, 2, 29));
    LeapDayOnlyDays(c, DayNumber(Date(y + 8, 2, 29)));
    FixedZoneIsOrdered(0);
    MidnightIsOnItsDay(from);
    forall d: nat | from <= d <= from + HORIZON
      ensures !LeapDay(d)
    {
      NoLeapDayForFiveYears(y, d);
    }
    NeverForTheLeapDay(c, z, t);
  }

  lemma NoLeapDayForFiveYears(y: nat, d: nat)
    requires y >= 1 && Leap(y) && !Leap(y + 4)
    requires DayNumber(Date(y, 3, 1)) <= d <= DayNumber(Date(y, 3, 1)) + HORIZON
    ensures !LeapDay(d)
  {
    FiveYears(y);
    if LeapDay(d) {
      LeapDayOutside(y, DateOf(d));
    }
  }

  lemma LeapDayOutside(y: nat, e: Date)
    requires y >= 1 && ValidDate(e) && e.month == 2 && e.day == 29 && Leap(y)
    requires !Leap(y + 1) && !Leap(y + 2) && !Leap(y + 3) && !Leap(y + 4) && !Leap(y + 5)
    requires YearStart(y + 6) == YearStart(y) + 2191
    ensures DayNumber(e) < YearStart(y) + 60 || YearStart(y) + 2191 <= DayNumber(e)
  {
    assert Leap(e.year);
    if e.year < y {
      YearStartsGrow(e.year, y);
    } else if y + 6 < e.year {
      YearStartsGrow(y + 6, e.year);
    }
  }

  lemma FiveYears(y: nat)
    requires y >= 1 && Leap(y) && !Leap(y + 4)
    ensures !Leap(y + 1) && !Leap(y + 2) && !Leap(y + 3) && !Leap(y + 4) && !Leap(y + 5)
    ensures YearStart(y + 6) == YearStart(y) + 366 + 5 * 365
  {
    assert y % 4 == 0;
    assert YearStart(y + 1) == YearStart(y) + 366;
    assert YearStart(y + 2) == YearStart(y) + 731;
    assert YearStart(y + 3) == YearStart(y) + 1096;
    assert YearStart(y + 4) == YearStart(y) + 1461;
    assert YearStart(y + 5) == YearStart(y) + 1826;
  }
}
