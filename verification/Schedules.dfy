/**
 Subscriber schedules: local HH:MM windows on local weekdays, converted to UTC
 for storage and back to local time for display.
 */
module Schedules {
  import opened Text
  import opened Arithmetic
  import opened Calendar
  import opened FirewallRules
  import opened Json

  // ---------------------------------------------------------------- HH:MM

  function MinuteToTimeString(minuteOfDay: int): Option<string> {
    if minuteOfDay < 0 || minuteOfDay > 1439 then None
    else Some(Pad(minuteOfDay / 60, 2) + ":" + Pad(minuteOfDay % 60, 2))
  }

  function ParseTimeString(value: Value): Option<int> {
    if !value.Str? then None
    else
      var t := value.s;
      if |t| != 5 || t[2] != ':' || !IsDigit(t[0]) || !IsDigit(t[1]) || !IsDigit(t[3]) || !IsDigit(t[4]) then None
      else
        var hour := (t[0] as int - '0' as int) * 10 + (t[1] as int - '0' as int);
        var minute := (t[3] as int - '0' as int) * 10 + (t[4] as int - '0' as int);
        if hour > 23 || minute > 59 then None else Some(hour * 60 + minute)
  }

  /** The text of a minute of the day is its hour and minute, two digits each. */
  lemma TimeStringSpelledOut(h: nat, x: nat)
    requires h < 24 && x < 60
    ensures MinuteToTimeString(60 * h + x)
            == Some([DigitChar(h / 10), DigitChar(h % 10), ':', DigitChar(x / 10), DigitChar(x % 10)])
  {
    DivModUnique(60 * h + x, 60, h, x);
    TwoDigitText(h);
    TwoDigitText(x);
    assert Pad(h, 2) + ":" + Pad(x, 2)
           == [DigitChar(h / 10), DigitChar(h % 10), ':', DigitChar(x / 10), DigitChar(x % 10)];
  }

  /** "HH:MM" texts and minutes of the day are in bijection. */
  lemma TimeStringRoundTrip(m: int, t: string)
    ensures 0 <= m < 1440 ==>
              MinuteToTimeString(m).Some? && ParseTimeString(Str(MinuteToTimeString(m).value)) == Some(m)
    ensures ParseTimeString(Str(t)) == Some(m) ==> 0 <= m < 1440 && MinuteToTimeString(m) == Some(t)
  {
    if 0 <= m < 1440 { FormatThenParse(m); }
    if ParseTimeString(Str(t)) == Some(m) { ParseThenFormat(m, t); }
  }

  lemma FormatThenParse(m: int)
    requires 0 <= m < 1440
    ensures ParseTimeString(Str(MinuteToTimeString(m).value)) == Some(m)
  {
    var h, x := m / 60, m % 60;
    TwoDigitText(h);
    TwoDigitText(x);
    var s := MinuteToTimeString(m).value;
    assert s == [DigitChar(h / 10), DigitChar(h % 10), ':', DigitChar(x / 10), DigitChar(x % 10)];
  }

  lemma ParseThenFormat(m: int, t: string)
    requires ParseTimeString(Str(t)) == Some(m)
    ensures 0 <= m < 1440 && MinuteToTimeString(m) == Some(t)
  {
    var a, b := t[0] as int - '0' as int, t[1] as int - '0' as int;
    var c, d := t[3] as int - '0' as int, t[4] as int - '0' as int;
    var h, x := a * 10 + b, c * 10 + d;
    assert m / 60 == h && m % 60 == x;
    PadTwo(h, a, b);
    PadTwo(x, c, d);
    assert t[0] == DigitChar(a) && t[1] == DigitChar(b) && t[3] == DigitChar(c) && t[4] == DigitChar(d);
    assert t == Pad(h, 2) + ":" + Pad(x, 2);
  }

  // ---------------------------------------------------------------- weekdays

  /** C++ remainder: the sign follows the dividend. */
  function CRem(a: int, b: int): int
    requires b > 0
  {
    if a >= 0 then a % b else -((-a) % b)
  }

  function ShiftDay(day: int, shift: int): int {
    CRem(CRem(day + shift, 7) + 7, 7)
  }

  lemma ShiftDayIsModular(day: int, shift: int)
    ensures ShiftDay(day, shift) == MoveDay(day, shift)
  {
    var x := day + shift;
    if x < 0 {
      var q, r := (-x) / 7, (-x) % 7;
      if r == 0 { DivModUnique(x, 7, -q, 0); } else { DivModUnique(x, 7, -q - 1, 7 - r); }
    }
  }

  lemma MoveTwice(day: int, a: int, b: int)
    ensures MoveDay(MoveDay(day, a), b) == MoveDay(day, a + b)
  {
    var x, y := day + a, day + a + b;
    DivModUnique(x % 7 + b, 7, y / 7 - x / 7, y % 7);
  }

  lemma MoveBack(day: int, shift: int)
    requires 0 <= day <= 6
    ensures MoveDay(MoveDay(day, shift), -shift) == day
  {
    MoveTwice(day, shift, -shift);
  }

  predicate AllInts(days: seq<Value>) {
    forall i :: 0 <= i < |days| ==> AsInt(days[i]).Some?
  }

  /** The weekdays a JSON array lists. */
  function DaySet(days: seq<Value>): set<int>
    requires AllInts(days)
  {
    set i | 0 <= i < |days| :: AsInt(days[i]).value
  }

  function MoveDay(day: int, shift: int): int {
    (day + shift) % 7
  }

  function ShiftSet(days: set<int>, shift: int): set<int> {
    set d | d in days :: MoveDay(d, shift)
  }

  /** The members of `days` in 0..n-1, ascending, as JSON numbers. */
  function Ascending(days: set<int>, n: nat): seq<Value> {
    if n == 0 then []
    else Ascending(days, n - 1) + (if n - 1 in days then [Int(n - 1)] else [])
  }

  function ShiftedWeekdays(weekdays: seq<Value>, shift: int): Option<seq<Value>> {
    if |weekdays| == 0 || shift == 0 then Some(weekdays)
    else if AllInts(weekdays) then Some(Ascending(ShiftSet(DaySet(weekdays), shift), 7))
    else None
  }

  /** None: an element did not convert and the source throws. */
  method ShiftWeekdays(weekdays: seq<Value>, shift: int) returns (r: Option<seq<Value>>)
    ensures r == ShiftedWeekdays(weekdays, shift)
  {
    if |weekdays| == 0 || shift == 0 {
      return Some(weekdays);
    }
    var shiftedDays: set<int> := {};
    var i := 0;
    while i < |weekdays|
      invariant 0 <= i <= |weekdays|
      invariant AllInts(weekdays[..i])
      invariant shiftedDays == ShiftSet(DaySet(weekdays[..i]), shift)
    {
      var day := AsInt(weekdays[i]);
      if day.None? {
        return None;
      }
      ShiftDayIsModular(day.value, shift);
      ghost var before, after := weekdays[..i], weekdays[..i + 1];
      assert after == before + [weekdays[i]];
      DaySetAppend(before, weekdays[i]);
      shiftedDays := shiftedDays + {ShiftDay(day.value, shift)};
      i := i + 1;
    }
    assert weekdays[..i] == weekdays;
    var newWeekdays: seq<Value> := [];
    var d := 0;
    while d < 7
      invariant 0 <= d <= 7
      invariant newWeekdays == Ascending(shiftedDays, d)
    {
      if d in shiftedDays {
        newWeekdays := newWeekdays + [Int(d)];
      }
      d := d + 1;
    }
    return Some(newWeekdays);
  }

  lemma DaySetAppend(days: seq<Value>, v: Value)
    requires AllInts(days) && AsInt(v).Some?
    ensures AllInts(days + [v]) && DaySet(days + [v]) == DaySet(days) + {AsInt(v).value}
  {
    var all := days + [v];
    forall d | d in DaySet(days) + {AsInt(v).value} ensures d in DaySet(all) {
      if d in DaySet(days) {
        var i :| 0 <= i < |days| && AsInt(days[i]).value == d;
        assert AsInt(all[i]).value == d;
      } else {
        assert AsInt(all[|days|]).value == d;
      }
    }
  }

  lemma {:induction false} AscendingDays(days: set<int>, n: nat)
    requires n <= 7
    ensures AllInts(Ascending(days, n))
    ensures DaySet(Ascending(days, n)) == set d | d in days && 0 <= d < n
    ensures |Ascending(days, n)| <= n
    ensures forall i :: 0 <= i < |Ascending(days, n)| ==> Ascending(days, n)[i].Int? && 0 <= Ascending(days, n)[i].n < n
  {
    if n > 0 {
      AscendingDays(days, n - 1);
      var below := Ascending(days, n - 1);
      if n - 1 in days {
        DaySetAppend(below, Int(n - 1));
        assert Ascending(days, n) == below + [Int(n - 1)];
      } else {
        assert Ascending(days, n) == below;
      }
    }
  }

  /** Distinct and within 0..6. */
  predicate DistinctDays(days: seq<Value>) {
    && AllInts(days)
    && (forall i :: 0 <= i < |days| ==> 0 <= AsInt(days[i]).value <= 6)
    && (forall i, j :: 0 <= i < j < |days| ==> AsInt(days[i]).value != AsInt(days[j]).value)
  }

  predicate ValidWeekdays(days: seq<Value>) {
    days != [] && DistinctDays(days)
  }

  lemma DistinctDaysAppend(days: seq<Value>, v: Value)
    requires DistinctDays(days)
    ensures DistinctDays(days + [v])
            <==> AsInt(v).Some? && 0 <= AsInt(v).value <= 6 && AsInt(v).value !in DaySet(days)
  {
    var all := days + [v];
    assert all[|days|] == v;
    if AsInt(v).Some? && AsInt(v).value in DaySet(days) {
      var i :| 0 <= i < |days| && AsInt(days[i]).value == AsInt(v).value;
      assert all[i] == days[i];
    }
    assert forall i :: 0 <= i < |days| ==> all[i] == days[i];
    assert forall i :: 0 <= i < |days| ==> AsInt(days[i]).value in DaySet(days);
  }

  lemma DistinctDaysPrefix(days: seq<Value>, n: nat)
    requires n <= |days| && DistinctDays(days)
    ensures DistinctDays(days[..n])
  {
  }

  method ValidateWeekdays(weekdays: seq<Value>) returns (ok: bool)
    ensures ok <==> ValidWeekdays(weekdays)
  {
    if |weekdays| == 0 {
      return false;
    }
    var seenDays: set<int> := {};
    for i := 0 to |weekdays|
      invariant DistinctDays(weekdays[..i]) && seenDays == DaySet(weekdays[..i])
    {
      var day := AsInt(weekdays[i]);
      assert weekdays[..i + 1] == weekdays[..i] + [weekdays[i]];
      DistinctDaysAppend(weekdays[..i], weekdays[i]);
      if day.None? || day.value < 0 || day.value > 6 || day.value in seenDays {
        if DistinctDays(weekdays) { DistinctDaysPrefix(weekdays, i + 1); }
        return false;
      }
      DaySetAppend(weekdays[..i], weekdays[i]);
      seenDays := seenDays + {day.value};
    }
    assert weekdays[..|weekdays|] == weekdays;
    return true;
  }

  // ---------------------------------------------------------------- moving a window between clocks

  datatype Times = Times(start: int, stop: int, dayShift: int)

  /** Start and stop minute seen from a clock `offset` minutes ahead, and the day the start moves by. */
  function Rebase(start: int, stop: int, offset: int): Times {
    Times((start + offset) % 1440, (stop + offset) % 1440, (start + offset) / 1440)
  }

  predicate MinuteOfDay(m: int) { 0 <= m < 1440 }

  lemma WholeDays(days: int, m: int)
    ensures (days * 1440 + m) / 1440 == days + m / 1440
    ensures (days * 1440 + m) % 1440 == m % 1440
  {
    assert days * 1440 + m == (days + m / 1440) * 1440 + m % 1440;
  }

  lemma RebaseInverse(start: int, stop: int, offset: int)
    requires MinuteOfDay(start) && MinuteOfDay(stop)
    ensures var u := Rebase(start, stop, offset);
            Rebase(u.start, u.stop, -offset) == Times(start, stop, -u.dayShift)
  {
    var u := Rebase(start, stop, offset);
    WholeDays(-u.dayShift, start);
    WholeDays(-((stop + offset) / 1440), stop);
    assert u.start - offset == -u.dayShift * 1440 + start;
    assert u.stop - offset == -((stop + offset) / 1440) * 1440 + stop;
  }

  lemma RebaseDistinct(start: int, stop: int, offset: int)
    requires MinuteOfDay(start) && MinuteOfDay(stop) && start != stop
    ensures Rebase(start, stop, offset).start != Rebase(start, stop, offset).stop
  {
  }

  /** Each window keeps its instants; it is only renamed to another clock and day. */
  lemma RebaseWindow(start: int, stop: int, offset: int, day: int, t: int)
    requires MinuteOfDay(start) && MinuteOfDay(stop) && start != stop
    ensures var u := Rebase(start, stop, offset);
            InWindow(u.start * 60, u.stop * 60, day + u.dayShift, t + offset * 60_000_000)
            <==> InWindow(start * 60, stop * 60, day, t)
  {
    var u := Rebase(start, stop, offset);
    var k := (stop + offset) / 1440;
    assert start + offset == 1440 * u.dayShift + u.start && 0 <= u.start < 1440;
    assert stop + offset == 1440 * k + u.stop && 0 <= u.stop < 1440;
    assert u.dayShift * 1440 + u.stop + (if u.stop <= u.start then 1440 else 0)
           == stop + offset + (if stop <= start then 1440 else 0);
  }

  lemma ShiftedWeekday(day: int, shift: int, days: set<int>)
    requires forall d :: d in days ==> 0 <= d <= 6
    ensures Weekday(day + shift) in ShiftSet(days, shift) <==> Weekday(day) in days
  {
    MoveTwice(day, 4, shift);
    assert Weekday(day) == MoveDay(day, 4) && Weekday(day + shift) == MoveDay(Weekday(day), shift);
    if Weekday(day + shift) in ShiftSet(days, shift) {
      var d :| d in days && MoveDay(d, shift) == Weekday(day + shift);
      MoveBack(d, shift);
      MoveBack(Weekday(day), shift);
    }
  }

  lemma RebaseForward(start: int, stop: int, offset: int, days: set<int>, t: int)
    requires MinuteOfDay(start) && MinuteOfDay(stop) && start != stop
    requires (forall d :: d in days ==> 0 <= d <= 6) && Covers(start * 60, stop * 60, days, t)
    ensures var u := Rebase(start, stop, offset);
            Covers(u.start * 60, u.stop * 60, ShiftSet(days, u.dayShift), t + offset * 60_000_000)
  {
    var u := Rebase(start, stop, offset);
    var day: int :| Weekday(day) in days && InWindow(start * 60, stop * 60, day, t);
    RebaseWindow(start, stop, offset, day, t);
    ShiftedWeekday(day, u.dayShift, days);
    assert Weekday(day + u.dayShift) in ShiftSet(days, u.dayShift)
           && InWindow(u.start * 60, u.stop * 60, day + u.dayShift, t + offset * 60_000_000);
  }

  lemma RebaseBackward(start: int, stop: int, offset: int, days: set<int>, t: int)
    requires MinuteOfDay(start) && MinuteOfDay(stop) && start != stop && forall d :: d in days ==> 0 <= d <= 6
    requires var u := Rebase(start, stop, offset);
             Covers(u.start * 60, u.stop * 60, ShiftSet(days, u.dayShift), t + offset * 60_000_000)
    ensures Covers(start * 60, stop * 60, days, t)
  {
    var u := Rebase(start, stop, offset);
    var later: int :| Weekday(later) in ShiftSet(days, u.dayShift)
                      && InWindow(u.start * 60, u.stop * 60, later, t + offset * 60_000_000);
    var day := later - u.dayShift;
    RebaseWindow(start, stop, offset, day, t);
    ShiftedWeekday(day, u.dayShift, days);
    assert Weekday(day) in days && InWindow(start * 60, stop * 60, day, t);
  }

  /** A schedule moved to another clock denotes the same instants. */
  lemma RebasePreservesMeaning(start: int, stop: int, offset: int, days: set<int>, t: int)
    requires MinuteOfDay(start) && MinuteOfDay(stop) && start != stop
    requires forall d :: d in days ==> 0 <= d <= 6
    ensures var u := Rebase(start, stop, offset);
            Covers(u.start * 60, u.stop * 60, ShiftSet(days, u.dayShift), t + offset * 60_000_000)
            <==> Covers(start * 60, stop * 60, days, t)
  {
    var u := Rebase(start, stop, offset);
    if Covers(start * 60, stop * 60, days, t) { RebaseForward(start, stop, offset, days, t); }
    if Covers(u.start * 60, u.stop * 60, ShiftSet(days, u.dayShift), t + offset * 60_000_000) {
      RebaseBackward(start, stop, offset, days, t);
    }
  }
}
