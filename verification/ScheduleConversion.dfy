/**
 The two conversions the portal runs on a schedule, each against "today" in the
 subscriber's zone, and what they mean together: the stored UTC schedule blocks
 the local windows the subscriber asked for, and reads back unchanged.

 A zone is a whole-minute offset ahead of UTC, fixed over the days involved.
 */
module ScheduleConversion {
  import opened Text
  import opened Calendar
  import opened FirewallRules
  import opened Json
  import opened Schedules

  /** Known zone names and their offset in minutes; other names make the lookup throw. */
  type Zones = map<string, int>

  class ScheduleRequest {
    var name: string
    var description: Option<string>
    var hasDescription: bool
    var enabled: bool
    var targetKind: string
    var targetValue: string
    var hasTargetValue: bool
    var startMinute: int
    var stopMinute: int
    var weekdays: seq<Value>

    constructor ()
      ensures weekdays == [] && startMinute == 0 && stopMinute == 0
    {
      name, description, hasDescription, enabled := "", None, false, true;
      targetKind, targetValue, hasTargetValue := "", "", false;
      startMinute, stopMinute, weekdays := 0, 0, [];
    }
  }

  predicate KnownZone(zones: Zones, timezone: string) {
    timezone != "" && timezone in zones
  }

  /** Local to UTC, in place; `now` is the system clock in seconds. */
  method ConvertScheduleTimesToUtc(zones: Zones, timezone: string, now: int, request: ScheduleRequest)
      returns (ok: bool)
    modifies request`startMinute, request`stopMinute, request`weekdays
    ensures !KnownZone(zones, timezone) ==> !ok && unchanged(request)
    ensures KnownZone(zones, timezone) ==>
              var utc := Rebase(old(request.startMinute), old(request.stopMinute), -zones[timezone]);
              var days := ShiftedWeekdays(old(request.weekdays), utc.dayShift);
              && ok == days.Some?
              && request.startMinute == utc.start && request.stopMinute == utc.stop
              && request.weekdays == if ok then days.value else old(request.weekdays)
  {
    if timezone == "" || timezone !in zones {
      return false;
    }
    var offset := zones[timezone];
    var localDate := (now + offset * 60) / 86_400;
    var localStart := localDate * 1440 + request.startMinute / 60 * 60 + request.startMinute % 60;
    var localStopDate := if request.stopMinute <= request.startMinute then localDate + 1 else localDate;
    var localStop := localStopDate * 1440 + request.stopMinute / 60 * 60 + request.stopMinute % 60;
    var sysStart, sysStop := localStart - offset, localStop - offset;
    var sysStartDays, sysStopDays := sysStart / 1440, sysStop / 1440;
    var startDayShift := sysStartDays - localDate;
    WholeDays(localDate, request.startMinute - offset);
    WholeDays(localStopDate, request.stopMinute - offset);
    request.startMinute := sysStart - sysStartDays * 1440;
    request.stopMinute := sysStop - sysStopDays * 1440;
    var shifted := ShiftWeekdays(request.weekdays, startDayShift);
    if shifted.None? {
      return false;
    }
    request.weekdays := shifted.value;
    return true;
  }

  // ---------------------------------------------------------------- back to local time

  /** The UTC day the source settles on after its one-step correction. */
  function CorrectedUtcDay(localDay: int, startMinute: int, offset: int): int {
    var utcDay := (localDay * 1440 - offset) / 1440;
    var tentativeLocalStart := (utcDay * 1440 + startMinute + offset) / 1440;
    utcDay + (localDay - tentativeLocalStart)
  }

  /** One step is always enough: the corrected start falls on today's local day. */
  lemma CorrectionLandsToday(localDay: int, startMinute: int, offset: int)
    ensures var utcDay := CorrectedUtcDay(localDay, startMinute, offset);
            && (utcDay * 1440 + startMinute + offset) / 1440 == localDay
            && localDay - utcDay == (startMinute + offset) / 1440
  {
    var first := (localDay * 1440 - offset) / 1440;
    WholeDays(first, startMinute + offset);
    WholeDays(CorrectedUtcDay(localDay, startMinute, offset), startMinute + offset);
  }

  /** The source's day arithmetic for one "today", step by step. */
  function LocalTimesOn(localDay: int, startMinute: int, stopMinute: int, offset: int): Times {
    var utcDay := CorrectedUtcDay(localDay, startMinute, offset);
    var sysStart := utcDay * 1440 + startMinute;
    var sysStop := (if stopMinute <= startMinute then utcDay + 1 else utcDay) * 1440 + stopMinute;
    var localStart, localStop := sysStart + offset, sysStop + offset;
    Times(localStart - localStart / 1440 * 1440, localStop - localStop / 1440 * 1440, localStart / 1440 - utcDay)
  }

  /** The day it ran on leaves no trace in the result. */
  lemma LocalTimesAreRebase(localDay: int, startMinute: int, stopMinute: int, offset: int)
    ensures LocalTimesOn(localDay, startMinute, stopMinute, offset) == Rebase(startMinute, stopMinute, offset)
  {
    var utcDay := CorrectedUtcDay(localDay, startMinute, offset);
    CorrectionLandsToday(localDay, startMinute, offset);
    WholeDays(utcDay, startMinute + offset);
    WholeDays(if stopMinute <= startMinute then utcDay + 1 else utcDay, stopMinute + offset);
  }

  /** The stored minutes, when both are present and in range. */
  function StoredTimes(fields: Object): Option<(int, int)> {
    if "start_minute" !in fields || "stop_minute" !in fields then None
    else
      match (AsInt(fields["start_minute"]), AsInt(fields["stop_minute"]))
      case (Some(a), Some(b)) => if MinuteOfDay(a) && MinuteOfDay(b) then Some((a, b)) else None
      case _ => None
  }

  function WithShiftedWeekdays(fields: Object, shift: int): Option<Object> {
    if !HasArr(fields, "weekdays") then Some(fields)
    else
      match ShiftedWeekdays(fields["weekdays"].items, shift)
      case None => None
      case Some(days) => Some(fields["weekdays" := Arr(days)])
  }

  /** The schedule object as the subscriber sees it, or None when the source reports failure. */
  function NormalizedFields(fields: Object, offset: int): Option<Object> {
    match StoredTimes(fields)
    case None => None
    case Some((start, stop)) =>
      var local := Rebase(start, stop, offset);
      match WithShiftedWeekdays(fields, local.dayShift)
      case None => None
      case Some(f) =>
        Some(f["start_time" := Str(MinuteToTimeString(local.start).value)]
              ["stop_time" := Str(MinuteToTimeString(local.stop).value)]
             - {"start_minute", "stop_minute", "config-raw"})
  }

  /** UTC to local, in place; a failure leaves the object as it was. */
  method NormalizeScheduleResponse(schedule: JsonObject?, zones: Zones, timezone: string, now: int)
      returns (ok: bool)
    modifies schedule
    ensures schedule == null || !KnownZone(zones, timezone) ==> !ok
    ensures schedule != null && KnownZone(zones, timezone) ==>
              ok == NormalizedFields(old(schedule.fields), zones[timezone]).Some?
    ensures schedule != null ==>
              schedule.fields == if ok then NormalizedFields(old(schedule.fields), zones[timezone]).value
                                 else old(schedule.fields)
  {
    if schedule == null || timezone == ""
       || "start_minute" !in schedule.fields || "stop_minute" !in schedule.fields {
      return false;
    }
    var start, stop := AsInt(schedule.fields["start_minute"]), AsInt(schedule.fields["stop_minute"]);
    if start.None? || stop.None? {
      return false;
    }
    var startMinute, stopMinute := start.value, stop.value;
    if startMinute < 0 || startMinute >= 1440 || stopMinute < 0 || stopMinute >= 1440 || timezone !in zones {
      return false;
    }
    var offset := zones[timezone];
    var localDay := (now + offset * 60) / 86_400;
    var local := LocalTimesOn(localDay, startMinute, stopMinute, offset);
    LocalTimesAreRebase(localDay, startMinute, stopMinute, offset);
    var fields := schedule.fields;
    if HasArr(fields, "weekdays") {
      var weekdays := ShiftWeekdays(fields["weekdays"].items, local.dayShift);
      if weekdays.None? {
        return false;
      }
      fields := fields["weekdays" := Arr(weekdays.value)];
    }
    var startTime, stopTime := MinuteToTimeString(local.start), MinuteToTimeString(local.stop);
    fields := fields["start_time" := Str(startTime.value)]["stop_time" := Str(stopTime.value)];
    schedule.fields := fields - {"start_minute", "stop_minute", "config-raw"};
    return true;
  }

  // ---------------------------------------------------------------- meaning

  /** The firewall rule of a stored UTC schedule: minutes as HH:MM:00, weekdays unchanged. */
  function RuleOfSchedule(start: int, stop: int, days: set<int>, macs: seq<string>): Rule
    requires MinuteOfDay(start) && MinuteOfDay(stop)
  {
    EMPTY_RULE.(enabled := true, hasSection := true, hasEnabled := true,
                hasStartTime := true, startTime := TimeText(start * 60),
                hasStopTime := true, stopTime := TimeText(stop * 60),
                hasWeekdays := true, weekdays := days, macs := macs)
  }

  /** A stored schedule with distinct ends blocks exactly its UTC windows; with equal ends, never. */
  lemma StoredScheduleMeaning(start: int, stop: int, days: set<int>, macs: seq<string>, t: int)
    requires MinuteOfDay(start) && MinuteOfDay(stop) && macs != [] && ClockInRange(t)
    ensures Evaluate(RuleOfSchedule(start, stop, days, macs), t).active
            <==> start != stop && Covers(start * 60, stop * 60, days, t)
  {
    var rule := RuleOfSchedule(start, stop, days, macs);
    ParseTimeText(start * 60);
    ParseTimeText(stop * 60);
    TimeTextOrder(start * 60, stop * 60);
    EvaluateDecidesBlocks(rule, t);
  }

  lemma LocalToUtcMeaning(start: int, stop: int, days: set<int>, offset: int, t: int)
    requires MinuteOfDay(start) && MinuteOfDay(stop) && start != stop
    requires forall d :: d in days ==> 0 <= d <= 6
    ensures var utc := Rebase(start, stop, -offset);
            Covers(utc.start * 60, utc.stop * 60, ShiftSet(days, utc.dayShift), t)
            <==> Covers(start * 60, stop * 60, days, t + offset * 60_000_000)
  {
    var localTime := t + offset * 60_000_000;
    RebasePreservesMeaning(start, stop, -offset, days, localTime);
    assert localTime + (-offset) * 60_000_000 == t;
  }

  lemma MeaningOfConverted(utcStart: int, utcStop: int, utcDays: set<int>, macs: seq<string>, t: int, covered: bool)
    requires MinuteOfDay(utcStart) && MinuteOfDay(utcStop) && utcStart != utcStop && macs != [] && ClockInRange(t)
    requires Covers(utcStart * 60, utcStop * 60, utcDays, t) <==> covered
    ensures Evaluate(RuleOfSchedule(utcStart, utcStop, utcDays, macs), t).active <==> covered
  {
    StoredScheduleMeaning(utcStart, utcStop, utcDays, macs, t);
  }

  /** Into UTC: the rule is active at `t` iff the subscriber's clock is inside a requested window. */
  lemma ConvertPreservesMeaning(start: int, stop: int, days: set<int>, offset: int, macs: seq<string>, t: int)
    requires MinuteOfDay(start) && MinuteOfDay(stop) && start != stop
    requires forall d :: d in days ==> 0 <= d <= 6
    requires macs != [] && ClockInRange(t)
    ensures var utc := Rebase(start, stop, -offset);
            Evaluate(RuleOfSchedule(utc.start, utc.stop, ShiftSet(days, utc.dayShift), macs), t).active
            <==> Covers(start * 60, stop * 60, days, t + offset * 60_000_000)
  {
    var utc := Rebase(start, stop, -offset);
    RebaseDistinct(start, stop, -offset);
    LocalToUtcMeaning(start, stop, days, offset, t);
    MeaningOfConverted(utc.start, utc.stop, ShiftSet(days, utc.dayShift), macs, t,
                       Covers(start * 60, stop * 60, days, t + offset * 60_000_000));
  }

  /** Back to local: the displayed schedule denotes the stored instants exactly when the ends differ. */
  lemma NormalizePreservesMeaning(start: int, stop: int, days: set<int>, offset: int, macs: seq<string>)
    requires MinuteOfDay(start) && MinuteOfDay(stop) && macs != []
    requires days != {} && forall d :: d in days ==> 0 <= d <= 6
    ensures var local := Rebase(start, stop, offset);
            (forall t: int :: ClockInRange(t) ==>
               (Evaluate(RuleOfSchedule(start, stop, days, macs), t).active
                <==> Covers(local.start * 60, local.stop * 60, ShiftSet(days, local.dayShift), t + offset * 60_000_000)))
            <==> start != stop
  {
    var local := Rebase(start, stop, offset);
    var days' := ShiftSet(days, local.dayShift);
    if start != stop {
      forall t: int | ClockInRange(t)
        ensures Evaluate(RuleOfSchedule(start, stop, days, macs), t).active
                <==> Covers(local.start * 60, local.stop * 60, days', t + offset * 60_000_000)
      {
        StoredScheduleMeaning(start, stop, days, macs, t);
        RebasePreservesMeaning(start, stop, offset, days, t);
      }
    } else {
      var d := AnyDay(days);
      var t := (d + 3) * 86_400_000_000 + start * 60_000_000;
      EqualEndsDiffer(start, days, offset, d);
      StoredScheduleMeaning(start, stop, days, macs, t);
    }
  }

  lemma AnyDay(days: set<int>) returns (d: int)
    requires days != {}
    ensures d in days
  {
    assert (forall x :: x !in days) ==> days == {};
    d :| d in days;
  }

  /** Equal ends display as a whole day, which the stored rule never blocks. */
  lemma EqualEndsDiffer(start: int, days: set<int>, offset: int, d: int)
    requires MinuteOfDay(start) && d in days && forall x :: x in days ==> 0 <= x <= 6
    ensures var local := Rebase(start, start, offset);
            var t := (d + 3) * 86_400_000_000 + start * 60_000_000;
            && ClockInRange(t)
            && Covers(local.start * 60, local.stop * 60, ShiftSet(days, local.dayShift), t + offset * 60_000_000)
  {
    var local := Rebase(start, start, offset);
    var t := (d + 3) * 86_400_000_000 + start * 60_000_000;
    var day := d + 3 + local.dayShift;
    assert Weekday(d + 3) == d;
    ShiftedWeekday(d + 3, local.dayShift, days);
    assert day * 1440 + local.start == (d + 3) * 1440 + start + offset;
    assert Weekday(day) in ShiftSet(days, local.dayShift)
           && InWindow(local.start * 60, local.stop * 60, day, t + offset * 60_000_000);
  }

  // ---------------------------------------------------------------- round trip

  predicate StrictlySorted(days: seq<Value>)
    requires AllInts(days)
  {
    forall i, j :: 0 <= i < j < |days| ==> AsInt(days[i]).value < AsInt(days[j]).value
  }

  lemma ShiftSetInverse(days: set<int>, shift: int)
    requires forall d :: d in days ==> 0 <= d <= 6
    ensures ShiftSet(ShiftSet(days, shift), -shift) == days
  {
    var moved := ShiftSet(days, shift);
    var back := ShiftSet(moved, -shift);
    forall d | d in days ensures d in back {
      MoveBack(d, shift);
      assert MoveDay(d, shift) in moved;
    }
    forall d | d in back ensures d in days {
      var e :| e in moved && MoveDay(e, -shift) == d;
      var f :| f in days && MoveDay(f, shift) == e;
      MoveBack(f, shift);
    }
  }

  lemma {:induction false} AscendingUnique(days: seq<Value>, n: nat)
    requires n <= 7 && AllInts(days)
    requires forall i :: 0 <= i < |days| ==> days[i].Int? && 0 <= days[i].n < n
    ensures StrictlySorted(days) <==> days == Ascending(DaySet(days), n)
  {
    AscendingSorted(DaySet(days), n);
    if StrictlySorted(days) {
      SortedIsAscending(days, n, DaySet(days));
    }
  }

  lemma {:induction false} AscendingSorted(days: set<int>, n: nat)
    requires n <= 7
    ensures AllInts(Ascending(days, n)) && StrictlySorted(Ascending(days, n))
  {
    AscendingDays(days, n);
    if n > 0 {
      AscendingSorted(days, n - 1);
      AscendingDays(days, n - 1);
    }
  }

  lemma {:induction false} SortedIsAscending(days: seq<Value>, n: nat, all: set<int>)
    requires n <= 7 && AllInts(days) && StrictlySorted(days)
    requires forall i :: 0 <= i < |days| ==> days[i].Int? && 0 <= days[i].n < n
    requires forall d :: 0 <= d < n ==> (d in all <==> d in DaySet(days))
    ensures days == Ascending(all, n)
    decreases n
  {
    if days != [] { assert 0 <= days[0].n < n; }
    if n > 0 {
      if n - 1 in all {
        var front := WithoutLast(days, n);
        SortedIsAscending(front, n - 1, all);
      } else {
        assert forall i :: 0 <= i < |days| ==> AsInt(days[i]).value in DaySet(days);
        SortedIsAscending(days, n - 1, all);
      }
    }
  }

  lemma WithoutLast(days: seq<Value>, n: nat) returns (front: seq<Value>)
    requires 0 < n <= 7 && AllInts(days) && StrictlySorted(days)
    requires forall i :: 0 <= i < |days| ==> days[i].Int? && 0 <= days[i].n < n
    requires n - 1 in DaySet(days)
    ensures days == front + [Int(n - 1)] && AllInts(front) && StrictlySorted(front)
    ensures forall i :: 0 <= i < |front| ==> front[i].Int? && 0 <= front[i].n < n - 1
    ensures DaySet(days) == DaySet(front) + {n - 1}
  {
    var i :| 0 <= i < |days| && AsInt(days[i]).value == n - 1;
    var last := days[|days| - 1];
    assert i == |days| - 1;
    front := days[..i];
    assert days == front + [Int(n - 1)];
    DaySetAppend(front, Int(n - 1));
    forall k | 0 <= k < |front| ensures front[k].n < n - 1 {
      assert AsInt(days[k]).value < AsInt(days[i]).value;
    }
  }

  /** Shifting there and back keeps the set; the list too, unless a real shift had to sort it. */
  lemma WeekdaysRoundTrip(days: seq<Value>, shift: int)
    requires ValidWeekdays(days) && forall i :: 0 <= i < |days| ==> days[i].Int?
    ensures var there := ShiftedWeekdays(days, shift);
            && there.Some? && there.value != [] && ShiftedWeekdays(there.value, -shift).Some?
            && AllInts(there.value) && DaySet(there.value) == ShiftSet(DaySet(days), shift)
            && var back := ShiftedWeekdays(there.value, -shift).value;
               AllInts(back) && DaySet(back) == DaySet(days)
               && (back == days <==> shift == 0 || StrictlySorted(days))
  {
    ShiftedDays(days, shift);
    var there := ShiftedWeekdays(days, shift).value;
    ShiftedDays(there, -shift);
    ShiftSetInverse(DaySet(days), shift);
    AscendingUnique(days, 7);
  }

  predicate DaysInWeek(days: seq<Value>) {
    days != [] && forall i :: 0 <= i < |days| ==> days[i].Int? && 0 <= days[i].n <= 6
  }

  lemma ShiftedDays(days: seq<Value>, shift: int)
    requires DaysInWeek(days)
    ensures ShiftedWeekdays(days, shift).Some?
    ensures var there := ShiftedWeekdays(days, shift).value;
            AllInts(days) && DaysInWeek(there) && AllInts(there) && DaySet(there) == ShiftSet(DaySet(days), shift)
  {
    var s := DaySet(days);
    assert forall d :: d in s ==> 0 <= d <= 6;
    if shift == 0 {
      assert forall d :: d in s ==> MoveDay(d, 0) == d;
      assert ShiftSet(s, 0) == s;
    } else {
      var moved := ShiftSet(s, shift);
      AscendingDays(moved, 7);
      assert (set d | d in moved && 0 <= d < 7) == moved;
      assert AsInt(days[0]).value in s;
      assert MoveDay(AsInt(days[0]).value, shift) in DaySet(Ascending(moved, 7));
    }
  }

  /** The object the service stores and returns for a converted request. */
  function Stored(other: Object, start: int, stop: int, days: seq<Value>): Object {
    other["start_minute" := Int(start)]["stop_minute" := Int(stop)]["weekdays" := Arr(days)]
  }

  /** The stored minutes and the commands are gone; every member the conversion does not own is as it was. */
  ghost predicate KeepsOthers(other: Object, shown: Object) {
    && "start_minute" !in shown && "stop_minute" !in shown && "config-raw" !in shown
    && forall k :: k !in {"start_minute", "stop_minute", "config-raw", "start_time", "stop_time", "weekdays"} ==>
         (k in shown <==> k in other) && (k in shown && k in other ==> shown[k] == other[k])
  }

  /** Convert, store, normalise. */
  function StoreThenShow(start: int, stop: int, days: seq<Value>, offset: int, other: Object): Option<Object> {
    var utc := Rebase(start, stop, -offset);
    match ShiftedWeekdays(days, utc.dayShift)
    case None => None
    case Some(sent) => NormalizedFields(Stored(other, utc.start, utc.stop, sent), offset)
  }

  lemma ShownFields(start: int, stop: int, days: seq<Value>, offset: int, other: Object)
    requires MinuteOfDay(start) && MinuteOfDay(stop)
    requires ValidWeekdays(days) && forall i :: 0 <= i < |days| ==> days[i].Int?
    ensures StoreThenShow(start, stop, days, offset, other).Some?
    ensures var shown := StoreThenShow(start, stop, days, offset, other).value;
            var shift := Rebase(start, stop, -offset).dayShift;
            && IsStr(shown, "start_time", MinuteToTimeString(start).value)
            && IsStr(shown, "stop_time", MinuteToTimeString(stop).value)
            && HasArr(shown, "weekdays")
            && shown["weekdays"].items == ShiftedWeekdays(ShiftedWeekdays(days, shift).value, -shift).value
            && KeepsOthers(other, shown)
  {
    var utc := Rebase(start, stop, -offset);
    RebaseInverse(start, stop, -offset);
    WeekdaysRoundTrip(days, utc.dayShift);
    NormalizeStored(other, utc.start, utc.stop, ShiftedWeekdays(days, utc.dayShift).value, offset,
                    Times(start, stop, -utc.dayShift));
  }

  /** The subscriber reads back the texts and weekdays that were sent, on whatever days the two ran. */
  lemma RoundTrip(startText: string, stopText: string, start: int, stop: int, days: seq<Value>, offset: int, other: Object)
    requires ParseTimeString(Str(startText)) == Some(start) && ParseTimeString(Str(stopText)) == Some(stop)
    requires ValidWeekdays(days) && forall i :: 0 <= i < |days| ==> days[i].Int?
    ensures StoreThenShow(start, stop, days, offset, other).Some?
    ensures var shown := StoreThenShow(start, stop, days, offset, other).value;
            && IsStr(shown, "start_time", startText) && IsStr(shown, "stop_time", stopText)
            && HasArr(shown, "weekdays") && AllInts(shown["weekdays"].items)
            && DaySet(shown["weekdays"].items) == DaySet(days)
            && (shown["weekdays"].items == days
                <==> Rebase(start, stop, -offset).dayShift == 0 || StrictlySorted(days))
            && KeepsOthers(other, shown)
  {
    ParseThenFormat(start, startText);
    ParseThenFormat(stop, stopText);
    ShownFields(start, stop, days, offset, other);
    WeekdaysRoundTrip(days, Rebase(start, stop, -offset).dayShift);
  }

  lemma NormalizeStored(other: Object, start: int, stop: int, days: seq<Value>, offset: int, local: Times)
    requires MinuteOfDay(start) && MinuteOfDay(stop) && local == Rebase(start, stop, offset)
    requires ShiftedWeekdays(days, local.dayShift).Some?
    ensures var shown := NormalizedFields(Stored(other, start, stop, days), offset);
            && shown.Some?
            && IsStr(shown.value, "start_time", MinuteToTimeString(local.start).value)
            && IsStr(shown.value, "stop_time", MinuteToTimeString(local.stop).value)
            && HasArr(shown.value, "weekdays")
            && shown.value["weekdays"].items == ShiftedWeekdays(days, local.dayShift).value
            && KeepsOthers(other, shown.value)
  {
    var fields := Stored(other, start, stop, days);
    assert StoredTimes(fields) == Some((start, stop));
  }
}
