/**
 Evaluation of one firewall rule at an instant: recurring UTC schedules and
 date-bounded client-access rules, decided by comparing formatted strings.
 Instants are microseconds since the epoch, the resolution of the clock read.
 */
module FirewallRules {
  import opened Text
  import opened Calendar

  const PERMANENT := -1

  datatype Rule = Rule(
    enabled: bool, hasSection: bool, hasEnabled: bool,
    hasStartDate: bool, hasStopDate: bool, hasStartTime: bool, hasStopTime: bool,
    hasWeekdays: bool, isClientAccessRule: bool, hasClientAccessBoundary: bool,
    startDate: string, stopDate: string, startTime: string, stopTime: string,
    weekdays: set<int>, macs: seq<string>)

  const EMPTY_RULE := Rule(false, false, false, false, false, false, false, false, false, false,
                           "", "", "", "", {}, [])

  datatype Answer = Answer(active: bool, stopEpochSec: int)

  const INACTIVE := Answer(false, 0)

  predicate IsValidDate(s: string) { ParseDate(s).Some? }
  predicate IsValidTime(s: string) { ParseTime(s).Some? }

  /** What the command fold guarantees of every rule: a presence flag means a parsed value. */
  predicate WellFormed(r: Rule) {
    && (r.hasStartDate ==> IsValidDate(r.startDate))
    && (r.hasStopDate ==> IsValidDate(r.stopDate))
    && (r.hasStartTime ==> IsValidTime(r.startTime))
    && (r.hasStopTime ==> IsValidTime(r.stopTime))
  }

  /** From 1970 on, and tomorrow still has a four-digit year. */
  predicate ClockInRange(now: int) {
    0 <= now && now / 86_400_000_000 + 1 < DAY_LIMIT
  }

  function SecOf(now: int): int { now / 1_000_000 }

  lemma DayOfSecond(now: int)
    ensures SecOf(now) / 86_400 == now / 86_400_000_000
    ensures SecOf(now) * 1_000_000 <= now < (SecOf(now) + 1) * 1_000_000
  {
  }

  function NowDate(now: int): string
    requires ClockInRange(now)
  {
    DateText(DateOf(now / 86_400_000_000))
  }

  function NowTime(now: int): string {
    TimeText(SecOf(now) % 86_400)
  }

  /** The stop string has to parse and lie after the unrounded clock. */
  function UntilStop(stopStr: string, nowUtc: int): Answer {
    match ParseStamp(stopStr)
    case None => INACTIVE
    case Some(stop) => if stop * 1_000_000 <= nowUtc then INACTIVE else Answer(true, stop)
  }

  /** The stop string of a recurring rule that is active, as the branches build it. */
  function RecurringStop(weekday: int, nowDate: string, nextDate: string, nowTime: string,
                         start: string, stop: string, weekdays: set<int>): Option<string>
  {
    if start == stop then None
    else if Less(start, stop) then
      if weekday in weekdays && !Less(nowTime, start) && Less(nowTime, stop)
      then Some(nowDate + " " + stop) else None
    else
      var previousWeekday := (weekday + 6) % 7;
      if weekday in weekdays && !Less(nowTime, start) then Some(nextDate + " " + stop)
      else if previousWeekday in weekdays && Less(nowTime, stop) then Some(nowDate + " " + stop)
      else None
  }

  function RecurringAnswer(weekday: int, nowDate: string, nextDate: string, nowTime: string, rule: Rule, nowUtc: int): Answer {
    match RecurringStop(weekday, nowDate, nextDate, nowTime, rule.startTime, rule.stopTime, rule.weekdays)
    case None => INACTIVE
    case Some(stopStr) => UntilStop(stopStr, nowUtc)
  }

  function RecurringActive(weekday: int, nowDate: string, nowTime: string, rule: Rule, nowUtc: int): Answer
    requires ClockInRange(nowUtc)
  {
    if !rule.hasStartTime || !rule.hasStopTime then INACTIVE
    else RecurringAnswer(weekday, nowDate, DateText(DateOf(nowUtc / 86_400_000_000 + 1)), nowTime, rule, nowUtc)
  }

  function BoundedActive(nowDate: string, nowTime: string, rule: Rule, nowUtc: int): Answer {
    if !rule.hasStartDate || !rule.hasStopDate || !rule.hasStartTime || !rule.hasStopTime then INACTIVE
    else
      var nowStr := nowDate + " " + nowTime;
      if Less(nowStr, rule.startDate + " " + rule.startTime) then INACTIVE
      else
        var stopDate := if !Less(rule.stopTime, rule.startTime) then rule.startDate else rule.stopDate;
        var stopStr := stopDate + " " + rule.stopTime;
        if !Less(nowStr, stopStr) then INACTIVE else UntilStop(stopStr, nowUtc)
  }

  function IsRuleActive(weekday: int, nowDate: string, nowTime: string, rule: Rule, nowUtc: int): Answer
    requires ClockInRange(nowUtc)
  {
    if !rule.hasSection || !rule.hasEnabled || !rule.enabled then INACTIVE
    else if rule.macs == [] then INACTIVE
    else if rule.hasWeekdays then RecurringActive(weekday, nowDate, nowTime, rule, nowUtc)
    else if !rule.isClientAccessRule then INACTIVE
    else if !rule.hasClientAccessBoundary then Answer(true, PERMANENT)
    else BoundedActive(nowDate, nowTime, rule, nowUtc)
  }

  /** The call made for each rule, with the strings the caller formats from its one clock read. */
  function Evaluate(rule: Rule, now: int): Answer
    requires ClockInRange(now)
  {
    IsRuleActive(Weekday(now / 86_400_000_000), NowDate(now), NowTime(now), rule, now)
  }

  // ---------------------------------------------------------------- reference semantics

  /** `t` lies in the window opened on `day` at second `start`; a stop not after the start is next day. */
  predicate InWindow(start: int, stop: int, day: int, t: int) {
    day * 86_400_000_000 + start * 1_000_000 <= t < WindowEnd(start, stop, day) * 1_000_000
  }

  function WindowEnd(start: int, stop: int, day: int): int {
    day * 86_400 + stop + (if stop <= start then 86_400 else 0)
  }

  /** A recurring schedule as a set of instants. */
  ghost predicate Covers(start: int, stop: int, weekdays: set<int>, t: int) {
    exists day: int :: Weekday(day) in weekdays && InWindow(start, stop, day, t)
  }

  predicate Live(rule: Rule) {
    rule.hasSection && rule.hasEnabled && rule.enabled && rule.macs != []
  }

  /** Bounds of a date-bounded rule in epoch seconds. */
  predicate HasBounds(rule: Rule) {
    WellFormed(rule) && rule.hasStartDate && rule.hasStopDate && rule.hasStartTime && rule.hasStopTime
  }

  function StampOf(date: string, time: string): int
    requires IsValidDate(date) && IsValidTime(time)
  {
    ParseDateCanonical(date);
    DayOf(ParseDate(date).value) * 86_400 + ParseTime(time).value
  }

  function BoundStart(rule: Rule): int
    requires HasBounds(rule)
  {
    StampOf(rule.startDate, rule.startTime)
  }

  /** A time window within one day ends on the start date, whatever the stored stop date. */
  function BoundStop(rule: Rule): int
    requires HasBounds(rule)
  {
    if ParseTime(rule.startTime).value <= ParseTime(rule.stopTime).value
    then StampOf(rule.startDate, rule.stopTime)
    else StampOf(rule.stopDate, rule.stopTime)
  }

  /** When a rule blocks, as a statement about instants and not about strings. */
  ghost predicate Blocks(rule: Rule, t: int)
    requires WellFormed(rule)
  {
    Live(rule) &&
    if rule.hasWeekdays then
      rule.hasStartTime && rule.hasStopTime && rule.startTime != rule.stopTime
      && Covers(ParseTime(rule.startTime).value, ParseTime(rule.stopTime).value, rule.weekdays, t)
    else
      rule.isClientAccessRule
      && (rule.hasClientAccessBoundary
          ==> HasBounds(rule) && BoundStart(rule) * 1_000_000 <= t < BoundStop(rule) * 1_000_000)
  }

  // ---------------------------------------------------------------- strings mean instants

  lemma UntilStopOf(d: Date, t: nat, nowUtc: int)
    requires ValidDate(d) && t < 86_400
    ensures var stop := DayOf(d) * 86_400 + t;
            UntilStop(DateText(d) + " " + TimeText(t), nowUtc)
            == if stop * 1_000_000 <= nowUtc then INACTIVE else Answer(true, stop)
  {
    ParseDayTime(d, t);
  }

  /** The integer form of the recurring branch: the day whose date the stop string names. */
  function StopDay(a: int, b: int, weekdays: set<int>, now: int): Option<int> {
    var day, tod := now / 86_400_000_000, SecOf(now) % 86_400;
    if a == b then None
    else if a < b then
      if Weekday(day) in weekdays && a <= tod < b then Some(day) else None
    else if Weekday(day) in weekdays && a <= tod then Some(day + 1)
    else if Weekday(day - 1) in weekdays && tod < b then Some(day)
    else None
  }

  function RecurringSpec(a: int, b: int, weekdays: set<int>, now: int): Answer {
    match StopDay(a, b, weekdays, now)
    case None => INACTIVE
    case Some(day) => Answer(true, day * 86_400 + b)
  }

  lemma PreviousWeekday(day: int)
    ensures (Weekday(day) + 6) % 7 == Weekday(day - 1)
  {
  }

  lemma TimeOfDayOrder(x: string, y: string, now: int)
    requires IsValidTime(x) && IsValidTime(y)
    ensures x == y <==> ParseTime(x).value == ParseTime(y).value
    ensures Less(x, y) <==> ParseTime(x).value < ParseTime(y).value
    ensures Less(NowTime(now), x) <==> SecOf(now) % 86_400 < ParseTime(x).value
  {
    ParseTimeCanonical(x);
    ParseTimeCanonical(y);
    TimeTextOrder(ParseTime(x).value, ParseTime(y).value);
    TimeTextOrder(SecOf(now) % 86_400, ParseTime(x).value);
  }

  lemma StopOnDay(day: int, stop: string, now: int)
    requires DayInRange(day) && IsValidTime(stop)
    requires now < (day * 86_400 + ParseTime(stop).value) * 1_000_000
    ensures UntilStop(DateText(DateOf(day)) + " " + stop, now)
            == Answer(true, day * 86_400 + ParseTime(stop).value)
  {
    ParseTimeCanonical(stop);
    UntilStopOf(DateOf(day), ParseTime(stop).value, now);
  }

  /** The branches pick the day of `StopDay` once each string comparison is known as a number. */
  lemma RecurringStopIsStopDay(nowDate: string, nextDate: string, nowTime: string, start: string, stop: string,
                               weekdays: set<int>, a: int, b: int, now: int)
    requires start == stop <==> a == b
    requires Less(start, stop) <==> a < b
    requires Less(nowTime, start) <==> SecOf(now) % 86_400 < a
    requires Less(nowTime, stop) <==> SecOf(now) % 86_400 < b
    ensures var day := now / 86_400_000_000;
            RecurringStop(Weekday(day), nowDate, nextDate, nowTime, start, stop, weekdays)
            == match StopDay(a, b, weekdays, now)
               case None => None
               case Some(d) => Some(ChosenDate(d, day, nowDate, nextDate) + " " + stop)
  {
    PreviousWeekday(now / 86_400_000_000);
  }

  lemma StopDayIsAhead(a: int, b: int, weekdays: set<int>, now: int)
    requires ClockInRange(now) && 0 <= b
    ensures var day := now / 86_400_000_000;
            match StopDay(a, b, weekdays, now)
            case None => true
            case Some(d) => (d == day || d == day + 1) && DayInRange(d) && now < (d * 86_400 + b) * 1_000_000
  {
    SplitInstant(now);
  }

  lemma RecurringStopOf(rule: Rule, now: int)
    requires ClockInRange(now) && WellFormed(rule) && rule.hasStartTime && rule.hasStopTime
    ensures var day := now / 86_400_000_000;
            var nextDate := DateText(DateOf(day + 1));
            RecurringStop(Weekday(day), NowDate(now), nextDate, NowTime(now),
                          rule.startTime, rule.stopTime, rule.weekdays)
            == match StopDay(ParseTime(rule.startTime).value, ParseTime(rule.stopTime).value, rule.weekdays, now)
               case None => None
               case Some(d) => Some(ChosenDate(d, day, NowDate(now), nextDate) + " " + rule.stopTime)
  {
    var day := now / 86_400_000_000;
    TimeOfDayOrder(rule.startTime, rule.stopTime, now);
    TimeOfDayOrder(rule.stopTime, rule.startTime, now);
    RecurringStopIsStopDay(NowDate(now), DateText(DateOf(day + 1)), NowTime(now), rule.startTime, rule.stopTime,
                           rule.weekdays, ParseTime(rule.startTime).value, ParseTime(rule.stopTime).value, now);
  }

  function ChosenDate(d: int, day: int, nowDate: string, nextDate: string): string {
    if d == day then nowDate else nextDate
  }

  /** The stop string of the chosen day is read back as that day's stop. */
  lemma ChosenStopParses(rule: Rule, now: int, d: int)
    requires ClockInRange(now) && WellFormed(rule) && rule.hasStartTime && rule.hasStopTime
    requires StopDay(ParseTime(rule.startTime).value, ParseTime(rule.stopTime).value, rule.weekdays, now) == Some(d)
    ensures var day := now / 86_400_000_000;
            UntilStop(ChosenDate(d, day, NowDate(now), DateText(DateOf(day + 1))) + " " + rule.stopTime, now)
            == Answer(true, d * 86_400 + ParseTime(rule.stopTime).value)
  {
    StopDayIsAhead(ParseTime(rule.startTime).value, ParseTime(rule.stopTime).value, rule.weekdays, now);
    StopOnDay(d, rule.stopTime, now);
  }

  lemma RecurringIsSpec(rule: Rule, now: int)
    requires ClockInRange(now) && WellFormed(rule) && rule.hasStartTime && rule.hasStopTime
    ensures RecurringActive(Weekday(now / 86_400_000_000), NowDate(now), NowTime(now), rule, now)
            == RecurringSpec(ParseTime(rule.startTime).value, ParseTime(rule.stopTime).value, rule.weekdays, now)
  {
    var a, b := ParseTime(rule.startTime).value, ParseTime(rule.stopTime).value;
    RecurringStopOf(rule, now);
    match StopDay(a, b, rule.weekdays, now)
    case None =>
    case Some(d) => ChosenStopParses(rule, now, d);
  }

  /** The integer form of the date-bounded branch. */
  function BoundedSpec(start: int, stop: int, now: int): Answer {
    if start * 1_000_000 <= now < stop * 1_000_000 then Answer(true, stop) else INACTIVE
  }

  lemma StampOrderAt(now: int, d: Date, t: nat)
    requires ClockInRange(now) && ValidDate(d) && t < 86_400
    ensures Less(NowDate(now) + " " + NowTime(now), DateText(d) + " " + TimeText(t))
            <==> now < (DayOf(d) * 86_400 + t) * 1_000_000
  {
    DayOfSecond(now);
    DayTimeOrder(DateOf(now / 86_400_000_000), SecOf(now) % 86_400, d, t);
  }

  /** "date time" strings of a rule against the clock. */
  lemma RuleStampOrder(now: int, date: string, time: string)
    requires ClockInRange(now) && IsValidDate(date) && IsValidTime(time)
    ensures Less(NowDate(now) + " " + NowTime(now), date + " " + time) <==> now < StampOf(date, time) * 1_000_000
    ensures UntilStop(date + " " + time, now)
            == if StampOf(date, time) * 1_000_000 <= now then INACTIVE else Answer(true, StampOf(date, time))
  {
    ParseDateCanonical(date);
    ParseTimeCanonical(time);
    StampOrderAt(now, ParseDate(date).value, ParseTime(time).value);
    UntilStopOf(ParseDate(date).value, ParseTime(time).value, now);
  }

  lemma BoundedIsSpec(rule: Rule, now: int)
    requires ClockInRange(now) && HasBounds(rule)
    ensures BoundedActive(NowDate(now), NowTime(now), rule, now)
            == BoundedSpec(BoundStart(rule), BoundStop(rule), now)
  {
    TimeOfDayOrder(rule.stopTime, rule.startTime, now);
    RuleStampOrder(now, rule.startDate, rule.startTime);
    RuleStampOrder(now, rule.startDate, rule.stopTime);
    RuleStampOrder(now, rule.stopDate, rule.stopTime);
  }

  // ---------------------------------------------------------------- arithmetic of windows

  lemma SplitInstant(now: int)
    ensures var day, tod := now / 86_400_000_000, SecOf(now) % 86_400;
            day * 86_400_000_000 + tod * 1_000_000 <= now < day * 86_400_000_000 + (tod + 1) * 1_000_000
            && 0 <= tod < 86_400
  {
    DayOfSecond(now);
  }

  /** Only the window of today or of yesterday can contain an instant of today. */
  lemma WindowDays(a: int, b: int, day: int, now: int)
    requires 0 <= a < 86_400 && 0 <= b < 86_400
    requires InWindow(a, b, day, now)
    ensures day == now / 86_400_000_000 || (b <= a && day == now / 86_400_000_000 - 1)
  {
    SplitInstant(now);
  }

  lemma RecurringSpecMeaning(a: int, b: int, weekdays: set<int>, now: int)
    requires 0 <= a < 86_400 && 0 <= b < 86_400 && a != b
    ensures RecurringSpec(a, b, weekdays, now).active <==> Covers(a, b, weekdays, now)
  {
    SplitInstant(now);
    var day := now / 86_400_000_000;
    if Covers(a, b, weekdays, now) {
      var w: int :| Weekday(w) in weekdays && InWindow(a, b, w, now);
      WindowDays(a, b, w, now);
    }
    if RecurringSpec(a, b, weekdays, now).active {
      assert InWindow(a, b, day, now) || InWindow(a, b, day - 1, now);
    }
  }

  /** The evaluator decides exactly the set of instants the rule describes. */
  lemma EvaluateDecidesBlocks(rule: Rule, now: int)
    requires ClockInRange(now) && WellFormed(rule)
    ensures Evaluate(rule, now).active <==> Blocks(rule, now)
  {
    if Live(rule) {
      if rule.hasWeekdays {
        if rule.hasStartTime && rule.hasStopTime {
          RecurringIsSpec(rule, now);
          ParseTimeCanonical(rule.startTime);
          ParseTimeCanonical(rule.stopTime);
          if rule.startTime != rule.stopTime {
            RecurringSpecMeaning(ParseTime(rule.startTime).value, ParseTime(rule.stopTime).value,
                                 rule.weekdays, now);
          }
        }
      } else if rule.isClientAccessRule && rule.hasClientAccessBoundary && HasBounds(rule) {
        BoundedIsSpec(rule, now);
      }
    }
  }

  // ---------------------------------------------------------------- the reported stop

  lemma RecurringStopExact(a: int, b: int, weekdays: set<int>, now: int, u: int)
    requires 0 <= a < 86_400 && 0 <= b < 86_400
    requires now <= u && RecurringSpec(a, b, weekdays, now).active
    ensures var stop := RecurringSpec(a, b, weekdays, now).stopEpochSec;
            && now < stop * 1_000_000
            && (u < stop * 1_000_000 ==> RecurringSpec(a, b, weekdays, u) == Answer(true, stop))
            && (u == stop * 1_000_000 ==> RecurringSpec(a, b, weekdays, u) == INACTIVE)
  {
    SplitInstant(now);
    SplitInstant(u);
    var stop := RecurringSpec(a, b, weekdays, now).stopEpochSec;
    if u <= stop * 1_000_000 {
      assert now / 86_400_000_000 <= u / 86_400_000_000 <= now / 86_400_000_000 + 1;
    }
  }

  /** A finite stop is after now, the rule blocks with that same stop until it, and not at it. */
  lemma StopIsExact(rule: Rule, now: int, u: int)
    requires ClockInRange(now) && ClockInRange(u) && WellFormed(rule) && now <= u
    requires Evaluate(rule, now).active && Evaluate(rule, now).stopEpochSec != PERMANENT
    ensures var stop := Evaluate(rule, now).stopEpochSec;
            && now < stop * 1_000_000
            && (u < stop * 1_000_000 ==> Evaluate(rule, u) == Evaluate(rule, now))
            && (u == stop * 1_000_000 ==> Evaluate(rule, u) == INACTIVE)
  {
    if rule.hasWeekdays {
      RecurringIsSpec(rule, now);
      RecurringIsSpec(rule, u);
      ParseTimeCanonical(rule.startTime);
      ParseTimeCanonical(rule.stopTime);
      RecurringStopExact(ParseTime(rule.startTime).value, ParseTime(rule.stopTime).value,
                         rule.weekdays, now, u);
    } else {
      BoundedIsSpec(rule, now);
      BoundedIsSpec(rule, u);
    }
  }

  /** A permanent answer never ends, and finite answers cannot be mistaken for it. */
  lemma PermanentIsForever(rule: Rule, now: int, u: int)
    requires ClockInRange(now) && ClockInRange(u) && WellFormed(rule)
    requires Evaluate(rule, now).active
    ensures Evaluate(rule, now).stopEpochSec == PERMANENT
            <==> !rule.hasWeekdays && rule.isClientAccessRule && !rule.hasClientAccessBoundary
    ensures Evaluate(rule, now).stopEpochSec == PERMANENT ==> Evaluate(rule, u) == Evaluate(rule, now)
    ensures Evaluate(rule, now).stopEpochSec != PERMANENT ==> Evaluate(rule, now).stopEpochSec > 0
  {
    if rule.hasWeekdays {
      RecurringIsSpec(rule, now);
      ParseTimeCanonical(rule.startTime);
      ParseTimeCanonical(rule.stopTime);
      RecurringStopExact(ParseTime(rule.startTime).value, ParseTime(rule.stopTime).value,
                         rule.weekdays, now, now);
    } else if rule.hasClientAccessBoundary {
      BoundedIsSpec(rule, now);
    }
  }
}
