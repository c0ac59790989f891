/**
 What the rule table remembers of its commands: the last value set for each
 parameter, the MACs added, and nothing about order across parameters or
 sections. Also the shape every reachable table has.
 */
module RuleHistory {
  import opened Text
  import opened FirewallRules
  import opened RuleTable

  /** The value of the last "set" of a parameter. */
  function LastSet(actions: seq<Action>, param: Param): Option<string> {
    if actions == [] then None
    else
      match actions[|actions| - 1]
      case Set(p, val) => if p == param then Some(val) else LastSet(actions[..|actions| - 1], param)
      case _ => LastSet(actions[..|actions| - 1], param)
  }

  /** The MACs added, in order. */
  function AddedMacs(actions: seq<Action>): seq<string> {
    if actions == [] then []
    else
      var front := AddedMacs(actions[..|actions| - 1]);
      match actions[|actions| - 1]
      case AddMac(mac) => front + [mac]
      case _ => front
  }

  /** Everything the table can know about one section. */
  datatype Memory = Memory(
    enabled: Option<string>, startDate: Option<string>, stopDate: Option<string>,
    startTime: Option<string>, stopTime: Option<string>, weekdays: Option<string>,
    declared: bool, named: bool, macs: seq<string>)

  function Recall(actions: seq<Action>): Memory {
    Memory(LastSet(actions, Enabled), LastSet(actions, StartDate), LastSet(actions, StopDate),
           LastSet(actions, StartTime), LastSet(actions, StopTime), LastSet(actions, Weekdays),
           Declare in actions, actions != [], AddedMacs(actions))
  }

  function OrEmpty(s: Option<string>): string {
    if s.Some? then s.value else ""
  }

  function DaysOf(s: Option<string>): Option<set<int>> {
    if s.Some? then WeekdaySet(s.value) else None
  }

  /** The rule a section's last values describe. */
  function Describe(clientAccess: bool, m: Memory): Rule {
    var startDate, stopDate := if clientAccess then m.startDate else None, if clientAccess then m.stopDate else None;
    var days := if clientAccess then None else DaysOf(m.weekdays);
    Rule(
      enabled := m.enabled == Some("1"), hasEnabled := m.enabled.Some?, hasSection := m.declared,
      startDate := OrEmpty(startDate), hasStartDate := startDate.Some? && IsValidDate(startDate.value),
      stopDate := OrEmpty(stopDate), hasStopDate := stopDate.Some? && IsValidDate(stopDate.value),
      startTime := OrEmpty(m.startTime), hasStartTime := m.startTime.Some? && IsValidTime(m.startTime.value),
      stopTime := OrEmpty(m.stopTime), hasStopTime := m.stopTime.Some? && IsValidTime(m.stopTime.value),
      weekdays := (if days.Some? then days.value else {}), hasWeekdays := days.Some?,
      isClientAccessRule := clientAccess && m.named,
      hasClientAccessBoundary := clientAccess
        && (m.startDate.Some? || m.stopDate.Some? || m.startTime.Some? || m.stopTime.Some?),
      macs := m.macs)
  }

  /** How one action changes what is remembered. */
  function Remember(a: Action, m: Memory): Memory {
    var n := m.(named := true);
    match a
    case Mention => n
    case Declare => n.(declared := true)
    case Set(param, val) => RememberSet(param, val, n)
    case AddMac(mac) => n.(macs := m.macs + [mac])
  }

  function RememberSet(param: Param, val: string, m: Memory): Memory {
    match param
    case Enabled => m.(enabled := Some(val))
    case StartDate => m.(startDate := Some(val))
    case StopDate => m.(stopDate := Some(val))
    case StartTime => m.(startTime := Some(val))
    case StopTime => m.(stopTime := Some(val))
    case Weekdays => m.(weekdays := Some(val))
    case _ => m
  }

  lemma RecallSnoc(actions: seq<Action>, a: Action)
    ensures Recall(actions + [a]) == Remember(a, Recall(actions))
  {
    assert (actions + [a])[..|actions|] == actions;
    assert Declare in actions + [a] <==> Declare in actions || a == Declare;
  }

  /** One action moves the described rule as it moves the stored one. */
  lemma DescribeStep(clientAccess: bool, a: Action, m: Memory, entry: Option<Rule>)
    requires OrEmptyRule(entry) == Describe(clientAccess, m)
    ensures OrEmptyRule(StepEntry(clientAccess, a, entry)) == Describe(clientAccess, Remember(a, m))
  {
    var n := m.(named := true);
    assert OrEmptyRule(Mark(clientAccess, entry)) == Describe(clientAccess, n);
    DescribeEdit(clientAccess, a, n, Describe(clientAccess, n));
  }

  lemma DescribeEdit(clientAccess: bool, a: Action, m: Memory, r: Rule)
    requires m.named && r == Describe(clientAccess, m)
    ensures (match Edit(clientAccess, a, r) case None => r case Some(e) => e) == Describe(clientAccess, Remember(a, m))
  {
    match a
    case Mention =>
    case Declare =>
    case Set(param, val) => DescribeSet(clientAccess, param, val, m);
    case AddMac(mac) =>
  }

  /** Setting a parameter moves the described rule as it moves the stored one. */
  predicate SetMatches(clientAccess: bool, param: Param, val: string, m: Memory) {
    var r := Describe(clientAccess, m);
    var edited := SetParam(clientAccess, param, val, r);
    (if edited.Some? then edited.value else r) == Describe(clientAccess, RememberSet(param, val, m))
  }

  lemma DescribeTime(clientAccess: bool, param: Param, val: string, m: Memory)
    requires param == StartTime || param == StopTime
    ensures SetMatches(clientAccess, param, val, m)
  {
  }

  lemma DescribeDate(clientAccess: bool, param: Param, val: string, m: Memory)
    requires param == StartDate || param == StopDate
    ensures SetMatches(clientAccess, param, val, m)
  {
  }

  lemma DescribeWeekdays(clientAccess: bool, val: string, m: Memory)
    ensures SetMatches(clientAccess, Weekdays, val, m)
  {
  }

  lemma DescribeOther(clientAccess: bool, param: Param, val: string, m: Memory)
    requires param == Enabled || param == SrcMac || param == Unknown
    ensures SetMatches(clientAccess, param, val, m)
  {
  }

  lemma DescribeSet(clientAccess: bool, param: Param, val: string, m: Memory)
    ensures SetMatches(clientAccess, param, val, m)
  {
    if param == StartTime || param == StopTime {
      DescribeTime(clientAccess, param, val, m);
    } else if param == StartDate || param == StopDate {
      DescribeDate(clientAccess, param, val, m);
    } else if param == Weekdays {
      DescribeWeekdays(clientAccess, val, m);
    } else {
      DescribeOther(clientAccess, param, val, m);
    }
  }

  lemma {:induction false} LastSetWinsForActions(clientAccess: bool, actions: seq<Action>)
    ensures OrEmptyRule(FoldActions(clientAccess, actions)) == Describe(clientAccess, Recall(actions))
  {
    if actions != [] {
      var front, a := actions[..|actions| - 1], actions[|actions| - 1];
      LastSetWinsForActions(clientAccess, front);
      assert actions == front + [a];
      RecallSnoc(front, a);
      DescribeStep(clientAccess, a, Recall(front), FoldActions(clientAccess, front));
    }
  }

  /** Last set wins: the table entry is the one its last values describe, for every section. */
  lemma LastSetWins(cmds: seq<Command>, section: string)
    ensures Get(Fold(cmds), section) == Describe(IsClientAccess(section), Recall(Projection(cmds, section)))
  {
    FoldIsPointwise(cmds, section);
    LastSetWinsForActions(IsClientAccess(section), Projection(cmds, section));
  }

  // ---------------------------------------------------------------- reachable tables

  /** The kind of a section decides which fields of its rule can ever be filled. */
  predicate WellShaped(section: string, r: Rule) {
    && WellFormed(r)
    && (r.hasWeekdays ==> IsSchedule(section) && r.weekdays != {} && forall d :: d in r.weekdays ==> 0 <= d <= 6)
    && (r.hasClientAccessBoundary ==> IsClientAccess(section))
    && (r.isClientAccessRule <==> IsClientAccess(section))
    && !(r.hasWeekdays && r.hasClientAccessBoundary)
  }

  lemma WeekdaySetBound(val: string)
    requires WeekdaySet(val).Some?
    ensures WeekdaySet(val).value != {} && forall d :: d in WeekdaySet(val).value ==> 0 <= d <= 6
  {
    DaysNamedBound(Words(Unquote(val)));
  }

  lemma {:induction false} EntriesAreNamed(cmds: seq<Command>, section: string)
    requires section in Fold(cmds)
    ensures Projection(cmds, section) != [] && IsRuleKey(section)
  {
    var front, c := cmds[..|cmds| - 1], cmds[|cmds| - 1];
    if section in Fold(front) {
      EntriesAreNamed(front, section);
    } else {
      SectionKind(c.key);
    }
  }

  lemma ReachableTablesAreWellShaped(cmds: seq<Command>, section: string)
    requires section in Fold(cmds)
    ensures WellShaped(section, Fold(cmds)[section])
  {
    LastSetWins(cmds, section);
    EntriesAreNamed(cmds, section);
    KindsAreDisjoint(section);
    var m := Recall(Projection(cmds, section));
    if DaysOf(m.weekdays).Some? { WeekdaySetBound(m.weekdays.value); }
  }
}
