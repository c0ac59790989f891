/**
 The rule table that a gateway's `config-raw` commands describe. Each command is
 ["op", "key", "value"]; keys name a firewall section and, after the next dot, a
 parameter of it.
 */
module RuleTable {
  import opened Text
  import opened FirewallRules
  import opened Json

  const CLIENT_ACCESS_PREFIX := "firewall.pc_client_access_"
  const SCHEDULE_PREFIX := "firewall.pc_rule_g"

  type Table = map<string, Rule>

  datatype Command = Command(op: string, key: string, val: string)

  // ---------------------------------------------------------------- reading a command

  /** Entries that are not arrays of exactly three texts are skipped. */
  function ReadCommand(v: Value): Option<Command> {
    if !v.Arr? || |v.items| != 3 then None
    else
      match (AsText(v.items[0]), AsText(v.items[1]), AsText(v.items[2]))
      case (Some(op), Some(key), Some(val)) => Some(Command(op, key, val))
      case _ => None
  }

  predicate IsClientAccess(key: string) { CLIENT_ACCESS_PREFIX <= key }
  predicate IsSchedule(key: string) { SCHEDULE_PREFIX <= key }

  lemma KindsAreDisjoint(key: string)
    ensures !(IsClientAccess(key) && IsSchedule(key))
  {
    assert CLIENT_ACCESS_PREFIX[12] != SCHEDULE_PREFIX[12];
  }

  predicate IsRuleKey(key: string) { IsClientAccess(key) || IsSchedule(key) }

  /** First dot after the prefix, or the length of the key. */
  function DotAt(key: string): (r: nat)
    requires IsRuleKey(key)
    ensures r <= |key|
  {
    Find(key, '.', if IsClientAccess(key) then |CLIENT_ACCESS_PREFIX| else |SCHEDULE_PREFIX|)
  }

  function SectionOf(key: string): string
    requires IsRuleKey(key)
  {
    key[..DotAt(key)]
  }

  /** The parameter name, or None when the key names the section itself. */
  function ParamOf(key: string): Option<string>
    requires IsRuleKey(key)
  {
    if DotAt(key) == |key| then None else Some(key[DotAt(key) + 1..])
  }

  /** A section has the kind of the keys that name it. */
  lemma SectionKind(key: string)
    requires IsRuleKey(key)
    ensures IsClientAccess(SectionOf(key)) == IsClientAccess(key)
    ensures IsSchedule(SectionOf(key)) == IsSchedule(key)
  {
    KindsAreDisjoint(key);
    KindsAreDisjoint(SectionOf(key));
    if IsClientAccess(key) {
      assert SectionOf(key)[..|CLIENT_ACCESS_PREFIX|] == CLIENT_ACCESS_PREFIX;
    } else {
      assert SectionOf(key)[..|SCHEDULE_PREFIX|] == SCHEDULE_PREFIX;
    }
  }

  // ---------------------------------------------------------------- weekday lists and MACs

  /** Length of the run of non-blank characters at the front. */
  function WordLength(s: string): (n: nat)
    ensures n <= |s|
  {
    if s == [] || IsSpace(s[0]) then 0 else 1 + WordLength(s[1..])
  }

  /** Whitespace-separated words, as stream extraction yields them. */
  function Words(s: string): seq<string>
    decreases |s|
  {
    if s == [] then []
    else if IsSpace(s[0]) then Words(s[1..])
    else [s[..WordLength(s)]] + Words(s[WordLength(s)..])
  }

  function DayNumber(token: string): Option<int> {
    if token == "Sun" then Some(0)
    else if token == "Mon" then Some(1)
    else if token == "Tue" then Some(2)
    else if token == "Wed" then Some(3)
    else if token == "Thu" then Some(4)
    else if token == "Fri" then Some(5)
    else if token == "Sat" then Some(6)
    else None
  }

  function Unquote(val: string): string {
    if |val| >= 2 && val[0] == '\'' && val[|val| - 1] == '\'' then val[1..|val| - 1] else val
  }

  /** The days named by `tokens`, provided every token is a day name. */
  function DaysNamed(tokens: seq<string>): Option<set<int>> {
    if tokens == [] then Some({})
    else
      match (DaysNamed(tokens[..|tokens| - 1]), DayNumber(tokens[|tokens| - 1]))
      case (Some(days), Some(d)) => Some(days + {d})
      case _ => None
  }

  /** None for an empty list or one with an unknown name. */
  function WeekdaySet(val: string): Option<set<int>> {
    match DaysNamed(Words(Unquote(val)))
    case None => None
    case Some(days) => if days == {} then None else Some(days)
  }

  lemma {:induction false} DaysNamedBound(tokens: seq<string>)
    requires DaysNamed(tokens).Some?
    ensures forall d :: d in DaysNamed(tokens).value ==> 0 <= d <= 6
  {
    if tokens != [] { DaysNamedBound(tokens[..|tokens| - 1]); }
  }

  lemma {:induction false} DaysNamedPrefix(tokens: seq<string>, i: nat)
    requires i <= |tokens| && DaysNamed(tokens).Some?
    ensures DaysNamed(tokens[..i]).Some?
    decreases |tokens|
  {
    if i == |tokens| {
      assert tokens[..i] == tokens;
    } else {
      var front := tokens[..|tokens| - 1];
      DaysNamedPrefix(front, i);
      assert front[..i] == tokens[..i];
    }
  }

  method ParseWeekdays(val: string) returns (days: Option<set<int>>)
    ensures days == WeekdaySet(val)
  {
    var tokens := Words(Unquote(val));
    var parsed: set<int> := {};
    var i := 0;
    while i < |tokens|
      invariant 0 <= i <= |tokens|
      invariant DaysNamed(tokens[..i]) == Some(parsed)
    {
      var d := DayNumber(tokens[i]);
      assert tokens[..i + 1][..i] == tokens[..i];
      if d.None? {
        assert DaysNamed(tokens[..i + 1]) == None;
        if DaysNamed(tokens).Some? { DaysNamedPrefix(tokens, i + 1); }
        return None;
      }
      parsed := parsed + {d.value};
      i := i + 1;
    }
    assert tokens[..i] == tokens;
    return if parsed == {} then None else Some(parsed);
  }

  function Without(s: string, c: char): string {
    if s == [] then [] else (if s[0] == c then [] else [s[0]]) + Without(s[1..], c)
  }

  /** Twelve hex digits, separators dropped, lower case. */
  function NormalizeMac(mac: string): Option<string> {
    var m := Without(Without(mac, ':'), '-');
    if |m| == 12 && forall i :: 0 <= i < |m| ==> IsHexDigit(m[i]) then Some(ToLower(m)) else None
  }

  // ---------------------------------------------------------------- effect of one command

  function Get(rules: Table, section: string): Rule {
    if section in rules then rules[section] else EMPTY_RULE
  }

  /** An unreadable list clears the weekdays. */
  function SetDays(days: Option<set<int>>, r: Rule): Rule {
    match days
    case None => r.(weekdays := {}, hasWeekdays := false)
    case Some(d) => r.(weekdays := d, hasWeekdays := true)
  }

  /** The parameter names the table knows. */
  datatype Param = Enabled | StartTime | StopTime | StartDate | StopDate | Weekdays | SrcMac | Unknown

  function ParamNamed(param: string): Param {
    if param == "enabled" then Enabled
    else if param == "start_time" then StartTime
    else if param == "stop_time" then StopTime
    else if param == "start_date" then StartDate
    else if param == "stop_date" then StopDate
    else if param == "weekdays" then Weekdays
    else if param == "src_mac" then SrcMac
    else Unknown
  }

  /** "set section.param val"; None when the parameter is not one the table keeps for this kind. */
  function SetParam(clientAccess: bool, param: Param, val: string, r: Rule): Option<Rule> {
    match param
    case Enabled => Some(r.(enabled := val == "1", hasEnabled := true))
    case StartTime =>
      Some(r.(startTime := val, hasStartTime := IsValidTime(val),
              hasClientAccessBoundary := r.hasClientAccessBoundary || clientAccess))
    case StopTime =>
      Some(r.(stopTime := val, hasStopTime := IsValidTime(val),
              hasClientAccessBoundary := r.hasClientAccessBoundary || clientAccess))
    case StartDate =>
      if clientAccess
      then Some(r.(startDate := val, hasStartDate := IsValidDate(val), hasClientAccessBoundary := true)) else None
    case StopDate =>
      if clientAccess
      then Some(r.(stopDate := val, hasStopDate := IsValidDate(val), hasClientAccessBoundary := true)) else None
    case Weekdays => if clientAccess then None else Some(SetDays(WeekdaySet(val), r))
    case _ => None
  }

  /** What a command asks of its section; `Mention` asks nothing but still names it. */
  datatype Action = Mention | Declare | Set(param: Param, val: string) | AddMac(mac: string)

  function ActionOf(c: Command): Action
    requires IsRuleKey(c.key)
  {
    NamedAction(c.op, ParamOf(c.key), c.val)
  }

  function NamedAction(op: string, name: Option<string>, val: string): Action {
    match name
    case None => if op == "set" && val == "rule" then Declare else Mention
    case Some(param) => ParamAction(op, ParamNamed(param), val)
  }

  function ParamAction(op: string, param: Param, val: string): Action {
    if op == "set" then Set(param, val)
    else if op == "add_list" && param == SrcMac then
      match NormalizeMac(val)
      case None => Mention
      case Some(mac) => AddMac(mac)
    else Mention
  }

  /** The rule after an action; None when the action stores nothing. */
  function Edit(clientAccess: bool, a: Action, r: Rule): Option<Rule> {
    match a
    case Mention => None
    case Declare => Some(r.(hasSection := true))
    case Set(param, val) => SetParam(clientAccess, param, val, r)
    case AddMac(mac) => Some(r.(macs := r.macs + [mac]))
  }

  function OrEmptyRule(entry: Option<Rule>): Rule {
    if entry.Some? then entry.value else EMPTY_RULE
  }

  /** Any command on a client-access section creates and marks its entry. */
  function Mark(clientAccess: bool, entry: Option<Rule>): Option<Rule> {
    if clientAccess then Some(OrEmptyRule(entry).(isClientAccessRule := true)) else entry
  }

  function StepEntry(clientAccess: bool, a: Action, entry: Option<Rule>): Option<Rule> {
    var marked := Mark(clientAccess, entry);
    match Edit(clientAccess, a, OrEmptyRule(marked))
    case None => marked
    case Some(r) => Some(r)
  }

  function Entry(rules: Table, section: string): Option<Rule> {
    if section in rules then Some(rules[section]) else None
  }

  function Store(rules: Table, section: string, entry: Option<Rule>): Table {
    if entry.Some? then rules[section := entry.value] else rules
  }

  function Step(rules: Table, c: Command): Table {
    if !IsRuleKey(c.key) then rules
    else
      var section := SectionOf(c.key);
      Store(rules, section, StepEntry(IsClientAccess(c.key), ActionOf(c), Entry(rules, section)))
  }

  function Fold(cmds: seq<Command>): Table {
    if cmds == [] then map[] else Step(Fold(cmds[..|cmds| - 1]), cmds[|cmds| - 1])
  }

  /** A table that some command list builds. */
  ghost predicate Reachable(rules: Table) {
    exists cmds :: Fold(cmds) == rules
  }

  function Commands(configRaw: seq<Value>): seq<Command> {
    if configRaw == [] then []
    else
      var front := Commands(configRaw[..|configRaw| - 1]);
      match ReadCommand(configRaw[|configRaw| - 1])
      case None => front
      case Some(c) => front + [c]
  }

  /** One more entry of the list is one more step of the fold, or none. */
  lemma FoldNext(configRaw: seq<Value>, i: nat)
    requires i < |configRaw|
    ensures Fold(Commands(configRaw[..i + 1]))
            == match ReadCommand(configRaw[i])
               case None => Fold(Commands(configRaw[..i]))
               case Some(c) => Step(Fold(Commands(configRaw[..i])), c)
  {
    CommandsNext(configRaw, i);
    match ReadCommand(configRaw[i])
    case None =>
    case Some(c) => FoldSnoc(Commands(configRaw[..i]), c);
  }

  lemma CommandsNext(configRaw: seq<Value>, i: nat)
    requires i < |configRaw|
    ensures Commands(configRaw[..i + 1])
            == match ReadCommand(configRaw[i])
               case None => Commands(configRaw[..i])
               case Some(c) => Commands(configRaw[..i]) + [c]
  {
    assert configRaw[..i + 1][..i] == configRaw[..i];
  }

  lemma FoldSnoc(cmds: seq<Command>, c: Command)
    ensures Fold(cmds + [c]) == Step(Fold(cmds), c)
  {
    assert (cmds + [c])[..|cmds|] == cmds;
  }

  /** The source's loop, with its default-inserting `rules[section]` accesses. */
  method BuildRules(configRaw: seq<Value>) returns (rules: Table)
    ensures rules == Fold(Commands(configRaw))
  {
    rules := map[];
    var i := 0;
    while i < |configRaw|
      invariant 0 <= i <= |configRaw|
      invariant rules == Fold(Commands(configRaw[..i]))
    {
      FoldNext(configRaw, i);
      var cmd := ReadCommand(configRaw[i]);
      if cmd.Some? {
        rules := ApplyCommand(rules, cmd.value);
      }
      i := i + 1;
    }
    assert configRaw[..i] == configRaw;
  }

  method ApplyCommand(table: Table, c: Command) returns (rules: Table)
    ensures rules == Step(table, c)
  {
    rules := table;
    var isClientAccessRule := IsClientAccess(c.key);
    if !isClientAccessRule && !IsSchedule(c.key) {
      return;
    }
    var section := SectionOf(c.key);
    if isClientAccessRule {
      rules := rules[section := Get(rules, section).(isClientAccessRule := true)];
    }
    ghost var marked := rules;
    rules := ApplyToSection(rules, section, isClientAccessRule, c.op, ParamOf(c.key), c.val);
    StepInTwoStages(table, section, isClientAccessRule, ActionOf(c), marked, rules);
  }

  /** Marking the section and then editing it is one step of the fold. */
  lemma StepInTwoStages(table: Table, section: string, clientAccess: bool, a: Action, marked: Table, rules: Table)
    requires marked == if clientAccess then table[section := Get(table, section).(isClientAccessRule := true)] else table
    requires rules == Store(marked, section, Edit(clientAccess, a, Get(marked, section)))
    ensures rules == Store(table, section, StepEntry(clientAccess, a, Entry(table, section)))
  {
  }

  /** The section itself is declared, or one of its parameters edited. */
  method ApplyToSection(table: Table, section: string, clientAccess: bool, op: string, name: Option<string>, val: string)
      returns (rules: Table)
    ensures rules == Store(table, section, Edit(clientAccess, NamedAction(op, name, val), Get(table, section)))
  {
    rules := table;
    if name.None? {
      if op == "set" && val == "rule" {
        rules := rules[section := Get(rules, section).(hasSection := true)];
      }
    } else {
      rules := ApplyParam(rules, section, clientAccess, op, ParamNamed(name.value), val);
    }
  }

  method ApplyParam(table: Table, section: string, clientAccess: bool, op: string, param: Param, val: string)
      returns (rules: Table)
    ensures rules == Store(table, section, Edit(clientAccess, ParamAction(op, param, val), Get(table, section)))
  {
    rules := table;
    if op == "set" {
      if !clientAccess && param == Weekdays {
        var days := ParseWeekdays(val);
        rules := ClearThenSet(rules, section, days);
      } else {
        rules := Store(rules, section, SetParam(clientAccess, param, val, Get(rules, section)));
      }
    } else if op == "add_list" && param == SrcMac {
      var mac := NormalizeMac(val);
      if mac.Some? {
        rules := rules[section := Get(rules, section).(macs := Get(rules, section).macs + [mac.value])];
      }
    }
  }

  lemma Overwrite(table: Table, section: string, a: Rule, b: Rule)
    ensures Get(table[section := a], section) == a
    ensures table[section := a][section := b] == table[section := b]
  {
  }

  /** The old weekdays are cleared before the new ones are stored. */
  method ClearThenSet(table: Table, section: string, days: Option<set<int>>) returns (rules: Table)
    ensures rules == table[section := SetDays(days, Get(table, section))]
  {
    var cleared := SetDays(None, Get(table, section));
    rules := table[section := cleared];
    if days.Some? {
      var r := SetDays(days, Get(rules, section));
      Overwrite(table, section, cleared, r);
      rules := rules[section := r];
    }
  }

  // ---------------------------------------------------------------- sections do not interact

  predicate Concerns(c: Command, section: string) {
    IsRuleKey(c.key) && SectionOf(c.key) == section
  }

  /** What a command list asks of one section, in order. */
  function Projection(cmds: seq<Command>, section: string): seq<Action> {
    if cmds == [] then []
    else
      var front := Projection(cmds[..|cmds| - 1], section);
      var c := cmds[|cmds| - 1];
      if Concerns(c, section) then front + [ActionOf(c)] else front
  }

  function FoldActions(clientAccess: bool, actions: seq<Action>): Option<Rule> {
    if actions == [] then None
    else StepEntry(clientAccess, actions[|actions| - 1], FoldActions(clientAccess, actions[..|actions| - 1]))
  }

  lemma FoldActionsSnoc(clientAccess: bool, actions: seq<Action>, a: Action)
    ensures FoldActions(clientAccess, actions + [a]) == StepEntry(clientAccess, a, FoldActions(clientAccess, actions))
  {
    assert (actions + [a])[..|actions|] == actions;
  }

  /** An entry is decided by the actions on its own section. */
  lemma {:induction false} FoldIsPointwise(cmds: seq<Command>, section: string)
    ensures Entry(Fold(cmds), section) == FoldActions(IsClientAccess(section), Projection(cmds, section))
  {
    if cmds != [] {
      var front, c := cmds[..|cmds| - 1], cmds[|cmds| - 1];
      FoldIsPointwise(front, section);
      if Concerns(c, section) {
        SectionKind(c.key);
        FoldActionsSnoc(IsClientAccess(section), Projection(front, section), ActionOf(c));
      }
    }
  }

  /** Any two command lists with the same commands per section build the same table. */
  lemma InterleavingIsIrrelevant(a: seq<Command>, b: seq<Command>)
    requires forall section :: Projection(a, section) == Projection(b, section)
    ensures Fold(a) == Fold(b)
  {
    forall section: string ensures Entry(Fold(a), section) == Entry(Fold(b), section) {
      FoldIsPointwise(a, section);
      FoldIsPointwise(b, section);
    }
    SameEntries(Fold(a), Fold(b));
  }

  lemma SameEntries(a: Table, b: Table)
    requires forall section :: Entry(a, section) == Entry(b, section)
    ensures a == b
  {
    assert forall s :: s in a ==> Entry(a, s) == Entry(b, s);
    assert forall s :: s in b ==> Entry(a, s) == Entry(b, s);
  }

  lemma {:induction false} ProjectionConcat(a: seq<Command>, b: seq<Command>, section: string)
    ensures Projection(a + b, section) == Projection(a, section) + Projection(b, section)
  {
    if b == [] {
      assert a + b == a;
    } else {
      ProjectionConcat(a, b[..|b| - 1], section);
      assert (a + b)[..|a + b| - 1] == a + b[..|b| - 1];
    }
  }

  lemma ProjectionOne(a: Command, section: string)
    ensures Projection([a], section) == if Concerns(a, section) then [ActionOf(a)] else []
  {
    assert Projection([a][..0], section) == [];
  }

  lemma ProjectionPair(a: Command, b: Command, section: string)
    ensures Projection([a, b], section)
            == (if Concerns(a, section) then [ActionOf(a)] else [])
               + (if Concerns(b, section) then [ActionOf(b)] else [])
  {
    ProjectionOne(a, section);
    assert [a, b][..1] == [a];
  }

  /** Adjacent commands of different sections commute anywhere in a command list. */
  lemma SwapIsIrrelevant(before: seq<Command>, a: Command, b: Command, after: seq<Command>)
    requires forall section :: !(Concerns(a, section) && Concerns(b, section))
    ensures Fold(before + [a, b] + after) == Fold(before + [b, a] + after)
  {
    forall section: string
      ensures Projection(before + [a, b] + after, section) == Projection(before + [b, a] + after, section)
    {
      ProjectionConcat(before + [a, b], after, section);
      ProjectionConcat(before + [b, a], after, section);
      ProjectionConcat(before, [a, b], section);
      ProjectionConcat(before, [b, a], section);
      ProjectionPair(a, b, section);
      ProjectionPair(b, a, section);
    }
    InterleavingIsIrrelevant(before + [a, b] + after, before + [b, a] + after);
  }
}
