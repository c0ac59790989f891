/**
 Commands as the firewall service writes them, with the key strings spelled out, and the
 rule the table ends with: each parameter's last written value in its own field, weekdays
 by their English names, MAC addresses in any notation.
 */
module WrittenRules {
  import opened Text
  import opened Json
  import opened Calendar
  import opened FirewallRules
  import opened RuleTable
  import opened RuleHistory

  // ---------------------------------------------------------------- config-raw entries

  function AsEntry(c: Command): Value {
    Arr([Str(c.op), Str(c.key), Str(c.val)])
  }

  /** A command written as three strings is read as it was written. */
  lemma {:induction false} EntriesReadBack(cmds: seq<Command>)
    ensures Commands(seq(|cmds|, i requires 0 <= i < |cmds| => AsEntry(cmds[i]))) == cmds
  {
    var entries := seq(|cmds|, i requires 0 <= i < |cmds| => AsEntry(cmds[i]));
    if cmds != [] {
      var n := |cmds| - 1;
      var front := cmds[..n];
      EntriesReadBack(front);
      assert entries[..n] == seq(|front|, i requires 0 <= i < |front| => AsEntry(front[i]));
      assert ReadCommand(entries[n]) == Some(cmds[n]);
      assert cmds == front + [cmds[n]];
    }
  }

  // ---------------------------------------------------------------- weekday names

  const DAY_NAMES: seq<string> := ["Sun", "Mon", "Tue", "Wed", "Thu", "Fri", "Sat"]

  predicate AllDays(days: seq<int>) {
    forall i :: 0 <= i < |days| ==> 0 <= days[i] <= 6
  }

  function NamesOf(days: seq<int>): seq<string>
    requires AllDays(days)
  {
    seq(|days|, i requires 0 <= i < |days| => DAY_NAMES[days[i]])
  }

  /** The names separated by single blanks. */
  function DaysText(days: seq<int>): string
    requires AllDays(days)
  {
    Join(NamesOf(days), ' ')
  }

  predicate IsWord(w: string) {
    w != "" && forall i :: 0 <= i < |w| ==> !IsSpace(w[i])
  }

  lemma {:induction false} WordLengthOf(w: string, rest: string)
    requires (forall i :: 0 <= i < |w| ==> !IsSpace(w[i])) && (rest != "" ==> IsSpace(rest[0]))
    ensures WordLength(w + rest) == |w|
  {
    if w == "" {
      assert w + rest == rest;
    } else {
      WordLengthOf(w[1..], rest);
      assert (w + rest)[1..] == w[1..] + rest;
    }
  }

  lemma FirstWord(w: string, rest: string)
    requires IsWord(w) && (rest != "" ==> IsSpace(rest[0]))
    ensures Words(w + rest) == [w] + Words(rest)
  {
    WordLengthOf(w, rest);
    assert (w + rest)[..|w|] == w && (w + rest)[|w|..] == rest;
  }

  lemma {:induction false} WordsOfJoin(words: seq<string>)
    requires forall i :: 0 <= i < |words| ==> IsWord(words[i])
    ensures Words(Join(words, ' ')) == words
  {
    if |words| == 1 {
      FirstWord(words[0], "");
      assert words[0] + "" == words[0];
    } else if |words| > 1 {
      var rest := words[1..];
      WordsOfJoin(rest);
      var tail := " " + Join(rest, ' ');
      FirstWord(words[0], tail);
      assert tail[1..] == Join(rest, ' ');
      assert Join(words, ' ') == words[0] + tail;
    }
  }

  lemma NameOfDay(d: int)
    requires 0 <= d <= 6
    ensures IsWord(DAY_NAMES[d]) && DayNumber(DAY_NAMES[d]) == Some(d) && DAY_NAMES[d][0] != '\''
  {
  }

  function SetOf(days: seq<int>): set<int> {
    set i | 0 <= i < |days| :: days[i]
  }

  lemma {:induction false} NamesReadBack(days: seq<int>)
    requires AllDays(days)
    ensures DaysNamed(NamesOf(days)) == Some(SetOf(days))
  {
    if days == [] {
      assert NamesOf(days) == [] && SetOf(days) == {};
    } else {
      var n := |days| - 1;
      var front := days[..n];
      NamesReadBack(front);
      NameOfDay(days[n]);
      assert NamesOf(days)[..n] == NamesOf(front);
      SetOfSnoc(front, days[n]);
      assert days == front + [days[n]];
    }
  }

  lemma SetOfSnoc(days: seq<int>, d: int)
    ensures SetOf(days + [d]) == SetOf(days) + {d}
  {
    var all := days + [d];
    assert all[|days|] == d;
    forall x | x in SetOf(days) ensures x in SetOf(all) {
      var i :| 0 <= i < |days| && days[i] == x;
      assert all[i] == x;
    }
  }

  lemma QuoteFree(days: seq<int>)
    requires AllDays(days) && days != []
    ensures DaysText(days) != "" && DaysText(days)[0] != '\''
  {
    NameOfDay(days[0]);
    assert NamesOf(days)[0] == DAY_NAMES[days[0]];
  }

  /** Any days, in any order, written by name with or without quotes, are the days the table stores. */
  lemma DaysReadBack(days: seq<int>)
    requires AllDays(days) && days != []
    ensures WeekdaySet(DaysText(days)) == Some(SetOf(days))
    ensures WeekdaySet("'" + DaysText(days) + "'") == Some(SetOf(days))
  {
    forall i | 0 <= i < |days| ensures IsWord(NamesOf(days)[i]) {
      NameOfDay(days[i]);
    }
    WordsOfJoin(NamesOf(days));
    NamesReadBack(days);
    QuoteFree(days);
    assert days[0] in SetOf(days);
    var text := DaysText(days);
    var quoted := "'" + text + "'";
    assert quoted[1..|quoted| - 1] == text;
  }

  // ---------------------------------------------------------------- MAC notations

  lemma {:induction false} WithoutConcat(a: string, b: string, c: char)
    ensures Without(a + b, c) == Without(a, c) + Without(b, c)
  {
    if a == [] {
      assert a + b == b;
    } else {
      WithoutConcat(a[1..], b, c);
      assert (a + b)[1..] == a[1..] + b;
      var head := if a[0] == c then [] else [a[0]];
      assert head + (Without(a[1..], c) + Without(b, c)) == head + Without(a[1..], c) + Without(b, c);
    }
  }

  lemma {:induction false} WithoutNone(a: string, c: char)
    requires c !in a
    ensures Without(a, c) == a
  {
    if a != [] {
      WithoutNone(a[1..], c);
      assert a == [a[0]] + a[1..];
    }
  }

  /** Separators do not matter wherever they stand, and twelve hex digits are kept in lower case. */
  lemma MacNotation(a: string, b: string)
    ensures NormalizeMac(a + ":" + b) == NormalizeMac(a + b) && NormalizeMac(a + "-" + b) == NormalizeMac(a + b)
    ensures ':' !in a && '-' !in a ==>
              NormalizeMac(a) == if |a| == 12 && (forall i :: 0 <= i < |a| ==> IsHexDigit(a[i])) then Some(ToLower(a)) else None
  {
    DropsColon(a, b);
    DropsDash(a, b);
    if ':' !in a && '-' !in a {
      WithoutNone(a, ':');
      WithoutNone(a, '-');
    }
  }

  lemma DropsOne(a: string, c: char, sep: char, b: string)
    ensures Without(a + [sep] + b, c) == if c == sep then Without(a + b, c) else Without(a, c) + [sep] + Without(b, c)
  {
    WithoutConcat(a + [sep], b, c);
    WithoutConcat(a, [sep], c);
    WithoutConcat(a, b, c);
    assert Without([sep][1..], c) == [];
  }

  lemma DropsColon(a: string, b: string)
    ensures Without(Without(a + ":" + b, ':'), '-') == Without(Without(a + b, ':'), '-')
  {
    DropsOne(a, ':', ':', b);
  }

  lemma DropsDash(a: string, b: string)
    ensures Without(Without(a + "-" + b, ':'), '-') == Without(Without(a + b, ':'), '-')
  {
    DropsOne(a, ':', '-', b);
    DropsOne(Without(a, ':'), '-', '-', Without(b, ':'));
    WithoutConcat(a, b, ':');
  }

  // ---------------------------------------------------------------- keys

  /** A key that names a section and no parameter. */
  predicate NamesSection(section: string) {
    IsRuleKey(section) && ParamOf(section).None?
  }

  lemma SectionNames(name: string)
    requires '.' !in name
    ensures NamesSection("firewall.pc_rule_g" + name) && IsSchedule("firewall.pc_rule_g" + name)
    ensures NamesSection("firewall.pc_client_access_" + name) && IsClientAccess("firewall.pc_client_access_" + name)
  {
    var s, c := "firewall.pc_rule_g" + name, "firewall.pc_client_access_" + name;
    assert IsSchedule(s) && IsClientAccess(c);
    KindsAreDisjoint(s);
    NoDotIn(s, |SCHEDULE_PREFIX|, name);
    NoDotIn(c, |CLIENT_ACCESS_PREFIX|, name);
  }

  lemma NoDotIn(key: string, n: nat, name: string)
    requires n <= |key| && key[n..] == name && '.' !in name
    ensures Find(key, '.', n) == |key|
  {
    forall i | n <= i < |key| ensures key[i] != '.' {
      assert key[i] == name[i - n];
    }
  }

  /** The parameter keys of a section are the section, a dot, and the parameter. */
  lemma KeyParts(section: string, key: string, param: string)
    requires NamesSection(section)
    ensures IsRuleKey(key) && SectionOf(key) == section && ParamOf(key) == Some(param) <==> key == section + "." + param
  {
    if IsRuleKey(key) && SectionOf(key) == section && ParamOf(key) == Some(param) {
      var n := DotAt(key);
      assert key == key[..n] + [key[n]] + key[n + 1..];
    }
    if key == section + "." + param { KeyOfParam(section, key, param); }
  }

  lemma PrefixKinds(section: string, key: string)
    requires IsRuleKey(section) && section <= key
    ensures IsClientAccess(key) == IsClientAccess(section) && IsSchedule(key) == IsSchedule(section)
  {
    KindsAreDisjoint(key);
    KindsAreDisjoint(section);
    if IsClientAccess(section) {
      assert key[..|CLIENT_ACCESS_PREFIX|] == section[..|CLIENT_ACCESS_PREFIX|];
    } else {
      assert key[..|SCHEDULE_PREFIX|] == section[..|SCHEDULE_PREFIX|];
    }
  }

  lemma KeyOfParam(section: string, key: string, param: string)
    requires NamesSection(section) && key == section + "." + param
    ensures IsRuleKey(key) && SectionOf(key) == section && ParamOf(key) == Some(param)
  {
    PrefixKinds(section, key);
    var from := if IsClientAccess(section) then |CLIENT_ACCESS_PREFIX| else |SCHEDULE_PREFIX|;
    assert Find(section, '.', from) == |section|;
    assert forall i :: from <= i < |section| ==> key[i] == section[i];
    assert key[|section|] == '.';
    assert Find(key, '.', from) == |section|;
    assert key[..|section|] == section && key[|section| + 1..] == param;
  }

  lemma KeyOfSection(section: string, key: string)
    requires NamesSection(section)
    ensures IsRuleKey(key) && SectionOf(key) == section && ParamOf(key) == None <==> key == section
  {
    if IsRuleKey(key) && ParamOf(key) == None {
      assert key[..|key|] == key;
    }
  }

  // ---------------------------------------------------------------- last written values

  /** The value of the last ["set", key, value]. */
  function LastWritten(cmds: seq<Command>, key: string): Option<string> {
    if cmds == [] then None
    else
      var c := cmds[|cmds| - 1];
      if c.op == "set" && c.key == key then Some(c.val) else LastWritten(cmds[..|cmds| - 1], key)
  }

  /** The readable addresses of every ["add_list", key, address], in order. */
  function WrittenMacs(cmds: seq<Command>, key: string): seq<string> {
    if cmds == [] then []
    else
      var front := WrittenMacs(cmds[..|cmds| - 1], key);
      var c := cmds[|cmds| - 1];
      if c.op == "add_list" && c.key == key && NormalizeMac(c.val).Some? then front + [NormalizeMac(c.val).value] else front
  }

  /** `name` is how commands spell `param`. */
  ghost predicate Spells(name: string, param: Param) {
    forall x :: ParamNamed(x) == param <==> x == name
  }

  lemma Spellings()
    ensures Spells("enabled", Enabled) && Spells("start_time", StartTime) && Spells("stop_time", StopTime)
    ensures Spells("start_date", StartDate) && Spells("stop_date", StopDate) && Spells("weekdays", Weekdays)
    ensures Spells("src_mac", SrcMac)
  {
  }

  lemma SetAction(c: Command, section: string, name: string, param: Param)
    requires NamesSection(section) && Spells(name, param)
    ensures c.op == "set" && c.key == section + "." + name
            <==> Concerns(c, section) && ActionOf(c) == Set(param, c.val)
  {
    KeyParts(section, c.key, name);
    if Concerns(c, section) && ParamOf(c.key).Some? { assert ParamNamed(ParamOf(c.key).value) == param <==> ParamOf(c.key).value == name; }
  }

  lemma SetActionValue(c: Command, param: Param)
    requires IsRuleKey(c.key) && ActionOf(c).Set? && ActionOf(c).param == param
    ensures ActionOf(c) == Set(param, c.val)
  {
  }

  lemma LastSetSnoc(actions: seq<Action>, a: Action, param: Param)
    ensures LastSet(actions + [a], param) == if a.Set? && a.param == param then Some(a.val) else LastSet(actions, param)
  {
    assert (actions + [a])[..|actions|] == actions;
  }

  lemma {:induction false} LastSetIsLastWritten(cmds: seq<Command>, section: string, name: string, param: Param)
    requires NamesSection(section) && Spells(name, param)
    ensures LastSet(Projection(cmds, section), param) == LastWritten(cmds, section + "." + name)
  {
    if cmds != [] {
      var front, c := cmds[..|cmds| - 1], cmds[|cmds| - 1];
      LastSetIsLastWritten(front, section, name, param);
      SetAction(c, section, name, param);
      if Concerns(c, section) {
        LastSetSnoc(Projection(front, section), ActionOf(c), param);
        if ActionOf(c).Set? && ActionOf(c).param == param { SetActionValue(c, param); }
      }
    }
  }

  lemma MacAction(c: Command, section: string)
    requires NamesSection(section)
    ensures Concerns(c, section) && ActionOf(c).AddMac?
            <==> c.op == "add_list" && c.key == section + ".src_mac" && NormalizeMac(c.val).Some?
    ensures Concerns(c, section) && ActionOf(c).AddMac? ==> Some(ActionOf(c).mac) == NormalizeMac(c.val)
  {
    Spellings();
    KeyParts(section, c.key, "src_mac");
    assert section + "." + "src_mac" == section + ".src_mac";
    if Concerns(c, section) && ParamOf(c.key).Some? {
      assert ParamNamed(ParamOf(c.key).value) == SrcMac <==> ParamOf(c.key).value == "src_mac";
    }
  }

  lemma {:induction false} AddedIsWritten(cmds: seq<Command>, section: string)
    requires NamesSection(section)
    ensures AddedMacs(Projection(cmds, section)) == WrittenMacs(cmds, section + ".src_mac")
  {
    if cmds != [] {
      var front, c := cmds[..|cmds| - 1], cmds[|cmds| - 1];
      AddedIsWritten(front, section);
      MacAction(c, section);
      if Concerns(c, section) {
        var actions := Projection(front, section);
        assert (actions + [ActionOf(c)])[..|actions|] == actions;
      }
    }
  }

  lemma DeclareAction(c: Command, section: string)
    requires NamesSection(section)
    ensures Concerns(c, section) && ActionOf(c) == Declare <==> c == Command("set", section, "rule")
  {
    KeyOfSection(section, c.key);
  }

  lemma {:induction false} DeclaredIsWritten(cmds: seq<Command>, section: string)
    requires NamesSection(section)
    ensures Declare in Projection(cmds, section) <==> Command("set", section, "rule") in cmds
  {
    if cmds != [] {
      var front, c := cmds[..|cmds| - 1], cmds[|cmds| - 1];
      DeclaredIsWritten(front, section);
      DeclareAction(c, section);
      assert cmds == front + [c];
    }
  }

  lemma {:induction false} WrittenMac(cmds: seq<Command>, key: string, address: string)
    requires Command("add_list", key, address) in cmds && NormalizeMac(address).Some?
    ensures NormalizeMac(address).value in WrittenMacs(cmds, key)
  {
    var front, c := cmds[..|cmds| - 1], cmds[|cmds| - 1];
    assert cmds == front + [c];
    if c != Command("add_list", key, address) { WrittenMac(front, key, address); }
  }

  // ---------------------------------------------------------------- the rule as written

  function OrNothing(s: Option<string>): string {
    if s.Some? then s.value else ""
  }

  lemma TimesAsWritten(cmds: seq<Command>, section: string)
    requires NamesSection(section)
    ensures var actions := Projection(cmds, section);
            && LastSet(actions, StartTime) == LastWritten(cmds, section + ".start_time")
            && LastSet(actions, StopTime) == LastWritten(cmds, section + ".stop_time")
            && LastSet(actions, StartDate) == LastWritten(cmds, section + ".start_date")
            && LastSet(actions, StopDate) == LastWritten(cmds, section + ".stop_date")
  {
    Spellings();
    RecallParam(cmds, section, "start_time", ".start_time", StartTime);
    RecallParam(cmds, section, "stop_time", ".stop_time", StopTime);
    RecallParam(cmds, section, "start_date", ".start_date", StartDate);
    RecallParam(cmds, section, "stop_date", ".stop_date", StopDate);
  }

  lemma FlagsAsWritten(cmds: seq<Command>, section: string)
    requires NamesSection(section)
    ensures var actions := Projection(cmds, section);
            && LastSet(actions, Enabled) == LastWritten(cmds, section + ".enabled")
            && LastSet(actions, Weekdays) == LastWritten(cmds, section + ".weekdays")
  {
    Spellings();
    RecallParam(cmds, section, "enabled", ".enabled", Enabled);
    RecallParam(cmds, section, "weekdays", ".weekdays", Weekdays);
  }

  /** Everything remembered of a section, key by key. */
  lemma RecallAsWritten(cmds: seq<Command>, section: string)
    requires NamesSection(section)
    ensures var m := Recall(Projection(cmds, section));
            && m.enabled == LastWritten(cmds, section + ".enabled")
            && m.startTime == LastWritten(cmds, section + ".start_time")
            && m.stopTime == LastWritten(cmds, section + ".stop_time")
            && m.startDate == LastWritten(cmds, section + ".start_date")
            && m.stopDate == LastWritten(cmds, section + ".stop_date")
            && m.weekdays == LastWritten(cmds, section + ".weekdays")
            && m.macs == WrittenMacs(cmds, section + ".src_mac")
            && (m.declared <==> Command("set", section, "rule") in cmds)
  {
    TimesAsWritten(cmds, section);
    FlagsAsWritten(cmds, section);
    AddedIsWritten(cmds, section);
    DeclaredIsWritten(cmds, section);
  }

  lemma RecallParam(cmds: seq<Command>, section: string, name: string, dotted: string, param: Param)
    requires NamesSection(section) && Spells(name, param) && dotted == "." + name
    ensures LastSet(Projection(cmds, section), param) == LastWritten(cmds, section + dotted)
  {
    LastSetIsLastWritten(cmds, section, name, param);
    assert section + "." + name == section + dotted;
  }

  /** A schedule section: every field is the last value written under its own key. */
  lemma ScheduleAsWritten(cmds: seq<Command>, name: string)
    requires '.' !in name
    ensures var section := "firewall.pc_rule_g" + name;
            var r := Get(Fold(cmds), section);
            var start, stop := LastWritten(cmds, section + ".start_time"), LastWritten(cmds, section + ".stop_time");
            var days := LastWritten(cmds, section + ".weekdays");
            && (r.hasSection <==> Command("set", section, "rule") in cmds)
            && (r.enabled <==> LastWritten(cmds, section + ".enabled") == Some("1"))
            && (r.hasEnabled <==> LastWritten(cmds, section + ".enabled").Some?)
            && r.startTime == OrNothing(start) && (r.hasStartTime <==> start.Some? && IsValidTime(start.value))
            && r.stopTime == OrNothing(stop) && (r.hasStopTime <==> stop.Some? && IsValidTime(stop.value))
            && (r.hasWeekdays <==> days.Some? && WeekdaySet(days.value).Some?)
            && (r.hasWeekdays ==> Some(r.weekdays) == WeekdaySet(days.value))
            && r.macs == WrittenMacs(cmds, section + ".src_mac")
            && !r.isClientAccessRule && !r.hasClientAccessBoundary && !r.hasStartDate && !r.hasStopDate
  {
    var section := "firewall.pc_rule_g" + name;
    SectionNames(name);
    KindsAreDisjoint(section);
    LastSetWins(cmds, section);
    RecallAsWritten(cmds, section);
  }

  /** A client-access section: the same, with dates and bounds and without weekdays. */
  lemma ClientAccessAsWritten(cmds: seq<Command>, name: string)
    requires '.' !in name
    ensures var section := "firewall.pc_client_access_" + name;
            var r := Get(Fold(cmds), section);
            var start, stop := LastWritten(cmds, section + ".start_time"), LastWritten(cmds, section + ".stop_time");
            var from, to := LastWritten(cmds, section + ".start_date"), LastWritten(cmds, section + ".stop_date");
            && (r.hasSection <==> Command("set", section, "rule") in cmds)
            && (r.enabled <==> LastWritten(cmds, section + ".enabled") == Some("1"))
            && (r.hasEnabled <==> LastWritten(cmds, section + ".enabled").Some?)
            && r.startTime == OrNothing(start) && (r.hasStartTime <==> start.Some? && IsValidTime(start.value))
            && r.stopTime == OrNothing(stop) && (r.hasStopTime <==> stop.Some? && IsValidTime(stop.value))
            && r.startDate == OrNothing(from) && (r.hasStartDate <==> from.Some? && IsValidDate(from.value))
            && r.stopDate == OrNothing(to) && (r.hasStopDate <==> to.Some? && IsValidDate(to.value))
            && (r.hasClientAccessBoundary <==> start.Some? || stop.Some? || from.Some? || to.Some?)
            && r.macs == WrittenMacs(cmds, section + ".src_mac")
            && !r.hasWeekdays && (r.hasSection ==> r.isClientAccessRule)
  {
    var section := "firewall.pc_client_access_" + name;
    SectionNames(name);
    LastSetWins(cmds, section);
    RecallAsWritten(cmds, section);
    var actions := Projection(cmds, section);
    assert Declare in actions ==> actions != [];
  }
}
