/**
 The blocked-client map of a gateway configuration: every MAC listed by an active
 rule, with the latest stop among its active rules, and the whole path from a
 subscriber's schedule to that map.
 */
module BlockedClients {
  import opened Text
  import opened Calendar
  import opened FirewallRules
  import opened Json
  import opened RuleTable
  import opened RuleHistory
  import opened WrittenRules
  import Schedules
  import ScheduleConversion

  predicate Lists(rules: Table, now: int, section: string, mac: string)
    requires ClockInRange(now)
  {
    section in rules && mac in rules[section].macs && Evaluate(rules[section], now).active
  }

  function StopOf(rules: Table, now: int, section: string): int
    requires ClockInRange(now) && section in rules
  {
    Evaluate(rules[section], now).stopEpochSec
  }

  /** Permanent beats every finite stop; among finite stops the later wins. */
  predicate Dominates(a: int, b: int) {
    a == PERMANENT || (b != PERMANENT && b <= a)
  }

  function Stronger(a: int, b: int): int {
    if b == PERMANENT || (a != PERMANENT && b > a) then b else a
  }

  /** `m` says of `mac` what the rules in `sections` say together. */
  ghost predicate JoinAt(rules: Table, now: int, sections: set<string>, m: map<string, int>, mac: string)
    requires ClockInRange(now)
  {
    && (mac in m ==> exists s :: s in sections && Lists(rules, now, s, mac) && StopOf(rules, now, s) == m[mac])
    && (forall s :: s in sections && Lists(rules, now, s, mac) ==> mac in m && Dominates(m[mac], StopOf(rules, now, s)))
  }

  /** `m` is the join of the answers of the rules in `sections`. */
  ghost predicate JoinOver(rules: Table, now: int, sections: set<string>, m: map<string, int>)
    requires ClockInRange(now)
  {
    forall mac :: JoinAt(rules, now, sections, m, mac)
  }

  /** The join is unique, so no order of rules or MACs can change it. */
  lemma JoinIsUnique(rules: Table, now: int, sections: set<string>, m: map<string, int>, n: map<string, int>)
    requires ClockInRange(now) && JoinOver(rules, now, sections, m) && JoinOver(rules, now, sections, n)
    ensures m == n
  {
    forall mac ensures (mac in m <==> mac in n) && (mac in m && mac in n ==> m[mac] == n[mac]) {
      assert JoinAt(rules, now, sections, m, mac) && JoinAt(rules, now, sections, n, mac);
      if mac in m { JoinAgreesAt(rules, now, sections, m, n, mac); }
      if mac in n { JoinAgreesAt(rules, now, sections, n, m, mac); }
    }
  }

  lemma JoinAgreesAt(rules: Table, now: int, sections: set<string>, m: map<string, int>, n: map<string, int>, mac: string)
    requires ClockInRange(now) && JoinAt(rules, now, sections, m, mac) && JoinAt(rules, now, sections, n, mac)
    requires mac in m
    ensures mac in n && m[mac] == n[mac]
  {
    var s :| s in sections && Lists(rules, now, s, mac) && StopOf(rules, now, s) == m[mac];
    assert mac in n && Dominates(n[mac], m[mac]);
    var t :| t in sections && Lists(rules, now, t, mac) && StopOf(rules, now, t) == n[mac];
    assert Dominates(m[mac], n[mac]);
  }

  /** One active rule: its MACs, possibly repeated, take the stronger of old and new stop. */
  method AddRule(m: map<string, int>, macs: seq<string>, stop: int) returns (r: map<string, int>)
    ensures forall mac :: TakesStop(m, r, mac in macs, stop, mac)
  {
    r := m;
    for i := 0 to |macs|
      invariant forall mac :: TakesStop(m, r, mac in macs[..i], stop, mac)
    {
      var mac := macs[i];
      ghost var before := r;
      ghost var seen := macs[..i + 1];
      assert seen == macs[..i] + [mac];
      if mac !in r {
        r := r[mac := stop];
      } else if stop == PERMANENT || (r[mac] != PERMANENT && stop > r[mac]) {
        r := r[mac := stop];
      }
      forall x ensures TakesStop(m, r, x in seen, stop, x) {
        assert TakesStop(m, before, x in macs[..i], stop, x);
      }
    }
    assert macs[..|macs|] == macs;
  }

  /** The stop a MAC takes from one more active rule. */
  predicate TakesStop(m: map<string, int>, r: map<string, int>, listed: bool, stop: int, mac: string) {
    && (mac in r <==> mac in m || listed)
    && (mac in r ==> r[mac] == if !listed then m[mac] else if mac in m then Stronger(m[mac], stop) else stop)
  }

  lemma JoinWithRule(rules: Table, now: int, done: set<string>, section: string,
                     m: map<string, int>, r: map<string, int>, mac: string)
    requires ClockInRange(now) && JoinAt(rules, now, done, m, mac) && section in rules
    requires if Evaluate(rules[section], now).active
             then TakesStop(m, r, mac in rules[section].macs, StopOf(rules, now, section), mac) else r == m
    ensures JoinAt(rules, now, done + {section}, r, mac)
  {
    var all := done + {section};
    if mac in r {
      if mac in m && r[mac] == m[mac] {
        var s :| s in done && Lists(rules, now, s, mac) && StopOf(rules, now, s) == m[mac];
        assert s in all && Lists(rules, now, s, mac) && StopOf(rules, now, s) == r[mac];
      } else {
        assert section in all && Lists(rules, now, section, mac) && StopOf(rules, now, section) == r[mac];
      }
    }
    forall s | s in all && Lists(rules, now, s, mac) ensures mac in r && Dominates(r[mac], StopOf(rules, now, s)) {
      if s in done { assert mac in m && Dominates(m[mac], StopOf(rules, now, s)); }
    }
  }

  /** One round of the join loop. */
  method JoinRule(rules: Table, now: int, ghost done: set<string>, section: string, m: map<string, int>)
      returns (r: map<string, int>)
    requires ClockInRange(now) && JoinOver(rules, now, done, m) && section in rules
    ensures JoinOver(rules, now, done + {section}, r)
  {
    r := m;
    var answer := Evaluate(rules[section], now);
    if answer.active {
      r := AddRule(m, rules[section].macs, answer.stopEpochSec);
    }
    forall mac ensures JoinAt(rules, now, done + {section}, r, mac) {
      assert JoinAt(rules, now, done, m, mac);
      JoinWithRule(rules, now, done, section, m, r, mac);
    }
  }

  /** The join loop over the table, in whatever order the sections come. */
  method JoinRules(rules: Table, now: int) returns (m: map<string, int>)
    requires ClockInRange(now)
    ensures JoinOver(rules, now, rules.Keys, m)
  {
    m := map[];
    var todo := rules.Keys;
    ghost var done: set<string> := {};
    while todo != {}
      invariant todo <= rules.Keys && done == rules.Keys - todo
      invariant JoinOver(rules, now, done, m)
      decreases |todo|
    {
      var section :| section in todo;
      m := JoinRule(rules, now, done, section, m);
      todo := todo - {section};
      done := done + {section};
    }
    assert done == rules.Keys;
  }

  /** MACs and stop seconds for a configuration; no configuration is the only failure. */
  method GetBlockedClients(config: Option<Object>, now: int) returns (ok: bool, blocked: map<string, int>)
    requires ClockInRange(now)
    ensures ok == config.Some?
    ensures config.Some? && HasArr(config.value, "config-raw") ==>
              var rules := Fold(Commands(config.value["config-raw"].items));
              Reachable(rules) && JoinOver(rules, now, rules.Keys, blocked)
    ensures !(config.Some? && HasArr(config.value, "config-raw")) ==> blocked == map[]
  {
    if config.None? || !HasArr(config.value, "config-raw") {
      return config.Some?, map[];
    }
    var rules := BuildRules(config.value["config-raw"].items);
    blocked := JoinRules(rules, now);
    return true, blocked;
  }

  /**
   What the map means: a MAC is in it iff some section of the table blocks it at this
   instant, and its entry is permanent iff one of those sections is unbounded.
   */
  lemma BlockedMeansSomeRuleBlocks(rules: Table, now: int, m: map<string, int>, mac: string)
    requires ClockInRange(now) && Reachable(rules) && JoinOver(rules, now, rules.Keys, m)
    ensures forall s :: s in rules ==> WellFormed(rules[s])
    ensures mac in m <==> exists s :: BlocksIn(rules, now, s, mac)
    ensures mac in m ==> (m[mac] == PERMANENT <==> exists s :: BlocksIn(rules, now, s, mac) && Unbounded(rules, s))
    ensures mac in m && m[mac] != PERMANENT ==> now < m[mac] * 1_000_000
  {
    forall s | s in rules ensures AnswerIn(rules, now, s, mac) {
      SectionAnswer(rules, s, now, mac);
    }
    assert JoinAt(rules, now, rules.Keys, m, mac);
    JoinMeaning(rules, now, m, mac);
  }

  /** The section's rule is well formed, lists the MAC and blocks now. */
  ghost predicate BlocksIn(rules: Table, now: int, s: string, mac: string) {
    s in rules && WellFormed(rules[s]) && mac in rules[s].macs && Blocks(rules[s], now)
  }

  /** A client-access section without bounds. */
  predicate Unbounded(rules: Table, s: string) {
    s in rules && IsClientAccess(s) && !rules[s].hasClientAccessBoundary
  }

  /** What a section's answer says about a MAC. */
  ghost predicate AnswerIn(rules: Table, now: int, s: string, mac: string)
    requires ClockInRange(now) && s in rules
  {
    && WellFormed(rules[s])
    && (Lists(rules, now, s, mac) <==> BlocksIn(rules, now, s, mac))
    && (Lists(rules, now, s, mac) ==>
          && (StopOf(rules, now, s) == PERMANENT <==> Unbounded(rules, s))
          && (StopOf(rules, now, s) != PERMANENT ==> now < StopOf(rules, now, s) * 1_000_000))
  }

  lemma JoinMeaning(rules: Table, now: int, m: map<string, int>, mac: string)
    requires ClockInRange(now) && JoinAt(rules, now, rules.Keys, m, mac)
    requires forall s :: s in rules ==> AnswerIn(rules, now, s, mac)
    ensures mac in m <==> exists s :: BlocksIn(rules, now, s, mac)
    ensures mac in m ==> (m[mac] == PERMANENT <==> exists s :: BlocksIn(rules, now, s, mac) && Unbounded(rules, s))
    ensures mac in m && m[mac] != PERMANENT ==> now < m[mac] * 1_000_000
  {
    if mac in m {
      var s :| s in rules.Keys && Lists(rules, now, s, mac) && StopOf(rules, now, s) == m[mac];
      assert AnswerIn(rules, now, s, mac) && BlocksIn(rules, now, s, mac);
    }
    if s :| BlocksIn(rules, now, s, mac) {
      assert AnswerIn(rules, now, s, mac);
    }
    if s :| BlocksIn(rules, now, s, mac) && Unbounded(rules, s) {
      assert AnswerIn(rules, now, s, mac);
    }
  }

  lemma ReachableSection(rules: Table, s: string)
    requires Reachable(rules) && s in rules
    ensures WellShaped(s, rules[s])
  {
    var cmds :| Fold(cmds) == rules;
    ReachableTablesAreWellShaped(cmds, s);
  }

  lemma SectionAnswer(rules: Table, s: string, now: int, mac: string)
    requires ClockInRange(now) && Reachable(rules) && s in rules
    ensures AnswerIn(rules, now, s, mac)
  {
    ReachableSection(rules, s);
    KindsAreDisjoint(s);
    AnswerOf(rules[s], now);
  }

  lemma AnswerOf(rule: Rule, now: int)
    requires ClockInRange(now) && WellFormed(rule)
    ensures Evaluate(rule, now).active <==> Blocks(rule, now)
    ensures Evaluate(rule, now).active ==>
              var stop := Evaluate(rule, now).stopEpochSec;
              && (stop == PERMANENT <==> !rule.hasWeekdays && rule.isClientAccessRule && !rule.hasClientAccessBoundary)
              && (stop != PERMANENT ==> now < stop * 1_000_000)
  {
    EvaluateDecidesBlocks(rule, now);
    if Evaluate(rule, now).active {
      PermanentIsForever(rule, now, now);
      if Evaluate(rule, now).stopEpochSec != PERMANENT { StopIsExact(rule, now, now); }
    }
  }

  /**
   What a reported stop promises: until it, and for ever if permanent, the client stays
   reported, with a stop no weaker than the one first shown.
   */
  lemma BlockLasts(rules: Table, now: int, u: int, m: map<string, int>, n: map<string, int>, mac: string)
    requires Reachable(rules)
    requires ClockInRange(now) && JoinOver(rules, now, rules.Keys, m)
    requires ClockInRange(u) && JoinOver(rules, u, rules.Keys, n)
    requires mac in m && now <= u && (m[mac] == PERMANENT || u < m[mac] * 1_000_000)
    ensures mac in n && Dominates(n[mac], m[mac])
  {
    assert JoinAt(rules, now, rules.Keys, m, mac) && JoinAt(rules, u, rules.Keys, n, mac);
    var s :| s in rules.Keys && Lists(rules, now, s, mac) && StopOf(rules, now, s) == m[mac];
    ReachableSection(rules, s);
    AnswerLasts(rules[s], now, u);
    assert Lists(rules, u, s, mac);
  }

  lemma AnswerLasts(rule: Rule, now: int, u: int)
    requires ClockInRange(now) && ClockInRange(u) && WellFormed(rule) && now <= u && Evaluate(rule, now).active
    requires var stop := Evaluate(rule, now).stopEpochSec; stop == PERMANENT || u < stop * 1_000_000
    ensures Evaluate(rule, u) == Evaluate(rule, now)
  {
    if Evaluate(rule, now).stopEpochSec == PERMANENT {
      PermanentIsForever(rule, now, u);
    } else {
      StopIsExact(rule, now, u);
    }
  }

  // ---------------------------------------------------------------- from request to blocked client

  /** The commands of an enabled rule with these UTC times and days, as the firewall service writes it. */
  predicate Carries(cmds: seq<Command>, section: string, start: int, stop: int, days: seq<int>)
    requires Schedules.MinuteOfDay(start) && Schedules.MinuteOfDay(stop) && AllDays(days)
  {
    && Command("set", section, "rule") in cmds
    && LastWritten(cmds, section + ".enabled") == Some("1")
    && LastWritten(cmds, section + ".start_time") == Some(TimeText(start * 60))
    && LastWritten(cmds, section + ".stop_time") == Some(TimeText(stop * 60))
    && (LastWritten(cmds, section + ".weekdays") == Some(DaysText(days))
        || LastWritten(cmds, section + ".weekdays") == Some("'" + DaysText(days) + "'"))
  }

  lemma CarriedRule(cmds: seq<Command>, name: string, start: int, stop: int, days: seq<int>)
    requires Schedules.MinuteOfDay(start) && Schedules.MinuteOfDay(stop) && '.' !in name && AllDays(days) && days != []
    requires Carries(cmds, "firewall.pc_rule_g" + name, start, stop, days)
    ensures var section := "firewall.pc_rule_g" + name;
            && section in Fold(cmds)
            && Fold(cmds)[section]
               == ScheduleConversion.RuleOfSchedule(start, stop, SetOf(days), WrittenMacs(cmds, section + ".src_mac"))
  {
    var section := "firewall.pc_rule_g" + name;
    ScheduleAsWritten(cmds, name);
    NoDatesInSchedules(cmds, name);
    DaysReadBack(days);
    ParseTimeText(start * 60);
    ParseTimeText(stop * 60);
    assert Get(Fold(cmds), section).hasSection;
  }

  /** A schedule section keeps no dates. */
  lemma NoDatesInSchedules(cmds: seq<Command>, name: string)
    requires '.' !in name
    ensures var r := Get(Fold(cmds), "firewall.pc_rule_g" + name); r.startDate == "" && r.stopDate == ""
  {
    SectionNames(name);
    KindsAreDisjoint("firewall.pc_rule_g" + name);
    LastSetWins(cmds, "firewall.pc_rule_g" + name);
  }

  /**
   A requested local schedule, converted, stored and written as the commands of some section
   among any others: a client added to it, in any notation, is reported blocked whenever the
   subscriber's clock is inside a requested window, and at no other time if no other section
   lists it.
   */
  lemma RequestedWindowsAreEnforced(cmds: seq<Command>, name: string, address: string, mac: string, now: int,
                                    m: map<string, int>, start: int, stop: int, days: set<int>, offset: int,
                                    written: seq<int>)
    requires ClockInRange(now) && JoinOver(Fold(cmds), now, Fold(cmds).Keys, m)
    requires Schedules.MinuteOfDay(start) && Schedules.MinuteOfDay(stop) && start != stop
    requires days != {} && forall d :: d in days ==> 0 <= d <= 6
    requires '.' !in name && NormalizeMac(address) == Some(mac)
    requires Command("add_list", "firewall.pc_rule_g" + name + ".src_mac", address) in cmds
    requires AllDays(written) && SetOf(written) == Schedules.ShiftSet(days, Schedules.Rebase(start, stop, -offset).dayShift)
    requires var utc := Schedules.Rebase(start, stop, -offset);
             Carries(cmds, "firewall.pc_rule_g" + name, utc.start, utc.stop, written)
    ensures Covers(start * 60, stop * 60, days, now + offset * 60_000_000) ==> mac in m
    ensures (forall s :: s in Fold(cmds) && s != "firewall.pc_rule_g" + name ==> mac !in Fold(cmds)[s].macs) ==>
              (mac in m <==> Covers(start * 60, stop * 60, days, now + offset * 60_000_000))
  {
    var utc := Schedules.Rebase(start, stop, -offset);
    var section := "firewall.pc_rule_g" + name;
    var macs := WrittenMacs(cmds, section + ".src_mac");
    SomeDay(days, utc.dayShift, written);
    WrittenMac(cmds, section + ".src_mac", address);
    CarriedRule(cmds, name, utc.start, utc.stop, written);
    ScheduleConversion.ConvertPreservesMeaning(start, stop, days, offset, macs, now);
    SoleListing(Fold(cmds), now, m, section, mac);
  }

  lemma SomeDay(days: set<int>, shift: int, written: seq<int>)
    requires days != {} && SetOf(written) == Schedules.ShiftSet(days, shift)
    ensures written != []
  {
    var d := ScheduleConversion.AnyDay(days);
    assert Schedules.MoveDay(d, shift) in SetOf(written);
  }

  lemma SoleListing(rules: Table, now: int, m: map<string, int>, section: string, mac: string)
    requires ClockInRange(now) && JoinOver(rules, now, rules.Keys, m)
    requires section in rules && mac in rules[section].macs
    ensures Evaluate(rules[section], now).active ==> mac in m
    ensures (forall s :: s in rules && s != section ==> mac !in rules[s].macs) ==>
              (mac in m <==> Evaluate(rules[section], now).active)
  {
    assert JoinAt(rules, now, rules.Keys, m, mac);
    if Evaluate(rules[section], now).active { assert Lists(rules, now, section, mac); }
    if mac in m {
      var s :| s in rules.Keys && Lists(rules, now, s, mac) && StopOf(rules, now, s) == m[mac];
    }
  }
}
