/** The Material-Process Profile evaluator of internal/policy/engine.go.
    Readings are reals; rounding and NaN are not modelled. */
module Policy {
  import opened ByteStrings

  datatype RuleType = AbsoluteMinimum | AbsoluteMaximum | DynamicOffset | UnknownType(name: string)
  datatype Rule = Rule(field: string, targetField: string, ruleType: RuleType,
                       minValue: real, maxValue: real, maxNegativeDev: real, maxPositiveDev: real,
                       allowedConsecutive: int, allowedTotal: int)
  datatype Profile = Profile(id: string, rules: seq<Rule>)
  type Telemetry = map<string, real>

  datatype Violation = Violation(rule: Rule, value: real)
  datatype Decision = Decision(pass: bool, profileID: string, violations: seq<Violation>)

  /** A rule applies to a tick if its field, and the target it needs, are there
      and its type is known. */
  predicate Applies(rule: Rule, t: Telemetry) {
    && rule.field in t
    && !rule.ruleType.UnknownType?
    && (rule.ruleType.DynamicOffset? ==> rule.targetField in t)
  }

  predicate Violated(rule: Rule, t: Telemetry)
    requires Applies(rule, t)
  {
    var v := t[rule.field];
    match rule.ruleType
    case AbsoluteMinimum => v < rule.minValue
    case AbsoluteMaximum => v > rule.maxValue
    case DynamicOffset =>
      var delta := v - t[rule.targetField];
      delta < -rule.maxNegativeDev || delta > rule.maxPositiveDev
  }

  /** The reading is there and inside what the rule allows. */
  predicate Inside(rule: Rule, t: Telemetry) {
    && rule.field in t
    && match rule.ruleType
       case AbsoluteMinimum => rule.minValue <= t[rule.field]
       case AbsoluteMaximum => t[rule.field] <= rule.maxValue
       case DynamicOffset =>
         && rule.targetField in t
         && var target := t[rule.targetField];
         target - rule.maxNegativeDev <= t[rule.field] <= target + rule.maxPositiveDev
       case UnknownType(_) => false
  }

  /** The reading is there and outside what the rule allows. */
  predicate Outside(rule: Rule, t: Telemetry) {
    && rule.field in t && !Inside(rule, t) && !rule.ruleType.UnknownType?
    && (rule.ruleType.DynamicOffset? ==> rule.targetField in t)
  }

  lemma {:induction false} ViolatedIffOutside(rule: Rule, t: Telemetry)
    ensures Applies(rule, t) && Violated(rule, t) <==> Outside(rule, t)
    ensures Applies(rule, t) && !Violated(rule, t) <==> Inside(rule, t)
  {
  }

  // ----- Counters -----

  function At(m: map<string, int>, f: string): int {
    if f in m then m[f] else 0
  }

  datatype Counters = Counters(consecutive: map<string, int>, total: map<string, int>)

  function Count(k: Counters, f: string, violated: bool): Counters {
    if violated
    then Counters(k.consecutive[f := At(k.consecutive, f) + 1], k.total[f := At(k.total, f) + 1])
    else k.(consecutive := k.consecutive[f := 0])
  }

  /** The counters after the rules have run on one tick. */
  function RunRules(k: Counters, rules: seq<Rule>, t: Telemetry): Counters {
    if rules == [] then k else
      var n := |rules| - 1;
      var before := RunRules(k, rules[..n], t);
      if Applies(rules[n], t) then Count(before, rules[n].field, Violated(rules[n], t)) else before
  }

  /** A limit of zero is no limit. */
  predicate Exceeds(count: int, limit: int) {
    limit == 0 || count > limit
  }

  /** Rule i is reported: violated now, and every allowance it sets used up by
      the counters as they stand when it has run. */
  predicate Escalates(k: Counters, rules: seq<Rule>, t: Telemetry, i: nat)
    requires i < |rules|
  {
    var after := RunRules(k, rules[..i + 1], t);
    && Applies(rules[i], t) && Violated(rules[i], t)
    && Exceeds(At(after.consecutive, rules[i].field), rules[i].allowedConsecutive)
    && Exceeds(At(after.total, rules[i].field), rules[i].allowedTotal)
  }

  /** The reports of rules[..n], in rule order. */
  function Reports(k: Counters, rules: seq<Rule>, t: Telemetry, n: nat): seq<Violation>
    requires n <= |rules|
  {
    if n == 0 then [] else
      Reports(k, rules, t, n - 1) +
      if Escalates(k, rules, t, n - 1) then [Violation(rules[n - 1], t[rules[n - 1].field])] else []
  }

  lemma {:induction false} ReportedIff(k: Counters, rules: seq<Rule>, t: Telemetry, n: nat)
    requires n <= |rules|
    ensures Reports(k, rules, t, n) != [] <==> exists i :: 0 <= i < n && Escalates(k, rules, t, i)
  {
    if n > 0 {
      ReportedIff(k, rules, t, n - 1);
    }
  }

  /** The violations are those of the rules at these indexes, in rule order, each
      with the reading of its own field. */
  ghost predicate Lists(violations: seq<Violation>, rules: seq<Rule>, t: Telemetry, at: seq<nat>) {
    && |violations| == |at|
    && (forall m :: 0 <= m < |at| ==> at[m] < |rules| && rules[at[m]].field in t)
    && (forall m :: 0 <= m < |at| ==> violations[m] == Violation(rules[at[m]], t[rules[at[m]].field]))
    && (forall l, m :: 0 <= l < m < |at| ==> at[l] < at[m])
  }

  lemma {:induction false} ListsOneMore(violations: seq<Violation>, rules: seq<Rule>, t: Telemetry,
                                        at: seq<nat>, i: nat)
    requires Lists(violations, rules, t, at) && i < |rules| && rules[i].field in t
    requires forall m :: 0 <= m < |at| ==> at[m] < i
    ensures Lists(violations + [Violation(rules[i], t[rules[i].field])], rules, t, at + [i])
  {
  }

  lemma {:induction false} InAppended(before: seq<nat>, x: nat)
    ensures forall i: nat :: i in before + [x] <==> i in before || i == x
  {
  }

  lemma {:induction false} ReportsList(k: Counters, rules: seq<Rule>, t: Telemetry, n: nat) returns (at: seq<nat>)
    requires n <= |rules|
    ensures Lists(Reports(k, rules, t, n), rules, t, at)
    ensures forall m :: 0 <= m < |at| ==> at[m] < n
    ensures forall i: nat :: i in at <==> i < n && Escalates(k, rules, t, i)
  {
    if n == 0 {
      at := [];
    } else {
      var before := ReportsList(k, rules, t, n - 1);
      at := before;
      if Escalates(k, rules, t, n - 1) {
        ListsOneMore(Reports(k, rules, t, n - 1), rules, t, before, n - 1);
        at := before + [n - 1];
        InAppended(before, n - 1);
      }
    }
  }

  // ----- The evaluator -----

  class Evaluator {
    var profile: Option<Profile>
    var consecutive: map<string, int>
    var total: map<string, int>

    function View(): Counters
      reads this
    {
      Counters(consecutive, total)
    }

    constructor ()
      ensures profile == None && View() == Counters(map[], map[])
    {
      profile, consecutive, total := None, map[], map[];
    }

    /** parsed is None if the document is not valid JSON. */
    method LoadProfile(parsed: Option<Profile>) returns (ok: bool)
      modifies this
      ensures ok <==> parsed.Some? && parsed.value.id != ""
      ensures ok ==> profile == parsed && View() == Counters(map[], map[])
      ensures !ok ==> profile == old(profile) && View() == old(View())
    {
      if parsed.None? || parsed.value.id == "" {
        return false;
      }
      profile, consecutive, total := parsed, map[], map[];
      return true;
    }

    method ClearProfile()
      modifies this
      ensures profile == None && View() == Counters(map[], map[])
    {
      profile, consecutive, total := None, map[], map[];
    }

    method Evaluate(t: Telemetry) returns (d: Decision)
      modifies this`consecutive, this`total
      ensures profile.None? ==> d == Decision(true, "null", []) && View() == old(View())
      ensures profile.Some? ==>
        && View() == RunRules(old(View()), profile.value.rules, t)
        && d == Decision(d.violations == [], profile.value.id,
                         Reports(old(View()), profile.value.rules, t, |profile.value.rules|))
    {
      if profile.None? {
        return Decision(true, "null", []);
      }
      var rules := profile.value.rules;
      var violations: seq<Violation> := [];
      for i := 0 to |rules|
        invariant View() == RunRules(old(View()), rules[..i], t)
        invariant violations == Reports(old(View()), rules, t, i)
      {
        var rule := rules[i];
        assert rules[..i + 1][..i] == rules[..i];
        if rule.field !in t {
          continue;
        }
        var val, violated := t[rule.field], false;
        match rule.ruleType {
          case AbsoluteMinimum => violated := val < rule.minValue;
          case AbsoluteMaximum => violated := val > rule.maxValue;
          case DynamicOffset =>
            if rule.targetField !in t {
              continue;
            }
            var delta := val - t[rule.targetField];
            violated := delta < -rule.maxNegativeDev || delta > rule.maxPositiveDev;
          case UnknownType(_) => continue;
        }
        if violated {
          consecutive := consecutive[rule.field := At(consecutive, rule.field) + 1];
          total := total[rule.field := At(total, rule.field) + 1];
          if Exceeds(consecutive[rule.field], rule.allowedConsecutive) &&
             Exceeds(total[rule.field], rule.allowedTotal) {
            violations := violations + [Violation(rule, val)];
          }
        } else {
          consecutive := consecutive[rule.field := 0];
        }
      }
      assert rules[..|rules|] == rules;
      d := Decision(|violations| == 0, profile.value.id, violations);
    }
  }

  // ----- What the counters mean -----

  function FlagsOfRule(rule: Rule, t: Telemetry, f: string): seq<bool> {
    if rule.field == f && Applies(rule, t) then [Violated(rule, t)] else []
  }

  /** Violated or not, for each evaluation on field f in one tick, in rule order. */
  function Flags(rules: seq<Rule>, t: Telemetry, f: string): seq<bool> {
    if rules == [] then [] else
      Flags(rules[..|rules| - 1], t, f) + FlagsOfRule(rules[|rules| - 1], t, f)
  }

  /** ... and over a whole history of ticks; skipped evaluations leave no trace. */
  function History(rules: seq<Rule>, ticks: seq<Telemetry>, f: string): seq<bool> {
    if ticks == [] then [] else
      History(rules, ticks[..|ticks| - 1], f) + Flags(rules, ticks[|ticks| - 1], f)
  }

  /** The length of the run of trues at the end. */
  function TrailingRun(flags: seq<bool>): nat {
    if flags == [] || !flags[|flags| - 1] then 0 else 1 + TrailingRun(flags[..|flags| - 1])
  }

  function Trues(flags: seq<bool>): nat {
    if flags == [] then 0 else Trues(flags[..|flags| - 1]) + if flags[|flags| - 1] then 1 else 0
  }

  /** The counters after a whole history, from a freshly loaded profile. */
  function RunTicks(rules: seq<Rule>, ticks: seq<Telemetry>): Counters {
    if ticks == [] then Counters(map[], map[]) else
      RunRules(RunTicks(rules, ticks[..|ticks| - 1]), rules, ticks[|ticks| - 1])
  }

  ghost predicate Agrees(k: Counters, f: string, flags: seq<bool>) {
    At(k.consecutive, f) == TrailingRun(flags) && At(k.total, f) == Trues(flags)
  }

  lemma {:induction false} CountAgrees(k: Counters, field: string, violated: bool, f: string, flags: seq<bool>)
    requires Agrees(k, f, flags)
    ensures Agrees(Count(k, field, violated), f, flags + if field == f then [violated] else [])
  {
    assert (flags + [violated])[..|flags|] == flags;
    assert flags + [] == flags;
  }

  lemma {:induction false} RulesAgree(k: Counters, rules: seq<Rule>, t: Telemetry, f: string, past: seq<bool>)
    requires Agrees(k, f, past)
    ensures Agrees(RunRules(k, rules, t), f, past + Flags(rules, t, f))
    decreases |rules|
  {
    if rules == [] {
      assert past + [] == past;
    } else {
      var n := |rules| - 1;
      RulesAgree(k, rules[..n], t, f, past);
      OneRuleAgrees(RunRules(k, rules[..n], t), rules[n], t, f, past + Flags(rules[..n], t, f));
      FlagsStep(rules, t, f, past);
    }
  }

  lemma {:induction false} OneRuleAgrees(k: Counters, rule: Rule, t: Telemetry, f: string, flags: seq<bool>)
    requires Agrees(k, f, flags)
    ensures Agrees(if Applies(rule, t) then Count(k, rule.field, Violated(rule, t)) else k, f,
                   flags + FlagsOfRule(rule, t, f))
  {
    if Applies(rule, t) {
      CountAgrees(k, rule.field, Violated(rule, t), f, flags);
    } else {
      assert flags + [] == flags;
    }
  }

  lemma {:induction false} FlagsStep(rules: seq<Rule>, t: Telemetry, f: string, past: seq<bool>)
    requires rules != []
    ensures var n := |rules| - 1;
      past + Flags(rules, t, f) == past + Flags(rules[..n], t, f) + FlagsOfRule(rules[n], t, f)
  {
  }

  /** For any profile, rules sharing fields included, and any history since it
      was loaded: consecutive[f] is the length of the trailing run of violated
      evaluations on f, and total[f] is their number. */
  lemma {:induction false} CountersMatchHistory(rules: seq<Rule>, ticks: seq<Telemetry>, f: string)
    ensures Agrees(RunTicks(rules, ticks), f, History(rules, ticks, f))
    decreases |ticks|
  {
    if ticks != [] {
      var n := |ticks| - 1;
      CountersMatchHistory(rules, ticks[..n], f);
      RulesAgree(RunTicks(rules, ticks[..n]), rules, ticks[n], f, History(rules, ticks[..n], f));
    }
  }

  /** Exactly when rule i is reported on tick t, from the history alone: the
      evaluations of earlier ticks, and of this tick up to rule i. */
  lemma {:induction false} EscalatesIff(rules: seq<Rule>, ticks: seq<Telemetry>, t: Telemetry, i: nat)
    requires i < |rules|
    ensures var flags := History(rules, ticks, rules[i].field) + Flags(rules[..i + 1], t, rules[i].field);
      Escalates(RunTicks(rules, ticks), rules, t, i) <==>
        && Applies(rules[i], t) && Violated(rules[i], t)
        && Exceeds(TrailingRun(flags), rules[i].allowedConsecutive)
        && Exceeds(Trues(flags), rules[i].allowedTotal)
  {
    var f := rules[i].field;
    CountersMatchHistory(rules, ticks, f);
    RulesAgree(RunTicks(rules, ticks), rules[..i + 1], t, f, History(rules, ticks, f));
  }

  // ----- Rules judged by their own history -----

  /** No other rule of a known type has the field of rule i. */
  ghost predicate Alone(rules: seq<Rule>, i: nat)
    requires i < |rules|
  {
    forall j :: 0 <= j < |rules| && j != i && rules[j].field == rules[i].field ==> rules[j].ruleType.UnknownType?
  }

  /** Some violations of the rule are forgiven. */
  predicate Graced(rule: Rule) {
    rule.allowedConsecutive > 0 || rule.allowedTotal > 0
  }

  /** Every rule with an allowance is alone on its field. */
  ghost predicate GracedAlone(rules: seq<Rule>) {
    forall i :: 0 <= i < |rules| && Graced(rules[i]) && !rules[i].ruleType.UnknownType? ==> Alone(rules, i)
  }

  /** The history of one rule on its own. */
  function RuleHistory(rule: Rule, ticks: seq<Telemetry>): seq<bool> {
    if ticks == [] then [] else
      var t := ticks[|ticks| - 1];
      RuleHistory(rule, ticks[..|ticks| - 1]) + if Applies(rule, t) then [Violated(rule, t)] else []
  }

  lemma {:induction false} FlagsOfOne(rules: seq<Rule>, t: Telemetry, i: nat, n: nat)
    requires i < |rules| && n <= |rules| && Alone(rules, i)
    ensures Flags(rules[..n], t, rules[i].field)
         == if i < n && Applies(rules[i], t) then [Violated(rules[i], t)] else []
  {
    if n > 0 {
      FlagsOfOne(rules, t, i, n - 1);
      assert rules[..n][..n - 1] == rules[..n - 1];
    }
  }

  lemma {:induction false} HistoryOfOne(rules: seq<Rule>, ticks: seq<Telemetry>, i: nat)
    requires i < |rules| && Alone(rules, i)
    ensures History(rules, ticks, rules[i].field) == RuleHistory(rules[i], ticks)
    decreases |ticks|
  {
    if ticks != [] {
      HistoryOfOne(rules, ticks[..|ticks| - 1], i);
      FlagsOfOne(rules, ticks[|ticks| - 1], i, |rules|);
      assert rules[..|rules|] == rules;
    }
  }

  /** The rule is violated on the last tick and every allowance it sets is
      exceeded by its own history. */
  ghost predicate Breaches(rule: Rule, ticks: seq<Telemetry>) {
    && ticks != []
    && var t := ticks[|ticks| - 1]; var flags := RuleHistory(rule, ticks);
    && Applies(rule, t) && Violated(rule, t)
    && Exceeds(TrailingRun(flags), rule.allowedConsecutive)
    && Exceeds(Trues(flags), rule.allowedTotal)
  }

  /** If every rule with an allowance is alone on its field, a tick fails exactly
      when some rule breaches its envelope beyond its allowances. */
  lemma {:induction false} TickFailsIff(rules: seq<Rule>, ticks: seq<Telemetry>, t: Telemetry)
    requires GracedAlone(rules)
    ensures Reports(RunTicks(rules, ticks), rules, t, |rules|) != [] <==>
            exists i :: 0 <= i < |rules| && Breaches(rules[i], ticks + [t])
  {
    var k := RunTicks(rules, ticks);
    ReportedIff(k, rules, t, |rules|);
    forall i | 0 <= i < |rules| ensures Escalates(k, rules, t, i) <==> Breaches(rules[i], ticks + [t]) {
      RuleReportedIff(rules, ticks, t, i);
    }
  }

  /** A rule is reported by its own history if it is alone on its field, or has no
      allowance at all. */
  lemma {:induction false} RuleReportedIff(rules: seq<Rule>, ticks: seq<Telemetry>, t: Telemetry, i: nat)
    requires i < |rules| && (Graced(rules[i]) && !rules[i].ruleType.UnknownType? ==> Alone(rules, i))
    ensures Escalates(RunTicks(rules, ticks), rules, t, i) <==> Breaches(rules[i], ticks + [t])
  {
    EscalatesIff(rules, ticks, t, i);
    if Applies(rules[i], t) && Graced(rules[i]) {
      HistoryOfOne(rules, ticks, i);
      FlagsOfOne(rules, t, i, i + 1);
      RuleHistoryStep(rules[i], ticks, t);
    }
  }

  /** What a tick reports, from the history alone, for any profile: one entry for
      each rule whose reading is outside its envelope now and whose allowances are
      used up by the evaluations on its field, in rule order. */
  lemma {:induction false} ReportsFromHistory(rules: seq<Rule>, ticks: seq<Telemetry>,
                                              t: Telemetry) returns (at: seq<nat>)
    ensures Lists(Reports(RunTicks(rules, ticks), rules, t, |rules|), rules, t, at)
    ensures forall i: nat :: i in at <==> i < |rules| && UsesUp(rules, ticks, t, i)
  {
    at := ReportsList(RunTicks(rules, ticks), rules, t, |rules|);
    forall i: nat | i < |rules| ensures Escalates(RunTicks(rules, ticks), rules, t, i) <==> UsesUp(rules, ticks, t, i) {
      EscalatesIff(rules, ticks, t, i);
      ViolatedIffOutside(rules[i], t);
    }
  }

  ghost predicate UsesUp(rules: seq<Rule>, ticks: seq<Telemetry>, t: Telemetry, i: nat)
    requires i < |rules|
  {
    var rule := rules[i];
    var flags := History(rules, ticks, rule.field) + Flags(rules[..i + 1], t, rule.field);
    && Outside(rule, t)
    && (rule.allowedConsecutive == 0 || TrailingRun(flags) > rule.allowedConsecutive)
    && (rule.allowedTotal == 0 || Trues(flags) > rule.allowedTotal)
  }

  /** If every rule with an allowance is alone on its field, a tick reports exactly
      the rules that breach by their own history, in rule order. */
  lemma {:induction false} ReportsBreaches(rules: seq<Rule>, ticks: seq<Telemetry>, t: Telemetry) returns (at: seq<nat>)
    requires GracedAlone(rules)
    ensures Lists(Reports(RunTicks(rules, ticks), rules, t, |rules|), rules, t, at)
    ensures forall i: nat :: i in at <==> i < |rules| && Breaches(rules[i], ticks + [t])
    ensures forall i :: i in at ==> i < |rules| && Outside(rules[i], t)
  {
    at := ReportsList(RunTicks(rules, ticks), rules, t, |rules|);
    forall i: nat | i < |rules|
      ensures Escalates(RunTicks(rules, ticks), rules, t, i) <==> Breaches(rules[i], ticks + [t])
      ensures Escalates(RunTicks(rules, ticks), rules, t, i) ==> Outside(rules[i], t)
    {
      RuleReportedIff(rules, ticks, t, i);
      ViolatedIffOutside(rules[i], t);
    }
  }

  lemma {:induction false} RuleHistoryStep(rule: Rule, ticks: seq<Telemetry>, t: Telemetry)
    requires Applies(rule, t)
    ensures RuleHistory(rule, ticks + [t]) == RuleHistory(rule, ticks) + [Violated(rule, t)]
  {
    assert (ticks + [t])[..|ticks|] == ticks;
  }

  lemma {:induction false} TrailingRunIsTrue(flags: seq<bool>, i: nat)
    requires |flags| - TrailingRun(flags) <= i < |flags|
    ensures flags[i]
  {
    if i < |flags| - 1 {
      TrailingRunIsTrue(flags[..|flags| - 1], i);
    }
  }

  lemma {:induction false} TrailingRunBounded(flags: seq<bool>)
    ensures TrailingRun(flags) <= |flags|
  {
    if flags != [] {
      TrailingRunBounded(flags[..|flags| - 1]);
    }
  }

  /** A rule with a consecutive allowance c > 0 breaches only after c + 1
      violated applicable ticks in a row. */
  lemma {:induction false} BreachNeedsARow(rule: Rule, ticks: seq<Telemetry>)
    requires rule.allowedConsecutive > 0 && Breaches(rule, ticks)
    ensures var flags := RuleHistory(rule, ticks); var c := rule.allowedConsecutive;
      && |flags| >= c + 1
      && forall i :: |flags| - (c + 1) <= i < |flags| ==> flags[i]
  {
    var flags := RuleHistory(rule, ticks);
    TrailingRunBounded(flags);
    forall i | |flags| - (rule.allowedConsecutive + 1) <= i < |flags| ensures flags[i] {
      TrailingRunIsTrue(flags, i);
    }
  }

  /** Once a total-only allowance is spent, every later violation breaches. */
  lemma {:induction false} SpentAllowanceStaysSpent(rule: Rule, ticks: seq<Telemetry>, t: Telemetry)
    requires rule.allowedConsecutive == 0 && Trues(RuleHistory(rule, ticks)) >= rule.allowedTotal
    requires Applies(rule, t) && Violated(rule, t)
    ensures Breaches(rule, ticks + [t])
    ensures Trues(RuleHistory(rule, ticks + [t])) >= rule.allowedTotal
  {
    assert (ticks + [t])[..|ticks|] == ticks;
    var flags := RuleHistory(rule, ticks);
    assert (flags + [true])[..|flags|] == flags;
  }

  /** The count of violations never goes down, so a spent allowance is spent for
      the rest of the profile's life. */
  lemma {:induction false} TruesMonotone(rule: Rule, ticks: seq<Telemetry>, more: seq<Telemetry>)
    ensures Trues(RuleHistory(rule, ticks)) <= Trues(RuleHistory(rule, ticks + more))
    decreases |more|
  {
    if more == [] {
      assert ticks + more == ticks;
    } else {
      var n := |more| - 1;
      TruesMonotone(rule, ticks, more[..n]);
      var all := ticks + more;
      assert all[..|all| - 1] == ticks + more[..n];
      var flags := RuleHistory(rule, ticks + more[..n]);
      assert forall b :: (flags + [b])[..|flags|] == flags;
      assert flags + [] == flags;
    }
  }
}
