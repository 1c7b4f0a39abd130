/** Two rules on one field: exactly when the shared counters still judge a rule by
    its own history. */
module SharedFields {
  import opened Policy

  // ----- The counters of a pair -----

  datatype Flag = Skipped | Passed | Violates

  function FlagOf(rule: Rule, t: Telemetry): Flag {
    if !Applies(rule, t) then Skipped else if Violated(rule, t) then Violates else Passed
  }

  /** Rule p of two on one field is the one judged. */
  ghost predicate IsPair(rules: seq<Rule>, p: nat) {
    |rules| == 2 && p < 2 && rules[0].field == rules[1].field
  }

  /** A run and a total. */
  type Counts = (nat, nat)

  function Counted(x: Counts, flag: Flag): Counts {
    match flag
    case Skipped => x
    case Passed => (0, x.1)
    case Violates => (x.0 + 1, x.1 + 1)
  }

  /** The shared counts of the field, and the counts that the judged rule would
      have alone. */
  datatype Pair = Pair(shared: Counts, own: Counts)

  /** The shared counts as the judged rule sees them: it runs first if p is 0. */
  function Seen(k: Pair, p: nat, own: Flag, other: Flag): Counts {
    Counted(if p == 0 then k.shared else Counted(k.shared, other), own)
  }

  function Next(k: Pair, p: nat, own: Flag, other: Flag): Pair {
    var seen := Seen(k, p, own, other);
    Pair(if p == 0 then Counted(seen, other) else seen, Counted(k.own, own))
  }

  function PairAfter(rules: seq<Rule>, p: nat, ticks: seq<Telemetry>): Pair
    requires |rules| == 2 && p < 2
  {
    if ticks == [] then Pair((0, 0), (0, 0)) else
      var t := ticks[|ticks| - 1];
      Next(PairAfter(rules, p, ticks[..|ticks| - 1]), p, FlagOf(rules[p], t), FlagOf(rules[1 - p], t))
  }

  function CountsAt(k: Counters, f: string): (int, int) {
    (At(k.consecutive, f), At(k.total, f))
  }

  function OneRule(k: Counters, rule: Rule, t: Telemetry): Counters {
    if Applies(rule, t) then Count(k, rule.field, Violated(rule, t)) else k
  }

  lemma {:induction false} TwoRules(k: Counters, rules: seq<Rule>, t: Telemetry)
    requires |rules| == 2
    ensures RunRules(k, rules[..1], t) == OneRule(k, rules[0], t)
    ensures RunRules(k, rules[..2], t) == RunRules(k, rules, t) == OneRule(OneRule(k, rules[0], t), rules[1], t)
  {
    assert rules[..2] == rules && rules[..1][..0] == [] && rules[..1][0] == rules[0];
  }

  lemma {:induction false} CountedAt(k: Counters, rule: Rule, t: Telemetry, x: Counts)
    requires CountsAt(k, rule.field) == x
    ensures CountsAt(OneRule(k, rule, t), rule.field) == Counted(x, FlagOf(rule, t))
  {
  }

  function OwnCounts(rule: Rule, ticks: seq<Telemetry>): Counts {
    (TrailingRun(RuleHistory(rule, ticks)), Trues(RuleHistory(rule, ticks)))
  }

  lemma {:induction false} OwnStep(rule: Rule, ticks: seq<Telemetry>, t: Telemetry)
    ensures OwnCounts(rule, ticks + [t]) == Counted(OwnCounts(rule, ticks), FlagOf(rule, t))
  {
    var flags := RuleHistory(rule, ticks);
    if Applies(rule, t) {
      RuleHistoryStep(rule, ticks, t);
      assert (flags + [Violated(rule, t)])[..|flags|] == flags;
    } else {
      assert (ticks + [t])[..|ticks|] == ticks && flags + [] == flags;
    }
  }

  /** What the two rules and the judged rule alone make of one more tick. */
  lemma {:induction false} TickCounts(rules: seq<Rule>, p: nat, c: Counters, t: Telemetry, k: Pair)
    requires IsPair(rules, p) && CountsAt(c, rules[0].field) == k.shared
    ensures var own, other := FlagOf(rules[p], t), FlagOf(rules[1 - p], t);
      && CountsAt(RunRules(c, rules[..p + 1], t), rules[0].field) == Seen(k, p, own, other)
      && CountsAt(RunRules(c, rules, t), rules[0].field) == Next(k, p, own, other).shared
  {
    TwoRules(c, rules, t);
    CountedAt(c, rules[0], t, k.shared);
    CountedAt(OneRule(c, rules[0], t), rules[1], t, Counted(k.shared, FlagOf(rules[0], t)));
  }

  lemma {:induction false} PairTracks(rules: seq<Rule>, p: nat, ticks: seq<Telemetry>)
    requires IsPair(rules, p)
    ensures CountsAt(RunTicks(rules, ticks), rules[0].field) == PairAfter(rules, p, ticks).shared
    ensures OwnCounts(rules[p], ticks) == PairAfter(rules, p, ticks).own
    decreases |ticks|
  {
    if ticks != [] {
      var n := |ticks| - 1;
      PairTracks(rules, p, ticks[..n]);
      TickCounts(rules, p, RunTicks(rules, ticks[..n]), ticks[n], PairAfter(rules, p, ticks[..n]));
      OwnStep(rules[p], ticks[..n], ticks[n]);
      assert ticks[..n] + [ticks[n]] == ticks;
    }
  }

  // ----- Verdicts -----

  predicate Over(rule: Rule, x: Counts) {
    Exceeds(x.0, rule.allowedConsecutive) && Exceeds(x.1, rule.allowedTotal)
  }

  /** After these ticks the engine and the rule's own history judge t alike. */
  ghost predicate JudgedAlike(rules: seq<Rule>, p: nat, ticks: seq<Telemetry>, t: Telemetry)
    requires p < |rules|
  {
    Escalates(RunTicks(rules, ticks), rules, t, p) <==> Breaches(rules[p], ticks + [t])
  }

  ghost predicate AlikeAt(rule: Rule, p: nat, k: Pair, own: Flag, other: Flag) {
    own == Violates ==> (Over(rule, Seen(k, p, own, other)) <==> Over(rule, Counted(k.own, own)))
  }

  lemma {:induction false} AlikeIff(rules: seq<Rule>, p: nat, ticks: seq<Telemetry>, t: Telemetry, k: Pair,
                                    own: Flag, other: Flag)
    requires IsPair(rules, p) && k == PairAfter(rules, p, ticks)
    requires own == FlagOf(rules[p], t) && other == FlagOf(rules[1 - p], t)
    ensures JudgedAlike(rules, p, ticks, t) <==> AlikeAt(rules[p], p, k, own, other)
  {
    PairTracks(rules, p, ticks);
    EscalatesAt(rules, p, RunTicks(rules, ticks), t, k, own, other);
    BreachesAt(rules[p], ticks, t);
  }

  lemma {:induction false} EscalatesAt(rules: seq<Rule>, p: nat, c: Counters, t: Telemetry, k: Pair, own: Flag,
                                       other: Flag)
    requires IsPair(rules, p) && CountsAt(c, rules[0].field) == k.shared
    requires own == FlagOf(rules[p], t) && other == FlagOf(rules[1 - p], t)
    ensures Escalates(c, rules, t, p) <==> own == Violates && Over(rules[p], Seen(k, p, own, other))
  {
    TickCounts(rules, p, c, t, k);
  }

  lemma {:induction false} BreachesAt(rule: Rule, ticks: seq<Telemetry>, t: Telemetry)
    ensures Breaches(rule, ticks + [t]) <==>
      FlagOf(rule, t) == Violates && Over(rule, Counted(OwnCounts(rule, ticks), FlagOf(rule, t)))
  {
    OwnStep(rule, ticks, t);
    assert (ticks + [t])[|ticks|] == t;
  }

  // ----- When the verdicts agree -----

  /** Some reading gives the two rules these flags. */
  ghost predicate Reads(rules: seq<Rule>, p: nat, own: Flag, other: Flag)
    requires |rules| == 2 && p < 2
  {
    exists t :: FlagOf(rules[p], t) == own && FlagOf(rules[1 - p], t) == other
  }

  function MaxAllowance(rule: Rule): int {
    if rule.allowedConsecutive < rule.allowedTotal then rule.allowedTotal else rule.allowedConsecutive
  }

  ghost predicate CanViolate(rules: seq<Rule>, p: nat)
    requires |rules| == 2 && p < 2
  {
    Reads(rules, p, Violates, Skipped) || Reads(rules, p, Violates, Passed) || Reads(rules, p, Violates, Violates)
  }

  /** The other rule counts a violation where the judged rule does not. */
  ghost predicate Adds(rules: seq<Rule>, p: nat)
    requires |rules| == 2 && p < 2
  {
    Reads(rules, p, Passed, Violates) || Reads(rules, p, Skipped, Violates)
  }

  /** The other rule resets the run where the judged rule does not. */
  ghost predicate Resets(rules: seq<Rule>, p: nat)
    requires |rules| == 2 && p < 2
  {
    Reads(rules, p, Violates, Passed) || Reads(rules, p, Skipped, Passed)
  }

  /** The other rule is never violated, and resets no run that matters. */
  ghost predicate Silent(rules: seq<Rule>, p: nat)
    requires |rules| == 2 && p < 2
  {
    && !Adds(rules, p) && !Reads(rules, p, Violates, Violates)
    && (rules[p].allowedConsecutive > 0 ==> !Resets(rules, p))
  }

  /** The judged rule runs first, forgives one violation, and the other is violated
      only together with it. */
  ghost predicate Follows(rules: seq<Rule>, p: nat)
    requires |rules| == 2 && p < 2
  {
    && p == 0 && MaxAllowance(rules[p]) == 1 && !Adds(rules, p)
    && (rules[p].allowedConsecutive > 0 ==> !Resets(rules, p))
  }

  /** The judged rule runs last, its run decides, and it passes whenever the other
      is violated, which undoes what that one counted. */
  ghost predicate Undone(rules: seq<Rule>, p: nat)
    requires |rules| == 2 && p < 2
  {
    && p == 1 && rules[p].allowedConsecutive > 0 && rules[p].allowedTotal <= rules[p].allowedConsecutive
    && !Reads(rules, p, Violates, Violates) && !Reads(rules, p, Skipped, Violates) && !Resets(rules, p)
  }

  /** The other rule cannot disturb the verdicts on rule p. */
  ghost predicate Harmless(rules: seq<Rule>, p: nat)
    requires |rules| == 2 && p < 2
  {
    || !Graced(rules[p]) || !CanViolate(rules, p)
    || Silent(rules, p) || Follows(rules, p) || Undone(rules, p)
  }

  /** What a harmless pair keeps. */
  ghost predicate InStep(rules: seq<Rule>, p: nat, k: Pair)
    requires |rules| == 2 && p < 2
  {
    var c := rules[p].allowedConsecutive;
    && (Silent(rules, p) ==> k.shared.1 == k.own.1 && (c > 0 ==> k.shared.0 == k.own.0))
    && (Follows(rules, p) ==>
          && (k.shared.1 == 0 <==> k.own.1 == 0)
          && (c > 0 ==> (k.shared.0 == 0 <==> k.own.0 == 0)))
    && (Undone(rules, p) ==> k.shared.0 == k.own.0 <= k.own.1 <= k.shared.1)
  }

  lemma {:induction false} StepInStep(rules: seq<Rule>, p: nat, k: Pair, own: Flag, other: Flag)
    requires |rules| == 2 && p < 2 && Reads(rules, p, own, other) && InStep(rules, p, k)
    ensures InStep(rules, p, Next(k, p, own, other))
  {
  }

  lemma {:induction false} StaysInStep(rules: seq<Rule>, p: nat, ticks: seq<Telemetry>)
    requires IsPair(rules, p)
    ensures InStep(rules, p, PairAfter(rules, p, ticks))
    decreases |ticks|
  {
    if ticks != [] {
      var t, k := ticks[|ticks| - 1], PairAfter(rules, p, ticks[..|ticks| - 1]);
      StaysInStep(rules, p, ticks[..|ticks| - 1]);
      StepInStep(rules, p, k, FlagOf(rules[p], t), FlagOf(rules[1 - p], t));
    }
  }

  lemma {:induction false} InStepAlike(rules: seq<Rule>, p: nat, k: Pair, own: Flag, other: Flag)
    requires |rules| == 2 && p < 2 && Reads(rules, p, own, other)
    requires Harmless(rules, p) && InStep(rules, p, k)
    ensures AlikeAt(rules[p], p, k, own, other)
  {
  }

  lemma {:induction false} HarmlessAgrees(rules: seq<Rule>, p: nat, ticks: seq<Telemetry>, t: Telemetry)
    requires IsPair(rules, p) && Harmless(rules, p)
    ensures JudgedAlike(rules, p, ticks, t)
  {
    var k, own, other := PairAfter(rules, p, ticks), FlagOf(rules[p], t), FlagOf(rules[1 - p], t);
    StaysInStep(rules, p, ticks);
    InStepAlike(rules, p, k, own, other);
    AlikeIff(rules, p, ticks, t, k, own, other);
  }

  // ----- When they do not -----

  /** The counts after n more ticks with these flags. */
  function Repeated(k: Pair, p: nat, own: Flag, other: Flag, n: nat): Pair {
    if n == 0 then k else Next(Repeated(k, p, own, other, n - 1), p, own, other)
  }

  function Times(ticks: seq<Telemetry>, t: Telemetry, n: nat): seq<Telemetry> {
    if n == 0 then ticks else Times(ticks, t, n - 1) + [t]
  }

  lemma {:induction false} TimesCounts(rules: seq<Rule>, p: nat, ticks: seq<Telemetry>, t: Telemetry, n: nat,
                                       own: Flag, other: Flag)
    requires IsPair(rules, p) && own == FlagOf(rules[p], t) && other == FlagOf(rules[1 - p], t)
    ensures PairAfter(rules, p, Times(ticks, t, n)) == Repeated(PairAfter(rules, p, ticks), p, own, other, n)
  {
    if n > 0 {
      var before := Times(ticks, t, n - 1);
      TimesCounts(rules, p, ticks, t, n - 1, own, other);
      assert (before + [t])[..|before|] == before;
    }
  }

  lemma {:induction false} BothTimes(k: Pair, p: nat, n: nat)
    ensures Repeated(k, p, Violates, Violates, n)
         == Pair((k.shared.0 + 2 * n, k.shared.1 + 2 * n), (k.own.0 + n, k.own.1 + n))
  {
    if n > 0 {
      BothTimes(k, p, n - 1);
    }
  }

  lemma {:induction false} AloneTimes(k: Pair, p: nat, n: nat)
    ensures Repeated(k, p, Violates, Skipped, n)
         == Pair((k.shared.0 + n, k.shared.1 + n), (k.own.0 + n, k.own.1 + n))
  {
    if n > 0 {
      AloneTimes(k, p, n - 1);
    }
  }

  lemma {:induction false} ResetTimes(k: Pair, p: nat, n: nat)
    requires k == Pair((0, 0), (0, 0)) && p < 2
    ensures var r := Repeated(k, p, Violates, Passed, n);
      r.own == (n, n) && Seen(r, p, Violates, Passed).0 == 1
  {
    if n > 0 {
      ResetTimes(k, p, n - 1);
    }
  }

  lemma {:induction false} OtherTimes(k: Pair, p: nat, own: Flag, n: nat)
    requires k == Pair((0, 0), (0, 0)) && p < 2 && n > 0 && own != Violates
    ensures var r := Repeated(k, p, own, Violates, n);
      && r.shared.1 == n && r.own == (0, 0)
      && r.shared.0 == if own == Skipped then n else if p == 0 then 1 else 0
  {
    if n > 1 {
      OtherTimes(k, p, own, n - 1);
    } else {
      assert Repeated(k, p, own, Violates, 0) == k;
    }
  }

  /** A flag pair that some reading gives, with the reading. */
  ghost function Reading(rules: seq<Rule>, p: nat, own: Flag, other: Flag): (t: Telemetry)
    requires |rules| == 2 && p < 2 && Reads(rules, p, own, other)
    ensures FlagOf(rules[p], t) == own && FlagOf(rules[1 - p], t) == other
  {
    var t :| FlagOf(rules[p], t) == own && FlagOf(rules[1 - p], t) == other;
    t
  }

  /** Disagreement on the abstract counts is disagreement after the ticks. */
  lemma {:induction false} Disagrees(rules: seq<Rule>, p: nat, ticks: seq<Telemetry>, k: Pair, own: Flag,
                                     other: Flag) returns (t: Telemetry)
    requires IsPair(rules, p) && Reads(rules, p, own, other) && k == PairAfter(rules, p, ticks)
    requires !AlikeAt(rules[p], p, k, own, other)
    ensures !JudgedAlike(rules, p, ticks, t)
  {
    t := Reading(rules, p, own, other);
    AlikeIff(rules, p, ticks, t, k, own, other);
  }

  const NONE: Pair := Pair((0, 0), (0, 0))

  /** n readings with the one pair of flags, then one with the other. */
  lemma {:induction false} DisagreesAfter(rules: seq<Rule>, p: nat, ticks: seq<Telemetry>, own: Flag,
                                          other: Flag, n: nat, own': Flag, other': Flag)
    returns (ticks': seq<Telemetry>, t: Telemetry)
    requires IsPair(rules, p) && Reads(rules, p, own, other) && Reads(rules, p, own', other')
    requires !AlikeAt(rules[p], p, Repeated(PairAfter(rules, p, ticks), p, own, other, n), own', other')
    ensures !JudgedAlike(rules, p, ticks', t)
  {
    var r := Reading(rules, p, own, other);
    TimesCounts(rules, p, ticks, r, n, own, other);
    ticks' := Times(ticks, r, n);
    t := Disagrees(rules, p, ticks', Repeated(PairAfter(rules, p, ticks), p, own, other, n), own', other');
  }

  /** A reading that violates the judged rule while the other passes, repeated: its
      own run breaches an allowance that the shared run never reaches. */
  lemma {:induction false} ResetDisagrees(rules: seq<Rule>, p: nat) returns (ticks: seq<Telemetry>, t: Telemetry)
    requires IsPair(rules, p) && rules[p].allowedConsecutive > 0 && Reads(rules, p, Violates, Passed)
    ensures !JudgedAlike(rules, p, ticks, t)
  {
    var m := MaxAllowance(rules[p]);
    ResetTimes(NONE, p, m);
    ticks, t := DisagreesAfter(rules, p, [], Violates, Passed, m, Violates, Passed);
  }

  /** Readings that violate both rules count twice. */
  lemma {:induction false} BothDisagrees(rules: seq<Rule>, p: nat) returns (ticks: seq<Telemetry>, t: Telemetry)
    requires IsPair(rules, p) && Graced(rules[p]) && (p == 0 ==> MaxAllowance(rules[p]) > 1)
    requires Reads(rules, p, Violates, Violates)
    ensures !JudgedAlike(rules, p, ticks, t)
  {
    var n := MaxAllowance(rules[p]) - 1;
    BothTimes(NONE, p, n);
    ticks, t := DisagreesAfter(rules, p, [], Violates, Violates, n, Violates, Violates);
  }

  /** Violations of the other rule alone use up the total, and the run as well if
      the judged rule is skipped. */
  lemma {:induction false} AddsDisagrees(rules: seq<Rule>, p: nat, own: Flag,
                                         other: Flag) returns (ticks: seq<Telemetry>, t: Telemetry)
    requires IsPair(rules, p) && Graced(rules[p]) && own != Violates
    requires Reads(rules, p, own, Violates) && Reads(rules, p, Violates, other)
    requires rules[p].allowedConsecutive > 0 ==> own == Skipped && other != Passed
    ensures !JudgedAlike(rules, p, ticks, t)
  {
    var m := MaxAllowance(rules[p]);
    OtherTimes(NONE, p, own, m);
    ticks, t := DisagreesAfter(rules, p, [], own, Violates, m, Violates, other);
  }

  /** Violations of the other rule alone use up the total; then the judged rule
      needs its run, which one of its own violations more or less decides. */
  lemma {:induction false} AddsThenRun(rules: seq<Rule>, p: nat, other: Flag,
                                       n: nat) returns (ticks: seq<Telemetry>, t: Telemetry)
    requires IsPair(rules, p) && rules[p].allowedConsecutive > 0 && other != Passed
    requires Reads(rules, p, Passed, Violates) && Reads(rules, p, Violates, other)
    requires if p == 1 && other == Skipped
             then n == rules[p].allowedConsecutive < rules[p].allowedTotal else n == rules[p].allowedConsecutive - 1
    ensures !JudgedAlike(rules, p, ticks, t)
  {
    var m := MaxAllowance(rules[p]);
    var r := Reading(rules, p, Passed, Violates);
    OtherTimes(NONE, p, Passed, m);
    TimesCounts(rules, p, [], r, m, Passed, Violates);
    var k := Repeated(NONE, p, Passed, Violates, m);
    if other == Violates {
      BothTimes(k, p, n);
    } else {
      AloneTimes(k, p, n);
    }
    ticks, t := DisagreesAfter(rules, p, Times([], r, m), Violates, other, n, Violates, other);
  }

  /** A violation and then a pass of the other rule alone, n times over. */
  function Alternated(k: Pair, p: nat, n: nat): Pair {
    if n == 0 then k else Next(Next(Alternated(k, p, n - 1), p, Violates, Skipped), p, Skipped, Passed)
  }

  function Alternately(u: Telemetry, w: Telemetry, n: nat): seq<Telemetry> {
    if n == 0 then [] else Alternately(u, w, n - 1) + [u] + [w]
  }

  lemma {:induction false} AlternatelyCounts(rules: seq<Rule>, p: nat, u: Telemetry, w: Telemetry, n: nat)
    requires IsPair(rules, p) && FlagOf(rules[p], u) == Violates && FlagOf(rules[1 - p], u) == Skipped
    requires FlagOf(rules[p], w) == Skipped && FlagOf(rules[1 - p], w) == Passed
    ensures PairAfter(rules, p, Alternately(u, w, n)) == Alternated(NONE, p, n) == Pair((0, n), (n, n))
  {
    if n > 0 {
      var before := Alternately(u, w, n - 1);
      AlternatelyCounts(rules, p, u, w, n - 1);
      assert (before + [u])[..|before|] == before;
      assert (before + [u] + [w])[..|before + [u]|] == before + [u];
    }
  }

  /** A pass of the other rule alone between the violations resets the shared run. */
  lemma {:induction false} AlternationDisagrees(rules: seq<Rule>, p: nat) returns (ticks: seq<Telemetry>, t: Telemetry)
    requires IsPair(rules, p) && rules[p].allowedConsecutive > 0
    requires Reads(rules, p, Skipped, Passed) && Reads(rules, p, Violates, Skipped)
    ensures !JudgedAlike(rules, p, ticks, t)
  {
    var u, w, m := Reading(rules, p, Violates, Skipped), Reading(rules, p, Skipped, Passed), MaxAllowance(rules[p]);
    AlternatelyCounts(rules, p, u, w, m);
    ticks := Alternately(u, w, m);
    t := Disagrees(rules, p, ticks, Pair((0, m), (m, m)), Violates, Skipped);
  }

  /** The same with a reading that violates both rules, for an allowance of 1. */
  lemma {:induction false} ResetBetweenDisagrees(rules: seq<Rule>) returns (ticks: seq<Telemetry>, t: Telemetry)
    requires IsPair(rules, 0) && rules[0].allowedConsecutive > 0 && MaxAllowance(rules[0]) == 1
    requires Reads(rules, 0, Skipped, Passed) && Reads(rules, 0, Violates, Violates)
    ensures !JudgedAlike(rules, 0, ticks, t)
  {
    var u := Reading(rules, 0, Violates, Violates);
    assert [u][..0] == [];
    assert PairAfter(rules, 0, [u]) == Pair((2, 2), (1, 1));
    assert Repeated(Pair((2, 2), (1, 1)), 0, Skipped, Passed, 0) == Pair((2, 2), (1, 1));
    assert Repeated(Pair((2, 2), (1, 1)), 0, Skipped, Passed, 1) == Pair((0, 2), (1, 1));
    ticks, t := DisagreesAfter(rules, 0, [u], Skipped, Passed, 1, Violates, Violates);
  }

  /** A harmful pair with a consecutive allowance. */
  lemma {:induction false} RunDisagrees(rules: seq<Rule>, p: nat) returns (ticks: seq<Telemetry>, t: Telemetry)
    requires IsPair(rules, p) && !Harmless(rules, p) && rules[p].allowedConsecutive > 0
    ensures !JudgedAlike(rules, p, ticks, t)
  {
    var c := rules[p].allowedConsecutive;
    var both := Reads(rules, p, Violates, Violates);
    if Reads(rules, p, Violates, Passed) {
      ticks, t := ResetDisagrees(rules, p);
    } else if both && (p == 1 || MaxAllowance(rules[p]) > 1) {
      ticks, t := BothDisagrees(rules, p);
    } else if Reads(rules, p, Skipped, Passed) {
      if both {
        ticks, t := ResetBetweenDisagrees(rules);
      } else {
        ticks, t := AlternationDisagrees(rules, p);
      }
    } else if Reads(rules, p, Skipped, Violates) {
      ticks, t := AddsDisagrees(rules, p, Skipped, if both then Violates else Skipped);
    } else if both {
      ticks, t := AddsThenRun(rules, p, Violates, c - 1);
    } else {
      ticks, t := AddsThenRun(rules, p, Skipped, if p == 1 then c else c - 1);
    }
  }

  lemma {:induction false} HarmfulDisagrees(rules: seq<Rule>, p: nat) returns (ticks: seq<Telemetry>, t: Telemetry)
    requires IsPair(rules, p) && !Harmless(rules, p)
    ensures !JudgedAlike(rules, p, ticks, t)
  {
    if rules[p].allowedConsecutive > 0 {
      ticks, t := RunDisagrees(rules, p);
    } else if Adds(rules, p) {
      ticks, t := AddsDisagrees(rules, p,
        if Reads(rules, p, Passed, Violates) then Passed else Skipped,
        if Reads(rules, p, Violates, Skipped) then Skipped
        else if Reads(rules, p, Violates, Passed) then Passed else Violates);
    } else {
      ticks, t := BothDisagrees(rules, p);
    }
  }

  /** In a profile of two rules on one field, the engine judges rule p by its own
      history after every run if and only if the other rule is harmless to it. */
  lemma {:induction false} JudgedAlikeIff(rules: seq<Rule>, p: nat)
    requires IsPair(rules, p)
    ensures (forall ticks, t :: JudgedAlike(rules, p, ticks, t)) <==> Harmless(rules, p)
  {
    if Harmless(rules, p) {
      forall ticks, t ensures JudgedAlike(rules, p, ticks, t) {
        HarmlessAgrees(rules, p, ticks, t);
      }
    } else {
      var ticks, t := HarmfulDisagrees(rules, p);
    }
  }

  // ----- Two rules on one field of a longer profile -----

  /** Rules i and j are the only rules of a known type on their field. */
  ghost predicate OnlyTwo(rules: seq<Rule>, i: nat, j: nat) {
    && i < j < |rules| && rules[i].field == rules[j].field
    && forall n :: 0 <= n < |rules| && n != i && n != j && rules[n].field == rules[i].field ==>
         rules[n].ruleType.UnknownType?
  }

  /** How many of the two are among the first n rules. */
  function Among(i: nat, j: nat, n: nat): nat {
    if n <= i then 0 else if n <= j then 1 else 2
  }

  function FirstFlags(a: Rule, b: Rule, t: Telemetry, k: nat): seq<bool> {
    if k == 0 then []
    else if k == 1 then FlagsOfRule(a, t, a.field)
    else FlagsOfRule(a, t, a.field) + FlagsOfRule(b, t, a.field)
  }

  lemma {:induction false} PrefixFlags(rules: seq<Rule>, t: Telemetry, i: nat, j: nat, n: nat)
    requires OnlyTwo(rules, i, j) && n <= |rules|
    ensures Flags(rules[..n], t, rules[i].field) == FirstFlags(rules[i], rules[j], t, Among(i, j, n))
  {
    if n > 0 {
      PrefixFlags(rules, t, i, j, n - 1);
      assert rules[..n][..n - 1] == rules[..n - 1];
      if n - 1 != i && n - 1 != j {
        assert FlagsOfRule(rules[n - 1], t, rules[i].field) == [];
      }
    }
  }

  lemma {:induction false} SameFlags(rules: seq<Rule>, pair: seq<Rule>, t: Telemetry, i: nat, j: nat, n: nat)
    requires OnlyTwo(rules, i, j) && pair == [rules[i], rules[j]] && n <= |rules|
    ensures Flags(rules[..n], t, pair[0].field) == Flags(pair[..Among(i, j, n)], t, pair[0].field)
  {
    PrefixFlags(rules, t, i, j, n);
    PrefixFlags(pair, t, 0, 1, Among(i, j, n));
  }

  lemma {:induction false} SameHistory(rules: seq<Rule>, pair: seq<Rule>, ticks: seq<Telemetry>, i: nat, j: nat)
    requires OnlyTwo(rules, i, j) && pair == [rules[i], rules[j]]
    ensures History(rules, ticks, pair[0].field) == History(pair, ticks, pair[0].field)
    decreases |ticks|
  {
    if ticks != [] {
      SameHistory(rules, pair, ticks[..|ticks| - 1], i, j);
      SameFlags(rules, pair, ticks[|ticks| - 1], i, j, |rules|);
      assert rules[..|rules|] == rules && pair[..2] == pair;
    }
  }

  /** The verdicts on a rule depend on the flags of its field alone. */
  lemma {:induction false} SameFlagsSameVerdict(rules: seq<Rule>, q: nat, pair: seq<Rule>, p: nat,
                                                ticks: seq<Telemetry>, t: Telemetry)
    requires q < |rules| && p < |pair| && rules[q] == pair[p]
    requires History(rules, ticks, rules[q].field) == History(pair, ticks, rules[q].field)
    requires Flags(rules[..q + 1], t, rules[q].field) == Flags(pair[..p + 1], t, rules[q].field)
    ensures JudgedAlike(rules, q, ticks, t) <==> JudgedAlike(pair, p, ticks, t)
  {
    EscalatesIff(rules, ticks, t, q);
    EscalatesIff(pair, ticks, t, p);
  }

  /** In any profile in which rules i and j are the only ones of a known type on
      their field, rule q of them is judged by its own history after every run if
      and only if the other is harmless to it; p is 0 for the first, 1 for the
      second. */
  lemma {:induction false} JudgedAlikeInProfile(rules: seq<Rule>, i: nat, j: nat, q: nat, p: nat)
    requires OnlyTwo(rules, i, j) && ((q == i && p == 0) || (q == j && p == 1))
    ensures (forall ticks, t :: JudgedAlike(rules, q, ticks, t)) <==> Harmless([rules[i], rules[j]], p)
  {
    var pair := [rules[i], rules[j]];
    JudgedAlikeIff(pair, p);
    forall ticks, t ensures JudgedAlike(rules, q, ticks, t) <==> JudgedAlike(pair, p, ticks, t) {
      SameHistory(rules, pair, ticks, i, j);
      SameFlags(rules, pair, t, i, j, q + 1);
      SameFlagsSameVerdict(rules, q, pair, p, ticks, t);
    }
  }

  // ----- The condition for two thresholds -----

  predicate IsThreshold(rule: Rule) {
    rule.ruleType.AbsoluteMinimum? || rule.ruleType.AbsoluteMaximum?
  }

  /** Rule a is violated by every reading that violates rule b. */
  predicate AsStrict(a: Rule, b: Rule) {
    && a.ruleType == b.ruleType
    && if a.ruleType.AbsoluteMinimum? then b.minValue <= a.minValue else a.maxValue <= b.maxValue
  }

  predicate CanViolateBoth(a: Rule, b: Rule) {
    || a.ruleType == b.ruleType
    || (a.ruleType.AbsoluteMinimum? && b.maxValue < a.minValue)
    || (b.ruleType.AbsoluteMinimum? && a.maxValue < b.minValue)
  }

  function FlagAt(rule: Rule, v: real): Flag {
    if rule.ruleType.AbsoluteMinimum?
    then (if v < rule.minValue then Violates else Passed)
    else (if v > rule.maxValue then Violates else Passed)
  }

  ghost predicate Gives(a: Rule, b: Rule, x: Flag, y: Flag) {
    exists v :: FlagAt(a, v) == x && FlagAt(b, v) == y
  }

  lemma {:induction false} FlagOfThreshold(rule: Rule, t: Telemetry)
    requires IsThreshold(rule)
    ensures FlagOf(rule, t) == if rule.field in t then FlagAt(rule, t[rule.field]) else Skipped
  {
  }

  lemma {:induction false} ReadsIffGives(rules: seq<Rule>, p: nat, x: Flag, y: Flag)
    requires IsPair(rules, p) && IsThreshold(rules[0]) && IsThreshold(rules[1])
    requires x != Skipped || y != Skipped
    ensures Reads(rules, p, x, y) <==> Gives(rules[p], rules[1 - p], x, y)
  {
    if Reads(rules, p, x, y) {
      var t := Reading(rules, p, x, y);
      FlagOfThreshold(rules[p], t);
      FlagOfThreshold(rules[1 - p], t);
    }
    if Gives(rules[p], rules[1 - p], x, y) {
      var v :| FlagAt(rules[p], v) == x && FlagAt(rules[1 - p], v) == y;
      var t: Telemetry := map[rules[0].field := v];
      FlagOfThreshold(rules[p], t);
      FlagOfThreshold(rules[1 - p], t);
    }
  }

  function Least(x: real, y: real): real {
    if x < y then x else y
  }

  lemma {:induction false} GivesBothIff(a: Rule, b: Rule)
    requires IsThreshold(a) && IsThreshold(b)
    ensures Gives(a, b, Violates, Violates) <==> CanViolateBoth(a, b)
  {
    if CanViolateBoth(a, b) {
      var v := if a.ruleType == b.ruleType
               then (if a.ruleType.AbsoluteMinimum? then Least(a.minValue, b.minValue) - 1.0
                     else 1.0 - Least(-a.maxValue, -b.maxValue))
               else if a.ruleType.AbsoluteMinimum? then (a.minValue + b.maxValue) / 2.0
               else (b.minValue + a.maxValue) / 2.0;
      assert FlagAt(a, v) == Violates && FlagAt(b, v) == Violates;
    }
  }

  lemma {:induction false} GivesOneIff(a: Rule, b: Rule)
    requires IsThreshold(a) && IsThreshold(b)
    ensures Gives(a, b, Violates, Passed) <==> !AsStrict(b, a)
  {
    if !AsStrict(b, a) {
      var v := if a.ruleType == b.ruleType
               then (if a.ruleType.AbsoluteMinimum? then b.minValue else b.maxValue)
               else if a.ruleType.AbsoluteMinimum? then Least(a.minValue, b.maxValue) - 1.0
               else 1.0 - Least(-a.maxValue, -b.minValue);
      assert FlagAt(a, v) == Violates && FlagAt(b, v) == Passed;
    }
  }

  lemma {:induction false} GivesSwapped(a: Rule, b: Rule)
    ensures Gives(a, b, Passed, Violates) <==> Gives(b, a, Violates, Passed)
  {
  }

  /** Which flags two thresholds on one field can give to a reading. */
  lemma {:induction false} ThresholdReads(rules: seq<Rule>, p: nat)
    requires IsPair(rules, p) && IsThreshold(rules[0]) && IsThreshold(rules[1])
    ensures var own, other := rules[p], rules[1 - p];
      && (Reads(rules, p, Violates, Violates) <==> CanViolateBoth(own, other))
      && (Reads(rules, p, Violates, Passed) <==> !AsStrict(other, own))
      && (Reads(rules, p, Passed, Violates) <==> !AsStrict(own, other))
      && !Reads(rules, p, Skipped, Violates) && !Reads(rules, p, Skipped, Passed) && !Reads(rules, p, Violates, Skipped)
  {
    var own, other := rules[p], rules[1 - p];
    ReadsIffGives(rules, p, Violates, Violates);
    ReadsIffGives(rules, p, Violates, Passed);
    ReadsIffGives(rules, p, Passed, Violates);
    ReadsIffGives(rules, p, Skipped, Violates);
    ReadsIffGives(rules, p, Skipped, Passed);
    ReadsIffGives(rules, p, Violates, Skipped);
    GivesBothIff(own, other);
    GivesOneIff(own, other);
    GivesOneIff(other, own);
    GivesSwapped(own, other);
  }

  /** Of two thresholds on one field, the other is harmless to rule p exactly when
      that one has no allowance, or it runs first, forgives one violation and is as
      strict as the other, of the same kind, and with a consecutive allowance has
      the same threshold. */
  lemma {:induction false} ThresholdsHarmlessIff(rules: seq<Rule>, p: nat)
    requires IsPair(rules, p) && IsThreshold(rules[0]) && IsThreshold(rules[1])
    ensures Harmless(rules, p) <==>
      || !Graced(rules[p])
      || (&& p == 0 && MaxAllowance(rules[0]) == 1 && AsStrict(rules[0], rules[1])
          && (rules[0].allowedConsecutive > 0 ==> AsStrict(rules[1], rules[0])))
  {
    ThresholdReads(rules, p);
  }

  /** A maximum with one consecutive reading forgiven, and a minimum beside it: the
      minimum passes and resets the counter, so the second high reading breaches
      the maximum and nothing is reported. */
  lemma {:induction false} SharedFieldHidesBreach() returns (rules: seq<Rule>, t: Telemetry)
    ensures |rules| == 2 && rules[0].field == rules[1].field
    ensures Breaches(rules[0], [t] + [t])
    ensures Reports(RunTicks(rules, [t]), rules, t, 2) == []
  {
    var high := Rule("x", "", AbsoluteMaximum, 0.0, 1.0, 0.0, 0.0, 1, 0);
    rules, t := [high, high.(ruleType := AbsoluteMinimum)], map["x" := 2.0];
    assert [t][..0] == [];
    assert PairAfter(rules, 0, [t]) == Pair((0, 1), (1, 1));
    PairTracks(rules, 0, [t]);
    TickCounts(rules, 0, RunTicks(rules, [t]), t, Pair((0, 1), (1, 1)));
    OwnStep(high, [t], t);
    assert !Escalates(RunTicks(rules, [t]), rules, t, 0);
    ReportedIff(RunTicks(rules, [t]), rules, t, 2);
  }
}
