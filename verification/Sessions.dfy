/** Session boundaries and the silence counter over whole runs. */
module Sessions {
  import opened Custody
  import opened Node
  import ByteStrings
  import HotBuffer
  import Ledger

  // ----- Printer state -----

  /** Each object of a delta is merged into its own part, and no other part changes. */
  lemma {:induction false} DeltaParts(env: Env, s: Sys, delta: Delta, f: Fresh)
    ensures var p, q := s.c.printer, AfterDelta(env, s, delta, f).c.printer;
      && q.extruder == Part(env.cfg, delta, Extruder, p.extruder)
      && q.heaterBed == Part(env.cfg, delta, HeaterBed, p.heaterBed)
      && q.motionReport == Part(env.cfg, delta, MotionReport, p.motionReport)
      && q.mcu == Part(env.cfg, delta, Mcu, p.mcu)
      && q.chamber == Part(env.cfg, delta, Chamber, p.chamber)
      && q.stats == if Stats in delta then env.cfg.mergeStats(delta[Stats], p.stats) else p.stats
  {
  }

  // ----- Session boundaries -----

  /** A delta opens a session exactly when it enters printing from a state other
      than paused; the new session starts at seq 0, has no rows yet, and a quote
      is due on its first tick whatever the clock says. */
  lemma {:induction false} DeltaOpensSessionIff(env: Env, s: Sys, delta: Delta, f: Fresh)
    requires CustodyInv(env, s) && Enabled(env, s, StepDelta(delta, f))
    ensures var t := AfterDelta(env, s, delta, f);
      var from, to := s.c.printer.stats.state, t.c.printer.stats.state;
      if to == Printing && from != Printing && from != Paused
      then
        && t.c.sessionID == f.id && t.c.sessionNonce == f.nonce && f.id !in s.draws
        && t.c.seqNo == 0 && t.c.prev == ByteStrings.None && Ledger.Ids(t.db.packets, f.id) == []
        && t.c.lastQuoteID == 0 && forall now :: ShouldQuote(env.cfg, t.c, now)
      else t.c.sessionID == s.c.sessionID && t.c.seqNo == s.c.seqNo && t.c.prev == s.c.prev
  {
    NoRowsYet(s, f.id);
  }

  /** The printer is printing or paused in s and after each of the steps. */
  ghost predicate ActiveThroughout(env: Env, s: Sys, steps: seq<Step>)
    requires CanRun(env, s, steps)
    decreases |steps|
  {
    && s.c.printer.IsActive()
    && (steps != [] ==> ActiveThroughout(env, Apply(env, s, steps[0]), steps[1..]))
  }

  ghost predicate NewRowsIn(s: Sys, t: Sys, session: ByteStrings.Bytes) {
    && |s.db.packets| <= |t.db.packets|
    && forall i :: |s.db.packets| <= i < |t.db.packets| ==> t.db.packets[i].session == session
  }

  lemma {:induction false} StepInStretch(env: Env, s: Sys, step: Step)
    requires CustodyInv(env, s) && Enabled(env, s, step)
    requires s.c.printer.IsActive() && Apply(env, s, step).c.printer.IsActive()
    ensures var t := Apply(env, s, step);
      && (s.c.sessionID != [] ==> t.c.sessionID == s.c.sessionID)
      && NewRowsIn(s, t, t.c.sessionID)
      && (s.c.sessionID == [] ==> |t.db.packets| == |s.db.packets|)
  {
    if step.StepTick? {
      BeginShape(env, s.c, s.db, step.input);
    } else if IsUploaderStep(step) {
      UploaderLeavesCustody(env, s, step);
    }
  }

  /** All rows recorded in one unbroken printing/paused stretch carry one
      session id, the one already open if there was one. */
  lemma {:induction false} OneSessionPerStretch(env: Env, s: Sys, steps: seq<Step>)
    requires CustodyInv(env, s) && CanRun(env, s, steps) && ActiveThroughout(env, s, steps)
    ensures var t := Run(env, s, steps);
      && (s.c.sessionID != [] ==> t.c.sessionID == s.c.sessionID)
      && NewRowsIn(s, t, t.c.sessionID)
    decreases |steps|
  {
    if steps != [] {
      var s1 := Apply(env, s, steps[0]);
      StepInStretch(env, s, steps[0]);
      StepKeepsCustody(env, s, steps[0]);
      OneSessionPerStretch(env, s1, steps[1..]);
      RowsPersist(env, s1, steps[1..]);
    }
  }

  lemma {:induction false} RowsPersist(env: Env, s: Sys, steps: seq<Step>)
    requires CanRun(env, s, steps)
    ensures s.db.packets <= Run(env, s, steps).db.packets
    decreases |steps|
  {
    if steps != [] {
      var step := steps[0];
      if step.StepTick? {
        BeginShape(env, s.c, s.db, step.input);
      } else if IsUploaderStep(step) {
        UploaderLeavesCustody(env, s, step);
      }
      RowsPersist(env, Apply(env, s, step), steps[1..]);
    }
  }

  // ----- The silence counter -----

  ghost predicate SilenceInv(env: Env, s: Sys) {
    && 0 <= s.c.silentTicks <= env.cfg.maxSilentTicks
    && (s.c.sessionID == [] ==> s.c.silentTicks == 0)
  }

  predicate IsActiveTick(s: Sys, step: Step) {
    step.StepTick? && s.c.printer.IsActive()
  }

  ghost function ActiveTicks(env: Env, s: Sys, steps: seq<Step>): nat
    requires CanRun(env, s, steps)
    decreases |steps|
  {
    if steps == [] then 0 else
      (if IsActiveTick(s, steps[0]) then 1 else 0) + ActiveTicks(env, Apply(env, s, steps[0]), steps[1..])
  }

  /** The steps that set the counter back to zero. */
  predicate Resets(step: Step) {
    step.StepDelta? || step.StepRestart?
  }

  lemma {:induction false} ActiveTickCounts(env: Env, s: Sys, i: TickInput)
    requires SilenceInv(env, s) && s.c.printer.IsActive() && FreshDraw(s, i.draw)
    ensures var t := AfterTick(env, s, i); var full := s.c.silentTicks == env.cfg.maxSilentTicks;
      && SilenceInv(env, t)
      && t.c.silentTicks == (if full then 0 else s.c.silentTicks + 1)
      && t.attempts == s.attempts + (if full then 1 else 0)
  {
    BeginShape(env, s.c, s.db, i);
    BeginCounts(env, s.c, s.db, i);
  }

  lemma {:induction false} BeginCounts(env: Env, s: State, db: HotBuffer.Tables, i: TickInput)
    ensures Begin(env.cfg, s, db, i).state.silentTicks == CountSilence(env.cfg, OpenSession(s, i.draw)).silentTicks
  {
  }

  lemma {:induction false} OtherStepsCount(env: Env, s: Sys, step: Step)
    requires SilenceInv(env, s) && Enabled(env, s, step) && !IsActiveTick(s, step)
    ensures var t := Apply(env, s, step);
      && SilenceInv(env, t) && t.attempts == s.attempts
      && t.c.silentTicks == (if Resets(step) then 0 else s.c.silentTicks)
  {
    if IsUploaderStep(step) {
      UploaderLeavesCustody(env, s, step);
    }
  }

  /** From s to t every fault attempt costs m of the n active ticks; exactly m,
      and the counter holds the rest, if exact. */
  ghost predicate Costs(s: Sys, t: Sys, m: int, n: nat, exact: bool) {
    && t.attempts >= s.attempts
    && (t.attempts - s.attempts) * m + t.c.silentTicks <= s.c.silentTicks + n
    && (exact ==> (t.attempts - s.attempts) * m + t.c.silentTicks == s.c.silentTicks + n)
  }

  lemma {:induction false} CostsAdd(s: Sys, s1: Sys, t: Sys, m: int, n: nat, n': nat, first: bool, rest: bool,
                                    exact: bool)
    requires Costs(s, s1, m, n, first) && Costs(s1, t, m, n', rest) && (exact ==> first && rest)
    ensures Costs(s, t, m, n + n', exact)
  {
    OneMore(t.attempts - s1.attempts, s1.attempts - s.attempts, m);
  }

  lemma {:induction false} StepCosts(env: Env, s: Sys, step: Step)
    requires SilenceInv(env, s) && Enabled(env, s, step)
    ensures SilenceInv(env, Apply(env, s, step))
    ensures Costs(s, Apply(env, s, step), env.cfg.maxSilentTicks + 1,
                  if IsActiveTick(s, step) then 1 else 0, !Resets(step))
  {
    if IsActiveTick(s, step) {
      ActiveTickCounts(env, s, step.input);
    } else {
      OtherStepsCount(env, s, step);
    }
  }

  predicate NoResets(steps: seq<Step>) {
    forall i :: 0 <= i < |steps| ==> !Resets(steps[i])
  }

  lemma {:induction false} NoResetsRest(steps: seq<Step>)
    requires steps != [] && NoResets(steps)
    ensures !Resets(steps[0]) && NoResets(steps[1..])
  {
  }

  /** Every fault attempt costs M + 1 active ticks, where M is the configured
      maximum; deltas and restarts can only postpone it. The counter stays within
      0..M. */
  lemma {:induction false} FaultsCostTicks(env: Env, s: Sys, steps: seq<Step>)
    requires SilenceInv(env, s) && CanRun(env, s, steps)
    ensures SilenceInv(env, Run(env, s, steps))
    ensures Costs(s, Run(env, s, steps), env.cfg.maxSilentTicks + 1, ActiveTicks(env, s, steps), NoResets(steps))
    decreases |steps|
  {
    if steps != [] {
      var step, rest := steps[0], steps[1..];
      var s1 := Apply(env, s, step);
      StepCosts(env, s, step);
      FaultsCostTicks(env, s1, rest);
      if NoResets(steps) {
        NoResetsRest(steps);
      }
      CostsAdd(s, s1, Run(env, s1, rest), env.cfg.maxSilentTicks + 1, if IsActiveTick(s, step) then 1 else 0,
               ActiveTicks(env, s1, rest), !Resets(step), NoResets(rest), NoResets(steps));
    }
  }

  /** A tick stores a fault row exactly when it attempts one and the insert lands;
      the row names the session and the seq where continuity broke. */
  lemma {:induction false} FaultRow(env: Env, s: Sys, step: Step)
    requires Enabled(env, s, step)
    ensures var t := Apply(env, s, step);
      t.db.faults == s.db.faults +
        if t.attempts > s.attempts && step.input.faultLands then [HotBuffer.Fault(t.c.sessionID, t.c.seqNo)] else []
  {
    if step.StepTick? {
      BeginShape(env, s.c, s.db, step.input);
      BeginFaults(env, s.c, s.db, step.input);
    } else {
      assert s.db.faults + [] == s.db.faults;
    }
  }

  predicate FaultsLand(steps: seq<Step>) {
    forall i :: 0 <= i < |steps| && steps[i].StepTick? ==> steps[i].input.faultLands
  }

  /** Over any run there are at most as many new fault rows as attempts, and as
      many if every insert lands. */
  lemma {:induction false} FaultRowsMatchAttempts(env: Env, s: Sys, steps: seq<Step>)
    requires CanRun(env, s, steps)
    ensures var t := Run(env, s, steps);
      && s.db.faults <= t.db.faults
      && |t.db.faults| - |s.db.faults| <= t.attempts - s.attempts
      && (FaultsLand(steps) ==> |t.db.faults| - |s.db.faults| == t.attempts - s.attempts)
    decreases |steps|
  {
    if steps != [] {
      var s1 := Apply(env, s, steps[0]);
      FaultRow(env, s, steps[0]);
      OneAttempt(env, s, steps[0]);
      FaultRowsMatchAttempts(env, s1, steps[1..]);
    }
  }

  lemma {:induction false} OneAttempt(env: Env, s: Sys, step: Step)
    requires Enabled(env, s, step)
    ensures s.attempts <= Apply(env, s, step).attempts <= s.attempts + 1
    ensures !step.StepTick? ==> Apply(env, s, step).attempts == s.attempts
  {
    if IsUploaderStep(step) {
      UploaderLeavesCustody(env, s, step);
    }
  }

  /** Silence is on record: n active ticks with no delta and no restart after a
      reset leave exactly floor(n / (M+1)) new fault rows if the inserts land. */
  lemma {:induction false} SilenceIsRecorded(env: Env, s: Sys, steps: seq<Step>)
    requires env.cfg.maxSilentTicks >= 0 && s.c.silentTicks == 0
    requires CanRun(env, s, steps) && NoResets(steps) && FaultsLand(steps)
    ensures |Run(env, s, steps).db.faults| - |s.db.faults|
         == ActiveTicks(env, s, steps) / (env.cfg.maxSilentTicks + 1)
  {
    SilentRunFaults(env, s, steps);
    FaultRowsMatchAttempts(env, s, steps);
  }

  lemma {:induction false} BeginFaults(env: Env, c: State, db: HotBuffer.Tables, i: TickInput)
    ensures var s1 := OpenSession(c, i.draw);
      Begin(env.cfg, c, db, i).tables.faults ==
        if Silent(env.cfg, s1) && i.faultLands then db.faults + [HotBuffer.Fault(s1.sessionID, s1.seqNo)] else db.faults
  {
  }

  lemma {:induction false} OneMore(a: nat, b: nat, m: int)
    ensures (a + b) * m == a * m + b * m
  {
  }

  /** n active ticks with no delta and no restart after a reset attempt floor(n / (M+1)) faults. */
  lemma {:induction false} SilentRunFaults(env: Env, s: Sys, steps: seq<Step>)
    requires env.cfg.maxSilentTicks >= 0 && s.c.silentTicks == 0
    requires CanRun(env, s, steps) && NoResets(steps)
    ensures var t := Run(env, s, steps); var n := ActiveTicks(env, s, steps);
      && t.attempts - s.attempts == n / (env.cfg.maxSilentTicks + 1)
      && t.c.silentTicks == n % (env.cfg.maxSilentTicks + 1)
  {
    FaultsCostTicks(env, s, steps);
    var t := Run(env, s, steps);
    ByteStrings.QuotientOf(ActiveTicks(env, s, steps), t.attempts - s.attempts, env.cfg.maxSilentTicks + 1,
                           t.c.silentTicks);
  }

  /** Two fault attempts are at least M + 1 active ticks apart: s is any state
      just after one, or just after any other reset. */
  lemma {:induction false} FaultsFarApart(env: Env, s: Sys, steps: seq<Step>)
    requires env.cfg.maxSilentTicks >= 0 && s.c.silentTicks == 0 && CanRun(env, s, steps)
    requires Run(env, s, steps).attempts > s.attempts
    ensures ActiveTicks(env, s, steps) >= env.cfg.maxSilentTicks + 1
  {
    FaultsCostTicks(env, s, steps);
    AtLeastOne(Run(env, s, steps).attempts - s.attempts, env.cfg.maxSilentTicks + 1);
  }

  lemma {:induction false} AtLeastOne(q: nat, m: nat)
    requires q > 0
    ensures q * m >= m
  {
  }
}
