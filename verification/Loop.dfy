/** The custody loop, run to completion event by event, is a run of the node. */
module Loop {
  import opened ByteStrings
  import opened Custody
  import opened Node
  import HotBuffer
  import Ledger

  function Draw(e: Event): Fresh {
    match e
    case DeltaEvent(_, _, f) => f
    case TickEvent(i, _, _) => i.draw
  }

  /** The database operations of one event, in order. */
  function EventSteps(cfg: Config, c: State, db: HotBuffer.Tables, e: Event): seq<Step> {
    match e
    case DeltaEvent(delta, _, f) => [StepDelta(delta, f)]
    case TickEvent(i, o, sigLands) =>
      var b := Begin(cfg, c, db, i);
      if !c.printer.IsActive() || b.draft.None? then [StepTick(i)]
      else if b.tables.Accepts(b.draft.value.packet) && o == HotBuffer.Stored
      then [StepTick(i), StepWrite(o), StepSign(sigLands)]
      else [StepTick(i), StepWrite(o)]
  }

  ghost predicate Idles(s: Sys, c: State, db: HotBuffer.Tables) {
    s.writer.Idle? && s.c == c && s.db == db
  }

  /** One event of the loop is its steps, uninterrupted. */
  lemma {:induction false} EventIsSteps(env: Env, s: Sys, e: Event)
    requires s.writer.Idle? && FreshDraw(s, Draw(e))
    ensures var steps := EventSteps(env.cfg, s.c, s.db, e); var after := React(env.cfg, s.c, s.db, e);
      && CanRun(env, s, steps)
      && Idles(Run(env, s, steps), after.0, after.1)
      && Run(env, s, steps).draws.Keys <= s.draws.Keys + {Draw(e).id}
  {
    match e
    case DeltaEvent(delta, _, f) => RunOne(env, s, StepDelta(delta, f));
    case TickEvent(i, o, sigLands) =>
      RunOne(env, s, StepTick(i));
      var t := AfterTick(env, s, i);
      TickDraws(env, s, i);
      if t.writer.Writing? {
        WriteIsSteps(env, t, o, sigLands);
        RunConcat(env, s, [StepTick(i)], WriteSteps(t, o, sigLands));
        assert EventSteps(env.cfg, s.c, s.db, e) == [StepTick(i)] + WriteSteps(t, o, sigLands);
      }
  }

  lemma {:induction false} TickDraws(env: Env, s: Sys, i: TickInput)
    ensures AfterTick(env, s, i).draws.Keys <= s.draws.Keys + {i.draw.id}
  {
    BeginShape(env, s.c, s.db, i);
  }

  ghost predicate Reported(s: Sys, o: HotBuffer.Outcome)
    requires s.writer.Writing?
  {
    s.db.Accepts(s.writer.draft.packet) && o == HotBuffer.Stored
  }

  ghost function WriteSteps(s: Sys, o: HotBuffer.Outcome, sigLands: bool): seq<Step>
    requires s.writer.Writing?
  {
    if Reported(s, o) then [StepWrite(o), StepSign(sigLands)] else [StepWrite(o)]
  }

  lemma {:induction false} WriteIsSteps(env: Env, s: Sys, o: HotBuffer.Outcome, sigLands: bool)
    requires s.writer.Writing?
    ensures var steps := WriteSteps(s, o, sigLands); var d := s.writer.draft; var db1 := s.db.WithPacket(d.packet, o);
      && CanRun(env, s, steps)
      && Run(env, s, steps).draws == s.draws
      && Idles(Run(env, s, steps),
               if Reported(s, o) then Advance(s.c, d) else s.c,
               if Reported(s, o) then Backfill(db1, |db1.packets|, d, sigLands) else db1)
      && (Reported(s, o) ==> Run(env, s, steps) == AfterSign(AfterWrite(s, o), sigLands))
  {
    RunOne(env, s, StepWrite(o));
    if Reported(s, o) {
      var t := AfterWrite(s, o);
      RunOne(env, t, StepSign(sigLands));
      RunConcat(env, s, [StepWrite(o)], [StepSign(sigLands)]);
      assert [StepWrite(o)] + [StepSign(sigLands)] == [StepWrite(o), StepSign(sigLands)];
    }
  }

  /** Session ids drawn in different events are different. */
  ghost predicate DistinctDraws(events: seq<Event>) {
    && (forall i :: 0 <= i < |events| ==> Draw(events[i]).id != [])
    && (forall i, j :: 0 <= i < j < |events| ==> Draw(events[i]).id != Draw(events[j]).id)
  }

  /** Whatever Packetizer.Run does on a list of events is a run of the node, so
      every result about runs holds of it. */
  lemma {:induction false} LoopIsRun(env: Env, events: seq<Event>) returns (steps: seq<Step>)
    requires DistinctDraws(events)
    ensures CanRun(env, START, steps)
    ensures var after := ReactAll(env.cfg, INITIAL, START.db, events);
      Idles(Run(env, START, steps), after.0, after.1)
    ensures Run(env, START, steps).draws.Keys <= set i | 0 <= i < |events| :: Draw(events[i]).id
    decreases |events|
  {
    if events == [] {
      steps := [];
    } else {
      var n := |events| - 1;
      steps := LoopIsRun(env, events[..n]);
      var s := Run(env, START, steps);
      assert Draw(events[n]).id !in s.draws;
      EventIsSteps(env, s, events[n]);
      var more := EventSteps(env.cfg, s.c, s.db, events[n]);
      RunConcat(env, START, steps, more);
      steps := steps + more;
    }
  }

  /** The rows written by the loop form gap-free linked chains. */
  lemma {:induction false} LoopIsGapFree(env: Env, events: seq<Event>,
                                         session: Bytes) returns (sigs: seq<Option<Bytes>>)
    requires DistinctDraws(events)
    ensures var packets := ReactAll(env.cfg, INITIAL, START.db, events).1.packets;
      |sigs| == |packets| && Ledger.Linked(env.cfg.blake3, env.cfg.sha256, packets, sigs, session)
  {
    var steps := LoopIsRun(env, events);
    var s := Run(env, START, steps);
    assert Reachable(env, s);
    GapFreeLedger(env, s, session);
    sigs := s.sigs;
  }
}
