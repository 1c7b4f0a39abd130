/** The custody packetizer of internal/custody/packetizer.go.

    The functions give one step of the custody loop on values; class Packetizer
    is the imperative loop, proved to take exactly those steps. What the printer,
    the TPM, the clock, the random source and the database do arrives as inputs. */
module Custody {
  import opened ByteStrings
  import opened HotBuffer
  import Chain

  // ----- Printer state and status deltas -----

  datatype PrintState = Printing | Paused | OtherState(name: string)
  datatype PrintStats = PrintStats(state: PrintState, rest: Bytes)
  datatype Printer = Printer(extruder: Bytes, heaterBed: Bytes, motionReport: Bytes,
                             stats: PrintStats, mcu: Bytes, chamber: Bytes)
  {
    predicate IsActive() {
      stats.state.Printing? || stats.state.Paused?
    }
  }

  datatype Object = Extruder | HeaterBed | MotionReport | Stats | Mcu | Chamber | Unknown(name: string)
  type Delta = map<Object, Bytes>

  /** The JSON decoders are parameters: each merges raw bytes into its own part. */
  datatype Config = Config(
    maxSilentTicks: int, quoteInterval: int, quoteOnLifecycle: bool, hasTpm: bool,
    blake3: Hash, sha256: Hash,
    mergePart: (Object, Bytes, Bytes) -> Bytes,
    mergeStats: (Bytes, PrintStats) -> PrintStats)

  /** A random session id (16 bytes in hex) and session nonce. */
  datatype Fresh = Fresh(id: Bytes, nonce: Digest)

  datatype State = State(
    printer: Printer,
    sessionID: Bytes, sessionNonce: Digest, seqNo: nat, prev: Option<Digest>,
    lastQuoteID: nat, silentTicks: int, immediateQuote: bool, lastQuoteAt: Option<int>)

  /** Zero values throughout; no session is open. */
  const INITIAL: State := State(
    Printer([], [], [], PrintStats(OtherState(""), []), [], []),
    [], Zeros(32), 0, None, 0, 0, false, None)

  function NewSession(s: State, f: Fresh): State {
    s.(sessionID := f.id, sessionNonce := f.nonce, seqNo := 0, prev := None,
       lastQuoteID := 0, silentTicks := 0, lastQuoteAt := None)
  }

  predicate OpensSession(from: PrintState, to: PrintState) {
    from != to && to.Printing? && !from.Paused?
  }

  function LifecycleEdge(cfg: Config, s: State, from: PrintState, to: PrintState, f: Fresh): State {
    if from == to then s else
      var s1 := if OpensSession(from, to) then NewSession(s, f) else s;
      if cfg.quoteOnLifecycle && cfg.hasTpm then s1.(immediateQuote := true) else s1
  }

  function ApplyObject(cfg: Config, s: State, obj: Object, raw: Bytes, f: Fresh): State {
    var p := s.printer;
    match obj
    case Extruder => s.(printer := p.(extruder := cfg.mergePart(obj, raw, p.extruder)))
    case HeaterBed => s.(printer := p.(heaterBed := cfg.mergePart(obj, raw, p.heaterBed)))
    case MotionReport => s.(printer := p.(motionReport := cfg.mergePart(obj, raw, p.motionReport)))
    case Mcu => s.(printer := p.(mcu := cfg.mergePart(obj, raw, p.mcu)))
    case Chamber => s.(printer := p.(chamber := cfg.mergePart(obj, raw, p.chamber)))
    case Unknown(_) => s
    case Stats =>
      var stats := cfg.mergeStats(raw, p.stats);
      LifecycleEdge(cfg, s.(printer := p.(stats := stats)), p.stats.state, stats.state, f)
  }

  /** The loop over delta.Status, in the order given. */
  function ApplyObjects(cfg: Config, s: State, delta: Delta, order: seq<Object>, f: Fresh): State
    requires forall o :: o in order ==> o in delta
    decreases |order|
  {
    if order == [] then s else
      ApplyObjects(cfg, ApplyObject(cfg, s, order[0], delta[order[0]], f), delta, order[1..], f)
  }

  function Part(cfg: Config, delta: Delta, obj: Object, part: Bytes): Bytes {
    if obj in delta then cfg.mergePart(obj, delta[obj], part) else part
  }

  function MergedPrinter(cfg: Config, p: Printer, delta: Delta): Printer {
    Printer(Part(cfg, delta, Extruder, p.extruder), Part(cfg, delta, HeaterBed, p.heaterBed),
            Part(cfg, delta, MotionReport, p.motionReport),
            if Stats in delta then cfg.mergeStats(delta[Stats], p.stats) else p.stats,
            Part(cfg, delta, Mcu, p.mcu), Part(cfg, delta, Chamber, p.chamber))
  }

  /** The effect of a whole delta, with no reference to an order. */
  function Merged(cfg: Config, s: State, delta: Delta, f: Fresh): State {
    var printer := MergedPrinter(cfg, s.printer, delta);
    LifecycleEdge(cfg, s, s.printer.stats.state, printer.stats.state, f).(printer := printer)
  }

  ghost predicate Distinct(order: seq<Object>) {
    forall i, j :: 0 <= i < j < |order| ==> order[i] != order[j]
  }

  ghost predicate Enumerates(order: seq<Object>, delta: Delta) {
    Distinct(order) && forall o :: o in order <==> o in delta
  }

  lemma {:induction false} MergePrinterOneFirst(cfg: Config, s: State, delta: Delta, o: Object, f: Fresh)
    requires o in delta
    ensures var s1 := ApplyObject(cfg, s, o, delta[o], f);
      && MergedPrinter(cfg, s1.printer, delta - {o}) == MergedPrinter(cfg, s.printer, delta)
      && (o != Stats ==> s1 == s.(printer := s1.printer) && s1.printer.stats == s.printer.stats)
  {
    assert forall x :: x != o ==> (x in delta <==> x in delta - {o});
  }

  lemma {:induction false} MergeOneFirst(cfg: Config, s: State, delta: Delta, o: Object, f: Fresh)
    requires o in delta
    ensures Merged(cfg, ApplyObject(cfg, s, o, delta[o], f), delta - {o}, f) == Merged(cfg, s, delta, f)
  {
    MergePrinterOneFirst(cfg, s, delta, o, f);
  }

  lemma {:induction false} FoldIsMerged(cfg: Config, s: State, delta: Delta, order: seq<Object>, f: Fresh)
    requires Enumerates(order, delta)
    ensures ApplyObjects(cfg, s, delta, order, f) == Merged(cfg, s, delta, f)
    decreases |order|
  {
    if order != [] {
      var o, rest := order[0], delta - {order[0]};
      var s1 := ApplyObject(cfg, s, o, delta[o], f);
      MergeOneFirst(cfg, s, delta, o, f);
      EnumeratesRest(order, delta);
      FoldIsMerged(cfg, s1, rest, order[1..], f);
      SameFold(cfg, s1, delta, rest, order[1..], f);
    }
  }

  lemma {:induction false} EnumeratesRest(order: seq<Object>, delta: Delta)
    requires Enumerates(order, delta) && order != []
    ensures Enumerates(order[1..], delta - {order[0]})
  {
    assert order == [order[0]] + order[1..];
  }

  lemma {:induction false} SameFold(cfg: Config, s: State, d1: Delta, d2: Delta, order: seq<Object>, f: Fresh)
    requires forall o :: o in order ==> o in d1 && o in d2 && d1[o] == d2[o]
    ensures ApplyObjects(cfg, s, d1, order, f) == ApplyObjects(cfg, s, d2, order, f)
    decreases |order|
  {
    if order != [] {
      SameFold(cfg, ApplyObject(cfg, s, order[0], d1[order[0]], f), d1, d2, order[1..], f);
    }
  }

  /** Go map iteration order does not matter: every order gives the same state. */
  lemma {:induction false} DeltaOrderIrrelevant(cfg: Config, s: State, delta: Delta, one: seq<Object>,
                                                other: seq<Object>, f: Fresh)
    requires Enumerates(one, delta) && Enumerates(other, delta)
    ensures ApplyObjects(cfg, s, delta, one, f) == ApplyObjects(cfg, s, delta, other, f)
  {
    FoldIsMerged(cfg, s, delta, one, f);
    FoldIsMerged(cfg, s, delta, other, f);
  }

  // ----- One tick -----

  datatype QuoteResult = QuoteFailed | Quoted(attest: Bytes, sig: Bytes, write: Outcome)

  /** What the outside world does in one tick, up to the packet write. */
  datatype TickInput = TickInput(draw: Fresh, tick: int, now: int, faultLands: bool,
                                 canonical: Option<Bytes>, quote: QuoteResult, sig: Option<Bytes>)

  /** A packet ready to be written, its signature and its quote reference. */
  datatype Draft = Draft(packet: Packet, sig: Option<Bytes>, quoteID: nat)

  datatype Begun = Begun(state: State, tables: Tables, draft: Option<Draft>)

  function OpenSession(s: State, f: Fresh): State {
    if s.sessionID == [] then NewSession(s, f) else s
  }

  predicate Silent(cfg: Config, s: State) {
    s.silentTicks + 1 > cfg.maxSilentTicks
  }

  function CountSilence(cfg: Config, s: State): State {
    s.(silentTicks := if Silent(cfg, s) then 0 else s.silentTicks + 1)
  }

  predicate ShouldQuote(cfg: Config, s: State, now: int) {
    s.immediateQuote || s.lastQuoteAt.None? || now - s.lastQuoteAt.value >= cfg.quoteInterval
  }

  predicate Quotes(cfg: Config, s: State, i: TickInput) {
    cfg.hasTpm && ShouldQuote(cfg, s, i.now) && i.quote.Quoted?
  }

  function TickQuote(cfg: Config, s: State, i: TickInput, canonical: Bytes): Quote
    requires i.quote.Quoted?
  {
    Quote(s.sessionID, s.seqNo,
          cfg.sha256(Chain.NonceInput(s.sessionNonce, cfg.sha256(canonical), s.prev, s.seqNo)),
          i.quote.attest, i.quote.sig)
  }

  function AfterQuote(s: State, id: nat, tick: int): State {
    s.(lastQuoteID := id, lastQuoteAt := Some(tick), immediateQuote := false)
  }

  function TakeQuote(cfg: Config, s: State, db: Tables, i: TickInput, canonical: Bytes): (State, Tables) {
    if Quotes(cfg, s, i) then
      var db1 := db.WithQuote(TickQuote(cfg, s, i, canonical), i.quote.write);
      (if i.quote.write == Stored then AfterQuote(s, |db1.quotes|, i.tick) else s, db1)
    else (s, db)
  }

  function MakeDraft(cfg: Config, s: State, i: TickInput, canonical: Bytes): Draft {
    var sig := if cfg.hasTpm then i.sig else None;
    var link := cfg.blake3(Chain.LinkInput(s.seqNo, s.sessionID, canonical, sig, s.prev));
    Draft(Packet(s.sessionID, s.seqNo, canonical, s.prev, cfg.sha256(canonical), link), sig, s.lastQuoteID)
  }

  /** Open a session if there is none, count the silence, report a fault. */
  function OpenTick(cfg: Config, s: State, db: Tables, i: TickInput): (State, Tables) {
    var s1 := OpenSession(s, i.draw);
    (CountSilence(cfg, s1),
     if Silent(cfg, s1) then db.WithFault(Fault(s1.sessionID, s1.seqNo), i.faultLands) else db)
  }

  /** An active tick up to, and without, the packet write. */
  function Begin(cfg: Config, s: State, db: Tables, i: TickInput): Begun {
    var (s1, db1) := OpenTick(cfg, s, db, i);
    if i.canonical.None? then Begun(s1, db1, None) else
      var (s2, db2) := TakeQuote(cfg, s1, db1, i, i.canonical.value);
      Begun(s2, db2, Some(MakeDraft(cfg, s2, i, i.canonical.value)))
  }

  function Advance(s: State, d: Draft): State {
    s.(prev := Some(d.packet.link), seqNo := s.seqNo + 1)
  }

  function Backfill(db: Tables, id: nat, d: Draft, lands: bool): Tables {
    if d.sig.Some? then db.WithSig(id, d.sig.value, d.quoteID, lands) else db
  }

  /** Write the packet, backfill the signature, advance. */
  function Finish(s: State, db: Tables, d: Draft, o: Outcome, sigLands: bool): (State, Tables) {
    var db1 := db.WithPacket(d.packet, o);
    if db.Accepts(d.packet) && o == Stored
    then (Advance(s, d), Backfill(db1, |db1.packets|, d, sigLands))
    else (s, db1)
  }

  /** A whole tick. */
  function Tick(cfg: Config, s: State, db: Tables, i: TickInput, o: Outcome, sigLands: bool): (State, Tables) {
    if !s.printer.IsActive() then (s, db) else
      var b := Begin(cfg, s, db, i);
      if b.draft.None? then (b.state, b.tables) else Finish(b.state, b.tables, b.draft.value, o, sigLands)
  }

  datatype Event =
    | DeltaEvent(delta: Delta, order: seq<Object>, draw: Fresh)
    | TickEvent(input: TickInput, write: Outcome, sigLands: bool)
  {
    ghost predicate Valid() {
      DeltaEvent? ==> Enumerates(order, delta)
    }
  }

  function OnDelta(cfg: Config, s: State, delta: Delta, f: Fresh): State {
    Merged(cfg, s, delta, f).(silentTicks := 0)
  }

  function React(cfg: Config, s: State, db: Tables, e: Event): (State, Tables) {
    match e
    case DeltaEvent(delta, _, f) => (OnDelta(cfg, s, delta, f), db)
    case TickEvent(i, o, sigLands) => Tick(cfg, s, db, i, o, sigLands)
  }

  function ReactAll(cfg: Config, s: State, db: Tables, events: seq<Event>): (State, Tables) {
    if events == [] then (s, db) else
      var before := ReactAll(cfg, s, db, events[..|events| - 1]);
      React(cfg, before.0, before.1, events[|events| - 1])
  }

  // ----- The packetizer -----

  class Packetizer {
    const cfg: Config
    const buf: Buffer
    var printer: Printer
    var sessionID: Bytes
    var sessionNonce: Digest
    var seqNo: nat
    var prev: Option<Digest>
    var lastQuoteID: nat
    var silentTicks: int
    var immediateQuote: bool
    var lastQuoteAt: Option<int>

    function View(): State
      reads this
    {
      State(printer, sessionID, sessionNonce, seqNo, prev, lastQuoteID, silentTicks,
            immediateQuote, lastQuoteAt)
    }

    constructor (cfg: Config, buf: Buffer)
      ensures this.cfg == cfg && this.buf == buf && View() == INITIAL
    {
      this.cfg, this.buf := cfg, buf;
      printer, sessionID, sessionNonce := INITIAL.printer, [], INITIAL.sessionNonce;
      seqNo, prev, lastQuoteID, silentTicks := 0, None, 0, 0;
      immediateQuote, lastQuoteAt := false, None;
    }

    method StartNewSession(f: Fresh)
      modifies this
      ensures View() == NewSession(old(View()), f)
    {
      sessionID := f.id;
      sessionNonce := f.nonce;
      seqNo := 0;
      prev := None;
      lastQuoteID := 0;
      silentTicks := 0;
      lastQuoteAt := None;
    }

    method DetectLifecycleEdge(from: PrintState, to: PrintState, f: Fresh)
      modifies this
      ensures View() == LifecycleEdge(cfg, old(View()), from, to, f)
    {
      if from == to {
        return;
      }
      if to.Printing? && !from.Paused? {
        StartNewSession(f);
      }
      if cfg.quoteOnLifecycle && cfg.hasTpm {
        immediateQuote := true;
      }
    }

    method ApplyOne(obj: Object, raw: Bytes, f: Fresh)
      modifies this
      ensures View() == ApplyObject(cfg, old(View()), obj, raw, f)
    {
      match obj
      case Extruder => printer := printer.(extruder := cfg.mergePart(obj, raw, printer.extruder));
      case HeaterBed => printer := printer.(heaterBed := cfg.mergePart(obj, raw, printer.heaterBed));
      case MotionReport => printer := printer.(motionReport := cfg.mergePart(obj, raw, printer.motionReport));
      case Mcu => printer := printer.(mcu := cfg.mergePart(obj, raw, printer.mcu));
      case Chamber => printer := printer.(chamber := cfg.mergePart(obj, raw, printer.chamber));
      case Unknown(_) =>
      case Stats =>
        var before := printer.stats;
        printer := printer.(stats := cfg.mergeStats(raw, printer.stats));
        DetectLifecycleEdge(before.state, printer.stats.state, f);
    }

    method ApplyDelta(delta: Delta, order: seq<Object>, f: Fresh)
      requires Enumerates(order, delta)
      modifies this
      ensures View() == Merged(cfg, old(View()), delta, f)
    {
      assert order[0..] == order;
      for i := 0 to |order|
        invariant ApplyObjects(cfg, View(), delta, order[i..], f)
               == ApplyObjects(cfg, old(View()), delta, order, f)
      {
        assert order[i..][1..] == order[i + 1..];
        ApplyOne(order[i], delta[order[i]], f);
      }
      FoldIsMerged(cfg, old(View()), delta, order, f);
    }

    method QuoteIfDue(i: TickInput, canonical: Bytes)
      modifies this, buf
      ensures (View(), buf.Db()) == TakeQuote(cfg, old(View()), old(buf.Db()), i, canonical)
    {
      if cfg.hasTpm && ShouldQuote(cfg, View(), i.now) && i.quote.Quoted? {
        var nonce := cfg.sha256(Chain.NonceInput(sessionNonce, cfg.sha256(canonical), prev, seqNo));
        var qid := buf.WriteQuote(Quote(sessionID, seqNo, nonce, i.quote.attest, i.quote.sig), i.quote.write);
        if qid.Some? {
          lastQuoteID := qid.value;
          lastQuoteAt := Some(i.tick);
          immediateQuote := false;
        }
      }
    }

    method StartTick(i: TickInput)
      modifies this, buf
      ensures (View(), buf.Db()) == OpenTick(cfg, old(View()), old(buf.Db()), i)
    {
      if sessionID == [] {
        StartNewSession(i.draw);
      }
      silentTicks := silentTicks + 1;
      if silentTicks > cfg.maxSilentTicks {
        buf.RecordProvenanceFault(sessionID, seqNo, i.faultLands);
        silentTicks := 0;
      }
    }

    /** The first half of onTick, up to the packet write. */
    method BeginTick(i: TickInput) returns (draft: Option<Draft>)
      modifies this, buf
      ensures Begin(cfg, old(View()), old(buf.Db()), i) == Begun(View(), buf.Db(), draft)
      ensures buf.packets == old(buf.packets)
    {
      StartTick(i);
      if i.canonical.None? {
        return None;
      }
      var canonical := i.canonical.value;
      var sha := cfg.sha256(canonical);
      QuoteIfDue(i, canonical);
      var tpmSig := if cfg.hasTpm then i.sig else None;
      var link := cfg.blake3(Chain.LinkInput(seqNo, sessionID, canonical, tpmSig, prev));
      draft := Some(Draft(Packet(sessionID, seqNo, canonical, prev, sha, link), tpmSig, lastQuoteID));
    }

    /** The second half, from the packet write. */
    method FinishTick(d: Draft, o: Outcome, sigLands: bool)
      requires buf.Db().Unique()
      modifies this, buf
      ensures buf.Db().Unique()
      ensures (View(), buf.Db()) == Finish(old(View()), old(buf.Db()), d, o, sigLands)
    {
      var rowID := buf.WritePacket(d.packet, o);
      if rowID.None? {
        return;
      }
      if d.sig.Some? {
        buf.SetTPMSig(rowID.value, d.sig.value, d.quoteID, sigLands);
      }
      prev := Some(d.packet.link);
      seqNo := seqNo + 1;
    }

    method OnTick(i: TickInput, o: Outcome, sigLands: bool)
      requires buf.Db().Unique()
      modifies this, buf
      ensures buf.Db().Unique()
      ensures (View(), buf.Db()) == Tick(cfg, old(View()), old(buf.Db()), i, o, sigLands)
    {
      if !printer.IsActive() {
        return;
      }
      var draft := BeginTick(i);
      if draft.Some? {
        FinishTick(draft.value, o, sigLands);
      }
    }

    method Handle(e: Event)
      requires buf.Db().Unique() && e.Valid()
      modifies this, buf
      ensures buf.Db().Unique()
      ensures (View(), buf.Db()) == React(cfg, old(View()), old(buf.Db()), e)
    {
      match e
      case DeltaEvent(delta, order, f) =>
        ApplyDelta(delta, order, f);
        silentTicks := 0;
      case TickEvent(input, o, sigLands) =>
        OnTick(input, o, sigLands);
    }

    method Run(events: seq<Event>)
      requires buf.Db().Unique()
      requires forall e :: e in events ==> e.Valid()
      modifies this, buf
      ensures buf.Db().Unique()
      ensures (View(), buf.Db()) == ReactAll(cfg, old(View()), old(buf.Db()), events)
    {
      for i := 0 to |events|
        invariant buf.Db().Unique()
        invariant (View(), buf.Db()) == ReactAll(cfg, old(View()), old(buf.Db()), events[..i])
      {
        assert events[..i + 1][..i] == events[..i] && events[i] in events;
        Handle(events[i]);
      }
      assert events[..|events|] == events;
    }
  }
}
