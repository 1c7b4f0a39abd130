/** The edge node as a state machine: the packetizer goroutine and one uploader
    goroutine over a shared buffer, interleaved at every database operation. */
module Node {
  import opened ByteStrings
  import opened HotBuffer
  import opened Custody
  import opened Ledger
  import Chain
  import Merkle

  /** Where the packetizer is inside a tick; quote is the id of the quote that
      the tick stored, or 0. */
  datatype Writer = Idle | Writing(draft: Draft, quote: nat) | Signing(draft: Draft, id: nat)

  /** Where the uploader is inside a flush. */
  datatype Uploading =
    | Waiting
    | Ranged(start: nat, end: nat, ids: seq<nat>)
    | Hashed(start: nat, end: nat, ids: seq<nat>, hashes: seq<Bytes>)
    | Shipping(segment: Segment)

  /** Hashes and settings, the uploader's session and its batch size. */
  datatype Env = Env(cfg: Config, session: Bytes, batch: int)

  /** What a quote was taken for: a packet digest, and the row that the packet
      write of the same tick created, or 0 if there is none. */
  datatype Target = Target(digest: Digest, row: nat)

  /** What became of the signature of a row: its packet write was not reported,
      its update is still to come or was cut off by a restart, or the update was
      sent with this quote id. */
  datatype Fate = Unreported | Awaited | Sent(quoteID: nat, lands: bool)

  /** The fields from draws on record history: session ids drawn and their nonces,
      the signature each row was linked with and its fate, the target of each
      quote, fault attempts, payloads sent. */
  datatype Sys = Sys(c: State, db: Tables, writer: Writer, up: Uploading,
                     draws: map<Bytes, Digest>, sigs: seq<Option<Bytes>>, fates: seq<Fate>,
                     targets: seq<Target>, attempts: nat, shipped: seq<Segment>)

  const START: Sys := Sys(INITIAL, Tables([], map[], map[], map[], [], [], []), Idle, Waiting,
                          map[], [], [], [], 0, [])

  datatype Step =
    | StepDelta(delta: Delta, draw: Fresh)
    | StepTick(input: TickInput)
    | StepWrite(outcome: Outcome)
    | StepSign(lands: bool)
    | StepRange(start: nat, end: nat, ids: seq<nat>, cut: Option<nat>)
    | StepHashes
    | StepCommit(outcome: Outcome)
    | StepShip
    | StepAbort
    | StepRestart

  /** A session id drawn at random is one that was not drawn before. */
  predicate FreshDraw(s: Sys, f: Fresh) {
    f.id != [] && f.id !in s.draws
  }

  ghost predicate Enabled(env: Env, s: Sys, step: Step) {
    match step
    case StepDelta(_, f) => s.writer.Idle? && FreshDraw(s, f)
    case StepTick(i) => s.writer.Idle? && FreshDraw(s, i.draw)
    case StepWrite(_) => s.writer.Writing?
    case StepSign(_) => s.writer.Signing?
    case StepRange(start, end, ids, cut) =>
      s.up.Waiting? && s.db.IsPendingRange(env.session, Delivered(env.batch, cut), start, end, ids)
    case StepHashes => s.up.Ranged?
    case StepCommit(_) => s.up.Hashed?
    case StepShip => s.up.Shipping?
    case StepAbort => !s.up.Waiting?
    case StepRestart => true
  }

  function Drawn(draws: map<Bytes, Digest>, before: State, after: State): map<Bytes, Digest> {
    if before.sessionID == after.sessionID then draws else draws[after.sessionID := after.sessionNonce]
  }

  function AfterDelta(env: Env, s: Sys, delta: Delta, f: Fresh): Sys {
    var c := OnDelta(env.cfg, s.c, delta, f);
    s.(c := c, draws := Drawn(s.draws, s.c, c))
  }

  function AfterTick(env: Env, s: Sys, i: TickInput): Sys {
    if !s.c.printer.IsActive() then s else
      var b := Begin(env.cfg, s.c, s.db, i);
      var quoted := |b.tables.quotes| > |s.db.quotes|;
      s.(c := b.state, db := b.tables,
         writer := if b.draft.None? then Idle
                   else Writing(b.draft.value, if quoted then |b.tables.quotes| else 0),
         targets := if quoted then s.targets + [Target(env.cfg.sha256(OrEmpty(i.canonical)), 0)] else s.targets,
         draws := Drawn(s.draws, s.c, b.state),
         attempts := s.attempts + if Silent(env.cfg, OpenSession(s.c, i.draw)) then 1 else 0)
  }

  /** The packet write of the tick that stored this quote created the row. */
  function Hit(targets: seq<Target>, quote: nat, row: nat): seq<Target> {
    if 1 <= quote <= |targets| then targets[quote - 1 := targets[quote - 1].(row := row)] else targets
  }

  function AfterWrite(s: Sys, o: Outcome): Sys
    requires s.writer.Writing?
  {
    var d := s.writer.draft;
    if !s.db.Accepts(d.packet) || o == Lost then s.(writer := Idle) else
      var db := s.db.WithPacket(d.packet, o);
      s.(db := db, sigs := s.sigs + [d.sig],
         fates := s.fates + [if o == Stored then Awaited else Unreported],
         targets := Hit(s.targets, s.writer.quote, |db.packets|),
         writer := if o == Stored then Signing(d, |db.packets|) else Idle)
  }

  function Fated(fates: seq<Fate>, id: nat, fate: Fate): seq<Fate> {
    if 1 <= id <= |fates| then fates[id - 1 := fate] else fates
  }

  function AfterSign(s: Sys, lands: bool): Sys
    requires s.writer.Signing?
  {
    s.(c := Advance(s.c, s.writer.draft),
       db := Backfill(s.db, s.writer.id, s.writer.draft, lands),
       fates := Fated(s.fates, s.writer.id, Sent(s.writer.draft.quoteID, lands)),
       writer := Idle)
  }

  function LinkColumn(db: Tables): map<nat, Option<Bytes>> {
    map id: nat | id <= |db.packets| && db.HasRow(id) :: Some(db.Row(id).link)
  }

  function HashesOf(db: Tables, ids: seq<nat>): seq<Bytes> {
    seq(|ids|, i requires 0 <= i < |ids| => HashAt(LinkColumn(db), ids[i]))
  }

  function AfterHashes(s: Sys): Sys
    requires s.up.Ranged?
  {
    s.(up := Hashed(s.up.start, s.up.end, s.up.ids, HashesOf(s.db, s.up.ids)))
  }

  function NewSegment(env: Env, up: Uploading): Segment
    requires up.Hashed?
  {
    Segment(env.session, up.start, up.end, |up.ids|, Merkle.SegmentRoot(env.cfg.blake3, up.hashes))
  }

  function AfterCommit(env: Env, s: Sys, o: Outcome): Sys
    requires s.up.Hashed?
  {
    var seg := NewSegment(env, s.up);
    s.(db := s.db.WithSegment(seg, s.up.ids, o),
       up := if o == Stored then Shipping(seg) else Waiting)
  }

  /** The daemon stops, anywhere, and starts again on the same buffer file. */
  function AfterRestart(s: Sys): Sys {
    s.(c := INITIAL, writer := Idle, up := Waiting)
  }

  ghost function Apply(env: Env, s: Sys, step: Step): Sys
    requires Enabled(env, s, step)
  {
    match step
    case StepDelta(delta, f) => AfterDelta(env, s, delta, f)
    case StepTick(i) => AfterTick(env, s, i)
    case StepWrite(o) => AfterWrite(s, o)
    case StepSign(lands) => AfterSign(s, lands)
    case StepRange(start, end, ids, _) => if ids == [] then s else s.(up := Ranged(start, end, ids))
    case StepHashes => AfterHashes(s)
    case StepCommit(o) => AfterCommit(env, s, o)
    case StepShip => s.(up := Waiting, shipped := s.shipped + [s.up.segment])
    case StepAbort => s.(up := Waiting)
    case StepRestart => AfterRestart(s)
  }

  ghost predicate CanRun(env: Env, s: Sys, steps: seq<Step>)
    decreases |steps|
  {
    steps != [] ==> Enabled(env, s, steps[0]) && CanRun(env, Apply(env, s, steps[0]), steps[1..])
  }

  ghost function Run(env: Env, s: Sys, steps: seq<Step>): Sys
    requires CanRun(env, s, steps)
    decreases |steps|
  {
    if steps == [] then s else Run(env, Apply(env, s, steps[0]), steps[1..])
  }

  ghost predicate Reachable(env: Env, s: Sys) {
    exists steps :: CanRun(env, START, steps) && s == Run(env, START, steps)
  }

  lemma {:induction false} RunOne(env: Env, s: Sys, a: Step)
    requires Enabled(env, s, a)
    ensures CanRun(env, s, [a]) && Run(env, s, [a]) == Apply(env, s, a)
  {
    var rest: seq<Step> := [];
    assert [a][1..] == rest;
    assert CanRun(env, Apply(env, s, a), rest);
  }

  lemma {:induction false} RunConcat(env: Env, s: Sys, a: seq<Step>, b: seq<Step>)
    requires CanRun(env, s, a) && CanRun(env, Run(env, s, a), b)
    ensures CanRun(env, s, a + b) && Run(env, s, a + b) == Run(env, Run(env, s, a), b)
    decreases |a|
  {
    if a == [] {
      assert a + b == b;
    } else {
      assert (a + b)[1..] == a[1..] + b;
      RunConcat(env, Apply(env, s, a[0]), a[1..], b);
    }
  }

  // ----- The custody invariant -----

  ghost predicate KnownSessions(s: Sys) {
    && [] !in s.draws
    && (forall i :: 0 <= i < |s.db.packets| ==> s.db.packets[i].session in s.draws)
    && (forall i :: 0 <= i < |s.db.quotes| ==> s.db.quotes[i].session in s.draws)
    && (s.c.sessionID != [] ==> s.c.sessionID in s.draws && s.draws[s.c.sessionID] == s.c.sessionNonce)
  }

  ghost predicate ChainsLinked(env: Env, s: Sys) {
    && |s.sigs| == |s.db.packets|
    && forall session: Bytes :: Linked(env.cfg.blake3, env.cfg.sha256, s.db.packets, s.sigs, session)
  }

  /** The packetizer's seq and previous link sit at the end of its session's
      chain; one row more is there if a write was reported lost but landed. */
  ghost predicate AtTip(c: State, packets: seq<Packet>) {
    var ids := Ids(packets, c.sessionID);
    && c.seqNo <= |ids| <= c.seqNo + 1
    && c.prev == LinkBefore(packets, ids, c.seqNo)
  }

  ghost predicate DraftMatches(env: Env, c: State, d: Draft) {
    && c.sessionID != []
    && d.quoteID == c.lastQuoteID
    && d.packet == Packet(c.sessionID, c.seqNo, d.packet.canonical, c.prev,
                          env.cfg.sha256(d.packet.canonical),
                          env.cfg.blake3(Chain.LinkInput(c.seqNo, c.sessionID, d.packet.canonical, d.sig, c.prev)))
  }

  ghost predicate WriterOk(env: Env, s: Sys) {
    && (s.writer.Writing? ==> DraftMatches(env, s.c, s.writer.draft))
    && (s.writer.Signing? ==>
          && DraftMatches(env, s.c, s.writer.draft)
          && |s.sigs| == |s.db.packets|
          && s.db.HasRow(s.writer.id)
          && s.db.Row(s.writer.id) == s.writer.draft.packet
          && s.sigs[s.writer.id - 1] == s.writer.draft.sig
          && |Ids(s.db.packets, s.c.sessionID)| == s.c.seqNo + 1
          && Ids(s.db.packets, s.c.sessionID)[s.c.seqNo] == s.writer.id)
  }

  ghost predicate CustodyInv(env: Env, s: Sys) {
    KnownSessions(s) && ChainsLinked(env, s) && AtTip(s.c, s.db.packets) && WriterOk(env, s)
  }

  /** A session id that was never drawn has no rows. */
  lemma {:induction false} NoRowsYet(s: Sys, session: Bytes)
    requires KnownSessions(s) && session !in s.draws
    ensures Ids(s.db.packets, session) == []
  {
    NoMatchNoIds(s.db.packets, session);
  }

  lemma {:induction false} TipOfNewSession(s: Sys, f: Fresh)
    requires KnownSessions(s) && FreshDraw(s, f)
    ensures AtTip(NewSession(s.c, f), s.db.packets)
  {
    NoRowsYet(s, f.id);
  }

  lemma {:induction false} RestartKeepsCustody(env: Env, s: Sys)
    requires CustodyInv(env, s)
    ensures CustodyInv(env, AfterRestart(s))
  {
    NoRowsYet(s, []);
  }

  lemma {:induction false} DeltaKeepsCustody(env: Env, s: Sys, delta: Delta, f: Fresh)
    requires CustodyInv(env, s) && s.writer.Idle? && FreshDraw(s, f)
    ensures CustodyInv(env, AfterDelta(env, s, delta, f))
  {
    TipOfNewSession(s, f);
  }

  /** Begin leaves the packets table and, once a session is open, the chain
      position alone; what it drafts belongs at that position. */
  lemma {:induction false} BeginShape(env: Env, s: State, db: Tables, i: TickInput)
    ensures var b := Begin(env.cfg, s, db, i);
      var s1 := OpenSession(s, i.draw);
      && b.tables.packets == db.packets
      && b.state.sessionID == s1.sessionID && b.state.sessionNonce == s1.sessionNonce
      && b.state.seqNo == s1.seqNo && b.state.prev == s1.prev && b.state.printer == s.printer
      && (b.draft.Some? && s1.sessionID != [] ==> DraftMatches(env, b.state, b.draft.value))
  {
  }

  lemma {:induction false} BeginQuotes(env: Env, s: State, db: Tables, i: TickInput)
    ensures var b := Begin(env.cfg, s, db, i);
      var s1 := OpenSession(s, i.draw);
      b.tables.quotes == db.quotes ||
      (i.canonical.Some? && i.quote.Quoted? &&
       b.tables.quotes == db.quotes + [TickQuote(env.cfg, s1, i, i.canonical.value)])
  {
  }

  lemma {:induction false} TickShape(env: Env, s: Sys, i: TickInput)
    requires s.c.printer.IsActive() && FreshDraw(s, i.draw)
    requires s.c.sessionID != [] ==> s.c.sessionID in s.draws
    ensures var t := AfterTick(env, s, i); var s1 := OpenSession(s.c, i.draw);
      && t.db.packets == s.db.packets && t.sigs == s.sigs && !t.writer.Signing?
      && t.c.sessionID == s1.sessionID && t.c.sessionNonce == s1.sessionNonce
      && t.c.seqNo == s1.seqNo && t.c.prev == s1.prev
      && t.draws == (if s.c.sessionID == [] then s.draws[i.draw.id := i.draw.nonce] else s.draws)
      && (t.writer.Writing? ==> DraftMatches(env, t.c, t.writer.draft))
      && (t.db.quotes == s.db.quotes ||
          exists q: Quote :: t.db.quotes == s.db.quotes + [q] && q.session == s1.sessionID)
  {
    BeginShape(env, s.c, s.db, i);
    BeginQuotes(env, s.c, s.db, i);
  }

  lemma {:induction false} TickKeepsCustody(env: Env, s: Sys, i: TickInput)
    requires CustodyInv(env, s) && s.writer.Idle? && FreshDraw(s, i.draw)
    ensures CustodyInv(env, AfterTick(env, s, i))
  {
    if s.c.printer.IsActive() {
      TickShape(env, s, i);
      TipOfNewSession(s, i.draw);
      SameTip(AfterTick(env, s, i).c, OpenSession(s.c, i.draw), s.db.packets);
    }
  }

  lemma {:induction false} SameTip(c: State, d: State, packets: seq<Packet>)
    requires c.sessionID == d.sessionID && c.seqNo == d.seqNo && c.prev == d.prev
    ensures AtTip(c, packets) == AtTip(d, packets)
  {
  }

  /** The UNIQUE constraint refuses the draft exactly when the packetizer is
      stuck behind a write that landed unreported. */
  lemma {:induction false} AcceptedMeansNext(env: Env, s: Sys)
    requires CustodyInv(env, s) && s.writer.Writing?
    ensures var d := s.writer.draft; var ids := Ids(s.db.packets, s.c.sessionID);
      s.db.Taken(d.packet.session, d.packet.seqNo) <==> |ids| == s.c.seqNo + 1
  {
    var d, ids := s.writer.draft, Ids(s.db.packets, s.c.sessionID);
    if |ids| == s.c.seqNo + 1 {
      assert Linked(env.cfg.blake3, env.cfg.sha256, s.db.packets, s.sigs, s.c.sessionID);
      assert RowLinked(env.cfg.blake3, env.cfg.sha256, s.db.packets, s.sigs, s.c.sessionID, ids, s.c.seqNo);
    }
    if s.db.Taken(d.packet.session, d.packet.seqNo) {
      var j :| 0 <= j < |s.db.packets| && s.db.packets[j].session == d.packet.session
               && s.db.packets[j].seqNo == d.packet.seqNo;
      SeqIsPosition(env.cfg.blake3, env.cfg.sha256, s.db.packets, s.sigs, s.c.sessionID, j + 1);
    }
  }

  lemma {:induction false} WriteKeepsChains(env: Env, s: Sys, o: Outcome)
    requires ChainsLinked(env, s) && s.writer.Writing? && o != Lost && s.db.Accepts(s.writer.draft.packet)
    requires Extends(env.cfg.blake3, env.cfg.sha256, s.db.packets, s.writer.draft.packet, s.writer.draft.sig)
    ensures ChainsLinked(env, AfterWrite(s, o))
  {
    var d := s.writer.draft;
    forall session: Bytes
      ensures Linked(env.cfg.blake3, env.cfg.sha256, s.db.packets + [d.packet], s.sigs + [d.sig], session)
    {
      LinkedAppend(env.cfg.blake3, env.cfg.sha256, s.db.packets, s.sigs, d.packet, d.sig, session);
    }
  }

  lemma {:induction false} WriteKeepsTip(env: Env, s: Sys, o: Outcome)
    requires KnownSessions(s) && AtTip(s.c, s.db.packets) && |s.sigs| == |s.db.packets|
    requires s.writer.Writing? && DraftMatches(env, s.c, s.writer.draft)
    requires o != Lost && s.db.Accepts(s.writer.draft.packet) && |Ids(s.db.packets, s.c.sessionID)| == s.c.seqNo
    ensures var t := AfterWrite(s, o); KnownSessions(t) && AtTip(t.c, t.db.packets) && WriterOk(env, t)
  {
    IdsAppend(s.db.packets, s.writer.draft.packet, s.c.sessionID);
    IdsSound(s.db.packets, s.c.sessionID);
  }

  lemma {:induction false} WriteKeepsCustody(env: Env, s: Sys, o: Outcome)
    requires CustodyInv(env, s) && s.writer.Writing?
    ensures CustodyInv(env, AfterWrite(s, o))
  {
    var d := s.writer.draft;
    if s.db.Accepts(d.packet) && o != Lost {
      AcceptedMeansNext(env, s);
      WriteKeepsChains(env, s, o);
      WriteKeepsTip(env, s, o);
    }
  }

  lemma {:induction false} SignKeepsCustody(env: Env, s: Sys, lands: bool)
    requires CustodyInv(env, s) && s.writer.Signing?
    ensures CustodyInv(env, AfterSign(s, lands))
  {
    BackfillShape(s.db, s.writer.id, s.writer.draft, lands);
    assert AtTip(Advance(s.c, s.writer.draft), s.db.packets);
    SignKeepsRest(env, s, AfterSign(s, lands));
  }

  lemma {:induction false} BackfillShape(db: Tables, id: nat, d: Draft, lands: bool)
    ensures Backfill(db, id, d, lands)
         == db.(tpmSig := Backfill(db, id, d, lands).tpmSig, quoteRef := Backfill(db, id, d, lands).quoteRef)
  {
  }

  lemma {:induction false} SignKeepsRest(env: Env, s: Sys, t: Sys)
    requires KnownSessions(s) && ChainsLinked(env, s)
    requires t.draws == s.draws && t.sigs == s.sigs && t.writer.Idle?
    requires t.db.packets == s.db.packets && t.db.quotes == s.db.quotes
    requires t.c.sessionID == s.c.sessionID && t.c.sessionNonce == s.c.sessionNonce
    ensures KnownSessions(t) && ChainsLinked(env, t) && WriterOk(env, t)
  {
  }

  lemma {:induction false} StepKeepsCustody(env: Env, s: Sys, step: Step)
    requires CustodyInv(env, s) && Enabled(env, s, step)
    ensures CustodyInv(env, Apply(env, s, step))
  {
    match step
    case StepDelta(delta, f) => DeltaKeepsCustody(env, s, delta, f);
    case StepTick(i) => TickKeepsCustody(env, s, i);
    case StepWrite(o) => WriteKeepsCustody(env, s, o);
    case StepSign(lands) => SignKeepsCustody(env, s, lands);
    case StepRestart => RestartKeepsCustody(env, s);
    case _ =>
      UploaderLeavesCustody(env, s, step);
      SameCustody(env, s, Apply(env, s, step));
  }

  /** The part of the state that the packetizer reads and writes. */
  ghost predicate SamePacketizer(s: Sys, t: Sys) {
    && s.c == t.c && s.writer == t.writer && s.draws == t.draws && s.sigs == t.sigs
    && s.fates == t.fates && s.targets == t.targets && s.attempts == t.attempts
    && s.db.packets == t.db.packets && s.db.quotes == t.db.quotes
    && s.db.tpmSig == t.db.tpmSig && s.db.quoteRef == t.db.quoteRef
  }

  predicate IsUploaderStep(step: Step) {
    step.StepRange? || step.StepHashes? || step.StepCommit? || step.StepShip? || step.StepAbort?
  }

  lemma {:induction false} UploaderLeavesCustody(env: Env, s: Sys, step: Step)
    requires Enabled(env, s, step) && IsUploaderStep(step)
    ensures SamePacketizer(s, Apply(env, s, step))
  {
  }

  lemma {:induction false} SameCustody(env: Env, s: Sys, t: Sys)
    requires CustodyInv(env, s) && SamePacketizer(s, t)
    ensures CustodyInv(env, t)
  {
  }

  lemma {:induction false} RunKeepsCustody(env: Env, s: Sys, steps: seq<Step>)
    requires CustodyInv(env, s) && CanRun(env, s, steps)
    ensures CustodyInv(env, Run(env, s, steps))
    decreases |steps|
  {
    if steps != [] {
      StepKeepsCustody(env, s, steps[0]);
      RunKeepsCustody(env, Apply(env, s, steps[0]), steps[1..]);
    }
  }

  lemma {:induction false} ReachableCustody(env: Env, s: Sys)
    requires Reachable(env, s)
    ensures CustodyInv(env, s)
  {
    var steps :| CanRun(env, START, steps) && s == Run(env, START, steps);
    RunKeepsCustody(env, START, steps);
  }

  lemma {:induction false} ReachableMore(env: Env, s: Sys, step: Step, steps: seq<Step>)
    requires Reachable(env, s) && Enabled(env, s, step) && CanRun(env, Apply(env, s, step), steps)
    ensures Reachable(env, Run(env, Apply(env, s, step), steps))
  {
    var before :| CanRun(env, START, before) && s == Run(env, START, before);
    assert ([step] + steps)[1..] == steps;
    RunConcat(env, START, before, [step] + steps);
  }

  lemma {:induction false} ReachableStep(env: Env, s: Sys, step: Step)
    requires Reachable(env, s) && Enabled(env, s, step)
    ensures Reachable(env, Apply(env, s, step))
  {
    ReachableMore(env, s, step, []);
  }

  lemma {:induction false} ReachableStart(env: Env)
    ensures Reachable(env, START)
  {
    assert CanRun(env, START, []) && Run(env, START, []) == START;
  }

  /** In every reachable state, whatever failed along the way, the rows of each
      session have seqs 0..n-1, row 0 has no predecessor, row k+1 stores row k's
      link, every digest is the hash of the row's canonical bytes and every link
      the hash of the row's fields and the signature made for it. */
  lemma {:induction false} GapFreeLedger(env: Env, s: Sys, session: Bytes)
    requires Reachable(env, s)
    ensures
      && |s.sigs| == |s.db.packets|
      && Linked(env.cfg.blake3, env.cfg.sha256, s.db.packets, s.sigs, session)
      && forall id: nat :: s.db.HasRow(id) && s.db.Row(id).session == session ==>
           s.db.Row(id).seqNo < |Ids(s.db.packets, session)| &&
           Ids(s.db.packets, session)[s.db.Row(id).seqNo] == id
  {
    ReachableCustody(env, s);
    forall id: nat | s.db.HasRow(id) && s.db.Row(id).session == session
      ensures s.db.Row(id).seqNo < |Ids(s.db.packets, session)| &&
              Ids(s.db.packets, session)[s.db.Row(id).seqNo] == id
    {
      SeqIsPosition(env.cfg.blake3, env.cfg.sha256, s.db.packets, s.sigs, session, id);
    }
  }

  // ----- Seqs fit their columns -----

  ghost predicate SeqsFit(packets: seq<Packet>) {
    forall i :: 0 <= i < |packets| ==> packets[i].seqNo < 0x8000_0000_0000_0000
  }

  lemma {:induction false} StepKeepsFit(env: Env, s: Sys, step: Step)
    requires Enabled(env, s, step) && SeqsFit(s.db.packets)
    ensures SeqsFit(Apply(env, s, step).db.packets)
  {
    if step.StepTick? {
      BeginShape(env, s.c, s.db, step.input);
    } else if IsUploaderStep(step) {
      UploaderLeavesCustody(env, s, step);
    }
  }

  lemma {:induction false} RunKeepsFit(env: Env, s: Sys, steps: seq<Step>)
    requires CanRun(env, s, steps) && SeqsFit(s.db.packets)
    ensures SeqsFit(Run(env, s, steps).db.packets)
    decreases |steps|
  {
    if steps != [] {
      StepKeepsFit(env, s, steps[0]);
      RunKeepsFit(env, Apply(env, s, steps[0]), steps[1..]);
    }
  }

  /** In every reachable state every stored seq fits a signed 64-bit column, and the
      packetizer's own seq never passes 2^63, so it reads back from 8 bytes. */
  lemma {:induction false} SeqNeverWraps(env: Env, s: Sys)
    requires Reachable(env, s)
    ensures SeqsFit(s.db.packets) && s.c.seqNo <= 0x8000_0000_0000_0000
    ensures FromLE(LE(s.c.seqNo, 8)) == s.c.seqNo
  {
    var steps :| CanRun(env, START, steps) && s == Run(env, START, steps);
    RunKeepsFit(env, START, steps);
    ReachableCustody(env, s);
    TipFits(env, s);
    assert Pow256(8) == 0x1_0000_0000_0000_0000;
    DecodeEncode(s.c.seqNo, 8);
  }

  lemma {:induction false} TipFits(env: Env, s: Sys)
    requires CustodyInv(env, s) && SeqsFit(s.db.packets)
    ensures s.c.seqNo <= 0x8000_0000_0000_0000
  {
    if s.c.seqNo > 0 {
      var ids := Ids(s.db.packets, s.c.sessionID);
      assert Linked(env.cfg.blake3, env.cfg.sha256, s.db.packets, s.sigs, s.c.sessionID);
      assert RowLinked(env.cfg.blake3, env.cfg.sha256, s.db.packets, s.sigs, s.c.sessionID, ids, s.c.seqNo - 1);
    }
  }

  // ----- A write that landed but was not reported -----

  /** The packetizer will not move on in this session: the row it would write next
      is already there. */
  ghost predicate Stuck(s: Sys, session: Bytes) {
    && session != [] && session in s.draws
    && (s.c.sessionID == session ==>
          !s.writer.Signing? && |Ids(s.db.packets, session)| == s.c.seqNo + 1)
  }

  lemma {:induction false} WriteKeepsStuck(env: Env, s: Sys, o: Outcome, session: Bytes)
    requires CustodyInv(env, s) && Stuck(s, session) && s.writer.Writing?
    ensures Stuck(AfterWrite(s, o), session)
    ensures Ids(AfterWrite(s, o).db.packets, session) == Ids(s.db.packets, session)
  {
    AcceptedMeansNext(env, s);
    IdsAppend(s.db.packets, s.writer.draft.packet, session);
  }

  lemma {:induction false} StepKeepsStuck(env: Env, s: Sys, step: Step, session: Bytes)
    requires CustodyInv(env, s) && Stuck(s, session) && Enabled(env, s, step)
    ensures var t := Apply(env, s, step);
      Stuck(t, session) && Ids(t.db.packets, session) == Ids(s.db.packets, session)
  {
    match step
    case StepWrite(o) => WriteKeepsStuck(env, s, o, session);
    case StepTick(i) =>
      if s.c.printer.IsActive() {
        TickShape(env, s, i);
      }
    case StepDelta(_, _) =>
    case StepSign(lands) => BackfillShape(s.db, s.writer.id, s.writer.draft, lands);
    case StepRestart =>
    case _ => UploaderLeavesCustody(env, s, step);
  }

  lemma {:induction false} StuckStays(env: Env, s: Sys, steps: seq<Step>, session: Bytes)
    requires CustodyInv(env, s) && Stuck(s, session) && CanRun(env, s, steps)
    ensures Ids(Run(env, s, steps).db.packets, session) == Ids(s.db.packets, session)
    decreases |steps|
  {
    if steps != [] {
      StepKeepsCustody(env, s, steps[0]);
      StepKeepsStuck(env, s, steps[0], session);
      StuckStays(env, Apply(env, s, steps[0]), steps[1..], session);
    }
  }

  lemma {:induction false} UnreportedIsStuck(env: Env, s: Sys)
    requires CustodyInv(env, s) && s.writer.Writing? && s.db.Accepts(s.writer.draft.packet)
    ensures var t := AfterWrite(s, StoredUnreported);
      && Stuck(t, s.c.sessionID)
      && Ids(t.db.packets, s.c.sessionID) == Ids(s.db.packets, s.c.sessionID) + [|s.db.packets| + 1]
  {
    AcceptedMeansNext(env, s);
    IdsAppend(s.db.packets, s.writer.draft.packet, s.c.sessionID);
  }

  /** After a packet write that landed but was not reported, the session never gets
      another row, however the run goes on. */
  lemma {:induction false} UnreportedWriteEndsSession(env: Env, s: Sys, steps: seq<Step>)
    requires Reachable(env, s) && s.writer.Writing? && s.db.Accepts(s.writer.draft.packet)
    requires CanRun(env, AfterWrite(s, StoredUnreported), steps)
    ensures var t := Run(env, AfterWrite(s, StoredUnreported), steps); var session := s.c.sessionID;
      && Ids(t.db.packets, session) == Ids(s.db.packets, session) + [|s.db.packets| + 1]
      && forall i :: |s.db.packets| < i < |t.db.packets| ==> t.db.packets[i].session != session
  {
    var s1 := AfterWrite(s, StoredUnreported);
    ReachableCustody(env, s);
    UnreportedIsStuck(env, s);
    WriteKeepsCustody(env, s, StoredUnreported);
    StuckStays(env, s1, steps, s.c.sessionID);
    NoLaterRow(s1.db.packets, Run(env, s1, steps).db.packets, s.c.sessionID);
  }

  lemma {:induction false} NoLaterRow(before: seq<Packet>, after: seq<Packet>, session: Bytes)
    requires Ids(after, session) == Ids(before, session)
    ensures forall i :: |before| <= i < |after| ==> after[i].session != session
  {
    IdsSound(before, session);
    forall i | |before| <= i < |after| ensures after[i].session != session {
      if after[i].session == session {
        var k := IdsComplete(after, session, i + 1);
      }
    }
  }
}
