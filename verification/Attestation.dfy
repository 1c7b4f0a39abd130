/** What quotes and signatures in the buffer refer to, in every reachable state. */
module Attestation {
  import opened ByteStrings
  import opened HotBuffer
  import opened Chain
  import opened Custody
  import opened Ledger
  import opened Node

  /** A quote's nonce is derived from its session's nonce, the digest it was taken
      for, its seq, and the link of the stored row just before that seq. If the
      packet write of its tick took effect, the row has that seq and digest. */
  ghost predicate QuoteBound(sha256: Hash, draws: map<Bytes, Digest>, packets: seq<Packet>, q: Quote, g: Target) {
    var ids := Ids(packets, q.session);
    && q.session in draws
    && q.seqNo <= |ids|
    && q.nonce == sha256(NonceInput(draws[q.session], g.digest, LinkBefore(packets, ids, q.seqNo), q.seqNo))
    && (g.row != 0 ==> TargetRow(packets, q, g))
  }

  ghost predicate TargetRow(packets: seq<Packet>, q: Quote, g: Target) {
    && 1 <= g.row <= |packets|
    && packets[g.row - 1].session == q.session && packets[g.row - 1].seqNo == q.seqNo
    && packets[g.row - 1].sha == g.digest
  }

  ghost predicate AllBound(sha256: Hash, draws: map<Bytes, Digest>, packets: seq<Packet>,
                           quotes: seq<Quote>, targets: seq<Target>)
  {
    && |targets| == |quotes|
    && forall i :: 0 <= i < |quotes| ==> QuoteBound(sha256, draws, packets, quotes[i], targets[i])
  }

  ghost predicate QuotesBound(env: Env, s: Sys) {
    AllBound(env.cfg.sha256, s.draws, s.db.packets, s.db.quotes, s.targets)
  }

  /** The quote of the current tick, if there is one, is for the drafted packet. */
  ghost predicate PendingQuoteOk(quotes: seq<Quote>, targets: seq<Target>, p: Packet, quote: nat) {
    quote != 0 ==>
      && quote <= |quotes| == |targets|
      && quotes[quote - 1].session == p.session && quotes[quote - 1].seqNo == p.seqNo
      && targets[quote - 1] == Target(p.sha, 0)
  }

  /** Row id has a signature, the one its link was made with, and refers to a
      stored quote of its own session taken no later than the row. */
  ghost predicate RefOk(s: Sys, id: nat) {
    && id in s.db.tpmSig && id in s.db.quoteRef
    && s.db.HasRow(id) && |s.sigs| == |s.db.packets|
    && s.sigs[id - 1] == Some(s.db.tpmSig[id])
    && var ref := s.db.quoteRef[id];
    && s.db.HasQuote(ref)
    && s.db.QuoteAt(ref).session == s.db.Row(id).session
    && s.db.QuoteAt(ref).seqNo <= s.db.Row(id).seqNo
  }

  ghost predicate RefsOk(s: Sys) {
    forall id: nat :: id in s.db.tpmSig || id in s.db.quoteRef ==> RefOk(s, id)
  }

  /** A row has a signature exactly when one was made for it and its update was
      sent with a quote id and landed. */
  ghost predicate FateOk(s: Sys, id: nat)
    requires 1 <= id <= |s.sigs| == |s.fates|
  {
    id in s.db.tpmSig <==>
      && s.sigs[id - 1].Some?
      && s.fates[id - 1].Sent? && s.fates[id - 1].lands && s.fates[id - 1].quoteID != 0
  }

  /** The quote_ref of a row is the quote id that its update was sent with. */
  ghost predicate SentRefOk(s: Sys, id: nat)
    requires 1 <= id <= |s.fates|
  {
    id in s.db.quoteRef ==> s.fates[id - 1].Sent? && s.db.quoteRef[id] == s.fates[id - 1].quoteID
  }

  ghost predicate FatesOk(s: Sys) {
    && |s.fates| == |s.sigs| == |s.db.packets|
    && forall id :: 1 <= id <= |s.fates| ==> FateOk(s, id) && SentRefOk(s, id)
  }

  ghost predicate LastQuoteOk(c: State, db: Tables) {
    c.lastQuoteID == 0 ||
    (db.HasQuote(c.lastQuoteID) && db.QuoteAt(c.lastQuoteID).session == c.sessionID &&
     db.QuoteAt(c.lastQuoteID).seqNo <= c.seqNo)
  }

  ghost predicate QuoteInv(env: Env, s: Sys) {
    && QuotesBound(env, s) && RefsOk(s) && FatesOk(s) && LastQuoteOk(s.c, s.db)
    && (s.writer.Signing? ==> s.writer.id !in s.db.tpmSig)
    && (s.writer.Writing? ==> PendingQuoteOk(s.db.quotes, s.targets, s.writer.draft.packet, s.writer.quote))
  }

  // ----- Each step keeps it -----

  lemma {:induction false} BoundWithMoreDraws(sha256: Hash, draws: map<Bytes, Digest>, packets: seq<Packet>,
                                              quotes: seq<Quote>, targets: seq<Target>, f: Fresh)
    requires AllBound(sha256, draws, packets, quotes, targets) && f.id !in draws
    ensures AllBound(sha256, draws[f.id := f.nonce], packets, quotes, targets)
  {
    forall i | 0 <= i < |quotes|
      ensures QuoteBound(sha256, draws[f.id := f.nonce], packets, quotes[i], targets[i])
    {
      assert QuoteBound(sha256, draws, packets, quotes[i], targets[i]);
    }
  }

  lemma {:induction false} BoundWithMoreRows(sha256: Hash, draws: map<Bytes, Digest>, packets: seq<Packet>,
                                             p: Packet, q: Quote, g: Target)
    requires QuoteBound(sha256, draws, packets, q, g)
    ensures QuoteBound(sha256, draws, packets + [p], q, g)
  {
    IdsAppend(packets, p, q.session);
    IdsSound(packets, q.session);
    var ids, ids' := Ids(packets, q.session), Ids(packets + [p], q.session);
    assert LinkBefore(packets + [p], ids', q.seqNo) == LinkBefore(packets, ids, q.seqNo);
  }

  lemma {:induction false} TickQuoteBound(cfg: Config, s: State, packets: seq<Packet>, draws: map<Bytes,
                                          Digest>, i: TickInput, canonical: Bytes)
    requires i.quote.Quoted? && AtTip(s, packets)
    requires s.sessionID in draws && draws[s.sessionID] == s.sessionNonce
    ensures QuoteBound(cfg.sha256, draws, packets, TickQuote(cfg, s, i, canonical), Target(cfg.sha256(canonical), 0))
  {
  }

  lemma {:induction false} DeltaKeepsQuotes(env: Env, s: Sys, delta: Delta, f: Fresh)
    requires CustodyInv(env, s) && QuoteInv(env, s) && s.writer.Idle? && FreshDraw(s, f)
    ensures QuoteInv(env, AfterDelta(env, s, delta, f))
  {
    var t := AfterDelta(env, s, delta, f);
    BoundWithMoreDraws(env.cfg.sha256, s.draws, s.db.packets, s.db.quotes, s.targets, f);
    SameRefs(s, t);
  }

  /** References and fates depend on these parts of the state alone. */
  lemma {:induction false} SameRefs(s: Sys, t: Sys)
    requires RefsOk(s) && FatesOk(s)
    requires t.sigs == s.sigs && t.fates == s.fates && t.db.packets == s.db.packets
    requires t.db.tpmSig == s.db.tpmSig && t.db.quoteRef == s.db.quoteRef && s.db.quotes <= t.db.quotes
    ensures RefsOk(t) && FatesOk(t)
  {
    forall id: nat | id in t.db.tpmSig || id in t.db.quoteRef ensures RefOk(t, id) {
      assert RefOk(s, id);
    }
    forall id | 1 <= id <= |t.fates| ensures FateOk(t, id) && SentRefOk(t, id) {
      assert FateOk(s, id) && SentRefOk(s, id);
    }
  }

  lemma {:induction false} BeginLastQuote(env: Env, s: State, db: Tables, i: TickInput)
    requires LastQuoteOk(s, db)
    ensures var b := Begin(env.cfg, s, db, i); LastQuoteOk(b.state, b.tables)
    ensures var b := Begin(env.cfg, s, db, i);
      b.tables.tpmSig == db.tpmSig && b.tables.quoteRef == db.quoteRef
  {
    OpenTickLastQuote(env, s, db, i);
    var (s1, db1) := OpenTick(env.cfg, s, db, i);
    if i.canonical.Some? {
      TakeQuoteLastQuote(env, s1, db1, i, i.canonical.value);
    }
  }

  lemma {:induction false} OpenTickLastQuote(env: Env, s: State, db: Tables, i: TickInput)
    requires LastQuoteOk(s, db)
    ensures var (s1, db1) := OpenTick(env.cfg, s, db, i);
      LastQuoteOk(s1, db1) && db1 == db.(faults := db1.faults)
  {
  }

  lemma {:induction false} TakeQuoteLastQuote(env: Env, s: State, db: Tables, i: TickInput, canonical: Bytes)
    requires LastQuoteOk(s, db)
    ensures var (s1, db1) := TakeQuote(env.cfg, s, db, i, canonical);
      LastQuoteOk(s1, db1) && db1 == db.(quotes := db1.quotes)
  {
  }

  lemma {:induction false} TickKeepsQuotes(env: Env, s: Sys, i: TickInput)
    requires CustodyInv(env, s) && QuoteInv(env, s) && s.writer.Idle? && FreshDraw(s, i.draw)
    ensures QuoteInv(env, AfterTick(env, s, i))
  {
    if s.c.printer.IsActive() {
      var t := AfterTick(env, s, i);
      BeginShape(env, s.c, s.db, i);
      BeginQuotes(env, s.c, s.db, i);
      BeginLastQuote(env, s.c, s.db, i);
      QuotesAfterTick(env, s, i);
      SameRefs(s, t);
      if t.writer.Writing? {
        DraftAfterTick(env, s, i);
      }
    }
  }

  lemma {:induction false} DraftAfterTick(env: Env, s: Sys, i: TickInput)
    requires |s.targets| == |s.db.quotes| && s.c.printer.IsActive() && AfterTick(env, s, i).writer.Writing?
    ensures var t := AfterTick(env, s, i);
      PendingQuoteOk(t.db.quotes, t.targets, t.writer.draft.packet, t.writer.quote)
  {
    BeginShape(env, s.c, s.db, i);
    BeginQuotes(env, s.c, s.db, i);
    BeginDraft(env, s.c, s.db, i);
  }

  lemma {:induction false} BeginDraft(env: Env, c: State, db: Tables, i: TickInput)
    requires Begin(env.cfg, c, db, i).draft.Some?
    ensures var p := Begin(env.cfg, c, db, i).draft.value.packet; var s1 := OpenSession(c, i.draw);
      && i.canonical.Some?
      && p.session == s1.sessionID && p.seqNo == s1.seqNo && p.sha == env.cfg.sha256(i.canonical.value)
  {
  }

  lemma {:induction false} QuotesAfterTick(env: Env, s: Sys, i: TickInput)
    requires CustodyInv(env, s) && QuotesBound(env, s) && FreshDraw(s, i.draw) && s.c.printer.IsActive()
    ensures QuotesBound(env, AfterTick(env, s, i))
  {
    var t, s1 := AfterTick(env, s, i), OpenSession(s.c, i.draw);
    BeginShape(env, s.c, s.db, i);
    BeginQuotes(env, s.c, s.db, i);
    TickShape(env, s, i);
    TipOfNewSession(s, i.draw);
    BoundWithMoreDraws(env.cfg.sha256, s.draws, s.db.packets, s.db.quotes, s.targets, i.draw);
    if t.db.quotes != s.db.quotes {
      TickQuoteBound(env.cfg, s1, s.db.packets, t.draws, i, i.canonical.value);
    }
  }

  lemma {:induction false} RefWithMoreRows(s: Sys, t: Sys, p: Packet, sig: Option<Bytes>, id: nat)
    requires RefOk(s, id)
    requires t.db == s.db.(packets := s.db.packets + [p]) && t.sigs == s.sigs + [sig]
    ensures RefOk(t, id)
  {
  }

  lemma {:induction false} FatesWithMoreRows(s: Sys, t: Sys, p: Packet, sig: Option<Bytes>, fate: Fate)
    requires RefsOk(s) && FatesOk(s) && !fate.Sent?
    requires t.db == s.db.(packets := s.db.packets + [p]) && t.sigs == s.sigs + [sig] && t.fates == s.fates + [fate]
    ensures RefsOk(t) && FatesOk(t)
  {
    forall id: nat | id in t.db.tpmSig || id in t.db.quoteRef ensures RefOk(t, id) {
      RefWithMoreRows(s, t, p, sig, id);
    }
    forall id | 1 <= id <= |t.fates| ensures FateOk(t, id) && SentRefOk(t, id) {
      if id <= |s.fates| {
        assert FateOk(s, id) && SentRefOk(s, id);
      } else {
        assert id in s.db.tpmSig || id in s.db.quoteRef ==> RefOk(s, id);
      }
    }
  }

  lemma {:induction false} QuotesWithMoreRows(sha256: Hash, draws: map<Bytes, Digest>, packets: seq<Packet>,
                                              quotes: seq<Quote>, targets: seq<Target>, p: Packet, quote: nat)
    requires AllBound(sha256, draws, packets, quotes, targets) && PendingQuoteOk(quotes, targets, p, quote)
    ensures AllBound(sha256, draws, packets + [p], quotes, Hit(targets, quote, |packets| + 1))
  {
    var targets' := Hit(targets, quote, |packets| + 1);
    forall n | 0 <= n < |quotes| ensures QuoteBound(sha256, draws, packets + [p], quotes[n], targets'[n]) {
      BoundWithMoreRows(sha256, draws, packets, p, quotes[n], targets[n]);
    }
  }

  lemma {:induction false} NewRowUnsigned(s: Sys)
    requires RefsOk(s)
    ensures |s.db.packets| + 1 !in s.db.tpmSig
  {
    assert |s.db.packets| + 1 in s.db.tpmSig ==> RefOk(s, |s.db.packets| + 1);
  }

  lemma {:induction false} LandedWriteKeepsQuotes(env: Env, s: Sys, o: Outcome)
    requires QuoteInv(env, s) && s.writer.Writing? && s.db.Accepts(s.writer.draft.packet) && o != Lost
    ensures QuoteInv(env, AfterWrite(s, o))
  {
    var d, t := s.writer.draft, AfterWrite(s, o);
    QuotesWithMoreRows(env.cfg.sha256, s.draws, s.db.packets, s.db.quotes, s.targets, d.packet, s.writer.quote);
    FatesWithMoreRows(s, t, d.packet, d.sig, if o == Stored then Awaited else Unreported);
    NewRowUnsigned(s);
  }

  lemma {:induction false} WriteKeepsQuotes(env: Env, s: Sys, o: Outcome)
    requires QuoteInv(env, s) && s.writer.Writing?
    ensures QuoteInv(env, AfterWrite(s, o))
  {
    if s.db.Accepts(s.writer.draft.packet) && o != Lost {
      LandedWriteKeepsQuotes(env, s, o);
    } else {
      SameRefs(s, AfterWrite(s, o));
    }
  }

  lemma {:induction false} SignKeepsQuotes(env: Env, s: Sys, lands: bool)
    requires CustodyInv(env, s) && QuoteInv(env, s) && s.writer.Signing?
    ensures QuoteInv(env, AfterSign(s, lands))
  {
    SignedRowKeepsQuotes(env, s, lands);
  }

  lemma {:induction false} SignedRowKeepsQuotes(env: Env, s: Sys, lands: bool)
    requires QuoteInv(env, s) && s.writer.Signing? && |s.sigs| == |s.db.packets|
    requires SigningRow(s.c, s.db, s.sigs, s.writer.draft, s.writer.id)
    ensures QuoteInv(env, AfterSign(s, lands))
  {
    var t := AfterSign(s, lands);
    BackfillShape(s.db, s.writer.id, s.writer.draft, lands);
    forall id: nat | id in t.db.tpmSig || id in t.db.quoteRef ensures RefOk(t, id) {
      SignKeepsRef(env, s, lands, id);
    }
    forall id | 1 <= id <= |t.fates| ensures FateOk(t, id) && SentRefOk(t, id) {
      SignSetsFate(s, lands, id);
    }
  }

  lemma {:induction false} SignSetsFate(s: Sys, lands: bool, id: nat)
    requires RefsOk(s) && FatesOk(s) && LastQuoteOk(s.c, s.db) && s.writer.Signing? && s.writer.id !in s.db.tpmSig
    requires SigningRow(s.c, s.db, s.sigs, s.writer.draft, s.writer.id)
    requires 1 <= id <= |s.fates|
    ensures FateOk(AfterSign(s, lands), id) && SentRefOk(AfterSign(s, lands), id)
  {
    assert FateOk(s, id) && SentRefOk(s, id);
    assert s.writer.id in s.db.quoteRef ==> RefOk(s, s.writer.id);
  }

  ghost predicate SigningRow(c: State, db: Tables, sigs: seq<Option<Bytes>>, d: Draft, id: nat)
    requires |sigs| == |db.packets|
  {
    && db.HasRow(id) && db.Row(id).session == c.sessionID && db.Row(id).seqNo == c.seqNo
    && sigs[id - 1] == d.sig && d.quoteID == c.lastQuoteID
  }

  lemma {:induction false} SignKeepsRef(env: Env, s: Sys, lands: bool, id: nat)
    requires s.writer.Signing? && RefsOk(s) && LastQuoteOk(s.c, s.db) && |s.sigs| == |s.db.packets|
    requires SigningRow(s.c, s.db, s.sigs, s.writer.draft, s.writer.id)
    requires var t := AfterSign(s, lands); id in t.db.tpmSig || id in t.db.quoteRef
    ensures RefOk(AfterSign(s, lands), id)
  {
    if id in s.db.tpmSig || id in s.db.quoteRef {
      assert RefOk(s, id);
    }
  }

  lemma {:induction false} StepKeepsQuotes(env: Env, s: Sys, step: Step)
    requires CustodyInv(env, s) && QuoteInv(env, s) && Enabled(env, s, step)
    ensures QuoteInv(env, Apply(env, s, step))
  {
    match step
    case StepDelta(delta, f) => DeltaKeepsQuotes(env, s, delta, f);
    case StepTick(i) => TickKeepsQuotes(env, s, i);
    case StepWrite(o) => WriteKeepsQuotes(env, s, o);
    case StepSign(lands) => SignKeepsQuotes(env, s, lands);
    case StepRestart => SameRefs(s, AfterRestart(s));
    case _ =>
      UploaderLeavesCustody(env, s, step);
      SameQuotes(env, s, Apply(env, s, step));
  }

  lemma {:induction false} SameQuotes(env: Env, s: Sys, t: Sys)
    requires QuoteInv(env, s) && SamePacketizer(s, t)
    ensures QuoteInv(env, t)
  {
    SameRefs(s, t);
  }

  lemma {:induction false} RunKeepsQuotes(env: Env, s: Sys, steps: seq<Step>)
    requires CustodyInv(env, s) && QuoteInv(env, s) && CanRun(env, s, steps)
    ensures QuoteInv(env, Run(env, s, steps))
    decreases |steps|
  {
    if steps != [] {
      StepKeepsCustody(env, s, steps[0]);
      StepKeepsQuotes(env, s, steps[0]);
      RunKeepsQuotes(env, Apply(env, s, steps[0]), steps[1..]);
    }
  }

  // ----- What follows for every run -----

  /** In every reachable state each stored quote_ref names a stored quote of the
      same session with seq no later than the row's, a signature is stored with
      and only with a quote_ref, and every quote's nonce commits to its session,
      to the digest it was taken for and to the link stored before its seq. */
  lemma {:induction false} ReferencesAreSound(env: Env, s: Sys)
    requires Reachable(env, s)
    ensures RefsOk(s) && QuotesBound(env, s)
  {
    ReachableQuotes(env, s);
  }

  lemma {:induction false} ReachableQuotes(env: Env, s: Sys)
    requires Reachable(env, s)
    ensures CustodyInv(env, s) && QuoteInv(env, s)
  {
    var steps :| CanRun(env, START, steps) && s == Run(env, START, steps);
    RunKeepsCustody(env, START, steps);
    RunKeepsQuotes(env, START, steps);
  }

  /** The nonce a quote of row p has to have (rule 4 of docs/STREAM_FORMAT.md). */
  ghost function RowNonce(sha256: Hash, draws: map<Bytes, Digest>, p: Packet): Digest
    requires p.session in draws
  {
    sha256(NonceInput(draws[p.session], p.sha, p.prev, p.seqNo))
  }

  ghost predicate SamePlace(db: Tables, quote: nat, id: nat) {
    && db.HasQuote(quote) && db.HasRow(id)
    && db.QuoteAt(quote).session == db.Row(id).session && db.QuoteAt(quote).seqNo == db.Row(id).seqNo
  }

  lemma {:induction false} NoncesBySameDigest(h: Hash, n: Digest, d: Digest, e: Digest, prev: Option<Digest>,
                                              seqNo: nat)
    ensures h(NonceInput(n, d, prev, seqNo)) == h(NonceInput(n, e, prev, seqNo)) <==>
            d == e || Collides(h, NonceInput(n, d, prev, seqNo), NonceInput(n, e, prev, seqNo))
  {
    if NonceInput(n, d, prev, seqNo) == NonceInput(n, e, prev, seqNo) {
      var t := LE(seqNo, 8) + OrEmpty(prev);
      assert NonceInput(n, d, prev, seqNo) == n + (d + t) && NonceInput(n, e, prev, seqNo) == n + (e + t);
      SplitConcat(n, d + t, n, e + t);
      SplitConcat(d, t, e, t);
    }
  }

  lemma {:induction false} QuoteAndRow(env: Env, s: Sys, quote: nat, id: nat)
    requires CustodyInv(env, s) && QuotesBound(env, s) && SamePlace(s.db, quote, id)
    ensures var p := s.db.Row(id);
      && p.session in s.draws && quote <= |s.targets|
      && s.db.QuoteAt(quote).nonce
         == env.cfg.sha256(NonceInput(s.draws[p.session], s.targets[quote - 1].digest, p.prev, p.seqNo))
  {
    var p := s.db.Row(id);
    assert QuoteBound(env.cfg.sha256, s.draws, s.db.packets, s.db.quotes[quote - 1], s.targets[quote - 1]);
    var ids := Ids(s.db.packets, p.session);
    assert Linked(env.cfg.blake3, env.cfg.sha256, s.db.packets, s.sigs, p.session);
    SeqIsPosition(env.cfg.blake3, env.cfg.sha256, s.db.packets, s.sigs, p.session, id);
    assert RowLinked(env.cfg.blake3, env.cfg.sha256, s.db.packets, s.sigs, p.session, ids, p.seqNo);
  }

  /** A stored quote has the nonce of the row with its session and seq exactly
      when it was taken for that row's digest, up to a collision of the two
      nonce inputs. */
  lemma {:induction false} QuoteFitsRowIff(env: Env, s: Sys, quote: nat, id: nat)
    requires Reachable(env, s) && SamePlace(s.db, quote, id)
    ensures quote <= |s.targets| && s.db.Row(id).session in s.draws
    ensures var p := s.db.Row(id); var digest := s.targets[quote - 1].digest; var n := s.draws[p.session];
      s.db.QuoteAt(quote).nonce == RowNonce(env.cfg.sha256, s.draws, p) <==>
        || digest == p.sha
        || Collides(env.cfg.sha256, NonceInput(n, digest, p.prev, p.seqNo), NonceInput(n, p.sha, p.prev, p.seqNo))
  {
    ReachableQuotes(env, s);
    QuoteAndRow(env, s, quote, id);
    var p := s.db.Row(id);
    NoncesBySameDigest(env.cfg.sha256, s.draws[p.session], s.targets[quote - 1].digest, p.sha, p.prev, p.seqNo);
  }

  /** The quote belongs to the row: same session and seq, nonce of its fields. */
  ghost predicate Fits(sha256: Hash, draws: map<Bytes, Digest>, db: Tables, quote: nat, id: nat) {
    && SamePlace(db, quote, id) && db.Row(id).session in draws
    && db.QuoteAt(quote).nonce == RowNonce(sha256, draws, db.Row(id))
  }

  lemma {:induction false} RowOfTarget(sha256: Hash, draws: map<Bytes, Digest>, db: Tables,
                                       targets: seq<Target>, quote: nat)
    requires AllBound(sha256, draws, db.packets, db.quotes, targets) && db.HasQuote(quote)
    requires targets[quote - 1].row != 0
    ensures var g := targets[quote - 1]; SamePlace(db, quote, g.row) && db.Row(g.row).sha == g.digest
  {
    assert QuoteBound(sha256, draws, db.packets, db.quotes[quote - 1], targets[quote - 1]);
  }

  /** If the packet write of the tick that took the quote created a row, the quote
      belongs to that row. */
  lemma {:induction false} WrittenPacketHasItsQuote(env: Env, s: Sys, quote: nat)
    requires Reachable(env, s) && s.db.HasQuote(quote)
    ensures |s.targets| == |s.db.quotes|
    ensures var id := s.targets[quote - 1].row; id != 0 ==> Fits(env.cfg.sha256, s.draws, s.db, quote, id)
  {
    ReachableQuotes(env, s);
    if s.targets[quote - 1].row != 0 {
      RowOfTarget(env.cfg.sha256, s.draws, s.db, s.targets, quote);
      QuoteAndRow(env, s, quote, s.targets[quote - 1].row);
    }
  }

  lemma {:induction false} TargetsGrow(env: Env, s: Sys, step: Step)
    requires Enabled(env, s, step) && !step.StepWrite?
    ensures s.targets <= Apply(env, s, step).targets
  {
    if IsUploaderStep(step) {
      UploaderLeavesCustody(env, s, step);
    }
  }

  lemma {:induction false} StepKeepsHits(env: Env, s: Sys, step: Step, quote: nat)
    requires QuoteInv(env, s) && Enabled(env, s, step)
    requires 1 <= quote <= |s.targets| && s.targets[quote - 1].row != 0
    ensures var t := Apply(env, s, step); quote <= |t.targets| && t.targets[quote - 1] == s.targets[quote - 1]
  {
    if step.StepWrite? {
      assert PendingQuoteOk(s.db.quotes, s.targets, s.writer.draft.packet, s.writer.quote);
    } else {
      TargetsGrow(env, s, step);
    }
  }

  /** That row stays the quote's row for the rest of the run. */
  lemma {:induction false} HitsStay(env: Env, s: Sys, steps: seq<Step>, quote: nat)
    requires CustodyInv(env, s) && QuoteInv(env, s) && CanRun(env, s, steps)
    requires 1 <= quote <= |s.targets| && s.targets[quote - 1].row != 0
    ensures var t := Run(env, s, steps); quote <= |t.targets| && t.targets[quote - 1] == s.targets[quote - 1]
    decreases |steps|
  {
    if steps != [] {
      StepKeepsCustody(env, s, steps[0]);
      StepKeepsQuotes(env, s, steps[0]);
      StepKeepsHits(env, s, steps[0], quote);
      HitsStay(env, Apply(env, s, steps[0]), steps[1..], quote);
    }
  }

  /** A quote taken in a tick whose packet write takes effect has, in every later
      state, the nonce of the row that this write created. */
  lemma {:induction false} QuoteFitsItsPacket(env: Env, s: Sys, o: Outcome, steps: seq<Step>)
    requires Reachable(env, s) && s.writer.Writing? && s.writer.quote != 0
    requires s.db.Accepts(s.writer.draft.packet) && o != Lost
    requires CanRun(env, AfterWrite(s, o), steps)
    ensures var t := Run(env, AfterWrite(s, o), steps);
      Fits(env.cfg.sha256, t.draws, t.db, s.writer.quote, |s.db.packets| + 1)
  {
    var s1 := AfterWrite(s, o);
    ReachableQuotes(env, s);
    WriteKeepsCustody(env, s, o);
    WriteKeepsQuotes(env, s, o);
    HitsStay(env, s1, steps, s.writer.quote);
    ReachableMore(env, s, StepWrite(o), steps);
    var t := Run(env, s1, steps);
    ReachableQuotes(env, t);
    WrittenPacketHasItsQuote(env, t, s.writer.quote);
  }

  /** A row keeps its signature exactly when one was made for it, the write of its
      packet was reported, the update came before any restart and landed, and the
      packetizer held a quote of the session. Every other outcome loses it. */
  lemma {:induction false} SignatureStoredIff(env: Env, s: Sys, id: nat)
    requires Reachable(env, s) && s.db.HasRow(id)
    ensures |s.sigs| == |s.fates| == |s.db.packets|
    ensures id in s.db.tpmSig <==>
      && s.sigs[id - 1].Some?
      && s.fates[id - 1].Sent? && s.fates[id - 1].lands && s.fates[id - 1].quoteID != 0
    ensures id in s.db.tpmSig ==>
      && s.sigs[id - 1] == Some(s.db.tpmSig[id])
      && id in s.db.quoteRef && s.db.quoteRef[id] == s.fates[id - 1].quoteID
  {
    ReachableQuotes(env, s);
    assert FateOk(s, id) && SentRefOk(s, id);
    if id in s.db.tpmSig {
      assert RefOk(s, id);
    }
  }

  /** With foreign keys on, a signature is kept exactly when the update lands and
      a quote of the session has been persisted before. */
  lemma {:induction false} SignatureKeptIff(env: Env, s: Sys, lands: bool)
    requires Reachable(env, s)
    requires s.writer.Signing? && s.writer.draft.sig.Some?
    ensures s.writer.id in AfterSign(s, lands).db.tpmSig <==> lands && s.c.lastQuoteID != 0
  {
    ReachableQuotes(env, s);
  }

  /** A quote taken in a tick is what the TPM returned for the very packet that the
      tick goes on to write: its session's nonce, its digest, its seq and its
      predecessor. */
  lemma {:induction false} QuoteCommitsToDraft(env: Env, s: Sys, i: TickInput)
    requires CustodyInv(env, s) && s.writer.Idle? && FreshDraw(s, i.draw)
    requires |AfterTick(env, s, i).db.quotes| > |s.db.quotes|
    ensures var t := AfterTick(env, s, i);
      && |t.db.quotes| == |s.db.quotes| + 1 && t.writer.Writing?
      && var p := t.writer.draft.packet; var q := t.db.quotes[|s.db.quotes|];
      && q.session == p.session == t.c.sessionID && q.seqNo == p.seqNo && p.session in t.draws
      && q.nonce == env.cfg.sha256(NonceInput(t.draws[p.session], p.sha, p.prev, p.seqNo))
      && i.quote == Quoted(q.attest, q.sig, i.quote.write) && i.quote.write != Lost
  {
    TickKeepsCustody(env, s, i);
    BeginQuotes(env, s.c, s.db, i);
    BeginShape(env, s.c, s.db, i);
    BeginCanonical(env, s.c, s.db, i);
  }

  /** A tick drafts a packet exactly if the printer is printing or paused and the
      telemetry encodes; the draft carries those bytes, the signature made in the
      tick and the quote id held after it. In any other print state a tick does
      nothing. */
  lemma {:induction false} TickDrafts(env: Env, s: Sys, i: TickInput)
    requires s.writer.Idle?
    ensures var t := AfterTick(env, s, i); var state := s.c.printer.stats.state;
      && (t.writer.Writing? <==> (state == Printing || state == Paused) && i.canonical.Some?) && !t.writer.Signing?
      && (state != Printing && state != Paused ==> t == s)
      && (t.writer.Writing? ==>
            && i.canonical == Some(t.writer.draft.packet.canonical)
            && t.writer.draft.sig == (if env.cfg.hasTpm then i.sig else None)
            && t.writer.draft.quoteID == t.c.lastQuoteID)
  {
  }

  /** What a tick remembers of its quote: id and time, and that the request is
      answered, if the write was reported; otherwise nothing. */
  lemma {:induction false} TickRemembersQuote(env: Env, s: Sys, i: TickInput)
    requires s.c.printer.IsActive()
    ensures var t := AfterTick(env, s, i);
      if |t.db.quotes| > |s.db.quotes| && i.quote.write == Stored
      then t.c.lastQuoteID == |t.db.quotes| && t.c.lastQuoteAt == Some(i.tick) && !t.c.immediateQuote
      else
        && t.c.immediateQuote == s.c.immediateQuote
        && if s.c.sessionID == [] then t.c.lastQuoteID == 0 && t.c.lastQuoteAt == None
           else t.c.lastQuoteID == s.c.lastQuoteID && t.c.lastQuoteAt == s.c.lastQuoteAt
  {
    TickQuotes(env, s.c, s.db, i);
  }

  lemma {:induction false} TickQuotes(env: Env, c: State, db: Tables, i: TickInput)
    ensures var b := Begin(env.cfg, c, db, i);
      |b.tables.quotes| > |db.quotes| <==>
        && i.canonical.Some? && Quotes(env.cfg, CountSilence(env.cfg, OpenSession(c, i.draw)), i)
        && i.quote.write != Lost
  {
  }

  /** With a TPM and a database that answer, a tick stores a quote exactly when
      one was requested, when the session has none yet, or when the configured
      interval has passed since the tick of the last one. */
  lemma {:induction false} QuoteTakenIff(env: Env, s: Sys, i: TickInput)
    requires Enabled(env, s, StepTick(i)) && s.c.printer.IsActive()
    requires env.cfg.hasTpm && i.canonical.Some? && i.quote.Quoted? && i.quote.write == Stored
    ensures |AfterTick(env, s, i).db.quotes| > |s.db.quotes| <==>
      || s.c.immediateQuote || s.c.sessionID == [] || s.c.lastQuoteAt == None
      || s.c.lastQuoteAt.value + env.cfg.quoteInterval <= i.now
  {
  }

  lemma {:induction false} BeginCanonical(env: Env, s: State, db: Tables, i: TickInput)
    ensures i.canonical.Some? ==>
      var d := Begin(env.cfg, s, db, i).draft; d.Some? && d.value.packet.canonical == i.canonical.value
  {
  }

  /** A requested quote stays pending until a quote for the current packet is
      persisted, or the daemon restarts. */
  lemma {:induction false} RequestClearedOnlyByQuote(env: Env, s: Sys, step: Step)
    requires Enabled(env, s, step) && s.c.immediateQuote && !step.StepRestart?
    ensures var t := Apply(env, s, step);
      t.c.immediateQuote ||
      (&& step.StepTick? && |t.db.quotes| == |s.db.quotes| + 1
       && t.c.lastQuoteID == |t.db.quotes|
       && t.db.QuoteAt(t.c.lastQuoteID).session == t.c.sessionID
       && t.db.QuoteAt(t.c.lastQuoteID).seqNo == t.c.seqNo)
  {
    if step.StepTick? {
      BeginQuotes(env, s.c, s.db, step.input);
    }
  }

  lemma {:induction false} QuotesOnlyGrow(env: Env, s: Sys, step: Step)
    requires Enabled(env, s, step)
    ensures |s.db.quotes| <= |Apply(env, s, step).db.quotes|
  {
    if step.StepTick? {
      BeginQuotes(env, s.c, s.db, step.input);
    }
  }

  /** Over any run, a request that is no longer pending was answered by a new
      stored quote or dropped by a restart. */
  lemma {:induction false} RequestAnswered(env: Env, s: Sys, steps: seq<Step>)
    requires CanRun(env, s, steps)
    ensures |s.db.quotes| <= |Run(env, s, steps).db.quotes|
    ensures s.c.immediateQuote && !Run(env, s, steps).c.immediateQuote ==>
      || |s.db.quotes| < |Run(env, s, steps).db.quotes|
      || exists i :: 0 <= i < |steps| && steps[i].StepRestart?
    decreases |steps|
  {
    if steps != [] {
      var rest := steps[1..];
      QuotesOnlyGrow(env, s, steps[0]);
      if s.c.immediateQuote && !steps[0].StepRestart? {
        RequestClearedOnlyByQuote(env, s, steps[0]);
      }
      RequestAnswered(env, Apply(env, s, steps[0]), rest);
      assert forall i :: 0 <= i < |rest| && rest[i].StepRestart? ==> steps[i + 1].StepRestart?;
    }
  }

  /** A change of print state requests a quote if so configured; nothing else in a
      delta touches the request. */
  lemma {:induction false} StateChangeRequestsQuote(env: Env, s: Sys, delta: Delta, f: Fresh)
    requires Enabled(env, s, StepDelta(delta, f))
    ensures var t := AfterDelta(env, s, delta, f);
      var changed := t.c.printer.stats.state != s.c.printer.stats.state;
      t.c.immediateQuote == (s.c.immediateQuote || (changed && env.cfg.quoteOnLifecycle && env.cfg.hasTpm))
  {
  }

  /** Every change of print state is quoted, if so configured: whatever comes in
      between short of a restart, after the next active tick in which TPM and
      database answer a quote has been stored since the change. */
  lemma {:induction false} StateChangeIsQuoted(env: Env, s: Sys, delta: Delta, f: Fresh, steps: seq<Step>, i: TickInput)
    requires Enabled(env, s, StepDelta(delta, f)) && env.cfg.quoteOnLifecycle && env.cfg.hasTpm
    requires AfterDelta(env, s, delta, f).c.printer.stats.state != s.c.printer.stats.state
    requires CanRun(env, AfterDelta(env, s, delta, f), steps)
    requires forall n :: 0 <= n < |steps| ==> !steps[n].StepRestart?
    requires var u := Run(env, AfterDelta(env, s, delta, f), steps);
      Enabled(env, u, StepTick(i)) && u.c.printer.IsActive()
    requires i.canonical.Some? && i.quote.Quoted? && i.quote.write == Stored
    ensures var u := Run(env, AfterDelta(env, s, delta, f), steps);
      |s.db.quotes| < |AfterTick(env, u, i).db.quotes|
  {
    var t := AfterDelta(env, s, delta, f);
    var u := Run(env, t, steps);
    StateChangeRequestsQuote(env, s, delta, f);
    RequestAnswered(env, t, steps);
    QuotesOnlyGrow(env, u, StepTick(i));
    QuoteTakenIff(env, u, i);
  }

  // ----- Without a TPM -----

  /** No quote, no signature, none made. */
  ghost predicate Bare(s: Sys) {
    && s.db.quotes == [] && s.db.tpmSig == map[] && s.db.quoteRef == map[]
    && (forall i :: 0 <= i < |s.sigs| ==> s.sigs[i] == None)
    && (!s.writer.Idle? ==> s.writer.draft.sig == None)
  }

  lemma {:induction false} StepKeepsBare(env: Env, s: Sys, step: Step)
    requires Enabled(env, s, step) && Bare(s) && !env.cfg.hasTpm
    ensures Bare(Apply(env, s, step))
  {
    if IsUploaderStep(step) {
      UploaderLeavesCustody(env, s, step);
    } else if step.StepTick? {
      TickDrafts(env, s, step.input);
      TickQuotes(env, s.c, s.db, step.input);
      BeginQuotes(env, s.c, s.db, step.input);
      SameReferences(env, s.c, s.db, step.input);
    }
  }

  lemma {:induction false} SameReferences(env: Env, c: State, db: Tables, i: TickInput)
    ensures var b := Begin(env.cfg, c, db, i); b.tables.tpmSig == db.tpmSig && b.tables.quoteRef == db.quoteRef
  {
  }

  lemma {:induction false} RunKeepsBare(env: Env, s: Sys, steps: seq<Step>)
    requires CanRun(env, s, steps) && Bare(s) && !env.cfg.hasTpm
    ensures Bare(Run(env, s, steps))
    decreases |steps|
  {
    if steps != [] {
      StepKeepsBare(env, s, steps[0]);
      RunKeepsBare(env, Apply(env, s, steps[0]), steps[1..]);
    }
  }

  /** A node without a TPM never stores a quote or a signature, and links no packet
      with one. */
  lemma {:induction false} NoTpmNoEvidence(env: Env, s: Sys)
    requires Reachable(env, s) && !env.cfg.hasTpm
    ensures s.db.quotes == [] && s.db.tpmSig == map[] && s.db.quoteRef == map[]
    ensures forall i :: 0 <= i < |s.sigs| ==> s.sigs[i] == None
  {
    var steps :| CanRun(env, START, steps) && s == Run(env, START, steps);
    RunKeepsBare(env, START, steps);
  }

  // ----- The quote interval -----

  /** Since the reported quote of a tick at this time nothing has asked for another. */
  ghost predicate Quiet(c: State, at: int) {
    c.sessionID != [] && !c.immediateQuote && c.lastQuoteAt == Some(at)
  }

  /** No restart, no delta that changes the print state, and every tick comes within
      the interval. */
  ghost predicate Calm(env: Env, s: Sys, step: Step, at: int)
    requires Enabled(env, s, step)
  {
    match step
    case StepRestart => false
    case StepDelta(delta, f) => AfterDelta(env, s, delta, f).c.printer.stats.state == s.c.printer.stats.state
    case StepTick(i) => i.now - at < env.cfg.quoteInterval
    case _ => true
  }

  ghost predicate CalmRun(env: Env, s: Sys, steps: seq<Step>, at: int)
    requires CanRun(env, s, steps)
    decreases |steps|
  {
    steps != [] ==> Calm(env, s, steps[0], at) && CalmRun(env, Apply(env, s, steps[0]), steps[1..], at)
  }

  lemma {:induction false} CalmStep(env: Env, s: Sys, step: Step, at: int)
    requires Enabled(env, s, step) && Quiet(s.c, at) && Calm(env, s, step, at)
    ensures Quiet(Apply(env, s, step).c, at) && Apply(env, s, step).db.quotes == s.db.quotes
  {
    if IsUploaderStep(step) {
      UploaderLeavesCustody(env, s, step);
    } else if step.StepTick? && s.c.printer.IsActive() {
      BeginShape(env, s.c, s.db, step.input);
      TickRemembersQuote(env, s, step.input);
      TickQuotes(env, s.c, s.db, step.input);
      BeginQuotes(env, s.c, s.db, step.input);
    } else if step.StepSign? {
      BackfillShape(s.db, s.writer.id, s.writer.draft, step.lands);
    }
  }

  lemma {:induction false} CalmRunStoresNoQuote(env: Env, s: Sys, steps: seq<Step>, at: int)
    requires CanRun(env, s, steps) && Quiet(s.c, at) && CalmRun(env, s, steps, at)
    ensures Quiet(Run(env, s, steps).c, at) && Run(env, s, steps).db.quotes == s.db.quotes
    decreases |steps|
  {
    if steps != [] {
      CalmStep(env, s, steps[0], at);
      CalmRunStoresNoQuote(env, Apply(env, s, steps[0]), steps[1..], at);
    }
  }

  /** The interval law: after a tick that stored a reported quote, no calm run
      stores another, and the next tick after it in which TPM and database answer
      stores one exactly if the interval has passed. */
  lemma {:induction false} QuoteInterval(env: Env, s: Sys, i: TickInput, steps: seq<Step>, j: TickInput)
    requires CustodyInv(env, s) && Enabled(env, s, StepTick(i))
    requires |AfterTick(env, s, i).db.quotes| > |s.db.quotes| && i.quote.write == Stored
    requires CanRun(env, AfterTick(env, s, i), steps) && CalmRun(env, AfterTick(env, s, i), steps, i.tick)
    ensures var t := AfterTick(env, s, i); var u := Run(env, t, steps);
      && u.db.quotes == t.db.quotes
      && (Enabled(env, u, StepTick(j)) && u.c.printer.IsActive() && env.cfg.hasTpm &&
          j.canonical.Some? && j.quote.Quoted? && j.quote.write == Stored ==>
            (|AfterTick(env, u, j).db.quotes| > |u.db.quotes| <==> j.now - i.tick >= env.cfg.quoteInterval))
  {
    var t := AfterTick(env, s, i);
    TickRemembersQuote(env, s, i);
    TickShape(env, s, i);
    CalmRunStoresNoQuote(env, t, steps, i.tick);
    var u := Run(env, t, steps);
    if Enabled(env, u, StepTick(j)) && u.c.printer.IsActive() && env.cfg.hasTpm &&
       j.canonical.Some? && j.quote.Quoted? && j.quote.write == Stored {
      QuoteTakenIff(env, u, j);
    }
  }

  // ----- Two runs in which a promise fails -----

  /** The session opened by f has no rows yet. */
  ghost predicate AtStart(s: Sys, f: Fresh) {
    && s.c.printer.IsActive() && s.c.sessionID == f.id && s.c.sessionNonce == f.nonce
    && s.c.seqNo == 0 && s.c.prev == None
    && s.draws == map[f.id := f.nonce] && s.sigs == []
    && s.db.packets == [] && s.db.tpmSig == map[] && s.db.quoteRef == map[]
  }

  lemma {:induction false} PrintingBegins(env: Env, f: Fresh, raw: Bytes) returns (s: Sys)
    requires f.id != [] && env.cfg.mergeStats(raw, INITIAL.printer.stats).state == Printing
    ensures Reachable(env, s) && s.writer.Idle? && AtStart(s, f)
    ensures s.c.lastQuoteID == 0 && s.c.lastQuoteAt == None && s.db.quotes == [] && s.targets == []
  {
    var delta := map[Stats := raw];
    ReachableStart(env);
    ReachableStep(env, START, StepDelta(delta, f));
    s := AfterDelta(env, START, delta, f);
  }

  /** The tick drafts packet 0; it stores a quote or leaves the quotes alone. */
  lemma {:induction false} FirstTick(env: Env, s: Sys, f: Fresh, i: TickInput)
    requires AtStart(s, f) && s.writer.Idle? && f.id != [] && env.cfg.hasTpm && i.canonical.Some?
    ensures var t := AfterTick(env, s, i);
      && AtStart(t, f) && t.writer.Writing?
      && var d := t.writer.draft;
      && d.sig == i.sig && d.quoteID == t.c.lastQuoteID
      && d.packet.session == f.id && d.packet.seqNo == 0 && d.packet.prev == None
      && d.packet.sha == env.cfg.sha256(i.canonical.value)
    ensures var t := AfterTick(env, s, i);
      if i.quote.QuoteFailed? || !ShouldQuote(env.cfg, s.c, i.now)
      then t.db.quotes == s.db.quotes && t.targets == s.targets && t.c.lastQuoteID == s.c.lastQuoteID
      else i.quote.write == Stored ==>
        t.db.quotes == s.db.quotes + [TickQuote(env.cfg, s.c, i, i.canonical.value)]
        && t.targets == s.targets + [Target(env.cfg.sha256(i.canonical.value), 0)]
        && t.c.lastQuoteID == |t.db.quotes|
  {
  }

  lemma {:induction false} FirstTickReachable(env: Env, s: Sys, f: Fresh, i: TickInput)
    requires Reachable(env, s) && AtStart(s, f) && s.writer.Idle? && i.draw.id != [] && i.draw.id != f.id
    ensures Reachable(env, AfterTick(env, s, i))
  {
    ReachableStep(env, s, StepTick(i));
  }

  /** The write of packet 0 is reported and its update lands. */
  lemma {:induction false} FirstRow(env: Env, s: Sys, f: Fresh) returns (t: Sys)
    requires Reachable(env, s) && AtStart(s, f) && s.writer.Writing?
    requires s.writer.draft.packet.session == f.id && s.writer.draft.packet.seqNo == 0
    ensures Reachable(env, t) && t == AfterSign(AfterWrite(s, Stored), true)
  {
    var s1 := AfterWrite(s, Stored);
    ReachableStep(env, s, StepWrite(Stored));
    ReachableStep(env, s1, StepSign(true));
    t := AfterSign(s1, true);
  }

  lemma {:induction false} FirstRowStored(s: Sys, f: Fresh)
    requires AtStart(s, f) && s.writer.Writing? && s.writer.draft.sig.Some?
    requires s.writer.draft.packet.session == f.id && s.writer.draft.packet.seqNo == 0
    ensures var d := s.writer.draft; var t := AfterSign(AfterWrite(s, Stored), true);
      && t.db.packets == [d.packet] && t.sigs == [d.sig] && t.draws == s.draws && t.db.quotes == s.db.quotes
      && (s.writer.quote == 0 ==> t.targets == s.targets)
      && (if s.db.HasQuote(d.quoteID) then 1 in t.db.quoteRef && t.db.quoteRef[1] == d.quoteID
          else 1 !in t.db.tpmSig)
  {
    assert [] + [s.writer.draft.packet] == [s.writer.draft.packet];
  }

  /** A quote can belong to no row: the write of the packet it was taken for is
      lost, and the next tick records other bytes b under the same seq. The row
      refers to the quote, whose nonce was made from the digest of a. */
  lemma {:induction false} QuoteOfLostPacket(env: Env, f: Fresh, g: Fresh, raw: Bytes, a: Bytes, b: Bytes,
                                             attest: Bytes, quoteSig: Bytes, sig: Bytes) returns (s: Sys)
    requires env.cfg.hasTpm && f.id != [] && g.id != [] && f.id != g.id
    requires env.cfg.mergeStats(raw, INITIAL.printer.stats).state == Printing
    ensures Reachable(env, s) && s.draws == map[f.id := f.nonce]
    ensures SamePlace(s.db, 1, 1) && 1 in s.db.quoteRef && s.db.quoteRef[1] == 1
    ensures s.db.Row(1).session == f.id && s.db.Row(1).seqNo == 0 && s.db.Row(1).sha == env.cfg.sha256(b)
    ensures s.db.QuoteAt(1).nonce == env.cfg.sha256(NonceInput(f.nonce, env.cfg.sha256(a), None, 0))
    ensures s.targets == [Target(env.cfg.sha256(a), 0)]
    ensures Fits(env.cfg.sha256, s.draws, s.db, 1, 1) <==>
      var lost, kept := env.cfg.sha256(a), env.cfg.sha256(b);
      || lost == kept
      || Collides(env.cfg.sha256, NonceInput(f.nonce, lost, None, 0), NonceInput(f.nonce, kept, None, 0))
  {
    var s1 := PrintingBegins(env, f, raw);
    var s2 := QuotedAndLost(env, s1, f, TickInput(g, 0, 0, true, Some(a), Quoted(attest, quoteSig, Stored), Some(sig)));
    var i := TickInput(g, 1, 1, true, Some(b), QuoteFailed, Some(sig));
    FirstTick(env, s2, f, i);
    FirstTickReachable(env, s2, f, i);
    var s3 := AfterTick(env, s2, i);
    FirstRowStored(s3, f);
    s := FirstRow(env, s3, f);
    FitsByDigest(env.cfg.sha256, s.draws, s.db, env.cfg.sha256(a));
  }

  lemma {:induction false} FitsByDigest(sha256: Hash, draws: map<Bytes, Digest>, db: Tables, digest: Digest)
    requires SamePlace(db, 1, 1) && db.Row(1).session in draws
    requires var p := db.Row(1);
      db.QuoteAt(1).nonce == sha256(NonceInput(draws[p.session], digest, p.prev, p.seqNo))
    ensures var p := db.Row(1); var n := draws[p.session];
      Fits(sha256, draws, db, 1, 1) <==>
        || digest == p.sha
        || Collides(sha256, NonceInput(n, digest, p.prev, p.seqNo), NonceInput(n, p.sha, p.prev, p.seqNo))
  {
    var p := db.Row(1);
    NoncesBySameDigest(sha256, draws[p.session], digest, p.sha, p.prev, p.seqNo);
  }

  lemma {:induction false} QuotedAndLost(env: Env, s: Sys, f: Fresh, i: TickInput) returns (t: Sys)
    requires Reachable(env, s) && AtStart(s, f) && s.writer.Idle? && s.db.quotes == [] && s.targets == []
    requires env.cfg.hasTpm && f.id != [] && i.draw.id != [] && i.draw.id != f.id && s.c.lastQuoteAt == None
    requires i.canonical.Some? && i.quote.Quoted? && i.quote.write == Stored
    ensures Reachable(env, t) && AtStart(t, f) && t.writer.Idle? && t.c.lastQuoteID == 1
    ensures t.db.quotes == [TickQuote(env.cfg, s.c, i, i.canonical.value)]
    ensures t.targets == [Target(env.cfg.sha256(i.canonical.value), 0)]
  {
    FirstTick(env, s, f, i);
    FirstTickReachable(env, s, f, i);
    var s1 := AfterTick(env, s, i);
    ReachableStep(env, s1, StepWrite(Lost));
    t := AfterWrite(s1, Lost);
  }

  /** A signature can be lost although every write is reported as done: with a TPM
      whose quotes fail, the first packet is signed and its update is refused by
      the foreign key on quote_ref. */
  lemma {:induction false} UnquotedSignatureRefused(env: Env, f: Fresh, g: Fresh, raw: Bytes, canonical: Bytes,
                                                    sig: Bytes)
    returns (s: Sys)
    requires env.cfg.hasTpm && f.id != [] && g.id != [] && f.id != g.id
    requires env.cfg.mergeStats(raw, INITIAL.printer.stats).state == Printing
    ensures Reachable(env, s) && |s.db.packets| == 1 && s.db.packets[0].session == f.id
    ensures s.sigs == [Some(sig)] && 1 !in s.db.tpmSig
  {
    var s1 := PrintingBegins(env, f, raw);
    var i := TickInput(g, 0, 0, true, Some(canonical), QuoteFailed, Some(sig));
    FirstTick(env, s1, f, i);
    FirstTickReachable(env, s1, f, i);
    var s2 := AfterTick(env, s1, i);
    FirstRowStored(s2, f);
    s := FirstRow(env, s2, f);
  }
}
