/** Loading a stored session (python/src/axm_sfn/db.py). */
module Loading {
  import opened ByteStrings
  import opened Chain
  import opened Ledger
  import opened Streams
  import HotBuffer
  import Custody
  import Node
  import Attestation
  import Uploads

  /** How a row is decoded: the verdict in its canonical bytes, and its tpm_sig
      column; None is an exception (db.py reads hex, see README). */
  datatype Loader = Loader(verdictOf: Bytes -> Option<bool>, sigOf: Bytes -> Option<Bytes>)

  predicate Decodes(db: HotBuffer.Tables, id: nat, loader: Loader) {
    id in db.tpmSig ==> loader.sigOf(db.tpmSig[id]).Some?
  }

  function RecordOf(db: HotBuffer.Tables, id: nat, loader: Loader): PacketRecord
    requires db.HasRow(id)
  {
    var p := db.Row(id);
    PacketRecord(p.seqNo, Some(p.link), Some(p.sha),
                 if id in db.tpmSig then loader.sigOf(db.tpmSig[id]) else None,
                 loader.verdictOf(p.canonical), Some(p.canonical))
  }

  ghost predicate LoadsRows(packets: seq<PacketRecord>, db: HotBuffer.Tables, ids: seq<nat>, loader: Loader) {
    && ids != [] && |packets| == |ids|
    && forall k :: 0 <= k < |ids| ==>
         db.HasRow(ids[k]) && Decodes(db, ids[k], loader) && packets[k] == RecordOf(db, ids[k], loader)
  }

  /** The session is there and decodes to these records. */
  ghost predicate Loads(packets: seq<PacketRecord>, db: HotBuffer.Tables, session: Bytes, loader: Loader) {
    LoadsRows(packets, db, Ids(db.packets, session), loader)
  }

  /** What a record holds of its row. */
  lemma {:induction false} LoadedFields(packets: seq<PacketRecord>, db: HotBuffer.Tables, session: Bytes,
                                        loader: Loader, k: nat)
    requires Loads(packets, db, session, loader) && k < |packets|
    ensures db.HasRow(Ids(db.packets, session)[k])
    ensures var id := Ids(db.packets, session)[k]; var p := db.packets[id - 1]; var r := packets[k];
      && r.seqNo == p.seqNo && r.blake3 == Some(p.link) && r.sha256 == Some(p.sha)
      && r.raw == Some(p.canonical) && r.verdict == loader.verdictOf(p.canonical)
      && (id !in db.tpmSig ==> r.tpmSig == None)
      && (id in db.tpmSig ==> r.tpmSig.Some? && r.tpmSig == loader.sigOf(db.tpmSig[id]))
  {
    assert packets[k] == RecordOf(db, Ids(db.packets, session)[k], loader);
  }

  // ----- SELECT ... WHERE session_id = ? ORDER BY seq -----

  /** The query returns the rows of the session, by seq. */
  ghost predicate ListsBySeq(db: HotBuffer.Tables, session: Bytes, ids: seq<nat>) {
    && (forall k :: 0 <= k < |ids| ==> db.HasRow(ids[k]) && db.Row(ids[k]).session == session)
    && (forall j, k :: 0 <= j < k < |ids| ==> db.Row(ids[j]).seqNo < db.Row(ids[k]).seqNo)
    && (forall id: nat :: db.HasRow(id) && db.Row(id).session == session ==> id in ids)
  }

  /** None is an exception: no rows, or a signature that does not decode. */
  method LoadSession(db: HotBuffer.Tables, ids: seq<nat>, loader: Loader) returns (packets: Option<seq<PacketRecord>>)
    requires forall k :: 0 <= k < |ids| ==> db.HasRow(ids[k])
    ensures packets.None? <==> ids == [] || exists k :: 0 <= k < |ids| && !Decodes(db, ids[k], loader)
    ensures packets.Some? ==> LoadsRows(packets.value, db, ids, loader)
  {
    if ids == [] {
      return None;
    }
    var loaded: seq<PacketRecord> := [];
    for i := 0 to |ids|
      invariant |loaded| == i
      invariant forall k :: 0 <= k < i ==> Decodes(db, ids[k], loader) && loaded[k] == RecordOf(db, ids[k], loader)
    {
      if ids[i] in db.tpmSig && loader.sigOf(db.tpmSig[ids[i]]).None? {
        assert !Decodes(db, ids[i], loader);
        return None;
      }
      loaded := loaded + [RecordOf(db, ids[i], loader)];
    }
    return Some(loaded);
  }

  lemma {:induction false} SeqAtLeast(db: HotBuffer.Tables, session: Bytes, query: seq<nat>, m: nat)
    requires ListsBySeq(db, session, query) && m < |query|
    ensures db.Row(query[m]).seqNo >= m
  {
    if m > 0 {
      SeqAtLeast(db, session, query, m - 1);
    }
  }

  lemma {:induction false} RowFound(db: HotBuffer.Tables, session: Bytes, query: seq<nat>, id: nat) returns (m: nat)
    requires ListsBySeq(db, session, query) && db.HasRow(id) && db.Row(id).session == session
    ensures m < |query| && query[m] == id && m <= db.Row(id).seqNo
  {
    m :| m < |query| && query[m] == id;
    SeqAtLeast(db, session, query, m);
  }

  lemma {:induction false} NotBefore(db: HotBuffer.Tables, session: Bytes, query: seq<nat>, ids: seq<nat>,
                                     m: nat, n: nat)
    requires Uploads.Numbered(db.packets, session, ids)
    requires m < n < |ids| && n <= |query| && query[..n] == ids[..n]
    ensures query[m] != ids[n]
  {
    assert query[..n][m] == ids[..n][m];
    assert db.packets[ids[m] - 1].seqNo == m && db.packets[ids[n] - 1].seqNo == n;
  }

  lemma {:induction false} QueryPrefix(db: HotBuffer.Tables, session: Bytes, query: seq<nat>, ids: seq<nat>, n: nat)
    requires Uploads.Numbered(db.packets, session, ids) && ListsBySeq(db, session, query) && n <= |ids|
    ensures n <= |query| && query[..n] == ids[..n]
  {
    if n > 0 {
      var id := ids[n - 1];
      QueryPrefix(db, session, query, ids, n - 1);
      var m := RowFound(db, session, query, id);
      if m < n - 1 {
        NotBefore(db, session, query, ids, m, n - 1);
      }
      PrefixStep(query, ids, n - 1);
    }
  }

  lemma {:induction false} PrefixStep(a: seq<nat>, b: seq<nat>, n: nat)
    requires n < |a| && n < |b| && a[..n] == b[..n] && a[n] == b[n]
    ensures a[..n + 1] == b[..n + 1]
  {
    assert a[..n + 1] == a[..n] + [a[n]] && b[..n + 1] == b[..n] + [b[n]];
  }

  lemma {:induction false} NumberedQuery(db: HotBuffer.Tables, session: Bytes, query: seq<nat>, ids: seq<nat>)
    requires Uploads.Numbered(db.packets, session, ids) && ListsBySeq(db, session, query)
    ensures query == ids
  {
    QueryPrefix(db, session, query, ids, |ids|);
    if |query| > |ids| {
      SeqAtLeast(db, session, query, |ids|);
    }
  }

  /** In every reachable state the rows by seq are the rows as inserted. */
  lemma {:induction false} QueryIsIds(env: Node.Env, s: Node.Sys, session: Bytes, query: seq<nat>)
    requires Node.Reachable(env, s) && ListsBySeq(s.db, session, query)
    ensures query == Ids(s.db.packets, session)
  {
    Node.ReachableCustody(env, s);
    Uploads.SessionIsNumbered(env, s, session);
    NumberedQuery(s.db, session, query, Ids(s.db.packets, session));
  }

  // ----- Which signatures come back -----

  /** The loaded record k has the signature bytes that its link was made with. */
  ghost predicate SignatureKept(s: Node.Sys, session: Bytes, packets: seq<PacketRecord>, k: nat) {
    var ids := Ids(s.db.packets, session);
    k < |ids| == |packets| && 1 <= ids[k] <= |s.sigs| && OrEmpty(packets[k].tpmSig) == OrEmpty(s.sigs[ids[k] - 1])
  }

  /** For a loader that returns the stored bytes: record k of a session has its
      signature exactly when there was nothing to store, or the packet write was
      reported, the update came before any restart and landed, and the packetizer
      held a quote of the session. */
  lemma {:induction false} SignatureKeptIff(env: Node.Env, s: Node.Sys, session: Bytes, packets: seq<PacketRecord>,
                                            loader: Loader, k: nat)
    requires Node.Reachable(env, s) && Loads(packets, s.db, session, loader) && k < |packets|
    requires forall b :: loader.sigOf(b) == Some(b)
    ensures |s.sigs| == |s.fates| == |s.db.packets| && 1 <= Ids(s.db.packets, session)[k] <= |s.sigs|
    ensures var id := Ids(s.db.packets, session)[k]; var fate := s.fates[id - 1];
      SignatureKept(s, session, packets, k) <==>
        || !Truthy(s.sigs[id - 1])
        || (fate.Sent? && fate.lands && fate.quoteID != 0)
  {
    var ids := Ids(s.db.packets, session);
    Attestation.SignatureStoredIff(env, s, ids[k]);
    KeptIfStored(s, session, packets, loader, k, ids);
  }

  lemma {:induction false} KeptIfStored(s: Node.Sys, session: Bytes, packets: seq<PacketRecord>,
                                        loader: Loader, k: nat, ids: seq<nat>)
    requires ids == Ids(s.db.packets, session) && k < |ids| == |packets| && |s.sigs| == |s.db.packets|
    requires s.db.HasRow(ids[k]) && packets[k] == RecordOf(s.db, ids[k], loader)
    requires forall b :: loader.sigOf(b) == Some(b)
    requires ids[k] in s.db.tpmSig ==> s.sigs[ids[k] - 1] == Some(s.db.tpmSig[ids[k]])
    ensures SignatureKept(s, session, packets, k) <==> ids[k] in s.db.tpmSig || !Truthy(s.sigs[ids[k] - 1])
  {
  }

  /** It does happen: with a TPM whose quotes fail, the first packet of a session
      is signed, its backfill is refused by the foreign key on quote_ref, and any
      loader misses the signature, although every write was reported as done. */
  lemma {:induction false} SignatureCanBeLost(env: Node.Env, f: Custody.Fresh, g: Custody.Fresh, raw: Bytes,
                                              canonical: Bytes, sig: Bytes) returns (s: Node.Sys)
    requires env.cfg.hasTpm && sig != []
    requires f.id != [] && g.id != [] && f.id != g.id
    requires env.cfg.mergeStats(raw, Custody.INITIAL.printer.stats).state == Custody.Printing
    ensures Node.Reachable(env, s)
    ensures forall packets, loader :: Loads(packets, s.db, f.id, loader) ==>
      |packets| == 1 && !SignatureKept(s, f.id, packets, 0)
  {
    s := Attestation.UnquotedSignatureRefused(env, f, g, raw, canonical, sig);
    assert s.db.packets[..0] == [];
    assert Ids(s.db.packets, f.id) == [1];
  }

  // ----- What the records say -----

  /** packets[k] has seq k. */
  ghost predicate InOrder(packets: seq<PacketRecord>) {
    forall k :: 0 <= k < |packets| ==> packets[k].seqNo == k && packets[k].raw.Some?
  }

  /** Row k as the reader must find it. */
  ghost predicate RecordLinked(blake3: Hash, sha256: Hash, session: Bytes, packets: seq<PacketRecord>, k: nat)
    requires k < |packets|
  {
    var p := packets[k];
    && p.seqNo == k && p.raw.Some?
    && p.sha256 == Some(sha256(p.raw.value))
    && p.blake3 == Some(blake3(LinkInput(k, session, p.raw.value, p.tpmSig, RecordLinkBefore(packets, k))))
  }

  ghost function RecordLinkBefore(packets: seq<PacketRecord>, k: nat): Option<Digest>
    requires k <= |packets|
  {
    if k > 0 && packets[k - 1].blake3.Some? && |packets[k - 1].blake3.value| == 32
    then Some(packets[k - 1].blake3.value) else None
  }

  lemma {:induction false} SameBytesSameLink(k: nat, session: Bytes, canonical: Bytes,
                                             sig: Option<Bytes>, sig': Option<Bytes>, prev: Option<Digest>)
    requires OrEmpty(sig) == OrEmpty(sig')
    ensures LinkInput(k, session, canonical, sig, prev) == LinkInput(k, session, canonical, sig', prev)
  {
  }

  lemma {:induction false} LoadedIsLinked(env: Node.Env, s: Node.Sys, session: Bytes, packets: seq<PacketRecord>,
                                          loader: Loader, k: nat)
    requires |s.sigs| == |s.db.packets|
    requires Linked(env.cfg.blake3, env.cfg.sha256, s.db.packets, s.sigs, session)
    requires Loads(packets, s.db, session, loader) && SignatureKept(s, session, packets, k)
    ensures RecordLinked(env.cfg.blake3, env.cfg.sha256, session, packets, k)
  {
    var ids := Ids(s.db.packets, session);
    assert RowLinked(env.cfg.blake3, env.cfg.sha256, s.db.packets, s.sigs, session, ids, k);
    assert RecordLinkBefore(packets, k) == LinkBefore(s.db.packets, ids, k);
    SameBytesSameLink(k, session, packets[k].raw.value, s.sigs[ids[k] - 1], packets[k].tpmSig,
                      RecordLinkBefore(packets, k));
  }

  /** Whatever became of the signatures: seqs are positions, digests are the hashes
      of the stored bytes, and links have 32 bytes. */
  lemma {:induction false} LoadedInOrder(env: Node.Env, s: Node.Sys, session: Bytes,
                                         packets: seq<PacketRecord>, loader: Loader)
    requires |s.sigs| == |s.db.packets|
    requires Linked(env.cfg.blake3, env.cfg.sha256, s.db.packets, s.sigs, session)
    requires Loads(packets, s.db, session, loader)
    ensures InOrder(packets)
    ensures forall k :: 0 <= k < |packets| ==>
      && packets[k].sha256 == Some(env.cfg.sha256(packets[k].raw.value))
      && packets[k].blake3.Some? && |packets[k].blake3.value| == 32
  {
    var ids := Ids(s.db.packets, session);
    forall k | 0 <= k < |packets|
      ensures packets[k].seqNo == k && packets[k].raw.Some?
      ensures packets[k].sha256 == Some(env.cfg.sha256(packets[k].raw.value))
      ensures packets[k].blake3.Some? && |packets[k].blake3.value| == 32
    {
      assert RowLinked(env.cfg.blake3, env.cfg.sha256, s.db.packets, s.sigs, session, ids, k);
    }
  }

  lemma {:induction false} SignatureCounts(k: nat, session: Bytes, canonical: Bytes, sig: Option<Bytes>,
                                           sig': Option<Bytes>, prev: Option<Digest>)
    requires OrEmpty(sig) != OrEmpty(sig')
    ensures LinkInput(k, session, canonical, sig, prev) != LinkInput(k, session, canonical, sig', prev)
  {
    if LinkInput(k, session, canonical, sig, prev) == LinkInput(k, session, canonical, sig', prev) {
      var head := [0] + LE(k, 8) + session + canonical;
      assert |head + OrEmpty(sig) + OrEmpty(prev)| == |head + OrEmpty(sig') + OrEmpty(prev)|;
      SplitConcat(head + OrEmpty(sig), OrEmpty(prev), head + OrEmpty(sig'), OrEmpty(prev));
      SplitConcat(head, OrEmpty(sig), head, OrEmpty(sig'));
    }
  }

  lemma {:induction false} LostLinkCollides(blake3: Hash, k: nat, session: Bytes, p: HotBuffer.Packet,
                                            sig: Option<Bytes>, loaded: Option<Bytes>)
    requires OrEmpty(sig) != OrEmpty(loaded)
    requires blake3(LinkInput(k, session, p.canonical, sig, p.prev)) == p.link
      == blake3(LinkInput(k, session, p.canonical, loaded, p.prev))
    ensures Collides(blake3, LinkInput(k, session, p.canonical, sig, p.prev),
                     LinkInput(k, session, p.canonical, loaded, p.prev))
  {
    SignatureCounts(k, session, p.canonical, sig, loaded, p.prev);
  }

  /** The link of record k is also the hash of an input with other signature bytes. */
  ghost predicate LinkCollision(blake3: Hash, s: Node.Sys, session: Bytes, packets: seq<PacketRecord>, k: nat) {
    var ids := Ids(s.db.packets, session);
    && k < |ids| == |packets| && s.db.HasRow(ids[k]) && ids[k] <= |s.sigs|
    && var p := s.db.Row(ids[k]);
    Collides(blake3, LinkInput(k, session, p.canonical, s.sigs[ids[k] - 1], p.prev),
             LinkInput(k, session, p.canonical, packets[k].tpmSig, p.prev))
  }

  /** The link before record k is the one stored as its predecessor. */
  lemma {:induction false} LoadedPrev(env: Node.Env, s: Node.Sys, session: Bytes, packets: seq<PacketRecord>,
                                      loader: Loader, ids: seq<nat>, k: nat)
    requires |s.sigs| == |s.db.packets| && ids == Ids(s.db.packets, session) && k < |ids|
    requires LoadsRows(packets, s.db, ids, loader)
    requires RowLinked(env.cfg.blake3, env.cfg.sha256, s.db.packets, s.sigs, session, ids, k)
    ensures RecordLinkBefore(packets, k) == s.db.Row(ids[k]).prev
  {
    assert RecordLinkBefore(packets, k) == LinkBefore(s.db.packets, ids, k);
  }
}
