/** From the buffer to a shard and back: what a reader who holds only the
    artifacts of one session can recompute. */
module Shard {
  import opened ByteStrings
  import opened Chain
  import opened Ledger
  import opened Streams
  import opened Archive
  import opened Loading
  import HotBuffer
  import Node
  import Attestation

  datatype Artifacts = Artifacts(locators: seq<Locator>, latents: Bytes,
                                 packetRows: seq<PacketIndex>, packetBlob: Bytes,
                                 evidenceRows: seq<EvidenceIndex>, evidenceBlob: Bytes)

  // ----- The reader -----

  /** A Python slice: bounds past the end are cut. */
  function Slice(blob: Bytes, offset: nat, length: nat): Bytes {
    var from := if offset <= |blob| then offset else |blob|;
    var to := if offset + length <= |blob| then offset + length else |blob|;
    blob[from..to]
  }

  /** The stored bytes indexed for a seq; of several rows the last wins. */
  function CanonicalOf(rows: seq<PacketIndex>, blob: Bytes, seqNo: nat): Option<Bytes> {
    if rows == [] then None else
      var r := rows[|rows| - 1];
      if r.seqNo == seqNo then Some(Slice(blob, r.offset, r.length))
      else CanonicalOf(rows[..|rows| - 1], blob, seqNo)
  }

  /** The packet signature indexed for a seq, if any. */
  function SignatureOf(rows: seq<EvidenceIndex>, blob: Bytes, seqNo: nat): Option<Bytes> {
    if rows == [] then None else
      var r := rows[|rows| - 1];
      if r.kind == PacketSig && r.seqNo == seqNo then Some(Slice(blob, r.offset, r.length))
      else SignatureOf(rows[..|rows| - 1], blob, seqNo)
  }

  function LinkOf(frames: seq<Frame>, i: nat): Digest
    requires i < |frames|
  {
    if |frames[i].payload| >= 108 then ParsePayload(frames[i].payload).blake3 else Zeros(32)
  }

  function LinkBeforeFrame(frames: seq<Frame>, i: nat): Option<Digest>
    requires i < |frames|
  {
    if i == 0 then None else Some(LinkOf(frames, i - 1))
  }

  /** Some sign_pub row holds a key with this fingerprint. */
  predicate HasSignKey(sha256: Hash, rows: seq<EvidenceIndex>, blob: Bytes, fp: Bytes) {
    exists i :: 0 <= i < |rows| && rows[i].kind == KeyData(SignPub) &&
                sha256(Slice(blob, rows[i].offset, rows[i].length)) == fp
  }

  /** The payload says that the packet is signed exactly if a signature is stored
      for it, and names a stored key. */
  predicate SignedAsStated(sha256: Hash, a: Artifacts, f: Fields, sig: Option<Bytes>) {
    var flag := if sig.Some? then 1 else 0;
    && f.tpm == flag && f.attClass == flag && f.sigAlg == flag
    && if sig.Some? then HasSignKey(sha256, a.evidenceRows, a.evidenceBlob, f.keyFp) else f.keyFp == Zeros(32)
  }

  /** Frame i continues the stream, its digest is the hash of the stored bytes,
      its identifiers point at the stored evidence, and its link is the hash of
      what the shard stores for it. */
  predicate FrameVerifies(blake3: Hash, sha256: Hash, session: Bytes, a: Artifacts, frames: seq<Frame>, i: nat)
    requires i < |frames|
  {
    && frames[i].frameId == i && |frames[i].payload| >= 108
    && var f := ParsePayload(frames[i].payload);
    && var canonical := CanonicalOf(a.packetRows, a.packetBlob, i);
    && var sig := SignatureOf(a.evidenceRows, a.evidenceBlob, i);
    && f.seqNo == i && canonical.Some?
    && f.sha256 == sha256(canonical.value)
    && SignedAsStated(sha256, a, f, sig)
    && f.blake3 == blake3(LinkInput(i, session, canonical.value, sig, LinkBeforeFrame(frames, i)))
  }

  ghost predicate AllVerify(blake3: Hash, sha256: Hash, session: Bytes, a: Artifacts, frames: seq<Frame>) {
    forall i :: 0 <= i < |frames| ==> FrameVerifies(blake3, sha256, session, a, frames, i)
  }

  ghost predicate Verifies(blake3: Hash, sha256: Hash, session: Bytes, a: Artifacts) {
    var frames := Parse(a.latents);
    frames.Some? && AllVerify(blake3, sha256, session, a, frames.value)
  }

  method VerifyFrames(blake3: Hash, sha256: Hash, session: Bytes, a: Artifacts, frames: seq<Frame>) returns (ok: bool)
    ensures ok <==> AllVerify(blake3, sha256, session, a, frames)
  {
    for i := 0 to |frames|
      invariant forall k :: 0 <= k < i ==> FrameVerifies(blake3, sha256, session, a, frames, k)
    {
      var good := FrameVerifies(blake3, sha256, session, a, frames, i);
      if !good {
        return false;
      }
    }
    return true;
  }

  /** The reader: uses the artifacts and the session id, nothing else. */
  method Verify(blake3: Hash, sha256: Hash, session: Bytes, a: Artifacts) returns (ok: bool)
    ensures ok <==> Verifies(blake3, sha256, session, a)
  {
    var frames := ParseRecords(a.latents);
    ok := false;
    if frames.Some? {
      ok := VerifyFrames(blake3, sha256, session, a, frames.value);
    }
  }

  // ----- Compiling a session -----

  ghost predicate IsShardOf(sha256: Hash, a: Artifacts, packets: seq<PacketRecord>, quotes: seq<QuoteRecord>,
                            keys: seq<Key>)
  {
    var fp := FirstFingerprint(sha256, keys, SignPub);
    && AllPackable(packets, fp) && a.latents == Stream(packets, fp)
    && Locates(a.locators, packets)
    && IndexesPackets(sha256, a.packetRows, a.packetBlob, Kept(packets))
    && IndexesEvidence(sha256, a.evidenceRows, a.evidenceBlob, AllEvidence(sha256, packets, quotes, keys))
  }

  /** The streams@1 rows: locator f points at record f. */
  ghost predicate Locates(locators: seq<Locator>, packets: seq<PacketRecord>) {
    |locators| == |packets| && forall f :: 0 <= f < |packets| ==> locators[f] == LocatorOf(packets[f], f)
  }

  /** The artifact part of compile_session; None is an exception. */
  method Compile(sha256: Hash, packets: seq<PacketRecord>, quotes: seq<QuoteRecord>, keys: seq<Key>)
    returns (a: Option<Artifacts>)
    ensures a.Some? ==> IsShardOf(sha256, a.value, packets, quotes, keys)
    ensures a.None? <==>
      !AllPackable(packets, FirstFingerprint(sha256, keys, SignPub)) || !Intact(sha256, packets)
  {
    var fp := SignKeyFingerprint(sha256, keys);
    var latents := BuildAxlfStream(packets, fp);
    if latents.None? {
      return None;
    }
    var locators := BuildStreamsRows(packets);
    var built := BuildPackets(sha256, packets);
    if built.None? {
      return None;
    }
    var evidenceRows, evidenceBlob := BuildTpmAttestation(sha256, packets, quotes, keys);
    return Some(Artifacts(locators, latents.value, built.value.0, built.value.1, evidenceRows, evidenceBlob));
  }

  // ----- Lookups find what was indexed -----

  lemma {:induction false} KeptAll(packets: seq<PacketRecord>)
    requires forall k :: 0 <= k < |packets| ==> packets[k].raw.Some?
    ensures Kept(packets) == packets
  {
    if packets != [] {
      KeptAll(packets[..|packets| - 1]);
    }
  }

  lemma {:induction false} CanonicalAt(rows: seq<PacketIndex>, blob: Bytes, k: nat)
    requires k < |rows| && forall i :: 0 <= i < |rows| ==> rows[i].seqNo == i
    ensures CanonicalOf(rows, blob, k) == Some(Slice(blob, rows[k].offset, rows[k].length))
  {
    if k < |rows| - 1 {
      CanonicalAt(rows[..|rows| - 1], blob, k);
    }
  }

  lemma {:induction false} CanonicalFound(sha256: Hash, rows: seq<PacketIndex>, blob: Bytes,
                                          packets: seq<PacketRecord>, k: nat)
    requires InOrder(packets) && IndexesPackets(sha256, rows, blob, Kept(packets)) && k < |packets|
    ensures CanonicalOf(rows, blob, k) == packets[k].raw
  {
    KeptAll(packets);
    RowsInOrder(sha256, rows, blob, packets);
    CanonicalAt(rows, blob, k);
    PacketRowsTile(sha256, rows, blob, packets, k);
    SliceInside(blob, rows[k].offset, rows[k].length);
  }

  lemma {:induction false} SliceInside(blob: Bytes, offset: nat, length: nat)
    requires offset + length <= |blob|
    ensures Slice(blob, offset, length) == blob[offset..offset + length]
  {
  }

  lemma {:induction false} RowsInOrder(sha256: Hash, rows: seq<PacketIndex>, blob: Bytes, packets: seq<PacketRecord>)
    requires InOrder(packets) && IndexesPackets(sha256, rows, blob, packets)
    ensures |rows| == |packets| && forall i :: 0 <= i < |rows| ==> rows[i].seqNo == i
  {
  }

  /** The last packet signature for a seq among pieces of evidence. */
  function SigIn(e: seq<Evidence>, seqNo: nat): Option<Bytes> {
    if e == [] then None else
      var x := e[|e| - 1];
      if x.kind == PacketSig && x.seqNo == seqNo then Some(x.data) else SigIn(e[..|e| - 1], seqNo)
  }

  lemma {:induction false} SignatureStep(rows: seq<EvidenceIndex>, blob: Bytes, n: nat, seqNo: nat)
    requires 0 < n <= |rows|
    ensures var r := rows[n - 1];
      SignatureOf(rows[..n], blob, seqNo) ==
      if r.kind == PacketSig && r.seqNo == seqNo then Some(Slice(blob, r.offset, r.length))
      else SignatureOf(rows[..n - 1], blob, seqNo)
  {
    assert rows[..n][..n - 1] == rows[..n - 1];
  }

  lemma {:induction false} SigInStep(e: seq<Evidence>, n: nat, seqNo: nat)
    requires 0 < n <= |e|
    ensures var x := e[n - 1];
      SigIn(e[..n], seqNo) == if x.kind == PacketSig && x.seqNo == seqNo then Some(x.data) else SigIn(e[..n - 1], seqNo)
  {
    assert e[..n][..n - 1] == e[..n - 1];
  }

  lemma {:induction false} SignatureIsSigIn(sha256: Hash, rows: seq<EvidenceIndex>, blob: Bytes,
                                            e: seq<Evidence>, n: nat, seqNo: nat)
    requires IndexesEvidence(sha256, rows, blob, e) && n <= |e|
    ensures SignatureOf(rows[..n], blob, seqNo) == SigIn(e[..n], seqNo)
  {
    if n > 0 {
      SignatureIsSigIn(sha256, rows, blob, e, n - 1, seqNo);
      SignatureStep(rows, blob, n, seqNo);
      SigInStep(e, n, seqNo);
      RowSlice(sha256, rows, blob, e, n - 1);
    }
  }

  lemma {:induction false} RowSlice(sha256: Hash, rows: seq<EvidenceIndex>, blob: Bytes, e: seq<Evidence>, i: nat)
    requires IndexesEvidence(sha256, rows, blob, e) && i < |e|
    ensures i < |rows| && rows[i].kind == e[i].kind && rows[i].seqNo == e[i].seqNo
    ensures Slice(blob, rows[i].offset, rows[i].length) == e[i].data
  {
    EvidenceRowsTile(sha256, rows, blob, e, i);
    SliceInside(blob, rows[i].offset, rows[i].length);
  }

  lemma {:induction false} SigInOthers(a: seq<Evidence>, b: seq<Evidence>, seqNo: nat)
    requires forall i :: 0 <= i < |b| ==> b[i].kind != PacketSig
    ensures SigIn(a + b, seqNo) == SigIn(a, seqNo)
  {
    if b == [] {
      assert a + b == a;
    } else {
      assert (a + b)[..|a + b| - 1] == a + b[..|b| - 1];
      SigInOthers(a, b[..|b| - 1], seqNo);
    }
  }

  lemma {:induction false} QuotesAreNoSigs(fp: Option<Digest>, quotes: seq<QuoteRecord>)
    ensures forall i :: 0 <= i < |QuotesEvidence(fp, quotes)| ==> QuotesEvidence(fp, quotes)[i].kind != PacketSig
  {
    if quotes != [] {
      QuotesAreNoSigs(fp, quotes[..|quotes| - 1]);
    }
  }

  lemma {:induction false} KeysAreNoSigs(sha256: Hash, keys: seq<Key>)
    ensures forall i :: 0 <= i < |KeysEvidence(sha256, keys)| ==> KeysEvidence(sha256, keys)[i].kind != PacketSig
  {
    if keys != [] {
      KeysAreNoSigs(sha256, keys[..|keys| - 1]);
    }
  }

  lemma {:induction false} SigInAppend(e: seq<Evidence>, x: Evidence, k: nat)
    ensures SigIn(e + [x], k) == if x.kind == PacketSig && x.seqNo == k then Some(x.data) else SigIn(e, k)
  {
    assert (e + [x])[..|e|] == e;
  }

  lemma {:induction false} SigAt(fp: Option<Digest>, packets: seq<PacketRecord>, k: nat)
    requires forall i :: 0 <= i < |packets| ==> packets[i].seqNo == i
    ensures SigIn(SigEvidence(fp, packets), k)
         == if k < |packets| && Truthy(packets[k].tpmSig) then packets[k].tpmSig else None
    decreases |packets|
  {
    if packets != [] {
      var n := |packets| - 1;
      SigAt(fp, packets[..n], k);
      SigStep(fp, packets, n);
      assert packets[..n + 1] == packets;
      SigInAppend(SigEvidence(fp, packets[..n]), SigOf(fp, packets[n]), k);
    }
  }

  lemma {:induction false} SignatureFound(sha256: Hash, a: Artifacts, packets: seq<PacketRecord>,
                                          quotes: seq<QuoteRecord>, keys: seq<Key>, k: nat)
    requires InOrder(packets) && IsShardOf(sha256, a, packets, quotes, keys) && k < |packets|
    ensures SignatureOf(a.evidenceRows, a.evidenceBlob, k)
         == if Truthy(packets[k].tpmSig) then packets[k].tpmSig else None
  {
    var e := AllEvidence(sha256, packets, quotes, keys);
    SignatureIsSigIn(sha256, a.evidenceRows, a.evidenceBlob, e, |e|, k);
    assert a.evidenceRows[..|e|] == a.evidenceRows && e[..|e|] == e;
    SigInAll(sha256, packets, quotes, keys, k);
  }

  lemma {:induction false} SigInAll(sha256: Hash, packets: seq<PacketRecord>, quotes: seq<QuoteRecord>,
                                    keys: seq<Key>, k: nat)
    requires InOrder(packets) && k < |packets|
    ensures SigIn(AllEvidence(sha256, packets, quotes, keys), k)
         == if Truthy(packets[k].tpmSig) then packets[k].tpmSig else None
  {
    var signFp, akFp := LastFingerprint(sha256, keys, SignPub), LastFingerprint(sha256, keys, AkPub);
    var sigs, parts, data := SigEvidence(signFp, packets), QuotesEvidence(akFp, quotes), KeysEvidence(sha256, keys);
    KeysAreNoSigs(sha256, keys);
    QuotesAreNoSigs(akFp, quotes);
    SigInOthers(sigs + parts, data, k);
    SigInOthers(sigs, parts, k);
    SigAt(signFp, packets, k);
  }

  // ----- End to end -----

  /** Any signed record comes with a sign_pub key. */
  ghost predicate KeyAtHand(packets: seq<PacketRecord>, keys: seq<Key>) {
    (exists k :: 0 <= k < |packets| && Truthy(packets[k].tpmSig)) ==>
    exists j :: 0 <= j < |keys| && keys[j].role == SignPub
  }

  lemma {:induction false} FirstFingerprintOf(sha256: Hash, keys: seq<Key>, role: Role) returns (j: nat)
    requires exists k :: 0 <= k < |keys| && keys[k].role == role
    ensures IsFirst(keys, role, j) && FirstFingerprint(sha256, keys, role) == Some(sha256(keys[j].data))
  {
    if keys[0].role == role {
      j := 0;
    } else {
      var k :| 0 <= k < |keys| && keys[k].role == role;
      assert keys[1..][k - 1].role == role;
      j := FirstFingerprintOf(sha256, keys[1..], role);
      j := j + 1;
    }
  }

  lemma {:induction false} KeyRowAt(sha256: Hash, rows: seq<EvidenceIndex>, blob: Bytes, e: seq<Evidence>,
                                    n: nat, data: Bytes)
    requires IndexesEvidence(sha256, rows, blob, e)
    requires n < |e| && e[n].kind == KeyData(SignPub) && e[n].data == data
    ensures HasSignKey(sha256, rows, blob, sha256(data))
  {
    RowSlice(sha256, rows, blob, e, n);
  }

  lemma {:induction false} KeyPlace(sha256: Hash, packets: seq<PacketRecord>, quotes: seq<QuoteRecord>,
                                    keys: seq<Key>, j: nat) returns (n: nat)
    requires j < |keys|
    ensures var e := AllEvidence(sha256, packets, quotes, keys);
      n < |e| && e[n].kind == KeyData(keys[j].role) && e[n].data == keys[j].data
  {
    n := SignedCount(packets) + 3 * |quotes| + j;
    KeyPlaces(sha256, packets, quotes, keys, j);
  }

  lemma {:induction false} KeyRowFound(sha256: Hash, rows: seq<EvidenceIndex>, blob: Bytes, packets: seq<PacketRecord>,
                                       quotes: seq<QuoteRecord>, keys: seq<Key>, j: nat)
    requires IndexesEvidence(sha256, rows, blob, AllEvidence(sha256, packets, quotes, keys))
    requires j < |keys| && keys[j].role == SignPub
    ensures HasSignKey(sha256, rows, blob, sha256(keys[j].data))
  {
    var n := KeyPlace(sha256, packets, quotes, keys, j);
    KeyRowAt(sha256, rows, blob, AllEvidence(sha256, packets, quotes, keys), n, keys[j].data);
  }

  lemma {:induction false} RecordSignedAsStated(sha256: Hash, a: Artifacts, packets: seq<PacketRecord>,
                                                quotes: seq<QuoteRecord>,
                                                keys: seq<Key>, f: Fields, k: nat)
    requires InOrder(packets) && IsShardOf(sha256, a, packets, quotes, keys)
    requires KeyAtHand(packets, keys) && k < |packets|
    requires Describes(f, packets[k], FirstFingerprint(sha256, keys, SignPub))
    ensures SignedAsStated(sha256, a, f, SignatureOf(a.evidenceRows, a.evidenceBlob, k))
  {
    SignatureFound(sha256, a, packets, quotes, keys, k);
    if Truthy(packets[k].tpmSig) {
      var j := FirstFingerprintOf(sha256, keys, SignPub);
      KeyRowFound(sha256, a.evidenceRows, a.evidenceBlob, packets, quotes, keys, j);
    }
  }

  lemma {:induction false} FrameOfRecord(blake3: Hash, sha256: Hash, session: Bytes, a: Artifacts, frames: seq<Frame>,
                      packets: seq<PacketRecord>, quotes: seq<QuoteRecord>, keys: seq<Key>, k: nat)
    requires InOrder(packets) && IsShardOf(sha256, a, packets, quotes, keys) && KeyAtHand(packets, keys)
    requires k < |packets| && |frames| == |packets|
    requires RecordLinked(blake3, sha256, session, packets, k)
    requires k > 0 ==> RecordLinked(blake3, sha256, session, packets, k - 1)
    requires forall i :: 0 <= i < |packets| ==>
      && frames[i].frameId == packets[i].seqNo && |frames[i].payload| == LATENT_DIM
      && Describes(ParsePayload(frames[i].payload), packets[i], FirstFingerprint(sha256, keys, SignPub))
    ensures FrameVerifies(blake3, sha256, session, a, frames, k)
  {
    CanonicalFound(sha256, a.packetRows, a.packetBlob, packets, k);
    SignatureFound(sha256, a, packets, quotes, keys, k);
    RecordSignedAsStated(sha256, a, packets, quotes, keys, ParsePayload(frames[k].payload), k);
    assert LinkBeforeFrame(frames, k) == RecordLinkBefore(packets, k);
    SameBytesSameLink(k, session, packets[k].raw.value, SignatureOf(a.evidenceRows, a.evidenceBlob, k),
                      packets[k].tpmSig, RecordLinkBefore(packets, k));
  }

  /** If every record is linked to the one before it and the signing key is at
      hand, the compiled artifacts verify. */
  lemma {:induction false} LinkedRecordsVerify(blake3: Hash, sha256: Hash, session: Bytes, a: Artifacts,
                            packets: seq<PacketRecord>, quotes: seq<QuoteRecord>, keys: seq<Key>)
    requires IsShardOf(sha256, a, packets, quotes, keys) && KeyAtHand(packets, keys)
    requires forall k :: 0 <= k < |packets| ==> RecordLinked(blake3, sha256, session, packets, k)
    ensures Verifies(blake3, sha256, session, a)
  {
    StreamRoundTrip(packets, FirstFingerprint(sha256, keys, SignPub));
    assert InOrder(packets) by {
      forall k | 0 <= k < |packets| ensures packets[k].seqNo == k && packets[k].raw.Some? {
        assert RecordLinked(blake3, sha256, session, packets, k);
      }
    }
    var frames := Parse(a.latents).value;
    forall k | 0 <= k < |packets| ensures FrameVerifies(blake3, sha256, session, a, frames, k) {
      FrameOfRecord(blake3, sha256, session, a, frames, packets, quotes, keys, k);
    }
  }

  /** Any stored session compiles without error, whatever became of its signatures
      and whichever keys are loaded, exactly if it has at most 2^32 rows. */
  lemma {:induction false} EverySessionPacks(env: Node.Env, s: Node.Sys, session: Bytes, packets: seq<PacketRecord>,
                                             loader: Loader, keys: seq<Key>)
    requires Node.Reachable(env, s) && Loads(packets, s.db, session, loader)
    ensures AllPackable(packets, FirstFingerprint(env.cfg.sha256, keys, SignPub)) <==> |packets| <= FRAME_LIMIT
    ensures Intact(env.cfg.sha256, packets) && InOrder(packets)
  {
    Node.GapFreeLedger(env, s, session);
    LoadedInOrder(env, s, session, packets, loader);
    var fp, n := FirstFingerprint(env.cfg.sha256, keys, SignPub), |packets|;
    if n <= FRAME_LIMIT {
      forall k | 0 <= k < n ensures Packable(packets[k], fp) {
        assert packets[k].seqNo == k;
      }
    } else {
      assert packets[n - 1].seqNo == n - 1;
      assert !Packable(packets[n - 1], fp);
    }
  }

  /** In the shard of such a session frame ids are 0..n-1, and locator f points at
      frame f, at 4 + 269 f. */
  lemma {:induction false} FramesAreDense(env: Node.Env, s: Node.Sys, session: Bytes, packets: seq<PacketRecord>,
                                          loader: Loader, quotes: seq<QuoteRecord>, keys: seq<Key>, a: Artifacts)
    requires Node.Reachable(env, s) && Loads(packets, s.db, session, loader)
    ensures var frames := Parse(a.latents);
      IsShardOf(env.cfg.sha256, a, packets, quotes, keys) ==>
      && frames.Some? && |frames.value| == |a.locators| == |packets|
      && forall f :: 0 <= f < |packets| ==>
           && frames.value[f].frameId == a.locators[f].frameId == f
           && a.locators[f].offset == 4 + 269 * f
  {
    EverySessionPacks(env, s, session, packets, loader, keys);
    if IsShardOf(env.cfg.sha256, a, packets, quotes, keys) {
      StreamRoundTrip(packets, FirstFingerprint(env.cfg.sha256, keys, SignPub));
    }
  }

  /** End to end: for every run of the node, any stored session of at most 2^32
      rows compiles without error, its frames are dense, and if its signatures were
      kept and its signing key is at hand, a reader holding only the artifacts and
      the session id recomputes every digest and every link. */
  lemma {:induction false} EndToEnd(env: Node.Env, s: Node.Sys, session: Bytes, packets: seq<PacketRecord>,
                 loader: Loader, quotes: seq<QuoteRecord>, keys: seq<Key>, a: Artifacts)
    requires Node.Reachable(env, s)
    requires Loads(packets, s.db, session, loader) && |packets| <= FRAME_LIMIT
    ensures AllPackable(packets, FirstFingerprint(env.cfg.sha256, keys, SignPub))
    ensures Intact(env.cfg.sha256, packets)
    ensures IsShardOf(env.cfg.sha256, a, packets, quotes, keys) ==>
      && |a.locators| == |packets|
      && (forall f :: 0 <= f < |packets| ==> a.locators[f].frameId == f && a.locators[f].offset == 4 + 269 * f)
      && (AllKept(s, session, packets) && KeyAtHand(packets, keys) ==>
            Verifies(env.cfg.blake3, env.cfg.sha256, session, a))
  {
    EverySessionPacks(env, s, session, packets, loader, keys);
    if IsShardOf(env.cfg.sha256, a, packets, quotes, keys) {
      FramesAreDense(env, s, session, packets, loader, quotes, keys, a);
      if AllKept(s, session, packets) && KeyAtHand(packets, keys) {
        KeptIsLinked(env, s, session, packets, loader);
        LinkedRecordsVerify(env.cfg.blake3, env.cfg.sha256, session, a, packets, quotes, keys);
      }
    }
  }

  ghost predicate AllKept(s: Node.Sys, session: Bytes, packets: seq<PacketRecord>) {
    forall k :: 0 <= k < |packets| ==> SignatureKept(s, session, packets, k)
  }

  lemma {:induction false} KeptIsLinked(env: Node.Env, s: Node.Sys, session: Bytes, packets: seq<PacketRecord>,
                                        loader: Loader)
    requires Node.Reachable(env, s) && Loads(packets, s.db, session, loader) && AllKept(s, session, packets)
    ensures forall k :: 0 <= k < |packets| ==> RecordLinked(env.cfg.blake3, env.cfg.sha256, session, packets, k)
  {
    Node.GapFreeLedger(env, s, session);
    forall k | 0 <= k < |packets|
      ensures RecordLinked(env.cfg.blake3, env.cfg.sha256, session, packets, k)
    {
      LoadedIsLinked(env, s, session, packets, loader, k);
    }
  }

  // ----- Both conditions are needed -----

  /** If a record is loaded without the signature that its link was made with, the
      session still compiles, and the shard does not verify, unless the link inputs
      with the one and the other collide. */
  lemma {:induction false} LostSignatureBreaksShard(env: Node.Env, s: Node.Sys, session: Bytes,
                                                    packets: seq<PacketRecord>, loader: Loader,
                                                    quotes: seq<QuoteRecord>, keys: seq<Key>, a: Artifacts, k: nat)
    requires Node.Reachable(env, s) && Loads(packets, s.db, session, loader)
    requires k < |packets| && !SignatureKept(s, session, packets, k)
    ensures AllPackable(packets, FirstFingerprint(env.cfg.sha256, keys, SignPub)) <==> |packets| <= FRAME_LIMIT
    ensures Intact(env.cfg.sha256, packets)
    ensures IsShardOf(env.cfg.sha256, a, packets, quotes, keys) ==>
      || !Verifies(env.cfg.blake3, env.cfg.sha256, session, a)
      || LinkCollision(env.cfg.blake3, s, session, packets, k)
  {
    EverySessionPacks(env, s, session, packets, loader, keys);
    Node.GapFreeLedger(env, s, session);
    if IsShardOf(env.cfg.sha256, a, packets, quotes, keys) && Verifies(env.cfg.blake3, env.cfg.sha256, session, a) {
      LoadedInOrder(env, s, session, packets, loader);
      VerifiedLink(env.cfg.blake3, env.cfg.sha256, session, a, packets, quotes, keys, k);
      LostRowCollides(env, s, session, packets, loader, Ids(s.db.packets, session), k);
    }
  }

  lemma {:induction false} LostRowCollides(env: Node.Env, s: Node.Sys, session: Bytes, packets: seq<PacketRecord>,
                                           loader: Loader, ids: seq<nat>, k: nat)
    requires |s.sigs| == |s.db.packets| && ids == Ids(s.db.packets, session)
    requires Linked(env.cfg.blake3, env.cfg.sha256, s.db.packets, s.sigs, session)
    requires LoadsRows(packets, s.db, ids, loader) && k < |ids| && !SignatureKept(s, session, packets, k)
    requires packets[k].raw.Some? && packets[k].blake3 == Some(env.cfg.blake3(
      LinkInput(k, session, packets[k].raw.value, packets[k].tpmSig, RecordLinkBefore(packets, k))))
    ensures LinkCollision(env.cfg.blake3, s, session, packets, k)
  {
    var p, sig := s.db.Row(ids[k]), s.sigs[ids[k] - 1];
    assert RowLinked(env.cfg.blake3, env.cfg.sha256, s.db.packets, s.sigs, session, ids, k);
    LoadedPrev(env, s, session, packets, loader, ids, k);
    assert packets[k] == RecordOf(s.db, ids[k], loader);
    LostLinkCollides(env.cfg.blake3, k, session, p, sig, packets[k].tpmSig);
  }

  /** In a shard that verifies, a record has the link of its own loaded bytes. */
  lemma {:induction false} VerifiedLink(blake3: Hash, sha256: Hash, session: Bytes, a: Artifacts,
                                        packets: seq<PacketRecord>, quotes: seq<QuoteRecord>, keys: seq<Key>, k: nat)
    requires InOrder(packets) && IsShardOf(sha256, a, packets, quotes, keys) && k < |packets|
    requires forall i :: 0 <= i < |packets| ==> packets[i].blake3.Some? && |packets[i].blake3.value| == 32
    requires Verifies(blake3, sha256, session, a)
    ensures packets[k].blake3
      == Some(blake3(LinkInput(k, session, packets[k].raw.value, packets[k].tpmSig, RecordLinkBefore(packets, k))))
  {
    StreamRoundTrip(packets, FirstFingerprint(sha256, keys, SignPub));
    var frames := Parse(a.latents).value;
    assert FrameVerifies(blake3, sha256, session, a, frames, k);
    CanonicalFound(sha256, a.packetRows, a.packetBlob, packets, k);
    SignatureFound(sha256, a, packets, quotes, keys, k);
    assert LinkBeforeFrame(frames, k) == RecordLinkBefore(packets, k);
    SameBytesSameLink(k, session, packets[k].raw.value, SignatureOf(a.evidenceRows, a.evidenceBlob, k),
                      packets[k].tpmSig, RecordLinkBefore(packets, k));
  }

  /** If a record is signed and no sign_pub key is loaded, the session still
      compiles, and the shard does not verify. */
  lemma {:induction false} MissingKeyBreaksShard(env: Node.Env, s: Node.Sys, session: Bytes, packets: seq<PacketRecord>,
                                                 loader: Loader, quotes: seq<QuoteRecord>, keys: seq<Key>, a: Artifacts)
    requires Node.Reachable(env, s) && Loads(packets, s.db, session, loader) && !KeyAtHand(packets, keys)
    ensures AllPackable(packets, FirstFingerprint(env.cfg.sha256, keys, SignPub)) <==> |packets| <= FRAME_LIMIT
    ensures Intact(env.cfg.sha256, packets)
    ensures IsShardOf(env.cfg.sha256, a, packets, quotes, keys) ==>
      !Verifies(env.cfg.blake3, env.cfg.sha256, session, a)
  {
    EverySessionPacks(env, s, session, packets, loader, keys);
    if IsShardOf(env.cfg.sha256, a, packets, quotes, keys) {
      var k :| 0 <= k < |packets| && Truthy(packets[k].tpmSig);
      UnkeyedFrame(env.cfg.blake3, env.cfg.sha256, session, a, packets, quotes, keys, k);
    }
  }

  lemma {:induction false} UnkeyedFrame(blake3: Hash, sha256: Hash, session: Bytes, a: Artifacts,
                                        packets: seq<PacketRecord>,
                                        quotes: seq<QuoteRecord>, keys: seq<Key>, k: nat)
    requires InOrder(packets) && IsShardOf(sha256, a, packets, quotes, keys)
    requires k < |packets| && Truthy(packets[k].tpmSig)
    requires forall j :: 0 <= j < |keys| ==> keys[j].role != SignPub
    ensures !Verifies(blake3, sha256, session, a)
  {
    SignatureFound(sha256, a, packets, quotes, keys, k);
    StreamRoundTrip(packets, FirstFingerprint(sha256, keys, SignPub));
    if Verifies(blake3, sha256, session, a) {
      var frames := Parse(a.latents).value;
      assert FrameVerifies(blake3, sha256, session, a, frames, k);
      NoKeyRow(sha256, a, packets, quotes, keys, ParsePayload(frames[k].payload).keyFp);
    }
  }

  lemma {:induction false} NoKeyRow(sha256: Hash, a: Artifacts, packets: seq<PacketRecord>,
                                    quotes: seq<QuoteRecord>, keys: seq<Key>, fp: Bytes)
    requires IsShardOf(sha256, a, packets, quotes, keys)
    requires forall j :: 0 <= j < |keys| ==> keys[j].role != SignPub
    ensures !HasSignKey(sha256, a.evidenceRows, a.evidenceBlob, fp)
  {
    forall i | 0 <= i < |a.evidenceRows| ensures a.evidenceRows[i].kind != KeyData(SignPub) {
      NoKeyEvidence(sha256, packets, quotes, keys, i);
    }
  }

  lemma {:induction false} SigsAreNoKeys(fp: Option<Digest>, packets: seq<PacketRecord>)
    ensures forall i :: 0 <= i < |SigEvidence(fp, packets)| ==> SigEvidence(fp, packets)[i].kind == PacketSig
  {
    if packets != [] {
      SigsAreNoKeys(fp, packets[..|packets| - 1]);
    }
  }

  lemma {:induction false} QuotesAreNoKeys(fp: Option<Digest>, quotes: seq<QuoteRecord>)
    ensures forall i :: 0 <= i < |QuotesEvidence(fp, quotes)| ==> QuotesEvidence(fp, quotes)[i].kind == QuotePart
  {
    if quotes != [] {
      QuotesAreNoKeys(fp, quotes[..|quotes| - 1]);
    }
  }

  lemma {:induction false} NoKeyEvidence(sha256: Hash, packets: seq<PacketRecord>, quotes: seq<QuoteRecord>,
                                         keys: seq<Key>, i: nat)
    requires i < |AllEvidence(sha256, packets, quotes, keys)|
    requires forall j :: 0 <= j < |keys| ==> keys[j].role != SignPub
    ensures AllEvidence(sha256, packets, quotes, keys)[i].kind != KeyData(SignPub)
  {
    var signFp, akFp := LastFingerprint(sha256, keys, SignPub), LastFingerprint(sha256, keys, AkPub);
    SigsAreNoKeys(signFp, packets);
    QuotesAreNoKeys(akFp, quotes);
    var n := |SigEvidence(signFp, packets)| + |QuotesEvidence(akFp, quotes)|;
    if i >= n {
      KeyAt(sha256, keys, i - n);
    }
  }

  // ----- What a shard that verifies says -----

  /** Row n is the last one for the seq. */
  ghost predicate LastFor(rows: seq<PacketIndex>, seqNo: nat, n: nat) {
    n < |rows| && rows[n].seqNo == seqNo && forall m :: n < m < |rows| ==> rows[m].seqNo != seqNo
  }

  lemma {:induction false} CanonicalLocated(rows: seq<PacketIndex>, blob: Bytes, seqNo: nat) returns (n: nat)
    requires CanonicalOf(rows, blob, seqNo).Some?
    ensures LastFor(rows, seqNo, n)
    ensures CanonicalOf(rows, blob, seqNo) == Some(Slice(blob, rows[n].offset, rows[n].length))
  {
    n := |rows| - 1;
    if rows[n].seqNo != seqNo {
      n := CanonicalLocated(rows[..n], blob, seqNo);
    }
  }

  ghost predicate HasSignature(rows: seq<EvidenceIndex>, seqNo: nat) {
    exists m :: 0 <= m < |rows| && rows[m].kind == PacketSig && rows[m].seqNo == seqNo
  }

  lemma {:induction false} SignatureLocated(rows: seq<EvidenceIndex>, blob: Bytes, seqNo: nat)
    ensures SignatureOf(rows, blob, seqNo).Some? <==> HasSignature(rows, seqNo)
  {
    if rows != [] {
      var n := |rows| - 1;
      SignatureLocated(rows[..n], blob, seqNo);
      if HasSignature(rows, seqNo) && !(rows[n].kind == PacketSig && rows[n].seqNo == seqNo) {
        var m :| 0 <= m < |rows| && rows[m].kind == PacketSig && rows[m].seqNo == seqNo;
        assert rows[..n][m].kind == PacketSig;
      }
    }
  }

  /** A Python slice cuts at the end of the blob. */
  lemma {:induction false} SliceIs(blob: Bytes, offset: nat, length: nat)
    ensures var x := Slice(blob, offset, length);
      && |x| == (if offset >= |blob| then 0 else if offset + length > |blob| then |blob| - offset else length)
      && forall i :: 0 <= i < |x| ==> x[i] == blob[offset + i]
  {
  }

  /** Frame i of a shard that verifies: its frame id and seq are i, its digest is
      that of the stored bytes the index locates for i, its flags say whether a
      signature is stored, and its fingerprint is that of a stored signing key if
      so and zeros if not. */
  lemma {:induction false} VerifiedFrame(blake3: Hash, sha256: Hash, session: Bytes, a: Artifacts,
                                         i: nat) returns (n: nat)
    requires Verifies(blake3, sha256, session, a) && i < |Parse(a.latents).value|
    ensures var frame := Parse(a.latents).value[i];
      && frame.frameId == i && |frame.payload| >= 108
      && var f := ParsePayload(frame.payload);
      && f.seqNo == i
      && LastFor(a.packetRows, i, n)
      && f.sha256 == sha256(Slice(a.packetBlob, a.packetRows[n].offset, a.packetRows[n].length))
      && f.tpm == f.attClass == f.sigAlg == (if HasSignature(a.evidenceRows, i) then 1 else 0)
      && if f.tpm == 0 then f.keyFp == Zeros(32)
         else exists m :: 0 <= m < |a.evidenceRows| && a.evidenceRows[m].kind == KeyData(SignPub) &&
                f.keyFp == sha256(Slice(a.evidenceBlob, a.evidenceRows[m].offset, a.evidenceRows[m].length))
  {
    var frames := Parse(a.latents).value;
    assert FrameVerifies(blake3, sha256, session, a, frames, i);
    SignatureLocated(a.evidenceRows, a.evidenceBlob, i);
    n := CanonicalLocated(a.packetRows, a.packetBlob, i);
  }

  ghost predicate SameStore(a: Artifacts, a': Artifacts) {
    && a.packetRows == a'.packetRows && a.packetBlob == a'.packetBlob
    && a.evidenceRows == a'.evidenceRows && a.evidenceBlob == a'.evidenceBlob
  }

  /** Everything a frame says but its verdict and which of several keys signed. */
  ghost predicate SameFrame(x: Frame, y: Frame) {
    && x.frameId == y.frameId && |x.payload| >= 108 && |y.payload| >= 108
    && var f, g := ParsePayload(x.payload), ParsePayload(y.payload);
    && f.blake3 == g.blake3 && f.sha256 == g.sha256 && f.seqNo == g.seqNo
    && f.tpm == g.tpm && f.attClass == g.attClass && f.sigAlg == g.sigAlg
  }

  /** The stored bytes and evidence determine the stream: two shards over the same
      store that verify under one session with equally many frames say the same in
      every frame. */
  lemma {:induction false} VerifiedFramesAgree(blake3: Hash, sha256: Hash, session: Bytes, a: Artifacts,
                                               a': Artifacts, i: nat)
    requires Verifies(blake3, sha256, session, a) && Verifies(blake3, sha256, session, a') && SameStore(a, a')
    requires i < |Parse(a.latents).value| == |Parse(a'.latents).value|
    ensures SameFrame(Parse(a.latents).value[i], Parse(a'.latents).value[i])
  {
    var frames, frames' := Parse(a.latents).value, Parse(a'.latents).value;
    var n := VerifiedFrame(blake3, sha256, session, a, i);
    var n' := VerifiedFrame(blake3, sha256, session, a', i);
    assert n == n';
    SameLinks(blake3, sha256, session, a, a', frames, frames', i);
  }

  lemma {:induction false} SameLinks(blake3: Hash, sha256: Hash, session: Bytes, a: Artifacts, a': Artifacts,
                                     frames: seq<Frame>, frames': seq<Frame>, i: nat)
    requires AllVerify(blake3, sha256, session, a, frames) && AllVerify(blake3, sha256, session, a', frames')
    requires SameStore(a, a') && i < |frames| == |frames'|
    ensures LinkOf(frames, i) == LinkOf(frames', i)
  {
    VerifiedIsChain(blake3, sha256, session, a, frames, i);
    VerifiedIsChain(blake3, sha256, session, a', frames', i);
    assert ShardBodies(session, a, |frames|) == ShardBodies(session, a', |frames'|);
  }

  /** A frame and its locator show this row, whose decision reads v. */
  ghost predicate ShowsRow(x: Fields, l: Locator, p: HotBuffer.Packet, v: Option<bool>) {
    && x.blake3 == l.contentHash == p.link && x.sha256 == p.sha && x.seqNo == p.seqNo
    && x.verdict == (if v == Some(true) then 0 else if v == Some(false) then 1 else 0xFF)
    && l.status == (if v == Some(true) then Pass else if v == Some(false) then Fail else Unverified)
  }

  lemma {:induction false} RecordShown(x: Fields, r: PacketRecord, fp: Option<Bytes>, f: nat, p: HotBuffer.Packet)
    requires Describes(x, r, fp)
    requires r.blake3 == Some(p.link) && r.sha256 == Some(p.sha) && r.seqNo == p.seqNo
    ensures ShowsRow(x, LocatorOf(r, f), p, r.verdict)
  {
  }

  /** A signed frame is stamped with the fingerprint of the first sign_pub key. */
  lemma {:induction false} StampIsFirstKey(sha256: Hash, a: Artifacts, packets: seq<PacketRecord>,
                                           quotes: seq<QuoteRecord>, keys: seq<Key>, k: nat, j: nat)
    requires IsShardOf(sha256, a, packets, quotes, keys) && k < |packets|
    requires packets[k].tpmSig.Some? && |packets[k].tpmSig.value| > 0 && IsFirst(keys, SignPub, j)
    ensures var frames := Parse(a.latents);
      && frames.Some? && k < |frames.value| && |frames.value[k].payload| == 256
      && ParsePayload(frames.value[k].payload).keyFp == sha256(keys[j].data)
  {
    FirstIs(sha256, keys, SignPub, j);
    StreamRoundTrip(packets, FirstFingerprint(sha256, keys, SignPub));
  }

  lemma {:induction false} SignedNone(packets: seq<PacketRecord>)
    requires forall k :: 0 <= k < |packets| ==> packets[k].tpmSig == None
    ensures SignedCount(packets) == 0
  {
    if packets != [] {
      SignedNone(packets[..|packets| - 1]);
    }
  }

  /** A session recorded without a TPM has no evidence to index, whatever the
      loader: no tpm-attestation@1 row. */
  lemma {:induction false} NoTpmNoRows(env: Node.Env, s: Node.Sys, session: Bytes, packets: seq<PacketRecord>,
                                       loader: Loader)
    requires Node.Reachable(env, s) && !env.cfg.hasTpm && Loads(packets, s.db, session, loader)
    ensures s.db.quotes == [] && AllEvidence(env.cfg.sha256, packets, [], []) == []
  {
    Attestation.NoTpmNoEvidence(env, s);
    forall k | 0 <= k < |packets| ensures packets[k].tpmSig == None {
      LoadedFields(packets, s.db, session, loader, k);
    }
    SignedNone(packets);
    EvidenceCount(env.cfg.sha256, packets, [], []);
  }

  /** In the shard of a stored session, whatever became of its signatures, frame f
      shows the link, digest, seq and verdict of row f, and locator f its status. */
  lemma {:induction false} FramesShowRows(env: Node.Env, s: Node.Sys, session: Bytes, packets: seq<PacketRecord>,
                                          loader: Loader, quotes: seq<QuoteRecord>, keys: seq<Key>, a: Artifacts,
                                          f: nat)
    requires Node.Reachable(env, s) && Loads(packets, s.db, session, loader) && f < |packets|
    ensures s.db.HasRow(Ids(s.db.packets, session)[f])
    ensures IsShardOf(env.cfg.sha256, a, packets, quotes, keys) ==>
      var p := s.db.Row(Ids(s.db.packets, session)[f]); var frames := Parse(a.latents);
      && frames.Some? && |frames.value| == |a.locators| == |packets| && |frames.value[f].payload| == 256
      && ShowsRow(ParsePayload(frames.value[f].payload), a.locators[f], p, loader.verdictOf(p.canonical))
  {
    LoadedFields(packets, s.db, session, loader, f);
    if IsShardOf(env.cfg.sha256, a, packets, quotes, keys) {
      var fp := FirstFingerprint(env.cfg.sha256, keys, SignPub);
      StreamRoundTrip(packets, fp);
      RecordShown(ParsePayload(Parse(a.latents).value[f].payload), packets[f], fp, f,
                  s.db.Row(Ids(s.db.packets, session)[f]));
    }
  }

  // ----- Tamper evidence of verified shards -----

  ghost function ShardBody(session: Bytes, a: Artifacts, k: nat): Bytes {
    Body(session, OrEmpty(CanonicalOf(a.packetRows, a.packetBlob, k)), SignatureOf(a.evidenceRows, a.evidenceBlob, k))
  }

  ghost function ShardBodies(session: Bytes, a: Artifacts, n: nat): seq<Bytes> {
    seq(n, k requires 0 <= k < n => ShardBody(session, a, k))
  }

  lemma {:induction false} VerifiedIsChain(blake3: Hash, sha256: Hash, session: Bytes, a: Artifacts,
                                           frames: seq<Frame>, k: nat)
    requires k < |frames| && AllVerify(blake3, sha256, session, a, frames)
    ensures LinkOf(frames, k) == Link(blake3, ShardBodies(session, a, |frames|), k)
    decreases k
  {
    assert FrameVerifies(blake3, sha256, session, a, frames, k);
    if k > 0 {
      VerifiedIsChain(blake3, sha256, session, a, frames, k - 1);
    }
    LinkInputIsChainInput(blake3, ShardBodies(session, a, |frames|), k, session,
                          CanonicalOf(a.packetRows, a.packetBlob, k).value,
                          SignatureOf(a.evidenceRows, a.evidenceBlob, k), LinkBeforeFrame(frames, k));
  }

  lemma {:induction false} LastLink(blake3: Hash, sha256: Hash, session: Bytes, a: Artifacts,
                                    frames: seq<Frame>, bodies: seq<Bytes>)
    requires frames != [] && AllVerify(blake3, sha256, session, a, frames)
    requires bodies == ShardBodies(session, a, |frames|)
    ensures |bodies| == |frames| && LinkOf(frames, |frames| - 1) == Link(blake3, bodies, |bodies| - 1)
  {
    VerifiedIsChain(blake3, sha256, session, a, frames, |frames| - 1);
  }

  /** Two shards that verify and end in the same link have the same number of
      packets and the same concatenation of session, canonical and signature bytes
      for each, or two of the inputs hashed for their links collide. */
  lemma {:induction false} VerifiedShardsBind(blake3: Hash, sha256: Hash, session: Bytes, a: Artifacts,
                                              session': Bytes, a': Artifacts)
    returns (i: nat, j: nat)
    requires Verifies(blake3, sha256, session, a) && Verifies(blake3, sha256, session', a')
    requires var f, f' := Parse(a.latents).value, Parse(a'.latents).value;
      && 0 < |f| <= Pow256(8) && 0 < |f'| <= Pow256(8)
      && LinkOf(f, |f| - 1) == LinkOf(f', |f'| - 1)
    ensures var f, f' := Parse(a.latents).value, Parse(a'.latents).value;
      SameOrCollide(blake3, ShardBodies(session, a, |f|), ShardBodies(session', a', |f'|), i, j)
  {
    var f, f' := Parse(a.latents).value, Parse(a'.latents).value;
    var b, b' := ShardBodies(session, a, |f|), ShardBodies(session', a', |f'|);
    LastLink(blake3, sha256, session, a, f, b);
    LastLink(blake3, sha256, session', a', f', b');
    i, j := ChainBinding(blake3, b, b');
  }

  /** The parts of packet k agree as well if the session ids have one length and
      the stored bytes of the packet do. */
  lemma {:induction false} VerifiedPartsBind(session: Bytes, a: Artifacts, session': Bytes, a': Artifacts,
                                             n: nat, k: nat)
    requires ShardBodies(session, a, n) == ShardBodies(session', a', n) && k < n && |session| == |session'|
    requires var c, c' := CanonicalOf(a.packetRows, a.packetBlob, k), CanonicalOf(a'.packetRows, a'.packetBlob, k);
      c.Some? && c'.Some? && |c.value| == |c'.value|
    ensures session == session'
    ensures CanonicalOf(a.packetRows, a.packetBlob, k) == CanonicalOf(a'.packetRows, a'.packetBlob, k)
    ensures OrEmpty(SignatureOf(a.evidenceRows, a.evidenceBlob, k))
         == OrEmpty(SignatureOf(a'.evidenceRows, a'.evidenceBlob, k))
  {
    var c, c' := CanonicalOf(a.packetRows, a.packetBlob, k), CanonicalOf(a'.packetRows, a'.packetBlob, k);
    assert ShardBodies(session, a, n)[k] == ShardBodies(session', a', n)[k];
    PartsOfBody(session, c.value, SignatureOf(a.evidenceRows, a.evidenceBlob, k),
                session', c'.value, SignatureOf(a'.evidenceRows, a'.evidenceBlob, k));
    assert c.value == c'.value;
  }
}
