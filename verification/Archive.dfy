/** The packets@1 and tpm-attestation@1 artifacts: an index of rows over one
    concatenated blob (python/src/axm_sfn/streams.py and attestation.py). */
module Archive {
  import opened ByteStrings
  import opened Streams

  // ----- Blobs and slices -----

  function Concat(items: seq<Bytes>): Bytes {
    if items == [] then [] else Concat(items[..|items| - 1]) + items[|items| - 1]
  }

  /** Where item i starts in the blob. */
  function Start(items: seq<Bytes>, i: nat): nat
    requires i <= |items|
  {
    |Concat(items[..i])|
  }

  lemma {:induction false} ConcatAppend(items: seq<Bytes>, x: Bytes)
    ensures Concat(items + [x]) == Concat(items) + x
  {
    assert (items + [x])[..|items|] == items;
  }

  /** Slice i of the blob is item i, slices follow each other and the last one
      ends the blob. */
  lemma {:induction false} SliceIsItem(items: seq<Bytes>, i: nat)
    requires i < |items|
    ensures Start(items, i) + |items[i]| == Start(items, i + 1) <= |Concat(items)|
    ensures Concat(items)[Start(items, i)..Start(items, i) + |items[i]|] == items[i]
    ensures i + 1 == |items| ==> Start(items, i + 1) == |Concat(items)|
    decreases |items|
  {
    var n := |items| - 1;
    assert items[..i + 1][..i] == items[..i];
    if i == n {
      assert items[..i + 1] == items;
    } else {
      assert items[..n][..i] == items[..i] && items[..n][..i + 1] == items[..i + 1];
      SliceIsItem(items[..n], i);
    }
  }

  // ----- packets@1 -----

  datatype PacketIndex = PacketIndex(seqNo: nat, offset: nat, length: nat, sha256: Digest)

  /** The packets whose canonical bytes are stored. */
  function Kept(packets: seq<PacketRecord>): (kept: seq<PacketRecord>)
    ensures forall i :: 0 <= i < |kept| ==> kept[i].raw.Some?
  {
    if packets == [] then [] else
      var p := packets[|packets| - 1];
      Kept(packets[..|packets| - 1]) + if p.raw.Some? then [p] else []
  }

  lemma {:induction false} KeptStep(packets: seq<PacketRecord>, i: nat)
    requires i < |packets|
    ensures Kept(packets[..i + 1]) ==
      if packets[i].raw.Some? then Kept(packets[..i]) + [packets[i]] else Kept(packets[..i])
  {
    assert packets[..i + 1][..i] == packets[..i];
  }

  /** Kept picks the packets with stored bytes, in order. */
  lemma {:induction false} KeptIndexes(packets: seq<PacketRecord>) returns (picked: seq<nat>)
    ensures |picked| == |Kept(packets)|
    ensures forall m :: 0 <= m < |picked| ==> picked[m] < |packets| && Kept(packets)[m] == packets[picked[m]]
    ensures forall l, m :: 0 <= l < m < |picked| ==> picked[l] < picked[m]
    ensures forall i: nat :: i in picked <==> i < |packets| && packets[i].raw.Some?
  {
    if packets == [] {
      picked := [];
    } else {
      var n := |packets| - 1;
      picked := KeptIndexes(packets[..n]);
      if packets[n].raw.Some? {
        picked := picked + [n];
      }
    }
  }

  function Raws(kept: seq<PacketRecord>): seq<Bytes> {
    seq(|kept|, i requires 0 <= i < |kept| => OrEmpty(kept[i].raw))
  }

  /** Stored bytes that do not hash to the recorded digest. */
  predicate Corrupt(sha256: Hash, p: PacketRecord) {
    p.raw.Some? && Truthy(p.sha256) && sha256(p.raw.value) != p.sha256.value
  }

  ghost predicate Intact(sha256: Hash, packets: seq<PacketRecord>) {
    forall i :: 0 <= i < |packets| ==> !Corrupt(sha256, packets[i])
  }

  lemma {:induction false} IntactStep(sha256: Hash, packets: seq<PacketRecord>, i: nat)
    requires i < |packets| && Intact(sha256, packets[..i])
    ensures Intact(sha256, packets[..i + 1]) <==> !Corrupt(sha256, packets[i])
    ensures Intact(sha256, packets) ==> !Corrupt(sha256, packets[i])
  {
    assert packets[..i + 1][i] == packets[i];
  }

  /** A packet is refused for stored bytes that do not hash to a recorded digest. */
  lemma {:induction false} IntactIff(sha256: Hash, packets: seq<PacketRecord>)
    ensures Intact(sha256, packets) <==>
      forall i :: 0 <= i < |packets| && packets[i].raw.Some? && packets[i].sha256.Some? && |packets[i].sha256.value| > 0
        ==> sha256(packets[i].raw.value) == packets[i].sha256.value
  {
    forall i | 0 <= i < |packets|
      ensures Corrupt(sha256, packets[i]) <==>
        && packets[i].raw.Some? && packets[i].sha256.Some? && |packets[i].sha256.value| > 0
        && sha256(packets[i].raw.value) != packets[i].sha256.value
    {
    }
  }

  ghost predicate IndexesPackets(sha256: Hash, rows: seq<PacketIndex>, blob: Bytes, kept: seq<PacketRecord>) {
    var raws := Raws(kept);
    && |rows| == |kept| && blob == Concat(raws)
    && forall i :: 0 <= i < |rows| ==>
         rows[i] == PacketIndex(kept[i].seqNo, Start(raws, i), |raws[i]|, sha256(raws[i]))
  }

  function IndexRow(sha256: Hash, p: PacketRecord, offset: nat): PacketIndex
    requires p.raw.Some?
  {
    PacketIndex(p.seqNo, offset, |p.raw.value|, sha256(p.raw.value))
  }

  lemma {:induction false} IndexMore(sha256: Hash, rows: seq<PacketIndex>, blob: Bytes,
                                     kept: seq<PacketRecord>, p: PacketRecord)
    requires IndexesPackets(sha256, rows, blob, kept) && p.raw.Some?
    ensures IndexesPackets(sha256, rows + [IndexRow(sha256, p, |blob|)], blob + p.raw.value, kept + [p])
  {
    var raws, raws' := Raws(kept), Raws(kept + [p]);
    assert raws' == raws + [p.raw.value];
    ConcatAppend(raws, p.raw.value);
    assert forall i :: 0 <= i <= |raws| ==> raws'[..i] == raws[..i];
    assert raws[..|raws|] == raws;
  }

  method AppendPacket(sha256: Hash, rows: seq<PacketIndex>, blob: Bytes, p: PacketRecord, ghost kept: seq<PacketRecord>)
    returns (rows': seq<PacketIndex>, blob': Bytes)
    requires IndexesPackets(sha256, rows, blob, kept) && p.raw.Some?
    ensures IndexesPackets(sha256, rows', blob', kept + [p])
  {
    IndexMore(sha256, rows, blob, kept, p);
    rows', blob' := rows + [IndexRow(sha256, p, |blob|)], blob + p.raw.value;
  }

  /** Every row carries the digest recorded for its packet, if there is one. */
  ghost predicate RecordedDigests(rows: seq<PacketIndex>, kept: seq<PacketRecord>) {
    && |rows| == |kept|
    && forall m :: 0 <= m < |kept| && kept[m].sha256.Some? && |kept[m].sha256.value| > 0 ==>
         rows[m].sha256 == kept[m].sha256.value
  }

  lemma {:induction false} DigestsAsRecorded(sha256: Hash, rows: seq<PacketIndex>, blob: Bytes,
                                             packets: seq<PacketRecord>)
    requires Intact(sha256, packets) && IndexesPackets(sha256, rows, blob, Kept(packets))
    ensures RecordedDigests(rows, Kept(packets))
  {
    var kept := Kept(packets);
    var picked := KeptIndexes(packets);
    IntactIff(sha256, packets);
    forall m | 0 <= m < |kept| && kept[m].sha256.Some? && |kept[m].sha256.value| > 0
      ensures rows[m].sha256 == kept[m].sha256.value
    {
      assert kept[m] == packets[picked[m]];
    }
  }

  /** The index and blob of packets@1; None is the refusal of a corrupt buffer. */
  method BuildPackets(sha256: Hash, packets: seq<PacketRecord>)
    returns (built: Option<(seq<PacketIndex>, Bytes)>)
    ensures built.Some? <==> Intact(sha256, packets)
    ensures built.Some? ==> IndexesPackets(sha256, built.value.0, built.value.1, Kept(packets))
    ensures built.Some? ==> RecordedDigests(built.value.0, Kept(packets))
  {
    var rows: seq<PacketIndex>, blob: Bytes := [], [];
    for i := 0 to |packets|
      invariant Intact(sha256, packets[..i])
      invariant IndexesPackets(sha256, rows, blob, Kept(packets[..i]))
    {
      var p := packets[i];
      KeptStep(packets, i);
      IntactStep(sha256, packets, i);
      if p.raw.None? {
        continue;
      }
      if Truthy(p.sha256) && sha256(p.raw.value) != p.sha256.value {
        return None;
      }
      rows, blob := AppendPacket(sha256, rows, blob, p, Kept(packets[..i]));
    }
    assert packets[..|packets|] == packets;
    DigestsAsRecorded(sha256, rows, blob, packets);
    return Some((rows, blob));
  }

  /** Each row of packets@1 slices out exactly its packet's stored bytes, whose
      digest it carries; rows follow each other from 0 to the end of the blob. */
  lemma {:induction false} PacketRowsTile(sha256: Hash, rows: seq<PacketIndex>, blob: Bytes,
                                          kept: seq<PacketRecord>, i: nat)
    requires IndexesPackets(sha256, rows, blob, kept) && i < |rows|
    ensures var r := rows[i]; var raw := OrEmpty(kept[i].raw);
      && r.offset + r.length <= |blob|
      && blob[r.offset..r.offset + r.length] == raw && r.sha256 == sha256(raw)
      && (i == 0 ==> r.offset == 0)
      && (i + 1 < |rows| ==> rows[i + 1].offset == r.offset + r.length)
      && (i + 1 == |rows| ==> r.offset + r.length == |blob|)
  {
    SliceIsItem(Raws(kept), i);
  }

  // ----- tpm-attestation@1 -----

  datatype QuoteRecord = QuoteRecord(seqNo: nat, pcrs: string, nonce: Bytes, attest: Bytes, sig: Bytes)
  datatype Role = SignPub | AkPub | EkCert | OtherRole(name: string)
  datatype Key = Key(role: Role, alg: string, data: Bytes)

  datatype Kind = PacketSig | QuotePart | KeyData(role: Role)
  datatype Field = Signature | Attest | Nonce | Public | Certificate

  /** One stored blob of evidence, before it is given a place. */
  datatype Evidence = Evidence(kind: Kind, seqNo: nat, field: Field, alg: string,
                               keyFp: Option<Digest>, data: Bytes, pcrs: string)

  datatype EvidenceIndex = EvidenceIndex(kind: Kind, seqNo: nat, field: Field, alg: string,
                                         keyFp: Option<Digest>, offset: nat, length: nat,
                                         sha256: Digest, pcrs: string)

  const ALG_TPMT_SIG_RSAPSS := "tpm2:rsapss-2048-sha256:tpmt-signature"

  function RoleAlg(role: Role): string {
    match role
    case SignPub => "tpm2:tpm2b-public"
    case AkPub => "tpm2:tpm2b-public"
    case EkCert => "x509:der"
    case OtherRole(_) => ""
  }

  /** The fingerprint of a role in a Python dict built over keys: the last key wins. */
  function LastFingerprint(sha256: Hash, keys: seq<Key>, role: Role): Option<Digest> {
    if keys == [] then None
    else if keys[|keys| - 1].role == role then Some(sha256(keys[|keys| - 1].data))
    else LastFingerprint(sha256, keys[..|keys| - 1], role)
  }

  /** The fingerprint stamped into stream payloads: the first sign_pub key wins. */
  method SignKeyFingerprint(sha256: Hash, keys: seq<Key>) returns (fp: Option<Digest>)
    ensures fp == FirstFingerprint(sha256, keys, SignPub)
  {
    for i := 0 to |keys|
      invariant FirstFingerprint(sha256, keys, SignPub) == FirstFingerprint(sha256, keys[i..], SignPub)
    {
      if keys[i].role == SignPub {
        return Some(sha256(keys[i].data));
      }
      assert keys[i..][1..] == keys[i + 1..];
    }
    return None;
  }

  function FirstFingerprint(sha256: Hash, keys: seq<Key>, role: Role): Option<Digest> {
    if keys == [] then None
    else if keys[0].role == role then Some(sha256(keys[0].data))
    else FirstFingerprint(sha256, keys[1..], role)
  }

  ghost predicate IsFirst(keys: seq<Key>, role: Role, i: nat) {
    i < |keys| && keys[i].role == role && forall k :: 0 <= k < i ==> keys[k].role != role
  }

  ghost predicate IsLast(keys: seq<Key>, role: Role, i: nat) {
    i < |keys| && keys[i].role == role && forall k :: i < k < |keys| ==> keys[k].role != role
  }

  lemma {:induction false} FirstIs(sha256: Hash, keys: seq<Key>, role: Role, i: nat)
    requires IsFirst(keys, role, i)
    ensures FirstFingerprint(sha256, keys, role) == Some(sha256(keys[i].data))
    decreases |keys|
  {
    if i > 0 {
      FirstIs(sha256, keys[1..], role, i - 1);
    }
  }

  lemma {:induction false} LastIs(sha256: Hash, keys: seq<Key>, role: Role, i: nat)
    requires IsLast(keys, role, i)
    ensures LastFingerprint(sha256, keys, role) == Some(sha256(keys[i].data))
    decreases |keys|
  {
    if i + 1 < |keys| {
      LastIs(sha256, keys[..|keys| - 1], role, i);
    }
  }

  /** UNIQUE (role, data) of the attestation keys table. */
  ghost predicate DistinctKeys(keys: seq<Key>) {
    forall i, j :: 0 <= i < j < |keys| ==> keys[i].role != keys[j].role || keys[i].data != keys[j].data
  }

  /** The payload stamp names the key of the packet_sig rows exactly when there is
      only one sign_pub key, or the first and the last collide. */
  lemma {:induction false} StampMatchesRowsIff(sha256: Hash, keys: seq<Key>, first: nat, last: nat)
    requires DistinctKeys(keys)
    requires IsFirst(keys, SignPub, first) && IsLast(keys, SignPub, last)
    ensures FirstFingerprint(sha256, keys, SignPub) == LastFingerprint(sha256, keys, SignPub)
       <==> first == last || Collides(sha256, keys[first].data, keys[last].data)
  {
    FirstIs(sha256, keys, SignPub, first);
    LastIs(sha256, keys, SignPub, last);
    assert FirstFingerprint(sha256, keys, SignPub).value == sha256(keys[first].data);
    assert LastFingerprint(sha256, keys, SignPub).value == sha256(keys[last].data);
  }

  // The evidence of a session, in the order it is put.

  function SigOf(fp: Option<Digest>, p: PacketRecord): Evidence {
    Evidence(PacketSig, p.seqNo, Signature, ALG_TPMT_SIG_RSAPSS, fp, OrEmpty(p.tpmSig), "")
  }

  function SigEvidence(fp: Option<Digest>, packets: seq<PacketRecord>): seq<Evidence> {
    if packets == [] then [] else
      var p := packets[|packets| - 1];
      SigEvidence(fp, packets[..|packets| - 1]) +
      if Truthy(p.tpmSig) then [SigOf(fp, p)] else []
  }

  lemma {:induction false} SigStep(fp: Option<Digest>, packets: seq<PacketRecord>, i: nat)
    requires i < |packets|
    ensures SigEvidence(fp, packets[..i + 1]) ==
      if Truthy(packets[i].tpmSig) then SigEvidence(fp, packets[..i]) + [SigOf(fp, packets[i])]
      else SigEvidence(fp, packets[..i])
  {
    assert packets[..i + 1][..i] == packets[..i];
  }

  function QuoteEvidence(fp: Option<Digest>, q: QuoteRecord): seq<Evidence> {
    [Evidence(QuotePart, q.seqNo, Signature, ALG_TPMT_SIG_RSAPSS, fp, q.sig, ""),
     Evidence(QuotePart, q.seqNo, Attest, ALG_TPMT_SIG_RSAPSS, fp, q.attest, q.pcrs),
     Evidence(QuotePart, q.seqNo, Nonce, ALG_TPMT_SIG_RSAPSS, fp, q.nonce, "")]
  }

  function QuotesEvidence(fp: Option<Digest>, quotes: seq<QuoteRecord>): (e: seq<Evidence>)
    ensures |e| == 3 * |quotes|
  {
    if quotes == [] then [] else
      QuotesEvidence(fp, quotes[..|quotes| - 1]) + QuoteEvidence(fp, quotes[|quotes| - 1])
  }

  function KeyEvidence(sha256: Hash, k: Key): Evidence {
    Evidence(KeyData(k.role), 0, if k.role == EkCert then Certificate else Public,
             if k.alg != "" then k.alg else RoleAlg(k.role), Some(sha256(k.data)), k.data, "")
  }

  function KeysEvidence(sha256: Hash, keys: seq<Key>): (e: seq<Evidence>)
    ensures |e| == |keys|
  {
    if keys == [] then [] else
      KeysEvidence(sha256, keys[..|keys| - 1]) + [KeyEvidence(sha256, keys[|keys| - 1])]
  }

  function AllEvidence(sha256: Hash, packets: seq<PacketRecord>, quotes: seq<QuoteRecord>,
                       keys: seq<Key>): seq<Evidence>
  {
    SigEvidence(LastFingerprint(sha256, keys, SignPub), packets)
    + QuotesEvidence(LastFingerprint(sha256, keys, AkPub), quotes)
    + KeysEvidence(sha256, keys)
  }

  function Datas(e: seq<Evidence>): seq<Bytes> {
    seq(|e|, i requires 0 <= i < |e| => e[i].data)
  }

  function Placed(sha256: Hash, e: Evidence, offset: nat): EvidenceIndex {
    EvidenceIndex(e.kind, e.seqNo, e.field, e.alg, e.keyFp, offset, |e.data|, sha256(e.data), e.pcrs)
  }

  ghost predicate IndexesEvidence(sha256: Hash, rows: seq<EvidenceIndex>, blob: Bytes, e: seq<Evidence>) {
    && |rows| == |e| && blob == Concat(Datas(e))
    && forall i :: 0 <= i < |rows| ==> rows[i] == Placed(sha256, e[i], Start(Datas(e), i))
  }

  lemma {:induction false} PutMore(sha256: Hash, rows: seq<EvidenceIndex>, blob: Bytes, e: seq<Evidence>, x: Evidence)
    requires IndexesEvidence(sha256, rows, blob, e)
    ensures IndexesEvidence(sha256, rows + [Placed(sha256, x, |blob|)], blob + x.data, e + [x])
  {
    var datas, datas' := Datas(e), Datas(e + [x]);
    assert datas' == datas + [x.data];
    ConcatAppend(datas, x.data);
    assert forall i :: 0 <= i <= |datas| ==> datas'[..i] == datas[..i];
    assert datas[..|datas|] == datas;
  }

  /** rows and blob as grown by _put. */
  class EvidenceWriter {
    var rows: seq<EvidenceIndex>
    var blob: Bytes

    constructor ()
      ensures rows == [] && blob == []
    {
      rows, blob := [], [];
    }

    method Put(sha256: Hash, x: Evidence, ghost e: seq<Evidence>)
      requires IndexesEvidence(sha256, rows, blob, e)
      modifies this
      ensures IndexesEvidence(sha256, rows, blob, e + [x])
    {
      PutMore(sha256, rows, blob, e, x);
      rows, blob := rows + [Placed(sha256, x, |blob|)], blob + x.data;
    }
  }

  method PutSignatures(sha256: Hash, w: EvidenceWriter, fp: Option<Digest>, packets: seq<PacketRecord>)
    requires w.rows == [] && w.blob == []
    modifies w
    ensures IndexesEvidence(sha256, w.rows, w.blob, SigEvidence(fp, packets))
  {
    for i := 0 to |packets|
      invariant IndexesEvidence(sha256, w.rows, w.blob, SigEvidence(fp, packets[..i]))
    {
      var p := packets[i];
      SigStep(fp, packets, i);
      if Truthy(p.tpmSig) {
        w.Put(sha256, SigOf(fp, p), SigEvidence(fp, packets[..i]));
      }
    }
    assert packets[..|packets|] == packets;
  }

  lemma {:induction false} QuotesStep(fp: Option<Digest>, quotes: seq<QuoteRecord>, i: nat, e: seq<Evidence>)
    requires i < |quotes|
    ensures e + QuotesEvidence(fp, quotes[..i]) + QuoteEvidence(fp, quotes[i])
         == e + QuotesEvidence(fp, quotes[..i + 1])
  {
    assert quotes[..i + 1][..i] == quotes[..i];
  }

  method PutQuote(sha256: Hash, w: EvidenceWriter, fp: Option<Digest>, q: QuoteRecord, ghost e: seq<Evidence>)
    requires IndexesEvidence(sha256, w.rows, w.blob, e)
    modifies w
    ensures IndexesEvidence(sha256, w.rows, w.blob, e + QuoteEvidence(fp, q))
  {
    var sig := Evidence(QuotePart, q.seqNo, Signature, ALG_TPMT_SIG_RSAPSS, fp, q.sig, "");
    var attest := Evidence(QuotePart, q.seqNo, Attest, ALG_TPMT_SIG_RSAPSS, fp, q.attest, q.pcrs);
    var nonce := Evidence(QuotePart, q.seqNo, Nonce, ALG_TPMT_SIG_RSAPSS, fp, q.nonce, "");
    w.Put(sha256, sig, e);
    w.Put(sha256, attest, e + [sig]);
    w.Put(sha256, nonce, e + [sig] + [attest]);
    assert e + [sig] + [attest] + [nonce] == e + QuoteEvidence(fp, q);
  }

  method PutQuotes(sha256: Hash, w: EvidenceWriter, fp: Option<Digest>, quotes: seq<QuoteRecord>,
                   ghost e: seq<Evidence>)
    requires IndexesEvidence(sha256, w.rows, w.blob, e)
    modifies w
    ensures IndexesEvidence(sha256, w.rows, w.blob, e + QuotesEvidence(fp, quotes))
  {
    assert e + QuotesEvidence(fp, quotes[..0]) == e;
    for i := 0 to |quotes|
      invariant IndexesEvidence(sha256, w.rows, w.blob, e + QuotesEvidence(fp, quotes[..i]))
    {
      PutQuote(sha256, w, fp, quotes[i], e + QuotesEvidence(fp, quotes[..i]));
      QuotesStep(fp, quotes, i, e);
    }
    assert quotes[..|quotes|] == quotes;
  }

  method PutKeys(sha256: Hash, w: EvidenceWriter, keys: seq<Key>, ghost e: seq<Evidence>)
    requires IndexesEvidence(sha256, w.rows, w.blob, e)
    modifies w
    ensures IndexesEvidence(sha256, w.rows, w.blob, e + KeysEvidence(sha256, keys))
  {
    assert e + KeysEvidence(sha256, keys[..0]) == e;
    for i := 0 to |keys|
      invariant IndexesEvidence(sha256, w.rows, w.blob, e + KeysEvidence(sha256, keys[..i]))
    {
      ghost var before := KeysEvidence(sha256, keys[..i]);
      w.Put(sha256, KeyEvidence(sha256, keys[i]), e + before);
      assert keys[..i + 1][..i] == keys[..i];
      assert e + before + [KeyEvidence(sha256, keys[i])] == e + (before + [KeyEvidence(sha256, keys[i])]);
    }
    assert keys[..|keys|] == keys;
  }

  method BuildTpmAttestation(sha256: Hash, packets: seq<PacketRecord>, quotes: seq<QuoteRecord>, keys: seq<Key>)
    returns (rows: seq<EvidenceIndex>, blob: Bytes)
    ensures IndexesEvidence(sha256, rows, blob, AllEvidence(sha256, packets, quotes, keys))
  {
    var signFp, akFp := LastFingerprint(sha256, keys, SignPub), LastFingerprint(sha256, keys, AkPub);
    var w := new EvidenceWriter();
    PutSignatures(sha256, w, signFp, packets);
    ghost var sigs := SigEvidence(signFp, packets);
    PutQuotes(sha256, w, akFp, quotes, sigs);
    PutKeys(sha256, w, keys, sigs + QuotesEvidence(akFp, quotes));
    rows, blob := w.rows, w.blob;
  }

  function SignedCount(packets: seq<PacketRecord>): nat {
    if packets == [] then 0 else
      SignedCount(packets[..|packets| - 1]) + if Truthy(packets[|packets| - 1].tpmSig) then 1 else 0
  }

  lemma {:induction false} SigEvidenceCount(fp: Option<Digest>, packets: seq<PacketRecord>)
    ensures |SigEvidence(fp, packets)| == SignedCount(packets)
  {
    if packets != [] {
      SigEvidenceCount(fp, packets[..|packets| - 1]);
    }
  }

  /** Signed packets + 3 * quotes + keys. */
  lemma {:induction false} EvidenceCount(sha256: Hash, packets: seq<PacketRecord>, quotes: seq<QuoteRecord>,
                                         keys: seq<Key>)
    ensures |AllEvidence(sha256, packets, quotes, keys)| == SignedCount(packets) + 3 * |quotes| + |keys|
  {
    SigEvidenceCount(LastFingerprint(sha256, keys, SignPub), packets);
  }

  lemma {:induction false} NoLast(sha256: Hash, keys: seq<Key>, role: Role)
    requires forall j :: 0 <= j < |keys| ==> keys[j].role != role
    ensures LastFingerprint(sha256, keys, role) == None
  {
    if keys != [] {
      NoLast(sha256, keys[..|keys| - 1], role);
    }
  }

  /** fp is the fingerprint of the last key of the role, or None. */
  ghost predicate IsFingerprint(sha256: Hash, keys: seq<Key>, role: Role, fp: Option<Digest>) {
    || (fp == None && forall j :: 0 <= j < |keys| ==> keys[j].role != role)
    || exists j: nat :: IsLast(keys, role, j) && fp == Some(sha256(keys[j].data))
  }

  lemma {:induction false} LastFingerprintIs(sha256: Hash, keys: seq<Key>, role: Role)
    ensures IsFingerprint(sha256, keys, role, LastFingerprint(sha256, keys, role))
  {
    if j: nat :| IsLast(keys, role, j) {
      LastIs(sha256, keys, role, j);
    } else {
      NoneIsLast(keys, role, |keys|);
      NoLast(sha256, keys, role);
    }
  }

  lemma {:induction false} NoneIsLast(keys: seq<Key>, role: Role, n: nat)
    requires n <= |keys| && forall j: nat :: !IsLast(keys, role, j)
    ensures forall j :: |keys| - n <= j < |keys| ==> keys[j].role != role
  {
    if n > 0 {
      NoneIsLast(keys, role, n - 1);
      assert !IsLast(keys, role, |keys| - n);
    }
  }

  lemma {:induction false} SigPlace(fp: Option<Digest>, packets: seq<PacketRecord>, k: nat)
    requires k < |packets| && Truthy(packets[k].tpmSig)
    ensures SignedCount(packets[..k]) < |SigEvidence(fp, packets)|
    ensures SigEvidence(fp, packets)[SignedCount(packets[..k])] == SigOf(fp, packets[k])
    decreases |packets|
  {
    var n := |packets| - 1;
    if k < n {
      assert packets[..n][..k] == packets[..k];
      SigPlace(fp, packets[..n], k);
    } else {
      SigEvidenceCount(fp, packets[..n]);
    }
  }

  /** Where the signature of packet k is, if it has one: after those of the packets
      before it, under the fingerprint of the last sign_pub key. */
  lemma {:induction false} SigPlaces(sha256: Hash, packets: seq<PacketRecord>, quotes: seq<QuoteRecord>,
                                     keys: seq<Key>, k: nat)
    requires k < |packets| && packets[k].tpmSig.Some? && |packets[k].tpmSig.value| > 0
    ensures var e := AllEvidence(sha256, packets, quotes, keys); var n := SignedCount(packets[..k]);
      && n < |e| && e[n].kind == PacketSig && e[n].seqNo == packets[k].seqNo
      && e[n].field == Signature && e[n].alg == "tpm2:rsapss-2048-sha256:tpmt-signature"
      && e[n].data == packets[k].tpmSig.value && e[n].pcrs == ""
      && IsFingerprint(sha256, keys, SignPub, e[n].keyFp)
  {
    SigPlace(LastFingerprint(sha256, keys, SignPub), packets, k);
    LastFingerprintIs(sha256, keys, SignPub);
  }

  lemma {:induction false} QuotePartsAt(fp: Option<Digest>, quotes: seq<QuoteRecord>, j: nat)
    requires j < |quotes|
    ensures QuotesEvidence(fp, quotes)[3 * j..3 * j + 3] == QuoteEvidence(fp, quotes[j])
    decreases |quotes|
  {
    var n := |quotes| - 1;
    var before, last := QuotesEvidence(fp, quotes[..n]), QuoteEvidence(fp, quotes[n]);
    if j < n {
      QuotePartsAt(fp, quotes[..n], j);
      assert (before + last)[3 * j..3 * j + 3] == before[3 * j..3 * j + 3];
    } else {
      assert (before + last)[3 * j..3 * j + 3] == last;
    }
  }

  lemma {:induction false} KeyAt(sha256: Hash, keys: seq<Key>, j: nat)
    requires j < |keys|
    ensures KeysEvidence(sha256, keys)[j] == KeyEvidence(sha256, keys[j])
    decreases |keys|
  {
    if j < |keys| - 1 {
      KeyAt(sha256, keys[..|keys| - 1], j);
    }
  }

  /** A piece of evidence of the quote, under the key kept for quotes. */
  ghost predicate IsQuotePiece(sha256: Hash, keys: seq<Key>, x: Evidence, q: QuoteRecord, field: Field,
                               data: Bytes, pcrs: string)
  {
    && x.kind == QuotePart && x.seqNo == q.seqNo && x.alg == "tpm2:rsapss-2048-sha256:tpmt-signature"
    && IsFingerprint(sha256, keys, AkPub, x.keyFp)
    && x.field == field && x.data == data && x.pcrs == pcrs
  }

  /** Three pieces from n on: the signature, the attest blob with the PCRs, the nonce. */
  ghost predicate HasQuoteAt(sha256: Hash, keys: seq<Key>, e: seq<Evidence>, n: nat, q: QuoteRecord) {
    && n + 3 <= |e|
    && IsQuotePiece(sha256, keys, e[n], q, Signature, q.sig, "")
    && IsQuotePiece(sha256, keys, e[n + 1], q, Attest, q.attest, q.pcrs)
    && IsQuotePiece(sha256, keys, e[n + 2], q, Nonce, q.nonce, "")
  }

  /** Where the evidence of quote j is: after the signatures, three pieces for
      each quote. */
  lemma {:induction false} QuotePlaces(sha256: Hash, packets: seq<PacketRecord>, quotes: seq<QuoteRecord>,
                                       keys: seq<Key>, j: nat)
    requires j < |quotes|
    ensures HasQuoteAt(sha256, keys, AllEvidence(sha256, packets, quotes, keys), SignedCount(packets) + 3 * j,
                       quotes[j])
  {
    var akFp := LastFingerprint(sha256, keys, AkPub);
    QuoteSlice(sha256, packets, quotes, keys, j);
    LastFingerprintIs(sha256, keys, AkPub);
    ThreePieces(sha256, keys, AllEvidence(sha256, packets, quotes, keys), SignedCount(packets) + 3 * j, akFp,
                quotes[j]);
  }

  lemma {:induction false} QuoteSlice(sha256: Hash, packets: seq<PacketRecord>, quotes: seq<QuoteRecord>,
                                      keys: seq<Key>, j: nat)
    requires j < |quotes|
    ensures var e := AllEvidence(sha256, packets, quotes, keys); var n := SignedCount(packets) + 3 * j;
      n + 3 <= |e| && e[n..n + 3] == QuoteEvidence(LastFingerprint(sha256, keys, AkPub), quotes[j])
  {
    EvidenceCount(sha256, packets, quotes, keys);
    var signFp, akFp := LastFingerprint(sha256, keys, SignPub), LastFingerprint(sha256, keys, AkPub);
    SigEvidenceCount(signFp, packets);
    QuotePartsAt(akFp, quotes, j);
    SliceOfMiddle(SigEvidence(signFp, packets), QuotesEvidence(akFp, quotes), KeysEvidence(sha256, keys), 3 * j, 3);
  }

  lemma {:induction false} ThreePieces(sha256: Hash, keys: seq<Key>, e: seq<Evidence>, n: nat,
                                       fp: Option<Digest>, q: QuoteRecord)
    requires n + 3 <= |e| && e[n..n + 3] == QuoteEvidence(fp, q) && IsFingerprint(sha256, keys, AkPub, fp)
    ensures HasQuoteAt(sha256, keys, e, n, q)
  {
    var parts := QuoteEvidence(fp, q);
    assert e[n] == e[n..n + 3][0] == parts[0];
    assert e[n + 1] == e[n..n + 3][1] == parts[1];
    assert e[n + 2] == e[n..n + 3][2] == parts[2];
  }

  /** Where the evidence of key j is: after all quotes, under its own fingerprint,
      as a certificate or a public area, with its algorithm or that of its role. */
  lemma {:induction false} KeyPlaces(sha256: Hash, packets: seq<PacketRecord>, quotes: seq<QuoteRecord>,
                                     keys: seq<Key>, j: nat)
    requires j < |keys|
    ensures var e := AllEvidence(sha256, packets, quotes, keys); var n := SignedCount(packets) + 3 * |quotes| + j;
      && n < |e| && e[n].data == keys[j].data && e[n].kind == KeyData(keys[j].role)
      && e[n].keyFp == Some(sha256(keys[j].data))
      && e[n].field == (if keys[j].role == EkCert then Certificate else Public)
      && e[n].alg == (if keys[j].alg != "" then keys[j].alg
                      else if keys[j].role == EkCert then "x509:der"
                      else if keys[j].role == SignPub || keys[j].role == AkPub then "tpm2:tpm2b-public" else "")
      && e[n].seqNo == 0 && e[n].pcrs == ""
  {
    SigEvidenceCount(LastFingerprint(sha256, keys, SignPub), packets);
    KeyAt(sha256, keys, j);
  }

  lemma {:induction false} SliceOfMiddle(a: seq<Evidence>, b: seq<Evidence>, c: seq<Evidence>, i: nat, n: nat)
    requires i + n <= |b|
    ensures (a + b + c)[|a| + i..|a| + i + n] == b[i..i + n]
  {
  }

  /** Each row of tpm-attestation@1 slices out exactly its evidence, whose digest
      it carries; the slices cover the blob without gap or overlap. */
  lemma {:induction false} EvidenceRowsTile(sha256: Hash, rows: seq<EvidenceIndex>, blob: Bytes,
                                            e: seq<Evidence>, i: nat)
    requires IndexesEvidence(sha256, rows, blob, e) && i < |rows|
    ensures var r := rows[i];
      && r.offset + r.length <= |blob|
      && blob[r.offset..r.offset + r.length] == e[i].data && r.sha256 == sha256(e[i].data)
      && (i == 0 ==> r.offset == 0)
      && (i + 1 < |rows| ==> rows[i + 1].offset == r.offset + r.length)
      && (i + 1 == |rows| ==> r.offset + r.length == |blob|)
  {
    SliceIsItem(Datas(e), i);
  }
}
