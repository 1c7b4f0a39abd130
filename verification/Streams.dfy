/** The AXLF/AXLR stream of python/src/axm_sfn/streams.py and its readers. */
module Streams {
  import opened ByteStrings

  const MAGIC_FILE: Bytes := [0x41, 0x58, 0x4C, 0x46]  // AXLF
  const MAGIC_REC: Bytes := [0x41, 0x58, 0x4C, 0x52]   // AXLR
  const HEADER_LEN: nat := 13
  const LATENT_DIM: nat := 256
  const REC_LEN: nat := 269
  const FRAME_LIMIT: nat := 0x1_0000_0000

  /** One packet as read from the buffer; None is NULL. */
  datatype PacketRecord = PacketRecord(seqNo: nat, blake3: Option<Bytes>, sha256: Option<Bytes>,
                                       tpmSig: Option<Bytes>, verdict: Option<bool>, raw: Option<Bytes>)

  /** Python truth of an optional byte string: neither None nor empty. */
  predicate Truthy(o: Option<Bytes>) {
    o.Some? && o.value != []
  }

  /** struct's 32s: pad with zeros or cut. */
  function Fit32(b: Bytes): Digest {
    if |b| >= 32 then b[..32] else b + Zeros(32 - |b|)
  }

  function HashField(o: Option<Bytes>): Digest {
    if Truthy(o) then Fit32(o.value) else Zeros(32)
  }

  function VerdictByte(v: Option<bool>): byte {
    match v case None => 0xFF case Some(pass) => if pass then 0 else 1
  }

  function SignedByte(p: PacketRecord): byte {
    if Truthy(p.tpmSig) then 1 else 0
  }

  /** The signing key fingerprint is stamped on signed packets only. */
  function FingerprintField(p: PacketRecord, fp: Option<Bytes>): Bytes {
    if Truthy(p.tpmSig) && Truthy(fp) then fp.value else Zeros(32)
  }

  /** Packing raises unless the fingerprint has 32 bytes and seq fits 4 bytes. */
  predicate Packable(p: PacketRecord, fp: Option<Bytes>) {
    |FingerprintField(p, fp)| == 32 && p.seqNo < FRAME_LIMIT
  }

  // ----- Payloads -----

  datatype Fields = Fields(blake3: Digest, sha256: Digest, verdict: byte, tpm: byte, seqNo: nat,
                           attClass: byte, sigAlg: byte, keyFp: Bytes)

  function Layout(b3: Digest, sha: Digest, verdict: byte, tpm: byte, seq8: Bytes,
                  attClass: byte, sigAlg: byte, fp: Bytes, pad: Bytes): Bytes
  {
    b3 + sha + [verdict, tpm] + seq8 + [attClass, sigAlg] + fp + pad
  }

  function Payload(p: PacketRecord, fp: Option<Bytes>): (payload: Bytes)
    requires Packable(p, fp)
    ensures |payload| == LATENT_DIM
  {
    Layout(HashField(p.blake3), HashField(p.sha256), VerdictByte(p.verdict), SignedByte(p),
           LE(p.seqNo, 8), SignedByte(p), SignedByte(p), FingerprintField(p, fp), Zeros(148))
  }

  function ParsePayload(b: Bytes): Fields
    requires |b| >= 108
  {
    Fields(b[0..32], b[32..64], b[64], b[65], FromLE(b[66..74]), b[74], b[75], b[76..108])
  }

  lemma {:induction false} LayoutSlices(b3: Digest, sha: Digest, verdict: byte, tpm: byte, seq8: Bytes,
                     attClass: byte, sigAlg: byte, fp: Bytes, pad: Bytes)
    requires |seq8| == 8 && |fp| == 32
    ensures var b := Layout(b3, sha, verdict, tpm, seq8, attClass, sigAlg, fp, pad);
      && |b| == 108 + |pad|
      && b[0..32] == b3 && b[32..64] == sha && b[64] == verdict && b[65] == tpm
      && b[66..74] == seq8 && b[74] == attClass && b[75] == sigAlg && b[76..108] == fp
      && b[108..] == pad
  {
  }

  /** A stored hash as a reader sees it: zeros if absent, itself if 32 bytes, else
      cut to 32 bytes or filled up with zeros. */
  ghost predicate ShowsHash(d: Digest, o: Option<Bytes>) {
    && (o.None? ==> d == Zeros(32))
    && (o.Some? && |o.value| == 32 ==> d == o.value)
    && (o.Some? ==> forall k :: 0 <= k < 32 ==> d[k] == if k < |o.value| then o.value[k] else 0)
  }

  /** The fields of a payload tell what docs/STREAM_FORMAT.md promises of p. */
  ghost predicate Describes(f: Fields, p: PacketRecord, fp: Option<Bytes>) {
    && ShowsHash(f.blake3, p.blake3) && ShowsHash(f.sha256, p.sha256)
    && (f.verdict == 0 <==> p.verdict == Some(true))
    && (f.verdict == 1 <==> p.verdict == Some(false))
    && (f.verdict == 0xFF <==> p.verdict == None)
    && (f.tpm == 1 <==> Truthy(p.tpmSig)) && (f.tpm == 0 <==> !Truthy(p.tpmSig))
    && f.attClass == f.tpm && f.sigAlg == f.tpm
    && f.seqNo == p.seqNo
    && f.keyFp == (if f.tpm == 1 && Truthy(fp) then fp.value else Zeros(32))
  }

  lemma {:induction false} PayloadRoundTrip(p: PacketRecord, fp: Option<Bytes>)
    requires Packable(p, fp)
    ensures Describes(ParsePayload(Payload(p, fp)), p, fp)
    ensures Payload(p, fp)[108..] == Zeros(148)
  {
    LayoutSlices(HashField(p.blake3), HashField(p.sha256), VerdictByte(p.verdict), SignedByte(p),
                 LE(p.seqNo, 8), SignedByte(p), SignedByte(p), FingerprintField(p, fp), Zeros(148));
    DecodeEncode(p.seqNo, 8);
    FullHash(p.blake3);
    FullHash(p.sha256);
  }

  /** The byte offsets of docs/STREAM_FORMAT.md, from the packet itself. */
  lemma {:induction false} PayloadOffsets(p: PacketRecord, fp: Option<Bytes>)
    requires Packable(p, fp)
    ensures var b := Payload(p, fp); var flag := if p.tpmSig.Some? && p.tpmSig.value != [] then 1 else 0;
      && |b| == 256
      && (p.blake3.Some? && |p.blake3.value| == 32 ==> b[0..32] == p.blake3.value)
      && (p.sha256.Some? && |p.sha256.value| == 32 ==> b[32..64] == p.sha256.value)
      && b[64] == (if p.verdict == Some(true) then 0 else if p.verdict == Some(false) then 1 else 0xFF)
      && b[65] == b[74] == b[75] == flag && FromLE(b[66..74]) == p.seqNo
      && b[76..108] == (if flag == 1 && fp.Some? && fp.value != [] then fp.value else Zeros(32))
      && b[108..] == Zeros(148)
  {
    LayoutSlices(HashField(p.blake3), HashField(p.sha256), VerdictByte(p.verdict), SignedByte(p),
                 LE(p.seqNo, 8), SignedByte(p), SignedByte(p), FingerprintField(p, fp), Zeros(148));
    PayloadRoundTrip(p, fp);
  }

  /** A packet packs exactly if its seq fits 32 bits and a fingerprint to be
      stamped has 32 bytes. */
  lemma {:induction false} PackableIff(p: PacketRecord, fp: Option<Bytes>)
    ensures Packable(p, fp) <==>
      && p.seqNo < 0x1_0000_0000
      && (p.tpmSig.Some? && |p.tpmSig.value| > 0 && fp.Some? && |fp.value| > 0 ==> |fp.value| == 32)
  {
  }

  lemma {:induction false} FullHash(o: Option<Bytes>)
    ensures ShowsHash(HashField(o), o)
  {
    if o.Some? && |o.value| == 32 {
      assert o.value[..32] == o.value;
    }
  }

  // ----- Records and streams -----

  function Header(seqNo: nat): (b: Bytes)
    ensures |b| == HEADER_LEN
  {
    MAGIC_REC + [1] + LE(seqNo, 4) + LE(LATENT_DIM, 4)
  }

  function Record(p: PacketRecord, fp: Option<Bytes>): (b: Bytes)
    requires Packable(p, fp)
    ensures |b| == REC_LEN
  {
    Header(p.seqNo) + Payload(p, fp)
  }

  ghost predicate AllPackable(packets: seq<PacketRecord>, fp: Option<Bytes>) {
    forall i :: 0 <= i < |packets| ==> Packable(packets[i], fp)
  }

  function Records(packets: seq<PacketRecord>, fp: Option<Bytes>): (b: Bytes)
    requires AllPackable(packets, fp)
    ensures |b| == REC_LEN * |packets|
  {
    if packets == [] then [] else Record(packets[0], fp) + Records(packets[1..], fp)
  }

  function Stream(packets: seq<PacketRecord>, fp: Option<Bytes>): Bytes
    requires AllPackable(packets, fp)
  {
    MAGIC_FILE + Records(packets, fp)
  }

  lemma {:induction false} RecordsAppend(packets: seq<PacketRecord>, p: PacketRecord, fp: Option<Bytes>)
    requires AllPackable(packets + [p], fp)
    ensures AllPackable(packets, fp) && Packable(p, fp)
    ensures Records(packets + [p], fp) == Records(packets, fp) + Record(p, fp)
  {
    assert Packable((packets + [p])[|packets|], fp);
    assert forall i :: 0 <= i < |packets| ==> packets[i] == (packets + [p])[i];
    if packets == [] {
      assert (packets + [p])[1..] == [];
    } else {
      assert (packets + [p])[1..] == packets[1..] + [p];
      RecordsAppend(packets[1..], p, fp);
      ConcatAssoc3(Record(packets[0], fp), Records(packets[1..], fp), Record(p, fp));
    }
  }

  lemma {:induction false} ConcatAssoc3(a: Bytes, b: Bytes, c: Bytes)
    ensures a + (b + c) == a + b + c
  {
  }

  /** None is an exception. */
  method BuildAxlfStream(packets: seq<PacketRecord>, fp: Option<Bytes>) returns (stream: Option<Bytes>)
    ensures stream.None? <==> !AllPackable(packets, fp)
    ensures stream.Some? ==> stream.value == Stream(packets, fp)
  {
    var parts: Bytes := [];
    for i := 0 to |packets|
      invariant AllPackable(packets[..i], fp) && parts == Records(packets[..i], fp)
    {
      if !Packable(packets[i], fp) {
        return None;
      }
      assert packets[..i + 1] == packets[..i] + [packets[i]];
      RecordsAppend(packets[..i], packets[i], fp);
      parts := parts + Record(packets[i], fp);
    }
    assert packets[..|packets|] == packets;
    return Some(MAGIC_FILE + parts);
  }

  // ----- Reading a stream back -----

  datatype Frame = Frame(frameId: nat, payload: Bytes)

  /** Parse records until the bytes run out. None is a failed check; a payload
      that runs past the end is cut short, as a Python slice is. */
  function ParseFrames(b: Bytes): Option<seq<Frame>> {
    if b == [] then Some([])
    else if |b| < HEADER_LEN || b[0..4] != MAGIC_REC || b[4] != 1 then None
    else
      var len := FromLE(b[9..13]);
      var end := if HEADER_LEN + len <= |b| then HEADER_LEN + len else |b|;
      Prepend([Frame(FromLE(b[5..9]), b[13..end])], ParseFrames(b[end..]))
  }

  function Prepend(frames: seq<Frame>, rest: Option<seq<Frame>>): Option<seq<Frame>> {
    if rest.None? then None else Some(frames + rest.value)
  }

  function Parse(b: Bytes): Option<seq<Frame>> {
    if |b| < 4 || b[0..4] != MAGIC_FILE then None else ParseFrames(b[4..])
  }

  method ParseRecords(raw: Bytes) returns (records: Option<seq<Frame>>)
    ensures records == Parse(raw)
  {
    if |raw| < 4 || raw[0..4] != MAGIC_FILE {
      return None;
    }
    var offset, out: seq<Frame> := 4, [];
    PrependNone(ParseFrames(raw[4..]));
    while offset < |raw|
      invariant 4 <= offset <= |raw|
      invariant ParseFrames(raw[4..]) == Prepend(out, ParseFrames(raw[offset..]))
    {
      ParseAt(raw, offset);
      if offset + HEADER_LEN > |raw| || raw[offset..offset + 4] != MAGIC_REC || raw[offset + 4] != 1 {
        return None;
      }
      var frameId := FromLE(raw[offset + 5..offset + 9]);
      var start, end := offset + HEADER_LEN, PayloadEnd(raw, offset);
      PrependTwice(out, Frame(frameId, raw[start..end]), ParseFrames(raw[end..]));
      out := out + [Frame(frameId, raw[start..end])];
      offset := end;
    }
    assert raw[offset..] == [] && out + [] == out;
    return Some(out);
  }

  function PayloadEnd(raw: Bytes, offset: nat): (end: nat)
    requires offset + HEADER_LEN <= |raw|
    ensures offset + HEADER_LEN <= end <= |raw|
  {
    var end := offset + HEADER_LEN + FromLE(raw[offset + 9..offset + 13]);
    if end <= |raw| then end else |raw|
  }

  lemma {:induction false} ParseAt(raw: Bytes, offset: nat)
    requires offset < |raw|
    ensures ParseFrames(raw[offset..]) ==
      if offset + HEADER_LEN > |raw| || raw[offset..offset + 4] != MAGIC_REC || raw[offset + 4] != 1 then None
      else
        var end := PayloadEnd(raw, offset);
        Prepend([Frame(FromLE(raw[offset + 5..offset + 9]), raw[offset + HEADER_LEN..end])], ParseFrames(raw[end..]))
  {
    var b := raw[offset..];
    if offset + HEADER_LEN <= |raw| {
      var end := PayloadEnd(raw, offset);
      assert b[0..4] == raw[offset..offset + 4] && b[5..9] == raw[offset + 5..offset + 9];
      assert b[9..13] == raw[offset + 9..offset + 13];
      assert b[13..end - offset] == raw[offset + 13..end] && b[end - offset..] == raw[end..];
    }
  }

  lemma {:induction false} PrependNone(rest: Option<seq<Frame>>)
    ensures Prepend([], rest) == rest
  {
    if rest.Some? {
      assert [] + rest.value == rest.value;
    }
  }

  lemma {:induction false} PrependTwice(out: seq<Frame>, f: Frame, rest: Option<seq<Frame>>)
    ensures Prepend(out, Prepend([f], rest)) == Prepend(out + [f], rest)
  {
    if rest.Some? {
      assert out + ([f] + rest.value) == out + [f] + rest.value;
    }
  }

  // ----- What a parser accepts -----

  /** One record: magic AXLR, version 1, frame id, payload length, payload. */
  function FrameBytes(f: Frame, len: nat): Bytes {
    [0x41, 0x58, 0x4C, 0x52] + [1] + LE(f.frameId, 4) + LE(len, 4) + f.payload
  }

  function AllFrameBytes(frames: seq<Frame>, lens: seq<nat>): Bytes
    requires |frames| == |lens|
  {
    if frames == [] then [] else FrameBytes(frames[0], lens[0]) + AllFrameBytes(frames[1..], lens[1..])
  }

  /** Ids and lengths fit 4 bytes, and every payload has its length, except that
      the last may be cut short. */
  ghost predicate WellFormed(frames: seq<Frame>, lens: seq<nat>) {
    && |frames| == |lens|
    && forall i :: 0 <= i < |frames| ==>
         && frames[i].frameId < FRAME_LIMIT && |frames[i].payload| <= lens[i] < FRAME_LIMIT
         && (i + 1 < |frames| ==> |frames[i].payload| == lens[i])
  }

  lemma {:induction false} FirstFrame(f: Frame, len: nat, tail: Bytes)
    requires f.frameId < FRAME_LIMIT && |f.payload| <= len < FRAME_LIMIT
    requires |f.payload| == len || tail == []
    ensures ParseFrames(FrameBytes(f, len) + tail) == Prepend([f], ParseFrames(tail))
  {
    var b := FrameBytes(f, len) + tail;
    ConcatAssoc3([0x41, 0x58, 0x4C, 0x52] + [1] + LE(f.frameId, 4) + LE(len, 4), f.payload, tail);
    HeaderSlices([0x41, 0x58, 0x4C, 0x52], 1, LE(f.frameId, 4), LE(len, 4), f.payload + tail);
    DecodeEncode(f.frameId, 4);
    DecodeEncode(len, 4);
    var end := 13 + |f.payload|;
    assert b[13..end] == b[13..][..|f.payload|] == f.payload;
    assert b[end..] == b[13..][|f.payload|..] == tail;
  }

  lemma {:induction false} FramesParse(frames: seq<Frame>, lens: seq<nat>)
    requires WellFormed(frames, lens)
    ensures ParseFrames(AllFrameBytes(frames, lens)) == Some(frames)
    decreases |frames|
  {
    if frames != [] {
      var f, rest := frames[0], frames[1..];
      assert WellFormed(rest, lens[1..]) by {
        assert forall i :: 0 <= i < |rest| ==> rest[i] == frames[i + 1] && lens[1..][i] == lens[i + 1];
      }
      FramesParse(rest, lens[1..]);
      FirstFrame(f, lens[0], AllFrameBytes(rest, lens[1..]));
      assert [f] + rest == frames;
    }
  }

  lemma {:induction false} HeaderAgain(b: Bytes)
    requires |b| >= 13 && b[0..4] == MAGIC_REC && b[4] == 1
    ensures b == [0x41, 0x58, 0x4C, 0x52] + [1] + LE(FromLE(b[5..9]), 4) + LE(FromLE(b[9..13]), 4) + b[13..]
    ensures FromLE(b[5..9]) < FRAME_LIMIT && FromLE(b[9..13]) < FRAME_LIMIT
  {
    EncodeDecode(b[5..9]);
    EncodeDecode(b[9..13]);
    assert Pow256(4) == FRAME_LIMIT;
    assert b == b[0..4] + [b[4]] + b[5..9] + b[9..13] + b[13..];
  }

  lemma {:induction false} HeadFrame(b: Bytes, f: Frame, len: nat, end: nat)
    requires |b| >= 13 && b[0..4] == MAGIC_REC && b[4] == 1 && len == FromLE(b[9..13])
    requires end == if 13 + len <= |b| then 13 + len else |b|
    requires f == Frame(FromLE(b[5..9]), b[13..end])
    ensures b == FrameBytes(f, len) + b[end..]
    ensures f.frameId < FRAME_LIMIT && |f.payload| <= len < FRAME_LIMIT && (end < |b| ==> |f.payload| == len)
  {
    HeaderAgain(b);
    assert b[13..] == b[13..end] + b[end..];
  }

  lemma {:induction false} OneFrameMore(f: Frame, len: nat, frames: seq<Frame>, lens: seq<nat>)
    requires f.frameId < FRAME_LIMIT && |f.payload| <= len < FRAME_LIMIT && WellFormed(frames, lens)
    requires frames != [] ==> |f.payload| == len
    ensures WellFormed([f] + frames, [len] + lens)
    ensures AllFrameBytes([f] + frames, [len] + lens) == FrameBytes(f, len) + AllFrameBytes(frames, lens)
  {
    assert ([f] + frames)[1..] == frames && ([len] + lens)[1..] == lens;
  }

  lemma {:induction false} ParsedFrames(b: Bytes) returns (lens: seq<nat>)
    requires ParseFrames(b).Some?
    ensures var frames := ParseFrames(b).value; WellFormed(frames, lens) && b == AllFrameBytes(frames, lens)
    decreases |b|
  {
    if b == [] {
      lens := [];
    } else {
      var len := FromLE(b[9..13]);
      var end := if 13 + len <= |b| then 13 + len else |b|;
      var f := Frame(FromLE(b[5..9]), b[13..end]);
      HeadFrame(b, f, len, end);
      lens := ParsedFrames(b[end..]);
      OneFrameMore(f, len, ParseFrames(b[end..]).value, lens);
      lens := [len] + lens;
    }
  }

  /** A reader accepts exactly the streams: the magic AXLF and whole records one
      after another, of which the last payload may be cut short. */
  lemma {:induction false} ParseIff(raw: Bytes, frames: seq<Frame>)
    ensures Parse(raw) == Some(frames) <==>
      exists lens :: WellFormed(frames, lens) && raw == [0x41, 0x58, 0x4C, 0x46] + AllFrameBytes(frames, lens)
  {
    if Parse(raw) == Some(frames) {
      var lens := ParsedFrames(raw[4..]);
      assert raw == raw[0..4] + raw[4..];
    }
    if exists lens :: WellFormed(frames, lens) && raw == [0x41, 0x58, 0x4C, 0x46] + AllFrameBytes(frames, lens) {
      var lens :| WellFormed(frames, lens) && raw == [0x41, 0x58, 0x4C, 0x46] + AllFrameBytes(frames, lens);
      FramesParse(frames, lens);
      assert raw[4..] == AllFrameBytes(frames, lens) && raw[0..4] == [0x41, 0x58, 0x4C, 0x46];
    }
  }

  lemma {:induction false} HeaderSlices(m: Bytes, v: byte, f: Bytes, l: Bytes, rest: Bytes)
    requires |m| == 4 && |f| == 4 && |l| == 4
    ensures var b := m + [v] + f + l + rest;
      b[0..4] == m && b[4] == v && b[5..9] == f && b[9..13] == l && b[13..] == rest
  {
  }

  lemma {:induction false} OneFrame(seqNo: nat, payload: Bytes, tail: Bytes)
    requires seqNo < FRAME_LIMIT && |payload| == LATENT_DIM
    ensures ParseFrames(Header(seqNo) + payload + tail) == Prepend([Frame(seqNo, payload)], ParseFrames(tail))
  {
    var b := Header(seqNo) + payload + tail;
    ConcatAssoc3(Header(seqNo), payload, tail);
    HeaderSlices(MAGIC_REC, 1, LE(seqNo, 4), LE(LATENT_DIM, 4), payload + tail);
    DecodeEncode(seqNo, 4);
    DecodeEncode(LATENT_DIM, 4);
    assert b[13..269] == b[13..][..256] == payload;
    assert b[269..] == b[13..][256..] == tail;
  }

  ghost predicate FramesOf(frames: seq<Frame>, packets: seq<PacketRecord>, fp: Option<Bytes>)
    requires AllPackable(packets, fp)
  {
    && |frames| == |packets|
    && forall i :: 0 <= i < |packets| ==> frames[i] == Frame(packets[i].seqNo, Payload(packets[i], fp))
  }

  lemma {:induction false} ParseRecordsBack(packets: seq<PacketRecord>, fp: Option<Bytes>)
    requires AllPackable(packets, fp)
    ensures var r := ParseFrames(Records(packets, fp)); r.Some? && FramesOf(r.value, packets, fp)
    decreases |packets|
  {
    if packets != [] {
      ParseRecordsBack(packets[1..], fp);
      OneFrame(packets[0].seqNo, Payload(packets[0], fp), Records(packets[1..], fp));
    }
  }

  /** Parsing a built stream gives back every frame id and every payload field. */
  lemma {:induction false} StreamRoundTrip(packets: seq<PacketRecord>, fp: Option<Bytes>)
    requires AllPackable(packets, fp)
    ensures var r := Parse(Stream(packets, fp));
      && r.Some? && |r.value| == |packets|
      && forall i :: 0 <= i < |packets| ==>
           && r.value[i].frameId == packets[i].seqNo
           && |r.value[i].payload| == LATENT_DIM
           && Describes(ParsePayload(r.value[i].payload), packets[i], fp)
  {
    assert Stream(packets, fp)[0..4] == MAGIC_FILE && Stream(packets, fp)[4..] == Records(packets, fp);
    ParseRecordsBack(packets, fp);
    forall i | 0 <= i < |packets| {
      PayloadRoundTrip(packets[i], fp);
    }
  }

  // ----- streams@1 -----

  datatype Status = Unverified | Pass | Fail
  datatype Locator = Locator(frameId: nat, offset: nat, length: nat, status: Status, contentHash: Bytes)

  function LocatorOf(p: PacketRecord, i: nat): Locator {
    Locator(p.seqNo, 4 + i * REC_LEN, REC_LEN,
            match p.verdict case None => Unverified case Some(pass) => if pass then Pass else Fail,
            OrEmpty(p.blake3))
  }

  method BuildStreamsRows(packets: seq<PacketRecord>) returns (rows: seq<Locator>)
    ensures |rows| == |packets|
    ensures forall i :: 0 <= i < |packets| ==> rows[i] == LocatorOf(packets[i], i)
  {
    rows := [];
    for i := 0 to |packets|
      invariant |rows| == i
      invariant forall k :: 0 <= k < i ==> rows[k] == LocatorOf(packets[k], k)
    {
      rows := rows + [LocatorOf(packets[i], i)];
    }
  }

  /** A locator agrees with the record it points at: its status is the record's
      verdict and its content hash, if any, the record's link. */
  lemma {:induction false} LocatorAgrees(p: PacketRecord, fp: Option<Bytes>, i: nat)
    requires Packable(p, fp)
    ensures var l := LocatorOf(p, i); var f := ParsePayload(Record(p, fp)[HEADER_LEN..]);
      && l.frameId == f.seqNo
      && (l.status == Pass <==> f.verdict == 0) && (l.status == Fail <==> f.verdict == 1)
      && (l.status == Unverified <==> f.verdict == 0xFF)
      && (|l.contentHash| == 32 ==> l.contentHash == f.blake3)
  {
    assert Record(p, fp)[HEADER_LEN..] == Payload(p, fp);
    PayloadRoundTrip(p, fp);
  }

  lemma {:induction false} RecordAt(packets: seq<PacketRecord>, fp: Option<Bytes>, i: nat)
    requires AllPackable(packets, fp) && i < |packets|
    ensures REC_LEN * i + REC_LEN <= |Records(packets, fp)|
    ensures Records(packets, fp)[REC_LEN * i..REC_LEN * i + REC_LEN] == Record(packets[i], fp)
    decreases |packets|
  {
    var head, tail := Record(packets[0], fp), Records(packets[1..], fp);
    if i > 0 {
      RecordAt(packets[1..], fp, i - 1);
      SliceAfter(head, tail, REC_LEN * (i - 1), REC_LEN);
    }
  }

  lemma {:induction false} SliceAfter(a: Bytes, b: Bytes, from: nat, len: nat)
    requires from + len <= |b|
    ensures (a + b)[|a| + from..|a| + from + len] == b[from..from + len]
  {
  }

  /** Each locator slices out exactly its packet's record; the locators start
      after the file header, follow each other and end with the file. */
  lemma {:induction false} LocatorsTile(packets: seq<PacketRecord>, fp: Option<Bytes>, i: nat)
    requires AllPackable(packets, fp) && i < |packets|
    ensures var s := Stream(packets, fp); var l := LocatorOf(packets[i], i);
      && l.offset + l.length <= |s|
      && s[l.offset..l.offset + l.length] == Record(packets[i], fp)
      && (i == 0 ==> l.offset == 4)
      && (i + 1 < |packets| ==> LocatorOf(packets[i + 1], i + 1).offset == l.offset + l.length)
      && (i + 1 == |packets| ==> l.offset + l.length == |s|)
  {
    RecordAt(packets, fp, i);
    SliceAfter(MAGIC_FILE, Records(packets, fp), REC_LEN * i, REC_LEN);
  }
}
