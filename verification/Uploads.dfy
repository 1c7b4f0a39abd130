/** Segments committed by the uploader, under every interleaving with the
    packetizer. */
module Uploads {
  import opened ByteStrings
  import opened HotBuffer
  import opened Ledger
  import opened Node
  import Custody
  import Merkle

  /** How many rows of the session are in committed segments. */
  function Committed(segments: seq<Segment>): nat {
    if segments == [] then 0 else segments[|segments| - 1].end + 1
  }

  /** Segments cover 0..m-1 in order, without gap or overlap. */
  ghost predicate Tiles(segments: seq<Segment>) {
    && (segments != [] ==> segments[0].start == 0)
    && (forall i :: 0 <= i < |segments| ==> segments[i].start <= segments[i].end)
    && (forall i :: 0 < i < |segments| ==> segments[i].start == segments[i - 1].end + 1)
  }

  ghost predicate ValidIds(packets: seq<Packet>, ids: seq<nat>) {
    forall k :: 0 <= k < |ids| ==> 1 <= ids[k] <= |packets|
  }

  /** A segment counts its rows and records the root of exactly their links. */
  ghost predicate SegmentOk(env: Env, packets: seq<Packet>, ids: seq<nat>, g: Segment)
    requires ValidIds(packets, ids)
  {
    && g.session == env.session
    && g.start <= g.end < |ids|
    && g.count == g.end - g.start + 1
    && g.root == Merkle.SegmentRoot(env.cfg.blake3, Links(packets, ids, g.start, g.end + 1))
  }

  ghost predicate SegmentsOk(env: Env, packets: seq<Packet>, ids: seq<nat>, segments: seq<Segment>) {
    && ValidIds(packets, ids)
    && forall i :: 0 <= i < |segments| ==> SegmentOk(env, packets, ids, segments[i])
  }

  /** A row is marked uploaded iff it lies below the committed prefix, and then
      it points at the segment that covers its seq. */
  ghost predicate MarksOk(db: Tables, ids: seq<nat>) {
    && (forall id :: id in db.segmentOf ==> db.HasRow(id))
    && (forall k :: 0 <= k < |ids| ==> MarkOk(db, ids, k))
  }

  ghost predicate MarkOk(db: Tables, ids: seq<nat>, k: nat)
    requires k < |ids|
  {
    && (ids[k] in db.segmentOf <==> k < Committed(db.segments))
    && (ids[k] in db.segmentOf ==>
          var g := db.segmentOf[ids[k]];
          1 <= g <= |db.segments| && db.segments[g - 1].start <= k <= db.segments[g - 1].end)
  }

  ghost predicate RangeOk(db: Tables, ids: seq<nat>, start: nat, end: nat, got: seq<nat>) {
    && got != [] && start == Committed(db.segments)
    && end == start + |got| - 1 && end < |ids|
    && got == ids[start..end + 1]
  }

  ghost predicate ProgressOk(env: Env, s: Sys, ids: seq<nat>) {
    match s.up
    case Waiting => true
    case Ranged(start, end, got) => RangeOk(s.db, ids, start, end, got)
    case Hashed(start, end, got, hashes) =>
      && RangeOk(s.db, ids, start, end, got) && ValidIds(s.db.packets, ids)
      && hashes == Links(s.db.packets, ids, start, end + 1)
    case Shipping(g) =>
      && g in s.db.segments
      && forall i :: 0 <= i < |s.shipped| ==> s.shipped[i].end < g.start
  }

  /** Payloads sent are committed segments, each after the one before it. */
  ghost predicate ShippedOk(s: Sys) {
    && (forall i :: 0 <= i < |s.shipped| ==>
          s.shipped[i] in s.db.segments && s.shipped[i].end < Committed(s.db.segments))
    && (forall i, j :: 0 <= i < j < |s.shipped| ==> s.shipped[i].end < s.shipped[j].start)
  }

  ghost predicate UploadInv(env: Env, s: Sys) {
    var ids := Ids(s.db.packets, env.session);
    && Tiles(s.db.segments)
    && Committed(s.db.segments) <= |ids|
    && SegmentsOk(env, s.db.packets, ids, s.db.segments)
    && MarksOk(s.db, ids)
    && ProgressOk(env, s, ids)
    && ShippedOk(s)
  }

  lemma {:induction false} TilesBounded(segments: seq<Segment>, i: nat)
    requires Tiles(segments) && i < |segments|
    ensures segments[i].end < Committed(segments)
    decreases |segments| - i
  {
    if i + 1 < |segments| {
      TilesBounded(segments, i + 1);
    }
  }

  // ----- The packetizer's steps -----

  lemma {:induction false} NewRow(env: Env, s: Sys, t: Sys, p: Packet)
    requires UploadInv(env, s)
    requires t.db == s.db.(packets := s.db.packets + [p]) && t.up == s.up && t.shipped == s.shipped
    ensures UploadInv(env, t)
  {
    var packets, packets' := s.db.packets, t.db.packets;
    IdsAppend(packets, p, env.session);
    var ids := Ids(packets, env.session);
    var more := if p.session == env.session then [|packets| + 1] else [];
    SegmentsStable(env, packets, p, ids, more, s.db.segments);
    MarksStable(s.db, p, ids, more);
    ProgressStable(env, s, t, p, ids, more);
  }

  lemma {:induction false} LinksStable(packets: seq<Packet>, p: Packet, ids: seq<nat>, more: seq<nat>,
                                       from: nat, to: nat)
    requires ValidIds(packets, ids) && from <= to <= |ids|
    requires ValidIds(packets + [p], ids + more)
    ensures Links(packets + [p], ids + more, from, to) == Links(packets, ids, from, to)
  {
  }

  lemma {:induction false} SegmentsStable(env: Env, packets: seq<Packet>, p: Packet, ids: seq<nat>,
                                          more: seq<nat>, segments: seq<Segment>)
    requires SegmentsOk(env, packets, ids, segments)
    requires ValidIds(packets + [p], more)
    ensures SegmentsOk(env, packets + [p], ids + more, segments)
  {
    forall i | 0 <= i < |segments| ensures SegmentOk(env, packets + [p], ids + more, segments[i]) {
      assert SegmentOk(env, packets, ids, segments[i]);
      LinksStable(packets, p, ids, more, segments[i].start, segments[i].end + 1);
    }
  }

  lemma {:induction false} MarksStable(db: Tables, p: Packet, ids: seq<nat>, more: seq<nat>)
    requires MarksOk(db, ids) && Committed(db.segments) <= |ids|
    requires forall k :: 0 <= k < |more| ==> more[k] == |db.packets| + 1
    ensures MarksOk(db.(packets := db.packets + [p]), ids + more)
  {
    var db' := db.(packets := db.packets + [p]);
    assert |db.packets| + 1 !in db.segmentOf;
    forall k | 0 <= k < |ids + more| ensures MarkOk(db', ids + more, k) {
      assert k < |ids| ==> MarkOk(db, ids, k);
    }
  }

  lemma {:induction false} ProgressStable(env: Env, s: Sys, t: Sys, p: Packet, ids: seq<nat>, more: seq<nat>)
    requires ProgressOk(env, s, ids) && ValidIds(s.db.packets, ids) && ValidIds(t.db.packets, more)
    requires t.db == s.db.(packets := s.db.packets + [p]) && t.up == s.up && t.shipped == s.shipped
    ensures ProgressOk(env, t, ids + more)
  {
    if s.up.Ranged? || s.up.Hashed? {
      var end := s.up.end;
      assert (ids + more)[s.up.start..end + 1] == ids[s.up.start..end + 1];
      LinksStable(s.db.packets, p, ids, more, s.up.start, end + 1);
    }
  }

  /** What the uploader reads and writes. */
  ghost predicate SameUploader(s: Sys, t: Sys) {
    && s.db.packets == t.db.packets && s.db.segmentOf == t.db.segmentOf && s.db.segments == t.db.segments
    && s.up == t.up && s.shipped == t.shipped
  }

  lemma {:induction false} SameUploads(env: Env, s: Sys, t: Sys)
    requires UploadInv(env, s) && SameUploader(s, t)
    ensures UploadInv(env, t)
  {
    assert forall id: nat :: s.db.HasRow(id) ==> t.db.HasRow(id);
    forall k | 0 <= k < |Ids(s.db.packets, env.session)|
      ensures MarkOk(t.db, Ids(s.db.packets, env.session), k)
    {
      assert MarkOk(s.db, Ids(s.db.packets, env.session), k);
    }
  }

  /** A flush may be given up anywhere. */
  lemma {:induction false} StopKeepsUploads(env: Env, s: Sys, t: Sys)
    requires UploadInv(env, s) && t.db == s.db && t.shipped == s.shipped && t.up.Waiting?
    ensures UploadInv(env, t)
  {
  }

  lemma {:induction false} PacketizerKeepsUploads(env: Env, s: Sys, step: Step)
    requires UploadInv(env, s) && Enabled(env, s, step) && !IsUploaderStep(step)
    ensures UploadInv(env, Apply(env, s, step))
  {
    var t := Apply(env, s, step);
    match step
    case StepDelta(_, _) => SameUploads(env, s, t);
    case StepTick(i) =>
      BeginLeavesSegments(env, s.c, s.db, i);
      SameUploads(env, s, t);
    case StepSign(lands) =>
      BackfillShape(s.db, s.writer.id, s.writer.draft, lands);
      SameUploads(env, s, t);
    case StepRestart => StopKeepsUploads(env, s, t);
    case StepWrite(o) =>
      var p := s.writer.draft.packet;
      if s.db.Accepts(p) && o != Lost {
        NewRow(env, s, t, p);
      } else {
        SameUploads(env, s, t);
      }
  }

  lemma {:induction false} BeginLeavesSegments(env: Env, c: Custody.State, db: Tables, i: Custody.TickInput)
    ensures var b := Custody.Begin(env.cfg, c, db, i);
      b.tables.segments == db.segments && b.tables.segmentOf == db.segmentOf && b.tables.packets == db.packets
  {
  }

  // ----- The uploader's steps -----

  /** Position and seq agree: ids[k] is the one row of the session with seq k. */
  ghost predicate Numbered(packets: seq<Packet>, session: Bytes, ids: seq<nat>) {
    && ValidIds(packets, ids)
    && (forall k :: 0 <= k < |ids| ==> packets[ids[k] - 1].session == session && packets[ids[k] - 1].seqNo == k)
    && (forall i :: 0 <= i < |packets| && packets[i].session == session ==>
          packets[i].seqNo < |ids| && ids[packets[i].seqNo] == i + 1)
  }

  lemma {:induction false} SessionIsNumbered(env: Env, s: Sys, session: Bytes)
    requires CustodyInv(env, s)
    ensures Numbered(s.db.packets, session, Ids(s.db.packets, session))
  {
    LinkedIsNumbered(env.cfg.blake3, env.cfg.sha256, s.db.packets, s.sigs, session);
  }

  lemma {:induction false} LinkedIsNumbered(blake3: Hash, sha256: Hash, packets: seq<Packet>,
                                            sigs: seq<Option<Bytes>>, session: Bytes)
    requires |sigs| == |packets| && Linked(blake3, sha256, packets, sigs, session)
    ensures Numbered(packets, session, Ids(packets, session))
  {
    var ids := Ids(packets, session);
    forall k | 0 <= k < |ids|
      ensures 1 <= ids[k] <= |packets|
      ensures packets[ids[k] - 1].session == session && packets[ids[k] - 1].seqNo == k
    {
      assert RowLinked(blake3, sha256, packets, sigs, session, ids, k);
    }
    forall i | 0 <= i < |packets| && packets[i].session == session
      ensures packets[i].seqNo < |ids| && ids[packets[i].seqNo] == i + 1
    {
      SeqIsPosition(blake3, sha256, packets, sigs, session, i + 1);
    }
  }

  /** The pending rows of the session are those after the committed prefix. */
  lemma {:induction false} PendingIffAfterPrefix(db: Tables, session: Bytes, ids: seq<nat>, id: nat)
    requires Numbered(db.packets, session, ids) && MarksOk(db, ids)
    requires db.HasRow(id) && db.Row(id).session == session
    ensures var q := db.Row(id).seqNo;
      q < |ids| && ids[q] == id && (db.Pending(session, id) <==> Committed(db.segments) <= q)
  {
    assert MarkOk(db, ids, db.Row(id).seqNo);
  }

  /** The oldest pending range starts right after the committed prefix. */
  lemma {:induction false} RangeFollowsPrefix(db: Tables, session: Bytes, limit: int, ids: seq<nat>,
                                              start: nat, end: nat, got: seq<nat>)
    requires Numbered(db.packets, session, ids) && MarksOk(db, ids)
    requires got != [] && db.IsPendingRange(session, limit, start, end, got)
    ensures RangeOk(db, ids, start, end, got)
  {
    RangePosition(db, session, limit, ids, start, end, got, 0);
    RangePosition(db, session, limit, ids, start, end, got, |got| - 1);
    var m := Committed(db.segments);
    assert db.HasRow(ids[m]);
    PendingIffAfterPrefix(db, session, ids, ids[m]);
    forall i | 0 <= i < |got| ensures ids[start..end + 1][i] == got[i] {
      RangePosition(db, session, limit, ids, start, end, got, i);
    }
  }

  lemma {:induction false} RangePosition(db: Tables, session: Bytes, limit: int, ids: seq<nat>,
                      start: nat, end: nat, got: seq<nat>, i: nat)
    requires Numbered(db.packets, session, ids) && MarksOk(db, ids)
    requires i < |got| && db.IsPendingRange(session, limit, start, end, got)
    ensures Committed(db.segments) <= start + i < |ids| && ids[start + i] == got[i]
  {
    assert db.Pending(session, got[i]);
    PendingIffAfterPrefix(db, session, ids, got[i]);
  }

  lemma {:induction false} HashesAreLinks(db: Tables, ids: seq<nat>, start: nat, end: nat, got: seq<nat>)
    requires ValidIds(db.packets, ids) && RangeOk(db, ids, start, end, got)
    ensures HashesOf(db, got) == Links(db.packets, ids, start, end + 1)
  {
    var links := Links(db.packets, ids, start, end + 1);
    forall i | 0 <= i < |got| ensures HashesOf(db, got)[i] == links[i] {
      assert got[i] == ids[start + i] && db.HasRow(got[i]);
    }
  }

  lemma {:induction false} InRange(packets: seq<Packet>, session: Bytes, ids: seq<nat>, start: nat, end: nat, k: nat)
    requires Numbered(packets, session, ids) && start <= end < |ids| && k < |ids|
    ensures ids[k] in ids[start..end + 1] <==> start <= k <= end
  {
    var got := ids[start..end + 1];
    if start <= k <= end {
      assert got[k - start] == ids[k];
    }
    if ids[k] in got {
      var i :| 0 <= i < |got| && got[i] == ids[k];
      assert got[i] == ids[start + i];
    }
  }

  lemma {:induction false} CommitMarks(db: Tables, session: Bytes, ids: seq<nat>, start: nat, end: nat,
                                       got: seq<nat>, g: Segment, o: Outcome)
    requires Numbered(db.packets, session, ids) && MarksOk(db, ids) && RangeOk(db, ids, start, end, got)
    requires g.start == start && g.end == end && o != Lost
    ensures MarksOk(db.WithSegment(g, got, o), ids)
  {
    var db' := db.WithSegment(g, got, o);
    forall k | 0 <= k < |ids| ensures MarkOk(db', ids, k) {
      InRange(db.packets, session, ids, start, end, k);
      CommitMark(db, ids, start, end, got, g, o, k);
    }
  }

  lemma {:induction false} CommitMark(db: Tables, ids: seq<nat>, start: nat, end: nat, got: seq<nat>,
                                      g: Segment, o: Outcome, k: nat)
    requires k < |ids| && MarkOk(db, ids, k) && db.HasRow(ids[k])
    requires start == Committed(db.segments) && start <= end
    requires ids[k] in got <==> start <= k <= end
    requires g.start == start && g.end == end && o != Lost
    ensures MarkOk(db.WithSegment(g, got, o), ids, k)
  {
    var db' := db.WithSegment(g, got, o);
    assert db'.segments == db.segments + [g];
    assert ids[k] in db'.segmentOf <==> ids[k] in db.segmentOf || ids[k] in got;
  }

  lemma {:induction false} CommitTiles(segments: seq<Segment>, g: Segment)
    requires Tiles(segments) && g.start == Committed(segments) && g.start <= g.end
    ensures Tiles(segments + [g])
  {
  }

  lemma {:induction false} CommitIsOk(env: Env, packets: seq<Packet>, ids: seq<nat>, segments: seq<Segment>, g: Segment)
    requires SegmentsOk(env, packets, ids, segments) && SegmentOk(env, packets, ids, g)
    ensures SegmentsOk(env, packets, ids, segments + [g])
  {
  }

  lemma {:induction false} CommitShips(s: Sys, t: Sys, g: Segment)
    requires ShippedOk(s) && t.shipped == s.shipped && t.db.segments == s.db.segments + [g]
    requires g.start == Committed(s.db.segments) && g.start <= g.end
    ensures ShippedOk(t) && g in t.db.segments
    ensures forall i :: 0 <= i < |s.shipped| ==> s.shipped[i].end < g.start
  {
    assert g == t.db.segments[|s.db.segments|];
  }

  lemma {:induction false} LandedCommit(env: Env, s: Sys, o: Outcome)
    requires CustodyInv(env, s) && UploadInv(env, s) && s.up.Hashed? && o != Lost
    ensures UploadInv(env, AfterCommit(env, s, o))
  {
    var t, g, ids := AfterCommit(env, s, o), NewSegment(env, s.up), Ids(s.db.packets, env.session);
    SessionIsNumbered(env, s, env.session);
    CommitMarks(s.db, env.session, ids, s.up.start, s.up.end, s.up.ids, g, o);
    CommitTiles(s.db.segments, g);
    CommitIsOk(env, s.db.packets, ids, s.db.segments, g);
    CommitShips(s, t, g);
  }

  lemma {:induction false} CommitKeepsUploads(env: Env, s: Sys, o: Outcome)
    requires CustodyInv(env, s) && UploadInv(env, s) && s.up.Hashed?
    ensures UploadInv(env, AfterCommit(env, s, o))
  {
    if o == Lost {
      StopKeepsUploads(env, s, AfterCommit(env, s, o));
    } else {
      LandedCommit(env, s, o);
    }
  }

  lemma {:induction false} RangeKeepsUploads(env: Env, s: Sys, limit: int, start: nat, end: nat, got: seq<nat>)
    requires CustodyInv(env, s) && UploadInv(env, s)
    requires s.db.IsPendingRange(env.session, limit, start, end, got)
    ensures got != [] ==> UploadInv(env, s.(up := Ranged(start, end, got)))
  {
    if got != [] {
      SessionIsNumbered(env, s, env.session);
      RangeFollowsPrefix(s.db, env.session, limit, Ids(s.db.packets, env.session), start, end, got);
    }
  }

  lemma {:induction false} HashesKeepsUploads(env: Env, s: Sys)
    requires UploadInv(env, s) && s.up.Ranged?
    ensures UploadInv(env, AfterHashes(s))
  {
    HashesAreLinks(s.db, Ids(s.db.packets, env.session), s.up.start, s.up.end, s.up.ids);
  }

  lemma {:induction false} ShippedMore(s: Sys, t: Sys, g: Segment)
    requires ShippedOk(s) && Tiles(s.db.segments) && t.db.segments == s.db.segments && t.shipped == s.shipped + [g]
    requires g in s.db.segments && forall i :: 0 <= i < |s.shipped| ==> s.shipped[i].end < g.start
    ensures ShippedOk(t)
  {
    var k :| 0 <= k < |s.db.segments| && s.db.segments[k] == g;
    TilesBounded(s.db.segments, k);
  }

  lemma {:induction false} ShipKeepsUploads(env: Env, s: Sys)
    requires UploadInv(env, s) && s.up.Shipping?
    ensures UploadInv(env, s.(up := Waiting, shipped := s.shipped + [s.up.segment]))
  {
    ShippedMore(s, s.(up := Waiting, shipped := s.shipped + [s.up.segment]), s.up.segment);
  }

  lemma {:induction false} UploaderKeepsUploads(env: Env, s: Sys, step: Step)
    requires CustodyInv(env, s) && UploadInv(env, s) && Enabled(env, s, step) && IsUploaderStep(step)
    ensures UploadInv(env, Apply(env, s, step))
  {
    match step
    case StepRange(start, end, got, cut) =>
      RangeKeepsUploads(env, s, Delivered(env.batch, cut), start, end, got);
    case StepHashes => HashesKeepsUploads(env, s);
    case StepCommit(o) => CommitKeepsUploads(env, s, o);
    case StepShip => ShipKeepsUploads(env, s);
    case StepAbort => StopKeepsUploads(env, s, Apply(env, s, step));
  }

  lemma {:induction false} RunKeepsUploads(env: Env, s: Sys, steps: seq<Step>)
    requires CustodyInv(env, s) && UploadInv(env, s) && CanRun(env, s, steps)
    ensures UploadInv(env, Run(env, s, steps))
    decreases |steps|
  {
    if steps != [] {
      StepKeepsCustody(env, s, steps[0]);
      if IsUploaderStep(steps[0]) {
        UploaderKeepsUploads(env, s, steps[0]);
      } else {
        PacketizerKeepsUploads(env, s, steps[0]);
      }
      RunKeepsUploads(env, Apply(env, s, steps[0]), steps[1..]);
    }
  }

  /** Under every interleaving the committed segments tile a prefix of the
      session, count their rows, record the Merkle root of exactly their rows'
      links, and are what their rows point at; what was sent upstream is a
      committed segment, and no seq was sent twice. */
  lemma {:induction false} SegmentsTileTheSession(env: Env, s: Sys)
    requires Reachable(env, s)
    ensures var ids := Ids(s.db.packets, env.session);
      && Tiles(s.db.segments) && Committed(s.db.segments) <= |ids|
      && SegmentsOk(env, s.db.packets, ids, s.db.segments)
      && MarksOk(s.db, ids) && ShippedOk(s)
  {
    ReachableUploads(env, s);
  }

  lemma {:induction false} StartUploads(env: Env)
    ensures CustodyInv(env, START) && UploadInv(env, START)
  {
  }

  lemma {:induction false} ReachableUploads(env: Env, s: Sys)
    requires Reachable(env, s)
    ensures CustodyInv(env, s) && UploadInv(env, s)
  {
    var steps :| CanRun(env, START, steps) && s == Run(env, START, steps);
    ReachableCustody(env, s);
    StartUploads(env);
    RunKeepsUploads(env, START, steps);
  }

  /** A session id that the packetizer never drew has nothing to upload: nothing
      is ever committed or sent for it. */
  lemma {:induction false} UndrawnSessionUploadsNothing(env: Env, s: Sys)
    requires Reachable(env, s) && env.session !in s.draws
    ensures s.db.segments == [] && s.shipped == []
  {
    ReachableUploads(env, s);
    assert s.shipped != [] ==> s.shipped[0] in s.db.segments;
    NoRowsYet(s, env.session);
  }
}
