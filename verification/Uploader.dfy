/** The flush of internal/uploader/uploader.go, and how flushes drain a backlog. */
module Uploader {
  import opened ByteStrings
  import opened HotBuffer
  import opened Node
  import opened Uploads
  import Ledger
  import Merkle

  /** The segment of a range: its bounds, its size and the root of its rows' links. */
  function NewSegmentOf(blake3: Hash, session: Bytes, db: Tables, start: nat, end: nat, ids: seq<nat>): Segment {
    Segment(session, start, end, |ids|, Merkle.SegmentRoot(blake3, HashesOf(db, ids)))
  }

  /** One uninterrupted flush from db to db', whose range is start, end, ids. */
  ghost predicate Flushes(blake3: Hash, session: Bytes, limit: int, db: Tables, db': Tables, o: Outcome,
                          start: nat, end: nat, ids: seq<nat>)
  {
    && db.IsPendingRange(session, limit, start, end, ids)
    && db' == if ids == [] then db else db.WithSegment(NewSegmentOf(blake3, session, db, start, end, ids), ids, o)
  }

  /** Some order in which the IN query may yield its rows. */
  method SelectHashes(column: map<nat, Option<Bytes>>, rowIDs: seq<nat>) returns (yielded: seq<(nat, Option<Bytes>)>)
    ensures Yields(column, rowIDs, yielded)
  {
    yielded := [];
    for i := 0 to |rowIDs|
      invariant Yields(column, rowIDs[..i], yielded)
    {
      assert rowIDs[..i + 1] == rowIDs[..i] + [rowIDs[i]];
      if rowIDs[i] in column {
        yielded := yielded + [(rowIDs[i], column[rowIDs[i]])];
      }
    }
    assert rowIDs[..|rowIDs|] == rowIDs;
  }

  method Flush(blake3: Hash, buf: Buffer, session: Bytes, batch: int, cut: Option<nat>, o: Outcome)
    returns (shipped: Option<Segment>, ghost start: nat, ghost end: nat, ghost ids: seq<nat>)
    requires buf.Db().Unique()
    modifies buf
    ensures Flushes(blake3, session, Delivered(batch, cut), old(buf.Db()), buf.Db(), o, start, end, ids)
    ensures shipped == if ids != [] && o == Stored
                       then Some(NewSegmentOf(blake3, session, old(buf.Db()), start, end, ids)) else None
    ensures shipped.Some? ==> buf.segments == old(buf.segments) + [shipped.value]
  {
    var seqStart, seqEnd, rowIDs := buf.PendingRange(session, batch, cut);
    start, end, ids := seqStart, seqEnd, rowIDs;
    if |rowIDs| == 0 {
      return None, start, end, ids;
    }
    var column := LinkColumn(buf.Db());
    var yielded := SelectHashes(column, rowIDs);
    var hashes := PacketHashes(column, rowIDs, yielded);
    assert hashes == HashesOf(buf.Db(), rowIDs);
    var root := Merkle.LocalSegmentRoot(blake3, hashes);
    var seg := Segment(session, seqStart, seqEnd, |rowIDs|, root);
    var ok := buf.WriteSegment(seg, rowIDs, o);
    shipped := if ok then Some(seg) else None;
  }

  /** A flush is the node's range, hashes and commit steps, uninterrupted. */
  lemma {:induction false} FlushIsSteps(env: Env, s: Sys, db': Tables, cut: Option<nat>, o: Outcome,
                                        start: nat, end: nat, ids: seq<nat>)
    requires s.up.Waiting? && ids != []
    requires Flushes(env.cfg.blake3, env.session, Delivered(env.batch, cut), s.db, db', o, start, end, ids)
    ensures var steps := [StepRange(start, end, ids, cut)] + ([StepHashes] + [StepCommit(o)]);
      && CanRun(env, s, steps)
      && var g := NewSegmentOf(env.cfg.blake3, env.session, s.db, start, end, ids);
      Run(env, s, steps) == s.(db := db', up := if o == Stored then Shipping(g) else Waiting)
  {
    var s1 := s.(up := Ranged(start, end, ids));
    var s2 := AfterHashes(s1);
    RunOne(env, s, StepRange(start, end, ids, cut));
    RunOne(env, s1, StepHashes);
    RunOne(env, s2, StepCommit(o));
    RunConcat(env, s1, [StepHashes], [StepCommit(o)]);
    RunConcat(env, s, [StepRange(start, end, ids, cut)], [StepHashes] + [StepCommit(o)]);
  }

  /** A flush whose commit was reported, followed by its ship step, sends exactly
      the segment just committed. */
  lemma {:induction false} FlushShips(env: Env, s: Sys, db': Tables, cut: Option<nat>,
                                      start: nat, end: nat, ids: seq<nat>)
    requires s.up.Waiting? && ids != []
    requires Flushes(env.cfg.blake3, env.session, Delivered(env.batch, cut), s.db, db', Stored, start, end, ids)
    ensures var g := NewSegmentOf(env.cfg.blake3, env.session, s.db, start, end, ids);
      var steps := [StepRange(start, end, ids, cut)] + ([StepHashes] + [StepCommit(Stored)]) + [StepShip];
      && CanRun(env, s, steps)
      && Run(env, s, steps) == s.(db := db', shipped := s.shipped + [g])
      && db'.segments == s.db.segments + [g]
  {
    var steps := [StepRange(start, end, ids, cut)] + ([StepHashes] + [StepCommit(Stored)]);
    FlushIsSteps(env, s, db', cut, Stored, start, end, ids);
    RunOne(env, Run(env, s, steps), StepShip);
    RunConcat(env, s, steps, [StepShip]);
  }

  // ----- Draining -----

  ghost predicate CommittingFlush(blake3: Hash, session: Bytes, batch: int, db: Tables, db': Tables) {
    exists start, end, ids :: Flushes(blake3, session, batch, db, db', Stored, start, end, ids)
  }

  /** A reported flush whose query was not cut short is a committing flush. */
  lemma {:induction false} UncutFlushCommits(blake3: Hash, session: Bytes, batch: int, db: Tables, db': Tables,
                                             start: nat, end: nat, ids: seq<nat>)
    requires Flushes(blake3, session, Delivered(batch, None), db, db', Stored, start, end, ids)
    ensures CommittingFlush(blake3, session, batch, db, db')
    ensures batch >= 0 ==> |ids| <= batch
  {
    assert Flushes(blake3, session, batch, db, db', Stored, start, end, ids);
  }

  function Min(a: int, b: int): int {
    if a < b then a else b
  }

  /** A committing flush uploads batch more rows, or all that are left. */
  lemma {:induction false} FlushAdvances(blake3: Hash, session: Bytes, batch: int, db: Tables, db': Tables,
                                         ids: seq<nat>)
    requires batch >= 1 && Numbered(db.packets, session, ids) && MarksOk(db, ids) && Committed(db.segments) <= |ids|
    requires CommittingFlush(blake3, session, batch, db, db')
    ensures db'.packets == db.packets && MarksOk(db', ids)
    ensures Committed(db'.segments) == Min(|ids|, Committed(db.segments) + batch)
  {
    var start, end, got :| Flushes(blake3, session, batch, db, db', Stored, start, end, got);
    var m := Committed(db.segments);
    if got == [] {
      NothingPending(db, session, ids);
    } else {
      RangeFollowsPrefix(db, session, batch, ids, start, end, got);
      var g := NewSegmentOf(blake3, session, db, start, end, got);
      CommitMarks(db, session, ids, start, end, got, g, Stored);
      assert db'.segments == db.segments + [g];
      NextNotPending(db, session, ids, end, |got| == batch);
    }
  }

  lemma {:induction false} NothingPending(db: Tables, session: Bytes, ids: seq<nat>)
    requires Numbered(db.packets, session, ids) && MarksOk(db, ids) && Committed(db.segments) <= |ids|
    ensures (forall id: nat :: !db.Pending(session, id)) <==> Committed(db.segments) == |ids|
  {
    var m := Committed(db.segments);
    if m < |ids| {
      assert db.HasRow(ids[m]) && db.Row(ids[m]).session == session;
      PendingIffAfterPrefix(db, session, ids, ids[m]);
    } else {
      forall id: nat ensures !db.Pending(session, id) {
        if db.HasRow(id) && db.Row(id).session == session {
          PendingIffAfterPrefix(db, session, ids, id);
        }
      }
    }
  }

  lemma {:induction false} NextNotPending(db: Tables, session: Bytes, ids: seq<nat>, end: nat, full: bool)
    requires Numbered(db.packets, session, ids) && MarksOk(db, ids)
    requires Committed(db.segments) <= end < |ids|
    requires full || forall id: nat :: db.Pending(session, id) ==> db.Row(id).seqNo != end + 1
    ensures full || end + 1 == |ids|
  {
    if end + 1 < |ids| {
      var id := ids[end + 1];
      assert db.HasRow(id) && db.Row(id).session == session && db.Row(id).seqNo == end + 1;
      PendingIffAfterPrefix(db, session, ids, id);
    }
  }

  /** n committing flushes with no insert in between upload min(k, n * batch) of
      a backlog of k rows. */
  lemma {:induction false} FlushesAdvance(blake3: Hash, session: Bytes, batch: int, dbs: seq<Tables>,
                                          ids: seq<nat>, n: nat)
    requires n < |dbs| && batch >= 1
    requires Numbered(dbs[0].packets, session, ids) && MarksOk(dbs[0], ids) && Committed(dbs[0].segments) <= |ids|
    requires forall i :: 0 < i < |dbs| ==> CommittingFlush(blake3, session, batch, dbs[i - 1], dbs[i])
    ensures dbs[n].packets == dbs[0].packets && MarksOk(dbs[n], ids)
    ensures Committed(dbs[n].segments) == Min(|ids|, Committed(dbs[0].segments) + n * batch)
    decreases n
  {
    if n > 0 {
      FlushesAdvance(blake3, session, batch, dbs, ids, n - 1);
      assert CommittingFlush(blake3, session, batch, dbs[n - 1], dbs[n]);
      FlushAdvances(blake3, session, batch, dbs[n - 1], dbs[n], ids);
      Distribute(n, batch);
    }
  }

  lemma {:induction false} Distribute(n: nat, b: int)
    requires n > 0
    ensures n * b == (n - 1) * b + b
  {
  }

  lemma {:induction false} CeilDiv(k: nat, b: nat)
    requires b >= 1
    ensures var n := (k + b - 1) / b; n * b >= k && (n > 0 ==> (n - 1) * b < k)
  {
    var n := (k + b - 1) / b;
    assert n * b + (k + b - 1) % b == k + b - 1;
    if n > 0 {
      Distribute(n, b);
    }
  }

  /** From any reachable state with k pending rows, ceil(k / batch) committing
      flushes and no insert leave nothing pending; one flush fewer does not. */
  lemma {:induction false} BacklogDrains(env: Env, s: Sys, dbs: seq<Tables>)
    requires Reachable(env, s) && env.batch >= 1
    requires |dbs| > 0 && dbs[0] == s.db
    requires forall i :: 0 < i < |dbs| ==> CommittingFlush(env.cfg.blake3, env.session, env.batch, dbs[i - 1], dbs[i])
    ensures var k := |Ledger.Ids(s.db.packets, env.session)| - Committed(s.db.segments); var n := |dbs| - 1;
      k >= 0 && ((forall id: nat :: !dbs[n].Pending(env.session, id)) <==> (k + env.batch - 1) / env.batch <= n)
  {
    SessionReady(env, s);
    TablesDrain(env.cfg.blake3, env.session, env.batch, dbs, Ledger.Ids(s.db.packets, env.session));
  }

  lemma {:induction false} SessionReady(env: Env, s: Sys)
    requires Reachable(env, s)
    ensures var ids := Ledger.Ids(s.db.packets, env.session);
      Numbered(s.db.packets, env.session, ids) && MarksOk(s.db, ids) && Committed(s.db.segments) <= |ids|
  {
    ReachableUploads(env, s);
    SessionIsNumbered(env, s, env.session);
  }

  lemma {:induction false} TablesDrain(blake3: Hash, session: Bytes, batch: int, dbs: seq<Tables>, ids: seq<nat>)
    requires |dbs| > 0 && batch >= 1
    requires Numbered(dbs[0].packets, session, ids) && MarksOk(dbs[0], ids) && Committed(dbs[0].segments) <= |ids|
    requires forall i :: 0 < i < |dbs| ==> CommittingFlush(blake3, session, batch, dbs[i - 1], dbs[i])
    ensures var k := |ids| - Committed(dbs[0].segments); var n := |dbs| - 1;
      (forall id: nat :: !dbs[n].Pending(session, id)) <==> (k + batch - 1) / batch <= n
  {
    var n := |dbs| - 1;
    FlushesAdvance(blake3, session, batch, dbs, ids, n);
    NothingPending(dbs[n], session, ids);
    EnoughIff(|ids| - Committed(dbs[0].segments), batch, n);
  }

  lemma {:induction false} EnoughIff(k: nat, b: nat, n: nat)
    requires b >= 1
    ensures k <= n * b <==> (k + b - 1) / b <= n
  {
    CeilDiv(k, b);
    var c := (k + b - 1) / b;
    if c <= n {
      assert n * b == c * b + (n - c) * b && (n - c) * b >= 0;
    } else {
      assert (c - 1) * b == n * b + (c - 1 - n) * b && (c - 1 - n) * b >= 0;
    }
  }
}
