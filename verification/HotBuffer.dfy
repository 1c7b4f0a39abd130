/** The custody ledger of internal/hotbuffer: tables, constraints and operations.

    Rows are only ever inserted or updated, never deleted, so a table is a list
    and the AUTOINCREMENT id of a row is its position plus one. The columns of
    packets that start NULL are partial maps from row id. */
module HotBuffer {
  import opened ByteStrings

  datatype Packet = Packet(session: Bytes, seqNo: nat, canonical: Bytes,
                           prev: Option<Digest>, sha: Digest, link: Digest)
  datatype Quote = Quote(session: Bytes, seqNo: nat, nonce: Bytes, attest: Bytes, sig: Bytes)
  datatype Segment = Segment(session: Bytes, start: nat, end: nat, count: nat, root: Digest)
  datatype Fault = Fault(session: Bytes, seqNo: nat)

  /** What a write did: took effect, did not, or took effect but returned an error. */
  datatype Outcome = Stored | Lost | StoredUnreported

  /** How many rows a query with LIMIT limit hands out if it ends early after cut
      rows; a negative number is no limit. */
  function Delivered(limit: int, cut: Option<nat>): int {
    if cut.Some? && (limit < 0 || cut.value < limit) then cut.value else limit
  }

  /** SQLite integers are signed 64-bit. */
  const SEQ_LIMIT: nat := 0x8000_0000_0000_0000

  /** UPDATE ... SET segment_id WHERE id, over ids; rows 1..rowCount exist. */
  function Marks(rowCount: nat, ids: seq<nat>, segID: nat): map<nat, nat> {
    map id | id in ids && 1 <= id <= rowCount :: segID
  }

  datatype Tables = Tables(
    packets: seq<Packet>,
    tpmSig: map<nat, Bytes>,     // packets.tpm_sig
    quoteRef: map<nat, nat>,     // packets.quote_ref
    segmentOf: map<nat, nat>,    // packets.segment_id; present iff upload_state is 'uploaded'
    quotes: seq<Quote>,
    segments: seq<Segment>,
    faults: seq<Fault>)
  {
    predicate HasRow(id: nat) {
      1 <= id <= |packets|
    }

    function Row(id: nat): Packet
      requires HasRow(id)
    {
      packets[id - 1]
    }

    predicate HasQuote(id: nat) {
      1 <= id <= |quotes|
    }

    function QuoteAt(id: nat): Quote
      requires HasQuote(id)
    {
      quotes[id - 1]
    }

    predicate Taken(session: Bytes, seqNo: nat) {
      exists i :: 0 <= i < |packets| && packets[i].session == session && packets[i].seqNo == seqNo
    }

    /** UNIQUE (session_id, seq), and a seq that fits the column. */
    predicate Accepts(p: Packet) {
      p.seqNo < SEQ_LIMIT && !Taken(p.session, p.seqNo)
    }

    ghost predicate Unique() {
      forall i, j :: 0 <= i < j < |packets| ==>
        packets[i].session != packets[j].session || packets[i].seqNo != packets[j].seqNo
    }

    predicate Pending(session: Bytes, id: nat) {
      HasRow(id) && Row(id).session == session && id !in segmentOf
    }

    function WithPacket(p: Packet, o: Outcome): Tables {
      if Accepts(p) && o != Lost then this.(packets := packets + [p]) else this
    }

    function WithQuote(q: Quote, o: Outcome): Tables {
      if o != Lost then this.(quotes := quotes + [q]) else this
    }

    function WithFault(f: Fault, lands: bool): Tables {
      if lands then this.(faults := faults + [f]) else this
    }

    /** Foreign keys are on: the update is refused unless ref is a stored quote. */
    function WithSig(id: nat, sig: Bytes, ref: nat, lands: bool): Tables {
      if lands && HasRow(id) && HasQuote(ref)
      then this.(tpmSig := tpmSig[id := sig], quoteRef := quoteRef[id := ref])
      else this
    }

    function WithSegment(seg: Segment, ids: seq<nat>, o: Outcome): Tables {
      if o == Lost then this else
        this.(segments := segments + [seg],
              segmentOf := segmentOf + Marks(|packets|, ids, |segments| + 1))
    }

    /** The longest gap-free run of pending rows that starts at the least pending
        seq and has at most limit rows; a negative limit is no limit. */
    ghost predicate IsPendingRange(session: Bytes, limit: int, start: nat, end: nat, ids: seq<nat>) {
      if ids == [] then
        start == 0 && end == 0 && (limit == 0 || forall id: nat :: !Pending(session, id))
      else
        && (limit < 0 || |ids| <= limit)
        && end == start + |ids| - 1
        && (forall i :: 0 <= i < |ids| ==>
              Pending(session, ids[i]) && Row(ids[i]).seqNo == start + i)
        && (forall id: nat :: Pending(session, id) ==> start <= Row(id).seqNo)
        && (|ids| == limit || forall id: nat :: Pending(session, id) ==> Row(id).seqNo != end + 1)
    }

    ghost predicate PendingSeq(session: Bytes, q: nat) {
      exists id: nat :: Pending(session, id) && Row(id).seqNo == q
    }

    lemma {:induction false} RangeSeqs(session: Bytes, limit: int, start: nat, end: nat, ids: seq<nat>)
      requires ids != [] && IsPendingRange(session, limit, start, end, ids)
      ensures forall q :: start <= q <= end ==> PendingSeq(session, q)
      ensures forall q :: PendingSeq(session, q) ==> start <= q
      ensures |ids| == limit || !PendingSeq(session, end + 1)
    {
      forall q | start <= q <= end ensures PendingSeq(session, q) {
        assert Pending(session, ids[q - start]);
      }
    }

    lemma {:induction false} RangeIsLongest(session: Bytes, limit: int, start: nat, end: nat, ids: seq<nat>,
                         start': nat, end': nat, ids': seq<nat>)
      requires ids != [] && IsPendingRange(session, limit, start, end, ids)
      requires ids' != [] && IsPendingRange(session, limit, start', end', ids')
      ensures start == start' && |ids'| <= |ids|
    {
      RangeSeqs(session, limit, start, end, ids);
      RangeSeqs(session, limit, start', end', ids');
      assert PendingSeq(session, start) && PendingSeq(session, start');
    }

    /** There is only one such run. */
    lemma {:induction false} PendingRangeIsUnique(session: Bytes, limit: int, start: nat, end: nat, ids: seq<nat>,
                               start': nat, end': nat, ids': seq<nat>)
      requires Unique()
      requires IsPendingRange(session, limit, start, end, ids)
      requires IsPendingRange(session, limit, start', end', ids')
      ensures start == start' && end == end' && ids == ids'
    {
      assert ids != [] ==> Pending(session, ids[0]);
      assert ids' != [] ==> Pending(session, ids'[0]);
      if ids != [] {
        RangeIsLongest(session, limit, start, end, ids, start', end', ids');
        RangeIsLongest(session, limit, start', end', ids', start, end, ids);
        forall i | 0 <= i < |ids| ensures ids[i] == ids'[i] {
          assert Row(ids[i]).seqNo == Row(ids'[i]).seqNo;
        }
      }
    }
  }

  // ----- SELECT id, seq ... WHERE pending ORDER BY seq -----

  ghost predicate Ordered(rows: seq<(nat, nat)>) {
    forall i, j :: 0 <= i < j < |rows| ==> rows[i].1 < rows[j].1
  }

  function Insert(rows: seq<(nat, nat)>, x: (nat, nat)): (r: seq<(nat, nat)>)
    ensures forall y :: y in r <==> y in rows || y == x
  {
    if rows == [] || x.1 < rows[0].1 then [x] + rows
    else
      assert rows == [rows[0]] + rows[1..];
      [rows[0]] + Insert(rows[1..], x)
  }

  lemma {:induction false} InsertKeepsOrder(rows: seq<(nat, nat)>, x: (nat, nat))
    requires Ordered(rows) && forall y :: y in rows ==> y.1 != x.1
    ensures Ordered(Insert(rows, x))
  {
    if rows != [] && rows[0].1 < x.1 {
      var rest := Insert(rows[1..], x);
      InsertKeepsOrder(rows[1..], x);
      forall i | 0 <= i < |rest| ensures rows[0].1 < rest[i].1 {
        assert rest[i] in rest;
      }
    }
  }

  ghost predicate ListsPending(db: Tables, session: Bytes, n: nat, rows: seq<(nat, nat)>) {
    && Ordered(rows)
    && (forall r :: r in rows ==> db.Pending(session, r.0) && db.Row(r.0).seqNo == r.1 && r.0 <= n)
    && (forall id: nat :: id <= n && db.Pending(session, id) ==> (id, db.Row(id).seqNo) in rows)
  }

  function PendingRows(db: Tables, session: Bytes, n: nat): (rows: seq<(nat, nat)>)
    requires n <= |db.packets| && db.Unique()
    ensures ListsPending(db, session, n, rows)
  {
    if n == 0 then [] else
      var before := PendingRows(db, session, n - 1);
      if db.Pending(session, n) then
        InsertKeepsOrder(before, (n, db.Row(n).seqNo));
        Insert(before, (n, db.Row(n).seqNo))
      else before
  }

  // ----- SELECT id, packet_blake3 ... WHERE id IN (...) -----

  /** The query returns exactly the rows asked for that exist, in any order. */
  ghost predicate Yields(column: map<nat, Option<Bytes>>, rowIDs: seq<nat>, yielded: seq<(nat, Option<Bytes>)>) {
    forall id, v :: (id, v) in yielded <==> id in rowIDs && id in column && column[id] == v
  }

  function HashAt(column: map<nat, Option<Bytes>>, id: nat): Bytes {
    if id in column then OrEmpty(column[id]) else []
  }

  /** The hashes of rowIDs in the order of rowIDs, whatever order the query
      yields; a row that is missing or whose column is NULL gives no bytes. */
  method PacketHashes(column: map<nat, Option<Bytes>>, rowIDs: seq<nat>, yielded: seq<(nat, Option<Bytes>)>)
    returns (out: seq<Bytes>)
    requires Yields(column, rowIDs, yielded)
    ensures |out| == |rowIDs|
    ensures forall i :: 0 <= i < |rowIDs| ==> out[i] == HashAt(column, rowIDs[i])
    ensures forall i :: 0 <= i < |rowIDs| ==>
      if rowIDs[i] in column && column[rowIDs[i]].Some? then Some(out[i]) == column[rowIDs[i]] else out[i] == []
  {
    var hashByID: map<nat, Bytes> := map[];
    for i := 0 to |yielded|
      invariant forall id :: id in hashByID ==> id in column && column[id] == Some(hashByID[id])
      invariant forall k :: 0 <= k < i && yielded[k].1.Some? ==> yielded[k].0 in hashByID
    {
      var (id, hash) := yielded[i];
      assert (id, hash) in yielded;
      if hash.Some? {
        hashByID := hashByID[id := hash.value];
      }
    }
    out := [];
    for i := 0 to |rowIDs|
      invariant |out| == i
      invariant forall k :: 0 <= k < i ==> out[k] == HashAt(column, rowIDs[k])
    {
      var id := rowIDs[i];
      if id in column {
        assert (id, column[id]) in yielded;
      }
      out := out + [if id in hashByID then hashByID[id] else []];
    }
  }

  // ----- The buffer -----

  class Buffer {
    var packets: seq<Packet>
    var tpmSig: map<nat, Bytes>
    var quoteRef: map<nat, nat>
    var segmentOf: map<nat, nat>
    var quotes: seq<Quote>
    var segments: seq<Segment>
    var faults: seq<Fault>

    function Db(): Tables
      reads this
    {
      Tables(packets, tpmSig, quoteRef, segmentOf, quotes, segments, faults)
    }

    constructor ()
      ensures Db() == Tables([], map[], map[], map[], [], [], [])
    {
      packets, quotes, segments, faults := [], [], [], [];
      tpmSig, quoteRef, segmentOf := map[], map[], map[];
    }

    method WritePacket(p: Packet, o: Outcome) returns (id: Option<nat>)
      requires Db().Unique()
      modifies this
      ensures Db() == old(Db()).WithPacket(p, o) && Db().Unique()
      ensures id == if old(Db()).Accepts(p) && o == Stored then Some(|packets|) else None
    {
      id := None;
      if Db().Accepts(p) {
        if o != Lost {
          packets := packets + [p];
        }
        if o == Stored {
          id := Some(|packets|);
        }
      }
    }

    method SetTPMSig(id: nat, sig: Bytes, ref: nat, lands: bool)
      modifies this
      ensures Db() == old(Db()).WithSig(id, sig, ref, lands)
    {
      if lands && Db().HasRow(id) && Db().HasQuote(ref) {
        tpmSig := tpmSig[id := sig];
        quoteRef := quoteRef[id := ref];
      }
    }

    method RecordProvenanceFault(session: Bytes, seqNo: nat, lands: bool)
      modifies this
      ensures Db() == old(Db()).WithFault(Fault(session, seqNo), lands)
    {
      if lands {
        faults := faults + [Fault(session, seqNo)];
      }
    }

    method WriteQuote(q: Quote, o: Outcome) returns (id: Option<nat>)
      modifies this
      ensures Db() == old(Db()).WithQuote(q, o)
      ensures id == if o == Stored then Some(|quotes|) else None
    {
      id := None;
      if o != Lost {
        quotes := quotes + [q];
      }
      if o == Stored {
        id := Some(|quotes|);
      }
    }

    /** rows.Err() is not read, so a query that fails after cut rows looks like one
        that has no more. */
    method PendingRange(session: Bytes, maxBatch: int, cut: Option<nat>) returns (start: nat, end: nat, ids: seq<nat>)
      requires Db().Unique()
      ensures Db().IsPendingRange(session, Delivered(maxBatch, cut), start, end, ids)
      ensures maxBatch >= 0 ==> |ids| <= maxBatch
      ensures cut.Some? ==> |ids| <= cut.value
    {
      var all := PendingRows(Db(), session, |packets|);
      var limited := if 0 <= maxBatch < |all| then all[..maxBatch] else all;
      var rows := if cut.Some? && cut.value < |limited| then limited[..cut.value] else limited;
      start, end, ids := CountContiguous(rows);
      PrefixIsPendingRange(Db(), session, Delivered(maxBatch, cut), all, rows, start, end, ids);
    }

    method MarkUploaded(ids: seq<nat>, segID: nat)
      modifies this`segmentOf
      ensures segmentOf == old(segmentOf) + Marks(|packets|, ids, segID)
    {
      for i := 0 to |ids|
        invariant segmentOf == old(segmentOf) + Marks(|packets|, ids[..i], segID)
      {
        MarkStep(|packets|, ids, i, old(segmentOf), segID);
        if Db().HasRow(ids[i]) {
          segmentOf := segmentOf[ids[i] := segID];
        }
      }
      assert ids[..|ids|] == ids;
    }

    /** One transaction: the segment row and every mark, or nothing. */
    method WriteSegment(seg: Segment, ids: seq<nat>, o: Outcome) returns (ok: bool)
      modifies this
      ensures Db() == old(Db()).WithSegment(seg, ids, o)
      ensures ok == (o == Stored)
    {
      var before, marks := segments, segmentOf;
      segments := segments + [seg];
      MarkUploaded(ids, |segments|);
      if o == Lost {
        segments, segmentOf := before, marks;
      }
      ok := o == Stored;
    }
  }

  lemma {:induction false} MarkStep(rowCount: nat, ids: seq<nat>, i: nat, saved: map<nat, nat>, segID: nat)
    requires i < |ids|
    ensures var before := saved + Marks(rowCount, ids[..i], segID);
      saved + Marks(rowCount, ids[..i + 1], segID)
      == if 1 <= ids[i] <= rowCount then before[ids[i] := segID] else before
  {
    assert ids[..i + 1] == ids[..i] + [ids[i]];
  }

  ghost predicate IsContiguousPrefix(rows: seq<(nat, nat)>, start: nat, end: nat, ids: seq<nat>) {
    if rows == [] then start == 0 && end == 0 && ids == [] else
      && 0 < |ids| <= |rows|
      && start == rows[0].1 && end == start + |ids| - 1
      && (forall i :: 0 <= i < |ids| ==> rows[i] == (ids[i], start + i))
      && (|ids| < |rows| ==> rows[|ids|].1 != end + 1)
  }

  /** The two loops of PendingRange: copy the rows, then cut at the first gap. */
  method CountContiguous(rows: seq<(nat, nat)>) returns (start: nat, end: nat, ids: seq<nat>)
    ensures IsContiguousPrefix(rows, start, end, ids)
  {
    var rowIDs: seq<nat>, seqs: seq<nat> := [], [];
    for i := 0 to |rows|
      invariant |rowIDs| == |seqs| == i
      invariant forall k :: 0 <= k < i ==> rows[k] == (rowIDs[k], seqs[k])
    {
      rowIDs := rowIDs + [rows[i].0];
      seqs := seqs + [rows[i].1];
    }
    if |seqs| == 0 {
      return 0, 0, [];
    }
    var contiguous := 1;
    while contiguous < |seqs| && seqs[contiguous] == seqs[contiguous - 1] + 1
      invariant 1 <= contiguous <= |seqs|
      invariant forall k :: 0 <= k < contiguous ==> seqs[k] == seqs[0] + k
    {
      contiguous := contiguous + 1;
    }
    return seqs[0], seqs[contiguous - 1], rowIDs[..contiguous];
  }

  lemma {:induction false} PrefixIsPendingRange(db: Tables, session: Bytes, limit: int, all: seq<(nat, nat)>,
                             rows: seq<(nat, nat)>, start: nat, end: nat, ids: seq<nat>)
    requires ListsPending(db, session, |db.packets|, all)
    requires rows == if 0 <= limit < |all| then all[..limit] else all
    requires IsContiguousPrefix(rows, start, end, ids)
    ensures db.IsPendingRange(session, limit, start, end, ids)
  {
    if rows == [] {
      assert limit != 0 ==> all == [];
      assert forall id: nat :: db.Pending(session, id) ==> (id, db.Row(id).seqNo) in all;
    } else {
      forall i | 0 <= i < |ids|
        ensures db.Pending(session, ids[i]) && db.Row(ids[i]).seqNo == start + i
      {
        assert all[i] == rows[i] && all[i] in all;
      }
      forall id: nat | db.Pending(session, id)
        ensures start <= db.Row(id).seqNo
        ensures |ids| == limit || db.Row(id).seqNo != end + 1
      {
        PendingRowIsListed(db, session, all, id);
        var k :| 0 <= k < |all| && all[k] == (id, db.Row(id).seqNo);
        NothingNextToThePrefix(all, limit, start, end, ids, k);
      }
    }
  }

  lemma {:induction false} NothingNextToThePrefix(all: seq<(nat, nat)>, limit: int, start: nat, end: nat,
                                                  ids: seq<nat>, k: nat)
    requires k < |all| && limit != 0 && Ordered(all)
    requires IsContiguousPrefix(if 0 <= limit < |all| then all[..limit] else all, start, end, ids)
    ensures start <= all[k].1
    ensures |ids| == limit || all[k].1 != end + 1
  {
    var rows := if 0 <= limit < |all| then all[..limit] else all;
    assert rows[0] == all[0] && rows[|ids| - 1] == all[|ids| - 1];
    if |ids| < |rows| {
      assert rows[|ids|] == all[|ids|];
    }
  }

  lemma {:induction false} PendingRowIsListed(db: Tables, session: Bytes, all: seq<(nat, nat)>, id: nat)
    requires ListsPending(db, session, |db.packets|, all) && db.Pending(session, id)
    ensures exists k :: 0 <= k < |all| && all[k] == (id, db.Row(id).seqNo)
  {
    assert (id, db.Row(id).seqNo) in all;
  }
}
