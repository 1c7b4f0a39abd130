/** The rows of one session inside the packets table. */
module Ledger {
  import opened ByteStrings
  import opened HotBuffer
  import Chain

  /** The row ids of a session, in insertion order. */
  function Ids(packets: seq<Packet>, session: Bytes): seq<nat> {
    if packets == [] then [] else
      var n := |packets|;
      Ids(packets[..n - 1], session) + if packets[n - 1].session == session then [n] else []
  }

  lemma {:induction false} IdsAppend(packets: seq<Packet>, p: Packet, session: Bytes)
    ensures Ids(packets + [p], session)
         == Ids(packets, session) + if p.session == session then [|packets| + 1] else []
  {
    assert (packets + [p])[..|packets|] == packets;
  }

  /** Ids lists rows of the session, in increasing order ... */
  lemma {:induction false} IdsSound(packets: seq<Packet>, session: Bytes)
    ensures forall k :: 0 <= k < |Ids(packets, session)| ==>
              1 <= Ids(packets, session)[k] <= |packets| &&
              packets[Ids(packets, session)[k] - 1].session == session
  {
    if packets != [] {
      IdsSound(packets[..|packets| - 1], session);
    }
  }

  /** ... and all of them. */
  lemma {:induction false} IdsComplete(packets: seq<Packet>, session: Bytes, id: nat) returns (k: nat)
    requires 1 <= id <= |packets| && packets[id - 1].session == session
    ensures k < |Ids(packets, session)| && Ids(packets, session)[k] == id
  {
    var n := |packets|;
    if id == n {
      k := |Ids(packets[..n - 1], session)|;
    } else {
      k := IdsComplete(packets[..n - 1], session, id);
    }
  }

  lemma {:induction false} NoMatchNoIds(packets: seq<Packet>, session: Bytes)
    requires forall i :: 0 <= i < |packets| ==> packets[i].session != session
    ensures Ids(packets, session) == []
  {
    if packets != [] {
      NoMatchNoIds(packets[..|packets| - 1], session);
    }
  }

  /** The link before position k, if there is one. */
  ghost function LinkBefore(packets: seq<Packet>, ids: seq<nat>, k: nat): Option<Digest> {
    if 0 < k <= |ids| && 1 <= ids[k - 1] <= |packets| then Some(packets[ids[k - 1] - 1].link) else None
  }

  /** Row k of a session: it has seq k, points at row k-1, and its digest and
      link are the hashes of its own fields and of the signature made for it. */
  ghost predicate RowLinked(blake3: Hash, sha256: Hash, packets: seq<Packet>, sigs: seq<Option<Bytes>>,
                            session: Bytes, ids: seq<nat>, k: nat)
    requires k < |ids| && |sigs| == |packets|
  {
    && 1 <= ids[k] <= |packets|
    && var p := packets[ids[k] - 1];
    && p.session == session && p.seqNo == k
    && p.prev == LinkBefore(packets, ids, k)
    && p.sha == sha256(p.canonical)
    && p.link == blake3(Chain.LinkInput(k, session, p.canonical, sigs[ids[k] - 1], p.prev))
  }

  /** The rows of a session form a gap-free hash-linked chain from seq 0. */
  ghost predicate Linked(blake3: Hash, sha256: Hash, packets: seq<Packet>, sigs: seq<Option<Bytes>>, session: Bytes)
    requires |sigs| == |packets|
  {
    var ids := Ids(packets, session);
    forall k :: 0 <= k < |ids| ==> RowLinked(blake3, sha256, packets, sigs, session, ids, k)
  }

  /** What a new row must satisfy to extend its session's chain. */
  ghost predicate Extends(blake3: Hash, sha256: Hash, packets: seq<Packet>, p: Packet, sig: Option<Bytes>) {
    var ids := Ids(packets, p.session);
    && p.seqNo == |ids|
    && p.prev == LinkBefore(packets, ids, |ids|)
    && p.sha == sha256(p.canonical)
    && p.link == blake3(Chain.LinkInput(p.seqNo, p.session, p.canonical, sig, p.prev))
  }

  /** Later rows do not disturb row k. */
  lemma {:induction false} RowStable(blake3: Hash, sha256: Hash, packets: seq<Packet>, sigs: seq<Option<Bytes>>,
                  p: Packet, sig: Option<Bytes>, session: Bytes, ids: seq<nat>, more: seq<nat>, k: nat)
    requires |sigs| == |packets| && k < |ids|
    requires RowLinked(blake3, sha256, packets, sigs, session, ids, k)
    requires k > 0 ==> 1 <= ids[k - 1] <= |packets|
    ensures RowLinked(blake3, sha256, packets + [p], sigs + [sig], session, ids + more, k)
  {
    var i := ids[k] - 1;
    assert (packets + [p])[i] == packets[i] && (sigs + [sig])[i] == sigs[i];
    assert LinkBefore(packets + [p], ids + more, k) == LinkBefore(packets, ids, k);
  }

  lemma {:induction false} NewRowLinked(blake3: Hash, sha256: Hash, packets: seq<Packet>, sigs: seq<Option<Bytes>>,
                     p: Packet, sig: Option<Bytes>, ids: seq<nat>)
    requires |sigs| == |packets| && ids == Ids(packets, p.session)
    requires Extends(blake3, sha256, packets, p, sig)
    requires |ids| > 0 ==> 1 <= ids[|ids| - 1] <= |packets|
    ensures RowLinked(blake3, sha256, packets + [p], sigs + [sig], p.session, ids + [|packets| + 1], |ids|)
  {
    assert (packets + [p])[|packets|] == p && (sigs + [sig])[|packets|] == sig;
    assert LinkBefore(packets + [p], ids + [|packets| + 1], |ids|) == LinkBefore(packets, ids, |ids|);
  }

  lemma {:induction false} LinkedAppend(blake3: Hash, sha256: Hash, packets: seq<Packet>, sigs: seq<Option<Bytes>>,
                     p: Packet, sig: Option<Bytes>, session: Bytes)
    requires |sigs| == |packets|
    requires Linked(blake3, sha256, packets, sigs, session)
    requires p.session == session ==> Extends(blake3, sha256, packets, p, sig)
    ensures Linked(blake3, sha256, packets + [p], sigs + [sig], session)
  {
    IdsAppend(packets, p, session);
    IdsSound(packets, session);
    var ids := Ids(packets, session);
    var more := if p.session == session then [|packets| + 1] else [];
    forall k | 0 <= k < |ids + more|
      ensures RowLinked(blake3, sha256, packets + [p], sigs + [sig], session, ids + more, k)
    {
      if k < |ids| {
        RowStable(blake3, sha256, packets, sigs, p, sig, session, ids, more, k);
      } else {
        NewRowLinked(blake3, sha256, packets, sigs, p, sig, ids);
      }
    }
  }

  /** In a linked session the seq of a row is its position, so positions and
      seqs of the session determine each other. */
  lemma {:induction false} SeqIsPosition(blake3: Hash, sha256: Hash, packets: seq<Packet>, sigs: seq<Option<Bytes>>,
                      session: Bytes, id: nat)
    requires |sigs| == |packets| && Linked(blake3, sha256, packets, sigs, session)
    requires 1 <= id <= |packets| && packets[id - 1].session == session
    ensures var q := packets[id - 1].seqNo; q < |Ids(packets, session)| && Ids(packets, session)[q] == id
  {
    var k := IdsComplete(packets, session, id);
    assert RowLinked(blake3, sha256, packets, sigs, session, Ids(packets, session), k);
  }

  /** The links of positions from..to of a session. */
  ghost function Links(packets: seq<Packet>, ids: seq<nat>, from: nat, to: nat): seq<Bytes>
    requires from <= to <= |ids| && forall k :: from <= k < to ==> 1 <= ids[k] <= |packets|
  {
    seq(to - from, i requires 0 <= i < to - from => packets[ids[from + i] - 1].link)
  }

  // ----- A linked session is a chain of bodies -----

  ghost function BodyOf(packets: seq<Packet>, sigs: seq<Option<Bytes>>, session: Bytes, id: nat): Bytes
    requires |sigs| == |packets|
  {
    if 1 <= id <= |packets| then Chain.Body(session, packets[id - 1].canonical, sigs[id - 1]) else []
  }

  ghost function Bodies(packets: seq<Packet>, sigs: seq<Option<Bytes>>, session: Bytes, ids: seq<nat>): seq<Bytes>
    requires |sigs| == |packets|
  {
    seq(|ids|, k requires 0 <= k < |ids| => BodyOf(packets, sigs, session, ids[k]))
  }

  lemma {:induction false} RowLinkIsChainLink(blake3: Hash, p: Packet, sig: Option<Bytes>, bodies: seq<Bytes>, k: nat)
    requires k < |bodies| && bodies[k] == Chain.Body(p.session, p.canonical, sig)
    requires p.prev == if k == 0 then None else Some(Chain.Link(blake3, bodies, k - 1))
    requires p.link == blake3(Chain.LinkInput(k, p.session, p.canonical, sig, p.prev))
    ensures p.link == Chain.Link(blake3, bodies, k)
  {
    Chain.LinkInputIsChainInput(blake3, bodies, k, p.session, p.canonical, sig, p.prev);
  }

  lemma {:induction false} RowsAreChain(blake3: Hash, sha256: Hash, packets: seq<Packet>,
                                        sigs: seq<Option<Bytes>>, session: Bytes, ids: seq<nat>, k: nat)
    requires |sigs| == |packets| && k < |ids|
    requires forall n :: 0 <= n < |ids| ==> RowLinked(blake3, sha256, packets, sigs, session, ids, n)
    ensures 1 <= ids[k] <= |packets|
    ensures packets[ids[k] - 1].link == Chain.Link(blake3, Bodies(packets, sigs, session, ids), k)
    decreases k
  {
    assert RowLinked(blake3, sha256, packets, sigs, session, ids, k);
    if k > 0 {
      RowsAreChain(blake3, sha256, packets, sigs, session, ids, k - 1);
    }
    RowLinkIsChainLink(blake3, packets[ids[k] - 1], sigs[ids[k] - 1], Bodies(packets, sigs, session, ids), k);
  }

  /** Every stored link is the chain link of the bodies before it, so the
      binding results of Chain apply to stored sessions. */
  lemma {:induction false} StoredLinkIsChainLink(blake3: Hash, sha256: Hash, packets: seq<Packet>,
                              sigs: seq<Option<Bytes>>, session: Bytes, k: nat)
    requires |sigs| == |packets| && Linked(blake3, sha256, packets, sigs, session)
    requires k < |Ids(packets, session)|
    ensures var ids := Ids(packets, session);
      && 1 <= ids[k] <= |packets|
      && packets[ids[k] - 1].link == Chain.Link(blake3, Bodies(packets, sigs, session, ids), k)
  {
    RowsAreChain(blake3, sha256, packets, sigs, session, Ids(packets, session), k);
  }
}
