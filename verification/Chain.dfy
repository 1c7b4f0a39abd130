/** The BLAKE3 custody chain of internal/custody/packetizer.go. */
module Chain {
  import opened ByteStrings

  /** The bytes that computePacketBLAKE3 hashes. */
  function LinkInput(seqNo: nat, session: Bytes, canonical: Bytes,
                     sig: Option<Bytes>, prev: Option<Digest>): Bytes
  {
    [0] + LE(seqNo, 8) + session + canonical + OrEmpty(sig) + OrEmpty(prev)
  }

  /** Where the parts are: a zero, the seq in 8 bytes, then session id, canonical
      bytes, signature and previous link end to end; an absent part takes no room. */
  lemma {:induction false} LinkLayout(seqNo: nat, session: Bytes, canonical: Bytes, sig: Option<Bytes>,
                                      prev: Option<Digest>)
    ensures var b := LinkInput(seqNo, session, canonical, sig, prev);
      var c := 9 + |session|; var g := c + |canonical|; var p := g + if sig.Some? then |sig.value| else 0;
      && |b| == p + (if prev.Some? then 32 else 0)
      && b[0] == 0 && (seqNo < Pow256(8) ==> FromLE(b[1..9]) == seqNo)
      && b[9..c] == session && b[c..g] == canonical
      && (sig.Some? ==> b[g..p] == sig.value) && (prev.Some? ==> b[p..] == prev.value)
  {
    var z: Bytes, n, g, p := [0], LE(seqNo, 8), OrEmpty(sig), OrEmpty(prev);
    FiveParts(z, n, session, canonical, g, p);
    if seqNo < Pow256(8) {
      DecodeEncode(seqNo, 8);
    }
  }

  lemma {:induction false} FiveParts(z: Bytes, n: Bytes, a: Bytes, b: Bytes, c: Bytes, d: Bytes)
    requires |z| == 1 && |n| == 8
    ensures var all := z + n + a + b + c + d;
      && all[..1] == z && all[1..9] == n && all[9..9 + |a|] == a
      && all[9 + |a|..9 + |a| + |b|] == b
      && all[9 + |a| + |b|..9 + |a| + |b| + |c|] == c
      && all[9 + |a| + |b| + |c|..] == d
  {
    assert z + n + a + b + c + d == z + (n + a + b + c + d);
    assert z + n + a + b + c + d == z + n + (a + b + c + d);
    MiddleOf(z, n, a + b + c + d);
    assert z + n + a + b + c + d == z + n + a + (b + c + d);
    assert z + n + a + b + c + d == z + n + a + b + (c + d);
    MiddleOf(z + n, a, b + c + d);
    MiddleOf(z + n + a, b, c + d);
    MiddleOf(z + n + a + b, c, d);
  }

  /** The part of a packet that its own link authenticates. */
  function Body(session: Bytes, canonical: Bytes, sig: Option<Bytes>): Bytes {
    session + canonical + OrEmpty(sig)
  }

  /** The link of packet k in a gap-free chain with these bodies. */
  function Link(h: Hash, bodies: seq<Bytes>, k: nat): Digest
    requires k < |bodies|
    decreases k, 1
  {
    h(ChainInput(h, bodies, k))
  }

  function ChainInput(h: Hash, bodies: seq<Bytes>, k: nat): Bytes
    requires k < |bodies|
    decreases k, 0
  {
    [0] + LE(k, 8) + bodies[k] + (if k == 0 then [] else Link(h, bodies, k - 1))
  }

  lemma {:induction false} LinkInputIsChainInput(h: Hash, bodies: seq<Bytes>, k: nat,
                              session: Bytes, canonical: Bytes, sig: Option<Bytes>, prev: Option<Digest>)
    requires k < |bodies| && bodies[k] == Body(session, canonical, sig)
    requires prev == if k == 0 then None else Some(Link(h, bodies, k - 1))
    ensures LinkInput(k, session, canonical, sig, prev) == ChainInput(h, bodies, k)
  {
    ConcatAssociative([0] + LE(k, 8), session, canonical, OrEmpty(sig));
  }

  lemma {:induction false} ConcatAssociative(a: Bytes, b: Bytes, c: Bytes, d: Bytes)
    ensures a + b + c + d == a + (b + c + d)
  {
  }

  lemma {:induction false} SplitFramed(s: Bytes, b: Bytes, t: Bytes, s': Bytes, b': Bytes, t': Bytes)
    requires |s| == |s'| && [0] + s + b + t == [0] + s' + b' + t'
    ensures s == s' && b + t == b' + t'
  {
    ConcatAssociative([0], s, b, t);
    ConcatAssociative([0], s', b', t');
    SplitConcat([0], s + b + t, [0], s' + b' + t');
    assert s + b + t == s + (b + t) && s' + b' + t' == s' + (b' + t');
    SplitConcat(s, b + t, s', b' + t');
  }

  /** Equal inputs sit at the same position, so both or neither end in a
      predecessor link, and the rest of the bytes can be told apart. */
  lemma {:induction false} ChainInputInjective(h: Hash, a: seq<Bytes>, k: nat, b: seq<Bytes>, m: nat)
    requires k < |a| <= Pow256(8) && m < |b| <= Pow256(8)
    requires ChainInput(h, a, k) == ChainInput(h, b, m)
    ensures k == m && a[k] == b[k]
    ensures k > 0 ==> Link(h, a, k - 1) == Link(h, b, k - 1)
  {
    var s, s' := LE(k, 8), LE(m, 8);
    var t := if k == 0 then [] else Link(h, a, k - 1);
    var t' := if m == 0 then [] else Link(h, b, m - 1);
    SplitFramed(s, a[k], t, s', b[m], t');
    EncodeInjective(k, m, 8);
    SplitBodyTail(a[k], t, b[m], t');
  }

  lemma {:induction false} SplitBodyTail(b: Bytes, t: Bytes, b': Bytes, t': Bytes)
    requires |t| == |t'| && b + t == b' + t'
    ensures b == b' && t == t'
  {
    assert |b + t| == |b' + t'|;
    SplitConcat(b, t, b', t');
  }

  ghost predicate SamePrefix(a: seq<Bytes>, b: seq<Bytes>, n: nat) {
    n <= |a| && n <= |b| && a[..n] == b[..n]
  }

  lemma {:induction false} SamePrefixStep(a: seq<Bytes>, b: seq<Bytes>, n: nat)
    requires SamePrefix(a, b, n) && n < |a| && n < |b| && a[n] == b[n]
    ensures SamePrefix(a, b, n + 1)
  {
    assert a[..n + 1] == a[..n] + [a[n]] && b[..n + 1] == b[..n] + [b[n]];
  }

  /** Two gap-free chains that reach the same link, at positions k and m, have
      k == m and the same bodies up to there; otherwise the inputs hashed at the
      returned positions i and j collide. */
  lemma {:induction false} LinkBinding(h: Hash, a: seq<Bytes>, k: nat, b: seq<Bytes>, m: nat)
    returns (i: nat, j: nat)
    requires k < |a| <= Pow256(8) && m < |b| <= Pow256(8)
    requires Link(h, a, k) == Link(h, b, m)
    ensures i <= k && j <= m
    ensures (k == m && SamePrefix(a, b, k + 1)) ||
            Collides(h, ChainInput(h, a, i), ChainInput(h, b, j))
    decreases k
  {
    i, j := k, m;
    if ChainInput(h, a, k) == ChainInput(h, b, m) {
      ChainInputInjective(h, a, k, b, m);
      if k == 0 {
        SamePrefixStep(a, b, 0);
      } else {
        i, j := LinkBinding(h, a, k - 1, b, k - 1);
        if SamePrefix(a, b, k) {
          SamePrefixStep(a, b, k);
        }
      }
    }
  }

  /** A link depends only on the bodies up to it. */
  lemma {:induction false} LinkOfPrefix(h: Hash, a: seq<Bytes>, b: seq<Bytes>, n: nat, k: nat)
    requires k < n && SamePrefix(a, b, n)
    ensures Link(h, a, k) == Link(h, b, k)
    decreases k
  {
    assert a[k] == a[..n][k] && b[k] == b[..n][k];
    if k > 0 {
      LinkOfPrefix(h, a, b, n, k - 1);
    }
  }

  /** Changing the body of packet i changes its link and every later one, up to
      a collision between the inputs hashed at positions p and q. */
  lemma {:induction false} TamperChangesEveryLaterLink(h: Hash, a: seq<Bytes>, b: seq<Bytes>, i: nat, k: nat)
    returns (p: nat, q: nat)
    requires i <= k < |a| <= Pow256(8) && k < |b| <= Pow256(8)
    requires a[i] != b[i]
    ensures p <= k && q <= k
    ensures Link(h, a, k) != Link(h, b, k) ||
            Collides(h, ChainInput(h, a, p), ChainInput(h, b, q))
  {
    p, q := 0, 0;
    if Link(h, a, k) == Link(h, b, k) {
      p, q := LinkBinding(h, a, k, b, k);
      assert a[i] == a[..k + 1][i] && b[i] == b[..k + 1][i];
    }
  }

  /** Equal bodies have equal parts if the session ids and the canonical bytes
      have the same lengths; [1,2] alone and [1] signed [2] are one body. */
  lemma {:induction false} PartsOfBody(session: Bytes, canonical: Bytes, sig: Option<Bytes>,
                                       session': Bytes, canonical': Bytes, sig': Option<Bytes>)
    requires Body(session, canonical, sig) == Body(session', canonical', sig')
    requires |session| == |session'| && |canonical| == |canonical'|
    ensures session == session' && canonical == canonical' && OrEmpty(sig) == OrEmpty(sig')
  {
    SplitConcat(session + canonical, OrEmpty(sig), session' + canonical', OrEmpty(sig'));
    SplitConcat(session, canonical, session', canonical');
  }

  /** The chains are equal, or the inputs hashed at positions i and j collide. */
  ghost predicate SameOrCollide(h: Hash, a: seq<Bytes>, b: seq<Bytes>, i: nat, j: nat) {
    && i < |a| && j < |b|
    && (a == b || Collides(h, ChainInput(h, a, i), ChainInput(h, b, j)))
  }

  /** Two whole chains that end in the same link are the same chain: same
      length, bodies and links, up to a collision. */
  lemma {:induction false} ChainBinding(h: Hash, a: seq<Bytes>, b: seq<Bytes>) returns (i: nat, j: nat)
    requires 0 < |a| <= Pow256(8) && 0 < |b| <= Pow256(8)
    requires Link(h, a, |a| - 1) == Link(h, b, |b| - 1)
    ensures SameOrCollide(h, a, b, i, j)
  {
    i, j := LinkBinding(h, a, |a| - 1, b, |b| - 1);
    assert a[..|a|] == a && b[..|b|] == b;
  }

  // ----- Quote nonces (DeriveQuoteNonce in internal/tpm/attestation.go) -----

  function NonceInput(sessionNonce: Bytes, sha: Bytes, prev: Option<Digest>, seqNo: nat): Bytes {
    sessionNonce + sha + LE(seqNo, 8) + OrEmpty(prev)
  }

  lemma {:induction false} FourParts(a: Digest, b: Digest, n: Bytes, d: Bytes)
    requires |n| == 8
    ensures var all := a + b + n + d;
      |all| == 72 + |d| && all[..32] == a && all[32..64] == b && all[64..72] == n && all[72..] == d
  {
    assert a + b + n + d == a + b + (n + d);
    MiddleOf(a, b, n + d);
    MiddleOf(a + b, n, d);
  }

  /** Where the parts are: session nonce, packet digest, seq, previous link. */
  lemma {:induction false} NonceLayout(sessionNonce: Digest, sha: Digest, prev: Option<Digest>, seqNo: nat)
    ensures var b := NonceInput(sessionNonce, sha, prev, seqNo);
      && |b| == 72 + (if prev.Some? then 32 else 0)
      && b[..32] == sessionNonce && b[32..64] == sha
      && (seqNo < Pow256(8) ==> FromLE(b[64..72]) == seqNo)
      && (prev.Some? ==> b[72..] == prev.value)
  {
    FourParts(sessionNonce, sha, LE(seqNo, 8), OrEmpty(prev));
    if seqNo < Pow256(8) {
      DecodeEncode(seqNo, 8);
    }
  }

  /** A quote nonce binds session nonce, packet digest, position and predecessor,
      up to a collision. */
  lemma {:induction false} NonceBinding(h: Hash, n1: Digest, sha1: Digest, prev1: Option<Digest>, seq1: nat,
                     n2: Digest, sha2: Digest, prev2: Option<Digest>, seq2: nat)
    requires seq1 < Pow256(8) && seq2 < Pow256(8)
    requires h(NonceInput(n1, sha1, prev1, seq1)) == h(NonceInput(n2, sha2, prev2, seq2))
    ensures (n1 == n2 && sha1 == sha2 && prev1 == prev2 && seq1 == seq2) ||
            Collides(h, NonceInput(n1, sha1, prev1, seq1), NonceInput(n2, sha2, prev2, seq2))
  {
    if NonceInput(n1, sha1, prev1, seq1) == NonceInput(n2, sha2, prev2, seq2) {
      var head1, head2 := n1 + sha1, n2 + sha2;
      SplitConcat(head1 + LE(seq1, 8), OrEmpty(prev1), head2 + LE(seq2, 8), OrEmpty(prev2));
      SplitConcat(head1, LE(seq1, 8), head2, LE(seq2, 8));
      SplitConcat(n1, sha1, n2, sha2);
      EncodeInjective(seq1, seq2, 8);
    }
  }
}
