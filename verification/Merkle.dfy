/** The segment root of internal/uploader/uploader.go: a level-by-level
    reduction, specified by the recursive tree of section 2.1 of RFC 6962. */
module Merkle {
  import opened ByteStrings

  function NodeInput(left: Digest, right: Digest): Bytes {
    [1] + left + right
  }

  function LeafInput(index: nat, hash: Bytes): Bytes {
    [0] + LE(index, 8) + [0] + hash
  }

  // ----- The reference tree -----

  predicate IsPow2(p: nat) {
    p == 1 || (p > 1 && p % 2 == 0 && IsPow2(p / 2))
  }

  /** The largest power of two smaller than n. */
  function Split(n: nat): (k: nat)
    requires n >= 2
    ensures 1 <= k < n <= 2 * k
  {
    if n == 2 then 1 else 2 * Split((n + 1) / 2)
  }

  lemma {:induction false} SplitIsLargestPow2(n: nat, p: nat)
    requires n >= 2
    ensures IsPow2(Split(n))
    ensures IsPow2(p) && p < n ==> p <= Split(n)
  {
    if n > 2 {
      SplitIsLargestPow2((n + 1) / 2, p / 2);
    }
  }

  function RfcRoot(h: Hash, leaves: seq<Digest>): Digest
    requires |leaves| > 0
  {
    if |leaves| == 1 then leaves[0] else
      var k := Split(|leaves|);
      h(NodeInput(RfcRoot(h, leaves[..k]), RfcRoot(h, leaves[k..])))
  }

  // ----- One level of the reduction -----

  function NextLevel(h: Hash, level: seq<Digest>): (next: seq<Digest>)
    ensures |next| == (|level| + 1) / 2
  {
    if |level| < 2 then level
    else [h(NodeInput(level[0], level[1]))] + NextLevel(h, level[2..])
  }

  lemma {:induction false} FirstThenRest(a: seq<Digest>, b: seq<Digest>, c: seq<Digest>)
    ensures a + (b + c) == a + b + c
  {
  }

  lemma {:induction false} NextLevelSplits(h: Hash, level: seq<Digest>, k: nat)
    requires k <= |level| && k % 2 == 0
    ensures NextLevel(h, level) == NextLevel(h, level[..k]) + NextLevel(h, level[k..])
  {
    if k == 0 {
      assert level[..0] == [] && level[0..] == level;
    } else {
      var rest := level[2..];
      var first := [h(NodeInput(level[0], level[1]))];
      var head, tail := NextLevel(h, rest[..k - 2]), NextLevel(h, level[k..]);
      NextLevelSplits(h, rest, k - 2);
      assert level[..k][2..] == rest[..k - 2] && rest[k - 2..] == level[k..];
      assert NextLevel(h, level[..k]) == first + head by {
        assert level[..k][0] == level[0] && level[..k][1] == level[1];
      }
      FirstThenRest(first, head, tail);
    }
  }

  /** Reducing one level keeps the RFC 6962 root, odd promotion included. */
  lemma {:induction false} NextLevelKeepsRoot(h: Hash, level: seq<Digest>)
    requires |level| > 0
    ensures RfcRoot(h, NextLevel(h, level)) == RfcRoot(h, level)
    decreases |level|
  {
    if |level| == 2 {
      assert level[..1] == [level[0]] && level[1..] == [level[1]];
    } else if |level| > 2 {
      var k := Split(|level|);
      var next := NextLevel(h, level);
      NextLevelSplits(h, level, k);
      assert next[..k / 2] == NextLevel(h, level[..k]);
      assert next[k / 2..] == NextLevel(h, level[k..]);
      NextLevelKeepsRoot(h, level[..k]);
      NextLevelKeepsRoot(h, level[k..]);
    }
  }

  lemma {:induction false} NextLevelStep(h: Hash, level: seq<Digest>, i: nat, done: seq<Digest>)
    requires i + 1 < |level|
    ensures done + NextLevel(h, level[i..])
         == done + [h(NodeInput(level[i], level[i + 1]))] + NextLevel(h, level[i + 2..])
  {
    assert level[i..][2..] == level[i + 2..];
  }

  /** What is left when no pair is: the odd node, or nothing. */
  lemma {:induction false} NextLevelEnd(h: Hash, level: seq<Digest>, i: nat, done: seq<Digest>)
    requires i <= |level| <= i + 1 && i % 2 == 0
    ensures done + NextLevel(h, level[i..]) == if |level| % 2 == 1 then done + [level[i]] else done
  {
    assert NextLevel(h, level[i..]) == level[i..];
    if |level| == i + 1 {
      assert level[i..] == [level[i]];
    } else {
      assert done + [] == done;
    }
  }

  /** The loop of merkleReduce: one level, with odd promotion. */
  method ReduceLevel(h: Hash, level: seq<Digest>) returns (next: seq<Digest>)
    ensures next == NextLevel(h, level)
  {
    next := [];
    var i := 0;
    while i + 1 < |level|
      invariant 0 <= i <= |level|
      invariant |next| == i / 2 && i % 2 == 0
      invariant next + NextLevel(h, level[i..]) == NextLevel(h, level)
    {
      NextLevelStep(h, level, i, next);
      next := next + [h(NodeInput(level[i], level[i + 1]))];
      i := i + 2;
    }
    NextLevelEnd(h, level, i, next);
    if |level| % 2 == 1 {
      next := next + [level[|level| - 1]];
    }
  }

  method MerkleReduce(h: Hash, level: seq<Digest>) returns (root: Digest)
    requires |level| > 0
    ensures root == RfcRoot(h, level)
    decreases |level|
  {
    if |level| == 1 {
      root := level[0];
    } else {
      var next := ReduceLevel(h, level);
      NextLevelKeepsRoot(h, level);
      root := MerkleReduce(h, next);
    }
  }

  // ----- The segment root -----

  datatype Tree = Leaf(index: nat, hash: Bytes) | Node(left: Tree, right: Tree)

  /** The RFC 6962 shape over hashes, the first of which has leaf index base. */
  function Shape(hashes: seq<Bytes>, base: nat): Tree
    requires |hashes| > 0
    decreases |hashes|
  {
    if |hashes| == 1 then Leaf(base, hashes[0]) else
      var k := Split(|hashes|);
      Node(Shape(hashes[..k], base), Shape(hashes[k..], base + k))
  }

  /** The bytes hashed last to obtain the root of t. */
  function RootInput(h: Hash, t: Tree): Bytes
    decreases t, 0
  {
    match t
    case Leaf(i, hash) => LeafInput(i, hash)
    case Node(l, r) => NodeInput(Root(h, l), Root(h, r))
  }

  function Root(h: Hash, t: Tree): Digest
    decreases t, 1
  {
    h(RootInput(h, t))
  }

  function SegmentRoot(h: Hash, hashes: seq<Bytes>): Digest {
    if hashes == [] then h([1]) else Root(h, Shape(hashes, 0))
  }

  ghost predicate AreLeaves(h: Hash, hashes: seq<Bytes>, base: nat, leaves: seq<Digest>) {
    && |leaves| == |hashes|
    && forall i :: 0 <= i < |hashes| ==> leaves[i] == h(LeafInput(base + i, hashes[i]))
  }

  lemma {:induction false} LeavesRoot(h: Hash, hashes: seq<Bytes>, base: nat, leaves: seq<Digest>)
    requires |hashes| > 0 && AreLeaves(h, hashes, base, leaves)
    ensures RfcRoot(h, leaves) == Root(h, Shape(hashes, base))
    decreases |hashes|
  {
    if |hashes| > 1 {
      var k := Split(|hashes|);
      LeavesOfHalves(h, hashes, base, leaves, k);
      LeavesRoot(h, hashes[..k], base, leaves[..k]);
      LeavesRoot(h, hashes[k..], base + k, leaves[k..]);
      RootOfHalves(h, leaves, k, Shape(hashes[..k], base), Shape(hashes[k..], base + k));
      ShapeOfHalves(hashes, base, k);
    }
  }

  lemma {:induction false} ShapeOfHalves(hashes: seq<Bytes>, base: nat, k: nat)
    requires |hashes| > 1 && k == Split(|hashes|)
    ensures Shape(hashes, base) == Node(Shape(hashes[..k], base), Shape(hashes[k..], base + k))
  {
  }

  lemma {:induction false} RootOfHalves(h: Hash, leaves: seq<Digest>, k: nat, l: Tree, r: Tree)
    requires |leaves| > 1 && k == Split(|leaves|)
    requires RfcRoot(h, leaves[..k]) == Root(h, l) && RfcRoot(h, leaves[k..]) == Root(h, r)
    ensures RfcRoot(h, leaves) == Root(h, Node(l, r))
  {
  }

  lemma {:induction false} LeavesOfHalves(h: Hash, hashes: seq<Bytes>, base: nat, leaves: seq<Digest>, k: nat)
    requires AreLeaves(h, hashes, base, leaves) && k <= |hashes|
    ensures AreLeaves(h, hashes[..k], base, leaves[..k]) && AreLeaves(h, hashes[k..], base + k, leaves[k..])
  {
  }

  method LocalSegmentRoot(h: Hash, hashes: seq<Bytes>) returns (root: Digest)
    ensures root == SegmentRoot(h, hashes)
    ensures hashes == [] ==> root == h([1])
  {
    if |hashes| == 0 {
      return h([1]);
    }
    var leaves: seq<Digest> := [];
    for i := 0 to |hashes|
      invariant AreLeaves(h, hashes[..i], 0, leaves)
    {
      leaves := leaves + [h(LeafInput(i, hashes[i]))];
    }
    assert hashes[..|hashes|] == hashes;
    LeavesRoot(h, hashes, 0, leaves);
    root := MerkleReduce(h, leaves);
  }

  // ----- Binding -----

  /** The hashes of t, left to right. */
  function Hashes(t: Tree): seq<Bytes> {
    match t
    case Leaf(_, hash) => [hash]
    case Node(l, r) => Hashes(l) + Hashes(r)
  }

  lemma {:induction false} ShapeHashes(hashes: seq<Bytes>, base: nat)
    requires |hashes| > 0
    ensures Hashes(Shape(hashes, base)) == hashes
    decreases |hashes|
  {
    if |hashes| > 1 {
      var k := Split(|hashes|);
      ShapeHashes(hashes[..k], base);
      ShapeHashes(hashes[k..], base + k);
      ShapeOfHalves(hashes, base, k);
      assert hashes == hashes[..k] + hashes[k..];
    }
  }

  /** Every byte string hashed while computing the root of t. */
  ghost function Inputs(h: Hash, t: Tree): set<Bytes> {
    {RootInput(h, t)} + if t.Leaf? then {} else Inputs(h, t.left) + Inputs(h, t.right)
  }

  ghost function SegmentInputs(h: Hash, hashes: seq<Bytes>): set<Bytes> {
    if hashes == [] then {[1]} else Inputs(h, Shape(hashes, 0))
  }

  lemma {:induction false} NodeInputInjective(a: Digest, b: Digest, c: Digest, d: Digest)
    requires NodeInput(a, b) == NodeInput(c, d)
    ensures a == c && b == d
  {
    SplitConcat([1] + a, b, [1] + c, d);
    SplitConcat([1], a, [1], c);
  }

  lemma {:induction false} LeafInputInjective(i: nat, a: Bytes, j: nat, b: Bytes)
    requires LeafInput(i, a) == LeafInput(j, b)
    ensures a == b
    ensures i < Pow256(8) && j < Pow256(8) ==> i == j
  {
    SplitConcat([0] + LE(i, 8) + [0], a, [0] + LE(j, 8) + [0], b);
    SplitConcat([0] + LE(i, 8), [0], [0] + LE(j, 8), [0]);
    SplitConcat([0], LE(i, 8), [0], LE(j, 8));
    if i < Pow256(8) && j < Pow256(8) {
      EncodeInjective(i, j, 8);
    }
  }

  /** A leaf hashes a zero, its index in 8 bytes, a zero and its hash. */
  lemma {:induction false} LeafLayout(i: nat, hash: Bytes)
    ensures var b := LeafInput(i, hash);
      && |b| == 10 + |hash| && b[0] == 0 && b[9] == 0 && b[10..] == hash
      && (i < Pow256(8) ==> FromLE(b[1..9]) == i)
  {
    assert LeafInput(i, hash)[1..9] == LE(i, 8);
    if i < Pow256(8) {
      DecodeEncode(i, 8);
    }
  }

  /** An inner node hashes a one, the left and the right root. */
  lemma {:induction false} NodeLayout(left: Digest, right: Digest)
    ensures var b := NodeInput(left, right);
      |b| == 65 && b[0] == 1 && b[1..33] == left && b[33..] == right
  {
  }

  lemma {:induction false} InputsDifferInKind(i: nat, hash: Bytes, l: Digest, r: Digest)
    ensures LeafInput(i, hash)[0] == 0 && NodeInput(l, r)[0] == 1 && |NodeInput(l, r)| == 65
  {
  }

  /** The leaf indexes of t, left to right. */
  function Indexes(t: Tree): seq<nat> {
    match t
    case Leaf(i, _) => [i]
    case Node(l, r) => Indexes(l) + Indexes(r)
  }

  /** The leaves of a segment are numbered from base. */
  lemma {:induction false} ShapeIndexes(hashes: seq<Bytes>, base: nat)
    requires |hashes| > 0
    ensures Indexes(Shape(hashes, base)) == UpFrom(base, |hashes|)
    decreases |hashes|
  {
    if |hashes| > 1 {
      var k := Split(|hashes|);
      ShapeIndexes(hashes[..k], base);
      ShapeIndexes(hashes[k..], base + k);
      ShapeOfHalves(hashes, base, k);
      UpFromSplit(base, k, |hashes|);
    }
  }

  function UpFrom(base: nat, n: nat): seq<nat> {
    seq(n, k requires 0 <= k < n => base + k)
  }

  lemma {:induction false} UpFromSplit(base: nat, k: nat, n: nat)
    requires k <= n
    ensures UpFrom(base, k) + UpFrom(base + k, n - k) == UpFrom(base, n)
  {
  }

  /** Every leaf index fits its 8 bytes. */
  predicate Indexable(t: Tree) {
    match t
    case Leaf(i, _) => i < Pow256(8)
    case Node(l, r) => Indexable(l) && Indexable(r)
  }

  /** The same hashes, and the same shape and indexes if those fit. */
  ghost predicate SameTree(s: Tree, t: Tree) {
    Hashes(s) == Hashes(t) && (Indexable(s) && Indexable(t) ==> s == t)
  }

  /** Two trees of any shapes with the same root are the same tree, or x and y, one
      input of each computation, collide. */
  lemma {:induction false} TreeBinding(h: Hash, s: Tree, t: Tree) returns (x: Bytes, y: Bytes)
    requires Root(h, s) == Root(h, t)
    ensures SameTree(s, t) ||
            (Collides(h, x, y) && x in Inputs(h, s) && y in Inputs(h, t))
    decreases s
  {
    x, y := RootInput(h, s), RootInput(h, t);
    if x == y {
      match (s, t)
      case (Leaf(i, a), Leaf(j, b)) =>
        LeafInputInjective(i, a, j, b);
      case (Leaf(i, a), Node(l, r)) =>
        InputsDifferInKind(i, a, Root(h, l), Root(h, r));
      case (Node(l, r), Leaf(i, a)) =>
        InputsDifferInKind(i, a, Root(h, l), Root(h, r));
      case (Node(l, r), Node(l', r')) =>
        NodeInputInjective(Root(h, l), Root(h, r), Root(h, l'), Root(h, r'));
        x, y := TreeBinding(h, l, l');
        if SameTree(l, l') {
          x, y := TreeBinding(h, r, r');
        }
    }
  }

  /** Two hash lists of any lengths, empty included, with the same segment root
      are equal, or the proof returns one hashed input of each that collide. */
  lemma {:induction false} SegmentBinding(h: Hash, a: seq<Bytes>, b: seq<Bytes>) returns (x: Bytes, y: Bytes)
    requires SegmentRoot(h, a) == SegmentRoot(h, b)
    ensures a == b ||
            (Collides(h, x, y) && x in SegmentInputs(h, a) && y in SegmentInputs(h, b))
  {
    x, y := [1], [1];
    if a == [] && b != [] {
      y := RootInput(h, Shape(b, 0));
      NotEmptyInput(h, Shape(b, 0));
    } else if a != [] && b == [] {
      x := RootInput(h, Shape(a, 0));
      NotEmptyInput(h, Shape(a, 0));
    } else if a != [] {
      ShapeHashes(a, 0);
      ShapeHashes(b, 0);
      x, y := TreeBinding(h, Shape(a, 0), Shape(b, 0));
    }
  }

  lemma {:induction false} NotEmptyInput(h: Hash, t: Tree)
    ensures RootInput(h, t) != [1]
  {
    match t
    case Leaf(i, hash) => InputsDifferInKind(i, hash, Zeros(32), Zeros(32));
    case Node(l, r) => InputsDifferInKind(0, [], Root(h, l), Root(h, r));
  }
}
