/** Byte strings, 32-byte digests, little-endian integers and hash collisions. */
module ByteStrings {

  datatype Option<+T> = None | Some(value: T)

  type byte = x: int | 0 <= x < 256
  type Bytes = seq<byte>

  function Zeros(n: nat): (b: Bytes)
    ensures |b| == n
  {
    seq<byte>(n, i => 0)
  }

  type Digest = b: Bytes | |b| == 32 witness Zeros(32)

  /** BLAKE3 and SHA-256 are parameters: any function to 32-byte strings. No
      injectivity is assumed; binding results exhibit the colliding inputs. */
  type Hash = Bytes -> Digest

  ghost predicate Collides(h: Hash, x: Bytes, y: Bytes) {
    x != y && h(x) == h(y)
  }

  /** An absent byte string contributes nothing to a hash input. */
  function OrEmpty(o: Option<Bytes>): Bytes {
    match o case None => [] case Some(b) => b
  }

  function Pow256(k: nat): (p: nat)
    ensures p > 0
  {
    if k == 0 then 1 else 256 * Pow256(k - 1)
  }

  /** The k low-order bytes of n, least significant first. */
  function LE(n: nat, k: nat): (b: Bytes)
    ensures |b| == k
    decreases n, k
  {
    if k == 0 then [] else [n % 256] + LE(n / 256, k - 1)
  }

  function FromLE(b: Bytes): nat {
    if b == [] then 0 else b[0] + 256 * FromLE(b[1..])
  }

  /** Decoding undoes encoding on every number that fits in k bytes. */
  lemma {:induction false} DecodeEncode(n: nat, k: nat)
    requires n < Pow256(k)
    ensures FromLE(LE(n, k)) == n
    decreases k
  {
    if k > 0 {
      DecodeEncode(n / 256, k - 1);
      assert LE(n, k)[1..] == LE(n / 256, k - 1);
    }
  }

  lemma {:induction false} DigitSplit(d: byte, v: nat)
    ensures (d + 256 * v) % 256 == d && (d + 256 * v) / 256 == v
  {
  }

  /** Encoding undoes decoding on every byte string. */
  lemma {:induction false} EncodeDecode(b: Bytes)
    ensures FromLE(b) < Pow256(|b|)
    ensures LE(FromLE(b), |b|) == b
  {
    if b != [] {
      EncodeDecode(b[1..]);
      var v := FromLE(b[1..]);
      DigitSplit(b[0], v);
    }
  }

  /** Byte i is the one of weight 256^i. */
  lemma {:induction false} EncodedByte(n: nat, k: nat, i: nat)
    requires i < k
    ensures LE(n, k)[i] == n / Pow256(i) % 256
    decreases k
  {
    if i == 0 {
      assert Pow256(0) == 1;
    } else {
      EncodedByte(n / 256, k - 1, i - 1);
      DivTwice(n, Pow256(i - 1));
    }
  }

  lemma {:induction false} DivTwice(n: nat, b: nat)
    requires b > 0
    ensures n / 256 / b == n / (256 * b)
  {
    var q, r := n / 256 / b, n / 256 % b;
    assert n / 256 == b * q + r;
    assert q * (256 * b) == 256 * (b * q);
    QuotientOf(n, q, 256 * b, 256 * r + n % 256);
  }

  lemma {:induction false} QuotientOf(n: nat, q: nat, m: int, r: nat)
    requires m > 0 && q * m + r == n && r < m
    ensures q == n / m && r == n % m
  {
    var d := n / m - q;
    assert d * m == n / m * m - q * m == r - n % m;
    assert d == 0 by {
      assert d >= 1 ==> d * m >= m;
      assert d <= -1 ==> d * m <= -m;
    }
  }

  lemma {:induction false} EncodeInjective(m: nat, n: nat, k: nat)
    requires m < Pow256(k) && n < Pow256(k) && LE(m, k) == LE(n, k)
    ensures m == n
  {
    DecodeEncode(m, k);
    DecodeEncode(n, k);
  }

  lemma {:induction false} MiddleOf(a: Bytes, x: Bytes, b: Bytes)
    ensures (a + x + b)[|a|..|a| + |x|] == x
  {
  }

  /** Splitting a concatenation at a known length. */
  lemma {:induction false} SplitConcat(a: Bytes, b: Bytes, c: Bytes, d: Bytes)
    requires |a| == |c| && a + b == c + d
    ensures a == c && b == d
  {
    assert a == (a + b)[..|a|] && c == (c + d)[..|a|];
    assert b == (a + b)[|a|..] && d == (c + d)[|a|..];
  }
}
