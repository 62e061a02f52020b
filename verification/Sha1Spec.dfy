/**
 SHA-1 as FIPS 180-4 defines it: padding (section 5.1.1), initial hash value (section 5.3.1) and
 the 80-word computation (section 6.1.2). Nothing here follows the shape of the C code.
 */
module Sha1Spec {
  import opened Bytes

  type Word = bv32

  /** A hash value H(i), or the five working variables. */
  datatype Hash = Hash(a: Word, b: Word, c: Word, d: Word, e: Word)

  const INITIAL := Hash(0x67452301, 0xEFCDAB89, 0x98BADCFE, 0x10325476, 0xC3D2E1F0)

  function NextWord(p: Word, q: Word, r: Word, s: Word): Word {
    (p ^ q ^ r ^ s).RotateLeft(1)
  }

  /** The message schedule W(t). */
  function Schedule(m: seq<Word>, t: nat): Word
    requires |m| == 16
  {
    if t < 16 then m[t]
    else NextWord(Schedule(m, t - 3), Schedule(m, t - 8), Schedule(m, t - 14), Schedule(m, t - 16))
  }

  function Choose(x: Word, y: Word, z: Word): Word {
    (x & y) ^ (!x & z)
  }

  function Parity(x: Word, y: Word, z: Word): Word {
    x ^ y ^ z
  }

  function Majority(x: Word, y: Word, z: Word): Word {
    (x & y) ^ (x & z) ^ (y & z)
  }

  function RoundFunction(t: nat, x: Word, y: Word, z: Word): Word {
    if t < 20 then Choose(x, y, z)
    else if t < 40 then Parity(x, y, z)
    else if t < 60 then Majority(x, y, z)
    else Parity(x, y, z)
  }

  function RoundConstant(t: nat): Word {
    if t < 20 then 0x5A827999
    else if t < 40 then 0x6ED9EBA1
    else if t < 60 then 0x8F1BBCDC
    else 0xCA62C1D6
  }

  function Sum5(u: Word, v: Word, x: Word, y: Word, z: Word): Word {
    u + v + x + y + z
  }

  function Round(h: Hash, w: Word, t: nat): Hash {
    var temp := Sum5(h.a.RotateLeft(5), RoundFunction(t, h.b, h.c, h.d), h.e, RoundConstant(t), w);
    Hash(temp, h.a, h.b.RotateLeft(30), h.c, h.d)
  }

  /** The working variables after the first `t` rounds on block `m`. */
  function Rounds(h: Hash, m: seq<Word>, t: nat): Hash
    requires |m| == 16
  {
    if t == 0 then h else Round(Rounds(h, m, t - 1), Schedule(m, t - 1), t - 1)
  }

  function AddHash(h: Hash, r: Hash): Hash {
    Hash(h.a + r.a, h.b + r.b, h.c + r.c, h.d + r.d, h.e + r.e)
  }

  function Compress(h: Hash, m: seq<Word>): Hash
    requires |m| == 16
  {
    AddHash(h, Rounds(h, m, 80))
  }

  function Bits(b: byte): Word {
    (b as bv8) as bv32
  }

  /** Four bytes as a word, the most significant first. */
  function BigWord(a: Word, b: Word, c: Word, d: Word): Word {
    (a << 24) | (b << 16) | (c << 8) | d
  }

  function WordAt(s: seq<byte>, k: nat): Word
    requires k + 4 <= |s|
  {
    BigWord(Bits(s[k]), Bits(s[k + 1]), Bits(s[k + 2]), Bits(s[k + 3]))
  }

  function BlockWords(block: seq<byte>): (m: seq<Word>)
    requires |block| == 64
    ensures |m| == 16
    ensures forall i :: 0 <= i < 16 ==> m[i] == WordAt(block, 4 * i)
  {
    seq(16, i requires 0 <= i < 16 => WordAt(block, 4 * i))
  }

  /** H(N): the hash value after the blocks of `s`. */
  function Fold(s: seq<byte>): Hash
    requires |s| % 64 == 0
    decreases |s|
  {
    if s == [] then INITIAL
    else Compress(Fold(s[..|s| - 64]), BlockWords(s[|s| - 64..]))
  }

  /** The number of zero bytes after the 0x80 byte for a message of `n` bytes. */
  function ZeroBytes(n: nat): nat {
    (55 - n as int) % 64
  }

  /** The bit length in 64 bits. The standard defines SHA-1 below 2^64 bits; the code drops the rest. */
  function LengthField(n: nat): (s: seq<byte>)
    ensures |s| == 8
  {
    BigEndian(8 * n % TWO64, 8)
  }

  /** What follows a message of `n` bytes. */
  function Padding(n: nat): (p: seq<byte>)
    ensures (n + |p|) % 64 == 0
  {
    var z := ZeroBytes(n);
    assert (n + 9 + z) % 64 == 0;
    [0x80] + Zeros(z) + LengthField(n)
  }

  function Pad(msg: seq<byte>): (p: seq<byte>)
    ensures |p| % 64 == 0
  {
    msg + Padding(|msg|)
  }

  function LowByte(w: Word): byte {
    ((w & 0xFF) as bv8) as byte
  }

  function WordBytes(w: Word): (s: seq<byte>)
    ensures |s| == 4
  {
    [LowByte(w >> 24), LowByte(w >> 16), LowByte(w >> 8), LowByte(w)]
  }

  function HashBytes(h: Hash): (s: seq<byte>)
    ensures |s| == 20
  {
    WordBytes(h.a) + WordBytes(h.b) + WordBytes(h.c) + WordBytes(h.d) + WordBytes(h.e)
  }

  function Digest(msg: seq<byte>): (s: seq<byte>)
    ensures |s| == 20
  {
    HashBytes(Fold(Pad(msg)))
  }

  /** Section 5.1.1: `k` zero bits follow the 1 bit, where k is the smallest non-negative solution
      of l + 1 + k = 448 (mod 512) for a message of l bits. */
  ghost predicate IsPaddingBits(l: nat, k: nat) {
    (l + 1 + k) % 512 == 448
  }

  lemma ZeroBytesIsPadding(n: nat)
    ensures ZeroBytes(n) < 64
    ensures IsPaddingBits(8 * n, 8 * ZeroBytes(n) + 7)
  {
    var z := ZeroBytes(n);
    assert (n + 1 + z) % 64 == 56;
    assert 8 * n + 1 + (8 * z + 7) == 8 * (n + 1 + z);
  }

  lemma ZeroBytesIsShortest(n: nat, k: nat)
    requires IsPaddingBits(8 * n, k)
    ensures 8 * ZeroBytes(n) + 7 <= k
  {
    ZeroBytesIsPadding(n);
    var least := 8 * ZeroBytes(n) + 7;
    var a, b := (8 * n + 1 + k) / 512, (8 * n + 1 + least) / 512;
    assert k - least == 512 * (a - b);
  }

  /** Padding can be undone: no two messages below 2^61 bytes share a padded form. */
  lemma PadInjective(a: seq<byte>, b: seq<byte>)
    requires 8 * |a| < TWO64 && 8 * |b| < TWO64
    requires Pad(a) == Pad(b)
    ensures a == b
  {
    LengthFieldValue(a);
    LengthFieldValue(b);
    assert a == Pad(a)[..|a|] && b == Pad(b)[..|b|];
  }

  lemma LengthFieldValue(a: seq<byte>)
    requires 8 * |a| < TWO64
    ensures FromBigEndian(Pad(a)[|Pad(a)| - 8..]) == 8 * |a|
  {
    var bits := 8 * |a|;
    assert Pad(a)[|Pad(a)| - 8..] == LengthField(|a|);
    assert bits % TWO64 == bits;
    Pow256Eight();
    BigEndianRoundTrip(bits, 8);
  }
}
