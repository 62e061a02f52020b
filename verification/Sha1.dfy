/** SHA-1 as `src/helpers/sha1.c` computes it, proved equal to `Sha1Spec`. */
module Sha1 {
  import opened Bytes
  import opened Sha1Spec

  function Rol(value: Word, bits: nat): Word
    requires 0 < bits < 32
  {
    (value << bits) | (value >> (32 - bits))
  }

  /** Four bytes as a word, the least significant first. */
  function LittleWord(a: Word, b: Word, c: Word, d: Word): Word {
    a | (b << 8) | (c << 16) | (d << 24)
  }

  /** A word as a little-endian machine loads it. */
  function Loaded(s: seq<byte>, k: nat): Word
    requires k + 4 <= |s|
  {
    LittleWord(Bits(s[k]), Bits(s[k + 1]), Bits(s[k + 2]), Bits(s[k + 3]))
  }

  /** `blk0_le`. */
  function Swapped(x: Word): Word {
    (Rol(x, 24) & 0xFF00FF00) | (Rol(x, 8) & 0x00FF00FF)
  }

  /** The four bytes of `x`, each moved to its place. */
  function Shuffled(x: Word): Word {
    (x << 24) | ((x & 0xFF00) << 8) | ((x >> 8) & 0xFF00) | (x >> 24)
  }

  lemma RolIs(x: Word)
    ensures Rol(x, 24) == (x << 24) | (x >> 8)
    ensures Rol(x, 8) == (x << 8) | (x >> 24)
  {
  }

  lemma MaskedRotations(x: Word)
    ensures (((x << 24) | (x >> 8)) & 0xFF00FF00) | (((x << 8) | (x >> 24)) & 0x00FF00FF) ==
            (x << 24) | ((x & 0xFF00) << 8) | ((x >> 8) & 0xFF00) | (x >> 24)
  {
  }

  lemma SwappedIsShuffled(x: Word)
    ensures Swapped(x) == Shuffled(x)
  {
    RolIs(x);
    MaskedRotations(x);
  }

  lemma ShuffledWord(a: Word, b: Word, c: Word, d: Word)
    requires a <= 0xFF && b <= 0xFF && c <= 0xFF && d <= 0xFF
    ensures Shuffled(LittleWord(a, b, c, d)) == BigWord(a, b, c, d)
  {
  }

  lemma WidenedByte(x: bv8)
    ensures (x as bv32) <= 0xFF
  {
  }

  lemma BitsAreSmall(b: byte)
    ensures Bits(b) <= 0xFF
  {
    WidenedByte(b as bv8);
  }

  lemma SwapBytes(a: byte, b: byte, c: byte, d: byte)
    ensures Swapped(LittleWord(Bits(a), Bits(b), Bits(c), Bits(d))) == BigWord(Bits(a), Bits(b), Bits(c), Bits(d))
  {
    BitsAreSmall(a);
    BitsAreSmall(b);
    BitsAreSmall(c);
    BitsAreSmall(d);
    SwappedIsShuffled(LittleWord(Bits(a), Bits(b), Bits(c), Bits(d)));
    ShuffledWord(Bits(a), Bits(b), Bits(c), Bits(d));
  }

  lemma ByteSwap(s: seq<byte>, k: nat)
    requires k + 4 <= |s|
    ensures Swapped(Loaded(s, k)) == WordAt(s, k)
  {
    SwapBytes(s[k], s[k + 1], s[k + 2], s[k + 3]);
  }

  // The macros' expressions on words, apart from the heap: there they are plain bit-vector identities.

  lemma RoundIdentities(w: Word, x: Word, y: Word)
    ensures (w & (x ^ y)) ^ y == Choose(w, x, y)
    ensures ((w | x) & y) | (w & x) == Majority(w, x, y)
  {
  }

  method NextBits(p: Word, q: Word, r: Word, s: Word) returns (word: Word)
    ensures word == NextWord(p, q, r, s)
  {
    word := Rol(p ^ q ^ r ^ s, 1);
  }

  method SwapBits(x: Word, ghost s: seq<byte>, ghost k: nat) returns (word: Word)
    requires k + 4 <= |s| && x == Loaded(s, k)
    ensures word == WordAt(s, k)
  {
    word := Swapped(x);
    ByteSwap(s, k);
  }

  lemma Reassociate(z: Word, f: Word, word: Word, k: Word, r: Word)
    ensures z + (f + word + k + r) == Sum5(r, f, z, k, word)
  {
  }

  lemma Rotations(x: Word)
    ensures Rol(x, 5) == x.RotateLeft(5) && Rol(x, 30) == x.RotateLeft(30)
  {
  }

  /** The assignments every round macro makes to its fifth and second register. */
  method Mix(v: Word, w: Word, z: Word, f: Word, word: Word, k: Word) returns (w': Word, z': Word)
    ensures z' == Sum5(v.RotateLeft(5), f, z, k, word)
    ensures w' == w.RotateLeft(30)
  {
    z' := z + (f + word + k + Rol(v, 5));
    w' := Rol(w, 30);
    Reassociate(z, f, word, k, Rol(v, 5));
    Rotations(v);
    Rotations(w);
  }

  method Step1(v: Word, w: Word, x: Word, y: Word, z: Word, word: Word, ghost i: nat) returns (w': Word, z': Word)
    requires 0 <= i < 20
    ensures Hash(z', v, w', x, y) == Round(Hash(v, w, x, y, z), word, i)
  {
    var f := (w & (x ^ y)) ^ y;
    RoundIdentities(w, x, y);
    w', z' := Mix(v, w, z, f, word, 0x5A827999);
  }

  method Step2(v: Word, w: Word, x: Word, y: Word, z: Word, word: Word, ghost i: nat) returns (w': Word, z': Word)
    requires 20 <= i < 40
    ensures Hash(z', v, w', x, y) == Round(Hash(v, w, x, y, z), word, i)
  {
    var f := w ^ x ^ y;
    w', z' := Mix(v, w, z, f, word, 0x6ED9EBA1);
  }

  method Step3(v: Word, w: Word, x: Word, y: Word, z: Word, word: Word, ghost i: nat) returns (w': Word, z': Word)
    requires 40 <= i < 60
    ensures Hash(z', v, w', x, y) == Round(Hash(v, w, x, y, z), word, i)
  {
    var f := ((w | x) & y) | (w & x);
    RoundIdentities(w, x, y);
    w', z' := Mix(v, w, z, f, word, 0x8F1BBCDC);
  }

  method Step4(v: Word, w: Word, x: Word, y: Word, z: Word, word: Word, ghost i: nat) returns (w': Word, z': Word)
    requires 60 <= i < 80
    ensures Hash(z', v, w', x, y) == Round(Hash(v, w, x, y, z), word, i)
  {
    var f := w ^ x ^ y;
    w', z' := Mix(v, w, z, f, word, 0xCA62C1D6);
  }

  // The eighty schedule words and the eighty-one values of the working variables are kept as
  // sequences, each step of which is a named predicate, so that a round mentions only its own step.

  ghost predicate ScheduleStep(ws: seq<Word>, t: nat)
    requires |ws| == 80 && 16 <= t < 80
  {
    ws[t] == NextWord(ws[t - 3], ws[t - 8], ws[t - 14], ws[t - 16])
  }

  ghost predicate IsSchedule(ws: seq<Word>) {
    |ws| == 80 && forall t {:trigger ScheduleStep(ws, t)} :: 16 <= t < 80 ==> ScheduleStep(ws, t)
  }

  ghost predicate RoundStep(tr: seq<Hash>, ws: seq<Word>, t: nat)
    requires |tr| == 81 && |ws| == 80 && t < 80
  {
    tr[t + 1] == Round(tr[t], ws[t], t)
  }

  ghost predicate IsTrace(tr: seq<Hash>, ws: seq<Word>)
    requires |ws| == 80
  {
    |tr| == 81 && forall t {:trigger RoundStep(tr, ws, t)} :: 0 <= t < 80 ==> RoundStep(tr, ws, t)
  }

  /** While the first sixteen rounds run, words below `t` are swapped and the others are raw. */
  ghost predicate Loading(l: seq<Word>, block: seq<byte>, t: nat)
    requires |l| == 16 && |block| == 64
  {
    forall k :: 0 <= k < 16 ==> l[k] == if k < t then WordAt(block, 4 * k) else Loaded(block, 4 * k)
  }

  /** From round 16 on, the sixteen words are the last sixteen of the schedule, W(k) at k mod 16. */
  ghost predicate Window(l: seq<Word>, ws: seq<Word>, t: nat)
    requires |l| == 16 && 16 <= t <= |ws|
  {
    forall k :: t - 16 <= k < t ==> l[k % 16] == ws[k]
  }

  lemma WindowAfterLoading(l: seq<Word>, block: seq<byte>, ws: seq<Word>)
    requires |l| == 16 && |block| == 64 && |ws| == 80
    requires Loading(l, block, 16) && ws[..16] == BlockWords(block)
    ensures Window(l, ws, 16)
  {
    var m := BlockWords(block);
    WordsLoaded(l, block, m);
    SameWindow(l, m, ws);
  }

  lemma WordsLoaded(l: seq<Word>, block: seq<byte>, m: seq<Word>)
    requires |l| == 16 && |block| == 64 && Loading(l, block, 16) && m == BlockWords(block)
    ensures l == m
  {
    forall k | 0 <= k < 16
      ensures l[k] == m[k]
    {
    }
  }

  lemma SameWindow(l: seq<Word>, m: seq<Word>, ws: seq<Word>)
    requires |l| == 16 && |ws| == 80 && l == m && ws[..16] == m
    ensures Window(l, ws, 16)
  {
    forall k | 0 <= k < 16
      ensures l[k % 16] == ws[k]
    {
      assert ws[k] == ws[..16][k] && k % 16 == k;
    }
  }

  method R0(l: array<Word>, v: Word, w: Word, x: Word, y: Word, z: Word, i: nat,
            ghost block: seq<byte>, ghost ws: seq<Word>, ghost tr: seq<Hash>)
    returns (w': Word, z': Word)
    requires l.Length == 16 && |block| == 64 && i < 16 && |ws| == 80 && IsTrace(tr, ws)
    requires Loading(l[..], block, i) && ws[..16] == BlockWords(block)
    requires Hash(v, w, x, y, z) == tr[i]
    modifies l
    ensures Loading(l[..], block, i + 1)
    ensures Hash(z', v, w', x, y) == tr[i + 1]
  {
    var word := Swap(l, i, block);
    assert word == ws[..16][i];
    assert RoundStep(tr, ws, i);
    w', z' := Step1(v, w, x, y, z, word, i);
  }

  /** `blk0(i)` on a little-endian machine: the block word, swapped in place. */
  method Swap(l: array<Word>, i: nat, ghost block: seq<byte>) returns (word: Word)
    requires l.Length == 16 && |block| == 64 && i < 16
    requires Loading(l[..], block, i)
    modifies l
    ensures word == WordAt(block, 4 * i)
    ensures Loading(l[..], block, i + 1)
  {
    assert l[..][i] == Loaded(block, 4 * i);
    word := SwapBits(l[i], block, 4 * i);
    l[i] := word;
  }

  /** `blk(i)`: the next schedule word, written over the oldest one. */
  method Expand(l: array<Word>, i: nat, ghost ws: seq<Word>) returns (word: Word)
    requires l.Length == 16 && IsSchedule(ws) && 16 <= i < 80
    requires Window(l[..], ws, i)
    modifies l
    ensures word == ws[i]
    ensures Window(l[..], ws, i + 1)
  {
    assert ScheduleStep(ws, i);
    assert l[..][(i - 3) % 16] == ws[i - 3];
    assert l[..][(i - 8) % 16] == ws[i - 8];
    assert l[..][(i - 14) % 16] == ws[i - 14];
    assert l[..][(i - 16) % 16] == ws[i - 16];
    word := NextBits(l[(i + 13) % 16], l[(i + 8) % 16], l[(i + 2) % 16], l[i % 16]);
    l[i % 16] := word;
  }

  /** `R1` to `R4`, as the unrolled calls choose them by round. */
  method R(l: array<Word>, v: Word, w: Word, x: Word, y: Word, z: Word, i: nat,
           ghost ws: seq<Word>, ghost tr: seq<Hash>)
    returns (w': Word, z': Word)
    requires l.Length == 16 && 16 <= i < 80 && IsSchedule(ws) && IsTrace(tr, ws)
    requires Window(l[..], ws, i)
    requires Hash(v, w, x, y, z) == tr[i]
    modifies l
    ensures Window(l[..], ws, i + 1)
    ensures Hash(z', v, w', x, y) == tr[i + 1]
  {
    assert RoundStep(tr, ws, i);
    var word := Expand(l, i, ws);
    if i < 20 {
      w', z' := Step1(v, w, x, y, z, word, i);
    } else if i < 40 {
      w', z' := Step2(v, w, x, y, z, word, i);
    } else if i < 60 {
      w', z' := Step3(v, w, x, y, z, word, i);
    } else {
      w', z' := Step4(v, w, x, y, z, word, i);
    }
  }

  // The eighty macro calls come in runs of five, after which every register is back in its own role.

  method FiveLoad(l: array<Word>, r: Hash, i: nat, ghost block: seq<byte>, ghost ws: seq<Word>, ghost tr: seq<Hash>)
    returns (r': Hash)
    requires l.Length == 16 && IsSchedule(ws) && IsTrace(tr, ws) && 0 <= i <= 10
    requires |block| == 64 && Loading(l[..], block, i) && ws[..16] == BlockWords(block)
    requires r == tr[i]
    modifies l
    ensures Loading(l[..], block, i + 5)
    ensures r' == tr[i + 5]
  {
    var Hash(a, b, c, d, e) := r;
    b, e := R0(l, a, b, c, d, e, i, block, ws, tr);
    a, d := R0(l, e, a, b, c, d, i + 1, block, ws, tr);
    e, c := R0(l, d, e, a, b, c, i + 2, block, ws, tr);
    d, b := R0(l, c, d, e, a, b, i + 3, block, ws, tr);
    c, a := R0(l, b, c, d, e, a, i + 4, block, ws, tr);
    r' := Hash(a, b, c, d, e);
  }

  method FiveTurn(l: array<Word>, r: Hash, i: nat, ghost block: seq<byte>, ghost ws: seq<Word>, ghost tr: seq<Hash>)
    returns (r': Hash)
    requires l.Length == 16 && IsSchedule(ws) && IsTrace(tr, ws) && i == 15
    requires |block| == 64 && Loading(l[..], block, i) && ws[..16] == BlockWords(block)
    requires r == tr[i]
    modifies l
    ensures Window(l[..], ws, i + 5)
    ensures r' == tr[i + 5]
  {
    var Hash(a, b, c, d, e) := r;
    b, e := R0(l, a, b, c, d, e, i, block, ws, tr);
    WindowAfterLoading(l[..], block, ws);
    a, d := R(l, e, a, b, c, d, i + 1, ws, tr);
    e, c := R(l, d, e, a, b, c, i + 2, ws, tr);
    d, b := R(l, c, d, e, a, b, i + 3, ws, tr);
    c, a := R(l, b, c, d, e, a, i + 4, ws, tr);
    r' := Hash(a, b, c, d, e);
  }

  method Five(l: array<Word>, r: Hash, i: nat, ghost ws: seq<Word>, ghost tr: seq<Hash>)
    returns (r': Hash)
    requires l.Length == 16 && IsSchedule(ws) && IsTrace(tr, ws) && 20 <= i <= 75
    requires Window(l[..], ws, i)
    requires r == tr[i]
    modifies l
    ensures Window(l[..], ws, i + 5)
    ensures r' == tr[i + 5]
  {
    var Hash(a, b, c, d, e) := r;
    b, e := R(l, a, b, c, d, e, i, ws, tr);
    a, d := R(l, e, a, b, c, d, i + 1, ws, tr);
    e, c := R(l, d, e, a, b, c, i + 2, ws, tr);
    d, b := R(l, c, d, e, a, b, i + 3, ws, tr);
    c, a := R(l, b, c, d, e, a, i + 4, ws, tr);
    r' := Hash(a, b, c, d, e);
  }

  method Twenty(l: array<Word>, r: Hash, i: nat, ghost ws: seq<Word>, ghost tr: seq<Hash>) returns (r': Hash)
    requires l.Length == 16 && IsSchedule(ws) && IsTrace(tr, ws) && 20 <= i <= 60
    requires Window(l[..], ws, i)
    requires r == tr[i]
    modifies l
    ensures Window(l[..], ws, i + 20)
    ensures r' == tr[i + 20]
  {
    r' := Five(l, r, i, ws, tr);
    r' := Five(l, r', i + 5, ws, tr);
    r' := Five(l, r', i + 10, ws, tr);
    r' := Five(l, r', i + 15, ws, tr);
  }

  method FirstTwenty(l: array<Word>, r: Hash, ghost block: seq<byte>, ghost ws: seq<Word>, ghost tr: seq<Hash>)
    returns (r': Hash)
    requires l.Length == 16 && |block| == 64 && IsSchedule(ws) && IsTrace(tr, ws)
    requires Loading(l[..], block, 0) && ws[..16] == BlockWords(block)
    requires r == tr[0]
    modifies l
    ensures Window(l[..], ws, 20)
    ensures r' == tr[20]
  {
    r' := FiveLoad(l, r, 0, block, ws, tr);
    r' := FiveLoad(l, r', 5, block, ws, tr);
    r' := FiveLoad(l, r', 10, block, ws, tr);
    r' := FiveTurn(l, r', 15, block, ws, tr);
  }

  function HashOf(state: seq<Word>): Hash
    requires |state| == 5
  {
    Hash(state[0], state[1], state[2], state[3], state[4])
  }

  lemma {:induction false} ScheduleAndTrace(h: Hash, m: seq<Word>) returns (ws: seq<Word>, tr: seq<Hash>)
    requires |m| == 16
    ensures IsSchedule(ws) && IsTrace(tr, ws)
    ensures ws[..16] == m && tr[0] == h && tr[80] == Rounds(h, m, 80)
  {
    ws := seq(80, t requires 0 <= t < 80 => Schedule(m, t));
    tr := seq(81, t requires 0 <= t < 81 => Rounds(h, m, t));
  }

  /** `SHA1Transform`. */
  method Transform(state: array<Word>, block: seq<byte>)
    requires state.Length == 5 && |block| == 64
    modifies state
    ensures HashOf(state[..]) == Compress(old(HashOf(state[..])), BlockWords(block))
  {
    var l := new Word[16](k requires 0 <= k < 16 => Loaded(block, 4 * k));
    var r := HashOf(state[..]);
    ghost var ws, tr := ScheduleAndTrace(r, BlockWords(block));
    r := FirstTwenty(l, r, block, ws, tr);
    r := Twenty(l, r, 20, ws, tr);
    r := Twenty(l, r, 40, ws, tr);
    r := Twenty(l, r, 60, ws, tr);
    AddTo(state, r);
  }

  method AddTo(state: array<Word>, r: Hash)
    requires state.Length == 5
    modifies state
    ensures HashOf(state[..]) == AddHash(old(HashOf(state[..])), r)
  {
    var sum := AddHash(HashOf(state[..]), r);
    Store(state, sum);
  }

  method Store(state: array<Word>, h: Hash)
    requires state.Length == 5
    modifies state
    ensures HashOf(state[..]) == h
  {
    state[0], state[1], state[2], state[3], state[4] := h.a, h.b, h.c, h.d, h.e;
  }

  // ----- the context: SHA1Init, SHA1Update, SHA1Final -----

  lemma CountAfter(n: nat, lo: nat, hi: nat, len: nat, lo': nat, carried: nat, hi': nat)
    requires lo < TWO32 && hi < TWO32 && len < TWO32
    requires hi * TWO32 + lo == 8 * n % TWO64
    requires lo' == (lo + 8 * len % TWO32) % TWO32
    requires carried == if lo' < lo then (hi + 1) % TWO32 else hi
    requires hi' == (carried + len / 0x2000_0000) % TWO32
    ensures lo' < TWO32 && hi' < TWO32
    ensures hi' * TWO32 + lo' == 8 * (n + len) % TWO64
  {
    var q, x := len / 0x2000_0000, 8 * len % TWO32;
    var c := if lo' < lo then 1 else 0;
    LengthParts(len);
    LowSum(lo, x, lo');
    var d := (hi + c + q) / TWO32;
    HighSum(hi, c, q, carried, hi');
    var top := 8 * n / TWO64;
    assert 8 * n == top * TWO64 + hi * TWO32 + lo;
    Remainder(8 * (n + len), top + d, hi' * TWO32 + lo');
  }

  lemma Remainder(m: nat, q: nat, r: nat)
    requires m == q * TWO64 + r && r < TWO64
    ensures m % TWO64 == r
  {
  }

  lemma LengthParts(len: nat)
    ensures 8 * len == len / 0x2000_0000 * TWO32 + 8 * len % TWO32
  {
  }

  /** A 32-bit sum is smaller than a term of it exactly when it wrapped. */
  lemma LowSum(lo: nat, x: nat, lo': nat)
    requires lo < TWO32 && x < TWO32 && lo' == (lo + x) % TWO32
    ensures lo + x == lo' + (if lo' < lo then TWO32 else 0)
  {
  }

  lemma HighSum(hi: nat, c: nat, q: nat, carried: nat, hi': nat)
    requires c <= 1 && carried == (if c == 1 then (hi + 1) % TWO32 else hi)
    requires hi' == (carried + q) % TWO32
    ensures hi + c + q == hi' + (hi + c + q) / TWO32 * TWO32
  {
  }

  lemma BufferedCount(n: nat, lo: nat, hi: nat)
    requires hi * TWO32 + lo == 8 * n % TWO64
    ensures lo / 8 % 64 == n % 64
  {
    var top := 8 * n / TWO64;
    assert 8 * n == top * TWO64 + hi * TWO32 + lo;
    assert lo / 8 == n - 64 * (top * 0x80_0000_0000_0000 + hi * 0x80_0000);
  }

  lemma SplitByte(hi: nat, p: nat, lo: nat)
    ensures hi * (256 * p) + lo == 256 * (hi * p) + lo
    ensures (hi * (256 * p) + lo) / 256 == hi * p + lo / 256
    ensures (hi * (256 * p) + lo) % 256 == lo % 256
  {
    var x := hi * p;
    assert hi * (256 * p) == 256 * x;
    Shift256(x, lo);
  }

  lemma Shift256(x: nat, lo: nat)
    ensures (256 * x + lo) / 256 == x + lo / 256 && (256 * x + lo) % 256 == lo % 256
  {
  }

  lemma {:induction false} BigEndianSplit(hi: nat, lo: nat, j: nat, k: nat)
    requires lo < Pow256(k)
    ensures BigEndian(hi * Pow256(k) + lo, j + k) == BigEndian(hi, j) + BigEndian(lo, k)
  {
    if k > 0 {
      var p := Pow256(k - 1);
      DivLess(lo, p);
      SplitByte(hi, p, lo);
      BigEndianSplit(hi, lo / 256, j, k - 1);
    }
  }

  /** The byte `SHA1Final` shifts out of a count word. */
  function WordByte(n: nat, i: nat): byte
    requires i < 4
  {
    ToByte(n / Pow256(3 - i))
  }

  lemma WordByteAt(n: nat, i: nat)
    requires i < 4
    ensures WordByte(n, i) == BigEndian(n, 4)[i]
  {
    BigEndianAt(n, 4, i);
  }

  /** The byte of the count array that `SHA1Final` writes at position `i`. */
  function CountByte(lo: nat, hi: nat, i: nat): byte
    requires i < 8
  {
    WordByte(if i >= 4 then lo else hi, i % 4)
  }

  lemma CountByteAt(lo: nat, hi: nat, i: nat)
    requires i < 8
    ensures CountByte(lo, hi, i) == (BigEndian(hi, 4) + BigEndian(lo, 4))[i]
  {
    assert i % 4 == if i >= 4 then i - 4 else i;
    WordByteAt(if i >= 4 then lo else hi, i % 4);
  }

  lemma CountIsBigEndian(lo: nat, hi: nat)
    requires lo < TWO32
    ensures BigEndian(hi, 4) + BigEndian(lo, 4) == BigEndian(hi * TWO32 + lo, 8)
  {
    assert Pow256(4) == TWO32;
    BigEndianSplit(hi, lo, 4, 4);
  }

  /** The shift of `(3 - (i & 3)) * 8` bits that `SHA1Final` takes byte `i` of the digest from. */
  function Shifted(w: Word, i: nat): Word {
    match i % 4
    case 0 => w >> 24
    case 1 => w >> 16
    case 2 => w >> 8
    case _ => w
  }

  lemma HashBytesAt(state: seq<Word>, i: nat)
    requires |state| == 5 && i < 20
    ensures HashBytes(HashOf(state))[i] == LowByte(Shifted(state[i / 4], i))
  {
    WordBytesAt(state[i / 4], i);
    ConcatAt(WordBytes(state[0]), WordBytes(state[1]), WordBytes(state[2]),
             WordBytes(state[3]), WordBytes(state[4]), i);
  }

  lemma ConcatAt(a: seq<byte>, b: seq<byte>, c: seq<byte>, d: seq<byte>, e: seq<byte>, i: nat)
    requires |a| == |b| == |c| == |d| == |e| == 4 && i < 20
    ensures (a + b + c + d + e)[i] == [a, b, c, d, e][i / 4][i % 4]
  {
  }

  lemma WordBytesAt(w: Word, i: nat)
    ensures WordBytes(w)[i % 4] == LowByte(Shifted(w, i))
  {
  }

  /** Where the 32-bit sum `j + len` wraps, no block is hashed and the last `memcpy` does not fit the
      64-byte buffer: the condition on `Update` is exact. */
  lemma UpdateLimitIsExact(j: nat, len: nat)
    requires j < 64 && len < TWO32
    ensures j + len < TWO32 <==> (j + len) % TWO32 > 63 || j + len <= 64
  {
  }

  // The hash values after each block, kept as a sequence so that code on the heap does not have to
  // look inside the compression function.

  ghost predicate ChainStep(hs: seq<Hash>, s: seq<byte>, k: nat)
    requires k + 1 < |hs| && 64 * (k + 1) <= |s|
  {
    hs[k + 1] == Compress(hs[k], BlockWords(s[64 * k..64 * (k + 1)]))
  }

  ghost predicate IsChain(hs: seq<Hash>, s: seq<byte>) {
    && |hs| == |s| / 64 + 1
    && hs[0] == INITIAL
    && forall k {:trigger ChainStep(hs, s, k)} :: 0 <= k && k + 1 < |hs| ==> ChainStep(hs, s, k)
  }

  lemma {:induction false} ChainIsFold(hs: seq<Hash>, s: seq<byte>, k: nat)
    requires IsChain(hs, s) && k < |hs|
    ensures hs[k] == Fold(s[..64 * k])
  {
    if k > 0 {
      ChainIsFold(hs, s, k - 1);
      assert ChainStep(hs, s, k - 1);
      FoldNext(s, 64 * (k - 1), s[64 * (k - 1)..64 * k]);
    }
  }

  lemma FoldNext(s: seq<byte>, k: nat, block: seq<byte>)
    requires k % 64 == 0 && k + 64 <= |s| && s[k..k + 64] == block
    ensures Fold(s[..k + 64]) == Compress(Fold(s[..k]), BlockWords(block))
  {
    var t := s[..k + 64];
    assert t[..k] == s[..k] && t[k..] == block;
  }

  lemma MakeChain(s: seq<byte>) returns (hs: seq<Hash>)
    ensures IsChain(hs, s)
  {
    hs := seq(|s| / 64 + 1, k requires 0 <= k <= |s| / 64 => Fold(s[..64 * k]));
    forall k | 0 <= k && k + 1 < |hs|
      ensures ChainStep(hs, s, k)
    {
      FoldNext(s, 64 * k, s[64 * k..64 * (k + 1)]);
    }
  }

  /** The chain of a longer message agrees with the chain of its prefix. */
  lemma ChainPrefix(hs: seq<Hash>, s: seq<byte>, hs': seq<Hash>, t: seq<byte>)
    requires IsChain(hs, s) && IsChain(hs', s + t)
    ensures hs'[|s| / 64] == hs[|s| / 64]
  {
    var k := |s| / 64;
    ChainIsFold(hs, s, k);
    ChainIsFold(hs', s + t, k);
    assert (s + t)[..64 * k] == s[..64 * k];
  }

  method Absorb(state: array<Word>, block: seq<byte>, ghost hs: seq<Hash>, ghost s: seq<byte>, ghost k: nat)
    requires state.Length == 5 && |block| == 64
    requires IsChain(hs, s) && k + 1 < |hs| && block == s[64 * k..64 * (k + 1)]
    requires HashOf(state[..]) == hs[k]
    modifies state
    ensures HashOf(state[..]) == hs[k + 1]
  {
    assert ChainStep(hs, s, k);
    Transform(state, block);
  }

  class Context {
    const state: array<Word>
    const buffer: array<byte>
    var countLo: nat
    var countHi: nat

    /** Everything fed in so far, and the hash value after each of its blocks. */
    ghost var message: seq<byte>
    ghost var chain: seq<Hash>

    ghost predicate Valid()
      reads this, state, buffer
    {
      && state.Length == 5 && buffer.Length == 64
      && countLo < TWO32 && countHi < TWO32
      && countHi * TWO32 + countLo == 8 * |message| % TWO64
      && IsChain(chain, message)
      && HashOf(state[..]) == chain[|message| / 64]
      && buffer[..|message| % 64] == message[|message| - |message| % 64..]
    }

    lemma StateIsFold()
      requires Valid()
      ensures HashOf(state[..]) == Fold(message[..64 * (|message| / 64)])
    {
      ChainIsFold(chain, message, |message| / 64);
    }

    constructor ()
      ensures Valid() && message == []
      ensures fresh(state) && fresh(buffer)
    {
      state := new Word[5] [0x67452301, 0xEFCDAB89, 0x98BADCFE, 0x10325476, 0xC3D2E1F0];
      buffer := new byte[64];
      countLo, countHi := 0, 0;
      message, chain := [], [INITIAL];
    }

    /** `SHA1Update`. The sum `j + len` is a 32-bit sum, which is what limits `data`. */
    method Update(data: seq<byte>)
      requires Valid()
      requires |message| % 64 + |data| < TWO32
      modifies this, state, buffer
      ensures Valid() && message == old(message) + data
    {
      var len := |data|;
      var j := countLo;
      CountData(len);
      j := j / 8 % 64;
      BufferedCount(|message|, old(countLo), old(countHi));
      ghost var hs := MakeChain(message + data);
      ChainPrefix(chain, message, hs, data);
      Buffer(data, j, hs);
      message, chain := message + data, hs;
    }

    method Buffer(data: seq<byte>, j: nat, ghost hs: seq<Hash>)
      requires state.Length == 5 && buffer.Length == 64 && j == |message| % 64
      requires IsChain(hs, message + data) && HashOf(state[..]) == hs[|message| / 64]
      requires buffer[..j] == message[|message| - j..]
      requires j + |data| < TWO32
      modifies state, buffer
      ensures HashOf(state[..]) == hs[|message + data| / 64]
      ensures var m := message + data; buffer[..|m| % 64] == m[|m| - |m| % 64..]
    {
      var i, at := 0, j;
      if (j + |data|) % TWO32 > 63 {
        i := AbsorbBlocks(data, j, hs);
        at := 0;
      }
      AppendTail(data, i, at);
    }

    /** The last `memcpy`: what is left of `data`, behind what the buffer holds. */
    method AppendTail(data: seq<byte>, i: nat, at: nat)
      requires buffer.Length == 64 && i <= |data|
      requires i == 0 ==> at == |message| % 64 && at + |data| < 64 && buffer[..at] == message[|message| - at..]
      requires i > 0 ==> at == 0 && |data| < i + 64 && (|message| + i) % 64 == 0
      modifies buffer
      ensures var m := message + data; buffer[..|m| % 64] == m[|m| - |m| % 64..]
      ensures |message + data| / 64 == if i == 0 then |message| / 64 else (|message| + i) / 64
    {
      ghost var before := buffer[..];
      var end := Append(buffer, at, data[i..]);
      if i == 0 {
        assert data[0..] == data;
        ShortTail(message, data, before, buffer[..]);
      } else {
        LongTail(message, data, i, buffer[..]);
      }
    }

    method AbsorbBlocks(data: seq<byte>, j: nat, ghost hs: seq<Hash>) returns (i: nat)
      requires state.Length == 5 && buffer.Length == 64 && j == |message| % 64
      requires IsChain(hs, message + data) && HashOf(state[..]) == hs[|message| / 64]
      requires buffer[..j] == message[|message| - j..]
      requires 64 - j <= |data| && j + |data| < TWO32
      modifies state, buffer
      ensures 0 < i <= |data| < i + 64 && (|message| + i) % 64 == 0
      ensures HashOf(state[..]) == hs[(|message| + i) / 64]
    {
      FillBlock(data, j, hs);
      i := AbsorbRest(data, 64 - j, hs);
    }

    /** The first block, which `data` completes in the buffer. */
    method FillBlock(data: seq<byte>, j: nat, ghost hs: seq<Hash>)
      requires state.Length == 5 && buffer.Length == 64 && j == |message| % 64
      requires IsChain(hs, message + data) && HashOf(state[..]) == hs[|message| / 64]
      requires buffer[..j] == message[|message| - j..] && 64 - j <= |data|
      modifies state, buffer
      ensures |message| / 64 + 1 < |hs| && HashOf(state[..]) == hs[|message| / 64 + 1]
    {
      Copy(buffer, j, data[..64 - j]);
      BlockOf(message, data, j, buffer[..]);
      Absorb(state, buffer[..], hs, message + data, |message| / 64);
    }

    /** The blocks that lie in `data`, from `start` on. */
    method AbsorbRest(data: seq<byte>, start: nat, ghost hs: seq<Hash>) returns (i: nat)
      requires state.Length == 5 && 0 < start <= 64 && start <= |data| < TWO32
      requires |message| % 64 + start == 64 && |message| % 64 + |data| < TWO32
      requires IsChain(hs, message + data) && HashOf(state[..]) == hs[|message| / 64 + 1]
      modifies state
      ensures 0 < i <= |data| < i + 64 && (|message| + i) % 64 == 0
      ensures HashOf(state[..]) == hs[(|message| + i) / 64]
    {
      i := start;
      ghost var k := |message| / 64 + 1;
      while (i + 63) % TWO32 < |data|
        invariant start <= i <= |data| && |message| + i == 64 * k
        invariant k < |hs| && HashOf(state[..]) == hs[k]
        decreases |data| - i
      {
        BlockIn(message, data, i, k);
        Absorb(state, data[i..i + 64], hs, message + data, k);
        i, k := i + 64, k + 1;
      }
    }

    /** `SHA1Final`. */
    method Final() returns (digest: seq<byte>)
      requires Valid()
      modifies this, state, buffer
      ensures digest == Digest(old(message))
      ensures state[..] == [0, 0, 0, 0, 0] && buffer[..] == Zeros(64) && countLo == countHi == 0
    {
      var finalCount := CountBytes();
      PadToLength();
      LengthFieldCompletes(|old(message)|);
      Update(finalCount);
      StateIsFold();
      PaddedIs(old(message), message);
      WholeBlocks(message, 64 * (|message| / 64));
      digest := StateBytes();
      Wipe();
    }

    method CountBytes() returns (finalCount: seq<byte>)
      requires countLo < TWO32 && countHi < TWO32
      requires countHi * TWO32 + countLo == 8 * |message| % TWO64
      ensures finalCount == LengthField(|message|)
    {
      var bytes := new byte[8];
      for i := 0 to 8
        invariant forall k :: 0 <= k < i ==> bytes[k] == (BigEndian(countHi, 4) + BigEndian(countLo, 4))[k]
      {
        CountByteAt(countLo, countHi, i);
        bytes[i] := CountByte(countLo, countHi, i);
      }
      CountIsBigEndian(countLo, countHi);
      finalCount := bytes[..];
    }

    /** The 0x80 byte, and then zero bytes until eight more would complete a block. */
    method PadToLength()
      requires Valid()
      modifies this, state, buffer
      ensures Valid() && message == old(message) + [0x80] + Zeros(ZeroBytes(|old(message)|))
    {
      Update([0x80]);
      ghost var marked := message;
      ghost var z := 0;
      Countdown(|marked|);
      BufferedCount(|message|, countLo, countHi);
      assert message == marked + Zeros(z);
      while countLo / 8 % 64 * 8 != 448
        invariant Valid() && message == marked + Zeros(z)
        invariant countLo / 8 % 64 == |message| % 64
        invariant z + ToGo(|message|) == ToGo(|marked|)
        decreases ToGo(|message|)
      {
        PushZero();
        z := z + 1;
        ZerosNext(marked, z);
      }
      Countdown(|message|);
    }

    method PushZero()
      requires Valid() && |message| % 64 != 56
      modifies this, state, buffer
      ensures Valid() && message == old(message) + [0]
      ensures countLo / 8 % 64 == |message| % 64
      ensures ToGo(|message|) == ToGo(|old(message)|) - 1
    {
      Countdown(|message|);
      Update([0]);
      BufferedCount(|message|, countLo, countHi);
    }

    method StateBytes() returns (digest: seq<byte>)
      requires state.Length == 5
      ensures digest == HashBytes(HashOf(state[..]))
    {
      var bytes := new byte[20];
      for i := 0 to 20
        invariant forall k :: 0 <= k < i ==> bytes[k] == HashBytes(HashOf(state[..]))[k]
      {
        HashBytesAt(state[..], i);
        bytes[i] := LowByte(Shifted(state[i / 4], i));
      }
      digest := bytes[..];
    }

    method Wipe()
      requires state.Length == 5 && buffer.Length == 64
      modifies this, state, buffer
      ensures state[..] == [0, 0, 0, 0, 0] && buffer[..] == Zeros(64) && countLo == countHi == 0
    {
      countLo, countHi := 0, 0;
      forall k | 0 <= k < 5 {
        state[k] := 0;
      }
      forall k | 0 <= k < 64 {
        buffer[k] := 0;
      }
    }

    /** The two-word bit counter, with its carry. */
    method CountData(len: nat)
      requires len < TWO32 && countLo < TWO32 && countHi < TWO32
      requires countHi * TWO32 + countLo == 8 * |message| % TWO64
      modifies this`countLo, this`countHi
      ensures countLo < TWO32 && countHi < TWO32
      ensures countHi * TWO32 + countLo == 8 * (|message| + len) % TWO64
    {
      var j := countLo;
      countLo := (countLo + 8 * len % TWO32) % TWO32;
      if countLo < j {
        countHi := (countHi + 1) % TWO32;
      }
      ghost var carried := countHi;
      countHi := (countHi + len / 0x2000_0000) % TWO32;
      CountAfter(|message|, j, old(countHi), len, countLo, carried, countHi);
    }
  }

  lemma BlockOf(message: seq<byte>, data: seq<byte>, j: nat, block: seq<byte>)
    requires j == |message| % 64 && 64 - j <= |data|
    requires |block| == 64 && block[..j] == message[|message| - j..] && block[j..] == data[..64 - j]
    ensures var k := |message| / 64; 64 * (k + 1) <= |message + data| && (message + data)[64 * k..64 * (k + 1)] == block
  {
    assert block == block[..j] + block[j..];
  }

  lemma BlockIn(message: seq<byte>, data: seq<byte>, i: nat, k: nat)
    requires |message| + i == 64 * k && i + 64 <= |data|
    ensures (message + data)[64 * k..64 * (k + 1)] == data[i..i + 64]
  {
  }

  /** The last `memcpy` of `SHA1Update`: either nothing was hashed and the buffer grows, or the buffer
      restarts with what follows the last whole block. */
  /** No block is completed: the buffer holds what it held, and the data behind it. */
  lemma ShortTail(message: seq<byte>, data: seq<byte>, before: seq<byte>, after: seq<byte>)
    requires |before| == 64 && |after| == 64 && |message| % 64 + |data| < 64
    requires before[..|message| % 64] == message[|message| - |message| % 64..]
    requires after[..|message| % 64 + |data|] == before[..|message| % 64] + data
    ensures var m := message + data; after[..|m| % 64] == m[|m| - |m| % 64..] && |m| / 64 == |message| / 64
  {
    var m := message + data;
    assert |m| % 64 == |message| % 64 + |data|;
    assert m[|m| - |m| % 64..] == message[|message| - |message| % 64..] + data;
  }

  /** The data from `i` on is all that is left to buffer. */
  lemma LongTail(message: seq<byte>, data: seq<byte>, i: nat, after: seq<byte>)
    requires |after| == 64 && i <= |data| < i + 64 && (|message| + i) % 64 == 0
    requires after[..|data| - i] == data[i..]
    ensures var m := message + data; after[..|m| % 64] == m[|m| - |m| % 64..] && |m| / 64 == (|message| + i) / 64
  {
    var m := message + data;
    assert |m| % 64 == |data| - i;
    assert m[|m| - |m| % 64..] == data[i..];
  }

  lemma ZerosNext(s: seq<byte>, z: nat)
    requires z > 0
    ensures s + Zeros(z - 1) + [0] == s + Zeros(z)
  {
    assert Zeros(z) == Zeros(z - 1) + [0];
  }

  function ToGo(n: nat): nat {
    (56 - n as int) % 64
  }

  lemma Countdown(n: nat)
    ensures n % 64 == 56 <==> ToGo(n) == 0
    ensures n % 64 != 56 ==> ToGo(n + 1) == ToGo(n) - 1
    ensures n > 0 ==> ToGo(n) == ZeroBytes(n - 1)
  {
  }

  lemma LengthFieldCompletes(n: nat)
    ensures (n + 1 + ZeroBytes(n)) % 64 == 56
  {
  }

  lemma PaddedIs(msg: seq<byte>, all: seq<byte>)
    requires all == msg + [0x80] + Zeros(ZeroBytes(|msg|)) + LengthField(|msg|)
    ensures all == Pad(msg)
  {
  }

  lemma WholeBlocks(all: seq<byte>, n: nat)
    requires |all| % 64 == 0 && n == 64 * (|all| / 64)
    ensures n == |all| && all[..n] == all
  {
  }

  /** `SHA1`: one byte at a time. */
  method DigestOf(str: seq<byte>) returns (digest: seq<byte>)
    requires |str| < TWO32
    ensures digest == Digest(str)
  {
    var ctx := new Context();
    for ii := 0 to |str|
      invariant ctx.Valid() && ctx.message == str[..ii]
      invariant fresh(ctx) && fresh(ctx.state) && fresh(ctx.buffer)
    {
      ctx.Update(str[ii..ii + 1]);
      assert str[..ii + 1] == str[..ii] + str[ii..ii + 1];
    }
    assert str[..|str|] == str;
    digest := ctx.Final();
  }

  function Flatten(chunks: seq<seq<byte>>): seq<byte> {
    if chunks == [] then [] else Flatten(chunks[..|chunks| - 1]) + chunks[|chunks| - 1]
  }

  /** However a message is cut into `SHA1Update` calls, the digest is that of the whole. */
  method HashChunks(chunks: seq<seq<byte>>) returns (digest: seq<byte>)
    requires forall k :: 0 <= k < |chunks| ==> |Flatten(chunks[..k])| % 64 + |chunks[k]| < TWO32
    ensures digest == Digest(Flatten(chunks))
  {
    var ctx := new Context();
    for k := 0 to |chunks|
      invariant ctx.Valid() && ctx.message == Flatten(chunks[..k])
      invariant fresh(ctx) && fresh(ctx.state) && fresh(ctx.buffer)
    {
      ctx.Update(chunks[k]);
      assert chunks[..k + 1][..k] == chunks[..k];
    }
    assert chunks[..|chunks|] == chunks;
    digest := ctx.Final();
  }
}
