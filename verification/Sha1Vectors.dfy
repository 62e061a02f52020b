/**
 The two examples that `src/helpers/sha1.c` quotes from the standard, worked out step by step: what pins the
 constants, the round functions and the order of bytes in `Sha1Spec`.
 */
module Sha1Vectors {
  import opened Bytes
  import opened Sha1Spec

  // ----- the constants -----

  const TWO60: nat := 0x1000_0000_0000_0000

  /** The root a round constant is taken from. */
  function RootOf(t: nat): nat {
    if t < 20 then 2 else if t < 40 then 3 else if t < 60 then 5 else 10
  }

  /** K(t) is the integer part of 2^30 times a square root. */
  lemma ConstantsAreRoots(t: nat)
    ensures var k := RoundConstant(t) as int; k * k <= RootOf(t) * TWO60 < (k + 1) * (k + 1)
  {
    assert RoundConstant(t) as int ==
           if t < 20 then 0x5A827999 else if t < 40 then 0x6ED9EBA1 else if t < 60 then 0x8F1BBCDC else 0xCA62C1D6;
  }

  // ----- the alternate method -----

  /** Sixteen words and the working variables: the alternate method of section 6.1.3. */
  datatype Machine = Machine(
    w0: Word, w1: Word, w2: Word, w3: Word, w4: Word, w5: Word, w6: Word, w7: Word,
    w8: Word, w9: Word, w10: Word, w11: Word, w12: Word, w13: Word, w14: Word, w15: Word,
    h: Hash)

  function Next(m: Machine, t: nat): Machine {
    Machine(m.w1, m.w2, m.w3, m.w4, m.w5, m.w6, m.w7, m.w8, m.w9, m.w10, m.w11, m.w12, m.w13, m.w14, m.w15,
            NextWord(m.w13, m.w8, m.w2, m.w0), Round(m.h, m.w0, t))
  }

  /** `n` rounds from round `t` on. */
  function Run(m: Machine, t: nat, n: nat): Machine
    decreases n
  {
    if n == 0 then m else Run(Next(m, t), t + 1, n - 1)
  }

  /** The words of the schedule from `t` on, and the working variables after `t` rounds. */
  function At(h: Hash, m: seq<Word>, t: nat): Machine
    requires |m| == 16
  {
    Machine(Schedule(m, t), Schedule(m, t + 1), Schedule(m, t + 2), Schedule(m, t + 3),
            Schedule(m, t + 4), Schedule(m, t + 5), Schedule(m, t + 6), Schedule(m, t + 7),
            Schedule(m, t + 8), Schedule(m, t + 9), Schedule(m, t + 10), Schedule(m, t + 11),
            Schedule(m, t + 12), Schedule(m, t + 13), Schedule(m, t + 14), Schedule(m, t + 15),
            Rounds(h, m, t))
  }

  lemma NextAt(h: Hash, m: seq<Word>, t: nat)
    requires |m| == 16
    ensures Next(At(h, m, t), t) == At(h, m, t + 1)
  {
    assert Schedule(m, t + 16) ==
           NextWord(Schedule(m, t + 13), Schedule(m, t + 8), Schedule(m, t + 2), Schedule(m, t));
    assert Rounds(h, m, t + 1) == Round(Rounds(h, m, t), Schedule(m, t), t);
  }

  /** The alternate method is the 80-word one. */
  lemma {:induction false} RunAt(h: Hash, m: seq<Word>, t: nat, n: nat)
    requires |m| == 16
    ensures Run(At(h, m, t), t, n) == At(h, m, t + n)
    decreases n
  {
    if n > 0 {
      NextAt(h, m, t);
      RunAt(h, m, t + 1, n - 1);
    }
  }

  lemma StartsAt(h: Hash, m: seq<Word>)
    requires |m| == 16
    ensures At(h, m, 0) == Machine(m[0], m[1], m[2], m[3], m[4], m[5], m[6], m[7],
                                   m[8], m[9], m[10], m[11], m[12], m[13], m[14], m[15], h)
  {
  }

  /** `At` under a name that a quantifier can wait for. */
  function Position(h: Hash, m: seq<Word>, t: nat): Machine
    requires |m| == 16
  {
    At(h, m, t)
  }

  /** After `t` rounds the computation is at `a`; the quantifier keeps the schedule folded until asked for. */
  ghost predicate Reaches(h: Hash, m: seq<Word>, t: nat, a: Machine)
    requires |m| == 16
  {
    forall u: nat {:trigger Position(h, m, u)} :: u == t ==> Position(h, m, u) == a
  }

  lemma Advance(h: Hash, m: seq<Word>, t: nat, a: Machine, k: nat, b: Machine)
    requires |m| == 16 && Reaches(h, m, t, a) && Run(a, t, k) == b
    ensures Reaches(h, m, t + k, b)
  {
    assert Position(h, m, t) == a;
    RunAt(h, m, t, k);
  }

  lemma ReachesEnd(h: Hash, m: seq<Word>, t: nat, a: Machine)
    requires |m| == 16 && Reaches(h, m, t, a)
    ensures Rounds(h, m, t) == a.h
  {
    assert Position(h, m, t) == a;
  }

  // ----- "abc" -----

  const ABC_0 := Machine(
    0x61626380, 0x00000000, 0x00000000, 0x00000000, 0x00000000, 0x00000000, 0x00000000, 0x00000000,
    0x00000000, 0x00000000, 0x00000000, 0x00000000, 0x00000000, 0x00000000, 0x00000000, 0x00000018,
    Hash(0x67452301, 0xEFCDAB89, 0x98BADCFE, 0x10325476, 0xC3D2E1F0))

  const ABC_10 := Machine(
    0x00000000, 0x00000000, 0x00000000, 0x00000000, 0x00000000, 0x00000018, 0xC2C4C700, 0x00000000,
    0x00000030, 0x85898E01, 0x00000000, 0x00000060, 0x0B131C03, 0x00000030, 0x85898EC1, 0x16263806,
    Hash(0x8351F929, 0x4B6AE328, 0x27A301F5, 0x664F8C30, 0x0FF1F290))

  const ABC_20 := Machine(
    0x00000000, 0x00000060, 0x0B131C03, 0x00000030, 0x85898EC1, 0x16263806, 0x00000000, 0x00000180,
    0x2C4C700C, 0x000000F0, 0x93AFB507, 0x5898E048, 0x8E9A9202, 0x00000600, 0xB131C0F0, 0x16263BC6,
    Hash(0xFD9E1D7D, 0xDC64901D, 0x20AA99CA, 0xD3A49608, 0xC82F758B))

  const ABC_30 := Machine(
    0x93AFB507, 0x5898E048, 0x8E9A9202, 0x00000600, 0xB131C0F0, 0x16263BC6, 0x4EBED41E, 0x626380A1,
    0x16263806, 0x000018C0, 0xD2E138C4, 0x00000F00, 0x3AFB5079, 0x898E04E5, 0xE2BA3C2B, 0x000060C0,
    Hash(0xC5FBAF5D, 0x8370B52E, 0xD2AA1365, 0x6F8D7EF5, 0x12104EE9))

  const ABC_40 := Machine(
    0xD2E138C4, 0x00000F00, 0x3AFB5079, 0x898E04E5, 0xE2BA3C2B, 0x000060C0, 0x053A37CD, 0x74458547,
    0xDA9415ED, 0x26380A16, 0x626383A1, 0x4EBF54DE, 0x3835B44B, 0x0000F600, 0x1E84C7A3, 0x98E04D98,
    Hash(0x32DE1CBA, 0x4C986405, 0xF718E5CF, 0x03D447F6, 0xF72EEC32))

  const ABC_50 := Machine(
    0x626383A1, 0x4EBF54DE, 0x3835B44B, 0x0000F600, 0x1E84C7A3, 0x98E04D98, 0x651D16A0, 0x62658CA1,
    0x458544D6, 0x44584CB7, 0x7BA06619, 0x6380AEA2, 0x0AE55269, 0x627B49A1, 0x7CD45C9D, 0x000F0000,
    Hash(0x120731C5, 0xBAF39337, 0xAFAB40B2, 0x2806E11B, 0x8714787C))

  const ABC_60 := Machine(
    0x7BA06619, 0x6380AEA2, 0x0AE55269, 0x627B49A1, 0x7CD45C9D, 0x000F0000, 0xFB50753A, 0xEC6765E8,
    0xBA3C2BE2, 0x0060C000, 0x3A37CD05, 0x458546F4, 0xB8599DD6, 0x380A1A26, 0x01E02203, 0xE7CC3456,
    Hash(0x3F52DE5A, 0x09D785FD, 0x3498BFD4, 0xF211824F, 0xD79915AB))

  const ABC_70 := Machine(
    0x3A37CD05, 0x458546F4, 0xB8599DD6, 0x380A1A26, 0x01E02203, 0xE7CC3456, 0xE6E60B69, 0x00F60A00,
    0x5795EF4F, 0x822E0879, 0x7E577CE2, 0x07EF2103, 0x8544E945, 0xEB39DAB8, 0xC205991A, 0x80AECB63,
    Hash(0x3F2588C2, 0x497093C0, 0xDE37534A, 0x030F7CAD, 0x4405957E))

  const ABC_80 := Machine(
    0x7E577CE2, 0x07EF2103, 0x8544E945, 0xEB39DAB8, 0xC205991A, 0x80AECB63, 0x7D84CA48, 0x7B499B62,
    0x8E8010A8, 0x4B5B8A77, 0x3216B69A, 0x0507E88D, 0x705BEE96, 0x60C0FF00, 0xA28362D0, 0x1DA6B91D,
    Hash(0x42541B35, 0x5738D5E1, 0x21834873, 0x681E6DF6, 0xD8FDF6AD))

  lemma AbcTo10(m: seq<Word>)
    requires |m| == 16 && Reaches(INITIAL, m, 0, ABC_0)
    ensures Reaches(INITIAL, m, 10, ABC_10)
  {
    Advance(INITIAL, m, 0, ABC_0, 10, ABC_10);
  }

  lemma AbcTo20(m: seq<Word>)
    requires |m| == 16 && Reaches(INITIAL, m, 10, ABC_10)
    ensures Reaches(INITIAL, m, 20, ABC_20)
  {
    Advance(INITIAL, m, 10, ABC_10, 10, ABC_20);
  }

  lemma AbcTo30(m: seq<Word>)
    requires |m| == 16 && Reaches(INITIAL, m, 20, ABC_20)
    ensures Reaches(INITIAL, m, 30, ABC_30)
  {
    Advance(INITIAL, m, 20, ABC_20, 10, ABC_30);
  }

  lemma AbcTo40(m: seq<Word>)
    requires |m| == 16 && Reaches(INITIAL, m, 30, ABC_30)
    ensures Reaches(INITIAL, m, 40, ABC_40)
  {
    Advance(INITIAL, m, 30, ABC_30, 10, ABC_40);
  }

  lemma AbcTo50(m: seq<Word>)
    requires |m| == 16 && Reaches(INITIAL, m, 40, ABC_40)
    ensures Reaches(INITIAL, m, 50, ABC_50)
  {
    Advance(INITIAL, m, 40, ABC_40, 10, ABC_50);
  }

  lemma AbcTo60(m: seq<Word>)
    requires |m| == 16 && Reaches(INITIAL, m, 50, ABC_50)
    ensures Reaches(INITIAL, m, 60, ABC_60)
  {
    Advance(INITIAL, m, 50, ABC_50, 10, ABC_60);
  }

  lemma AbcTo70(m: seq<Word>)
    requires |m| == 16 && Reaches(INITIAL, m, 60, ABC_60)
    ensures Reaches(INITIAL, m, 70, ABC_70)
  {
    Advance(INITIAL, m, 60, ABC_60, 10, ABC_70);
  }

  lemma AbcTo80(m: seq<Word>)
    requires |m| == 16 && Reaches(INITIAL, m, 70, ABC_70)
    ensures Reaches(INITIAL, m, 80, ABC_80)
  {
    Advance(INITIAL, m, 70, ABC_70, 10, ABC_80);
  }

  lemma AbcRounds(m: seq<Word>)
    requires |m| == 16 && Reaches(INITIAL, m, 0, ABC_0)
    ensures Rounds(INITIAL, m, 80) == ABC_80.h
  {
    AbcTo10(m);
    AbcTo20(m);
    AbcTo30(m);
    AbcTo40(m);
    AbcTo50(m);
    AbcTo60(m);
    AbcTo70(m);
    AbcTo80(m);
    ReachesEnd(INITIAL, m, 80, ABC_80);
  }

  const ABC_TEXT: seq<byte> := [0x61, 0x62, 0x63]

  lemma AbcPadded()
    ensures Pad(ABC_TEXT) == ABC_TEXT + [0x80] + Zeros(59) + [0x18]
  {
    assert ZeroBytes(3) == 52;
    EndsIn(24);
  }

  lemma EndsIn(bits: nat)
    requires bits < 0x1_0000
    ensures BigEndian(bits, 8) == Zeros(6) + [ToByte(bits / 256), ToByte(bits)]
  {
    SmallBigEndian(bits / 256 / 256, 6);
    assert BigEndian(bits, 8) == BigEndian(bits / 256 / 256, 6) + [ToByte(bits / 256), ToByte(bits)];
  }

  lemma {:induction false} SmallBigEndian(n: nat, k: nat)
    requires n == 0
    ensures BigEndian(n, k) == Zeros(k)
  {
    if k > 0 {
      SmallBigEndian(n / 256, k - 1);
    }
  }

  lemma ZeroWord(s: seq<byte>, k: nat)
    requires k + 4 <= |s| && s[k] == s[k + 1] == s[k + 2] == s[k + 3] == 0
    ensures WordAt(s, k) == 0
  {
  }

  lemma AbcEnds(s: seq<byte>)
    requires |s| == 64 && s[..4] == [0x61, 0x62, 0x63, 0x80] && s[60..] == [0, 0, 0, 0x18]
    ensures WordAt(s, 0) == 0x61626380 && WordAt(s, 60) == 0x18
  {
    assert s[0] == s[..4][0] && s[1] == s[..4][1] && s[2] == s[..4][2] && s[3] == s[..4][3];
    assert s[60] == s[60..][0] && s[61] == s[60..][1] && s[62] == s[60..][2] && s[63] == s[60..][3];
  }

  lemma AbcWords(p: seq<byte>)
    requires p == Pad(ABC_TEXT)
    ensures |p| == 64 && Reaches(INITIAL, BlockWords(p), 0, ABC_0)
  {
    AbcPadded();
    var m := BlockWords(p);
    assert p[..4] == [0x61, 0x62, 0x63, 0x80] && p[60..] == [0, 0, 0, 0x18];
    AbcEnds(p);
    forall i | 1 <= i < 15
      ensures m[i] == 0
    {
      ZeroWord(p, 4 * i);
    }
    StartsAt(INITIAL, m);
  }

  lemma OneBlock(p: seq<byte>)
    requires |p| == 64
    ensures Fold(p) == Compress(INITIAL, BlockWords(p))
  {
    assert p[..0] == [] && p[0..] == p;
  }

  lemma BytesOfAbc()
    ensures HashBytes(AddHash(INITIAL, ABC_80.h)) ==
            [0xA9, 0x99, 0x3E, 0x36, 0x47, 0x06, 0x81, 0x6A, 0xBA, 0x3E,
             0x25, 0x71, 0x78, 0x50, 0xC2, 0x6C, 0x9C, 0xD0, 0xD8, 0x9D]
  {
  }

  /** The first example. */
  lemma DigestOfAbc()
    ensures Digest(ABC_TEXT) ==
            [0xA9, 0x99, 0x3E, 0x36, 0x47, 0x06, 0x81, 0x6A, 0xBA, 0x3E,
             0x25, 0x71, 0x78, 0x50, 0xC2, 0x6C, 0x9C, 0xD0, 0xD8, 0x9D]
  {
    var p := Pad(ABC_TEXT);
    AbcWords(p);
    AbcRounds(BlockWords(p));
    OneBlock(p);
    BytesOfAbc();
  }

  // ----- "abcdbcdecdefdefgefghfghighijhijkijkljklmklmnlmnomnopnopq" -----

  const LONG_0 := Machine(
    0x61626364, 0x62636465, 0x63646566, 0x64656667, 0x65666768, 0x66676869, 0x6768696A, 0x68696A6B,
    0x696A6B6C, 0x6A6B6C6D, 0x6B6C6D6E, 0x6C6D6E6F, 0x6D6E6F70, 0x6E6F7071, 0x80000000, 0x00000000,
    Hash(0x67452301, 0xEFCDAB89, 0x98BADCFE, 0x10325476, 0xC3D2E1F0))

  const LONG_10 := Machine(
    0x6B6C6D6E, 0x6C6D6E6F, 0x6D6E6F70, 0x6E6F7071, 0x80000000, 0x00000000, 0x0A063A3E, 0xD8DADCDF,
    0xDADCDEC0, 0xC8D2B4BE, 0x6F757B5B, 0x757B5967, 0x8DA16D70, 0xDAEEFABA, 0xFAF6CAB6, 0xA6FB675A,
    Hash(0x6350AFDA, 0xC565C35E, 0xD160CFC3, 0x36C132D6, 0x65AE1462))

  const LONG_20 := Machine(
    0x6F757B5B, 0x757B5967, 0x8DA16D70, 0xDAEEFABA, 0xFAF6CAB6, 0xA6FB675A, 0x0C604CC8, 0x604CC02C,
    0x49C0E6E2, 0x2EE8CBBC, 0xCFD72EC4, 0x97E9810E, 0x0989CBE8, 0xF24843FE, 0x5C40D0BA, 0xA8D9CC3B,
    Hash(0x6C445652, 0x944B1BD1, 0x509AE70D, 0x1AC1A012, 0x5098DF8E))

  const LONG_30 := Machine(
    0xCFD72EC4, 0x97E9810E, 0x0989CBE8, 0xF24843FE, 0x5C40D0BA, 0xA8D9CC3B, 0xB2B9666E, 0xBA7B71B7,
    0x20B28A72, 0xB28AF500, 0x8AC87842, 0x289ADDF4, 0x56D51F21, 0xD96B7FD2, 0x3868E778, 0xAB5E4848,
    Hash(0x05B457B2, 0xE1122421, 0x3549A991, 0xCA5CBDF1, 0x96850B06))

  const LONG_40 := Machine(
    0x8AC87842, 0x289ADDF4, 0x56D51F21, 0xD96B7FD2, 0x3868E778, 0xAB5E4848, 0x7F0E2118, 0xDE87A111,
    0xE8BE56B0, 0x1A0AE652, 0xCD5611C8, 0x46EF29DC, 0x60D3DA6D, 0xDDF3BA6E, 0x2737F5E9, 0x4888A710,
    Hash(0xADEB7478, 0x24957F22, 0x50FE1EBA, 0x564CFF26, 0xAADF0CBB))

  const LONG_50 := Machine(
    0xCD5611C8, 0x46EF29DC, 0x60D3DA6D, 0xDDF3BA6E, 0x2737F5E9, 0x4888A710, 0xD2A1177B, 0x9999633B,
    0xD6C69D03, 0xCCF6127B, 0x7C58FE6D, 0xFDD99C68, 0xF8E32074, 0xE0BA3C7D, 0x152198D6, 0x7B3F1982,
    Hash(0x7E846F58, 0x88341600, 0x3229A424, 0xA8AB53C0, 0xB1BA8907))

  const LONG_60 := Machine(
    0x7C58FE6D, 0xFDD99C68, 0xF8E32074, 0xE0BA3C7D, 0x152198D6, 0x7B3F1982, 0x37F2D5B7, 0x8596323E,
    0x810790D6, 0xBEA0A942, 0x11C7E1B1, 0x6158D101, 0x5FCD77D9, 0x7F2F12E6, 0xF868CFB1, 0xD6E997E9,
    Hash(0x9EF775C3, 0xF03D3782, 0xEB029E53, 0xE9A06DC8, 0x1DDB0E44))

  const LONG_70 := Machine(
    0x11C7E1B1, 0x6158D101, 0x5FCD77D9, 0x7F2F12E6, 0xF868CFB1, 0xD6E997E9, 0xF526B852, 0xB7578DCC,
    0x55D99DF4, 0x1FF69958, 0x94936EE9, 0xA8BF495D, 0xA2D62710, 0xF298C4F8, 0x9AB300D1, 0x94F3A53F,
    Hash(0xFDF6EFFF, 0x2C7B07BD, 0x5B45F27F, 0x452A0B6A, 0x440DF4B5))

  const LONG_80 := Machine(
    0x94936EE9, 0xA8BF495D, 0xA2D62710, 0xF298C4F8, 0x9AB300D1, 0x94F3A53F, 0xD2979EC9, 0x3664B4DD,
    0x4F8AE77D, 0xA7DCA537, 0x33F9C85D, 0xB9587341, 0x3B210081, 0x1F56F3EC, 0x550A3D2B, 0x7418C8B3,
    Hash(0x8CE34517, 0xD3AD7C25, 0x6B4E1883, 0x74351CD2, 0x86838382))

  lemma LongTo10(m: seq<Word>)
    requires |m| == 16 && Reaches(INITIAL, m, 0, LONG_0)
    ensures Reaches(INITIAL, m, 10, LONG_10)
  {
    Advance(INITIAL, m, 0, LONG_0, 10, LONG_10);
  }

  lemma LongTo20(m: seq<Word>)
    requires |m| == 16 && Reaches(INITIAL, m, 10, LONG_10)
    ensures Reaches(INITIAL, m, 20, LONG_20)
  {
    Advance(INITIAL, m, 10, LONG_10, 10, LONG_20);
  }

  lemma LongTo30(m: seq<Word>)
    requires |m| == 16 && Reaches(INITIAL, m, 20, LONG_20)
    ensures Reaches(INITIAL, m, 30, LONG_30)
  {
    Advance(INITIAL, m, 20, LONG_20, 10, LONG_30);
  }

  lemma LongTo40(m: seq<Word>)
    requires |m| == 16 && Reaches(INITIAL, m, 30, LONG_30)
    ensures Reaches(INITIAL, m, 40, LONG_40)
  {
    Advance(INITIAL, m, 30, LONG_30, 10, LONG_40);
  }

  lemma LongTo50(m: seq<Word>)
    requires |m| == 16 && Reaches(INITIAL, m, 40, LONG_40)
    ensures Reaches(INITIAL, m, 50, LONG_50)
  {
    Advance(INITIAL, m, 40, LONG_40, 10, LONG_50);
  }

  lemma LongTo60(m: seq<Word>)
    requires |m| == 16 && Reaches(INITIAL, m, 50, LONG_50)
    ensures Reaches(INITIAL, m, 60, LONG_60)
  {
    Advance(INITIAL, m, 50, LONG_50, 10, LONG_60);
  }

  lemma LongTo70(m: seq<Word>)
    requires |m| == 16 && Reaches(INITIAL, m, 60, LONG_60)
    ensures Reaches(INITIAL, m, 70, LONG_70)
  {
    Advance(INITIAL, m, 60, LONG_60, 10, LONG_70);
  }

  lemma LongTo80(m: seq<Word>)
    requires |m| == 16 && Reaches(INITIAL, m, 70, LONG_70)
    ensures Reaches(INITIAL, m, 80, LONG_80)
  {
    Advance(INITIAL, m, 70, LONG_70, 10, LONG_80);
  }

  lemma LongRounds(m: seq<Word>)
    requires |m| == 16 && Reaches(INITIAL, m, 0, LONG_0)
    ensures Rounds(INITIAL, m, 80) == LONG_80.h
  {
    LongTo10(m);
    LongTo20(m);
    LongTo30(m);
    LongTo40(m);
    LongTo50(m);
    LongTo60(m);
    LongTo70(m);
    LongTo80(m);
    ReachesEnd(INITIAL, m, 80, LONG_80);
  }

  const LONG_MIDDLE := Hash(0xF4286818, 0xC37B27AE, 0x0408F581, 0x84677148, 0x4A566572)

  const LAST_0 := Machine(
    0x00000000, 0x00000000, 0x00000000, 0x00000000, 0x00000000, 0x00000000, 0x00000000, 0x00000000,
    0x00000000, 0x00000000, 0x00000000, 0x00000000, 0x00000000, 0x00000000, 0x00000000, 0x000001C0,
    Hash(0xF4286818, 0xC37B27AE, 0x0408F581, 0x84677148, 0x4A566572))

  const LAST_10 := Machine(
    0x00000000, 0x00000000, 0x00000000, 0x00000000, 0x00000000, 0x000001C0, 0x00000000, 0x00000000,
    0x00000380, 0x00000000, 0x00000000, 0x00000700, 0x00000000, 0x00000380, 0x00000E00, 0x00000000,
    Hash(0xB8538ACA, 0xFDDE1DE1, 0xF1A51A04, 0xF9FE80DD, 0x1510E457))

  const LAST_20 := Machine(
    0x00000000, 0x00000700, 0x00000000, 0x00000380, 0x00000E00, 0x00000000, 0x00000000, 0x00001C00,
    0x00000000, 0x00000D80, 0x00003800, 0x00000480, 0x00000000, 0x00007000, 0x00000E00, 0x00003600,
    Hash(0xD8992153, 0xC2EB709F, 0x2946D62F, 0x9541F6DB, 0x365DC8D8))

  const LAST_30 := Machine(
    0x00003800, 0x00000480, 0x00000000, 0x00007000, 0x00000E00, 0x00003600, 0x0000E000, 0x00000E00,
    0x00000000, 0x0001CE00, 0x00000000, 0x0000D800, 0x00038000, 0x00004F00, 0x00000000, 0x00070E00,
    Hash(0x0A2FB108, 0x2429BE5F, 0xD7105B6B, 0x142F390D, 0x7BB14148))

  const LAST_40 := Machine(
    0x00000000, 0x0000D800, 0x00038000, 0x00004F00, 0x00000000, 0x00070E00, 0x0000EE00, 0x00037500,
    0x000E0000, 0x0000E000, 0x00003600, 0x001CEE00, 0x00000000, 0x000DF000, 0x00380000, 0x0004C600,
    Hash(0x03BB6310, 0x84E2A5F2, 0x21F56E03, 0xB3BD6B84, 0x1A5B6901))

  const LAST_50 := Machine(
    0x00003600, 0x001CEE00, 0x00000000, 0x000DF000, 0x00380000, 0x0004C600, 0x0000E000, 0x0070EE00,
    0x000EE000, 0x00369E00, 0x00E00000, 0x000ED600, 0x0000E000, 0x01CEA600, 0x00000000, 0x00D80000,
    Hash(0x850D411C, 0xDC8E7F26, 0x11BE4EDA, 0x9CC5815A, 0xB0F40CFA))

  const LAST_60 := Machine(
    0x00E00000, 0x000ED600, 0x0000E000, 0x01CEA600, 0x00000000, 0x00D80000, 0x0380E000, 0x004F0000,
    0x00000000, 0x070E0000, 0x00EE0000, 0x03751C00, 0x0E000000, 0x00E0E000, 0x00363800, 0x1CEE9000,
    Hash(0xA65818F7, 0x5B086C42, 0xB9E15956, 0xEA1256A6, 0xDB69CB9F))

  const LAST_70 := Machine(
    0x00EE0000, 0x03751C00, 0x0E000000, 0x00E0E000, 0x00363800, 0x1CEE9000, 0x00000000, 0x0DF09000,
    0x3800E000, 0x04C77400, 0x00E0E000, 0x70EE0000, 0x0EE35800, 0x369EE000, 0xE0000000, 0x0ED1A800,
    Hash(0x989DD165, 0x76C0563B, 0xFD889AEF, 0xC20FA430, 0x62DA1E06))

  const LAST_80 := Machine(
    0x00E0E000, 0x70EE0000, 0x0EE35800, 0x369EE000, 0xE0000000, 0x0ED1A800, 0x00E00000, 0xCEA51001,
    0x000EE000, 0xD800E000, 0x80E0E003, 0x4F1C0000, 0x00000000, 0x0E0D5807, 0xEE380000, 0x7518C803,
    Hash(0x906FD62C, 0x58C0AAC0, 0xB6A55520, 0x74E9B89D, 0x9AF00B7F))

  lemma LastTo10(m: seq<Word>)
    requires |m| == 16 && Reaches(LONG_MIDDLE, m, 0, LAST_0)
    ensures Reaches(LONG_MIDDLE, m, 10, LAST_10)
  {
    Advance(LONG_MIDDLE, m, 0, LAST_0, 10, LAST_10);
  }

  lemma LastTo20(m: seq<Word>)
    requires |m| == 16 && Reaches(LONG_MIDDLE, m, 10, LAST_10)
    ensures Reaches(LONG_MIDDLE, m, 20, LAST_20)
  {
    Advance(LONG_MIDDLE, m, 10, LAST_10, 10, LAST_20);
  }

  lemma LastTo30(m: seq<Word>)
    requires |m| == 16 && Reaches(LONG_MIDDLE, m, 20, LAST_20)
    ensures Reaches(LONG_MIDDLE, m, 30, LAST_30)
  {
    Advance(LONG_MIDDLE, m, 20, LAST_20, 10, LAST_30);
  }

  lemma LastTo40(m: seq<Word>)
    requires |m| == 16 && Reaches(LONG_MIDDLE, m, 30, LAST_30)
    ensures Reaches(LONG_MIDDLE, m, 40, LAST_40)
  {
    Advance(LONG_MIDDLE, m, 30, LAST_30, 10, LAST_40);
  }

  lemma LastTo50(m: seq<Word>)
    requires |m| == 16 && Reaches(LONG_MIDDLE, m, 40, LAST_40)
    ensures Reaches(LONG_MIDDLE, m, 50, LAST_50)
  {
    Advance(LONG_MIDDLE, m, 40, LAST_40, 10, LAST_50);
  }

  lemma LastTo60(m: seq<Word>)
    requires |m| == 16 && Reaches(LONG_MIDDLE, m, 50, LAST_50)
    ensures Reaches(LONG_MIDDLE, m, 60, LAST_60)
  {
    Advance(LONG_MIDDLE, m, 50, LAST_50, 10, LAST_60);
  }

  lemma LastTo70(m: seq<Word>)
    requires |m| == 16 && Reaches(LONG_MIDDLE, m, 60, LAST_60)
    ensures Reaches(LONG_MIDDLE, m, 70, LAST_70)
  {
    Advance(LONG_MIDDLE, m, 60, LAST_60, 10, LAST_70);
  }

  lemma LastTo80(m: seq<Word>)
    requires |m| == 16 && Reaches(LONG_MIDDLE, m, 70, LAST_70)
    ensures Reaches(LONG_MIDDLE, m, 80, LAST_80)
  {
    Advance(LONG_MIDDLE, m, 70, LAST_70, 10, LAST_80);
  }

  lemma LastRounds(m: seq<Word>)
    requires |m| == 16 && Reaches(LONG_MIDDLE, m, 0, LAST_0)
    ensures Rounds(LONG_MIDDLE, m, 80) == LAST_80.h
  {
    LastTo10(m);
    LastTo20(m);
    LastTo30(m);
    LastTo40(m);
    LastTo50(m);
    LastTo60(m);
    LastTo70(m);
    LastTo80(m);
    ReachesEnd(LONG_MIDDLE, m, 80, LAST_80);
  }

  /** Each group of four letters starts one letter later. */
  const LONG_TEXT: seq<byte> := seq(56, i requires 0 <= i < 56 => (0x61 + i / 4 + i % 4) as byte)

  lemma ZerosJoin(a: nat, b: nat)
    ensures Zeros(a) + Zeros(b) == Zeros(a + b)
  {
  }

  lemma LongPadded()
    ensures Pad(LONG_TEXT) == LONG_TEXT + [0x80] + Zeros(69) + [0x01, 0xC0]
  {
    assert ZeroBytes(56) == 63;
    EndsIn(448);
    assert LengthField(56) == Zeros(6) + [0x01, 0xC0];
    assert Padding(56) == [0x80] + Zeros(63) + LengthField(56);
    ZerosJoin(63, 6);
  }

  /** Group `i` of the letters. */
  function Letters(i: nat): Word
    requires i < 14
  {
    BigWord(Bits((0x61 + i) as byte), Bits((0x62 + i) as byte), Bits((0x63 + i) as byte), Bits((0x64 + i) as byte))
  }

  lemma LetterAt(s: seq<byte>, i: nat, j: nat)
    requires i < 14 && j < 4 && |s| == 64 && s[..56] == LONG_TEXT
    ensures s[4 * i + j] == (0x61 + i + j) as byte
  {
    var k := 4 * i + j;
    assert k / 4 == i && k % 4 == j;
    assert s[k] == s[..56][k];
  }

  lemma LetterWord(s: seq<byte>, i: nat, w: Word)
    requires i < 14 && |s| == 64 && s[..56] == LONG_TEXT && Letters(i) == w
    ensures WordAt(s, 4 * i) == w
  {
    LetterAt(s, i, 0);
    LetterAt(s, i, 1);
    LetterAt(s, i, 2);
    LetterAt(s, i, 3);
  }

  lemma LongWords0(s: seq<byte>)
    requires |s| == 64 && s[..56] == LONG_TEXT
    ensures WordAt(s, 0) == 0x61626364
    ensures WordAt(s, 4) == 0x62636465
    ensures WordAt(s, 8) == 0x63646566
    ensures WordAt(s, 12) == 0x64656667
    ensures WordAt(s, 16) == 0x65666768
    ensures WordAt(s, 20) == 0x66676869
    ensures WordAt(s, 24) == 0x6768696A
  {
    LetterWord(s, 0, 0x61626364);
    LetterWord(s, 1, 0x62636465);
    LetterWord(s, 2, 0x63646566);
    LetterWord(s, 3, 0x64656667);
    LetterWord(s, 4, 0x65666768);
    LetterWord(s, 5, 0x66676869);
    LetterWord(s, 6, 0x6768696A);
  }

  lemma LongWords7(s: seq<byte>)
    requires |s| == 64 && s[..56] == LONG_TEXT
    ensures WordAt(s, 28) == 0x68696A6B
    ensures WordAt(s, 32) == 0x696A6B6C
    ensures WordAt(s, 36) == 0x6A6B6C6D
    ensures WordAt(s, 40) == 0x6B6C6D6E
    ensures WordAt(s, 44) == 0x6C6D6E6F
    ensures WordAt(s, 48) == 0x6D6E6F70
    ensures WordAt(s, 52) == 0x6E6F7071
  {
    LetterWord(s, 7, 0x68696A6B);
    LetterWord(s, 8, 0x696A6B6C);
    LetterWord(s, 9, 0x6A6B6C6D);
    LetterWord(s, 10, 0x6B6C6D6E);
    LetterWord(s, 11, 0x6C6D6E6F);
    LetterWord(s, 12, 0x6D6E6F70);
    LetterWord(s, 13, 0x6E6F7071);
  }

  lemma MarkWord(s: seq<byte>)
    requires |s| == 64 && s[56..] == [0x80, 0, 0, 0, 0, 0, 0, 0]
    ensures WordAt(s, 56) == 0x80000000 && WordAt(s, 60) == 0
  {
    assert forall j :: 0 <= j < 8 ==> s[56 + j] == s[56..][j];
  }

  lemma LongWords(s: seq<byte>)
    requires |s| == 64 && s[..56] == LONG_TEXT && s[56..] == [0x80, 0, 0, 0, 0, 0, 0, 0]
    ensures Reaches(INITIAL, BlockWords(s), 0, LONG_0)
  {
    LongWords0(s);
    LongWords7(s);
    MarkWord(s);
    StartsAt(INITIAL, BlockWords(s));
  }

  lemma LengthWord(s: seq<byte>)
    requires |s| == 64 && s[60..] == [0, 0, 0x01, 0xC0]
    ensures WordAt(s, 60) == 0x1C0
  {
    assert forall j :: 0 <= j < 4 ==> s[60 + j] == s[60..][j];
  }

  lemma LastWords(s: seq<byte>)
    requires s == Zeros(62) + [0x01, 0xC0]
    ensures Reaches(LONG_MIDDLE, BlockWords(s), 0, LAST_0)
  {
    var m := BlockWords(s);
    forall i | 0 <= i < 15
      ensures m[i] == 0
    {
      ZeroWord(s, 4 * i);
    }
    assert s[60..] == [0, 0, 0x01, 0xC0];
    LengthWord(s);
    StartsAt(LONG_MIDDLE, m);
  }

  lemma LongMiddle()
    ensures AddHash(INITIAL, LONG_80.h) == LONG_MIDDLE
  {
  }

  lemma TwoBlocks(p: seq<byte>)
    requires |p| == 128
    ensures Fold(p) == Compress(Compress(INITIAL, BlockWords(p[..64])), BlockWords(p[64..]))
  {
    OneBlock(p[..64]);
  }

  lemma BytesOfLong()
    ensures HashBytes(AddHash(LONG_MIDDLE, LAST_80.h)) ==
            [0x84, 0x98, 0x3E, 0x44, 0x1C, 0x3B, 0xD2, 0x6E, 0xBA, 0xAE,
             0x4A, 0xA1, 0xF9, 0x51, 0x29, 0xE5, 0xE5, 0x46, 0x70, 0xF1]
  {
  }

  /** The second example, of two blocks. */
  lemma DigestOfLong()
    ensures Digest(LONG_TEXT) ==
            [0x84, 0x98, 0x3E, 0x44, 0x1C, 0x3B, 0xD2, 0x6E, 0xBA, 0xAE,
             0x4A, 0xA1, 0xF9, 0x51, 0x29, 0xE5, 0xE5, 0x46, 0x70, 0xF1]
  {
    var p := Pad(LONG_TEXT);
    LongPadded();
    assert p[..64][..56] == LONG_TEXT && p[..64][56..] == [0x80, 0, 0, 0, 0, 0, 0, 0];
    assert p[64..] == Zeros(62) + [0x01, 0xC0];
    LongWords(p[..64]);
    LongRounds(BlockWords(p[..64]));
    LongMiddle();
    LastWords(p[64..]);
    LastRounds(BlockWords(p[64..]));
    TwoBlocks(p);
    BytesOfLong();
  }
}
