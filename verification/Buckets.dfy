/**
 The bucket a digest falls into: `sha1_mod_bucket` in `src/database/store.c`. `size_t` has 64 bits and
 wraps; `char` is signed, so a byte of 128 or more is added as a negative number.
 */
module Buckets {
  import opened Bytes

  /** The node's own bucket count. */
  const NODE_BUCKETS := 1024

  function SignedChar(b: byte): int {
    if b < 128 then b as int else b as int - 256
  }

  /** One turn of the loop, in 64-bit arithmetic. */
  function HornerStep(result: nat, b: byte, count: nat): (r: nat)
    requires count > 0
    ensures r < count
  {
    (result * 256 + SignedChar(b)) % TWO64 % count
  }

  function BucketOf(hash: seq<byte>, count: nat): (r: nat)
    requires count > 0
    ensures r < count
  {
    if hash == [] then 0
    else HornerStep(BucketOf(hash[..|hash| - 1], count), hash[|hash| - 1], count)
  }

  method BucketIndex(hash: seq<byte>, count: nat) returns (result: nat)
    requires count > 0
    ensures result == BucketOf(hash, count) && result < count
  {
    result := 0;
    for i := 0 to |hash|
      invariant result == BucketOf(hash[..i], count)
    {
      result := HornerStep(result, hash[i], count);
      assert hash[..i + 1][..i] == hash[..i];
    }
    assert hash[..|hash|] == hash;
  }

  /** The digest read as a base-256 number with digits from -128 to 127. */
  function SignedNumber(hash: seq<byte>): int {
    if hash == [] then 0 else 256 * SignedNumber(hash[..|hash| - 1]) + SignedChar(hash[|hash| - 1])
  }

  /** A C `char`: eight bits, from -128 to 127. */
  lemma SignedCharIs(b: byte)
    ensures -128 <= SignedChar(b) <= 127 && (b as int - SignedChar(b)) % 256 == 0
  {
  }

  /** Later digits weigh less, each 256 times. */
  lemma {:induction false} SignedNumberSplit(a: seq<byte>, b: seq<byte>)
    ensures SignedNumber(a + b) == SignedNumber(a) * Pow256(|b|) + SignedNumber(b)
  {
    if b == [] {
      assert a + b == a;
    } else {
      var init, last := b[..|b| - 1], b[|b| - 1];
      SignedNumberSplit(a, init);
      assert (a + b)[..|a + b| - 1] == a + init;
      Weigh(SignedNumber(a), Pow256(|init|));
    }
  }

  lemma Weigh(n: int, p: nat)
    ensures 256 * (n * p) == n * (256 * p)
  {
  }

  lemma SignedNumberOfOne(b: byte)
    ensures SignedNumber([b]) == SignedChar(b)
  {
    assert [b][..0] == [];
  }

  lemma MulBelow(k: int, n: nat)
    requires n > 0 && -(n as int) < k * n < n
    ensures k == 0
  {
  }

  lemma ModPlus(b: int, k: int, n: nat)
    requires n > 0
    ensures (b + k * n) % n == b % n
  {
    var c := b + k * n;
    assert c % n - b % n == (b / n + k - c / n) * n;
    MulBelow(b / n + k - c / n, n);
  }

  lemma ModMod(a: int, t: nat, n: nat)
    requires n > 0 && t > 0 && t % n == 0
    ensures a % t % n == a % n
  {
    var m := t / n;
    assert t == m * n;
    assert a == a % t + (a / t * m) * n;
    ModPlus(a % t, a / t * m, n);
  }

  lemma ModShift(s: int, d: int, n: nat)
    requires n > 0
    ensures (s % n * 256 + d) % n == (256 * s + d) % n
  {
    assert 256 * s + d == s % n * 256 + d + (256 * (s / n)) * n;
    ModPlus(s % n * 256 + d, 256 * (s / n), n);
  }

  lemma StepWhenDividing(s: int, b: byte, count: nat)
    requires count > 0 && TWO64 % count == 0
    ensures HornerStep(s % count, b, count) == (256 * s + SignedChar(b)) % count
  {
    ModMod(s % count * 256 + SignedChar(b), TWO64, count);
    ModShift(s, SignedChar(b), count);
  }

  lemma {:induction false} BucketWhenDividing(hash: seq<byte>, count: nat)
    requires count > 0 && TWO64 % count == 0
    ensures BucketOf(hash, count) == SignedNumber(hash) % count
  {
    if hash != [] {
      var init, last := hash[..|hash| - 1], hash[|hash| - 1];
      BucketWhenDividing(init, count);
      StepWhenDividing(SignedNumber(init), last, count);
    }
  }

  /** The loop computes a remainder of the signed number exactly when the count divides 2^64. */
  lemma BucketIsRemainder(count: nat)
    requires 0 < count
    ensures TWO64 % count == 0 <==>
            forall hash: seq<byte> :: |hash| == 20 ==> BucketOf(hash, count) == SignedNumber(hash) % count
  {
    if TWO64 % count == 0 {
      forall hash: seq<byte> | |hash| == 20
        ensures BucketOf(hash, count) == SignedNumber(hash) % count
      {
        BucketWhenDividing(hash, count);
      }
    } else {
      WrappedDigest(count);
    }
  }

  lemma ZeroStep(count: nat)
    requires count > 0
    ensures HornerStep(0, 0, count) == 0
  {
    ModPlus(0, 0, count);
  }

  lemma {:induction false} ZerosBucket(k: nat, count: nat)
    requires count > 0
    ensures BucketOf(Zeros(k), count) == 0 && SignedNumber(Zeros(k)) == 0
  {
    if k > 0 {
      ZerosBucket(k - 1, count);
      var zeros := Zeros(k);
      assert zeros[..k - 1] == Zeros(k - 1) && zeros[k - 1] == 0;
      ZeroStep(count);
    }
  }

  lemma WrappedStep(count: nat)
    requires count > 0
    ensures HornerStep(0, 255, count) == (TWO64 - 1) % count
  {
    assert 0 * 256 + SignedChar(255) == -1 && (-1) % TWO64 == TWO64 - 1;
  }

  lemma MinusOneDiffers(t: nat, count: nat)
    requires count > 0 && t % count != 0
    ensures (t - 1) % count != (-1) % count
  {
    if (t - 1) % count == (-1) % count {
      var k := (t - 1) / count - (-1) / count;
      assert t == k * count;
      ModPlus(0, k, count);
    }
  }

  /** The digest 00...00FF, whose last step wraps to 2^64 - 1. */
  lemma WrappedDigest(count: nat)
    requires count > 0 && TWO64 % count != 0
    ensures var hash := Zeros(19) + [255]; |hash| == 20 && BucketOf(hash, count) != SignedNumber(hash) % count
  {
    var hash := Zeros(19) + [255];
    assert hash[..19] == Zeros(19);
    ZerosBucket(19, count);
    WrappedStep(count);
    assert SignedNumber(hash) == -1;
    MinusOneDiffers(TWO64, count);
  }

  /** With the node's 1024 buckets only the last two bytes matter. */
  lemma NodeBucket(hash: seq<byte>)
    requires |hash| == 20
    ensures BucketOf(hash, NODE_BUCKETS) == (256 * SignedChar(hash[18]) + SignedChar(hash[19])) % NODE_BUCKETS
  {
    BucketWhenDividing(hash, NODE_BUCKETS);
    var init := hash[..19];
    assert init[..18] == hash[..18];
    var high := SignedNumber(hash[..18]);
    var low := 256 * SignedChar(hash[18]) + SignedChar(hash[19]);
    assert SignedNumber(hash) == low + 64 * high * NODE_BUCKETS;
    ModPlus(low, 64 * high, NODE_BUCKETS);
  }
}
