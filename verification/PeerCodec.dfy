/** The byte form of the peer table: `lookup_table_serialize` and `lookup_table_deserialize`. */
module PeerCodec {
  import opened Bytes
  import opened Options
  import opened PeerList

  const COUNT_SIZE := 8
  const RECORD_SIZE := 70

  /** A C `int` in little-endian memory. */
  function PortBytes(port: int): (s: seq<byte>)
    ensures |s| == 4
  {
    LittleEndian(port % TWO32, 4)
  }

  function PortOf(s: seq<byte>): int {
    var n := FromLittleEndian(s);
    if n < 0x8000_0000 then n else n - TWO32
  }

  lemma PortRoundTrip(port: int)
    requires -0x8000_0000 <= port < 0x8000_0000
    ensures PortOf(PortBytes(port)) == port
  {
    assert Pow256(4) == TWO32;
    LittleEndianRoundTrip(port % TWO32, 4);
  }

  lemma PortInRange(s: seq<byte>)
    requires |s| == 4
    ensures -0x8000_0000 <= PortOf(s) < 0x8000_0000
  {
    assert Pow256(4) == TWO32;
    LittleEndianOfBytes(s);
  }

  function EncodeInfo(info: NodeInfo): (s: seq<byte>)
    requires |info.host| == MAX_HOST_LEN && |info.hash| == HASH_SIZE
    ensures |s| == RECORD_SIZE
  {
    info.host + PortBytes(info.port) + info.hash
  }

  /** A record as read back, its host passing through `create_node`. */
  function DecodeInfo(s: seq<byte>): NodeInfo
    requires |s| == RECORD_SIZE
  {
    MakeInfo(s[..46], PortOf(s[46..50]), s[50..70])
  }

  lemma InfoRoundTrip(info: NodeInfo)
    requires Canonical(info)
    ensures DecodeInfo(EncodeInfo(info)) == info
  {
    var s := EncodeInfo(info);
    assert s[..46] == info.host && s[46..50] == PortBytes(info.port) && s[50..70] == info.hash;
    PortRoundTrip(info.port);
  }

  /** A record's fields by their place: the host buffer, the port low byte first, the hash. */
  lemma RecordBytes(info: NodeInfo)
    requires |info.host| == 46 && |info.hash| == 20 && -0x8000_0000 <= info.port < 0x8000_0000
    ensures var s, p := EncodeInfo(info), info.port % 0x1_0000_0000;
      && |s| == 70 && s[..46] == info.host && s[50..] == info.hash
      && s[46] == ToByte(p) && s[47] == ToByte(p / 256)
      && s[48] == ToByte(p / 0x1_0000) && s[49] == ToByte(p / 0x100_0000)
  {
    var p := info.port % 0x1_0000_0000;
    assert Pow256(0) == 1 && Pow256(1) == 256 && Pow256(2) == 0x1_0000 && Pow256(3) == 0x100_0000;
    LittleEndianAt(p, 4, 0);
    LittleEndianAt(p, 4, 1);
    LittleEndianAt(p, 4, 2);
    LittleEndianAt(p, 4, 3);
  }

  lemma FourBytes(s: seq<byte>)
    requires |s| == 4
    ensures FromLittleEndian(s) ==
            s[0] as int + 256 * s[1] as int + 0x1_0000 * s[2] as int + 0x100_0000 * s[3] as int
  {
    assert s[1..][1..] == s[2..] && s[2..][1..] == s[3..] && s[3..][1..] == [];
    assert FromLittleEndian(s[3..]) == s[3] as int;
    assert FromLittleEndian(s[2..]) == s[2] as int + 256 * FromLittleEndian(s[3..]);
    assert FromLittleEndian(s[1..]) == s[1] as int + 256 * FromLittleEndian(s[2..]);
  }

  /** The same of a record that is read. */
  lemma RecordFields(s: seq<byte>)
    requires |s| == 70
    ensures var info := DecodeInfo(s);
      && CString(info.host) == (if |CString(s[..46])| < 46 then CString(s[..46]) else s[..45])
      && info.hash == s[50..]
      && -0x8000_0000 <= info.port < 0x8000_0000
      && info.port % 0x1_0000_0000 ==
         s[46] as int + 256 * s[47] as int + 0x1_0000 * s[48] as int + 0x100_0000 * s[49] as int
  {
    HostBufferReadsAs(s[..46]);
    FourBytes(s[46..50]);
    PortInRange(s[46..50]);
    CStringPrefix(s[..46]);
  }

  lemma {:induction false} CStringPrefix(s: seq<byte>)
    ensures CString(s) <= s
  {
    if s != [] && s[0] != 0 {
      CStringPrefix(s[1..]);
    }
  }

  predicate Sized(l: seq<NodeInfo>) {
    forall i :: 0 <= i < |l| ==> |l[i].host| == MAX_HOST_LEN && |l[i].hash| == HASH_SIZE
  }

  function EncodeAll(l: seq<NodeInfo>): (s: seq<byte>)
    requires Sized(l)
    ensures |s| == RECORD_SIZE * |l|
  {
    if l == [] then [] else EncodeAll(l[..|l| - 1]) + EncodeInfo(l[|l| - 1])
  }

  function EncodeTable(l: seq<NodeInfo>): (s: seq<byte>)
    requires Sized(l)
    ensures |s| == COUNT_SIZE + RECORD_SIZE * |l|
  {
    LittleEndian(|l|, COUNT_SIZE) + EncodeAll(l)
  }

  function RecordAt(data: seq<byte>, i: nat): NodeInfo
    requires COUNT_SIZE + RECORD_SIZE * (i + 1) <= |data|
  {
    DecodeInfo(data[COUNT_SIZE + RECORD_SIZE * i..COUNT_SIZE + RECORD_SIZE * (i + 1)])
  }

  lemma RecordAtOffset(data: seq<byte>, offset: nat, i: nat)
    requires offset == COUNT_SIZE + RECORD_SIZE * i && offset + RECORD_SIZE <= |data|
    ensures RecordAt(data, i) == DecodeInfo(data[offset..offset + RECORD_SIZE])
  {
    assert COUNT_SIZE + RECORD_SIZE * (i + 1) == offset + RECORD_SIZE;
  }

  function Records(data: seq<byte>, n: nat): (l: seq<NodeInfo>)
    requires COUNT_SIZE + RECORD_SIZE * n <= |data|
    ensures |l| == n
    ensures forall i :: 0 <= i < n ==> l[i] == RecordAt(data, i)
  {
    seq(n, i requires 0 <= i < n => RecordAt(data, i))
  }

  /** The first `n` records, the last one read in front. */
  function DecodeAll(data: seq<byte>, n: nat): (l: seq<NodeInfo>)
    requires COUNT_SIZE + RECORD_SIZE * n <= |data|
    ensures |l| == n
  {
    Reverse(Records(data, n))
  }

  lemma DecodeNext(data: seq<byte>, n: nat)
    requires COUNT_SIZE + RECORD_SIZE * (n + 1) <= |data|
    ensures DecodeAll(data, n + 1) == [RecordAt(data, n)] + DecodeAll(data, n)
  {
    assert Records(data, n + 1) == Records(data, n) + [RecordAt(data, n)];
    ReverseSnoc(Records(data, n), RecordAt(data, n));
  }

  lemma ReverseSnoc<T>(s: seq<T>, x: T)
    ensures Reverse(s + [x]) == [x] + Reverse(s)
  {
  }

  function CountOf(data: seq<byte>): nat
    requires |data| >= COUNT_SIZE
  {
    FromLittleEndian(data[..COUNT_SIZE])
  }

  function DecodeTable(data: seq<byte>): Option<seq<NodeInfo>> {
    if |data| < COUNT_SIZE || |data| < COUNT_SIZE + RECORD_SIZE * CountOf(data) then None
    else Some(DecodeAll(data, CountOf(data)))
  }

  function Reverse<T>(s: seq<T>): (r: seq<T>)
    ensures |r| == |s|
    ensures forall i :: 0 <= i < |s| ==> r[i] == s[|s| - 1 - i]
  {
    seq(|s|, i requires 0 <= i < |s| => s[|s| - 1 - i])
  }

  lemma EncodeNext(l: seq<NodeInfo>, k: nat)
    requires Sized(l) && k < |l|
    ensures EncodeAll(l[..k + 1]) == EncodeAll(l[..k]) + EncodeInfo(l[k])
  {
    assert l[..k + 1][..k] == l[..k];
  }

  lemma {:induction false} EncodedRecordAt(l: seq<NodeInfo>, rest: seq<byte>, i: nat)
    requires AllCanonical(l) && i < |l|
    ensures (EncodeAll(l) + rest)[RECORD_SIZE * i..RECORD_SIZE * (i + 1)] == EncodeInfo(l[i])
  {
    var init, last := l[..|l| - 1], l[|l| - 1];
    var s := EncodeAll(l) + rest;
    assert s == EncodeAll(init) + (EncodeInfo(last) + rest);
    if i < |l| - 1 {
      EncodedRecordAt(init, EncodeInfo(last) + rest, i);
    }
  }

  lemma SliceAfter(head: seq<byte>, body: seq<byte>, a: nat, b: nat)
    requires a <= b <= |body|
    ensures (head + body)[|head| + a..|head| + b] == body[a..b]
  {
  }

  lemma EncodedSlice(l: seq<NodeInfo>, rest: seq<byte>, i: nat)
    requires AllCanonical(l) && i < |l|
    ensures (EncodeTable(l) + rest)[COUNT_SIZE + RECORD_SIZE * i..COUNT_SIZE + RECORD_SIZE * (i + 1)] ==
            EncodeInfo(l[i])
  {
    EncodedRecordAt(l, rest, i);
    var head := LittleEndian(|l|, COUNT_SIZE);
    assert EncodeTable(l) + rest == head + (EncodeAll(l) + rest);
    SliceAfter(head, EncodeAll(l) + rest, RECORD_SIZE * i, RECORD_SIZE * (i + 1));
  }

  lemma RecordOfEncoded(l: seq<NodeInfo>, rest: seq<byte>, i: nat)
    requires AllCanonical(l) && i < |l|
    ensures RecordAt(EncodeTable(l) + rest, i) == l[i]
  {
    EncodedSlice(l, rest, i);
    assert Canonical(l[i]);
    InfoRoundTrip(l[i]);
  }

  lemma DecodeEncoded(l: seq<NodeInfo>, rest: seq<byte>)
    requires AllCanonical(l)
    ensures DecodeAll(EncodeTable(l) + rest, |l|) == Reverse(l)
  {
    var data := EncodeTable(l) + rest;
    forall i | 0 <= i < |l|
      ensures Records(data, |l|)[i] == l[i]
    {
      RecordOfEncoded(l, rest, i);
    }
    assert Records(data, |l|) == l;
  }

  lemma CountOfPrefix(n: nat, rest: seq<byte>)
    requires n < TWO64
    ensures CountOf(LittleEndian(n, COUNT_SIZE) + rest) == n
  {
    Pow256Eight();
    LittleEndianRoundTrip(n, COUNT_SIZE);
    assert (LittleEndian(n, COUNT_SIZE) + rest)[..COUNT_SIZE] == LittleEndian(n, COUNT_SIZE);
  }

  lemma CountOfEncoded(l: seq<NodeInfo>, rest: seq<byte>)
    requires AllCanonical(l) && |l| < TWO64
    ensures CountOf(EncodeTable(l) + rest) == |l|
  {
    CountOfPrefix(|l|, EncodeAll(l) + rest);
    assert EncodeTable(l) + rest == LittleEndian(|l|, COUNT_SIZE) + (EncodeAll(l) + rest);
  }

  /** Reading back what was written gives the records in reverse order; bytes after them are ignored. */
  lemma RoundTripReverses(l: seq<NodeInfo>, rest: seq<byte>)
    requires AllCanonical(l) && |l| < TWO64
    ensures DecodeTable(EncodeTable(l) + rest) == Some(Reverse(l))
  {
    CountOfEncoded(l, rest);
    DecodeEncoded(l, rest);
  }

  lemma ReverseKeeps(l: seq<NodeInfo>)
    requires AllCanonical(l)
    ensures AllCanonical(Reverse(l))
  {
    forall i | 0 <= i < |l|
      ensures Canonical(Reverse(l)[i])
    {
      assert Canonical(l[|l| - 1 - i]);
    }
  }

  /** Two round trips restore the table. */
  lemma TwoRoundTrips(l: seq<NodeInfo>)
    requires AllCanonical(l) && |l| < TWO64
    ensures DecodeTable(EncodeTable(l)) == Some(Reverse(l)) && AllCanonical(Reverse(l))
    ensures DecodeTable(EncodeTable(Reverse(l))) == Some(l)
  {
    RoundTripReverses(l, []);
    ReverseKeeps(l);
    assert EncodeTable(l) + [] == EncodeTable(l);
    RoundTripReverses(Reverse(l), []);
    assert EncodeTable(Reverse(l)) + [] == EncodeTable(Reverse(l));
    assert Reverse(Reverse(l)) == l;
  }

  /** The count is in front, its low byte first; record `i` is at 8 + 70 i, and is read into place n - 1 - i. */
  lemma TableBytes(l: seq<NodeInfo>, i: nat)
    requires AllCanonical(l) && i < |l| < TWO64
    ensures var s := EncodeTable(l);
      && |s| == 8 + 70 * |l| && (forall j :: 0 <= j < 8 ==> s[j] == ToByte(|l| / Pow256(j)))
      && s[8 + 70 * i..8 + 70 * (i + 1)] == EncodeInfo(l[i])
  {
    EncodedSlice(l, [], i);
    assert EncodeTable(l) + [] == EncodeTable(l);
    forall j | 0 <= j < 8
      ensures EncodeTable(l)[j] == ToByte(|l| / Pow256(j))
    {
      LittleEndianAt(|l|, 8, j);
      assert EncodeTable(l)[j] == LittleEndian(|l|, 8)[j];
    }
  }

  lemma TableFields(s: seq<byte>, n: nat, i: nat, offset: nat)
    requires i < n < TWO64 && 8 + 70 * n <= |s| && s[..8] == LittleEndian(n, 8) && offset == 8 + 70 * i
    ensures DecodeTable(s).Some? && |DecodeTable(s).value| == n && offset + 70 <= |s|
    ensures DecodeTable(s).value[n - 1 - i] == DecodeInfo(s[offset..offset + 70])
  {
    CountOfPrefix(n, s[8..]);
    assert s == LittleEndian(n, 8) + s[8..];
    ReadInto(s, n, i);
    RecordAtOffset(s, offset, i);
  }

  lemma ReadInto(data: seq<byte>, n: nat, i: nat)
    requires COUNT_SIZE + RECORD_SIZE * n <= |data| && i < n
    ensures DecodeAll(data, n)[n - 1 - i] == RecordAt(data, i)
  {
    assert Records(data, n)[i] == RecordAt(data, i);
  }

  /** `8 + node_count * 70` in 64-bit arithmetic. */
  function ExpectedSize(count: nat): nat {
    (COUNT_SIZE + RECORD_SIZE * count) % TWO64
  }

  /** The length test keeps every read inside the data exactly when the size it compares with has
      not wrapped, or is still too large. */
  predicate CountFits(data: seq<byte>) {
    |data| < COUNT_SIZE || COUNT_SIZE + RECORD_SIZE * CountOf(data) < TWO64 || |data| < ExpectedSize(CountOf(data))
  }

  lemma LengthTestIsExact(data: seq<byte>)
    requires COUNT_SIZE <= |data| < TWO64
    ensures CountFits(data) <==>
            (|data| >= ExpectedSize(CountOf(data)) ==> |data| >= COUNT_SIZE + RECORD_SIZE * CountOf(data))
  {
  }

  lemma WrappedTo62(count: nat)
    requires COUNT_SIZE + RECORD_SIZE * count == TWO64 + 62
    ensures var data := LittleEndian(count, COUNT_SIZE) + Zeros(54);
      |data| == 62 >= ExpectedSize(CountOf(data)) && !CountFits(data) && CountOf(data) == count
  {
    CountOfPrefix(count, Zeros(54));
  }

  const WRAPPING_COUNT: nat := 263524915338707881

  /** Sixty-two bytes that pass the length test, though their count asks for 2^64 + 62. */
  lemma WrappedCount()
    ensures var data := LittleEndian(WRAPPING_COUNT, COUNT_SIZE) + Zeros(54);
      && |data| == 62 >= ExpectedSize(CountOf(data)) && !CountFits(data)
      && COUNT_SIZE + RECORD_SIZE * CountOf(data) == TWO64 + 62
  {
    WrappedTo62(WRAPPING_COUNT);
  }
}
