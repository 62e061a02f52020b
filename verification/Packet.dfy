/** The datagram format of `src/packet/packet.c`. */
module Packets {
  import opened Bytes
  import opened Options

  const HEADER_SIZE := 26

  const CMD_ERROR: byte := 4
  const CMD_PING: byte := 5

  datatype Packet = Packet(version: byte, kind: byte, reqId: nat, sender: seq<byte>, payload: seq<byte>) {
    /** The field widths: 16-bit request id and payload length, 20-byte sender hash. */
    ghost predicate Valid() {
      reqId < 0x1_0000 && |sender| == 20 && |payload| < 0x1_0000
    }
  }

  function Encode(p: Packet): (s: seq<byte>)
    requires |p.sender| == 20
    ensures |s| == HEADER_SIZE + |p.payload|
  {
    [p.version, p.kind] + BigEndian(p.reqId, 2) + p.sender + BigEndian(|p.payload|, 2) + p.payload
  }

  /** The packet a datagram starts with. */
  function Decode(s: seq<byte>): Option<Packet> {
    if |s| < HEADER_SIZE then None
    else
      var payloadLen := FromBigEndian(s[24..26]);
      if |s| < HEADER_SIZE + payloadLen then None
      else Some(Packet(s[0], s[1], FromBigEndian(s[2..4]), s[4..24], s[26..26 + payloadLen]))
  }

  lemma SixteenBits(n: nat)
    requires n < 0x1_0000
    ensures FromBigEndian(BigEndian(n, 2)) == n
  {
    assert Pow256(2) == 0x1_0000;
    BigEndianRoundTrip(n, 2);
  }

  lemma SixteenBitsOf(s: seq<byte>)
    requires |s| == 2
    ensures FromBigEndian(s) < 0x1_0000 && BigEndian(FromBigEndian(s), 2) == s
  {
    assert Pow256(2) == 0x1_0000;
    BigEndianOfBytes(s);
  }

  /** Bytes after a packet are ignored. */
  lemma DecodeEncode(p: Packet, rest: seq<byte>)
    requires p.Valid()
    ensures Decode(Encode(p) + rest) == Some(p)
  {
    var s := Encode(p) + rest;
    assert s[2..4] == BigEndian(p.reqId, 2);
    assert s[4..24] == p.sender;
    assert s[24..26] == BigEndian(|p.payload|, 2);
    SixteenBits(p.reqId);
    SixteenBits(|p.payload|);
    assert s[26..26 + |p.payload|] == p.payload;
  }

  lemma EncodeDecode(s: seq<byte>)
    requires Decode(s).Some?
    ensures Decode(s).value.Valid()
    ensures Encode(Decode(s).value) == s[..HEADER_SIZE + |Decode(s).value.payload|]
  {
    SixteenBitsOf(s[2..4]);
    SixteenBitsOf(s[24..26]);
  }

  /** A datagram is rejected exactly when no packet is a prefix of it, and no other packet is. */
  lemma DecodeIsPrefix(s: seq<byte>, p: Packet)
    requires p.Valid()
    ensures Decode(s) == Some(p) <==> Encode(p) <= s
  {
    if Encode(p) <= s {
      DecodeEncode(p, s[|Encode(p)|..]);
      assert s == Encode(p) + s[|Encode(p)|..];
    }
    if Decode(s) == Some(p) {
      EncodeDecode(s);
    }
  }

  lemma TwoBytes(n: nat)
    requires n < 0x1_0000
    ensures BigEndian(n, 2) == [ToByte(n / 256), ToByte(n)]
    ensures n == 256 * ToByte(n / 256) as int + ToByte(n) as int
  {
    assert BigEndian(n / 256, 1) == [ToByte(n / 256)];
  }

  /** The fields of a packet by their place in its bytes. */
  lemma EncodedFields(p: Packet)
    requires p.Valid()
    ensures var s := Encode(p);
      && s[0] == p.version && s[1] == p.kind
      && s[2] as int * 256 + s[3] as int == p.reqId
      && s[4..24] == p.sender
      && s[24] as int * 256 + s[25] as int == |p.payload|
      && s[26..] == p.payload
  {
    var s := Encode(p);
    TwoBytes(p.reqId);
    TwoBytes(|p.payload|);
    assert s[2..4] == BigEndian(p.reqId, 2) && s[24..26] == BigEndian(|p.payload|, 2);
    assert s[2] == s[2..4][0] && s[3] == s[2..4][1] && s[24] == s[24..26][0] && s[25] == s[24..26][1];
  }

  /** And of a datagram: 26 bytes of header, and behind them as many as the last two of it say. */
  lemma DecodedFields(s: seq<byte>)
    ensures |s| < 26 ==> Decode(s) == None
    ensures |s| >= 26 ==>
              var n := s[24] as int * 256 + s[25] as int;
              Decode(s) == if |s| < 26 + n then None
                           else Some(Packet(s[0], s[1], s[2] as int * 256 + s[3] as int, s[4..24], s[26..26 + n]))
  {
    if |s| >= 26 {
      NetworkOrder(s[2..4]);
      NetworkOrder(s[24..26]);
    }
  }

  /** `packet_from_bytes`. */
  method FromBytes(bytes: seq<byte>) returns (packet: Option<Packet>)
    ensures packet.Some? ==> packet.value.Valid() && Encode(packet.value) <= bytes
    ensures packet.None? ==> forall p: Packet :: p.Valid() ==> !(Encode(p) <= bytes)
    ensures packet == Decode(bytes)
  {
    if |bytes| < HEADER_SIZE {
      return None;
    }
    var version, kind := bytes[0], bytes[1];
    var reqId := 256 * bytes[2] as int + bytes[3] as int;
    var sender := bytes[4..24];
    var payloadLen := 256 * bytes[24] as int + bytes[25] as int;
    NetworkOrder(bytes[2..4]);
    NetworkOrder(bytes[24..26]);
    if |bytes| < HEADER_SIZE + payloadLen {
      packet := None;
    } else {
      packet := Some(Packet(version, kind, reqId, sender, bytes[26..26 + payloadLen]));
      EncodeDecode(bytes);
    }
    forall p: Packet | packet.None? && p.Valid()
      ensures !(Encode(p) <= bytes)
    {
      DecodeIsPrefix(bytes, p);
    }
  }

  lemma NetworkOrder(s: seq<byte>)
    requires |s| == 2
    ensures FromBigEndian(s) == 256 * s[0] as int + s[1] as int
  {
    assert s[..1] == [s[0]];
    assert FromBigEndian(s[..1]) == s[0] as int;
  }

  /** `packet_to_bytes`: the bytes and how many there are. */
  method ToBytes(packet: Packet) returns (output: seq<byte>, totalLen: nat)
    requires packet.Valid()
    ensures output == Encode(packet) && totalLen == |output|
  {
    totalLen := HEADER_SIZE + |packet.payload|;
    var buf := new byte[totalLen];
    buf[0] := packet.version;
    buf[1] := packet.kind;
    var at := Append(buf, 2, BigEndian(packet.reqId, 2));
    at := Append(buf, at, packet.sender);
    at := Append(buf, at, BigEndian(|packet.payload|, 2));
    if |packet.payload| > 0 {
      at := Append(buf, at, packet.payload);
    }
    assert buf[..at] == buf[..];
    output := buf[..];
  }
}
