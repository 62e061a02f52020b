/**
 Request dispatch: `src/node/request_handler.c`, `src/node/load_commands.c` and
 `src/node/commands/ping.command.c`. The node's own hash is a parameter.
 */
module RequestHandler {
  import opened Bytes
  import opened Options
  import opened Packets
  import PacketText

  /** The functions a dispatch slot can point at. */
  datatype Command = EmptyCommand | PingCommand

  /** The bytes of "PONG". */
  const PONG: seq<byte> := [80, 79, 78, 71]

  function ErrorPacket(hash: seq<byte>): Packet {
    Packet(1, CMD_ERROR, 0, hash, [])
  }

  function PongPacket(hash: seq<byte>, reqId: nat): Packet {
    Packet(1, CMD_PING, reqId, hash, PONG)
  }

  ghost predicate Loaded(table: seq<Command>) {
    && |table| == 256
    && forall i :: 0 <= i < 256 ==> table[i] == if i == CMD_PING as int then PingCommand else EmptyCommand
  }

  /** `load_commands`. */
  method LoadCommands(table: array<Command>)
    requires table.Length == 256
    modifies table
    ensures Loaded(table[..])
  {
    for i := 0 to 256
      invariant forall k :: 0 <= k < i ==> table[k] == EmptyCommand
    {
      table[i] := EmptyCommand;
    }
    table[CMD_PING as int] := PingCommand;
  }

  /** The packet the protocol answers `p` with. */
  function AnswerTo(hash: seq<byte>, p: Packet): Packet {
    if p.kind == CMD_PING then PongPacket(hash, p.reqId) else ErrorPacket(hash)
  }

  /** The handler prints a packet before it answers; a text that outgrows its buffer ends all that is
      defined. */
  predicate Survives(data: seq<byte>) {
    Decode(data).Some? ==> PacketText.Fits(Decode(data).value)
  }

  /** What goes back to the sender of a datagram. */
  function Reply(hash: seq<byte>, data: seq<byte>): Option<seq<byte>>
    requires |hash| == 20
  {
    if !Survives(data) then None
    else
      match Decode(data)
      case None => Some([])
      case Some(p) => Some(Encode(AnswerTo(hash, p)))
  }

  lemma ErrorBytes(hash: seq<byte>)
    requires |hash| == 20
    ensures Encode(ErrorPacket(hash)) == [1, 4, 0, 0] + hash + [0, 0]
  {
    TwoBytes(0);
  }

  lemma PongBytes(hash: seq<byte>, reqId: nat)
    requires |hash| == 20 && reqId < 0x1_0000
    ensures Encode(PongPacket(hash, reqId)) == [1, 5] + BigEndian(reqId, 2) + hash + [0, 4, 80, 79, 78, 71]
  {
    TwoBytes(4);
  }

  method EmptyReply(hash: seq<byte>) returns (output: seq<byte>, len: nat)
    requires |hash| == 20
    ensures output == Encode(ErrorPacket(hash)) && len == |output|
    ensures output == [1, 4, 0, 0] + hash + [0, 0]
  {
    ErrorBytes(hash);
    output, len := ToBytes(Packet(1, CMD_ERROR, 0, hash, []));
  }

  method PingReply(packet: Packet, hash: seq<byte>) returns (output: seq<byte>, len: nat)
    requires packet.Valid() && |hash| == 20
    ensures output == Encode(PongPacket(hash, packet.reqId)) && len == |output|
    ensures output == [1, 5] + BigEndian(packet.reqId, 2) + hash + [0, 4, 80, 79, 78, 71]
  {
    PongBytes(hash, packet.reqId);
    output, len := ToBytes(Packet(1, CMD_PING, packet.reqId, hash, PONG));
  }

  /** How a call of the handler ends. */
  datatype Outcome = Overrun | Returned(output: seq<byte>, len: nat)

  /** `node_request_handler`. On a malformed datagram the error packet is built, but the length
      returned stays 0, so the reply carries none of it. */
  method Handle(table: array<Command>, hash: seq<byte>, data: seq<byte>) returns (outcome: Outcome)
    requires Loaded(table[..]) && |hash| == 20
    ensures outcome.Overrun? <==> Reply(hash, data).None?
    ensures outcome.Returned? ==> && outcome.len <= |outcome.output|
                                  && Reply(hash, data) == Some(outcome.output[..outcome.len])
    ensures Decode(data).None? ==> outcome == Returned([1, 4, 0, 0] + hash + [0, 0], 0)
    ensures outcome.Returned? && Decode(data).Some? ==> outcome.len == |outcome.output|
  {
    var packet := FromBytes(data);
    if packet.None? {
      var error, built := ToBytes(Packet(1, CMD_ERROR, 0, hash, []));
      ErrorBytes(hash);
      return Returned(error, 0);
    }
    var printed, line := PacketText.ToString(packet.value);
    if !printed {
      return Overrun;
    }
    assert table[..][packet.value.kind as int] == table[packet.value.kind as int];
    var output, len;
    match table[packet.value.kind as int] {
      case EmptyCommand => output, len := EmptyReply(hash);
      case PingCommand => output, len := PingReply(packet.value, hash);
    }
    assert output[..len] == output;
    return Returned(output, len);
  }

  /** The request and response law, for every datagram that starts with a packet: it is answered
      exactly when the packet's text fits, and then with the packet the protocol prescribes. */
  lemma ReplyLaw(hash: seq<byte>, request: Packet, rest: seq<byte>)
    requires |hash| == 20 && request.Valid()
    ensures var reply := Reply(hash, Encode(request) + rest);
      && (reply.Some? <==> PacketText.Fits(request))
      && (reply.Some? && request.kind == CMD_PING ==> Decode(reply.value) == Some(PongPacket(hash, request.reqId)))
      && (reply.Some? && request.kind != CMD_PING ==> Decode(reply.value) == Some(ErrorPacket(hash)))
    ensures PacketText.Fits(request) ==>
              Reply(hash, Encode(request) + rest) ==
              if request.kind == 5
              then Some([1, 5] + BigEndian(request.reqId, 2) + hash + [0, 4, 80, 79, 78, 71])
              else Some([1, 4, 0, 0] + hash + [0, 0])
  {
    ErrorBytes(hash);
    PongBytes(hash, request.reqId);
    DecodeEncode(request, rest);
    var answer := AnswerTo(hash, request);
    DecodeEncode(answer, []);
    assert Encode(answer) == Encode(answer) + [];
  }

  /** A reply is empty exactly when no packet is a prefix of the datagram; a reply never carries
      the error packet for that case. */
  lemma EmptyReplyLaw(hash: seq<byte>, data: seq<byte>)
    requires |hash| == 20
    ensures Reply(hash, data) == Some([]) <==> forall p: Packet :: p.Valid() ==> !(Encode(p) <= data)
  {
    forall p: Packet | p.Valid()
      ensures Decode(data) == Some(p) <==> Encode(p) <= data
    {
      DecodeIsPrefix(data, p);
    }
    if Decode(data).Some? {
      EncodeDecode(data);
    }
  }

  /** A ping with 85 bytes of payload has no reply. */
  lemma LongPingIsLost(hash: seq<byte>, sender: seq<byte>)
    requires |hash| == 20 && |sender| == 20
    ensures Reply(hash, Encode(Packet(1, CMD_PING, 1, sender, Zeros(85)))).None?
  {
    var ping := Packet(1, CMD_PING, 1, sender, Zeros(85));
    PacketText.LongPing(sender);
    DecodeEncode(ping, []);
    assert Encode(ping) + [] == Encode(ping);
  }
}
