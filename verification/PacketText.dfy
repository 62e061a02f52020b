/**
 The log line of a packet: `packet_to_string` in `src/packet/packet.c`, and the hexadecimal texts of
 `src/helpers/convert.c` in it. The handler prints it before it dispatches, into a buffer of 512 bytes.
 */
module PacketText {
  import opened Bytes
  import opened Decimals
  import opened Packets

  const TEXT_SIZE := 512
  const NUL: char := '\0'

  // ----- the texts -----

  function HexDigit(n: nat, letter: char): char
    requires n < 16 && letter in "aA"
  {
    if n < 10 then ('0' as int + n) as char else (letter as int + (n - 10)) as char
  }

  /** `%02x` or `%02X`, by the letter that stands for ten. */
  function HexByte(b: byte, letter: char): (s: string)
    requires letter in "aA"
    ensures |s| == 2
  {
    [HexDigit(b as int / 16, letter), HexDigit(b as int % 16, letter)]
  }

  function HashText(hash: seq<byte>): (s: string)
    ensures |s| == 2 * |hash|
  {
    if hash == [] then "" else HashText(hash[..|hash| - 1]) + HexByte(hash[|hash| - 1], 'a')
  }

  /** Bytes as `0x0A 0xFF`. */
  function HexText(data: seq<byte>): (s: string)
    ensures |s| == HexLength(|data|)
  {
    if data == [] then ""
    else HexText(data[..|data| - 1]) + (if |data| == 1 then "" else " ") + "0x" + HexByte(data[|data| - 1], 'A')
  }

  function HexLength(n: nat): nat {
    if n == 0 then 0 else 5 * n - 1
  }

  function Text(p: Packet): string {
    "V=[" + DecimalDigits(p.version as int) + "] T=[" + DecimalDigits(p.kind as int)
    + "] REQ=[" + DecimalDigits(p.reqId) + "] SENDER=[" + HashText(p.sender)
    + "] PAYLEN=[" + DecimalDigits(|p.payload|) + "] PAYLOAD=[" + HexText(p.payload) + "]"
  }

  /** A byte's two digits, the high one first. */
  lemma HexDigits(b: byte)
    ensures HexByte(b, 'A') == ["0123456789ABCDEF"[b as int / 16], "0123456789ABCDEF"[b as int % 16]]
    ensures HexByte(b, 'a') == ["0123456789abcdef"[b as int / 16], "0123456789abcdef"[b as int % 16]]
  {
    HexDigitIs(b as int / 16);
    HexDigitIs(b as int % 16);
  }

  lemma HexDigitIs(n: nat)
    requires n < 16
    ensures HexDigit(n, 'A') == "0123456789ABCDEF"[n] && HexDigit(n, 'a') == "0123456789abcdef"[n]
  {
  }

  /** Byte `i` of a payload is at 5 i, with a blank between any two. */
  lemma {:induction false} HexTextAt(data: seq<byte>, i: nat)
    requires i < |data|
    ensures HexText(data)[5 * i..5 * i + 4] == "0x" + HexByte(data[i], 'A')
    ensures i + 1 < |data| ==> HexText(data)[5 * i + 4] == ' '
  {
    var init := data[..|data| - 1];
    if i + 1 < |data| {
      HexTextAt(init, i);
      assert HexText(data)[..|HexText(init)|] == HexText(init);
      assert init[i] == data[i];
      assert HexText(data)[5 * i..5 * i + 4] == HexText(init)[5 * i..5 * i + 4];
    }
  }

  lemma {:induction false} HashTextAt(hash: seq<byte>, i: nat)
    requires i < |hash|
    ensures HashText(hash)[2 * i..2 * i + 2] == HexByte(hash[i], 'a')
  {
    var init := hash[..|hash| - 1];
    if i + 1 < |hash| {
      HashTextAt(init, i);
      assert init[i] == hash[i];
      assert HashText(hash)[2 * i..2 * i + 2] == HashText(init)[2 * i..2 * i + 2];
    }
  }

  lemma SmallNumbers()
    ensures DecimalDigits(1) == "1" && DecimalDigits(5) == "5" && DecimalDigits(70) == "70" && DecimalDigits(2) == "2"
  {
    assert DecimalDigits(7) == "7";
  }

  lemma SmallPayload()
    ensures HexText([10, 255]) == "0x0A 0xFF"
  {
    assert [10, 255][..1] == [10 as byte] && [10 as byte][..0] == [];
    assert HexText([10]) == "0x0A";
  }

  /** One packet's text, whatever its sender. */
  lemma TextOfPing(sender: seq<byte>)
    ensures Text(Packet(1, 5, 70, sender, [10, 255])) ==
            "V=[" + "1" + "] T=[" + "5" + "] REQ=[" + "70" + "] SENDER=[" + HashText(sender)
            + "] PAYLEN=[" + "2" + "] PAYLOAD=[" + "0x0A 0xFF" + "]"
  {
    SmallNumbers();
    SmallPayload();
  }

  // ----- when the text fits its buffer -----

  /** The text outgrows its buffer by the digits of the four numbers and by the payload. */
  predicate Fits(p: Packet) {
    DigitCount(p.version as int) + DigitCount(p.kind as int) + DigitCount(p.reqId) + DigitCount(|p.payload|)
    + HexLength(|p.payload|) <= 424
  }

  lemma TextFits(p: Packet)
    requires p.Valid()
    ensures |Text(p)| < TEXT_SIZE <==> Fits(p)
  {
  }

  /** Up to 82 bytes of payload always fit and 85 or more never do; in between the numbers decide. */
  lemma FitsByLength(p: Packet)
    requires p.Valid()
    ensures var digits := DigitCount(p.version as int) + DigitCount(p.kind as int) + DigitCount(p.reqId);
      Fits(p) <==> |p.payload| <= 82 || (|p.payload| == 83 && digits <= 8) || (|p.payload| == 84 && digits <= 3)
  {
    DigitCountIs(p.version as int);
    DigitCountIs(p.kind as int);
    DigitCountIs(p.reqId);
    DigitCountIs(|p.payload|);
  }

  /** A ping with 85 bytes of payload. */
  lemma LongPing(sender: seq<byte>)
    requires |sender| == 20
    ensures var p := Packet(1, CMD_PING, 1, sender, Zeros(85));
      p.Valid() && |Text(p)| + 1 == 517 && !Fits(p)
  {
    var p := Packet(1, CMD_PING, 1, sender, Zeros(85));
    DigitCountIs(1);
    DigitCountIs(5);
    DigitCountIs(85);
    TextFits(p);
  }

  // ----- the code -----

  /** `sprintf` of `text` to `buffer + at`, up to the first character with no place in the buffer. */
  method Sprintf(buffer: array<char>, at: nat, text: string) returns (ok: bool)
    requires at <= buffer.Length
    modifies buffer
    ensures ok <==> at + |text| < buffer.Length
    ensures ok ==> buffer[..at + |text|] == old(buffer[..at]) + text && buffer[at + |text|] == NUL
  {
    for k := 0 to |text|
      invariant at + k <= buffer.Length
      invariant buffer[..at + k] == old(buffer[..at]) + text[..k]
    {
      if at + k == buffer.Length {
        return false;
      }
      buffer[at + k] := text[k];
      assert buffer[..at + k + 1] == buffer[..at + k] + [text[k]];
      assert text[..k + 1] == text[..k] + [text[k]];
    }
    if at + |text| == buffer.Length {
      return false;
    }
    buffer[at + |text|] := NUL;
    assert text[..|text|] == text;
    assert buffer[..at + |text|] == old(buffer[..at]) + text;
    return true;
  }

  /** `cvt_sha1_to_string`: 41 bytes hold the text of a hash. */
  method HashString(hash: seq<byte>) returns (output: string)
    requires |hash| == 20
    ensures output == HashText(hash)
  {
    var buffer := new char[41];
    for offset := 0 to 20
      invariant buffer[..2 * offset] == HashText(hash[..offset])
    {
      var ok := Sprintf(buffer, 2 * offset, HexByte(hash[offset], 'a'));
      assert hash[..offset + 1][..offset] == hash[..offset];
    }
    assert hash[..20] == hash;
    output := buffer[..40];
  }

  /** `cvt_bytes_to_hex`: no write leaves the buffer of `5 * len + 1` bytes. */
  method HexString(data: seq<byte>) returns (output: string)
    ensures output == HexText(data)
  {
    var buffer := new char[5 * |data| + 1];
    var p := 0;
    for i := 0 to |data|
      invariant p == if i < |data| then 5 * i else HexLength(i)
      invariant buffer[..p] == HexText(data[..i]) + if 0 < i < |data| then " " else ""
    {
      p := HexNext(buffer, p, data, i);
    }
    assert data[..|data|] == data;
    buffer[p] := NUL;
    output := buffer[..p];
  }

  method HexNext(buffer: array<char>, p: nat, data: seq<byte>, i: nat) returns (p': nat)
    requires i < |data| && p == 5 * i && buffer.Length == 5 * |data| + 1
    requires buffer[..p] == HexText(data[..i]) + if i > 0 then " " else ""
    modifies buffer
    ensures p' == if i + 1 < |data| then 5 * (i + 1) else HexLength(i + 1)
    ensures buffer[..p'] == HexText(data[..i + 1]) + if i + 1 < |data| then " " else ""
  {
    var ok := Sprintf(buffer, p, "0x" + HexByte(data[i], 'A'));
    p' := p + 4;
    HexTextNext(data, i);
    if i + 1 < |data| {
      buffer[p'] := ' ';
      p' := p' + 1;
      assert buffer[..p'] == HexText(data[..i + 1]) + " ";
    }
  }

  lemma HexTextNext(data: seq<byte>, i: nat)
    requires i < |data|
    ensures HexText(data[..i + 1]) == HexText(data[..i]) + (if i > 0 then " " else "") + ("0x" + HexByte(data[i], 'A'))
  {
    assert data[..i + 1][..i] == data[..i];
  }

  /** `packet_to_string`: whether the text fits, and then the text. */
  method ToString(p: Packet) returns (ok: bool, output: string)
    requires p.Valid()
    ensures ok <==> Fits(p)
    ensures ok ==> output == Text(p)
  {
    var buffer := new char[TEXT_SIZE];
    var sender := HashString(p.sender);
    var payload := HexString(p.payload);
    var text := "V=[" + DecimalDigits(p.version as int) + "] T=[" + DecimalDigits(p.kind as int)
                + "] REQ=[" + DecimalDigits(p.reqId) + "] SENDER=[" + sender
                + "] PAYLEN=[" + DecimalDigits(|p.payload|) + "] PAYLOAD=[" + payload + "]";
    ok := Sprintf(buffer, 0, text);
    TextFits(p);
    output := if ok then buffer[..|text|] else "";
  }
}
