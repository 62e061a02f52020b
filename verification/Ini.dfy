/** The INI parser of `src/helpers/ini.c`, with its buffers, proved equal to `IniSpec`. */
module Ini {
  import opened IniSpec

  /** `a` holds a C string from `s` to `e`, where its NUL is. */
  ghost predicate Text(a: seq<char>, s: nat, e: nat) {
    s <= e < |a| && a[e] == NUL && forall k :: s <= k < e ==> a[k] != NUL
  }

  lemma CTextIs(b: seq<char>, n: nat)
    requires Text(b, 0, n)
    ensures CText(b) == b[..n]
  {
    CTextStops(b, n);
  }

  lemma CTextAt(b: seq<char>, s: nat, e: nat)
    requires Text(b, s, e)
    ensures CText(b[s..]) == b[s..e]
  {
    CTextIs(b[s..], e - s);
  }

  lemma SameText(a: string, b: string)
    requires |a| == |b| && forall k :: 0 <= k < |a| ==> a[k] == b[k]
    ensures a == b
  {
  }

  /** The two sides of position `m` in the part of `b` from `s` to `e`. */
  lemma CutAt(b: seq<char>, s: nat, m: nat, e: nat)
    requires s <= m <= e <= |b|
    ensures b[s..e][..m - s] == b[s..m] && b[s..e][m - s..] == b[m..e]
    ensures m < e ==> b[s..e][m - s + 1..] == b[m + 1..e]
  {
  }

  // ----- string helpers, in place -----

  /** `ini_rstrip`; `stop` is where the string now ends. */
  method Rstrip(a: array<char>, s: nat, end: nat) returns (ghost stop: nat)
    requires Text(a[..], s, end)
    modifies a
    ensures s <= stop <= end && Text(a[..], s, stop)
    ensures a[s..stop] == TrimRight(old(a[s..end]))
    ensures forall k :: 0 <= k < a.Length && !(stop <= k < end) ==> a[k] == old(a[k])
  {
    var e := end;
    ghost var t := a[s..end];
    while e > s && IsSpace(a[e - 1])
      invariant s <= e <= end && Text(a[..], s, e)
      invariant forall k :: 0 <= k < a.Length && !(e <= k < end) ==> a[k] == old(a[k])
      invariant EndFrom(t, |t|) == EndFrom(t, e - s)
    {
      e := e - 1;
      a[e] := NUL;
    }
    stop := e;
    assert a[s..e] == t[..e - s];
  }

  /** `ini_lskip`. */
  method Lskip(a: array<char>, s: nat, ghost e: nat) returns (p: nat)
    requires Text(a[..], s, e)
    ensures s <= p <= e && a[p..e] == TrimLeft(a[s..e])
  {
    p := s;
    ghost var t := a[s..e];
    while a[p] != NUL && IsSpace(a[p])
      invariant s <= p <= e && SkipFrom(t, p - s) == SkipFrom(t, 0)
      decreases e - p
    {
      p := p + 1;
    }
    assert t[p - s..] == a[p..e];
  }

  /** `ini_find_chars_or_comment`; an empty `chars` stands for a null pointer. */
  method FindCharsOrComment(a: array<char>, s: nat, chars: string, ghost e: nat) returns (p: nat)
    requires Text(a[..], s, e)
    ensures s <= p <= e && p == s + FindEnd(a[s..e], chars)
  {
    p := s;
    var wasSpace := false;
    ghost var t := a[s..e];
    while a[p] != NUL && a[p] !in chars && !(wasSpace && a[p] == ';')
      invariant s <= p <= e
      invariant wasSpace <==> p > s && IsSpace(a[p - 1])
      invariant FindFrom(t, chars, p - s) == FindEnd(t, chars)
      decreases e - p
    {
      wasSpace := IsSpace(a[p]);
      p := p + 1;
    }
  }

  /** `ini_strncpy0` into a 50-byte name buffer. */
  method Strncpy0(dest: array<char>, src: array<char>, s: nat, ghost e: nat)
    requires dest.Length == MAX_NAME && dest[MAX_NAME - 1] == NUL && dest != src && Text(src[..], s, e)
    modifies dest
    ensures CText(dest[..]) == Cut(src[s..e]) && dest[MAX_NAME - 1] == NUL
  {
    var i := 0;
    while i < MAX_NAME - 1 && src[s + i] != NUL
      invariant i < MAX_NAME && s + i <= e
      invariant forall k :: 0 <= k < i ==> dest[k] == src[s + k]
      invariant dest[MAX_NAME - 1] == NUL
    {
      dest[i] := src[s + i];
      i := i + 1;
    }
    dest[i] := NUL;
    assert Text(dest[..], 0, i);
    CTextIs(dest[..], i);
    ghost var t := src[s..e];
    assert i == if |t| < MAX_NAME then |t| else MAX_NAME - 1;
    SameText(dest[..i], t[..i]);
  }

  method Strlen(a: array<char>, ghost n: nat) returns (len: nat)
    requires n < a.Length && a[n] == NUL
    ensures len <= n && Text(a[..], 0, len) && a[..len] == CText(a[..n])
  {
    len := 0;
    while a[len] != NUL
      invariant len <= n && forall k :: 0 <= k < len ==> a[k] != NUL
      decreases n - len
    {
      len := len + 1;
    }
    CTextStops(a[..n], len);
    SameText(a[..n][..len], a[..len]);
  }

  // ----- the reader -----

  class StringReader {
    const text: string
    var ptr: nat
    var numLeft: nat

    ghost predicate Valid()
      reads this
    {
      ptr + numLeft == |text|
    }

    ghost function Rest(): string
      requires Valid()
      reads this
    {
      text[ptr..]
    }

    constructor (text: string)
      ensures Valid() && Rest() == text && this.text == text
    {
      this.text, ptr, numLeft := text, 0, |text|;
    }

    /** `ini_reader_string`: up to `num - 1` bytes, or through the first newline. */
    method Read(str: array<char>, num: nat) returns (ok: bool)
      requires Valid() && num <= str.Length
      modifies this, str
      ensures Valid()
      ensures ok <==> old(numLeft) > 0 && num >= 2
      ensures !ok ==> ptr == old(ptr)
      ensures ok ==> var n := ChunkLength(old(Rest()), num - 1);
                0 < n < num && ptr == old(ptr) + n && str[n] == NUL && str[..n] == old(Rest())[..n]
    {
      if numLeft == 0 || num < 2 {
        return false;
      }
      var k := 0;
      while k + 1 < num && numLeft != 0
        invariant Valid() && k < num && k <= |old(Rest())| && ptr == old(ptr) + k
        invariant forall i :: 0 <= i < k ==> str[i] == old(Rest())[i] != '\n'
      {
        var c := text[ptr];
        ptr, numLeft := ptr + 1, numLeft - 1;
        str[k] := c;
        k := k + 1;
        if c == '\n' {
          break;
        }
      }
      str[k] := NUL;
      return true;
    }
  }

  // ----- the parser -----

  class Parser {
    const line: array<char>
    const abyss: array<char>
    const section: array<char>
    const prevName: array<char>
    const handler: Handler
    var lineno: nat
    var error: nat

    /** The handler calls made so far. */
    var calls: seq<Call>

    ghost predicate Valid()
      reads this, section, prevName
    {
      && line.Length == MAX_LINE && abyss.Length == MAX_PIECE
      && section.Length == MAX_NAME && prevName.Length == MAX_NAME
      && line != section && line != prevName && line != abyss
      && section != prevName && abyss != section && abyss != prevName
      && section[MAX_NAME - 1] == NUL && prevName[MAX_NAME - 1] == NUL
    }

    ghost function Now(): State
      reads this, section, prevName
    {
      State(CText(section[..]), CText(prevName[..]), lineno, error, calls)
    }

    constructor (handler: Handler)
      ensures Valid() && Now() == START && this.handler == handler
      ensures fresh(line) && fresh(abyss) && fresh(section) && fresh(prevName)
    {
      line, abyss := new char[MAX_LINE], new char[MAX_PIECE];
      section, prevName := new char[MAX_NAME](i => NUL), new char[MAX_NAME](i => NUL);
      this.handler := handler;
      lineno, error, calls := 0, 0, [];
    }

    method Refuse()
      requires Valid()
      modifies this`error
      ensures Valid() && Now() == Fail(old(Now()))
    {
      if error == 0 {
        error := lineno;
      }
    }

    /** A call of the handler, and what its answer does to `error`. */
    method Emit(name: string, value: string)
      requires Valid()
      modifies this`error, this`calls
      ensures Valid() && Now() == Report(old(Now()), Call(old(Now()).section, name, value), handler)
    {
      calls := calls + [Call(CText(section[..]), name, value)];
      if !handler(calls) && error == 0 {
        error := lineno;
      }
    }

    method ContinueValue(start: nat, ghost e: nat)
      requires Valid() && Text(line[..], start, e)
      modifies this, line
      ensures Valid()
      ensures Now() == Apply(old(Now()), Continuation(TrimRight(WithoutComment(old(line[start..e])))), handler)
    {
      var end := FindCharsOrComment(line, start, "", e);
      line[end] := NUL;
      assert line[start..end] == WithoutComment(old(line[start..e]));
      ghost var stop := Rstrip(line, start, end);
      CTextAt(line[..], start, stop);
      Emit(CText(prevName[..]), CText(line[start..]));
    }

    method OpenSection(start: nat, ghost e: nat)
      requires Valid() && Text(line[..], start, e) && line[start] == '['
      modifies this, line, section, prevName
      ensures Valid()
      ensures Now() == Apply(old(Now()), ClassifySection(old(line[start..e])), handler)
    {
      ghost var body := line[start..e];
      assert body[1..] == line[start + 1..e];
      var end := FindCharsOrComment(line, start + 1, "]", e);
      assert end < e ==> body[end - start] == line[end];
      if line[end] == ']' {
        ghost var name := body[1..end - start];
        assert ClassifySection(body) == Section(name);
        line[end] := NUL;
        SameText(line[start + 1..end], name);
        Strncpy0(section, line, start + 1, end);
        prevName[0] := NUL;
      } else {
        assert ClassifySection(body) == Malformed;
        Refuse();
      }
    }

    /** From behind the `=` or `:` to the handler's value, a string inside the line. */
    method TakeValue(from: nat, ghost e: nat) returns (value: nat, ghost stop: nat)
      requires Text(line[..], from, e)
      modifies line
      ensures from <= value <= stop && Text(line[..], value, stop)
      ensures line[value..stop] == TrimRight(TrimLeft(WithoutComment(old(line[from..e]))))
      ensures forall k :: 0 <= k < from ==> line[k] == old(line[k])
    {
      var end := FindCharsOrComment(line, from, "", e);
      line[end] := NUL;
      assert line[from..end] == WithoutComment(old(line[from..e]));
      value := Lskip(line, from, end);
      stop := Rstrip(line, value, end);
    }

    method TakePair(start: nat, ghost e: nat)
      requires Valid() && Text(line[..], start, e)
      modifies this, line, prevName
      ensures Valid()
      ensures Now() == Apply(old(Now()), ClassifyPair(old(line[start..e])), handler)
    {
      var end := FindCharsOrComment(line, start, "=:", e);
      ghost var body := line[start..e];
      assert end < e ==> body[end - start] == line[end];
      if line[end] == '=' || line[end] == ':' {
        assert ClassifyPair(body) == PairAt(body, end - start);
        SplitPair(start, end, e);
      } else {
        assert ClassifyPair(body) == Malformed;
        Refuse();
      }
    }

    method SplitPair(start: nat, end: nat, ghost e: nat)
      requires Valid() && Text(line[..], start, e) && start <= end < e
      modifies this, line, prevName
      ensures Valid()
      ensures Now() == Apply(old(Now()), PairAt(old(line[start..e]), end - start), handler)
    {
      ghost var nameEnd, stop;
      var value;
      nameEnd, value, stop := CutPair(start, end, e);
      StorePair(start, nameEnd, value, stop);
    }

    /** Chop the line into its name and its value. */
    method CutPair(start: nat, end: nat, ghost e: nat) returns (ghost nameEnd: nat, value: nat, ghost stop: nat)
      requires Text(line[..], start, e) && start <= end < e
      modifies line
      ensures Text(line[..], start, nameEnd) && Text(line[..], value, stop)
      ensures Pair(line[start..nameEnd], line[value..stop]) == PairAt(old(line[start..e]), end - start)
    {
      CutAt(line[..], start, end, e);
      ghost var head, tail := line[start..end], line[end + 1..e];
      assert PairAt(line[start..e], end - start) == PairOf(head, tail);
      nameEnd := TakeName(start, end, e);
      ghost var name := line[start..nameEnd];
      value, stop := TakeValue(end + 1, e);
      SameText(line[start..nameEnd], name);
    }

    method TakeName(start: nat, end: nat, ghost e: nat) returns (ghost stop: nat)
      requires Text(line[..], start, e) && start <= end < e
      modifies line
      ensures start <= stop <= end && Text(line[..], start, stop)
      ensures line[start..stop] == TrimRight(old(line[start..end]))
      ensures line[end + 1..e] == old(line[end + 1..e]) && Text(line[..], end + 1, e)
    {
      line[end] := NUL;
      assert line[start..end] == old(line[start..end]);
      stop := Rstrip(line, start, end);
    }

    method StorePair(start: nat, ghost nameEnd: nat, value: nat, ghost stop: nat)
      requires Valid() && Text(line[..], start, nameEnd) && Text(line[..], value, stop)
      modifies this, prevName
      ensures Valid()
      ensures Now() == Apply(old(Now()), Pair(line[start..nameEnd], line[value..stop]), handler)
    {
      Strncpy0(prevName, line, start, nameEnd);
      CTextAt(line[..], start, nameEnd);
      CTextAt(line[..], value, stop);
      Emit(CText(line[start..]), CText(line[value..]));
    }

    /** The line in the buffer, `offset` bytes long, from the BOM test to the handler call. */
    method TakeLine(offset: nat)
      requires Valid() && Text(line[..], 0, offset)
      modifies this, line, section, prevName
      ensures Valid()
      ensures Now() == ApplyText(old(Now()), old(line[..offset]), handler)
    {
      ghost var text := line[..offset];
      var start := SkipBom(offset);
      ghost var after := AfterBom(text, lineno);
      start := Lskip(line, start, offset);
      ghost var left := TrimLeft(after);
      assert |left| == offset - start;
      ghost var e := Rstrip(line, start, offset);
      assert line[start..e] == TrimRight(left);
      Dispatch(start, e);
    }

    method Dispatch(start: nat, ghost e: nat)
      requires Valid() && Text(line[..], start, e)
      modifies this, line, section, prevName
      ensures Valid()
      ensures Now() == Apply(old(Now()), Classify(old(line[start..e]), old(Now()).prevName != "" && start > 0), handler)
    {
      var c := line[start];
      assert c != NUL ==> line[start..e][0] == c;
      if c == NUL || c == ';' || c == '#' {
      } else if prevName[0] != NUL && c != NUL && start > 0 {
        ContinueValue(start, e);
      } else if c == '[' {
        OpenSection(start, e);
      } else if c != NUL {
        TakePair(start, e);
      }
    }

    method SkipBom(ghost offset: nat) returns (start: nat)
      requires Valid() && Text(line[..], 0, offset)
      ensures start <= offset && line[start..offset] == AfterBom(line[..offset], lineno)
    {
      start := 0;
      if lineno == 1 && line[0] == 0xEF as char && line[1] == 0xBB as char && line[2] == 0xBF as char {
        start := 3;
      }
    }

    /** What is left of a line that did not fit, in pieces of 15 bytes. */
    method Discard(reader: StringReader)
      requires Valid() && reader.Valid()
      modifies this`error, abyss, reader
      ensures Valid() && reader.Valid()
      ensures reader.ptr == old(reader.ptr) + DiscardLength(old(reader.Rest()))
      ensures Now() == if old(reader.Rest()) == "" then old(Now()) else Fail(old(Now()))
    {
      ghost var begun := false;
      while true
        invariant Valid() && reader.Valid() && (!begun ==> reader.Rest() == old(reader.Rest()))
        invariant reader.ptr + DiscardLength(reader.Rest()) == old(reader.ptr) + DiscardLength(old(reader.Rest()))
        invariant begun ==> old(reader.Rest()) != ""
        invariant Now() == if begun then Fail(old(Now())) else old(Now())
        decreases |reader.Rest()|
      {
        var more, done := DiscardPiece(reader);
        if !more || done {
          break;
        }
        begun := true;
      }
    }

    method DiscardPiece(reader: StringReader) returns (more: bool, done: bool)
      requires Valid() && reader.Valid()
      modifies this`error, abyss, reader
      ensures Valid() && reader.Valid()
      ensures more <==> old(reader.Rest()) != ""
      ensures !more ==> reader.ptr == old(reader.ptr) && Now() == old(Now())
      ensures more ==> var rest := old(reader.Rest()); var n := ChunkLength(rest, MAX_PIECE - 1);
                && 0 < n <= |rest| && reader.ptr == old(reader.ptr) + n && reader.Rest() == rest[n..]
                && Now() == Fail(old(Now())) && (done <==> EndsLine(rest[..n]))
    {
      done := false;
      ghost var n := ChunkLength(reader.Rest(), MAX_PIECE - 1);
      more := reader.Read(abyss, MAX_PIECE);
      if more {
        Refuse();
        done := PieceEndsLine(n);
      }
    }

    method PieceEndsLine(ghost n: nat) returns (done: bool)
      requires n < abyss.Length && abyss[n] == NUL
      ensures done <==> EndsLine(abyss[..n])
    {
      var len := Strlen(abyss, n);
      done := len > 0 && abyss[len - 1] == '\n';
    }

    /** One pass of the main loop. */
    method ParseNext(reader: StringReader) returns (more: bool)
      requires Valid() && reader.Valid()
      modifies this, line, abyss, section, prevName, reader
      ensures Valid() && reader.Valid()
      ensures more <==> old(reader.Rest()) != ""
      ensures !more ==> Now() == old(Now()) && reader.Rest() == ""
      ensures more ==> var rest := old(reader.Rest());
                reader.Rest() == rest[UnitLength(rest)..] && Now() == ParseUnit(old(Now()), UnitOf(rest), handler)
    {
      var offset;
      more, offset := ReadLine(reader);
      if more {
        TakeLine(offset);
      }
    }

    method ReadLine(reader: StringReader) returns (more: bool, offset: nat)
      requires Valid() && reader.Valid()
      modifies this, line, abyss, reader
      ensures Valid() && reader.Valid()
      ensures more <==> old(reader.Rest()) != ""
      ensures !more ==> Now() == old(Now()) && reader.Rest() == ""
      ensures more ==> var rest := old(reader.Rest());
                && reader.Rest() == rest[UnitLength(rest)..]
                && Text(line[..], 0, offset) && line[..offset] == UnitOf(rest).text
                && Now() == NextUnit(old(Now()), UnitOf(rest).overlong)
    {
      ghost var rest := reader.Rest();
      more, offset := ReadFirst(reader);
      if more {
        lineno := lineno + 1;
        DropRest(reader, offset, rest, ChunkLength(rest, MAX_LINE - 1));
      }
    }

    method ReadFirst(reader: StringReader) returns (more: bool, offset: nat)
      requires Valid() && reader.Valid()
      modifies line, reader
      ensures Valid() && reader.Valid() && Now() == old(Now())
      ensures more <==> old(reader.Rest()) != ""
      ensures !more ==> reader.Rest() == ""
      ensures more ==> var rest := old(reader.Rest());
                && reader.Rest() == rest[ChunkLength(rest, MAX_LINE - 1)..]
                && Text(line[..], 0, offset) && line[..offset] == FirstText(rest)
    {
      ghost var n := ChunkLength(reader.Rest(), MAX_LINE - 1);
      offset := 0;
      more := reader.Read(line, MAX_LINE);
      if more {
        offset := Strlen(line, n);
      }
    }

    method DropRest(reader: StringReader, offset: nat, ghost rest: string, ghost n: nat)
      requires Valid() && reader.Valid() && offset < MAX_LINE && line[..offset] == FirstText(rest)
      requires n == ChunkLength(rest, MAX_LINE - 1) && reader.Rest() == rest[n..]
      modifies this`error, abyss, reader
      ensures Valid() && reader.Valid()
      ensures reader.Rest() == rest[UnitLength(rest)..]
      ensures Now() == if UnitOf(rest).overlong then Fail(old(Now())) else old(Now())
    {
      assert offset == |FirstText(rest)|;
      if offset == MAX_LINE - 1 && line[offset - 1] != '\n' {
        Discard(reader);
        assert rest[n..][DiscardLength(rest[n..])..] == rest[UnitLength(rest)..];
      }
    }

    /** `ini_parse_stream`. */
    method ParseStream(reader: StringReader)
      requires Valid() && reader.Valid() && Now() == START
      modifies this, line, abyss, section, prevName, reader
      ensures Valid() && Now() == Parse(old(reader.Rest()), handler)
    {
      ghost var text := reader.Rest();
      while true
        invariant Valid() && reader.Valid()
        invariant ParseUnits(Now(), UnitsOf(reader.Rest()), handler) == Parse(text, handler)
        decreases |reader.Rest()|
      {
        ghost var rest := reader.Rest();
        var more := ParseNext(reader);
        if !more {
          break;
        }
        assert UnitsOf(rest)[1..] == UnitsOf(reader.Rest());
      }
    }
  }

  /** `ini_parse_string_length`: the error, and the handler calls it made. */
  method ParseString(text: string, handler: Handler) returns (error: nat, calls: seq<Call>)
    ensures error == Parse(text, handler).error && calls == Parse(text, handler).calls
  {
    var reader := new StringReader(text);
    var parser := new Parser(handler);
    parser.ParseStream(reader);
    error, calls := parser.error, parser.calls;
  }
}
