/**
 INI text as a list of the units its parser takes it in and a fold over them: what `src/helpers/ini.c`
 accepts and reports, without its buffers. A C `char` is the character with its code; options are those of
 `include/helpers/ini.h`.
 */
module IniSpec {
  const MAX_LINE := 200
  const MAX_NAME := 50

  /** The discard loop reads into a buffer of 16 bytes. */
  const MAX_PIECE := 16

  const NUL: char := '\0'
  const BOM: string := [0xEF as char, 0xBB as char, 0xBF as char]

  datatype Call = Call(section: string, name: string, value: string)

  /** The parser between two lines. `error` is the first line that failed, or 0. */
  datatype State = State(section: string, prevName: string, lineno: nat, error: nat, calls: seq<Call>)

  const START := State("", "", 0, 0, [])

  /** A handler answers from the calls made so far, the current one last. */
  type Handler = seq<Call> -> bool

  predicate IsSpace(c: char) {
    c == ' ' || 9 as char <= c <= 13 as char
  }

  /** The first position from `i` on that is not whitespace, or the length. */
  function SkipFrom(s: string, i: nat): (r: nat)
    requires i <= |s|
    ensures i <= r <= |s|
    ensures r < |s| ==> !IsSpace(s[r])
    ensures forall k :: i <= k < r ==> IsSpace(s[k])
    decreases |s| - i
  {
    if i == |s| || !IsSpace(s[i]) then i else SkipFrom(s, i + 1)
  }

  /** The end of `s[..i]` without the whitespace at its end. */
  function EndFrom(s: string, i: nat): (r: nat)
    requires i <= |s|
    ensures r <= i
    ensures r > 0 ==> !IsSpace(s[r - 1])
    ensures forall k :: r <= k < i ==> IsSpace(s[k])
  {
    if i == 0 || !IsSpace(s[i - 1]) then i else EndFrom(s, i - 1)
  }

  function TrimLeft(s: string): string {
    s[SkipFrom(s, 0)..]
  }

  function TrimRight(s: string): string {
    s[..EndFrom(s, |s|)]
  }

  /** One of `chars`, or a `;` after whitespace. */
  predicate StopsAt(s: string, chars: string, i: nat)
    requires i < |s|
  {
    s[i] in chars || (i > 0 && IsSpace(s[i - 1]) && s[i] == ';')
  }

  function FindFrom(s: string, chars: string, i: nat): (r: nat)
    requires i <= |s|
    ensures i <= r <= |s|
    ensures r < |s| ==> StopsAt(s, chars, r)
    ensures forall k :: i <= k < r ==> !StopsAt(s, chars, k)
    decreases |s| - i
  {
    if i == |s| || StopsAt(s, chars, i) then i else FindFrom(s, chars, i + 1)
  }

  /** The first position that stops, or the length. */
  function FindEnd(s: string, chars: string): (r: nat)
    ensures r <= |s|
    ensures r < |s| ==> StopsAt(s, chars, r)
    ensures forall k :: 0 <= k < r ==> !StopsAt(s, chars, k)
  {
    FindFrom(s, chars, 0)
  }

  function WithoutComment(s: string): string {
    s[..FindEnd(s, "")]
  }

  /** What fits a 50-byte name buffer. */
  function Cut(s: string): (r: string)
    ensures |r| < MAX_NAME
  {
    if |s| < MAX_NAME then s else s[..MAX_NAME - 1]
  }

  // ----- one line -----

  datatype Line =
    | Blank
    | Continuation(value: string)
    | Section(name: string)
    | Pair(name: string, value: string)
    | Malformed

  function ClassifySection(body: string): Line
    requires body != []
  {
    var e := FindEnd(body[1..], "]");
    if e < |body| - 1 && body[1 + e] == ']' then Section(body[1..1 + e]) else Malformed
  }

  function ClassifyPair(body: string): Line {
    var e := FindEnd(body, "=:");
    if e < |body| && (body[e] == '=' || body[e] == ':') then PairAt(body, e) else Malformed
  }

  /** The name and the value on the two sides of position `e`. */
  function PairAt(body: string, e: nat): Line
    requires e < |body|
  {
    PairOf(body[..e], body[e + 1..])
  }

  function PairOf(head: string, tail: string): Line {
    Pair(TrimRight(head), TrimRight(TrimLeft(WithoutComment(tail))))
  }

  /** `body` has no whitespace around it; `continues` says that it may belong to the previous name. */
  function Classify(body: string, continues: bool): Line {
    if body == [] || body[0] == ';' || body[0] == '#' then Blank
    else if continues then Continuation(TrimRight(WithoutComment(body)))
    else if body[0] == '[' then ClassifySection(body)
    else ClassifyPair(body)
  }

  function Fail(st: State): (r: State)
    ensures r.lineno == st.lineno
  {
    if st.error == 0 then st.(error := st.lineno) else st
  }

  function Report(st: State, call: Call, handler: Handler): State {
    var st' := st.(calls := st.calls + [call]);
    if handler(st'.calls) then st' else Fail(st')
  }

  function Apply(st: State, line: Line, handler: Handler): (r: State)
    ensures r.lineno == st.lineno
  {
    match line
    case Blank => st
    case Continuation(value) => Report(st, Call(st.section, st.prevName, value), handler)
    case Section(name) => st.(section := Cut(name), prevName := "")
    case Pair(name, value) => Report(st.(prevName := Cut(name)), Call(st.section, name, value), handler)
    case Malformed => Fail(st)
  }

  function AfterBom(text: string, lineno: nat): (r: string)
    ensures |r| <= |text| && r == text[|text| - |r|..]
  {
    if lineno == 1 && BOM <= text then text[3..] else text
  }

  /** The part of a line the parser looks at, of which `lineno` counts from 1. */
  function FormOfText(prevName: string, lineno: nat, text: string): Line {
    var left := TrimLeft(AfterBom(text, lineno));
    Classify(TrimRight(left), prevName != "" && |left| < |text|)
  }

  function ApplyText(st: State, text: string, handler: Handler): State {
    Apply(st, FormOfText(st.prevName, st.lineno, text), handler)
  }

  // ----- the units of a text -----

  /** Where the line ends that goes on at `i`, its newline included. */
  function LineFrom(s: string, i: nat): (n: nat)
    requires i <= |s|
    ensures i <= n <= |s| && (i < |s| ==> i < n)
    ensures forall k :: i <= k < n - 1 ==> s[k] != '\n'
    ensures i < n < |s| ==> s[n - 1] == '\n'
    decreases |s| - i
  {
    if i == |s| then i else if s[i] == '\n' then i + 1 else LineFrom(s, i + 1)
  }

  /** The length of the first line. */
  function LineLength(s: string): (n: nat)
    ensures n <= |s| && (s != [] ==> n > 0)
    ensures forall i :: 0 <= i < n - 1 ==> s[i] != '\n'
    ensures 0 < n < |s| ==> s[n - 1] == '\n'
  {
    LineFrom(s, 0)
  }

  lemma LineLengthIs(s: string, k: nat)
    requires k <= |s| && forall i :: 0 <= i < k - 1 ==> s[i] != '\n'
    requires if 0 < k < |s| then s[k - 1] == '\n' else k == |s|
    ensures LineLength(s) == k
  {
  }

  /** What one call of the reader takes, with room for `max` bytes. */
  function ChunkLength(s: string, max: nat): nat {
    if LineLength(s) < max then LineLength(s) else max
  }

  function NulFrom(s: string, i: nat): (n: nat)
    requires i <= |s|
    ensures i <= n <= |s|
    ensures n < |s| ==> s[n] == NUL
    ensures forall k :: i <= k < n ==> s[k] != NUL
    decreases |s| - i
  {
    if i == |s| || s[i] == NUL then i else NulFrom(s, i + 1)
  }

  /** The C string that starts a buffer. */
  function CText(b: string): string {
    b[..NulFrom(b, 0)]
  }

  lemma CTextStops(b: string, n: nat)
    requires n <= |b| && (n < |b| ==> b[n] == NUL) && forall k :: 0 <= k < n ==> b[k] != NUL
    ensures CText(b) == b[..n]
  {
  }

  /** Whether a piece, as a C string, ends a line. */
  predicate EndsLine(piece: string) {
    var t := CText(piece);
    t != [] && t[|t| - 1] == '\n'
  }

  /** How much the discard loop drops: pieces, through the first that ends a line. */
  function DiscardLength(s: string): (n: nat)
    ensures n <= |s| && (s != [] ==> n > 0)
    decreases |s|
  {
    if s == [] then 0
    else
      var k := ChunkLength(s, MAX_PIECE - 1);
      if EndsLine(s[..k]) then k else k + DiscardLength(s[k..])
  }

  /** What a pass of the main loop takes: the text in the line buffer, and whether more was dropped. */
  datatype Unit = Unit(text: string, overlong: bool)

  function FirstText(s: string): string {
    CText(s[..ChunkLength(s, MAX_LINE - 1)])
  }

  /** The line buffer is full without a newline. */
  predicate Full(text: string) {
    |text| == MAX_LINE - 1 && text[MAX_LINE - 2] != '\n'
  }

  function UnitLength(s: string): (n: nat)
    ensures n <= |s| && (s != [] ==> n > 0)
  {
    var n := ChunkLength(s, MAX_LINE - 1);
    if Full(FirstText(s)) then n + DiscardLength(s[n..]) else n
  }

  function UnitOf(s: string): Unit {
    Unit(FirstText(s), Full(FirstText(s)) && |s| >= MAX_LINE)
  }

  function UnitsOf(s: string): seq<Unit>
    decreases |s|
  {
    if s == [] then [] else [UnitOf(s)] + UnitsOf(s[UnitLength(s)..])
  }

  // ----- the fold -----

  /** A unit of which something was dropped counts as failed. */
  function NextUnit(st: State, overlong: bool): State {
    var st' := st.(lineno := st.lineno + 1);
    if overlong then Fail(st') else st'
  }

  function ParseUnit(st: State, unit: Unit, handler: Handler): (r: State)
    ensures r.lineno == st.lineno + 1
  {
    ApplyText(NextUnit(st, unit.overlong), unit.text, handler)
  }

  function ParseUnits(st: State, units: seq<Unit>, handler: Handler): State
    decreases |units|
  {
    if units == [] then st else ParseUnits(ParseUnit(st, units[0], handler), units[1..], handler)
  }

  function Parse(text: string, handler: Handler): State {
    ParseUnits(START, UnitsOf(text), handler)
  }
}
