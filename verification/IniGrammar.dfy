/**
 What a line of an INI text says, as a grammar of its pieces: every line has one of six shapes, and the
 parser reads each shape as its pieces say. No trimming and no searching is mentioned in it.
 */
module IniGrammar {
  import opened IniSpec
  import opened IniTheorems

  /** `isspace` in the C locale: tab, newline, vertical tab, form feed, carriage return, blank. */
  lemma WhitespaceIs(c: char)
    ensures IsSpace(c) <==> c as int in {9, 10, 11, 12, 13, 32}
  {
  }

  predicate Blanks(w: string) {
    forall i :: 0 <= i < |w| ==> IsSpace(w[i])
  }

  /** No `;` behind whitespace, where a remark would start. */
  predicate NoRemark(s: string) {
    forall i :: 0 < i < |s| && IsSpace(s[i - 1]) ==> s[i] != ';'
  }

  predicate Free(s: string, chars: string) {
    forall i :: 0 <= i < |s| ==> s[i] !in chars
  }

  predicate EndsSolid(s: string) {
    s != [] ==> !IsSpace(s[|s| - 1])
  }

  /** The end of a line: whitespace, and behind it a remark if there is any. */
  predicate IsEnding(blanks: string, remark: string) {
    Blanks(blanks) && (remark != [] ==> blanks != [] && remark[0] == ';')
  }

  datatype Shape =
    | SkippedLine(indent: string, rest: string)
    | HeaderLine(indent: string, name: string, rest: string)
    | UnclosedLine(indent: string, name: string, blanks: string, remark: string)
    | PairLine(indent: string, name: string, gap: string, sep: char, pad: string, value: string,
               blanks: string, remark: string)
    | BareLine(indent: string, words: string, blanks: string, remark: string)
    | IndentedLine(indent: string, value: string, blanks: string, remark: string)

  function TextOf(shape: Shape): string {
    match shape
    case SkippedLine(indent, rest) => indent + rest
    case HeaderLine(indent, name, rest) => indent + ("[" + name + "]" + rest)
    case UnclosedLine(indent, name, blanks, remark) => indent + ("[" + name + (blanks + remark))
    case PairLine(indent, name, gap, sep, pad, value, blanks, remark) =>
      indent + (name + gap + [sep] + pad + value + (blanks + remark))
    case BareLine(indent, words, blanks, remark) => indent + (words + (blanks + remark))
    case IndentedLine(indent, value, blanks, remark) => indent + (value + (blanks + remark))
  }

  /** The pieces are what they are called; `after` says that a name came before, in the same section. */
  predicate WellShaped(shape: Shape, after: bool) {
    && Blanks(shape.indent)
    && match shape
       case SkippedLine(_, rest) => rest != [] ==> rest[0] == ';' || rest[0] == '#'
       case HeaderLine(indent, name, _) => (after ==> indent == []) && Free(name, "]") && NoRemark(name)
       case UnclosedLine(indent, name, blanks, remark) =>
         && (after ==> indent == []) && Free(name, "]") && NoRemark(name) && EndsSolid(name)
         && IsEnding(blanks, remark)
       case PairLine(indent, name, gap, sep, pad, value, blanks, remark) =>
         && (after ==> indent == []) && IsName(name) && Blanks(gap) && (name == [] ==> gap == [])
         && (sep == '=' || sep == ':')
         && Blanks(pad) && IsValue(value, pad) && IsEnding(blanks, remark)
       case BareLine(indent, words, blanks, remark) =>
         (after ==> indent == []) && IsName(words) && words != [] && IsEnding(blanks, remark)
       case IndentedLine(indent, value, blanks, remark) =>
         && after && indent != [] && IsEnding(blanks, remark)
         && value != [] && Trimmed(value) && NoRemark(value) && value[0] != ';' && value[0] != '#'
  }

  predicate IsName(name: string) {
    && Trimmed(name) && Free(name, "=:") && NoRemark(name)
    && (name != [] ==> name[0] != ';' && name[0] != '#' && name[0] != '[')
  }

  predicate IsValue(value: string, pad: string) {
    && Trimmed(value) && NoRemark(value)
    && (value == [] ==> pad == []) && (value != [] && pad != [] ==> value[0] != ';')
  }

  /** What the parser takes a line for. */
  function Meaning(shape: Shape): Line {
    match shape
    case SkippedLine(_, _) => Blank
    case HeaderLine(_, name, _) => Section(name)
    case UnclosedLine(_, _, _, _) => Malformed
    case PairLine(_, name, _, _, _, value, _, _) => Pair(name, value)
    case BareLine(_, _, _, _) => Malformed
    case IndentedLine(_, value, _, _) => Continuation(value)
  }

  // ----- the parser reads every shape as it should -----

  lemma StartIs(indent: string, body: string)
    requires Blanks(indent) && body != [] && !IsSpace(body[0])
    ensures TrimLeft(indent + body) == body
  {
    var s := indent + body;
    assert s[|indent|] == body[0];
    TrimLeftIs(s, |indent|);
    assert s[|indent|..] == body;
  }

  lemma EndAfter(s: string, k: nat)
    requires k < |s| && !IsSpace(s[k])
    ensures EndFrom(s, |s|) > k
  {
  }

  /** Trimming leaves what ends in a solid character, and some of what is behind it. */
  lemma EndIs(core: string, rest: string)
    requires core != [] && !IsSpace(core[|core| - 1])
    ensures exists n: nat :: n <= |rest| && TrimRight(core + rest) == core + rest[..n]
  {
    var s := core + rest;
    var e := EndFrom(s, |s|);
    assert s[|core| - 1] == core[|core| - 1];
    EndAfter(s, |core| - 1);
    assert s[..e] == core + rest[..e - |core|];
  }

  /** What is left of an ending: nothing, or whitespace and a remark. */
  ghost predicate IsRest(rest: string) {
    rest == [] || exists k :: 0 < k < |rest| && Blanks(rest[..k]) && rest[k] == ';'
  }

  lemma RestShows(core: string, blanks: string, remark: string, e: nat)
    requires var s := core + (blanks + remark); |core| + |blanks| < e <= |s|
    ensures var rest := (core + (blanks + remark))[|core|..e];
      rest[..|blanks|] == blanks && rest[|blanks|] == remark[0]
  {
    var s := core + (blanks + remark);
    var rest := s[|core|..e];
    assert s[|core| + |blanks|] == (blanks + remark)[|blanks|] == remark[0];
    assert forall k :: 0 <= k < |blanks| ==> rest[k] == s[|core| + k] == blanks[k];
  }

  lemma EndingTrimmed(core: string, blanks: string, remark: string) returns (rest: string)
    requires core != [] && !IsSpace(core[|core| - 1]) && IsEnding(blanks, remark)
    ensures TrimRight(core + (blanks + remark)) == core + rest && IsRest(rest)
  {
    var s, first := core + (blanks + remark), |core| + |blanks|;
    if remark == [] {
      TrimRightIs(s, |core|);
      assert s[..|core|] == core + [];
      rest := [];
    } else {
      assert s[first] == remark[0];
      var e := EndFrom(s, |s|);
      EndAfter(s, first);
      rest := s[|core|..e];
      assert s[..e] == core + rest;
      RestShows(core, blanks, remark, e);
    }
  }

  lemma FormWithout(prevName: string, lineno: nat, indent: string, body: string)
    requires Blanks(indent) && body != [] && !IsSpace(body[0])
    requires lineno == 1 ==> !(BOM <= indent + body)
    ensures FormOfText(prevName, lineno, indent + body) == Classify(TrimRight(body), prevName != "" && indent != "")
  {
    StartIs(indent, body);
  }

  lemma SkippedForm(prevName: string, lineno: nat, indent: string, rest: string)
    requires Blanks(indent) && (rest != [] ==> rest[0] == ';' || rest[0] == '#')
    ensures FormOfText(prevName, lineno, indent + rest) == Blank
  {
    var text := indent + rest;
    if rest == [] {
      TrimLeftIs(text, |text|);
      assert text[|text|..] == [];
    } else {
      assert text[|indent|] == rest[0];
      assert text[0] != BOM[0];
      FormWithout(prevName, lineno, indent, rest);
      SolidStays(rest);
    }
  }

  lemma SolidStays(s: string)
    requires s != [] && !IsSpace(s[0])
    ensures TrimRight(s) != [] && TrimRight(s)[0] == s[0]
  {
    EndAfter(s, 0);
  }

  lemma WithoutRemark(s: string, rest: string) returns (blanks: string)
    requires NoRemark(s) && IsRest(rest)
    ensures WithoutComment(s + rest) == s + blanks && Blanks(blanks)
  {
    var all := s + rest;
    var n := |all|;
    blanks := rest;
    if rest != [] {
      var k :| 0 < k < |rest| && Blanks(rest[..k]) && rest[k] == ';';
      n, blanks := |s| + k, rest[..k];
      assert all[n] == ';' && all[n - 1] == rest[..k][k - 1];
    }
    forall i | 0 <= i < n
      ensures !StopsAt(all, "", i)
    {
      if i < |s| {
        assert all[i] == s[i] && (i > 0 ==> all[i - 1] == s[i - 1]);
      } else {
        assert all[i] == blanks[i - |s|];
      }
    }
    FindEndIs(all, "", n);
    assert all[..n] == s + blanks;
  }

  lemma TrimmedBefore(s: string, blanks: string)
    requires EndsSolid(s) && Blanks(blanks)
    ensures TrimRight(s + blanks) == s
  {
    TrimRightIs(s + blanks, |s|);
    assert (s + blanks)[..|s|] == s;
  }

  lemma ValueIs(pad: string, value: string, rest: string)
    requires Blanks(pad) && IsValue(value, pad) && IsRest(rest)
    ensures TrimRight(TrimLeft(WithoutComment(pad + value + rest))) == value
  {
    var s := pad + value;
    forall i | 0 < i < |s| && IsSpace(s[i - 1])
      ensures s[i] != ';'
    {
      if i > |pad| {
        assert s[i] == value[i - |pad|] && s[i - 1] == value[i - 1 - |pad|];
      }
    }
    var blanks := WithoutRemark(s, rest);
    if value == [] {
      TrimLeftIs(s + blanks, |blanks|);
      assert (s + blanks)[|blanks|..] == [];
    } else {
      assert s + blanks == pad + (value + blanks);
      StartIs(pad, value + blanks);
      TrimmedBefore(value, blanks);
    }
  }

  /** The name and the blanks behind it have no place to stop at. */
  lemma NameGoesOn(name: string, gap: string, tail: string, i: nat)
    requires IsName(name) && Blanks(gap) && i < |name + gap|
    ensures !StopsAt(name + gap + tail, "=:", i)
  {
    var s := name + gap + tail;
    if i < |name| {
      assert s[i] == name[i] && (i > 0 ==> s[i - 1] == name[i - 1]);
    } else {
      assert s[i] == gap[i - |name|];
    }
  }

  lemma PairIs(name: string, gap: string, sep: char, tail: string)
    requires IsName(name) && Blanks(gap) && (sep == '=' || sep == ':')
    ensures ClassifyPair(name + gap + [sep] + tail) == PairOf(name + gap, tail)
  {
    var s, e := name + gap + [sep] + tail, |name + gap|;
    assert s == name + gap + ([sep] + tail) && s[e] == sep;
    forall i | 0 <= i < e
      ensures !StopsAt(s, "=:", i)
    {
      NameGoesOn(name, gap, [sep] + tail, i);
    }
    FindEndIs(s, "=:", e);
    assert s[..e] == name + gap && s[e + 1..] == tail;
  }

  lemma PairBody(name: string, gap: string, sep: char, pad: string, value: string, core: string, rest: string)
    requires IsName(name) && Blanks(gap) && (name == [] ==> gap == []) && (sep == '=' || sep == ':')
    requires Blanks(pad) && IsValue(value, pad) && IsRest(rest) && core == name + gap + [sep] + pad + value
    ensures Classify(core + rest, false) == Pair(name, value)
  {
    Regroup(name + gap + [sep], pad, value, rest);
    PairOfPieces(name, gap, pad, value, rest);
    PairClassified(name, gap, sep, pad + value + rest);
  }

  lemma PairClassified(name: string, gap: string, sep: char, tail: string)
    requires IsName(name) && Blanks(gap) && (name == [] ==> gap == []) && (sep == '=' || sep == ':')
    ensures Classify(name + gap + [sep] + tail, false) == PairOf(name + gap, tail)
  {
    PairIs(name, gap, sep, tail);
    var body := name + gap + [sep] + tail;
    assert body[0] == if name == [] then sep else name[0];
  }

  lemma Regroup(a: string, b: string, c: string, d: string)
    ensures a + b + c + d == a + (b + c + d)
  {
  }

  lemma PairOfPieces(name: string, gap: string, pad: string, value: string, rest: string)
    requires IsName(name) && Blanks(gap) && Blanks(pad) && IsValue(value, pad) && IsRest(rest)
    ensures PairOf(name + gap, pad + value + rest) == Pair(name, value)
  {
    TrimmedBefore(name, gap);
    ValueIs(pad, value, rest);
  }

  /** A line that neither continues nor is skipped, by what it starts with and ends in. */
  lemma FormOfCore(prevName: string, lineno: nat, indent: string, core: string, blanks: string, remark: string)
    returns (rest: string)
    requires Blanks(indent) && core != [] && !IsSpace(core[0]) && !IsSpace(core[|core| - 1])
    requires IsEnding(blanks, remark) && (lineno == 1 ==> !(BOM <= indent + (core + (blanks + remark))))
    ensures IsRest(rest)
    ensures FormOfText(prevName, lineno, indent + (core + (blanks + remark))) ==
            Classify(core + rest, prevName != "" && indent != "")
  {
    FormWithout(prevName, lineno, indent, core + (blanks + remark));
    rest := EndingTrimmed(core, blanks, remark);
  }

  lemma PairForm(prevName: string, lineno: nat, shape: Shape)
    requires shape.PairLine? && WellShaped(shape, prevName != "")
    requires lineno == 1 ==> !(BOM <= TextOf(shape))
    ensures FormOfText(prevName, lineno, TextOf(shape)) == Pair(shape.name, shape.value)
  {
    var PairLine(indent, name, gap, sep, pad, value, blanks, remark) := shape;
    var core := name + gap + [sep] + pad + value;
    CoreIsSolid(name, gap, sep, pad, value);
    var rest := FormOfCore(prevName, lineno, indent, core, blanks, remark);
    PairBody(name, gap, sep, pad, value, core, rest);
  }

  lemma BareBody(words: string, rest: string)
    requires IsName(words) && words != [] && IsRest(rest)
    ensures Classify(words + rest, false) == Malformed
  {
    var s := words + rest;
    assert s[0] == words[0];
    var n := |s|;
    if rest != [] {
      var k :| 0 < k < |rest| && Blanks(rest[..k]) && rest[k] == ';';
      n := |words| + k;
      assert s[n] == ';' && s[n - 1] == rest[..k][k - 1];
      assert s == words + rest[..k] + rest[k..];
      forall i | 0 <= i < n
        ensures !StopsAt(s, "=:", i)
      {
        NameGoesOn(words, rest[..k], rest[k..], i);
      }
    } else {
      assert s == words + [] + [];
      forall i | 0 <= i < n
        ensures !StopsAt(s, "=:", i)
      {
        NameGoesOn(words, [], [], i);
      }
    }
    FindEndIs(s, "=:", n);
  }

  lemma BareForm(prevName: string, lineno: nat, shape: Shape)
    requires shape.BareLine? && WellShaped(shape, prevName != "")
    requires lineno == 1 ==> !(BOM <= TextOf(shape))
    ensures FormOfText(prevName, lineno, TextOf(shape)) == Malformed
  {
    var rest := FormOfCore(prevName, lineno, shape.indent, shape.words, shape.blanks, shape.remark);
    BareBody(shape.words, rest);
  }

  lemma IndentedForm(prevName: string, lineno: nat, shape: Shape)
    requires shape.IndentedLine? && WellShaped(shape, prevName != "")
    requires lineno == 1 ==> !(BOM <= TextOf(shape))
    ensures FormOfText(prevName, lineno, TextOf(shape)) == Continuation(shape.value)
  {
    var value := shape.value;
    var rest := FormOfCore(prevName, lineno, shape.indent, value, shape.blanks, shape.remark);
    var blanks := WithoutRemark(value, rest);
    TrimmedBefore(value, blanks);
    assert (value + rest)[0] == value[0];
  }

  /** No `]` and no remark in what follows the `[`, up to position `n`. */
  lemma HeaderGoesOn(name: string, tail: string, i: nat)
    requires Free(name, "]") && NoRemark(name) && i < |name|
    ensures !StopsAt(name + tail, "]", i)
  {
    var s := name + tail;
    assert s[i] == name[i] && (i > 0 ==> s[i - 1] == name[i - 1]);
  }

  lemma HeaderBody(name: string, rest: string)
    requires Free(name, "]") && NoRemark(name)
    ensures Classify("[" + name + "]" + rest, false) == Section(name)
  {
    var body, s := "[" + name + "]" + rest, name + ("]" + rest);
    assert body[1..] == s && s[|name|] == ']';
    forall i | 0 <= i < |name|
      ensures !StopsAt(s, "]", i)
    {
      HeaderGoesOn(name, "]" + rest, i);
    }
    FindEndIs(s, "]", |name|);
    assert body[1..1 + |name|] == name && body[1 + |name|] == ']';
  }

  lemma HeaderForm(prevName: string, lineno: nat, shape: Shape)
    requires shape.HeaderLine? && WellShaped(shape, prevName != "")
    requires lineno == 1 ==> !(BOM <= TextOf(shape))
    ensures FormOfText(prevName, lineno, TextOf(shape)) == Section(shape.name)
  {
    var HeaderLine(indent, name, rest) := shape;
    var core := "[" + name + "]";
    assert core[0] == '[' && core[|core| - 1] == ']';
    FormWithout(prevName, lineno, indent, core + rest);
    EndIs(core, rest);
    var n: nat :| n <= |rest| && TrimRight(core + rest) == core + rest[..n];
    HeaderBody(name, rest[..n]);
  }

  lemma UnclosedBody(name: string, rest: string)
    requires Free(name, "]") && NoRemark(name) && IsRest(rest)
    ensures Classify("[" + name + rest, false) == Malformed
  {
    var body, s := "[" + name + rest, name + rest;
    assert body[1..] == s;
    var n := |s|;
    if rest != [] {
      var k :| 0 < k < |rest| && Blanks(rest[..k]) && rest[k] == ';';
      n := |name| + k;
      assert s[n] == ';' && s[n - 1] == rest[..k][k - 1];
    }
    forall i | 0 <= i < n
      ensures !StopsAt(s, "]", i)
    {
      if i < |name| {
        HeaderGoesOn(name, rest, i);
      } else {
        assert s[i] == rest[..n - |name|][i - |name|];
      }
    }
    FindEndIs(s, "]", n);
    assert n < |s| ==> body[1 + n] == s[n];
  }

  lemma UnclosedForm(prevName: string, lineno: nat, shape: Shape)
    requires shape.UnclosedLine? && WellShaped(shape, prevName != "")
    requires lineno == 1 ==> !(BOM <= TextOf(shape))
    ensures FormOfText(prevName, lineno, TextOf(shape)) == Malformed
  {
    var UnclosedLine(indent, name, blanks, remark) := shape;
    var core := "[" + name;
    assert name != [] ==> core[|core| - 1] == name[|name| - 1];
    var rest := FormOfCore(prevName, lineno, indent, core, blanks, remark);
    UnclosedBody(name, rest);
  }

  /** The parser reads every line as its pieces say. */
  lemma ReadsAs(prevName: string, lineno: nat, shape: Shape)
    requires WellShaped(shape, prevName != "")
    requires lineno == 1 ==> !(BOM <= TextOf(shape))
    ensures FormOfText(prevName, lineno, TextOf(shape)) == Meaning(shape)
  {
    match shape {
      case SkippedLine(indent, rest) => SkippedForm(prevName, lineno, indent, rest);
      case HeaderLine(_, _, _) => HeaderForm(prevName, lineno, shape);
      case UnclosedLine(_, _, _, _) => UnclosedForm(prevName, lineno, shape);
      case PairLine(_, _, _, _, _, _, _, _) => PairForm(prevName, lineno, shape);
      case BareLine(_, _, _, _) => BareForm(prevName, lineno, shape);
      case IndentedLine(_, _, _, _) => IndentedForm(prevName, lineno, shape);
    }
  }

  lemma CoreIsSolid(name: string, gap: string, sep: char, pad: string, value: string)
    requires IsName(name) && (name == [] ==> gap == []) && (sep == '=' || sep == ':') && IsValue(value, pad)
    ensures var core := name + gap + [sep] + pad + value;
      && core != [] && !IsSpace(core[0]) && !IsSpace(core[|core| - 1])
      && core[0] == if name == [] then sep else name[0]
  {
    var core := name + gap + [sep] + pad + value;
    assert value != [] ==> core[|core| - 1] == value[|value| - 1];
    assert value == [] ==> core == name + gap + [sep];
  }

  // ----- every line has a shape -----

  /** The part in front of where a search stops has neither what it looks for nor a remark. */
  lemma BeforeStop(s: string, chars: string, c: nat)
    requires c == FindEnd(s, chars)
    ensures Free(s[..c], chars) && NoRemark(s[..c])
  {
    var t := s[..c];
    forall i | 0 <= i < c
      ensures t[i] !in chars && (i > 0 && IsSpace(t[i - 1]) ==> t[i] != ';')
    {
      assert !StopsAt(s, chars, i);
    }
  }

  /** Where a search does not find what it looks for, a line ends in blanks and perhaps a remark. */
  lemma EndingOf(s: string, chars: string, c: nat) returns (core: string, blanks: string, remark: string)
    requires c == FindEnd(s, chars) && (c < |s| ==> s[c] !in chars)
    ensures s == core + (blanks + remark) && IsEnding(blanks, remark) && EndsSolid(core)
    ensures Free(core, chars) && NoRemark(core)
    ensures s != [] && !IsSpace(s[0]) && s[0] !in chars ==> core != [] && core[0] == s[0]
  {
    BeforeStop(s, chars, c);
    var e := EndFrom(s, c);
    core, blanks, remark := s[..e], s[e..c], s[c..];
    PrefixClean(s[..c], chars, e);
    assert core == s[..c][..e];
    CutTwice(s, e, c);
    if c < |s| {
      RemarkFollows(s, chars, c, e);
    }
  }

  lemma CutTwice(s: string, e: nat, c: nat)
    requires e <= c <= |s|
    ensures s == s[..e] + (s[e..c] + s[c..])
  {
  }

  lemma RemarkFollows(s: string, chars: string, c: nat, e: nat)
    requires c == FindEnd(s, chars) && c < |s| && s[c] !in chars && e == EndFrom(s, c)
    ensures e < c && s[c] == ';'
  {
    assert StopsAt(s, chars, c) && IsSpace(s[c - 1]);
  }

  lemma ValueOf(tail: string) returns (pad: string, value: string, blanks: string, remark: string)
    ensures tail == pad + value + (blanks + remark)
    ensures Blanks(pad) && IsValue(value, pad) && IsEnding(blanks, remark)
  {
    var core;
    core, blanks, remark := EndingOf(tail, "", FindEnd(tail, ""));
    var p := SkipFrom(core, 0);
    pad, value := core[..p], core[p..];
    if core == [] {
      assert tail == pad + value + (blanks + remark);
    } else {
      SolidIsFound(core);
      assert value[|value| - 1] == core[|core| - 1];
      assert p > 0 ==> IsSpace(core[p - 1]);
      NoRemarkFrom(core, p);
    }
  }

  lemma NoRemarkFrom(s: string, p: nat)
    requires NoRemark(s) && p <= |s|
    ensures NoRemark(s[p..])
  {
    var t := s[p..];
    forall i | 0 < i < |t| && IsSpace(t[i - 1])
      ensures t[i] != ';'
    {
      assert t[i] == s[p + i] && t[i - 1] == s[p + i - 1];
    }
  }

  lemma SolidIsFound(s: string)
    requires s != [] && !IsSpace(s[|s| - 1])
    ensures SkipFrom(s, 0) < |s|
  {
    var last := s[|s| - 1];
    assert !IsSpace(last);
  }

  lemma CutAround(s: string, g: nat, e: nat)
    requires g <= e < |s|
    ensures s == s[..g] + s[g..e] + [s[e]] + s[e + 1..]
  {
  }

  lemma PairShape(indent: string, body: string, after: bool) returns (shape: Shape)
    requires Blanks(indent) && (after ==> indent == []) && body != [] && !IsSpace(body[0]) && body[0] !in ";#["
    requires var e := FindEnd(body, "=:"); e < |body| && body[e] in "=:"
    ensures WellShaped(shape, after) && TextOf(shape) == indent + body
  {
    var e := FindEnd(body, "=:");
    var name, gap := NameOf(body, e);
    var pad, value, blanks, remark := ValueOf(body[e + 1..]);
    shape := PairLine(indent, name, gap, body[e], pad, value, blanks, remark);
    Regroup(name + gap + [body[e]], pad, value, blanks + remark);
  }

  lemma NameOf(body: string, e: nat) returns (name: string, gap: string)
    requires body != [] && !IsSpace(body[0]) && body[0] !in ";#[" && e == FindEnd(body, "=:") && e < |body|
    ensures IsName(name) && Blanks(gap) && (name == [] ==> gap == [])
    ensures body == name + gap + [body[e]] + body[e + 1..]
  {
    BeforeStop(body, "=:", e);
    var g := EndFrom(body, e);
    name, gap := body[..g], body[g..e];
    PrefixClean(body[..e], "=:", g);
    assert name == body[..e][..g];
    CutAround(body, g, e);
    assert e > 0 ==> gap == [] || body[g] == gap[0];
  }

  lemma PrefixClean(s: string, chars: string, g: nat)
    requires Free(s, chars) && NoRemark(s) && g <= |s|
    ensures Free(s[..g], chars) && NoRemark(s[..g])
  {
    var t := s[..g];
    forall i | 0 < i < |t| && IsSpace(t[i - 1])
      ensures t[i] != ';'
    {
      assert t[i] == s[i] && t[i - 1] == s[i - 1];
    }
  }

  lemma ClosedShape(indent: string, s: string, after: bool) returns (shape: Shape)
    requires Blanks(indent) && (after ==> indent == [])
    requires var e := FindEnd(s, "]"); e < |s| && s[e] == ']'
    ensures WellShaped(shape, after) && TextOf(shape) == indent + ("[" + s)
  {
    var e := FindEnd(s, "]");
    BeforeStop(s, "]", e);
    shape := HeaderLine(indent, s[..e], s[e + 1..]);
    Closing("[", s, e);
  }

  lemma Closing(a: string, s: string, e: nat)
    requires e < |s| && s[e] == ']'
    ensures a + s[..e] + "]" + s[e + 1..] == a + s
  {
  }

  lemma UnclosedShape(indent: string, s: string, after: bool) returns (shape: Shape)
    requires Blanks(indent) && (after ==> indent == [])
    requires var e := FindEnd(s, "]"); e < |s| ==> s[e] != ']'
    ensures WellShaped(shape, after) && TextOf(shape) == indent + ("[" + s)
  {
    var name, blanks, remark := EndingOf(s, "]", FindEnd(s, "]"));
    shape := UnclosedLine(indent, name, blanks, remark);
    assert "[" + name + (blanks + remark) == "[" + (name + (blanks + remark));
  }

  lemma HeaderShape(indent: string, body: string, after: bool) returns (shape: Shape)
    requires Blanks(indent) && (after ==> indent == []) && body != [] && body[0] == '['
    ensures WellShaped(shape, after) && TextOf(shape) == indent + body
  {
    var s := body[1..];
    assert body == "[" + s;
    var e := FindEnd(s, "]");
    if e < |s| && s[e] == ']' {
      shape := ClosedShape(indent, s, after);
    } else {
      shape := UnclosedShape(indent, s, after);
    }
  }

  lemma OtherShape(indent: string, body: string, after: bool) returns (shape: Shape)
    requires Blanks(indent) && (after ==> indent == []) && body != [] && !IsSpace(body[0]) && body[0] !in ";#["
    ensures WellShaped(shape, after) && TextOf(shape) == indent + body
  {
    var e := FindEnd(body, "=:");
    if e < |body| && body[e] in "=:" {
      shape := PairShape(indent, body, after);
    } else {
      var words, blanks, remark := EndingOf(body, "=:", e);
      shape := BareLine(indent, words, blanks, remark);
    }
  }

  lemma ContinuingShape(indent: string, body: string) returns (shape: Shape)
    requires Blanks(indent) && indent != [] && body != [] && !IsSpace(body[0]) && body[0] !in ";#"
    ensures WellShaped(shape, true) && TextOf(shape) == indent + body
  {
    var value, blanks, remark := EndingOf(body, "", FindEnd(body, ""));
    shape := IndentedLine(indent, value, blanks, remark);
  }

  /** Every line has a shape; which one is up to its characters and to whether a name came before. */
  lemma ShapeOf(text: string, after: bool) returns (shape: Shape)
    ensures WellShaped(shape, after) && TextOf(shape) == text
  {
    var n := SkipFrom(text, 0);
    var indent, body := text[..n], text[n..];
    assert text == indent + body;
    if body == [] || body[0] in ";#" {
      shape := SkippedLine(indent, body);
    } else if after && indent != [] {
      shape := ContinuingShape(indent, body);
    } else if body[0] == '[' {
      shape := HeaderShape(indent, body, after);
    } else {
      shape := OtherShape(indent, body, after);
    }
  }

  ghost predicate Shows(shape: Shape, text: string, after: bool, line: Line) {
    WellShaped(shape, after) && TextOf(shape) == text && Meaning(shape) == line
  }

  /** The parser takes a line for exactly what the grammar says. */
  lemma GrammarIsExact(prevName: string, after: bool, lineno: nat, text: string, line: Line)
    requires (after <==> prevName != "") && (lineno == 1 ==> !(BOM <= text))
    ensures FormOfText(prevName, lineno, text) == line <==> exists shape :: Shows(shape, text, after, line)
  {
    if shape :| Shows(shape, text, after, line) {
      ReadsAs(prevName, lineno, shape);
    }
    var shape := ShapeOf(text, after);
    ReadsAs(prevName, lineno, shape);
    assert Shows(shape, text, after, Meaning(shape));
  }

  /** In front of the first line a byte order mark changes nothing: the line is read as it is without the
      mark, and as any other line. */
  lemma BomIsSkipped(text: string, marked: string, lineno: nat)
    requires marked == [0xEF as char, 0xBB as char, 0xBF as char] + text
    ensures lineno != 1 || !(BOM <= text) ==> FormOfText("", 1, marked) == FormOfText("", lineno, text)
  {
    assert BOM <= marked && marked[3..] == text;
  }

  // ----- what a unit does to the parser -----

  /** The first 49 characters. */
  function First49(s: string): string {
    if |s| <= 49 then s else s[..49]
  }

  /** A unit of the text `text` and of the meaning `line`, field by field. */
  lemma UnitLaw(st: State, unit: Unit, handler: Handler)
    ensures var st', line := ParseUnit(st, unit, handler), FormOfText(st.prevName, st.lineno + 1, unit.text);
      && st'.lineno == st.lineno + 1
      && st'.section == (if line.Section? then First49(line.name) else st.section)
      && st'.prevName == (if line.Section? then "" else if line.Pair? then First49(line.name) else st.prevName)
      && st'.calls == st.calls + (if line.Pair? then [Call(st.section, line.name, line.value)]
                                  else if line.Continuation? then [Call(st.section, st.prevName, line.value)]
                                  else [])
      && st'.error == (if st.error != 0 then st.error
                       else if unit.overlong || line.Malformed?
                               || ((line.Pair? || line.Continuation?) && !handler(st'.calls)) then st.lineno + 1
                       else 0)
  {
    var line := FormOf(st, unit);
    ParseForm(st, unit, line, handler);
    ApplyLaw(NextUnit(st, unit.overlong), line, handler);
  }

  lemma ApplyLaw(st: State, line: Line, handler: Handler)
    ensures var st' := Apply(st, line, handler);
      && st'.lineno == st.lineno
      && st'.section == (if line.Section? then First49(line.name) else st.section)
      && st'.prevName == (if line.Section? then "" else if line.Pair? then First49(line.name) else st.prevName)
      && st'.calls == st.calls + (if line.Pair? then [Call(st.section, line.name, line.value)]
                                  else if line.Continuation? then [Call(st.section, st.prevName, line.value)]
                                  else [])
      && st'.error == (if st.error != 0 then st.error
                       else if line.Malformed? || ((line.Pair? || line.Continuation?) && !handler(st'.calls))
                       then st.lineno else 0)
  {
  }

  /** A comment line, indented or not, and a blank line do nothing but count. */
  lemma CommentLine(st: State, indent: string, rest: string, handler: Handler)
    requires Blanks(indent) && (rest != [] ==> rest[0] == ';' || rest[0] == '#')
    ensures ParseUnit(st, Unit(indent + rest, false), handler) == st.(lineno := st.lineno + 1)
  {
    SkippedForm(st.prevName, st.lineno + 1, indent, rest);
    ParseText(st, indent + rest, Blank, handler);
  }

  /** Lines with one meaning do one thing, however they are spelled. */
  lemma SpellingIsFree(st: State, a: Shape, b: Shape, handler: Handler)
    requires st.lineno > 0 && WellShaped(a, st.prevName != "") && WellShaped(b, st.prevName != "")
    requires Meaning(a) == Meaning(b)
    ensures ParseUnit(st, Unit(TextOf(a), false), handler) == ParseUnit(st, Unit(TextOf(b), false), handler)
  {
    ReadsAs(st.prevName, st.lineno + 1, a);
    ReadsAs(st.prevName, st.lineno + 1, b);
    ParseText(st, TextOf(a), Meaning(a), handler);
    ParseText(st, TextOf(b), Meaning(b), handler);
  }

  /** An entry as a pair line with this separator and this ending. */
  function Spelled(name: string, sep: char, value: string, blanks: string, remark: string): Shape {
    if value == [] then PairLine("", name, "", sep, "", "", " " + blanks, remark)
    else PairLine("", name, "", sep, " ", value, blanks, remark)
  }

  lemma SpelledWell(name: string, sep: char, value: string, blanks: string, remark: string, after: bool)
    requires Canonical(Entry(name, value)) && (sep == '=' || sep == ':') && IsEnding(blanks, remark)
    ensures WellShaped(Spelled(name, sep, value, blanks, remark), after)
    ensures Meaning(Spelled(name, sep, value, blanks, remark)) == Pair(name, value)
  {
  }

  lemma SpelledText(name: string, sep: char, value: string, blanks: string, remark: string)
    ensures TextOf(Spelled(name, sep, value, blanks, remark)) == name + [sep] + " " + value + blanks + remark
  {
    if value == [] {
      assert name + "" + [sep] + "" + "" + ((" " + blanks) + remark) == name + [sep] + " " + value + blanks + remark;
    } else {
      assert name + "" + [sep] + " " + value + (blanks + remark) == name + [sep] + " " + value + blanks + remark;
    }
  }

  /** `name: value` is `name= value`, and a remark behind the value, or whitespace, makes no difference. */
  lemma EntrySpellings(st: State, name: string, value: string, blanks: string, remark: string, handler: Handler)
    requires st.lineno > 0 && Canonical(Entry(name, value)) && IsEnding(blanks, remark)
    ensures var plain := ParseUnit(st, Unit(name + "=" + " " + value + "\n" + "", false), handler);
      && ParseUnit(st, Unit(name + "=" + " " + value + blanks + remark, false), handler) == plain
      && ParseUnit(st, Unit(name + ":" + " " + value + blanks + remark, false), handler) == plain
      && plain.calls == st.calls + [Call(st.section, name, value)]
  {
    var after := st.prevName != "";
    SpelledWell(name, '=', value, "\n", "", after);
    SpelledWell(name, '=', value, blanks, remark, after);
    SpelledWell(name, ':', value, blanks, remark, after);
    SpelledText(name, '=', value, "\n", "");
    SpelledText(name, '=', value, blanks, remark);
    SpelledText(name, ':', value, blanks, remark);
    var plain := Spelled(name, '=', value, "\n", "");
    SpellingIsFree(st, Spelled(name, '=', value, blanks, remark), plain, handler);
    SpellingIsFree(st, Spelled(name, ':', value, blanks, remark), plain, handler);
    ReadsAs(st.prevName, st.lineno + 1, plain);
    UnitLaw(st, Unit(TextOf(plain), false), handler);
  }

  lemma HeaderUnit(st: State, header: Shape, handler: Handler)
    requires st.lineno > 0 && header.HeaderLine? && WellShaped(header, st.prevName != "")
    ensures var st' := ParseUnit(st, Unit(TextOf(header), false), handler);
      st' == st.(lineno := st.lineno + 1, section := First49(header.name), prevName := "")
  {
    ReadsAs(st.prevName, st.lineno + 1, header);
    ParseText(st, TextOf(header), Section(header.name), handler);
    SectionSet(st.(lineno := st.lineno + 1), header.name, handler);
  }

  lemma SectionSet(st: State, name: string, handler: Handler)
    ensures Apply(st, Section(name), handler) == st.(section := First49(name), prevName := "")
  {
  }

  lemma PairUnit(st: State, pair: Shape, handler: Handler)
    requires st.lineno > 0 && pair.PairLine? && WellShaped(pair, st.prevName != "")
    ensures ParseUnit(st, Unit(TextOf(pair), false), handler).calls ==
            st.calls + [Call(st.section, pair.name, pair.value)]
  {
    ReadsAs(st.prevName, st.lineno + 1, pair);
    UnitLaw(st, Unit(TextOf(pair), false), handler);
  }

  /** Right behind a header an indented line is a pair of its own. */
  lemma IndentedAfterHeader(st: State, header: Shape, pair: Shape, handler: Handler)
    requires st.lineno > 0 && header.HeaderLine? && pair.PairLine? && pair.indent != []
    requires WellShaped(header, st.prevName != "") && WellShaped(pair, false)
    ensures var next := ParseUnit(st, Unit(TextOf(header), false), handler);
      ParseUnit(next, Unit(TextOf(pair), false), handler).calls ==
      st.calls + [Call(First49(header.name), pair.name, pair.value)]
  {
    HeaderUnit(st, header, handler);
    PairUnit(ParseUnit(st, Unit(TextOf(header), false), handler), pair, handler);
  }
}
