/** When a unit of an INI text is a line of it: always without NUL bytes, and exactly when with them. */
module IniLines {
  import opened IniSpec

  function SplitLines(s: string): seq<string>
    decreases |s|
  {
    if s == [] then [] else [s[..LineLength(s)]] + SplitLines(s[LineLength(s)..])
  }

  function Join(lines: seq<string>): string {
    if lines == [] then "" else lines[0] + Join(lines[1..])
  }

  lemma JoinCons(line: string, rest: seq<string>)
    ensures Join([line] + rest) == line + Join(rest)
  {
    assert ([line] + rest)[1..] == rest;
  }

  /** Splitting loses nothing. */
  lemma {:induction false} SplitJoins(s: string)
    ensures Join(SplitLines(s)) == s
    decreases |s|
  {
    if s != [] {
      var n := LineLength(s);
      SplitJoins(s[n..]);
      JoinCons(s[..n], SplitLines(s[n..]));
      assert s == s[..n] + s[n..];
    }
  }

  ghost predicate IsLine(line: string, last: bool) {
    && line != [] && (forall i :: 0 <= i < |line| - 1 ==> line[i] != '\n')
    && (last || line[|line| - 1] == '\n')
  }

  /** The pieces are lines: only the last one can lack its newline. */
  lemma {:induction false} SplitIntoLines(s: string, i: nat)
    requires i < |SplitLines(s)|
    ensures IsLine(SplitLines(s)[i], i + 1 == |SplitLines(s)|)
    decreases |s|
  {
    var n := LineLength(s);
    var rest := SplitLines(s[n..]);
    if i == 0 {
      assert SplitLines(s)[0] == s[..n];
    } else {
      assert SplitLines(s)[i] == rest[i - 1];
      SplitIntoLines(s[n..], i - 1);
    }
  }

  // ----- the discard loop -----

  /** Where the last piece of a line of `n` bytes starts. */
  function LastPiece(n: nat): (k: nat)
    ensures n > 0 ==> k < n
  {
    if n < MAX_PIECE then 0 else MAX_PIECE - 1 + LastPiece(n - (MAX_PIECE - 1))
  }

  lemma LineLengthFrom(s: string, k: nat)
    requires k <= |s| && forall i :: 0 <= i < k ==> s[i] != '\n'
    ensures LineLength(s) == k + LineLength(s[k..])
  {
    var t := s[k..];
    var n := LineLength(t);
    assert forall i :: k <= i < k + n - 1 ==> s[i] == t[i - k];
    assert n > 0 ==> s[k + n - 1] == t[n - 1];
    LineLengthIs(s, k + n);
  }

  lemma CTextOfAll(s: string)
    requires NUL !in s
    ensures CText(s) == s
  {
    CTextStops(s, |s|);
  }

  /** No NUL from `i` to `j`. */
  predicate Clear(s: string, i: nat, j: nat)
    requires i <= j <= |s|
  {
    forall k :: i <= k < j ==> s[k] != NUL
  }

  /** A last piece ends its line exactly when it has its newline and no NUL in front of it. */
  lemma ShortPieceEnds(s: string)
    requires 0 < LineLength(s) < MAX_PIECE
    ensures var n := LineLength(s); EndsLine(s[..n]) <==> Clear(s, 0, n) && s[n - 1] == '\n'
  {
    var n := LineLength(s);
    var piece := s[..n];
    var t := CText(piece);
    if Clear(s, 0, n) {
      CTextOfAll(piece);
    } else {
      assert |t| < n;
      assert t != [] ==> t[|t| - 1] == s[|t| - 1] != '\n';
    }
  }

  lemma LongPieceGoesOn(s: string, k: nat)
    requires k < LineLength(s)
    ensures !EndsLine(s[..k])
  {
    var t := CText(s[..k]);
    assert t != [] ==> t[|t| - 1] == s[|t| - 1] != '\n';
  }

  lemma ClearFrom(s: string, k: nat, i: nat, j: nat)
    requires i <= j && k + j <= |s|
    ensures Clear(s[k..], i, j) <==> Clear(s, k + i, k + j)
  {
    if Clear(s[k..], i, j) {
      assert forall m :: k + i <= m < k + j ==> s[m] == s[k..][m - k];
    }
  }

  lemma DiscardPast(s: string)
    requires LineLength(s) >= MAX_PIECE
    ensures var k := MAX_PIECE - 1;
      LineLength(s) == k + LineLength(s[k..]) && DiscardLength(s) == k + DiscardLength(s[k..])
  {
    LineLengthFrom(s, MAX_PIECE - 1);
    LongPieceGoesOn(s, MAX_PIECE - 1);
  }

  /** The line is the last of the text, or no NUL is in its last piece. */
  predicate EndIsSeen(s: string) {
    var n := LineLength(s);
    n == |s| || Clear(s, LastPiece(n), n)
  }

  lemma EndIsSeenFrom(s: string)
    requires LineLength(s) >= MAX_PIECE
    ensures EndIsSeen(s) <==> EndIsSeen(s[MAX_PIECE - 1..])
  {
    var n, k := LineLength(s), MAX_PIECE - 1;
    LineLengthFrom(s, k);
    assert LastPiece(n) == k + LastPiece(n - k);
    ClearFrom(s, k, LastPiece(n - k), n - k);
    SeenFrom(s[k..], n - k);
    SeenFrom(s, n);
  }

  lemma SeenFrom(s: string, n: nat)
    requires LineLength(s) == n
    ensures EndIsSeen(s) <==> n == |s| || Clear(s, LastPiece(n), n)
  {
  }

  /** The discard loop drops exactly the rest of the line, unless a NUL in its last piece hides the
      newline and there is more to drop. */
  lemma {:induction false} DiscardIsLine(s: string)
    ensures DiscardLength(s) == LineLength(s) <==> EndIsSeen(s)
    decreases |s|
  {
    if LineLength(s) >= MAX_PIECE {
      DiscardPast(s);
      EndIsSeenFrom(s);
      DiscardIsLine(s[MAX_PIECE - 1..]);
    } else if s != [] {
      ShortPieceEnds(s);
    }
  }

  // ----- a pass of the main loop -----

  /** The line fits the buffer; or the buffer shows all it can of it, and so does the last piece dropped. */
  predicate TakenWhole(s: string) {
    LineLength(s) < MAX_LINE || (Clear(s, 0, MAX_LINE - 1) && EndIsSeen(s[MAX_LINE - 1..]))
  }

  /** A pass takes exactly one line if and only if no NUL is where the code looks for the newline. */
  lemma PassTakesLine(s: string)
    ensures UnitLength(s) == LineLength(s) <==> TakenWhole(s)
  {
    if LineLength(s) < MAX_LINE {
      ShortPass(s);
    } else {
      LongPass(s);
    }
  }

  lemma FullWhenClear(s: string)
    requires LineLength(s) >= MAX_LINE
    ensures Full(FirstText(s)) <==> Clear(s, 0, MAX_LINE - 1)
  {
    var first := s[..MAX_LINE - 1];
    if Clear(s, 0, MAX_LINE - 1) {
      CTextOfAll(first);
      assert first[MAX_LINE - 2] == s[MAX_LINE - 2] != '\n';
    } else {
      var m :| 0 <= m < MAX_LINE - 1 && s[m] == NUL;
      assert first[m] == NUL;
    }
  }

  lemma LongPass(s: string)
    requires LineLength(s) >= MAX_LINE
    ensures UnitLength(s) == LineLength(s) <==> TakenWhole(s)
  {
    FullWhenClear(s);
    LineLengthFrom(s, MAX_LINE - 1);
    DiscardIsLine(s[MAX_LINE - 1..]);
  }

  lemma ShortPass(s: string)
    requires LineLength(s) < MAX_LINE
    ensures UnitLength(s) == LineLength(s)
  {
    var n := LineLength(s);
    var text := FirstText(s);
    if Full(text) {
      assert text == s[..n];
      assert s[n..] == [];
    }
  }

  /** A newline that the discard loop does not see: the pass takes the next line, too. */
  lemma HiddenNewline()
    ensures var s := seq(199, i => 'a') + "\0\nb"; LineLength(s) == 201 && UnitLength(s) == 202
  {
    var s := seq(199, i => 'a') + "\0\nb";
    LineLengthIs(s, 201);
    PassTakesLine(s);
    assert s[199] == NUL && !TakenWhole(s);
    assert s[..199] == seq(199, i => 'a');
    CTextOfAll(s[..199]);
    assert s[199..] == "\0\nb";
    LineLengthIs("\0\nb", 2);
    assert "\0\nb"[2..] == "b";
    assert DiscardLength("\0\nb") >= 2;
  }

  /** Behind 199 characters, a NUL and `n` more. */
  function EdgeText(n: nat): string {
    seq(199, i => 'a') + (['\0'] + seq(n, i => 'b') + "\nc")
  }

  lemma EdgeTail(n: nat)
    ensures EdgeText(n)[199..] == ['\0'] + seq(n, i => 'b') + "\nc"
    ensures LineLength(EdgeText(n)) == 201 + n && LineLength(EdgeText(n)[199..]) == 2 + n
    ensures Clear(EdgeText(n), 0, 199)
  {
    var s := EdgeText(n);
    assert s[199..] == ['\0'] + seq(n, i => 'b') + "\nc";
    LineLengthIs(s, 201 + n);
    LineLengthIs(s[199..], 2 + n);
  }

  /** Pieces have 15 bytes: a NUL hides the newline up to the 15th byte, and not from the 16th on. */
  lemma PieceEdge()
    ensures UnitLength(EdgeText(13)) != LineLength(EdgeText(13))
    ensures UnitLength(EdgeText(14)) == LineLength(EdgeText(14))
  {
    EdgeTail(13);
    EdgeTail(14);
    var hidden, seen := EdgeText(13)[199..], EdgeText(14)[199..];
    assert hidden[0] == NUL && !Clear(hidden, LastPiece(15), 15);
    assert LastPiece(16) == 15 && seen[15] == '\n';
    PassTakesLine(EdgeText(13));
    PassTakesLine(EdgeText(14));
  }

  /** Of a short line the parser sees what is in front of the first NUL. */
  lemma NulCuts(a: string, rest: string, n: nat)
    requires NUL !in a && n == LineLength(a + (['\0'] + rest)) && |a| < n < 200
    ensures UnitOf(a + (['\0'] + rest)) == Unit(a, false)
  {
    var s := a + (['\0'] + rest);
    assert s[|a|] == NUL && forall k :: 0 <= k < |a| ==> s[k] == a[k];
    CTextStops(s[..n], |a|);
    assert s[..n][..|a|] == a;
  }

  // ----- texts without NUL -----

  /** Of a line beyond 199 bytes the rest is dropped. */
  function Kept(line: string): string {
    if |line| < MAX_LINE then line else line[..MAX_LINE - 1]
  }

  function LineUnit(line: string): Unit {
    Unit(Kept(line), |line| >= MAX_LINE)
  }

  lemma FirstTextIs(s: string, k: nat)
    requires NUL !in s && k == ChunkLength(s, MAX_LINE - 1)
    ensures FirstText(s) == s[..k]
  {
    CTextOfAll(s[..k]);
  }

  lemma KeptIs(s: string, n: nat, k: nat)
    requires n == LineLength(s) && k == ChunkLength(s, MAX_LINE - 1)
    ensures Kept(s[..n]) == s[..k]
    ensures Full(s[..k]) && |s| >= MAX_LINE <==> n >= MAX_LINE
  {
    if k == MAX_LINE - 1 {
      assert s[..n][..k] == s[..k] && s[..k][k - 1] == s[k - 1];
    }
  }

  lemma UnitIsLine(s: string)
    requires NUL !in s
    ensures UnitLength(s) == LineLength(s) && UnitOf(s) == LineUnit(s[..LineLength(s)])
  {
    PassTakesLine(s);
    FirstTextIs(s, ChunkLength(s, MAX_LINE - 1));
    KeptIs(s, LineLength(s), ChunkLength(s, MAX_LINE - 1));
  }

  /** Without NUL bytes the units are the lines. */
  lemma {:induction false} UnitsAreLines(s: string)
    requires NUL !in s
    ensures |UnitsOf(s)| == |SplitLines(s)|
    ensures forall i :: 0 <= i < |UnitsOf(s)| ==> UnitsOf(s)[i] == LineUnit(SplitLines(s)[i])
    decreases |s|
  {
    if s != [] {
      UnitIsLine(s);
      var rest := s[LineLength(s)..];
      UnitsAreLines(rest);
      forall i | 0 < i < |UnitsOf(s)|
        ensures UnitsOf(s)[i] == LineUnit(SplitLines(s)[i])
      {
        assert UnitsOf(s)[i] == UnitsOf(rest)[i - 1] && SplitLines(s)[i] == SplitLines(rest)[i - 1];
      }
    }
  }
}
