/** What a configuration value says, in terms of its characters: numbers, separators, seeds and names. */
module ConfigLaws {
  import opened Options
  import opened Decimals
  import opened IniSpec
  import opened IniTheorems
  import opened IniGrammar
  import opened NodeConfig

  // ----- numbers -----

  lemma {:induction false} DigitsThen(s: string, rest: string, value: nat)
    requires (forall i :: 0 <= i < |s| ==> IsDigit(s[i])) && (rest != [] ==> !IsDigit(rest[0]))
    ensures Digits(s + rest, value) == Digits(s, value)
    decreases |s|
  {
    if s == [] {
      assert s + rest == rest;
    } else {
      assert (s + rest)[1..] == s[1..] + rest;
      DigitsThen(s[1..], rest, 10 * value + (s[0] as int - '0' as int));
    }
  }

  /** A number in front of which there may be whitespace and a sign, and behind which anything but a digit. */
  lemma NumberOf(blanks: string, sign: string, n: nat, rest: string)
    requires Blanks(blanks) && (sign == "" || sign == "+" || sign == "-") && (rest != [] ==> !IsDigit(rest[0]))
    ensures Number(blanks + (sign + (DecimalDigits(n) + rest))) == if sign == "-" then 0 - n else n
  {
    var digits := DecimalDigits(n) + rest;
    var body := sign + digits;
    assert digits[0] == DecimalDigits(n)[0];
    StartIs(blanks, body);
    DigitsThen(DecimalDigits(n), rest, 0);
    DigitsOfDecimal(n);
    if sign == "" {
      assert body == digits;
    } else {
      assert body[1..] == digits;
    }
  }

  /** Without a digit the number is 0. */
  lemma NoNumber(blanks: string, sign: string, rest: string)
    requires Blanks(blanks) && (sign == "" || sign == "+" || sign == "-")
    requires rest != [] && !IsDigit(rest[0]) && !IsSpace(rest[0]) && (sign == "" ==> rest[0] !in "+-")
    ensures Number(blanks + (sign + rest)) == 0
  {
    var body := sign + rest;
    StartIs(blanks, body);
    if sign == "" {
      assert body == rest;
    } else {
      assert body[1..] == rest;
    }
  }

  lemma TruncatedIs(n: int)
    ensures (Truncated(n) - n) % 0x1_0000_0000 == 0
  {
    var low := n % 0x1_0000_0000;
    assert n == n / 0x1_0000_0000 * 0x1_0000_0000 + low;
  }

  lemma TruncatedEnds()
    ensures Truncated(0x7FFF_FFFF_FFFF_FFFF) == -1 && Truncated(-0x8000_0000_0000_0000) == 0
  {
  }

  /** `atoi` keeps the low 32 bits of what 64 hold, of what is larger all ones, of what is smaller none. */
  lemma AtoiRange(n: int, a: int)
    requires a == Atoi(Decimal(n))
    ensures -0x8000_0000 <= a < 0x8000_0000
    ensures -0x8000_0000_0000_0000 <= n < 0x8000_0000_0000_0000 ==> (a - n) % 0x1_0000_0000 == 0
    ensures n >= 0x8000_0000_0000_0000 ==> a == -1
    ensures n < -0x8000_0000_0000_0000 ==> a == 0
  {
    NumberOfDecimal(n);
    TruncatedIs(n);
    TruncatedEnds();
  }

  // ----- tokens -----

  /** `strtok`'s delimiters: tab, newline, carriage return, blank; not all that counts as whitespace. */
  lemma DelimiterIs(c: char)
    ensures IsDelimiter(c) <==> c as int in {9, 10, 13, 32}
  {
  }

  predicate Delimiters(w: string) {
    forall i :: 0 <= i < |w| ==> IsDelimiter(w[i])
  }

  predicate IsToken(t: string) {
    t != [] && forall i :: 0 <= i < |t| ==> !IsDelimiter(t[i])
  }

  /** Tokens, each with the delimiters behind it. */
  function Spread(tokens: seq<string>, seps: seq<string>): string
    requires |seps| == |tokens|
  {
    if tokens == [] then "" else tokens[0] + (seps[0] + Spread(tokens[1..], seps[1..]))
  }

  /** Only the last one can do without. */
  predicate Separated(tokens: seq<string>, seps: seq<string>) {
    && |seps| == |tokens|
    && (forall i :: 0 <= i < |tokens| ==> IsToken(tokens[i]) && Delimiters(seps[i]))
    && (forall i :: 0 <= i < |tokens| - 1 ==> seps[i] != [])
  }

  /** Whatever the delimiters, the tokens between them are found. */
  lemma {:induction false} TokensOfSpread(lead: string, tokens: seq<string>, seps: seq<string>)
    requires Delimiters(lead) && Separated(tokens, seps)
    ensures Tokens(lead + Spread(tokens, seps)) == tokens
    decreases |tokens|
  {
    var text := Spread(tokens, seps);
    TokensSkip(lead + text, |lead|);
    assert (lead + text)[|lead|..] == text;
    if tokens != [] {
      var rest := seps[0] + Spread(tokens[1..], seps[1..]);
      TokensOfSpread(seps[0], tokens[1..], seps[1..]);
      FirstOfSpread(tokens[0], rest);
      assert tokens == [tokens[0]] + tokens[1..];
    }
  }

  lemma FirstOfSpread(token: string, rest: string)
    requires IsToken(token) && (rest != [] ==> IsDelimiter(rest[0]))
    ensures Tokens(token + rest) == [token] + Tokens(rest)
  {
    var s := token + rest;
    assert forall i :: 0 <= i < |token| ==> s[i] == token[i];
    TokenIs(s, |token|);
    assert s[..|token|] == token && s[|token|..] == rest;
  }

  /** A vertical tab and a form feed are whitespace, but separate nothing. */
  lemma NotASeparator(a: string, c: char, b: string)
    requires IsToken(a) && IsToken(b) && (c as int == 11 || c as int == 12)
    ensures IsSpace(c) && Tokens(a + [c] + b) == [a + [c] + b]
  {
    var token := a + [c] + b;
    forall i | 0 <= i < |token|
      ensures !IsDelimiter(token[i])
    {
      assert token[i] == if i < |a| then a[i] else if i == |a| then c else b[i - |a| - 1];
    }
    FirstOfSpread(token, "");
    assert token + "" == token;
  }

  // ----- seeds -----

  lemma {:induction false} ColonIs(s: string, i: nat, c: nat)
    requires i <= c <= |s| && (c < |s| ==> s[c] == ':') && forall k :: i <= k < c ==> s[k] != ':'
    ensures ColonFrom(s, i) == c
    decreases c - i
  {
    if i < c {
      ColonIs(s, i + 1, c);
    }
  }

  /** A token is cut at its first colon, and its host to 63 characters. */
  lemma SeedOfToken(host: string, port: string)
    requires ':' !in host
    ensures SeedOf(host + (":" + port)) == Some(Seed(if |host| <= 63 then host else host[..63], Atoi(port)))
  {
    var token := host + (":" + port);
    assert forall i :: 0 <= i < |host| ==> token[i] == host[i];
    ColonIs(token, 0, |host|);
    assert token[..|host|] == host && token[|host| + 1..] == port;
  }

  /** A token without one is no seed. */
  lemma NoSeedOfToken(token: string)
    requires ':' !in token
    ensures SeedOf(token) == None
  {
    ColonIs(token, 0, |token|);
  }

  /** Seeds with any delimiters around and between them are read back in order. */
  lemma SeedsOfSpread(lead: string, seeds: seq<Seed>, tokens: seq<string>, seps: seq<string>)
    requires AllClean(seeds) && |tokens| == |seeds| && forall i :: 0 <= i < |seeds| ==> tokens[i] == PrintSeed(seeds[i])
    requires Delimiters(lead) && Separated(tokens, seps)
    ensures SeedsOf(lead + Spread(tokens, seps)) == seeds
  {
    TokensOfSpread(lead, tokens, seps);
    SeedsOfAll(seeds, tokens);
  }

  lemma FirstSeed(seed: Seed, tokens: seq<string>)
    requires CleanSeed(seed) && tokens != [] && tokens[0] == PrintSeed(seed)
    ensures SeedsOfTokens(tokens) == [seed] + SeedsOfTokens(tokens[1..])
  {
    SeedOfPrinted(seed);
  }

  lemma {:induction false} SeedsOfAll(seeds: seq<Seed>, tokens: seq<string>)
    requires AllClean(seeds) && |tokens| == |seeds| && forall i :: 0 <= i < |seeds| ==> tokens[i] == PrintSeed(seeds[i])
    ensures SeedsOfTokens(tokens) == seeds
    decreases |seeds|
  {
    if seeds != [] {
      SeedsOfAll(seeds[1..], tokens[1..]);
      FirstSeed(seeds[0], tokens);
      assert seeds == [seeds[0]] + seeds[1..];
    }
  }

  // ----- names -----

  lemma OneCall(call: Call, calls: seq<Call>)
    requires calls == [call]
    ensures (forall k :: 0 <= k < |calls| ==> Known(calls[k])) <==>
            call.section == "SERVER" && (call.name == "PORT" || call.name == "SEEDS")
    ensures ConfigureAll(calls) ==
            if call.section == "SERVER" && call.name == "PORT" then Config(Atoi(call.value), [])
            else if call.section == "SERVER" && call.name == "SEEDS" then Config(1998, SeedsOf(call.value))
            else Config(1998, [])
  {
    OneMoreCall([], call);
    assert [] + [call] == calls;
    assert calls[0] == call;
  }

  /** A file of one entry: which names are known, and what they set. */
  lemma OneEntry(section: string, name: string, value: string, st: State)
    requires IniTheorems.AllCanonical(EntryItems(section, name, value)) && |name| < 50
    requires st == Parse(PrintAll(EntryItems(section, name, value)), HANDLER)
    ensures st.error == 0 <==> section == "SERVER" && (name == "PORT" || name == "SEEDS")
    ensures ConfigureAll(st.calls) ==
            if section == "SERVER" && name == "PORT" then Config(Atoi(value), [])
            else if section == "SERVER" && name == "SEEDS" then Config(1998, SeedsOf(value))
            else Config(1998, [])
  {
    var items := EntryItems(section, name, value);
    PrintedConfig(items);
    EntryState(section, name, value, HANDLER);
    OneCall(Call(section, name, value), Triples("", items));
  }
}
