/** The node's configuration: the INI handler of `src/core/args.c` and its seed list. */
module NodeConfig {
  import opened Options
  import opened Decimals
  import opened IniSpec
  import opened Ini
  import opened IniTheorems

  const MAX_HOST := 64

  datatype Seed = Seed(host: string, port: int)

  datatype Config = Config(port: int, seeds: seq<Seed>)

  const DEFAULT := Config(1998, [])

  // ----- numbers -----

  /** The number at the start of a string, with its sign. */
  function Number(s: string): int {
    var t := TrimLeft(s);
    if t != [] && t[0] == '-' then 0 - Digits(t[1..], 0)
    else if t != [] && t[0] == '+' then Digits(t[1..], 0)
    else Digits(t, 0)
  }

  /** A `long` holds 64 bits; `strtol` stops at its ends. */
  function Saturated(n: int): int {
    if n < -0x8000_0000_0000_0000 then -0x8000_0000_0000_0000
    else if n > 0x7FFF_FFFF_FFFF_FFFF then 0x7FFF_FFFF_FFFF_FFFF
    else n
  }

  predicate IsInt(n: int) {
    -0x8000_0000 <= n < 0x8000_0000
  }

  /** The low 32 bits. */
  function Truncated(n: int): (r: int)
    ensures IsInt(r)
  {
    var low := n % 0x1_0000_0000;
    if low < 0x8000_0000 then low else low - 0x1_0000_0000
  }

  /** `atoi`, as the C library has it: `strtol`, cut to an `int`. */
  function Atoi(s: string): (n: int)
    ensures IsInt(n)
  {
    Truncated(Saturated(Number(s)))
  }

  // ----- tokens -----

  predicate IsDelimiter(c: char) {
    c in " \t\n\r"
  }

  /** Where the run of delimiters, or of other characters, ends that goes on at `i`. */
  function RunFrom(s: string, i: nat, delimiters: bool): (n: nat)
    requires i <= |s|
    ensures i <= n <= |s|
    ensures forall k :: i <= k < n ==> IsDelimiter(s[k]) == delimiters
    ensures n < |s| ==> IsDelimiter(s[n]) != delimiters
    decreases |s| - i
  {
    if i == |s| || IsDelimiter(s[i]) != delimiters then i else RunFrom(s, i + 1, delimiters)
  }

  /** The maximal runs of characters that are not delimiters. */
  function Tokens(s: string): seq<string>
    decreases |s|
  {
    if s == [] then []
    else if IsDelimiter(s[0]) then Tokens(s[1..])
    else [s[..RunFrom(s, 0, false)]] + Tokens(s[RunFrom(s, 0, false)..])
  }

  function CountSpaces(s: string): nat {
    if s == [] then 0 else (if IsSpace(s[0]) then 1 else 0) + CountSpaces(s[1..])
  }

  lemma {:induction false} CountSpacesFrom(s: string, k: nat)
    requires k <= |s|
    ensures CountSpaces(s) >= CountSpaces(s[k..])
  {
    if k == 0 {
      assert s[0..] == s;
    } else {
      CountSpacesFrom(s[1..], k - 1);
      assert s[1..][k - 1..] == s[k..];
    }
  }

  /** There is a whitespace character between any two tokens. */
  lemma {:induction false} TokensBound(s: string)
    ensures |Tokens(s)| <= 1 + CountSpaces(s)
    decreases |s|
  {
    if s == [] {
    } else if IsDelimiter(s[0]) {
      TokensBound(s[1..]);
    } else {
      var n := RunFrom(s, 0, false);
      var rest := s[n..];
      CountSpacesFrom(s, n);
      if rest != [] {
        assert IsDelimiter(rest[0]);
        TokensBound(rest[1..]);
      }
    }
  }

  method EndOfRun(a: array<char>, from: nat, delimiters: bool, ghost e: nat) returns (p: nat)
    requires Text(a[..], from, e)
    ensures from <= p <= e && p - from == RunFrom(a[from..e], 0, delimiters)
  {
    p := from;
    ghost var t := a[from..e];
    while a[p] != NUL && IsDelimiter(a[p]) == delimiters
      invariant from <= p <= e && RunFrom(t, p - from, delimiters) == RunFrom(t, 0, delimiters)
      decreases e - p
    {
      p := p + 1;
    }
  }

  /** `strtok`: the next token's start, and where to go on. It ends the token with a NUL. */
  method Strtok(a: array<char>, from: nat, ghost e: nat) returns (found: bool, token: nat, stop: nat, next: nat)
    requires Text(a[..], from, e)
    modifies a
    ensures found <==> Tokens(old(a[from..e])) != []
    ensures found ==> && from <= token < stop <= e && stop <= next <= e
                      && Text(a[..], token, stop) && Text(a[..], next, e)
                      && Tokens(old(a[from..e])) == [a[token..stop]] + Tokens(a[next..e])
    ensures forall k :: 0 <= k < a.Length && (!found || next <= k) ==> a[k] == old(a[k])
  {
    token := EndOfRun(a, from, true, e);
    stop, next := token, token;
    found := a[token] != NUL;
    if found {
      stop := EndOfRun(a, token, false, e);
      FirstToken(a[..], from, token, stop, e);
      ghost var b := a[..];
      next := EndToken(a, stop, e);
      Untouched(b, a[..], token, stop, next, e);
    } else {
      NoToken(a[from..e]);
    }
  }

  lemma NoToken(s: string)
    requires RunFrom(s, 0, true) == |s|
    ensures Tokens(s) == []
  {
    TokensSkip(s, |s|);
    assert s[|s|..] == [];
  }

  method EndToken(a: array<char>, stop: nat, ghost e: nat) returns (next: nat)
    requires Text(a[..], stop, e)
    modifies a
    ensures next == if stop < e then stop + 1 else stop
    ensures a[..] == old(a[..])[stop := NUL]
  {
    next := stop;
    if a[stop] != NUL {
      a[stop] := NUL;
      next := stop + 1;
    }
  }

  lemma Untouched(before: seq<char>, after: seq<char>, token: nat, stop: nat, next: nat, e: nat)
    requires token <= stop <= next <= e < |before| && after == before[stop := NUL]
    requires next == if stop < e then stop + 1 else stop
    requires Text(before, token, e)
    ensures after[token..stop] == before[token..stop] && after[next..e] == before[next..e]
    ensures Text(after, token, stop) && Text(after, next, e)
    ensures forall k :: next <= k < |before| ==> after[k] == before[k]
  {
  }

  lemma FirstToken(b: seq<char>, from: nat, token: nat, stop: nat, e: nat)
    requires from <= token < e <= |b| && token - from == RunFrom(b[from..e], 0, true)
    requires token <= stop <= e && stop - token == RunFrom(b[token..e], 0, false)
    ensures token < stop
    ensures Tokens(b[from..e]) == [b[token..stop]] + Tokens(b[if stop < e then stop + 1 else stop..e])
  {
    SkipToToken(b, from, token, e);
    TokenIs(b[token..e], stop - token);
    CutAt(b, token, stop, e);
  }

  lemma SkipToToken(b: seq<char>, from: nat, token: nat, e: nat)
    requires from <= token < e <= |b| && token - from == RunFrom(b[from..e], 0, true)
    ensures Tokens(b[from..e]) == Tokens(b[token..e]) && !IsDelimiter(b[token])
  {
    var t := b[from..e];
    TokensSkip(t, token - from);
    assert t[token - from..] == b[token..e];
  }

  lemma {:induction false} TokensSkip(s: string, k: nat)
    requires k <= |s| && forall i :: 0 <= i < k ==> IsDelimiter(s[i])
    ensures Tokens(s) == Tokens(s[k..])
    decreases |s|
  {
    if k == 0 {
      assert s[0..] == s;
    } else {
      TokensSkip(s[1..], k - 1);
      assert s[1..][k - 1..] == s[k..];
    }
  }

  lemma TokenIs(s: string, n: nat)
    requires 0 < n <= |s| && (forall i :: 0 <= i < n ==> !IsDelimiter(s[i])) && (n < |s| ==> IsDelimiter(s[n]))
    ensures Tokens(s) == [s[..n]] + Tokens(s[n..])
    ensures n < |s| ==> Tokens(s[n..]) == Tokens(s[n + 1..])
  {
    assert RunFrom(s, 0, false) == n;
    assert n < |s| ==> s[n..][1..] == s[n + 1..];
  }

  // ----- seeds -----

  function ColonFrom(s: string, i: nat): (n: nat)
    requires i <= |s|
    ensures i <= n <= |s|
    ensures n < |s| ==> s[n] == ':'
    ensures forall k :: i <= k < n ==> s[k] != ':'
    decreases |s| - i
  {
    if i == |s| || s[i] == ':' then i else ColonFrom(s, i + 1)
  }

  function CutHost(s: string): string {
    if |s| < MAX_HOST then s else s[..MAX_HOST - 1]
  }

  /** A token with a colon is a host and a port. */
  function SeedOf(token: string): Option<Seed> {
    var c := ColonFrom(token, 0);
    if c == |token| then None else Some(Seed(CutHost(token[..c]), Atoi(token[c + 1..])))
  }

  function SeedsOfTokens(tokens: seq<string>): (seeds: seq<Seed>)
    ensures |seeds| <= |tokens|
  {
    if tokens == [] then []
    else match SeedOf(tokens[0])
      case None => SeedsOfTokens(tokens[1..])
      case Some(seed) => [seed] + SeedsOfTokens(tokens[1..])
  }

  function SeedsOf(value: string): seq<Seed> {
    SeedsOfTokens(Tokens(value))
  }

  method FindColon(a: array<char>, token: nat, ghost stop: nat) returns (p: nat)
    requires Text(a[..], token, stop)
    ensures token <= p <= stop && p - token == ColonFrom(a[token..stop], 0)
  {
    p := token;
    ghost var t := a[token..stop];
    while a[p] != NUL && a[p] != ':'
      invariant token <= p <= stop && ColonFrom(t, p - token) == ColonFrom(t, 0)
      decreases stop - p
    {
      p := p + 1;
    }
  }

  method TakeSeed(a: array<char>, token: nat, ghost stop: nat) returns (seed: Option<Seed>)
    requires Text(a[..], token, stop)
    modifies a
    ensures seed == SeedOf(old(a[token..stop]))
    ensures forall k :: stop <= k < a.Length ==> a[k] == old(a[k])
  {
    var colon := FindColon(a, token, stop);
    ghost var t := a[token..stop];
    if a[colon] == NUL {
      return None;
    }
    ghost var b := a[..];
    a[colon] := NUL;
    HostAndPort(b, a[..], token, colon, stop);
    return Some(Seed(CutHost(CText(a[token..])), Atoi(CText(a[colon + 1..]))));
  }

  lemma HostAndPort(before: seq<char>, after: seq<char>, token: nat, colon: nat, stop: nat)
    requires token <= colon < stop && Text(before, token, stop) && after == before[colon := NUL]
    ensures var t := before[token..stop];
      CText(after[token..]) == t[..colon - token] && CText(after[colon + 1..]) == t[colon - token + 1..]
  {
    CTextAt(after, token, colon);
    CTextAt(after, colon + 1, stop);
    CutAt(before, token, colon, stop);
    assert after[token..colon] == before[token..colon] && after[colon + 1..stop] == before[colon + 1..stop];
  }

  method CountCapacity(a: array<char>, ghost e: nat) returns (count: nat)
    requires Text(a[..], 0, e)
    ensures count == 1 + CountSpaces(a[..e])
  {
    count := 1;
    var ptr := 0;
    ghost var t := a[..e];
    assert t[0..] == t;
    while a[ptr] != NUL
      invariant ptr <= e && count + CountSpaces(t[ptr..]) == 1 + CountSpaces(t)
      decreases e - ptr
    {
      assert t[ptr..][1..] == t[ptr + 1..];
      if IsSpace(a[ptr]) {
        count := count + 1;
      }
      ptr := ptr + 1;
    }
  }

  /** The SEEDS branch of the handler. The array is as large as the whitespace count allows, and its
      capacity never turns a token away. */
  method ParseSeeds(value: string) returns (seeds: seq<Seed>)
    requires NUL !in value
    ensures seeds == SeedsOf(value)
  {
    var e := |value|;
    var copy := new char[e + 1](i => if 0 <= i < |value| then value[i] else NUL);
    assert Text(copy[..], 0, e) && copy[..e] == value;
    var count := CountCapacity(copy, e);
    TokensBound(value);
    var nodes := new Seed[count](i => Seed("", 0));
    assert copy[0..e] == value;
    var used := FillSeeds(copy, e, nodes);
    seeds := nodes[..used];
  }

  /** The `strtok` loop. */
  method FillSeeds(copy: array<char>, e: nat, nodes: array<Seed>) returns (used: nat)
    requires Text(copy[..], 0, e) && |Tokens(copy[0..e])| <= nodes.Length
    modifies copy, nodes
    ensures used <= nodes.Length && nodes[..used] == SeedsOf(old(copy[0..e]))
  {
    used := 0;
    ghost var all, left := Tokens(copy[0..e]), Tokens(copy[0..e]);
    var more: bool, token: nat, stop: nat, next: nat := Strtok(copy, 0, e);
    while more && used < nodes.Length
      invariant used + |left| <= nodes.Length
      invariant SeedsOfTokens(all) == nodes[..used] + SeedsOfTokens(left)
      invariant AtToken(copy[..], e, more, token, stop, next, left)
      decreases |left|
    {
      used, more, token, stop, next := NextSeed(copy, e, token, stop, next, nodes, used, left);
      left := left[1..];
    }
  }

  /** The tokens from `token` on are `left`, when there are any. */
  ghost predicate AtToken(b: seq<char>, e: nat, more: bool, token: nat, stop: nat, next: nat, left: seq<string>) {
    && (more <==> left != [])
    && (more ==> && token < stop <= next <= e && Text(b, token, stop) && Text(b, next, e)
                 && left == [b[token..stop]] + Tokens(b[next..e]))
  }

  method NextSeed(copy: array<char>, e: nat, token: nat, stop: nat, next: nat,
                  nodes: array<Seed>, used: nat, ghost left: seq<string>)
    returns (used': nat, more: bool, token': nat, stop': nat, next': nat)
    requires AtToken(copy[..], e, true, token, stop, next, left) && used < nodes.Length
    modifies copy, nodes
    ensures used <= used' <= used + 1 && used' <= nodes.Length
    ensures nodes[..used'] + SeedsOfTokens(left[1..]) == old(nodes[..used]) + SeedsOfTokens(left)
    ensures AtToken(copy[..], e, more, token', stop', next', left[1..])
  {
    ghost var rest := copy[next..e];
    used' := StoreSeed(copy, token, stop, nodes, used, left);
    SameText(copy[next..e], rest);
    more, token', stop', next' := Strtok(copy, next, e);
  }

  method StoreSeed(copy: array<char>, token: nat, ghost stop: nat,
                   nodes: array<Seed>, used: nat, ghost left: seq<string>)
    returns (used': nat)
    requires Text(copy[..], token, stop) && used < nodes.Length && left != [] && left[0] == copy[token..stop]
    modifies copy, nodes
    ensures used <= used' <= used + 1 && used' <= nodes.Length
    ensures nodes[..used'] + SeedsOfTokens(left[1..]) == old(nodes[..used]) + SeedsOfTokens(left)
    ensures forall k :: stop <= k < copy.Length ==> copy[k] == old(copy[k])
  {
    used' := used;
    var seed := TakeSeed(copy, token, stop);
    if seed.Some? {
      nodes[used] := seed.value;
      used' := used + 1;
      assert nodes[..used'] == old(nodes[..used]) + [seed.value];
    }
    SeedsNext(old(nodes[..used]), left);
  }

  lemma SeedsNext(before: seq<Seed>, left: seq<string>)
    requires left != []
    ensures before + SeedsOfTokens(left) ==
            match SeedOf(left[0])
            case None => before + SeedsOfTokens(left[1..])
            case Some(seed) => before + [seed] + SeedsOfTokens(left[1..])
  {
  }

  // ----- seeds that were printed are read back -----

  function Decimal(n: int): string {
    if n < 0 then "-" + DecimalDigits(-n) else DecimalDigits(n)
  }

  lemma NotTrimmed(s: string)
    requires s != [] && !IsSpace(s[0])
    ensures TrimLeft(s) == s
  {
    TrimLeftIs(s, 0);
    assert s[0..] == s;
  }

  lemma NumberOfDecimal(n: int)
    ensures Number(Decimal(n)) == n
  {
    var s := Decimal(n);
    assert n >= 0 ==> IsDigit(s[0]);
    NotTrimmed(s);
    DigitsOfDecimal(if n < 0 then -n else n);
    assert n < 0 ==> s[1..] == DecimalDigits(-n);
  }

  /** `atoi` reads back exactly the printed numbers that an `int` holds. */
  lemma AtoiOfDecimal(n: int)
    ensures Atoi(Decimal(n)) == n <==> IsInt(n)
  {
    NumberOfDecimal(n);
  }

  function PrintSeed(seed: Seed): string {
    seed.host + ":" + Decimal(seed.port)
  }

  function PrintSeeds(seeds: seq<Seed>): string {
    if seeds == [] then "" else PrintSeed(seeds[0]) + if |seeds| == 1 then "" else " " + PrintSeeds(seeds[1..])
  }

  /** A host that fits and has no colon or blank in it, and a port an `int` holds. */
  predicate CleanSeed(seed: Seed) {
    && |seed.host| < MAX_HOST && ':' !in seed.host && IsInt(seed.port)
    && forall i :: 0 <= i < |seed.host| ==> !IsDelimiter(seed.host[i])
  }

  predicate AllClean(seeds: seq<Seed>) {
    forall i :: 0 <= i < |seeds| ==> CleanSeed(seeds[i])
  }

  lemma SeedOfPrinted(seed: Seed)
    requires CleanSeed(seed)
    ensures SeedOf(PrintSeed(seed)) == Some(seed)
  {
    var token, c := PrintSeed(seed), |seed.host|;
    assert token[c] == ':' && token[..c] == seed.host && token[c + 1..] == Decimal(seed.port);
    assert forall i :: 0 <= i < c ==> token[i] == seed.host[i];
    assert ColonFrom(token, 0) == c;
    AtoiOfDecimal(seed.port);
  }

  lemma DecimalIsClean(n: int, i: nat)
    requires i < |Decimal(n)|
    ensures !IsDelimiter(Decimal(n)[i])
  {
    if n < 0 && i > 0 {
      assert Decimal(n)[i] == DecimalDigits(-n)[i - 1];
    }
  }

  lemma PrintedIsToken(seed: Seed, i: nat)
    requires CleanSeed(seed) && i < |PrintSeed(seed)|
    ensures !IsDelimiter(PrintSeed(seed)[i])
  {
    if i < |seed.host| {
      assert PrintSeed(seed)[i] == seed.host[i];
    } else if i > |seed.host| {
      assert PrintSeed(seed)[i] == Decimal(seed.port)[i - |seed.host| - 1];
      DecimalIsClean(seed.port, i - |seed.host| - 1);
    }
  }

  /** A printed seed is one token, at the end or in front of a blank. */
  lemma PrintedToken(seed: Seed, rest: string)
    requires CleanSeed(seed) && (rest != [] ==> IsDelimiter(rest[0]))
    ensures Tokens(PrintSeed(seed) + rest) == [PrintSeed(seed)] + Tokens(if rest == [] then [] else rest[1..])
  {
    var p, s := PrintSeed(seed), PrintSeed(seed) + rest;
    forall i | 0 <= i < |p|
      ensures !IsDelimiter(s[i])
    {
      assert s[i] == p[i];
      PrintedIsToken(seed, i);
    }
    TokenIs(s, |p|);
    assert s[..|p|] == p && s[|p|..] == rest;
    assert rest != [] ==> s[|p| + 1..] == rest[1..];
  }

  lemma SeedsOfFirst(seed: Seed, rest: string)
    requires CleanSeed(seed) && (rest != [] ==> IsDelimiter(rest[0]))
    ensures SeedsOf(PrintSeed(seed) + rest) == [seed] + SeedsOf(if rest == [] then [] else rest[1..])
  {
    PrintedToken(seed, rest);
    SeedOfPrinted(seed);
    var tokens := Tokens(if rest == [] then [] else rest[1..]);
    assert ([PrintSeed(seed)] + tokens)[1..] == tokens;
  }

  /** A printed seed list is read back, in order. */
  lemma {:induction false} SeedsOfPrinted(seeds: seq<Seed>)
    requires AllClean(seeds)
    ensures SeedsOf(PrintSeeds(seeds)) == seeds
  {
    if seeds != [] {
      var tail := PrintSeeds(seeds[1..]);
      var rest := if |seeds| == 1 then "" else " " + tail;
      SeedsOfPrinted(seeds[1..]);
      SeedsOfFirst(seeds[0], rest);
      assert rest != [] ==> rest[1..] == tail;
      assert seeds == [seeds[0]] + seeds[1..];
    }
  }

  // ----- the handler -----

  predicate Known(call: Call) {
    call.section == "SERVER" && (call.name == "PORT" || call.name == "SEEDS")
  }

  /** What one call does to the configuration. */
  function Configure(cfg: Config, call: Call): Config {
    if call.section != "SERVER" then cfg
    else if call.name == "PORT" then cfg.(port := Atoi(call.value))
    else if call.name == "SEEDS" then cfg.(seeds := SeedsOf(call.value))
    else cfg
  }

  function ConfigureAll(calls: seq<Call>): Config {
    if calls == [] then DEFAULT else Configure(ConfigureAll(calls[..|calls| - 1]), calls[|calls| - 1])
  }

  /** The handler's answer depends on the current call alone. */
  const HANDLER: Handler := (calls: seq<Call>) => calls != [] && Known(calls[|calls| - 1])

  class ConfigCell {
    var port: int
    var seeds: seq<Seed>

    ghost function Value(): Config
      reads this
    {
      Config(port, seeds)
    }

    constructor ()
      ensures Value() == DEFAULT
    {
      port, seeds := 1998, [];
    }

    /** `handler`. */
    method Handle(call: Call) returns (ok: bool)
      requires NUL !in call.value
      modifies this
      ensures Value() == Configure(old(Value()), call)
      ensures ok <==> Known(call)
    {
      if call.section == "SERVER" && call.name == "PORT" {
        port := Atoi(call.value);
      } else if call.section == "SERVER" && call.name == "SEEDS" {
        seeds := ParseSeeds(call.value);
      } else {
        return false;
      }
      return true;
    }
  }

  /** The value of the last call for `name` in the SERVER section. */
  function LastValue(calls: seq<Call>, name: string): Option<string> {
    if calls == [] then None
    else
      var last := calls[|calls| - 1];
      if last.section == "SERVER" && last.name == name then Some(last.value)
      else LastValue(calls[..|calls| - 1], name)
  }

  /** Over a whole parse the last PORT call and the last SEEDS call alone determine the configuration. */
  lemma {:induction false} LastCallWins(calls: seq<Call>)
    ensures ConfigureAll(calls).port ==
            match LastValue(calls, "PORT") case None => 1998 case Some(v) => Atoi(v)
    ensures ConfigureAll(calls).seeds ==
            match LastValue(calls, "SEEDS") case None => [] case Some(v) => SeedsOf(v)
  {
    if calls != [] {
      LastCallWins(calls[..|calls| - 1]);
    }
  }

  // ----- seeds that a later call replaces -----

  predicate IsSeeds(call: Call) {
    call.section == "SERVER" && call.name == "SEEDS"
  }

  function SeedsBy(call: Call): seq<Seed> {
    if IsSeeds(call) then SeedsOf(call.value) else []
  }

  /** The seeds of all SEEDS calls together. */
  function AllSeeds(calls: seq<Call>): seq<Seed> {
    if calls == [] then [] else AllSeeds(calls[..|calls| - 1]) + SeedsBy(calls[|calls| - 1])
  }

  predicate NoColons(tokens: seq<string>) {
    forall i :: 0 <= i < |tokens| ==> ':' !in tokens[i]
  }

  lemma {:induction false} NoSeeds(tokens: seq<string>)
    ensures SeedsOfTokens(tokens) == [] <==> NoColons(tokens)
  {
    if tokens != [] {
      var token := tokens[0];
      NoSeeds(tokens[1..]);
      assert SeedOf(token).None? <==> ':' !in token;
      assert forall i :: 0 < i < |tokens| ==> tokens[i] == tokens[1..][i - 1];
    }
  }

  /** If it is a SEEDS call, no token of its value has a colon. */
  predicate BringsNone(call: Call) {
    IsSeeds(call) ==> NoColons(Tokens(call.value))
  }

  lemma NoneByCall(call: Call)
    ensures SeedsBy(call) == [] <==> BringsNone(call)
  {
    NoSeeds(Tokens(call.value));
  }

  lemma {:induction false} AllSeedsNone(calls: seq<Call>)
    ensures AllSeeds(calls) == [] <==> forall k :: 0 <= k < |calls| ==> BringsNone(calls[k])
  {
    if calls != [] {
      var init, last := calls[..|calls| - 1], calls[|calls| - 1];
      AllSeedsNone(init);
      NoneByCall(last);
      assert forall k :: 0 <= k < |init| ==> init[k] == calls[k];
    }
  }

  /** The place of the last SEEDS call, or 0. */
  function LastSeeds(calls: seq<Call>): (n: nat)
    ensures n <= |calls|
  {
    if calls == [] then 0
    else if IsSeeds(calls[|calls| - 1]) then |calls| - 1
    else LastSeeds(calls[..|calls| - 1])
  }

  /** The node has all the seeds it was given exactly when no SEEDS call before the last has a token
      with a colon. */
  lemma {:induction false} SeedsKept(calls: seq<Call>)
    ensures ConfigureAll(calls).seeds == AllSeeds(calls) <==>
            forall k :: 0 <= k < LastSeeds(calls) ==> BringsNone(calls[k])
  {
    if calls != [] {
      var init, last := calls[..|calls| - 1], calls[|calls| - 1];
      assert forall k :: 0 <= k < |init| ==> init[k] == calls[k];
      if IsSeeds(last) {
        AllSeedsNone(init);
        SuffixOnly(AllSeeds(init), SeedsBy(last));
      } else {
        SeedsKept(init);
      }
    }
  }

  lemma SuffixOnly(a: seq<Seed>, b: seq<Seed>)
    ensures b == a + b <==> a == []
  {
    assert |a + b| == |a| + |b|;
  }

  /** The value an indented line continues with. */
  function IndentedValue(text: string): string {
    TrimRight(WithoutComment(TrimRight(TrimLeft(text))))
  }

  /** Indented, and neither blank nor a comment. */
  predicate Indented(text: string) {
    && text != [] && IsSpace(text[0])
    && var body := TrimRight(TrimLeft(text)); body != [] && body[0] != ';' && body[0] != '#'
  }

  lemma IndentedForm(st: State, unit: Unit)
    requires st.prevName != "" && st.lineno > 0 && Indented(unit.text)
    ensures FormOf(st, unit) == Continuation(IndentedValue(unit.text))
  {
    assert SkipFrom(unit.text, 0) > 0;
  }

  lemma ContinuedSeeds(st: State, value: string, handler: Handler)
    requires st.section == "SERVER" && st.prevName == "SEEDS"
    ensures var st' := Apply(st, Continuation(value), handler);
      && st'.calls == st.calls + [Call("SERVER", "SEEDS", value)]
      && st'.prevName == "SEEDS" && st'.section == "SERVER"
      && ConfigureAll(st'.calls) == ConfigureAll(st.calls).(seeds := SeedsOf(value))
  {
    OneMoreCall(st.calls, Call("SERVER", "SEEDS", value));
  }

  /** An indented line under a SEEDS entry is a SEEDS call of its own; after it the node has that line's
      seeds and no others. */
  lemma IndentedLineReplaces(st: State, unit: Unit, value: string, handler: Handler)
    requires st.section == "SERVER" && st.prevName == "SEEDS" && st.lineno > 0
    requires Indented(unit.text) && value == IndentedValue(unit.text)
    ensures var st' := ParseUnit(st, unit, handler);
      && st'.calls == st.calls + [Call("SERVER", "SEEDS", value)]
      && st'.prevName == "SEEDS" && st'.section == "SERVER"
      && ConfigureAll(st'.calls) == ConfigureAll(st.calls).(seeds := SeedsOf(value))
  {
    IndentedForm(st, unit);
    ParseForm(st, unit, Continuation(value), handler);
    ContinuedSeeds(NextUnit(st, unit.overlong), value, handler);
  }

  lemma OneMoreCall(calls: seq<Call>, call: Call)
    ensures ConfigureAll(calls + [call]) == Configure(ConfigureAll(calls), call)
  {
    assert (calls + [call])[..|calls|] == calls;
  }

  lemma TwoSeedsCalls(v: string, w: string)
    ensures var calls := [Call("SERVER", "SEEDS", v), Call("SERVER", "SEEDS", w)];
      AllSeeds(calls) == SeedsOf(v) + SeedsOf(w) && ConfigureAll(calls).seeds == SeedsOf(w)
  {
    var p, q := Call("SERVER", "SEEDS", v), Call("SERVER", "SEEDS", w);
    assert [p, q][..1] == [p] && [p][..0] == [];
    assert AllSeeds([p]) == SeedsOf(v);
    OneMoreCall([p], q);
    assert [p] + [q] == [p, q];
  }

  /** Of the seeds in a SEEDS entry and in an indented line under it, the node gets the latter. */
  lemma SeedsLost(first: seq<Seed>, second: seq<Seed>, v: string, w: string, text: string)
    requires AllClean(first) && AllClean(second)
    requires AllCanonical(EntryItems("SERVER", "SEEDS", v)) && CanContinue(w)
    requires v == PrintSeeds(first) && w == PrintSeeds(second)
    requires text == PrintAll(EntryItems("SERVER", "SEEDS", v)) + Indent(w)
    ensures var calls := Parse(text, HANDLER).calls;
      AllSeeds(calls) == first + second && ConfigureAll(calls).seeds == second
  {
    EntryContinued("SERVER", "SEEDS", v, w, HANDLER);
    TwoSeedsCalls(v, w);
    SeedsOfPrinted(first);
    SeedsOfPrinted(second);
  }

  lemma PrintOne(seed: Seed)
    ensures PrintSeeds([seed]) == PrintSeed(seed)
  {
  }

  const LOSING_FILE: string := "[SERVER]\n" + "SEEDS = a:1\n" + " b:2\n"

  lemma LosingFile()
    ensures PrintSeeds([Seed("a", 1)]) == "a:1" && PrintSeeds([Seed("b", 2)]) == "b:2"
    ensures LOSING_FILE == PrintAll(EntryItems("SERVER", "SEEDS", "a:1")) + Indent("b:2")
  {
    PrintOne(Seed("a", 1));
    PrintOne(Seed("b", 2));
    assert Decimal(1) == "1" && Decimal(2) == "2";
    EntryPrinted("SERVER", "SEEDS", "a:1");
    assert Print(Header("SERVER")) == "[SERVER]\n";
    assert Print(Entry("SEEDS", "a:1")) == "SEEDS = a:1\n";
    assert Indent("b:2") == " b:2\n";
  }

  lemma LosingHeader()
    ensures Canonical(Header("SERVER"))
  {
  }

  lemma LosingEntry()
    ensures Canonical(Entry("SEEDS", "a:1"))
  {
  }

  lemma LosingItems()
    ensures AllCanonical(EntryItems("SERVER", "SEEDS", "a:1")) && CanContinue("b:2")
  {
    LosingHeader();
    LosingEntry();
  }

  /** For one, the seed `a:1` of a file with `b:2` on an indented line. */
  lemma SeedLost()
    ensures var calls := Parse(LOSING_FILE, HANDLER).calls;
      && AllSeeds(calls) == [Seed("a", 1)] + [Seed("b", 2)]
      && ConfigureAll(calls).seeds == [Seed("b", 2)]
  {
    LosingFile();
    LosingItems();
    SeedsLost([Seed("a", 1)], [Seed("b", 2)], "a:1", "b:2", LOSING_FILE);
  }

  lemma {:induction false} AcceptsKnown(before: seq<Call>, calls: seq<Call>)
    ensures Accepts(HANDLER, before, calls) <==> forall k :: 0 <= k < |calls| ==> Known(calls[k])
    decreases |calls|
  {
    if calls != [] {
      AcceptsKnown(before + [calls[0]], calls[1..]);
      assert forall k :: 0 < k < |calls| ==> calls[k] == calls[1..][k - 1];
    }
  }

  /** A printed document configures the node as its entries say, without error exactly when every
      entry is a known one. */
  lemma PrintedConfig(items: seq<Item>)
    requires AllCanonical(items)
    ensures var st, triples := Parse(PrintAll(items), HANDLER), Triples("", items);
      && ConfigureAll(st.calls) == ConfigureAll(triples)
      && (st.error == 0 <==> forall k :: 0 <= k < |triples| ==> Known(triples[k]))
  {
    PrintedRoundTrip(items, HANDLER);
    AcceptsKnown([], Triples("", items));
  }

  function ConfigItems(cfg: Config): seq<Item> {
    [Header("SERVER"), Entry("PORT", Decimal(cfg.port)), Entry("SEEDS", PrintSeeds(cfg.seeds))]
  }

  lemma ConfigTriples(cfg: Config)
    ensures Triples("", ConfigItems(cfg)) ==
            [Call("SERVER", "PORT", Decimal(cfg.port)), Call("SERVER", "SEEDS", PrintSeeds(cfg.seeds))]
  {
    var items := ConfigItems(cfg);
    assert items[1..] == [items[1], items[2]] && items[1..][1..] == [items[2]] && items[1..][1..][1..] == [];
    assert Triples("SERVER", [items[2]]) == [Call("SERVER", "SEEDS", PrintSeeds(cfg.seeds))];
  }

  lemma TwoCalls(p: Call, q: Call)
    requires p.section == "SERVER" && p.name == "PORT" && q.section == "SERVER" && q.name == "SEEDS"
    ensures ConfigureAll([p, q]) == Config(Atoi(p.value), SeedsOf(q.value))
  {
    assert [p, q][..1] == [p] && [p][..0] == [];
    assert ConfigureAll([p]) == Configure(DEFAULT, p);
  }

  lemma PortAndSeeds(cfg: Config, v: string, w: string)
    requires Atoi(v) == cfg.port && SeedsOf(w) == cfg.seeds
    ensures var calls := [Call("SERVER", "PORT", v), Call("SERVER", "SEEDS", w)];
      ConfigureAll(calls) == cfg && forall k :: 0 <= k < |calls| ==> Known(calls[k])
  {
    TwoCalls(Call("SERVER", "PORT", v), Call("SERVER", "SEEDS", w));
  }

  lemma ConfigMeaning(cfg: Config)
    requires IsInt(cfg.port) && AllClean(cfg.seeds)
    ensures var triples := Triples("", ConfigItems(cfg));
      ConfigureAll(triples) == cfg && forall k :: 0 <= k < |triples| ==> Known(triples[k])
  {
    ConfigTriples(cfg);
    AtoiOfDecimal(cfg.port);
    SeedsOfPrinted(cfg.seeds);
    PortAndSeeds(cfg, Decimal(cfg.port), PrintSeeds(cfg.seeds));
  }

  /** A configuration that fits its lines is read back from its printed form. */
  lemma ConfigRoundTrip(cfg: Config, items: seq<Item>)
    requires IsInt(cfg.port) && AllClean(cfg.seeds)
    requires items == ConfigItems(cfg) && AllCanonical(items)
    ensures var st := Parse(PrintAll(items), HANDLER);
      st.error == 0 && ConfigureAll(st.calls) == cfg
  {
    PrintedConfig(items);
    ConfigMeaning(cfg);
  }

  // ----- the whole configuration file -----

  predicate NoNul(s: string) {
    NUL !in s
  }

  lemma SliceNoNul(s: string, i: nat, j: nat)
    requires NoNul(s) && i <= j <= |s|
    ensures NoNul(s[i..j]) && NoNul(s[i..]) && NoNul(s[..j])
  {
  }

  lemma ValueNoNul(body: string)
    requires NoNul(body)
    ensures NoNul(TrimRight(WithoutComment(body))) && NoNul(TrimRight(TrimLeft(WithoutComment(body))))
  {
    SliceNoNul(body, 0, FindEnd(body, ""));
    var c := WithoutComment(body);
    var t := TrimLeft(c);
    SliceNoNul(c, SkipFrom(c, 0), |c|);
    SliceNoNul(c, 0, EndFrom(c, |c|));
    SliceNoNul(t, 0, EndFrom(t, |t|));
  }

  ghost predicate ValueOk(form: Line) {
    (form.Continuation? || form.Pair?) ==> NoNul(form.value)
  }

  lemma PairNoNul(body: string, e: nat)
    requires NoNul(body) && e < |body|
    ensures ValueOk(PairAt(body, e))
  {
    SliceNoNul(body, e + 1, |body|);
    ValueNoNul(body[e + 1..]);
  }

  lemma ClassifyNoNul(body: string, continues: bool)
    requires NoNul(body)
    ensures ValueOk(Classify(body, continues))
  {
    ValueNoNul(body);
    var e := FindEnd(body, "=:");
    if e < |body| {
      PairNoNul(body, e);
    }
  }

  lemma FormNoNul(prevName: string, lineno: nat, text: string)
    requires NoNul(text)
    ensures ValueOk(FormOfText(prevName, lineno, text))
  {
    var after := AfterBom(text, lineno);
    SliceNoNul(text, |text| - |after|, |text|);
    var left := TrimLeft(after);
    SliceNoNul(after, SkipFrom(after, 0), |after|);
    SliceNoNul(left, 0, EndFrom(left, |left|));
    ClassifyNoNul(TrimRight(left), prevName != "" && |left| < |text|);
  }

  ghost predicate CallsOk(calls: seq<Call>) {
    forall k :: 0 <= k < |calls| ==> NoNul(calls[k].value)
  }

  lemma ApplyNoNul(st: State, form: Line)
    requires CallsOk(st.calls) && ValueOk(form)
    ensures CallsOk(Apply(st, form, HANDLER).calls)
  {
  }

  lemma UnitNoNul(st: State, s: string)
    requires CallsOk(st.calls)
    ensures CallsOk(ParseUnit(st, UnitOf(s), HANDLER).calls)
  {
    var unit := UnitOf(s);
    var next := NextUnit(st, unit.overlong);
    assert NoNul(unit.text);
    FormNoNul(next.prevName, next.lineno, unit.text);
    ApplyNoNul(next, FormOfText(next.prevName, next.lineno, unit.text));
  }

  /** The parse that `process_args` makes of the configuration file: the handler runs in the pass that
      calls it. */
  method Load(text: string) returns (cfg: Config, error: nat)
    ensures cfg == ConfigureAll(Parse(text, HANDLER).calls) && error == Parse(text, HANDLER).error
  {
    var reader := new StringReader(text);
    var parser := new Parser(HANDLER);
    var cell := new ConfigCell();
    while true
      invariant parser.Valid() && reader.Valid() && parser.handler == HANDLER
      invariant fresh(parser) && fresh(parser.line) && fresh(parser.abyss)
      invariant fresh(parser.section) && fresh(parser.prevName) && fresh(reader) && fresh(cell)
      invariant ParseUnits(parser.Now(), UnitsOf(reader.Rest()), HANDLER) == Parse(text, HANDLER)
      invariant cell.Value() == ConfigureAll(parser.calls) && CallsOk(parser.calls)
      decreases |reader.Rest()|
    {
      ghost var before, rest := parser.Now(), reader.Rest();
      var more := LoadNext(reader, parser, cell);
      if !more {
        break;
      }
      UnitsNext(before, rest);
    }
    cfg, error := Config(cell.port, cell.seeds), parser.error;
  }

  /** One pass, with the call it makes. */
  method LoadNext(reader: StringReader, parser: Parser, cell: ConfigCell) returns (more: bool)
    requires parser.Valid() && reader.Valid() && parser.handler == HANDLER
    requires cell.Value() == ConfigureAll(parser.calls) && CallsOk(parser.calls)
    modifies parser, parser.line, parser.abyss, parser.section, parser.prevName, reader, cell
    ensures parser.Valid() && reader.Valid()
    ensures cell.Value() == ConfigureAll(parser.calls) && CallsOk(parser.calls)
    ensures more <==> old(reader.Rest()) != ""
    ensures !more ==> reader.Rest() == "" && parser.Now() == old(parser.Now())
    ensures more ==> var rest := old(reader.Rest());
              && reader.Rest() == rest[UnitLength(rest)..]
              && parser.Now() == ParseUnit(old(parser.Now()), UnitOf(rest), HANDLER)
  {
    ghost var rest, before := reader.Rest(), parser.Now();
    var made := |parser.calls|;
    more := parser.ParseNext(reader);
    if more {
      UnitNoNul(before, rest);
      OneCallAtMost(before, UnitOf(rest));
      HandleLatest(cell, parser.calls, made);
    }
  }

  lemma UnitsNext(before: State, rest: string)
    requires rest != ""
    ensures ParseUnits(ParseUnit(before, UnitOf(rest), HANDLER), UnitsOf(rest[UnitLength(rest)..]), HANDLER) ==
            ParseUnits(before, UnitsOf(rest), HANDLER)
  {
    assert UnitsOf(rest)[1..] == UnitsOf(rest[UnitLength(rest)..]);
  }

  ghost predicate Extends(calls: seq<Call>, calls': seq<Call>) {
    |calls| <= |calls'| <= |calls| + 1 && calls'[..|calls|] == calls
  }

  lemma AtMostOne(calls: seq<Call>, more: seq<Call>)
    requires |more| <= 1
    ensures Extends(calls, calls + more)
  {
  }

  lemma OneCallAtMost(before: State, unit: Unit)
    ensures Extends(before.calls, ParseUnit(before, unit, HANDLER).calls)
  {
    ParseUnitFails(before, unit, HANDLER);
    AtMostOne(before.calls, CallsOf(before, FormOf(before, unit)));
  }

  /** The handler's answer is the one the parser went by. */
  method HandleLatest(cell: ConfigCell, calls: seq<Call>, made: nat)
    requires CallsOk(calls) && made <= |calls| <= made + 1 && cell.Value() == ConfigureAll(calls[..made])
    modifies cell
    ensures cell.Value() == ConfigureAll(calls)
  {
    if made < |calls| {
      assert calls == calls[..made] + [calls[made]];
      OneMoreCall(calls[..made], calls[made]);
      var ok := cell.Handle(calls[made]);
      assert ok == HANDLER(calls);
    } else {
      assert calls == calls[..made];
    }
  }
}
