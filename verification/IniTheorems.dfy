/** What an INI parse means: which unit its result names, and what it reads back from a printed document. */
module IniTheorems {
  import opened IniSpec

  // ----- the result is the first unit that failed -----

  function FormOf(st: State, unit: Unit): Line {
    FormOfText(st.prevName, st.lineno + 1, unit.text)
  }

  function CallsOf(st: State, form: Line): (calls: seq<Call>)
    ensures |calls| <= 1
  {
    match form
    case Continuation(value) => [Call(st.section, st.prevName, value)]
    case Pair(name, value) => [Call(st.section, name, value)]
    case _ => []
  }

  /** A unit fails by being too long, by its syntax, or by the handler's answer. */
  ghost predicate Fails(st: State, unit: Unit, handler: Handler) {
    var form := FormOf(st, unit);
    unit.overlong || form.Malformed? || (CallsOf(st, form) != [] && !handler(st.calls + CallsOf(st, form)))
  }

  lemma ApplyFails(st: State, form: Line, handler: Handler)
    ensures var st' := Apply(st, form, handler); var calls := CallsOf(st, form);
      && st'.lineno == st.lineno && st'.calls == st.calls + calls
      && st'.error ==
         if st.error == 0 && (form.Malformed? || (calls != [] && !handler(st.calls + calls)))
         then st.lineno else st.error
  {
  }

  lemma StepFails(st: State, overlong: bool, form: Line, handler: Handler)
    ensures var st' := Apply(NextUnit(st, overlong), form, handler); var calls := CallsOf(st, form);
      && st'.lineno == st.lineno + 1 && st'.calls == st.calls + calls
      && st'.error ==
         if st.error == 0 && (overlong || form.Malformed? || (calls != [] && !handler(st.calls + calls)))
         then st.lineno + 1 else st.error
  {
    ApplyFails(NextUnit(st, overlong), form, handler);
  }

  lemma ParseUnitFails(st: State, unit: Unit, handler: Handler)
    ensures var st' := ParseUnit(st, unit, handler);
      && st'.calls == st.calls + CallsOf(st, FormOf(st, unit))
      && st'.error == if st.error == 0 && Fails(st, unit, handler) then st.lineno + 1 else st.error
  {
    StepFails(st, unit.overlong, FormOf(st, unit), handler);
  }

  /** A unit is what its form says, the handler's call included. */
  lemma ParseForm(st: State, unit: Unit, form: Line, handler: Handler)
    requires FormOf(st, unit) == form
    ensures ParseUnit(st, unit, handler) == Apply(NextUnit(st, unit.overlong), form, handler)
  {
  }

  /** The parser after the first `k` units. */
  function StateAfter(units: seq<Unit>, k: nat, handler: Handler): (st: State)
    requires k <= |units|
    ensures st.lineno == k
  {
    if k == 0 then START else ParseUnit(StateAfter(units, k - 1, handler), units[k - 1], handler)
  }

  lemma {:induction false} ParseUnitsFrom(units: seq<Unit>, k: nat, handler: Handler)
    requires k <= |units|
    ensures ParseUnits(StateAfter(units, k, handler), units[k..], handler) == ParseUnits(START, units, handler)
  {
    if k == 0 {
      assert units[0..] == units;
    } else {
      ParseUnitsFrom(units, k - 1, handler);
      assert units[k - 1..][1..] == units[k..];
    }
  }

  lemma ParseIsLast(text: string, handler: Handler)
    ensures Parse(text, handler) == StateAfter(UnitsOf(text), |UnitsOf(text)|, handler)
  {
    var units := UnitsOf(text);
    ParseUnitsFrom(units, |units|, handler);
    assert units[|units|..] == [];
  }

  /** Which units fail, and the error after each number of units. */
  ghost function Failures(units: seq<Unit>, handler: Handler): seq<bool> {
    seq(|units|, k requires 0 <= k < |units| => Fails(StateAfter(units, k, handler), units[k], handler))
  }

  ghost function Errors(units: seq<Unit>, handler: Handler): seq<nat> {
    seq(|units| + 1, k requires 0 <= k <= |units| => StateAfter(units, k, handler).error)
  }

  /** `e` is the number of the first failing unit, counted from 1, or 0. */
  ghost predicate IsFirst(fails: seq<bool>, e: nat) {
    && e <= |fails|
    && (e > 0 ==> fails[e - 1])
    && (forall k :: 0 <= k < (if e > 0 then e - 1 else |fails|) ==> !fails[k])
  }

  ghost predicate ErrorStep(fails: seq<bool>, errors: seq<nat>, k: nat)
    requires k < |fails| && |errors| == |fails| + 1
  {
    errors[k + 1] == if errors[k] == 0 && fails[k] then k + 1 else errors[k]
  }

  ghost predicate ErrorSteps(fails: seq<bool>, errors: seq<nat>) {
    && |errors| == |fails| + 1 && errors[0] == 0
    && forall k :: 0 <= k < |fails| ==> ErrorStep(fails, errors, k)
  }

  lemma {:induction false} FirstOf(fails: seq<bool>, errors: seq<nat>, n: nat)
    requires ErrorSteps(fails, errors) && n <= |fails|
    ensures IsFirst(fails[..n], errors[n])
  {
    if n > 0 {
      FirstOf(fails, errors, n - 1);
      assert ErrorStep(fails, errors, n - 1);
      assert fails[..n] == fails[..n - 1] + [fails[n - 1]];
    }
  }

  lemma FirstOfAll(fails: seq<bool>, errors: seq<nat>)
    requires ErrorSteps(fails, errors)
    ensures IsFirst(fails, errors[|fails|])
  {
    FirstOf(fails, errors, |fails|);
    assert fails[..|fails|] == fails;
  }

  lemma ErrorStepAt(units: seq<Unit>, k: nat, handler: Handler)
    requires k < |units|
    ensures ErrorStep(Failures(units, handler), Errors(units, handler), k)
  {
    ParseUnitFails(StateAfter(units, k, handler), units[k], handler);
  }

  lemma ErrorsFollow(units: seq<Unit>, handler: Handler)
    ensures ErrorSteps(Failures(units, handler), Errors(units, handler))
  {
    var fails, errors := Failures(units, handler), Errors(units, handler);
    forall k | 0 <= k < |fails|
      ensures ErrorStep(fails, errors, k)
    {
      ErrorStepAt(units, k, handler);
    }
  }

  lemma LastError(text: string, handler: Handler)
    ensures var units := UnitsOf(text); Errors(units, handler)[|units|] == Parse(text, handler).error
  {
    ParseIsLast(text, handler);
  }

  /** The result of a parse is the number of the first unit that failed, or 0. */
  lemma ErrorIsFirstFailure(text: string, handler: Handler)
    ensures IsFirst(Failures(UnitsOf(text), handler), Parse(text, handler).error)
  {
    var units := UnitsOf(text);
    ErrorsFollow(units, handler);
    LastError(text, handler);
    FirstOfAll(Failures(units, handler), Errors(units, handler));
  }

  // ----- a printed document is read back -----

  datatype Item = Header(name: string) | Entry(name: string, value: string)

  /** No newline or NUL, and no `;` after whitespace. */
  predicate Clean(s: string) {
    && '\n' !in s && NUL !in s
    && forall i :: 0 < i < |s| && IsSpace(s[i - 1]) ==> s[i] != ';'
  }

  /** No whitespace at either end. */
  predicate Trimmed(s: string) {
    s != [] ==> !IsSpace(s[0]) && !IsSpace(s[|s| - 1])
  }

  /** Names and values that have no reserved form and fit a line. */
  predicate Canonical(item: Item) {
    match item
    case Header(name) => Clean(name) && ']' !in name && |name| < MAX_NAME
    case Entry(name, value) =>
      && Clean(name) && Trimmed(name) && name != [] && '=' !in name && ':' !in name
      && name[0] !in ";#[" && !(BOM <= name)
      && Clean(value) && Trimmed(value) && (value != [] ==> value[0] != ';')
      && |name| + |value| + 4 < MAX_LINE
  }

  function Print(item: Item): string {
    match item
    case Header(name) => "[" + name + "]\n"
    case Entry(name, value) => name + " = " + value + "\n"
  }

  function PrintAll(items: seq<Item>): string {
    if items == [] then "" else Print(items[0]) + PrintAll(items[1..])
  }

  /** The section, name and value triples of a document. */
  function Triples(section: string, items: seq<Item>): seq<Call>
    decreases |items|
  {
    if items == [] then []
    else match items[0]
      case Header(name) => Triples(name, items[1..])
      case Entry(name, value) => [Call(section, name, value)] + Triples(section, items[1..])
  }

  lemma FindEndIs(s: string, chars: string, k: nat)
    requires k <= |s| && (k < |s| ==> StopsAt(s, chars, k))
    requires forall i :: 0 <= i < k ==> !StopsAt(s, chars, i)
    ensures FindEnd(s, chars) == k
  {
  }

  lemma TrimLeftIs(s: string, k: nat)
    requires k <= |s| && (k < |s| ==> !IsSpace(s[k])) && forall i :: 0 <= i < k ==> IsSpace(s[i])
    ensures TrimLeft(s) == s[k..]
  {
  }

  lemma TrimRightIs(s: string, k: nat)
    requires k <= |s| && (k > 0 ==> !IsSpace(s[k - 1])) && forall i :: k <= i < |s| ==> IsSpace(s[i])
    ensures TrimRight(s) == s[..k]
  {
  }

  lemma HeaderBody(name: string)
    requires Canonical(Header(name))
    ensures ClassifySection("[" + name + "]") == Section(name)
  {
    var body := "[" + name + "]";
    var s := body[1..];
    assert s == name + "]";
    FindEndIs(s, "]", |name|);
    assert body[1..1 + |name|] == name;
  }

  lemma HeaderTrimmed(name: string)
    ensures var text := Print(Header(name)); TrimLeft(text) == text && TrimRight(text) == "[" + name + "]"
  {
    var text := Print(Header(name));
    TrimLeftIs(text, 0);
    assert text[0..] == text;
    TrimRightIs(text, |text| - 1);
    assert text[..|text| - 1] == "[" + name + "]";
  }

  lemma HeaderForm(prevName: string, lineno: nat, name: string)
    requires Canonical(Header(name))
    ensures FormOfText(prevName, lineno, Print(Header(name))) == Section(name)
  {
    var text := Print(Header(name));
    assert text[0] != BOM[0];
    HeaderTrimmed(name);
    HeaderBody(name);
  }

  /** The text of an entry without its newline, nor the blank an empty value leaves at the end. */
  function EntryBody(name: string, value: string): string {
    if value == [] then name + " =" else name + " = " + value
  }

  lemma EntryName(name: string, value: string)
    requires Canonical(Entry(name, value))
    ensures var body := EntryBody(name, value); FindEnd(body, "=:") == |name| + 1
    ensures var body := EntryBody(name, value); TrimRight(body[..|name| + 1]) == name
  {
    var body := EntryBody(name, value);
    assert body[|name| + 1] == '=' && body[|name|] == ' ' && body[..|name|] == name;
    forall i | 0 <= i < |name| + 1
      ensures !StopsAt(body, "=:", i)
    {
      if i < |name| {
        assert body[i] == name[i];
        assert i > 0 ==> body[i - 1] == name[i - 1];
      }
    }
    FindEndIs(body, "=:", |name| + 1);
    TrimRightIs(body[..|name| + 1], |name|);
    assert body[..|name| + 1][..|name|] == name;
  }

  lemma EntryValue(name: string, value: string)
    requires Canonical(Entry(name, value))
    ensures var body := EntryBody(name, value);
      TrimRight(TrimLeft(WithoutComment(body[|name| + 2..]))) == value
  {
    var rest := EntryBody(name, value)[|name| + 2..];
    if value == [] {
      assert rest == [];
    } else {
      assert rest == " " + value;
      forall i | 0 <= i < |rest|
        ensures !StopsAt(rest, "", i)
      {
        assert i > 1 ==> rest[i] == value[i - 1] && rest[i - 1] == value[i - 2];
      }
      FindEndIs(rest, "", |rest|);
      assert rest[..|rest|] == rest;
      TrimLeftIs(rest, 1);
      assert rest[1..] == value;
      TrimRightIs(value, |value|);
      assert value[..|value|] == value;
    }
  }

  lemma EntryTrimmed(name: string, value: string)
    requires Canonical(Entry(name, value))
    ensures var text := Print(Entry(name, value)); TrimLeft(text) == text && TrimRight(text) == EntryBody(name, value)
  {
    var text := Print(Entry(name, value));
    assert text[0] == name[0];
    TrimLeftIs(text, 0);
    assert text[0..] == text;
    var body := EntryBody(name, value);
    assert text[..|body|] == body;
    assert value != [] ==> text[|body| - 1] == value[|value| - 1];
    TrimRightIs(text, |body|);
  }

  lemma EntryHasNoBom(name: string, value: string)
    requires Canonical(Entry(name, value))
    ensures !(BOM <= Print(Entry(name, value)))
  {
    var text := Print(Entry(name, value));
    assert text[..|name|] == name && text[|name|] == ' ';
    assert |name| >= 3 ==> text[..3] == name[..3];
    assert |name| < 3 ==> text[|name|] != BOM[|name|];
  }

  lemma EntryClassified(name: string, value: string)
    requires Canonical(Entry(name, value))
    ensures ClassifyPair(EntryBody(name, value)) == Pair(name, value)
  {
    EntryName(name, value);
    EntryValue(name, value);
    assert EntryBody(name, value)[|name| + 1] == '=';
  }

  lemma EntryForm(prevName: string, lineno: nat, name: string, value: string)
    requires Canonical(Entry(name, value))
    ensures FormOfText(prevName, lineno, Print(Entry(name, value))) == Pair(name, value)
  {
    EntryHasNoBom(name, value);
    EntryTrimmed(name, value);
    EntryClassified(name, value);
    assert EntryBody(name, value)[0] == name[0];
  }

  function FormOfItem(item: Item): Line {
    match item
    case Header(name) => Section(name)
    case Entry(name, value) => Pair(name, value)
  }

  lemma PrintedForm(prevName: string, lineno: nat, item: Item)
    requires Canonical(item)
    ensures FormOfText(prevName, lineno, Print(item)) == FormOfItem(item)
  {
    match item {
      case Header(name) => HeaderForm(prevName, lineno, name);
      case Entry(name, value) => EntryForm(prevName, lineno, name, value);
    }
  }

  lemma ParseText(st: State, text: string, form: Line, handler: Handler)
    requires FormOfText(st.prevName, st.lineno + 1, text) == form
    ensures ParseUnit(st, Unit(text, false), handler) == Apply(st.(lineno := st.lineno + 1), form, handler)
  {
  }

  /** A printed item is one unit, which parses to the item whatever the state. */
  lemma PrintedItem(st: State, item: Item, handler: Handler)
    requires Canonical(item)
    ensures ParseUnit(st, Unit(Print(item), false), handler) == ApplyItem(st, item, handler)
  {
    PrintedForm(st.prevName, st.lineno + 1, item);
    ParseText(st, Print(item), FormOfItem(item), handler);
  }

  /** A line that fits the buffer and has no NUL is a unit. */
  lemma LineIsUnit(line: string, rest: string)
    requires 0 < |line| < MAX_LINE && line[|line| - 1] == '\n' && NUL !in line
    requires forall i :: 0 <= i < |line| - 1 ==> line[i] != '\n'
    ensures UnitsOf(line + rest) == [Unit(line, false)] + UnitsOf(rest)
  {
    var s, n := line + rest, |line|;
    LineLengthIs(s, n);
    assert s[..n] == line && s[n..] == rest;
    WholeText(line);
    UnitIs(s, line);
  }

  lemma WholeText(line: string)
    requires NUL !in line
    ensures CText(line) == line
  {
    CTextStops(line, |line|);
    assert line[..|line|] == line;
  }

  lemma UnitIs(s: string, line: string)
    requires s != [] && LineLength(s) == |line| < MAX_LINE && s[..|line|] == line && CText(line) == line
    requires line[|line| - 1] == '\n'
    ensures UnitLength(s) == |line| && UnitOf(s) == Unit(line, false)
  {
    assert FirstText(s) == line;
  }

  lemma PrintedUnit(item: Item, rest: string)
    requires Canonical(item)
    ensures UnitsOf(Print(item) + rest) == [Unit(Print(item), false)] + UnitsOf(rest)
  {
    var line := Print(item);
    assert line[|line| - 1] == '\n';
    forall i | 0 <= i < |line| - 1
      ensures line[i] != '\n' && line[i] != NUL
    {
      PrintedClean(item, i);
    }
    LineIsUnit(line, rest);
  }

  lemma PrintedClean(item: Item, i: nat)
    requires Canonical(item) && i < |Print(item)| - 1
    ensures Print(item)[i] != '\n' && Print(item)[i] != NUL
  {
    match item {
      case Header(name) =>
        assert 0 < i < |name| + 1 ==> Print(item)[i] == name[i - 1];
      case Entry(name, value) =>
        assert i < |name| ==> Print(item)[i] == name[i];
        assert i >= |name| + 3 ==> Print(item)[i] == value[i - |name| - 3];
    }
  }

  ghost predicate AllCanonical(items: seq<Item>) {
    forall i :: 0 <= i < |items| ==> Canonical(items[i])
  }

  /** The handler accepts each of `calls`, made one after the other after those in `before`. */
  predicate Accepts(handler: Handler, before: seq<Call>, calls: seq<Call>)
    decreases |calls|
  {
    calls != [] ==> handler(before + [calls[0]]) && Accepts(handler, before + [calls[0]], calls[1..])
  }

  function ApplyItem(st: State, item: Item, handler: Handler): State {
    Apply(st.(lineno := st.lineno + 1), FormOfItem(item), handler)
  }

  function ApplyItems(st: State, items: seq<Item>, handler: Handler): State
    decreases |items|
  {
    if items == [] then st else ApplyItems(ApplyItem(st, items[0], handler), items[1..], handler)
  }

  lemma UnitThen(st: State, text: string, unit: Unit, rest: string, handler: Handler)
    requires UnitsOf(text) == [unit] + UnitsOf(rest)
    ensures ParseUnits(st, UnitsOf(text), handler) == ParseUnits(ParseUnit(st, unit, handler), UnitsOf(rest), handler)
  {
    assert UnitsOf(text)[1..] == UnitsOf(rest);
  }

  /** Printed items, and whatever follows them. */
  lemma {:induction false} PrintedThen(st: State, items: seq<Item>, rest: string, handler: Handler)
    requires AllCanonical(items)
    ensures ParseUnits(st, UnitsOf(PrintAll(items) + rest), handler) ==
            ParseUnits(ApplyItems(st, items, handler), UnitsOf(rest), handler)
    decreases |items|
  {
    if items == [] {
      assert "" + rest == rest;
    } else {
      var item, tail := items[0], PrintAll(items[1..]) + rest;
      assert PrintAll(items) + rest == Print(item) + tail;
      PrintedUnit(item, tail);
      UnitThen(st, Print(item) + tail, Unit(Print(item), false), tail, handler);
      PrintedItem(st, item, handler);
      PrintedThen(ApplyItem(st, item, handler), items[1..], rest, handler);
    }
  }

  lemma {:induction false} ItemsReport(st: State, items: seq<Item>, handler: Handler)
    requires AllCanonical(items)
    ensures var st', triples := ApplyItems(st, items, handler), Triples(st.section, items);
      && st'.calls == st.calls + triples
      && (st'.error == 0 <==> st.error == 0 && Accepts(handler, st.calls, triples))
    decreases |items|
  {
    if items != [] {
      var next := ApplyItem(st, items[0], handler);
      ItemReport(st, items[0], handler);
      ItemsReport(next, items[1..], handler);
      if items[0].Entry? {
        var call, rest := Call(st.section, items[0].name, items[0].value), Triples(st.section, items[1..]);
        AcceptsCons(handler, st.calls, call, rest);
        assert st.calls + [call] + rest == st.calls + ([call] + rest);
      }
    }
  }

  lemma AcceptsCons(handler: Handler, before: seq<Call>, call: Call, rest: seq<Call>)
    ensures Accepts(handler, before, [call] + rest) <==>
            handler(before + [call]) && Accepts(handler, before + [call], rest)
  {
    assert ([call] + rest)[1..] == rest;
  }

  lemma ItemReport(st: State, item: Item, handler: Handler)
    requires Canonical(item)
    ensures var next := ApplyItem(st, item, handler);
      match item
      case Header(name) => next.section == name && next.calls == st.calls && next.error == st.error
      case Entry(name, value) =>
        var call := Call(st.section, name, value);
        && next.section == st.section && next.calls == st.calls + [call]
        && (next.error == 0 <==> st.error == 0 && handler(st.calls + [call]))
  {
  }

  /** Parsing a printed document calls the handler with exactly its triples in order, and returns 0
      exactly when the handler accepts them all. */
  lemma PrintedRoundTrip(items: seq<Item>, handler: Handler)
    requires AllCanonical(items)
    ensures var st := Parse(PrintAll(items), handler);
      && st.calls == Triples("", items)
      && (st.error == 0 <==> Accepts(handler, [], Triples("", items)))
  {
    PrintedThen(START, items, "", handler);
    assert PrintAll(items) + "" == PrintAll(items);
    ItemsReport(START, items, handler);
  }

  /** Printed documents have no NUL, so their units are their lines. */
  lemma {:induction false} PrintedHasNoNul(items: seq<Item>)
    requires AllCanonical(items)
    ensures NUL !in PrintAll(items)
  {
    if items != [] {
      PrintedHasNoNul(items[1..]);
      var p := Print(items[0]);
      forall i | 0 <= i < |p|
        ensures p[i] != NUL
      {
        if i < |p| - 1 {
          PrintedClean(items[0], i);
        }
      }
    }
  }

  // ----- a continued entry is two calls -----

  /** What a continuation line can hold. */
  predicate CanContinue(value: string) {
    Clean(value) && Trimmed(value) && value != [] && value[0] != ';' && value[0] != '#' && |value| + 2 < MAX_LINE
  }

  function Indent(value: string): string {
    " " + value + "\n"
  }

  lemma IndentTrimmed(value: string)
    requires CanContinue(value)
    ensures TrimLeft(Indent(value)) == value + "\n" && TrimRight(value + "\n") == value
    ensures TrimRight(WithoutComment(value)) == value
  {
    var line := Indent(value);
    assert line[1] == value[0];
    TrimLeftIs(line, 1);
    assert line[1..] == value + "\n";
    TrimRightIs(value + "\n", |value|);
    FindEndIs(value, "", |value|);
    assert value[..|value|] == value;
    TrimRightIs(value, |value|);
  }

  lemma IndentForm(st: State, value: string)
    requires CanContinue(value) && st.prevName != "" && st.lineno > 0
    ensures FormOf(st, Unit(Indent(value), false)) == Continuation(value)
  {
    IndentTrimmed(value);
    assert |value + "\n"| < |Indent(value)|;
  }

  lemma IndentUnit(value: string)
    requires CanContinue(value)
    ensures UnitsOf(Indent(value)) == [Unit(Indent(value), false)]
  {
    var line := Indent(value);
    assert forall i :: 0 < i < |line| - 1 ==> line[i] == value[i - 1];
    LineIsUnit(line, "");
    assert line + "" == line;
  }

  /** An indented line under printed items is one more call, with the section and the name they end with. */
  lemma ItemsContinued(items: seq<Item>, more: string, handler: Handler)
    requires AllCanonical(items) && items != [] && CanContinue(more)
    requires ApplyItems(START, items, handler).prevName != ""
    ensures var st := ApplyItems(START, items, handler);
      Parse(PrintAll(items) + Indent(more), handler).calls ==
      Triples("", items) + [Call(st.section, st.prevName, more)]
  {
    var st := ApplyItems(START, items, handler);
    ItemsThenLine(items, more, handler);
    ItemsEndIn(items, handler);
    ContinuedCalls(st, more, handler);
  }

  lemma ItemsEndIn(items: seq<Item>, handler: Handler)
    requires AllCanonical(items)
    ensures var st := ApplyItems(START, items, handler); st.calls == Triples("", items) && st.lineno == |items|
  {
    ItemsReport(START, items, handler);
    ItemsCounted(START, items, handler);
  }

  lemma ItemsThenLine(items: seq<Item>, more: string, handler: Handler)
    requires AllCanonical(items) && CanContinue(more)
    ensures Parse(PrintAll(items) + Indent(more), handler) ==
            ParseUnit(ApplyItems(START, items, handler), Unit(Indent(more), false), handler)
  {
    PrintedThen(START, items, Indent(more), handler);
    IndentUnit(more);
    OneUnit(ApplyItems(START, items, handler), Unit(Indent(more), false), handler);
  }

  lemma OneUnit(st: State, unit: Unit, handler: Handler)
    ensures ParseUnits(st, [unit], handler) == ParseUnit(st, unit, handler)
  {
    assert [unit][1..] == [];
  }

  lemma {:induction false} ItemsCounted(st: State, items: seq<Item>, handler: Handler)
    ensures ApplyItems(st, items, handler).lineno == st.lineno + |items|
    decreases |items|
  {
    if items != [] {
      ItemsCounted(ApplyItem(st, items[0], handler), items[1..], handler);
    }
  }

  lemma ContinuedCalls(st: State, more: string, handler: Handler)
    requires CanContinue(more) && st.prevName != "" && st.lineno > 0
    ensures ParseUnit(st, Unit(Indent(more), false), handler).calls ==
            st.calls + [Call(st.section, st.prevName, more)]
  {
    IndentForm(st, more);
    ParseForm(st, Unit(Indent(more), false), Continuation(more), handler);
  }

  function EntryItems(section: string, name: string, value: string): seq<Item> {
    [Header(section), Entry(name, value)]
  }

  lemma EntryState(section: string, name: string, value: string, handler: Handler)
    requires |section| < MAX_NAME && |name| < MAX_NAME
    ensures var st := ApplyItems(START, EntryItems(section, name, value), handler);
      st.section == section && st.prevName == name
    ensures Triples("", EntryItems(section, name, value)) == [Call(section, name, value)]
  {
    var items := EntryItems(section, name, value);
    assert items[1..] == [Entry(name, value)] && items[1..][1..] == [];
    var st := ApplyItem(START, items[0], handler);
    assert ApplyItems(st, items[1..], handler) == ApplyItem(st, items[1], handler);
    assert Triples(section, [Entry(name, value)]) == [Call(section, name, value)];
    assert Triples("", items) == Triples(section, items[1..]);
  }

  /** An entry and an indented line under it are two calls with one name. */
  lemma EntryContinued(section: string, name: string, value: string, more: string, handler: Handler)
    requires AllCanonical(EntryItems(section, name, value)) && name != "" && |name| < MAX_NAME && CanContinue(more)
    ensures Parse(PrintAll(EntryItems(section, name, value)) + Indent(more), handler).calls ==
            [Call(section, name, value), Call(section, name, more)]
  {
    var items := EntryItems(section, name, value);
    EntryState(section, name, value, handler);
    ItemsContinued(items, more, handler);
    var first, second := Call(section, name, value), Call(section, name, more);
    assert Triples("", items) + [second] == [first, second];
    assert Parse(PrintAll(items) + Indent(more), handler).calls == Triples("", items) + [second];
  }

  lemma EntryPrinted(section: string, name: string, value: string)
    ensures PrintAll(EntryItems(section, name, value)) == Print(Header(section)) + Print(Entry(name, value))
  {
    var items := EntryItems(section, name, value);
    assert items[1..] == [Entry(name, value)] && items[1..][1..] == [];
    assert PrintAll([Entry(name, value)]) == Print(Entry(name, value));
  }
}
