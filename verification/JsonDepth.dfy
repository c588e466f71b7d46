/**
 The two depth bounds on protocol JSON: a bracket scanner that runs over the text before it is
 parsed, and the structural check that canonicalization makes of the parsed value. Texts follow
 the grammar of RFC 8259: white space anywhere between tokens (section 2), strings with the
 escapes of section 7.
 */
module JsonDepth {
  import opened Outcomes
  import Records

  const MAX_JSON_DEPTH: int := 100

  // ---------------------------------------------------------------- texts

  /** One element of a string token: a plain character, a two-character escape or `\uXXXX`. */
  datatype StringItem = Plain(c: char) | Escape(c: char) | Unicode(hex: string)

  datatype Json =
    | Null
    | Bool(b: bool)
    | Number(text: string, integer: Option<int>)   // `None` is a number that is not an integer
    | Str(items: seq<StringItem>)
    | Arr(inside: string, elements: Elements)
    | Obj(inside: string, members: Members)

  /** Values with the white space around each. */
  datatype Elements = NoElement | Element(lead: string, value: Json, trail: string, rest: Elements)

  datatype Members = NoMember | Member(before: string, key: seq<StringItem>, after: string,
                                       lead: string, value: Json, trail: string, rest: Members)

  predicate Space(s: string) {
    forall i :: 0 <= i < |s| ==> s[i] in " \t\n\r"
  }

  predicate ItemOk(item: StringItem) {
    match item
    case Plain(c) => c != '"' && c != '\\'
    case Escape(c) => c in "\"\\/bfnrt"
    case Unicode(hex) => |hex| == 4 && forall i :: 0 <= i < 4 ==> HexDigit(hex[i])
  }

  predicate HexDigit(c: char) { '0' <= c <= '9' || 'a' <= c <= 'f' || 'A' <= c <= 'F' }

  predicate ItemsOk(items: seq<StringItem>) {
    forall i :: 0 <= i < |items| ==> ItemOk(items[i])
  }

  predicate NumberText(s: string) {
    forall i :: 0 <= i < |s| ==> s[i] in "0123456789+-.eE"
  }

  /** The text is one the grammar allows, token by token. */
  predicate WellFormed(v: Json) {
    match v
    case Null => true
    case Bool(_) => true
    case Number(text, _) => NumberText(text)
    case Str(items) => ItemsOk(items)
    case Arr(inside, elements) => Space(inside) && ElementsWellFormed(elements)
    case Obj(inside, members) => Space(inside) && MembersWellFormed(members)
  }

  predicate ElementsWellFormed(es: Elements) {
    match es
    case NoElement => true
    case Element(lead, value, trail, rest) =>
      Space(lead) && WellFormed(value) && Space(trail) && ElementsWellFormed(rest)
  }

  predicate MembersWellFormed(ms: Members) {
    match ms
    case NoMember => true
    case Member(before, key, after, lead, value, trail, rest) =>
      && Space(before) && ItemsOk(key) && Space(after)
      && Space(lead) && WellFormed(value) && Space(trail) && MembersWellFormed(rest)
  }

  function PrintItem(item: StringItem): string {
    match item
    case Plain(c) => [c]
    case Escape(c) => ['\\', c]
    case Unicode(hex) => ['\\', 'u'] + hex
  }

  function PrintItems(items: seq<StringItem>): string {
    if items == [] then "" else PrintItem(items[0]) + PrintItems(items[1..])
  }

  function PrintString(items: seq<StringItem>): string { ['"'] + PrintItems(items) + ['"'] }

  function Print(v: Json): string {
    match v
    case Null => "null"
    case Bool(b) => if b then "true" else "false"
    case Number(text, _) => text
    case Str(items) => PrintString(items)
    case Arr(inside, elements) => ['['] + (inside + PrintElements(elements)) + [']']
    case Obj(inside, members) => ['{'] + (inside + PrintMembers(members)) + ['}']
  }

  function PrintElements(es: Elements): string {
    match es
    case NoElement => ""
    case Element(lead, value, trail, rest) =>
      (lead + Print(value) + trail) + ((if rest.NoElement? then "" else ",") + PrintElements(rest))
  }

  function PrintMembers(ms: Members): string {
    match ms
    case NoMember => ""
    case Member(before, key, after, lead, value, trail, rest) =>
      (before + PrintString(key) + (after + [':']))
      + ((lead + Print(value) + trail) + ((if rest.NoMember? then "" else ",") + PrintMembers(rest)))
  }

  // ---------------------------------------------------------------- structural depth

  function Max(a: nat, b: nat): nat { if a > b then a else b }

  /** Levels of nested arrays and objects. */
  function Depth(v: Json): nat {
    match v
    case Arr(_, elements) => 1 + ElementsDepth(elements)
    case Obj(_, members) => 1 + MembersDepth(members)
    case _ => 0
  }

  function ElementsDepth(es: Elements): nat {
    match es
    case NoElement => 0
    case Element(_, value, _, rest) => Max(Depth(value), ElementsDepth(rest))
  }

  function MembersDepth(ms: Members): nat {
    match ms
    case NoMember => 0
    case Member(_, _, _, _, value, _, rest) => Max(Depth(value), MembersDepth(rest))
  }

  // ---------------------------------------------------------------- the scanner

  datatype ScanState = Scanning(depth: int, inString: bool, escaped: bool) | TooDeep

  function ScanChar(s: ScanState, c: char): ScanState {
    match s
    case TooDeep => TooDeep
    case Scanning(depth, inString, escaped) =>
      if inString then
        if escaped then s.(escaped := false)
        else if c == '\\' then s.(escaped := true)
        else if c == '"' then s.(inString := false)
        else s
      else if c == '"' then s.(inString := true)
      else if c == '{' || c == '[' then if depth + 1 > MAX_JSON_DEPTH then TooDeep else s.(depth := depth + 1)
      else if c == '}' || c == ']' then s.(depth := if depth >= 1 then depth - 1 else 0)
      else s
  }

  function Scan(s: ScanState, text: string): ScanState
    decreases |text|
  {
    if text == "" then s else Scan(ScanChar(s, text[0]), text[1..])
  }

  /** The iterative bracket scan over a text. */
  method CheckJsonDepth(raw: string) returns (ok: bool)
    ensures ok <==> Scan(Scanning(0, false, false), raw) != TooDeep
  {
    var depth, inString, escaped := 0, false, false;
    for i := 0 to |raw|
      invariant Scan(Scanning(0, false, false), raw) == Scan(Scanning(depth, inString, escaped), raw[i..])
    {
      var c := raw[i];
      assert raw[i..][0] == c && raw[i..][1..] == raw[i + 1..];
      if inString {
        if escaped {
          escaped := false;
        } else if c == '\\' {
          escaped := true;
        } else if c == '"' {
          inString := false;
        }
      } else if c == '"' {
        inString := true;
      } else if c == '{' || c == '[' {
        depth := depth + 1;
        if depth > MAX_JSON_DEPTH {
          StuckTooDeep(raw[i + 1..]);
          return false;
        }
      } else if c == '}' || c == ']' {
        depth := if depth - 1 > 0 then depth - 1 else 0;
      }
    }
    ok := true;
  }

  lemma {:induction false} StuckTooDeep(text: string)
    ensures Scan(TooDeep, text) == TooDeep
    decreases |text|
  {
    if text != "" { StuckTooDeep(text[1..]); }
  }

  lemma {:induction false} ScanConcat(s: ScanState, a: string, b: string)
    ensures Scan(s, a + b) == Scan(Scan(s, a), b)
    decreases |a|
  {
    if a == "" {
      assert a + b == b;
    } else {
      assert (a + b)[1..] == a[1..] + b;
      ScanConcat(ScanChar(s, a[0]), a[1..], b);
    }
  }

  // ---------------------------------------------------------------- the scanner over printed texts

  /** Outside a string, at a depth within the bound. */
  function At(depth: nat): ScanState { Scanning(depth, false, false) }

  /** What scanning something of the given nesting comes to: back to the same depth, or a refusal. */
  function Passed(depth: nat, nesting: nat): ScanState {
    if depth + nesting > MAX_JSON_DEPTH then TooDeep else At(depth)
  }

  predicate Inert(text: string) {
    forall i :: 0 <= i < |text| ==> text[i] != '"' && text[i] !in "{}[]"
  }

  lemma {:induction false} ScanInert(text: string, depth: nat)
    requires Inert(text)
    ensures Scan(At(depth), text) == At(depth)
    decreases |text|
  {
    if text != "" {
      assert Inert(text[1..]);
      ScanInert(text[1..], depth);
    }
  }

  lemma {:induction false} ScanPlainInside(text: string, depth: nat)
    requires forall i :: 0 <= i < |text| ==> text[i] != '"' && text[i] != '\\'
    ensures Scan(Scanning(depth, true, false), text) == Scanning(depth, true, false)
    decreases |text|
  {
    if text != "" { ScanPlainInside(text[1..], depth); }
  }

  lemma ScanTwo(s: ScanState, a: char, b: char)
    ensures Scan(s, [a, b]) == ScanChar(ScanChar(s, a), b)
  {
    assert [a, b][1..] == [b] && [b][1..] == "";
    assert Scan(ScanChar(s, a), [b]) == ScanChar(ScanChar(s, a), b);
  }

  lemma HexIsPlain(hex: string)
    requires ItemOk(Unicode(hex))
    ensures forall i :: 0 <= i < |hex| ==> hex[i] != '"' && hex[i] != '\\'
  {
  }

  lemma ScanItem(item: StringItem, depth: nat)
    requires ItemOk(item)
    ensures Scan(Scanning(depth, true, false), PrintItem(item)) == Scanning(depth, true, false)
  {
    var s := Scanning(depth, true, false);
    match item
    case Plain(c) => assert [c][1..] == "";
    case Escape(c) => ScanTwo(s, '\\', c);
    case Unicode(hex) =>
      HexIsPlain(hex);
      ScanConcat(s, ['\\', 'u'], hex);
      ScanTwo(s, '\\', 'u');
      ScanPlainInside(hex, depth);
  }

  /** Escapes keep quotes and backslashes inside a string from ending it. */
  lemma {:induction false} ScanItems(items: seq<StringItem>, depth: nat)
    requires ItemsOk(items)
    ensures Scan(Scanning(depth, true, false), PrintItems(items)) == Scanning(depth, true, false)
    decreases |items|
  {
    hide ItemOk, PrintItem;
    if items != [] {
      ScanItem(items[0], depth);
      ScanConcat(Scanning(depth, true, false), PrintItem(items[0]), PrintItems(items[1..]));
      ScanItems(items[1..], depth);
    }
  }

  lemma ScanString(items: seq<StringItem>, depth: nat)
    requires ItemsOk(items)
    ensures Scan(At(depth), PrintString(items)) == At(depth)
  {
    hide PrintItems;
    var body := PrintItems(items);
    ScanConcat(At(depth), ['"'] + body, ['"']);
    ScanConcat(At(depth), ['"'], body);
    assert ['"'][1..] == "";
    ScanItems(items, depth);
  }

  /** A piece between two inert pieces. */
  lemma ScanAround(before: string, piece: string, after: string, depth: nat, result: ScanState)
    requires Inert(before) && Inert(after) && Scan(At(depth), piece) == result
    requires result == At(depth) || result == TooDeep
    ensures Scan(At(depth), before + piece + after) == result
  {
    hide Inert;
    ScanConcat(At(depth), before + piece, after);
    ScanConcat(At(depth), before, piece);
    ScanInert(before, depth);
    if result == TooDeep { StuckTooDeep(after); } else { ScanInert(after, depth); }
  }

  lemma SpaceInert(s: string)
    requires Space(s)
    ensures Inert(s)
  {
  }

  lemma NumberInert(s: string)
    requires NumberText(s)
    ensures Inert(s)
  {
  }

  /** Brackets around contents one level deeper. */
  lemma ScanBrackets(open: char, inside: string, contents: string, close: char, depth: nat, nesting: nat)
    requires depth <= MAX_JSON_DEPTH
    requires (open == '[' && close == ']') || (open == '{' && close == '}')
    requires Space(inside)
    requires depth + 1 <= MAX_JSON_DEPTH ==> Scan(At(depth + 1), contents) == Passed(depth + 1, nesting)
    ensures Scan(At(depth), [open] + (inside + contents) + [close]) == Passed(depth, nesting + 1)
  {
    hide Space;
    var rest := inside + contents;
    ScanConcat(At(depth), [open] + rest, [close]);
    ScanConcat(At(depth), [open], rest);
    assert [open][1..] == "" && [close][1..] == "";
    if depth + 1 > MAX_JSON_DEPTH {
      StuckTooDeep(rest);
      StuckTooDeep([close]);
    } else {
      SpaceInert(inside);
      ScanConcat(At(depth + 1), inside, contents);
      ScanInert(inside, depth + 1);
      if depth + 1 + nesting > MAX_JSON_DEPTH { StuckTooDeep([close]); }
    }
  }

  lemma JoinPassed(a: string, b: string, depth: nat, m: nat, n: nat)
    requires depth <= MAX_JSON_DEPTH
    requires Scan(At(depth), a) == Passed(depth, m) && Scan(At(depth), b) == Passed(depth, n)
    ensures Scan(At(depth), a + b) == Passed(depth, Max(m, n))
  {
    ScanConcat(At(depth), a, b);
    if depth + m > MAX_JSON_DEPTH { StuckTooDeep(b); }
  }

  /** Scanning the text of a value reaches exactly its structural depth: it returns to the depth
      it started from, or it refuses, and it refuses exactly when the bound is exceeded. */
  lemma {:induction false} ScanValue(v: Json, depth: nat)
    requires WellFormed(v) && depth <= MAX_JSON_DEPTH
    ensures Scan(At(depth), Print(v)) == Passed(depth, Depth(v))
    decreases v
  {
    hide Scan, PrintString, ItemsOk, Space, NumberText, Inert;
    match v
    case Null => assert Inert("null") by { InertWords(); } ScanInert("null", depth);
    case Bool(b) => InertWords(); if b { ScanInert("true", depth); } else { ScanInert("false", depth); }
    case Number(text, _) => NumberInert(text); ScanInert(text, depth);
    case Str(items) => ScanString(items, depth);
    case Arr(inside, elements) =>
      if depth + 1 <= MAX_JSON_DEPTH { ScanElements(elements, depth + 1); }
      ScanBrackets('[', inside, PrintElements(elements), ']', depth, ElementsDepth(elements));
    case Obj(inside, members) =>
      if depth + 1 <= MAX_JSON_DEPTH { ScanMembers(members, depth + 1); }
      ScanBrackets('{', inside, PrintMembers(members), '}', depth, MembersDepth(members));
  }

  lemma InertWords()
    ensures Inert("null") && Inert("true") && Inert("false") && Inert(",") && Inert("") && Inert([':'])
  {
  }

  lemma InertConcat(a: string, b: string)
    requires Inert(a) && Inert(b)
    ensures Inert(a + b)
  {
  }

  lemma {:induction false} ScanElements(es: Elements, depth: nat)
    requires ElementsWellFormed(es) && depth <= MAX_JSON_DEPTH
    ensures Scan(At(depth), PrintElements(es)) == Passed(depth, ElementsDepth(es))
    decreases es
  {
    hide Scan, Print, Space, Inert;
    InertWords();
    match es
    case NoElement => ScanInert("", depth);
    case Element(lead, value, trail, rest) =>
      ScanValue(value, depth);
      SpaceInert(lead);
      SpaceInert(trail);
      ScanAround(lead, Print(value), trail, depth, Passed(depth, Depth(value)));
      ScanElements(rest, depth);
      var comma := if rest.NoElement? then "" else ",";
      ScanInert(comma, depth);
      JoinPassed(comma, PrintElements(rest), depth, 0, ElementsDepth(rest));
      JoinPassed(lead + Print(value) + trail, comma + PrintElements(rest), depth, Depth(value), ElementsDepth(rest));
  }

  lemma {:induction false} ScanMembers(ms: Members, depth: nat)
    requires MembersWellFormed(ms) && depth <= MAX_JSON_DEPTH
    ensures Scan(At(depth), PrintMembers(ms)) == Passed(depth, MembersDepth(ms))
    decreases ms
  {
    hide Scan, Print, Space, Inert, PrintString, ItemsOk;
    InertWords();
    match ms
    case NoMember => ScanInert("", depth);
    case Member(before, key, after, lead, value, trail, rest) =>
      SpaceInert(before);
      SpaceInert(after);
      InertConcat(after, [':']);
      ScanString(key, depth);
      ScanAround(before, PrintString(key), after + [':'], depth, At(depth));
      ScanValue(value, depth);
      SpaceInert(lead);
      SpaceInert(trail);
      ScanAround(lead, Print(value), trail, depth, Passed(depth, Depth(value)));
      ScanMembers(rest, depth);
      var comma := if rest.NoMember? then "" else ",";
      ScanInert(comma, depth);
      JoinPassed(comma, PrintMembers(rest), depth, 0, MembersDepth(rest));
      var tail := (lead + Print(value) + trail) + (comma + PrintMembers(rest));
      JoinPassed(lead + Print(value) + trail, comma + PrintMembers(rest), depth, Depth(value), MembersDepth(rest));
      JoinPassed(before + PrintString(key) + (after + [':']), tail, depth, 0, MembersDepth(ms));
  }

  // ---------------------------------------------------------------- the structural check

  datatype Verdict = Accepted | DepthRefused | OtherRefused

  function Value(hex: string): int
    requires |hex| == 4
  {
    ((Digit(hex[0]) * 16 + Digit(hex[1])) * 16 + Digit(hex[2])) * 16 + Digit(hex[3])
  }

  function Digit(c: char): int {
    if '0' <= c <= '9' then c as int - '0' as int
    else if 'a' <= c <= 'f' then c as int - 'a' as int + 10
    else if 'A' <= c <= 'F' then c as int - 'A' as int + 10
    else 0
  }

  predicate HighSurrogate(n: int) { 0xD800 <= n <= 0xDBFF }

  predicate LowSurrogate(n: int) { 0xDC00 <= n <= 0xDFFF }

  /** The code unit an item stands for, if it is a `\uXXXX` escape. */
  function Unit(item: StringItem): Option<int> {
    if item.Unicode? && |item.hex| == 4 then Some(Value(item.hex)) else None
  }

  /** A parsed string holds a lone surrogate: the parser joins a high and a low escape that
      follow each other, and leaves every other surrogate escape as it is. */
  predicate LoneSurrogate(items: seq<StringItem>) {
    if items == [] then false
    else
      var unit := Unit(items[0]);
      if unit.Some? && HighSurrogate(unit.value) then
        if |items| > 1 && Unit(items[1]).Some? && LowSurrogate(Unit(items[1]).value) then LoneSurrogate(items[2..])
        else true
      else if unit.Some? && LowSurrogate(unit.value) then true
      else LoneSurrogate(items[1..])
  }

  ghost predicate High(items: seq<StringItem>, i: int) {
    0 <= i < |items| && Unit(items[i]).Some? && 0xD800 <= Unit(items[i]).value <= 0xDBFF
  }

  ghost predicate Low(items: seq<StringItem>, i: int) {
    0 <= i < |items| && Unit(items[i]).Some? && 0xDC00 <= Unit(items[i]).value <= 0xDFFF
  }

  /** A high surrogate escape with no low one after it, or a low one with no high one before it. */
  ghost predicate LoneAt(items: seq<StringItem>, i: int) {
    (High(items, i) && !Low(items, i + 1)) || (Low(items, i) && !High(items, i - 1))
  }

  /** A string is refused exactly for an escape that is not one half of a pair; pairs are clean. */
  lemma {:induction false} LoneSurrogateIff(items: seq<StringItem>)
    ensures LoneSurrogate(items) <==> exists i :: LoneAt(items, i)
    decreases |items|
  {
    hide Unit;
    if items != [] {
      var skip := if High(items, 0) && Low(items, 1) then 2 else 1;
      var rest := items[skip..];
      LoneSurrogateIff(rest);
      if !LoneAt(items, 0) {
        forall i
          ensures LoneAt(items, i) <==> LoneAt(rest, i - skip)
        {
          LoneInRest(items, skip, i);
        }
        if i :| LoneAt(items, i) { assert LoneAt(rest, i - skip); }
        if i :| LoneAt(rest, i) { assert LoneAt(items, i + skip); }
      }
    }
  }

  lemma LoneInRest(items: seq<StringItem>, skip: nat, i: int)
    requires items != [] && !LoneAt(items, 0) && skip == (if High(items, 0) && Low(items, 1) then 2 else 1)
    ensures LoneAt(items, i) <==> LoneAt(items[skip..], i - skip)
  {
    hide Unit;
  }

  predicate SafeInteger(integer: Option<int>) {
    integer.Some? && -Records.MAX_SAFE_INTEGER <= integer.value <= Records.MAX_SAFE_INTEGER
  }

  /** The canonicalization check, in the order it visits the value; the first refusal wins. */
  function Validate(v: Json, depth: int): Verdict {
    match v
    case Null => Accepted
    case Bool(_) => Accepted
    case Number(_, integer) => if SafeInteger(integer) then Accepted else OtherRefused
    case Str(items) => if LoneSurrogate(items) then OtherRefused else Accepted
    case Arr(_, elements) =>
      if depth + 1 > MAX_JSON_DEPTH then DepthRefused else ValidateElements(elements, depth + 1)
    case Obj(_, members) =>
      if depth + 1 > MAX_JSON_DEPTH then DepthRefused else ValidateMembers(members, depth + 1)
  }

  function ValidateElements(es: Elements, depth: int): Verdict {
    match es
    case NoElement => Accepted
    case Element(_, value, _, rest) =>
      var first := Validate(value, depth);
      if first != Accepted then first else ValidateElements(rest, depth)
  }

  function ValidateMembers(ms: Members, depth: int): Verdict {
    match ms
    case NoMember => Accepted
    case Member(_, key, _, _, value, _, rest) =>
      if LoneSurrogate(key) then OtherRefused
      else
        var first := Validate(value, depth);
        if first != Accepted then first else ValidateMembers(rest, depth)
  }

  /** Every number and string in the value is one canonicalization takes. */
  predicate CleanLeaves(v: Json) {
    match v
    case Null => true
    case Bool(_) => true
    case Number(_, integer) => SafeInteger(integer)
    case Str(items) => !LoneSurrogate(items)
    case Arr(_, elements) => CleanElements(elements)
    case Obj(_, members) => CleanMembers(members)
  }

  predicate CleanElements(es: Elements) {
    match es
    case NoElement => true
    case Element(_, value, _, rest) => CleanLeaves(value) && CleanElements(rest)
  }

  predicate CleanMembers(ms: Members) {
    match ms
    case NoMember => true
    case Member(_, key, _, _, value, _, rest) => !LoneSurrogate(key) && CleanLeaves(value) && CleanMembers(rest)
  }

  /** The structural check refuses for depth only values over the bound; accepts exactly clean
      values within it; and on clean values refuses for depth exactly those over it. */
  lemma {:induction false} ValidateExact(v: Json, depth: nat)
    requires depth <= MAX_JSON_DEPTH
    ensures Validate(v, depth) == DepthRefused ==> depth + Depth(v) > MAX_JSON_DEPTH
    ensures Validate(v, depth) == Accepted <==> CleanLeaves(v) && depth + Depth(v) <= MAX_JSON_DEPTH
    ensures CleanLeaves(v) ==> (Validate(v, depth) == DepthRefused <==> depth + Depth(v) > MAX_JSON_DEPTH)
    decreases v
  {
    hide LoneSurrogate;
    match v
    case Arr(_, elements) => if depth + 1 <= MAX_JSON_DEPTH { ElementsExact(elements, depth + 1); }
    case Obj(_, members) => if depth + 1 <= MAX_JSON_DEPTH { MembersExact(members, depth + 1); }
    case _ =>
  }

  lemma {:induction false} ElementsExact(es: Elements, depth: nat)
    requires depth <= MAX_JSON_DEPTH
    ensures ValidateElements(es, depth) == DepthRefused ==> depth + ElementsDepth(es) > MAX_JSON_DEPTH
    ensures ValidateElements(es, depth) == Accepted <==>
              CleanElements(es) && depth + ElementsDepth(es) <= MAX_JSON_DEPTH
    ensures CleanElements(es) ==>
              (ValidateElements(es, depth) == DepthRefused <==> depth + ElementsDepth(es) > MAX_JSON_DEPTH)
    decreases es
  {
    match es
    case NoElement =>
    case Element(_, value, _, rest) =>
      ValidateExact(value, depth);
      ElementsExact(rest, depth);
  }

  lemma {:induction false} MembersExact(ms: Members, depth: nat)
    requires depth <= MAX_JSON_DEPTH
    ensures ValidateMembers(ms, depth) == DepthRefused ==> depth + MembersDepth(ms) > MAX_JSON_DEPTH
    ensures ValidateMembers(ms, depth) == Accepted <==> CleanMembers(ms) && depth + MembersDepth(ms) <= MAX_JSON_DEPTH
    ensures CleanMembers(ms) ==>
              (ValidateMembers(ms, depth) == DepthRefused <==> depth + MembersDepth(ms) > MAX_JSON_DEPTH)
    decreases ms
  {
    hide LoneSurrogate;
    match ms
    case NoMember =>
    case Member(_, key, _, _, value, _, rest) =>
      ValidateExact(value, depth);
      MembersExact(rest, depth);
  }

  // ---------------------------------------------------------------- which refusal comes first

  /** How many values and keys the check would visit in all. */
  function Visits(v: Json): nat {
    match v
    case Arr(_, elements) => 1 + ElementVisits(elements)
    case Obj(_, members) => 1 + MemberVisits(members)
    case _ => 1
  }

  function ElementVisits(es: Elements): nat {
    match es
    case NoElement => 0
    case Element(_, value, _, rest) => Visits(value) + ElementVisits(rest)
  }

  function MemberVisits(ms: Members): nat {
    match ms
    case NoMember => 0
    case Member(_, _, _, _, value, _, rest) => 1 + Visits(value) + MemberVisits(rest)
  }

  /** A position counted from `offset` visits earlier. */
  function Later(offset: nat, at: Option<nat>): Option<nat> {
    if at.Some? then Some(offset + at.value) else None
  }

  /** The first position, when the second counts from the end of the first part. */
  function FirstOf(first: Option<nat>, offset: nat, second: Option<nat>): Option<nat> {
    if first.Some? then first else Later(offset, second)
  }

  /** The position, in visiting order, of the first array or object over the bound. */
  function DeepAt(v: Json, depth: nat): Option<nat> {
    match v
    case Arr(_, elements) => if depth + 1 > MAX_JSON_DEPTH then Some(0) else Later(1, DeepElement(elements, depth + 1))
    case Obj(_, members) => if depth + 1 > MAX_JSON_DEPTH then Some(0) else Later(1, DeepMember(members, depth + 1))
    case _ => None
  }

  function DeepElement(es: Elements, depth: nat): Option<nat> {
    match es
    case NoElement => None
    case Element(_, value, _, rest) => FirstOf(DeepAt(value, depth), Visits(value), DeepElement(rest, depth))
  }

  function DeepMember(ms: Members, depth: nat): Option<nat> {
    match ms
    case NoMember => None
    case Member(_, _, _, _, value, _, rest) =>
      Later(1, FirstOf(DeepAt(value, depth), Visits(value), DeepMember(rest, depth)))
  }

  /** The position, in visiting order, of the first number, string or key that is not clean. */
  function DirtyAt(v: Json): Option<nat> {
    match v
    case Arr(_, elements) => Later(1, DirtyElement(elements))
    case Obj(_, members) => Later(1, DirtyMember(members))
    case _ => if CleanLeaves(v) then None else Some(0)
  }

  function DirtyElement(es: Elements): Option<nat> {
    match es
    case NoElement => None
    case Element(_, value, _, rest) => FirstOf(DirtyAt(value), Visits(value), DirtyElement(rest))
  }

  function DirtyMember(ms: Members): Option<nat> {
    match ms
    case NoMember => None
    case Member(_, key, _, _, value, _, rest) =>
      if LoneSurrogate(key) then Some(0)
      else Later(1, FirstOf(DirtyAt(value), Visits(value), DirtyMember(rest)))
  }

  ghost predicate Before(a: Option<nat>, b: Option<nat>) { a.Some? && (b.None? || a.value < b.value) }

  /** The verdict that the two positions call for. */
  ghost predicate Decided(verdict: Verdict, deep: Option<nat>, dirty: Option<nat>) {
    && (verdict == DepthRefused <==> Before(deep, dirty))
    && (verdict == OtherRefused <==> Before(dirty, deep))
    && (verdict == Accepted <==> deep.None? && dirty.None?)
  }

  ghost predicate Inside(at: Option<nat>, visits: nat) { at.Some? ==> at.value < visits }

  lemma DecidedLater(verdict: Verdict, deep: Option<nat>, dirty: Option<nat>, offset: nat)
    requires Decided(verdict, deep, dirty)
    ensures Decided(verdict, Later(offset, deep), Later(offset, dirty))
  {
  }

  /** Two parts visited one after the other: the first refusal wins. */
  lemma DecidedBoth(first: Verdict, deep: Option<nat>, dirty: Option<nat>, visits: nat,
                    second: Verdict, deep': Option<nat>, dirty': Option<nat>)
    requires Decided(first, deep, dirty) && Inside(deep, visits) && Inside(dirty, visits)
    requires Decided(second, deep', dirty')
    ensures Decided(if first != Accepted then first else second,
                    FirstOf(deep, visits, deep'), FirstOf(dirty, visits, dirty'))
  {
  }

  /** For every value, clean or not: the structural check refuses for depth exactly when an array or
      object over the bound comes before everything that is not clean, and for another reason
      exactly when something that is not clean comes first. */
  lemma {:induction false} FirstRefusalWins(v: Json, depth: nat)
    requires depth <= MAX_JSON_DEPTH
    ensures Decided(Validate(v, depth), DeepAt(v, depth), DirtyAt(v))
    ensures Inside(DeepAt(v, depth), Visits(v)) && Inside(DirtyAt(v), Visits(v))
    decreases v
  {
    hide LoneSurrogate, SafeInteger;
    match v
    case Arr(_, elements) =>
      if depth + 1 <= MAX_JSON_DEPTH {
        FirstElementWins(elements, depth + 1);
        DecidedLater(Validate(v, depth), DeepElement(elements, depth + 1), DirtyElement(elements), 1);
      } else {
        DirtyInside(v);
      }
    case Obj(_, members) =>
      if depth + 1 <= MAX_JSON_DEPTH {
        FirstMemberWins(members, depth + 1);
        DecidedLater(Validate(v, depth), DeepMember(members, depth + 1), DirtyMember(members), 1);
      } else {
        DirtyInside(v);
      }
    case _ =>
  }

  lemma {:induction false} FirstElementWins(es: Elements, depth: nat)
    requires depth <= MAX_JSON_DEPTH
    ensures Decided(ValidateElements(es, depth), DeepElement(es, depth), DirtyElement(es))
    ensures Inside(DeepElement(es, depth), ElementVisits(es)) && Inside(DirtyElement(es), ElementVisits(es))
    decreases es
  {
    match es
    case NoElement =>
    case Element(_, value, _, rest) =>
      hide Decided;
      FirstRefusalWins(value, depth);
      FirstElementWins(rest, depth);
      DecidedBoth(Validate(value, depth), DeepAt(value, depth), DirtyAt(value), Visits(value),
                  ValidateElements(rest, depth), DeepElement(rest, depth), DirtyElement(rest));
  }

  lemma {:induction false} FirstMemberWins(ms: Members, depth: nat)
    requires depth <= MAX_JSON_DEPTH
    ensures Decided(ValidateMembers(ms, depth), DeepMember(ms, depth), DirtyMember(ms))
    ensures Inside(DeepMember(ms, depth), MemberVisits(ms)) && Inside(DirtyMember(ms), MemberVisits(ms))
    decreases ms
  {
    hide LoneSurrogate;
    match ms
    case NoMember =>
    case Member(_, key, _, _, value, _, rest) =>
      FirstRefusalWins(value, depth);
      FirstMemberWins(rest, depth);
      if !LoneSurrogate(key) {
        hide Decided;
        DecidedBoth(Validate(value, depth), DeepAt(value, depth), DirtyAt(value), Visits(value),
                    ValidateMembers(rest, depth), DeepMember(rest, depth), DirtyMember(rest));
        DecidedLater(ValidateMembers(ms, depth), FirstOf(DeepAt(value, depth), Visits(value), DeepMember(rest, depth)),
                     FirstOf(DirtyAt(value), Visits(value), DirtyMember(rest)), 1);
      }
  }

  /** What is not clean lies inside the value, and there is some exactly when its leaves are not clean. */
  lemma {:induction false} DirtyInside(v: Json)
    ensures Inside(DirtyAt(v), Visits(v)) && (DirtyAt(v).None? <==> CleanLeaves(v))
    decreases v
  {
    hide LoneSurrogate, SafeInteger;
    match v
    case Arr(_, elements) => DirtyElementInside(elements);
    case Obj(_, members) => DirtyMemberInside(members);
    case _ =>
  }

  lemma {:induction false} DirtyElementInside(es: Elements)
    ensures Inside(DirtyElement(es), ElementVisits(es)) && (DirtyElement(es).None? <==> CleanElements(es))
    decreases es
  {
    match es
    case NoElement =>
    case Element(_, value, _, rest) =>
      DirtyInside(value);
      DirtyElementInside(rest);
  }

  lemma {:induction false} DirtyMemberInside(ms: Members)
    ensures Inside(DirtyMember(ms), MemberVisits(ms)) && (DirtyMember(ms).None? <==> CleanMembers(ms))
    decreases ms
  {
    hide LoneSurrogate;
    match ms
    case NoMember =>
    case Member(_, _, _, _, value, _, rest) =>
      DirtyInside(value);
      DirtyMemberInside(rest);
  }

  /** Some array or object is over the bound exactly when the value nests too deep. */
  lemma {:induction false} DeepIff(v: Json, depth: nat)
    requires depth <= MAX_JSON_DEPTH
    ensures DeepAt(v, depth).Some? <==> depth + Depth(v) > MAX_JSON_DEPTH
    decreases v
  {
    match v
    case Arr(_, elements) => if depth + 1 <= MAX_JSON_DEPTH { DeepElementIff(elements, depth + 1); }
    case Obj(_, members) => if depth + 1 <= MAX_JSON_DEPTH { DeepMemberIff(members, depth + 1); }
    case _ =>
  }

  lemma {:induction false} DeepElementIff(es: Elements, depth: nat)
    requires depth <= MAX_JSON_DEPTH
    ensures DeepElement(es, depth).Some? <==> depth + ElementsDepth(es) > MAX_JSON_DEPTH
    decreases es
  {
    match es
    case NoElement =>
    case Element(_, value, _, rest) =>
      DeepIff(value, depth);
      DeepElementIff(rest, depth);
  }

  lemma {:induction false} DeepMemberIff(ms: Members, depth: nat)
    requires depth <= MAX_JSON_DEPTH
    ensures DeepMember(ms, depth).Some? <==> depth + MembersDepth(ms) > MAX_JSON_DEPTH
    decreases ms
  {
    match ms
    case NoMember =>
    case Member(_, _, _, _, value, _, rest) =>
      DeepIff(value, depth);
      DeepMemberIff(rest, depth);
  }

  // ---------------------------------------------------------------- the two bounds together

  /** Both find something to refuse, and what is not clean comes before what is too deep. */
  ghost predicate Overshadowed(v: Json) { DeepAt(v, 0).Some? && Before(DirtyAt(v), DeepAt(v, 0)) }

  /** The scanner refuses a text exactly when its value nests deeper than the bound, whatever the
      spacing and escapes, so a value it passes is never refused for depth afterwards. The two
      refuse for depth alike if and only if nothing unclean precedes the first bracket over the
      bound; else the structural check still refuses, for the other reason. */
  lemma ScannerMatchesStructure(lead: string, v: Json, trail: string)
    requires Space(lead) && WellFormed(v) && Space(trail)
    ensures Scan(At(0), lead + Print(v) + trail) == TooDeep <==> Depth(v) > MAX_JSON_DEPTH
    ensures Validate(v, 0) == DepthRefused ==> Scan(At(0), lead + Print(v) + trail) == TooDeep
    ensures (Validate(v, 0) == DepthRefused <==> Scan(At(0), lead + Print(v) + trail) == TooDeep) <==> !Overshadowed(v)
    ensures Overshadowed(v) ==>
              Scan(At(0), lead + Print(v) + trail) == TooDeep && Validate(v, 0) == OtherRefused && !CleanLeaves(v)
  {
    hide Scan, Print, Space, WellFormed, Validate, CleanLeaves, Depth, DeepAt, DirtyAt;
    ScanValue(v, 0);
    SpaceInert(lead);
    SpaceInert(trail);
    ScanAround(lead, Print(v), trail, 0, Passed(0, Depth(v)));
    FirstRefusalWins(v, 0);
    DeepIff(v, 0);
    DirtyInside(v);
  }

  /** Nothing but brackets. */
  function Nest(n: nat): Json {
    if n == 0 then Null else Arr("", Element("", Nest(n - 1), "", NoElement))
  }

  lemma {:induction false} NestFacts(n: nat)
    ensures WellFormed(Nest(n)) && Depth(Nest(n)) == n && CleanLeaves(Nest(n))
    decreases n
  {
    if n > 0 { NestFacts(n - 1); }
  }

  /** The bound is a hundred: that many brackets pass both checks, one more passes neither. */
  lemma BoundIsHundred()
    ensures Scan(At(0), Print(Nest(100))) != TooDeep && Validate(Nest(100), 0) == Accepted
    ensures Scan(At(0), Print(Nest(101))) == TooDeep && Validate(Nest(101), 0) == DepthRefused
  {
    hide Nest, Scan, Print, Validate, Depth, WellFormed, CleanLeaves;
    NestFacts(100);
    NestFacts(101);
    ScanValue(Nest(100), 0);
    ScanValue(Nest(101), 0);
    ValidateExact(Nest(100), 0);
    ValidateExact(Nest(101), 0);
  }

  /** Closing brackets that nothing opened buy no depth. */
  lemma {:induction false} ClosersBuyNothing(closers: string, text: string)
    requires forall i :: 0 <= i < |closers| ==> closers[i] == ']' || closers[i] == '}'
    ensures Scan(At(0), closers + text) == Scan(At(0), text)
    decreases |closers|
  {
    if closers == "" {
      assert closers + text == text;
    } else {
      assert (closers + text)[1..] == closers[1..] + text;
      ClosersBuyNothing(closers[1..], text);
    }
  }

  /** Integers are taken up to 2^53 - 1 on either side. */
  lemma SafeIntegers(text: string, n: int, depth: int)
    ensures Validate(Number(text, Some(n)), depth) == Accepted <==> -0x20_0000_0000_0000 < n < 0x20_0000_0000_0000
    ensures Validate(Number(text, None), depth) == OtherRefused
  {
  }

  /** Keys are held to the same rule as strings. */
  lemma KeysLikeStrings(items: seq<StringItem>)
    ensures Validate(Obj("", Member("", items, "", "", Null, "", NoMember)), 0) == Validate(Str(items), 0)
    ensures Validate(Str(items), 0) == if exists i :: LoneAt(items, i) then OtherRefused else Accepted
  {
    hide LoneSurrogate;
    LoneSurrogateIff(items);
    var member := Member("", items, "", "", Null, "", NoMember);
    assert ValidateMembers(NoMember, 1) == Accepted && Validate(Null, 1) == Accepted;
    assert ValidateMembers(member, 1) == if LoneSurrogate(items) then OtherRefused else Accepted;
    assert Validate(Obj("", member), 0) == ValidateMembers(member, 1);
  }

  /** An array of two values. */
  function Two(a: Json, b: Json): Json { Arr("", Element("", a, "", Element("", b, "", NoElement))) }

  lemma TwoFacts(a: Json, b: Json)
    requires WellFormed(a) && WellFormed(b)
    ensures WellFormed(Two(a, b)) && Depth(Two(a, b)) == 1 + Max(Depth(a), Depth(b))
    ensures Validate(Two(a, b), 0) == if Validate(a, 1) != Accepted then Validate(a, 1) else Validate(b, 1)
  {
    var last := Element("", b, "", NoElement);
    OneFacts(b, 1);
    ElementFacts(a, last, 1);
    assert Space("");
  }

  lemma ElementFacts(value: Json, rest: Elements, depth: int)
    ensures var es := Element("", value, "", rest);
            && ElementsDepth(es) == Max(Depth(value), ElementsDepth(rest))
            && (ElementsWellFormed(es) <==> WellFormed(value) && ElementsWellFormed(rest))
            && ValidateElements(es, depth)
               == if Validate(value, depth) != Accepted then Validate(value, depth) else ValidateElements(rest, depth)
  {
    hide Depth, WellFormed, Validate;
    assert Space("");
  }

  lemma OneFacts(value: Json, depth: int)
    ensures var es := Element("", value, "", NoElement);
            && ElementsDepth(es) == Depth(value) && (ElementsWellFormed(es) <==> WellFormed(value))
            && ValidateElements(es, depth) == Validate(value, depth)
  {
    hide Depth, WellFormed, Validate;
    ElementFacts(value, NoElement, depth);
    assert ElementsDepth(NoElement) == 0 && ValidateElements(NoElement, depth) == Accepted;
  }

  /** The order decides: `[leaf, [[...]]]` with a leaf that is not clean and too many brackets after
      it is refused by the scanner for depth and by the structural check for the leaf; with the
      leaf behind the brackets both refuse it for depth. */
  lemma LeafBeforeBrackets(leaf: Json)
    requires WellFormed(leaf) && Depth(leaf) == 0 && !CleanLeaves(leaf)
    ensures var deep := Nest(MAX_JSON_DEPTH);
            && WellFormed(Two(leaf, deep)) && WellFormed(Two(deep, leaf))
            && Scan(At(0), Print(Two(leaf, deep))) == Scan(At(0), Print(Two(deep, leaf))) == TooDeep
            && Validate(Two(leaf, deep), 0) == OtherRefused && Validate(Two(deep, leaf), 0) == DepthRefused
  {
    hide Nest, CleanLeaves, Two, Validate, Scan, Print, WellFormed, Depth;
    var deep := Nest(MAX_JSON_DEPTH);
    NestFacts(MAX_JSON_DEPTH);
    ValidateExact(leaf, 1);
    ValidateExact(deep, 1);
    TwoFacts(leaf, deep);
    TwoFacts(deep, leaf);
    ScanValue(Two(leaf, deep), 0);
    ScanValue(Two(deep, leaf), 0);
  }

  /** Hexadecimal digits have their value, in either case. */
  lemma DigitsExact(d: nat)
    requires d < 16
    ensures Digit("0123456789abcdef"[d]) == d && Digit("0123456789ABCDEF"[d]) == d
  {
  }

  /** A fraction, or a string with one lone surrogate, is such a leaf. */
  lemma UncleanLeaves()
    ensures var fraction, lone := Number("1.5", None), Str([Unicode("d800")]);
            && WellFormed(fraction) && Depth(fraction) == 0 && !CleanLeaves(fraction)
            && WellFormed(lone) && Depth(lone) == 0 && !CleanLeaves(lone)
  {
    assert Digit('d') == 13 && Digit('8') == 8 && Digit('0') == 0;
    assert Unit(Unicode("d800")) == Some(0xD800);
  }
}
