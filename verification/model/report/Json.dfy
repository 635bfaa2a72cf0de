/**
 JSON trees, their compact text, and a parser for sections 2 to 7 of RFC 8259.

 Objects are ordered lists of members: the writer does not refuse a repeated
 key, so two members of one object may share one. A number is the text that
 denotes it. Strings are their UTF-8 bytes.
 */
module Json {
  import opened Bytes
  import Utf8

  datatype Json =
    | Null
    | Bool(b: bool)
    | Number(text: bytes)
    | String(s: bytes)
    | Array(items: seq<Json>)
    | Object(members: seq<Member>)

  datatype Member = Member(key: bytes, value: Json)

  const QUOTE: byte := 0x22
  const BACKSLASH: byte := 0x5C
  const COMMA: byte := 0x2C
  const COLON: byte := 0x3A
  const LEFT_BRACKET: byte := 0x5B
  const RIGHT_BRACKET: byte := 0x5D
  const LEFT_BRACE: byte := 0x7B
  const RIGHT_BRACE: byte := 0x7D

  // ---- compact text ----

  /** The text of v, followed by rest. */
  function Print(v: Json, rest: bytes): bytes
    decreases v, 1
  {
    match v
    case Null => Ascii("null") + rest
    case Bool(b) => (if b then Ascii("true") else Ascii("false")) + rest
    case Number(text) => text + rest
    case String(s) => PrintString(s, rest)
    case Array(items) => [LEFT_BRACKET] + PrintItems(items, [RIGHT_BRACKET] + rest)
    case Object(members) => [LEFT_BRACE] + PrintMembers(members, [RIGHT_BRACE] + rest)
  }

  function PrintItems(items: seq<Json>, rest: bytes): bytes
    decreases items, 0
  {
    if items == [] then rest
    else if |items| == 1 then Print(items[0], rest)
    else Print(items[0], [COMMA] + PrintItems(items[1..], rest))
  }

  function PrintMembers(members: seq<Member>, rest: bytes): bytes
    decreases members, 0
  {
    if members == [] then rest
    else if |members| == 1 then PrintMember(members[0], rest)
    else PrintMember(members[0], [COMMA] + PrintMembers(members[1..], rest))
  }

  function PrintMember(m: Member, rest: bytes): bytes
    decreases m, 0
  {
    PrintKey(m.key, Print(m.value, rest))
  }

  function PrintKey(key: bytes, rest: bytes): bytes {
    PrintString(key, [COLON] + rest)
  }

  function PrintString(s: bytes, rest: bytes): bytes {
    [QUOTE] + PrintChars(s, [QUOTE] + rest)
  }

  function PrintChars(s: bytes, rest: bytes): bytes {
    if s == [] then rest else EscapeByte(s[0]) + PrintChars(s[1..], rest)
  }

  function EscapeByte(b: byte): (e: bytes)
    ensures e != []
  {
    if b == QUOTE || b == BACKSLASH then [BACKSLASH, b]
    else if b == 0x08 then [BACKSLASH, 0x62]
    else if b == 0x0C then [BACKSLASH, 0x66]
    else if b == 0x0A then [BACKSLASH, 0x6E]
    else if b == 0x0D then [BACKSLASH, 0x72]
    else if b == 0x09 then [BACKSLASH, 0x74]
    else if b < 0x20 then [BACKSLASH, 0x75, 0x30, 0x30, HexDigit(b / 16), HexDigit(b % 16)]
    else [b]
  }

  function Text(v: Json): bytes {
    Print(v, [])
  }

  function HexDigit(n: nat): byte
    requires n < 16
  {
    if n < 10 then 0x30 + n else 0x61 + (n - 10)
  }

  /** Strings are UTF-8 and numbers follow the grammar: what the writer lets through. */
  predicate WellFormed(v: Json)
    decreases v, 1
  {
    match v
    case Null => true
    case Bool(_) => true
    case Number(text) => IsNumber(text)
    case String(s) => Utf8.Valid(s)
    case Array(items) => WellFormedItems(items)
    case Object(members) => WellFormedMembers(members)
  }

  predicate WellFormedItems(items: seq<Json>)
    decreases items, 0
  {
    items == [] || (WellFormed(items[0]) && WellFormedItems(items[1..]))
  }

  predicate WellFormedMembers(members: seq<Member>)
    decreases members, 0
  {
    members == []
    || (Utf8.Valid(members[0].key) && WellFormed(members[0].value) && WellFormedMembers(members[1..]))
  }

  // ---- number grammar (section 6 of RFC 8259) ----

  /** int: one zero, or digits that do not start with zero. */
  function IntLength(s: bytes): (n: nat)
    ensures n <= |s|
  {
    if s == [] || !IsDigit(s[0]) then 0 else if s[0] == 0x30 then 1 else LeadingDigits(s)
  }

  /** frac: absent, or a point and digits; -1 when the point has no digits. */
  function FracLength(s: bytes): (n: int)
    ensures -1 <= n <= |s|
  {
    if s == [] || s[0] != 0x2E then 0
    else var d := LeadingDigits(s[1..]); if d == 0 then -1 else 1 + d
  }

  /** exp: absent, or e, an optional sign and digits; -1 when the digits are missing. */
  function ExpLength(s: bytes): (n: int)
    ensures -1 <= n <= |s|
  {
    if s == [] || (s[0] != 0x65 && s[0] != 0x45) then 0
    else
      var sign := if |s| > 1 && (s[1] == 0x2B || s[1] == 0x2D) then 1 else 0;
      var d := LeadingDigits(s[1 + sign..]);
      if d == 0 then -1 else 1 + sign + d
  }

  /** frac and exp together; -1 when either lacks its digits. */
  function TailLength(s: bytes): (n: int)
    ensures -1 <= n <= |s|
  {
    var f := FracLength(s);
    if f < 0 then -1
    else var e := ExpLength(s[f..]); if e < 0 then -1 else f + e
  }

  function UnsignedLength(s: bytes): (n: nat)
    ensures n <= |s|
  {
    var i := IntLength(s);
    if i == 0 then 0
    else var t := TailLength(s[i..]); if t < 0 then 0 else i + t
  }

  /** The length of the number s starts with, or 0 when it starts with none. */
  function NumberLength(s: bytes): (n: nat)
    ensures n <= |s|
  {
    if s != [] && s[0] == 0x2D then
      var u := UnsignedLength(s[1..]); if u == 0 then 0 else 1 + u
    else UnsignedLength(s)
  }

  predicate IsNumber(s: bytes) {
    s != [] && NumberLength(s) == |s|
  }

  // ---- parser ----

  datatype Parsed<+T> = Refused | Read(value: T, rest: bytes)

  predicate IsSpace(b: byte) {
    b == 0x20 || b == 0x09 || b == 0x0A || b == 0x0D
  }

  function SkipSpace(s: bytes): (rest: bytes)
    ensures |rest| <= |s|
    ensures rest != [] ==> !IsSpace(rest[0])
    ensures s != [] && !IsSpace(s[0]) ==> rest == s
  {
    if s != [] && IsSpace(s[0]) then SkipSpace(s[1..]) else s
  }

  predicate StartsWith(s: bytes, b: byte) {
    s != [] && s[0] == b
  }

  function ParseWord(s: bytes): (p: Parsed<Json>)
    ensures p.Read? ==> |p.rest| < |s|
  {
    if Ascii("null") <= s then Read(Null, s[4..])
    else if Ascii("true") <= s then Read(Bool(true), s[4..])
    else if Ascii("false") <= s then Read(Bool(false), s[5..])
    else Refused
  }

  function ParseNumber(s: bytes): (p: Parsed<Json>)
    ensures p.Read? ==> |p.rest| < |s|
  {
    var n := NumberLength(s);
    if n == 0 then Refused else Read(Number(s[..n]), s[n..])
  }

  function ParseString(s: bytes): (p: Parsed<Json>)
    ensures p.Read? ==> |p.rest| < |s|
  {
    var p := ParseChars(s);
    if p.Read? then Read(String(p.value), p.rest) else Refused
  }

  function ParseValue(input: bytes): (p: Parsed<Json>)
    ensures p.Read? ==> |p.rest| < |input|
    decreases |input|, 1
  {
    ParseToken(SkipSpace(input))
  }

  /** A value that starts at once. */
  function ParseToken(s: bytes): (p: Parsed<Json>)
    ensures p.Read? ==> |p.rest| < |s|
    decreases |s|, 0
  {
    if s == [] then Refused
    else if s[0] == QUOTE then ParseString(s[1..])
    else if s[0] == LEFT_BRACKET then ParseArray(s[1..])
    else if s[0] == LEFT_BRACE then ParseObject(s[1..])
    else if s[0] == 0x2D || IsDigit(s[0]) then ParseNumber(s)
    else ParseWord(s)
  }

  /** An array after its opening bracket. */
  function ParseArray(s: bytes): (p: Parsed<Json>)
    ensures p.Read? ==> |p.rest| < |s|
    decreases |s|, 3
  {
    var t := SkipSpace(s);
    if StartsWith(t, RIGHT_BRACKET) then Read(Array([]), t[1..])
    else
      var p := ParseItems(s);
      if p.Read? then Read(Array(p.value), p.rest) else Refused
  }

  /** An object after its opening brace. */
  function ParseObject(s: bytes): (p: Parsed<Json>)
    ensures p.Read? ==> |p.rest| < |s|
    decreases |s|, 3
  {
    var t := SkipSpace(s);
    if StartsWith(t, RIGHT_BRACE) then Read(Object([]), t[1..])
    else
      var p := ParseMembers(s);
      if p.Read? then Read(Object(p.value), p.rest) else Refused
  }

  /** One or more values separated by commas, up to and including the closing bracket. */
  function ParseItems(s: bytes): (p: Parsed<seq<Json>>)
    ensures p.Read? ==> |p.rest| < |s|
    decreases |s|, 2
  {
    var first := ParseValue(s);
    if first.Refused? then Refused
    else
      var t := SkipSpace(first.rest);
      if StartsWith(t, RIGHT_BRACKET) then Read([first.value], t[1..])
      else if StartsWith(t, COMMA) then
        var more := ParseItems(t[1..]);
        if more.Refused? then Refused else Read([first.value] + more.value, more.rest)
      else Refused
  }

  /** One or more members separated by commas, up to and including the closing brace. */
  function ParseMembers(input: bytes): (p: Parsed<seq<Member>>)
    ensures p.Read? ==> |p.rest| < |input|
    decreases |input|, 2
  {
    var s := SkipSpace(input);
    if !StartsWith(s, QUOTE) then Refused
    else
      var key := ParseChars(s[1..]);
      if key.Refused? then Refused
      else
        var colon := SkipSpace(key.rest);
        if !StartsWith(colon, COLON) then Refused
        else
          var first := ParseValue(colon[1..]);
          if first.Refused? then Refused
          else
            var member := Member(key.value, first.value);
            var t := SkipSpace(first.rest);
            if StartsWith(t, RIGHT_BRACE) then Read([member], t[1..])
            else if StartsWith(t, COMMA) then
              var more := ParseMembers(t[1..]);
              if more.Refused? then Refused else Read([member] + more.value, more.rest)
            else Refused
  }

  function HexValue(b: byte): int {
    if IsDigit(b) then b - 0x30
    else if 0x61 <= b <= 0x66 then b - 0x61 + 10
    else if 0x41 <= b <= 0x46 then b - 0x41 + 10
    else -1
  }

  /** The code unit of four hexadecimal digits, or -1. */
  function HexQuad(s: bytes): (n: int)
    ensures -1 <= n < 0x10000
  {
    if |s| < 4 || HexValue(s[0]) < 0 || HexValue(s[1]) < 0 || HexValue(s[2]) < 0 || HexValue(s[3]) < 0 then -1
    else HexValue(s[0]) * 4096 + HexValue(s[1]) * 256 + HexValue(s[2]) * 16 + HexValue(s[3])
  }

  /** The byte of a two-character escape, or -1. */
  function ShortEscape(b: byte): int {
    if b == QUOTE || b == BACKSLASH || b == 0x2F then b
    else if b == 0x62 then 0x08
    else if b == 0x66 then 0x0C
    else if b == 0x6E then 0x0A
    else if b == 0x72 then 0x0D
    else if b == 0x74 then 0x09
    else -1
  }

  /** What a backslash escape denotes, in UTF-8, and what follows it; surrogates must pair. */
  function ParseEscape(s: bytes): (p: Parsed<bytes>)
    ensures p.Read? ==> |p.rest| < |s|
  {
    if s == [] then Refused
    else if ShortEscape(s[0]) >= 0 then Read([ShortEscape(s[0])], s[1..])
    else if s[0] != 0x75 then Refused
    else
      var unit := HexQuad(s[1..]);
      if unit < 0 then Refused
      else if unit < 0xD800 || unit >= 0xE000 then Read(Utf8.Encode(unit), s[5..])
      else if unit >= 0xDC00 || |s| < 11 || s[5] != BACKSLASH || s[6] != 0x75 then Refused
      else
        var low := HexQuad(s[7..]);
        if 0xDC00 <= low < 0xE000 then
          Read(Utf8.Encode(0x10000 + (unit - 0xD800) * 0x400 + (low - 0xDC00)), s[11..])
        else Refused
  }

  /** The characters of a string after its opening quote (section 7 of RFC 8259). */
  function ParseChars(s: bytes): (p: Parsed<bytes>)
    ensures p.Read? ==> |p.rest| < |s|
    decreases |s|
  {
    if s == [] || s[0] < 0x20 then Refused
    else if s[0] == QUOTE then Read([], s[1..])
    else if s[0] == BACKSLASH then
      var e := ParseEscape(s[1..]);
      if e.Refused? then Refused
      else
        var more := ParseChars(e.rest);
        if more.Refused? then Refused else Read(e.value + more.value, more.rest)
    else
      var more := ParseChars(s[1..]);
      if more.Refused? then Refused else Read([s[0]] + more.value, more.rest)
  }

  datatype ParseResult = Malformed | Parsed(value: Json)

  /** A JSON text: UTF-8, one value, and nothing but white space around it. */
  function Parse(s: bytes): ParseResult {
    if !Utf8.Valid(s) then Malformed
    else
      var p := ParseValue(s);
      if p.Read? && SkipSpace(p.rest) == [] then Parsed(p.value) else Malformed
  }

  // ---- the parser undoes the text ----

  /** What may follow a value: nothing, or a byte that cannot continue a number. */
  predicate Delimited(rest: bytes) {
    rest == [] || rest[0] == 0x2C || rest[0] == 0x5D || rest[0] == 0x7D || IsSpace(rest[0])
  }

  lemma DelimitedNotDigit(rest: bytes)
    requires Delimited(rest)
    ensures rest == [] || !IsDigit(rest[0])
  {
  }

  lemma IntLengthAppend(s: bytes, rest: bytes)
    requires IntLength(s) > 0 && Delimited(rest)
    ensures IntLength(s + rest) == IntLength(s)
  {
    LeadingDigitsAppend(s, rest);
  }

  lemma FracLengthAppend(s: bytes, rest: bytes)
    requires FracLength(s) >= 0 && Delimited(rest)
    ensures FracLength(s + rest) == FracLength(s)
  {
    if s != [] && s[0] == 0x2E {
      assert (s + rest)[1..] == s[1..] + rest;
      DelimitedNotDigit(rest);
      LeadingDigitsAppend(s[1..], rest);
    } else if s == [] {
      assert s + rest == rest;
    }
  }

  lemma ExpLengthAppend(s: bytes, rest: bytes)
    requires ExpLength(s) >= 0 && Delimited(rest)
    ensures ExpLength(s + rest) == ExpLength(s)
  {
    if s != [] && (s[0] == 0x65 || s[0] == 0x45) {
      assert |s| > 1;
      var sign := if s[1] == 0x2B || s[1] == 0x2D then 1 else 0;
      assert (s + rest)[1 + sign..] == s[1 + sign..] + rest;
      DelimitedNotDigit(rest);
      LeadingDigitsAppend(s[1 + sign..], rest);
    } else if s == [] {
      assert s + rest == rest;
    }
  }

  lemma DropAppend(s: bytes, rest: bytes, k: nat)
    requires k <= |s|
    ensures (s + rest)[k..] == s[k..] + rest
  {
  }

  lemma TailLengthAppend(s: bytes, rest: bytes)
    requires TailLength(s) >= 0 && Delimited(rest)
    ensures TailLength(s + rest) == TailLength(s)
  {
    var f := FracLength(s);
    FracLengthAppend(s, rest);
    DropAppend(s, rest, f);
    ExpLengthAppend(s[f..], rest);
  }

  lemma UnsignedLengthAppend(s: bytes, rest: bytes)
    requires UnsignedLength(s) > 0 && Delimited(rest)
    ensures UnsignedLength(s + rest) == UnsignedLength(s)
  {
    var i := IntLength(s);
    IntLengthAppend(s, rest);
    DropAppend(s, rest, i);
    TailLengthAppend(s[i..], rest);
  }

  lemma NumberLengthAppend(s: bytes, rest: bytes)
    requires IsNumber(s) && Delimited(rest)
    ensures NumberLength(s + rest) == |s|
  {
    if s[0] == 0x2D {
      DropAppend(s, rest, 1);
      UnsignedLengthAppend(s[1..], rest);
    } else {
      UnsignedLengthAppend(s, rest);
    }
  }

  lemma DecimalIsNumber(n: nat)
    ensures IsNumber(Decimal(n))
  {
    var s := Decimal(n);
    DigitsLead(s);
    assert s[0..] == s;
    assert IntLength(s) == |s|;
  }

  lemma ParseEscapeByte(b: byte, rest: bytes)
    requires b < 0x20 || b == QUOTE || b == BACKSLASH
    ensures EscapeByte(b)[0] == BACKSLASH
    ensures ParseEscape(EscapeByte(b)[1..] + rest) == Read([b], rest)
  {
    var e := EscapeByte(b);
    var t := e[1..] + rest;
    if ShortEscape(e[1]) >= 0 {
      assert t[1..] == rest;
    } else {
      assert t[1..][..4] == e[2..];
      assert HexQuad(t[1..]) == b;
      assert t[5..] == rest;
    }
  }

  lemma ParseCharsStep(b: byte, more: bytes)
    requires b >= 0x20 && b != QUOTE && b != BACKSLASH && ParseChars(more).Read?
    ensures ParseChars([b] + more) == Read([b] + ParseChars(more).value, ParseChars(more).rest)
  {
    assert ([b] + more)[1..] == more;
  }

  lemma ParseCharsEscapeStep(b: byte, e: bytes, more: bytes)
    requires e != [] && e[0] == BACKSLASH && ParseEscape(e[1..] + more) == Read([b], more) && ParseChars(more).Read?
    ensures ParseChars(e + more) == Read([b] + ParseChars(more).value, ParseChars(more).rest)
  {
    assert (e + more)[1..] == e[1..] + more;
  }

  /** Unescaping the escaped bytes gives them back, whatever they are. */
  lemma {:induction false} ParseCharsUndoesPrint(s: bytes, rest: bytes)
    ensures ParseChars(PrintChars(s, [QUOTE] + rest)) == Read(s, rest)
  {
    if s == [] {
      assert ([QUOTE] + rest)[1..] == rest;
    } else {
      var more := PrintChars(s[1..], [QUOTE] + rest);
      ParseCharsUndoesPrint(s[1..], rest);
      if s[0] < 0x20 || s[0] == QUOTE || s[0] == BACKSLASH {
        ParseEscapeByte(s[0], more);
        ParseCharsEscapeStep(s[0], EscapeByte(s[0]), more);
      } else {
        ParseCharsStep(s[0], more);
      }
      assert [s[0]] + s[1..] == s;
    }
  }

  lemma ValueIsToken(s: bytes)
    requires s != [] && !IsSpace(s[0])
    ensures ParseValue(s) == ParseToken(s)
  {
  }

  lemma ParseNumberText(text: bytes, rest: bytes)
    requires IsNumber(text) && Delimited(rest)
    ensures ParseNumber(text + rest) == Read(Number(text), rest)
  {
    NumberLengthAppend(text, rest);
    assert (text + rest)[..|text|] == text && (text + rest)[|text|..] == rest;
  }

  lemma NumberStart(text: bytes)
    requires IsNumber(text)
    ensures text[0] == 0x2D || IsDigit(text[0])
  {
  }

  lemma DispatchNumber(s: bytes)
    requires s != [] && (s[0] == 0x2D || IsDigit(s[0]))
    ensures ParseToken(s) == ParseNumber(s)
  {
    hide ParseNumber, ParseString, Ascii;
  }

  lemma ParseNumberValue(text: bytes, rest: bytes)
    requires IsNumber(text) && Delimited(rest)
    ensures ParseValue(text + rest) == Read(Number(text), rest)
  {
    ParseNumberText(text, rest);
    NumberStart(text);
    assert (text + rest)[0] == text[0];
    ValueIsToken(text + rest);
    DispatchNumber(text + rest);
  }

  lemma ParseWordValue(v: Json, rest: bytes)
    requires v.Null? || v.Bool?
    ensures ParseValue(Print(v, rest)) == Read(v, rest)
  {
    var s := Print(v, rest);
    ValueIsToken(s);
    assert ParseWord(s) == Read(v, rest) by {
      var w := Text(v);
      assert w <= s && s[|w|..] == rest;
    }
  }

  lemma DispatchBracket(b: byte, inner: bytes)
    requires b == QUOTE || b == LEFT_BRACKET || b == LEFT_BRACE
    ensures ParseValue([b] + inner)
         == if b == QUOTE then ParseString(inner)
            else if b == LEFT_BRACKET then ParseArray(inner) else ParseObject(inner)
  {
    ValueIsToken([b] + inner);
    assert ([b] + inner)[1..] == inner;
  }

  lemma ParseStringValue(s: bytes, rest: bytes)
    ensures ParseValue(PrintString(s, rest)) == Read(String(s), rest)
  {
    ParseCharsUndoesPrint(s, rest);
    DispatchBracket(QUOTE, PrintChars(s, [QUOTE] + rest));
  }

  /** How the text of a value starts: never with white space or a closing bracket. */
  predicate StartsValue(s: bytes) {
    s != [] && !IsSpace(s[0]) && s[0] != RIGHT_BRACKET
  }

  lemma PrintStart(v: Json, rest: bytes)
    requires WellFormed(v)
    ensures StartsValue(Print(v, rest))
  {
    if v.Number? {
      NumberStart(v.text);
    }
  }

  lemma CloseAtOnce(b: byte, rest: bytes)
    requires b == RIGHT_BRACKET || b == RIGHT_BRACE
    ensures StartsWith(SkipSpace([b] + rest), b) && SkipSpace([b] + rest)[1..] == rest
  {
  }

  /** Parsing the text of a value, whatever delimiter follows it, reads that value and stops there. */
  lemma {:induction false} ParseUndoesPrint(v: Json, rest: bytes)
    requires WellFormed(v) && Delimited(rest)
    ensures ParseValue(Print(v, rest)) == Read(v, rest)
    decreases v, 1
  {
    match v {
      case Null => ParseWordValue(v, rest);
      case Bool(_) => ParseWordValue(v, rest);
      case Number(text) => ParseNumberValue(text, rest);
      case String(s) => ParseStringValue(s, rest);
      case Array(items) => ParseArrayUndoesPrint(items, rest);
      case Object(members) => ParseObjectUndoesPrint(members, rest);
    }
  }

  lemma {:induction false} ParseArrayUndoesPrint(items: seq<Json>, rest: bytes)
    requires WellFormedItems(items)
    ensures ParseValue(Print(Array(items), rest)) == Read(Array(items), rest)
    decreases items, 1
  {
    var inner := PrintItems(items, [RIGHT_BRACKET] + rest);
    DispatchBracket(LEFT_BRACKET, inner);
    if items == [] {
      CloseAtOnce(RIGHT_BRACKET, rest);
    } else {
      PrintItemsStart(items, [RIGHT_BRACKET] + rest);
      ParseItemsUndoesPrint(items, rest);
    }
  }

  lemma PrintItemsStart(items: seq<Json>, rest: bytes)
    requires items != [] && WellFormedItems(items)
    ensures StartsValue(PrintItems(items, rest))
  {
    PrintStart(items[0], if |items| == 1 then rest else [COMMA] + PrintItems(items[1..], rest));
  }

  lemma ParseItemsLast(s: bytes, v: Json, rest: bytes)
    requires ParseValue(s) == Read(v, [RIGHT_BRACKET] + rest)
    ensures ParseItems(s) == Read([v], rest)
  {
    CloseAtOnce(RIGHT_BRACKET, rest);
  }

  lemma ParseItemsMore(s: bytes, v: Json, more: bytes, items: seq<Json>, rest: bytes)
    requires ParseValue(s) == Read(v, [COMMA] + more) && ParseItems(more) == Read(items, rest)
    ensures ParseItems(s) == Read([v] + items, rest)
  {
    assert ([COMMA] + more)[1..] == more;
  }

  lemma {:induction false} ParseItemsUndoesPrint(items: seq<Json>, rest: bytes)
    requires items != [] && WellFormedItems(items)
    ensures ParseItems(PrintItems(items, [RIGHT_BRACKET] + rest)) == Read(items, rest)
    decreases items, 0
  {
    var s := PrintItems(items, [RIGHT_BRACKET] + rest);
    if |items| == 1 {
      ParseUndoesPrint(items[0], [RIGHT_BRACKET] + rest);
      ParseItemsLast(s, items[0], rest);
      assert items == [items[0]];
    } else {
      var more := PrintItems(items[1..], [RIGHT_BRACKET] + rest);
      ParseUndoesPrint(items[0], [COMMA] + more);
      ParseItemsUndoesPrint(items[1..], rest);
      ParseItemsMore(s, items[0], more, items[1..], rest);
      assert items == [items[0]] + items[1..];
    }
  }

  lemma {:induction false} ParseObjectUndoesPrint(members: seq<Member>, rest: bytes)
    requires WellFormedMembers(members)
    ensures ParseValue(Print(Object(members), rest)) == Read(Object(members), rest)
    decreases members, 1
  {
    var inner := PrintMembers(members, [RIGHT_BRACE] + rest);
    DispatchBracket(LEFT_BRACE, inner);
    if members == [] {
      CloseAtOnce(RIGHT_BRACE, rest);
    } else {
      PrintMembersStart(members, [RIGHT_BRACE] + rest);
      ParseMembersUndoesPrint(members, rest);
    }
  }

  lemma PrintMembersStart(members: seq<Member>, rest: bytes)
    requires members != []
    ensures StartsWith(SkipSpace(PrintMembers(members, rest)), QUOTE)
  {
    var m, more := members[0], if |members| == 1 then rest else [COMMA] + PrintMembers(members[1..], rest);
    assert PrintMembers(members, rest) == PrintMember(m, more);
    assert PrintMember(m, more) == PrintKey(m.key, Print(m.value, more));
    assert PrintKey(m.key, Print(m.value, more)) == PrintString(m.key, [COLON] + Print(m.value, more));
  }

  function AddMember(m: Member, p: Parsed<seq<Member>>): Parsed<seq<Member>> {
    if p.Read? then Read([m] + p.value, p.rest) else Refused
  }

  /** The members loop reads a key and its value, then goes on with what follows them. */
  lemma ParseMembersStep(key: bytes, more: bytes, value: Json, t: bytes)
    requires ParseValue(more) == Read(value, t) && t != [] && !IsSpace(t[0])
    ensures t[0] == RIGHT_BRACE ==> ParseMembers(PrintKey(key, more)) == Read([Member(key, value)], t[1..])
    ensures t[0] == COMMA ==> ParseMembers(PrintKey(key, more)) == AddMember(Member(key, value), ParseMembers(t[1..]))
  {
    var s := PrintKey(key, more);
    var colon := [COLON] + more;
    ParseCharsUndoesPrint(key, colon);
    assert s[1..] == PrintChars(key, [QUOTE] + colon);
    assert colon[1..] == more;
  }

  lemma {:induction false} ParseMembersUndoesPrint(members: seq<Member>, rest: bytes)
    requires members != [] && WellFormedMembers(members)
    ensures ParseMembers(PrintMembers(members, [RIGHT_BRACE] + rest)) == Read(members, rest)
    decreases members, 0
  {
    var m := members[0];
    if |members| == 1 {
      var t := [RIGHT_BRACE] + rest;
      ParseUndoesPrint(m.value, t);
      ParseMembersStep(m.key, Print(m.value, t), m.value, t);
      assert t[1..] == rest;
      assert members == [Member(m.key, m.value)];
    } else {
      var more := PrintMembers(members[1..], [RIGHT_BRACE] + rest);
      var t := [COMMA] + more;
      ParseUndoesPrint(m.value, t);
      ParseMembersUndoesPrint(members[1..], rest);
      ParseMembersStep(m.key, Print(m.value, t), m.value, t);
      assert t[1..] == more;
      assert members == [Member(m.key, m.value)] + members[1..];
    }
  }

  // ---- the text is UTF-8 ----

  lemma ValidPrependAscii(s: bytes, rest: bytes)
    requires (forall i :: 0 <= i < |s| ==> s[i] < 128) && Utf8.Valid(rest)
    ensures Utf8.Valid(s + rest)
  {
    Utf8.AsciiValid(s);
    Utf8.ValidConcat(s, rest);
  }

  /** Escaping rewrites ASCII bytes only, so an escaped UTF-8 string is UTF-8. */
  lemma {:induction false} PrintCharsValid(s: bytes, rest: bytes)
    requires Utf8.Valid(s) && Utf8.Valid(rest)
    ensures Utf8.Valid(PrintChars(s, rest))
  {
    if s != [] {
      var n := Utf8.CharLength(s);
      PrintCharsValid(s[n..], rest);
      PrintCharsSplit(s, n, rest);
      if s[0] < 0x80 {
        ValidPrependAscii(EscapeByte(s[0]), PrintChars(s[1..], rest));
      } else {
        PrintHighChars(s[..n], PrintChars(s[n..], rest));
        Utf8.ValidPrepend(Utf8.Decode(s), PrintChars(s[n..], rest));
      }
    }
  }

  lemma {:induction false} PrintCharsSplit(s: bytes, n: nat, rest: bytes)
    requires n <= |s|
    ensures PrintChars(s, rest) == PrintChars(s[..n], PrintChars(s[n..], rest))
  {
    if n > 0 {
      PrintCharsSplit(s[1..], n - 1, rest);
      assert s[1..][..n - 1] == s[..n][1..] && s[1..][n - 1..] == s[n..];
    } else {
      assert s[0..] == s;
    }
  }

  lemma {:induction false} PrintHighChars(s: bytes, rest: bytes)
    requires forall i :: 0 <= i < |s| ==> s[i] >= 0x80
    ensures PrintChars(s, rest) == s + rest
  {
    if s != [] {
      PrintHighChars(s[1..], rest);
      assert [s[0]] + (s[1..] + rest) == s + rest;
    }
  }

  lemma PrintStringValid(s: bytes, rest: bytes)
    requires Utf8.Valid(s) && Utf8.Valid(rest)
    ensures Utf8.Valid(PrintString(s, rest))
  {
    ValidPrependAscii([QUOTE], rest);
    PrintCharsValid(s, [QUOTE] + rest);
    ValidPrependAscii([QUOTE], PrintChars(s, [QUOTE] + rest));
  }

  predicate AllAscii(s: bytes) {
    forall i :: 0 <= i < |s| ==> s[i] < 128
  }

  lemma DigitsAscii(s: bytes)
    ensures forall i :: 0 <= i < LeadingDigits(s) ==> s[i] < 128
  {
    forall i | 0 <= i < LeadingDigits(s) ensures s[i] < 128 {
      assert s[i] == s[..LeadingDigits(s)][i];
    }
  }

  lemma ExpAscii(s: bytes)
    requires ExpLength(s) == |s|
    ensures AllAscii(s)
  {
    if s != [] {
      var sign := if |s| > 1 && (s[1] == 0x2B || s[1] == 0x2D) then 1 else 0;
      DigitsAscii(s[1 + sign..]);
      assert s == s[..1 + sign] + s[1 + sign..];
    }
  }

  lemma TailAscii(s: bytes)
    requires TailLength(s) == |s|
    ensures AllAscii(s)
  {
    var f := FracLength(s);
    ExpAscii(s[f..]);
    if f > 0 {
      DigitsAscii(s[1..]);
      assert s == [s[0]] + s[1..][..f - 1] + s[f..];
    }
  }

  lemma UnsignedAscii(s: bytes)
    requires UnsignedLength(s) == |s| > 0
    ensures AllAscii(s)
  {
    var i := IntLength(s);
    TailAscii(s[i..]);
    DigitsAscii(s);
    assert s == s[..i] + s[i..];
  }

  lemma NumberAscii(s: bytes)
    requires IsNumber(s)
    ensures AllAscii(s)
  {
    if s[0] == 0x2D {
      UnsignedAscii(s[1..]);
      assert s == [s[0]] + s[1..];
    } else {
      UnsignedAscii(s);
    }
  }

  lemma {:induction false} PrintValid(v: Json, rest: bytes)
    requires WellFormed(v) && Utf8.Valid(rest)
    ensures Utf8.Valid(Print(v, rest))
    decreases v, 1
  {
    match v {
      case Null => ValidPrependAscii(Ascii("null"), rest);
      case Bool(b) => ValidPrependAscii(if b then Ascii("true") else Ascii("false"), rest);
      case Number(text) =>
        NumberAscii(text);
        ValidPrependAscii(text, rest);
      case String(s) => PrintStringValid(s, rest);
      case Array(items) =>
        ValidPrependAscii([RIGHT_BRACKET], rest);
        PrintItemsValid(items, [RIGHT_BRACKET] + rest);
        ValidPrependAscii([LEFT_BRACKET], PrintItems(items, [RIGHT_BRACKET] + rest));
      case Object(members) =>
        ValidPrependAscii([RIGHT_BRACE], rest);
        PrintMembersValid(members, [RIGHT_BRACE] + rest);
        ValidPrependAscii([LEFT_BRACE], PrintMembers(members, [RIGHT_BRACE] + rest));
    }
  }

  lemma {:induction false} PrintItemsValid(items: seq<Json>, rest: bytes)
    requires WellFormedItems(items) && Utf8.Valid(rest)
    ensures Utf8.Valid(PrintItems(items, rest))
    decreases items, 0
  {
    if |items| == 1 {
      PrintValid(items[0], rest);
    } else if items != [] {
      PrintItemsValid(items[1..], rest);
      ValidPrependAscii([COMMA], PrintItems(items[1..], rest));
      PrintValid(items[0], [COMMA] + PrintItems(items[1..], rest));
    }
  }

  lemma {:induction false} PrintMembersValid(members: seq<Member>, rest: bytes)
    requires WellFormedMembers(members) && Utf8.Valid(rest)
    ensures Utf8.Valid(PrintMembers(members, rest))
    decreases members, 0
  {
    if members != [] {
      var m := members[0];
      var more := if |members| == 1 then rest else [COMMA] + PrintMembers(members[1..], rest);
      if |members| > 1 {
        PrintMembersValid(members[1..], rest);
        ValidPrependAscii([COMMA], PrintMembers(members[1..], rest));
      }
      PrintValid(m.value, more);
      ValidPrependAscii([COLON], Print(m.value, more));
      PrintStringValid(m.key, [COLON] + Print(m.value, more));
    }
  }

  /** The round trip: a well-formed tree's text, with any white space after it, parses to that tree. */
  lemma ParseUndoesText(v: Json, space: bytes)
    requires WellFormed(v) && forall i :: 0 <= i < |space| ==> IsSpace(space[i])
    ensures Parse(Print(v, space)) == Parsed(v)
  {
    Utf8.AsciiValid(space);
    PrintValid(v, space);
    ParseUndoesPrint(v, space);
    SpaceOnly(space);
  }

  lemma {:induction false} SpaceOnly(space: bytes)
    requires forall i :: 0 <= i < |space| ==> IsSpace(space[i])
    ensures SkipSpace(space) == []
  {
    if space != [] {
      SpaceOnly(space[1..]);
    }
  }

  // ---- printing in front of a suffix ----

  lemma {:induction false} PrintCharsConcat(s: bytes, rest: bytes, more: bytes)
    ensures PrintChars(s, rest + more) == PrintChars(s, rest) + more
  {
    if s != [] {
      PrintCharsConcat(s[1..], rest, more);
    }
  }

  lemma PrintStringConcat(s: bytes, rest: bytes, more: bytes)
    ensures PrintString(s, rest + more) == PrintString(s, rest) + more
  {
    PrintCharsConcat(s, [QUOTE] + rest, more);
    assert [QUOTE] + (rest + more) == [QUOTE] + rest + more;
  }

  lemma PrintKeyConcat(key: bytes, rest: bytes, more: bytes)
    ensures PrintKey(key, rest + more) == PrintKey(key, rest) + more
  {
    PrintStringConcat(key, [COLON] + rest, more);
    assert [COLON] + (rest + more) == [COLON] + rest + more;
  }

  lemma {:induction false} PrintConcat(v: Json, rest: bytes, more: bytes)
    ensures Print(v, rest + more) == Print(v, rest) + more
    decreases v, 1
  {
    match v {
      case Null =>
      case Bool(_) =>
      case Number(_) =>
      case String(s) => PrintStringConcat(s, rest, more);
      case Array(items) =>
        PrintItemsConcat(items, [RIGHT_BRACKET] + rest, more);
        assert [RIGHT_BRACKET] + (rest + more) == [RIGHT_BRACKET] + rest + more;
      case Object(members) =>
        PrintMembersConcat(members, [RIGHT_BRACE] + rest, more);
        assert [RIGHT_BRACE] + (rest + more) == [RIGHT_BRACE] + rest + more;
    }
  }

  lemma {:induction false} PrintItemsConcat(items: seq<Json>, rest: bytes, more: bytes)
    ensures PrintItems(items, rest + more) == PrintItems(items, rest) + more
    decreases items, 0
  {
    if |items| == 1 {
      PrintConcat(items[0], rest, more);
    } else if items != [] {
      PrintItemsConcat(items[1..], rest, more);
      PrintConcat(items[0], [COMMA] + PrintItems(items[1..], rest), more);
      assert [COMMA] + (PrintItems(items[1..], rest) + more) == [COMMA] + PrintItems(items[1..], rest) + more;
    }
  }

  lemma {:induction false} PrintMembersConcat(members: seq<Member>, rest: bytes, more: bytes)
    ensures PrintMembers(members, rest + more) == PrintMembers(members, rest) + more
    decreases members, 0
  {
    if |members| == 1 {
      PrintMemberConcat(members[0], rest, more);
    } else if members != [] {
      PrintMembersConcat(members[1..], rest, more);
      PrintMemberConcat(members[0], [COMMA] + PrintMembers(members[1..], rest), more);
      assert [COMMA] + (PrintMembers(members[1..], rest) + more) == [COMMA] + PrintMembers(members[1..], rest) + more;
    }
  }

  lemma {:induction false} PrintMemberConcat(m: Member, rest: bytes, more: bytes)
    ensures PrintMember(m, rest + more) == PrintMember(m, rest) + more
    decreases m, 0
  {
    PrintConcat(m.value, rest, more);
    PrintKeyConcat(m.key, Print(m.value, rest), more);
  }
}
