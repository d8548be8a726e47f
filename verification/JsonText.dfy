/**
  A reference reader for JSON texts, following the grammar of RFC 8259: whitespace and
  structural characters (section 2), literals (section 3), objects (section 4),
  arrays (section 5), numbers (section 6) and strings (section 7). It is deterministic, so
  the value of a text is unique.
 */
module JsonText {
  import opened Utf8

  /** A JSON value. A number is kept as its token; object members keep order and repetition. */
  datatype Json =
    | JNull
    | JBool(b: bool)
    | JNumber(token: Bytes)
    | JString(text: seq<Rune>)
    | JArray(elems: seq<Json>)
    | JObject(members: seq<JMember>)

  datatype JMember = JMember(key: seq<Rune>, value: Json)

  /** What a reading step gives: a value and the unread rest, or failure. */
  datatype Read<+T> = Bad | Got(v: T, rest: Bytes)

  const QUOTE: Byte := 0x22
  const BACKSLASH: Byte := 0x5C
  const LBRACE: Byte := 0x7B
  const RBRACE: Byte := 0x7D
  const LBRACKET: Byte := 0x5B
  const RBRACKET: Byte := 0x5D
  const COMMA: Byte := 0x2C
  const COLON: Byte := 0x3A
  const SPACE: Byte := 0x20
  const MINUS: Byte := 0x2D

  const NULL: Bytes := [0x6E, 0x75, 0x6C, 0x6C]
  const TRUE: Bytes := [0x74, 0x72, 0x75, 0x65]
  const FALSE: Bytes := [0x66, 0x61, 0x6C, 0x73, 0x65]

  predicate IsSpace(b: Byte) {
    b == 0x20 || b == 0x09 || b == 0x0A || b == 0x0D
  }

  predicate IsDigit(b: Byte) {
    0x30 <= b <= 0x39
  }

  function SkipSpace(bs: Bytes): (r: Bytes)
    ensures |r| <= |bs|
  {
    if bs != [] && IsSpace(bs[0]) then SkipSpace(bs[1..]) else bs
  }

  // ------------------------------------------------------------------ strings

  function HexValue(b: Byte): (v: int)
    ensures -1 <= v < 16
  {
    if IsDigit(b) then b - 0x30
    else if 0x61 <= b <= 0x66 then b - 0x61 + 10
    else if 0x41 <= b <= 0x46 then b - 0x41 + 10
    else -1
  }

  /** The code unit named by four hexadecimal digits at the head of `bs`, or -1. */
  function HexQuad(bs: Bytes): (v: int)
    ensures -1 <= v < 0x10000
    ensures v >= 0 ==> |bs| >= 4
  {
    if |bs| >= 4 && HexValue(bs[0]) >= 0 && HexValue(bs[1]) >= 0 && HexValue(bs[2]) >= 0 && HexValue(bs[3]) >= 0
    then HexValue(bs[0]) * 0x1000 + HexValue(bs[1]) * 0x100 + HexValue(bs[2]) * 0x10 + HexValue(bs[3])
    else -1
  }

  /** What one character of a string body names: a scalar value, or half of a surrogate pair. */
  type CodePoint = c: int | 0 <= c < 0x110000

  /** The code point named by the escape whose backslash has been read. */
  function ReadEscape(bs: Bytes): (r: Read<CodePoint>)
    ensures r.Got? ==> |r.rest| < |bs|
  {
    if bs == [] then Bad
    else if bs[0] == QUOTE || bs[0] == BACKSLASH || bs[0] == 0x2F then Got(bs[0], bs[1..])
    else if bs[0] == 0x62 then Got(0x08, bs[1..])
    else if bs[0] == 0x66 then Got(0x0C, bs[1..])
    else if bs[0] == 0x6E then Got(0x0A, bs[1..])
    else if bs[0] == 0x72 then Got(0x0D, bs[1..])
    else if bs[0] == 0x74 then Got(0x09, bs[1..])
    else if bs[0] == 0x75 && HexQuad(bs[1..]) >= 0 then Got(HexQuad(bs[1..]), bs[5..])
    else Bad
  }

  /** One character of a string body: an escape, or an unescaped scalar value in UTF-8. */
  function ReadChar(bs: Bytes): (r: Read<CodePoint>)
    ensures r.Got? ==> |r.rest| < |bs|
  {
    if bs == [] || bs[0] < 0x20 || bs[0] == QUOTE then Bad
    else if bs[0] == BACKSLASH then ReadEscape(bs[1..])
    else if SequenceWidth(bs) == 0 then Bad
    else Got(SequenceValue(bs), bs[SequenceWidth(bs)..])
  }

  /** The string whose opening quote has been read, up to and including the closing one. */
  function ReadString(bs: Bytes): (r: Read<seq<CodePoint>>)
    ensures r.Got? ==> |r.rest| < |bs|
    decreases |bs|
  {
    if bs != [] && bs[0] == QUOTE then Got([], bs[1..])
    else match ReadChar(bs)
      case Bad => Bad
      case Got(c, rest) =>
        match ReadString(rest)
        case Bad => Bad
        case Got(cs, after) => Got([c] + cs, after)
  }

  /** The text of a string: a surrogate pair names one scalar value, an unpaired half U+FFFD. */
  function JoinSurrogates(cs: seq<CodePoint>): (rs: seq<Rune>) {
    if cs == [] then []
    else if |cs| > 1 && 0xD800 <= cs[0] < 0xDC00 <= cs[1] < 0xE000 then
      [0x10000 + (cs[0] - 0xD800) * 0x400 + (cs[1] - 0xDC00)] + JoinSurrogates(cs[2..])
    else
      [if 0xD800 <= cs[0] < 0xE000 then RUNE_ERROR else cs[0]] + JoinSurrogates(cs[1..])
  }

  // ------------------------------------------------------------------ numbers

  function DigitCount(bs: Bytes): (n: nat)
    ensures n <= |bs|
    ensures n < |bs| ==> !IsDigit(bs[n])
    ensures forall i | 0 <= i < n :: IsDigit(bs[i])
  {
    if bs == [] || !IsDigit(bs[0]) then 0 else 1 + DigitCount(bs[1..])
  }

  /** Length of the integer part at the head of `bs` (no superfluous leading zero), or 0. */
  function IntLength(bs: Bytes): (n: nat)
    ensures n <= |bs|
  {
    if bs != [] && bs[0] == 0x30 then 1 else DigitCount(bs)
  }

  /** Length of an optional fraction at the head of `bs`, or -1 if one starts but is malformed. */
  function FracLength(bs: Bytes): (n: int)
    ensures -1 <= n <= |bs|
  {
    if bs == [] || bs[0] != 0x2E then 0
    else if DigitCount(bs[1..]) == 0 then -1
    else 1 + DigitCount(bs[1..])
  }

  /** Length of an optional exponent at the head of `bs`, or -1 if one starts but is malformed. */
  function ExpLength(bs: Bytes): (n: int)
    ensures -1 <= n <= |bs|
  {
    if bs == [] || (bs[0] != 0x65 && bs[0] != 0x45) then 0
    else
      var sign := if |bs| > 1 && (bs[1] == 0x2B || bs[1] == MINUS) then 2 else 1;
      if DigitCount(bs[sign..]) == 0 then -1 else sign + DigitCount(bs[sign..])
  }

  /** Length of the number at the head of `bs`, or 0 when there is none. */
  function NumberLength(bs: Bytes): (n: nat)
    ensures n <= |bs|
  {
    var a := if bs != [] && bs[0] == MINUS then 1 else 0;
    var i := IntLength(bs[a..]);
    if i == 0 then 0
    else
      var f := FracLength(bs[a + i..]);
      if f < 0 then 0
      else
        var e := ExpLength(bs[a + i + f..]);
        if e < 0 then 0 else a + i + f + e
  }

  // ------------------------------------------------------------------- values

  predicate StartsWith(bs: Bytes, word: Bytes) {
    |bs| >= |word| && bs[..|word|] == word
  }

  /** A literal or a number. */
  function ReadToken(bs: Bytes): (r: Read<Json>)
    ensures r.Got? ==> |r.rest| < |bs|
  {
    if StartsWith(bs, NULL) then Got(JNull, bs[4..])
    else if StartsWith(bs, TRUE) then Got(JBool(true), bs[4..])
    else if StartsWith(bs, FALSE) then Got(JBool(false), bs[5..])
    else if NumberLength(bs) > 0 then Got(JNumber(bs[..NumberLength(bs)]), bs[NumberLength(bs)..])
    else Bad
  }

  /** The value that starts at the head of `bs`, without leading whitespace. */
  function ReadValue(bs: Bytes): (r: Read<Json>)
    ensures r.Got? ==> |r.rest| < |bs|
    decreases |bs|, 0
  {
    if bs == [] then Bad
    else if bs[0] == QUOTE then
      match ReadString(bs[1..])
      case Bad => Bad
      case Got(cs, rest) => Got(JString(JoinSurrogates(cs)), rest)
    else if bs[0] == LBRACE then
      var inner := SkipSpace(bs[1..]);
      if inner != [] && inner[0] == RBRACE then Got(JObject([]), inner[1..])
      else match ReadMembers(inner)
        case Bad => Bad
        case Got(ms, rest) => Got(JObject(ms), rest)
    else if bs[0] == LBRACKET then
      var inner := SkipSpace(bs[1..]);
      if inner != [] && inner[0] == RBRACKET then Got(JArray([]), inner[1..])
      else match ReadElems(inner)
        case Bad => Bad
        case Got(es, rest) => Got(JArray(es), rest)
    else ReadToken(bs)
  }

  /** One or more elements up to and including the closing bracket. */
  function ReadElems(bs: Bytes): (r: Read<seq<Json>>)
    ensures r.Got? ==> |r.rest| < |bs|
    decreases |bs|, 2
  {
    match ReadValue(bs)
    case Bad => Bad
    case Got(v, rest) =>
      var next := SkipSpace(rest);
      if next == [] then Bad
      else if next[0] == RBRACKET then Got([v], next[1..])
      else if next[0] != COMMA then Bad
      else match ReadElems(SkipSpace(next[1..]))
        case Bad => Bad
        case Got(vs, after) => Got([v] + vs, after)
  }

  /** One member: a string, a colon and a value. */
  function ReadMember(bs: Bytes): (r: Read<JMember>)
    ensures r.Got? ==> |r.rest| < |bs|
    decreases |bs|, 1
  {
    if bs == [] || bs[0] != QUOTE then Bad
    else match ReadString(bs[1..])
      case Bad => Bad
      case Got(k, rest) =>
        var colon := SkipSpace(rest);
        if colon == [] || colon[0] != COLON then Bad
        else match ReadValue(SkipSpace(colon[1..]))
          case Bad => Bad
          case Got(v, after) => Got(JMember(JoinSurrogates(k), v), after)
  }

  /** One or more members up to and including the closing brace. */
  function ReadMembers(bs: Bytes): (r: Read<seq<JMember>>)
    ensures r.Got? ==> |r.rest| < |bs|
    decreases |bs|, 2
  {
    match ReadMember(bs)
    case Bad => Bad
    case Got(m, rest) =>
      var next := SkipSpace(rest);
      if next == [] then Bad
      else if next[0] == RBRACE then Got([m], next[1..])
      else if next[0] != COMMA then Bad
      else match ReadMembers(SkipSpace(next[1..]))
        case Bad => Bad
        case Got(ms, after) => Got([m] + ms, after)
  }

  /** A whole JSON text: one value, with whitespace around it. */
  function ReadText(bs: Bytes): (r: Read<Json>) {
    match ReadValue(SkipSpace(bs))
    case Bad => Bad
    case Got(v, rest) => if SkipSpace(rest) == [] then Got(v, []) else Bad
  }
}
