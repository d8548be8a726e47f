/** The values a primitive encoder can append, the JSON text each is written as, and what
    that text means. */
module Primitives {
  import opened Utf8
  import opened Escape
  import opened EscapeProperties
  import opened Document
  import T = JsonText
  import P = JsonTextProperties

  /** A number in the form `strconv` prints it. */
  type NumberToken = t: Bytes | t != [] && T.NumberLength(t) == |t| witness [0x30]

  /** Text that is quoted without escaping; the encoder relies on it needing none. */
  type PlainText = t: Bytes | Escaped(t) == t witness []

  /** A printed float: digits, signs, a point, or one of the words NaN and Inf. */
  type AsciiToken = t: Bytes | IsPlainAscii(t) witness []

  /** Printable ASCII other than the quote and the backslash. */
  predicate IsPlainAscii(t: Bytes) {
    forall i | 0 <= i < |t| :: t[i] < RUNE_SELF && !NeedsEscape(t[i])
  }

  datatype FloatValue = NaN | PosInf | NegInf | Finite(token: NumberToken)

  datatype Primitive =
    | Bool(b: bool)
    | Int(i: int)
    | Float(f: FloatValue)
    | Str(s: Bytes)
    | Complex(re: AsciiToken, imNonNegative: bool, im: AsciiToken)
    | Layout(text: PlainText)

  // ----------------------------------------------------------------- decimals

  function Digits(n: nat): (ds: Bytes)
    ensures ds != []
  {
    if n < 10 then [0x30 + n] else Digits(n / 10) + [0x30 + n % 10]
  }

  /** `strconv.AppendInt` in base ten. */
  function Decimal(i: int): (t: Bytes)
    ensures t != []
  {
    if i < 0 then [T.MINUS] + Digits(-i) else Digits(i)
  }

  function DigitsValue(ds: Bytes): int {
    if ds == [] then 0 else DigitsValue(ds[..|ds| - 1]) * 10 + (ds[|ds| - 1] as int - 0x30)
  }

  /** The integer a plain integer token denotes. */
  function IntegerValue(t: Bytes): int {
    if t != [] && t[0] == T.MINUS then -DigitsValue(t[1..]) else DigitsValue(t)
  }

  lemma {:induction false} DigitsShape(n: nat)
    ensures forall i | 0 <= i < |Digits(n)| :: T.IsDigit(Digits(n)[i])
    ensures Digits(n)[0] == 0x30 ==> |Digits(n)| == 1
    ensures DigitsValue(Digits(n)) == n
    ensures n > 0 ==> Digits(n)[0] != 0x30
  {
    if n >= 10 {
      DigitsShape(n / 10);
      var ds := Digits(n);
      assert ds[..|ds| - 1] == Digits(n / 10);
    } else {
      assert Digits(n)[..0] == [];
    }
  }

  lemma {:induction false} AllDigits(ds: Bytes)
    requires forall i | 0 <= i < |ds| :: T.IsDigit(ds[i])
    ensures T.DigitCount(ds) == |ds|
  {
    if ds != [] {
      AllDigits(ds[1..]);
    }
  }

  /** A printed integer is a JSON number and denotes the integer it was printed from. */
  lemma DecimalIsNumber(i: int)
    ensures T.NumberLength(Decimal(i)) == |Decimal(i)|
    ensures IntegerValue(Decimal(i)) == i
  {
    hide T.DigitCount, DigitsValue;
    var t := Decimal(i);
    var a := if i < 0 then 1 else 0;
    var ds := Digits(if i < 0 then -i else i);
    DigitsShape(if i < 0 then -i else i);
    assert t[a..] == ds;
    assert t[0] == T.MINUS <==> i < 0;
    AllDigits(ds);
    assert T.IntLength(t[a..]) == |ds|;
    assert t[a + |ds|..] == [];
  }

  lemma NumberTokenIsJson(t: NumberToken)
    ensures IsJson(t) && LeafValue(t) == T.JNumber(t)
  {
    hide T.NumberLength, T.ReadString, T.ReadElems, T.ReadMembers;
    P.NumberStart(t);
    assert T.SkipSpace(t) == t;
    assert t[..|t|] == t;
  }

  lemma QuotedIsJson(s: Bytes)
    ensures IsJson(Quoted(s)) && LeafValue(Quoted(s)) == T.JString(Runes(s))
  {
    hide T.ReadValue, Escaped, Runes;
    EscapedStringValue(s, []);
    assert Quoted(s) + [] == Quoted(s);
    assert T.SkipSpace(Quoted(s)) == Quoted(s);
  }

  lemma LiteralsAreJson()
    ensures IsJson(T.NULL) && LeafValue(T.NULL) == T.JNull
    ensures IsJson(T.TRUE) && LeafValue(T.TRUE) == T.JBool(true)
    ensures IsJson(T.FALSE) && LeafValue(T.FALSE) == T.JBool(false)
  {
    hide T.NumberLength;
  }

  // --------------------------------------------------------------- primitives

  const NAN: Bytes := [0x4E, 0x61, 0x4E]
  const POS_INF: Bytes := [0x2B, 0x49, 0x6E, 0x66]
  const NEG_INF: Bytes := [0x2D, 0x49, 0x6E, 0x66]

  /** `appendComplex`: real part, a plus sign unless the imaginary part brings its own, `i`. */
  function ComplexText(re: AsciiToken, imNonNegative: bool, im: AsciiToken): (t: Bytes)
    ensures IsPlainAscii(t)
    ensures imNonNegative ==> t == re + Ascii("+") + im + Ascii("i")
    ensures !imNonNegative ==> t == re + im + Ascii("i")
  {
    re + (if imNonNegative then [0x2B] else []) + im + [0x69]
  }

  /** The words for the floats JSON has no number for. */
  lemma FloatWords()
    ensures NAN == Ascii("NaN") && POS_INF == Ascii("+Inf") && NEG_INF == Ascii("-Inf")
  {
  }

  /** The bytes an `Append` call writes after its separator. */
  function PrimitiveText(p: Primitive): Bytes {
    match p
    case Bool(b) => if b then T.TRUE else T.FALSE
    case Int(i) => Decimal(i)
    case Float(NaN) => [QUOTE] + NAN + [QUOTE]
    case Float(PosInf) => [QUOTE] + POS_INF + [QUOTE]
    case Float(NegInf) => [QUOTE] + NEG_INF + [QUOTE]
    case Float(Finite(t)) => t
    case Str(s) => Quoted(s)
    case Complex(re, pos, im) => [QUOTE] + ComplexText(re, pos, im) + [QUOTE]
    case Layout(t) => [QUOTE] + t + [QUOTE]
  }

  /** The JSON value a primitive stands for. */
  function PrimitiveValue(p: Primitive): T.Json {
    match p
    case Bool(b) => T.JBool(b)
    case Int(i) => T.JNumber(Decimal(i))
    case Float(NaN) => T.JString(NAN)
    case Float(PosInf) => T.JString(POS_INF)
    case Float(NegInf) => T.JString(NEG_INF)
    case Float(Finite(t)) => T.JNumber(t)
    case Str(s) => T.JString(Runes(s))
    case Complex(re, pos, im) => T.JString(ComplexText(re, pos, im))
    case Layout(t) => T.JString(Runes(t))
  }

  lemma {:induction false} PlainAscii(t: Bytes)
    requires IsPlainAscii(t)
    ensures Escaped(t) == t && Runes(t) == t
  {
    hide SequenceValue;
    if t != [] {
      AsciiValue(t);
      PlainAscii(t[1..]);
      assert t[..1] == [t[0]];
    }
  }

  /** Every primitive is written as one JSON value, and as the right one. */
  lemma PrimitiveIsJson(p: Primitive)
    ensures IsJson(PrimitiveText(p)) && LeafValue(PrimitiveText(p)) == PrimitiveValue(p)
  {
    hide IsJson, LeafValue, Decimal, Escaped, Runes, T.NumberLength;
    match p
    case Bool(b) => LiteralsAreJson();
    case Int(i) =>
      DecimalIsNumber(i);
      NumberTokenIsJson(Decimal(i));
    case Float(NaN) =>
      PlainAscii(NAN);
      QuotedIsJson(NAN);
    case Float(PosInf) =>
      PlainAscii(POS_INF);
      QuotedIsJson(POS_INF);
    case Float(NegInf) =>
      PlainAscii(NEG_INF);
      QuotedIsJson(NEG_INF);
    case Float(Finite(t)) => NumberTokenIsJson(t);
    case Str(s) => QuotedIsJson(s);
    case Complex(re, pos, im) =>
      PlainAscii(ComplexText(re, pos, im));
      QuotedIsJson(ComplexText(re, pos, im));
    case Layout(t) => QuotedIsJson(t);
  }

  /** The leaf an `Append` of `p` adds. */
  function PrimitiveLeaf(p: Primitive): (d: Doc)
    ensures d.Leaf? && d.text == PrimitiveText(p) && Meaning(d) == PrimitiveValue(p)
  {
    PrimitiveIsJson(p);
    Leaf(PrimitiveText(p))
  }
}
