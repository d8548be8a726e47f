/**
  Byte strings and the UTF-8 decoding step that the JSON escaper relies on.
  `DecodeRune` is the decoder of Go's `unicode/utf8`; `EncodeRune` is the encoder of
  section 3 of RFC 3629 and serves as its independent partner.
 */
module Utf8 {

  type Byte = b: int | 0 <= b < 256
  type Bytes = seq<Byte>

  /** A Unicode scalar value: any code point outside the surrogate range. */
  type Rune = r: int | 0 <= r < 0xD800 || 0xE000 <= r < 0x110000

  const RUNE_SELF: int := 0x80
  const RUNE_ERROR: Rune := 0xFFFD

  /** The bytes of an ASCII text. */
  function Ascii(text: string): (bs: Bytes)
    requires forall i | 0 <= i < |text| :: text[i] < 128 as char
    ensures |bs| == |text| && forall i | 0 <= i < |bs| :: bs[i] == text[i] as int
  {
    seq(|text|, i requires 0 <= i < |text| => text[i] as int)
  }

  predicate IsContinuation(b: Byte) {
    0x80 <= b <= 0xBF
  }

  /** Second byte of a three-byte sequence: excludes overlong forms and surrogates. */
  predicate SecondOfThree(b0: Byte, b1: Byte) {
    IsContinuation(b1) && (b0 == 0xE0 ==> 0xA0 <= b1) && (b0 == 0xED ==> b1 <= 0x9F)
  }

  /** Second byte of a four-byte sequence: excludes overlong forms and values past U+10FFFF. */
  predicate SecondOfFour(b0: Byte, b1: Byte) {
    IsContinuation(b1) && (b0 == 0xF0 ==> 0x90 <= b1) && (b0 == 0xF4 ==> b1 <= 0x8F)
  }

  /** Width of the well-formed sequence at the head of `s`, or 0 when there is none. */
  function SequenceWidth(s: Bytes): (n: nat)
    ensures n <= |s| && n <= 4
    ensures s != [] && s[0] < RUNE_SELF ==> n == 1
  {
    if s == [] then 0
    else if s[0] < RUNE_SELF then 1
    else if 0xC2 <= s[0] <= 0xDF && |s| >= 2 && IsContinuation(s[1]) then 2
    else if 0xE0 <= s[0] <= 0xEF && |s| >= 3 && SecondOfThree(s[0], s[1]) && IsContinuation(s[2]) then 3
    else if 0xF0 <= s[0] <= 0xF4 && |s| >= 4 && SecondOfFour(s[0], s[1])
            && IsContinuation(s[2]) && IsContinuation(s[3]) then 4
    else 0
  }

  /** What remains of a byte once its marker bits are taken off. */
  function Payload(b: Byte, marker: int): int {
    b - marker
  }

  /** The scalar value of the well-formed sequence at the head of `s`. */
  function SequenceValue(s: Bytes): (r: Rune)
    requires SequenceWidth(s) > 0
    ensures r < RUNE_SELF <==> SequenceWidth(s) == 1
  {
    match SequenceWidth(s)
    case 1 => s[0]
    case 2 => Payload(s[0], 0xC0) * 0x40 + Payload(s[1], 0x80)
    case 3 => Payload(s[0], 0xE0) * 0x1000 + Payload(s[1], 0x80) * 0x40 + Payload(s[2], 0x80)
    case _ => Payload(s[0], 0xF0) * 0x40000 + Payload(s[1], 0x80) * 0x1000
              + Payload(s[2], 0x80) * 0x40 + Payload(s[3], 0x80)
  }

  /** The rune at the head of `s` and its width; an undecodable byte is (U+FFFD, 1). */
  function DecodeRune(s: Bytes): (d: (Rune, nat))
    ensures s != [] ==> 1 <= d.1 <= |s|
    ensures d.0 == RUNE_ERROR && d.1 == 1 <==> s != [] && SequenceWidth(s) == 0
  {
    if s == [] then (RUNE_ERROR, 0)
    else if SequenceWidth(s) == 0 then (RUNE_ERROR, 1)
    else (SequenceValue(s), SequenceWidth(s))
  }

  /** The runes of `s`, each undecodable byte standing for U+FFFD. */
  function Runes(s: Bytes): (rs: seq<Rune>) {
    if s == [] then [] else [DecodeRune(s).0] + Runes(s[DecodeRune(s).1..])
  }

  predicate ValidUtf8(s: Bytes) {
    s == [] || (SequenceWidth(s) > 0 && ValidUtf8(s[SequenceWidth(s)..]))
  }

  /** The UTF-8 form of one scalar value. */
  function EncodeRune(r: Rune): (s: Bytes)
    ensures 1 <= |s| <= 4
  {
    if r < 0x80 then [r]
    else if r < 0x800 then [0xC0 + r / 0x40, 0x80 + r % 0x40]
    else if r < 0x10000 then [0xE0 + r / 0x1000, 0x80 + r / 0x40 % 0x40, 0x80 + r % 0x40]
    else [0xF0 + r / 0x40000, 0x80 + r / 0x1000 % 0x40, 0x80 + r / 0x40 % 0x40, 0x80 + r % 0x40]
  }

  function EncodeRunes(rs: seq<Rune>): (s: Bytes) {
    if rs == [] then [] else EncodeRune(rs[0]) + EncodeRunes(rs[1..])
  }

  // ---------------------------------------------------------------- one rune

  /** A well-formed head is recognised whatever follows it, and only its own bytes matter. */
  lemma WidthIsLocal(s: Bytes, tail: Bytes)
    requires SequenceWidth(s) > 0
    ensures SequenceWidth(s[..SequenceWidth(s)] + tail) == SequenceWidth(s)
    ensures SequenceValue(s[..SequenceWidth(s)] + tail) == SequenceValue(s)
    ensures SequenceWidth(s + tail) == SequenceWidth(s)
    ensures SequenceValue(s + tail) == SequenceValue(s)
  {
    var n := SequenceWidth(s);
    var t := s[..n] + tail;
    var u := s + tail;
    assert forall i | 0 <= i < n :: t[i] == s[i] && u[i] == s[i];
  }

  /** Appending a six-bit group and splitting it off again. */
  lemma SixBits(high: int, low: int)
    requires 0 <= low < 0x40
    ensures (high * 0x40 + low) / 0x40 == high
    ensures (high * 0x40 + low) % 0x40 == low
  {
  }

  lemma EncodeThree(a: int, b: int, c: int)
    requires 0 <= a < 0x10 && 0 <= b < 0x40 && 0 <= c < 0x40
    ensures var r := a * 0x1000 + b * 0x40 + c;
            r / 0x1000 == a && r / 0x40 % 0x40 == b && r % 0x40 == c
  {
    SixBits(a * 0x40 + b, c);
    SixBits(a, b);
  }

  lemma EncodeFour(a: int, b: int, c: int, d: int)
    requires 0 <= a < 8 && 0 <= b < 0x40 && 0 <= c < 0x40 && 0 <= d < 0x40
    ensures var r := a * 0x40000 + b * 0x1000 + c * 0x40 + d;
            r / 0x40000 == a && r / 0x1000 % 0x40 == b && r / 0x40 % 0x40 == c && r % 0x40 == d
  {
    SixBits((a * 0x40 + b) * 0x40 + c, d);
    SixBits(a * 0x40 + b, c);
    SixBits(a, b);
  }

  /** Encoding inverts decoding on a well-formed sequence. */
  lemma EncodeDecoded(s: Bytes)
    requires SequenceWidth(s) > 0
    ensures EncodeRune(SequenceValue(s)) == s[..SequenceWidth(s)]
  {
    match SequenceWidth(s)
    case 1 =>
    case 2 => SixBits(Payload(s[0], 0xC0), Payload(s[1], 0x80));
    case 3 => EncodeThree(Payload(s[0], 0xE0), Payload(s[1], 0x80), Payload(s[2], 0x80));
    case _ => EncodeFour(Payload(s[0], 0xF0), Payload(s[1], 0x80), Payload(s[2], 0x80), Payload(s[3], 0x80));
  }

  lemma DecodeShort(r: Rune, tail: Bytes)
    requires r < 0x800
    ensures DecodeRune(EncodeRune(r) + tail) == (r, |EncodeRune(r)|)
  {
    var e := EncodeRune(r);
    var s := e + tail;
    assert forall i | 0 <= i < |e| :: s[i] == e[i];
  }

  lemma DecodeThree(r: Rune, tail: Bytes)
    requires 0x800 <= r < 0x10000
    ensures DecodeRune(EncodeRune(r) + tail) == (r, 3)
  {
    var e := EncodeRune(r);
    var s := e + tail;
    assert s[0] == e[0] && s[1] == e[1] && s[2] == e[2];
    assert r / 0x40 == r / 0x1000 * 0x40 + r / 0x40 % 0x40;
  }

  lemma DecodeFour(r: Rune, tail: Bytes)
    requires 0x10000 <= r
    ensures DecodeRune(EncodeRune(r) + tail) == (r, 4)
  {
    var e := EncodeRune(r);
    var s := e + tail;
    assert s[0] == e[0] && s[1] == e[1] && s[2] == e[2] && s[3] == e[3];
    assert r / 0x1000 == r / 0x40000 * 0x40 + r / 0x1000 % 0x40;
    assert r / 0x40 == r / 0x1000 * 0x40 + r / 0x40 % 0x40;
  }

  /** Decoding inverts encoding on every scalar value, whatever follows. */
  lemma DecodeEncoded(r: Rune, tail: Bytes)
    ensures DecodeRune(EncodeRune(r) + tail) == (r, |EncodeRune(r)|)
    ensures SequenceWidth(EncodeRune(r) + tail) == |EncodeRune(r)|
  {
    hide SequenceWidth, SequenceValue;
    if r < 0x800 {
      DecodeShort(r, tail);
    } else if r < 0x10000 {
      DecodeThree(r, tail);
    } else {
      DecodeFour(r, tail);
    }
  }

  // ------------------------------------------------------------ whole strings

  /** Re-encoding the runes of `s` gives `s` back exactly when `s` is valid UTF-8;
      otherwise the replacement characters make the text strictly longer. */
  lemma {:induction false} SanitizeIdentity(s: Bytes)
    ensures |EncodeRunes(Runes(s))| >= |s|
    ensures ValidUtf8(s) ==> EncodeRunes(Runes(s)) == s
    ensures !ValidUtf8(s) ==> |EncodeRunes(Runes(s))| > |s|
  {
    hide SequenceWidth, SequenceValue;
    if s != [] {
      var n := DecodeRune(s).1;
      SanitizeIdentity(s[n..]);
      assert Runes(s) == [DecodeRune(s).0] + Runes(s[n..]);
      assert Runes(s)[1..] == Runes(s[n..]);
      if SequenceWidth(s) > 0 {
        EncodeDecoded(s);
        assert s == s[..n] + s[n..];
      } else {
        assert EncodeRune(RUNE_ERROR) == [0xEF, 0xBF, 0xBD];
      }
    }
  }

  /** Encoded text is valid UTF-8 and decodes to the runes it was made from. */
  lemma {:induction false} RunesOfEncoded(rs: seq<Rune>)
    ensures ValidUtf8(EncodeRunes(rs))
    ensures Runes(EncodeRunes(rs)) == rs
  {
    if rs != [] {
      var e, tail := EncodeRune(rs[0]), EncodeRunes(rs[1..]);
      DecodeEncoded(rs[0], tail);
      RunesOfEncoded(rs[1..]);
      assert (e + tail)[|e|..] == tail;
    }
  }

  lemma {:induction false} ValidUtf8Concat(a: Bytes, b: Bytes)
    requires ValidUtf8(a) && ValidUtf8(b)
    ensures ValidUtf8(a + b)
  {
    hide SequenceWidth, SequenceValue;
    if a == [] {
      assert a + b == b;
    } else {
      var n := SequenceWidth(a);
      assert ValidUtf8((a + b)[n..]) by {
        ValidUtf8Concat(a[n..], b);
        assert (a + b)[n..] == a[n..] + b;
      }
      assert SequenceWidth(a + b) == n by { WidthIsLocal(a, b); }
    }
  }
}
