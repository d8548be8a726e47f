/** What the escaper's output means to a JSON reader. */
module EscapeProperties {
  import opened Utf8
  import opened Escape
  import T = JsonText

  lemma EscapeSequenceReads(b: Byte, tail: Bytes)
    requires NeedsEscape(b)
    ensures T.ReadChar(EscapeSequence(b) + tail) == T.Got(b, tail)
    ensures EscapeSequence(b)[0] == BACKSLASH
  {
    hide SequenceWidth, SequenceValue;
    var e := EscapeSequence(b);
    var u := e + tail;
    assert u[0] == BACKSLASH && u[1] == e[1];
    if |e| == 2 {
      assert u[1..][1..] == tail;
    } else {
      assert u[1..][1..][..4] == e[2..];
      assert T.HexQuad(u[1..][1..]) == b;
      assert u[1..][5..] == tail;
    }
  }

  lemma ReplacementReads(tail: Bytes)
    ensures T.ReadChar(REPLACEMENT + tail) == T.Got(RUNE_ERROR, tail)
  {
    hide SequenceWidth, SequenceValue;
    var u := REPLACEMENT + tail;
    assert u[0] == BACKSLASH && u[1] == 0x75;
    assert u[1..][1..][..4] == REPLACEMENT[2..];
    assert T.HexQuad(u[1..][1..]) == RUNE_ERROR;
    assert u[1..][5..] == tail;
  }

  /** The escaped form of one rune is one JSON character naming that rune. */
  lemma EscapeHeadReads(s: Bytes, tail: Bytes)
    requires s != []
    ensures T.ReadChar(EscapeHead(s) + tail) == T.Got(DecodeRune(s).0, tail)
    ensures EscapeHead(s)[0] != QUOTE
  {
    hide SequenceWidth, SequenceValue, EscapeSequence, T.ReadEscape;
    if SequenceWidth(s) == 0 {
      ReplacementReads(tail);
    } else if s[0] < RUNE_SELF && NeedsEscape(s[0]) {
      EscapeSequenceReads(s[0], tail);
      assert SequenceValue(s) == s[0] by { AsciiValue(s); }
    } else {
      var n := SequenceWidth(s);
      WidthIsLocal(s, tail);
      var u := s[..n] + tail;
      assert u[0] == s[0] && u[n..] == tail;
    }
  }

  lemma AsciiValue(s: Bytes)
    requires s != [] && s[0] < RUNE_SELF
    ensures SequenceWidth(s) == 1 && SequenceValue(s) == s[0]
  {
  }

  /** Between quotes, the escaped form of any byte string is a JSON string (section 7 of
      RFC 8259) that reads back as the runes of the input. */
  lemma {:induction false} EscapedReads(s: Bytes, tail: Bytes)
    ensures T.ReadString(Escaped(s) + [QUOTE] + tail) == T.Got(Runes(s), tail)
    decreases |s|
  {
    hide SequenceWidth, SequenceValue, EscapeHead, T.ReadChar;
    if s == [] {
      assert Escaped(s) + [QUOTE] + tail == [QUOTE] + tail;
      assert ([QUOTE] + tail)[1..] == tail;
    } else {
      var n := DecodeRune(s).1;
      var more := Escaped(s[n..]) + [QUOTE] + tail;
      var u := Escaped(s) + [QUOTE] + tail;
      assert u == EscapeHead(s) + more;
      EscapeHeadReads(s, more);
      EscapedReads(s[n..], tail);
      assert u[0] == EscapeHead(s)[0];
    }
  }

  /** Scalar values contain no surrogate, so joining leaves them alone. */
  lemma {:induction false} JoinIsIdentity(rs: seq<Rune>)
    ensures T.JoinSurrogates(rs) == rs
  {
    if rs != [] {
      JoinIsIdentity(rs[1..]);
    }
  }

  lemma {:induction false} AsciiIsValid(e: Bytes)
    requires forall i | 0 <= i < |e| :: e[i] < RUNE_SELF
    ensures ValidUtf8(e)
  {
    if e != [] {
      AsciiIsValid(e[1..]);
    }
  }

  lemma EscapeHeadIsValid(s: Bytes)
    requires s != []
    ensures ValidUtf8(EscapeHead(s))
  {
    if SequenceWidth(s) == 0 {
      AsciiIsValid(REPLACEMENT);
    } else if s[0] < RUNE_SELF && NeedsEscape(s[0]) {
      AsciiIsValid(EscapeSequence(s[0]));
    } else {
      hide SequenceWidth, SequenceValue;
      var e := s[..SequenceWidth(s)];
      WidthIsLocal(s, []);
      assert e + [] == e;
      assert e[SequenceWidth(e)..] == [];
    }
  }

  /** Whatever the input, the output is valid UTF-8 (section 4 of RFC 3629). */
  lemma {:induction false} EscapedIsValid(s: Bytes)
    ensures ValidUtf8(Escaped(s))
    decreases |s|
  {
    hide SequenceWidth, SequenceValue, EscapeHead;
    if s != [] {
      var n := DecodeRune(s).1;
      EscapeHeadIsValid(s);
      EscapedIsValid(s[n..]);
      ValidUtf8Concat(EscapeHead(s), Escaped(s[n..]));
    }
  }

  /** The main result on strings: a quoted escaped string is one JSON value, its text is the
      input with every undecodable byte replaced by U+FFFD, and that replacement is the
      identity exactly on valid UTF-8. */
  lemma EscapedStringValue(s: Bytes, tail: Bytes)
    ensures T.ReadValue([QUOTE] + Escaped(s) + [QUOTE] + tail) == T.Got(T.JString(Runes(s)), tail)
    ensures ValidUtf8(Escaped(s))
    ensures EncodeRunes(Runes(s)) == s <==> ValidUtf8(s)
  {
    hide Escaped, Runes, EncodeRunes, ValidUtf8, T.ReadString, T.JoinSurrogates;
    var u := [QUOTE] + Escaped(s) + [QUOTE] + tail;
    EscapedReads(s, tail);
    assert u[0] == QUOTE && u[1..] == Escaped(s) + [QUOTE] + tail;
    JoinIsIdentity(Runes(s));
    EscapedIsValid(s);
    SanitizeIdentity(s);
  }

  /** Every text of Unicode scalar values is written as a JSON string and read back as itself. */
  lemma TextRoundTrip(rs: seq<Rune>, tail: Bytes)
    ensures T.ReadValue([QUOTE] + Escaped(EncodeRunes(rs)) + [QUOTE] + tail) == T.Got(T.JString(rs), tail)
  {
    hide Escaped, Runes, EncodeRunes, ValidUtf8, T.ReadValue;
    RunesOfEncoded(rs);
    EscapedStringValue(EncodeRunes(rs), tail);
  }
}
