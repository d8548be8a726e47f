/** Facts about the reference reader: what it has read does not depend on what follows, and
    where a value can end. */
module JsonTextProperties {
  import opened Utf8
  import opened JsonText

  /** No number can go on with `tail`. */
  predicate EndsNumber(tail: Bytes) {
    tail == [] || !(IsDigit(tail[0]) || tail[0] == 0x2E || tail[0] == 0x65 || tail[0] == 0x45)
  }

  lemma {:induction false} SkipSpaceExtends(bs: Bytes, tail: Bytes)
    requires SkipSpace(bs) != []
    ensures SkipSpace(bs + tail) == SkipSpace(bs) + tail
  {
    if IsSpace(bs[0]) {
      SkipSpaceExtends(bs[1..], tail);
      assert (bs + tail)[1..] == bs[1..] + tail;
    }
  }

  lemma ReadEscapeExtends(bs: Bytes, tail: Bytes)
    requires ReadEscape(bs).Got?
    ensures ReadEscape(bs + tail) == Got(ReadEscape(bs).v, ReadEscape(bs).rest + tail)
  {
    var u := bs + tail;
    assert u[0] == bs[0];
    assert u[1..] == bs[1..] + tail;
    if bs[0] == 0x75 {
      assert HexQuad(u[1..]) == HexQuad(bs[1..]);
      assert u[5..] == bs[5..] + tail;
    }
  }

  lemma ReadCharExtends(bs: Bytes, tail: Bytes)
    requires ReadChar(bs).Got?
    ensures ReadChar(bs + tail) == Got(ReadChar(bs).v, ReadChar(bs).rest + tail)
  {
    hide SequenceWidth, SequenceValue, ReadEscape;
    var u := bs + tail;
    assert u[0] == bs[0];
    if bs[0] == BACKSLASH {
      ReadEscapeExtends(bs[1..], tail);
      assert u[1..] == bs[1..] + tail;
    } else {
      WidthIsLocal(bs, tail);
      var n := SequenceWidth(bs);
      assert u[n..] == bs[n..] + tail;
    }
  }

  lemma {:induction false} ReadStringExtends(bs: Bytes, tail: Bytes)
    requires ReadString(bs).Got?
    ensures ReadString(bs + tail) == Got(ReadString(bs).v, ReadString(bs).rest + tail)
    decreases |bs|
  {
    hide ReadChar;
    assert bs != [] by { EmptyHasNoChar(); }
    assert (bs + tail)[0] == bs[0];
    if bs[0] == QUOTE {
      assert (bs + tail)[1..] == bs[1..] + tail;
    } else {
      ReadCharExtends(bs, tail);
      ReadStringExtends(ReadChar(bs).rest, tail);
    }
  }

  lemma EmptyHasNoChar()
    ensures ReadString([]).Bad?
  {
  }

  lemma {:induction false} DigitCountExtends(bs: Bytes, tail: Bytes)
    requires DigitCount(bs) < |bs| || tail == [] || !IsDigit(tail[0])
    ensures DigitCount(bs + tail) == DigitCount(bs)
  {
    if bs == [] {
      assert bs + tail == tail;
    } else if IsDigit(bs[0]) {
      DigitCountExtends(bs[1..], tail);
      assert (bs + tail)[1..] == bs[1..] + tail;
    }
  }

  lemma IntLengthExtends(bs: Bytes, tail: Bytes)
    requires IntLength(bs) > 0
    requires IntLength(bs) < |bs| || EndsNumber(tail)
    ensures IntLength(bs + tail) == IntLength(bs)
  {
    hide DigitCount;
    if bs[0] != 0x30 {
      DigitCountExtends(bs, tail);
    }
  }

  lemma FracLengthExtends(bs: Bytes, tail: Bytes)
    requires FracLength(bs) >= 0
    requires FracLength(bs) < |bs| || EndsNumber(tail)
    ensures FracLength(bs + tail) == FracLength(bs)
  {
    hide DigitCount;
    if bs == [] {
      assert bs + tail == tail;
    } else {
      assert (bs + tail)[1..] == bs[1..] + tail;
      if bs[0] == 0x2E {
        DigitCountExtends(bs[1..], tail);
      }
    }
  }

  lemma ExpLengthExtends(bs: Bytes, tail: Bytes)
    requires ExpLength(bs) >= 0
    requires ExpLength(bs) < |bs| || EndsNumber(tail)
    ensures ExpLength(bs + tail) == ExpLength(bs)
  {
    hide DigitCount;
    if bs == [] {
      assert bs + tail == tail;
    } else if bs[0] == 0x65 || bs[0] == 0x45 {
      var sign := if |bs| > 1 && (bs[1] == 0x2B || bs[1] == MINUS) then 2 else 1;
      assert DigitCount(bs[sign..]) > 0;
      assert |bs| > 1;
      assert (bs + tail)[1] == bs[1];
      assert (bs + tail)[sign..] == bs[sign..] + tail;
      DigitCountExtends(bs[sign..], tail);
    }
  }

  lemma NumberLengthExtends(bs: Bytes, tail: Bytes)
    requires NumberLength(bs) > 0
    requires NumberLength(bs) < |bs| || EndsNumber(tail)
    ensures NumberLength(bs + tail) == NumberLength(bs)
  {
    hide DigitCount, IntLength, FracLength, ExpLength;
    var u := bs + tail;
    var a := if bs[0] == MINUS then 1 else 0;
    var i := IntLength(bs[a..]);
    var f := FracLength(bs[a + i..]);
    assert u[0] == bs[0];
    assert u[a..] == bs[a..] + tail && u[a + i..] == bs[a + i..] + tail && u[a + i + f..] == bs[a + i + f..] + tail;
    assert a + i < |bs| ==> a + i + f < |bs| || f == |bs[a + i..]|;
    ExpLengthExtends(bs[a + i + f..], tail);
    if f < |bs[a + i..]| || EndsNumber(tail) {
      FracLengthExtends(bs[a + i..], tail);
    }
    if i < |bs[a..]| || EndsNumber(tail) {
      IntLengthExtends(bs[a..], tail);
    }
  }

  // ------------------------------------------------------ reading is local

  lemma {:induction false} ReadValueExtends(bs: Bytes, tail: Bytes)
    requires ReadValue(bs).Got?
    requires ReadValue(bs).rest != [] || EndsNumber(tail)
    ensures ReadValue(bs + tail) == Got(ReadValue(bs).v, ReadValue(bs).rest + tail)
    decreases |bs|, 1
  {
    hide ReadString, JoinSurrogates, ReadMembers, ReadElems, SkipSpace, ReadToken;
    assert (bs + tail)[0] == bs[0];
    if bs[0] == QUOTE {
      ReadStringValueExtends(bs, tail);
    } else if bs[0] == LBRACE {
      ReadObjectExtends(bs, tail);
    } else if bs[0] == LBRACKET {
      ReadArrayExtends(bs, tail);
    } else {
      ReadTokenExtends(bs, tail);
    }
  }

  lemma ReadStringValueExtends(bs: Bytes, tail: Bytes)
    requires bs != [] && bs[0] == QUOTE && ReadValue(bs).Got?
    ensures ReadValue(bs + tail) == Got(ReadValue(bs).v, ReadValue(bs).rest + tail)
  {
    hide ReadString, JoinSurrogates, ReadMembers, ReadElems, SkipSpace, ReadToken;
    ReadStringExtends(bs[1..], tail);
    assert (bs + tail)[0] == bs[0] && (bs + tail)[1..] == bs[1..] + tail;
  }

  lemma ReadTokenExtends(bs: Bytes, tail: Bytes)
    requires ReadToken(bs).Got?
    requires ReadToken(bs).rest != [] || EndsNumber(tail)
    ensures ReadToken(bs + tail) == Got(ReadToken(bs).v, ReadToken(bs).rest + tail)
  {
    hide NumberLength;
    var u := bs + tail;
    if StartsWith(bs, NULL) || StartsWith(bs, TRUE) {
      assert u[..4] == bs[..4] && u[4..] == bs[4..] + tail;
    } else if StartsWith(bs, FALSE) {
      assert u[..5] == bs[..5] && u[5..] == bs[5..] + tail;
      assert u[..4] == bs[..4];
    } else {
      var n := NumberLength(bs);
      NumberLengthExtends(bs, tail);
      assert u[..n] == bs[..n] && u[n..] == bs[n..] + tail;
      NumberStart(bs);
      NumberStart(u);
      assert u[0] == bs[0];
    }
  }

  /** A number starts with a minus sign or a digit. */
  lemma NumberStart(bs: Bytes)
    requires NumberLength(bs) > 0
    ensures bs[0] == MINUS || IsDigit(bs[0])
    ensures !StartsWith(bs, NULL) && !StartsWith(bs, TRUE) && !StartsWith(bs, FALSE)
  {
  }

  lemma {:induction false} ReadObjectExtends(bs: Bytes, tail: Bytes)
    requires bs != [] && bs[0] == LBRACE && ReadValue(bs).Got?
    ensures ReadValue(bs + tail) == Got(ReadValue(bs).v, ReadValue(bs).rest + tail)
    decreases |bs|, 0
  {
    hide ReadString, JoinSurrogates, ReadMembers, ReadElems, SkipSpace, ReadToken;
    var u := bs + tail;
    assert u[0] == bs[0] && u[1..] == bs[1..] + tail;
    var inner := SkipSpace(bs[1..]);
    assert inner != [] by { NoMembersInNothing(); }
    SkipSpaceExtends(bs[1..], tail);
    assert (inner + tail)[0] == inner[0];
    if inner[0] == RBRACE {
      assert (inner + tail)[1..] == inner[1..] + tail;
    } else {
      ReadMembersExtends(inner, tail);
    }
  }

  lemma {:induction false} ReadArrayExtends(bs: Bytes, tail: Bytes)
    requires bs != [] && bs[0] == LBRACKET && ReadValue(bs).Got?
    ensures ReadValue(bs + tail) == Got(ReadValue(bs).v, ReadValue(bs).rest + tail)
    decreases |bs|, 0
  {
    hide ReadString, JoinSurrogates, ReadMembers, ReadElems, SkipSpace, ReadToken;
    var u := bs + tail;
    assert u[0] == bs[0] && u[1..] == bs[1..] + tail;
    var inner := SkipSpace(bs[1..]);
    assert inner != [] by { NoElemsInNothing(); }
    SkipSpaceExtends(bs[1..], tail);
    assert (inner + tail)[0] == inner[0];
    if inner[0] == RBRACKET {
      assert (inner + tail)[1..] == inner[1..] + tail;
    } else {
      ReadElemsExtends(inner, tail);
    }
  }

  lemma NoMembersInNothing()
    ensures ReadMembers([]).Bad?
  {
  }

  lemma NoElemsInNothing()
    ensures ReadElems([]).Bad? && ReadValue([]).Bad?
  {
  }

  lemma {:induction false} ReadElemsExtends(bs: Bytes, tail: Bytes)
    requires ReadElems(bs).Got?
    ensures ReadElems(bs + tail) == Got(ReadElems(bs).v, ReadElems(bs).rest + tail)
    decreases |bs|, 3
  {
    hide ReadValue, SkipSpace;
    var rest := ReadValue(bs).rest;
    var next := SkipSpace(rest);
    assert rest != [] by { SkipSpaceOfNothing(); }
    ReadValueExtends(bs, tail);
    SkipSpaceExtends(rest, tail);
    assert (next + tail)[0] == next[0] && (next + tail)[1..] == next[1..] + tail;
    if next[0] == COMMA {
      assert SkipSpace(next[1..]) != [] by { NoElemsInNothing(); }
      SkipSpaceExtends(next[1..], tail);
      ReadElemsExtends(SkipSpace(next[1..]), tail);
    }
  }

  lemma SkipSpaceOfNothing()
    ensures SkipSpace([]) == []
  {
  }

  lemma {:induction false} ReadMemberExtends(bs: Bytes, tail: Bytes)
    requires ReadMember(bs).Got?
    requires ReadMember(bs).rest != [] || EndsNumber(tail)
    ensures ReadMember(bs + tail) == Got(ReadMember(bs).v, ReadMember(bs).rest + tail)
    decreases |bs|, 2
  {
    hide ReadValue, ReadString, JoinSurrogates, SkipSpace;
    var u := bs + tail;
    assert u[0] == bs[0] && u[1..] == bs[1..] + tail;
    ReadStringExtends(bs[1..], tail);
    var rest := ReadString(bs[1..]).rest;
    var colon := SkipSpace(rest);
    SkipSpaceExtends(rest, tail);
    assert (colon + tail)[0] == colon[0] && (colon + tail)[1..] == colon[1..] + tail;
    assert SkipSpace(colon[1..]) != [] by { NoElemsInNothing(); }
    SkipSpaceExtends(colon[1..], tail);
    ReadValueExtends(SkipSpace(colon[1..]), tail);
  }

  lemma {:induction false} ReadMembersExtends(bs: Bytes, tail: Bytes)
    requires ReadMembers(bs).Got?
    ensures ReadMembers(bs + tail) == Got(ReadMembers(bs).v, ReadMembers(bs).rest + tail)
    decreases |bs|, 3
  {
    hide ReadMember, SkipSpace;
    var rest := ReadMember(bs).rest;
    var next := SkipSpace(rest);
    assert rest != [] by { SkipSpaceOfNothing(); }
    ReadMemberExtends(bs, tail);
    SkipSpaceExtends(rest, tail);
    assert (next + tail)[0] == next[0] && (next + tail)[1..] == next[1..] + tail;
    if next[0] == COMMA {
      assert SkipSpace(next[1..]) != [] by { NoMembersInNothing(); }
      SkipSpaceExtends(next[1..], tail);
      ReadMembersExtends(SkipSpace(next[1..]), tail);
    }
  }

  // -------------------------------------------------- where a value can end

  predicate Suffix(r: Bytes, bs: Bytes) {
    |r| <= |bs| && r == bs[|bs| - |r|..]
  }

  lemma SuffixTrans(a: Bytes, b: Bytes, c: Bytes)
    requires Suffix(a, b) && Suffix(b, c)
    ensures Suffix(a, c)
    ensures |a| < |b| ==> b[|b| - |a| - 1] == c[|c| - |a| - 1]
  {
  }

  /** Bytes after which the encoder believes no separator is needed. */
  predicate OpensItem(b: Byte) {
    b == LBRACE || b == LBRACKET || b == COLON || b == COMMA || b == SPACE
  }

  /** `rest` is what is left of `bs` after something that does not end in an opening byte. */
  predicate Consumed(rest: Bytes, bs: Bytes) {
    |rest| < |bs| && Suffix(rest, bs) && !OpensItem(bs[|bs| - |rest| - 1])
  }

  lemma {:induction false} SkipSpaceSuffix(bs: Bytes)
    ensures Suffix(SkipSpace(bs), bs)
  {
    if bs != [] && IsSpace(bs[0]) {
      SkipSpaceSuffix(bs[1..]);
    }
  }

  lemma {:induction false} ReadStringConsumes(bs: Bytes)
    requires ReadString(bs).Got?
    ensures Consumed(ReadString(bs).rest, bs)
    decreases |bs|
  {
    hide ReadChar;
    assert bs != [] by { EmptyHasNoChar(); }
    if bs[0] != QUOTE {
      var rest := ReadChar(bs).rest;
      ReadStringConsumes(rest);
      ReadCharSuffix(bs);
      SuffixTrans(ReadString(rest).rest, rest, bs);
    }
  }

  lemma ReadCharSuffix(bs: Bytes)
    requires ReadChar(bs).Got?
    ensures Suffix(ReadChar(bs).rest, bs)
  {
    hide SequenceWidth, SequenceValue, HexQuad;
  }

  /** The byte before the unread rest of a number is a digit. */
  lemma NumberEndsInDigit(bs: Bytes)
    requires NumberLength(bs) > 0
    ensures IsDigit(bs[NumberLength(bs) - 1])
  {
    hide IntLength, FracLength, ExpLength;
    var a := if bs[0] == MINUS then 1 else 0;
    var i := IntLength(bs[a..]);
    var f := FracLength(bs[a + i..]);
    var e := ExpLength(bs[a + i + f..]);
    PartsEndInDigit(bs[a..]);
    PartsEndInDigit(bs[a + i..]);
    PartsEndInDigit(bs[a + i + f..]);
    if e > 0 {
      assert bs[a + i + f..][e - 1] == bs[NumberLength(bs) - 1];
    } else if f > 0 {
      assert bs[a + i..][f - 1] == bs[NumberLength(bs) - 1];
    } else {
      assert bs[a..][i - 1] == bs[NumberLength(bs) - 1];
    }
  }

  lemma PartsEndInDigit(bs: Bytes)
    ensures IntLength(bs) > 0 ==> IsDigit(bs[IntLength(bs) - 1])
    ensures FracLength(bs) > 0 ==> IsDigit(bs[FracLength(bs) - 1])
    ensures ExpLength(bs) > 0 ==> IsDigit(bs[ExpLength(bs) - 1])
  {
    hide DigitCount;
  }

  lemma ReadTokenConsumes(bs: Bytes)
    requires ReadToken(bs).Got?
    ensures Consumed(ReadToken(bs).rest, bs)
  {
    hide NumberLength;
    if StartsWith(bs, NULL) {
      assert bs[..4][3] == NULL[3];
    } else if StartsWith(bs, TRUE) {
      assert bs[..4][3] == TRUE[3];
    } else if StartsWith(bs, FALSE) {
      assert bs[..5][4] == FALSE[4];
    } else {
      NumberEndsInDigit(bs);
    }
  }

  /** Reading past a prefix of `bs` and then past a closing part of what follows. */
  lemma ConsumedAfter(rest: Bytes, mid: Bytes, bs: Bytes)
    requires Consumed(rest, mid) && Suffix(mid, bs)
    ensures Consumed(rest, bs)
  {
    SuffixTrans(rest, mid, bs);
  }

  lemma {:induction false} ReadValueConsumes(bs: Bytes)
    requires ReadValue(bs).Got?
    ensures Consumed(ReadValue(bs).rest, bs)
    decreases |bs|, 0
  {
    hide ReadString, JoinSurrogates, ReadMembers, ReadElems, SkipSpace, ReadToken, Consumed, Suffix;
    var rest := ReadValue(bs).rest;
    TailSuffix(bs);
    if bs[0] == QUOTE {
      ReadStringConsumes(bs[1..]);
      ConsumedAfter(rest, bs[1..], bs);
    } else if bs[0] == LBRACE || bs[0] == LBRACKET {
      var inner := SkipSpace(bs[1..]);
      SkipSpaceSuffix(bs[1..]);
      SuffixTrans(inner, bs[1..], bs);
      if inner != [] && inner[0] == (if bs[0] == LBRACE then RBRACE else RBRACKET) {
        ClosingConsumed(inner);
      } else if bs[0] == LBRACE {
        ReadMembersConsumes(inner);
      } else {
        ReadElemsConsumes(inner);
      }
      ConsumedAfter(rest, inner, bs);
    } else {
      ReadTokenConsumes(bs);
    }
  }

  lemma TailSuffix(bs: Bytes)
    requires bs != []
    ensures Suffix(bs[1..], bs)
  {
  }

  lemma ClosingConsumed(bs: Bytes)
    requires bs != [] && (bs[0] == RBRACE || bs[0] == RBRACKET)
    ensures Consumed(bs[1..], bs)
  {
  }

  lemma {:induction false} ReadElemsConsumes(bs: Bytes)
    requires ReadElems(bs).Got?
    ensures Consumed(ReadElems(bs).rest, bs)
    decreases |bs|, 2
  {
    hide ReadValue, SkipSpace, Consumed, Suffix;
    var rest := ReadValue(bs).rest;
    var next := SkipSpace(rest);
    ReadValueConsumes(bs);
    SkipSpaceSuffix(rest);
    SuffixTrans(next, rest, bs) by { ConsumedIsSuffix(rest, bs); }
    if next[0] == RBRACKET {
      ClosingConsumed(next);
      ConsumedAfter(next[1..], next, bs);
    } else {
      var more := SkipSpace(next[1..]);
      TailSuffix(next);
      SkipSpaceSuffix(next[1..]);
      SuffixTrans(more, next[1..], next);
      SuffixTrans(more, next, bs);
      ReadElemsConsumes(more);
      ConsumedAfter(ReadElems(more).rest, more, bs);
    }
  }

  lemma ConsumedIsSuffix(rest: Bytes, bs: Bytes)
    requires Consumed(rest, bs)
    ensures Suffix(rest, bs)
  {
  }

  lemma {:induction false} ReadMemberConsumes(bs: Bytes)
    requires ReadMember(bs).Got?
    ensures Consumed(ReadMember(bs).rest, bs)
    decreases |bs|, 1
  {
    hide ReadValue, ReadString, JoinSurrogates, SkipSpace, Consumed, Suffix;
    var rest := ReadString(bs[1..]).rest;
    var colon := SkipSpace(rest);
    var value := SkipSpace(colon[1..]);
    TailSuffix(bs);
    ReadStringConsumes(bs[1..]);
    ConsumedIsSuffix(rest, bs[1..]);
    SuffixTrans(rest, bs[1..], bs);
    SkipSpaceSuffix(rest);
    SuffixTrans(colon, rest, bs);
    TailSuffix(colon);
    SkipSpaceSuffix(colon[1..]);
    SuffixTrans(value, colon[1..], colon);
    SuffixTrans(value, colon, bs);
    ReadValueConsumes(value);
    ConsumedAfter(ReadValue(value).rest, value, bs);
  }

  lemma {:induction false} ReadMembersConsumes(bs: Bytes)
    requires ReadMembers(bs).Got?
    ensures Consumed(ReadMembers(bs).rest, bs)
    decreases |bs|, 2
  {
    hide ReadMember, SkipSpace, Consumed, Suffix;
    var rest := ReadMember(bs).rest;
    var next := SkipSpace(rest);
    ReadMemberConsumes(bs);
    SkipSpaceSuffix(rest);
    SuffixTrans(next, rest, bs) by { ConsumedIsSuffix(rest, bs); }
    if next[0] == RBRACE {
      ClosingConsumed(next);
      ConsumedAfter(next[1..], next, bs);
    } else {
      var more := SkipSpace(next[1..]);
      TailSuffix(next);
      SkipSpaceSuffix(next[1..]);
      SuffixTrans(more, next[1..], next);
      SuffixTrans(more, next, bs);
      ReadMembersConsumes(more);
      ConsumedAfter(ReadMembers(more).rest, more, bs);
    }
  }

  // --------------------------------------------------------------- strictness

  /** The reader is strict: an empty text, an unterminated string, a raw control character, a
      leading zero with digits after it, and anything but a comma or the end after an element or
      a member are refused. */
  lemma ReaderIsStrict(bs: Bytes, b: Byte)
    ensures ReadText([]).Bad? && ReadString([]).Bad?
    ensures b < 0x20 ==> ReadString([b] + bs).Bad?
    ensures IsDigit(b) ==> NumberLength([0x30] + [b] + bs) == 1
    ensures ReadValue(bs).Got? ==>
              var next := SkipSpace(ReadValue(bs).rest);
              next == [] || (next[0] != RBRACKET && next[0] != COMMA) ==> ReadElems(bs).Bad?
    ensures ReadMember(bs).Got? ==>
              var next := SkipSpace(ReadMember(bs).rest);
              next == [] || (next[0] != RBRACE && next[0] != COMMA) ==> ReadMembers(bs).Bad?
    ensures bs != [] && bs[0] != QUOTE ==> ReadMember(bs).Bad?
  {
    hide DigitCount, ReadEscape;
    var z := [0x30] + [b] + bs;
    assert z[0] == 0x30 && z[1] == b && z[1..] == [b] + bs;
  }

  /** Nothing but whitespace may follow the value of a text. */
  lemma NothingFollows(t: Bytes, b: Byte, rest: Bytes)
    requires ReadValue(SkipSpace(t)).Got? && ReadValue(SkipSpace(t)).rest == []
    requires !IsSpace(b) && EndsNumber([b] + rest)
    ensures ReadText(t + ([b] + rest)).Bad?
  {
    hide ReadValue;
    SkipSpaceExtends(t, [b] + rest);
    ReadValueExtends(SkipSpace(t), [b] + rest);
  }
}
