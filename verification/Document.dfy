/**
  Documents: the trees the encoder means to write, how a tree is laid out as text, and the
  proof that a JSON reader recovers the tree from the text.
 */
module Document {
  import opened Utf8
  import opened Escape
  import opened EscapeProperties
  import T = JsonText
  import P = JsonTextProperties

  /** A tree whose leaves are ready-made JSON texts and whose keys are raw byte strings. */
  datatype Doc =
    | Leaf(text: JsonLeaf)
    | Array(elems: seq<Doc>)
    | Object(members: seq<Member>)

  datatype Member = Member(key: Bytes, value: Doc)

  /** The value of a text that holds one JSON value and ends with it. */
  predicate IsJson(text: Bytes) {
    var r := T.ReadValue(T.SkipSpace(text));
    r.Got? && r.rest == []
  }

  type JsonLeaf = t: Bytes | IsJson(t) ghost witness NullWitness()

  ghost function NullWitness(): (t: Bytes)
    ensures IsJson(t)
  {
    T.NULL
  }

  function LeafValue(t: JsonLeaf): T.Json {
    T.ReadValue(T.SkipSpace(t)).v
  }

  /** What a document means as a JSON value. */
  function Meaning(d: Doc): T.Json {
    match d
    case Leaf(t) => LeafValue(t)
    case Array(es) => T.JArray(MeaningOfElems(es))
    case Object(ms) => T.JObject(MeaningOfMembers(ms))
  }

  function MeaningOfElems(es: seq<Doc>): seq<T.Json> {
    if es == [] then [] else [Meaning(es[0])] + MeaningOfElems(es[1..])
  }

  function MeaningOfMembers(ms: seq<Member>): seq<T.JMember> {
    if ms == [] then []
    else [T.JMember(Runes(ms[0].key), Meaning(ms[0].value))] + MeaningOfMembers(ms[1..])
  }

  // ------------------------------------------------------------------- layout

  function Comma(spaced: bool): Bytes {
    if spaced then [T.COMMA, T.SPACE] else [T.COMMA]
  }

  function Colon(spaced: bool): Bytes {
    if spaced then [T.COLON, T.SPACE] else [T.COLON]
  }

  /** The separator in front of an item: none before the first. */
  function Before(first: bool, spaced: bool): Bytes {
    if first then [] else Comma(spaced)
  }

  function Quoted(s: Bytes): Bytes {
    [QUOTE] + Escaped(s) + [QUOTE]
  }

  function KeyText(key: Bytes, spaced: bool): Bytes {
    Quoted(key) + Colon(spaced)
  }

  function Text(d: Doc, spaced: bool): Bytes
    decreases d, 0
  {
    match d
    case Leaf(t) => t
    case Array(es) => [T.LBRACKET] + ElemsText(es, spaced, true) + [T.RBRACKET]
    case Object(ms) => [T.LBRACE] + MembersText(ms, spaced, true) + [T.RBRACE]
  }

  function ElemsText(es: seq<Doc>, spaced: bool, first: bool): Bytes
    decreases es, 0
  {
    if es == [] then []
    else Before(first, spaced) + Text(es[0], spaced) + ElemsText(es[1..], spaced, false)
  }

  function MembersText(ms: seq<Member>, spaced: bool, first: bool): Bytes
    decreases ms, 0
  {
    if ms == [] then []
    else Before(first, spaced) + KeyText(ms[0].key, spaced) + Text(ms[0].value, spaced)
         + MembersText(ms[1..], spaced, false)
  }

  // --------------------------------------------------------------- round trip

  lemma NoSpaceToSkip(b: Byte, tail: Bytes)
    requires !T.IsSpace(b)
    ensures T.SkipSpace([b] + tail) == [b] + tail
  {
  }

  lemma OneSpaceToSkip(tail: Bytes)
    ensures T.SkipSpace([T.SPACE] + tail) == T.SkipSpace(tail)
  {
    assert ([T.SPACE] + tail)[1..] == tail;
  }

  /** After a comma or a colon, laid out in either mode, a reader is at the next item. */
  lemma AfterSeparator(b: Byte, spaced: bool, tail: Bytes)
    ensures T.SkipSpace(((if spaced then [b, T.SPACE] else [b]) + tail)[1..]) == T.SkipSpace(tail)
  {
    hide T.SkipSpace;
    var u := (if spaced then [b, T.SPACE] else [b]) + tail;
    if spaced {
      assert u[1..] == [T.SPACE] + tail;
      OneSpaceToSkip(tail);
    } else {
      assert u[1..] == tail;
    }
  }

  lemma ValueIsNotClosing(bs: Bytes)
    requires T.ReadValue(bs).Got?
    ensures bs != [] && bs[0] != T.RBRACKET && bs[0] != T.RBRACE
  {
    hide T.ReadString, T.ReadElems, T.ReadMembers;
    if bs != [] && bs[0] != QUOTE && bs[0] != T.LBRACE && bs[0] != T.LBRACKET {
      TokenIsNotClosing(bs);
    }
  }

  lemma TokenIsNotClosing(bs: Bytes)
    requires T.ReadToken(bs).Got?
    ensures bs[0] != T.RBRACKET && bs[0] != T.RBRACE
  {
    hide T.NumberLength;
    if T.StartsWith(bs, T.NULL) {
      assert bs[..4][0] == T.NULL[0];
    } else if T.StartsWith(bs, T.TRUE) {
      assert bs[..4][0] == T.TRUE[0];
    } else if T.StartsWith(bs, T.FALSE) {
      assert bs[..5][0] == T.FALSE[0];
    } else {
      P.NumberStart(bs);
    }
  }

  /** The text of a document reads back as its meaning, in both layouts and whatever follows. */
  lemma {:induction false} TextReads(d: Doc, spaced: bool, tail: Bytes)
    requires P.EndsNumber(tail)
    ensures T.ReadValue(T.SkipSpace(Text(d, spaced) + tail)) == T.Got(Meaning(d), tail)
    decreases d, 1
  {
    match d
    case Leaf(t) => LeafReads(t, tail);
    case Array(es) => ArrayReads(es, spaced, tail);
    case Object(ms) => ObjectReads(ms, spaced, tail);
  }

  lemma LeafReads(t: JsonLeaf, tail: Bytes)
    requires P.EndsNumber(tail)
    ensures T.ReadValue(T.SkipSpace(t + tail)) == T.Got(LeafValue(t), tail)
  {
    hide T.ReadValue, T.SkipSpace;
    var bs := T.SkipSpace(t);
    assert bs != [] by { P.NoElemsInNothing(); }
    P.SkipSpaceExtends(t, tail);
    P.ReadValueExtends(bs, tail);
    assert [] + tail == tail;
  }

  lemma {:induction false} ArrayReads(es: seq<Doc>, spaced: bool, tail: Bytes)
    ensures T.ReadValue(T.SkipSpace(Text(Array(es), spaced) + tail)) == T.Got(Meaning(Array(es)), tail)
    decreases es, 3
  {
    hide T.ReadString, T.ReadElems, T.ReadMembers, T.SkipSpace, T.ReadToken, MeaningOfElems;
    var body := ElemsText(es, spaced, true) + [T.RBRACKET] + tail;
    assert Text(Array(es), spaced) + tail == [T.LBRACKET] + body;
    NoSpaceToSkip(T.LBRACKET, body);
    assert ([T.LBRACKET] + body)[1..] == body;
    if es == [] {
      assert body == [T.RBRACKET] + tail && body[1..] == tail;
      NoSpaceToSkip(T.RBRACKET, tail);
      assert MeaningOfElems(es) == [] by { NoMeaning(); }
    } else {
      ElemsRead(es, spaced, tail);
      ElemsStart(T.SkipSpace(body));
    }
  }

  lemma NoMeaning()
    ensures MeaningOfElems([]) == [] && MeaningOfMembers([]) == []
  {
  }

  lemma ElemsStart(bs: Bytes)
    requires T.ReadElems(bs).Got?
    ensures bs != [] && bs[0] != T.RBRACKET
  {
    hide T.ReadValue, T.SkipSpace;
    ValueIsNotClosing(bs);
  }

  lemma ElemsLayout(es: seq<Doc>, spaced: bool, tail: Bytes)
    requires es != []
    ensures ElemsText(es, spaced, true) + tail == Text(es[0], spaced) + (ElemsText(es[1..], spaced, false) + tail)
    ensures ElemsText(es, spaced, false) + tail == Comma(spaced) + (ElemsText(es, spaced, true) + tail)
  {
    hide Text, ElemsText, Comma;
    FirstElem(es, spaced, true);
    FirstElem(es, spaced, false);
    Regroup(Comma(spaced), Text(es[0], spaced), ElemsText(es[1..], spaced, false), tail);
  }

  lemma Regroup(sep: Bytes, item: Bytes, rest: Bytes, tail: Bytes)
    ensures [] + item + rest + tail == item + (rest + tail)
    ensures sep + item + rest + tail == sep + ([] + item + rest + tail)
  {
  }

  lemma FirstElem(es: seq<Doc>, spaced: bool, first: bool)
    requires es != []
    ensures ElemsText(es, spaced, first) == Before(first, spaced) + Text(es[0], spaced) + ElemsText(es[1..], spaced, false)
  {
    hide Text;
  }

  lemma {:induction false} ElemsRead(es: seq<Doc>, spaced: bool, tail: Bytes)
    requires es != []
    ensures T.ReadElems(T.SkipSpace(ElemsText(es, spaced, true) + [T.RBRACKET] + tail)) == T.Got(MeaningOfElems(es), tail)
    decreases es, 2
  {
    hide T.ReadValue, T.SkipSpace, Text, Meaning, ElemsText;
    var end := [T.RBRACKET] + tail;
    var more := ElemsText(es[1..], spaced, false) + end;
    assert ElemsText(es, spaced, true) + [T.RBRACKET] + tail == ElemsText(es, spaced, true) + end;
    ElemsLayout(es, spaced, end);
    if |es| == 1 {
      assert more == end by { NoMembersText(spaced); }
      assert end[1..] == tail;
      TextReads(es[0], spaced, more);
      NoSpaceToSkip(T.RBRACKET, tail);
      assert MeaningOfElems(es) == [Meaning(es[0])];
    } else {
      var next := ElemsText(es[1..], spaced, true) + end;
      ElemsLayout(es[1..], spaced, end);
      TextReads(es[0], spaced, more);
      assert more == [T.COMMA] + more[1..];
      NoSpaceToSkip(T.COMMA, more[1..]);
      AfterSeparator(T.COMMA, spaced, next);
      assert next == ElemsText(es[1..], spaced, true) + [T.RBRACKET] + tail;
      ElemsRead(es[1..], spaced, tail);
    }
  }

  lemma {:induction false} ObjectReads(ms: seq<Member>, spaced: bool, tail: Bytes)
    ensures T.ReadValue(T.SkipSpace(Text(Object(ms), spaced) + tail)) == T.Got(Meaning(Object(ms)), tail)
    decreases ms, 3
  {
    hide T.ReadString, T.ReadElems, T.ReadMembers, T.SkipSpace, T.ReadToken, MeaningOfMembers, KeyText;
    var body := MembersText(ms, spaced, true) + [T.RBRACE] + tail;
    assert Text(Object(ms), spaced) + tail == [T.LBRACE] + body;
    NoSpaceToSkip(T.LBRACE, body);
    assert ([T.LBRACE] + body)[1..] == body;
    if ms == [] {
      assert body == [T.RBRACE] + tail && body[1..] == tail;
      NoSpaceToSkip(T.RBRACE, tail);
      assert MeaningOfMembers(ms) == [] by { NoMeaning(); }
    } else {
      MembersStart(ms, spaced, tail);
      MembersRead(ms, spaced, tail);
    }
  }

  lemma MembersStart(ms: seq<Member>, spaced: bool, tail: Bytes)
    requires ms != []
    ensures var body := MembersText(ms, spaced, true) + [T.RBRACE] + tail;
            T.SkipSpace(body) == body && body[0] == QUOTE
  {
    hide Text, Escaped;
  }

  /** One member: key, colon and value. */
  lemma {:induction false} MemberReads(m: Member, spaced: bool, tail: Bytes)
    requires P.EndsNumber(tail)
    ensures T.ReadMember(KeyText(m.key, spaced) + Text(m.value, spaced) + tail)
            == T.Got(T.JMember(Runes(m.key), Meaning(m.value)), tail)
    decreases m, 1
  {
    hide T.ReadString, T.ReadValue, T.SkipSpace, T.JoinSurrogates, Text, Meaning, Escaped, Runes;
    var value := Text(m.value, spaced) + tail;
    var colon := Colon(spaced) + value;
    var u := KeyText(m.key, spaced) + Text(m.value, spaced) + tail;
    assert u == [QUOTE] + (Escaped(m.key) + [QUOTE] + colon);
    assert u[1..] == Escaped(m.key) + [QUOTE] + colon;
    EscapedReads(m.key, colon);
    JoinIsIdentity(Runes(m.key));
    assert colon == [T.COLON] + colon[1..];
    NoSpaceToSkip(T.COLON, colon[1..]);
    AfterSeparator(T.COLON, spaced, value);
    TextReads(m.value, spaced, tail);
  }

  /** The tail of a member list, from its first member on. */
  lemma MembersLayout(ms: seq<Member>, spaced: bool, tail: Bytes)
    requires ms != []
    ensures MembersText(ms, spaced, true) + tail
            == KeyText(ms[0].key, spaced) + Text(ms[0].value, spaced) + (MembersText(ms[1..], spaced, false) + tail)
    ensures MembersText(ms, spaced, false) + tail == Comma(spaced) + (MembersText(ms, spaced, true) + tail)
  {
    hide Text, KeyText, MembersText, Comma;
    FirstMember(ms, spaced, true);
    FirstMember(ms, spaced, false);
    Regroup(Comma(spaced), KeyText(ms[0].key, spaced) + Text(ms[0].value, spaced), MembersText(ms[1..], spaced, false), tail);
  }

  lemma FirstMember(ms: seq<Member>, spaced: bool, first: bool)
    requires ms != []
    ensures MembersText(ms, spaced, first)
            == Before(first, spaced) + (KeyText(ms[0].key, spaced) + Text(ms[0].value, spaced)) + MembersText(ms[1..], spaced, false)
  {
    hide Text, KeyText, Before;
    var b, k, v := Before(first, spaced), KeyText(ms[0].key, spaced), Text(ms[0].value, spaced);
    assert b + k + v == b + (k + v);
  }

  lemma {:induction false} MembersRead(ms: seq<Member>, spaced: bool, tail: Bytes)
    requires ms != []
    ensures T.ReadMembers(MembersText(ms, spaced, true) + [T.RBRACE] + tail) == T.Got(MeaningOfMembers(ms), tail)
    decreases ms, 2
  {
    hide T.ReadMember, T.SkipSpace, Text, Meaning, Escaped, Runes, KeyText, MembersText;
    var end := [T.RBRACE] + tail;
    var more := MembersText(ms[1..], spaced, false) + end;
    assert MembersText(ms, spaced, true) + [T.RBRACE] + tail == MembersText(ms, spaced, true) + end;
    MembersLayout(ms, spaced, end);
    if |ms| == 1 {
      assert more == end by { NoMembersText(spaced); }
      assert end[1..] == tail;
      MemberReads(ms[0], spaced, more);
      NoSpaceToSkip(T.RBRACE, tail);
      assert MeaningOfMembers(ms) == [T.JMember(Runes(ms[0].key), Meaning(ms[0].value))];
    } else {
      var next := MembersText(ms[1..], spaced, true) + end;
      MembersLayout(ms[1..], spaced, end);
      MemberReads(ms[0], spaced, more);
      assert more == [T.COMMA] + more[1..];
      NoSpaceToSkip(T.COMMA, more[1..]);
      AfterSeparator(T.COMMA, spaced, next);
      assert next == MembersText(ms[1..], spaced, true) + [T.RBRACE] + tail;
      MembersStart(ms[1..], spaced, tail);
      MembersRead(ms[1..], spaced, tail);
    }
  }

  lemma NoMembersText(spaced: bool)
    ensures MembersText([], spaced, true) == MembersText([], spaced, false) == []
    ensures ElemsText([], spaced, true) == ElemsText([], spaced, false) == []
  {
  }

  /** Corollary: the text of a document is a whole JSON text for its meaning. */
  lemma TextIsJsonText(d: Doc, spaced: bool)
    ensures T.ReadText(Text(d, spaced)) == T.Got(Meaning(d), [])
  {
    hide T.ReadValue, Text, Meaning;
    TextReads(d, spaced, []);
    assert Text(d, spaced) + [] == Text(d, spaced);
  }

  /** A value's text never ends in a byte that suppresses the next separator. */
  lemma TextEnd(d: Doc, spaced: bool)
    ensures Text(d, spaced) != []
    ensures !P.OpensItem(Text(d, spaced)[|Text(d, spaced)| - 1])
  {
    hide T.ReadValue, T.SkipSpace, ElemsText, MembersText;
    if d.Leaf? {
      var t := d.text;
      assert T.SkipSpace(t) != [] by { P.NoElemsInNothing(); }
      P.ReadValueConsumes(T.SkipSpace(t));
      P.SkipSpaceSuffix(t);
    }
  }
}
