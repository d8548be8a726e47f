/**
  One line per entry: an entry's text contains a newline exactly if some reflected value in it
  does, so a log with newline endings can be cut back into its entries.
 */
module Framing {
  import opened Common
  import opened Utf8
  import opened Buffers
  import opened Escape
  import opened Document
  import opened Namespaces
  import opened Primitives
  import opened Fields
  import opened JsonEncoders
  import opened EntryProperties
  import T = JsonText
  import L = LineWriter

  predicate NoBreak(s: Bytes) {
    0x0A !in s
  }

  lemma NoBreakConcat(a: Bytes, b: Bytes)
    ensures NoBreak(a + b) <==> NoBreak(a) && NoBreak(b)
  {
    assert forall i | 0 <= i < |a| :: (a + b)[i] == a[i];
    assert forall i | 0 <= i < |b| :: (a + b)[|a| + i] == b[i];
  }

  // -------------------------------------------------------------------- leaves

  lemma EscapeHeadNoBreak(s: Bytes)
    requires s != []
    ensures NoBreak(EscapeHead(s))
  {
    if SequenceWidth(s) > 0 && s[0] >= RUNE_SELF {
      var e := s[..SequenceWidth(s)];
      assert forall i | 0 <= i < |e| :: e[i] >= 0x80;
    }
  }

  /** Whatever the input, its escaped form has no newline. */
  lemma {:induction false} EscapedNoBreak(s: Bytes)
    ensures NoBreak(Escaped(s))
    decreases |s|
  {
    hide EscapeHead, SequenceWidth, SequenceValue, NoBreak;
    if s == [] {
      Nothing();
    } else {
      var n := DecodeRune(s).1;
      EscapeHeadNoBreak(s);
      EscapedNoBreak(s[n..]);
      NoBreakConcat(EscapeHead(s), Escaped(s[n..]));
    }
  }

  lemma Nothing()
    ensures NoBreak([])
  {
  }

  lemma NumberNoBreak(t: NumberToken)
    ensures NoBreak(t)
  {
    hide T.DigitCount;
    var a := if t[0] == T.MINUS then 1 else 0;
    var i := T.IntLength(t[a..]);
    var f := T.FracLength(t[a + i..]);
    forall k | 0 <= k < |t| ensures t[k] != 0x0A {
      if a <= k < a + i {
        assert t[k] == t[a..][k - a];
      } else if a + i < k < a + i + f {
        assert t[k] == t[a + i..][1..][k - a - i - 1];
      } else if k >= a + i + f {
        ExponentNoBreak(t[a + i + f..]);
        assert t[k] == t[a + i + f..][k - a - i - f];
      }
    }
  }

  lemma ExponentNoBreak(t: Bytes)
    requires T.ExpLength(t) == |t|
    ensures forall k | 0 <= k < |t| :: t[k] != 0x0A
  {
    hide T.DigitCount;
    if t != [] {
      var sign := if |t| > 1 && (t[1] == 0x2B || t[1] == T.MINUS) then 2 else 1;
      forall k | sign <= k < |t| ensures t[k] != 0x0A {
        assert t[k] == t[sign..][k - sign];
      }
    }
  }

  lemma PlainNoBreak(t: Bytes)
    requires IsPlainAscii(t)
    ensures NoBreak(t)
  {
  }

  lemma QuotedNoBreak(t: Bytes)
    requires NoBreak(t)
    ensures NoBreak([QUOTE] + t + [QUOTE])
  {
    hide NoBreak;
    assert NoBreak([QUOTE]) by { OneByte(QUOTE); }
    NoBreakConcat([QUOTE], t);
    NoBreakConcat([QUOTE] + t, [QUOTE]);
  }

  lemma OneByte(b: Byte)
    ensures NoBreak([b]) <==> b != 0x0A
  {
  }

  lemma WordsNoBreak()
    ensures NoBreak(T.TRUE) && NoBreak(T.FALSE) && NoBreak(NAN) && NoBreak(POS_INF) && NoBreak(NEG_INF)
  {
  }

  /** Primitives never have a newline. */
  lemma PrimitiveNoBreak(p: Primitive)
    ensures NoBreak(PrimitiveText(p))
  {
    hide NoBreak, Escaped, Decimal, T.NumberLength, ComplexText;
    WordsNoBreak();
    match p
    case Bool(b) =>
    case Int(i) =>
      DecimalIsNumber(i);
      NumberNoBreak(Decimal(i));
    case Float(NaN) => QuotedNoBreak(NAN);
    case Float(PosInf) => QuotedNoBreak(POS_INF);
    case Float(NegInf) => QuotedNoBreak(NEG_INF);
    case Float(Finite(t)) => NumberNoBreak(t);
    case Str(s) =>
      EscapedNoBreak(s);
      QuotedNoBreak(Escaped(s));
    case Complex(re, pos, im) =>
      PlainNoBreak(ComplexText(re, pos, im));
      QuotedNoBreak(ComplexText(re, pos, im));
    case Layout(t) =>
      EscapedNoBreak(t);
      QuotedNoBreak(t);
  }

  // ----------------------------------------------------------------- documents

  /** No leaf of the tree has a newline. */
  predicate LeavesNoBreak(d: Doc)
    decreases d
  {
    match d
    case Leaf(t) => NoBreak(t)
    case Array(es) => forall i | 0 <= i < |es| :: LeavesNoBreak(es[i])
    case Object(ms) => AllNoBreak(ms)
  }

  predicate AllNoBreak(ms: seq<Member>)
    decreases ms
  {
    forall i | 0 <= i < |ms| :: MemberNoBreak(ms[i])
  }

  lemma AllConcat(a: seq<Member>, b: seq<Member>)
    ensures AllNoBreak(a + b) <==> AllNoBreak(a) && AllNoBreak(b)
  {
    hide MemberNoBreak;
    assert forall i | 0 <= i < |a| :: (a + b)[i] == a[i];
    assert forall i | 0 <= i < |b| :: (a + b)[|a| + i] == b[i];
  }

  lemma AllOfOne(m: Member)
    ensures AllNoBreak([m]) <==> LeavesNoBreak(m.value)
  {
    hide LeavesNoBreak;
    assert [m][0] == m;
    assert MemberNoBreak(m) <==> LeavesNoBreak(m.value);
  }

  predicate MemberNoBreak(m: Member)
    decreases m
  {
    LeavesNoBreak(m.value)
  }

  lemma PunctuationNoBreak(spaced: bool, first: bool)
    ensures NoBreak(Before(first, spaced)) && NoBreak(Colon(spaced))
  {
  }

  lemma KeyNoBreak(key: Bytes, spaced: bool)
    ensures NoBreak(KeyText(key, spaced))
  {
    hide NoBreak, Escaped, Colon;
    EscapedNoBreak(key);
    QuotedNoBreak(Escaped(key));
    PunctuationNoBreak(spaced, true);
    NoBreakConcat(Quoted(key), Colon(spaced));
  }

  lemma BracketsNoBreak(a: Byte, t: Bytes, b: Byte)
    requires a != 0x0A && b != 0x0A
    ensures NoBreak([a] + t + [b]) <==> NoBreak(t)
  {
    hide NoBreak;
    OneByte(a);
    OneByte(b);
    NoBreakConcat([a], t);
    NoBreakConcat([a] + t, [b]);
  }

  /** Exactly: the text of a tree has a newline if and only if one of its leaves has. */
  lemma {:induction false} TextNoBreak(d: Doc, spaced: bool)
    ensures NoBreak(Text(d, spaced)) <==> LeavesNoBreak(d)
    decreases d, 0
  {
    hide NoBreak;
    match d
    case Leaf(_) =>
    case Array(es) =>
      ElemsNoBreak(es, spaced, true);
      BracketsNoBreak(T.LBRACKET, ElemsText(es, spaced, true), T.RBRACKET);
    case Object(ms) =>
      MembersNoBreak(ms, spaced, true);
      BracketsNoBreak(T.LBRACE, MembersText(ms, spaced, true), T.RBRACE);
  }

  lemma {:induction false} ElemsNoBreak(es: seq<Doc>, spaced: bool, first: bool)
    ensures NoBreak(ElemsText(es, spaced, first)) <==> forall i | 0 <= i < |es| :: LeavesNoBreak(es[i])
    decreases es, 0
  {
    hide NoBreak, Text, LeavesNoBreak;
    if es == [] {
      Nothing();
    } else {
      var sep, e, rest := Before(first, spaced), Text(es[0], spaced), ElemsText(es[1..], spaced, false);
      TextNoBreak(es[0], spaced);
      ElemsNoBreak(es[1..], spaced, false);
      PunctuationNoBreak(spaced, first);
      NoBreakConcat(sep, e);
      NoBreakConcat(sep + e, rest);
      assert es == [es[0]] + es[1..];
    }
  }

  lemma {:induction false} MembersNoBreak(ms: seq<Member>, spaced: bool, first: bool)
    ensures NoBreak(MembersText(ms, spaced, first)) <==> AllNoBreak(ms)
    decreases ms, 0
  {
    hide NoBreak, Text, KeyText, MemberNoBreak;
    if ms == [] {
      Nothing();
    } else {
      var sep, k, v := Before(first, spaced), KeyText(ms[0].key, spaced), Text(ms[0].value, spaced);
      ValueNoBreak(ms[0], spaced);
      KeyNoBreak(ms[0].key, spaced);
      MembersNoBreak(ms[1..], spaced, false);
      PunctuationNoBreak(spaced, first);
      NoBreakConcat(sep, k);
      NoBreakConcat(sep + k, v);
      NoBreakConcat(sep + k + v, MembersText(ms[1..], spaced, false));
      assert ms == [ms[0]] + ms[1..];
    }
  }

  lemma {:induction false} ValueNoBreak(m: Member, spaced: bool)
    ensures NoBreak(Text(m.value, spaced)) <==> MemberNoBreak(m)
    decreases m, 1
  {
    hide NoBreak, Text, LeavesNoBreak;
    TextNoBreak(m.value, spaced);
  }

  // ------------------------------------------------------------------- entries

  /** No value put in the stream has a newline. */
  predicate EventsNoBreak(evs: seq<Event>) {
    forall i | 0 <= i < |evs| :: evs[i].Put? ==> LeavesNoBreak(evs[i].value)
  }

  lemma {:induction false} NestNoBreak(evs: seq<Event>)
    ensures EventsNoBreak(evs) <==> AllNoBreak(Nest(evs))
    decreases |evs|
  {
    hide LeavesNoBreak, MemberNoBreak;
    if evs != [] {
      NestNoBreak(evs[1..]);
      assert evs == [evs[0]] + evs[1..];
      assert EventsNoBreak(evs) <==> (evs[0].Put? ==> LeavesNoBreak(evs[0].value)) && EventsNoBreak(evs[1..]);
      match evs[0]
      case Put(k, d) =>
        AllOfOne(Member(k, d));
        AllConcat([Member(k, d)], Nest(evs[1..]));
      case Open(k) =>
        var inner := Object(Nest(evs[1..]));
        AllOfOne(Member(k, inner));
        assert LeavesNoBreak(inner) <==> AllNoBreak(Nest(evs[1..])) by { ObjectLeaves(Nest(evs[1..])); }
    }
  }

  lemma ObjectLeaves(ms: seq<Member>)
    ensures LeavesNoBreak(Object(ms)) <==> AllNoBreak(ms)
  {
    hide MemberNoBreak;
  }

  lemma OptionalNoBreak(present: bool, key: Bytes, p: Primitive)
    ensures AllNoBreak(Optional(present, key, p))
  {
    hide NoBreak, PrimitiveText;
    PrimitiveNoBreak(p);
    AllOfOne(Member(key, PrimitiveLeaf(p)));
  }

  lemma MetaNoBreak(cfg: Config, ent: Entry)
    ensures AllNoBreak(MetaMembers(cfg, ent)) && AllNoBreak(StackMembers(cfg, ent))
  {
    hide AllNoBreak, Optional, LevelName, EncodedOr;
    OptionalNoBreak(cfg.levelKey != [] && cfg.encodeLevel.Some?, cfg.levelKey,
                    EncodedOr(cfg.encodeLevel, ent.level, Str(LevelName(ent.level))));
    OptionalNoBreak(cfg.timeKey != [] && !ent.time.zero, cfg.timeKey, EncodedOr(cfg.encodeTime, ent.time, Int(ent.time.nanos)));
    OptionalNoBreak(ent.name != [] && cfg.nameKey != [], cfg.nameKey, EncodedOr(cfg.encodeName, ent.name, Str(ent.name)));
    OptionalNoBreak(cfg.messageKey != [], cfg.messageKey, Str(ent.message));
    OptionalNoBreak(ent.stack != [] && cfg.stacktraceKey != [], cfg.stacktraceKey, Str(ent.stack));
    var l, t, n := LevelMembers(cfg, ent), TimeMembers(cfg, ent), NameMembers(cfg, ent);
    var c := match ent.caller case None => [] case Some(c) => CallerMembers(cfg, c);
    CallerNoBreak(cfg, ent);
    AllConcat(l, t);
    AllConcat(l + t, n);
    AllConcat(l + t + n, c);
    AllConcat(l + t + n + c, Optional(cfg.messageKey != [], cfg.messageKey, Str(ent.message)));
  }

  lemma CallerNoBreak(cfg: Config, ent: Entry)
    ensures AllNoBreak(match ent.caller case None => [] case Some(c) => CallerMembers(cfg, c))
  {
    if ent.caller.Some? {
      hide AllNoBreak, Optional, EncodedOr;
      var c := ent.caller.value;
      OptionalNoBreak(cfg.callerKey != [], cfg.callerKey, EncodedOr(cfg.encodeCaller, c, Str(c.path)));
      OptionalNoBreak(cfg.functionKey != [], cfg.functionKey, Str(c.name));
      AllConcat(PathMembers(cfg, c), FunctionMembers(cfg, c));
    }
  }

  /** An entry's text has a newline if and only if a value among its fields or context has one;
      message, stack trace, keys and strings never do. */
  lemma EntryNoBreak(cfg: Config, ent: Entry, evs: seq<Event>, spaced: bool)
    ensures NoBreak(Text(EntryDoc(cfg, ent, evs), spaced)) <==> EventsNoBreak(evs)
  {
    hide NoBreak, MetaMembers, StackMembers, Nest, AllNoBreak, EventsNoBreak, Text, LeavesNoBreak;
    var m, n, k := MetaMembers(cfg, ent), Nest(evs), StackMembers(cfg, ent);
    MetaNoBreak(cfg, ent);
    NestNoBreak(evs);
    TextNoBreak(EntryDoc(cfg, ent, evs), spaced);
    ObjectLeaves(m + n + k);
    AllConcat(m, n);
    AllConcat(m + n, k);
  }

  // -------------------------------------------------------------------- fields

  /** No reflected value anywhere in `v` was written with a newline inside. */
  predicate OneLineValue(v: Value)
    decreases v
  {
    match v
    case ArrayOf(a) => forall i | 0 <= i < |a.elems| :: OneLineValue(a.elems[i])
    case ObjectOf(o) => forall i | 0 <= i < |o.calls| :: OneLineCall(o.calls[i])
    case Reflected(Encoded(out)) => NoBreak(TrimNewline(out))
    case _ => true
  }

  predicate OneLineCall(c: Call)
    decreases c
  {
    OneLineField(c.f)
  }

  predicate OneLineField(f: Field)
    decreases f
  {
    match f
    case KeyValue(_, v) => OneLineValue(v)
    case Inline(_, o) => forall i | 0 <= i < |o.calls| :: OneLineCall(o.calls[i])
    case _ => true
  }

  lemma {:induction false} ValueOneLine(cfg: Config, v: Value)
    requires OneLineValue(v)
    ensures ValueDoc(cfg, v).Some? ==> LeavesNoBreak(ValueDoc(cfg, v).value)
    decreases v, 0
  {
    hide NoBreak, PrimitiveText;
    match v
    case Prim(p) => PrimitiveNoBreak(p);
    case Time(t) => PrimitiveNoBreak(EncodedOr(cfg.encodeTime, t, Int(t.nanos)));
    case Duration(n) => PrimitiveNoBreak(EncodedOr(cfg.encodeDuration, n, Int(n)));
    case ArrayOf(a) => ElemsOneLine(cfg, a.elems);
    case ObjectOf(o) =>
      CallsOneLine(cfg, o.calls);
      NestNoBreak(CallEvents(cfg, o.calls));
      ObjectLeaves(Nest(CallEvents(cfg, o.calls)));
    case Reflected(Nil) => assert NoBreak(T.NULL) by { NullNoBreak(); }
    case Reflected(_) =>
  }

  lemma NullNoBreak()
    ensures NoBreak(T.NULL)
  {
  }

  lemma {:induction false} ElemsOneLine(cfg: Config, vs: seq<Value>)
    requires forall i | 0 <= i < |vs| :: OneLineValue(vs[i])
    ensures forall i | 0 <= i < |ElemDocs(cfg, vs)| :: LeavesNoBreak(ElemDocs(cfg, vs)[i])
    decreases vs, 0
  {
    hide ValueDoc, OneLineValue, LeavesNoBreak;
    if vs != [] {
      ElemsOneLine(cfg, vs[..|vs| - 1]);
      ValueOneLine(cfg, vs[|vs| - 1]);
    }
  }

  lemma {:induction false} AddOneLine(cfg: Config, f: Field)
    requires OneLineField(f)
    ensures EventsNoBreak(AddEvents(cfg, f)) && EventsNoBreak(ErrorEvents(f))
    decreases f, 0
  {
    hide NoBreak, PrimitiveText, ValueDoc;
    if FieldError(f).Some? {
      PrimitiveNoBreak(Str(FieldError(f).value));
    }
    match f
    case KeyValue(_, v) => ValueOneLine(cfg, v);
    case Inline(_, o) => CallsOneLine(cfg, o.calls);
    case _ =>
  }

  lemma {:induction false} OneCallOneLine(cfg: Config, c: Call)
    requires OneLineCall(c)
    ensures EventsNoBreak(OneCallEvents(cfg, c))
    decreases c, 0
  {
    hide AddEvents, ErrorEvents, LeavesNoBreak;
    AddOneLine(cfg, c.f);
  }

  lemma {:induction false} CallsOneLine(cfg: Config, calls: seq<Call>)
    requires forall i | 0 <= i < |calls| :: OneLineCall(calls[i])
    ensures EventsNoBreak(CallEvents(cfg, calls))
    decreases calls, 0
  {
    hide OneCallEvents, OneLineCall, LeavesNoBreak;
    if calls != [] {
      CallsOneLine(cfg, calls[..|calls| - 1]);
      OneCallOneLine(cfg, calls[|calls| - 1]);
    }
  }

  lemma {:induction false} FieldsOneLine(cfg: Config, fs: seq<Field>)
    requires forall i | 0 <= i < |fs| :: OneLineField(fs[i])
    ensures EventsNoBreak(FieldEvents(cfg, fs))
    decreases |fs|
  {
    hide OneCallEvents, OneLineField, LeavesNoBreak;
    if fs != [] {
      var n := |fs| - 1;
      FieldsOneLine(cfg, fs[..n]);
      assert OneLineCall(AddTo(fs[n]));
      OneCallOneLine(cfg, AddTo(fs[n]));
    }
  }

  // ---------------------------------------------------------------- whole logs

  lemma {:induction false} PiecesOfEnded(ts: seq<Bytes>)
    requires forall i | 0 <= i < |ts| :: NoBreak(ts[i])
    ensures L.Pieces(L.Ended(ts)) == ts + [[]]
    decreases |ts|
  {
    hide L.Pieces;
    if ts == [] {
      L.WholePiece([]);
    } else {
      var n := |ts| - 1;
      var before, last := L.Ended(ts[..n]), ts[n];
      PiecesOfEnded(ts[..n]);
      L.PiecesResume(before, last);
      assert [] + last == last;
      L.WholePiece(last);
      assert L.Front(ts[..n] + [[]]) == ts[..n] && L.Last(ts[..n] + [[]]) == [];
      L.OneByte(before + last, 0x0A);
      assert ts == ts[..n] + [last];
    }
  }

  /** A log of such texts, each ended by a newline, splits back into exactly these texts. */
  lemma LogSplitsBack(ts: seq<Bytes>)
    requires forall i | 0 <= i < |ts| :: NoBreak(ts[i])
    ensures L.Messages(L.Ended(ts)) == ts
  {
    hide L.Pieces, L.Ended;
    PiecesOfEnded(ts);
    assert L.Front(ts + [[]]) == ts;
  }

  datatype Record = Record(ent: Entry, fields: seq<Field>)

  /** The text of a record. */
  function RecordText(cfg: Config, spaced: bool, r: Record): Bytes {
    Text(EntryDoc(cfg, r.ent, FieldEvents(cfg, r.fields)), spaced)
  }

  /** Records encoded one after the other, by default with a newline after each: split at its
      newlines, the log has one line per record, and each reads as that record. */
  method EncodeLog(cfg: Config, spaced: bool, records: seq<Record>) returns (log: Bytes)
    requires !cfg.skipLineEnding && (cfg.lineEnding == [] || cfg.lineEnding == [0x0A])
    requires forall i | 0 <= i < |records| :: CallerIsEncodable(cfg, records[i].ent)
    requires forall i, k | 0 <= i < |records| && 0 <= k < |records[i].fields| :: OneLineField(records[i].fields[k])
    ensures |L.Messages(log)| == |records|
    ensures forall i | 0 <= i < |records| ::
              T.ReadText(L.Messages(log)[i])
              == T.Got(T.JObject(EntryMembers(cfg, records[i].ent, FieldEvents(cfg, records[i].fields))), [])
  {
    hide FieldEvents, Text, EntryDoc, T.ReadText, OneLineField, L.Messages, EntryMembers, NoBreak;
    log := [];
    ghost var texts: seq<Bytes> := [];
    for i := 0 to |records|
      invariant |texts| == i && log == L.Ended(texts)
      invariant forall k | 0 <= k < i :: NoBreak(texts[k]) && texts[k] == RecordText(cfg, spaced, records[k])
    {
      var r := records[i];
      var enc := new JsonEncoder(cfg, spaced);
      var line := EncodeLine(enc, r.ent, r.fields, []);
      assert [] + FieldEvents(cfg, r.fields) == FieldEvents(cfg, r.fields);
      ghost var text := RecordText(cfg, spaced, r);
      FieldsOneLine(cfg, r.fields);
      EntryNoBreak(cfg, r.ent, FieldEvents(cfg, r.fields), spaced);
      assert (texts + [text])[..|texts|] == texts;
      assert log + line == L.Ended(texts) + text + [0x0A];
      texts := texts + [text];
      log := log + line;
    }
    LogSplitsBack(texts);
    forall i | 0 <= i < |records|
      ensures T.ReadText(texts[i]) == T.Got(T.JObject(EntryMembers(cfg, records[i].ent, FieldEvents(cfg, records[i].fields))), [])
    {
      RecordReads(cfg, spaced, records[i]);
    }
  }

  lemma RecordReads(cfg: Config, spaced: bool, r: Record)
    ensures T.ReadText(RecordText(cfg, spaced, r)) == T.Got(T.JObject(EntryMembers(cfg, r.ent, FieldEvents(cfg, r.fields))), [])
  {
    hide FieldEvents, Text, EntryDoc, T.ReadText, MetaJson, MeaningOfMembers, Nest;
    EntryParses(cfg, r.ent, FieldEvents(cfg, r.fields), spaced);
  }
}
