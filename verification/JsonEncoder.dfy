/**
  The streaming JSON encoder: a buffer, a layout mode and one counter of open namespaces.
  Every method is specified by what it appends, as the layout of the events it stands for.
 */
module JsonEncoders {
  import opened Common
  import opened Utf8
  import opened Buffers
  import opened Escape
  import opened Document
  import opened Namespaces
  import opened Primitives
  import opened Fields
  import T = JsonText
  import P = JsonTextProperties

  class JsonEncoder {
    const cfg: Config
    const spaced: bool
    const buf: Buffer
    var openNamespaces: nat

    constructor (cfg: Config, spaced: bool)
      ensures this.cfg == cfg && this.spaced == spaced
      ensures fresh(buf) && Holds([])
    {
      this.cfg := cfg;
      this.spaced := spaced;
      openNamespaces := 0;
      buf := new Buffer();
    }

    /** `clone`: same configuration and namespace count, empty buffer. */
    constructor Emptied(enc: JsonEncoder)
      ensures cfg == enc.cfg && spaced == enc.spaced && openNamespaces == enc.openNamespaces
      ensures fresh(buf) && buf.bs == []
    {
      cfg := enc.cfg;
      spaced := enc.spaced;
      openNamespaces := enc.openNamespaces;
      buf := new Buffer();
    }

    /** The encoder has absorbed exactly the context `ctx`. */
    ghost predicate Holds(ctx: seq<Event>)
      reads this, buf
    {
      buf.bs == EventsText(ctx, spaced, true) && openNamespaces == Opens(ctx)
    }

    // ------------------------------------------------------------ punctuation

    method AddElementSeparator()
      modifies buf
      ensures buf.bs == old(buf.bs) + Before(AtStart(old(buf.bs)), spaced)
    {
      var last := |buf.bs| - 1;
      if last < 0 {
        return;
      }
      var b := buf.bs[last];
      if b == T.LBRACE || b == T.LBRACKET || b == T.COLON || b == T.COMMA || b == T.SPACE {
        return;
      }
      buf.AppendByte(T.COMMA);
      if spaced {
        buf.AppendByte(T.SPACE);
      }
    }

    method AddKey(key: Bytes)
      modifies buf
      ensures buf.bs == old(buf.bs) + Before(AtStart(old(buf.bs)), spaced) + KeyText(key, spaced)
      ensures AtStart(buf.bs)
    {
      hide Escaped;
      AddElementSeparator();
      buf.AppendByte(QUOTE);
      SafeAppend(buf, key);
      buf.AppendByte(QUOTE);
      buf.AppendByte(T.COLON);
      if spaced {
        buf.AppendByte(T.SPACE);
      }
    }

    /** `closeOpenNamespaces`. */
    method CloseOpenNamespaces()
      modifies buf, this`openNamespaces
      ensures buf.bs == old(buf.bs) + Braces(old(openNamespaces))
      ensures openNamespaces == 0
    {
      for i := 0 to openNamespaces
        invariant openNamespaces == old(openNamespaces)
        invariant buf.bs == old(buf.bs) + Braces(i)
      {
        buf.AppendByte(T.RBRACE);
      }
      openNamespaces := 0;
    }

    // -------------------------------------------------------------- appending

    /** The `Append` methods of the primitive encoder. */
    method AppendPrimitive(p: Primitive)
      modifies buf
      ensures buf.bs == old(buf.bs) + Before(AtStart(old(buf.bs)), spaced) + PrimitiveText(p)
    {
      hide PrimitiveText, AtStart, Before;
      AddElementSeparator();
      WritePrimitive(p);
    }

    method WritePrimitive(p: Primitive)
      modifies buf
      ensures buf.bs == old(buf.bs) + PrimitiveText(p)
    {
      hide Quoted, Decimal, ComplexText;
      match p
      case Bool(b) => buf.AppendBytes(if b then T.TRUE else T.FALSE);
      case Int(i) => buf.AppendBytes(Decimal(i));
      case Float(f) => AppendFloat(f);
      case Str(s) => AppendQuoted(s);
      case Complex(re, pos, im) => AppendComplex(re, pos, im);
      case Layout(t) => AppendUnescaped(t);
    }

    method AppendQuoted(s: Bytes)
      modifies buf
      ensures buf.bs == old(buf.bs) + Quoted(s)
    {
      hide Escaped;
      buf.AppendByte(QUOTE);
      SafeAppend(buf, s);
      buf.AppendByte(QUOTE);
    }

    /** `AppendTimeLayout` quotes the formatted time without escaping it. */
    method AppendUnescaped(t: PlainText)
      modifies buf
      ensures buf.bs == old(buf.bs) + ([QUOTE] + t + [QUOTE])
    {
      buf.AppendByte(QUOTE);
      buf.AppendBytes(t);
      buf.AppendByte(QUOTE);
    }

    method AppendComplex(re: AsciiToken, imNonNegative: bool, im: AsciiToken)
      modifies buf
      ensures buf.bs == old(buf.bs) + ([QUOTE] + ComplexText(re, imNonNegative, im) + [QUOTE])
    {
      buf.AppendByte(QUOTE);
      buf.AppendBytes(re);
      if imNonNegative {
        buf.AppendByte(0x2B);
      }
      buf.AppendBytes(im);
      buf.AppendByte(0x69);
      buf.AppendByte(QUOTE);
    }

    method AppendFloat(f: FloatValue)
      modifies buf
      ensures buf.bs == old(buf.bs) + PrimitiveText(Float(f))
    {
      match f
      case NaN => buf.AppendBytes([QUOTE] + NAN + [QUOTE]);
      case PosInf => buf.AppendBytes([QUOTE] + POS_INF + [QUOTE]);
      case NegInf => buf.AppendBytes([QUOTE] + NEG_INF + [QUOTE]);
      case Finite(t) => buf.AppendBytes(t);
    }

    /** Runs a user encoder and, if it wrote nothing, appends the fallback. */
    method AppendEncoded<A>(enc: Option<PrimitiveEncoder<A>>, a: A, fallback: Primitive)
      modifies buf
      ensures buf.bs == old(buf.bs) + Before(AtStart(old(buf.bs)), spaced)
                        + PrimitiveText(EncodedOr(enc, a, fallback))
    {
      hide PrimitiveText;
      var cur := |buf.bs|;
      if enc.Some? {
        var p := enc.value(a);
        if p.Some? {
          AppendPrimitive(p.value);
          PrimitiveTextNonEmpty(p.value);
        }
      }
      if cur == |buf.bs| {
        AppendPrimitive(fallback);
      }
    }

    // -------------------------------------------------------- nested values

    /** `encodeReflected`: nil is the literal null; otherwise the encoder's output less one
        final newline. */
    static method EncodeReflected(r: Reflection) returns (bytes: Bytes, err: Option<Bytes>)
      ensures err == ValueError(Reflected(r))
      ensures err.None? ==> bytes == if r.Nil? then T.NULL else TrimNewline(r.out)
    {
      hide IsJson, TrimNewline;
      match r
      case Nil => return T.NULL, None;
      case Failed(e) => return [], Some(e);
      case Encoded(out) =>
        var reflectBuf := new Buffer();
        reflectBuf.AppendBytes(out);
        assert [] + out == out;
        reflectBuf.TrimFinalNewline();
        return reflectBuf.bs, None;
    }

    method AppendArray(a: ArrayMarshaler) returns (err: Option<Bytes>)
      modifies buf, this`openNamespaces
      ensures buf.bs == old(buf.bs) + Before(AtStart(old(buf.bs)), spaced)
                        + Text(Array(ElemDocs(cfg, a.elems)), spaced)
      ensures openNamespaces == old(openNamespaces)
      ensures err == a.err
      decreases a
    {
      hide ValueDoc, ElemsText, Text, ElemDocs, Before, IsJson, AtStart;
      AddElementSeparator();
      buf.AppendByte(T.LBRACKET);
      ghost var base := buf.bs;
      OpeningByte(base);
      assert ElemDocs(cfg, a.elems[..0]) == [] by { NoElemDocs(cfg); }
      assert ElemsText([], spaced, true) == [] by { NoMembersText(spaced); }
      for i := 0 to |a.elems|
        invariant openNamespaces == old(openNamespaces)
        invariant buf.bs == base + ElemsText(ElemDocs(cfg, a.elems[..i]), spaced, true)
        invariant AtStart(buf.bs) <==> ElemDocs(cfg, a.elems[..i]) == []
      {
        ghost var ds := ElemDocs(cfg, a.elems[..i]);
        var _ := AppendValue(a.elems[i]);
        ElemDocsStep(cfg, a.elems, i);
        if ValueDoc(cfg, a.elems[i]).Some? {
          ElemAppended(base, ds, ValueDoc(cfg, a.elems[i]).value, spaced);
        }
      }
      assert a.elems[..|a.elems|] == a.elems;
      buf.AppendByte(T.RBRACKET);
      ArrayText(ElemDocs(cfg, a.elems), spaced);
      err := a.err;
    }

    /** `AppendObject`: whatever the marshaler opens is closed, and the caller's own count of
        open namespaces is restored, whether or not the marshaler fails. */
    method AppendObject(o: ObjectMarshaler) returns (err: Option<Bytes>)
      modifies buf, this`openNamespaces
      ensures buf.bs == old(buf.bs) + Before(AtStart(old(buf.bs)), spaced)
                        + Text(Object(Nest(CallEvents(cfg, o.calls))), spaced)
      ensures openNamespaces == old(openNamespaces)
      ensures err == o.err
      decreases o, 1
    {
      hide EventsText, Nest, Text, Opens, CallEvents, Braces, Before;
      var outer := openNamespaces;
      openNamespaces := 0;
      AddElementSeparator();
      buf.AppendByte(T.LBRACE);
      assert AtStart(buf.bs) by { OpeningByte(buf.bs); }
      hide AtStart;
      err := MarshalLogObject(o);
      buf.AppendByte(T.RBRACE);
      CloseOpenNamespaces();
      openNamespaces := outer;
      ObjectLayout(CallEvents(cfg, o.calls), spaced);
    }

    /** An `Append` call of the array encoder. */
    method AppendValue(v: Value) returns (err: Option<Bytes>)
      modifies buf, this`openNamespaces
      ensures buf.bs == match ValueDoc(cfg, v)
                        case None => old(buf.bs)
                        case Some(d) => old(buf.bs) + Before(AtStart(old(buf.bs)), spaced) + Text(d, spaced)
      ensures openNamespaces == old(openNamespaces)
      ensures err == ValueError(v)
      decreases v, 1
    {
      hide PrimitiveText, EncodedOr, ElemDocs, CallEvents, Nest;
      err := None;
      match v
      case Prim(p) => AppendPrimitive(p);
      case Time(t) => AppendEncoded(cfg.encodeTime, t, Int(t.nanos));
      case Duration(n) => AppendEncoded(cfg.encodeDuration, n, Int(n));
      case ArrayOf(a) => err := AppendArray(a);
      case ObjectOf(o) => err := AppendObject(o);
      case Reflected(r) =>
        var bytes;
        bytes, err := EncodeReflected(r);
        if err.None? {
          AddElementSeparator();
          buf.AppendBytes(bytes);
        }
    }

    // ----------------------------------------------------------------- fields

    /** The `Add` method for a field's type. */
    method AddField(f: Field) returns (err: Option<Bytes>)
      modifies buf, this`openNamespaces
      ensures buf.bs == old(buf.bs) + EventsText(AddEvents(cfg, f), spaced, AtStart(old(buf.bs)))
      ensures openNamespaces == old(openNamespaces) + Opens(AddEvents(cfg, f))
      ensures err == FieldError(f)
      decreases f, 1
    {
      hide ValueDoc, Text, CallEvents, KeyText;
      err := None;
      match f
      case KeyValue(k, v) =>
        err := AddKeyValue(k, v);
      case Namespace(k) =>
        AddKey(k);
        buf.AppendByte(T.LBRACE);
        openNamespaces := openNamespaces + 1;
        OneEventText(Open(k), spaced, AtStart(old(buf.bs)));
      case Inline(_, o) =>
        err := MarshalLogObject(o);
      case Skip =>
    }

    /** `AddArray`, `AddObject`, `AddReflected` and the typed `Add` methods. */
    method AddKeyValue(key: Bytes, v: Value) returns (err: Option<Bytes>)
      modifies buf, this`openNamespaces
      ensures buf.bs == old(buf.bs) + EventsText(AddEvents(cfg, KeyValue(key, v)), spaced, AtStart(old(buf.bs)))
      ensures openNamespaces == old(openNamespaces)
      ensures Opens(AddEvents(cfg, KeyValue(key, v))) == 0
      ensures err == ValueError(v)
      decreases v, 2
    {
      hide ValueDoc, Text, KeyText, Before, EventsText, Opens, AtStart;
      AlwaysWritten(cfg, v);
      if v.Reflected? {
        err := AddReflected(key, v.r);
      } else {
        AddKey(key);
        err := AppendValue(v);
        assert Before(true, spaced) == [] by { NoSeparator(spaced); }
      }
      if ValueDoc(cfg, v).Some? {
        OneEventText(Put(key, ValueDoc(cfg, v).value), spaced, AtStart(old(buf.bs)));
      } else {
        NoEvents(spaced);
      }
    }

    method AddString(key: Bytes, s: Bytes)
      modifies buf
      ensures buf.bs == old(buf.bs) + EventsText([Put(key, PrimitiveLeaf(Str(s)))], spaced, AtStart(old(buf.bs)))
    {
      hide PrimitiveText, PrimitiveValue, Meaning, IsJson, KeyText, Before, EventsText, AtStart;
      AddKey(key);
      AppendPrimitive(Str(s));
      assert Before(true, spaced) == [] by { NoSeparator(spaced); }
      OneEventText(Put(key, PrimitiveLeaf(Str(s))), spaced, AtStart(old(buf.bs)));
    }

    method AddReflected(key: Bytes, r: Reflection) returns (err: Option<Bytes>)
      modifies buf
      ensures buf.bs == match ValueDoc(cfg, Reflected(r))
                        case None => old(buf.bs)
                        case Some(d) => old(buf.bs) + Before(AtStart(old(buf.bs)), spaced)
                                        + KeyText(key, spaced) + Text(d, spaced)
      ensures err == ValueError(Reflected(r))
    {
      hide KeyText;
      var bytes;
      bytes, err := EncodeReflected(r);
      if err.Some? {
        return;
      }
      AddKey(key);
      buf.AppendBytes(bytes);
    }

    /** `Field.AddTo`: adds the field and, if that fails, the error under `keyError`. */
    method AddFieldTo(f: Field)
      modifies buf, this`openNamespaces
      ensures buf.bs == old(buf.bs) + EventsText(OneCallEvents(cfg, AddTo(f)), spaced, AtStart(old(buf.bs)))
      ensures openNamespaces == old(openNamespaces) + Opens(OneCallEvents(cfg, AddTo(f)))
      decreases f, 2
    {
      hide EventsText, Opens, AddEvents, AtStart, PrimitiveLeaf, PrimitiveText, KeyText;
      var err := AddField(f);
      if err.Some? {
        ghost var e := Put(f.key + ERROR_SUFFIX, PrimitiveLeaf(Str(err.value)));
        AddString(f.key + ERROR_SUFFIX, err.value);
        assert OneCallEvents(cfg, AddTo(f)) == AddEvents(cfg, f) + [e];
        LayoutContinues(old(buf.bs), AddEvents(cfg, f), [e], spaced);
        assert Opens([e]) == 0 by { NoOpens(e); }
      } else {
        assert OneCallEvents(cfg, AddTo(f)) == AddEvents(cfg, f);
      }
    }

    method MakeCall(c: Call)
      modifies buf, this`openNamespaces
      ensures buf.bs == old(buf.bs) + EventsText(OneCallEvents(cfg, c), spaced, AtStart(old(buf.bs)))
      ensures openNamespaces == old(openNamespaces) + Opens(OneCallEvents(cfg, c))
      decreases c, 1
    {
      hide EventsText, Opens, AddEvents, AtStart;
      match c
      case Add(f) =>
        var _ := AddField(f);
        assert OneCallEvents(cfg, c) == AddEvents(cfg, f);
      case AddTo(f) => AddFieldTo(f);
    }

    /** Runs an object marshaler on this encoder. */
    method MarshalLogObject(o: ObjectMarshaler) returns (err: Option<Bytes>)
      modifies buf, this`openNamespaces
      ensures buf.bs == old(buf.bs) + EventsText(CallEvents(cfg, o.calls), spaced, AtStart(old(buf.bs)))
      ensures openNamespaces == old(openNamespaces) + Opens(CallEvents(cfg, o.calls))
      ensures err == o.err
      decreases o, 0
    {
      hide EventsText, Opens, OneCallEvents, AtStart;
      NoEvents(spaced);
      for i := 0 to |o.calls|
        invariant buf.bs == old(buf.bs) + EventsText(CallEvents(cfg, o.calls[..i]), spaced, AtStart(old(buf.bs)))
        invariant openNamespaces == old(openNamespaces) + Opens(CallEvents(cfg, o.calls[..i]))
      {
        MakeCall(o.calls[i]);
        assert o.calls[..i + 1][..i] == o.calls[..i];
        LayoutContinues(old(buf.bs), CallEvents(cfg, o.calls[..i]), OneCallEvents(cfg, o.calls[i]), spaced);
      }
      assert o.calls[..|o.calls|] == o.calls;
      err := o.err;
    }

    /** `addFields`. */
    method AddFields(fs: seq<Field>)
      modifies buf, this`openNamespaces
      ensures buf.bs == old(buf.bs) + EventsText(FieldEvents(cfg, fs), spaced, AtStart(old(buf.bs)))
      ensures openNamespaces == old(openNamespaces) + Opens(FieldEvents(cfg, fs))
    {
      hide EventsText, Opens, OneCallEvents, AtStart;
      NoEvents(spaced);
      for i := 0 to |fs|
        invariant buf.bs == old(buf.bs) + EventsText(FieldEvents(cfg, fs[..i]), spaced, AtStart(old(buf.bs)))
        invariant openNamespaces == old(openNamespaces) + Opens(FieldEvents(cfg, fs[..i]))
      {
        AddFieldTo(fs[i]);
        assert fs[..i + 1][..i] == fs[..i];
        LayoutContinues(old(buf.bs), FieldEvents(cfg, fs[..i]), OneCallEvents(cfg, AddTo(fs[i])), spaced);
      }
      assert fs[..|fs|] == fs;
    }

    // ---------------------------------------------------------------- entries

    method AddMember<A>(key: Bytes, enc: Option<PrimitiveEncoder<A>>, a: A, fallback: Primitive)
      modifies buf
      ensures buf.bs == old(buf.bs)
                        + MembersText([Member(key, PrimitiveLeaf(EncodedOr(enc, a, fallback)))], spaced, AtStart(old(buf.bs)))
    {
      hide PrimitiveText, PrimitiveValue, Meaning, IsJson, KeyText, Before, MembersText, AtStart, EncodedOr;
      AddKey(key);
      AppendEncoded(enc, a, fallback);
      assert Before(true, spaced) == [] by { NoSeparator(spaced); }
      OneMember(Member(key, PrimitiveLeaf(EncodedOr(enc, a, fallback))), spaced, AtStart(old(buf.bs)));
    }

    method AddLevel(ent: Entry)
      modifies buf
      ensures buf.bs == old(buf.bs) + MembersText(LevelMembers(cfg, ent), spaced, AtStart(old(buf.bs)))
    {
      hide MembersText, AtStart, LevelName;
      NoMembersText(spaced);
      if cfg.levelKey != [] && cfg.encodeLevel.Some? {
        AddMember(cfg.levelKey, cfg.encodeLevel, ent.level, Str(LevelName(ent.level)));
      }
    }

    method AddTime(ent: Entry)
      modifies buf
      ensures buf.bs == old(buf.bs) + MembersText(TimeMembers(cfg, ent), spaced, AtStart(old(buf.bs)))
    {
      hide MembersText, AtStart;
      NoMembersText(spaced);
      if cfg.timeKey != [] && !ent.time.zero {
        AddMember(cfg.timeKey, cfg.encodeTime, ent.time, Int(ent.time.nanos));
      }
    }

    method AddName(ent: Entry)
      modifies buf
      ensures buf.bs == old(buf.bs) + MembersText(NameMembers(cfg, ent), spaced, AtStart(old(buf.bs)))
    {
      hide MembersText, AtStart;
      NoMembersText(spaced);
      if ent.name != [] && cfg.nameKey != [] {
        AddMember(cfg.nameKey, cfg.encodeName, ent.name, Str(ent.name));
      }
    }

    method AddPath(c: Caller)
      requires cfg.callerKey != [] ==> cfg.encodeCaller.Some?
      modifies buf
      ensures buf.bs == old(buf.bs) + MembersText(PathMembers(cfg, c), spaced, AtStart(old(buf.bs)))
    {
      hide MembersText, AtStart;
      NoMembersText(spaced);
      if cfg.callerKey != [] {
        AddMember(cfg.callerKey, cfg.encodeCaller, c, Str(c.path));
      }
    }

    method AddFunction(c: Caller)
      modifies buf
      ensures buf.bs == old(buf.bs) + MembersText(FunctionMembers(cfg, c), spaced, AtStart(old(buf.bs)))
    {
      hide MembersText, AtStart;
      NoMembersText(spaced);
      if cfg.functionKey != [] {
        AddPlainMember(cfg.functionKey, c.name);
      }
    }

    method AddCaller(c: Caller)
      requires cfg.callerKey != [] ==> cfg.encodeCaller.Some?
      modifies buf
      ensures buf.bs == old(buf.bs) + MembersText(CallerMembers(cfg, c), spaced, AtStart(old(buf.bs)))
    {
      hide MembersText, AtStart, PathMembers, FunctionMembers;
      AddPath(c);
      AddFunction(c);
      MembersContinue(old(buf.bs), PathMembers(cfg, c), FunctionMembers(cfg, c), spaced);
    }

    /** `addKey` followed by `AppendString`. */
    method AddPlainMember(key: Bytes, s: Bytes)
      modifies buf
      ensures buf.bs == old(buf.bs) + MembersText([Member(key, PrimitiveLeaf(Str(s)))], spaced, AtStart(old(buf.bs)))
    {
      hide PrimitiveText, PrimitiveValue, Meaning, IsJson, KeyText, Before, MembersText, AtStart;
      AddKey(key);
      AppendPrimitive(Str(s));
      assert Before(true, spaced) == [] by { NoSeparator(spaced); }
      OneMember(Member(key, PrimitiveLeaf(Str(s))), spaced, AtStart(old(buf.bs)));
    }

    method AddMetadata(ent: Entry)
      requires CallerIsEncodable(cfg, ent)
      modifies buf
      ensures buf.bs == old(buf.bs) + MembersText(MetaMembers(cfg, ent), spaced, AtStart(old(buf.bs)))
    {
      hide MembersText, AtStart, LevelMembers, TimeMembers, NameMembers, CallerMembers, PrimitiveLeaf;
      NoMembersText(spaced);
      ghost var bs := buf.bs;
      AddLevel(ent);
      AddTime(ent);
      MembersContinue(bs, LevelMembers(cfg, ent), TimeMembers(cfg, ent), spaced);
      AddName(ent);
      ghost var ms := LevelMembers(cfg, ent) + TimeMembers(cfg, ent);
      MembersContinue(bs, ms, NameMembers(cfg, ent), spaced);
      ms := ms + NameMembers(cfg, ent);
      if ent.caller.Some? {
        AddCaller(ent.caller.value);
        MembersContinue(bs, ms, CallerMembers(cfg, ent.caller.value), spaced);
        ms := ms + CallerMembers(cfg, ent.caller.value);
      } else {
        assert ms + [] == ms;
      }
      if cfg.messageKey != [] {
        AddPlainMember(cfg.messageKey, ent.message);
      }
      MembersContinue(bs, ms, Optional(cfg.messageKey != [], cfg.messageKey, Str(ent.message)), spaced);
    }

    /** The context of `enc`, spliced in front of the entry's own fields. */
    method SpliceContext(enc: JsonEncoder, ghost ctx: seq<Event>)
      requires enc.Holds(ctx) && enc.buf != buf && enc.spaced == spaced
      modifies buf
      ensures buf.bs == old(buf.bs) + EventsText(ctx, spaced, AtStart(old(buf.bs)))
    {
      hide EventsText, AtStart, Opens, Before;
      SplicedContext(ctx, spaced, AtStart(buf.bs));
      NoEvents(spaced);
      if |enc.buf.bs| > 0 {
        AddElementSeparator();
        buf.AppendBytes(enc.buf.bs);
      }
    }

    /** The entry as one object, on an encoder holding context `ctx`. */
    method EncodeObject(ent: Entry, fs: seq<Field>, ghost ctx: seq<Event>) returns (out: Buffer)
      requires Holds(ctx) && CallerIsEncodable(cfg, ent)
      ensures fresh(out)
      ensures out.bs == Text(EntryDoc(cfg, ent, ctx + FieldEvents(cfg, fs)), spaced)
    {
      hide EventsText, MembersText, AtStart, MetaMembers, StackMembers, FieldEvents, Nest, Opens, Text, Braces;
      ghost var evs := ctx + FieldEvents(cfg, fs);
      var final := new JsonEncoder.Emptied(this);
      final.buf.AppendByte(T.LBRACE);
      ghost var b0 := final.buf.bs;
      final.AddMetadata(ent);
      ghost var b1 := final.buf.bs;
      final.SpliceContext(this, ctx);
      final.AddFields(fs);
      LayoutContinues(b1, ctx, FieldEvents(cfg, fs), spaced);
      final.CloseOpenNamespaces();
      FlatLayoutIsTreeLayout(evs, spaced, AtStart(b1));
      assert final.buf.bs == b1 + MembersText(Nest(evs), spaced, AtStart(b1));
      MembersContinue(b0, MetaMembers(cfg, ent), Nest(evs), spaced);
      final.AddStack(ent);
      MembersContinue(b0, MetaMembers(cfg, ent) + Nest(evs), StackMembers(cfg, ent), spaced);
      final.buf.AppendByte(T.RBRACE);
      assert AtStart(b0) by { OpeningByte(b0); }
      ObjectText(MetaMembers(cfg, ent) + Nest(evs) + StackMembers(cfg, ent), spaced);
      out := final.buf;
    }

    /** `EncodeEntry`: the entry as one object, and the configured line ending, by default a
        newline. The receiver is not changed. */
    method EncodeEntry(ent: Entry, fs: seq<Field>, ghost ctx: seq<Event>) returns (out: Buffer)
      requires Holds(ctx) && CallerIsEncodable(cfg, ent)
      ensures fresh(out)
      ensures var text := Text(EntryDoc(cfg, ent, ctx + FieldEvents(cfg, fs)), spaced);
              && (cfg.skipLineEnding ==> out.bs == text)
              && (!cfg.skipLineEnding && cfg.lineEnding == [] ==> out.bs == text + [0x0A])
              && (!cfg.skipLineEnding && cfg.lineEnding != [] ==> out.bs == text + cfg.lineEnding)
    {
      hide FieldEvents, Text, EntryDoc;
      out := EncodeObject(ent, fs, ctx);
      out.AppendBytes(LineEnding(cfg));
    }

    method AddStack(ent: Entry)
      modifies buf
      ensures buf.bs == old(buf.bs) + MembersText(StackMembers(cfg, ent), spaced, AtStart(old(buf.bs)))
    {
      hide MembersText, AtStart;
      NoMembersText(spaced);
      if ent.stack != [] && cfg.stacktraceKey != [] {
        AddPlainMember(cfg.stacktraceKey, ent.stack);
      }
    }

    /** `Clone`. */
    method Clone(ghost ctx: seq<Event>) returns (clone: JsonEncoder)
      requires Holds(ctx)
      ensures fresh(clone) && fresh(clone.buf)
      ensures clone.cfg == cfg && clone.spaced == spaced && clone.Holds(ctx)
    {
      clone := new JsonEncoder.Emptied(this);
      clone.buf.AppendBytes(buf.bs);
    }

    /** `ioCore.With`: a clone that has absorbed `fs` as well. */
    method With(fs: seq<Field>, ghost ctx: seq<Event>) returns (r: JsonEncoder)
      requires Holds(ctx)
      ensures fresh(r) && fresh(r.buf)
      ensures r.cfg == cfg && r.spaced == spaced && r.Holds(ctx + FieldEvents(cfg, fs))
    {
      hide EventsText, Opens, FieldEvents;
      r := Clone(ctx);
      r.AddFields(fs);
      LayoutContinues([], ctx, FieldEvents(cfg, fs), spaced);
      assert [] + EventsText(ctx, spaced, true) == EventsText(ctx, spaced, true);
      assert [] + EventsText(ctx + FieldEvents(cfg, fs), spaced, true) == EventsText(ctx + FieldEvents(cfg, fs), spaced, true);
    }

    static lemma ObjectText(ms: seq<Member>, spaced: bool)
      ensures Text(Object(ms), spaced) == [T.LBRACE] + MembersText(ms, spaced, true) + [T.RBRACE]
    {
    }

    static lemma PrimitiveTextNonEmpty(p: Primitive)
      ensures PrimitiveText(p) != []
    {
      hide Decimal, Escaped;
    }
  
    static lemma ElemAppended(base: Bytes, ds: seq<Doc>, d: Doc, spaced: bool)
      ensures base + ElemsText(ds, spaced, true) + Before(ds == [], spaced) + Text(d, spaced)
           == base + ElemsText(ds + [d], spaced, true)
      ensures !AtStart(base + ElemsText(ds + [d], spaced, true))
    {
      hide Text, ElemsText, Before, AtStart;
      ElemsTextConcat(ds, [d], spaced, true);
      OneElemText(d, spaced, ds == []);
      AtStartAfterText(base + ElemsText(ds, spaced, true) + Before(ds == [], spaced), d, spaced);
      assert base + ElemsText(ds, spaced, true) + Before(ds == [], spaced) + Text(d, spaced)
          == base + (ElemsText(ds, spaced, true) + (Before(ds == [], spaced) + Text(d, spaced)));
    }

    static lemma OneElemText(d: Doc, spaced: bool, first: bool)
      ensures ElemsText([d], spaced, first) == Before(first, spaced) + Text(d, spaced)
    {
      hide Text;
      assert [d][1..] == [];
    }

    static lemma NoElemDocs(cfg: Config)
      ensures ElemDocs(cfg, []) == []
    {
    }

    static lemma ArrayText(ds: seq<Doc>, spaced: bool)
      ensures Text(Array(ds), spaced) == [T.LBRACKET] + ElemsText(ds, spaced, true) + [T.RBRACKET]
    {
    }

    static lemma AlwaysWritten(cfg: Config, v: Value)
      ensures v.Reflected? || ValueDoc(cfg, v).Some?
    {
    }

    static lemma OneEventText(e: Event, spaced: bool, first: bool)
      ensures EventsText([e], spaced, first) == EventText(e, spaced, first)
      ensures Opens([e]) == if e.Open? then 1 else 0
    {
      hide EventText;
      assert EventsText([e][1..], spaced, e.Open?) == [];
    }

    static lemma OpeningByte(bs: Bytes)
      requires bs != [] && (bs[|bs| - 1] == T.LBRACKET || bs[|bs| - 1] == T.LBRACE)
      ensures AtStart(bs)
    {
    }

    static lemma NoSeparator(spaced: bool)
      ensures Before(true, spaced) == []
    {
    }

    static lemma NoOpens(e: Event)
      requires e.Put?
      ensures Opens([e]) == 0
    {
    }

    static lemma NoEvents(spaced: bool)
      ensures EventsText([], spaced, true) == EventsText([], spaced, false) == [] && Opens([]) == 0
    {
    }
  }
}
