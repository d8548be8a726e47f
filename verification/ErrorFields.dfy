/**
  Error and Stringer fields. Both call code that may panic; the encoder recovers, writes
  `<nil>` for a nil pointer, and reports any other panic beside the field.
 */
module ErrorFields {
  import opened Common
  import opened Utf8
  import opened Document
  import opened Namespaces
  import opened Primitives
  import opened Fields

  /** An error as its methods show it: its text, a different verbose text if it has a formatter,
      or the errors it groups, some of which may be nil. Its text may panic, or, once that is
      written, the list of grouped errors. */
  datatype GoError =
    | NilPointer
    | Panics(what: Bytes)
    | Plain(text: Bytes, verbose: Option<Bytes>)
    | Grouped(text: Bytes, causes: seq<Option<GoError>>)
    | GroupPanics(text: Bytes, nilPointer: bool, what: Bytes)

  /** What calling a Stringer does. */
  datatype Stringer = Says(s: Bytes) | NilStringer | PanicsWith(what: Bytes)

  const NIL_TEXT: Bytes := [0x3C, 0x6E, 0x69, 0x6C, 0x3E]
  const PANIC_PREFIX: Bytes := [0x50, 0x41, 0x4E, 0x49, 0x43, 0x3D]
  const VERBOSE: Bytes := [0x56, 0x65, 0x72, 0x62, 0x6F, 0x73, 0x65]
  const CAUSES: Bytes := [0x43, 0x61, 0x75, 0x73, 0x65, 0x73]
  const ERROR_KEY: Bytes := [0x65, 0x72, 0x72, 0x6F, 0x72]

  /** The texts written besides the error's own. */
  lemma ErrorTexts()
    ensures NIL_TEXT == Ascii("<nil>") && PANIC_PREFIX == Ascii("PANIC=") && VERBOSE == Ascii("Verbose")
    ensures CAUSES == Ascii("Causes") && ERROR_KEY == Ascii("error")
  {
  }

  // -------------------------------------------------------------- the source

  function AddText(key: Bytes, text: Bytes): Call {
    Add(KeyValue(key, Prim(Str(text))))
  }

  /** `encodeError`: the calls it makes and the error it returns. */
  function ErrorMarshaler(key: Bytes, e: GoError): ObjectMarshaler
    decreases e
  {
    match e
    case NilPointer => ObjectMarshaler([AddText(key, NIL_TEXT)], None)
    case Panics(what) => ObjectMarshaler([], Some(PANIC_PREFIX + what))
    case Plain(text, verbose) =>
      ObjectMarshaler([AddText(key, text)] + (if verbose.Some? && verbose.value != text then [AddText(key + VERBOSE, verbose.value)] else []),
                      None)
    case Grouped(text, causes) =>
      var a := CauseArray(causes);
      ObjectMarshaler([AddText(key, text)] + [Add(KeyValue(key + CAUSES, ArrayOf(a)))], a.err)
    case GroupPanics(text, nilPointer, what) =>
      if nilPointer then ObjectMarshaler([AddText(key, text)] + [AddText(key, NIL_TEXT)], None)
      else ObjectMarshaler([AddText(key, text)], Some(PANIC_PREFIX + what))
  }

  /** `errArray.MarshalLogArray`: nil errors are left out, and the first failure ends the array. */
  function CauseArray(causes: seq<Option<GoError>>): ArrayMarshaler
    decreases causes
  {
    if causes == [] then ArrayMarshaler([], None)
    else match causes[0]
      case None => CauseArray(causes[1..])
      case Some(e) =>
        var m := CauseMarshaler(causes[0]);
        if m.err.Some? then ArrayMarshaler([ObjectOf(m)], m.err)
        else
          var rest := CauseArray(causes[1..]);
          ArrayMarshaler([ObjectOf(m)] + rest.elems, rest.err)
  }

  /** `errArrayElem`. */
  function CauseMarshaler(cause: Option<GoError>): ObjectMarshaler
    requires cause.Some?
    decreases cause
  {
    ErrorMarshaler(ERROR_KEY, cause.value)
  }

  function ErrorField(key: Bytes, e: GoError): Field {
    Inline(key, ErrorMarshaler(key, e))
  }

  /** `encodeStringer`. */
  function StringerField(key: Bytes, s: Stringer): Field {
    match s
    case Says(text) => KeyValue(key, Prim(Str(text)))
    case NilStringer => KeyValue(key, Prim(Str(NIL_TEXT)))
    case PanicsWith(what) => Inline(key, ObjectMarshaler([], Some(PANIC_PREFIX + what)))
  }

  // --------------------------------------------------------------- its meaning

  function TextMember(key: Bytes, text: Bytes): Member {
    Member(key, PrimitiveLeaf(Str(text)))
  }

  /** The first panic among an error and the errors below it, in order. */
  function FirstPanic(e: GoError): Option<Bytes>
    decreases e
  {
    match e
    case Panics(what) => Some(what)
    case Grouped(_, causes) => FirstPanicIn(causes)
    case GroupPanics(_, nilPointer, what) => if nilPointer then None else Some(what)
    case _ => None
  }

  function FirstPanicIn(causes: seq<Option<GoError>>): Option<Bytes>
    decreases causes
  {
    if causes == [] then None
    else
      if CausePanic(causes[0]).Some? then CausePanic(causes[0]) else FirstPanicIn(causes[1..])
  }

  function CausePanic(cause: Option<GoError>): Option<Bytes>
    decreases cause
  {
    match cause case None => None case Some(e) => FirstPanic(e)
  }

  /** The members written for an error. */
  function ErrorMembers(key: Bytes, e: GoError): seq<Member>
    decreases e
  {
    match e
    case NilPointer => [TextMember(key, NIL_TEXT)]
    case Panics(_) => []
    case Plain(text, verbose) =>
      [TextMember(key, text)] + if verbose.Some? && verbose.value != text then [TextMember(key + VERBOSE, verbose.value)] else []
    case Grouped(text, causes) => [TextMember(key, text)] + [Member(key + CAUSES, Array(CauseDocs(causes)))]
    case GroupPanics(text, nilPointer, _) => [TextMember(key, text)] + if nilPointer then [TextMember(key, NIL_TEXT)] else []
  }

  /** One object per cause up to the first in which something panics. */
  function CauseDocs(causes: seq<Option<GoError>>): seq<Doc>
    decreases causes
  {
    if causes == [] then []
    else match causes[0]
      case None => CauseDocs(causes[1..])
      case Some(e) =>
        [CauseDoc(causes[0])] + if CausePanic(causes[0]).Some? then [] else CauseDocs(causes[1..])
  }

  function CauseDoc(cause: Option<GoError>): Doc
    requires cause.Some?
    decreases cause
  {
    Object(ErrorMembers(ERROR_KEY, cause.value))
  }

  function Report(key: Bytes, panic: Option<Bytes>): seq<Member> {
    match panic case None => [] case Some(what) => [TextMember(key + ERROR_SUFFIX, PANIC_PREFIX + what)]
  }

  // ------------------------------------------------------------------- proofs

  function PanicError(panic: Option<Bytes>): Option<Bytes> {
    match panic case None => None case Some(what) => Some(PANIC_PREFIX + what)
  }

  lemma {:induction false} ElemDocsFirst(cfg: Config, v: Value, vs: seq<Value>)
    requires ValueDoc(cfg, v).Some?
    ensures ElemDocs(cfg, [v] + vs) == [ValueDoc(cfg, v).value] + ElemDocs(cfg, vs)
    decreases |vs|
  {
    hide ValueDoc;
    var all := [v] + vs;
    if vs == [] {
      assert all == [v] && all[..0] == [];
      assert ElemDocs(cfg, all[..0]) == [];
    } else {
      var n := |vs| - 1;
      ElemDocsFirst(cfg, v, vs[..n]);
      assert all[..|all| - 1] == [v] + vs[..n] && all[|all| - 1] == vs[n];
    }
  }

  lemma TwoCalls(cfg: Config, a: Call, b: Call)
    ensures CallEvents(cfg, [a] + [b]) == OneCallEvents(cfg, a) + OneCallEvents(cfg, b)
    ensures CallEvents(cfg, [a]) == OneCallEvents(cfg, a) && CallEvents(cfg, []) == []
  {
    hide OneCallEvents;
    assert ([a] + [b])[..1] == [a] && [a][..0] == [];
    assert CallEvents(cfg, [a][..0]) == [];
    assert [] + OneCallEvents(cfg, a) == OneCallEvents(cfg, a);
  }

  lemma AddedText(cfg: Config, key: Bytes, text: Bytes)
    ensures OneCallEvents(cfg, AddText(key, text)) == [Put(key, PrimitiveLeaf(Str(text)))]
  {
    assert ValueDoc(cfg, Prim(Str(text))) == Some(PrimitiveLeaf(Str(text)));
  }

  lemma NestPuts(k1: Bytes, d1: Doc, k2: Bytes, d2: Doc)
    ensures Nest([Put(k1, d1)]) == [Member(k1, d1)] && Nest([]) == []
    ensures Nest([Put(k1, d1)] + [Put(k2, d2)]) == [Member(k1, d1)] + [Member(k2, d2)]
  {
    assert [Put(k1, d1)][1..] == [] && [Put(k2, d2)][1..] == [];
    assert ([Put(k1, d1)] + [Put(k2, d2)])[1..] == [Put(k2, d2)];
  }

  lemma OneText(cfg: Config, k: Bytes, t: Bytes)
    ensures var evs := CallEvents(cfg, [AddText(k, t)]); OnlyPuts(evs) && Nest(evs) == [TextMember(k, t)]
  {
    hide Nest, CallEvents, OneCallEvents;
    TwoCalls(cfg, AddText(k, t), AddText(k, t));
    AddedText(cfg, k, t);
    NestPuts(k, PrimitiveLeaf(Str(t)), k, PrimitiveLeaf(Str(t)));
  }

  lemma TwoTexts(cfg: Config, k1: Bytes, t1: Bytes, k2: Bytes, t2: Bytes)
    ensures var evs := CallEvents(cfg, [AddText(k1, t1)] + [AddText(k2, t2)]);
            OnlyPuts(evs) && Nest(evs) == [TextMember(k1, t1)] + [TextMember(k2, t2)]
  {
    hide Nest, CallEvents, OneCallEvents;
    TwoCalls(cfg, AddText(k1, t1), AddText(k2, t2));
    AddedText(cfg, k1, t1);
    AddedText(cfg, k2, t2);
    NestPuts(k1, PrimitiveLeaf(Str(t1)), k2, PrimitiveLeaf(Str(t2)));
  }

  lemma NoText(cfg: Config)
    ensures CallEvents(cfg, []) == [] && Nest([]) == []
  {
  }

  lemma {:induction false} MarshalerMeaning(cfg: Config, key: Bytes, e: GoError)
    ensures var m := ErrorMarshaler(key, e);
            && OnlyPuts(CallEvents(cfg, m.calls)) && Nest(CallEvents(cfg, m.calls)) == ErrorMembers(key, e)
            && m.err == PanicError(FirstPanic(e))
    decreases e, 0
  {
    hide Nest, CallEvents, AddText, TextMember, OnlyPuts;
    match e
    case NilPointer => OneText(cfg, key, NIL_TEXT);
    case Panics(_) =>
      NoText(cfg);
      assert OnlyPuts([]) by { NothingPut(); }
    case Plain(text, verbose) =>
      OneText(cfg, key, text);
      TwoTexts(cfg, key, text, key + VERBOSE, if verbose.Some? then verbose.value else text);
      assert [AddText(key, text)] + [] == [AddText(key, text)];
      assert [TextMember(key, text)] + [] == [TextMember(key, text)];
    case Grouped(text, causes) => GroupedMeaning(cfg, key, text, causes);
    case GroupPanics(text, _, _) =>
      OneText(cfg, key, text);
      TwoTexts(cfg, key, text, key, NIL_TEXT);
      assert [TextMember(key, text)] + [] == [TextMember(key, text)];
  }

  lemma NothingPut()
    ensures OnlyPuts([])
  {
  }

  lemma {:induction false} GroupedMeaning(cfg: Config, key: Bytes, text: Bytes, causes: seq<Option<GoError>>)
    ensures var m := ErrorMarshaler(key, Grouped(text, causes));
            && OnlyPuts(CallEvents(cfg, m.calls)) && Nest(CallEvents(cfg, m.calls)) == ErrorMembers(key, Grouped(text, causes))
            && m.err == PanicError(FirstPanicIn(causes))
    decreases causes, 1
  {
    var a := CauseArray(causes);
    var call := Add(KeyValue(key + CAUSES, ArrayOf(a)));
    CausesMeaning(cfg, causes);
    assert ValueDoc(cfg, ArrayOf(a)) == Some(Array(ElemDocs(cfg, a.elems)));
    assert AddEvents(cfg, call.f) == [Put(key + CAUSES, Array(CauseDocs(causes)))];
    assert OneCallEvents(cfg, call) == [Put(key + CAUSES, Array(CauseDocs(causes)))];
    hide Nest, CallEvents, OneCallEvents, CauseArray, CauseDocs;
    TwoCalls(cfg, AddText(key, text), call);
    AddedText(cfg, key, text);
    NestPuts(key, PrimitiveLeaf(Str(text)), key + CAUSES, Array(CauseDocs(causes)));
  }

  lemma {:induction false} CausesMeaning(cfg: Config, causes: seq<Option<GoError>>)
    ensures var a := CauseArray(causes);
            ElemDocs(cfg, a.elems) == CauseDocs(causes) && a.err == PanicError(FirstPanicIn(causes))
    decreases causes, 0
  {
    hide CauseMarshaler, CauseDoc, ValueDoc, CausePanic;
    NoElems(cfg);
    if causes != [] {
      CausesMeaning(cfg, causes[1..]);
      if causes[0].Some? {
        var v := ObjectOf(CauseMarshaler(causes[0]));
        CauseMeaning(cfg, causes[0]);
        hide ElemDocs;
        ElemDocsFirst(cfg, v, []);
        ElemDocsFirst(cfg, v, CauseArray(causes[1..]).elems);
        assert [v] + [] == [v];
      } else {
        NoCausePanic();
      }
    }
  }

  lemma NoCausePanic()
    ensures CausePanic(None).None?
  {
  }

  lemma {:induction false} CauseMeaning(cfg: Config, cause: Option<GoError>)
    requires cause.Some?
    ensures ValueDoc(cfg, ObjectOf(CauseMarshaler(cause))) == Some(CauseDoc(cause))
    ensures CauseMarshaler(cause).err == PanicError(CausePanic(cause))
    decreases cause, 2
  {
    hide ErrorMarshaler, ErrorMembers, Nest, CallEvents, FirstPanic;
    MarshalerMeaning(cfg, ERROR_KEY, cause.value);
  }

  lemma NoElems(cfg: Config)
    ensures ElemDocs(cfg, []) == []
  {
  }

  lemma NestReported(evs: seq<Event>, key: Bytes, panic: Option<Bytes>)
    requires OnlyPuts(evs)
    ensures var err := match PanicError(panic) case None => [] case Some(e) => [Put(key + ERROR_SUFFIX, PrimitiveLeaf(Str(e)))];
            Nest(evs + err) == Nest(evs) + Report(key, panic)
  {
    hide Nest;
    NestPuts(key + ERROR_SUFFIX, PrimitiveLeaf(Str(if panic.Some? then PANIC_PREFIX + panic.value else [])), [], PrimitiveLeaf(Str([])));
    match panic
    case None => assert evs + [] == evs && Nest(evs) + [] == Nest(evs);
    case Some(what) => NestOfPuts(evs, [Put(key + ERROR_SUFFIX, PrimitiveLeaf(Str(PANIC_PREFIX + what)))]);
  }

  /** An error field writes the error's members, then the first panic met on the way, if any,
      under the key with suffix `Error`. It opens no namespace. */
  lemma ErrorFieldMeaning(cfg: Config, key: Bytes, e: GoError)
    ensures Nest(OneCallEvents(cfg, AddTo(ErrorField(key, e)))) == ErrorMembers(key, e) + Report(key, FirstPanic(e))
  {
    hide Nest, ErrorMarshaler, ErrorMembers, CallEvents;
    MarshalerMeaning(cfg, key, e);
    NestReported(CallEvents(cfg, ErrorMarshaler(key, e).calls), key, FirstPanic(e));
  }

  /** A Stringer field writes its text, `<nil>` for a nil pointer, or just the panic. */
  lemma StringerFieldMeaning(cfg: Config, key: Bytes, s: Stringer)
    ensures Nest(OneCallEvents(cfg, AddTo(StringerField(key, s))))
         == match s case Says(text) => [TextMember(key, text)]
                    case NilStringer => [TextMember(key, NIL_TEXT)]
                    case PanicsWith(what) => Report(key, Some(what))
  {
    match s
    case Says(text) => AddedText(cfg, key, text); NestPuts(key, PrimitiveLeaf(Str(text)), [], PrimitiveLeaf(Str(text)));
    case NilStringer => AddedText(cfg, key, NIL_TEXT); NestPuts(key, PrimitiveLeaf(Str(NIL_TEXT)), [], PrimitiveLeaf(Str(NIL_TEXT)));
    case PanicsWith(what) =>
      TwoCalls(cfg, AddText(key, what), AddText(key, what));
      NestReported([], key, Some(what));
  }
}
