/**
  Fields, marshalers and encoder configuration. A marshaler is the list of calls it makes on
  the encoder it is given, together with the error it returns; a field list means a stream of
  namespace events.
 */
module Fields {
  import opened Common
  import opened Utf8
  import opened Buffers
  import opened Document
  import opened Namespaces
  import opened Primitives
  import T = JsonText

  /** A point in time: its nanoseconds since the epoch, and whether it is the zero time. */
  datatype Instant = Instant(nanos: int, zero: bool)

  /** What the reflection encoder may write: one JSON value, possibly followed by a newline. */
  type ReflectedOutput = out: Bytes | IsJson(TrimNewline(out)) ghost witness NullOutput()

  ghost function NullOutput(): (t: Bytes)
    ensures IsJson(TrimNewline(t))
  {
    NullWitness()
  }

  datatype Reflection = Nil | Encoded(out: ReflectedOutput) | Failed(err: Bytes)

  datatype Value =
    | Prim(p: Primitive)
    | Time(t: Instant)
    | Duration(nanos: int)
    | ArrayOf(a: ArrayMarshaler)
    | ObjectOf(o: ObjectMarshaler)
    | Reflected(r: Reflection)

  datatype ArrayMarshaler = ArrayMarshaler(elems: seq<Value>, err: Option<Bytes>)
  datatype ObjectMarshaler = ObjectMarshaler(calls: seq<Call>, err: Option<Bytes>)

  /** A call a marshaler makes: an `Add` method, or `AddTo` of a field (which also records
      the field's error). */
  datatype Call = Add(f: Field) | AddTo(f: Field)

  datatype Field =
    | KeyValue(key: Bytes, val: Value)
    | Namespace(key: Bytes)
    | Inline(key: Bytes, o: ObjectMarshaler)
    | Skip

  datatype Caller = Caller(path: Bytes, name: Bytes)

  datatype Entry = Entry(level: int, time: Instant, name: Bytes, message: Bytes, caller: Option<Caller>, stack: Bytes)

  /** A user-supplied encoder appends one primitive, or nothing at all. */
  type PrimitiveEncoder<!A> = A -> Option<Primitive>

  datatype Config = Config(
    messageKey: Bytes, levelKey: Bytes, timeKey: Bytes, nameKey: Bytes,
    callerKey: Bytes, functionKey: Bytes, stacktraceKey: Bytes,
    skipLineEnding: bool, lineEnding: Bytes,
    encodeLevel: Option<PrimitiveEncoder<int>>,
    encodeTime: Option<PrimitiveEncoder<Instant>>,
    encodeDuration: Option<PrimitiveEncoder<int>>,
    encodeCaller: Option<PrimitiveEncoder<Caller>>,
    encodeName: Option<PrimitiveEncoder<Bytes>>)

  /** The primitive an optional user encoder yields, or the fallback that keeps JSON valid. */
  function EncodedOr<A>(enc: Option<PrimitiveEncoder<A>>, a: A, fallback: Primitive): Primitive {
    match enc
    case None => fallback
    case Some(e) => match e(a) case None => fallback case Some(p) => p
  }

  /** The suffix `Error` of the key under which a failed field reports. */
  const ERROR_SUFFIX: Bytes := [0x45, 0x72, 0x72, 0x6F, 0x72]

  // ------------------------------------------------------ what a field means

  /** The tree a value is written as; none when its reflection fails. */
  function ValueDoc(cfg: Config, v: Value): Option<Doc>
    decreases v, 0
  {
    match v
    case Prim(p) => Some(PrimitiveLeaf(p))
    case Time(t) => Some(PrimitiveLeaf(EncodedOr(cfg.encodeTime, t, Int(t.nanos))))
    case Duration(n) => Some(PrimitiveLeaf(EncodedOr(cfg.encodeDuration, n, Int(n))))
    case ArrayOf(a) => Some(Array(ElemDocs(cfg, a.elems)))
    case ObjectOf(o) => Some(Object(Nest(CallEvents(cfg, o.calls))))
    case Reflected(Nil) => LiteralsAreJson(); Some(Leaf(T.NULL))
    case Reflected(Encoded(out)) => Some(Leaf(TrimNewline(out)))
    case Reflected(Failed(_)) => None
  }

  function ElemDocs(cfg: Config, vs: seq<Value>): seq<Doc>
    decreases vs, 0
  {
    if vs == [] then []
    else ElemDocs(cfg, vs[..|vs| - 1])
         + match ValueDoc(cfg, vs[|vs| - 1]) case None => [] case Some(d) => [d]
  }

  lemma ElemDocsStep(cfg: Config, vs: seq<Value>, i: nat)
    requires i < |vs|
    ensures ElemDocs(cfg, vs[..i + 1]) == match ValueDoc(cfg, vs[i])
                                          case None => ElemDocs(cfg, vs[..i])
                                          case Some(d) => ElemDocs(cfg, vs[..i]) + [d]
  {
    hide ValueDoc;
    assert vs[..i + 1][..i] == vs[..i];
  }

  /** The error an `Add` or `Append` call for `v` returns. */
  function ValueError(v: Value): Option<Bytes> {
    match v
    case ArrayOf(a) => a.err
    case ObjectOf(o) => o.err
    case Reflected(Failed(e)) => Some(e)
    case _ => None
  }

  function FieldError(f: Field): Option<Bytes> {
    match f
    case KeyValue(_, v) => ValueError(v)
    case Inline(_, o) => o.err
    case _ => None
  }

  /** The events of calling the encoder's `Add` method for a field. */
  function AddEvents(cfg: Config, f: Field): seq<Event>
    decreases f, 0
  {
    match f
    case KeyValue(k, v) => (match ValueDoc(cfg, v) case None => [] case Some(d) => [Put(k, d)])
    case Namespace(k) => [Open(k)]
    case Inline(_, o) => CallEvents(cfg, o.calls)
    case Skip => []
  }

  /** The event that records a field's error beside it. */
  function ErrorEvents(f: Field): seq<Event> {
    match FieldError(f)
    case None => []
    case Some(e) => [Put(f.key + ERROR_SUFFIX, PrimitiveLeaf(Str(e)))]
  }

  function CallEvents(cfg: Config, calls: seq<Call>): seq<Event>
    decreases calls, 0
  {
    if calls == [] then []
    else CallEvents(cfg, calls[..|calls| - 1]) + OneCallEvents(cfg, calls[|calls| - 1])
  }

  function OneCallEvents(cfg: Config, c: Call): seq<Event>
    decreases c, 0
  {
    AddEvents(cfg, c.f) + if c.AddTo? then ErrorEvents(c.f) else []
  }

  /** The events of a whole field list, each field added with `AddTo`. */
  function FieldEvents(cfg: Config, fs: seq<Field>): seq<Event> {
    if fs == [] then []
    else FieldEvents(cfg, fs[..|fs| - 1]) + OneCallEvents(cfg, AddTo(fs[|fs| - 1]))
  }

  lemma {:induction false} FieldEventsConcat(cfg: Config, a: seq<Field>, b: seq<Field>)
    ensures FieldEvents(cfg, a + b) == FieldEvents(cfg, a) + FieldEvents(cfg, b)
    decreases |b|
  {
    hide OneCallEvents;
    if b == [] {
      assert a + b == a;
    } else {
      var n := |b| - 1;
      FieldEventsConcat(cfg, a, b[..n]);
      assert (a + b)[..|a + b| - 1] == a + b[..n];
      assert (a + b)[|a + b| - 1] == b[n];
    }
  }

  // ------------------------------------------------------ what an entry means

  const DEBUG: Bytes := [0x64, 0x65, 0x62, 0x75, 0x67]
  const INFO: Bytes := [0x69, 0x6E, 0x66, 0x6F]
  const WARN: Bytes := [0x77, 0x61, 0x72, 0x6E]
  const ERROR: Bytes := [0x65, 0x72, 0x72, 0x6F, 0x72]
  const DPANIC: Bytes := [0x64, 0x70, 0x61, 0x6E, 0x69, 0x63]
  const PANIC: Bytes := [0x70, 0x61, 0x6E, 0x69, 0x63]
  const FATAL: Bytes := [0x66, 0x61, 0x74, 0x61, 0x6C]
  const LEVEL_OPEN: Bytes := [0x4C, 0x65, 0x76, 0x65, 0x6C, 0x28]

  /** `Level.String`. */
  function LevelName(l: int): Bytes {
    match l
    case -1 => DEBUG
    case 0 => INFO
    case 1 => WARN
    case 2 => ERROR
    case 3 => DPANIC
    case 4 => PANIC
    case 5 => FATAL
    case _ => LEVEL_OPEN + Decimal(l) + [0x29]
  }

  function Optional(present: bool, key: Bytes, p: Primitive): seq<Member> {
    if present then [Member(key, PrimitiveLeaf(p))] else []
  }

  function LevelMembers(cfg: Config, ent: Entry): seq<Member> {
    Optional(cfg.levelKey != [] && cfg.encodeLevel.Some?, cfg.levelKey,
             EncodedOr(cfg.encodeLevel, ent.level, Str(LevelName(ent.level))))
  }

  function TimeMembers(cfg: Config, ent: Entry): seq<Member> {
    Optional(cfg.timeKey != [] && !ent.time.zero, cfg.timeKey,
             EncodedOr(cfg.encodeTime, ent.time, Int(ent.time.nanos)))
  }

  function NameMembers(cfg: Config, ent: Entry): seq<Member> {
    Optional(ent.name != [] && cfg.nameKey != [], cfg.nameKey,
             EncodedOr(cfg.encodeName, ent.name, Str(ent.name)))
  }

  function PathMembers(cfg: Config, c: Caller): seq<Member> {
    Optional(cfg.callerKey != [], cfg.callerKey, EncodedOr(cfg.encodeCaller, c, Str(c.path)))
  }

  function FunctionMembers(cfg: Config, c: Caller): seq<Member> {
    Optional(cfg.functionKey != [], cfg.functionKey, Str(c.name))
  }

  function CallerMembers(cfg: Config, c: Caller): seq<Member> {
    PathMembers(cfg, c) + FunctionMembers(cfg, c)
  }

  /** The metadata of an entry, in its fixed order, each part present only when configured. */
  function MetaMembers(cfg: Config, ent: Entry): seq<Member> {
    LevelMembers(cfg, ent) + TimeMembers(cfg, ent) + NameMembers(cfg, ent)
    + (match ent.caller case None => [] case Some(c) => CallerMembers(cfg, c))
    + Optional(cfg.messageKey != [], cfg.messageKey, Str(ent.message))
  }

  /** The encoder calls `EncodeCaller` without a nil check. */
  predicate CallerIsEncodable(cfg: Config, ent: Entry) {
    ent.caller.Some? && cfg.callerKey != [] ==> cfg.encodeCaller.Some?
  }

  function StackMembers(cfg: Config, ent: Entry): seq<Member> {
    Optional(ent.stack != [] && cfg.stacktraceKey != [], cfg.stacktraceKey, Str(ent.stack))
  }

  /** The tree of an entry: metadata, then context and fields under the namespaces opened
      before them, then the stack trace back at the top level. */
  function EntryDoc(cfg: Config, ent: Entry, evs: seq<Event>): Doc {
    Object(MetaMembers(cfg, ent) + Nest(evs) + StackMembers(cfg, ent))
  }

  /** The line ending after configuration defaults are applied. */
  function LineEnding(cfg: Config): Bytes {
    if cfg.skipLineEnding then [] else if cfg.lineEnding == [] then [NEWLINE] else cfg.lineEnding
  }
}
