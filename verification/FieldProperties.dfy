/**
  What fields and values read as, spelled out case by case: the value of each kind of value, the
  report a failed field leaves beside it, and the texts the encoder writes of its own.
 */
module FieldProperties {
  import opened Common
  import opened Utf8
  import opened Buffers
  import opened Document
  import opened Namespaces
  import opened Primitives
  import opened Fields
  import opened MapEncoders
  import T = JsonText

  // ------------------------------------------------------------------ failures

  /** The field reports `e`, in both encoders, as a string under its key with `Error` appended,
      right after whatever it has written. */
  ghost predicate Reports(cfg: Config, f: Field, e: Bytes) {
    && !f.Skip? && Meaning(PrimitiveLeaf(Str(e))) == T.JString(Runes(e))
    && OneCallEvents(cfg, AddTo(f)) == AddEvents(cfg, f) + [Put(f.key + Ascii("Error"), PrimitiveLeaf(Str(e)))]
    && (!(f.KeyValue? && f.val.Reflected?) ==>
          OneCallTreeEvents(AddTo(f)) == AddTreeEvents(f) + [Store(f.key + Ascii("Error"), Atom(Prim(Str(e))))])
  }

  lemma SuffixText()
    ensures ERROR_SUFFIX == Ascii("Error")
  {
  }

  /** A field whose object, array or inline marshaler fails, or whose reflection does, reports the
      error; any other field reports nothing. */
  lemma FailureIsReported(cfg: Config, f: Field, e: Bytes)
    ensures f.KeyValue? && f.val.ObjectOf? && f.val.o.err == Some(e) ==> Reports(cfg, f, e)
    ensures f.KeyValue? && f.val.ArrayOf? && f.val.a.err == Some(e) ==> Reports(cfg, f, e)
    ensures f.KeyValue? && f.val.Reflected? && f.val.r == Failed(e) ==> Reports(cfg, f, e)
    ensures f.Inline? && f.o.err == Some(e) ==> Reports(cfg, f, e)
    ensures !Fails(f) ==> OneCallEvents(cfg, AddTo(f)) == AddEvents(cfg, f) && OneCallTreeEvents(AddTo(f)) == AddTreeEvents(f)
  {
    hide AddEvents, AddTreeEvents;
    SuffixText();
    assert AddEvents(cfg, f) + [] == AddEvents(cfg, f) && AddTreeEvents(f) + [] == AddTreeEvents(f);
  }

  predicate Fails(f: Field) {
    || (f.KeyValue? && f.val.ObjectOf? && f.val.o.err.Some?)
    || (f.KeyValue? && f.val.ArrayOf? && f.val.a.err.Some?)
    || (f.KeyValue? && f.val.Reflected? && f.val.r.Failed?)
    || (f.Inline? && f.o.err.Some?)
  }

  // -------------------------------------------------------------------- values

  /** A value is written and reads as `j`. */
  predicate ReadsAs(cfg: Config, v: Value, j: T.Json) {
    ValueDoc(cfg, v).Some? && Meaning(ValueDoc(cfg, v).value) == j
  }

  /** The scalar values: a primitive reads as itself; times and durations as what the user's
      encoder appends, or else as a number of nanoseconds; reflected values as null or as what
      the reflection encoder wrote, less its final newline; a failed reflection as nothing. */
  lemma ScalarsReadAs(cfg: Config, v: Value)
    ensures v.Prim? ==> ReadsAs(cfg, v, PrimitiveValue(v.p))
    ensures v.Time? && (cfg.encodeTime.None? || cfg.encodeTime.value(v.t).None?) ==> ReadsAs(cfg, v, T.JNumber(Decimal(v.t.nanos)))
    ensures v.Time? && cfg.encodeTime.Some? && cfg.encodeTime.value(v.t).Some? ==>
              ReadsAs(cfg, v, PrimitiveValue(cfg.encodeTime.value(v.t).value))
    ensures v.Duration? && (cfg.encodeDuration.None? || cfg.encodeDuration.value(v.nanos).None?) ==>
              ReadsAs(cfg, v, T.JNumber(Decimal(v.nanos)))
    ensures v.Duration? && cfg.encodeDuration.Some? && cfg.encodeDuration.value(v.nanos).Some? ==>
              ReadsAs(cfg, v, PrimitiveValue(cfg.encodeDuration.value(v.nanos).value))
    ensures v == Reflected(Nil) ==> ReadsAs(cfg, v, T.JNull)
    ensures v.Reflected? && v.r.Encoded? ==> ReadsAs(cfg, v, LeafValue(TrimNewline(v.r.out)))
    ensures v.Reflected? && v.r.Failed? <==> ValueDoc(cfg, v).None?
  {
    hide PrimitiveText, IsJson, LeafValue, Decimal;
    LiteralsAreJson();
  }

  /** An array reads as the values of its elements, in order, when all of them encode. */
  lemma {:induction false} ArrayReadsAs(cfg: Config, vs: seq<Value>, i: nat)
    requires forall k | 0 <= k < |vs| :: ValueDoc(cfg, vs[k]).Some?
    requires i < |vs|
    ensures |ElemDocs(cfg, vs)| == |vs| && ElemDocs(cfg, vs)[i] == ValueDoc(cfg, vs[i]).value
    decreases |vs|
  {
    hide ValueDoc;
    var n := |vs| - 1;
    if n > 0 {
      ArrayReadsAs(cfg, vs[..n], if i < n then i else 0);
    }
  }

  /** An object whose marshaler adds plain values reads as one member per call, in order. */
  lemma {:induction false} ObjectReadsAs(cfg: Config, calls: seq<Call>, i: nat)
    requires forall k | 0 <= k < |calls| ::
               calls[k].Add? && calls[k].f.KeyValue? && ValueDoc(cfg, calls[k].f.val).Some?
    requires i < |calls|
    ensures var evs := CallEvents(cfg, calls);
            && |evs| == |calls| && OnlyPuts(evs)
            && evs[i] == Put(calls[i].f.key, ValueDoc(cfg, calls[i].f.val).value)
    decreases |calls|
  {
    hide ValueDoc;
    var n := |calls| - 1;
    assert OneCallEvents(cfg, calls[n]) == [Put(calls[n].f.key, ValueDoc(cfg, calls[n].f.val).value)] by {
      assert AddEvents(cfg, calls[n].f) == [Put(calls[n].f.key, ValueDoc(cfg, calls[n].f.val).value)];
    }
    hide OneCallEvents;
    if n > 0 {
      ObjectReadsAs(cfg, calls[..n], if i < n then i else 0);
    }
  }

  /** Containers read as what is put in them: an array as its elements' documents, an object as the
      members its marshaler's calls stand for. */
  lemma ContainersReadAs(cfg: Config, v: Value)
    ensures v.ArrayOf? ==> ReadsAs(cfg, v, T.JArray(MeaningOfElems(ElemDocs(cfg, v.a.elems))))
    ensures v.ObjectOf? ==> ReadsAs(cfg, v, T.JObject(MeaningOfMembers(Nest(CallEvents(cfg, v.o.calls)))))
  {
    hide ElemDocs, CallEvents, Nest, MeaningOfMembers, MeaningOfElems;
  }

  /** An inline marshaler's calls land in the enclosing object, a no-op field does nothing, and a
      namespace swallows all that follows it. */
  lemma FieldsInPlace(cfg: Config, key: Bytes, o: ObjectMarshaler, calls: seq<Call>)
    ensures CallEvents(cfg, [Add(Inline(key, o))]) == CallEvents(cfg, o.calls)
    ensures CallEvents(cfg, [Add(Skip)]) == []
    ensures Nest(CallEvents(cfg, [Add(Namespace(key))] + calls)) == [Member(key, Object(Nest(CallEvents(cfg, calls))))]
  {
    OnlyCall(cfg, Add(Inline(key, o)));
    OnlyCall(cfg, Add(Skip));
    OnlyCall(cfg, Add(Namespace(key)));
    CallEventsConcat(cfg, [Add(Namespace(key))], calls);
    var rest := CallEvents(cfg, calls);
    assert OneCallEvents(cfg, Add(Namespace(key))) == [Open(key)];
    assert OneCallEvents(cfg, Add(Inline(key, o))) == CallEvents(cfg, o.calls) + [];
    assert ([Open(key)] + rest)[1..] == rest;
  }

  lemma OnlyCall(cfg: Config, c: Call)
    ensures CallEvents(cfg, [c]) == OneCallEvents(cfg, c)
  {
    hide OneCallEvents;
    assert [c][..0] == [];
    assert CallEvents(cfg, [c][..0]) == [];
    assert [] + OneCallEvents(cfg, c) == OneCallEvents(cfg, c);
  }

  lemma {:induction false} CallEventsConcat(cfg: Config, a: seq<Call>, b: seq<Call>)
    ensures CallEvents(cfg, a + b) == CallEvents(cfg, a) + CallEvents(cfg, b)
    decreases |b|
  {
    hide OneCallEvents;
    if b == [] {
      assert a + b == a;
    } else {
      var n := |b| - 1;
      CallEventsConcat(cfg, a, b[..n]);
      assert (a + b)[..|a + b| - 1] == a + b[..n];
    }
  }

  // --------------------------------------------------------------------- levels

  /** The level names. */
  lemma LevelTexts(l: int)
    ensures LevelName(-1) == Ascii("debug") && LevelName(0) == Ascii("info") && LevelName(1) == Ascii("warn")
    ensures LevelName(2) == Ascii("error") && LevelName(3) == Ascii("dpanic") && LevelName(4) == Ascii("panic")
    ensures LevelName(5) == Ascii("fatal")
    ensures !(-1 <= l <= 5) ==> LevelName(l) == Ascii("Level(") + Decimal(l) + Ascii(")")
  {
    hide Decimal;
  }

  /** No two levels share a name. */
  lemma LevelNamesDistinct(a: int, b: int)
    requires LevelName(a) == LevelName(b)
    ensures a == b
  {
    hide Decimal;
    if !(-1 <= a <= 5) && !(-1 <= b <= 5) {
      var m, n := |Decimal(a)|, |Decimal(b)|;
      assert LevelName(a)[6..6 + m] == Decimal(a) && LevelName(b)[6..6 + n] == Decimal(b);
      DecimalIsNumber(a);
      DecimalIsNumber(b);
    }
  }

  // --------------------------------------------------------------------- layout

  /** The punctuation of the two layouts: with and without a space after commas and colons. */
  lemma Punctuation()
    ensures Comma(false) == Ascii(",") && Comma(true) == Ascii(", ")
    ensures Colon(false) == Ascii(":") && Colon(true) == Ascii(": ")
    ensures Text(Object([]), false) == Text(Object([]), true) == Ascii("{}")
    ensures Text(Array([]), false) == Text(Array([]), true) == Ascii("[]")
  {
  }
}
