/**
  The JSON encoder and the in-memory encoder agree: reading the JSON text with the last of
  repeated keys winning gives the nested map the in-memory encoder builds, each stored value
  rendered as JSON renders it.
 */
module EncoderAgreement {
  import opened Common
  import opened Utf8
  import opened Document
  import opened Namespaces
  import opened Primitives
  import opened Fields
  import opened MapEncoders
  import T = JsonText

  /** A JSON value with object members collected into a map. */
  datatype Decoded = DScalar(j: T.Json) | DList(elems: seq<Decoded>) | DMap(entries: map<seq<Rune>, Decoded>)

  function Decode(j: T.Json): Decoded
    decreases j, 0
  {
    match j
    case JArray(es) => DList(seq(|es|, i requires 0 <= i < |es| => Decode(es[i])))
    case JObject(ms) => DMap(DecodeOnto(map[], ms))
    case _ => DScalar(j)
  }

  /** Members from left to right: a later key replaces an earlier one. */
  function DecodeOnto(base: map<seq<Rune>, Decoded>, ms: seq<T.JMember>): map<seq<Rune>, Decoded>
    decreases ms, 0
  {
    if ms == [] then base else DecodeOnto(base[ms[0].key := Decode(ms[0].value)], ms[1..])
  }

  /** No two keys look the same to a JSON reader. */
  predicate KeysDistinct(ks: set<Bytes>) {
    forall a, b | a in ks && b in ks && Runes(a) == Runes(b) :: a == b
  }

  /** The keys of every map in the tree are distinct as JSON keys. */
  predicate Renderable(t: Tree)
    decreases t
  {
    match t
    case Atom(_) => true
    case Items(ts) => forall i | 0 <= i < |ts| :: Renderable(ts[i])
    case Branch(m) => KeysDistinct(m.Keys) && forall k | k in m :: Renderable(m[k])
  }

  /** A stored value as JSON shows it. */
  function RenderAtom(cfg: Config, v: Value): Decoded {
    match ValueDoc(cfg, v)
    case None => DScalar(T.JNull)
    case Some(d) => Decode(Meaning(d))
  }

  /** The key of `ks` that a JSON reader sees as `r`. */
  ghost function KeyFor(ks: set<Bytes>, r: seq<Rune>): (k: Bytes)
    requires r in RuneKeys(ks)
    ensures k in ks && Runes(k) == r
  {
    var k :| k in ks && Runes(k) == r;
    k
  }

  ghost function Render(cfg: Config, t: Tree): Decoded
    requires Renderable(t)
    decreases t
  {
    match t
    case Atom(v) => RenderAtom(cfg, v)
    case Items(ts) => DList(seq(|ts|, i requires 0 <= i < |ts| => Render(cfg, ts[i])))
    case Branch(m) => DMap(map r | r in RuneKeys(m.Keys) :: Render(cfg, m[KeyFor(m.Keys, r)]))
  }

  // ------------------------------------------------------------ one document

  ghost predicate Agree(cfg: Config, d: Doc, t: Tree) {
    Renderable(t) ==> Decode(Meaning(d)) == Render(cfg, t)
  }

  /** The two event streams put agreeing values under the same keys. */
  ghost predicate Parallel(cfg: Config, evs: seq<Event>, tevs: seq<TreeEvent>) {
    |evs| == |tevs| && forall i | 0 <= i < |evs| :: ParallelEvent(cfg, evs[i], tevs[i])
  }

  ghost predicate ParallelEvent(cfg: Config, e: Event, t: TreeEvent) {
    e.key == t.key && (e.Open? <==> t.Enter?) && (e.Put? ==> Agree(cfg, e.value, t.t))
  }

  function RuneKeys(ks: set<Bytes>): set<seq<Rune>> {
    set k | k in ks :: Runes(k)
  }

  /** A decoded map shows the entries of an in-memory map. */
  ghost predicate Shows(cfg: Config, dm: map<seq<Rune>, Decoded>, m: map<Bytes, Tree>) {
    && dm.Keys == RuneKeys(m.Keys)
    && (KeysDistinct(m.Keys) ==>
          forall k | k in m :: Renderable(m[k]) ==> Runes(k) in dm && dm[Runes(k)] == Render(cfg, m[k]))
  }

  lemma ShowsStore(cfg: Config, dm: map<seq<Rune>, Decoded>, m: map<Bytes, Tree>, k: Bytes, d: Doc, t: Tree)
    requires Shows(cfg, dm, m) && Agree(cfg, d, t)
    ensures Shows(cfg, dm[Runes(k) := Decode(Meaning(d))], m[k := t])
  {
    hide Runes, Render, Renderable, Decode, Meaning;
    var dm', m' := dm[Runes(k) := Decode(Meaning(d))], m[k := t];
    assert m'.Keys == m.Keys + {k};
    assert dm'.Keys == RuneKeys(m'.Keys);
    if KeysDistinct(m'.Keys) {
      forall x | x in m' && Renderable(m'[x]) ensures Runes(x) in dm' && dm'[Runes(x)] == Render(cfg, m'[x]) {
        if x != k {
          assert x in m'.Keys && k in m'.Keys;
          assert Runes(x) != Runes(k);
        }
      }
    }
  }

  lemma {:induction false} BuildShows(cfg: Config, dm: map<seq<Rune>, Decoded>, base: map<Bytes, Tree>,
                                      evs: seq<Event>, tevs: seq<TreeEvent>)
    requires Shows(cfg, dm, base) && Parallel(cfg, evs, tevs)
    ensures Shows(cfg, DecodeOnto(dm, MeaningOfMembers(Nest(evs))), Build(base, tevs))
    decreases |evs|
  {
    hide Runes, Render, Renderable, Shows, Agree;
    if evs != [] {
      assert ParallelEvent(cfg, evs[0], tevs[0]);
      assert Parallel(cfg, evs[1..], tevs[1..]);
      match evs[0]
      case Put(k, d) => {
        hide Decode, Meaning;
        var dm' := dm[Runes(k) := Decode(Meaning(d))];
        ShowsStore(cfg, dm, base, k, d, tevs[0].t);
        BuildShows(cfg, dm', base[k := tevs[0].t], evs[1..], tevs[1..]);
        FirstDecoded(dm, k, d, Nest(evs[1..]));
      }
      case Open(k) => {
        var inner := Object(Nest(evs[1..]));
        var t := Branch(Build(map[], tevs[1..]));
        assert Agree(cfg, inner, t) by {
          ShowsNothing(cfg);
          BuildShows(cfg, map[], map[], evs[1..], tevs[1..]);
          ShowsIsAgree(cfg, Nest(evs[1..]), Build(map[], tevs[1..]));
        }
        hide Decode, Meaning;
        ShowsStore(cfg, dm, base, k, inner, t);
        FirstDecoded(dm, k, inner, []);
        NoMeaning();
      }
    }
  }

  lemma ShowsNothing(cfg: Config)
    ensures Shows(cfg, map[], map[])
  {
  }

  lemma FirstDecoded(dm: map<seq<Rune>, Decoded>, k: Bytes, d: Doc, ms: seq<Member>)
    ensures DecodeOnto(dm, MeaningOfMembers([Member(k, d)] + ms))
         == DecodeOnto(dm[Runes(k) := Decode(Meaning(d))], MeaningOfMembers(ms))
  {
    hide Decode, Meaning, Runes;
    var all := [Member(k, d)] + ms;
    assert all[1..] == ms;
    var js := MeaningOfMembers(all);
    assert js == [T.JMember(Runes(k), Meaning(d))] + MeaningOfMembers(ms);
    assert js[1..] == MeaningOfMembers(ms);
  }

  lemma ShowsIsAgree(cfg: Config, ms: seq<Member>, m: map<Bytes, Tree>)
    requires Shows(cfg, DecodeOnto(map[], MeaningOfMembers(ms)), m)
    ensures Agree(cfg, Object(ms), Branch(m))
  {
    hide Runes, DecodeOnto, MeaningOfMembers;
    if Renderable(Branch(m)) {
      var dm := DecodeOnto(map[], MeaningOfMembers(ms));
      var rm := Render(cfg, Branch(m)).entries;
      assert dm.Keys == rm.Keys;
      forall x | x in dm ensures dm[x] == rm[x] {
        var k :| k in m && Runes(k) == x;
        assert Renderable(m[k]);
        RenderEntry(cfg, m, k);
      }
    }
  }

  lemma RenderEntry(cfg: Config, m: map<Bytes, Tree>, k: Bytes)
    requires Renderable(Branch(m)) && k in m
    ensures Renderable(m[k]) && Runes(k) in Render(cfg, Branch(m)).entries
    ensures Render(cfg, Branch(m)).entries[Runes(k)] == Render(cfg, m[k])
  {
    hide Runes;
    assert KeyFor(m.Keys, Runes(k)) == k;
  }

  // ------------------------------------------------------------- whole fields

  /** No reflected value in `v` fails to encode. */
  predicate ValueEncodes(v: Value)
    decreases v
  {
    match v
    case ArrayOf(a) => forall i | 0 <= i < |a.elems| :: ValueEncodes(a.elems[i])
    case ObjectOf(o) => forall i | 0 <= i < |o.calls| :: CallEncodes(o.calls[i])
    case Reflected(r) => !r.Failed?
    case _ => true
  }

  predicate CallEncodes(c: Call)
    decreases c
  {
    FieldEncodes(c.f)
  }

  predicate FieldEncodes(f: Field)
    decreases f
  {
    match f
    case KeyValue(_, v) => ValueEncodes(v)
    case Inline(_, o) => forall i | 0 <= i < |o.calls| :: CallEncodes(o.calls[i])
    case _ => true
  }

  lemma {:induction false} ValuesAgree(cfg: Config, v: Value)
    requires ValueEncodes(v)
    ensures ValueDoc(cfg, v).Some? && Agree(cfg, ValueDoc(cfg, v).value, ValueTree(v))
    decreases v, 0
  {
    match v
    case ArrayOf(a) =>
      ElemsAgree(cfg, a.elems);
      ItemsAgree(cfg, ElemDocs(cfg, a.elems), ElemTrees(a.elems));
    case ObjectOf(o) =>
      CallsParallel(cfg, o.calls);
      EventsAgree(cfg, CallEvents(cfg, o.calls), CallTreeEvents(o.calls));
    case _ =>
  }

  lemma EventsAgree(cfg: Config, evs: seq<Event>, tevs: seq<TreeEvent>)
    requires Parallel(cfg, evs, tevs)
    ensures Agree(cfg, Object(Nest(evs)), Branch(Build(map[], tevs)))
  {
    hide Shows, Agree, Nest, Build;
    ShowsNothing(cfg);
    BuildShows(cfg, map[], map[], evs, tevs);
    ShowsIsAgree(cfg, Nest(evs), Build(map[], tevs));
  }

  ghost predicate AgreeAll(cfg: Config, ds: seq<Doc>, ts: seq<Tree>) {
    |ds| == |ts| && forall i | 0 <= i < |ds| :: Agree(cfg, ds[i], ts[i])
  }

  lemma {:induction false} ElemsAgree(cfg: Config, vs: seq<Value>)
    requires forall i | 0 <= i < |vs| :: ValueEncodes(vs[i])
    ensures AgreeAll(cfg, ElemDocs(cfg, vs), ElemTrees(vs))
    decreases vs, 0
  {
    hide Agree, ValueDoc, ValueTree;
    if vs != [] {
      ElemsAgree(cfg, vs[..|vs| - 1]);
      ValuesAgree(cfg, vs[|vs| - 1]);
    }
  }

  lemma {:induction false} ElemMeaning(ds: seq<Doc>, i: nat)
    requires i < |ds|
    ensures |MeaningOfElems(ds)| == |ds| && MeaningOfElems(ds)[i] == Meaning(ds[i])
  {
    hide Meaning;
    if |ds| > 1 {
      ElemMeaning(ds[1..], if i > 0 then i - 1 else 0);
    }
  }

  lemma ItemsAgree(cfg: Config, ds: seq<Doc>, ts: seq<Tree>)
    requires AgreeAll(cfg, ds, ts)
    ensures Agree(cfg, Array(ds), Items(ts))
  {
    hide MeaningOfElems;
    if Renderable(Items(ts)) {
      var js := MeaningOfElems(ds);
      if ds == [] {
        NoMeaning();
      } else {
        ElemMeaning(ds, 0);
      }
      forall i | 0 <= i < |ds| ensures Decode(js[i]) == Render(cfg, ts[i]) {
        ElemMeaning(ds, i);
        assert Agree(cfg, ds[i], ts[i]);
      }
      assert Decode(T.JArray(js)).elems == Render(cfg, Items(ts)).elems;
    }
  }

  lemma ParallelConcat(cfg: Config, a: seq<Event>, b: seq<Event>, ta: seq<TreeEvent>, tb: seq<TreeEvent>)
    requires Parallel(cfg, a, ta) && Parallel(cfg, b, tb)
    ensures Parallel(cfg, a + b, ta + tb)
  {
    hide ParallelEvent;
  }

  lemma {:induction false} AddParallel(cfg: Config, f: Field)
    requires FieldEncodes(f)
    ensures Parallel(cfg, AddEvents(cfg, f), AddTreeEvents(f))
    decreases f, 0
  {
    hide Agree;
    match f
    case KeyValue(k, v) => {
      hide ValueDoc, ValueTree;
      ValuesAgree(cfg, v);
    }
    case Inline(_, o) => {
      hide Parallel;
      CallsParallel(cfg, o.calls);
    }
    case _ =>
  }

  lemma {:induction false} OneCallParallel(cfg: Config, c: Call)
    requires CallEncodes(c)
    ensures Parallel(cfg, OneCallEvents(cfg, c), OneCallTreeEvents(c))
    decreases c, 0
  {
    hide AddEvents, AddTreeEvents, Parallel;
    AddParallel(cfg, c.f);
    ErrorsParallel(cfg, c.f);
    NothingParallel(cfg);
    ParallelConcat(cfg, AddEvents(cfg, c.f), if c.AddTo? then ErrorEvents(c.f) else [],
                   AddTreeEvents(c.f), if c.AddTo? then ErrorTreeEvents(c.f) else []);
  }

  lemma NothingParallel(cfg: Config)
    ensures Parallel(cfg, [], [])
  {
  }

  lemma ErrorsParallel(cfg: Config, f: Field)
    requires FieldEncodes(f)
    ensures Parallel(cfg, ErrorEvents(f), ErrorTreeEvents(f))
  {
    hide PrimitiveText, PrimitiveValue;
    if FieldError(f).Some? {
      var e := FieldError(f).value;
      assert ValueDoc(cfg, Prim(Str(e))) == Some(PrimitiveLeaf(Str(e)));
      assert Agree(cfg, PrimitiveLeaf(Str(e)), Atom(Prim(Str(e))));
    }
  }

  lemma {:induction false} CallsParallel(cfg: Config, calls: seq<Call>)
    requires forall i | 0 <= i < |calls| :: CallEncodes(calls[i])
    ensures Parallel(cfg, CallEvents(cfg, calls), CallTreeEvents(calls))
    decreases calls, 0
  {
    hide Parallel, OneCallEvents, OneCallTreeEvents;
    NothingParallel(cfg);
    if calls != [] {
      var n := |calls| - 1;
      CallsParallel(cfg, calls[..n]);
      OneCallParallel(cfg, calls[n]);
      ParallelConcat(cfg, CallEvents(cfg, calls[..n]), OneCallEvents(cfg, calls[n]),
                     CallTreeEvents(calls[..n]), OneCallTreeEvents(calls[n]));
    }
  }

  lemma {:induction false} FieldsParallel(cfg: Config, fs: seq<Field>)
    requires forall i | 0 <= i < |fs| :: FieldEncodes(fs[i])
    ensures Parallel(cfg, FieldEvents(cfg, fs), FieldTreeEvents(fs))
    decreases |fs|
  {
    hide Parallel, OneCallEvents, OneCallTreeEvents;
    NothingParallel(cfg);
    if fs != [] {
      var n := |fs| - 1;
      FieldsParallel(cfg, fs[..n]);
      OneCallParallel(cfg, AddTo(fs[n]));
      ParallelConcat(cfg, FieldEvents(cfg, fs[..n]), OneCallEvents(cfg, AddTo(fs[n])),
                     FieldTreeEvents(fs[..n]), OneCallTreeEvents(AddTo(fs[n])));
    }
  }

  /** The map the in-memory encoder builds for a field list. */
  function FieldsTree(fs: seq<Field>): map<Bytes, Tree> {
    Build(map[], FieldTreeEvents(fs))
  }

  /** The object the JSON encoder writes for a field list. */
  function FieldsDoc(cfg: Config, fs: seq<Field>): Doc {
    Object(Nest(FieldEvents(cfg, fs)))
  }

  /** The main result: for every field list without reflection failures whose maps have keys
      distinct to a JSON reader, reading the JSON text and collecting members gives the
      rendered in-memory tree. */
  lemma EncodersAgree(cfg: Config, fs: seq<Field>, spaced: bool)
    requires forall i | 0 <= i < |fs| :: FieldEncodes(fs[i])
    requires Renderable(Branch(FieldsTree(fs)))
    ensures var r := T.ReadText(Text(FieldsDoc(cfg, fs), spaced));
            r.Got? && Decode(r.v) == Render(cfg, Branch(FieldsTree(fs)))
  {
    hide FieldEncodes, Text, Decode, Render, Renderable, T.ReadText;
    FieldsParallel(cfg, fs);
    EventsAgree(cfg, FieldEvents(cfg, fs), FieldTreeEvents(fs));
    TextIsJsonText(FieldsDoc(cfg, fs), spaced);
  }
}
