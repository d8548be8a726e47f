/**
  When the two encoders agree: exactly when no map anywhere in the tree has two keys that a
  JSON reader cannot tell apart, which valid UTF-8 keys guarantee.
 */
module KeyCollisions {
  import opened Common
  import opened Utf8
  import opened EscapeProperties
  import opened Document
  import opened Namespaces
  import opened Primitives
  import opened Fields
  import opened JsonEncoders
  import opened MapEncoders
  import opened EncoderAgreement
  import T = JsonText

  /** A decoded value mirrors a tree: at every level the same keys, as many of them, and
      mirrored values under them. */
  predicate Mirrors(cfg: Config, d: Decoded, t: Tree)
    decreases t
  {
    match t
    case Atom(v) => d == RenderAtom(cfg, v)
    case Items(ts) => d.DList? && |d.elems| == |ts| && forall i | 0 <= i < |ts| :: Mirrors(cfg, d.elems[i], ts[i])
    case Branch(m) =>
      && d.DMap? && d.entries.Keys == RuneKeys(m.Keys) && |d.entries| == |m|
      && forall k | k in m :: Runes(k) in d.entries && Mirrors(cfg, d.entries[Runes(k)], m[k])
  }

  lemma {:induction false} ImageSize(ks: set<Bytes>)
    ensures |RuneKeys(ks)| <= |ks|
    ensures |RuneKeys(ks)| == |ks| <==> KeysDistinct(ks)
    decreases |ks|
  {
    hide Runes;
    if ks != {} {
      var k :| k in ks;
      var rest := ks - {k};
      ImageSize(rest);
      assert ks == rest + {k};
      if Runes(k) in RuneKeys(rest) {
        var k' :| k' in rest && Runes(k') == Runes(k);
        assert RuneKeys(ks) == RuneKeys(rest);
        assert k in ks && k' in ks && k != k';
      } else {
        assert RuneKeys(ks) == RuneKeys(rest) + {Runes(k)};
        assert KeysDistinct(ks) <==> KeysDistinct(rest);
      }
    }
  }

  lemma SameSize(d: map<seq<Rune>, Decoded>, m: map<Bytes, Tree>)
    requires d.Keys == RuneKeys(m.Keys)
    ensures |d| == |m| <==> KeysDistinct(m.Keys)
  {
    hide Runes, KeysDistinct, RuneKeys;
    ImageSize(m.Keys);
    assert |d| == |d.Keys| && |m| == |m.Keys|;
  }

  /** Only trees whose keys are distinct can be mirrored. */
  lemma {:induction false} MirroredIsRenderable(cfg: Config, d: Decoded, t: Tree)
    requires Mirrors(cfg, d, t)
    ensures Renderable(t)
    decreases t
  {
    hide Runes, KeysDistinct, RuneKeys;
    match t
    case Atom(_) =>
    case Items(ts) =>
      forall i | 0 <= i < |ts| ensures Renderable(ts[i]) {
        MirroredIsRenderable(cfg, d.elems[i], ts[i]);
      }
    case Branch(m) =>
      SameSize(d.entries, m);
      forall k | k in m ensures Renderable(m[k]) {
        MirroredIsRenderable(cfg, d.entries[Runes(k)], m[k]);
      }
  }

  /** And those are mirrored by their rendering. */
  lemma {:induction false} RenderMirrors(cfg: Config, t: Tree)
    requires Renderable(t)
    ensures Mirrors(cfg, Render(cfg, t), t)
    decreases t
  {
    match t
    case Atom(_) =>
    case Items(ts) =>
      forall i | 0 <= i < |ts| ensures Mirrors(cfg, Render(cfg, ts[i]), ts[i]) {
        RenderMirrors(cfg, ts[i]);
      }
    case Branch(m) => RenderMirrorsMap(cfg, m);
  }

  lemma {:induction false} RenderMirrorsMap(cfg: Config, m: map<Bytes, Tree>)
    requires Renderable(Branch(m))
    ensures Mirrors(cfg, Render(cfg, Branch(m)), Branch(m))
    decreases Branch(m), 0
  {
    hide Runes;
    var d := Render(cfg, Branch(m));
    assert d.entries.Keys == RuneKeys(m.Keys);
    SameSize(d.entries, m);
    forall k | k in m ensures Runes(k) in d.entries && Mirrors(cfg, d.entries[Runes(k)], m[k]) {
      RenderEntry(cfg, m, k);
      RenderMirrors(cfg, m[k]);
    }
  }

  /** The exact condition. For every field list without reflection failures, reading the JSON
      text mirrors the in-memory tree if and only if no two keys of one map, at any depth, look
      the same to a reader. */
  lemma AgreeExactly(cfg: Config, fs: seq<Field>, spaced: bool)
    requires forall i | 0 <= i < |fs| :: FieldEncodes(fs[i])
    ensures var r := T.ReadText(Text(FieldsDoc(cfg, fs), spaced));
            r.Got? && (Mirrors(cfg, Decode(r.v), Branch(FieldsTree(fs))) <==> Renderable(Branch(FieldsTree(fs))))
  {
    hide FieldEncodes, Text, Decode, Render, Renderable, T.ReadText, Mirrors, FieldsTree, FieldsDoc;
    var r := T.ReadText(Text(FieldsDoc(cfg, fs), spaced));
    var t := Branch(FieldsTree(fs));
    TextIsJsonText(FieldsDoc(cfg, fs), spaced);
    if Renderable(t) {
      EncodersAgree(cfg, fs, spaced);
      RenderMirrors(cfg, t);
    } else if Mirrors(cfg, Decode(r.v), t) {
      MirroredIsRenderable(cfg, Decode(r.v), t);
    }
  }

  // --------------------------------------------------------------- valid keys

  /** Every key in a value, nested marshalers included, is valid UTF-8. */
  predicate ValueKeysValid(v: Value)
    decreases v
  {
    match v
    case ArrayOf(a) => forall i | 0 <= i < |a.elems| :: ValueKeysValid(a.elems[i])
    case ObjectOf(o) => forall i | 0 <= i < |o.calls| :: CallKeysValid(o.calls[i])
    case _ => true
  }

  predicate CallKeysValid(c: Call)
    decreases c
  {
    FieldKeysValid(c.f)
  }

  predicate FieldKeysValid(f: Field)
    decreases f
  {
    match f
    case KeyValue(k, v) => ValidUtf8(k) && ValueKeysValid(v)
    case Namespace(k) => ValidUtf8(k)
    case Inline(k, o) => ValidUtf8(k) && forall i | 0 <= i < |o.calls| :: CallKeysValid(o.calls[i])
    case Skip => true
  }

  predicate TreeKeysValid(t: Tree)
    decreases t
  {
    match t
    case Atom(_) => true
    case Items(ts) => forall i | 0 <= i < |ts| :: TreeKeysValid(ts[i])
    case Branch(m) => forall k | k in m :: ValidUtf8(k) && TreeKeysValid(m[k])
  }

  predicate EventsValid(evs: seq<TreeEvent>) {
    forall i | 0 <= i < |evs| :: ValidUtf8(evs[i].key) && (evs[i].Store? ==> TreeKeysValid(evs[i].t))
  }

  /** Keys that are valid UTF-8 are distinct to a reader. */
  lemma ValidKeysAreDistinct(ks: set<Bytes>)
    requires forall k | k in ks :: ValidUtf8(k)
    ensures KeysDistinct(ks)
  {
    hide Runes, ValidUtf8;
    forall a, b | a in ks && b in ks && Runes(a) == Runes(b) ensures a == b {
      SanitizeIdentity(a);
      SanitizeIdentity(b);
    }
  }

  lemma {:induction false} ValidIsRenderable(t: Tree)
    requires TreeKeysValid(t)
    ensures Renderable(t)
    decreases t
  {
    hide ValidUtf8, KeysDistinct;
    match t
    case Atom(_) =>
    case Items(ts) =>
      forall i | 0 <= i < |ts| ensures Renderable(ts[i]) {
        ValidIsRenderable(ts[i]);
      }
    case Branch(m) =>
      ValidKeysAreDistinct(m.Keys);
      forall k | k in m ensures Renderable(m[k]) {
        ValidIsRenderable(m[k]);
      }
  }

  lemma {:induction false} BuildValid(base: map<Bytes, Tree>, evs: seq<TreeEvent>)
    requires TreeKeysValid(Branch(base)) && EventsValid(evs)
    ensures TreeKeysValid(Branch(Build(base, evs)))
    decreases |evs|
  {
    hide ValidUtf8;
    if evs != [] {
      assert EventsValid(evs[1..]);
      match evs[0]
      case Store(k, t) => BuildValid(base[k := t], evs[1..]);
      case Enter(k) => BuildValid(map[], evs[1..]);
    }
  }

  lemma {:induction false} ValueValid(v: Value)
    requires ValueKeysValid(v)
    ensures TreeKeysValid(ValueTree(v))
    decreases v, 0
  {
    match v
    case ArrayOf(a) => ElemsValid(a.elems);
    case ObjectOf(o) =>
      CallsValid(o.calls);
      BuildValid(map[], CallTreeEvents(o.calls));
    case _ =>
  }

  lemma {:induction false} ElemsValid(vs: seq<Value>)
    requires forall i | 0 <= i < |vs| :: ValueKeysValid(vs[i])
    ensures TreeKeysValid(Items(ElemTrees(vs)))
    decreases vs, 0
  {
    hide ValueTree, ValueKeysValid;
    if vs != [] {
      ElemsValid(vs[..|vs| - 1]);
      ValueValid(vs[|vs| - 1]);
    }
  }

  lemma {:induction false} AddValid(f: Field)
    requires FieldKeysValid(f)
    ensures EventsValid(AddTreeEvents(f)) && EventsValid(ErrorTreeEvents(f))
    decreases f, 0
  {
    hide ValidUtf8;
    match f
    case KeyValue(k, v) => {
      hide ValueTree;
      ValueValid(v);
      ErrorKeyValid(k);
    }
    case Inline(k, o) => {
      CallsValid(o.calls);
      ErrorKeyValid(k);
    }
    case _ =>
  }

  lemma ErrorKeyValid(k: Bytes)
    requires ValidUtf8(k)
    ensures ValidUtf8(k + ERROR_SUFFIX)
  {
    hide ValidUtf8;
    AsciiIsValid(ERROR_SUFFIX);
    ValidUtf8Concat(k, ERROR_SUFFIX);
  }

  lemma {:induction false} OneCallValid(c: Call)
    requires CallKeysValid(c)
    ensures EventsValid(OneCallTreeEvents(c))
    decreases c, 0
  {
    hide AddTreeEvents, ErrorTreeEvents, ValidUtf8, TreeKeysValid;
    AddValid(c.f);
  }

  lemma {:induction false} CallsValid(calls: seq<Call>)
    requires forall i | 0 <= i < |calls| :: CallKeysValid(calls[i])
    ensures EventsValid(CallTreeEvents(calls))
    decreases calls, 0
  {
    hide OneCallTreeEvents, CallKeysValid, ValidUtf8, TreeKeysValid;
    if calls != [] {
      CallsValid(calls[..|calls| - 1]);
      OneCallValid(calls[|calls| - 1]);
    }
  }

  lemma {:induction false} FieldsValid(fs: seq<Field>)
    requires forall i | 0 <= i < |fs| :: FieldKeysValid(fs[i])
    ensures EventsValid(FieldTreeEvents(fs))
    decreases |fs|
  {
    hide OneCallTreeEvents, FieldKeysValid, ValidUtf8, TreeKeysValid;
    if fs != [] {
      var n := |fs| - 1;
      FieldsValid(fs[..n]);
      assert CallKeysValid(AddTo(fs[n]));
      OneCallValid(AddTo(fs[n]));
    }
  }

  /** Valid UTF-8 in every key of a field list, nested marshalers included, is enough. */
  lemma ValidKeysAgree(fs: seq<Field>)
    requires forall i | 0 <= i < |fs| :: FieldKeysValid(fs[i])
    ensures Renderable(Branch(FieldsTree(fs)))
  {
    hide FieldKeysValid, Renderable, EventsValid;
    FieldsValid(fs);
    BuildValid(map[], FieldTreeEvents(fs));
    ValidIsRenderable(Branch(FieldsTree(fs)));
  }

  // ----------------------------------------------------- the encoders at work

  /** The marshaler that adds a field list. */
  function Marshaler(fs: seq<Field>): ObjectMarshaler {
    ObjectMarshaler(seq(|fs|, i requires 0 <= i < |fs| => AddTo(fs[i])), None)
  }

  lemma {:induction false} MarshalerEvents(cfg: Config, fs: seq<Field>)
    ensures CallEvents(cfg, Marshaler(fs).calls) == FieldEvents(cfg, fs)
    decreases |fs|
  {
    hide OneCallEvents;
    if fs != [] {
      var n := |fs| - 1;
      MarshalerEvents(cfg, fs[..n]);
      assert Marshaler(fs).calls[..n] == Marshaler(fs[..n]).calls;
    }
  }

  /** Give the same fields to both encoders and read the JSON back: it mirrors the nested maps
      if and only if their keys can be told apart, and then is what they render as. */
  method EncodeBoth(cfg: Config, spaced: bool, fs: seq<Field>) returns (json: Bytes, heap: MapHeap, root: nat)
    requires forall i | 0 <= i < |fs| :: FieldEncodes(fs[i])
    ensures fresh(heap) && Ordered(heap.maps) && root < |heap.maps|
    ensures var r, t := T.ReadText(json), Branch(AbsMap(heap.maps, root));
            && r.Got? && (Mirrors(cfg, Decode(r.v), t) <==> Renderable(t))
            && (Renderable(t) ==> Decode(r.v) == Render(cfg, t))
  {
    hide FieldEncodes, Text, Decode, Render, Renderable, T.ReadText, Mirrors, Nest, CallEvents, FieldEvents,
         Ordered, Path, AbsMap;
    var enc := new JsonEncoder(cfg, spaced);
    MarshalerEvents(cfg, fs);
    NothingYet(spaced);
    var _ := enc.AppendObject(Marshaler(fs));
    json := enc.buf.bs;
    assert json == Text(FieldsDoc(cfg, fs), spaced);

    heap := new MapHeap();
    assert Ordered(heap.maps) by { NoMaps(); }
    var mem := new MapObjectEncoder(heap);
    root := mem.fields;
    mem.AddFields(fs, []);
    assert [] + FieldTreeEvents(fs) == FieldTreeEvents(fs);
    PathAbove(heap.maps, root, mem.cur, map[], FieldTreeEvents(fs));
    AgreeExactly(cfg, fs, spaced);
    if Renderable(Branch(FieldsTree(fs))) {
      EncodersAgree(cfg, fs, spaced);
    }
  }

  lemma NothingYet(spaced: bool)
    ensures EventsText([], spaced, true) == [] && Before(AtStart([]), spaced) == []
  {
  }

  lemma NoMaps()
    ensures Ordered([])
  {
  }

  // ---------------------------------------------------------------- collisions

  const F := KeyValue([0xFF], Prim(Bool(true)))
  const G := KeyValue([0xFE], Prim(Bool(false)))
  const ENTRIES: map<Bytes, Tree> := map[[0xFF] := Atom(F.val), [0xFE] := Atom(G.val)]

  lemma FlatTree()
    ensures FieldsTree([F, G]) == ENTRIES
  {
    var a, b := Store([0xFF], Atom(F.val)), Store([0xFE], Atom(G.val));
    BothStored([]);
    assert FieldTreeEvents([]) == [] by { NoFields(); }
    assert [] + [F, G] == [F, G] && [] + [a, b] == [a, b];
    hide FieldTreeEvents;
    TwoEntries(a, b);
  }

  lemma NestedTree(outer: Bytes)
    ensures FieldsTree([Namespace(outer), F, G]) == map[outer := Branch(ENTRIES)]
  {
    var a, b := Store([0xFF], Atom(F.val)), Store([0xFE], Atom(G.val));
    BothStored([Namespace(outer)]);
    OneEnter(outer);
    assert [Namespace(outer)] + [F, G] == [Namespace(outer), F, G];
    hide FieldTreeEvents, Build;
    TwoEntries(a, b);
    EnteredMap(outer, [a, b]);
  }

  lemma BothStored(fs: seq<Field>)
    ensures FieldTreeEvents(fs + [F, G]) == FieldTreeEvents(fs) + [Store([0xFF], Atom(F.val)), Store([0xFE], Atom(G.val))]
  {
    var a, b := Store([0xFF], Atom(F.val)), Store([0xFE], Atom(G.val));
    assert OneCallTreeEvents(AddTo(F)) == [a] && OneCallTreeEvents(AddTo(G)) == [b];
    TwoStores(fs, F, G, a, b);
  }

  /** Two keys that collide: the lone bytes 0xFF and 0xFE both read as U+FFFD. Inside a
      namespace the outer map is none the worse. */
  lemma CollisionExample(outer: Bytes)
    ensures !Renderable(Branch(FieldsTree([F, G])))
    ensures !Renderable(Branch(FieldsTree([Namespace(outer), F, G])))
    ensures KeysDistinct(FieldsTree([Namespace(outer), F, G]).Keys)
  {
    hide FieldsTree, KeysDistinct;
    FlatTree();
    NestedTree(outer);
    TwoCollide(ENTRIES);
    assert !Renderable(Branch(ENTRIES));
    OneKey(outer, Branch(ENTRIES));
  }

  lemma NoFields()
    ensures FieldTreeEvents([]) == []
  {
  }

  lemma EnteredMap(outer: Bytes, evs: seq<TreeEvent>)
    ensures Build(map[], [Enter(outer)] + evs) == map[outer := Branch(Build(map[], evs))]
  {
    assert ([Enter(outer)] + evs)[1..] == evs;
  }

  lemma OneKey(k: Bytes, t: Tree)
    ensures KeysDistinct(map[k := t].Keys) && (Renderable(Branch(map[k := t])) ==> Renderable(t))
  {
    assert k in map[k := t] && map[k := t][k] == t;
  }

  lemma TwoStores(fs: seq<Field>, f: Field, g: Field, a: TreeEvent, b: TreeEvent)
    requires OneCallTreeEvents(AddTo(f)) == [a] && OneCallTreeEvents(AddTo(g)) == [b]
    ensures FieldTreeEvents(fs + [f, g]) == FieldTreeEvents(fs) + [a, b]
  {
    hide OneCallTreeEvents;
    var all := fs + [f, g];
    assert all[..|fs| + 1] == fs + [f] && (fs + [f])[..|fs|] == fs;
    assert FieldTreeEvents(fs + [f]) == FieldTreeEvents(fs) + [a];
  }

  lemma OneEnter(outer: Bytes)
    ensures FieldTreeEvents([Namespace(outer)]) == [Enter(outer)]
  {
    assert [Namespace(outer)][..0] == [];
    assert OneCallTreeEvents(AddTo(Namespace(outer))) == [Enter(outer)];
    assert FieldTreeEvents([Namespace(outer)][..0]) == [];
  }

  lemma TwoEntries(a: TreeEvent, b: TreeEvent)
    requires a.Store? && b.Store?
    ensures Build(map[], [a, b]) == map[a.key := a.t][b.key := b.t]
  {
    assert [a, b][1..] == [b] && [b][1..] == [];
    assert Build(map[a.key := a.t], [b]) == Build(map[a.key := a.t][b.key := b.t], []);
  }

  lemma TwoCollide(m: map<Bytes, Tree>)
    requires [0xFF] in m && [0xFE] in m
    ensures !KeysDistinct(m.Keys)
  {
    assert Runes([0xFF]) == [RUNE_ERROR] == Runes([0xFE]);
    assert [0xFF] in m.Keys && [0xFE] in m.Keys;
  }
}
