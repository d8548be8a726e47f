/**
  The in-memory encoder: nested maps filled in place through the reference `cur`.
  Go's map objects live in a `MapHeap`; a cell that holds a map holds a reference into it.
  `AbsMap` is the tree a map object stands for.
 */
module MapEncoders {
  import opened Common
  import opened Utf8
  import opened Primitives
  import opened Fields

  /** What a map slot or slice element holds. */
  datatype Cell = Scalar(v: Value) | Sub(ref: nat) | List(elems: seq<Cell>)

  /** The nested value without references. */
  datatype Tree = Atom(v: Value) | Items(elems: seq<Tree>) | Branch(entries: map<Bytes, Tree>)

  /** What adding fields does to the tree: store a value here, or enter a fresh sub-map. */
  datatype TreeEvent = Store(key: Bytes, t: Tree) | Enter(key: Bytes)

  /** The entries after a stream of events: a later store replaces an earlier one, and an
      entered sub-map takes the rest of the stream. */
  function Build(base: map<Bytes, Tree>, evs: seq<TreeEvent>): map<Bytes, Tree>
    decreases |evs|
  {
    if evs == [] then base
    else match evs[0]
      case Store(k, t) => Build(base[k := t], evs[1..])
      case Enter(k) => base[k := Branch(Build(map[], evs[1..]))]
  }

  // --------------------------------------------- what a field means as a tree

  function ValueTree(v: Value): Tree
    decreases v, 0
  {
    match v
    case ArrayOf(a) => Items(ElemTrees(a.elems))
    case ObjectOf(o) => Branch(Build(map[], CallTreeEvents(o.calls)))
    case _ => Atom(v)
  }

  function ElemTrees(vs: seq<Value>): seq<Tree>
    decreases vs, 0
  {
    if vs == [] then [] else ElemTrees(vs[..|vs| - 1]) + [ValueTree(vs[|vs| - 1])]
  }

  /** The in-memory encoder stores reflected values as they are and never fails on them. */
  function TreeError(f: Field): Option<Bytes> {
    if f.KeyValue? && f.val.Reflected? then None else FieldError(f)
  }

  function AddTreeEvents(f: Field): seq<TreeEvent>
    decreases f, 0
  {
    match f
    case KeyValue(k, v) => [Store(k, ValueTree(v))]
    case Namespace(k) => [Enter(k)]
    case Inline(_, o) => CallTreeEvents(o.calls)
    case Skip => []
  }

  function ErrorTreeEvents(f: Field): seq<TreeEvent> {
    match TreeError(f)
    case None => []
    case Some(e) => [Store(f.key + ERROR_SUFFIX, Atom(Prim(Str(e))))]
  }

  function OneCallTreeEvents(c: Call): seq<TreeEvent>
    decreases c, 0
  {
    AddTreeEvents(c.f) + if c.AddTo? then ErrorTreeEvents(c.f) else []
  }

  function CallTreeEvents(calls: seq<Call>): seq<TreeEvent>
    decreases calls, 0
  {
    if calls == [] then []
    else CallTreeEvents(calls[..|calls| - 1]) + OneCallTreeEvents(calls[|calls| - 1])
  }

  function FieldTreeEvents(fs: seq<Field>): seq<TreeEvent> {
    if fs == [] then [] else FieldTreeEvents(fs[..|fs| - 1]) + OneCallTreeEvents(AddTo(fs[|fs| - 1]))
  }

  // ------------------------------------------------------------ heap of maps

  type Maps = seq<map<Bytes, Cell>>

  /** Every reference in `c` lies strictly between `lo` and `hi`. */
  predicate CellWithin(c: Cell, lo: int, hi: int)
    decreases c
  {
    match c
    case Scalar(_) => true
    case Sub(r) => lo < r < hi
    case List(es) => forall i | 0 <= i < |es| :: CellWithin(es[i], lo, hi)
  }

  predicate EntriesWithin(m: map<Bytes, Cell>, lo: int, hi: int) {
    forall k | k in m :: CellWithin(m[k], lo, hi)
  }

  /** Maps refer only to maps allocated after them. */
  predicate Ordered(maps: Maps) {
    forall r | 0 <= r < |maps| :: EntriesWithin(maps[r], r, |maps|)
  }

  /** Nothing in maps `r..q` refers to `q` or beyond. */
  predicate ClosedBelow(maps: Maps, r: nat, q: nat) {
    q <= |maps| && forall j | r <= j < q :: EntriesWithin(maps[j], j, q)
  }

  function AbsCell(maps: Maps, c: Cell, lo: int): Tree
    requires Ordered(maps) && -1 <= lo < |maps| && CellWithin(c, lo, |maps|)
    decreases |maps| - lo, 0, c
  {
    match c
    case Scalar(v) => Atom(v)
    case Sub(r) => Branch(AbsMap(maps, r))
    case List(es) => Items(seq(|es|, i requires 0 <= i < |es| => AbsCell(maps, es[i], lo)))
  }

  function AbsMap(maps: Maps, r: nat): map<Bytes, Tree>
    requires Ordered(maps) && r < |maps|
    decreases |maps| - r, 1
  {
    assert EntriesWithin(maps[r], r, |maps|);
    map k | k in maps[r] :: AbsCell(maps, maps[r][k], r)
  }

  lemma {:induction false} CellWithinWiden(c: Cell, lo: int, hi: int, lo': int, hi': int)
    requires CellWithin(c, lo, hi) && lo' <= lo && hi <= hi'
    ensures CellWithin(c, lo', hi')
    decreases c
  {
    if c.List? {
      forall i | 0 <= i < |c.elems| ensures CellWithin(c.elems[i], lo', hi') {
        CellWithinWiden(c.elems[i], lo, hi, lo', hi');
      }
    }
  }

  /** The bound given to `AbsCell` only serves termination. */
  lemma {:induction false} AbsCellBound(maps: Maps, c: Cell, lo: int, lo': int)
    requires Ordered(maps) && -1 <= lo < |maps| && -1 <= lo' < |maps|
    requires CellWithin(c, lo, |maps|) && CellWithin(c, lo', |maps|)
    ensures AbsCell(maps, c, lo) == AbsCell(maps, c, lo')
    decreases c
  {
    hide AbsMap, Ordered;
    if c.List? {
      forall i | 0 <= i < |c.elems| ensures AbsCell(maps, c.elems[i], lo) == AbsCell(maps, c.elems[i], lo') {
        AbsCellBound(maps, c.elems[i], lo, lo');
      }
    }
  }

  /** A region that refers to nothing outside itself keeps its meaning when the rest of the
      heap changes. */
  lemma {:induction false} AbsCellFrame(maps: Maps, maps': Maps, c: Cell, lo: int, q: nat)
    requires Ordered(maps) && Ordered(maps') && -1 <= lo < q <= |maps|
    requires ClosedBelow(maps, lo + 1, q) && CellWithin(c, lo, q)
    requires q <= |maps'| && forall j | lo < j < q :: maps'[j] == maps[j]
    ensures CellWithin(c, lo, |maps|) && CellWithin(c, lo, |maps'|)
    ensures AbsCell(maps', c, lo) == AbsCell(maps, c, lo)
    decreases q - lo, 0, c
  {
    hide AbsMap, Ordered, ClosedBelow;
    CellWithinWiden(c, lo, q, lo, |maps|);
    CellWithinWiden(c, lo, q, lo, |maps'|);
    match c
    case Scalar(_) =>
    case Sub(r) =>
      ClosedNarrow(maps, lo + 1, r, q);
      AbsMapFrame(maps, maps', r, q);
    case List(es) =>
      forall i | 0 <= i < |es|
        ensures CellWithin(es[i], lo, |maps|) && CellWithin(es[i], lo, |maps'|)
        ensures AbsCell(maps', es[i], lo) == AbsCell(maps, es[i], lo)
      {
        AbsCellFrame(maps, maps', es[i], lo, q);
      }
  }

  lemma ClosedNarrow(maps: Maps, r: nat, r': nat, q: nat)
    requires ClosedBelow(maps, r, q) && r <= r'
    ensures ClosedBelow(maps, r', q)
  {
    hide EntriesWithin;
  }

  lemma {:induction false} AbsMapFrame(maps: Maps, maps': Maps, r: nat, q: nat)
    requires Ordered(maps) && Ordered(maps') && r < q
    requires ClosedBelow(maps, r, q)
    requires q <= |maps'| && forall j | r <= j < q :: maps'[j] == maps[j]
    ensures AbsMap(maps', r) == AbsMap(maps, r)
    decreases q - r, 1
  {
    hide Ordered, AbsCell, CellWithin;
    assert maps'[r] == maps[r];
    forall k | k in maps[r]
      ensures CellWithin(maps[r][k], r, |maps|) && CellWithin(maps[r][k], r, |maps'|)
      ensures AbsCell(maps', maps[r][k], r) == AbsCell(maps, maps[r][k], r)
    {
      ClosedNarrow(maps, r, r + 1, q);
      assert EntriesWithin(maps[r], r, q);
      AbsCellFrame(maps, maps', maps[r][k], r, q);
    }
  }

  lemma OrderedIsClosed(maps: Maps, r: nat)
    requires Ordered(maps) && r <= |maps|
    ensures ClosedBelow(maps, r, |maps|)
  {
  }

  // -------------------------------------------------- the namespace path

  /** Apart from slot `k`, map `r` and the maps between `r` and `q` stay below `q`. */
  predicate Sealed(maps: Maps, r: nat, q: nat, k: Bytes) {
    r < q <= |maps| && EntriesWithin(maps[r] - {k}, r, q) && ClosedBelow(maps, r + 1, q)
  }

  /** Map `r` started with entries `base`, took the events `evs`, and `cur` is reached from it
      along the sub-maps entered, each of which is referred to from its parent's slot only. */
  predicate Path(maps: Maps, r: nat, cur: nat, base: map<Bytes, Tree>, evs: seq<TreeEvent>)
    requires Ordered(maps)
    decreases |evs|
  {
    r < |maps| &&
    if evs == [] then r == cur && AbsMap(maps, r) == base
    else match evs[0]
      case Store(k, t) => Path(maps, r, cur, base[k := t], evs[1..])
      case Enter(k) =>
        k in maps[r] && maps[r][k].Sub? && Sealed(maps, r, maps[r][k].ref, k)
        && AbsMap(maps, r) - {k} == base - {k}
        && Path(maps, maps[r][k].ref, cur, map[], evs[1..])
  }

  /** `cur` stays reachable, and lies no earlier than the root. */
  lemma {:induction false} PathAbove(maps: Maps, r: nat, cur: nat, base: map<Bytes, Tree>, evs: seq<TreeEvent>)
    requires Ordered(maps) && Path(maps, r, cur, base, evs)
    ensures r <= cur < |maps|
    decreases |evs|
  {
    hide AbsMap, Ordered;
    if evs != [] {
      match evs[0]
      case Store(k, t) => PathAbove(maps, r, cur, base[k := t], evs[1..]);
      case Enter(k) => PathAbove(maps, maps[r][k].ref, cur, map[], evs[1..]);
    }
  }

  /** The tree at the root of a path is what its events build. */
  lemma {:induction false} PathMeaning(maps: Maps, r: nat, cur: nat, base: map<Bytes, Tree>, evs: seq<TreeEvent>)
    requires Ordered(maps) && Path(maps, r, cur, base, evs)
    ensures AbsMap(maps, r) == Build(base, evs)
    decreases |evs|
  {
    hide Ordered;
    if evs != [] {
      match evs[0]
      case Store(k, t) => PathMeaning(maps, r, cur, base[k := t], evs[1..]);
      case Enter(k) =>
        var q := maps[r][k].ref;
        PathMeaning(maps, q, cur, map[], evs[1..]);
        assert AbsMap(maps, r)[k] == Branch(AbsMap(maps, q));
        SameButOne(AbsMap(maps, r), base, k);
    }
  }

  lemma SameButOne(m: map<Bytes, Tree>, base: map<Bytes, Tree>, k: Bytes)
    requires k in m && m - {k} == base - {k}
    ensures m == base[k := m[k]]
  {
    forall x ensures x in m <==> x in base[k := m[k]] {
      assert x in (m - {k}) <==> x in (base - {k});
    }
    forall x | x in m ensures m[x] == base[k := m[k]][x] {
      if x != k {
        assert m[x] == (m - {k})[x] == (base - {k})[x];
      }
    }
  }

  /** Only `cur` and freshly allocated maps differ. */
  predicate OnlyAt(maps: Maps, maps': Maps, cur: nat) {
    |maps| <= |maps'| && forall j | 0 <= j < |maps| && j != cur :: maps'[j] == maps[j]
  }

  /** What happens at `cur` happens to the whole tree: a change below `cur` extends the path. */
  lemma {:induction false} PathExtends(maps: Maps, maps': Maps, r: nat, cur: nat, cur': nat,
                                       base: map<Bytes, Tree>, evs: seq<TreeEvent>, more: seq<TreeEvent>)
    requires Ordered(maps) && Ordered(maps') && Path(maps, r, cur, base, evs)
    requires cur < |maps| && OnlyAt(maps, maps', cur)
    requires Path(maps', cur, cur', AbsMap(maps, cur), more)
    ensures Path(maps', r, cur', base, evs + more)
    decreases |evs|
  {
    if evs == [] {
      assert evs + more == more;
    } else {
      hide Ordered, AbsMap, Sealed;
      assert (evs + more)[1..] == evs[1..] + more && (evs + more)[0] == evs[0];
      match evs[0]
      case Store(k, t) => PathExtends(maps, maps', r, cur, cur', base[k := t], evs[1..], more);
      case Enter(k) =>
        var q := maps[r][k].ref;
        PathAbove(maps, q, cur, map[], evs[1..]);
        PathExtends(maps, maps', q, cur, cur', map[], evs[1..], more);
        SealedKept(maps, maps', r, q, cur, k);
    }
  }

  lemma SealedKept(maps: Maps, maps': Maps, r: nat, q: nat, cur: nat, k: Bytes)
    requires Ordered(maps) && Ordered(maps') && Sealed(maps, r, q, k)
    requires q <= cur < |maps| && OnlyAt(maps, maps', cur)
    ensures Sealed(maps', r, q, k) && maps'[r] == maps[r]
    ensures AbsMap(maps', r) - {k} == AbsMap(maps, r) - {k}
  {
    hide CellWithin, AbsCell;
    assert maps'[r] == maps[r];
    assert forall j | r < j < q :: maps'[j] == maps[j];
    forall x | x in maps[r] && x != k
      ensures AbsMap(maps', r)[x] == AbsMap(maps, r)[x]
    {
      assert (maps[r] - {k})[x] == maps[r][x];
      AbsCellFrame(maps, maps', maps[r][x], r, q);
    }
    assert (AbsMap(maps', r) - {k}).Keys == (AbsMap(maps, r) - {k}).Keys;
  }

  // ------------------------------------------------- effects of operations

  /** An operation at `cur` that stands for the events `evs`. */
  predicate Effect(maps: Maps, cur: nat, maps': Maps, cur': nat, evs: seq<TreeEvent>)
    requires Ordered(maps) && cur < |maps|
  {
    && Ordered(maps') && OnlyAt(maps, maps', cur)
    && (cur' == cur || |maps| <= cur')
    && Path(maps', cur, cur', AbsMap(maps, cur), evs)
  }

  lemma NoEffect(maps: Maps, cur: nat)
    requires Ordered(maps) && cur < |maps|
    ensures Effect(maps, cur, maps, cur, [])
  {
    hide Ordered, AbsMap;
  }

  lemma EffectsCompose(m0: Maps, c0: nat, m1: Maps, c1: nat, m2: Maps, c2: nat, a: seq<TreeEvent>, b: seq<TreeEvent>)
    requires Ordered(m0) && c0 < |m0| && Effect(m0, c0, m1, c1, a)
    requires c1 < |m1| && Effect(m1, c1, m2, c2, b)
    ensures Effect(m0, c0, m2, c2, a + b)
  {
    hide Ordered, AbsMap, Path;
    PathExtends(m1, m2, c0, c1, c2, AbsMap(m0, c0), a, b);
  }

  lemma EffectCur(m0: Maps, c0: nat, m1: Maps, c1: nat, evs: seq<TreeEvent>)
    requires Ordered(m0) && c0 < |m0| && Effect(m0, c0, m1, c1, evs)
    ensures c1 < |m1|
  {
    hide Ordered, AbsMap, Path;
    PathAbove(m1, c0, c1, AbsMap(m0, c0), evs);
  }

  /** The heap after allocations only. */
  predicate Grown(maps: Maps, maps': Maps) {
    Ordered(maps') && |maps| <= |maps'| && forall j | 0 <= j < |maps| :: maps'[j] == maps[j]
  }

  lemma OneStorePath(maps: Maps, cur: nat, base: map<Bytes, Tree>, k: Bytes, t: Tree)
    requires Ordered(maps) && cur < |maps| && AbsMap(maps, cur) == base[k := t]
    ensures Path(maps, cur, cur, base, [Store(k, t)])
  {
    hide Ordered, AbsMap;
    var evs := [Store(k, t)];
    assert evs[1..] == [];
    assert Path(maps, cur, cur, base[k := t], []);
  }

  lemma OneEnterPath(maps: Maps, cur: nat, q: nat, base: map<Bytes, Tree>, k: Bytes)
    requires Ordered(maps) && cur < |maps| && k in maps[cur] && maps[cur][k] == Sub(q) && q < |maps|
    requires Sealed(maps, cur, q, k) && AbsMap(maps, cur) - {k} == base - {k} && AbsMap(maps, q) == map[]
    ensures Path(maps, cur, q, base, [Enter(k)])
  {
    hide Ordered, AbsMap, Sealed;
    var evs := [Enter(k)];
    assert evs[1..] == [];
    assert Path(maps, q, q, map[], []);
  }

  /** Storing a finished cell, possibly built by allocations, is one store event. */
  lemma StoreEffect(m0: Maps, m1: Maps, cur: nat, k: Bytes, c: Cell)
    requires Ordered(m0) && cur < |m0| && Grown(m0, m1) && CellWithin(c, cur, |m1|)
    ensures var m2 := m1[cur := m1[cur][k := c]];
            Ordered(m2) && Effect(m0, cur, m2, cur, [Store(k, AbsCell(m1, c, cur))])
  {
    var m2 := m1[cur := m1[cur][k := c]];
    var t := AbsCell(m1, c, cur);
    assert Ordered(m2) by { hide CellWithin; }
    hide Ordered, AbsCell, CellWithin, Path;
    OrderedIsClosed(m0, cur);
    OrderedIsClosed(m0, cur + 1);
    OrderedIsClosed(m1, cur + 1);
    AbsCellFrame(m1, m2, c, cur, |m1|);
    forall x | x in m0[cur] && x != k ensures AbsMap(m2, cur)[x] == AbsMap(m0, cur)[x] {
      AbsCellFrame(m0, m2, m0[cur][x], cur, |m0|);
    }
    assert AbsMap(m2, cur) == AbsMap(m0, cur)[k := t];
    OneStorePath(m2, cur, AbsMap(m0, cur), k, t);
  }

  /** The heap with a fresh empty map linked from slot `k` of `cur`. */
  function Linked(maps: Maps, cur: nat, k: Bytes): Maps
    requires cur < |maps|
  {
    (maps + [map[]])[cur := maps[cur][k := Sub(|maps|)]]
  }

  lemma LinkedShape(m0: Maps, cur: nat, k: Bytes)
    requires Ordered(m0) && cur < |m0|
    ensures var m := Linked(m0, cur, k); var q := |m0|;
            Ordered(m) && Sealed(m, cur, q, k) && AbsMap(m, q) == map[] && OnlyAt(m0, m, cur)
  {
    var m := Linked(m0, cur, k);
    forall r | 0 <= r < |m| ensures EntriesWithin(m[r], r, |m|) {
      forall x | x in m[r] ensures CellWithin(m[r][x], r, |m|) {
        if r < |m0| && (r != cur || x != k) {
          assert EntriesWithin(m0[r], r, |m0|);
          CellWithinWiden(m0[r][x], r, |m0|, r, |m|);
        }
      }
    }
    OrderedIsClosed(m0, cur);
  }

  /** In a heap that still agrees with `m0` outside the linked map, the other slots of `cur`
      keep their trees. */
  lemma OtherSlotsKept(m0: Maps, m3: Maps, cur: nat, k: Bytes)
    requires Ordered(m0) && cur < |m0| && Ordered(m3) && |m0| < |m3|
    requires forall j | 0 <= j < |m0| :: m3[j] == Linked(m0, cur, k)[j]
    ensures AbsMap(m3, cur) - {k} == AbsMap(m0, cur) - {k}
  {
    hide Ordered, AbsCell, CellWithin;
    OrderedIsClosed(m0, cur);
    OrderedIsClosed(m0, cur + 1);
    forall x | x in m0[cur] && x != k ensures AbsMap(m3, cur)[x] == AbsMap(m0, cur)[x] {
      AbsCellFrame(m0, m3, m0[cur][x], cur, |m0|);
    }
    assert (AbsMap(m3, cur) - {k}).Keys == (AbsMap(m0, cur) - {k}).Keys;
  }

  /** `OpenNamespace` is one enter event. */
  lemma EnterEffect(m0: Maps, cur: nat, k: Bytes)
    requires Ordered(m0) && cur < |m0|
    ensures Effect(m0, cur, Linked(m0, cur, k), |m0|, [Enter(k)])
  {
    hide Ordered, AbsMap, Sealed;
    LinkedShape(m0, cur, k);
    OtherSlotsKept(m0, Linked(m0, cur, k), cur, k);
    OneEnterPath(Linked(m0, cur, k), cur, |m0|, AbsMap(m0, cur), k);
  }

  /** Filling a linked map in place is one store event, even though the link came first. */
  lemma ObjectEffect(m0: Maps, cur: nat, k: Bytes, m3: Maps, inner: nat, evs: seq<TreeEvent>)
    requires Ordered(m0) && cur < |m0|
    requires Ordered(Linked(m0, cur, k)) && Effect(Linked(m0, cur, k), |m0|, m3, inner, evs)
    ensures Effect(m0, cur, m3, cur, [Store(k, Branch(Build(map[], evs)))])
  {
    var q := |m0|;
    LinkedShape(m0, cur, k);
    PathMeaning(m3, q, inner, map[], evs);
    OtherSlotsKept(m0, m3, cur, k);
    assert m3[cur][k] == Sub(q);
    assert AbsMap(m3, cur)[k] == Branch(AbsMap(m3, q));
    SameButOne(AbsMap(m3, cur), AbsMap(m0, cur), k);
    OneStorePath(m3, cur, AbsMap(m0, cur), k, Branch(Build(map[], evs)));
  }

  /** The value of a growing slice: earlier elements keep their trees. */
  lemma AppendedElem(m0: Maps, m1: Maps, elems: seq<Cell>, c: Cell, lo: int)
    requires Ordered(m0) && Grown(m0, m1) && -1 <= lo < |m0|
    requires CellWithin(List(elems), lo, |m0|) && CellWithin(c, lo, |m1|)
    ensures CellWithin(List(elems + [c]), lo, |m1|)
    ensures AbsCell(m1, List(elems + [c]), lo) == Items(AbsCell(m0, List(elems), lo).elems + [AbsCell(m1, c, lo)])
  {
    hide Ordered, AbsMap;
    OrderedIsClosed(m0, lo + 1);
    AbsCellFrame(m0, m1, List(elems), lo, |m0|);
    assert AbsCell(m1, List(elems), lo).elems == AbsCell(m0, List(elems), lo).elems;
  }

  /** The error an `Append` or `Add` call of the in-memory encoders returns. */
  function TreeValueError(v: Value): Option<Bytes> {
    if v.Reflected? then None else ValueError(v)
  }

  class MapHeap {
    var maps: Maps

    constructor ()
      ensures maps == []
    {
      maps := [];
    }
  }

  class SliceArrayEncoder {
    const heap: MapHeap
    var elems: seq<Cell>

    constructor (heap: MapHeap)
      ensures this.heap == heap && elems == []
    {
      this.heap := heap;
      elems := [];
    }

    method AppendValue(v: Value, ghost lo: int) returns (err: Option<Bytes>)
      requires Ordered(heap.maps) && -1 <= lo < |heap.maps| && CellWithin(List(elems), lo, |heap.maps|)
      modifies heap, this
      ensures Grown(old(heap.maps), heap.maps) && CellWithin(List(elems), lo, |heap.maps|)
      ensures AbsCell(heap.maps, List(elems), lo)
           == Items(old(AbsCell(heap.maps, List(elems), lo)).elems + [ValueTree(v)])
      ensures err == TreeValueError(v)
      decreases v, 1
    {
      hide Ordered, Grown, AbsCell, CellWithin, CallTreeEvents, ElemTrees, Build;
      ghost var m0 := heap.maps;
      var c;
      c, err := BuildCell(heap, v, lo);
      AppendedElem(m0, heap.maps, elems, c, lo);
      elems := elems + [c];
    }

    method MarshalLogArray(a: ArrayMarshaler, ghost lo: int) returns (err: Option<Bytes>)
      requires Ordered(heap.maps) && -1 <= lo < |heap.maps| && elems == []
      modifies heap, this
      ensures Grown(old(heap.maps), heap.maps) && CellWithin(List(elems), lo, |heap.maps|)
      ensures AbsCell(heap.maps, List(elems), lo) == Items(ElemTrees(a.elems))
      ensures err == a.err
      decreases a
    {
      hide ValueTree, AbsCell, Ordered;
      assert CellWithin(List([]), lo, |heap.maps|) && AbsCell(heap.maps, List([]), lo) == Items([]) by {
        EmptySlice(heap.maps, lo);
      }
      for i := 0 to |a.elems|
        invariant Grown(old(heap.maps), heap.maps) && CellWithin(List(elems), lo, |heap.maps|)
        invariant AbsCell(heap.maps, List(elems), lo) == Items(ElemTrees(a.elems[..i]))
      {
        var _ := AppendValue(a.elems[i], lo);
        assert a.elems[..i + 1][..i] == a.elems[..i];
      }
      assert a.elems[..|a.elems|] == a.elems;
      err := a.err;
    }

    static lemma EmptySlice(maps: Maps, lo: int)
      requires Ordered(maps) && -1 <= lo < |maps|
      ensures CellWithin(List([]), lo, |maps|) && AbsCell(maps, List([]), lo) == Items([])
    {
    }
  }

  /** The cell for a value: nested arrays and objects are built by encoders of their own. */
  method BuildCell(heap: MapHeap, v: Value, ghost lo: int) returns (c: Cell, err: Option<Bytes>)
    requires Ordered(heap.maps) && -1 <= lo < |heap.maps|
    modifies heap
    ensures Grown(old(heap.maps), heap.maps) && CellWithin(c, lo, |heap.maps|)
    ensures AbsCell(heap.maps, c, lo) == ValueTree(v)
    ensures err == TreeValueError(v)
    decreases v, 0
  {
    match v
    case ArrayOf(a) =>
      hide Ordered, ElemTrees;
      var enc := new SliceArrayEncoder(heap);
      err := enc.MarshalLogArray(a, lo);
      c := List(enc.elems);
    case ObjectOf(o) =>
      hide Ordered, CallTreeEvents, Build, AbsMap, Path;
      ghost var m0 := heap.maps;
      var enc := new MapObjectEncoder(heap);
      ghost var m1 := heap.maps;
      err := enc.MarshalLogObject(o);
      FilledMap(m0, m1, heap.maps, enc.cur, CallTreeEvents(o.calls));
      c := Sub(enc.fields);
    case _ =>
      c, err := Scalar(v), None;
  }

  /** A map allocated last and filled through its own encoder. */
  lemma FilledMap(m0: Maps, m1: Maps, m2: Maps, cur: nat, evs: seq<TreeEvent>)
    requires Ordered(m0) && m1 == m0 + [map[]] && Ordered(m1) && Effect(m1, |m0|, m2, cur, evs)
    ensures Grown(m0, m2) && AbsMap(m2, |m0|) == Build(map[], evs)
  {
    hide Ordered, Path;
    assert AbsMap(m1, |m0|) == map[];
    PathMeaning(m2, |m0|, cur, map[], evs);
  }

  class MapObjectEncoder {
    const heap: MapHeap
    const fields: nat
    var cur: nat

    /** A fresh map, being written at its top level. */
    constructor (heap: MapHeap)
      requires Ordered(heap.maps)
      modifies heap
      ensures this.heap == heap && heap.maps == old(heap.maps) + [map[]] && Ordered(heap.maps)
      ensures fields == cur == |old(heap.maps)| && Holds([])
    {
      this.heap := heap;
      fields, cur := |heap.maps|, |heap.maps|;
      new;
      FreshMap(heap.maps);
      heap.maps := heap.maps + [map[]];
    }

    /** Adds one field through the `Add` method for its type. */
    method AddField(f: Field) returns (err: Option<Bytes>)
      requires Ordered(heap.maps) && cur < |heap.maps|
      modifies heap, this
      ensures Effect(old(heap.maps), old(cur), heap.maps, cur, AddTreeEvents(f))
      ensures err == TreeError(f)
      decreases f, 1
    {
      hide Ordered, Path, AbsMap, CallTreeEvents;
      err := None;
      NoEffect(heap.maps, cur);
      match f
      case KeyValue(k, v) => err := AddKeyValue(k, v);
      case Namespace(k) => OpenNamespace(k);
      case Inline(_, o) => err := MarshalLogObject(o);
      case Skip =>
    }

    method OpenNamespace(k: Bytes)
      requires Ordered(heap.maps) && cur < |heap.maps|
      modifies heap, this
      ensures Effect(old(heap.maps), old(cur), heap.maps, cur, [Enter(k)])
    {
      hide Ordered, Effect;
      EnterEffect(heap.maps, cur, k);
      var ns := |heap.maps|;
      heap.maps := heap.maps + [map[]];
      heap.maps := heap.maps[cur := heap.maps[cur][k := Sub(ns)]];
      cur := ns;
    }

    method AddString(k: Bytes, s: Bytes)
      requires Ordered(heap.maps) && cur < |heap.maps|
      modifies heap, this
      ensures Effect(old(heap.maps), old(cur), heap.maps, cur, [Store(k, Atom(Prim(Str(s))))])
    {
      hide Ordered, Effect;
      var c := Scalar(Prim(Str(s)));
      assert Grown(heap.maps, heap.maps);
      StoreEffect(heap.maps, heap.maps, cur, k, c);
      heap.maps := heap.maps[cur := heap.maps[cur][k := c]];
    }

    method AddKeyValue(k: Bytes, v: Value) returns (err: Option<Bytes>)
      requires Ordered(heap.maps) && cur < |heap.maps|
      modifies heap, this
      ensures Effect(old(heap.maps), old(cur), heap.maps, cur, [Store(k, ValueTree(v))])
      ensures err == TreeValueError(v)
      decreases v, 2
    {
      if v.ObjectOf? {
        hide Ordered, Effect, Build, CallTreeEvents;
        err := AddObject(k, v.o);
      } else {
        hide Ordered, Effect, ValueTree;
        var c;
        ghost var m0 := heap.maps;
        c, err := BuildCell(heap, v, cur);
        StoreEffect(m0, heap.maps, cur, k, c);
        heap.maps := heap.maps[cur := heap.maps[cur][k := c]];
      }
    }

    /** `AddObject` links the new map before the marshaler fills it. */
    method AddObject(k: Bytes, o: ObjectMarshaler) returns (err: Option<Bytes>)
      requires Ordered(heap.maps) && cur < |heap.maps|
      modifies heap, this
      ensures Effect(old(heap.maps), old(cur), heap.maps, cur, [Store(k, Branch(Build(map[], CallTreeEvents(o.calls))))])
      ensures err == o.err
      decreases o, 1
    {
      hide Ordered, Effect, CallTreeEvents;
      ghost var m0 := heap.maps;
      LinkedShape(m0, cur, k);
      var newMap := new MapObjectEncoder(heap);
      heap.maps := heap.maps[cur := heap.maps[cur][k := Sub(newMap.fields)]];
      assert heap.maps == Linked(m0, cur, k);
      err := newMap.MarshalLogObject(o);
      ObjectEffect(m0, cur, k, heap.maps, newMap.cur, CallTreeEvents(o.calls));
    }

    /** `Field.AddTo` on this encoder. */
    method AddFieldTo(f: Field)
      requires Ordered(heap.maps) && cur < |heap.maps|
      modifies heap, this
      ensures Effect(old(heap.maps), old(cur), heap.maps, cur, OneCallTreeEvents(AddTo(f)))
      decreases f, 2
    {
      hide Ordered, Path, AbsMap, AddTreeEvents;
      ghost var m0, c0 := heap.maps, cur;
      var err := AddField(f);
      EffectCur(m0, c0, heap.maps, cur, AddTreeEvents(f));
      if err.Some? {
        ghost var m1, c1 := heap.maps, cur;
        AddString(f.key + ERROR_SUFFIX, err.value);
        EffectsCompose(m0, c0, m1, c1, heap.maps, cur, AddTreeEvents(f),
                       [Store(f.key + ERROR_SUFFIX, Atom(Prim(Str(err.value))))]);
      } else {
        assert OneCallTreeEvents(AddTo(f)) == AddTreeEvents(f);
      }
    }

    method MakeCall(c: Call)
      requires Ordered(heap.maps) && cur < |heap.maps|
      modifies heap, this
      ensures Effect(old(heap.maps), old(cur), heap.maps, cur, OneCallTreeEvents(c))
      decreases c, 1
    {
      hide Ordered, Effect, AddTreeEvents;
      match c
      case Add(f) =>
        var _ := AddField(f);
        assert OneCallTreeEvents(c) == AddTreeEvents(f);
      case AddTo(f) => AddFieldTo(f);
    }

    method MarshalLogObject(o: ObjectMarshaler) returns (err: Option<Bytes>)
      requires Ordered(heap.maps) && cur < |heap.maps|
      modifies heap, this
      ensures Effect(old(heap.maps), old(cur), heap.maps, cur, CallTreeEvents(o.calls))
      ensures err == o.err
      decreases o, 0
    {
      hide Ordered, Path, AbsMap, OneCallTreeEvents;
      ghost var m0, c0 := heap.maps, cur;
      NoEffect(m0, c0);
      for i := 0 to |o.calls|
        invariant cur < |heap.maps| && Effect(m0, c0, heap.maps, cur, CallTreeEvents(o.calls[..i]))
      {
        ghost var m1, c1 := heap.maps, cur;
        MakeCall(o.calls[i]);
        assert o.calls[..i + 1][..i] == o.calls[..i];
        EffectCur(m1, c1, heap.maps, cur, OneCallTreeEvents(o.calls[i]));
        EffectsCompose(m0, c0, m1, c1, heap.maps, cur, CallTreeEvents(o.calls[..i]), OneCallTreeEvents(o.calls[i]));
      }
      assert o.calls[..|o.calls|] == o.calls;
      err := o.err;
    }

    /** The encoder has taken the events `evs`: `Fields` started empty, and `cur` is reached from
        it along the namespaces opened. */
    ghost predicate Holds(evs: seq<TreeEvent>)
      reads this, heap
    {
      Ordered(heap.maps) && Path(heap.maps, fields, cur, map[], evs)
    }

    /** `addFields`: `Fields` is the tree of all events so far. */
    method AddFields(fs: seq<Field>, ghost evs: seq<TreeEvent>)
      requires Holds(evs)
      modifies heap, this
      ensures Holds(evs + FieldTreeEvents(fs))
      ensures AbsMap(heap.maps, fields) == Build(map[], evs + FieldTreeEvents(fs))
    {
      hide Ordered, Path, AbsMap, OneCallTreeEvents;
      ghost var m0, c0 := heap.maps, cur;
      PathAbove(m0, fields, cur, map[], evs);
      NoEffect(m0, c0);
      for i := 0 to |fs|
        invariant cur < |heap.maps| && Effect(m0, c0, heap.maps, cur, FieldTreeEvents(fs[..i]))
      {
        ghost var m1, c1 := heap.maps, cur;
        AddFieldTo(fs[i]);
        assert fs[..i + 1][..i] == fs[..i];
        EffectCur(m1, c1, heap.maps, cur, OneCallTreeEvents(AddTo(fs[i])));
        EffectsCompose(m0, c0, m1, c1, heap.maps, cur, FieldTreeEvents(fs[..i]), OneCallTreeEvents(AddTo(fs[i])));
      }
      assert fs[..|fs|] == fs;
      PathExtends(m0, heap.maps, fields, c0, cur, map[], evs, FieldTreeEvents(fs));
      PathMeaning(heap.maps, fields, cur, map[], evs + FieldTreeEvents(fs));
    }

    static lemma FreshMap(maps: Maps)
      requires Ordered(maps)
      ensures Ordered(maps + [map[]])
    {
      var m := maps + [map[]];
      forall r | 0 <= r < |m| ensures EntriesWithin(m[r], r, |m|) {
        forall k | k in m[r] ensures CellWithin(m[r][k], r, |m|) {
          assert EntriesWithin(maps[r], r, |maps|);
          CellWithinWiden(maps[r][k], r, |maps|, r, |m|);
        }
      }
    }
  }
}
