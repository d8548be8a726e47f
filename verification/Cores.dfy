/**
  Core trees with lazy context, as the program runs them: lazy cells are filled in place at
  most once, checked entries are objects, and a logger checks levels before it checks cores.
  Each operation is proved against the reference meaning in `CoreTree`.
 */
module Cores {
  import opened Common
  import opened CoreTree
  import opened Entries

  /** A lazy core: `With(fields)` is applied to `core` the first time it is needed. `runs`
      counts how often that has happened. */
  datatype LazyCell<F> = LazyCell(core: Core<F>, fields: seq<F>, done: bool, runs: nat)

  /** Every lazy core in `c` is one of the first `n` cells. */
  predicate Below<F>(c: Core<F>, n: nat) {
    match c
    case Io(_, _, _) => true
    case Nop => true
    case Tee(cs) => forall i | 0 <= i < |cs| :: Below(cs[i], n)
    case Filter(c, _) => Below(c, n)
    case Hooked(c, _) => Below(c, n)
    case Sampling(c, _) => Below(c, n)
    case Lazy(id) => id < n
  }

  /** Cells wrap older cores only, run once at most, and once run hold no lazy core. */
  predicate CellsOk<F>(cells: seq<LazyCell<F>>) {
    forall i | 0 <= i < |cells| ::
      Below(cells[i].core, i) && cells[i].runs == (if cells[i].done then 1 else 0) && (cells[i].done ==> LazyFree(cells[i].core))
  }

  /** The tree with every lazy core replaced by the eager one it stands for. */
  function Eager<F>(cells: seq<LazyCell<F>>, c: Core<F>, n: nat): (r: Core<F>)
    requires CellsOk(cells) && n <= |cells| && Below(c, n)
    ensures LazyFree(r)
    decreases n, c
  {
    match c
    case Io(_, _, _) => c
    case Nop => c
    case Tee(cs) => Tee(seq(|cs|, i requires 0 <= i < |cs| => Eager(cells, cs[i], n)))
    case Filter(d, levels) => Filter(Eager(cells, d, n), levels)
    case Hooked(d, h) => Hooked(Eager(cells, d, n), h)
    case Sampling(d, s) => Sampling(Eager(cells, d, n), s)
    case Lazy(id) =>
      var inner := Eager(cells, cells[id].core, id);
      if cells[id].done then inner else With(inner, cells[id].fields)
  }

  /** The two cell stores give every lazy core the same meaning. */
  ghost predicate SameMeaning<F>(cells: seq<LazyCell<F>>, cells': seq<LazyCell<F>>)
    requires CellsOk(cells)
  {
    && CellsOk(cells') && |cells'| == |cells|
    && forall id | 0 <= id < |cells| :: Eager(cells', Lazy(id), |cells|) == Eager(cells, Lazy(id), |cells|)
  }

  lemma {:induction false} EagerBound<F>(cells: seq<LazyCell<F>>, c: Core<F>, n: nat, m: nat)
    requires CellsOk(cells) && n <= |cells| && m <= |cells| && Below(c, n) && Below(c, m)
    ensures Eager(cells, c, n) == Eager(cells, c, m)
    decreases c
  {
    hide CellsOk;
    match c
    case Tee(cs) =>
      forall i | 0 <= i < |cs| ensures Eager(cells, cs[i], n) == Eager(cells, cs[i], m) {
        EagerBound(cells, cs[i], n, m);
      }
      assert Eager(cells, c, n).cores == Eager(cells, c, m).cores;
    case Filter(d, _) => EagerBound(cells, d, n, m);
    case Hooked(d, _) => EagerBound(cells, d, n, m);
    case Sampling(d, _) => EagerBound(cells, d, n, m);
    case _ =>
  }

  /** Same meaning of the cells, same meaning of every tree over them. */
  lemma {:induction false} SameTree<F>(cells: seq<LazyCell<F>>, cells': seq<LazyCell<F>>, c: Core<F>, n: nat)
    requires CellsOk(cells) && SameMeaning(cells, cells') && n <= |cells| && Below(c, n)
    ensures Eager(cells', c, n) == Eager(cells, c, n)
    decreases c
  {
    hide CellsOk;
    match c
    case Tee(cs) =>
      forall i | 0 <= i < |cs| ensures Eager(cells', cs[i], n) == Eager(cells, cs[i], n) {
        SameTree(cells, cells', cs[i], n);
      }
      assert Eager(cells', c, n).cores == Eager(cells, c, n).cores;
    case Filter(d, _) => SameTree(cells, cells', d, n);
    case Hooked(d, _) => SameTree(cells, cells', d, n);
    case Sampling(d, _) => SameTree(cells, cells', d, n);
    case Lazy(id) =>
      assert Eager(cells', Lazy(id), |cells|) == Eager(cells, Lazy(id), |cells|);
      EagerBound(cells, c, n, |cells|);
      EagerBound(cells', c, n, |cells|);
    case _ =>
  }

  lemma SameMeaningTrans<F>(a: seq<LazyCell<F>>, b: seq<LazyCell<F>>, c: seq<LazyCell<F>>)
    requires CellsOk(a) && SameMeaning(a, b) && SameMeaning(b, c)
    ensures SameMeaning(a, c)
  {
    hide CellsOk, Eager;
    forall id | 0 <= id < |a| ensures Eager(c, Lazy(id), |a|) == Eager(a, Lazy(id), |a|) {
      assert Eager(b, Lazy(id), |a|) == Eager(a, Lazy(id), |a|);
      assert Eager(c, Lazy(id), |b|) == Eager(b, Lazy(id), |b|);
    }
  }

  lemma {:induction false} EagerOfLazyFree<F>(cells: seq<LazyCell<F>>, c: Core<F>, n: nat)
    requires CellsOk(cells) && n <= |cells| && LazyFree(c)
    ensures Below(c, n) && Eager(cells, c, n) == c
    decreases c
  {
    hide CellsOk;
    match c
    case Tee(cs) =>
      forall i | 0 <= i < |cs| ensures Below(cs[i], n) && Eager(cells, cs[i], n) == cs[i] {
        EagerOfLazyFree(cells, cs[i], n);
      }
      assert Eager(cells, c, n).cores == cs;
    case Filter(d, _) => EagerOfLazyFree(cells, d, n);
    case Hooked(d, _) => EagerOfLazyFree(cells, d, n);
    case Sampling(d, _) => EagerOfLazyFree(cells, d, n);
    case _ =>
  }

  /** Running a cell replaces it by the eager core it stood for. */
  lemma CellRun<F>(cells: seq<LazyCell<F>>, id: nat)
    requires CellsOk(cells) && id < |cells| && !cells[id].done
    ensures var r := With(Eager(cells, cells[id].core, id), cells[id].fields);
            var cells' := cells[id := cells[id].(core := r, done := true, runs := 1)];
            SameMeaning(cells, cells')
  {
    var r := With(Eager(cells, cells[id].core, id), cells[id].fields);
    var cells' := cells[id := cells[id].(core := r, done := true, runs := 1)];
    assert CellsOk(cells') by {
      forall i | 0 <= i < |cells'| ensures Below(cells'[i].core, i) {
        if i == id {
          EagerOfLazyFree(cells, r, id);
        }
      }
    }
    forall k | 0 <= k < |cells| ensures Eager(cells', Lazy(k), |cells|) == Eager(cells, Lazy(k), |cells|) {
      CellRunMeaning(cells, cells', id, Lazy(k), |cells|);
    }
  }

  lemma {:induction false} CellRunMeaning<F>(cells: seq<LazyCell<F>>, cells': seq<LazyCell<F>>, id: nat, c: Core<F>, n: nat)
    requires CellsOk(cells) && CellsOk(cells') && id < |cells| && !cells[id].done && n <= |cells| && Below(c, n)
    requires cells' == cells[id := cells[id].(core := With(Eager(cells, cells[id].core, id), cells[id].fields), done := true, runs := 1)]
    ensures Eager(cells', c, n) == Eager(cells, c, n)
    decreases n, c
  {
    hide CellsOk;
    match c
    case Tee(cs) =>
      forall i | 0 <= i < |cs| ensures Eager(cells', cs[i], n) == Eager(cells, cs[i], n) {
        CellRunMeaning(cells, cells', id, cs[i], n);
      }
      assert Eager(cells', c, n).cores == Eager(cells, c, n).cores;
    case Filter(d, _) => CellRunMeaning(cells, cells', id, d, n);
    case Hooked(d, _) => CellRunMeaning(cells, cells', id, d, n);
    case Sampling(d, _) => CellRunMeaning(cells, cells', id, d, n);
    case Lazy(k) =>
      if k == id {
        EagerOfLazyFree(cells', cells'[id].core, id);
      } else {
        assert cells'[k] == cells[k];
        CellCore(cells, k);
        CellRunMeaning(cells, cells', id, cells[k].core, k);
      }
    case _ =>
  }

  lemma CellCore<F>(cells: seq<LazyCell<F>>, k: nat)
    requires CellsOk(cells) && k < |cells|
    ensures Below(cells[k].core, k)
  {
  }

  // -------------------------------------------------------------- Enabled

  /** `Enabled` as the program evaluates it: a lazy core asks whatever it wraps now. */
  predicate EnabledNow<F>(cells: seq<LazyCell<F>>, c: Core<F>, lvl: int, ghost n: nat)
    requires CellsOk(cells) && n <= |cells| && Below(c, n)
    decreases n, c
  {
    match c
    case Io(_, levels, _) => lvl in levels
    case Nop => false
    case Tee(cs) => exists i | 0 <= i < |cs| :: EnabledNow(cells, cs[i], lvl, n)
    case Filter(_, levels) => lvl in levels
    case Hooked(d, _) => EnabledNow(cells, d, lvl, n)
    case Sampling(d, _) => EnabledNow(cells, d, lvl, n)
    case Lazy(id) => EnabledNow(cells, cells[id].core, lvl, id)
  }

  lemma {:induction false} EnabledNowIsEnabled<F>(cells: seq<LazyCell<F>>, c: Core<F>, lvl: int, n: nat)
    requires CellsOk(cells) && n <= |cells| && Below(c, n)
    ensures EnabledNow(cells, c, lvl, n) <==> Enabled(Eager(cells, c, n), lvl)
    decreases n, c
  {
    hide CellsOk;
    match c
    case Tee(cs) =>
      forall i | 0 <= i < |cs| ensures EnabledNow(cells, cs[i], lvl, n) <==> Enabled(Eager(cells, cs[i], n), lvl) {
        EnabledNowIsEnabled(cells, cs[i], lvl, n);
      }
      var es := Eager(cells, c, n).cores;
      assert forall i | 0 <= i < |cs| :: es[i] == Eager(cells, cs[i], n);
    case Hooked(d, _) => EnabledNowIsEnabled(cells, d, lvl, n);
    case Sampling(d, _) => EnabledNowIsEnabled(cells, d, lvl, n);
    case Lazy(id) =>
      CellCore(cells, id);
      EnabledNowIsEnabled(cells, cells[id].core, lvl, id);
      WithKeepsEnabled(Eager(cells, cells[id].core, id), cells[id].fields, lvl);
    case _ =>
  }

  // ------------------------------------------------------- checked entries

  /** What happens after a write. */
  datatype Action = WriteThenNoop | WriteThenGoexit | WriteThenPanic | WriteThenFatal | CustomHook(id: nat)

  datatype Delivery<F> = ToLeaf(leaf: nat, fields: seq<F>) | ToHook(hook: nat)

  /** What a registration receives when the entry is written with `fields`: a leaf its own
      context and the fields, a hook just the call. */
  function Deliver<F>(r: Registered<F>, fields: seq<F>): Delivery<F> {
    match r
    case Leaf(leaf, ctx) => ToLeaf(leaf, ctx + fields)
    case Hook(h) => ToHook(h)
  }

  /** Each of `rs` has got the entry once, in order. */
  predicate DeliveredTo<F(==)>(sent: seq<Delivery<F>>, rs: seq<Registered<F>>, fields: seq<F>) {
    && |sent| == |rs|
    && forall i | 0 <= i < |sent| ::
         match rs[i] case Leaf(leaf, ctx) => sent[i] == ToLeaf(leaf, ctx + fields) case Hook(h) => sent[i] == ToHook(h)
  }

  class CheckedEntry<F> {
    var ent: Entry
    var dirty: bool
    var after: Option<Action>
    var cores: seq<Registered<F>>

    /** An entry as the pool creates it, holding whatever. */
    constructor (ent: Entry, dirty: bool, after: Option<Action>, cores: seq<Registered<F>>)
    {
      this.ent, this.dirty, this.after, this.cores := ent, dirty, after, cores;
    }

    /** `reset` makes any entry, however it was left, a clean one. */
    method Reset()
      modifies this
      ensures ent == Entry(0, [], 0) && !dirty && after == None && cores == []
    {
      ent, dirty, after := Entry(0, [], 0), false, None;
      cores := cores[..0];
    }

    /** `Write`: a clean entry is delivered once to each registration, in order, and then its
        action is due; a dirty one is not delivered at all. */
    method Write(fields: seq<F>) returns (sent: seq<Delivery<F>>, due: Option<Action>)
      modifies this
      ensures dirty && cores == old(cores)
      ensures old(dirty) ==> sent == [] && due == None
      ensures !old(dirty) ==> due == old(after) && DeliveredTo(sent, old(cores), fields)
    {
      sent, due := [], None;
      if dirty {
        return;
      }
      dirty := true;
      for i := 0 to |cores|
        invariant dirty && cores == old(cores) && after == old(after)
        invariant |sent| == i && forall j | 0 <= j < i :: sent[j] == Deliver(cores[j], fields)
      {
        sent := sent + [Deliver(cores[i], fields)];
      }
      due := after;
    }
  }

  /** The checked entry as a value. */
  function Value<F>(ce: CheckedEntry?<F>): Checked<F>
    reads ce
  {
    if ce == null then None else Some(ce.cores)
  }

  // ------------------------------------------------------------- the program

  class Program<F> {
    var cells: seq<LazyCell<F>>
    var counts: Counts
    const decide: Decide

    constructor (decide: Decide)
      ensures cells == [] && counts == map[] && this.decide == decide
    {
      cells, counts := [], map[];
      this.decide := decide;
    }

    /** `NewLazyWith`: nothing is encoded yet. */
    method NewLazyWith(c: Core<F>, fields: seq<F>) returns (r: Core<F>)
      requires CellsOk(cells) && Below(c, |cells|)
      modifies this`cells
      ensures CellsOk(cells) && |cells| == |old(cells)| + 1 && Below(r, |cells|) && r == Lazy(|old(cells)|)
      ensures cells[..|old(cells)|] == old(cells) && !cells[|old(cells)|].done
      ensures Eager(cells, r, |cells|) == With(Eager(old(cells), c, |old(cells)|), fields)
    {
      ghost var before := cells;
      r := Lazy(|cells|);
      cells := cells + [LazyCell(c, fields, false, 0)];
      NewCell(before, cells, c, |before|);
    }

    static lemma {:induction false} NewCell(before: seq<LazyCell<F>>, cells: seq<LazyCell<F>>, c: Core<F>, n: nat)
      requires CellsOk(before) && CellsOk(cells) && before <= cells && n <= |before| && Below(c, n)
      ensures Eager(cells, c, n) == Eager(before, c, n)
      decreases n, c
    {
      hide CellsOk;
      match c
      case Tee(cs) =>
        forall i | 0 <= i < |cs| ensures Eager(cells, cs[i], n) == Eager(before, cs[i], n) {
          NewCell(before, cells, cs[i], n);
        }
        assert Eager(cells, c, n).cores == Eager(before, c, n).cores;
      case Filter(d, _) => NewCell(before, cells, d, n);
      case Hooked(d, _) => NewCell(before, cells, d, n);
      case Sampling(d, _) => NewCell(before, cells, d, n);
      case Lazy(id) =>
        CellCore(before, id);
        NewCell(before, cells, before[id].core, id);
      case _ =>
    }

    /** `lazyWithCore.initOnce`: the first call runs the inner `With`, later ones do nothing. */
    method InitOnce(id: nat)
      requires CellsOk(cells) && id < |cells|
      modifies this`cells
      ensures SameMeaning(old(cells), cells) && cells[id].done
      ensures cells[id].core == Eager(old(cells), Lazy(id), |cells|)
      ensures forall j | id < j < |cells| :: cells[j] == old(cells)[j]
      decreases id
    {
      hide CellsOk;
      ghost var m0 := cells;
      assert SameMeaning(m0, m0) by { Unchanged(m0); }
      if cells[id].done {
        DoneCell(cells, id);
        return;
      }
      CellCore(cells, id);
      var r := WithFields(cells[id].core, cells[id].fields, id);
      ghost var m1 := cells;
      SameTree(m0, m1, m0[id].core, id);
      CellRun(m1, id);
      cells := cells[id := cells[id].(core := r, done := true, runs := cells[id].runs + 1)];
      assert m1[id].runs == 0 by { FreshRuns(m1, id); }
      SameMeaningTrans(m0, m1, cells);
    }

    static lemma Unchanged(cells: seq<LazyCell<F>>)
      requires CellsOk(cells)
      ensures SameMeaning(cells, cells)
    {
    }

    static lemma DoneCell(cells: seq<LazyCell<F>>, id: nat)
      requires CellsOk(cells) && id < |cells| && cells[id].done
      ensures cells[id].core == Eager(cells, Lazy(id), |cells|)
    {
      EagerOfLazyFree(cells, cells[id].core, id);
    }

    static lemma FreshRuns(cells: seq<LazyCell<F>>, id: nat)
      requires CellsOk(cells) && id < |cells| && !cells[id].done
      ensures cells[id].runs == 0
    {
    }

    /** `Core.With` on any tree; only cells below `n` are touched. */
    method WithFields(c: Core<F>, fs: seq<F>, ghost n: nat) returns (r: Core<F>)
      requires CellsOk(cells) && n <= |cells| && Below(c, n)
      modifies this`cells
      ensures SameMeaning(old(cells), cells) && forall j | n <= j < |cells| :: cells[j] == old(cells)[j]
      ensures LazyFree(r) && r == With(Eager(old(cells), c, n), fs)
      decreases n, c, 1
    {
      hide CellsOk;
      ghost var m0 := cells;
      assert SameMeaning(m0, m0) by { Unchanged(m0); }
      match c
      case Io(leaf, levels, ctx) => r := Io(leaf, levels, ctx + fs);
      case Nop => r := Nop;
      case Tee(cs) => r := WithAll(c, fs, n);
      case Filter(d, levels) =>
        var d' := WithFields(d, fs, n);
        r := Filter(d', levels);
      case Hooked(d, h) =>
        var d' := WithFields(d, fs, n);
        r := Hooked(d', h);
      case Sampling(d, s) =>
        var d' := WithFields(d, fs, n);
        r := Sampling(d', s);
      case Lazy(id) =>
        InitOnce(id);
        ghost var m1 := cells;
        EagerBound(m0, c, n, |m0|);
        assert LazyFree(cells[id].core);
        EagerOfLazyFree(m1, m1[id].core, id);
        r := WithFields(cells[id].core, fs, id);
        SameMeaningTrans(m0, m1, cells);
    }

    method WithAll(c: Core<F>, fs: seq<F>, ghost n: nat) returns (r: Core<F>)
      requires c.Tee? && CellsOk(cells) && n <= |cells| && Below(c, n)
      modifies this`cells
      ensures SameMeaning(old(cells), cells) && forall j | n <= j < |cells| :: cells[j] == old(cells)[j]
      ensures LazyFree(r) && r == With(Eager(old(cells), c, n), fs)
      decreases n, c, 0
    {
      hide CellsOk;
      ghost var m0 := cells;
      assert SameMeaning(m0, m0) by { Unchanged(m0); }
      var clone: seq<Core<F>> := [];
      for i := 0 to |c.cores|
        invariant SameMeaning(m0, cells) && forall j | n <= j < |cells| :: cells[j] == m0[j]
        invariant |clone| == i && forall k | 0 <= k < i :: clone[k] == With(Eager(m0, c.cores[k], n), fs)
      {
        ghost var m1 := cells;
        SameTree(m0, m1, c.cores[i], n);
        var d := WithFields(c.cores[i], fs, n);
        SameMeaningTrans(m0, m1, cells);
        clone := clone + [d];
      }
      r := Tee(clone);
      assert r.cores == With(Eager(m0, c, n), fs).cores;
    }
  
    /** `CheckedEntry.AddCore`: on nil it takes an entry from the pool, in whatever state that
        was left, and resets it first. */
    static method AddTo(ce: CheckedEntry?<F>, ent: Entry, reg: Registered<F>) returns (r: CheckedEntry<F>)
      modifies ce
      ensures Value(r) == AddCore(old(Value(ce)), reg)
      ensures if ce == null then fresh(r) && r.ent == ent && !r.dirty && r.after == None
              else r == ce && r.ent == old(ce.ent) && r.dirty == old(ce.dirty) && r.after == old(ce.after)
    {
      if ce == null {
        r := FromPool();
        r.ent := ent;
      } else {
        r := ce;
      }
      assert [] + [reg] == [reg];
      r.cores := r.cores + [reg];
    }

    static method FromPool() returns (r: CheckedEntry<F>)
      ensures fresh(r) && r.cores == [] && !r.dirty && r.after == None
    {
      var ent: Entry, dirty: bool, after: Option<Action>, cores: seq<Registered<F>> := *, *, *, *;
      r := new CheckedEntry<F>(ent, dirty, after, cores);
      r.Reset();
    }

    /** The checked entry `r` is `ce` itself, or a clean new one for `ent`. */
    twostate predicate Continues(ce: CheckedEntry?<F>, new r: CheckedEntry?<F>, ent: Entry)
      reads ce, r
    {
      if ce != null then r == ce && r.ent == old(ce.ent) && r.dirty == old(ce.dirty) && r.after == old(ce.after)
      else r != null ==> fresh(r) && r.ent == ent && !r.dirty && r.after == None
    }

    /** `Core.Check` on any tree does what the eager tree does. */
    method CheckCore(c: Core<F>, ent: Entry, ce: CheckedEntry?<F>, ghost n: nat) returns (r: CheckedEntry?<F>)
      requires CellsOk(cells) && n <= |cells| && Below(c, n)
      modifies this, ce
      ensures SameMeaning(old(cells), cells)
      ensures (Value(r), counts) == Check(Eager(old(cells), c, n), ent, old(Value(ce)), old(counts), decide)
      ensures Continues(ce, r, ent)
      decreases n, c, 1
    {
      hide CellsOk, AddCore;
      ghost var m0 := cells;
      assert SameMeaning(m0, m0) by { Unchanged(m0); }
      r := ce;
      match c
      case Io(leaf, levels, ctx) =>
        if ent.level in levels {
          r := AddTo(ce, ent, Leaf(leaf, ctx));
        }
      case Nop =>
      case Tee(cs) => r := CheckTee(c, ent, ce, n);
      case Filter(d, levels) =>
        if ent.level in levels {
          r := CheckCore(d, ent, ce, n);
        }
      case Hooked(d, h) =>
        var downstream := CheckCore(d, ent, ce, n);
        if downstream != null {
          r := AddTo(downstream, ent, Hook(h));
        } else {
          StillNil(Eager(m0, d, n), ent, old(Value(ce)), old(counts), decide);
        }
      case Sampling(d, s) => r := CheckSampler(c, ent, ce, n);
      case Lazy(id) =>
        InitOnce(id);
        ghost var m1 := cells;
        EagerBound(m0, c, n, |m0|);
        EagerOfLazyFree(m1, m1[id].core, id);
        r := CheckCore(cells[id].core, ent, ce, id);
        SameMeaningTrans(m0, m1, cells);
    }

    method CheckSampler(c: Core<F>, ent: Entry, ce: CheckedEntry?<F>, ghost n: nat) returns (r: CheckedEntry?<F>)
      requires c.Sampling? && CellsOk(cells) && n <= |cells| && Below(c, n)
      modifies this, ce
      ensures SameMeaning(old(cells), cells)
      ensures (Value(r), counts) == Check(Eager(old(cells), c, n), ent, old(Value(ce)), old(counts), decide)
      ensures Continues(ce, r, ent)
      decreases n, c, 0
    {
      hide CellsOk;
      ghost var m0 := cells;
      assert SameMeaning(m0, m0) by { Unchanged(m0); }
      r := ce;
      EnabledNowIsEnabled(cells, c.core, ent.level, n);
      if !EnabledNow(cells, c.core, ent.level, n) {
        return;
      }
      if MIN_LEVEL <= ent.level <= MAX_LEVEL {
        counts := counts[c.sampler := Counted(counts, c.sampler) + [ent]];
        if !decide(c.sampler, counts[c.sampler]) {
          return;
        }
      }
      r := CheckCore(c.core, ent, ce, n);
    }

    method CheckTee(c: Core<F>, ent: Entry, ce: CheckedEntry?<F>, ghost n: nat) returns (r: CheckedEntry?<F>)
      requires c.Tee? && CellsOk(cells) && n <= |cells| && Below(c, n)
      modifies this, ce
      ensures SameMeaning(old(cells), cells)
      ensures (Value(r), counts) == Check(Eager(old(cells), c, n), ent, old(Value(ce)), old(counts), decide)
      ensures Continues(ce, r, ent)
      decreases n, c, 0
    {
      hide CellsOk, Check;
      ghost var m0 := cells;
      ghost var es := Eager(m0, c, n).cores;
      assert SameMeaning(m0, m0) by { Unchanged(m0); }
      r := ce;
      for i := 0 to |c.cores|
        invariant SameMeaning(m0, cells) && Continues(ce, r, ent)
        invariant (Value(r), counts) == CheckAll(es[..i], ent, old(Value(ce)), old(counts), decide)
      {
        ghost var m1 := cells;
        SameTree(m0, m1, c.cores[i], n);
        r := CheckCore(c.cores[i], ent, r, n);
        SameMeaningTrans(m0, m1, cells);
        assert es[..i + 1][..i] == es[..i] && es[i] == Eager(m0, c.cores[i], n);
      }
      assert es[..|c.cores|] == es;
      CheckTeeMeaning(es, ent, old(Value(ce)), old(counts));
    }

    lemma CheckTeeMeaning(es: seq<Core<F>>, ent: Entry, ce: Checked<F>, counts: Counts)
      requires LazyFree(Tee(es))
      ensures Check(Tee(es), ent, ce, counts, decide) == CheckAll(es, ent, ce, counts, decide)
    {
    }
  
    /** `NewIncreaseLevelCore` builds the filter unless it would enable a level that the core
        does not. */
    method NewIncreaseLevelCore(c: Core<F>, levels: Levels) returns (r: Option<Core<F>>)
      requires CellsOk(cells) && Below(c, |cells|)
      ensures r.Some? <==> forall l | MIN_LEVEL <= l <= MAX_LEVEL && l in levels :: Enabled(Eager(cells, c, |cells|), l)
      ensures r.Some? ==> r.value == Filter(c, levels)
    {
      hide CellsOk, EnabledNow, Enabled, Eager;
      var l := MAX_LEVEL;
      while l >= MIN_LEVEL
        invariant MIN_LEVEL - 1 <= l <= MAX_LEVEL
        invariant forall k | l < k <= MAX_LEVEL && k in levels :: Enabled(Eager(cells, c, |cells|), k)
      {
        EnabledNowIsEnabled(cells, c, l, |cells|);
        if !EnabledNow(cells, c, l, |cells|) && l in levels {
          return None;
        }
        l := l - 1;
      }
      return Some(Filter(c, levels));
    }

    // --------------------------------------------------------------- loggers

    /** `Logger.check`: disabled levels below DPanic are turned away without checking cores;
        Panic, Fatal and, in development, DPanic get their terminal action even when no core
        accepts. The result is what checking the cores alone would give. */
    method LoggerCheck(log: Logger<F>, ent: Entry) returns (r: CheckedEntry?<F>)
      requires CellsOk(cells) && Below(log.core, |cells|)
      modifies this
      ensures SameMeaning(old(cells), cells)
      ensures var checked := Check(Eager(old(cells), log.core, |old(cells)|), ent, None, old(counts), decide);
              counts == checked.1 && Registrations(r) == RegisteredIn(checked.0)
              && (r == null <==> checked.0.None? && TerminalAction(log, ent.level).None?)
      ensures r != null ==> fresh(r) && !r.dirty && r.ent == ent && r.after == TerminalAction(log, ent.level)
    {
      hide CellsOk, Check;
      ghost var m0 := cells;
      ghost var tree := Eager(m0, log.core, |m0|);
      assert SameMeaning(m0, m0) by { Unchanged(m0); }
      r := null;
      EnabledNowIsEnabled(cells, log.core, ent.level, |m0|);
      if ent.level < DPANIC_LEVEL && !EnabledNow(cells, log.core, ent.level, |m0|) {
        DisabledRegistersNothing(tree, ent, counts, decide);
        return;
      }
      r := CheckCore(log.core, ent, null, |cells|);
      var terminal := TerminalAction(log, ent.level);
      if terminal.Some? {
        if r == null {
          r := FromPool();
          r.ent := ent;
        }
        r.after := terminal;
      }
    }

    /** `Logger.Log`: check, then write. Every leaf whose level sets all enable the level and
        whose samplers all say yes gets the entry, once and from left to right, with its own
        context followed by the fields; nothing else gets it but hooks, and without hooks and
        samplers nothing else at all. A terminal action is due exactly at Panic, at Fatal, and in
        development at DPanic, and is the override unless that is missing or a no-op. */
    method Log(log: Logger<F>, ent: Entry, fields: seq<F>) returns (sent: seq<Delivery<F>>, due: Option<Action>)
      requires CellsOk(cells) && Below(log.core, |cells|)
      modifies this
      ensures SameMeaning(old(cells), cells)
      ensures var tree := Eager(old(cells), log.core, |old(cells)|);
              counts == Check(tree, ent, None, old(counts), decide).1
              && DeliveredTo(sent, RegisteredIn(Check(tree, ent, None, old(counts), decide).0), fields)
              && (DistinctSamplers(tree) ==>
                    Carries(LeafDeliveries(sent), Accepting(Occurrences(tree, []), ent, Verdicts(ent, old(counts), decide)), fields))
              && (HookFree(tree) ==> LeafDeliveries(sent) == sent)
      ensures ent.level == 4 ==> due == Some(if Given(log.onPanic) then log.onPanic.value else WriteThenPanic)
      ensures ent.level == 5 ==> due == Some(if Given(log.onFatal) then log.onFatal.value else WriteThenFatal)
      ensures ent.level == 3 && log.development ==> due == Some(if Given(log.onPanic) then log.onPanic.value else WriteThenPanic)
      ensures ent.level == 3 && !log.development ==> due == None
      ensures ent.level != 3 && ent.level != 4 && ent.level != 5 ==> due == None
    {
      hide CellsOk, Check, Accepting, Occurrences, DistinctSamplers, HookFree, CheckedLeaves, LeafDeliveries, Carries, Verdicts;
      ghost var tree := Eager(cells, log.core, |cells|);
      ghost var counts0 := counts;
      var ce := LoggerCheck(log, ent);
      sent, due := [], None;
      if ce != null {
        sent, due := ce.Write(fields);
      }
      LeavesGet(tree, ent, counts0, decide, sent, fields);
    }
  }

  /** The override is there and stops the program. */
  predicate Given(override: Option<Action>) {
    override.Some? && override.value != WriteThenNoop
  }

  /** The deliveries to leaves. */
  function LeafDeliveries<F>(sent: seq<Delivery<F>>): seq<Delivery<F>> {
    if sent == [] then []
    else LeafDeliveries(sent[..|sent| - 1]) + if sent[|sent| - 1].ToLeaf? then [sent[|sent| - 1]] else []
  }

  /** Each of these leaves gets its own context followed by the fields. */
  predicate Carries<F(==)>(sent: seq<Delivery<F>>, leaves: seq<Registered<F>>, fields: seq<F>) {
    && |sent| == |leaves|
    && forall i | 0 <= i < |sent| :: leaves[i].Leaf? && sent[i] == ToLeaf(leaves[i].leaf, leaves[i].ctx + fields)
  }

  lemma {:induction false} DeliveredLeaves<F>(sent: seq<Delivery<F>>, rs: seq<Registered<F>>, fields: seq<F>)
    requires DeliveredTo(sent, rs, fields)
    ensures Carries(LeafDeliveries(sent), LeavesOf(rs), fields)
    ensures LeavesOf(rs) == rs ==> LeafDeliveries(sent) == sent
    decreases |rs|
  {
    if rs != [] {
      var n := |rs| - 1;
      DeliveredLeaves(sent[..n], rs[..n], fields);
      FewerLeaves(rs[..n]);
      if LeavesOf(rs) == rs {
        assert rs[n].Leaf?;
        assert LeavesOf(rs)[..n] == LeavesOf(rs[..n]) == rs[..n];
        assert sent == sent[..n] + [sent[n]];
      }
    }
  }

  lemma {:induction false} FewerLeaves<F>(rs: seq<Registered<F>>)
    ensures |LeavesOf(rs)| <= |rs|
  {
    if rs != [] {
      FewerLeaves(rs[..|rs| - 1]);
    }
  }

  lemma {:induction false} OnlyLeaves<F>(os: seq<Occurrence<F>>, ent: Entry, verdict: Verdict)
    ensures LeavesOf(Accepting(os, ent, verdict)) == Accepting(os, ent, verdict)
    decreases |os|
  {
    hide AllOpen;
    if os != [] {
      var n := |os| - 1;
      OnlyLeaves(os[..n], ent, verdict);
      LeavesOfAppend(Accepting(os[..n], ent, verdict), Leaf(os[n].leaf, os[n].ctx));
      assert Accepting(os[..n], ent, verdict) + [] == Accepting(os[..n], ent, verdict);
    }
  }

  lemma LeavesGet<F>(tree: Core<F>, ent: Entry, counts: Counts, decide: Decide, sent: seq<Delivery<F>>, fields: seq<F>)
    requires LazyFree(tree) && DeliveredTo(sent, RegisteredIn(Check(tree, ent, None, counts, decide).0), fields)
    ensures DistinctSamplers(tree) ==>
              Carries(LeafDeliveries(sent), Accepting(Occurrences(tree, []), ent, Verdicts(ent, counts, decide)), fields)
    ensures HookFree(tree) ==> LeafDeliveries(sent) == sent
  {
    hide Check, Accepting, Occurrences, DistinctSamplers, HookFree, LeafDeliveries, Carries, Verdicts, LeavesOf, DeliveredTo, SameCounts, AllOpen;
    var verdict := Verdicts(ent, counts, decide);
    var r := Check(tree, ent, None, counts, decide).0;
    DeliveredLeaves(sent, RegisteredIn(r), fields);
    assert LeavesOf<F>([]) == [] by { NoLeaves<F>(); }
    NoGates(ent, verdict);
    if DistinctSamplers(tree) {
      CountsAgree(tree, counts);
      CheckRegistersLeaves(tree, [], ent, None, counts, decide, counts);
      assert [] + Accepting(Occurrences(tree, []), ent, verdict) == Accepting(Occurrences(tree, []), ent, verdict);
    }
    if HookFree(tree) {
      CheckRegistersOpenLeaves(tree, [], ent, None, counts, decide, verdict);
      OnlyLeaves(Occurrences(tree, []), ent, verdict);
    }
  }

  lemma NoLeaves<F>()
    ensures LeavesOf<F>([]) == []
  {
  }

  const DPANIC_LEVEL: int := 3
  const PANIC_LEVEL: int := 4
  const FATAL_LEVEL: int := 5

  datatype Logger<F> = Logger(core: Core<F>, development: bool, onPanic: Option<Action>, onFatal: Option<Action>)

  /** `terminalHookOverride`: a missing or no-op hook would let execution go on. */
  function TerminalOverride(fallback: Action, override: Option<Action>): (a: Action)
    requires fallback != WriteThenNoop
    ensures a != WriteThenNoop
    ensures override.Some? && override.value != WriteThenNoop ==> a == override.value
  {
    match override
    case None => fallback
    case Some(o) => if o.WriteThenNoop? then fallback else o
  }

  /** The action due after an entry at this level. */
  function TerminalAction<F>(log: Logger<F>, lvl: int): Option<Action> {
    if lvl == PANIC_LEVEL then Some(TerminalOverride(WriteThenPanic, log.onPanic))
    else if lvl == FATAL_LEVEL then Some(TerminalOverride(WriteThenFatal, log.onFatal))
    else if lvl == DPANIC_LEVEL && log.development then Some(TerminalOverride(WriteThenPanic, log.onPanic))
    else None
  }

  function RegisteredIn<F>(ce: Checked<F>): seq<Registered<F>> {
    match ce case None => [] case Some(rs) => rs
  }

  function Registrations<F>(ce: CheckedEntry?<F>): seq<Registered<F>>
    reads ce
  {
    if ce == null then [] else ce.cores
  }
}
