/**
  Trees of cores. This module is the reference meaning of a tree without lazy cores: which
  leaves and hooks an entry is registered with, and what `With` does.
 */
module CoreTree {

  import opened Common
  import opened Entries

  /** A level enabler whose answers do not change: the set of levels it enables. */
  type Levels = set<int>

  /** A core. A leaf is identified by its output, a hook by its callbacks, a sampler by its
      counters, and a lazy core by its cell. */
  datatype Core<F> =
    | Io(leaf: nat, levels: Levels, ctx: seq<F>)
    | Nop
    | Tee(cores: seq<Core<F>>)
    | Filter(core: Core<F>, levels: Levels)
    | Hooked(core: Core<F>, hook: nat)
    | Sampling(core: Core<F>, sampler: nat)
    | Lazy(cell: nat)

  /** What agreed to log a checked entry. */
  datatype Registered<F> = Leaf(leaf: nat, ctx: seq<F>) | Hook(hook: nat)

  /** A checked entry so far: nil, or a list of registrations. */
  type Checked<F> = Option<seq<Registered<F>>>

  function AddCore<F>(ce: Checked<F>, r: Registered<F>): Checked<F> {
    match ce
    case None => Some([r])
    case Some(rs) => Some(rs + [r])
  }

  predicate LazyFree<F>(c: Core<F>) {
    match c
    case Io(_, _, _) => true
    case Nop => true
    case Tee(cs) => forall i | 0 <= i < |cs| :: LazyFree(cs[i])
    case Filter(c, _) => LazyFree(c)
    case Hooked(c, _) => LazyFree(c)
    case Sampling(c, _) => LazyFree(c)
    case Lazy(_) => false
  }

  // ------------------------------------------------------------ Enabled, With

  predicate Enabled<F>(c: Core<F>, lvl: int)
    requires LazyFree(c)
  {
    match c
    case Io(_, levels, _) => lvl in levels
    case Nop => false
    case Tee(cs) => exists i | 0 <= i < |cs| :: Enabled(cs[i], lvl)
    case Filter(_, levels) => lvl in levels
    case Hooked(c, _) => Enabled(c, lvl)
    case Sampling(c, _) => Enabled(c, lvl)
  }

  function With<F>(c: Core<F>, fs: seq<F>): (r: Core<F>)
    requires LazyFree(c)
    ensures LazyFree(r)
  {
    match c
    case Io(leaf, levels, ctx) => Io(leaf, levels, ctx + fs)
    case Nop => Nop
    case Tee(cs) => Tee(seq(|cs|, i requires 0 <= i < |cs| => With(cs[i], fs)))
    case Filter(c, levels) => Filter(With(c, fs), levels)
    case Hooked(c, h) => Hooked(With(c, fs), h)
    case Sampling(c, s) => Sampling(With(c, fs), s)
  }

  /** Adding context in two steps is adding it in one: the very same tree, with its filters,
      hooks and samplers in place. */
  lemma {:induction false} WithWith<F>(c: Core<F>, a: seq<F>, b: seq<F>)
    requires LazyFree(c)
    ensures With(With(c, a), b) == With(c, a + b)
    decreases c
  {
    match c
    case Io(_, _, ctx) => assert ctx + a + b == ctx + (a + b);
    case Nop =>
    case Tee(cs) =>
      forall i | 0 <= i < |cs| ensures With(With(cs[i], a), b) == With(cs[i], a + b) {
        WithWith(cs[i], a, b);
      }
      assert With(With(c, a), b).cores == With(c, a + b).cores;
    case Filter(c, _) => WithWith(c, a, b);
    case Hooked(c, _) => WithWith(c, a, b);
    case Sampling(c, _) => WithWith(c, a, b);
  }

  lemma {:induction false} WithKeepsEnabled<F>(c: Core<F>, fs: seq<F>, lvl: int)
    requires LazyFree(c)
    ensures Enabled(With(c, fs), lvl) <==> Enabled(c, lvl)
    decreases c
  {
    match c
    case Tee(cs) =>
      forall i | 0 <= i < |cs| ensures Enabled(With(cs[i], fs), lvl) <==> Enabled(cs[i], lvl) {
        WithKeepsEnabled(cs[i], fs, lvl);
      }
      var ws := With(c, fs).cores;
      assert forall i | 0 <= i < |cs| :: ws[i] == With(cs[i], fs);
    case Hooked(c, _) => WithKeepsEnabled(c, fs, lvl);
    case Sampling(c, _) => WithKeepsEnabled(c, fs, lvl);
    case _ =>
  }

  // -------------------------------------------------------------------- Check

  /** How each sampler decides, given the entries it has counted, the newest last. */
  type Decide = (nat, seq<Entry>) -> bool

  /** The entries each sampler's counters have seen. */
  type Counts = map<nat, seq<Entry>>

  function Counted(counts: Counts, s: nat): seq<Entry> {
    if s in counts then counts[s] else []
  }

  function Check<F>(c: Core<F>, ent: Entry, ce: Checked<F>, counts: Counts, decide: Decide): (r: (Checked<F>, Counts))
    requires LazyFree(c)
    decreases c, 0
  {
    match c
    case Io(leaf, levels, ctx) => (if ent.level in levels then AddCore(ce, Leaf(leaf, ctx)) else ce, counts)
    case Nop => (ce, counts)
    case Tee(cs) => CheckAll(cs, ent, ce, counts, decide)
    case Filter(c, levels) => if ent.level in levels then Check(c, ent, ce, counts, decide) else (ce, counts)
    case Hooked(c, h) =>
      var r := Check(c, ent, ce, counts, decide);
      if r.0.Some? then (AddCore(r.0, Hook(h)), r.1) else (ce, r.1)
    case Sampling(c, s) =>
      if !Enabled(c, ent.level) then (ce, counts)
      else if MIN_LEVEL <= ent.level <= MAX_LEVEL then
        var counts' := counts[s := Counted(counts, s) + [ent]];
        if decide(s, counts'[s]) then Check(c, ent, ce, counts', decide) else (ce, counts')
      else Check(c, ent, ce, counts, decide)
  }

  /** `multiCore.Check`: the cores in order, each continuing the checked entry. */
  function CheckAll<F>(cs: seq<Core<F>>, ent: Entry, ce: Checked<F>, counts: Counts, decide: Decide): (Checked<F>, Counts)
    requires forall i | 0 <= i < |cs| :: LazyFree(cs[i])
    decreases cs, 0
  {
    if cs == [] then (ce, counts)
    else
      var r := CheckAll(cs[..|cs| - 1], ent, ce, counts, decide);
      Check(cs[|cs| - 1], ent, r.0, r.1, decide)
  }

  /** A registration as a core with more context would have made it. */
  function WithContext<F>(r: Registered<F>, fs: seq<F>): Registered<F> {
    match r
    case Leaf(leaf, ctx) => Leaf(leaf, ctx + fs)
    case Hook(_) => r
  }

  function AllWithContext<F>(ce: Checked<F>, fs: seq<F>): Checked<F> {
    match ce
    case None => None
    case Some(rs) => Some(seq(|rs|, i requires 0 <= i < |rs| => WithContext(rs[i], fs)))
  }

  lemma AddCoreWithContext<F>(ce: Checked<F>, r: Registered<F>, fs: seq<F>)
    ensures AllWithContext(AddCore(ce, r), fs) == AddCore(AllWithContext(ce, fs), WithContext(r, fs))
  {
    assert AllWithContext(AddCore(ce, r), fs).value == AddCore(AllWithContext(ce, fs), WithContext(r, fs)).value;
  }

  /** Adding context changes what leaves deliver and nothing else: the same leaves and hooks
      register in the same order, and the samplers count and decide the same. */
  lemma {:induction false} WithOnlyExtendsContext<F>(c: Core<F>, fs: seq<F>, ent: Entry, ce: Checked<F>, counts: Counts, decide: Decide)
    requires LazyFree(c)
    ensures var r := Check(c, ent, ce, counts, decide);
            Check(With(c, fs), ent, AllWithContext(ce, fs), counts, decide) == (AllWithContext(r.0, fs), r.1)
    decreases c, 0
  {
    hide AddCore, AllWithContext;
    match c
    case Io(leaf, _, ctx) => AddCoreWithContext(ce, Leaf(leaf, ctx), fs);
    case Nop =>
    case Tee(cs) =>
      var ws := With(c, fs).cores;
      AllOnlyExtend(cs, ws, fs, ent, ce, counts, decide);
    case Filter(d, _) => WithOnlyExtendsContext(d, fs, ent, ce, counts, decide);
    case Hooked(d, h) =>
      WithOnlyExtendsContext(d, fs, ent, ce, counts, decide);
      var r := Check(d, ent, ce, counts, decide).0;
      AddCoreWithContext(r, Hook(h), fs);
      SameNil(r, fs);
    case Sampling(d, s) =>
      WithKeepsEnabled(d, fs, ent.level);
      WithOnlyExtendsContext(d, fs, ent, ce, counts, decide);
      WithOnlyExtendsContext(d, fs, ent, ce, counts[s := Counted(counts, s) + [ent]], decide);
  }

  lemma SameNil<F>(ce: Checked<F>, fs: seq<F>)
    ensures AllWithContext(ce, fs).Some? <==> ce.Some?
  {
  }

  lemma {:induction false} AllOnlyExtend<F>(cs: seq<Core<F>>, ws: seq<Core<F>>, fs: seq<F>, ent: Entry, ce: Checked<F>,
                                            counts: Counts, decide: Decide)
    requires |ws| == |cs| && forall i | 0 <= i < |cs| :: LazyFree(cs[i]) && LazyFree(ws[i]) && ws[i] == With(cs[i], fs)
    ensures var r := CheckAll(cs, ent, ce, counts, decide);
            CheckAll(ws, ent, AllWithContext(ce, fs), counts, decide) == (AllWithContext(r.0, fs), r.1)
    decreases cs, 0
  {
    hide AllWithContext, LazyFree;
    if cs != [] {
      var n := |cs| - 1;
      var r := CheckAll(cs[..n], ent, ce, counts, decide);
      AllOnlyExtend(cs[..n], ws[..n], fs, ent, ce, counts, decide);
      WithOnlyExtendsContext(cs[n], fs, ent, r.0, r.1, decide);
    }
  }

  // ------------------------------------------- an independent account of it

  /** What stands between the root and a leaf: a level set, or a sampler. */
  datatype Gate = ByLevel(levels: Levels) | BySampler(sampler: nat)

  /** What each sampler would say if it counted this entry next. */
  type Verdict = nat -> bool

  function Verdicts(ent: Entry, counts: Counts, decide: Decide): Verdict {
    (s: nat) => decide(s, Counted(counts, s) + [ent])
  }

  /** Samplers have a say in the known levels only. */
  predicate Passable(g: Gate, ent: Entry, verdict: Verdict) {
    match g
    case ByLevel(levels) => ent.level in levels
    case BySampler(s) => MIN_LEVEL <= ent.level <= MAX_LEVEL ==> verdict(s)
  }

  predicate AllOpen(gates: seq<Gate>, ent: Entry, verdict: Verdict) {
    forall i | 0 <= i < |gates| :: Passable(gates[i], ent, verdict)
  }

  /** A leaf occurrence together with every gate on its path from the root. */
  datatype Occurrence<F> = Occurrence(leaf: nat, ctx: seq<F>, gates: seq<Gate>)

  /** All leaf occurrences from left to right, below the given gates. */
  function Occurrences<F>(c: Core<F>, gates: seq<Gate>): seq<Occurrence<F>>
    decreases c, 0
  {
    match c
    case Io(leaf, levels, ctx) => [Occurrence(leaf, ctx, gates + [ByLevel(levels)])]
    case Nop => []
    case Tee(cs) => AllOccurrences(cs, gates)
    case Filter(c, levels) => Occurrences(c, gates + [ByLevel(levels)])
    case Hooked(c, _) => Occurrences(c, gates)
    case Sampling(c, s) => Occurrences(c, gates + [BySampler(s)])
    case Lazy(_) => []
  }

  function AllOccurrences<F>(cs: seq<Core<F>>, gates: seq<Gate>): seq<Occurrence<F>>
    decreases cs, 0
  {
    if cs == [] then [] else AllOccurrences(cs[..|cs| - 1], gates) + Occurrences(cs[|cs| - 1], gates)
  }

  /** The occurrences whose gates are all open, in order. */
  function Accepting<F>(os: seq<Occurrence<F>>, ent: Entry, verdict: Verdict): seq<Registered<F>> {
    if os == [] then []
    else Accepting(os[..|os| - 1], ent, verdict)
         + if AllOpen(os[|os| - 1].gates, ent, verdict) then [Leaf(os[|os| - 1].leaf, os[|os| - 1].ctx)] else []
  }

  lemma {:induction false} AcceptingConcat<F>(a: seq<Occurrence<F>>, b: seq<Occurrence<F>>, ent: Entry, verdict: Verdict)
    ensures Accepting(a + b, ent, verdict) == Accepting(a, ent, verdict) + Accepting(b, ent, verdict)
    decreases |b|
  {
    hide AllOpen;
    if b == [] {
      assert a + b == a;
    } else {
      var n := |b| - 1;
      AcceptingConcat(a, b[..n], ent, verdict);
      assert (a + b)[..|a + b| - 1] == a + b[..n];
    }
  }

  lemma OneMoreGate(gates: seq<Gate>, g: Gate, ent: Entry, verdict: Verdict)
    ensures AllOpen(gates + [g], ent, verdict) <==> AllOpen(gates, ent, verdict) && Passable(g, ent, verdict)
  {
    hide Passable;
    var all := gates + [g];
    assert all[|gates|] == g && forall i | 0 <= i < |gates| :: all[i] == gates[i];
  }

  /** A closed gate on the way closes every occurrence below it. */
  lemma {:induction false} NothingBelowClosed<F>(c: Core<F>, gates: seq<Gate>, ent: Entry, verdict: Verdict)
    requires !AllOpen(gates, ent, verdict)
    ensures Accepting(Occurrences(c, gates), ent, verdict) == []
    decreases c, 0
  {
    hide AllOpen, Passable, Accepting;
    match c
    case Io(leaf, levels, ctx) =>
      OneMoreGate(gates, ByLevel(levels), ent, verdict);
      OneAccepting(Occurrence(leaf, ctx, gates + [ByLevel(levels)]), ent, verdict);
    case Tee(cs) => NothingInAny(cs, gates, ent, verdict);
    case Filter(c, levels) =>
      OneMoreGate(gates, ByLevel(levels), ent, verdict);
      NothingBelowClosed(c, gates + [ByLevel(levels)], ent, verdict);
    case Hooked(c, _) => NothingBelowClosed(c, gates, ent, verdict);
    case Sampling(c, s) =>
      OneMoreGate(gates, BySampler(s), ent, verdict);
      NothingBelowClosed(c, gates + [BySampler(s)], ent, verdict);
    case _ => NoneAccepting<F>(ent, verdict);
  }

  lemma {:induction false} NothingInAny<F>(cs: seq<Core<F>>, gates: seq<Gate>, ent: Entry, verdict: Verdict)
    requires !AllOpen(gates, ent, verdict)
    ensures Accepting(AllOccurrences(cs, gates), ent, verdict) == []
    decreases cs, 0
  {
    hide Accepting, AllOpen;
    if cs == [] {
      NoneAccepting<F>(ent, verdict);
    } else {
      var n := |cs| - 1;
      NothingInAny(cs[..n], gates, ent, verdict);
      NothingBelowClosed(cs[n], gates, ent, verdict);
      AcceptingConcat(AllOccurrences(cs[..n], gates), Occurrences(cs[n], gates), ent, verdict);
    }
  }

  lemma OneAccepting<F>(o: Occurrence<F>, ent: Entry, verdict: Verdict)
    ensures Accepting([o], ent, verdict) == if AllOpen(o.gates, ent, verdict) then [Leaf(o.leaf, o.ctx)] else []
  {
    hide AllOpen;
    assert [o][..0] == [];
    assert Accepting([o][..0], ent, verdict) == [];
  }

  lemma NoneAccepting<F>(ent: Entry, verdict: Verdict)
    ensures Accepting<F>([], ent, verdict) == []
  {
  }

  // ------------------------------------------------- what a plain tree registers

  predicate HookFree<F>(c: Core<F>) {
    match c
    case Tee(cs) => forall i | 0 <= i < |cs| :: HookFree(cs[i])
    case Filter(c, _) => HookFree(c)
    case Hooked(_, _) => false
    case Sampling(_, _) => false
    case _ => true
  }

  function Extend<F>(ce: Checked<F>, rs: seq<Registered<F>>): Checked<F> {
    if rs == [] then ce
    else match ce case None => Some(rs) case Some(before) => Some(before + rs)
  }

  lemma ExtendTwice<F>(ce: Checked<F>, a: seq<Registered<F>>, b: seq<Registered<F>>)
    ensures Extend(Extend(ce, a), b) == Extend(ce, a + b)
  {
    if b == [] {
      assert a + b == a;
    } else if a == [] {
      assert a + b == b;
    } else if ce.Some? {
      assert ce.value + a + b == ce.value + (a + b);
    }
  }

  /** For a tree of leaves, no-ops, tees and filters, checking registers, in order and exactly
      once each, the leaf occurrences whose own level and filtering ancestors are all enabled. */
  lemma {:induction false} CheckRegistersOpenLeaves<F>(c: Core<F>, gates: seq<Gate>, ent: Entry, ce: Checked<F>,
                                                       counts: Counts, decide: Decide, verdict: Verdict)
    requires LazyFree(c) && HookFree(c) && AllOpen(gates, ent, verdict)
    ensures Check(c, ent, ce, counts, decide) == (Extend(ce, Accepting(Occurrences(c, gates), ent, verdict)), counts)
    decreases c, 0
  {
    hide AllOpen;
    match c
    case Io(leaf, levels, ctx) =>
      OneMoreGate(gates, ByLevel(levels), ent, verdict);
      OneAccepting(Occurrence(leaf, ctx, gates + [ByLevel(levels)]), ent, verdict);
    case Nop =>
    case Tee(cs) => CheckAllRegisters(cs, gates, ent, ce, counts, decide, verdict);
    case Filter(c, levels) =>
      OneMoreGate(gates, ByLevel(levels), ent, verdict);
      if ent.level in levels {
        CheckRegistersOpenLeaves(c, gates + [ByLevel(levels)], ent, ce, counts, decide, verdict);
      } else {
        NothingBelowClosed(c, gates + [ByLevel(levels)], ent, verdict);
      }
  }

  lemma {:induction false} CheckAllRegisters<F>(cs: seq<Core<F>>, gates: seq<Gate>, ent: Entry, ce: Checked<F>,
                                                counts: Counts, decide: Decide, verdict: Verdict)
    requires forall i | 0 <= i < |cs| :: LazyFree(cs[i]) && HookFree(cs[i])
    requires AllOpen(gates, ent, verdict)
    ensures CheckAll(cs, ent, ce, counts, decide) == (Extend(ce, Accepting(AllOccurrences(cs, gates), ent, verdict)), counts)
    decreases cs, 0
  {
    hide Accepting, Extend, AllOpen;
    if cs == [] {
      NoneAccepting<F>(ent, verdict);
      assert Extend(ce, []) == ce by { ExtendNothing(ce); }
    } else {
      var n := |cs| - 1;
      var a, b := AllOccurrences(cs[..n], gates), Occurrences(cs[n], gates);
      CheckAllRegisters(cs[..n], gates, ent, ce, counts, decide, verdict);
      CheckRegistersOpenLeaves(cs[n], gates, ent, Extend(ce, Accepting(a, ent, verdict)), counts, decide, verdict);
      AcceptingConcat(a, b, ent, verdict);
      ExtendTwice(ce, Accepting(a, ent, verdict), Accepting(b, ent, verdict));
    }
  }

  lemma ExtendNothing<F>(ce: Checked<F>)
    ensures Extend(ce, []) == ce
  {
  }

  // ------------------------------------------------------ hooks and samplers

  /** Sampler `s` occurs nowhere in the tree. */
  predicate Without<F>(c: Core<F>, s: nat) {
    match c
    case Tee(cs) => forall i | 0 <= i < |cs| :: Without(cs[i], s)
    case Filter(d, _) => Without(d, s)
    case Hooked(d, _) => Without(d, s)
    case Sampling(d, r) => r != s && Without(d, s)
    case _ => true
  }

  /** No two sampling cores of the tree share their counters. */
  ghost predicate DistinctSamplers<F>(c: Core<F>) {
    match c
    case Tee(cs) =>
      && (forall i | 0 <= i < |cs| :: DistinctSamplers(cs[i]))
      && forall i, j, s: nat | 0 <= i < j < |cs| :: Without(cs[i], s) || Without(cs[j], s)
    case Filter(d, _) => DistinctSamplers(d)
    case Hooked(d, _) => DistinctSamplers(d)
    case Sampling(d, s) => Without(d, s) && DistinctSamplers(d)
    case _ => true
  }

  /** Checking a tree leaves the counters of other samplers alone. */
  lemma {:induction false} OtherCountsKept<F>(c: Core<F>, s: nat, ent: Entry, ce: Checked<F>, counts: Counts, decide: Decide)
    requires LazyFree(c) && Without(c, s)
    ensures Counted(Check(c, ent, ce, counts, decide).1, s) == Counted(counts, s)
    decreases c, 0
  {
    match c
    case Tee(cs) => OtherCountsKeptAll(cs, s, ent, ce, counts, decide);
    case Filter(d, _) => OtherCountsKept(d, s, ent, ce, counts, decide);
    case Hooked(d, _) => OtherCountsKept(d, s, ent, ce, counts, decide);
    case Sampling(d, r) =>
      OtherCountsKept(d, s, ent, ce, counts, decide);
      OtherCountsKept(d, s, ent, ce, counts[r := Counted(counts, r) + [ent]], decide);
    case _ =>
  }

  lemma {:induction false} OtherCountsKeptAll<F>(cs: seq<Core<F>>, s: nat, ent: Entry, ce: Checked<F>, counts: Counts, decide: Decide)
    requires forall i | 0 <= i < |cs| :: LazyFree(cs[i]) && Without(cs[i], s)
    ensures Counted(CheckAll(cs, ent, ce, counts, decide).1, s) == Counted(counts, s)
    decreases cs, 0
  {
    hide LazyFree, Without, Counted;
    if cs != [] {
      var n := |cs| - 1;
      var r := CheckAll(cs[..n], ent, ce, counts, decide);
      OtherCountsKeptAll(cs[..n], s, ent, ce, counts, decide);
      OtherCountsKept(cs[n], s, ent, r.0, r.1, decide);
    }
  }

  /** The leaves among the registrations. */
  function LeavesOf<F>(rs: seq<Registered<F>>): seq<Registered<F>> {
    if rs == [] then []
    else LeavesOf(rs[..|rs| - 1]) + if rs[|rs| - 1].Leaf? then [rs[|rs| - 1]] else []
  }

  function CheckedLeaves<F>(ce: Checked<F>): seq<Registered<F>> {
    match ce case None => [] case Some(rs) => LeavesOf(rs)
  }

  lemma LeavesOfAppend<F>(rs: seq<Registered<F>>, r: Registered<F>)
    ensures LeavesOf(rs + [r]) == LeavesOf(rs) + if r.Leaf? then [r] else []
  {
    assert (rs + [r])[..|rs|] == rs;
  }

  lemma LeavesOfAddCore<F>(ce: Checked<F>, r: Registered<F>)
    ensures CheckedLeaves(AddCore(ce, r)) == CheckedLeaves(ce) + if r.Leaf? then [r] else []
  {
    match ce
    case None =>
      LeavesOfAppend([], r);
      assert [] + [r] == [r];
    case Some(rs) => LeavesOfAppend(rs, r);
  }

  /** A tree that does not enable a level has no leaf open for it. */
  lemma {:induction false} DisabledIsClosed<F>(c: Core<F>, gates: seq<Gate>, ent: Entry, verdict: Verdict)
    requires LazyFree(c) && !Enabled(c, ent.level)
    ensures Accepting(Occurrences(c, gates), ent, verdict) == []
    decreases c, 0
  {
    hide AllOpen, Accepting;
    match c
    case Io(leaf, levels, ctx) =>
      OneMoreGate(gates, ByLevel(levels), ent, verdict);
      OneAccepting(Occurrence(leaf, ctx, gates + [ByLevel(levels)]), ent, verdict);
    case Nop => NoneAccepting<F>(ent, verdict);
    case Tee(cs) => DisabledIsClosedAll(cs, gates, ent, verdict);
    case Filter(d, levels) =>
      OneMoreGate(gates, ByLevel(levels), ent, verdict);
      NothingBelowClosed(d, gates + [ByLevel(levels)], ent, verdict);
    case Hooked(d, _) => DisabledIsClosed(d, gates, ent, verdict);
    case Sampling(d, s) => DisabledIsClosed(d, gates + [BySampler(s)], ent, verdict);
  }

  lemma {:induction false} DisabledIsClosedAll<F>(cs: seq<Core<F>>, gates: seq<Gate>, ent: Entry, verdict: Verdict)
    requires forall i | 0 <= i < |cs| :: LazyFree(cs[i]) && !Enabled(cs[i], ent.level)
    ensures Accepting(AllOccurrences(cs, gates), ent, verdict) == []
    decreases cs, 0
  {
    hide Accepting, LazyFree, Enabled;
    if cs == [] {
      NoneAccepting<F>(ent, verdict);
    } else {
      var n := |cs| - 1;
      DisabledIsClosedAll(cs[..n], gates, ent, verdict);
      DisabledIsClosed(cs[n], gates, ent, verdict);
      AcceptingConcat(AllOccurrences(cs[..n], gates), Occurrences(cs[n], gates), ent, verdict);
    }
  }

  /** The tree's own samplers have counted the same in both. */
  ghost predicate SameCounts<F>(c: Core<F>, counts: Counts, counts0: Counts) {
    forall s: nat :: !Without(c, s) ==> Counted(counts, s) == Counted(counts0, s)
  }

  /** The full account, for every tree of leaves, tees, filters, hooks and samplers with counters
      of their own: checking registers exactly the leaves whose level sets all enable the level
      and whose samplers all say yes, from left to right, each once. Hooks make no difference. */
  lemma {:induction false} CheckRegistersLeaves<F>(c: Core<F>, gates: seq<Gate>, ent: Entry, ce: Checked<F>,
                                                   counts: Counts, decide: Decide, counts0: Counts)
    requires LazyFree(c) && DistinctSamplers(c) && SameCounts(c, counts, counts0)
    requires AllOpen(gates, ent, Verdicts(ent, counts0, decide))
    ensures CheckedLeaves(Check(c, ent, ce, counts, decide).0)
         == CheckedLeaves(ce) + Accepting(Occurrences(c, gates), ent, Verdicts(ent, counts0, decide))
    decreases c, 0
  {
    hide CheckedLeaves, AddCore, AllOpen, Verdicts, Accepting, SameCounts, Without;
    var verdict := Verdicts(ent, counts0, decide);
    match c
    case Io(leaf, levels, ctx) =>
      OneMoreGate(gates, ByLevel(levels), ent, verdict);
      OneAccepting(Occurrence(leaf, ctx, gates + [ByLevel(levels)]), ent, verdict);
      LeavesOfAddCore(ce, Leaf(leaf, ctx));
    case Nop => NoneAccepting<F>(ent, verdict);
    case Tee(cs) =>
      SameCountsBelow(c, counts, counts0);
      CheckRegistersAnyLeaves(cs, gates, ent, ce, counts, decide, counts0);
    case Filter(d, levels) =>
      OneMoreGate(gates, ByLevel(levels), ent, verdict);
      SameCountsBelow(c, counts, counts0);
      if ent.level in levels {
        CheckRegistersLeaves(d, gates + [ByLevel(levels)], ent, ce, counts, decide, counts0);
      } else {
        NothingBelowClosed(d, gates + [ByLevel(levels)], ent, verdict);
      }
    case Hooked(d, h) =>
      SameCountsBelow(c, counts, counts0);
      CheckRegistersLeaves(d, gates, ent, ce, counts, decide, counts0);
      var r := Check(d, ent, ce, counts, decide).0;
      LeavesOfAddCore(r, Hook(h));
      if r.None? {
        StillNil(d, ent, ce, counts, decide);
      }
    case Sampling(d, s) => SamplingRegistersLeaves(d, s, gates, ent, ce, counts, decide, counts0);
  }

  lemma SameCountsBelow<F>(c: Core<F>, counts: Counts, counts0: Counts)
    requires SameCounts(c, counts, counts0)
    ensures match c
            case Tee(cs) => forall i | 0 <= i < |cs| :: SameCounts(cs[i], counts, counts0)
            case Filter(d, _) => SameCounts(d, counts, counts0)
            case Hooked(d, _) => SameCounts(d, counts, counts0)
            case _ => true
  {
    hide Counted;
    match c
    case Tee(cs) =>
      forall i | 0 <= i < |cs| ensures SameCounts(cs[i], counts, counts0) {
        forall s: nat | !Without(cs[i], s) ensures Counted(counts, s) == Counted(counts0, s) {
          assert !Without(c, s);
        }
      }
    case Filter(d, _) =>
      forall s: nat | !Without(d, s) ensures Counted(counts, s) == Counted(counts0, s) {
        assert !Without(c, s);
      }
    case Hooked(d, _) =>
      forall s: nat | !Without(d, s) ensures Counted(counts, s) == Counted(counts0, s) {
        assert !Without(c, s);
      }
    case _ =>
  }

  /** Counting in sampler `s` itself changes nothing for the samplers below it. */
  lemma SameCountsInside<F>(d: Core<F>, s: nat, counts: Counts, counts0: Counts, es: seq<Entry>)
    requires SameCounts(Sampling(d, s), counts, counts0) && Without(d, s)
    ensures Counted(counts, s) == Counted(counts0, s)
    ensures SameCounts(d, counts, counts0) && SameCounts(d, counts[s := es], counts0)
  {
    assert !Without(Sampling(d, s), s);
    forall r: nat | !Without(d, r)
      ensures Counted(counts, r) == Counted(counts0, r) && Counted(counts[s := es], r) == Counted(counts0, r)
    {
      assert !Without(Sampling(d, s), r);
    }
  }

  lemma {:induction false} SamplingRegistersLeaves<F>(d: Core<F>, s: nat, gates: seq<Gate>, ent: Entry, ce: Checked<F>,
                                                      counts: Counts, decide: Decide, counts0: Counts)
    requires LazyFree(d) && Without(d, s) && DistinctSamplers(d) && SameCounts(Sampling(d, s), counts, counts0)
    requires AllOpen(gates, ent, Verdicts(ent, counts0, decide))
    ensures CheckedLeaves(Check(Sampling(d, s), ent, ce, counts, decide).0)
         == CheckedLeaves(ce) + Accepting(Occurrences(d, gates + [BySampler(s)]), ent, Verdicts(ent, counts0, decide))
    decreases d, 1
  {
    hide CheckedLeaves, AllOpen, Accepting, SameCounts, Without, Occurrences;
    var verdict := Verdicts(ent, counts0, decide);
    var es := Counted(counts, s) + [ent];
    var below := gates + [BySampler(s)];
    SameCountsInside(d, s, counts, counts0, es);
    OneMoreGate(gates, BySampler(s), ent, verdict);
    assert verdict(s) == decide(s, es);
    if !Enabled(d, ent.level) {
      DisabledIsClosed(d, below, ent, verdict);
    } else if MIN_LEVEL <= ent.level <= MAX_LEVEL {
      if decide(s, es) {
        CheckRegistersLeaves(d, below, ent, ce, counts[s := es], decide, counts0);
      } else {
        NothingBelowClosed(d, below, ent, verdict);
      }
    } else {
      CheckRegistersLeaves(d, below, ent, ce, counts, decide, counts0);
    }
  }

  lemma {:induction false} CheckRegistersAnyLeaves<F>(cs: seq<Core<F>>, gates: seq<Gate>, ent: Entry, ce: Checked<F>,
                                                      counts: Counts, decide: Decide, counts0: Counts)
    requires forall i | 0 <= i < |cs| :: LazyFree(cs[i]) && DistinctSamplers(cs[i]) && SameCounts(cs[i], counts, counts0)
    requires forall i, j, s: nat | 0 <= i < j < |cs| :: Without(cs[i], s) || Without(cs[j], s)
    requires AllOpen(gates, ent, Verdicts(ent, counts0, decide))
    ensures CheckedLeaves(CheckAll(cs, ent, ce, counts, decide).0)
         == CheckedLeaves(ce) + Accepting(AllOccurrences(cs, gates), ent, Verdicts(ent, counts0, decide))
    decreases cs, 0
  {
    hide CheckedLeaves, Accepting, AllOpen, LazyFree, DistinctSamplers, Without, Verdicts;
    var verdict := Verdicts(ent, counts0, decide);
    if cs == [] {
      NoneAccepting<F>(ent, verdict);
    } else {
      var n := |cs| - 1;
      var r := CheckAll(cs[..n], ent, ce, counts, decide);
      CheckRegistersAnyLeaves(cs[..n], gates, ent, ce, counts, decide, counts0);
      forall s: nat | !Without(cs[n], s) ensures Counted(r.1, s) == Counted(counts0, s) {
        assert forall i | 0 <= i < n :: Without(cs[i], s);
        OtherCountsKeptAll(cs[..n], s, ent, ce, counts, decide);
      }
      CheckRegistersLeaves(cs[n], gates, ent, r.0, r.1, decide, counts0);
      AcceptingConcat(AllOccurrences(cs[..n], gates), Occurrences(cs[n], gates), ent, verdict);
    }
  }

  /** A single leaf, and a single filter: each goes by its own level set and nothing else. */
  lemma OwnLevels<F>(leaf: nat, ctx: seq<F>, d: Core<F>, levels: Levels, ent: Entry, counts: Counts, decide: Decide)
    requires LazyFree(d)
    ensures Enabled(Io(leaf, levels, ctx), ent.level) <==> ent.level in levels
    ensures ent.level in levels ==> Check(Io(leaf, levels, ctx), ent, None, counts, decide).0 == Some([Leaf(leaf, ctx)])
    ensures ent.level !in levels ==> Check(Io(leaf, levels, ctx), ent, None, counts, decide).0.None?
    ensures ent.level in levels ==> Check(Filter(d, levels), ent, None, counts, decide) == Check(d, ent, None, counts, decide)
    ensures ent.level !in levels ==> Check(Filter(d, levels), ent, None, counts, decide) == (None, counts)
  {
  }

  /** A sampler in both directions: entries of an enabled level that its counters decide for, or
      of an unknown level, reach exactly the leaves the core under it opens; all others none. */
  lemma SamplerPassesOn<F>(d: Core<F>, s: nat, ent: Entry, ce: Checked<F>, counts: Counts, decide: Decide)
    requires LazyFree(d) && DistinctSamplers(d) && Without(d, s)
    ensures var counted := -1 <= ent.level <= 5;
            var r := Check(Sampling(d, s), ent, ce, counts, decide).0;
            && (counted ==> decide(s, Counted(counts, s) + [ent]) ==>
                  CheckedLeaves(r) == CheckedLeaves(ce) + Accepting(Occurrences(d, []), ent, Verdicts(ent, counts, decide)))
            && (!counted ==>
                  CheckedLeaves(r) == CheckedLeaves(ce) + Accepting(Occurrences(d, []), ent, Verdicts(ent, counts, decide)))
            && (counted && !decide(s, Counted(counts, s) + [ent]) ==> r == ce)
  {
    hide CheckedLeaves, Accepting, SameCounts, Without, Occurrences, AllOpen;
    var es := Counted(counts, s) + [ent];
    assert SameCounts(Sampling(d, s), counts, counts) by { CountsAgree(Sampling(d, s), counts); }
    SameCountsInside(d, s, counts, counts, es);
    assert AllOpen([], ent, Verdicts(ent, counts, decide)) by { NoGates(ent, Verdicts(ent, counts, decide)); }
    CheckRegistersLeaves(d, [], ent, ce, counts, decide, counts);
    CheckRegistersLeaves(d, [], ent, ce, counts[s := es], decide, counts);
    if !Enabled(d, ent.level) {
      DisabledIsClosed(d, [], ent, Verdicts(ent, counts, decide));
    }
  }

  lemma CountsAgree<F>(c: Core<F>, counts: Counts)
    ensures SameCounts(c, counts, counts)
  {
  }

  lemma NoGates(ent: Entry, verdict: Verdict)
    ensures AllOpen([], ent, verdict)
  {
  }

  /** Checking never turns a checked entry back to nil. */
  lemma {:induction false} StillNil<F>(c: Core<F>, ent: Entry, ce: Checked<F>, counts: Counts, decide: Decide)
    requires LazyFree(c)
    ensures Check(c, ent, ce, counts, decide).0.None? ==> ce.None?
    decreases c, 0
  {
    match c
    case Tee(cs) => StillNilAll(cs, ent, ce, counts, decide);
    case Filter(c, levels) => StillNil(c, ent, ce, counts, decide);
    case Hooked(c, _) => StillNil(c, ent, ce, counts, decide);
    case Sampling(c, s) =>
      StillNil(c, ent, ce, counts, decide);
      StillNil(c, ent, ce, counts[s := Counted(counts, s) + [ent]], decide);
    case _ =>
  }

  lemma {:induction false} StillNilAll<F>(cs: seq<Core<F>>, ent: Entry, ce: Checked<F>, counts: Counts, decide: Decide)
    requires forall i | 0 <= i < |cs| :: LazyFree(cs[i])
    ensures CheckAll(cs, ent, ce, counts, decide).0.None? ==> ce.None?
    decreases cs, 0
  {
    hide LazyFree;
    if cs != [] {
      var n := |cs| - 1;
      var r := CheckAll(cs[..n], ent, ce, counts, decide);
      StillNilAll(cs[..n], ent, ce, counts, decide);
      StillNil(cs[n], ent, r.0, r.1, decide);
    }
  }

  /** A non-nil result from nil means some leaf registered: hooks never start an entry. */
  lemma {:induction false} HooksNeverStart<F>(c: Core<F>, ent: Entry, ce: Checked<F>, counts: Counts, decide: Decide)
    requires LazyFree(c) && (ce.None? || CheckedLeaves(ce) != [])
    ensures var r := Check(c, ent, ce, counts, decide).0; r.None? || CheckedLeaves(r) != []
    decreases c, 0
  {
    hide CheckedLeaves, AddCore;
    match c
    case Io(leaf, _, ctx) => LeavesOfAddCore(ce, Leaf(leaf, ctx));
    case Tee(cs) => HooksNeverStartAny(cs, ent, ce, counts, decide);
    case Filter(c, levels) => HooksNeverStart(c, ent, ce, counts, decide);
    case Hooked(c, h) =>
      HooksNeverStart(c, ent, ce, counts, decide);
      LeavesOfAddCore(Check(c, ent, ce, counts, decide).0, Hook(h));
    case Sampling(c, s) =>
      HooksNeverStart(c, ent, ce, counts, decide);
      HooksNeverStart(c, ent, ce, counts[s := Counted(counts, s) + [ent]], decide);
    case _ =>
  }

  lemma {:induction false} HooksNeverStartAny<F>(cs: seq<Core<F>>, ent: Entry, ce: Checked<F>, counts: Counts, decide: Decide)
    requires forall i | 0 <= i < |cs| :: LazyFree(cs[i])
    requires ce.None? || CheckedLeaves(ce) != []
    ensures var r := CheckAll(cs, ent, ce, counts, decide).0; r.None? || CheckedLeaves(r) != []
    decreases cs, 0
  {
    hide LazyFree, CheckedLeaves;
    if cs != [] {
      var n := |cs| - 1;
      var r := CheckAll(cs[..n], ent, ce, counts, decide);
      HooksNeverStartAny(cs[..n], ent, ce, counts, decide);
      HooksNeverStart(cs[n], ent, r.0, r.1, decide);
    }
  }

  /** A hook around the root runs, last, exactly when some leaf accepted the entry. */
  lemma RootHookRunsIffAccepted<F>(c: Core<F>, h: nat, ent: Entry, counts: Counts, decide: Decide)
    requires LazyFree(c) && DistinctSamplers(c)
    ensures var r := Check(Hooked(c, h), ent, None, counts, decide).0;
            var accepted := Accepting(Occurrences(c, []), ent, Verdicts(ent, counts, decide));
            && (accepted == [] ==> r.None?)
            && (accepted != [] ==> r.Some? && r.value != [] && r.value[|r.value| - 1] == Hook(h))
            && CheckedLeaves(r) == accepted
  {
    hide Accepting, Without;
    HooksNeverStart(c, ent, None, counts, decide);
    CheckRegistersLeaves(c, [], ent, None, counts, decide, counts);
    CheckRegistersLeaves(Hooked(c, h), [], ent, None, counts, decide, counts);
  }

  // -------------------------------------------------------------- levels

  /** Every filter only enables levels that the core under it does, as the constructor of
      filters makes sure. */
  predicate WellFiltered<F>(c: Core<F>)
    requires LazyFree(c)
  {
    match c
    case Tee(cs) => forall i | 0 <= i < |cs| :: WellFiltered(cs[i])
    case Filter(d, levels) =>
      WellFiltered(d) && forall l | MIN_LEVEL <= l <= MAX_LEVEL && l in levels :: Enabled(d, l)
    case Hooked(d, _) => WellFiltered(d)
    case Sampling(d, _) => WellFiltered(d)
    case _ => true
  }

  /** `Enabled` tells the truth: for every well-filtered tree it says yes to a level exactly when
      some leaf is open for it, samplers permitting. */
  lemma {:induction false} EnabledIsOpen<F>(c: Core<F>, gates: seq<Gate>, ent: Entry)
    requires LazyFree(c) && WellFiltered(c) && MIN_LEVEL <= ent.level <= MAX_LEVEL && AllOpen(gates, ent, _ => true)
    ensures Enabled(c, ent.level) <==> Accepting(Occurrences(c, gates), ent, _ => true) != []
    decreases c, 0
  {
    hide AllOpen, Accepting;
    var yes: Verdict := _ => true;
    if !Enabled(c, ent.level) {
      DisabledIsClosed(c, gates, ent, yes);
    } else {
      match c
      case Io(leaf, levels, ctx) =>
        OneMoreGate(gates, ByLevel(levels), ent, yes);
        OneAccepting(Occurrence(leaf, ctx, gates + [ByLevel(levels)]), ent, yes);
      case Tee(cs) =>
        var i :| 0 <= i < |cs| && Enabled(cs[i], ent.level);
        EnabledIsOpen(cs[i], gates, ent);
        OpenInAny(cs, i, gates, ent, yes);
      case Filter(d, levels) =>
        OneMoreGate(gates, ByLevel(levels), ent, yes);
        EnabledIsOpen(d, gates + [ByLevel(levels)], ent);
      case Hooked(d, _) => EnabledIsOpen(d, gates, ent);
      case Sampling(d, s) =>
        OneMoreGate(gates, BySampler(s), ent, yes);
        EnabledIsOpen(d, gates + [BySampler(s)], ent);
    }
  }

  lemma {:induction false} OpenInAny<F>(cs: seq<Core<F>>, i: nat, gates: seq<Gate>, ent: Entry, verdict: Verdict)
    requires i < |cs| && Accepting(Occurrences(cs[i], gates), ent, verdict) != []
    ensures Accepting(AllOccurrences(cs, gates), ent, verdict) != []
    decreases |cs|
  {
    hide Accepting, Occurrences;
    var n := |cs| - 1;
    AcceptingConcat(AllOccurrences(cs[..n], gates), Occurrences(cs[n], gates), ent, verdict);
    if i < n {
      OpenInAny(cs[..n], i, gates, ent, verdict);
    }
  }

  // -------------------------------------------------------------- early exit

  /** If the tree says a level is disabled, checking registers nothing: the early exit of
      `Logger.check` drops no entry, for any tree. */
  lemma {:induction false} DisabledRegistersNothing<F>(c: Core<F>, ent: Entry, counts: Counts, decide: Decide)
    requires LazyFree(c) && !Enabled(c, ent.level)
    ensures Check(c, ent, None, counts, decide) == (None, counts)
    decreases c, 0
  {
    match c
    case Tee(cs) => DisabledAll(cs, ent, counts, decide);
    case Hooked(c, _) => DisabledRegistersNothing(c, ent, counts, decide);
    case _ =>
  }

  lemma {:induction false} DisabledAll<F>(cs: seq<Core<F>>, ent: Entry, counts: Counts, decide: Decide)
    requires forall i | 0 <= i < |cs| :: LazyFree(cs[i]) && !Enabled(cs[i], ent.level)
    ensures CheckAll(cs, ent, None, counts, decide) == (None, counts)
    decreases cs, 0
  {
    hide LazyFree, Enabled;
    if cs != [] {
      var n := |cs| - 1;
      DisabledAll(cs[..n], ent, counts, decide);
      DisabledRegistersNothing(cs[n], ent, counts, decide);
    }
  }
}
