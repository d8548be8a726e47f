/**
  Samplers in a tree: the quotas proved of a sampling core hold for the entries that a core
  tree, and every tree derived from it by With, lets through.
 */
module TreeSampling {
  import opened Common
  import opened Entries
  import opened Utf8
  import opened CoreTree
  import opened Sampler

  datatype Rate = Rate(tick: int, first: nat, thereafter: nat)

  /** Samplers that decide at the given rates. */
  function DecideAt(rates: nat -> Rate): Decide {
    (s: nat, es: seq<Entry>) => es != [] ==> LastForwarded(es, rates(s).tick, rates(s).first, rates(s).thereafter)
  }

  /** An entry logged through the core with some context added. */
  datatype Logged<F> = Logged(context: seq<F>, ent: Entry)

  /** The samplers' counters after these entries. */
  function CountsAfter<F>(c: Core<F>, ls: seq<Logged<F>>, decide: Decide): Counts
    requires LazyFree(c)
  {
    if ls == [] then map[]
    else
      var l := ls[|ls| - 1];
      Check(With(c, l.context), l.ent, None, CountsAfter(c, ls[..|ls| - 1], decide), decide).1
  }

  /** Does the last of these entries register anywhere? */
  predicate LastAccepted<F>(c: Core<F>, ls: seq<Logged<F>>, decide: Decide)
    requires LazyFree(c) && ls != []
  {
    var l := ls[|ls| - 1];
    Check(With(c, l.context), l.ent, None, CountsAfter(c, ls[..|ls| - 1], decide), decide).0.Some?
  }

  /** How many entries with this level and message, timed within a tick from `a`, register. */
  function AcceptedIn<F>(c: Core<F>, ls: seq<Logged<F>>, decide: Decide, level: int, message: Bytes, a: int, tick: int): nat
    requires LazyFree(c)
  {
    if ls == [] then 0
    else
      var ent := ls[|ls| - 1].ent;
      AcceptedIn(c, ls[..|ls| - 1], decide, level, message, a, tick)
      + if ent.level == level && ent.message == message && a <= ent.time < a + tick && LastAccepted(c, ls, decide) then 1 else 0
  }

  predicate InOrder<F>(ls: seq<Logged<F>>) {
    forall i, j | 0 <= i < j < |ls| :: ls[i].ent.time <= ls[j].ent.time
  }

  /** The entries that reach the counters of a sampler over `d`. */
  function Seen<F>(d: Core<F>, ls: seq<Logged<F>>): seq<Entry>
    requires LazyFree(d)
  {
    if ls == [] then []
    else
      var ent := ls[|ls| - 1].ent;
      Seen(d, ls[..|ls| - 1]) + if Enabled(d, ent.level) && Sampled(ent) then [ent] else []
  }

  /** Context aside, an entry is checked as by the core itself. */
  lemma SameCheck<F>(c: Core<F>, l: Logged<F>, counts: Counts, decide: Decide)
    requires LazyFree(c)
    ensures var r, w := Check(c, l.ent, None, counts, decide), Check(With(c, l.context), l.ent, None, counts, decide);
            r.1 == w.1 && (r.0.Some? <==> w.0.Some?)
  {
    hide Check;
    WithOnlyExtendsContext(c, l.context, l.ent, None, counts, decide);
  }

  lemma {:induction false} SeenIsCounted<F>(d: Core<F>, s: nat, ls: seq<Logged<F>>, decide: Decide)
    requires LazyFree(d) && Without(d, s)
    ensures Counted(CountsAfter(Sampling(d, s), ls, decide), s) == Seen(d, ls)
    decreases |ls|
  {
    if ls != [] {
      hide Enabled, Sampled;
      var n := |ls| - 1;
      var ent, counts := ls[n].ent, CountsAfter(Sampling(d, s), ls[..n], decide);
      SeenIsCounted(d, s, ls[..n], decide);
      SameCheck(Sampling(d, s), ls[n], counts, decide);
      SamplerCounts(d, s, ent, counts, decide);
    }
  }

  /** What a sampler does with one entry. */
  lemma SamplerCounts<F>(d: Core<F>, s: nat, ent: Entry, counts: Counts, decide: Decide)
    requires LazyFree(d) && Without(d, s)
    ensures var r := Check(Sampling(d, s), ent, None, counts, decide);
            var es := Counted(counts, s) + if Enabled(d, ent.level) && Sampled(ent) then [ent] else [];
            && Counted(r.1, s) == es
            && (r.0.Some? ==> Enabled(d, ent.level) && (Sampled(ent) ==> decide(s, es)))
  {
    var counted := counts[s := Counted(counts, s) + [ent]];
    OtherCountsKept(d, s, ent, None, counts, decide);
    OtherCountsKept(d, s, ent, None, counted, decide);
    hide Enabled, Without;
  }

  lemma {:induction false} SeenInOrder<F>(d: Core<F>, ls: seq<Logged<F>>)
    requires LazyFree(d) && InOrder(ls)
    ensures CallsNondecreasing(Seen(d, ls))
    ensures ls != [] ==> forall i | 0 <= i < |Seen(d, ls)| :: Seen(d, ls)[i].time <= ls[|ls| - 1].ent.time
    decreases |ls|
  {
    hide Enabled, Sampled, LazyFree;
    if ls != [] {
      var n := |ls| - 1;
      SeenInOrder(d, ls[..n]);
      if n > 0 {
        assert ls[n - 1].ent.time <= ls[n].ent.time;
      }
    }
  }

  lemma PassedStep(es: seq<Entry>, ent: Entry, level: int, message: Bytes, a: int, rate: Rate)
    ensures MessagePassed(es + [ent], level, message, a, rate.tick, rate.first, rate.thereafter)
         == MessagePassed(es, level, message, a, rate.tick, rate.first, rate.thereafter)
            + if ent.level == level && ent.message == message && a <= ent.time < a + rate.tick
                 && LastForwarded(es + [ent], rate.tick, rate.first, rate.thereafter) then 1 else 0
  {
    hide LastForwarded;
    assert (es + [ent])[..|es|] == es;
  }

  lemma {:induction false} AcceptedIsPassed<F>(d: Core<F>, s: nat, ls: seq<Logged<F>>, rates: nat -> Rate,
                                               level: int, message: Bytes, a: int)
    requires LazyFree(d) && Without(d, s) && MIN_LEVEL <= level <= MAX_LEVEL
    ensures AcceptedIn(Sampling(d, s), ls, DecideAt(rates), level, message, a, rates(s).tick)
            <= MessagePassed(Seen(d, ls), level, message, a, rates(s).tick, rates(s).first, rates(s).thereafter)
    decreases |ls|
  {
    hide Enabled, LastForwarded, Check, MessagePassed;
    if ls != [] {
      var n, decide := |ls| - 1, DecideAt(rates);
      var ent, counts, es := ls[n].ent, CountsAfter(Sampling(d, s), ls[..n], decide), Seen(d, ls[..n]);
      AcceptedIsPassed(d, s, ls[..n], rates, level, message, a);
      SeenIsCounted(d, s, ls[..n], decide);
      SameCheck(Sampling(d, s), ls[n], counts, decide);
      SamplerCounts(d, s, ent, counts, decide);
      PassedStep(es, ent, level, message, a, rates(s));
      assert Seen(d, ls) == es + if Enabled(d, ent.level) && Sampled(ent) then [ent] else [];
      assert es + [] == es;
    }
  }

  /** Exactly which entries get through: the last entry logged through a sampled core registers
      if and only if a leaf under the sampler is open for it and, for the known levels, the
      sampler's history says so. */
  lemma AcceptedExactly<F>(d: Core<F>, s: nat, ls: seq<Logged<F>>, rates: nat -> Rate)
    requires LazyFree(d) && Without(d, s) && DistinctSamplers(d) && ls != []
    ensures var ent, rate := ls[|ls| - 1].ent, rates(s);
            var counts := CountsAfter(Sampling(d, s), ls[..|ls| - 1], DecideAt(rates));
            LastAccepted(Sampling(d, s), ls, DecideAt(rates))
            <==> Accepting(Occurrences(d, []), ent, Verdicts(ent, counts, DecideAt(rates))) != []
                 && (-1 <= ent.level <= 5 ==>
                       LastForwarded(Seen(d, ls[..|ls| - 1]) + [ent], rate.tick, rate.first, rate.thereafter))
  {
    hide Check, Accepting, Occurrences, Verdicts, LastForwarded, CountsAfter, Without, DistinctSamplers, Enabled, CheckedLeaves;
    var n, decide := |ls| - 1, DecideAt(rates);
    var ent, counts := ls[n].ent, CountsAfter(Sampling(d, s), ls[..n], decide);
    var r := Check(Sampling(d, s), ent, None, counts, decide).0;
    SeenIsCounted(d, s, ls[..n], decide);
    SameCheck(Sampling(d, s), ls[n], counts, decide);
    SamplerPassesOn(d, s, ent, None, counts, decide);
    HooksNeverStart(Sampling(d, s), ent, None, counts, decide);
    assert CheckedLeaves<F>(None) == [] by { NothingChecked<F>(); }
  }

  lemma NothingChecked<F>()
    ensures CheckedLeaves<F>(None) == []
  {
  }

  /** The quota in a tree: whatever is logged through a sampled core and all cores derived from
      it by With, in time order, a message registers at most twice the quota of its busiest
      window in any tick of time; with `thereafter` 0, at most twice `first`. */
  lemma TreeQuota<F>(d: Core<F>, s: nat, ls: seq<Logged<F>>, rates: nat -> Rate, level: int, message: Bytes, a: int)
    requires LazyFree(d) && Without(d, s) && InOrder(ls) && rates(s).tick > 0 && MIN_LEVEL <= level <= MAX_LEVEL
    ensures var rate := rates(s);
            var accepted := AcceptedIn(Sampling(d, s), ls, DecideAt(rates), level, message, a, rate.tick);
            var times := SlotTimes(Seen(d, ls), SlotOf(Entry(level, message, 0)));
            && accepted <= 2 * Quota(Peak(times, rate.tick), rate.first, rate.thereafter)
            && (rate.thereafter == 0 ==> accepted <= 2 * rate.first)
  {
    hide AcceptedIn, MessagePassed, Seen, SlotTimes, Quota, Peak, InOrder, CallsNondecreasing;
    var rate := rates(s);
    SeenInOrder(d, ls);
    AcceptedIsPassed(d, s, ls, rates, level, message, a);
    MessageQuota(Seen(d, ls), level, message, a, rate.tick, rate.first, rate.thereafter);
  }
}
