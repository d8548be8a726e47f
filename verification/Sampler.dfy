/** The sampler without concurrency: exact counts per window, and quotas per message over time. */
module Sampler {
  import opened Common
  import opened Entries
  import opened Utf8
  import R = SamplerRace

  const NUM_LEVELS: nat := 7
  const COUNTERS_PER_LEVEL: nat := 4096

  datatype Counter = Counter(resetAt: int, count: nat)

  const FRESH := Counter(0, 0)

  /** The counter after `IncCheckReset(tn)`; the call returns the new count. */
  function Inc(c: Counter, tn: int, tick: int): Counter {
    if c.resetAt > tn then c.(count := c.count + 1) else Counter(tn + tick, 1)
  }

  /** One call of the concurrent protocol, run without interference, is one `Inc`. */
  lemma SoloCallIsInc(s: R.State, t: nat, tn: int, tick: int)
    requires R.PointOf(s, t).Idle? && s.counter >= 0
    ensures var s' := SoloCall(s, t, tn, tick);
            var c' := Inc(Counter(s.resetAt, s.counter), tn, tick);
            && s'.resetAt == c'.resetAt && s'.counter == c'.count && R.PointOf(s', t).Idle?
            && s'.log == s.log + (if s.resetAt > tn then [R.Added(c'.count)]
                                  else [R.Stored, R.Won(s.resetAt, tn + tick)])
  {
  }

  function SoloCall(s: R.State, t: nat, tn: int, tick: int): R.State {
    var s1 := R.Apply(R.Apply(s, tick, R.Call(t, tn)), tick, R.Go(t));
    R.Apply(R.Apply(s1, tick, R.Go(t)), tick, R.Go(t))
  }

  /** The counter after calls at the given times. */
  function After(times: seq<int>, tick: int): Counter {
    if times == [] then FRESH else Inc(After(times[..|times| - 1], tick), times[|times| - 1], tick)
  }

  /** How many of `n` calls in one window should be let through. */
  function Quota(n: nat, first: nat, thereafter: nat): nat {
    (if n < first then n else first)
    + if n > first && thereafter > 0 then (n - first) / thereafter else 0
  }

  /** The quota grows by one exactly at the calls that pass. */
  lemma QuotaStep(n: nat, first: nat, thereafter: nat)
    ensures Quota(0, first, thereafter) == 0
    ensures Quota(n + 1, first, thereafter)
         == Quota(n, first, thereafter) + if R.Passes(n + 1, first, thereafter) then 1 else 0
  {
    if n >= first && thereafter > 0 {
      DivStep(n - first, thereafter);
      if n == first {
        SmallDiv(thereafter);
      }
    }
  }

  lemma DivStep(m: nat, d: nat)
    requires d > 0
    ensures (m + 1) / d == m / d + if (m + 1) % d == 0 then 1 else 0
  {
    var q, r := m / d, m % d;
    assert m == q * d + r;
    if r + 1 == d {
      assert m + 1 == (q + 1) * d;
      QuotientUnique(m + 1, q + 1, 0, d);
    } else {
      QuotientUnique(m + 1, q, r + 1, d);
    }
  }

  lemma QuotientUnique(m: int, q: int, r: int, d: int)
    requires d > 0 && 0 <= r < d && m == q * d + r
    ensures m / d == q && m % d == r
  {
    var e := m / d - q;
    assert e * d == r - m % d;
  }

  lemma SmallDiv(d: nat)
    requires d > 0
    ensures 0 / d == 0
  {
  }

  // ---------------------------------------------------- every interleaving

  /** The `Add`s that followed each `Store(1)` in a log of the concurrent protocol. */
  function AddsPerStore(log: seq<R.Happening>): seq<nat> {
    if log == [] then []
    else
      var before := AddsPerStore(log[..|log| - 1]);
      match log[|log| - 1]
      case Stored => before + [0]
      case Added(_) => if before == [] then [] else before[..|before| - 1] + [before[|before| - 1] + 1]
      case Won(_, _) => before
  }

  /** What a store's `Add`s may let through: the quota beyond the call counted by the store. */
  function QuotaOfAdds(adds: seq<nat>, first: nat, thereafter: nat): int {
    if adds == [] then 0
    else QuotaOfAdds(adds[..|adds| - 1], first, thereafter)
         + Quota(adds[|adds| - 1] + 1, first, thereafter) - Quota(1, first, thereafter)
  }

  lemma QuotaOfOneMore(adds: seq<nat>, k: nat, first: nat, thereafter: nat)
    ensures QuotaOfAdds(adds + [0], first, thereafter) == QuotaOfAdds(adds, first, thereafter)
    ensures QuotaOfAdds(adds + [k + 1], first, thereafter)
         == QuotaOfAdds(adds + [k], first, thereafter) + if R.Passes(k + 2, first, thereafter) then 1 else 0
  {
    hide Quota, R.Passes;
    assert (adds + [0])[..|adds|] == (adds + [k])[..|adds|] == (adds + [k + 1])[..|adds|] == adds;
    QuotaStep(k + 1, first, thereafter);
  }

  lemma {:induction false} ThroughIsQuota(log: seq<R.Happening>, tick: int, first: nat, thereafter: nat)
    requires R.WellLogged(log, tick)
    ensures |AddsPerStore(log)| == R.Stores(log)
    ensures R.Stores(log) > 0 ==> AddsPerStore(log)[R.Stores(log) - 1] == R.AddsSinceStore(log)
    ensures R.Through(log, first, thereafter)
         == QuotaOfAdds(AddsPerStore(log), first, thereafter) + if R.Passes(1, first, thereafter) then R.Wins(log) else 0
    decreases |log|
  {
    hide Quota, R.Passes, QuotaOfAdds, R.WellLogged;
    if log == [] {
      NoAdds(first, thereafter);
    } else {
      var n := |log| - 1;
      var before := AddsPerStore(log[..n]);
      R.LastLogged(log, tick);
      ThroughIsQuota(log[..n], tick, first, thereafter);
      match log[n]
      case Stored => QuotaOfOneMore(before, 0, first, thereafter);
      case Added(v) =>
        var m := |before| - 1;
        assert before == before[..m] + [before[m]];
        QuotaOfOneMore(before[..m], before[m], first, thereafter);
      case Won(_, _) =>
    }
  }

  lemma NoAdds(first: nat, thereafter: nat)
    ensures QuotaOfAdds([], first, thereafter) == 0
  {
  }

  /** In every interleaving, for every `first` and `thereafter`, the calls let through are
      exactly the quota: one for each window if a first call passes, and for each `Store(1)` the
      quota of the calls counted from it. */
  lemma RaceQuotaExact(tick: int, maxTime: int, steps: seq<R.Step>, first: nat, thereafter: nat)
    requires tick > 0 && maxTime >= 0 && R.TimesWithin(steps, maxTime)
    ensures var log := R.Run(tick, steps).log;
            && |AddsPerStore(log)| == R.Stores(log)
            && R.Through(log, first, thereafter)
               == QuotaOfAdds(AddsPerStore(log), first, thereafter) + if R.Passes(1, first, thereafter) then R.Wins(log) else 0
  {
    R.RunKeepsInv(tick, maxTime, steps);
    hide R.Run, R.Passes;
    ThroughIsQuota(R.Run(tick, steps).log, tick, first, thereafter);
  }

  // ------------------------------------------------------------- one window

  /** How many of the calls at `burst`, made after `prior`, are let through. */
  function PassedAfter(prior: seq<int>, burst: seq<int>, tick: int, first: nat, thereafter: nat): nat {
    if burst == [] then 0
    else PassedAfter(prior, burst[..|burst| - 1], tick, first, thereafter)
         + if R.Passes(After(prior + burst, tick).count, first, thereafter) then 1 else 0
  }

  /** A burst that opens a window and stays inside it, whatever came before, lets through
      exactly the quota of its length. */
  lemma {:induction false} WindowQuotaExact(prior: seq<int>, burst: seq<int>, tick: int, first: nat, thereafter: nat)
    requires tick > 0
    requires burst != [] ==> burst[0] >= After(prior, tick).resetAt
    requires forall i | 0 <= i < |burst| :: burst[i] < burst[0] + tick
    ensures PassedAfter(prior, burst, tick, first, thereafter) == Quota(|burst|, first, thereafter)
    ensures burst != [] ==> After(prior + burst, tick) == Counter(burst[0] + tick, |burst|)
    decreases |burst|
  {
    hide Quota, R.Passes;
    if burst == [] {
      QuotaStep(0, first, thereafter);
    } else {
      var n := |burst| - 1;
      WindowQuotaExact(prior, burst[..n], tick, first, thereafter);
      assert (prior + burst)[..|prior| + n] == prior + burst[..n];
      if n == 0 {
        assert prior + burst[..0] == prior;
      }
      QuotaStep(n, first, thereafter);
    }
  }

  // --------------------------------------------------------- any tick of time

  predicate Nondecreasing(times: seq<int>) {
    forall i, j | 0 <= i < j < |times| :: times[i] <= times[j]
  }

  /** How many calls in the time interval of one tick from `a` are let through. */
  function PassedIn(times: seq<int>, a: int, tick: int, first: nat, thereafter: nat): nat {
    if times == [] then 0
    else PassedIn(times[..|times| - 1], a, tick, first, thereafter)
         + if a <= times[|times| - 1] < a + tick && R.Passes(After(times, tick).count, first, thereafter) then 1 else 0
  }

  /** The most calls any one window has seen. */
  function Peak(times: seq<int>, tick: int): nat {
    if times == [] then 0 else Max(Peak(times[..|times| - 1], tick), After(times, tick).count)
  }

  function Max(a: nat, b: nat): nat {
    if a >= b then a else b
  }

  /** What is known of the calls so far, when the interval from `a` has let through `passed`:
      `n1` and `n2` are how far the counter got in the window open at `a` and in the one
      opened within the interval. */
  datatype Tally = Tally(n1: nat, n2: nat, reset: bool)

  ghost predicate TallyOk(times: seq<int>, a: int, tick: int, first: nat, thereafter: nat, y: Tally) {
    var c := After(times, tick);
    && y.n1 <= Peak(times, tick) && y.n2 <= Peak(times, tick)
    && PassedIn(times, a, tick, first, thereafter) <= Quota(y.n1, first, thereafter) + Quota(y.n2, first, thereafter)
    && (!y.reset ==> y.n2 == 0)
    && (y.reset ==> times != [] && (times[|times| - 1] < a + tick ==> c.resetAt >= a + tick && y.n2 == c.count))
    && (!y.reset && times != [] && times[|times| - 1] < a + tick ==> y.n1 == c.count)
    && (!y.reset && times == [] ==> y.n1 == 0)
  }

  lemma {:induction false} TallyExists(times: seq<int>, a: int, tick: int, first: nat, thereafter: nat) returns (y: Tally)
    requires tick > 0 && Nondecreasing(times)
    ensures TallyOk(times, a, tick, first, thereafter, y)
    decreases |times|
  {
    hide Quota, R.Passes;
    QuotaStep(0, first, thereafter);
    if times == [] {
      return Tally(0, 0, false);
    }
    var n := |times| - 1;
    var t := times[n];
    y := TallyExists(times[..n], a, tick, first, thereafter);
    var c, c' := After(times[..n], tick), After(times, tick);
    QuotaStep(c.count, first, thereafter);
    if n > 0 {
      assert times[n - 1] <= t;
    }
    if t < a {
      PassedBefore(times[..n], a, tick, first, thereafter);
      y := Tally(c'.count, 0, false);
    } else if t < a + tick {
      if c.resetAt > t {
        if y.reset {
          y := y.(n2 := c'.count);
        } else {
          y := y.(n1 := c'.count);
        }
      } else {
        QuotaOne(first, thereafter);
        y := Tally(y.n1, 1, true);
      }
    }
  }

  lemma QuotaOne(first: nat, thereafter: nat)
    ensures Quota(1, first, thereafter) == if R.Passes(1, first, thereafter) then 1 else 0
  {
    QuotaStep(0, first, thereafter);
  }

  lemma {:induction false} PassedBefore(times: seq<int>, a: int, tick: int, first: nat, thereafter: nat)
    requires forall i | 0 <= i < |times| :: times[i] < a
    ensures PassedIn(times, a, tick, first, thereafter) == 0
    decreases |times|
  {
    hide R.Passes, After;
    if times != [] {
      PassedBefore(times[..|times| - 1], a, tick, first, thereafter);
    }
  }

  lemma {:induction false} QuotaMonotone(m: nat, n: nat, first: nat, thereafter: nat)
    requires m <= n
    ensures Quota(m, first, thereafter) <= Quota(n, first, thereafter)
    decreases n - m
  {
    hide Quota, R.Passes;
    if m < n {
      QuotaStep(m, first, thereafter);
      QuotaMonotone(m + 1, n, first, thereafter);
    }
  }

  /** Call `i` finds its window over and opens the next. */
  predicate OpensWindow(times: seq<int>, tick: int, i: nat)
    requires i < |times|
  {
    After(times[..i], tick).resetAt <= times[i]
  }

  lemma {:induction false} ResetAtGrows(times: seq<int>, tick: int, i: nat)
    requires tick > 0 && i <= |times|
    ensures After(times[..i], tick).resetAt <= After(times, tick).resetAt
    decreases |times| - i
  {
    if i < |times| {
      var n := |times| - 1;
      ResetAtGrows(times[..n], tick, i);
      assert times[..n][..i] == times[..i];
    } else {
      assert times[..i] == times;
    }
  }

  /** Windows open at least a tick apart, so an interval of one tick meets at most two. */
  lemma WindowsATickApart(times: seq<int>, tick: int, i: nat, j: nat)
    requires tick > 0 && i < j < |times|
    requires OpensWindow(times, tick, i) && OpensWindow(times, tick, j)
    ensures times[j] >= times[i] + tick
  {
    hide After;
    assert times[..j][..i + 1] == times[..i + 1];
    ResetAtGrows(times[..j], tick, i + 1);
    assert After(times[..i + 1], tick) == Inc(After(times[..i], tick), times[i], tick) by {
      assert times[..i + 1][..i] == times[..i];
      LastCall(times[..i + 1], tick);
    }
  }

  lemma AfterStep(times: seq<int>, tn: int, tick: int)
    ensures After(times + [tn], tick) == Inc(After(times, tick), tn, tick)
  {
    assert (times + [tn])[..|times|] == times;
  }

  lemma LastCall(times: seq<int>, tick: int)
    requires times != []
    ensures After(times, tick) == Inc(After(times[..|times| - 1], tick), times[|times| - 1], tick)
  {
  }

  /** Any time interval of one tick lets through at most twice the quota of the busiest
      window; with `thereafter` 0, at most twice `first`. */
  lemma TickQuota(times: seq<int>, a: int, tick: int, first: nat, thereafter: nat)
    requires tick > 0 && Nondecreasing(times)
    ensures PassedIn(times, a, tick, first, thereafter) <= 2 * Quota(Peak(times, tick), first, thereafter)
    ensures thereafter == 0 ==> PassedIn(times, a, tick, first, thereafter) <= 2 * first
  {
    var y := TallyExists(times, a, tick, first, thereafter);
    QuotaMonotone(y.n1, Peak(times, tick), first, thereafter);
    QuotaMonotone(y.n2, Peak(times, tick), first, thereafter);
  }

  // -------------------------------------------------------- many messages

  const OFFSET32: bv32 := 2166136261
  const PRIME32: bv32 := 16777619

  /** The 32-bit FNV-1a hash. */
  function Fnv(s: Bytes): bv32 {
    if s == [] then OFFSET32 else Mix(Fnv(s[..|s| - 1]), s[|s| - 1])
  }

  /** One byte of the hash: exclusive or, then multiply modulo 2^32. */
  function Mix(hash: bv32, b: Byte): bv32 {
    (hash ^ (b as bv32)) * PRIME32
  }

  /** The published FNV-1a values for the empty string and for "a". */
  lemma FnvVectors()
    ensures Fnv([]) == 0x811C9DC5 && Fnv([0x61]) == 0xE40C292C
  {
    assert [0x61][..0] == [];
    assert Fnv([0x61]) == Mix(OFFSET32, 0x61);
  }

  method Fnv32a(s: Bytes) returns (hash: bv32)
    ensures hash == Fnv(s)
  {
    hide Mix;
    hash := OFFSET32;
    for i := 0 to |s|
      invariant hash == Fnv(s[..i])
    {
      hash := Mix(hash, s[i]);
      assert s[..i + 1][..i] == s[..i];
    }
    assert s[..|s|] == s;
  }

  predicate Sampled(c: Entry) {
    MIN_LEVEL <= c.level <= MAX_LEVEL
  }

  /** The counter a call uses: its level and the hash of its message. */
  function SlotOf(c: Entry): (slot: (int, int))
    requires Sampled(c)
    ensures 0 <= slot.0 < NUM_LEVELS && 0 <= slot.1 < COUNTERS_PER_LEVEL
  {
    (c.level - MIN_LEVEL, Fnv(c.message) as int % COUNTERS_PER_LEVEL)
  }

  /** The times of the calls that use `slot`. */
  function SlotTimes(calls: seq<Entry>, slot: (int, int)): seq<int> {
    if calls == [] then []
    else
      var c := calls[|calls| - 1];
      SlotTimes(calls[..|calls| - 1], slot) + if Sampled(c) && SlotOf(c) == slot then [c.time] else []
  }

  /** Is the last of these calls handed on to the wrapped core? */
  predicate LastForwarded(calls: seq<Entry>, tick: int, first: nat, thereafter: nat)
    requires calls != []
  {
    var c := calls[|calls| - 1];
    Sampled(c) ==> R.Passes(After(SlotTimes(calls, SlotOf(c)), tick).count, first, thereafter)
  }

  /** Two calls share a counter: same level, and same FNV-1a hash of the message modulo 4096. */
  predicate SameCounter(c: Entry, d: Entry) {
    c.level == d.level && Fnv(c.message) as int % 4096 == Fnv(d.message) as int % 4096
  }

  /** The calls that share a counter with `c`. */
  function Matching(calls: seq<Entry>, c: Entry): seq<Entry> {
    if calls == [] then []
    else Matching(calls[..|calls| - 1], c) + if SameCounter(calls[|calls| - 1], c) then [calls[|calls| - 1]] else []
  }

  function Times(calls: seq<Entry>): seq<int> {
    if calls == [] then [] else Times(calls[..|calls| - 1]) + [calls[|calls| - 1].time]
  }

  lemma {:induction false} SlotIsMatching(calls: seq<Entry>, c: Entry)
    requires Sampled(c)
    ensures SlotTimes(calls, SlotOf(c)) == Times(Matching(calls, c))
    decreases |calls|
  {
    hide Fnv;
    if calls != [] {
      var n := |calls| - 1;
      var m := Matching(calls[..n], c);
      SlotIsMatching(calls[..n], c);
      assert (m + [calls[n]])[..|m|] == m;
      assert m + [] == m && Times(m) + [] == Times(m);
    }
  }

  lemma {:induction false} MatchingTwice(calls: seq<Entry>, c: Entry)
    ensures Matching(Matching(calls, c), c) == Matching(calls, c)
    ensures |Times(Matching(calls, c))| == |Matching(calls, c)|
    decreases |calls|
  {
    hide SameCounter;
    if calls != [] {
      var n := |calls| - 1;
      var m := Matching(calls[..n], c);
      MatchingTwice(calls[..n], c);
      if SameCounter(calls[n], c) {
        assert (m + [calls[n]])[..|m|] == m;
      } else {
        assert m + [] == m;
      }
    }
  }

  /** Only calls that share its counter have a say: deleting all others from the history does not
      change whether the last call is handed on. */
  lemma OnlySameCounterMatters(calls: seq<Entry>, tick: int, first: nat, thereafter: nat)
    requires calls != []
    ensures var c := calls[|calls| - 1];
            var m := Matching(calls, c);
            && m != [] && m[|m| - 1] == c
            && (LastForwarded(calls, tick, first, thereafter) <==> LastForwarded(m, tick, first, thereafter))
  {
    hide Fnv, R.Passes, After, SlotTimes, SlotOf;
    var c := calls[|calls| - 1];
    MatchingTwice(calls, c);
    if Sampled(c) {
      SlotIsMatching(calls, c);
      SlotIsMatching(Matching(calls, c), c);
    }
  }

  lemma {:induction false} TimesAt(calls: seq<Entry>, i: nat)
    requires i < |calls|
    ensures |Times(calls)| == |calls| && Times(calls)[i] == calls[i].time
    decreases |calls|
  {
    var n := |calls| - 1;
    if n > 0 {
      TimesAt(calls[..n], if i < n then i else 0);
    }
  }

  /** An entry is handed on if no earlier call shares its counter and `first` is at least 1, and
      always if its level is not one of the known ones. */
  lemma FirstOfItsKind(calls: seq<Entry>, tick: int, first: nat, thereafter: nat)
    requires calls != []
    ensures var n := |calls| - 1;
            && (!(-1 <= calls[n].level <= 5) ==> LastForwarded(calls, tick, first, thereafter))
            && (first >= 1 && (forall i | 0 <= i < n :: !SameCounter(calls[i], calls[n])) ==>
                  LastForwarded(calls, tick, first, thereafter))
  {
    hide Fnv, SlotTimes, SlotOf, SameCounter, After, Times;
    var n := |calls| - 1;
    var c := calls[n];
    if Sampled(c) && first >= 1 && forall i | 0 <= i < n :: !SameCounter(calls[i], c) {
      NothingMatches(calls[..n], c);
      assert SameCounter(c, c) by { SharesItsOwn(c); }
      assert Matching(calls, c) == [c];
      SlotIsMatching(calls, c);
      OneCall(c, tick);
    }
  }

  lemma SharesItsOwn(c: Entry)
    ensures SameCounter(c, c)
  {
  }

  lemma OneCall(c: Entry, tick: int)
    ensures After(Times([c]), tick).count == 1
  {
    assert [c][..0] == [] && Times([c][..0]) == [];
    assert Times([c]) == [c.time];
    assert [c.time][..0] == [] && After([c.time][..0], tick) == FRESH;
  }

  lemma {:induction false} NothingMatches(calls: seq<Entry>, c: Entry)
    requires forall i | 0 <= i < |calls| :: !SameCounter(calls[i], c)
    ensures Matching(calls, c) == []
    decreases |calls|
  {
    hide SameCounter;
    if calls != [] {
      NothingMatches(calls[..|calls| - 1], c);
    }
  }

  /** What the counters are for: while all calls that share its counter fall into one tick from
      the first of them, the n-th of them is handed on if and only if n is at most `first`, or
      exceeds it by a multiple of `thereafter`. */
  lemma HandedOnExactly(calls: seq<Entry>, tick: int, first: nat, thereafter: nat)
    requires calls != [] && tick > 0 && -1 <= calls[|calls| - 1].level <= 5
    requires var m := Matching(calls, calls[|calls| - 1]);
             m != [] && m[0].time >= 0 && forall i | 0 <= i < |m| :: m[i].time < m[0].time + tick
    ensures var n := |Matching(calls, calls[|calls| - 1])|;
            LastForwarded(calls, tick, first, thereafter)
            <==> n <= first || (thereafter > 0 && (n - first) % thereafter == 0)
  {
    hide Fnv, SlotTimes, SlotOf, Matching, After;
    var c := calls[|calls| - 1];
    var m := Matching(calls, c);
    SlotIsMatching(calls, c);
    forall i | 0 <= i < |m| ensures |Times(m)| == |m| && Times(m)[i] == m[i].time {
      TimesAt(m, i);
    }
    assert After([], tick) == FRESH by { NoCalls(tick); }
    WindowQuotaExact([], Times(m), tick, first, thereafter);
    assert [] + Times(m) == Times(m);
  }

  lemma NoCalls(tick: int)
    ensures After([], tick) == FRESH
  {
  }

  /** How many calls with this level and message, timed within a tick from `a`, get through. */
  function MessagePassed(calls: seq<Entry>, level: int, message: Bytes, a: int, tick: int, first: nat, thereafter: nat): nat {
    if calls == [] then 0
    else
      var c := calls[|calls| - 1];
      MessagePassed(calls[..|calls| - 1], level, message, a, tick, first, thereafter)
      + if c.level == level && c.message == message && a <= c.time < a + tick && LastForwarded(calls, tick, first, thereafter)
        then 1 else 0
  }

  predicate CallsNondecreasing(calls: seq<Entry>) {
    forall i, j | 0 <= i < j < |calls| :: calls[i].time <= calls[j].time
  }

  /** A message's calls are among its counter's calls, other messages that collide included. */
  lemma {:induction false} MessageWithinSlot(calls: seq<Entry>, level: int, message: Bytes, a: int, tick: int, first: nat, thereafter: nat)
    requires MIN_LEVEL <= level <= MAX_LEVEL
    ensures MessagePassed(calls, level, message, a, tick, first, thereafter)
         <= PassedIn(SlotTimes(calls, SlotOf(Entry(level, message, 0))), a, tick, first, thereafter)
    decreases |calls|
  {
    hide R.Passes, After, Fnv;
    if calls != [] {
      var n := |calls| - 1;
      var slot := SlotOf(Entry(level, message, 0));
      MessageWithinSlot(calls[..n], level, message, a, tick, first, thereafter);
      var c := calls[n];
      if Sampled(c) && SlotOf(c) == slot {
        var times := SlotTimes(calls, slot);
        assert times[..|times| - 1] == SlotTimes(calls[..n], slot);
      } else {
        assert SlotTimes(calls, slot) == SlotTimes(calls[..n], slot);
      }
    }
  }

  lemma {:induction false} SlotTimesNondecreasing(calls: seq<Entry>, slot: (int, int))
    requires CallsNondecreasing(calls)
    ensures Nondecreasing(SlotTimes(calls, slot))
    ensures calls != [] ==> forall i | 0 <= i < |SlotTimes(calls, slot)| :: SlotTimes(calls, slot)[i] <= calls[|calls| - 1].time
    decreases |calls|
  {
    hide SlotOf;
    if calls != [] {
      var n := |calls| - 1;
      SlotTimesNondecreasing(calls[..n], slot);
      if n > 0 {
        assert calls[n - 1].time <= calls[n].time;
      }
    }
  }

  /** For every history of calls with nondecreasing times, any message gets at most twice the
      quota of its busiest window through in one tick of time, hash collisions included. */
  lemma MessageQuota(calls: seq<Entry>, level: int, message: Bytes, a: int, tick: int, first: nat, thereafter: nat)
    requires tick > 0 && CallsNondecreasing(calls) && MIN_LEVEL <= level <= MAX_LEVEL
    ensures var times := SlotTimes(calls, SlotOf(Entry(level, message, 0)));
            MessagePassed(calls, level, message, a, tick, first, thereafter) <= 2 * Quota(Peak(times, tick), first, thereafter)
    ensures thereafter == 0 ==> MessagePassed(calls, level, message, a, tick, first, thereafter) <= 2 * first
  {
    hide Fnv, Quota, Peak, PassedIn, MessagePassed, SlotTimes, Nondecreasing;
    var slot := SlotOf(Entry(level, message, 0));
    MessageWithinSlot(calls, level, message, a, tick, first, thereafter);
    SlotTimesNondecreasing(calls, slot);
    TickQuota(SlotTimes(calls, slot), a, tick, first, thereafter);
  }

  /** What the sampling hook is told. */
  datatype Decision = LogSampled | LogDropped

  /** The sampling core's own state; `With` shares `counts` with the cores it derives. */
  class SamplerCore {
    const tick: int
    const first: nat
    const thereafter: nat
    const counts: array2<Counter>
    ghost var history: seq<Entry>

    ghost predicate Valid()
      reads this, counts
    {
      && counts.Length0 == NUM_LEVELS && counts.Length1 == COUNTERS_PER_LEVEL
      && forall i, j | 0 <= i < NUM_LEVELS && 0 <= j < COUNTERS_PER_LEVEL ::
           counts[i, j] == After(SlotTimes(history, (i, j)), tick)
    }

    constructor (tick: int, first: nat, thereafter: nat)
      ensures Valid() && fresh(counts) && history == []
      ensures this.tick == tick && this.first == first && this.thereafter == thereafter
    {
      this.tick, this.first, this.thereafter := tick, first, thereafter;
      counts := new Counter[NUM_LEVELS, COUNTERS_PER_LEVEL]((_, _) => FRESH);
      history := [];
    }

    /** `IncCheckReset` on one counter of the array. */
    method IncCheckReset(i: nat, j: nat, tn: int) returns (n: nat)
      requires i < counts.Length0 && j < counts.Length1
      modifies counts
      ensures counts[i, j] == Inc(old(counts[i, j]), tn, tick) && n == counts[i, j].count
      ensures forall x, y | 0 <= x < counts.Length0 && 0 <= y < counts.Length1 && (x, y) != (i, j) ::
                counts[x, y] == old(counts[x, y])
    {
      var resetAfter := counts[i, j].resetAt;
      if resetAfter > tn {
        counts[i, j] := counts[i, j].(count := counts[i, j].count + 1);
        return counts[i, j].count;
      }
      counts[i, j] := Counter(tn + tick, 1);
      return 1;
    }

    /** `Check`: an entry whose level is not enabled is turned away uncounted; otherwise the call
        is counted, the hook hears the decision, and the entry is handed on or dropped. */
    method Check(c: Entry, enabled: bool) returns (forward: bool, heard: Option<Decision>)
      requires Valid()
      modifies this`history, counts
      ensures Valid() && history == if enabled then old(history) + [c] else old(history)
      ensures forward <==> enabled && LastForwarded(history, tick, first, thereafter)
      ensures enabled && first >= 1 && (forall i | 0 <= i < |old(history)| :: !SameCounter(old(history)[i], c)) ==> forward
      ensures heard == if enabled && Sampled(c) then Some(if forward then LogSampled else LogDropped) else None
    {
      hide Fnv, R.Passes, After, Inc, SameCounter;
      FirstOfItsKind(history + [c], tick, first, thereafter);
      assert forall i | 0 <= i < |history| :: (history + [c])[i] == history[i];
      forward, heard := enabled, None;
      if !enabled {
        return;
      }
      if MIN_LEVEL <= c.level <= MAX_LEVEL {
        var hash := Fnv32a(c.message);
        var i, j := c.level - MIN_LEVEL, hash as int % COUNTERS_PER_LEVEL;
        assert (i, j) == SlotOf(c);
        AfterStep(SlotTimes(history, (i, j)), c.time, tick);
        var n := IncCheckReset(i, j, c.time);
        forward := R.Passes(n, first, thereafter);
        heard := Some(if forward then LogSampled else LogDropped);
      }
      history := history + [c];
      forall i, j | 0 <= i < NUM_LEVELS && 0 <= j < COUNTERS_PER_LEVEL
        ensures counts[i, j] == After(SlotTimes(history, (i, j)), tick)
      {
        HistoryStep(old(history), c, (i, j));
        assert old(counts[i, j]) == After(SlotTimes(old(history), (i, j)), tick);
      }
    }

    static lemma HistoryStep(before: seq<Entry>, c: Entry, slot: (int, int))
      ensures SlotTimes(before + [c], slot) == if Sampled(c) && SlotOf(c) == slot then SlotTimes(before, slot) + [c.time]
                                               else SlotTimes(before, slot)
    {
      hide SlotOf;
      assert (before + [c])[..|before|] == before;
    }
  }
}
