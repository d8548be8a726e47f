/**
  The sampler's lock-free counter under concurrency. Any number of threads run
  `IncCheckReset`; each atomic operation is one step, and a run is any sequence of steps.
  A step that does not apply to the thread's program point does nothing, so every list of
  steps is a run and every interleaving is a list of steps.
 */
module SamplerRace {

  /** Where a thread is inside `IncCheckReset(tn)`. */
  datatype Point =
    | Idle
    | Loading(tn: int)
    | Adding(tn: int)
    | Storing(tn: int, resetAfter: int)
    | Swapping(tn: int, resetAfter: int)
    | Readding(tn: int)

  /** What the atomic operations did. `Added` and `Won` also return from the call:
      `Added` with the value, `Won` with 1. */
  datatype Happening = Stored | Added(v: int) | Won(before: int, after: int)

  datatype State = State(resetAt: int, counter: int, threads: map<nat, Point>, log: seq<Happening>, calls: nat, lost: nat)

  datatype Step = Call(thread: nat, tn: int) | Go(thread: nat)

  const INITIAL := State(0, 0, map[], [], 0, 0)

  function PointOf(s: State, t: nat): Point {
    if t in s.threads then s.threads[t] else Idle
  }

  function Apply(s: State, tick: int, step: Step): State {
    match step
    case Call(t, tn) => if PointOf(s, t).Idle? then s.(threads := s.threads[t := Loading(tn)], calls := s.calls + 1) else s
    case Go(t) => Advance(s, tick, t)
  }

  /** One atomic operation of thread `t`. */
  function Advance(s: State, tick: int, t: nat): State {
    match PointOf(s, t)
    case Idle => s
    case Loading(tn) =>
      s.(threads := s.threads[t := if s.resetAt > tn then Adding(tn) else Storing(tn, s.resetAt)])
    case Adding(_) =>
      s.(counter := s.counter + 1, threads := s.threads[t := Idle], log := s.log + [Added(s.counter + 1)])
    case Storing(tn, r) =>
      s.(counter := 1, threads := s.threads[t := Swapping(tn, r)], log := s.log + [Stored])
    case Swapping(tn, r) =>
      if s.resetAt == r
      then s.(resetAt := tn + tick, threads := s.threads[t := Idle], log := s.log + [Won(r, tn + tick)])
      else s.(threads := s.threads[t := Readding(tn)], lost := s.lost + 1)
    case Readding(_) =>
      s.(counter := s.counter + 1, threads := s.threads[t := Idle], log := s.log + [Added(s.counter + 1)])
  }

  function Run(tick: int, steps: seq<Step>): State {
    if steps == [] then INITIAL else Apply(Run(tick, steps[..|steps| - 1]), tick, steps[|steps| - 1])
  }

  /** Every call is made with a time between 0 and `maxTime`. */
  predicate TimesWithin(steps: seq<Step>, maxTime: int) {
    forall i | 0 <= i < |steps| :: steps[i].Call? ==> 0 <= steps[i].tn <= maxTime
  }

  // ------------------------------------------------------- reading the log

  function Stores(log: seq<Happening>): nat {
    if log == [] then 0 else Stores(log[..|log| - 1]) + if log[|log| - 1].Stored? then 1 else 0
  }

  function Wins(log: seq<Happening>): nat {
    if log == [] then 0 else Wins(log[..|log| - 1]) + if log[|log| - 1].Won? then 1 else 0
  }

  function Adds(log: seq<Happening>): nat {
    if log == [] then 0 else Adds(log[..|log| - 1]) + if log[|log| - 1].Added? then 1 else 0
  }

  /** How many `Add`s there have been since the last `Store(1)`. */
  function AddsSinceStore(log: seq<Happening>): nat {
    if log == [] || log[|log| - 1].Stored? then 0
    else AddsSinceStore(log[..|log| - 1]) + if log[|log| - 1].Added? then 1 else 0
  }

  /** The test of `sampler.Check`: is the call that returned `n` let through? */
  predicate Passes(n: nat, first: nat, thereafter: nat) {
    !(n > first && (thereafter == 0 || (n - first) % thereafter != 0))
  }

  /** The calls of a log that are let through. */
  function Through(log: seq<Happening>, first: nat, thereafter: nat): nat {
    if log == [] then 0 else Through(log[..|log| - 1], first, thereafter) + OneThrough(log[|log| - 1], first, thereafter)
  }

  function OneThrough(h: Happening, first: nat, thereafter: nat): nat {
    match h
    case Stored => 0
    case Added(v) => if v >= 0 && Passes(v, first, thereafter) then 1 else 0
    case Won(_, _) => if Passes(1, first, thereafter) then 1 else 0
  }

  /** Every entry of the log is what it should be given the entries before it. */
  predicate WellLogged(log: seq<Happening>, tick: int) {
    forall i | 0 <= i < |log| :: WellLoggedAt(log, i, tick)
  }

  predicate WellLoggedAt(log: seq<Happening>, i: nat, tick: int)
    requires i < |log|
  {
    match log[i]
    case Stored => true
    case Added(v) => Stores(log[..i]) > 0 && v == 2 + AddsSinceStore(log[..i])
    case Won(before, after) => before == WindowEnd(log[..i]) && after >= before + tick
  }

  /** The end of the window opened last. */
  function WindowEnd(log: seq<Happening>): int {
    if log == [] then 0
    else if log[|log| - 1].Won? then log[|log| - 1].after
    else WindowEnd(log[..|log| - 1])
  }

  // ------------------------------------------------------------- invariant

  function SwappingThreads(s: State): set<nat> {
    set t | t in s.threads && s.threads[t].Swapping?
  }

  /** Threads inside a call. */
  function BusyThreads(s: State): set<nat> {
    set t | t in s.threads && !s.threads[t].Idle?
  }

  predicate PointOk(s: State, p: Point, maxTime: int) {
    match p
    case Idle => true
    case Loading(tn) => 0 <= tn <= maxTime
    case Adding(tn) => Stores(s.log) > 0
    case Storing(tn, r) => 0 <= tn <= maxTime && r <= tn
    case Swapping(tn, r) => 0 <= tn <= maxTime && r <= tn && Stores(s.log) > 0
    case Readding(_) => Stores(s.log) > 0
  }

  predicate Inv(s: State, tick: int, maxTime: int) {
    && WellLogged(s.log, tick)
    && s.resetAt == WindowEnd(s.log)
    && Wins(s.log) * tick <= s.resetAt <= maxTime + tick
    && (s.resetAt > 0 ==> Stores(s.log) > 0)
    && s.counter == (if Stores(s.log) > 0 then 1 + AddsSinceStore(s.log) else 0)
    && Stores(s.log) == Wins(s.log) + s.lost + |SwappingThreads(s)|
    && s.calls == Wins(s.log) + Adds(s.log) + |BusyThreads(s)|
    && forall t | t in s.threads :: PointOk(s, s.threads[t], maxTime)
  }

  /** What one more happening does to the readings of the log. */
  lemma LogStep(log: seq<Happening>, h: Happening, tick: int)
    ensures Stores(log + [h]) == Stores(log) + if h.Stored? then 1 else 0
    ensures Wins(log + [h]) == Wins(log) + if h.Won? then 1 else 0
    ensures Adds(log + [h]) == Adds(log) + if h.Added? then 1 else 0
    ensures AddsSinceStore(log + [h]) == if h.Stored? then 0 else AddsSinceStore(log) + if h.Added? then 1 else 0
    ensures WindowEnd(log + [h]) == if h.Won? then h.after else WindowEnd(log)
    ensures WellLogged(log, tick) && WellLoggedAt(log + [h], |log|, tick) ==> WellLogged(log + [h], tick)
  {
    var l := log + [h];
    assert l[..|l| - 1] == log && l[..|log|] == log;
    if WellLogged(log, tick) && WellLoggedAt(l, |log|, tick) {
      forall i | 0 <= i < |l| ensures WellLoggedAt(l, i, tick) {
        if i < |log| {
          assert WellLoggedAt(log, i, tick);
          assert l[..i] == log[..i] && l[i] == log[i];
        }
      }
    }
  }

  /** A well-logged log less its last entry, and what that entry is. */
  lemma LastLogged(log: seq<Happening>, tick: int)
    requires log != [] && WellLogged(log, tick)
    ensures var n := |log| - 1;
            && WellLogged(log[..n], tick)
            && (log[n].Added? ==> Stores(log[..n]) > 0 && log[n].v == 2 + AddsSinceStore(log[..n]))
  {
    hide Stores, AddsSinceStore, WindowEnd;
    var n := |log| - 1;
    forall i | 0 <= i < n ensures WellLoggedAt(log[..n], i, tick) {
      assert WellLoggedAt(log, i, tick) && log[..n][..i] == log[..i];
    }
    assert WellLoggedAt(log, n, tick);
  }

  /** Moving one thread changes the set of swapping threads by at most that thread. */
  lemma SwappingMoves(s: State, s': State, t: nat, p: Point)
    requires s'.threads == s.threads[t := p]
    ensures |SwappingThreads(s')| == |SwappingThreads(s)|
                                     - (if PointOf(s, t).Swapping? then 1 else 0) + (if p.Swapping? then 1 else 0)
  {
    hide SwappingThreads;
    SwappingRest(s, s', t, p);
    WithOrWithout(SwappingThreads(s), t);
    WithOrWithout(SwappingThreads(s'), t);
  }

  lemma SwappingRest(s: State, s': State, t: nat, p: Point)
    requires s'.threads == s.threads[t := p]
    ensures SwappingThreads(s) - {t} == SwappingThreads(s') - {t}
    ensures t in SwappingThreads(s) <==> PointOf(s, t).Swapping?
    ensures t in SwappingThreads(s') <==> p.Swapping?
  {
  }

  lemma BusyMoves(s: State, s': State, t: nat, p: Point)
    requires s'.threads == s.threads[t := p]
    ensures |BusyThreads(s')| == |BusyThreads(s)|
                                 - (if PointOf(s, t).Idle? then 0 else 1) + (if p.Idle? then 0 else 1)
  {
    hide BusyThreads;
    BusyRest(s, s', t, p);
    WithOrWithout(BusyThreads(s), t);
    WithOrWithout(BusyThreads(s'), t);
  }

  lemma BusyRest(s: State, s': State, t: nat, p: Point)
    requires s'.threads == s.threads[t := p]
    ensures BusyThreads(s) - {t} == BusyThreads(s') - {t}
    ensures t in BusyThreads(s) <==> !PointOf(s, t).Idle?
    ensures t in BusyThreads(s') <==> !p.Idle?
  {
  }

  lemma WithOrWithout(a: set<nat>, t: nat)
    ensures |a| == |a - {t}| + if t in a then 1 else 0
  {
    assert t in a ==> a == (a - {t}) + {t};
    assert t !in a ==> a == a - {t};
  }

  lemma StepKeepsInv(s: State, tick: int, maxTime: int, step: Step)
    requires tick > 0 && maxTime >= 0 && Inv(s, tick, maxTime)
    requires step.Call? ==> 0 <= step.tn <= maxTime
    ensures Inv(Apply(s, tick, step), tick, maxTime)
  {
    hide Stores, Wins, Adds, AddsSinceStore, WindowEnd, WellLogged, SwappingThreads, BusyThreads;
    match step
    case Call(t, tn) =>
      if PointOf(s, t).Idle? {
        SwappingMoves(s, Apply(s, tick, step), t, Loading(tn));
        BusyMoves(s, Apply(s, tick, step), t, Loading(tn));
      }
    case Go(t) => AdvanceKeepsInv(s, tick, maxTime, t);
  }

  lemma AdvanceKeepsInv(s: State, tick: int, maxTime: int, t: nat)
    requires tick > 0 && maxTime >= 0 && Inv(s, tick, maxTime)
    ensures Inv(Advance(s, tick, t), tick, maxTime)
  {
    hide Stores, Wins, Adds, AddsSinceStore, WindowEnd, WellLogged, SwappingThreads, BusyThreads;
    var s' := Advance(s, tick, t);
    var p := PointOf(s, t);
    if p.Idle? {
      return;
    }
    assert PointOk(s, p, maxTime);
    SwappingMoves(s, s', t, PointOf(s', t));
    BusyMoves(s, s', t, PointOf(s', t));
    if s'.log != s.log {
      var h := s'.log[|s.log|];
      assert s'.log == s.log + [h];
      LogStep(s.log, h, tick);
      assert s'.log[..|s.log|] == s.log;
      assert WellLoggedAt(s'.log, |s.log|, tick);
      if h.Won? {
        assert (Wins(s.log) + 1) * tick == Wins(s.log) * tick + tick;
      }
    }
  }

  lemma {:induction false} RunKeepsInv(tick: int, maxTime: int, steps: seq<Step>)
    requires tick > 0 && maxTime >= 0 && TimesWithin(steps, maxTime)
    ensures Inv(Run(tick, steps), tick, maxTime)
    decreases |steps|
  {
    hide Inv, Apply;
    if steps == [] {
      InitialInv(tick, maxTime);
    } else {
      var n := |steps| - 1;
      RunKeepsInv(tick, maxTime, steps[..n]);
      StepKeepsInv(Run(tick, steps[..n]), tick, maxTime, steps[n]);
    }
  }

  lemma InitialInv(tick: int, maxTime: int)
    requires tick > 0 && maxTime >= 0
    ensures Inv(INITIAL, tick, maxTime)
  {
    assert SwappingThreads(INITIAL) == {} && BusyThreads(INITIAL) == {};
  }

  // ------------------------------------------------------------ main results

  /** In every interleaving each won swap opens a window at the end of the one before it and
      ends at least a tick later; every `Add` returns at least 2, so a call returns 1 exactly
      when it wins; and at most `maxTime / tick + 1` windows are ever opened. */
  lemma WindowsAdvance(tick: int, maxTime: int, steps: seq<Step>)
    requires tick > 0 && maxTime >= 0 && TimesWithin(steps, maxTime)
    ensures var log := Run(tick, steps).log;
            && (forall i | 0 <= i < |log| && log[i].Won? ::
                  log[i].before == WindowEnd(log[..i]) && log[i].after >= log[i].before + tick)
            && (forall i | 0 <= i < |log| && log[i].Added? :: log[i].v >= 2)
            && Wins(log) <= maxTime / tick + 1
  {
    RunKeepsInv(tick, maxTime, steps);
    var s := Run(tick, steps);
    hide Wins, WindowEnd, AddsSinceStore, Stores, Run;
    var log := s.log;
    forall i | 0 <= i < |log| && log[i].Won?
      ensures log[i].before == WindowEnd(log[..i]) && log[i].after >= log[i].before + tick
    {
      assert WellLoggedAt(log, i, tick);
    }
    forall i | 0 <= i < |log| && log[i].Added? ensures log[i].v >= 2 {
      assert WellLoggedAt(log, i, tick);
    }
    WindowBound(Wins(s.log), tick, maxTime);
  }

  lemma WindowBound(w: nat, tick: int, maxTime: int)
    requires tick > 0 && maxTime >= 0 && w * tick <= maxTime + tick
    ensures w <= maxTime / tick + 1
  {
    var q := maxTime / tick;
    assert maxTime < (q + 1) * tick;
    assert (w - 1) * tick == w * tick - tick;
    Cancel(w - 1, q + 1, tick);
  }

  lemma Cancel(a: int, b: int, t: int)
    requires t > 0 && a * t < b * t
    ensures a < b
  {
  }

  /** No call is lost or answered twice: in every interleaving the calls made so far are those
      that won, those that added, and those still running. */
  lemma EveryCallReturnsOnce(tick: int, maxTime: int, steps: seq<Step>)
    requires tick > 0 && maxTime >= 0 && TimesWithin(steps, maxTime)
    ensures var s := Run(tick, steps); s.calls == Wins(s.log) + Adds(s.log) + |BusyThreads(s)|
  {
    RunKeepsInv(tick, maxTime, steps);
  }

  /** In every interleaving the `Add`s between two consecutive `Store(1)` steps return the
      consecutive values 2, 3, 4, ... */
  lemma AddsCountFromStore(tick: int, maxTime: int, steps: seq<Step>, i: nat)
    requires tick > 0 && maxTime >= 0 && TimesWithin(steps, maxTime)
    requires i < |Run(tick, steps).log| && Run(tick, steps).log[i].Added?
    ensures var log := Run(tick, steps).log;
            Stores(log[..i]) > 0 && log[i].v == 2 + AddsSinceStore(log[..i])
  {
    RunKeepsInv(tick, maxTime, steps);
    hide Run;
    assert WellLoggedAt(Run(tick, steps).log, i, tick);
  }

  /** Between stores at most `first - 1` `Add`s are let through; the swap that follows a store
      lets through at most one call. */
  lemma {:induction false} LetThroughBound(log: seq<Happening>, tick: int, first: nat)
    requires WellLogged(log, tick) && first >= 1
    ensures Stores(log) == 0 ==> Through(log, first, 0) == Wins(log)
    ensures Stores(log) > 0 ==>
              Through(log, first, 0) <= (first - 1) * (Stores(log) - 1) + Min(first - 1, AddsSinceStore(log)) + Wins(log)
    decreases |log|
  {
    hide WellLogged, Stores, Wins, AddsSinceStore, Adds, WindowEnd, Through;
    if log == [] {
      EmptyLog(first);
    } else {
      var n := |log| - 1;
      var prefix, h := log[..n], log[n];
      assert log == prefix + [h];
      LastLogged(log, tick);
      LetThroughBound(prefix, tick, first);
      LogStep(prefix, h, tick);
      ThroughStep(prefix, h, first);
      if h.Stored? && Stores(prefix) > 0 {
        assert (first - 1) * Stores(prefix) == (first - 1) * (Stores(prefix) - 1) + (first - 1);
      }
    }
  }

  function Min(a: int, b: int): int {
    if a <= b then a else b
  }

  /** In every interleaving, with `thereafter` 0, the calls let through by one counter are at
      most `first` for each `Store(1)`, however late a losing thread resets; more exactly,
      `first - 1` for each store and one for each window. */
  lemma LetThroughPerStore(tick: int, maxTime: int, steps: seq<Step>, first: nat)
    requires tick > 0 && maxTime >= 0 && TimesWithin(steps, maxTime)
    ensures var log := Run(tick, steps).log;
            && Through(log, first, 0) <= first * Stores(log)
            && (first >= 1 ==> Through(log, first, 0) <= (first - 1) * Stores(log) + Wins(log))
  {
    var log := Run(tick, steps).log;
    hide Run, Stores, Wins, Through, WellLogged, AddsSinceStore;
    LogOfRun(tick, maxTime, steps);
    if first == 0 {
      NothingThrough(log, tick);
    } else {
      LetThroughBound(log, tick, first);
      PerStore(Through(log, first, 0), first, Stores(log), AddsSinceStore(log), Wins(log));
    }
  }

  lemma LogOfRun(tick: int, maxTime: int, steps: seq<Step>)
    requires tick > 0 && maxTime >= 0 && TimesWithin(steps, maxTime)
    ensures WellLogged(Run(tick, steps).log, tick) && Wins(Run(tick, steps).log) <= Stores(Run(tick, steps).log)
  {
    hide Run, Stores, Wins, WellLogged, AddsSinceStore, Adds, WindowEnd;
    RunKeepsInv(tick, maxTime, steps);
  }

  lemma PerStore(through: nat, first: nat, stores: nat, adds: nat, wins: nat)
    requires first >= 1 && wins <= stores && (stores == 0 ==> through == wins)
    requires stores > 0 ==> through <= (first - 1) * (stores - 1) + Min(first - 1, adds) + wins
    ensures through <= (first - 1) * stores + wins && through <= first * stores
  {
    assert first * stores == (first - 1) * stores + stores;
    assert (first - 1) * stores == (first - 1) * (stores - 1) + (first - 1);
  }

  lemma {:induction false} NothingThrough(log: seq<Happening>, tick: int)
    requires WellLogged(log, tick)
    ensures Through(log, 0, 0) == 0
    decreases |log|
  {
    if log != [] {
      var n := |log| - 1;
      LastLogged(log, tick);
      NothingThrough(log[..n], tick);
    }
  }

  // ------------------------------------------------------------ per window

  /** At most `first` calls get through for each window opened. */
  predicate PerWindow(tick: int, steps: seq<Step>, first: nat) {
    var log := Run(tick, steps).log;
    Through(log, first, 0) <= first * Wins(log)
  }

  /** In every interleaving in which no swap is lost or pending, at most `first` calls get
      through for each window. */
  lemma NoSwapLost(tick: int, maxTime: int, steps: seq<Step>, first: nat)
    requires tick > 0 && maxTime >= 0 && TimesWithin(steps, maxTime)
    requires Run(tick, steps).lost == 0 && SwappingThreads(Run(tick, steps)) == {}
    ensures PerWindow(tick, steps, first)
  {
    RunKeepsInv(tick, maxTime, steps);
    LetThroughPerStore(tick, maxTime, steps, first);
  }

  /** In every interleaving at all, it holds exactly for `first` up to 1. */
  lemma PerWindowExact(first: nat)
    ensures (forall tick: int, maxTime: int, steps: seq<Step> | tick > 0 && maxTime >= 0 && TimesWithin(steps, maxTime) ::
               PerWindow(tick, steps, first))
       <==> first <= 1
  {
    hide Run, Through, Wins, Stores, TimesWithin;
    if first <= 1 {
      forall tick: int, maxTime: int, steps: seq<Step> | tick > 0 && maxTime >= 0 && TimesWithin(steps, maxTime)
        ensures PerWindow(tick, steps, first)
      {
        LetThroughPerStore(tick, maxTime, steps, first);
      }
    } else {
      LateLoserOverSamples(first);
      LateTimes(first - 1, first - 2);
      assert TimesWithin(LateSteps(first - 1, first - 2), 5) && !PerWindow(10, LateSteps(first - 1, first - 2), first);
    }
  }

  // ------------------------------------------------- the bound is attained

  /** Two threads race for a window. */
  const RACE: seq<Step> := [Call(0, 0), Go(0), Call(1, 0), Go(1), Go(0), Go(0)]

  /** Then `n` more calls count in it. */
  function Counting(n: nat): seq<Step> {
    if n == 0 then RACE else Counting(n - 1) + [Call(2, 5)] + [Go(2)] + [Go(2)]
  }

  /** Then the loser stores, fails to swap, counts from 1 again, and `m` more calls count on. */
  function LateSteps(n: nat, m: nat): seq<Step> {
    if m == 0 then Counting(n) + [Go(1)] + [Go(1)] + [Go(1)]
    else LateSteps(n, m - 1) + [Call(2, 5)] + [Go(2)] + [Go(2)]
  }

  lemma {:induction false} LateTimes(n: nat, m: nat)
    ensures TimesWithin(Counting(n), 5) && TimesWithin(LateSteps(n, m), 5)
    decreases n + m
  {
    if m > 0 {
      LateTimes(n, m - 1);
    } else if n > 0 {
      LateTimes(n - 1, 0);
    }
  }

  lemma RunStep(tick: int, steps: seq<Step>, step: Step)
    ensures Run(tick, steps + [step]) == Apply(Run(tick, steps), tick, step)
  {
    assert (steps + [step])[..|steps|] == steps;
  }

  lemma ThroughStep(log: seq<Happening>, h: Happening, first: nat)
    ensures Through(log + [h], first, 0) == Through(log, first, 0) + OneThrough(h, first, 0)
  {
    assert (log + [h])[..|log|] == log;
  }

  lemma AfterRace()
    ensures Run(10, RACE) == State(10, 1, map[0 := Idle, 1 := Storing(0, 0)], [Stored, Won(0, 10)], 2, 0)
  {
    hide Run;
    var a: seq<Step> := [];
    assert Run(10, a) == INITIAL by { EmptyRun(10); }
    RunStep(10, a, Call(0, 0));
    RunStep(10, a + [Call(0, 0)], Go(0));
    RunStep(10, a + [Call(0, 0)] + [Go(0)], Call(1, 0));
    RunStep(10, a + [Call(0, 0)] + [Go(0)] + [Call(1, 0)], Go(1));
    var b := a + [Call(0, 0)] + [Go(0)] + [Call(1, 0)] + [Go(1)];
    assert Run(10, b) == State(0, 0, map[0 := Storing(0, 0), 1 := Storing(0, 0)], [], 2, 0);
    RunStep(10, b, Go(0));
    RunStep(10, b + [Go(0)], Go(0));
    assert b + [Go(0)] + [Go(0)] == RACE;
  }

  lemma EmptyRun(tick: int)
    ensures Run(tick, []) == INITIAL
  {
  }

  /** The counter stands at `n`, and thread 2 can count on. */
  predicate HasCounted(s: State, n: int, stores: nat, through: nat, first: nat) {
    && s.resetAt == 10 && s.counter == n && PointOf(s, 2) == Idle && s.lost == stores - 1
    && Wins(s.log) == 1 && Stores(s.log) == stores && Through(s.log, first, 0) == through
  }

  lemma CountOne(a: seq<Step>, n: int, stores: nat, through: nat, first: nat)
    requires HasCounted(Run(10, a), n, stores, through, first) && 0 <= n < first
    ensures var s := Run(10, a + [Call(2, 5)] + [Go(2)] + [Go(2)]);
            HasCounted(s, n + 1, stores, through + 1, first) && PointOf(s, 1) == PointOf(Run(10, a), 1)
  {
    hide Run, Stores, Wins, Through, AddsSinceStore, Adds, WindowEnd, WellLogged;
    var s := Run(10, a);
    RunStep(10, a, Call(2, 5));
    RunStep(10, a + [Call(2, 5)], Go(2));
    RunStep(10, a + [Call(2, 5)] + [Go(2)], Go(2));
    LogStep(s.log, Added(n + 1), 10);
    ThroughStep(s.log, Added(n + 1), first);
  }

  lemma {:induction false} CountingCounts(n: nat, first: nat)
    requires n < first
    ensures HasCounted(Run(10, Counting(n)), n + 1, 1, n + 1, first) && PointOf(Run(10, Counting(n)), 1) == Storing(0, 0)
  {
    hide Run, Stores, Wins, Through, AddsSinceStore, Adds, WindowEnd, WellLogged;
    if n == 0 {
      AfterRace();
      var l0: seq<Happening> := [];
      EmptyLog(first);
      LogStep(l0, Stored, 10);
      LogStep(l0 + [Stored], Won(0, 10), 10);
      ThroughStep(l0, Stored, first);
      ThroughStep(l0 + [Stored], Won(0, 10), first);
      assert l0 + [Stored] + [Won(0, 10)] == [Stored, Won(0, 10)];
    } else {
      CountingCounts(n - 1, first);
      CountOne(Counting(n - 1), n, 1, n, first);
    }
  }

  lemma EmptyLog(first: nat)
    ensures Stores([]) == 0 && Wins([]) == 0 && Through([], first, 0) == 0
  {
  }

  lemma LoserStores(a: seq<Step>, n: int, through: nat, first: nat)
    requires HasCounted(Run(10, a), n, 1, through, first) && PointOf(Run(10, a), 1) == Storing(0, 0) && first >= 2
    ensures HasCounted(Run(10, a + [Go(1)] + [Go(1)] + [Go(1)]), 2, 2, through + 1, first)
  {
    hide Run, Stores, Wins, Through, AddsSinceStore, Adds, WindowEnd, WellLogged;
    var s := Run(10, a);
    RunStep(10, a, Go(1));
    RunStep(10, a + [Go(1)], Go(1));
    RunStep(10, a + [Go(1)] + [Go(1)], Go(1));
    LogStep(s.log, Stored, 10);
    LogStep(s.log + [Stored], Added(2), 10);
    ThroughStep(s.log, Stored, first);
    ThroughStep(s.log + [Stored], Added(2), first);
  }

  lemma {:induction false} LateCounts(n: nat, m: nat, first: nat)
    requires n < first && m + 2 <= first
    ensures HasCounted(Run(10, LateSteps(n, m)), m + 2, 2, n + m + 2, first)
    decreases m
  {
    hide Run, HasCounted;
    if m == 0 {
      CountingCounts(n, first);
      LoserStores(Counting(n), n + 1, n + 1, first);
    } else {
      LateCounts(n, m - 1, first);
      CountOne(LateSteps(n, m - 1), m + 1, 2, n + m + 1, first);
    }
  }

  /** For every `first` from 2 on, one losing thread that resets late lets `2 * first - 1`
      calls through in one window: the bound of `LetThroughPerStore` is attained. */
  lemma LateLoserOverSamples(first: nat)
    requires first >= 2
    ensures var s := Run(10, LateSteps(first - 1, first - 2));
            && Wins(s.log) == 1 && s.lost == 1
            && Through(s.log, first, 0) == 2 * first - 1 == (first - 1) * Stores(s.log) + Wins(s.log)
  {
    hide Run, Stores, Wins, Through;
    LateCounts(first - 1, first - 2, first);
  }
}
