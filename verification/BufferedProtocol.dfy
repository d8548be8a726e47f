/**
  The locking protocol of the buffered write syncer as a transition system: any number of
  threads write, sync and stop, a background flusher selects between ticks and the stop
  channel, and one mutex guards the state. A label carries what the call it ends returned.
 */
module BufferedProtocol {
  import opened Common
  import opened Utf8
  import opened Bufio

  datatype Op = Write(bs: Bytes) | Sync | Stop

  /** Where a thread is. `AwaitDone` receives from the done channel outside the lock;
      `WantFinal` and `HoldingFinal` are the Sync at the end of Stop. */
  datatype Point = Idle | Want(op: Op) | Holding(op: Op) | AwaitDone | WantFinal | HoldingFinal

  datatype Flusher = NotStarted | Selecting | WantsLock | Syncing | Exited

  datatype Owner = Nobody | Thread(t: nat) | Background

  /** Everything but the stored bytes: what calls and their results determine. */
  datatype Control = Control(
    mutex: Owner, initialized: bool, stopped: bool,
    stopCloses: nat, doneCloses: nat, tickerOn: bool, tickPending: bool,
    flusher: Flusher, threads: map<nat, Point>,
    accepted: seq<Bytes>, attempted: seq<Bytes>)

  datatype State = State(c: Control, store: Store)

  datatype Label =
    | Begin(t: nat, op: Op)
    | Acquire(t: nat)
    | Body(t: nat, ok: bool)
    | SeeDone(t: nat)
    | Tick
    | FlusherTick
    | FlusherAcquire
    | FlusherBody
    | FlusherStop

  const NO_CALLS := Control(Nobody, false, false, 0, 0, false, false, NotStarted, map[], [], [])
  const INITIAL := State(NO_CALLS, Store([], [], false))

  function PointOf(c: Control, t: nat): Point {
    if t in c.threads then c.threads[t] else Idle
  }

  function Move(c: Control, t: nat, p: Point): Control {
    c.(threads := c.threads[t := p])
  }

  /** `initialize`, which also starts the flusher. */
  function Initialized(c: Control): Control {
    if c.initialized then c else c.(initialized := true, tickerOn := true, flusher := Selecting)
  }

  /** Can the step be taken? */
  predicate Enabled(c: Control, l: Label) {
    match l
    case Begin(t, op) => PointOf(c, t).Idle?
    case Acquire(t) => c.mutex.Nobody? && (PointOf(c, t).Want? || PointOf(c, t).WantFinal?)
    case Body(t, ok) => PointOf(c, t).Holding? || PointOf(c, t).HoldingFinal?
    case SeeDone(t) => PointOf(c, t).AwaitDone? && c.doneCloses > 0
    case Tick => c.tickerOn
    case FlusherTick => c.flusher.Selecting? && c.tickPending
    case FlusherAcquire => c.flusher.WantsLock? && c.mutex.Nobody?
    case FlusherBody => c.flusher.Syncing?
    case FlusherStop => c.flusher.Selecting? && c.stopCloses > 0
  }

  function After(c: Control, l: Label): Control {
    match l
    case Begin(t, op) => Move(c, t, Want(op))
    case Acquire(t) =>
      Move(c, t, if PointOf(c, t).Want? then Holding(PointOf(c, t).op) else HoldingFinal).(mutex := Thread(t))
    case Body(t, ok) => AfterBody(c, t, ok)
    case SeeDone(t) => Move(c, t, WantFinal)
    case Tick => c.(tickPending := true)
    case FlusherTick => c.(tickPending := false, flusher := WantsLock)
    case FlusherAcquire => c.(mutex := Background, flusher := Syncing)
    case FlusherBody => c.(flusher := Selecting, mutex := Nobody)
    case FlusherStop => c.(flusher := Exited, doneCloses := c.doneCloses + 1)
  }

  /** The critical section of a thread, up to and including the unlock. */
  function AfterBody(c: Control, t: nat, ok: bool): Control {
    match PointOf(c, t)
    case Holding(Write(bs)) =>
      Move(Initialized(c), t, Idle).(mutex := Nobody, attempted := c.attempted + [bs],
                                     accepted := if ok then c.accepted + [bs] else c.accepted)
    case Holding(Stop) =>
      if !c.initialized || c.stopped then Move(c, t, Idle).(mutex := Nobody)
      else Move(c, t, AwaitDone).(mutex := Nobody, stopped := true, tickerOn := false, stopCloses := c.stopCloses + 1)
    case _ => Move(c, t, Idle).(mutex := Nobody)
  }

  /** What the step does to the stored bytes. */
  ghost predicate StoreRel(s: State, l: Label, d: Store) {
    match l
    case Body(t, ok) =>
      (match PointOf(s.c, t)
       case Holding(Write(bs)) => WriteRel(s.store, d, bs, ok)
       case Holding(Stop) => ok && d == s.store
       case _ => SyncRel(s, ok, d))
    case FlusherBody => SyncRel(s, false, d)  // whose result is ignored
    case _ => d == s.store
  }

  /** `Sync` flushes if there is a writer and then syncs the sink, either of which may fail. */
  ghost predicate SyncRel(s: State, ok: bool, d: Store) {
    FlushesTo(s, d, true) || (!ok && FlushesTo(s, d, false))
  }

  ghost predicate FlushesTo(s: State, d: Store, flushed: bool) {
    if s.c.initialized then FlushRel(s.store, d, flushed) else d == s.store && flushed
  }

  ghost predicate Next(s: State, l: Label, s': State) {
    Enabled(s.c, l) && s'.c == After(s.c, l) && StoreRel(s, l, s'.store)
  }

  /** A run from the initial state. */
  ghost predicate IsRun(states: seq<State>, labels: seq<Label>) {
    && |states| == |labels| + 1 && states[0] == INITIAL
    && forall i | 0 <= i < |labels| :: Next(states[i], labels[i], states[i + 1])
  }

  // -------------------------------------------------------------- invariant

  /** A thread that has closed the stop channel and has not returned yet. */
  predicate Stopping(p: Point) {
    p.AwaitDone? || p.WantFinal? || p.HoldingFinal?
  }

  predicate PointOk(c: Control, t: nat) {
    var p := PointOf(c, t);
    && (c.mutex == Thread(t) <==> p.Holding? || p.HoldingFinal?)
    && (Stopping(p) ==> c.stopped)
    && (p.WantFinal? || p.HoldingFinal? ==> c.flusher.Exited?)
  }

  ghost predicate ControlInv(c: Control) {
    && (forall t: nat :: PointOk(c, t))
    && (forall t: nat, u: nat :: Stopping(PointOf(c, t)) && Stopping(PointOf(c, u)) ==> t == u)
    && (c.mutex.Background? <==> c.flusher.Syncing?)
    && c.stopCloses == (if c.stopped then 1 else 0)
    && c.doneCloses == (if c.flusher.Exited? then 1 else 0)
    && (c.initialized <==> !c.flusher.NotStarted?)
    && (c.stopped ==> c.initialized)
    && (c.flusher.Exited? ==> c.stopped)
    && (c.tickerOn <==> c.initialized && !c.stopped)
    && (c.tickPending ==> c.initialized)
  }

  ghost predicate DataInv(s: State) {
    && s.store.Stream() <= Flatten(s.c.attempted)
    && (!s.store.err ==> s.store.Stream() == Flatten(s.c.accepted) && s.c.accepted == s.c.attempted)
    && (!s.c.initialized ==> s.store == Store([], [], false) && s.c.accepted == [])
  }

  lemma ControlKept(c: Control, l: Label)
    requires ControlInv(c) && Enabled(c, l)
    ensures ControlInv(After(c, l))
  {
    match l
    case Body(t, ok) => BodyKeepsControl(c, t, ok);
    case _ =>
      hide AfterBody;
      var c' := After(c, l);
      forall t: nat ensures PointOk(c', t) { assert PointOk(c, t); }
      forall t: nat, u: nat | Stopping(PointOf(c', t)) && Stopping(PointOf(c', u)) ensures t == u {
        assert Stopping(PointOf(c, t)) && Stopping(PointOf(c, u));
      }
  }

  lemma BodyKeepsControl(c: Control, t: nat, ok: bool)
    requires ControlInv(c) && (PointOf(c, t).Holding? || PointOf(c, t).HoldingFinal?)
    ensures ControlInv(AfterBody(c, t, ok))
  {
    var c' := AfterBody(c, t, ok);
    assert PointOk(c, t);
    if PointOf(c, t) == Holding(Stop) && c.initialized && !c.stopped {
      StopKeepsControl(c, t);
    } else {
      LeavesPoints(c, t, c');
    }
  }

  /** A thread that leaves its critical section disturbs no other. */
  lemma LeavesPoints(c: Control, t: nat, c': Control)
    requires ControlInv(c) && c.mutex == Thread(t)
    requires c'.threads == c.threads[t := Idle] && c'.mutex.Nobody? && c'.stopped == c.stopped
    requires c'.flusher.Exited? <==> c.flusher.Exited?
    ensures forall u: nat :: PointOk(c', u)
    ensures forall u: nat, v: nat :: Stopping(PointOf(c', u)) && Stopping(PointOf(c', v)) ==> u == v
  {
    forall u: nat ensures PointOk(c', u) { assert PointOk(c, u); }
    forall u: nat, v: nat | Stopping(PointOf(c', u)) && Stopping(PointOf(c', v)) ensures u == v {
      assert Stopping(PointOf(c, u)) && Stopping(PointOf(c, v));
    }
  }

  lemma StopKeepsControl(c: Control, t: nat)
    requires ControlInv(c) && PointOf(c, t) == Holding(Stop) && c.initialized && !c.stopped
    ensures ControlInv(AfterBody(c, t, true))
  {
    var c' := AfterBody(c, t, true);
    assert PointOk(c, t);
    forall u: nat ensures PointOk(c', u) { assert PointOk(c, u); }
    forall u: nat | Stopping(PointOf(c', u)) ensures u == t { assert PointOk(c, u); }
  }

  lemma DataKept(s: State, l: Label, s': State)
    requires DataInv(s) && Next(s, l, s')
    ensures DataInv(s') && s.store.sink <= s'.store.sink
  {
    hide WriteRel, SyncRel, DataInv;
    if l.Body? && PointOf(s.c, l.t).Holding? && PointOf(s.c, l.t).op.Write? {
      WriteKeepsData(s, l, s');
    } else if l.FlusherBody? || (l.Body? && PointOf(s.c, l.t) != Holding(Stop)) {
      SyncKeepsData(s, l.Body? && l.ok, s');
    } else {
      SameData(s, s');
    }
  }

  lemma SameData(s: State, s': State)
    requires DataInv(s) && s'.store == s.store && s'.c.accepted == s.c.accepted && s'.c.attempted == s.c.attempted
    requires s'.c.initialized == s.c.initialized
    ensures DataInv(s') && s.store.sink <= s'.store.sink
  {
  }

  lemma WriteKeepsData(s: State, l: Label, s': State)
    requires DataInv(s) && Next(s, l, s') && l.Body? && PointOf(s.c, l.t).Holding? && PointOf(s.c, l.t).op.Write?
    ensures DataInv(s') && s.store.sink <= s'.store.sink
  {
    hide Flatten;
    FlattenAppend(s.c.attempted, PointOf(s.c, l.t).op.bs);
  }

  lemma SyncKeepsData(s: State, ok: bool, s': State)
    requires DataInv(s) && SyncRel(s, ok, s'.store)
    requires s'.c.initialized == s.c.initialized && s'.c.accepted == s.c.accepted && s'.c.attempted == s.c.attempted
    ensures DataInv(s') && s.store.sink <= s'.store.sink
    ensures !s'.store.err ==> s'.store.sink == Flatten(s'.c.accepted)
    ensures ok ==> !s'.store.err
  {
    hide Flatten;
    if !s.c.initialized {
      FlattenNothing<Byte>();
    }
  }

  lemma InitialInv()
    ensures ControlInv(INITIAL.c) && DataInv(INITIAL)
  {
  }

  lemma {:induction false} RunInv(states: seq<State>, labels: seq<Label>, i: nat)
    requires IsRun(states, labels) && i < |states|
    ensures ControlInv(states[i].c) && DataInv(states[i])
  {
    hide ControlInv, DataInv, Enabled, After, StoreRel;
    if i == 0 {
      InitialInv();
    } else {
      RunInv(states, labels, i - 1);
      assert Next(states[i - 1], labels[i - 1], states[i - 1 + 1]);
      ControlKept(states[i - 1].c, labels[i - 1]);
      DataKept(states[i - 1], labels[i - 1], states[i]);
    }
  }

  // ------------------------------------------------------------ main results

  /** In every run: the stop channel and the done channel are closed at most once, and no
      thread waits for the flusher while it holds the mutex. */
  lemma ChannelsClosedOnce(states: seq<State>, labels: seq<Label>, i: nat, t: nat)
    requires IsRun(states, labels) && i < |states|
    ensures states[i].c.stopCloses <= 1 && states[i].c.doneCloses <= 1
    ensures PointOf(states[i].c, t).AwaitDone? ==> states[i].c.mutex != Thread(t)
  {
    hide IsRun;
    RunInv(states, labels, i);
    assert PointOk(states[i].c, t);
  }

  /** Steps of calls in progress and of the flusher, as opposed to new calls and ticks. */
  predicate IsProgress(l: Label) {
    !l.Begin? && !l.Tick?
  }

  /** No call is ever stuck: as long as some call has not returned, a Stop that waits for the
      flusher or for its final Sync included, a call in progress or the flusher can step. */
  lemma NoCallIsStuck(states: seq<State>, labels: seq<Label>, i: nat, t: nat) returns (l: Label, s': State)
    requires IsRun(states, labels) && i < |states| && !PointOf(states[i].c, t).Idle?
    ensures IsProgress(l) && Next(states[i], l, s')
  {
    hide IsRun, StoreRel, After, DataInv;
    var s := states[i];
    RunInv(states, labels, i);
    l := EnabledStep(s.c, t);
    var d;
    l, d := CanStore(s, l);
    s' := State(After(s.c, l), d);
  }

  lemma EnabledStep(c: Control, t: nat) returns (l: Label)
    requires ControlInv(c) && !PointOf(c, t).Idle?
    ensures IsProgress(l) && Enabled(c, l)
  {
    assert PointOk(c, t);
    match c.mutex
    case Thread(u) =>
      assert PointOk(c, u);
      l := Body(u, true);
    case Background => l := FlusherBody;
    case Nobody =>
      match PointOf(c, t)
      case AwaitDone =>
        l := match c.flusher case Exited => SeeDone(t) case WantsLock => FlusherAcquire case _ => FlusherStop;
      case _ => l := Acquire(t);
  }

  /** Every enabled step can do something to the store, with one result or the other. */
  lemma CanStore(s: State, l: Label) returns (l': Label, d: Store)
    requires Enabled(s.c, l)
    ensures (l' == l || (l.Body? && l'.Body? && l'.t == l.t)) && Enabled(s.c, l') && StoreRel(s, l', d)
  {
    l', d := l, s.store;
    if l.FlusherBody? || (l.Body? && (PointOf(s.c, l.t).HoldingFinal? || PointOf(s.c, l.t).op.Sync?)) {
      d := if s.c.initialized && !s.store.err then Store(s.store.Stream(), [], false) else s.store;
      l' := if l.Body? then Body(l.t, s.c.initialized ==> !s.store.err) else l;
    } else if l.Body? && PointOf(s.c, l.t).op.Write? {
      var bs := PointOf(s.c, l.t).op.bs;
      d := if s.store.err then s.store else Store(s.store.sink, s.store.buf + bs, false);
      l' := Body(l.t, !s.store.err);
      assert s.store.sink + (s.store.buf + bs) == s.store.sink + s.store.buf + bs;
    } else if l.Body? {
      l' := Body(l.t, true);
    }
  }

  /** Syncs the flusher can still start or finish once the stop channel is closed: the one it
      is in, and one for a tick that was already pending. */
  function SyncsLeft(c: Control): nat {
    (if c.flusher.WantsLock? || c.flusher.Syncing? then 1 else 0) + (if c.tickPending then 1 else 0)
  }

  /** Steps the flusher can still take. */
  function StepsLeft(c: Control): nat {
    (match c.flusher case WantsLock => 3 case Syncing => 2 case Selecting => 1 case _ => 0)
    + (if c.tickPending then 3 else 0)
  }

  predicate IsFlusherStep(l: Label) {
    l.FlusherTick? || l.FlusherAcquire? || l.FlusherBody? || l.FlusherStop?
  }

  lemma FlusherWindsDown(c: Control, l: Label)
    requires ControlInv(c) && c.stopped && Enabled(c, l)
    ensures var c' := After(c, l);
            && c'.stopped && !c'.flusher.NotStarted?
            && SyncsLeft(c') + (if l.FlusherBody? then 1 else 0) <= SyncsLeft(c)
            && StepsLeft(c') + (if IsFlusherStep(l) then 1 else 0) <= StepsLeft(c)
  {
  }

  function CountSyncs(labels: seq<Label>): nat {
    if labels == [] then 0 else CountSyncs(labels[..|labels| - 1]) + if labels[|labels| - 1].FlusherBody? then 1 else 0
  }

  function CountFlusherSteps(labels: seq<Label>): nat {
    if labels == [] then 0 else CountFlusherSteps(labels[..|labels| - 1]) + if IsFlusherStep(labels[|labels| - 1]) then 1 else 0
  }

  /** Once some Stop has closed the stop channel, the flusher takes at most six more steps, and
      syncs at most once beyond a sync it has already begun: for a tick left pending. When it
      has no step left it has exited. */
  lemma {:induction false} FlusherExits(states: seq<State>, labels: seq<Label>, i: nat, j: nat)
    requires IsRun(states, labels) && i <= j < |states| && states[i].c.stopped
    ensures states[j].c.stopped
    ensures CountSyncs(labels[i..j]) + SyncsLeft(states[j].c) <= SyncsLeft(states[i].c) <= 2
    ensures CountFlusherSteps(labels[i..j]) + StepsLeft(states[j].c) <= StepsLeft(states[i].c) <= 6
    ensures StepsLeft(states[j].c) == 0 ==> states[j].c.flusher.Exited?
    decreases j
  {
    hide DataInv, Enabled, After, StoreRel, IsFlusherStep;
    RunInv(states, labels, j);
    hide ControlInv;
    if i == j {
      assert labels[i..j] == [];
    } else {
      FlusherExits(states, labels, i, j - 1);
      RunInv(states, labels, j - 1);
      assert Next(states[j - 1], labels[j - 1], states[j - 1 + 1]);
      FlusherWindsDown(states[j - 1].c, labels[j - 1]);
      assert labels[i..j][..j - 1 - i] == labels[i..j - 1];
    }
  }

  lemma {:induction false} SinkOnlyGrows(states: seq<State>, labels: seq<Label>, i: nat, j: nat)
    requires IsRun(states, labels) && i <= j < |states|
    ensures states[i].store.sink <= states[j].store.sink
    decreases j
  {
    hide ControlInv, DataInv, Next;
    if i < j {
      SinkOnlyGrows(states, labels, i, j - 1);
      RunInv(states, labels, j - 1);
      assert Next(states[j - 1], labels[j - 1], states[j - 1 + 1]);
      DataKept(states[j - 1], labels[j - 1], states[j]);
    }
  }

  /** The Stop that closed the stop channel, if it returns without error at step `i`, leaves
      in the sink, for good, every record accepted before its final Sync; and it returns only
      after the flusher has exited. */
  lemma WinningStopFlushes(states: seq<State>, labels: seq<Label>, i: nat, j: nat, t: nat)
    requires IsRun(states, labels) && i < j < |states|
    requires labels[i] == Body(t, true) && PointOf(states[i].c, t).HoldingFinal?
    ensures states[i + 1].c.accepted == states[i].c.accepted
    ensures states[i + 1].store.sink == Flatten(states[i].c.accepted)
    ensures Flatten(states[i].c.accepted) <= states[j].store.sink
    ensures states[i].c.flusher.Exited?
  {
    hide ControlInv, DataInv, Flatten, SyncRel;
    RunInv(states, labels, i);
    assert Next(states[i], labels[i], states[i + 1]);
    SyncKeepsData(states[i], true, states[i + 1]);
    SinkOnlyGrows(states, labels, i + 1, j);
    assert PointOk(states[i].c, t) by { ControlPoint(states[i].c, t); }
  }

  lemma ControlPoint(c: Control, t: nat)
    requires ControlInv(c)
    ensures PointOk(c, t)
  {
  }

  // ------------------------------------------------------- building runs

  lemma Extend(states: seq<State>, labels: seq<Label>, l: Label, d: Store) returns (states': seq<State>, labels': seq<Label>)
    requires IsRun(states, labels)
    requires var s := states[|labels|]; Enabled(s.c, l) && StoreRel(s, l, d)
    ensures IsRun(states', labels') && |states'| == |labels'| + 1 && labels' == labels + [l]
    ensures states' == states + [State(After(states[|labels|].c, l), d)]
  {
    hide Enabled, After, StoreRel;
    states', labels' := states + [State(After(states[|labels|].c, l), d)], labels + [l];
    forall i | 0 <= i < |labels'| ensures Next(states'[i], labels'[i], states'[i + 1]) {
      if i < |labels| {
        assert Next(states[i], labels[i], states[i + 1]);
      }
    }
  }

  lemma SizeOfRun(states: seq<State>, labels: seq<Label>)
    requires IsRun(states, labels)
    ensures |states| == |labels| + 1
  {
  }

  lemma NoStoreChange(s: State, l: Label)
    requires !l.Body? && !l.FlusherBody?
    ensures StoreRel(s, l, s.store)
  {
  }
}
