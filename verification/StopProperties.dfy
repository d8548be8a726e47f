/**
  What a Stop leaves in the sink. The Stop that closes the stop channel flushes; any other
  returns at once. Here is when the latter nevertheless leaves every accepted record in the
  sink, in terms of the calls before it.
 */
module StopProperties {
  import opened Common
  import opened Utf8
  import opened Bufio
  import opened BufferedProtocol

  // ------------------------------------------------------------- what calls do

  /** A Write that takes its record. */
  predicate Accepts(c: Control, l: Label) {
    l.Body? && l.ok && PointOf(c, l.t).Holding? && PointOf(c, l.t).op.Write?
  }

  predicate AcceptsBytes(c: Control, l: Label) {
    Accepts(c, l) && PointOf(c, l.t).op.bs != []
  }

  predicate Rejects(c: Control, l: Label) {
    l.Body? && !l.ok && PointOf(c, l.t).Holding? && PointOf(c, l.t).op.Write?
  }

  /** A flush: the background one, a Sync, or the Sync that ends a Stop. */
  predicate IsSync(c: Control, l: Label) {
    l.FlusherBody? || (l.Body? && (PointOf(c, l.t) == Holding(Sync) || PointOf(c, l.t).HoldingFinal?))
  }

  /** A Stop that finds the syncer uninitialized or already stopped. */
  predicate LosesStop(c: Control, l: Label) {
    l.Body? && PointOf(c, l.t) == Holding(Stop) && (!c.initialized || c.stopped)
  }

  // ---------------------------------------------------- when all is in the sink

  /** No bytes are accepted in steps `k` to `i`. */
  ghost predicate NothingAccepted(states: seq<State>, labels: seq<Label>, k: nat, i: nat)
    requires i <= |labels| <= |states|
  {
    forall m | k <= m < i :: !AcceptsBytes(states[m].c, labels[m])
  }

  /** Step `k` is a sync known to have flushed: it returned nil, or a later Write before `i`
      still took a record, which none does after a failed flush. */
  ghost predicate Certified(states: seq<State>, labels: seq<Label>, k: nat, i: nat)
    requires k < i <= |labels| <= |states|
  {
    && IsSync(states[k].c, labels[k])
    && ((labels[k].Body? && labels[k].ok) || exists m | k < m < i :: Accepts(states[m].c, labels[m]))
  }

  /** Judging by the calls alone: after the start, or after a sync known to have flushed, no
      bytes have been accepted. */
  ghost predicate FlushedBefore(states: seq<State>, labels: seq<Label>, i: nat)
    requires i <= |labels| <= |states|
  {
    exists k | 0 <= k <= i :: NothingAccepted(states, labels, k, i) && (k == 0 || Certified(states, labels, k - 1, i))
  }

  lemma StepAccepts(s: State, l: Label, s': State)
    requires Next(s, l, s')
    ensures s'.c.accepted == if Accepts(s.c, l) then s.c.accepted + [PointOf(s.c, l.t).op.bs] else s.c.accepted
    ensures s.store.err ==> s'.store.err && !Accepts(s.c, l)
    ensures Rejects(s.c, l) ==> s'.store.err
    ensures Accepts(s.c, l) || s.c.initialized ==> s'.c.initialized
  {
  }

  lemma {:induction false} AcceptedSame(states: seq<State>, labels: seq<Label>, k: nat, i: nat)
    requires IsRun(states, labels) && k <= i <= |labels| && NothingAccepted(states, labels, k, i)
    ensures Flatten(states[i].c.accepted) == Flatten(states[k].c.accepted)
    decreases i
  {
    hide Next, Flatten;
    if k < i {
      AcceptedSame(states, labels, k, i - 1);
      assert Next(states[i - 1], labels[i - 1], states[i - 1 + 1]);
      StepAccepts(states[i - 1], labels[i - 1], states[i]);
      if Accepts(states[i - 1].c, labels[i - 1]) {
        assert !AcceptsBytes(states[i - 1].c, labels[i - 1]);
        FlattenAppend(states[i - 1].c.accepted, []);
      }
    }
  }

  /** The error sticks: a Write that takes its record shows there was none before. */
  lemma {:induction false} NoErrorBefore(states: seq<State>, labels: seq<Label>, k: nat, m: nat)
    requires IsRun(states, labels) && k <= m < |labels| && Accepts(states[m].c, labels[m])
    ensures !states[k].store.err
    decreases m - k
  {
    hide Next, Accepts, Rejects;
    assert Next(states[k], labels[k], states[k + 1]);
    StepAccepts(states[k], labels[k], states[k + 1]);
    if k < m {
      NoErrorBefore(states, labels, k + 1, m);
    }
  }

  lemma CertifiedFlushes(states: seq<State>, labels: seq<Label>, k: nat, i: nat)
    requires IsRun(states, labels) && k < i <= |labels| && Certified(states, labels, k, i)
    ensures states[k + 1].store.sink == Flatten(states[k + 1].c.accepted)
  {
    var s, l, s' := states[k], labels[k], states[k + 1];
    assert Next(s, l, s');
    if !(l.Body? && l.ok) {
      var m :| k < m < i && Accepts(states[m].c, labels[m]);
      NoErrorBefore(states, labels, k + 1, m);
    }
    RunInv(states, labels, k);
    hide Flatten, DataInv, ControlInv, SyncRel;
    SyncKeepsData(s, l.Body? && l.ok, s');
  }

  /** Whatever the run, after calls like these every accepted record is in the sink. */
  lemma FlushedIsInSink(states: seq<State>, labels: seq<Label>, i: nat)
    requires IsRun(states, labels) && i <= |labels| && FlushedBefore(states, labels, i)
    ensures Flatten(states[i].c.accepted) <= states[i].store.sink
  {
    hide NothingAccepted, Certified, Next, Flatten;
    var k :| 0 <= k <= i && NothingAccepted(states, labels, k, i) && (k == 0 || Certified(states, labels, k - 1, i));
    AcceptedSame(states, labels, k, i);
    if k == 0 {
      FlattenNothing<Byte>();
    } else {
      CertifiedFlushes(states, labels, k - 1, i);
      SinkOnlyGrows(states, labels, k, i);
    }
  }

  // ------------------------------------- the same calls, the record not flushed

  /** The last step before `i` that accepts bytes. */
  lemma {:induction false} LastAccepting(states: seq<State>, labels: seq<Label>, i: nat) returns (j: nat)
    requires i <= |labels| <= |states| && !NothingAccepted(states, labels, 0, i)
    ensures j < i && AcceptsBytes(states[j].c, labels[j]) && NothingAccepted(states, labels, j + 1, i)
    decreases i
  {
    if AcceptsBytes(states[i - 1].c, labels[i - 1]) {
      j := i - 1;
    } else {
      j := LastAccepting(states, labels, i - 1);
    }
  }

  /** Some sync or rejected Write in the steps after `j` and before `n`. */
  predicate Broken(states: seq<State>, labels: seq<Label>, j: nat, n: nat)
    requires j < n <= |labels| <= |states|
  {
    exists m | j < m < n :: IsSync(states[m].c, labels[m]) || Rejects(states[m].c, labels[m])
  }

  /** The state at `n` if the record accepted at `j` goes to the buffer and the next sync or
      rejected Write breaks the sink. */
  function Unflushed(states: seq<State>, labels: seq<Label>, j: nat, n: nat): State
    requires n <= |labels| < |states| && j < |labels| && Accepts(states[j].c, labels[j])
  {
    if n <= j then states[n]
    else
      var d := states[j].store;
      states[n].(store := Store(d.sink, d.buf + PointOf(states[j].c, labels[j].t).op.bs, Broken(states, labels, j, n)))
  }

  lemma BrokenStep(states: seq<State>, labels: seq<Label>, j: nat, n: nat)
    requires j < n < |labels| <= |states|
    ensures Broken(states, labels, j, n + 1)
       <==> Broken(states, labels, j, n) || IsSync(states[n].c, labels[n]) || Rejects(states[n].c, labels[n])
  {
    hide IsSync, Rejects;
  }

  lemma NotBroken(states: seq<State>, labels: seq<Label>, j: nat)
    requires j < |labels| <= |states|
    ensures !Broken(states, labels, j, j + 1)
  {
  }

  lemma FlushedSince(states: seq<State>, labels: seq<Label>, k: nat, i: nat)
    requires k < i <= |labels| <= |states| && NothingAccepted(states, labels, k + 1, i) && Certified(states, labels, k, i)
    ensures FlushedBefore(states, labels, i)
  {
    hide NothingAccepted, Certified;
    assert Certified(states, labels, k + 1 - 1, i);
  }

  /** After the last accepted bytes, a Write that accepts follows no sync and no rejection. */
  lemma AcceptsUnbroken(states: seq<State>, labels: seq<Label>, i: nat, j: nat, n: nat)
    requires IsRun(states, labels) && j < n < i <= |labels|
    requires NothingAccepted(states, labels, j + 1, i) && !FlushedBefore(states, labels, i)
    requires Accepts(states[n].c, labels[n])
    ensures !Broken(states, labels, j, n)
  {
    hide Next, Accepts, AcceptsBytes, FlushedBefore;
    if Broken(states, labels, j, n) {
      var m :| j < m < n && (IsSync(states[m].c, labels[m]) || Rejects(states[m].c, labels[m]));
      if IsSync(states[m].c, labels[m]) {
        FlushedSince(states, labels, m, i);
      } else {
        assert Next(states[m], labels[m], states[m + 1]);
        StepAccepts(states[m], labels[m], states[m + 1]);
        NoErrorBefore(states, labels, m + 1, n);
      }
      assert false;
    }
  }

  lemma SyncFails(states: seq<State>, labels: seq<Label>, i: nat, j: nat, n: nat)
    requires j < n < i <= |labels| <= |states|
    requires NothingAccepted(states, labels, j + 1, i) && !FlushedBefore(states, labels, i)
    requires labels[n].Body? && IsSync(states[n].c, labels[n])
    ensures !labels[n].ok
  {
    hide IsSync, AcceptsBytes, FlushedBefore;
    if labels[n].ok {
      FlushedSince(states, labels, n, i);
    }
  }

  lemma UnflushedStart(states: seq<State>, labels: seq<Label>, j: nat)
    requires IsRun(states, labels) && j < |labels| && Accepts(states[j].c, labels[j])
    ensures Next(Unflushed(states, labels, j, j), labels[j], Unflushed(states, labels, j, j + 1))
  {
    var s, l := states[j], labels[j];
    var bs := PointOf(s.c, l.t).op.bs;
    var d := Store(s.store.sink, s.store.buf + bs, false);
    assert Next(s, l, states[j + 1]);
    StepAccepts(s, l, states[j + 1]);
    NotBroken(states, labels, j);
    hide Broken, IsRun, Flatten;
    assert d.Stream() == s.store.Stream() + bs;
    assert WriteRel(s.store, d, bs, true);
  }

  lemma UnflushedSync(s: State, l: Label, s': State, sink: Bytes, buf: Bytes, err: bool)
    requires Next(s, l, s') && IsSync(s.c, l) && (l.Body? ==> !l.ok) && s.c.initialized
    ensures Next(s.(store := Store(sink, buf, err)), l, s'.(store := Store(sink, buf, true)))
  {
    assert FlushesTo(s.(store := Store(sink, buf, err)), Store(sink, buf, true), false);
  }

  lemma UnflushedWrite(s: State, l: Label, s': State, sink: Bytes, buf: Bytes, err: bool)
    requires Next(s, l, s') && (Rejects(s.c, l) || (Accepts(s.c, l) && !AcceptsBytes(s.c, l) && !err))
    ensures Next(s.(store := Store(sink, buf, err)), l, s'.(store := Store(sink, buf, Rejects(s.c, l))))
  {
    var bs := PointOf(s.c, l.t).op.bs;
    var d, d' := Store(sink, buf, err), Store(sink, buf, Rejects(s.c, l));
    assert d'.Stream() <= d.Stream() + bs;
    assert d.Stream() + [] == d.Stream();
    assert WriteRel(d, d', bs, l.ok);
  }

  lemma UnflushedOther(s: State, l: Label, s': State, d: Store)
    requires Next(s, l, s') && !IsSync(s.c, l) && !Rejects(s.c, l) && !Accepts(s.c, l)
    ensures Next(s.(store := d), l, s'.(store := d))
  {
    hide SyncRel, WriteRel, After;
  }

  lemma UnflushedStep(states: seq<State>, labels: seq<Label>, i: nat, j: nat, n: nat)
    requires IsRun(states, labels) && j < n <= i < |labels| && Accepts(states[j].c, labels[j])
    requires NothingAccepted(states, labels, j + 1, i) && !FlushedBefore(states, labels, i)
    requires LosesStop(states[i].c, labels[i])
    ensures Next(Unflushed(states, labels, j, n), labels[n], Unflushed(states, labels, j, n + 1))
  {
    var s, l, s' := states[n], labels[n], states[n + 1];
    var d := Unflushed(states, labels, j, n).store;
    assert Next(s, l, s');
    BrokenStep(states, labels, j, n);
    StaysInitialized(states, labels, j, n);
    if IsSync(s.c, l) {
      if l.Body? {
        SyncFails(states, labels, i, j, n);
      }
      hide Next, IsSync, Broken, FlushedBefore, NothingAccepted;
      UnflushedSync(s, l, s', d.sink, d.buf, d.err);
    } else if Rejects(s.c, l) {
      hide Next, IsSync, Broken, FlushedBefore, NothingAccepted;
      UnflushedWrite(s, l, s', d.sink, d.buf, d.err);
    } else if Accepts(s.c, l) {
      AcceptsUnbroken(states, labels, i, j, n);
      hide Next, IsSync, Broken, FlushedBefore;
      UnflushedWrite(s, l, s', d.sink, d.buf, d.err);
    } else {
      hide Next, IsSync, Broken, FlushedBefore, NothingAccepted;
      UnflushedOther(s, l, s', d);
    }
  }

  lemma {:induction false} StaysInitialized(states: seq<State>, labels: seq<Label>, j: nat, n: nat)
    requires IsRun(states, labels) && j < n <= |labels| && Accepts(states[j].c, labels[j])
    ensures states[n].c.initialized
    decreases n
  {
    hide Next, Accepts;
    assert Next(states[n - 1], labels[n - 1], states[n - 1 + 1]);
    StepAccepts(states[n - 1], labels[n - 1], states[n]);
    if j < n - 1 {
      StaysInitialized(states, labels, j, n - 1);
    }
  }

  /** Without that, the very same calls can leave an accepted record out of the sink. */
  lemma UnflushedRun(states: seq<State>, labels: seq<Label>, i: nat) returns (other: seq<State>)
    requires IsRun(states, labels) && |labels| == i + 1 && LosesStop(states[i].c, labels[i])
    requires !FlushedBefore(states, labels, i)
    ensures IsRun(other, labels) && !(Flatten(other[i].c.accepted) <= other[i + 1].store.sink)
  {
    hide Next, LosesStop, IsSync, Flatten;
    if NothingAccepted(states, labels, 0, i) {
      assert false;
    }
    var j := LastAccepting(states, labels, i);
    other := seq(i + 2, n requires 0 <= n < i + 2 => Unflushed(states, labels, j, n));
    forall n | 0 <= n < |labels| ensures Next(other[n], labels[n], other[n + 1]) {
      if n < j {
        assert Next(states[n], labels[n], states[n + 1]);
      } else if n == j {
        UnflushedStart(states, labels, j);
      } else {
        UnflushedStep(states, labels, i, j, n);
      }
    }
    var bs := PointOf(states[j].c, labels[j].t).op.bs;
    assert Next(states[j], labels[j], states[j + 1]);
    StepAccepts(states[j], labels[j], states[j + 1]);
    RunInv(states, labels, j);
    AcceptedSame(states, labels, j + 1, i);
    FlattenAppend(states[j].c.accepted, bs);
    assert |states[j].store.Stream()| >= |states[j].store.sink|;
  }

  // ------------------------------------------------------------- main results

  /** Runs with the same labels differ in the store only. */
  lemma {:induction false} SameCalls(states: seq<State>, other: seq<State>, labels: seq<Label>, n: nat)
    requires IsRun(states, labels) && IsRun(other, labels) && n <= |labels|
    ensures other[n].c == states[n].c
    decreases n
  {
    hide StoreRel;
    if n > 0 {
      SameCalls(states, other, labels, n - 1);
      assert Next(states[n - 1], labels[n - 1], states[n - 1 + 1]);
      assert Next(other[n - 1], labels[n - 1], other[n - 1 + 1]);
    }
  }

  lemma SameJudgement(states: seq<State>, other: seq<State>, labels: seq<Label>, i: nat)
    requires IsRun(states, labels) && IsRun(other, labels) && i <= |labels| && FlushedBefore(states, labels, i)
    ensures FlushedBefore(other, labels, i)
  {
    hide Next;
    forall n | 0 <= n < |labels|
      ensures IsSync(states[n].c, labels[n]) <==> IsSync(other[n].c, labels[n])
      ensures Accepts(states[n].c, labels[n]) <==> Accepts(other[n].c, labels[n])
      ensures AcceptsBytes(states[n].c, labels[n]) <==> AcceptsBytes(other[n].c, labels[n])
    {
      SameCalls(states, other, labels, n);
    }
    hide IsSync, Accepts, AcceptsBytes;
    var k :| 0 <= k <= i && NothingAccepted(states, labels, k, i) && (k == 0 || Certified(states, labels, k - 1, i));
    assert NothingAccepted(other, labels, k, i);
  }

  /** A Stop that loses returns nil at once, without flushing. */
  lemma LosingStop(states: seq<State>, labels: seq<Label>, i: nat)
    requires IsRun(states, labels) && i < |labels| && LosesStop(states[i].c, labels[i])
    ensures labels[i].ok && states[i + 1].store == states[i].store && PointOf(states[i + 1].c, labels[i].t).Idle?
  {
    assert Next(states[i], labels[i], states[i + 1]);
  }

  /** Exactly when a Stop that loses can be relied on: every run of these calls has all accepted
      records in the sink when it returns, if and only if no bytes were accepted since the
      start or since a sync known to have flushed. */
  lemma LosingStopExact(states: seq<State>, labels: seq<Label>, i: nat)
    requires IsRun(states, labels) && |labels| == i + 1 && LosesStop(states[i].c, labels[i])
    ensures (forall other: seq<State> | IsRun(other, labels) :: Flatten(other[i].c.accepted) <= other[i + 1].store.sink)
       <==> FlushedBefore(states, labels, i)
  {
    hide LosesStop, FlushedBefore, Flatten;
    if FlushedBefore(states, labels, i) {
      forall other: seq<State> | IsRun(other, labels) ensures Flatten(other[i].c.accepted) <= other[i + 1].store.sink {
        SameJudgement(states, other, labels, i);
        FlushedIsInSink(other, labels, i);
        SinkOnlyGrows(other, labels, i, i + 1);
      }
    } else {
      var other := UnflushedRun(states, labels, i);
    }
  }

  // ------------------------------------------------- two Stops that leave records

  const A: Bytes := [0x61]

  function Held(c: Control, t: nat, op: Op): Control {
    Move(Move(c, t, Want(op)), t, Holding(op)).(mutex := Thread(t))
  }

  /** A whole call by a thread that gets the lock at once. */
  lemma Call(states: seq<State>, labels: seq<Label>, t: nat, op: Op, d: Store)
    returns (states': seq<State>, labels': seq<Label>)
    requires IsRun(states, labels)
    requires var s := states[|labels|];
             PointOf(s.c, t).Idle? && s.c.mutex.Nobody? && StoreRel(State(Held(s.c, t, op), s.store), Body(t, true), d)
    ensures IsRun(states', labels') && |states'| == |labels'| + 1 && |labels'| > 0 && labels'[|labels'| - 1] == Body(t, true)
    ensures states'[|labels'| - 1].c == Held(states[|labels|].c, t, op)
    ensures states'[|labels'|] == State(AfterBody(Held(states[|labels|].c, t, op), t, true), d)
  {
    hide IsRun, StoreRel, AfterBody;
    SizeOfRun(states, labels);
    var s := states[|labels|];
    NoStoreChange(s, Begin(t, op));
    states', labels' := Extend(states, labels, Begin(t, op), s.store);
    NoStoreChange(states'[|labels'|], Acquire(t));
    states', labels' := Extend(states', labels', Acquire(t), s.store);
    assert states'[|labels'|].c == Held(s.c, t, op);
    states', labels' := Extend(states', labels', Body(t, true), d);
  }

  const WROTE := Control(Nobody, true, false, 0, 0, true, false, Selecting, map[0 := Idle], [A], [A])
  const STOPPING := WROTE.(stopped := true, tickerOn := false, stopCloses := 1, threads := map[0 := Idle, 1 := AwaitDone])

  /** A Write, and a Stop that waits for the flusher. */
  lemma WriteThenStop() returns (states: seq<State>, labels: seq<Label>)
    ensures IsRun(states, labels) && states[|labels|] == State(STOPPING, Store([], A, false))
  {
    hide IsRun;
    assert IsRun([INITIAL], []) by { NothingYet(); }
    assert WriteRel(Store([], [], false), Store([], A, false), A, true);
    states, labels := Call([INITIAL], [], 0, Write(A), Store([], A, false));
    assert states[|labels|].c == WROTE;
    states, labels := Call(states, labels, 1, Stop, Store([], A, false));
    assert states[|labels|].c.threads == STOPPING.threads;
  }

  lemma NothingYet()
    ensures IsRun([INITIAL], [])
  {
  }

  /** A Stop that finds another one waiting returns nil while the accepted record is still
      buffered. */
  lemma EarlyStopReturn() returns (states: seq<State>, labels: seq<Label>)
    ensures IsRun(states, labels) && |labels| > 0 && LosesStop(states[|labels| - 1].c, labels[|labels| - 1])
    ensures labels[|labels| - 1] == Body(2, true)
    ensures states[|labels|].c.accepted == [A] && states[|labels|].store.sink == []
  {
    hide IsRun;
    states, labels := WriteThenStop();
    states, labels := Call(states, labels, 2, Stop, Store([], A, false));
  }

  const STOPPED := STOPPING.(flusher := Exited, doneCloses := 1, threads := map[0 := Idle, 1 := Idle])

  lemma StopFinishes(states0: seq<State>, labels0: seq<Label>) returns (states: seq<State>, labels: seq<Label>)
    requires IsRun(states0, labels0) && states0[|labels0|] == State(STOPPING, Store([], A, false))
    ensures IsRun(states, labels) && states[|labels|] == State(STOPPED, Store(A, [], false))
  {
    hide IsRun;
    SizeOfRun(states0, labels0);
    states, labels := Extend(states0, labels0, FlusherStop, Store([], A, false));
    states, labels := Extend(states, labels, SeeDone(1), Store([], A, false));
    states, labels := Extend(states, labels, Acquire(1), Store([], A, false));
    var s := states[|labels|];
    assert PointOf(s.c, 1).HoldingFinal?;
    assert FlushRel(Store([], A, false), Store(A, [], false), true);
    assert FlushesTo(s, Store(A, [], false), true);
    states, labels := Extend(states, labels, Body(1, true), Store(A, [], false));
    assert states[|labels|].c.threads == STOPPED.threads;
  }

  /** A Write after the Stop has returned is accepted into the buffer, and a later Stop returns
      nil without flushing it, though no other Stop is in progress. */
  lemma WriteAfterStop() returns (states: seq<State>, labels: seq<Label>)
    ensures IsRun(states, labels) && |labels| > 0 && LosesStop(states[|labels| - 1].c, labels[|labels| - 1])
    ensures labels[|labels| - 1] == Body(2, true)
    ensures var threads := states[|labels| - 1].c.threads; forall t | t in threads :: !Stopping(threads[t])
    ensures states[|labels|].c.accepted == [A, A] && states[|labels|].store.sink == A
  {
    hide IsRun;
    states, labels := WriteThenStop();
    states, labels := StopFinishes(states, labels);
    assert Store(A, A, false).Stream() == Store(A, [], false).Stream() + A;
    assert WriteRel(Store(A, [], false), Store(A, A, false), A, true);
    states, labels := Call(states, labels, 0, Write(A), Store(A, A, false));
    states, labels := Call(states, labels, 2, Stop, Store(A, A, false));
  }
}
