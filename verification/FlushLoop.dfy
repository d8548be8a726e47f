/** The background flusher at work: every tick it takes is followed by a flush. */
module FlushLoop {
  import opened Common
  import opened Utf8
  import opened Bufio
  import opened BufferedProtocol

  /** The flusher has taken a tick and not synced for it yet. */
  predicate OwesSync(c: Control) {
    c.flusher.WantsLock? || c.flusher.Syncing?
  }

  lemma StillOwes(c: Control, l: Label)
    requires ControlInv(c) && Enabled(c, l) && OwesSync(c) && !l.FlusherBody?
    ensures OwesSync(After(c, l)) && !l.FlusherTick? && !l.FlusherStop?
  {
  }

  lemma {:induction false} SyncBefore(states: seq<State>, labels: seq<Label>, n: nat, j: nat) returns (k: nat)
    requires IsRun(states, labels) && n <= j < |labels| && OwesSync(states[n].c)
    requires labels[j].FlusherTick? || labels[j].FlusherStop?
    ensures n <= k < j && labels[k].FlusherBody?
    decreases j - n
  {
    hide ControlInv, DataInv, Enabled, After, StoreRel, OwesSync;
    RunInv(states, labels, n);
    assert Next(states[n], labels[n], states[n + 1]);
    if labels[n].FlusherBody? {
      k := n;
    } else {
      StillOwes(states[n].c, labels[n]);
      k := SyncBefore(states, labels, n + 1, j);
    }
  }

  /** In every run, between a tick the flusher takes and the next one it takes, or its exit, it
      syncs. */
  lemma EveryTickIsSynced(states: seq<State>, labels: seq<Label>, i: nat, j: nat) returns (k: nat)
    requires IsRun(states, labels) && i < j < |labels| && labels[i].FlusherTick?
    requires labels[j].FlusherTick? || labels[j].FlusherStop?
    ensures i < k < j && labels[k].FlusherBody?
  {
    assert Next(states[i], labels[i], states[i + 1]);
    k := SyncBefore(states, labels, i + 1, j);
  }

  /** In every run, a background sync that leaves no error has put every record accepted before it
      into the sink, for good. */
  lemma BackgroundSyncFlushes(states: seq<State>, labels: seq<Label>, k: nat, j: nat)
    requires IsRun(states, labels) && k < j < |states| && labels[k].FlusherBody? && !states[k + 1].store.err
    ensures states[k + 1].store.sink == Flatten(states[k].c.accepted)
    ensures Flatten(states[k].c.accepted) <= states[j].store.sink
  {
    hide ControlInv, DataInv, Flatten, SyncRel;
    RunInv(states, labels, k);
    assert Next(states[k], labels[k], states[k + 1]);
    SyncKeepsData(states[k], false, states[k + 1]);
    SinkOnlyGrows(states, labels, k + 1, j);
  }

  /** With a tick pending, the lock free and the flusher selecting, the flusher can go on to put
      every accepted record into the sink. */
  lemma PendingTickFlushes(states: seq<State>, labels: seq<Label>) returns (states': seq<State>, labels': seq<Label>)
    requires IsRun(states, labels)
    requires var s := states[|labels|]; s.c.tickPending && s.c.mutex.Nobody? && s.c.flusher.Selecting? && !s.store.err
    ensures IsRun(states', labels') && labels' == labels + [FlusherTick] + [FlusherAcquire] + [FlusherBody]
    ensures states <= states' && states'[|labels'|].store == Store(Flatten(states[|labels|].c.accepted), [], false)
  {
    hide IsRun, DataInv, ControlInv, Flatten;
    SizeOfRun(states, labels);
    RunInv(states, labels, |labels|);
    var s := states[|labels|];
    var d := Store(s.store.Stream(), [], false);
    assert s.store.Stream() == Flatten(s.c.accepted) && s.c.initialized by { SelectingIsConsistent(s); }
    states', labels' := Extend(states, labels, FlusherTick, s.store);
    states', labels' := Extend(states', labels', FlusherAcquire, s.store);
    var u := states'[|labels'|];
    assert u.store == s.store && u.c.initialized && u.c.flusher.Syncing?;
    assert d.Stream() == u.store.Stream();
    assert FlushRel(u.store, d, true) && FlushesTo(u, d, true);
    states', labels' := Extend(states', labels', FlusherBody, d);
  }

  lemma SelectingIsConsistent(s: State)
    requires ControlInv(s.c) && DataInv(s) && s.c.flusher.Selecting? && !s.store.err
    ensures s.store.Stream() == Flatten(s.c.accepted) && s.c.initialized
  {
  }

  /** And as long as the syncer is not stopped, such a tick can come. */
  lemma TickFlushes(states: seq<State>, labels: seq<Label>) returns (states': seq<State>, labels': seq<Label>)
    requires IsRun(states, labels)
    requires var s := states[|labels|];
             s.c.initialized && !s.c.stopped && s.c.mutex.Nobody? && s.c.flusher.Selecting? && !s.store.err
    ensures IsRun(states', labels') && labels' == labels + [Tick] + [FlusherTick] + [FlusherAcquire] + [FlusherBody]
    ensures states <= states' && states'[|labels'|].store == Store(Flatten(states[|labels|].c.accepted), [], false)
  {
    hide IsRun, DataInv, Flatten;
    SizeOfRun(states, labels);
    RunInv(states, labels, |labels|);
    states', labels' := Extend(states, labels, Tick, states[|labels|].store);
    states', labels' := PendingTickFlushes(states', labels');
  }
}
