/**
  Pooled buffers and encoders under concurrency. Any number of threads encode entries with the
  JSON or the console encoder; each takes its objects from the pools, which may hand out a
  pooled object or make a new one, and returns them. `expected` records, for every place that
  holds a buffer, the bytes its holder itself has written there since taking it.
 */
module Pooling {
  import opened Utf8

  /** Where a live buffer is referred to from. */
  datatype Place =
    | EncoderBuf(enc: nat)
    | ReflectBuf(enc: nat)
    | Line(thread: nat)
    | Result(thread: nat)

  datatype State = State(
    pool: set<nat>, encPool: set<nat>,
    held: map<Place, nat>, encOf: map<nat, nat>,
    contents: map<nat, Bytes>, expected: map<Place, Bytes>)

  datatype Label =
    | TakeLine(t: nat, b: nat)
    | TakeEncoder(t: nat, e: nat)
    | TakeBuf(t: nat, b: nat)
    | TakeReflect(t: nat, b: nat)
    | WriteReflect(t: nat, bs: Bytes)
    | Append(t: nat, bs: Bytes)
    | FinishJson(t: nat)
    | AppendLine(t: nat, bs: Bytes)
    | CopyContext(t: nat)
    | ReturnLine(t: nat)
    | Free(t: nat)

  const INITIAL := State({}, {}, map[], map[], map[], map[])

  /** `Pool.Get` may return `b`: a pooled buffer, or one never seen before. */
  predicate CanTake(s: State, b: nat) {
    b in s.pool || b !in s.contents
  }

  /** `Get` resets the buffer before anyone can look at it. */
  function Take(s: State, p: Place, b: nat): State {
    s.(pool := s.pool - {b}, held := s.held[p := b], contents := s.contents[b := []], expected := s.expected[p := []])
  }

  predicate CanTakeEncoder(s: State, e: nat) {
    e in s.encPool || (e !in s.encOf.Values && EncoderBuf(e) !in s.held && ReflectBuf(e) !in s.held)
  }

  function Write(s: State, p: Place, bs: Bytes): State
    requires p in s.held && p in s.expected && s.held[p] in s.contents
  {
    s.(contents := s.contents[s.held[p] := s.contents[s.held[p]] + bs], expected := s.expected[p := s.expected[p] + bs])
  }

  /** The buffers a thread gives back when it returns its encoder: the reflection buffer, if
      it ever took one. */
  function ReflectBufs(s: State, e: nat): set<nat> {
    if ReflectBuf(e) in s.held then {s.held[ReflectBuf(e)]} else {}
  }

  /** `putJSONEncoder`: the encoder forgets its buffers and goes back to its pool. */
  function PutEncoder(s: State, t: nat): State
    requires t in s.encOf
  {
    var e := s.encOf[t];
    s.(pool := s.pool + ReflectBufs(s, e), encPool := s.encPool + {e}, encOf := s.encOf - {t},
       held := s.held - {EncoderBuf(e), ReflectBuf(e)}, expected := s.expected - {EncoderBuf(e), ReflectBuf(e)})
  }

  /** A place of `s` renamed: the buffer and its contents stay the same. */
  function Hand(s: State, to: Place, b: nat, bytes: Bytes): State {
    s.(held := s.held[to := b], expected := s.expected[to := bytes])
  }

  predicate Ready(s: State, p: Place) {
    p in s.held && p in s.expected && s.held[p] in s.contents
  }

  ghost predicate Next(s: State, l: Label, s': State) {
    match l
    case TakeLine(t, b) =>
      t !in s.encOf && Line(t) !in s.held && Result(t) !in s.held && CanTake(s, b) && s' == Take(s, Line(t), b)
    case TakeEncoder(t, e) =>
      && t !in s.encOf && Result(t) !in s.held && CanTakeEncoder(s, e)
      && s' == s.(encPool := s.encPool - {e}, encOf := s.encOf[t := e])
    case TakeBuf(t, b) =>
      t in s.encOf && EncoderBuf(s.encOf[t]) !in s.held && CanTake(s, b) && s' == Take(s, EncoderBuf(s.encOf[t]), b)
    case TakeReflect(t, b) =>
      t in s.encOf && ReflectBuf(s.encOf[t]) !in s.held && CanTake(s, b) && s' == Take(s, ReflectBuf(s.encOf[t]), b)
    case WriteReflect(t, bs) =>
      t in s.encOf && Ready(s, ReflectBuf(s.encOf[t])) && s' == Write(s, ReflectBuf(s.encOf[t]), bs)
    case Append(t, bs) =>
      t in s.encOf && Ready(s, EncoderBuf(s.encOf[t])) && s' == Write(s, EncoderBuf(s.encOf[t]), bs)
    case FinishJson(t) =>
      && t in s.encOf && Line(t) !in s.held && Ready(s, EncoderBuf(s.encOf[t]))
      && var p := EncoderBuf(s.encOf[t]);
         s' == Hand(PutEncoder(s, t), Result(t), s.held[p], s.expected[p])
    case AppendLine(t, bs) => Ready(s, Line(t)) && s' == Write(s, Line(t), bs)
    case CopyContext(t) =>
      && t in s.encOf && Ready(s, Line(t)) && Ready(s, EncoderBuf(s.encOf[t]))
      && s' == Copied(s, t)
    case ReturnLine(t) =>
      && t !in s.encOf && Ready(s, Line(t))
      && s' == Hand(Dropped(s, Line(t), false), Result(t), s.held[Line(t)], s.expected[Line(t)])
    case Free(t) =>
      && Result(t) in s.held
      && s' == s.(pool := s.pool + {s.held[Result(t)]}, held := s.held - {Result(t)}, expected := s.expected - {Result(t)})
  }

  /** `writeContext`: the context is copied into the line, its buffer freed, its encoder
      returned. Metadata, message, stack and line ending are appended before and after. */
  function Copied(s: State, t: nat): State
    requires t in s.encOf && Ready(s, Line(t)) && Ready(s, EncoderBuf(s.encOf[t]))
  {
    var p := EncoderBuf(s.encOf[t]);
    var s1 := Write(s, Line(t), s.contents[s.held[p]]);
    PutEncoder(s1, t).(pool := PutEncoder(s1, t).pool + {s1.held[p]})
  }

  /** A place lets go of its buffer, to the pool or to another place. */
  function Dropped(s: State, p: Place, freed: bool): State
    requires p in s.held
  {
    s.(pool := if freed then s.pool + {s.held[p]} else s.pool, held := s.held - {p}, expected := s.expected - {p})
  }

  ghost predicate IsRun(states: seq<State>, labels: seq<Label>) {
    && |states| == |labels| + 1 && states[0] == INITIAL
    && forall i | 0 <= i < |labels| :: Next(states[i], labels[i], states[i + 1])
  }

  // -------------------------------------------------------------- invariant

  /** No two places hold the same buffer, and none holds a pooled one. */
  predicate Owned(s: State) {
    && (forall p, q | p in s.held && q in s.held && s.held[p] == s.held[q] :: p == q)
    && (forall p | p in s.held :: s.held[p] !in s.pool)
  }

  /** No two threads hold the same encoder, none holds a pooled one, and a pooled or unknown
      encoder refers to no buffer. */
  ghost predicate EncodersOwned(s: State) {
    && (forall t, u | t in s.encOf && u in s.encOf && s.encOf[t] == s.encOf[u] :: t == u)
    && (forall t | t in s.encOf :: s.encOf[t] !in s.encPool)
    && (forall e: nat | EncoderBuf(e) in s.held || ReflectBuf(e) in s.held :: e in s.encOf.Values)
  }

  /** Every held buffer contains exactly what its holder wrote. */
  predicate Faithful(s: State) {
    && s.expected.Keys == s.held.Keys
    && (forall b | b in s.pool :: b in s.contents)
    && (forall p | p in s.held :: s.held[p] in s.contents && s.contents[s.held[p]] == s.expected[p])
  }

  ghost predicate Inv(s: State) {
    Owned(s) && EncodersOwned(s) && Faithful(s)
  }

  /** Every buffer ever made is in the pool or held somewhere. */
  predicate NoneLost(s: State) {
    forall b | b in s.contents :: b in s.pool || b in s.held.Values
  }

  /** What a step lets go of is pooled or handed on. */
  lemma NoneLostKept(s: State, l: Label, s': State)
    requires Inv(s) && NoneLost(s) && NoEarlyResult(s) && Next(s, l, s')
    ensures NoneLost(s')
  {
    forall b | b in s'.contents ensures b in s'.pool || b in s'.held.Values {
      if b in s.held.Values {
        var p :| p in s.held && s.held[p] == b;
        StillSomewhere(s, l, s', p);
      } else if b in s.pool {
        PooledStays(s, l, s', b);
      } else {
        NewIsHeld(s, l, s', b);
      }
    }
  }

  lemma StillSomewhere(s: State, l: Label, s': State, p: Place)
    requires Inv(s) && NoEarlyResult(s) && Next(s, l, s') && p in s.held
    ensures s.held[p] in s'.pool || s.held[p] in s'.held.Values
  {
    if p in s'.held && s'.held[p] == s.held[p] {
      assert s'.held[p] in s'.held.Values;
    } else {
      MovedOrPooled(s, l, s', p);
    }
  }

  /** A place changes only when its holder finishes: its buffer is pooled or handed to the result. */
  lemma MovedOrPooled(s: State, l: Label, s': State, p: Place)
    requires Inv(s) && NoEarlyResult(s) && Next(s, l, s') && p in s.held && !(p in s'.held && s'.held[p] == s.held[p])
    ensures s.held[p] in s'.pool || (Result(l.t) in s'.held && s'.held[Result(l.t)] == s.held[p])
  {
    hide Inv, CanTake, CanTakeEncoder;
  }

  lemma TakenIsHeld(s: State, p: Place, b: nat)
    ensures b in Take(s, p, b).held.Values
  {
    assert Take(s, p, b).held[p] == b;
  }

  lemma PooledStays(s: State, l: Label, s': State, b: nat)
    requires Next(s, l, s') && b in s.pool
    ensures b in s'.pool || b in s'.held.Values
  {
    match l
    case TakeLine(t, b') => TakenIsHeld(s, Line(t), b');
    case TakeBuf(t, b') => TakenIsHeld(s, EncoderBuf(s.encOf[t]), b');
    case TakeReflect(t, b') => TakenIsHeld(s, ReflectBuf(s.encOf[t]), b');
    case _ =>
  }

  lemma NewIsHeld(s: State, l: Label, s': State, b: nat)
    requires NoneLost(s) && Next(s, l, s') && b in s'.contents && b !in s.pool && b !in s.held.Values
    ensures b in s'.held.Values
  {
    match l
    case TakeLine(t, b') => TakenIsHeld(s, Line(t), b');
    case TakeBuf(t, b') => TakenIsHeld(s, EncoderBuf(s.encOf[t]), b');
    case TakeReflect(t, b') => TakenIsHeld(s, ReflectBuf(s.encOf[t]), b');
    case _ =>
  }

  lemma TakeKeeps(s: State, p: Place, b: nat)
    requires Owned(s) && Faithful(s) && p !in s.held && CanTake(s, b)
    ensures Owned(Take(s, p, b)) && Faithful(Take(s, p, b))
  {
  }

  lemma WriteKeeps(s: State, p: Place, bs: Bytes)
    requires Owned(s) && Faithful(s) && Ready(s, p)
    ensures Owned(Write(s, p, bs)) && Faithful(Write(s, p, bs))
  {
  }

  lemma PutEncoderKeeps(s: State, t: nat)
    requires Inv(s) && t in s.encOf
    ensures Inv(PutEncoder(s, t))
    ensures EncoderBuf(s.encOf[t]) in s.held ==>
              var b := s.held[EncoderBuf(s.encOf[t])];
              var s' := PutEncoder(s, t);
              b !in s'.pool && b in s'.contents && forall p | p in s'.held :: s'.held[p] != b
  {
    var e, s' := s.encOf[t], PutEncoder(s, t);
    forall x: nat | EncoderBuf(x) in s'.held || ReflectBuf(x) in s'.held ensures x in s'.encOf.Values {
      assert x in s.encOf.Values && x != e;
      var u :| u in s.encOf && s.encOf[u] == x;
      assert u in s'.encOf;
    }
  }

  /** A buffer nobody refers to may be handed to a place that holds nothing. */
  lemma HandKeeps(s: State, t: nat, b: nat, bytes: Bytes)
    requires Inv(s) && Result(t) !in s.held && b !in s.pool && b in s.contents && s.contents[b] == bytes
    requires forall p | p in s.held :: s.held[p] != b
    ensures Inv(Hand(s, Result(t), b, bytes))
  {
  }

  /** A place other than an encoder's may let go of its buffer, to the pool or not. */
  lemma DropKeeps(s: State, p: Place, freed: bool)
    requires Inv(s) && p in s.held && (p.Line? || p.Result?)
    ensures Inv(Dropped(s, p, freed))
  {
  }

  lemma PoolKeeps(s: State, b: nat)
    requires Inv(s) && b in s.contents && forall p | p in s.held :: s.held[p] != b
    ensures Inv(s.(pool := s.pool + {b}))
  {
  }

  lemma TakeKeepsInv(s: State, p: Place, b: nat)
    requires Inv(s) && p !in s.held && CanTake(s, b) && (p.EncoderBuf? || p.ReflectBuf? ==> p.enc in s.encOf.Values)
    ensures Inv(Take(s, p, b))
  {
    TakeKeeps(s, p, b);
  }

  lemma StepKeepsInv(s: State, l: Label, s': State)
    requires Inv(s) && Next(s, l, s')
    requires l.FinishJson? || l.ReturnLine? ==> Result(l.t) !in s.held
    ensures Inv(s')
  {
    hide Inv, Take, Write, PutEncoder, Hand, Copied, CanTake;
    match l
    case TakeLine(t, b) => TakeKeepsInv(s, Line(t), b);
    case TakeEncoder(t, e) => TakeEncoderKeeps(s, t, e, s');
    case TakeBuf(t, b) => TakeKeepsInv(s, EncoderBuf(s.encOf[t]), b);
    case TakeReflect(t, b) => TakeKeepsInv(s, ReflectBuf(s.encOf[t]), b);
    case WriteReflect(t, bs) => WriteKeepsInv(s, ReflectBuf(s.encOf[t]), bs);
    case Append(t, bs) => WriteKeepsInv(s, EncoderBuf(s.encOf[t]), bs);
    case FinishJson(t) => JsonKeeps(s, t);
    case AppendLine(t, bs) => WriteKeepsInv(s, Line(t), bs);
    case CopyContext(t) => CopyKeeps(s, t);
    case ReturnLine(t) => ReturnKeeps(s, t);
    case Free(t) => DropKeeps(s, Result(t), true);
  }

  lemma JsonKeeps(s: State, t: nat)
    requires Inv(s) && t in s.encOf && Ready(s, EncoderBuf(s.encOf[t])) && Result(t) !in s.held
    ensures var p := EncoderBuf(s.encOf[t]);
            Inv(Hand(PutEncoder(s, t), Result(t), s.held[p], s.expected[p]))
  {
    hide Inv;
    var p := EncoderBuf(s.encOf[t]);
    PutEncoderKeeps(s, t);
    assert s.contents[s.held[p]] == s.expected[p] by { HeldIsFaithful(s, p); }
    HandKeeps(PutEncoder(s, t), t, s.held[p], s.expected[p]);
  }

  lemma HeldIsFaithful(s: State, p: Place)
    requires Inv(s) && p in s.held
    ensures Ready(s, p) && s.contents[s.held[p]] == s.expected[p]
    ensures forall q | q in s.held && q != p :: s.held[q] != s.held[p]
    ensures s.held[p] !in s.pool
  {
  }

  lemma TakeEncoderKeeps(s: State, t: nat, e: nat, s': State)
    requires Inv(s) && Next(s, TakeEncoder(t, e), s')
    ensures Inv(s')
  {
    forall x: nat | EncoderBuf(x) in s'.held || ReflectBuf(x) in s'.held ensures x in s'.encOf.Values {
      var u :| u in s.encOf && s.encOf[u] == x;
      assert u in s'.encOf && s'.encOf[u] == x;
    }
  }

  lemma WriteKeepsInv(s: State, p: Place, bs: Bytes)
    requires Inv(s) && Ready(s, p)
    ensures Inv(Write(s, p, bs))
  {
    WriteKeeps(s, p, bs);
  }

  lemma CopyKeeps(s: State, t: nat)
    requires Inv(s) && t in s.encOf && Ready(s, Line(t)) && Ready(s, EncoderBuf(s.encOf[t]))
    ensures Inv(Copied(s, t))
  {
    hide Inv;
    var p := EncoderBuf(s.encOf[t]);
    var s1 := Write(s, Line(t), s.contents[s.held[p]]);
    WriteKeepsInv(s, Line(t), s.contents[s.held[p]]);
    PutEncoderKeeps(s1, t);
    PoolKeeps(PutEncoder(s1, t), s1.held[p]);
  }

  lemma ReturnKeeps(s: State, t: nat)
    requires Inv(s) && Ready(s, Line(t)) && Result(t) !in s.held
    ensures Inv(Hand(Dropped(s, Line(t), false), Result(t), s.held[Line(t)], s.expected[Line(t)]))
  {
    hide Inv;
    HeldIsFaithful(s, Line(t));
    DropKeeps(s, Line(t), false);
    HandKeeps(Dropped(s, Line(t), false), t, s.held[Line(t)], s.expected[Line(t)]);
  }

  lemma InitialInv()
    ensures Inv(INITIAL) && NoEarlyResult(INITIAL) && NoneLost(INITIAL)
  {
  }

  /** A thread with an encoder or a line has no result yet. */
  ghost predicate NoEarlyResult(s: State) {
    && (forall t | t in s.encOf :: Result(t) !in s.held)
    && (forall t: nat | Line(t) in s.held :: Result(t) !in s.held)
  }

  lemma NoEarlyResultKept(s: State, l: Label, s': State)
    requires NoEarlyResult(s) && Next(s, l, s')
    ensures NoEarlyResult(s')
  {
  }

  lemma {:induction false} RunInv(states: seq<State>, labels: seq<Label>, i: nat)
    requires IsRun(states, labels) && i < |states|
    ensures Inv(states[i]) && NoEarlyResult(states[i]) && NoneLost(states[i])
  {
    hide Inv, Next, NoEarlyResult, NoneLost;
    if i == 0 {
      InitialInv();
    } else {
      RunInv(states, labels, i - 1);
      assert Next(states[i - 1], labels[i - 1], states[i - 1 + 1]);
      FinishHasNoResult(states[i - 1], labels[i - 1], states[i]);
      StepKeepsInv(states[i - 1], labels[i - 1], states[i]);
      NoEarlyResultKept(states[i - 1], labels[i - 1], states[i]);
      NoneLostKept(states[i - 1], labels[i - 1], states[i]);
    }
  }

  lemma FinishHasNoResult(s: State, l: Label, s': State)
    requires NoEarlyResult(s) && Next(s, l, s')
    ensures l.FinishJson? || l.ReturnLine? ==> Result(l.t) !in s.held
  {
  }

  // ------------------------------------------------------------ main results

  /** In every run, whatever objects the pools hand out: live buffers are distinct from each
      other and from pooled ones, and each holds exactly the bytes its own holder wrote. */
  lemma PoolingIsTransparent(states: seq<State>, labels: seq<Label>, i: nat, p: Place, q: Place)
    requires IsRun(states, labels) && i < |states| && p in states[i].held
    ensures states[i].held[p] !in states[i].pool
    ensures q in states[i].held && q != p ==> states[i].held[q] != states[i].held[p]
    ensures p in states[i].expected && states[i].held[p] in states[i].contents
    ensures states[i].contents[states[i].held[p]] == states[i].expected[p]
  {
    hide IsRun;
    RunInv(states, labels, i);
  }

  /** The bytes thread `t` has appended to its encoder since it took the buffer for it. */
  function OwnBytes(labels: seq<Label>, t: nat): Bytes {
    if labels == [] then []
    else
      var before := OwnBytes(labels[..|labels| - 1], t);
      match labels[|labels| - 1]
      case TakeBuf(u, _) => if u == t then [] else before
      case Append(u, bs) => if u == t then before + bs else before
      case _ => before
  }

  /** The bytes thread `t` has put into its line since it took it: what it appended, and the
      contexts it copied in. */
  function LineBytes(labels: seq<Label>, t: nat): Bytes {
    if labels == [] then []
    else
      var before := LineBytes(labels[..|labels| - 1], t);
      match labels[|labels| - 1]
      case TakeLine(u, _) => if u == t then [] else before
      case AppendLine(u, bs) => if u == t then before + bs else before
      case CopyContext(u) => if u == t then before + OwnBytes(labels[..|labels| - 1], t) else before
      case _ => before
  }

  /** What `expected` records is what the labels say. */
  ghost predicate Recorded(s: State, labels: seq<Label>, t: nat) {
    && (t in s.encOf && EncoderBuf(s.encOf[t]) in s.expected ==> s.expected[EncoderBuf(s.encOf[t])] == OwnBytes(labels, t))
    && (Line(t) in s.expected ==> s.expected[Line(t)] == LineBytes(labels, t))
  }

  lemma RecordedStep(s: State, labels: seq<Label>, l: Label, s': State, t: nat)
    requires Inv(s) && Next(s, l, s') && Recorded(s, labels, t)
    ensures Recorded(s', labels + [l], t)
  {
    hide OwnBytes, LineBytes, Recorded;
    OneMoreLabel(labels, l, t);
    if l.t == t {
      OwnStep(s, labels, l, s');
    } else {
      OtherStep(s, l, s', t);
      SameRecord(s, labels, s', labels + [l], t);
    }
  }

  lemma OwnStep(s: State, labels: seq<Label>, l: Label, s': State)
    requires Inv(s) && Next(s, l, s') && Recorded(s, labels, l.t)
    ensures Recorded(s', labels + [l], l.t)
  {
    OneMoreLabel(labels, l, l.t);
    hide OwnBytes, LineBytes;
    if l.CopyContext? {
      HeldIsFaithful(s, EncoderBuf(s.encOf[l.t]));
    }
  }

  /** A step of another thread leaves a thread's encoder and line as they are. */
  lemma OtherStep(s: State, l: Label, s': State, t: nat)
    requires Inv(s) && Next(s, l, s') && l.t != t
    ensures t in s'.encOf <==> t in s.encOf
    ensures t in s.encOf ==> s'.encOf[t] == s.encOf[t] && SameAt(s, s', EncoderBuf(s.encOf[t]))
    ensures SameAt(s, s', Line(t))
  {
    DistinctEncoders(s, t, l.t);
    hide Inv, Next, SameAt;
    OtherEncoder(s, l, s', t);
    ElsewhereStep(s, l, s', Line(t));
    if t in s.encOf {
      ElsewhereStep(s, l, s', EncoderBuf(s.encOf[t]));
    }
  }

  lemma OtherEncoder(s: State, l: Label, s': State, t: nat)
    requires Next(s, l, s') && l.t != t
    ensures t in s'.encOf <==> t in s.encOf
    ensures t in s.encOf ==> s'.encOf[t] == s.encOf[t]
  {
    hide CanTake, CanTakeEncoder;
  }

  /** The place belongs to the thread or to its encoder. */
  predicate PlaceOf(s: State, p: Place, t: nat) {
    p == Line(t) || p == Result(t) || (t in s.encOf && (p == EncoderBuf(s.encOf[t]) || p == ReflectBuf(s.encOf[t])))
  }

  lemma ElsewhereStep(s: State, l: Label, s': State, p: Place)
    requires Next(s, l, s') && !PlaceOf(s, p, l.t)
    ensures SameAt(s, s', p)
  {
    hide CanTake, CanTakeEncoder;
    match l
    case CopyContext(t) => CopyElsewhere(s, t, p);
    case FinishJson(t) => FinishElsewhere(s, t, p);
    case _ =>
  }

  lemma CopyElsewhere(s: State, t: nat, p: Place)
    requires t in s.encOf && Ready(s, Line(t)) && Ready(s, EncoderBuf(s.encOf[t])) && !PlaceOf(s, p, t)
    ensures SameAt(s, Copied(s, t), p)
  {
  }

  lemma FinishElsewhere(s: State, t: nat, p: Place)
    requires t in s.encOf && Ready(s, EncoderBuf(s.encOf[t])) && !PlaceOf(s, p, t)
    ensures var q := EncoderBuf(s.encOf[t]);
            SameAt(s, Hand(PutEncoder(s, t), Result(t), s.held[q], s.expected[q]), p)
  {
  }

  lemma DistinctEncoders(s: State, t: nat, u: nat)
    requires Inv(s) && t != u
    ensures t in s.encOf && u in s.encOf ==> s.encOf[t] != s.encOf[u]
  {
  }

  predicate SameAt(s: State, s': State, p: Place) {
    (p in s'.expected <==> p in s.expected) && (p in s.expected ==> s'.expected[p] == s.expected[p])
  }

  lemma SameRecord(s: State, labels: seq<Label>, s': State, labels': seq<Label>, t: nat)
    requires Recorded(s, labels, t) && OwnBytes(labels', t) == OwnBytes(labels, t) && LineBytes(labels', t) == LineBytes(labels, t)
    requires t in s'.encOf <==> t in s.encOf
    requires t in s.encOf ==> s'.encOf[t] == s.encOf[t] && SameAt(s, s', EncoderBuf(s.encOf[t]))
    requires SameAt(s, s', Line(t))
    ensures Recorded(s', labels', t)
  {
    hide OwnBytes, LineBytes;
  }

  lemma OneMoreLabel(labels: seq<Label>, l: Label, t: nat)
    ensures var own, line := OwnBytes(labels, t), LineBytes(labels, t);
            && OwnBytes(labels + [l], t) == (if l.TakeBuf? && l.t == t then [] else if l.Append? && l.t == t then own + l.bs else own)
            && LineBytes(labels + [l], t) == (if l.TakeLine? && l.t == t then []
                                              else if l.AppendLine? && l.t == t then line + l.bs
                                              else if l.CopyContext? && l.t == t then line + own else line)
  {
    assert (labels + [l])[..|labels|] == labels;
  }

  lemma {:induction false} AllRecorded(states: seq<State>, labels: seq<Label>, i: nat, t: nat)
    requires IsRun(states, labels) && i < |states|
    ensures Recorded(states[i], labels[..i], t)
    decreases i
  {
    hide Inv, Next;
    if i > 0 {
      AllRecorded(states, labels, i - 1, t);
      RunInv(states, labels, i - 1);
      assert Next(states[i - 1], labels[i - 1], states[i - 1 + 1]);
      RecordedStep(states[i - 1], labels[..i - 1], labels[i - 1], states[i], t);
      assert labels[..i] == labels[..i - 1] + [labels[i - 1]];
    }
  }

  /** In every run, whatever the pools hand out and whatever other threads do, the buffer a caller
      gets holds exactly what this call has written, in order. */
  lemma ResultIsOwn(states: seq<State>, labels: seq<Label>, i: nat)
    requires IsRun(states, labels) && i < |labels|
    ensures var s', l := states[i + 1], labels[i];
            && (l.FinishJson? ==> Result(l.t) in s'.held && s'.held[Result(l.t)] in s'.contents
                                  && s'.contents[s'.held[Result(l.t)]] == OwnBytes(labels[..i], l.t))
            && (l.ReturnLine? ==> Result(l.t) in s'.held && s'.held[Result(l.t)] in s'.contents
                                  && s'.contents[s'.held[Result(l.t)]] == LineBytes(labels[..i], l.t))
  {
    hide OwnBytes, LineBytes;
    var l := labels[i];
    if l.FinishJson? || l.ReturnLine? {
      RunInv(states, labels, i + 1);
      AllRecorded(states, labels, i, l.t);
      assert Next(states[i], l, states[i + 1]);
      HandedOn(states[i], l, states[i + 1], labels[..i]);
      HeldIsFaithful(states[i + 1], Result(l.t));
    }
  }

  lemma HandedOn(s: State, l: Label, s': State, labels: seq<Label>)
    requires Next(s, l, s') && (l.FinishJson? || l.ReturnLine?) && Recorded(s, labels, l.t)
    ensures Result(l.t) in s'.held && Result(l.t) in s'.expected
    ensures s'.expected[Result(l.t)] == if l.FinishJson? then OwnBytes(labels, l.t) else LineBytes(labels, l.t)
  {
    hide OwnBytes, LineBytes;
  }

  /** In every run no buffer is lost: each one ever made is in the pool or held. */
  lemma NoLeak(states: seq<State>, labels: seq<Label>, i: nat, b: nat)
    requires IsRun(states, labels) && i < |states| && b in states[i].contents
    ensures b in states[i].pool || exists p :: p in states[i].held && states[i].held[p] == b
  {
    hide IsRun;
    RunInv(states, labels, i);
  }

  /** The buffers a step gives back to the pool. */
  function Returned(s: State, l: Label): set<nat> {
    match l
    case FinishJson(t) => if t in s.encOf then ReflectBufs(s, s.encOf[t]) else {}
    case CopyContext(t) =>
      if t in s.encOf && EncoderBuf(s.encOf[t]) in s.held
      then ReflectBufs(s, s.encOf[t]) + {s.held[EncoderBuf(s.encOf[t])]} else {}
    case Free(t) => if Result(t) in s.held then {s.held[Result(t)]} else {}
    case _ => {}
  }

  /** No buffer is freed twice: what a step returns was not in the pool, and no one who still
      holds a buffer holds one of these. */
  lemma NoDoubleFree(states: seq<State>, labels: seq<Label>, i: nat)
    requires IsRun(states, labels) && i < |labels|
    ensures Returned(states[i], labels[i]) !! states[i].pool
    ensures Returned(states[i], labels[i]) !! states[i + 1].held.Values
  {
    RunInv(states, labels, i);
    RunInv(states, labels, i + 1);
    assert Next(states[i], labels[i], states[i + 1]);
    assert Returned(states[i], labels[i]) <= states[i + 1].pool;
  }
}
