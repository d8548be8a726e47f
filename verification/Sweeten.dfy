/** The sugared logger's argument folding. */
module Sweeten {

  /** A value of some other type; the folding never looks inside one. */
  type Value = nat

  /** A loosely typed argument: a strongly typed field, an error, a string, or anything else. */
  datatype Arg = FieldArg(f: Value) | ErrorArg(e: Value) | StringArg(s: string) | OtherArg(v: Value)

  datatype Field = Typed(f: Value) | FromError(e: Value) | FromPair(key: string, val: Arg)

  datatype InvalidPair = InvalidPair(position: nat, key: Arg, val: Arg)

  /** What is logged about bad arguments. */
  datatype Complaint =
    | MultipleErrors(e: Value)
    | OddNumber(ignored: Arg)
    | NonStringKeys(pairs: seq<InvalidPair>)

  /** How many arguments the item at `i` takes: two for a pair, else one. */
  function Width(args: seq<Arg>, i: nat): (w: nat)
    requires i < |args|
    ensures 1 <= w && i + w <= |args|
  {
    if args[i].FieldArg? || args[i].ErrorArg? || i == |args| - 1 then 1 else 2
  }

  /** The positions at which items start, before position `n`. */
  function Starts(args: seq<Arg>, from: nat): seq<nat>
    requires from <= |args|
    decreases |args| - from
  {
    if from == |args| then [] else [from] + Starts(args, from + Width(args, from))
  }

  /** Items follow one another without gap or overlap from `from` to the end. */
  lemma {:induction false} StartsTile(args: seq<Arg>, from: nat)
    requires from <= |args|
    ensures var ss := Starts(args, from);
            && (forall j | 0 <= j < |ss| :: from <= ss[j] < |args|)
            && (ss == [] <==> from == |args|) && (ss != [] ==> ss[0] == from)
            && (forall j | 0 <= j < |ss| - 1 :: ss[j + 1] == ss[j] + Width(args, ss[j]))
            && (ss != [] ==> ss[|ss| - 1] + Width(args, ss[|ss| - 1]) == |args|)
    decreases |args| - from
  {
    hide Width;
    if from < |args| {
      var next := from + Width(args, from);
      var ss, rest := Starts(args, from), Starts(args, next);
      StartsTile(args, next);
      forall j | 0 <= j < |ss| - 1 ensures ss[j] < |args| && ss[j + 1] == ss[j] + Width(args, ss[j]) {
        if j > 0 {
          assert ss[j] == rest[j - 1] && ss[j + 1] == rest[j - 1 + 1];
        }
      }
    }
  }

  predicate Covers(args: seq<Arg>, start: nat, k: nat)
    requires start < |args|
  {
    start <= k < start + Width(args, start)
  }

  /** Every index is accounted for by exactly one item. */
  lemma {:induction false} EachIndexOnce(args: seq<Arg>, from: nat, k: nat) returns (j: nat)
    requires from <= k < |args|
    ensures var ss := Starts(args, from);
            && j < |ss| && ss[j] < |args| && Covers(args, ss[j], k)
            && forall i | 0 <= i < |ss| && i != j :: ss[i] < |args| && !Covers(args, ss[i], k)
    decreases |args| - from
  {
    var next := from + Width(args, from);
    var ss, rest := Starts(args, from), Starts(args, next);
    StartsTile(args, next);
    if k < next {
      j := 0;
      forall i | 0 <= i < |ss| && i != j ensures ss[i] < |args| && !Covers(args, ss[i], k) {
        assert ss[i] == rest[i - 1];
      }
    } else {
      var r := EachIndexOnce(args, next, k);
      j := r + 1;
      forall i | 0 <= i < |ss| && i != j ensures ss[i] < |args| && !Covers(args, ss[i], k) {
        if i > 0 {
          assert ss[i] == rest[i - 1];
        }
      }
    }
  }

  /** The item starts, spelled out: the first at the beginning, each next one after a typed
      field, an error or a dangling last argument alone, or else after a pair, up to the end. */
  predicate Tiling(args: seq<Arg>, ss: seq<nat>) {
    && (ss == [] <==> args == []) && (ss != [] ==> ss[0] == 0)
    && forall j | 0 <= j < |ss| :: EndsRight(args, ss, j)
  }

  predicate EndsRight(args: seq<Arg>, ss: seq<nat>, j: nat)
    requires j < |ss|
  {
    && ss[j] < |args|
    && StartAfter(args, ss, j)
       == ss[j] + if args[ss[j]].FieldArg? || args[ss[j]].ErrorArg? || ss[j] == |args| - 1 then 1 else 2
  }

  /** Where item `j` ends. */
  function StartAfter(args: seq<Arg>, ss: seq<nat>, j: nat): nat {
    if j + 1 < |ss| then ss[j + 1] else |args|
  }

  lemma StartsAreTiling(args: seq<Arg>)
    ensures Tiling(args, Starts(args, 0))
  {
    hide Starts;
    StartsTile(args, 0);
    var ss := Starts(args, 0);
    forall j | 0 <= j < |ss| ensures EndsRight(args, ss, j) {
      assert ss[j] < |args|;
      assert j + 1 < |ss| ==> ss[j + 1] == ss[j] + Width(args, ss[j]);
    }
  }

  lemma TilingAt(args: seq<Arg>, ss: seq<nat>, j: nat)
    requires Tiling(args, ss) && j < |ss|
    ensures ss[j] < |args| && StartAfter(args, ss, j) == ss[j] + Width(args, ss[j]) && ss[0] == 0
  {
    assert EndsRight(args, ss, j);
  }

  lemma {:induction false} TilingAgrees(args: seq<Arg>, ss: seq<nat>, tt: seq<nat>, j: nat)
    requires Tiling(args, ss) && Tiling(args, tt) && j < |ss|
    ensures j < |tt| && tt[j] == ss[j]
  {
    hide Width, Tiling;
    TilingAt(args, ss, j);
    if j == 0 {
      SomeItem(args, ss, tt);
    } else {
      TilingAgrees(args, ss, tt, j - 1);
      TilingAt(args, ss, j - 1);
      TilingAt(args, tt, j - 1);
    }
  }

  lemma SomeItem(args: seq<Arg>, ss: seq<nat>, tt: seq<nat>)
    requires Tiling(args, ss) && Tiling(args, tt) && ss != []
    ensures tt != [] && tt[0] == 0
  {
  }

  lemma TilingUnique(args: seq<Arg>, ss: seq<nat>, tt: seq<nat>)
    requires Tiling(args, ss) && Tiling(args, tt)
    ensures ss == tt
  {
    hide Tiling;
    if |ss| > 0 {
      TilingAgrees(args, ss, tt, |ss| - 1);
    }
    if |tt| > 0 {
      TilingAgrees(args, tt, ss, |tt| - 1);
    }
    forall j | 0 <= j < |ss| ensures ss[j] == tt[j] {
      TilingAgrees(args, ss, tt, j);
    }
  }

  // ----------------------------------------------------------- lists of items

  /** `xs` lists, in order, what the wanted ones among the first `n` items stand for: `at` says
      which item each comes from, and none is left out. */
  predicate Lists<T>(n: nat, xs: seq<T>, at: seq<nat>, fits: (nat, T) -> bool, wants: nat -> bool) {
    && |at| == |xs| && (forall k | 0 <= k < |at| :: at[k] < n && fits(at[k], xs[k]))
    && (forall a, b | 0 <= a < b < |at| :: at[a] < at[b])
    && forall j | 0 <= j < n && wants(j) :: j in at
  }

  lemma OneListed<T>(n: nat, xs: seq<T>, at: seq<nat>, fits: (nat, T) -> bool, wants: nat -> bool, x: T)
    requires Lists(n, xs, at, fits, wants) && fits(n, x)
    ensures Lists(n + 1, xs + [x], at + [n], fits, wants)
  {
    forall j | 0 <= j < n + 1 && wants(j) ensures j in at + [n] {
      assert j == n || j in at;
    }
  }

  lemma NoneListed<T>(n: nat, xs: seq<T>, at: seq<nat>, fits: (nat, T) -> bool, wants: nat -> bool)
    requires Lists(n, xs, at, fits, wants) && !wants(n)
    ensures Lists(n + 1, xs, at, fits, wants)
  {
  }

  /** Only wanted items fit, and each fits one thing. */
  ghost predicate Functional<T(!new)>(fits: (nat, T) -> bool, wants: nat -> bool) {
    && (forall j: nat, x: T :: fits(j, x) ==> wants(j))
    && (forall j: nat, x: T, y: T :: fits(j, x) && fits(j, y) ==> x == y)
  }

  lemma ListedLast<T(!new)>(n: nat, xs: seq<T>, at: seq<nat>, fits: (nat, T) -> bool, wants: nat -> bool)
    requires n > 0 && Lists(n, xs, at, fits, wants) && Functional(fits, wants)
    ensures if wants(n - 1) then |xs| > 0 && fits(n - 1, xs[|xs| - 1]) && Lists(n - 1, xs[..|xs| - 1], at[..|xs| - 1], fits, wants)
            else Lists(n - 1, xs, at, fits, wants)
  {
    var m := |at| - 1;
    if wants(n - 1) {
      assert n - 1 in at;
      var k :| 0 <= k < |at| && at[k] == n - 1;
      forall i | 0 <= i < m ensures at[..m][i] < n - 1 { assert at[i] < at[m]; }
      forall j | 0 <= j < n - 1 && wants(j) ensures j in at[..m] {
        var i :| 0 <= i < |at| && at[i] == j;
        assert at[..m][i] == j;
      }
    } else {
      forall k | 0 <= k < |at| ensures at[k] < n - 1 {
        assert fits(at[k], xs[k]);
      }
    }
  }

  lemma {:induction false} ListsUnique<T(!new)>(n: nat, xs: seq<T>, at: seq<nat>, ys: seq<T>, bt: seq<nat>,
                                                fits: (nat, T) -> bool, wants: nat -> bool)
    requires Lists(n, xs, at, fits, wants) && Lists(n, ys, bt, fits, wants) && Functional(fits, wants)
    ensures xs == ys
    decreases n
  {
    if n == 0 {
    } else {
      ListedLast(n, xs, at, fits, wants);
      ListedLast(n, ys, bt, fits, wants);
      hide Lists;
      if wants(n - 1) {
        ListsUnique(n - 1, xs[..|xs| - 1], at[..|xs| - 1], ys[..|ys| - 1], bt[..|ys| - 1], fits, wants);
        assert xs == xs[..|xs| - 1] + [xs[|xs| - 1]] && ys == ys[..|ys| - 1] + [ys[|ys| - 1]];
      } else {
        ListsUnique(n - 1, xs, at, ys, bt, fits, wants);
      }
    }
  }

  // --------------------------------------------------- what the items stand for

  predicate InRange(args: seq<Arg>, ss: seq<nat>) {
    forall j | 0 <= j < |ss| :: ss[j] < |args|
  }

  /** Item `j` is the first that is an error. */
  predicate FirstError(args: seq<Arg>, ss: seq<nat>, j: nat)
    requires InRange(args, ss) && j <= |ss|
  {
    forall k | 0 <= k < j :: !args[ss[k]].ErrorArg?
  }

  /** Fields come from typed fields, from pairs with a string key, and from the first error. */
  function FieldFits(args: seq<Arg>, ss: seq<nat>): (nat, Field) -> bool
    requires InRange(args, ss)
  {
    (j: nat, f: Field) => j < |ss| && var i := ss[j];
      match f
      case Typed(x) => args[i] == FieldArg(x)
      case FromError(e) => args[i] == ErrorArg(e) && FirstError(args, ss, j)
      case FromPair(key, val) => i + 1 < |args| && args[i] == StringArg(key) && args[i + 1] == val
  }

  function GivesField(args: seq<Arg>, ss: seq<nat>): nat -> bool
    requires InRange(args, ss)
  {
    (j: nat) => j < |ss| && var i := ss[j];
      args[i].FieldArg? || (args[i].ErrorArg? && FirstError(args, ss, j)) || (args[i].StringArg? && i + 1 < |args|)
  }

  /** Complaints made on the way are about later errors and about a dangling last argument. */
  function ComplaintFits(args: seq<Arg>, ss: seq<nat>): (nat, Complaint) -> bool
    requires InRange(args, ss)
  {
    (j: nat, c: Complaint) => j < |ss| && var i := ss[j];
      match c
      case MultipleErrors(e) => args[i] == ErrorArg(e) && !FirstError(args, ss, j)
      case OddNumber(a) => i + 1 == |args| && args[i] == a && !a.FieldArg? && !a.ErrorArg?
      case NonStringKeys(_) => false
  }

  function GivesComplaint(args: seq<Arg>, ss: seq<nat>): nat -> bool
    requires InRange(args, ss)
  {
    (j: nat) => j < |ss| && var i := ss[j];
      (args[i].ErrorArg? && !FirstError(args, ss, j)) || (i + 1 == |args| && !args[i].FieldArg? && !args[i].ErrorArg?)
  }

  /** Invalid pairs have a key that is neither a string, an error nor a typed field. */
  function PairFits(args: seq<Arg>, ss: seq<nat>): (nat, InvalidPair) -> bool
    requires InRange(args, ss)
  {
    (j: nat, p: InvalidPair) => j < |ss| && var i := ss[j];
      i + 1 < |args| && args[i].OtherArg? && p == InvalidPair(i, args[i], args[i + 1])
  }

  function GivesPair(args: seq<Arg>, ss: seq<nat>): nat -> bool
    requires InRange(args, ss)
  {
    (j: nat) => j < |ss| && ss[j] + 1 < |args| && args[ss[j]].OtherArg?
  }

  /** Where everything comes from: the item starts, the items behind the fields, the complaints
      made on the way and the invalid pairs. */
  datatype Origins = Origins(ss: seq<nat>, at: seq<nat>, early: seq<Complaint>, said: seq<nat>,
                             pairs: seq<InvalidPair>, bad: seq<nat>)

  /** The first `n` items account for these fields and for the complaints and pairs of `o`. */
  predicate Accounts(args: seq<Arg>, n: nat, fields: seq<Field>, o: Origins) {
    && InRange(args, o.ss)
    && Lists(n, fields, o.at, FieldFits(args, o.ss), GivesField(args, o.ss))
    && Lists(n, o.early, o.said, ComplaintFits(args, o.ss), GivesComplaint(args, o.ss))
    && Lists(n, o.pairs, o.bad, PairFits(args, o.ss), GivesPair(args, o.ss))
  }

  /** The whole result: all items are accounted for, and invalid pairs are reported together, last. */
  predicate Sweetened(args: seq<Arg>, fields: seq<Field>, complaints: seq<Complaint>, o: Origins) {
    && Tiling(args, o.ss) && Accounts(args, |o.ss|, fields, o)
    && complaints == o.early + if o.pairs == [] then [] else [NonStringKeys(o.pairs)]
  }

  lemma AllFunctional(args: seq<Arg>, ss: seq<nat>)
    requires InRange(args, ss)
    ensures Functional(FieldFits(args, ss), GivesField(args, ss))
    ensures Functional(ComplaintFits(args, ss), GivesComplaint(args, ss))
    ensures Functional(PairFits(args, ss), GivesPair(args, ss))
  {
    hide FirstError;
  }

  /** The description leaves no choice: there is one list of fields and one list of complaints
      that answers to it. */
  lemma SweetenedUnique(args: seq<Arg>, f1: seq<Field>, c1: seq<Complaint>, o1: Origins,
                        f2: seq<Field>, c2: seq<Complaint>, o2: Origins)
    requires Sweetened(args, f1, c1, o1) && Sweetened(args, f2, c2, o2)
    ensures f1 == f2 && c1 == c2
  {
    hide Tiling, Lists, FieldFits, GivesField, ComplaintFits, GivesComplaint, PairFits, GivesPair, Functional;
    TilingUnique(args, o1.ss, o2.ss);
    var ss := o1.ss;
    AllFunctional(args, ss);
    ListsUnique(|ss|, f1, o1.at, f2, o2.at, FieldFits(args, ss), GivesField(args, ss));
    ListsUnique(|ss|, o1.early, o1.said, o2.early, o2.said, ComplaintFits(args, ss), GivesComplaint(args, ss));
    ListsUnique(|ss|, o1.pairs, o1.bad, o2.pairs, o2.bad, PairFits(args, ss), GivesPair(args, ss));
  }

  // ------------------------------------------------------------------ the loop

  /** The loop's own state, and where it comes from. */
  datatype Progress = Progress(fields: seq<Field>, complaints: seq<Complaint>, invalid: seq<InvalidPair>, seenError: bool)

  predicate HasRead(args: seq<Arg>, n: nat, p: Progress, o: Origins) {
    && n <= |o.ss| && p.complaints == o.early && p.invalid == o.pairs && Accounts(args, n, p.fields, o)
    && (p.seenError <==> !FirstError(args, o.ss, n))
  }

  /** Item `n` adds a field and nothing else. */
  lemma ReadField(args: seq<Arg>, n: nat, p: Progress, o: Origins, f: Field, q: Progress)
    requires HasRead(args, n, p, o) && n < |o.ss| && FieldFits(args, o.ss)(n, f)
    requires q == p.(fields := p.fields + [f], seenError := p.seenError || args[o.ss[n]].ErrorArg?)
    ensures HasRead(args, n + 1, q, o.(at := o.at + [n]))
  {
    hide Lists;
    OneListed(n, p.fields, o.at, FieldFits(args, o.ss), GivesField(args, o.ss), f);
    NoneListed(n, o.early, o.said, ComplaintFits(args, o.ss), GivesComplaint(args, o.ss));
    NoneListed(n, o.pairs, o.bad, PairFits(args, o.ss), GivesPair(args, o.ss));
  }

  lemma ReadComplaint(args: seq<Arg>, n: nat, p: Progress, o: Origins, c: Complaint)
    requires HasRead(args, n, p, o) && n < |o.ss| && ComplaintFits(args, o.ss)(n, c)
    ensures HasRead(args, n + 1, p.(complaints := p.complaints + [c]), o.(early := o.early + [c], said := o.said + [n]))
  {
    hide Lists;
    NoneListed(n, p.fields, o.at, FieldFits(args, o.ss), GivesField(args, o.ss));
    OneListed(n, o.early, o.said, ComplaintFits(args, o.ss), GivesComplaint(args, o.ss), c);
    NoneListed(n, o.pairs, o.bad, PairFits(args, o.ss), GivesPair(args, o.ss));
  }

  lemma ReadInvalid(args: seq<Arg>, n: nat, p: Progress, o: Origins, pair: InvalidPair)
    requires HasRead(args, n, p, o) && n < |o.ss| && PairFits(args, o.ss)(n, pair)
    ensures HasRead(args, n + 1, p.(invalid := p.invalid + [pair]), o.(pairs := o.pairs + [pair], bad := o.bad + [n]))
  {
    hide Lists;
    NoneListed(n, p.fields, o.at, FieldFits(args, o.ss), GivesField(args, o.ss));
    NoneListed(n, o.early, o.said, ComplaintFits(args, o.ss), GivesComplaint(args, o.ss));
    OneListed(n, o.pairs, o.bad, PairFits(args, o.ss), GivesPair(args, o.ss), pair);
  }

  /** One round of the loop: reads item `n` at `i` and says how far it reaches. */
  method ReadItem(args: seq<Arg>, i: nat, p: Progress, ghost n: nat, ghost o: Origins)
    returns (next: nat, q: Progress, ghost o': Origins)
    requires n < |o.ss| && HasRead(args, n, p, o) && o.ss[n] == i
    ensures next == i + Width(args, i) && HasRead(args, n + 1, q, o') && o'.ss == o.ss
  {
    q, o' := p, o;
    if args[i].FieldArg? {
      q := q.(fields := q.fields + [Typed(args[i].f)]);
      ReadField(args, n, p, o, Typed(args[i].f), q);
      return i + 1, q, o.(at := o.at + [n]);
    }
    if args[i].ErrorArg? {
      if !q.seenError {
        q := q.(seenError := true, fields := q.fields + [FromError(args[i].e)]);
        ReadField(args, n, p, o, FromError(args[i].e), q);
        o' := o.(at := o.at + [n]);
      } else {
        q := q.(complaints := q.complaints + [MultipleErrors(args[i].e)]);
        ReadComplaint(args, n, p, o, MultipleErrors(args[i].e));
        o' := o.(early := o.early + [MultipleErrors(args[i].e)], said := o.said + [n]);
      }
      return i + 1, q, o';
    }
    if i == |args| - 1 {
      q := q.(complaints := q.complaints + [OddNumber(args[i])]);
      ReadComplaint(args, n, p, o, OddNumber(args[i]));
      return i + 1, q, o.(early := o.early + [OddNumber(args[i])], said := o.said + [n]);
    }
    var key, val := args[i], args[i + 1];
    if key.StringArg? {
      q := q.(fields := q.fields + [FromPair(key.s, val)]);
      ReadField(args, n, p, o, FromPair(key.s, val), q);
      o' := o.(at := o.at + [n]);
    } else {
      q := q.(invalid := q.invalid + [InvalidPair(i, key, val)]);
      ReadInvalid(args, n, p, o, InvalidPair(i, key, val));
      o' := o.(pairs := o.pairs + [InvalidPair(i, key, val)], bad := o.bad + [n]);
    }
    return i + 2, q, o';
  }

  /** Position `i` is where item `n` starts, or the end after the last item. */
  predicate StartsItem(args: seq<Arg>, ss: seq<nat>, n: nat, i: nat) {
    n <= |ss| && i == if n < |ss| then ss[n] else |args|
  }

  lemma FirstItem(args: seq<Arg>)
    ensures var ss := Starts(args, 0); InRange(args, ss) && StartsItem(args, ss, 0, 0)
  {
    hide Starts, Width;
    StartsTile(args, 0);
  }

  lemma NextItem(args: seq<Arg>, n: nat)
    requires n < |Starts(args, 0)| && Starts(args, 0)[n] < |args|
    ensures var ss := Starts(args, 0); StartsItem(args, ss, n + 1, ss[n] + Width(args, ss[n]))
  {
    hide Starts, Width;
    StartsTile(args, 0);
    var ss := Starts(args, 0);
    assert n + 1 < |ss| ==> ss[n + 1] == ss[n] + Width(args, ss[n]);
  }

  /** Reads all items from left to right. */
  method ReadItems(args: seq<Arg>) returns (p: Progress, ghost o: Origins)
    ensures o.ss == Starts(args, 0) && HasRead(args, |o.ss|, p, o)
  {
    FirstItem(args);
    p := Progress([], [], [], false);
    o := Origins(Starts(args, 0), [], [], [], [], []);
    assert HasRead(args, 0, p, o) by { NothingRead(args, o); }
    hide Starts, Width, HasRead;
    var i := 0;
    ghost var n := 0;
    while i < |args|
      invariant o.ss == Starts(args, 0) && StartsItem(args, o.ss, n, i) && HasRead(args, n, p, o)
      decreases |args| - i
    {
      NextItem(args, n);
      i, p, o := ReadItem(args, i, p, n, o);
      n := n + 1;
    }
    assert n == |o.ss|;
  }

  lemma NothingRead(args: seq<Arg>, o: Origins)
    requires InRange(args, o.ss) && o == Origins(o.ss, [], [], [], [], [])
    ensures HasRead(args, 0, Progress([], [], [], false), o)
  {
  }

  /** `sweetenFields`: every item of the argument list ends up where it belongs, in order. */
  method SweetenFields(args: seq<Arg>) returns (fields: seq<Field>, complaints: seq<Complaint>, ghost o: Origins)
    ensures Sweetened(args, fields, complaints, o)
  {
    hide Starts, Lists, Tiling;
    StartsAreTiling(args);
    var p: Progress;
    p, o := ReadItems(args);
    fields, complaints := p.fields, p.complaints;
    assert p.complaints + [] == p.complaints;
    if |p.invalid| > 0 {
      complaints := complaints + [NonStringKeys(p.invalid)];
    }
  }
}
