/** The writer that turns a byte stream into one log message per line. */
module LineWriter {
  import opened Utf8

  const NEWLINE: Byte := 0x0A

  predicate NoNewline(s: Bytes) {
    NEWLINE !in s
  }

  /** The newline-split of a stream: always at least one piece, the last possibly empty. */
  function Pieces(s: Bytes): (ps: seq<Bytes>)
    ensures ps != []
  {
    if s == [] then [[]] else Push(Pieces(s[..|s| - 1]), s[|s| - 1])
  }

  /** One more byte: a newline starts a new piece, anything else extends the last. */
  function Push(ps: seq<Bytes>, b: Byte): (qs: seq<Bytes>)
    requires ps != []
    ensures qs != []
  {
    if b == NEWLINE then ps + [[]] else Front(ps) + [Last(ps) + [b]]
  }

  function Front(ps: seq<Bytes>): seq<Bytes>
    requires ps != []
  {
    ps[..|ps| - 1]
  }

  function Last(ps: seq<Bytes>): Bytes
    requires ps != []
  {
    ps[|ps| - 1]
  }

  /** Pieces joined with newlines between them. */
  function Join(ps: seq<Bytes>): Bytes
    requires ps != []
  {
    if |ps| == 1 then ps[0] else Join(Front(ps)) + [NEWLINE] + Last(ps)
  }

  lemma JoinPush(ps: seq<Bytes>, b: Byte)
    requires ps != []
    ensures Join(Push(ps, b)) == Join(ps) + [b]
  {
    if b == NEWLINE {
      assert Front(ps + [[]]) == ps;
    } else {
      var qs := Push(ps, b);
      assert Front(qs) == Front(ps) && Last(qs) == Last(ps) + [b];
    }
  }

  lemma PushNoNewline(ps: seq<Bytes>, b: Byte)
    requires ps != [] && forall i | 0 <= i < |ps| :: NoNewline(ps[i])
    ensures forall i | 0 <= i < |Push(ps, b)| :: NoNewline(Push(ps, b)[i])
  {
  }

  /** The split is a split: the pieces hold no newline, and joining them gives the stream. */
  lemma {:induction false} PiecesSplit(s: Bytes)
    ensures forall i | 0 <= i < |Pieces(s)| :: NoNewline(Pieces(s)[i])
    ensures Join(Pieces(s)) == s
    decreases |s|
  {
    hide Push, Join, NoNewline;
    if s == [] {
      NothingSplit();
    } else {
      var n := |s| - 1;
      PiecesSplit(s[..n]);
      assert s == s[..n] + [s[n]];
      JoinPush(Pieces(s[..n]), s[n]);
      PushNoNewline(Pieces(s[..n]), s[n]);
    }
  }

  lemma NothingSplit()
    ensures Join([[]]) == [] && NoNewline([])
  {
  }

  lemma PushAfter(front: seq<Bytes>, ps: seq<Bytes>, b: Byte)
    requires ps != []
    ensures Push(front + ps, b) == front + Push(ps, b)
  {
    var all := front + ps;
    assert Front(all) == front + Front(ps) && Last(all) == Last(ps);
  }

  /** Splitting may resume from the last unfinished piece. */
  lemma {:induction false} PiecesResume(a: Bytes, b: Bytes)
    ensures Pieces(a + b) == Front(Pieces(a)) + Pieces(Last(Pieces(a)) + b)
    decreases |b|
  {
    hide Pieces, Push, NoNewline, Join;
    var l := Last(Pieces(a));
    if b == [] {
      assert a + b == a && l + b == l;
      PiecesSplit(a);
      WholePiece(l);
      assert Pieces(a) == Front(Pieces(a)) + [l];
    } else {
      var n := |b| - 1;
      PiecesResume(a, b[..n]);
      assert a + b == a + b[..n] + [b[n]];
      assert l + b == l + b[..n] + [b[n]];
      OneByte(a + b[..n], b[n]);
      OneByte(l + b[..n], b[n]);
      PushAfter(Front(Pieces(a)), Pieces(l + b[..n]), b[n]);
    }
  }

  lemma OneByte(s: Bytes, b: Byte)
    ensures Pieces(s + [b]) == Push(Pieces(s), b)
  {
    assert (s + [b])[..|s|] == s;
  }

  lemma {:induction false} WholePiece(s: Bytes)
    requires NoNewline(s)
    ensures Pieces(s) == [s]
    decreases |s|
  {
    if s != [] {
      var n := |s| - 1;
      assert NoNewline(s[..n]) && s[n] != NEWLINE by { WithoutLast(s); }
      hide NoNewline;
      WholePiece(s[..n]);
      assert Push([s[..n]], s[n]) == [s[..n] + [s[n]]];
      assert s[..n] + [s[n]] == s;
    }
  }

  lemma WithoutLast(s: Bytes)
    requires NoNewline(s) && s != []
    ensures NoNewline(s[..|s| - 1]) && s[|s| - 1] != NEWLINE
  {
    assert s[|s| - 1] in s;
  }

  lemma OneLine(line: Bytes, rest: Bytes)
    requires NoNewline(line)
    ensures Pieces(line + [NEWLINE] + rest) == [line] + Pieces(rest)
  {
    var s := line + [NEWLINE];
    WholePiece(line);
    assert s[..|line|] == line;
    assert Pieces(s) == [line, []];
    PiecesResume(s, rest);
    assert [] + rest == rest;
  }

  /** The messages of a finished stream: the split less an empty last piece. */
  function Messages(s: Bytes): seq<Bytes> {
    if Last(Pieces(s)) == [] then Front(Pieces(s)) else Pieces(s)
  }

  /** The lines again: every message ended by a newline. */
  function Ended(ms: seq<Bytes>): Bytes {
    if ms == [] then [] else Ended(ms[..|ms| - 1]) + ms[|ms| - 1] + [0x0A]
  }

  lemma {:induction false} EndedIsJoin(ps: seq<Bytes>)
    requires ps != []
    ensures Ended(ps) == Join(ps) + [0x0A]
    ensures Ended(Front(ps)) + Last(ps) == Join(ps)
    decreases |ps|
  {
    if |ps| == 1 {
      assert ps[..0] == [] && Ended(ps[..0]) == [];
    } else {
      EndedIsJoin(Front(ps));
    }
  }

  lemma {:induction false} EndedConcat(a: seq<Bytes>, b: seq<Bytes>)
    ensures Ended(a + b) == Ended(a) + Ended(b)
    decreases |b|
  {
    if b == [] {
      assert a + b == a;
    } else {
      var n := |b| - 1;
      EndedConcat(a, b[..n]);
      assert (a + b)[..|a + b| - 1] == a + b[..n];
      assert Ended(a) + Ended(b[..n]) + b[n] + [0x0A] == Ended(a) + (Ended(b[..n]) + b[n] + [0x0A]);
    }
  }

  predicate EndsInNewline(s: Bytes) {
    s != [] && s[|s| - 1] == 0x0A
  }

  /** The stream with its last line ended. */
  function EndedStream(s: Bytes): Bytes {
    if s == [] || EndsInNewline(s) then s else s + [0x0A]
  }

  /** Messages are the lines of the stream, no more and no less: none contains a newline, and
      ended by newlines they are the stream, its last line ended if it was not. */
  lemma MessagesAreLines(s: Bytes)
    ensures forall i | 0 <= i < |Messages(s)| :: 0x0A !in Messages(s)[i]
    ensures s == [] || s[|s| - 1] == 0x0A ==> Ended(Messages(s)) == s
    ensures s != [] && s[|s| - 1] != 0x0A ==> Ended(Messages(s)) == s + [0x0A]
  {
    hide Pieces, Join, Ended;
    var ps := Pieces(s);
    PiecesSplit(s);
    EndedIsJoin(ps);
    if Last(ps) == [] {
      assert Ended(Front(ps)) + [] == Ended(Front(ps));
      assert s == [] || s[|s| - 1] == 0x0A by { EmptyLast(ps); }
    } else {
      assert s == Ended(Front(ps)) + Last(ps);
      assert s[|s| - 1] == Last(ps)[|Last(ps)| - 1];
      assert NoNewline(Last(ps));
      assert Last(ps)[|Last(ps)| - 1] in Last(ps);
    }
  }

  lemma EmptyLast(ps: seq<Bytes>)
    requires ps != [] && Last(ps) == []
    ensures Join(ps) == [] || Join(ps)[|Join(ps)| - 1] == 0x0A
  {
  }

  class Writer {
    const enabled: bool
    var buff: Bytes
    var logged: seq<Bytes>

    constructor (enabled: bool)
      ensures this.enabled == enabled && buff == [] && logged == []
    {
      this.enabled := enabled;
      buff, logged := [], [];
    }

    method Log(b: Bytes)
      modifies this`logged
      ensures logged == old(logged) + [b]
    {
      logged := logged + [b];
    }

    method Flush(allowEmpty: bool)
      modifies this
      ensures logged == if allowEmpty || old(buff) != [] then old(logged) + [old(buff)] else old(logged)
      ensures buff == []
    {
      if allowEmpty || |buff| > 0 {
        Log(buff);
      }
      buff := [];
    }

    /** The first newline in `line`, or -1. */
    static method IndexNewline(line: Bytes) returns (idx: int)
      ensures -1 <= idx < |line|
      ensures idx < 0 ==> NoNewline(line)
      ensures idx >= 0 ==> line[idx] == NEWLINE && NoNewline(line[..idx])
    {
      for i := 0 to |line|
        invariant NoNewline(line[..i])
      {
        if line[i] == NEWLINE {
          return i;
        }
        assert line[..i + 1] == line[..i] + [line[i]];
      }
      assert line[..|line|] == line;
      return -1;
    }

    /** `writeLine`: consumes up to and including the first newline. */
    method WriteLine(line: Bytes) returns (remaining: Bytes)
      requires NoNewline(buff) && line != []
      modifies this
      ensures NoNewline(buff) && |remaining| < |line|
      ensures old(logged) + Pieces(old(buff) + line) == logged + Pieces(buff + remaining)
    {
      hide Pieces;
      var idx := IndexNewline(line);
      if idx < 0 {
        buff := buff + line;
        assert buff + [] == buff;
        return [];
      }
      remaining := line[idx + 1..];
      assert line == line[..idx] + [NEWLINE] + remaining;
      assert old(buff) + line == old(buff) + line[..idx] + [NEWLINE] + remaining;
      OneLine(old(buff) + line[..idx], remaining);
      if |buff| == 0 {
        assert buff + line[..idx] == line[..idx];
        Log(line[..idx]);
      } else {
        buff := buff + line[..idx];
        Flush(true);
      }
      assert buff + remaining == remaining;
      assert old(logged) + ([old(buff) + line[..idx]] + Pieces(remaining)) == logged + Pieces(remaining);
    }

    /** `Write`: every finished line is logged, the unfinished one stays buffered. */
    method Write(bs0: Bytes) returns (n: nat)
      requires NoNewline(buff)
      modifies this
      ensures NoNewline(buff) && n == |bs0|
      ensures enabled ==> old(logged) + Pieces(old(buff) + bs0) == logged + [buff]
      ensures !enabled ==> logged == old(logged) && buff == old(buff)
    {
      hide Pieces;
      n := |bs0|;
      if !enabled {
        return;
      }
      var bs := bs0;
      while |bs| > 0
        invariant NoNewline(buff)
        invariant old(logged) + Pieces(old(buff) + bs0) == logged + Pieces(buff + bs)
        decreases |bs|
      {
        bs := WriteLine(bs);
      }
      assert buff + bs == buff;
      WholePiece(buff);
    }

    /** `Sync` and `Close`: an unfinished line is logged unless it is empty. */
    method Sync()
      modifies this
      ensures logged == (if old(buff) != [] then old(logged) + [old(buff)] else old(logged)) && buff == []
    {
      Flush(false);
    }
  }

  datatype Op = Chunk(bs: Bytes) | SyncNow

  /** The bytes written since the last Sync. */
  function OpenSegment(ops: seq<Op>): Bytes {
    if ops == [] then []
    else match ops[|ops| - 1]
      case Chunk(bs) => OpenSegment(ops[..|ops| - 1]) + bs
      case SyncNow => []
  }

  /** The messages of the segments that a Sync has closed. */
  function ClosedMessages(ops: seq<Op>): seq<Bytes> {
    if ops == [] then []
    else match ops[|ops| - 1]
      case Chunk(_) => ClosedMessages(ops[..|ops| - 1])
      case SyncNow => ClosedMessages(ops[..|ops| - 1]) + Messages(OpenSegment(ops[..|ops| - 1]))
  }

  /** What was written, the last line before each Sync and at the end being ended if it was not. */
  function Written(ops: seq<Op>): Bytes {
    WrittenBefore(ops) + EndedStream(OpenSegment(ops))
  }

  function WrittenBefore(ops: seq<Op>): Bytes {
    if ops == [] then []
    else match ops[|ops| - 1]
      case Chunk(_) => WrittenBefore(ops[..|ops| - 1])
      case SyncNow => WrittenBefore(ops[..|ops| - 1]) + EndedStream(OpenSegment(ops[..|ops| - 1]))
  }

  lemma {:induction false} ClosedLines(ops: seq<Op>)
    ensures Ended(ClosedMessages(ops)) == WrittenBefore(ops)
    ensures forall i | 0 <= i < |ClosedMessages(ops)| :: 0x0A !in ClosedMessages(ops)[i]
    decreases |ops|
  {
    hide Messages, Ended, EndedStream, OpenSegment;
    if ops == [] {
      NothingEnded();
    } else {
      var before := ops[..|ops| - 1];
      var seg := OpenSegment(before);
      ClosedLines(before);
      EndedMessages(seg);
      EndedConcat(ClosedMessages(before), Messages(seg));
    }
  }

  lemma NothingEnded()
    ensures Ended([]) == []
  {
  }

  lemma EndedMessages(s: Bytes)
    ensures Ended(Messages(s)) == EndedStream(s)
    ensures forall i | 0 <= i < |Messages(s)| :: 0x0A !in Messages(s)[i]
  {
    hide Messages, Ended;
    MessagesAreLines(s);
  }

  lemma AllLines(ops: seq<Op>)
    ensures var ms := ClosedMessages(ops) + Messages(OpenSegment(ops));
            Ended(ms) == Written(ops) && forall i | 0 <= i < |ms| :: 0x0A !in ms[i]
  {
    hide Messages, Ended, EndedStream;
    ClosedLines(ops);
    EndedMessages(OpenSegment(ops));
    EndedConcat(ClosedMessages(ops), Messages(OpenSegment(ops)));
  }

  /** However a stream is cut into writes, the messages logged by the time of Close are those
      of each segment between Syncs, split on its own. */
  method WriteAndClose(ops: seq<Op>) returns (logged: seq<Bytes>)
    ensures logged == ClosedMessages(ops) + Messages(OpenSegment(ops))
    ensures forall i | 0 <= i < |logged| :: 0x0A !in logged[i]
    ensures Ended(logged) == Written(ops)
  {
    AllLines(ops);
    hide Pieces, Messages, Ended, Written;
    var w := new Writer(true);
    WholePiece([]);
    for i := 0 to |ops|
      invariant w.enabled && NoNewline(w.buff)
      invariant w.logged + [w.buff] == ClosedMessages(ops[..i]) + Pieces(OpenSegment(ops[..i]))
    {
      ghost var seg := OpenSegment(ops[..i]);
      assert ops[..i + 1][..i] == ops[..i];
      match ops[i]
      case Chunk(bs) =>
        PiecesResume(seg, bs);
        Resumed(w.logged, w.buff, ClosedMessages(ops[..i]), Pieces(seg), Pieces(w.buff + bs));
        var _ := w.Write(bs);
      case SyncNow =>
        Finished(w.logged, w.buff, ClosedMessages(ops[..i]), seg);
        w.Sync();
    }
    assert ops[..|ops|] == ops;
    Finished(w.logged, w.buff, ClosedMessages(ops), OpenSegment(ops));
    w.Sync();
    logged := w.logged;
  }

  lemma Resumed(logged: seq<Bytes>, buff: Bytes, closed: seq<Bytes>, ps: seq<Bytes>, more: seq<Bytes>)
    requires ps != [] && logged + [buff] == closed + ps
    ensures buff == Last(ps) && logged + more == closed + (Front(ps) + more)
  {
    assert (logged + [buff])[|logged|] == buff;
    assert logged == (logged + [buff])[..|logged|];
    assert closed + Front(ps) == (closed + ps)[..|logged|];
  }

  lemma Finished(logged: seq<Bytes>, buff: Bytes, closed: seq<Bytes>, seg: Bytes)
    requires logged + [buff] == closed + Pieces(seg)
    ensures (if buff != [] then logged + [buff] else logged) == closed + Messages(seg)
  {
    hide Pieces;
    Resumed(logged, buff, closed, Pieces(seg), []);
    assert logged + [] == logged && Front(Pieces(seg)) + [] == Front(Pieces(seg));
  }
}
