/**
  The data path of the buffered write syncer: a sink that may fail, the standard library's
  `bufio.Writer` over it, and `BufferedWriteSyncer.Write` and `Sync` on top.
 */
module Bufio {
  import opened Common
  import opened Utf8

  /** What the syncer holds: bytes in the sink, bytes buffered, and the sticky error. */
  datatype Store = Store(sink: Bytes, buf: Bytes, err: bool) {
    function Stream(): Bytes {
      sink + buf
    }
  }

  /** A flush: nothing is lost, a success empties the buffer, an error sticks. */
  ghost predicate FlushRel(d: Store, d': Store, ok: bool) {
    if d.err then d' == d && !ok
    else d.sink <= d'.sink && d'.Stream() == d.Stream() && (ok <==> !d'.err) && (ok ==> d'.buf == [])
  }

  /** A write of one record: all of it is taken, or an error sticks and only a prefix is. */
  ghost predicate WriteRel(d: Store, d': Store, bs: Bytes, ok: bool) {
    if d.err then d' == d && !ok
    else
      && d.sink <= d'.sink && (ok <==> !d'.err)
      && (ok ==> d'.Stream() == d.Stream() + bs)
      && (!ok ==> d'.Stream() <= d.Stream() + bs)
  }

  /** A sink accepts some of what it is given and may fail. Without an error it makes
      progress; a full-write sink takes everything. */
  class Sink {
    const full: bool
    var contents: Bytes
    var calls: seq<Bytes>

    constructor (full: bool)
      ensures this.full == full && contents == [] && calls == []
    {
      this.full := full;
      contents, calls := [], [];
    }

    method Write(p: Bytes) returns (n: nat, err: bool)
      modifies this
      ensures n <= |p| && contents == old(contents) + p[..n] && calls == old(calls) + [p]
      ensures !err && p != [] ==> n > 0
      ensures full ==> n == |p| && !err
    {
      n :| 0 <= n <= |p|;
      if full {
        n := |p|;
      }
      err := *;
      if full {
        err := false;
      } else if n == 0 && p != [] {
        err := true;
      }
      contents := contents + p[..n];
      calls := calls + [p];
    }
  }

  const DEFAULT_BUFIO_SIZE: nat := 4096

  /** `bufio.Writer`: a buffer of fixed size and a sticky error. */
  class BufioWriter {
    const wr: Sink
    const size: nat
    var buf: Bytes
    var err: bool

    ghost predicate Valid()
      reads this
    {
      |buf| <= size && size > 0
    }

    function Value(): Store
      reads this, wr
    {
      Store(wr.contents, buf, err)
    }

    constructor (wr: Sink, size: int)
      ensures Valid() && this.wr == wr && this.size == (if size <= 0 then DEFAULT_BUFIO_SIZE else size)
      ensures buf == [] && !err
    {
      this.wr := wr;
      this.size := if size <= 0 then DEFAULT_BUFIO_SIZE else size;
      buf, err := [], false;
    }

    function Available(): int
      reads this
    {
      size - |buf|
    }

    method Flush() returns (ok: bool)
      requires Valid()
      modifies this, wr
      ensures Valid() && FlushRel(old(Value()), Value(), ok)
      ensures wr.calls == if old(err) || old(buf) == [] then old(wr.calls) else old(wr.calls) + [old(buf)]
      ensures wr.full && !old(err) ==> ok
    {
      if err {
        return false;
      }
      if |buf| == 0 {
        return true;
      }
      var n, failed := wr.Write(buf);
      assert old(wr.contents) + buf == old(wr.contents) + buf[..n] + buf[n..];
      if failed || n < |buf| {
        buf := buf[n..];
        err := true;
        return false;
      }
      buf := [];
      return true;
    }

    /** One round of the loop in `Write`: large data goes straight to the sink when the buffer
        is empty; otherwise the buffer is filled and flushed. */
    method WriteRound(p: Bytes) returns (n: nat)
      requires Valid() && !err && |p| > Available()
      modifies this, wr
      ensures Valid() && n <= |p| && Value().Stream() == old(Value().Stream()) + p[..n]
      ensures old(wr.contents) <= wr.contents
      ensures err || n > 0 || |buf| < old(|buf|)
      ensures wr.full ==> !err
      ensures wr.full && old(buf) == [] ==> n == |p| && buf == [] && wr.calls == old(wr.calls) + [p]
    {
      if |buf| == 0 {
        n, err := wr.Write(p);
        DirectWrite(old(Value()), Value(), p, n);
      } else {
        n := Available();
        buf := buf + p[..n];
        var _ := Flush();
        FillAndFlush(old(Value()), Value(), p, n);
      }
    }

    method Write(p0: Bytes) returns (nn: nat, ok: bool)
      requires Valid()
      modifies this, wr
      ensures Valid() && WriteRel(old(Value()), Value(), p0, ok) && nn <= |p0| && (ok ==> nn == |p0|)
      ensures !old(err) && |p0| <= old(Available()) ==> ok && buf == old(buf) + p0 && wr.calls == old(wr.calls)
      ensures wr.full && !old(err) && |p0| > old(Available()) && old(buf) == [] ==> buf == [] && wr.calls == old(wr.calls) + [p0]
      ensures wr.full && !old(err) ==> ok
    {
      ghost var d0 := Value();
      var p := p0;
      nn := 0;
      while |p| > Available() && !err
        invariant Valid() && nn + |p| == |p0|
        invariant d0.err ==> Value() == d0 && nn == 0
        invariant !d0.err ==> d0.sink <= wr.contents && Value().Stream() <= d0.Stream() + p0
        invariant !err ==> Value().Stream() + p == d0.Stream() + p0
        invariant wr.full && !d0.err ==> !err
        invariant (nn == 0 && p == p0 && Value() == d0 && wr.calls == old(wr.calls))
                  || (!d0.err && |p0| > size - |d0.buf| && (wr.full && d0.buf == [] ==> p == [] && buf == [] && wr.calls == old(wr.calls) + [p0]))
        decreases !err, |p|, |buf|
      {
        ghost var d1, q := Value(), p;
        var n := WriteRound(p);
        nn := nn + n;
        p := p[n..];
        Advanced(d0, d1, Value(), p0, q, n);
      }
      if err {
        return nn, false;
      }
      assert wr.contents + (buf + p) == wr.contents + buf + p;
      buf := buf + p;
      nn := nn + |p|;
      return nn, true;
    }

    static lemma DirectWrite(d: Store, d': Store, p: Bytes, n: nat)
      requires n <= |p| && d.buf == [] && d'.buf == [] && d'.sink == d.sink + p[..n]
      ensures d'.Stream() == d.Stream() + p[..n]
    {
    }

    static lemma FillAndFlush(d: Store, d': Store, p: Bytes, n: nat)
      requires n <= |p| && d'.Stream() == d.sink + (d.buf + p[..n])
      ensures d'.Stream() == d.Stream() + p[..n]
    {
    }

    /** One round of the loop moves `n` bytes of the rest `q` into the stream. */
    static lemma Advanced(d0: Store, d1: Store, d2: Store, p0: Bytes, q: Bytes, n: nat)
      requires n <= |q| && d2.Stream() == d1.Stream() + q[..n] && d1.Stream() + q == d0.Stream() + p0
      ensures d2.Stream() + q[n..] == d0.Stream() + p0
      ensures d2.Stream() <= d0.Stream() + p0
    {
      assert q == q[..n] + q[n..];
      assert d2.Stream() + q[n..] == d1.Stream() + (q[..n] + q[n..]);
    }
  }

  const DEFAULT_BUFFER_SIZE: int := 262144

  /** The sink calls `calls`, and what is buffered, are runs of whole records. */
  ghost predicate WholeRecords(calls: seq<Bytes>, buf: Bytes, records: seq<Bytes>, groups: seq<seq<Bytes>>, pending: seq<Bytes>) {
    && |groups| == |calls| && (forall i | 0 <= i < |calls| :: calls[i] == Flatten(groups[i]))
    && Flatten(groups) + pending == records && buf == Flatten(pending)
  }

  lemma GroupSent(calls: seq<Bytes>, buf: Bytes, records: seq<Bytes>, groups: seq<seq<Bytes>>, pending: seq<Bytes>)
    requires WholeRecords(calls, buf, records, groups, pending)
    ensures WholeRecords(calls + [buf], [], records, groups + [pending], [])
  {
    hide Flatten;
    FlattenAppend(groups, pending);
    FlattenNothing<Byte>();
  }

  lemma RecordBuffered(calls: seq<Bytes>, buf: Bytes, records: seq<Bytes>, groups: seq<seq<Bytes>>, pending: seq<Bytes>, bs: Bytes)
    requires WholeRecords(calls, buf, records, groups, pending)
    ensures WholeRecords(calls, buf + bs, records + [bs], groups, pending + [bs])
  {
    FlattenAppend(pending, bs);
    assert Flatten(groups) + (pending + [bs]) == Flatten(groups) + pending + [bs];
  }

  class BufferedWriteSyncer {
    const ws: Sink
    const size: int
    var initialized: bool
    var writer: BufioWriter?
    ghost var attempted: seq<Bytes>
    ghost var groups: seq<seq<Bytes>>
    ghost var pending: seq<Bytes>

    /** What has been stored; an uninitialized syncer holds nothing. */
    ghost function Value(): Store
      requires initialized ==> writer != null && writer.wr == ws
      reads this, ws, writer
    {
      if initialized then writer.Value() else Store([], [], false)
    }

    /** The sink always holds a prefix of the records in order; sink and buffer together hold
        all of them until an error occurs; and a full-write sink sees whole records only. */
    ghost predicate Valid()
      reads this, ws, writer
    {
      && (initialized ==> writer != null && writer.wr == ws && writer.Valid())
      && (!initialized ==> attempted == [] && ws.contents == [] && ws.calls == [] && groups == [] && pending == [])
      && Value().Stream() <= Flatten(attempted)
      && (!Value().err ==> Value().Stream() == Flatten(attempted))
      && (ws.full ==> !Value().err && WholeRecords(ws.calls, Value().buf, attempted, groups, pending))
    }

    constructor (ws: Sink, size: int)
      requires ws.contents == [] && ws.calls == []
      ensures Valid() && this.ws == ws && attempted == [] && !initialized
    {
      this.ws, this.size := ws, size;
      initialized, writer := false, null;
      attempted, groups, pending := [], [], [];
    }

    method Initialize()
      requires Valid() && !initialized
      modifies this
      ensures Valid() && initialized && fresh(writer) && attempted == [] && Value() == Store([], [], false)
      ensures size > 0 ==> writer.size == size
      ensures size == 0 ==> writer.size == 256 * 1024
      ensures size < 0 ==> writer.size == 4096
    {
      var n := size;
      if n == 0 {
        n := DEFAULT_BUFFER_SIZE;
      }
      writer := new BufioWriter(ws, n);
      initialized := true;
      FlattenNothing<Byte>();
    }

    /** Flushes the buffer, recording for a full-write sink which records the call carried. */
    method Flush() returns (ok: bool)
      requires Valid() && initialized
      modifies this`groups, this`pending, writer, ws
      ensures Valid() && initialized && writer == old(writer) && attempted == old(attempted)
      ensures FlushRel(old(Value()), Value(), ok)
      ensures ws.calls == if old(Value()).err || old(Value()).buf == [] then old(ws.calls) else old(ws.calls) + [old(Value()).buf]
    {
      hide Flatten, WholeRecords;
      if ws.full {
        GroupSent(ws.calls, writer.buf, attempted, groups, pending);
        if writer.buf != [] {
          groups, pending := groups + [pending], [];
        }
      }
      ok := writer.Flush();
    }

    /** `Write`. A record that fits goes to the buffer and the sink is left alone. One that does
        not, on a sink that takes full writes, first sends what is buffered, in one call; then it
        is buffered, or sent in a call of its own if it fits no buffer. */
    method Write(bs: Bytes) returns (n: nat, ok: bool)
      requires Valid()
      modifies this, writer, ws
      ensures Valid() && initialized && attempted == old(attempted) + [bs]
      ensures WriteRel(old(Value()), Value(), bs, ok) && n <= |bs| && (ok ==> n == |bs|)
      ensures old(initialized) ==> writer == old(writer)
      ensures old(initialized) && !old(Value()).err && |old(writer.buf)| + |bs| <= old(writer.size) ==>
                ok && writer.buf == old(writer.buf) + bs && ws.calls == old(ws.calls)
      ensures old(initialized) && ws.full && |old(writer.buf)| + |bs| > old(writer.size) ==>
                && ok && writer.buf == (if |bs| <= writer.size then bs else [])
                && ws.calls == old(ws.calls) + (if old(writer.buf) == [] then [] else [old(writer.buf)])
                               + (if |bs| <= writer.size then [] else [bs])
    {
      hide Flatten, WholeRecords;
      ghost var d0 := Value();
      if !initialized {
        Initialize();
      }
      if |bs| > writer.Available() && |writer.buf| > 0 {
        var flushed := Flush();
        if !flushed {
          RecordRefused(attempted, bs, Value());
          attempted := attempted + [bs];
          return 0, false;
        }
      }
      n, ok := Put(bs);
    }

    /** Hands a record to the buffer once it fits, or straight to the sink when it never will. */
    method Put(bs: Bytes) returns (n: nat, ok: bool)
      requires Valid() && initialized && (Value().err || Value().buf == [] || |bs| <= writer.Available())
      modifies this`groups, this`pending, this`attempted, writer, ws
      ensures Valid() && initialized && writer == old(writer) && attempted == old(attempted) + [bs]
      ensures WriteRel(old(Value()), Value(), bs, ok) && n <= |bs| && (ok ==> n == |bs|)
      ensures !old(Value()).err && |bs| <= old(writer.Available()) ==>
                ok && writer.buf == old(writer.buf) + bs && ws.calls == old(ws.calls)
      ensures ws.full && |bs| > old(writer.Available()) ==> ok && writer.buf == [] && ws.calls == old(ws.calls) + [bs]
    {
      hide Flatten, WholeRecords;
      ghost var d := Value();
      if ws.full {
        RecordBuffered(ws.calls, writer.buf, attempted, groups, pending, bs);
        GroupSent(ws.calls, writer.buf + bs, attempted + [bs], groups, pending + [bs]);
        if |bs| <= writer.Available() {
          pending := pending + [bs];
        } else {
          assert writer.buf + bs == bs;
          groups, pending := groups + [pending + [bs]], [];
        }
      }
      n, ok := writer.Write(bs);
      RecordTaken(attempted, bs, d, Value(), ok);
      attempted := attempted + [bs];
    }

    /** `Sync`: flushes, then syncs the sink, whose own result is `wsOk`. */
    method Sync(wsOk: bool) returns (ok: bool)
      requires Valid()
      modifies this`groups, this`pending, writer, ws
      ensures Valid() && attempted == old(attempted) && initialized == old(initialized)
      ensures initialized ==> exists flushed :: FlushRel(old(Value()), Value(), flushed) && (ok <==> flushed && wsOk)
      ensures ok ==> Value().sink == Flatten(attempted)
    {
      hide Flatten, WholeRecords;
      var flushed := true;
      if initialized {
        flushed := Flush();
      } else {
        FlattenNothing<Byte>();
      }
      ok := flushed && wsOk;
    }

    static lemma RecordRefused(records: seq<Bytes>, bs: Bytes, d: Store)
      requires d.Stream() <= Flatten(records)
      ensures d.Stream() <= Flatten(records + [bs])
    {
      FlattenAppend(records, bs);
    }

    static lemma RecordTaken(records: seq<Bytes>, bs: Bytes, d: Store, d': Store, ok: bool)
      requires WriteRel(d, d', bs, ok) && d.Stream() <= Flatten(records) && (!d.err ==> d.Stream() == Flatten(records))
      ensures d'.Stream() <= Flatten(records + [bs])
      ensures !d'.err ==> d'.Stream() == Flatten(records + [bs])
    {
      FlattenAppend(records, bs);
    }
  }
}
