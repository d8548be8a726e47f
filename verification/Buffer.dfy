/** The append-only byte buffer of package `buffer`. */
module Buffers {
  import opened Utf8

  const NEWLINE: Byte := 0x0A

  /** `TrimNewline` as a function of the contents: at most one final newline goes. */
  function TrimNewline(bs: Bytes): (r: Bytes)
    ensures if bs != [] && bs[|bs| - 1] == 0x0A then bs == r + [0x0A] else bs == r
  {
    if bs != [] && bs[|bs| - 1] == NEWLINE then bs[..|bs| - 1] else bs
  }

  class Buffer {
    var bs: Bytes

    constructor ()
      ensures bs == []
    {
      bs := [];
    }

    method AppendByte(v: Byte)
      modifies this
      ensures bs == old(bs) + [v]
    {
      bs := bs + [v];
    }

    /** `AppendBytes`, `AppendString` and `Write` all append a run of bytes. */
    method AppendBytes(v: Bytes)
      modifies this
      ensures bs == old(bs) + v
    {
      bs := bs + v;
    }

    method Reset()
      modifies this
      ensures bs == []
    {
      bs := bs[..0];
    }

    method TrimFinalNewline()
      modifies this
      ensures bs == TrimNewline(old(bs))
      ensures if old(bs) != [] && old(bs)[|old(bs)| - 1] == 0x0A then old(bs) == bs + [0x0A] else old(bs) == bs
    {
      var i := |bs| - 1;
      if i >= 0 {
        if bs[i] == NEWLINE {
          bs := bs[..i];
        }
      }
    }
  }
}
