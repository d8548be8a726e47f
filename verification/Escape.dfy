/** JSON string escaping: the run-copying scanner and its rune-at-a-time specification. */
module Escape {
  import opened Utf8
  import opened Buffers

  const QUOTE: Byte := 0x22
  const BACKSLASH: Byte := 0x5C

  /** The digit table `0123456789abcdef`. */
  function HexDigit(n: nat): (d: Byte)
    requires n < 16
  {
    if n < 10 then 0x30 + n else 0x61 + (n - 10)
  }

  predicate NeedsEscape(b: Byte) {
    b < 0x20 || b == BACKSLASH || b == QUOTE
  }

  /** The escape sequence of an ASCII byte that may not stand for itself. */
  function EscapeSequence(b: Byte): (e: Bytes)
    requires NeedsEscape(b)
  {
    if b == BACKSLASH || b == QUOTE then [BACKSLASH, b]
    else if b == 0x0A then [BACKSLASH, 0x6E]
    else if b == 0x0D then [BACKSLASH, 0x72]
    else if b == 0x09 then [BACKSLASH, 0x74]
    else [BACKSLASH, 0x75, 0x30, 0x30, HexDigit(b / 16), HexDigit(b % 16)]
  }

  /** The six characters that name U+FFFD. */
  const REPLACEMENT: Bytes := [BACKSLASH, 0x75, 0x66, 0x66, 0x66, 0x64]

  /** What the first rune of `s` is written as. */
  function EscapeHead(s: Bytes): (e: Bytes)
    requires s != []
    ensures e != []
  {
    if SequenceWidth(s) == 0 then REPLACEMENT
    else if s[0] < RUNE_SELF && NeedsEscape(s[0]) then EscapeSequence(s[0])
    else s[..SequenceWidth(s)]
  }

  /** The escaped form of `s`, one rune at a time. */
  function Escaped(s: Bytes): (e: Bytes) {
    if s == [] then [] else EscapeHead(s) + Escaped(s[DecodeRune(s).1..])
  }

  /** The scanner reaches index `i` by whole runes, and what it has passed since `last`
      is copied verbatim. */
  ghost predicate Scanned(s: Bytes, last: nat, i: nat) {
    last <= i <= |s| && Escaped(s[last..]) == s[last..i] + Escaped(s[i..])
  }

  lemma EscapedUnfold(s: Bytes, i: nat)
    requires i < |s|
    ensures Escaped(s[i..]) == EscapeHead(s[i..]) + Escaped(s[i + DecodeRune(s[i..]).1..])
  {
    hide SequenceWidth, SequenceValue, EscapeSequence, EscapeHead, DecodeRune;
    var n := DecodeRune(s[i..]).1;
    assert s[i..][n..] == s[i + n..];
  }

  /** A rune that stands for itself joins the pending run. */
  lemma ScanPlainRune(s: Bytes, last: nat, i: nat)
    requires Scanned(s, last, i) && i < |s|
    requires SequenceWidth(s[i..]) > 0
    requires s[i] < RUNE_SELF ==> !NeedsEscape(s[i])
    ensures Scanned(s, last, i + SequenceWidth(s[i..]))
  {
    hide SequenceWidth, SequenceValue, EscapeSequence, Escaped;
    var n := SequenceWidth(s[i..]);
    EscapedUnfold(s, i);
    assert EscapeHead(s[i..]) == s[i..i + n];
    assert s[last..i] + s[i..i + n] == s[last..i + n];
    assert s[last..i] + (s[i..i + n] + Escaped(s[i + n..])) == s[last..i + n] + Escaped(s[i + n..]);
  }

  /** Flushing the pending run and writing one special rune moves the scan past that rune. */
  lemma ScanSpecialRune(s: Bytes, last: nat, i: nat, out: Bytes)
    requires Scanned(s, last, i) && i < |s|
    requires SequenceWidth(s[i..]) == 0 || (s[i] < RUNE_SELF && NeedsEscape(s[i]))
    ensures out + s[last..i] + EscapeHead(s[i..]) + Escaped(s[i + 1..]) == out + Escaped(s[last..])
  {
    hide SequenceWidth, SequenceValue, EscapeSequence, EscapeHead, Escaped;
    assert DecodeRune(s[i..]).1 == 1;
    EscapedUnfold(s, i);
  }

  /** `safeAppendStringLike`: appends the escaped form of `s`, copying unescaped runs whole. */
  method SafeAppend(buf: Buffer, s: Bytes)
    modifies buf
    ensures buf.bs == old(buf.bs) + Escaped(s)
  {
    hide SequenceWidth, SequenceValue, EscapeSequence, Escaped;
    var last, i := 0, 0;
    assert s[0..0] + Escaped(s[0..]) == Escaped(s[0..]) && s[0..] == s;
    while i < |s|
      invariant Scanned(s, last, i)
      invariant buf.bs + Escaped(s[last..]) == old(buf.bs) + Escaped(s)
      decreases |s| - i
    {
      if s[i] >= RUNE_SELF {
        var d := DecodeRune(s[i..]);
        if d.0 != RUNE_ERROR || d.1 != 1 {
          ScanPlainRune(s, last, i);
          i := i + d.1;
          continue;
        }
        ScanSpecialRune(s, last, i, buf.bs);
        buf.AppendBytes(s[last..i]);
        buf.AppendBytes(REPLACEMENT);
      } else {
        if s[i] >= 0x20 && s[i] != BACKSLASH && s[i] != QUOTE {
          ScanPlainRune(s, last, i);
          i := i + 1;
          continue;
        }
        ScanSpecialRune(s, last, i, buf.bs);
        buf.AppendBytes(s[last..i]);
        AppendEscape(buf, s[i]);
      }
      i := i + 1;
      last := i;
      RestartScan(s, i);
    }
    assert s[i..] == [] && Escaped([]) == [] by { EscapedNothing(); }
    buf.AppendBytes(s[last..]);
  }

  lemma EscapedNothing()
    ensures Escaped([]) == []
  {
  }

  lemma RestartScan(s: Bytes, i: nat)
    requires i <= |s|
    ensures Scanned(s, i, i)
  {
    hide Escaped;
    assert s[i..i] + Escaped(s[i..]) == Escaped(s[i..]);
  }

  method AppendEscape(buf: Buffer, b: Byte)
    requires NeedsEscape(b)
    modifies buf
    ensures buf.bs == old(buf.bs) + EscapeSequence(b)
  {
    if b == BACKSLASH || b == QUOTE {
      buf.AppendByte(BACKSLASH);
      buf.AppendByte(b);
    } else if b == 0x0A {
      buf.AppendByte(BACKSLASH);
      buf.AppendByte(0x6E);
    } else if b == 0x0D {
      buf.AppendByte(BACKSLASH);
      buf.AppendByte(0x72);
    } else if b == 0x09 {
      buf.AppendByte(BACKSLASH);
      buf.AppendByte(0x74);
    } else {
      buf.AppendBytes([BACKSLASH, 0x75, 0x30, 0x30]);
      buf.AppendByte(HexDigit(b / 16));
      buf.AppendByte(HexDigit(b % 16));
    }
  }
}
