/** Integers in memory: copied byte by byte, least significant byte first, and the network byte order swap. */
module Bytes {
  import opened Protocol

  type Data = seq<Byte>

  function Le2(v: Short): (b: Data)
    ensures |b| == 2 && b[0] + 256 * (b[1] as int) == v
  {
    [v % 256, v / 256]
  }

  function Le4(v: Word): (b: Data)
    ensures |b| == 4
  {
    Le2(v % 65536) + Le2(v / 65536)
  }

  function Get2(b: Data, at: nat): Short
    requires at + 2 <= |b|
  {
    var lo: int, hi: int := b[at], b[at + 1];
    lo + 256 * hi
  }

  function Get4(b: Data, at: nat): Word
    requires at + 4 <= |b|
  {
    var lo: int, hi: int := Get2(b, at), Get2(b, at + 2);
    lo + 65536 * hi
  }

  /** `htons` and `ntohs` on a little-endian host. */
  function Swap(v: Short): Short {
    256 * (v % 256) + v / 256
  }

  lemma SwapTwice(v: Short)
    ensures Swap(Swap(v)) == v
  {
  }

  /** The swap changes every value but those whose two bytes are equal. */
  lemma SwapFixedIff(v: Short)
    ensures Swap(v) == v <==> v % 256 == v / 256
  {
  }

  /** What was written at a place is read from there, whatever stands around it. */
  lemma GetPut2(pre: Data, v: Short, post: Data)
    ensures Get2(pre + (Le2(v) + post), |pre|) == v
  {
  }

  lemma GetPut4(pre: Data, v: Word, post: Data)
    ensures Get4(pre + (Le4(v) + post), |pre|) == v
  {
    var b := pre + (Le4(v) + post);
    assert b == pre + (Le2(v % 65536) + (Le2(v / 65536) + post));
    assert b == (pre + Le2(v % 65536)) + (Le2(v / 65536) + post);
    GetPut2(pre, v % 65536, Le2(v / 65536) + post);
    GetPut2(pre + Le2(v % 65536), v / 65536, post);
  }

  /** Writing what was read gives the bytes back. */
  lemma Written2(b: Data, at: nat)
    requires at + 2 <= |b|
    ensures Le2(Get2(b, at)) == b[at..at + 2]
  {
  }

  lemma Written4(b: Data, at: nat)
    requires at + 4 <= |b|
    ensures Le4(Get4(b, at)) == b[at..at + 4]
  {
    hide Le2, Get2;
    var lo: int, hi: int := Get2(b, at), Get2(b, at + 2);
    Halves(hi, lo);
    Written2(b, at);
    Written2(b, at + 2);
  }

  /** `htonl` and `ntohl` on a little-endian host. */
  function Swap4(v: Word): Word {
    var hi: int, lo: int := Swap(v % 65536), Swap(v / 65536);
    65536 * hi + lo
  }

  lemma Swap4Twice(v: Word)
    ensures Swap4(Swap4(v)) == v
  {
    hide Swap;
    Halves(Swap(v % 65536), Swap(v / 65536));
    Halves(v / 65536, v % 65536);
    SwapTwice(v % 65536);
    SwapTwice(v / 65536);
  }

  lemma Halves(hi: Short, lo: Short)
    ensures (65536 * hi as int + lo) % 65536 == lo && (65536 * hi as int + lo) / 65536 == hi
  {
  }

  /** `b` with the bytes from `at` on replaced by `d`. */
  function Splice(b: Data, at: nat, d: Data): (r: Data)
    requires at + |d| <= |b|
    ensures |r| == |b|
  {
    b[..at] + (d + b[at + |d|..])
  }

  /** Replacing a field by another of the same size. */
  lemma SpliceField(pre: Data, x: Data, y: Data, post: Data)
    requires |x| == |y|
    ensures Splice(pre + (x + post), |pre|, y) == pre + (y + post)
  {
    var b := pre + (x + post);
    assert b[..|pre|] == pre && b[|pre| + |y|..] == post;
  }

  lemma Assoc(a: Data, b: Data, c: Data)
    ensures (a + b) + c == a + (b + c)
  {
  }

  /** `memcpy` behind what a buffer holds already; the offset moves on. */
  method Append(buf: array<Byte>, offset: nat, d: Data, ghost filled: Data) returns (next: nat)
    requires offset + |d| <= buf.Length && buf[..offset] == filled
    modifies buf
    ensures next == offset + |d| && buf[..next] == filled + d
  {
    Put(buf, offset, d);
    next := offset + |d|;
  }

  /** `memcpy` into a buffer. */
  method Put(buf: array<Byte>, at: nat, d: Data)
    requires at + |d| <= buf.Length
    modifies buf
    ensures buf[..] == Splice(old(buf[..]), at, d)
    ensures buf[..at + |d|] == old(buf[..at]) + d
  {
    ghost var was := buf[..];
    var i := 0;
    while i < |d|
      invariant 0 <= i <= |d|
      invariant forall j :: 0 <= j < i ==> buf[at + j] == d[j]
      invariant forall j :: 0 <= j < buf.Length && !(at <= j < at + i) ==> buf[j] == was[j]
    {
      buf[at + i] := d[i];
      i := i + 1;
    }
    assert forall j :: at <= j < at + |d| ==> buf[j] == d[j - at];
  }
}
