/** Bytes, the two memory-copy primitives the buffer code is written with, and what a write answers. */
module Bytes {
  type Byte = x: int | 0 <= x < 256 witness 0

  const WORD := 0x1_0000_0000  // 2^32

  /** Truncation to a 32-bit unsigned integer. */
  function Wrap32(n: nat): (r: nat)
    ensures r < WORD
    ensures n < WORD ==> r == n
  {
    n % WORD
  }

  /** What writev answers: a positive count, EAGAIN, or zero or another error. */
  datatype WriteAnswer = Wrote(n: nat) | Again | Failed

  /** memmove within one buffer; the regions may overlap. */
  method Memmove(a: array<Byte>, dst: nat, src: nat, n: nat)
    requires dst + n <= a.Length && src + n <= a.Length
    modifies a
    ensures a[..] == old(a[..dst]) + old(a[src..src + n]) + old(a[dst + n..])
  {
    forall i | 0 <= i < n {
      a[dst + i] := a[src + i];
    }
  }

  /** memcpy of bytes held elsewhere. */
  method Memcpy(a: array<Byte>, dst: nat, src: seq<Byte>)
    requires dst + |src| <= a.Length
    modifies a
    ensures a[..] == old(a[..dst]) + src + old(a[dst + |src|..])
  {
    forall i | 0 <= i < |src| {
      a[dst + i] := src[i];
    }
  }

  lemma Associate(a: seq<Byte>, b: seq<Byte>, c: seq<Byte>)
    ensures (a + b) + c == a + (b + c)
  {
  }

  ghost function Join(pieces: seq<seq<Byte>>): seq<Byte> {
    if pieces == [] then [] else pieces[0] + Join(pieces[1..])
  }

  lemma {:induction false} JoinAppend(pieces: seq<seq<Byte>>, p: seq<Byte>)
    ensures Join(pieces + [p]) == Join(pieces) + p
  {
    if pieces == [] {
    } else {
      assert (pieces + [p])[1..] == pieces[1..] + [p];
      JoinAppend(pieces[1..], p);
    }
  }
}
