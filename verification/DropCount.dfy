/** The 32-bit count in IOVector::drop_front (adb/types.cpp), on the sizes of the blocks. */
module DropCount {
  import opened Bytes

  datatype Position = At(blocks: nat, offset: nat) | PastTheEnd

  /** The loop of drop_front on block sizes: how many blocks it pops and how far into the next
      one it goes, from a running count that wraps at 2^32. */
  function DropLoop(sizes: seq<nat>, len: nat, dropped: nat): Position
    requires dropped < len
  {
    if sizes == [] then PastTheEnd
    else if dropped + sizes[0] < len then
      match DropLoop(sizes[1..], len, Wrap32(dropped + sizes[0]))
      case At(blocks, offset) => At(blocks + 1, offset)
      case PastTheEnd => PastTheEnd
    else At(0, len - dropped)
  }

  function Sum(sizes: seq<nat>): nat {
    if sizes == [] then 0 else sizes[0] + Sum(sizes[1..])
  }

  /** The bytes in the front blocks that end strictly before byte len. */
  function WholeBlocks(sizes: seq<nat>, len: nat): nat {
    if sizes != [] && sizes[0] < len then sizes[0] + WholeBlocks(sizes[1..], len - sizes[0]) else 0
  }

  /** The bytes before a position. */
  function Before(sizes: seq<nat>, p: Position): nat
    requires p.At?
  {
    if sizes == [] || p.blocks == 0 then p.offset
    else sizes[0] + Before(sizes[1..], At(p.blocks - 1, p.offset))
  }

  /** drop_front(len) removes exactly len bytes if and only if the blocks it drops whole hold
      less than 2^32 bytes. */
  lemma DropFrontExact(sizes: seq<nat>, len: nat)
    requires 0 < len < Sum(sizes)
    ensures var p := DropLoop(sizes, len, 0);
            (p.At? && Before(sizes, p) == len) <==> WholeBlocks(sizes, len) < WORD
  {
    if WholeBlocks(sizes, len) < WORD {
      WithoutWrap(sizes, len, 0);
    } else {
      WithWrap(sizes, len, 0);
    }
  }

  lemma {:induction false} WithoutWrap(sizes: seq<nat>, len: nat, dropped: nat)
    requires dropped < len && len - dropped <= Sum(sizes)
    requires dropped + WholeBlocks(sizes, len - dropped) < WORD
    ensures var p := DropLoop(sizes, len, dropped); p.At? && Before(sizes, p) == len - dropped
  {
    if sizes != [] && dropped + sizes[0] < len {
      WithoutWrap(sizes[1..], len, dropped + sizes[0]);
    }
  }

  lemma {:induction false} NeverTooFew(sizes: seq<nat>, len: nat, dropped: nat)
    requires dropped < len
    ensures var p := DropLoop(sizes, len, dropped); p.At? ==> Before(sizes, p) >= len - dropped
  {
    if sizes != [] && dropped + sizes[0] < len {
      NeverTooFew(sizes[1..], len, Wrap32(dropped + sizes[0]));
      assert Wrap32(dropped + sizes[0]) <= dropped + sizes[0];
    }
  }

  /** Once the count has wrapped, whole multiples of 2^32 too many bytes go. */
  lemma {:induction false} WithWrap(sizes: seq<nat>, len: nat, dropped: nat)
    requires dropped < len && dropped < WORD
    requires dropped + WholeBlocks(sizes, len - dropped) >= WORD
    ensures var p := DropLoop(sizes, len, dropped); p.At? ==> Before(sizes, p) >= len - dropped + WORD
  {
    var next := dropped + sizes[0];
    if next < WORD {
      WithWrap(sizes[1..], len, next);
    } else {
      NeverTooFew(sizes[1..], len, Wrap32(next));
      assert Wrap32(next) <= next - WORD;
    }
  }

  /** A position that the loop comes to lies within the blocks. */
  lemma {:induction false} LoopWithin(sizes: seq<nat>, len: nat, dropped: nat)
    requires dropped < len && DropLoop(sizes, len, dropped).At?
    ensures Before(sizes, DropLoop(sizes, len, dropped)) <= Sum(sizes)
  {
    if dropped + sizes[0] < len {
      LoopWithin(sizes[1..], len, Wrap32(dropped + sizes[0]));
    }
  }

  lemma {:induction false} WholeBlocksLess(sizes: seq<nat>, len: nat)
    requires len > 0
    ensures WholeBlocks(sizes, len) < len
  {
    if sizes != [] && sizes[0] < len {
      WholeBlocksLess(sizes[1..], len - sizes[0]);
    }
  }

  /** A turn of the loop. */
  lemma LoopStep(sizes: seq<nat>, len: nat, dropped: nat)
    requires dropped < len && DropLoop(sizes, len, dropped).At? && dropped + sizes[0] < len
    ensures var rest := DropLoop(sizes[1..], len, Wrap32(dropped + sizes[0]));
            rest.At? && sizes[1..] != [] && Before(sizes, DropLoop(sizes, len, dropped)) == sizes[0] + Before(sizes[1..], rest)
  {
  }

  lemma LoopEnd(sizes: seq<nat>, len: nat, dropped: nat)
    requires dropped < len && sizes != [] && dropped + sizes[0] >= len
    ensures DropLoop(sizes, len, dropped) == At(0, len - dropped)
    ensures Before(sizes, DropLoop(sizes, len, dropped)) == len - dropped
  {
  }

  /** Blocks of 2^32, of two and of 2^32 bytes: when one byte more than the first is to be dropped,
      2^32 bytes too many are. */
  lemma DropTooMuch()
    ensures var (sizes, len) := ([WORD, 2, WORD], WORD + 1);
            && 0 < len < Sum(sizes) && DropLoop(sizes, len, 0).At?
            && Before(sizes, DropLoop(sizes, len, 0)) == len + WORD
  {
    var sizes, len := [WORD, 2, WORD], WORD + 1;
    assert sizes[1..] == [2, WORD] && [2, WORD][1..] == [WORD] && [WORD][1..] == [];
    LoopEnd([WORD], len, 2);
    assert DropLoop([2, WORD], len, 0) == At(1, len - 2);
    assert DropLoop(sizes, len, 0) == At(2, len - 2);
    assert Before([2, WORD], At(1, len - 2)) == 2 + (len - 2);
    assert Sum([WORD]) == WORD && Sum([2, WORD]) == WORD + 2;
  }
}
