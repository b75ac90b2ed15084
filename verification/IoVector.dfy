/** A chunked byte queue: `Block` and `IOVector` of adb/types.h and adb/types.cpp.

    A block owns its allocation alone and cannot be copied, so it is a value: the
    whole allocation and how much of it is in use. Moving a block out of a slot
    leaves an empty block in the slot. */
module IoVector {
  import opened Bytes
  import opened DropCount

  datatype Allocation = Block(buf: seq<Byte>, size: nat)

  type Block = b: Allocation | b.size <= |b.buf| witness Block([], 0)

  const EMPTY_BLOCK: Block := Block([], 0)

  function Used(b: Block): (s: seq<Byte>)
    ensures |s| == b.size
  {
    b.buf[..b.size]
  }

  ghost function TotalSize(bs: seq<Block>): nat {
    if bs == [] then 0 else bs[0].size + TotalSize(bs[1..])
  }

  ghost function Flatten(bs: seq<Block>): (s: seq<Byte>)
    ensures |s| == TotalSize(bs)
  {
    if bs == [] then [] else Used(bs[0]) + Flatten(bs[1..])
  }

  ghost function SizesOf(bs: seq<Block>): (r: seq<nat>)
    ensures |r| == |bs|
  {
    if bs == [] then [] else [bs[0].size] + SizesOf(bs[1..])
  }

  lemma {:induction false} SumOfSizes(bs: seq<Block>)
    ensures Sum(SizesOf(bs)) == TotalSize(bs)
  {
    if bs == [] {
    } else {
      SumOfSizes(bs[1..]);
      assert ([bs[0].size] + SizesOf(bs[1..]))[1..] == SizesOf(bs[1..]);
    }
  }

  lemma {:induction false} FlattenAppend(bs: seq<Block>, b: Block)
    ensures Flatten(bs + [b]) == Flatten(bs) + Used(b)
    ensures TotalSize(bs + [b]) == TotalSize(bs) + b.size
  {
    if bs == [] {
    } else {
      assert (bs + [b])[1..] == bs[1..] + [b];
      FlattenAppend(bs[1..], b);
    }
  }

  lemma Regroup(s: seq<Byte>, a: nat, b: nat)
    requires a + b <= |s|
    ensures s[..a] + s[a..][..b] == s[..a + b]
    ensures s[a..][b..] == s[a + b..]
  {
  }

  /** A block cut in two, in front of other bytes. */
  lemma SplitBlock(block: Block, len: nat, rest: seq<Byte>)
    requires len <= block.size
    ensures Used(Block(block.buf, len)) == (Used(block) + rest)[..len]
    ensures Used(Block(block.buf[len..block.size], block.size - len)) + rest == (Used(block) + rest)[len..]
  {
  }

  lemma JoinStep(pieces: seq<seq<Byte>>, piece: seq<Byte>, rest: seq<Byte>)
    ensures Join(pieces + [piece]) + rest == Join(pieces) + (piece + rest)
  {
    JoinAppend(pieces, piece);
    Associate(Join(pieces), piece, rest);
  }

  /** Every block holds at least a byte. */
  predicate AllFull(bs: seq<Block>) {
    forall i :: 0 <= i < |bs| ==> bs[i].size > 0
  }

  class IOVector {
    var chain: seq<Block>
    var chainLength: nat
    var beginOffset: nat
    var startIndex: nat

    /** The blocks that still hold bytes of the queue. */
    ghost function Live(): seq<Block>
      requires startIndex <= |chain|
      reads this
    {
      chain[startIndex..]
    }

    ghost predicate Valid()
      reads this
    {
      && startIndex <= |chain|
      && AllFull(Live())
      && chainLength == TotalSize(Live())
      && (if startIndex == |chain| then beginOffset == 0 else beginOffset <= chain[startIndex].size)
    }

    /** The byte sequence this queue stands for. */
    ghost function View(): (v: seq<Byte>)
      requires Valid()
      reads this
      ensures |v| == chainLength - beginOffset
    {
      Flatten(Live())[beginOffset..]
    }

    /** True when TrimFront does not index outside the chain. */
    ghost predicate Trimmable()
      reads this
    {
      startIndex < |chain| || startIndex == 0
    }

    /** The view, with the front block apart. */
    lemma ViewFront()
      requires Valid() && startIndex < |chain|
      ensures AllFull(Live()[1..]) && TotalSize(Live()[1..]) == chainLength - chain[startIndex].size
      ensures View() == Used(chain[startIndex])[beginOffset..] + Flatten(Live()[1..])
    {
    }

    lemma HasFrontBlock()
      requires Valid() && View() != []
      ensures startIndex < |chain| && Live() != []
    {
    }

    constructor ()
      ensures Valid() && View() == [] && chain == []
    {
      chain, chainLength, beginOffset, startIndex := [], 0, 0, 0;
    }

    function Size(): (n: nat)
      requires Valid()
      reads this
      ensures n == |View()|
    {
      assert |View()| == chainLength - beginOffset;
      chainLength - beginOffset
    }

    /** Adds a block at the back; an empty block is dropped. */
    method Append(block: Block)
      requires Valid()
      modifies this
      ensures Valid() && View() == old(View()) + Used(block)
      ensures startIndex == old(startIndex) && beginOffset == old(beginOffset)
      ensures chain == if block.size == 0 then old(chain) else old(chain) + [block]
    {
      if block.size == 0 {
        return;
      }
      ghost var live := Live();
      chainLength := chainLength + block.size;
      chain := chain + [block];
      assert Live() == live + [block];
      FlattenAppend(live, block);
    }

    /** Gives back the last block, for reuse of its allocation, and forgets everything. */
    method Clear() returns (last: Block)
      modifies this
      ensures Valid() && View() == [] && chain == []
      ensures last == if old(chain) == [] then EMPTY_BLOCK else old(chain)[|old(chain)| - 1]
    {
      chainLength, beginOffset, startIndex := 0, 0, 0;
      last := EMPTY_BLOCK;
      if chain != [] {
        last := chain[|chain| - 1];
      }
      chain := [];
    }

    /** Move assignment: takes over the other queue and leaves it empty. */
    method MoveFrom(other: IOVector)
      requires other != this && other.Valid()
      modifies this, other
      ensures Valid() && View() == old(other.View())
      ensures other.Valid() && other.View() == [] && other.chain == []
      ensures chain == old(other.chain) && startIndex == old(other.startIndex)
    {
      chain := other.chain;
      chainLength := other.chainLength;
      beginOffset := other.beginOffset;
      startIndex := other.startIndex;
      var _ := other.Clear();
    }

    method TrimChainFront()
      requires Valid()
      modifies this
      ensures Valid() && View() == old(View())
      ensures startIndex == 0 && chain == old(Live()) && beginOffset == old(beginOffset)
    {
      if startIndex != 0 {
        chain := chain[startIndex..];
        startIndex := 0;
      }
      assert Live() == old(Live());
    }

    /** Drops what is left of the front block. */
    method PopFrontBlock()
      requires Valid() && startIndex < |chain|
      modifies this
      ensures Valid() && beginOffset == 0
      ensures View() == old(View())[old(chain[startIndex].size - beginOffset)..]
      ensures Live() == old(Live())[1..]
    {
      var _, _ := DetachFront();
      if startIndex > (if 4 > |chain| / 2 then 4 else |chain| / 2) {
        TrimChainFront();
      }
    }

    /** Goes forward within the front block. */
    method Advance(n: nat)
      requires Valid() && startIndex < |chain| && n <= chain[startIndex].size - beginOffset
      modifies this`beginOffset
      ensures Valid() && View() == old(View())[n..] && beginOffset == old(beginOffset) + n
    {
      beginOffset := beginOffset + n;
    }

    /** How much each live block still has. */
    ghost function Sizes(): (sizes: seq<nat>)
      requires Valid()
      reads this
      ensures Sum(sizes) == |View()| && |sizes| == |Live()|
    {
      if Live() == [] then []
      else
        SumOfSizes(Live()[1..]);
        [Live()[0].size - beginOffset] + SizesOf(Live()[1..])
    }

    /** Where the loop of drop_front would stop: how many bytes go from here. */
    ghost function ToDrop(len: nat, dropped: nat): (n: nat)
      requires Valid() && dropped < len && DropLoop(Sizes(), len, dropped).At?
      reads this
      ensures n <= |View()|
    {
      LoopWithin(Sizes(), len, dropped);
      Before(Sizes(), DropLoop(Sizes(), len, dropped))
    }

    /** A turn of the loop that drops a whole block. */
    method DropBlock(len: nat, dropped: nat) returns (count: nat)
      requires Valid() && dropped < len && DropLoop(Sizes(), len, dropped).At?
      requires startIndex < |chain| && dropped + (chain[startIndex].size - beginOffset) < len
      modifies this
      ensures Valid() && startIndex < |chain| && count < len && DropLoop(Sizes(), len, count).At?
      ensures var next := old(chain[startIndex].size - beginOffset);
              View() == old(View())[next..] && old(ToDrop(len, dropped)) == next + ToDrop(len, count)
      ensures Live() == old(Live())[1..]
    {
      ghost var sizes := Sizes();
      count := Wrap32(dropped + (chain[startIndex].size - beginOffset));
      LoopStep(sizes, len, dropped);
      PopFrontBlock();
      assert Sizes() == sizes[1..];
    }

    /** The last turn, which ends inside a block. */
    method DropPart(len: nat, dropped: nat)
      requires Valid() && dropped < len && DropLoop(Sizes(), len, dropped).At?
      requires startIndex < |chain| && dropped + (chain[startIndex].size - beginOffset) >= len
      modifies this`beginOffset
      ensures Valid() && View() == old(View())[old(ToDrop(len, dropped))..]
    {
      LoopEnd(Sizes(), len, dropped);
      Advance(len - dropped);
    }

    /** Drops fewer than all bytes. The running count is a 32-bit unsigned integer: what goes is what
        the loop on the sizes says, as long as it stays inside the chain. */
    method DropSome(len: nat)
      requires Valid() && 0 < len < |View()| && DropLoop(Sizes(), len, 0).At?
      modifies this
      ensures Valid() && startIndex < |chain| && View() == old(View())[old(ToDrop(len, 0))..]
    {
      ghost var rest := View()[ToDrop(len, 0)..];
      var dropped := 0;
      while true
        invariant 0 <= dropped < len && Valid() && startIndex < |chain| && DropLoop(Sizes(), len, dropped).At?
        invariant View()[ToDrop(len, dropped)..] == rest
        decreases |Live()|
      {
        ghost var view := View();
        var next := chain[startIndex].size - beginOffset;
        if dropped + next < len {
          dropped := DropBlock(len, dropped);
          Regroup(view, next, ToDrop(len, dropped));
        } else {
          DropPart(len, dropped);
          return;
        }
      }
    }

    /** Nothing that is smaller than 2^32 bytes makes the count wrap. */
    lemma SmallDrop(len: nat)
      requires Valid() && len <= |View()| && len <= WORD
      ensures CountHolds(len)
    {
      if 0 < len < |View()| {
        WholeBlocksLess(Sizes(), len);
      }
    }

    /** The count does not wrap: the blocks to be dropped whole have less than 2^32 bytes. */
    ghost predicate CountHolds(len: nat)
      requires Valid() && len <= |View()|
      reads this
    {
      0 < len < |View()| ==> WholeBlocks(Sizes(), len) < WORD
    }

    /** Drops the first len bytes, if and only if the count does not wrap. If it does, too many bytes
        go, and the loop must not run past the last block, which the source does not check. */
    method DropFront(len: nat)
      requires Valid() && len <= |View()|
      requires CountHolds(len) || DropLoop(Sizes(), len, 0).At?
      modifies this
      ensures Valid() && |View()| <= |old(View())| - len
      ensures View() == old(View())[len..] <==> old(CountHolds(len))
      ensures old(Trimmable()) ==> Trimmable()
    {
      if len == 0 {
        return;
      }
      if len == Size() {
        var _ := Clear();
        return;
      }
      DropFrontExact(Sizes(), len);
      NeverTooFew(Sizes(), len, 0);
      DropSome(len);
    }

    /** Adds a block whose first `offset` bytes are used up, which only an empty queue can take. */
    method AppendFrom(block: Block, offset: nat)
      requires Valid() && offset < block.size
      requires offset > 0 ==> chain == [] && startIndex == 0
      modifies this
      ensures Valid() && View() == old(View()) + Used(block)[offset..]
    {
      Append(block);
      if offset != 0 {
        beginOffset := offset;
        assert Live() == [block];
        assert View() == Used(block)[offset..];
      }
    }

    /** Takes the front block out of the chain. */
    method DetachFront() returns (front: Block, begin: nat)
      requires Valid() && startIndex < |chain|
      modifies this
      ensures Valid() && beginOffset == 0
      ensures front == old(chain[startIndex]) && begin == old(beginOffset) <= front.size
      ensures old(View()) == Used(front)[begin..] + View()
      ensures Live() == old(Live())[1..]
      ensures |chain| == |old(chain)| && startIndex == old(startIndex) + 1
    {
      ViewFront();
      front, begin := chain[startIndex], beginOffset;
      chainLength := chainLength - front.size;
      beginOffset := 0;
      chain := chain[startIndex := EMPTY_BLOCK];
      startIndex := startIndex + 1;
      assert Live() == old(Live())[1..];
    }

    /** Copies the first len bytes of the front block out. */
    method CopyFromFront(len: nat) returns (block: Block)
      requires Valid() && startIndex < |chain| && len <= chain[startIndex].size - beginOffset
      modifies this
      ensures Valid() && Used(block) == old(View())[..len] && View() == old(View())[len..]
      ensures |chain| == |old(chain)| && startIndex == old(startIndex)
    {
      ViewFront();
      block := Block(chain[startIndex].buf[beginOffset..beginOffset + len], len);
      beginOffset := beginOffset + len;
    }

    /** Takes the front block's allocation, shortened to len bytes, and puts a copy of the rest
        in its place. */
    method StealFront(len: nat) returns (block: Block)
      requires Valid() && startIndex < |chain| && beginOffset == 0 && len < chain[startIndex].size
      modifies this
      ensures Valid() && Used(block) == old(View())[..len] && View() == old(View())[len..]
      ensures |chain| == |old(chain)| && startIndex == old(startIndex)
    {
      ViewFront();
      var front := chain[startIndex];
      ghost var rest := Flatten(chain[startIndex + 1..]);
      SplitBlock(front, len, rest);
      var tail := Block(front.buf[len..front.size], front.size - len);
      block := Block(front.buf, len);
      ReplaceFront(tail);
    }

    /** Puts a block in the place of the front one. */
    method ReplaceFront(block: Block)
      requires Valid() && startIndex < |chain| && beginOffset == 0 && block.size > 0
      modifies this
      ensures Valid() && View() == Used(block) + old(Flatten(chain[startIndex + 1..]))
      ensures |chain| == |old(chain)| && startIndex == old(startIndex)
    {
      chainLength := chainLength - chain[startIndex].size;
      chainLength := chainLength + block.size;
      chain := chain[startIndex := block];
      assert Live() == [block] + old(Live())[1..];
      assert old(Live())[1..] == old(chain[startIndex + 1..]);
      ViewFront();
    }

    /** Splits the front block: copies a short head out, steals the allocation for a long one. */
    method SplitFront(len: nat) returns (block: Block)
      requires Valid() && startIndex < |chain| && len < chain[startIndex].size - beginOffset
      modifies this
      ensures Valid() && Used(block) == old(View())[..len] && View() == old(View())[len..]
      ensures |chain| == |old(chain)| && startIndex == old(startIndex)
    {
      if beginOffset != 0 || len < chain[startIndex].size / 2 {
        block := CopyFromFront(len);
      } else {
        block := StealFront(len);
      }
    }

    /** Moves the blocks that lie wholly within the first len bytes; `left` bytes remain to take,
        all of them in the front block. */
    method MoveWholeBlocks(res: IOVector, len: nat) returns (left: nat)
      requires res != this && Valid() && res.Valid() && len < |View()|
      requires res.chain == [] && res.startIndex == 0
      modifies this, res
      ensures Valid() && res.Valid() && left <= len
      ensures res.View() == old(View())[..len - left] && View() == old(View())[len - left..]
      ensures startIndex < |chain| && left < chain[startIndex].size - beginOffset
      ensures |chain| == |old(chain)|
      ensures old(startIndex < |chain| && chain[startIndex].size - beginOffset <= len) ==> startIndex > old(startIndex)
    {
      left := len;
      ghost var whole := View();
      HasFrontBlock();
      while chain[startIndex].size - beginOffset <= left
        invariant Valid() && res.Valid() && left <= len < |whole|
        invariant res.View() == whole[..len - left] && View() == whole[len - left..]
        invariant startIndex < |chain| == |old(chain)|
        invariant startIndex > old(startIndex) || (left == len && chain == old(chain) && beginOffset == old(beginOffset) && startIndex == old(startIndex))
        invariant beginOffset > 0 ==> res.chain == [] && res.startIndex == 0
        decreases |Live()|
      {
        var moved := MoveFront(res, whole, len - left);
        left := left - moved;
        HasFrontBlock();
      }
    }

    /** Moves the front block, after the first `done` bytes of the whole went that way. */
    method MoveFront(res: IOVector, ghost whole: seq<Byte>, ghost done: nat) returns (n: nat)
      requires res != this && Valid() && res.Valid() && startIndex < |chain|
      requires beginOffset > 0 ==> res.chain == [] && res.startIndex == 0
      requires done <= |whole| && res.View() == whole[..done] && View() == whole[done..]
      modifies this, res
      ensures Valid() && res.Valid() && beginOffset == 0 && Live() == old(Live())[1..]
      ensures n == old(chain[startIndex].size - beginOffset) && done + n <= |whole|
      ensures res.View() == whole[..done + n] && View() == whole[done + n..]
      ensures |chain| == |old(chain)| && startIndex == old(startIndex) + 1
    {
      var front, begin := DetachFront();
      n := front.size - begin;
      assert Used(front)[begin..] == whole[done..][..n] && View() == whole[done..][n..];
      if n > 0 {
        res.AppendFrom(front, begin);
      }
      Regroup(whole, done, n);
    }

    /** Moves the first len bytes, fewer than all, to an empty queue. */
    method TakeInto(res: IOVector, len: nat)
      requires res != this && Valid() && res.Valid() && len < |View()|
      requires res.chain == [] && res.startIndex == 0
      modifies this, res
      ensures Valid() && res.Valid() && startIndex < |chain|
      ensures res.View() == old(View())[..len] && View() == old(View())[len..]
      ensures |chain| == |old(chain)|
      ensures old(startIndex < |chain| && chain[startIndex].size - beginOffset <= len) ==> startIndex > old(startIndex)
    {
      ghost var whole := View();
      var left := MoveWholeBlocks(res, len);
      if left > 0 {
        var block := SplitFront(left);
        res.Append(block);
        Regroup(whole, len - left, left);
      }
      HasFrontBlock();
    }

    /** Splits the first len bytes off into a queue of their own. */
    method TakeFront(len: nat) returns (res: IOVector)
      requires Valid() && len <= |View()|
      modifies this
      ensures fresh(res) && res.Valid() && Valid()
      ensures res.View() == old(View())[..len] && View() == old(View())[len..]
      ensures old(Trimmable()) ==> Trimmable()
      ensures 0 < len < |old(View())| ==> |chain| == |old(chain)|
      ensures 0 < len < |old(View())| && old(startIndex < |chain| && chain[startIndex].size - beginOffset <= len)
        ==> startIndex > old(startIndex)
    {
      res := new IOVector();
      if len == 0 {
        return;
      }
      if len == Size() {
        res.MoveFrom(this);
        return;
      }
      TakeInto(res, len);
    }

    /** Gives back the space of dropped bytes. Reads chain[startIndex] unless the queue has
        nothing to give back. */
    method TrimFront()
      requires Valid() && Trimmable()
      modifies this
      ensures Valid() && View() == old(View())
      ensures beginOffset == 0 && startIndex == 0
    {
      if (beginOffset == 0 && startIndex == 0) || chain == [] {
        return;
      }
      if beginOffset == chain[startIndex].size {
        var _, _ := DetachFront();
      } else {
        ShiftFront();
      }
      TrimChainFront();
    }

    /** Shifts the bytes of the front block to the front of its allocation. */
    method ShiftFront()
      requires Valid() && startIndex < |chain| && beginOffset < chain[startIndex].size
      modifies this
      ensures Valid() && View() == old(View()) && beginOffset == 0
    {
      ViewFront();
      var trimmed := TrimBlock(chain[startIndex], beginOffset);
      chain := chain[startIndex := trimmed];
      chainLength := chainLength - beginOffset;
      beginOffset := 0;
      assert Live() == [trimmed] + old(Live())[1..];
    }

    /** Every live block in order, without the used-up part of the first. */
    method IterateBlocks() returns (pieces: seq<seq<Byte>>)
      requires Valid()
      ensures Join(pieces) == View()
      ensures |pieces| == if View() == [] then 0 else |Live()|
    {
      if Size() == 0 {
        return [];
      }
      HasFrontBlock();
      pieces := IterateLive();
    }

    function Piece(i: nat): seq<Byte>
      requires startIndex <= i < |chain| && (i == startIndex ==> beginOffset <= chain[i].size)
      reads this
    {
      Used(chain[i])[if i == startIndex then beginOffset else 0..]
    }

    method IterateLive() returns (pieces: seq<seq<Byte>>)
      requires Valid() && startIndex < |chain|
      ensures Join(pieces) == View() && |pieces| == |Live()|
    {
      pieces := [];
      PiecesStart();
      for i := startIndex to |chain|
        invariant |pieces| == i - startIndex && Gathered(pieces, i)
      {
        PieceStep(pieces, i);
        pieces := pieces + [Piece(i)];
      }
      PiecesDone(pieces);
    }

    /** The pieces hold what is before block i. */
    ghost predicate Gathered(pieces: seq<seq<Byte>>, i: nat)
      requires Valid() && startIndex <= i <= |chain|
      reads this
    {
      Join(pieces) + Behind(i) == View()
    }

    lemma PiecesStart()
      requires Valid() && startIndex < |chain|
      ensures Gathered([], startIndex)
    {
      assert [] + View() == View();
    }

    lemma PieceStep(pieces: seq<seq<Byte>>, i: nat)
      requires Valid() && startIndex <= i < |chain| && Gathered(pieces, i)
      ensures Gathered(pieces + [Piece(i)], i + 1)
    {
      BehindStep(i);
      JoinStep(pieces, Piece(i), Behind(i + 1));
    }

    lemma PiecesDone(pieces: seq<seq<Byte>>)
      requires Valid() && startIndex < |chain| && Gathered(pieces, |chain|)
      ensures Join(pieces) == View()
    {
      assert Join(pieces) + [] == Join(pieces);
    }

    /** The bytes from block i on. */
    ghost function Behind(i: nat): seq<Byte>
      requires Valid() && startIndex <= i <= |chain|
      reads this
    {
      if i == startIndex then View() else Flatten(chain[i..])
    }

    lemma BehindStep(i: nat)
      requires Valid() && startIndex <= i < |chain|
      ensures Behind(i) == Piece(i) + Behind(i + 1)
    {
      assert chain[i..][1..] == chain[i + 1..];
      if i == startIndex {
        ViewFront();
      }
    }

    /** The const coalesce: a new block with all the bytes. */
    method Coalesce() returns (res: Block)
      requires Valid()
      ensures Used(res) == View()
    {
      var pieces := IterateBlocks();
      res := Gather(pieces, Size());
    }

    /** What coalesced() hands to its callback: the single block itself, or a copy. */
    method Coalesced() returns (bytes: seq<Byte>)
      requires Valid()
      ensures bytes == View()
    {
      if |chain| == startIndex + 1 {
        ViewFront();
        bytes := chain[startIndex].buf[beginOffset..beginOffset + Size()];
      } else {
        var block := Coalesce();
        bytes := Used(block);
      }
    }

    method Iovecs() returns (pieces: seq<seq<Byte>>)
      requires Valid()
      ensures Join(pieces) == View()
    {
      pieces := IterateBlocks();
    }

    /** Takes the last block off the chain. */
    method PopBack() returns (last: Block)
      requires Valid() && startIndex < |chain|
      requires beginOffset == 0 || startIndex + 1 < |chain|
      modifies this
      ensures Valid() && last == old(chain)[|old(chain)| - 1] && chain == old(chain)[..|old(chain)| - 1]
      ensures startIndex == old(startIndex)
    {
      last := chain[|chain| - 1];
      assert Live() == chain[startIndex..|chain| - 1] + [last];
      FlattenAppend(chain[startIndex..|chain| - 1], last);
      chainLength := chainLength - last.size;
      chain := chain[..|chain| - 1];
      assert Live() == old(chain)[startIndex..|old(chain)| - 1];
    }

    /** Takes the block behind a used-up front block. */
    method TakeLastBlock() returns (res: Block)
      requires Valid() && |chain| == startIndex + 2 && beginOffset == chain[startIndex].size
      modifies this
      ensures Valid() && Used(res) == old(View())
      ensures startIndex == old(startIndex) && |chain| == startIndex + 1
    {
      ViewFront();
      assert Live()[1..] == [chain[startIndex + 1]];
      res := PopBack();
    }

    /** Takes the only live block, and shifts its bytes to the front. */
    method TakeLoneBlock() returns (res: Block)
      requires Valid() && |chain| == startIndex + 1
      modifies this
      ensures Valid() && Used(res) == old(View())
      ensures startIndex == old(startIndex) == |chain|
    {
      ViewFront();
      assert Live()[1..] == [];
      var begin := beginOffset;
      beginOffset := 0;
      res := PopBack();
      if begin != 0 {
        res := TrimBlock(res, begin);
      }
    }

    /** Copies every block behind the first into the first one's allocation, and takes that. */
    method TakeFilledFirst() returns (res: Block)
      requires Valid() && startIndex < |chain| && |View()| <= |chain[startIndex].buf|
      modifies this
      ensures Valid() && Used(res) == old(View())
      ensures startIndex == old(startIndex) + 1 && |chain| == |old(chain)|
    {
      ViewFront();
      assert chain[startIndex + 1..] == Live()[1..];
      res := GatherInto(chain[startIndex], beginOffset, chain[startIndex + 1..]);
      var _, _ := DetachFront();
    }

    /** The destructive coalesce. Four ways to the same bytes; what is left behind is a valid
        queue, but one on which TrimFront is safe only if a lone block was not taken from
        behind slots already dropped. */
    method CoalesceDestructive() returns (res: Block)
      requires Valid()
      modifies this
      ensures Valid()
      ensures Used(res) == old(View())
      ensures Trimmable() <==>
        old(if View() == [] then Trimmable() else !(|chain| == startIndex + 1 && startIndex > 0))
    {
      if Size() == 0 {
        return EMPTY_BLOCK;
      }
      HasFrontBlock();
      if beginOffset == chain[startIndex].size && |chain| == startIndex + 2 {
        res := TakeLastBlock();
      } else if |chain| == startIndex + 1 {
        res := TakeLoneBlock();
      } else if |chain[startIndex].buf| >= Size() {
        res := TakeFilledFirst();
      } else {
        res := Coalesce();
      }
    }
  }

  /** Copies the pieces one after another into a new block. */
  method Gather(pieces: seq<seq<Byte>>, size: nat) returns (res: Block)
    requires |Join(pieces)| == size
    ensures Used(res) == Join(pieces)
  {
    var a := new Byte[size];
    var offset := 0;
    for i := 0 to |pieces|
      invariant offset + |Join(pieces[i..])| == size
      invariant a[..offset] + Join(pieces[i..]) == Join(pieces)
    {
      ghost var done := a[..offset];
      assert pieces[i..][1..] == pieces[i + 1..];
      Memcpy(a, offset, pieces[i]);
      offset := offset + |pieces[i]|;
      assert a[..offset] == done + pieces[i];
      Associate(done, pieces[i], Join(pieces[i + 1..]));
    }
    res := Block(a[..], size);
  }

  /** Moves the unused bytes of the first block to the front of its allocation and copies the
      other blocks behind them, in place. */
  method GatherInto(first: Block, begin: nat, rest: seq<Block>) returns (res: Block)
    requires begin <= first.size
    requires first.size - begin + TotalSize(rest) <= |first.buf|
    ensures Used(res) == Used(first)[begin..] + Flatten(rest)
    ensures |res.buf| == |first.buf|
  {
    var trimmed := first;
    if begin != 0 {
      trimmed := TrimBlock(first, begin);
    }
    assert Used(trimmed) == Used(first)[begin..];
    var a := new Byte[|trimmed.buf|](i requires 0 <= i < |trimmed.buf| => trimmed.buf[i]);
    var size := trimmed.size;
    assert a[..size] == Used(trimmed);
    for i := 0 to |rest|
      invariant size + TotalSize(rest[i..]) <= a.Length == |first.buf|
      invariant a[..size] + Flatten(rest[i..]) == Used(trimmed) + Flatten(rest)
    {
      ghost var done := a[..size];
      assert rest[i..][1..] == rest[i + 1..];
      Memcpy(a, size, Used(rest[i]));
      size := size + rest[i].size;
      assert a[..size] == done + Used(rest[i]);
      Associate(done, Used(rest[i]), Flatten(rest[i + 1..]));
    }
    res := Block(a[..], size);
  }

  /** Shifts the bytes from `offset` on to the front of the allocation, in place. */
  method TrimBlock(b: Block, offset: nat) returns (r: Block)
    requires offset <= b.size
    ensures Used(r) == Used(b)[offset..] && |r.buf| == |b.buf|
  {
    var a := new Byte[|b.buf|](i requires 0 <= i < |b.buf| => b.buf[i]);
    Memmove(a, 0, offset, b.size - offset);
    r := Block(a[..], b.size - offset);
  }
}
