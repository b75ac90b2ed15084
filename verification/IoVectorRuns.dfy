/** Whole runs of queue operations, and the two places where IOVector needs a condition. */
module IoVectorRuns {
  import opened Bytes
  import opened IoVector

  datatype Op = Append(block: Block) | Drop(len: nat) | Take(len: nat) | Trim | Clear | Move

  /** Drop and take of more than there is stop the program (CHECK). */
  predicate Enabled(view: seq<Byte>, op: Op) {
    match op
    case Drop(len) => len <= |view| && len <= WORD
    case Take(len) => len <= |view|
    case _ => true
  }

  /** How many bytes the operation takes off the front of a plain byte sequence. */
  function Gone(view: seq<Byte>, op: Op): (n: nat)
    requires Enabled(view, op)
    ensures n <= |view|
  {
    match op
    case Drop(len) => len
    case Take(len) => len
    case Clear => |view|
    case _ => 0
  }

  function Added(op: Op): seq<Byte> {
    if op.Append? then Used(op.block) else []
  }

  ghost predicate AllEnabled(view: seq<Byte>, ops: seq<Op>)
    decreases |ops|
  {
    ops == [] || (Enabled(view, ops[0]) && AllEnabled(view[Gone(view, ops[0])..] + Added(ops[0]), ops[1..]))
  }

  /** The byte sequence after a run. */
  ghost function Final(view: seq<Byte>, ops: seq<Op>): seq<Byte>
    requires AllEnabled(view, ops)
    decreases |ops|
  {
    if ops == [] then view else Final(view[Gone(view, ops[0])..] + Added(ops[0]), ops[1..])
  }

  /** The bytes that left at the front during a run, in order. */
  ghost function AllGone(view: seq<Byte>, ops: seq<Op>): seq<Byte>
    requires AllEnabled(view, ops)
    decreases |ops|
  {
    if ops == [] then []
    else view[..Gone(view, ops[0])] + AllGone(view[Gone(view, ops[0])..] + Added(ops[0]), ops[1..])
  }

  ghost function AllAdded(ops: seq<Op>): seq<Byte> {
    if ops == [] then [] else Added(ops[0]) + AllAdded(ops[1..])
  }

  /** A queue neither loses, duplicates nor reorders a byte. */
  lemma {:induction false} Conservation(view: seq<Byte>, ops: seq<Op>)
    requires AllEnabled(view, ops)
    ensures AllGone(view, ops) + Final(view, ops) == view + AllAdded(ops)
    decreases |ops|
  {
    if ops == [] {
    } else {
      var n, a, rest := Gone(view, ops[0]), Added(ops[0]), ops[1..];
      var next := view[n..] + a;
      Conservation(next, rest);
      Associate(view[..n], AllGone(next, rest), Final(next, rest));
      Associate(view[n..], a, AllAdded(rest));
      Associate(view[..n], view[n..], a + AllAdded(rest));
      assert view[..n] + view[n..] == view;
    }
  }

  /** One operation on a queue does to its view what it does to a plain byte sequence. */
  method Perform(v: IOVector, op: Op) returns (w: IOVector)
    requires v.Valid() && v.Trimmable() && Enabled(v.View(), op)
    modifies v
    ensures w.Valid() && w.Trimmable() && (w == v || fresh(w))
    ensures w.View() == old(v.View())[Gone(old(v.View()), op)..] + Added(op)
  {
    w := v;
    match op {
      case Append(block) => v.Append(block);
      case Drop(len) =>
        v.SmallDrop(len);
        v.DropFront(len);
      case Take(len) => var _ := v.TakeFront(len);
      case Trim => v.TrimFront();
      case Clear => var _ := v.Clear();
      case Move =>
        w := new IOVector();
        w.MoveFrom(v);
    }
  }

  /** Every run of operations refines the run on a plain byte sequence. */
  method Run(v: IOVector, ops: seq<Op>) returns (w: IOVector)
    requires v.Valid() && v.Trimmable() && AllEnabled(v.View(), ops)
    modifies v
    ensures w.Valid() && w.View() == Final(old(v.View()), ops)
  {
    w := v;
    for i := 0 to |ops|
      invariant w.Valid() && w.Trimmable() && (w == v || fresh(w))
      invariant AllEnabled(w.View(), ops[i..])
      invariant Final(w.View(), ops[i..]) == Final(old(v.View()), ops)
    {
      assert ops[i..][1..] == ops[i + 1..];
      w := Perform(w, ops[i]);
    }
  }

  /** The state trim_front cannot be called in is reachable: three bytes in two blocks, the
      first taken, the second coalesced away. */
  method CoalesceThenTrim() returns (v: IOVector)
    ensures v.Valid() && !v.Trimmable()
  {
    v := new IOVector();
    v.Append(Block([1], 1));
    v.Append(Block([2, 3], 2));
    var _ := v.TakeFront(1);
    var _ := v.CoalesceDestructive();
  }
}
