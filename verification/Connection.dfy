/** NonblockingFdConnection (adb/transport_fd.cpp): the object, and the runs of a sender and a
    receiver joined by a byte stream. */
module Connection {
  import opened Bytes
  import opened Framing
  import opened IoVector
  import opened Options
  import opened Packets

  datatype WriteResult = Error | Completed | TryAgain

  /** The sending side on values. */
  datatype Sender = Sender(buffer: seq<Byte>, writable: bool)

  predicate Possible(available: nat, answer: WriteAnswer) {
    answer.Wrote? ==> 0 < answer.n <= available && answer.n <= WORD
  }

  function Dispatch(s: Sender, answer: WriteAnswer): (Sender, WriteResult)
    requires Possible(|s.buffer|, answer)
  {
    match answer
    case Again => (s.(writable := false), TryAgain)
    case Failed => (s, Error)
    case Wrote(n) =>
      var rest := s.buffer[n..];
      (Sender(rest, rest == []), if rest == [] then Completed else TryAgain)
  }

  /** The bytes that reach the file descriptor. */
  function Written(s: Sender, answer: WriteAnswer): seq<Byte>
    requires Possible(|s.buffer|, answer)
  {
    if answer.Wrote? then s.buffer[..answer.n] else []
  }

  /** The call is completed exactly if nothing is left to write, and a write that could not write all
      leaves the connection unwritable. */
  lemma DispatchResult(s: Sender, answer: WriteAnswer)
    requires s.buffer != [] && Possible(|s.buffer|, answer)
    ensures var (t, result) := Dispatch(s, answer);
            && (result.Completed? <==> t.buffer == []) && (result.Error? <==> answer.Failed?)
            && (result.Error? ==> t == s)
            && (!result.Error? ==> (t.writable <==> t.buffer == []))
  {
  }

  class NonblockingConnection {
    var readHeader: Option<Message>
    const readBuffer: IOVector
    const writeBuffer: IOVector
    var writable: bool

    ghost predicate Valid()
      reads this, readBuffer, writeBuffer
    {
      readBuffer != writeBuffer && readBuffer.Valid() && writeBuffer.Valid()
    }

    ghost function Rx(): Receiver
      requires Valid()
      reads this, readBuffer, writeBuffer
    {
      Receiver(readHeader, readBuffer.View())
    }

    ghost function Tx(): Sender
      requires Valid()
      reads this, readBuffer, writeBuffer
    {
      Sender(writeBuffer.View(), writable)
    }

    constructor ()
      ensures Valid() && fresh(readBuffer) && fresh(writeBuffer)
      ensures Rx() == IDLE && Tx() == Sender([], true)
    {
      readHeader := None;
      readBuffer := new IOVector();
      writeBuffer := new IOVector();
      writable := true;
    }

    /** Requires a nonempty buffer (CHECK at the top of the function). */
    method DispatchWrites(answer: WriteAnswer) returns (result: WriteResult, ghost out: seq<Byte>)
      requires Valid() && writeBuffer.View() != [] && Possible(|writeBuffer.View()|, answer)
      modifies this, writeBuffer
      ensures Valid() && Rx() == old(Rx())
      ensures (Tx(), result) == Dispatch(old(Tx()), answer) && out == Written(old(Tx()), answer)
    {
      out := Written(Tx(), answer);
      var _ := writeBuffer.Iovecs();
      match answer {
        case Again =>
          writable := false;
          return TryAgain, out;
        case Failed =>
          return Error, out;
        case Wrote(n) =>
          writeBuffer.SmallDrop(n);
          writeBuffer.DropFront(n);
          writable := writeBuffer.Size() == 0;
          if writeBuffer.Size() == 0 {
            return Completed, out;
          }
          return TryAgain, out;
      }
    }

    method Queue(packet: Packet)
      requires Valid()
      modifies writeBuffer
      ensures Valid() && Rx() == old(Rx())
      ensures Tx() == old(Tx()).(buffer := old(Tx()).buffer + Encode(packet))
    {
      var header := HeaderBytes(packet.msg);
      writeBuffer.Append(Block(header, HEADER_SIZE));
      assert Used(Block(header, HEADER_SIZE)) == header;
      if packet.payload != [] {
        writeBuffer.Append(Block(packet.payload, |packet.payload|));
        assert Used(Block(packet.payload, |packet.payload|)) == packet.payload;
      }
      Associate(old(writeBuffer.View()), header, packet.payload);
    }

    /** Queues the header and the payload, if there is one, and tries to write. */
    method Write(packet: Packet, answer: WriteAnswer) returns (ok: bool, ghost out: seq<Byte>)
      requires Valid() && Possible(|writeBuffer.View()| + |Encode(packet)|, answer)
      modifies this, writeBuffer
      ensures Valid() && Rx() == old(Rx())
      ensures var queued := old(Tx()).(buffer := old(Tx()).buffer + Encode(packet));
              && Tx() == Dispatch(queued, answer).0
              && out == Written(queued, answer)
              && ok == !answer.Failed?
    {
      Queue(packet);
      var result;
      result, out := DispatchWrites(answer);
      ok := result != Error;
    }

    /** The POLLIN branch of the loop: one read, at most one packet. */
    method OnReadable(chunk: seq<Byte>) returns (packet: Option<Packet>)
      requires Valid()
      modifies this, readBuffer
      ensures Valid() && Tx() == old(Tx())
      ensures (Rx(), packet) == OnRead(old(Rx()), chunk)
    {
      readBuffer.Append(Block(chunk, |chunk|));
      assert chunk[..|chunk|] == chunk;
      assert Rx() == old(Rx()).(buffer := old(Rx()).buffer + chunk);
      ReadHeader();
      packet := ReadPacket();
    }

    method ReadHeader()
      requires Valid()
      modifies this, readBuffer
      ensures Valid() && Tx() == old(Tx())
      ensures Rx() == TakeHeader(old(Rx()))
    {
      if readHeader.None? && readBuffer.Size() >= HEADER_SIZE {
        var head := readBuffer.TakeFront(HEADER_SIZE);
        var block := head.CoalesceDestructive();
        readHeader := Some(ParseHeader(Used(block)));
      }
    }

    method ReadPacket() returns (packet: Option<Packet>)
      requires Valid()
      modifies this, readBuffer
      ensures Valid() && Tx() == old(Tx())
      ensures (Rx(), packet) == TakePacket(old(Rx()))
    {
      packet := None;
      if readHeader.Some? && readBuffer.Size() >= readHeader.value.dataLength {
        var data := readBuffer.TakeFront(readHeader.value.dataLength);
        var block := data.CoalesceDestructive();
        packet := Some(Packet(readHeader.value, Used(block)));
        readHeader := None;
      }
    }
  }

  // A sender and a receiver joined by a byte stream.

  /** `polled`: the last poll asked for POLLOUT, and nothing was dispatched since. A poll may return
      without POLLOUT, and then the loop polls again. */
  datatype Link = Link(sent: seq<Packet>, tx: Sender, polled: bool, wire: seq<Byte>, rx: Receiver, got: seq<Packet>)

  datatype Step =
    | Write(packet: Packet, answer: WriteAnswer)
    | Poll
    | DispatchPolled(answer: WriteAnswer)
    | Read(n: nat)

  const START := Link([], Sender([], true), false, [], IDLE, [])

  predicate Enabled(l: Link, step: Step) {
    match step
    case Write(packet, answer) => WellFormed(packet) && Possible(|l.tx.buffer| + |Encode(packet)|, answer)
    case Poll => true
    case DispatchPolled(answer) => l.polled && l.tx.buffer != [] && Possible(|l.tx.buffer|, answer)
    case Read(n) => n <= |l.wire|
  }

  function Next(l: Link, step: Step): Link
    requires Enabled(l, step)
  {
    match step
    case Write(packet, answer) =>
      var queued := l.tx.(buffer := l.tx.buffer + Encode(packet));
      l.(sent := l.sent + [packet], tx := Dispatch(queued, answer).0, wire := l.wire + Written(queued, answer))
    case Poll => l.(polled := !l.tx.writable)
    case DispatchPolled(answer) =>
      l.(tx := Dispatch(l.tx, answer).0, polled := false, wire := l.wire + Written(l.tx, answer))
    case Read(n) =>
      var (rx, p) := OnRead(l.rx, l.wire[..n]);
      l.(wire := l.wire[n..], rx := rx, got := l.got + Packed(p))
  }

  ghost predicate AllEnabled(l: Link, steps: seq<Step>)
    decreases |steps|
  {
    steps == [] || (Enabled(l, steps[0]) && AllEnabled(Next(l, steps[0]), steps[1..]))
  }

  ghost function After(l: Link, steps: seq<Step>): Link
    requires AllEnabled(l, steps)
    decreases |steps|
  {
    if steps == [] then l else After(Next(l, steps[0]), steps[1..])
  }

  /** Every byte of every packet sent is in exactly one place, in order. */
  ghost predicate Inv(l: Link) {
    && AllWellFormed(l.sent) && AllWellFormed(l.got)
    && EncodeAll(l.got) + Pending(l.rx) + (l.wire + l.tx.buffer) == EncodeAll(l.sent)
  }

  lemma DispatchConserves(s: Sender, answer: WriteAnswer)
    requires Possible(|s.buffer|, answer)
    ensures Written(s, answer) + Dispatch(s, answer).0.buffer == s.buffer
    ensures |Written(s, answer)| == if answer.Wrote? then answer.n else 0
  {
  }

  lemma WriteKeepsInv(l: Link, packet: Packet, answer: WriteAnswer)
    requires Inv(l) && Enabled(l, Write(packet, answer))
    ensures Inv(Next(l, Write(packet, answer)))
  {
    var before := EncodeAll(l.got) + Pending(l.rx);
    var queued := l.tx.(buffer := l.tx.buffer + Encode(packet));
    DispatchConserves(queued, answer);
    EncodeAllAppend(l.sent, packet);
    Associate(l.wire, Written(queued, answer), Dispatch(queued, answer).0.buffer);
    Associate(l.wire, l.tx.buffer, Encode(packet));
    Associate(before, l.wire + l.tx.buffer, Encode(packet));
  }

  lemma ReadKeepsInv(l: Link, n: nat)
    requires Inv(l) && Enabled(l, Read(n))
    ensures Inv(Next(l, Read(n)))
  {
    var before := EncodeAll(l.got) + Pending(l.rx);
    ReceivedStep(l.got, l.rx, before, l.wire[..n]);
    Associate(l.wire[..n], l.wire[n..], l.tx.buffer);
    assert l.wire[..n] + l.wire[n..] == l.wire;
    Associate(before, l.wire[..n], l.wire[n..] + l.tx.buffer);
  }

  lemma NextKeepsInv(l: Link, step: Step)
    requires Inv(l) && Enabled(l, step)
    ensures Inv(Next(l, step))
  {
    match step {
      case Poll =>
      case Write(packet, answer) => WriteKeepsInv(l, packet, answer);
      case DispatchPolled(answer) =>
        DispatchConserves(l.tx, answer);
        Associate(l.wire, Written(l.tx, answer), Dispatch(l.tx, answer).0.buffer);
      case Read(n) => ReadKeepsInv(l, n);
    }
  }

  lemma {:induction false} RunKeepsInv(l: Link, steps: seq<Step>)
    requires Inv(l) && AllEnabled(l, steps)
    ensures Inv(After(l, steps))
    decreases |steps|
  {
    if steps == [] {
    } else {
      NextKeepsInv(l, steps[0]);
      RunKeepsInv(Next(l, steps[0]), steps[1..]);
    }
  }

  /** Whatever packets are written, however writes and reads are cut short, and however the two
      threads of the sender interleave: what was delivered is a prefix of what was sent, and once
      nothing is under way and no whole packet waits in the buffer it is all of it. */
  lemma LinkRoundTrip(steps: seq<Step>)
    requires AllEnabled(START, steps)
    ensures var l := After(START, steps);
            && l.got <= l.sent
            && (l.wire == [] && l.tx.buffer == [] && Complete(Pending(l.rx)) == 0 ==> l.got == l.sent)
  {
    assert EncodeAll([]) + Pending(IDLE) + ([] + []) == EncodeAll([]);
    RunKeepsInv(START, steps);
    var l := After(START, steps);
    var rest := l.wire + l.tx.buffer;
    Associate(EncodeAll(l.got), Pending(l.rx), rest);
    PrefixOfPackets(l.got, Pending(l.rx) + rest, l.sent);
    if l.wire == [] && l.tx.buffer == [] && Complete(Pending(l.rx)) == 0 {
      assert Pending(l.rx) + rest == Pending(l.rx);
      var missing := l.sent[|l.got|..];
      CompleteAfterAll(missing, []);
      assert EncodeAll(missing) + [] == EncodeAll(missing);
      assert missing == [];
    }
  }

  // The CHECK at the top of DispatchWrites.

  /** A connection that polls for writing has something to write. */
  predicate Waiting(l: Link) {
    !l.tx.writable ==> l.tx.buffer != []
  }

  lemma {:induction false} WaitingAlways(l: Link, steps: seq<Step>)
    requires AllEnabled(l, steps) && Waiting(l)
    ensures Waiting(After(l, steps))
    decreases |steps|
  {
    if steps == [] {
    } else {
      WaitingAlways(Next(l, steps[0]), steps[1..]);
    }
  }

  predicate NoFailure(steps: seq<Step>) {
    forall i :: 0 <= i < |steps| ==>
      (steps[i].Write? || steps[i].DispatchPolled?) ==> !steps[i].answer.Failed?
  }

  /** The last attempt to write since the connection was writable failed, so that it counts as writable
      still; `before` is what to say if there was none. */
  ghost predicate FailedWritable(l: Link, steps: seq<Step>, before: bool)
    requires AllEnabled(l, steps)
    decreases |steps|
  {
    if steps == [] then before
    else
      FailedWritable(Next(l, steps[0]), steps[1..],
                     match steps[0]
                     case Write(_, answer) => answer.Failed? && l.tx.writable
                     case DispatchPolled(answer) => answer.Failed? && before
                     case _ => before)
  }

  lemma {:induction false} UnaskedIff(l: Link, steps: seq<Step>, before: bool)
    requires AllEnabled(l, steps) && Waiting(l) && (before <==> l.tx.writable && l.tx.buffer != [])
    ensures var t := After(l, steps).tx; t.writable && t.buffer != [] <==> FailedWritable(l, steps, before)
    decreases |steps|
  {
    if steps == [] {
    } else {
      var next := Next(l, steps[0]);
      UnaskedIff(next, steps[1..], next.tx.writable && next.tx.buffer != []);
    }
  }

  /** In every run: bytes wait and the next poll does not ask for POLLOUT, if and only if the last
      attempt to write them failed while the connection was writable. */
  lemma BytesAreAskedFor(steps: seq<Step>)
    requires AllEnabled(START, steps)
    ensures var l := After(START, steps);
            l.tx.buffer != [] && !Next(l, Poll).polled <==> FailedWritable(START, steps, false)
  {
    UnaskedIff(START, steps, false);
  }

  /** So without a failed write, bytes that wait are always asked for, and nothing else is. */
  lemma PollsExactly(steps: seq<Step>)
    requires AllEnabled(START, steps) && NoFailure(steps)
    ensures var l := After(START, steps); Next(l, Poll).polled <==> l.tx.buffer != []
  {
    BytesAreAskedFor(steps);
    WaitingAlways(START, steps);
    NeverFailedWritable(START, steps);
  }

  lemma {:induction false} NeverFailedWritable(l: Link, steps: seq<Step>)
    requires AllEnabled(l, steps) && NoFailure(steps)
    ensures !FailedWritable(l, steps, false)
    decreases |steps|
  {
    if steps == [] {
    } else {
      assert forall i :: 0 <= i < |steps[1..]| ==> steps[1..][i] == steps[i + 1];
      assert !((steps[0].Write? || steps[0].DispatchPolled?) && steps[0].answer.Failed?);
      NeverFailedWritable(Next(l, steps[0]), steps[1..]);
    }
  }

  /** A write that fails at once: its bytes wait, and no poll asks for them. */
  lemma FailedWriteIsNotAskedFor(p: Packet)
    requires WellFormed(p)
    ensures AllEnabled(START, [Write(p, Failed)])
    ensures var l := After(START, [Write(p, Failed)]); l.tx.buffer == Encode(p) && !Next(l, Poll).polled
  {
    assert [Write(p, Failed)][1..] == [] && [] + Encode(p) == Encode(p);
  }

  function Polls(steps: seq<Step>): nat {
    if steps == [] then 0 else (if steps[0].Poll? then 1 else 0) + Polls(steps[1..])
  }

  function Dispatches(steps: seq<Step>): nat {
    if steps == [] then 0 else (if steps[0].DispatchPolled? then 1 else 0) + Dispatches(steps[1..])
  }

  lemma {:induction false} DispatchesFollowPolls(l: Link, steps: seq<Step>)
    requires AllEnabled(l, steps)
    ensures Dispatches(steps) <= Polls(steps) + (if l.polled then 1 else 0)
    decreases |steps|
  {
    if steps == [] {
    } else {
      DispatchesFollowPolls(Next(l, steps[0]), steps[1..]);
    }
  }

  /** In every run the loop dispatches at most once for each poll. */
  lemma OneDispatchPerPoll(steps: seq<Step>)
    requires AllEnabled(START, steps)
    ensures Dispatches(steps) <= Polls(steps)
  {
    DispatchesFollowPolls(START, steps);
  }

  /** No poll and no dispatch. */
  predicate Between(steps: seq<Step>) {
    forall i :: 0 <= i < |steps| ==> steps[i].Write? || steps[i].Read?
  }

  /** The last Write of the steps was answered with its whole buffer; `before` is what to say if
      there is none. */
  ghost predicate LastWroteAll(l: Link, steps: seq<Step>, before: bool)
    requires AllEnabled(l, steps)
    decreases |steps|
  {
    if steps == [] then before
    else
      LastWroteAll(Next(l, steps[0]), steps[1..],
                   if steps[0].Write? then steps[0].answer == Wrote(|l.tx.buffer| + |Encode(steps[0].packet)|) else before)
  }

  lemma {:induction false} EmptyIffLastWroteAll(l: Link, steps: seq<Step>, empty: bool)
    requires AllEnabled(l, steps) && Between(steps) && (l.tx.buffer == [] <==> empty)
    ensures After(l, steps).tx.buffer == [] <==> LastWroteAll(l, steps, empty)
    decreases |steps|
  {
    if steps == [] {
    } else {
      assert forall i :: 0 <= i < |steps[1..]| ==> steps[1..][i] == steps[i + 1];
      var next := Next(l, steps[0]);
      EmptyIffLastWroteAll(next, steps[1..], next.tx.buffer == []);
    }
  }

  /** In every run: a poll asks for POLLOUT if and only if the connection is not writable. Then,
      whatever writes and reads come before the dispatch, its CHECK fails if and only if the last
      write since the poll was answered with its whole buffer. */
  lemma PolledCheckExact(before: seq<Step>, between: seq<Step>)
    requires AllEnabled(START, before)
    requires AllEnabled(Next(After(START, before), Poll), between) && Between(between)
    ensures var l := Next(After(START, before), Poll);
            && (After(l, between).polled <==> !After(START, before).tx.writable)
            && (After(l, between).polled ==>
                  (After(l, between).tx.buffer == [] <==> LastWroteAll(l, between, false)))
  {
    var l := Next(After(START, before), Poll);
    WaitingAlways(START, before);
    StillPolled(l, between);
    if l.polled {
      EmptyIffLastWroteAll(l, between, false);
    }
  }

  lemma {:induction false} StillPolled(l: Link, steps: seq<Step>)
    requires AllEnabled(l, steps) && Between(steps)
    ensures After(l, steps).polled == l.polled
    decreases |steps|
  {
    if steps == [] {
    } else {
      assert forall i :: 0 <= i < |steps[1..]| ==> steps[1..][i] == steps[i + 1];
      StillPolled(Next(l, steps[0]), steps[1..]);
    }
  }

  /** It can fail without any failure of a write. */
  lemma PolledCheckCanFail(p: Packet) returns (steps: seq<Step>)
    requires WellFormed(p) && 2 * |Encode(p)| <= WORD
    ensures AllEnabled(START, steps) && NoFailure(steps)
    ensures After(START, steps).polled && After(START, steps).tx.buffer == []
  {
    var n := 2 * |Encode(p)|;
    steps := [Write(p, Again), Poll, Write(p, Wrote(n))];
    var l1 := Next(START, steps[0]);
    assert [] + Encode(p) == Encode(p);
    assert l1.tx == Sender(Encode(p), false);
    var l2 := Next(l1, steps[1]);
    var l3 := Next(l2, steps[2]);
    assert l3.tx.buffer == [] && l3.polled;
    assert steps[1..] == [Poll, Write(p, Wrote(n))];
    assert [Poll, Write(p, Wrote(n))][1..] == [Write(p, Wrote(n))];
    assert AllEnabled(l3, []) && After(l3, []) == l3;
    assert AllEnabled(l2, [Write(p, Wrote(n))]) && After(l2, [Write(p, Wrote(n))]) == l3;
    assert AllEnabled(l1, steps[1..]) && After(l1, steps[1..]) == l3;
  }
}
