/** Closing a stream: what the receiver still gets. */
module StreamClosing {
  import opened Bytes
  import opened Stream
  import opened TwoEnds

  /** The sender x closes, y is the receiver. Of y: no write fails, and y does not itself meet the
      end of its descriptor before it is told to close. */
  predicate Polite(s: Sys, step: Step) {
    step.atX ||
    match step.act
    case Fd(e) => (e.write ==> !e.w.Failed?) && (e.eof ==> s.y.half.phase.Closing?)
    case Receive(w, _) => !w.Failed?
  }

  /** y is on the closing list and gets a read event that meets the end of the file, before its
      queue is written out. */
  predicate Lossy(s: Sys, step: Step) {
    && !step.atX && step.act.Fd? && s.y.half.phase.Closing?
    && step.act.e.eof && !(step.act.e.write && step.act.e.w == Wrote(|s.y.half.queue|))
  }

  /** No data follows a CLSE. */
  predicate CloseIsLast(ch: seq<Pkt>) {
    forall i, j :: 0 <= i < j < |ch| && ch[i].CLSE? ==> !ch[j].WRTE?
  }

  /** An OKAY precedes all else. */
  predicate OkayIsFirst(ch: seq<Pkt>) {
    forall i :: 0 < i < |ch| ==> !ch[i].OKAY?
  }

  /** Once y has left the list of open sockets, x sends no more and nothing is under way: what y
      wrote and still holds is all that x sent. */
  ghost predicate Settled(s: Sys) {
    && (Over(s.x.half) || (s.x.half.phase.Connecting? && s.yx != [] && s.yx[0].CLSE?))
    && Writes(s.xy) == 0
    && s.y.put + s.y.half.queue == s.x.sent
  }

  ghost predicate Drain(s: Sys) {
    !s.y.half.writeError && CloseIsLast(s.xy) && (Over(s.y.half) ==> Settled(s))
  }

  /** The invariant, with either end as the opener. */
  ghost predicate EitherInv(s: Sys, limit: nat) {
    Inv(s, limit) || Inv(Flip(s), limit)
  }

  lemma EitherInvStep(s: Sys, step: Step, limit: nat)
    requires EitherInv(s, limit) && Enabled(s, step, limit)
    ensures EitherInv(Next(s, step, limit), limit)
  {
    if Inv(s, limit) {
      if step.atX { InvX(s, step.act, limit); } else { InvY(s, step.act, limit); }
    } else {
      if step.atX { InvY(Flip(s), step.act, limit); } else { InvX(Flip(s), step.act, limit); }
    }
  }

  /** What closing needs of the invariant, whichever end is the opener. */
  ghost predicate Calm(s: Sys, limit: nat) {
    && Ok(s.x.half) && Ok(s.y.half) && Sized(s.xy, limit) && Sized(s.yx, limit)
    && HeadOk(s) && HeadOk(Flip(s)) && Closes(s) && Flow(s)
    && (s.y.half.phase.Absent? ==>
          s.xy == [OPEN] && s.yx == [] && (s.x.half.phase.Connecting? || s.x.half.phase.Gone?))
  }

  lemma EitherCalm(s: Sys, limit: nat)
    requires EitherInv(s, limit)
    ensures Calm(s, limit)
  {
    HandshakeHeads(if Inv(s, limit) then s else Flip(s));
  }

  lemma {:induction false} NoWrites(ch: seq<Pkt>)
    requires forall i :: 0 <= i < |ch| ==> !ch[i].WRTE?
    ensures Writes(ch) == 0 && Payloads(ch) == []
  {
    if ch == [] {
    } else {
      NoWrites(ch[1..]);
    }
  }

  lemma CloseIsLastConcat(a: seq<Pkt>, b: seq<Pkt>)
    requires CloseIsLast(a) && CloseIsLast(b)
    requires CLSE in a ==> forall p :: p in b ==> !p.WRTE?
    ensures CloseIsLast(a + b)
  {
    forall i, j | 0 <= i < j < |a + b| && (a + b)[i].CLSE?
      ensures !(a + b)[j].WRTE?
    {
      if i < |a| <= j {
        assert a[i] in a && b[j - |a|] in b;
      }
    }
  }

  lemma OutgoingOrder(h: Half, data: seq<Byte>, eof: bool)
    ensures CloseIsLast(OutgoingEmits(h, data, eof))
  {
    var a := if data != [] && h.phase.Open? then [WRTE(data)] else [];
    CloseIsLastConcat(a, if eof then CloseEmits(h) else []);
  }

  lemma ReadEventOrder(h: Half, e: Event, acks: seq<Pkt>, put: seq<Byte>)
    requires acks == [] || acks == [OKAY]
    ensures CloseIsLast(OnReadEvent(h, e, acks, put).emits) && OkayIsFirst(OnReadEvent(h, e, acks, put).emits)
  {
    OutgoingOrder(h, e.data, e.eof);
    CloseIsLastConcat(acks, OutgoingEmits(h, e.data, e.eof));
  }

  /** What an end sends on an event: acknowledgement, data, close, in this order. */
  lemma EventOrder(h: Half, e: Event)
    requires e.write ==> Possible(h.queue, e.w)
    ensures CloseIsLast(OnEvent(h, e).emits) && OkayIsFirst(OnEvent(h, e).emits)
  {
    if !e.write {
      ReadEventOrder(h, e, [], []);
    } else {
      var (h1, result) := FlushIncoming(h, e.w);
      match result {
        case Destroyed =>
        case TryAgain => ReadEventOrder(h1, e, [], Put(h.queue, e.w));
        case Completed => ReadEventOrder(h1, e, [OKAY], Put(h.queue, e.w));
      }
    }
  }

  lemma DrainFdX(s: Sys, e: Event, limit: nat)
    requires Calm(s, limit) && Drain(s) && EnabledX(s, Fd(e), limit)
    ensures Drain(NextX(s, Fd(e), limit))
  {
    var f := OnEvent(s.x.half, e);
    EventAccount(s.x.half, e, limit);
    DrainOrderX(s, e, limit);
    CountConcat(s.xy, f.emits);
    assert s.x.sent + [] == s.x.sent;
  }

  lemma DrainOrderX(s: Sys, e: Event, limit: nat)
    requires Calm(s, limit) && Drain(s) && EnabledX(s, Fd(e), limit)
    ensures CloseIsLast(NextX(s, Fd(e), limit).xy)
  {
    EventAccount(s.x.half, e, limit);
    EventOrder(s.x.half, e);
    assert s.x.half.phase.Open? ==> CLSE !in s.xy;
    CloseIsLastConcat(s.xy, OnEvent(s.x.half, e).emits);
  }

  lemma DrainReceiveX(s: Sys, w: WriteAnswer, accept: bool, limit: nat)
    requires Calm(s, limit) && Drain(s) && EnabledX(s, Receive(w, accept), limit)
    ensures Drain(NextX(s, Receive(w, accept), limit))
  {
    var f := OnPacket(s.x.half, s.yx[0], w, accept);
    PacketData(s.x.half, s.yx[0], w, accept);
    CloseIsLastConcat(s.xy, f.emits);
    CountConcat(s.xy, f.emits);
    assert s.x.sent + [] == s.x.sent;
  }

  /** A step of the sender: it adds no data once it or the receiver is closed. */
  lemma DrainX(s: Sys, act: Act, limit: nat)
    requires Calm(s, limit) && Drain(s) && EnabledX(s, act, limit)
    ensures Drain(NextX(s, act, limit))
  {
    match act {
      case Fd(e) => DrainFdX(s, e, limit);
      case Receive(w, accept) => DrainReceiveX(s, w, accept, limit);
    }
  }

  lemma DrainFdY(s: Sys, e: Event, limit: nat)
    requires Calm(s, limit) && Drain(s) && EnabledX(Flip(s), Fd(e), limit)
    requires Polite(s, Step(false, Fd(e)))
    ensures Drain(Flip(NextX(Flip(s), Fd(e), limit)))
  {
    var f := OnEvent(s.y.half, e);
    PoliteEvent(s.y.half, e, limit);
    EventAccount(s.y.half, e, limit);
    Associate(s.y.put, f.put, f.half.queue);
  }

  /** The receiver is told to close: everything before the CLSE has arrived. */
  lemma ClosedByPacket(s: Sys, w: WriteAnswer, accept: bool, limit: nat)
    requires Calm(s, limit) && Drain(s) && EnabledX(Flip(s), Receive(w, accept), limit)
    requires !Over(s.y.half) && Over(OnPacket(s.y.half, s.xy[0], w, accept).half) && !w.Failed?
    ensures Settled(Flip(NextX(Flip(s), Receive(w, accept), limit)))
  {
    var p := s.xy[0];
    var f := OnPacket(s.y.half, p, w, accept);
    PacketData(s.y.half, p, w, accept);
    Associate(s.y.put, f.put, f.half.queue);
    assert !p.WRTE?;
    forall j | 0 <= j < |s.xy|
      ensures !s.xy[j].WRTE?
    {
    }
    NoWrites(s.xy[1..]);
    NoWrites(s.xy);
    assert s.y.put + s.y.half.queue + [] == s.y.put + s.y.half.queue;
  }

  lemma DrainReceiveY(s: Sys, w: WriteAnswer, accept: bool, limit: nat)
    requires Calm(s, limit) && Drain(s) && EnabledX(Flip(s), Receive(w, accept), limit) && !w.Failed?
    ensures Drain(Flip(NextX(Flip(s), Receive(w, accept), limit)))
  {
    var t := Flip(NextX(Flip(s), Receive(w, accept), limit));
    assert CloseIsLast(t.xy);
    if Over(s.y.half) {
      PacketData(s.y.half, s.xy[0], w, accept);
      assert s.y.put + [] == s.y.put;
    } else if Over(t.y.half) {
      ClosedByPacket(s, w, accept, limit);
    }
  }

  lemma DrainStep(s: Sys, step: Step, limit: nat)
    requires EitherInv(s, limit) && Drain(s) && Enabled(s, step, limit) && Polite(s, step)
    ensures Drain(Next(s, step, limit))
  {
    EitherCalm(s, limit);
    if step.atX {
      DrainX(s, step.act, limit);
    } else {
      match step.act {
        case Fd(e) => DrainFdY(s, e, limit);
        case Receive(w, accept) => DrainReceiveY(s, w, accept, limit);
      }
    }
  }

  ghost predicate PoliteRun(s: Sys, steps: seq<Step>, limit: nat)
    requires Run(s, steps, limit)
    decreases |steps|
  {
    steps == [] || (Polite(s, steps[0]) && PoliteRun(Next(s, steps[0], limit), steps[1..], limit))
  }

  ghost predicate NoLoss(s: Sys, steps: seq<Step>, limit: nat)
    requires Run(s, steps, limit)
    decreases |steps|
  {
    steps == [] || (!Lossy(s, steps[0]) && NoLoss(Next(s, steps[0], limit), steps[1..], limit))
  }

  /** The receiver is destroyed with bytes it never wrote exactly by a lossy step. */
  lemma DestroyStep(s: Sys, step: Step, limit: nat)
    requires EitherInv(s, limit) && Drain(s) && Enabled(s, step, limit) && Polite(s, step)
    ensures var t := Next(s, step, limit);
            && (s.y.half.phase.Gone? ==> t.y.half == s.y.half && !Lossy(s, step))
            && (!s.y.half.phase.Gone? && t.y.half.phase.Gone? ==> (t.y.half.queue != [] <==> Lossy(s, step)))
            && (Lossy(s, step) ==> t.y.half.phase.Gone?)
  {
    EitherCalm(s, limit);
    DrainStep(s, step, limit);
    if !step.atX {
      match step.act {
        case Fd(e) => DestroyedUnwritten(s.y.half, e, limit);
        case Receive(w, accept) =>
          if !s.y.half.phase.Gone? {
            PacketDestroys(s.y.half, s.xy[0], w, accept);
          }
      }
    }
  }

  lemma {:induction false} GracefulRun(s: Sys, steps: seq<Step>, limit: nat)
    requires EitherInv(s, limit) && Drain(s) && Run(s, steps, limit) && PoliteRun(s, steps, limit)
    ensures var e := After(s, steps, limit);
            && Drain(e)
            && (e.y.half.phase.Gone? ==>
                  (e.y.half.queue == [] <==> (s.y.half.phase.Gone? ==> s.y.half.queue == []) && NoLoss(s, steps, limit)))
            && (s.y.half.phase.Gone? ==> e.y.half == s.y.half && NoLoss(s, steps, limit))
    decreases |steps|
  {
    if steps == [] {
    } else {
      EitherInvStep(s, steps[0], limit);
      DrainStep(s, steps[0], limit);
      DestroyStep(s, steps[0], limit);
      GracefulRun(Next(s, steps[0], limit), steps[1..], limit);
    }
  }

  /** The sender closes whenever it likes; the receiver, which may be the opener or the acceptor,
      meets no write error and does not close first. Then, once the receiver's socket is
      destroyed, every byte sent has been written to its descriptor if and only if the socket got
      no read event at the end of the file while on the closing list with bytes to write. */
  lemma GracefulClose(start: Sys, steps: seq<Step>, limit: nat)
    requires start == START || start == Flip(START)
    requires Run(start, steps, limit) && PoliteRun(start, steps, limit)
    ensures var e := After(start, steps, limit);
            e.y.half.phase.Gone? ==> (e.y.put == e.x.sent <==> NoLoss(start, steps, limit))
  {
    StartInv(limit);
    CountOne(OPEN);
    assert EitherInv(start, limit) by {
      assert Flip(Flip(START)) == START;
    }
    GracefulRun(start, steps, limit);
    var e := After(start, steps, limit);
    if e.y.half.phase.Gone? {
      assert e.y.put + e.y.half.queue == e.x.sent;
      assert e.y.half.queue != [] ==> |e.y.put| < |e.x.sent|;
      assert e.y.put + [] == e.y.put;
    }
  }

  // The condition is needed.

  lemma RunOne(s: Sys, step: Step, more: seq<Step>, limit: nat)
    requires Enabled(s, step, limit) && Run(Next(s, step, limit), more, limit)
    ensures Run(s, [step] + more, limit)
    ensures After(s, [step] + more, limit) == After(Next(s, step, limit), more, limit)
    ensures Polite(s, step) && PoliteRun(Next(s, step, limit), more, limit) ==> PoliteRun(s, [step] + more, limit)
  {
    assert ([step] + more)[1..] == more;
  }

  /** y cannot write the byte at once, is told to close, and is hung up on. */
  lemma LossAtY(s: Sys, limit: nat) returns (steps: seq<Step>)
    requires limit >= 2 && s.xy == [WRTE([7]), CLSE] && s.y == End(Half(Open, [], true, false, false), [], [], [])
    ensures Run(s, steps, limit) && PoliteRun(s, steps, limit)
    ensures var e := After(s, steps, limit); e.y.half.phase.Gone? && e.x.sent == s.x.sent && e.y.put == []
  {
    var receive, hangUp := Step(false, Receive(Again, true)), Step(false, Fd(Event(false, true, Again, [], true)));
    var s1 := Next(s, receive, limit);
    assert s1.xy == [CLSE] && s1.y == End(Half(Open, [7], true, true, false), [], [], []);
    var s2 := Next(s1, receive, limit);
    assert s2.y == End(Half(Closing, [7], false, true, false), [], [], []);
    var s3 := Next(s2, hangUp, limit);
    assert s3.y.half.phase.Gone? && s3.y.put == [];
    steps := [];
    RunOne(s2, hangUp, steps, limit);
    steps := [hangUp] + steps;
    RunOne(s1, receive, steps, limit);
    steps := [receive] + steps;
    RunOne(s, receive, steps, limit);
    steps := [receive] + steps;
  }

  /** x sends a byte and closes, and the byte is lost although nothing failed. */
  lemma LossHappens(limit: nat) returns (steps: seq<Step>)
    requires limit >= 2
    ensures Run(START, steps, limit) && PoliteRun(START, steps, limit)
    ensures var s := After(START, steps, limit); s.y.half.phase.Gone? && s.x.sent == [7] && s.y.put == []
  {
    var receive, last := Receive(Again, true), Step(true, Fd(Event(false, true, Again, [7], true)));
    var s1 := Next(START, Step(false, receive), limit);
    assert s1 == Sys(START.x, End(Half(Open, [], true, false, false), [], [], []), [], [OKAY]);
    var s2 := Next(s1, Step(true, receive), limit);
    assert s2 == Sys(End(Half(Open, [], true, false, false), [], [], []), s1.y, [], []);
    var s3 := Next(s2, last, limit);
    assert s3.xy == [WRTE([7]), CLSE] && s3.x.sent == [7] && s3.y == s1.y;
    steps := LossAtY(s3, limit);
    RunOne(s2, last, steps, limit);
    steps := [last] + steps;
    RunOne(s1, Step(true, receive), steps, limit);
    steps := [Step(true, receive)] + steps;
    RunOne(START, Step(false, receive), steps, limit);
    steps := [Step(false, receive)] + steps;
  }
}
