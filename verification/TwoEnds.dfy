/** The two ends of a stream, joined by two first-in first-out channels: what holds in every run. */
module TwoEnds {
  import opened Bytes
  import opened Stream

  /** An end, with what it has put into WRTE packets, written to its file descriptor, and read from it
      so far. */
  datatype End = End(half: Half, sent: seq<Byte>, put: seq<Byte>, got: seq<Byte>)

  datatype Sys = Sys(x: End, y: End, xy: seq<Pkt>, yx: seq<Pkt>)

  datatype Act = Fd(e: Event) | Receive(w: WriteAnswer, accept: bool)

  datatype Step = Step(atX: bool, act: Act)

  /** x has asked to open the stream. */
  const START := Sys(End(Half(Connecting, [], false, false, false), [], [], []),
                     End(Half(Absent, [], false, false, false), [], [], []), [OPEN], [])

  function Flip(s: Sys): Sys {
    Sys(s.y, s.x, s.yx, s.xy)
  }

  predicate EnabledX(s: Sys, act: Act, limit: nat) {
    match act
    case Fd(e) => EventPossible(s.x.half, e, limit)
    case Receive(w, _) => s.yx != [] && (s.yx[0].WRTE? ==> Possible(s.x.half.queue + s.yx[0].data, w))
  }

  function EffectX(s: Sys, act: Act, limit: nat): Effect
    requires EnabledX(s, act, limit)
  {
    match act
    case Fd(e) => OnEvent(s.x.half, e)
    case Receive(w, accept) => OnPacket(s.x.half, s.yx[0], w, accept)
  }

  function NextX(s: Sys, act: Act, limit: nat): Sys
    requires EnabledX(s, act, limit)
  {
    var f := EffectX(s, act, limit);
    Sys(End(f.half, s.x.sent + f.sent, s.x.put + f.put, s.x.got + f.got), s.y, s.xy + f.emits,
        if act.Receive? then s.yx[1..] else s.yx)
  }

  predicate Enabled(s: Sys, step: Step, limit: nat) {
    EnabledX(if step.atX then s else Flip(s), step.act, limit)
  }

  function Next(s: Sys, step: Step, limit: nat): Sys
    requires Enabled(s, step, limit)
  {
    if step.atX then NextX(s, step.act, limit) else Flip(NextX(Flip(s), step.act, limit))
  }

  ghost predicate Run(s: Sys, steps: seq<Step>, limit: nat)
    decreases |steps|
  {
    steps == [] || (Enabled(s, steps[0], limit) && Run(Next(s, steps[0], limit), steps[1..], limit))
  }

  ghost function After(s: Sys, steps: seq<Step>, limit: nat): Sys
    requires Run(s, steps, limit)
    decreases |steps|
  {
    if steps == [] then s else After(Next(s, steps[0], limit), steps[1..], limit)
  }

  // The invariant of every run.

  /** The bytes from x to y: written, queued at y and under way, they are what x sent. Once y has
      left the list of open sockets it takes no more. */
  ghost predicate Flow(s: Sys) {
    if Over(s.y.half)
    then s.y.put + s.y.half.queue <= s.x.sent
    else s.y.put + s.y.half.queue + Payloads(s.xy) == s.x.sent
  }

  /** What may be at the head of the channel to an end that is not open yet. */
  predicate HeadOk(s: Sys) {
    && (s.x.half.phase.Connecting? && s.yx != [] ==> s.yx[0].OKAY? || s.yx[0].CLSE?)
    && (s.x.half.phase.Absent? && s.yx != [] ==> s.yx[0].OPEN?)
    && (!s.x.half.phase.Absent? ==> OPEN !in s.yx)
  }

  /** The opening exchange; x is the opener. */
  predicate Handshake(s: Sys) {
    && !s.x.half.phase.Absent? && !s.y.half.phase.Connecting?
    && (s.y.half.phase.Absent? ==>
          s.xy == [OPEN] && s.yx == [] && (s.x.half.phase.Connecting? || s.x.half.phase.Gone?))
    && (!s.y.half.phase.Absent? ==> OPEN !in s.xy)
    && OPEN !in s.yx
    && (s.x.half.phase.Connecting? && !s.y.half.phase.Absent? ==>
          s.xy == [] && s.yx != [] && (s.yx[0].OKAY? || (s.yx[0].CLSE? && s.y.half.phase.Gone?)))
  }

  /** A CLSE comes from an end that is closed. */
  predicate Closes(s: Sys) {
    CLSE in s.xy ==> Over(s.x.half)
  }

  /** The right to send from x to y, wherever it is: FDE_READ at x, a WRTE under way, bytes that
      wait at y, an OKAY under way. */
  function Tokens(s: Sys): nat {
    Bit(s.x.half.read) + Writes(s.xy) + Bit(s.y.half.write) + Okays(s.yx)
  }

  /** The stream is up at y and not given up at x. */
  predicate Live(s: Sys) {
    (s.x.half.phase.Connecting? || s.x.half.phase.Open?) && s.y.half.phase.Open?
  }

  ghost predicate Inv(s: Sys, limit: nat) {
    && Ok(s.x.half) && Ok(s.y.half)
    && Sized(s.xy, limit) && Sized(s.yx, limit)
    && Handshake(s)
    && Closes(s) && Closes(Flip(s))
    && Flow(s) && Flow(Flip(s))
    && (Live(s) ==> Tokens(s) >= 1 && Tokens(Flip(s)) >= 1)
  }

  // One step of x, or of y with the two ends exchanged.

  ghost predicate Local(s: Sys, limit: nat) {
    && Ok(s.x.half) && Ok(s.y.half) && Sized(s.xy, limit) && Sized(s.yx, limit)
    && HeadOk(s) && Closes(s) && Closes(Flip(s)) && Flow(s) && Flow(Flip(s))
  }

  lemma LocalFd(s: Sys, e: Event, limit: nat)
    requires Local(s, limit) && EnabledX(s, Fd(e), limit)
    ensures var t := NextX(s, Fd(e), limit);
            && Ok(t.x.half) && Sized(t.xy, limit)
            && Closes(t) && Closes(Flip(t)) && Flow(t) && Flow(Flip(t))
  {
    var f := OnEvent(s.x.half, e);
    OnEventOk(s.x.half, e, limit);
    EventAccount(s.x.half, e, limit);
    CountConcat(s.xy, f.emits);
    Associate(s.x.put, f.put, f.half.queue);
    Associate(s.y.put + s.y.half.queue, Payloads(s.xy), f.sent);
  }

  /** A received packet: the bytes at x, and the bytes still under way to it. */
  lemma ReceiveFlow(s: Sys, w: WriteAnswer, accept: bool, limit: nat)
    requires Local(s, limit) && EnabledX(s, Receive(w, accept), limit)
    ensures Flow(Flip(NextX(s, Receive(w, accept), limit)))
  {
    var p := s.yx[0];
    var f := OnPacket(s.x.half, p, w, accept);
    PacketData(s.x.half, p, w, accept);
    Associate(s.x.put, f.put, f.half.queue);
    if p.WRTE? {
      Associate(s.x.put, s.x.half.queue, p.data);
      Associate(s.x.put + s.x.half.queue, p.data, Payloads(s.yx[1..]));
    } else {
      assert [] + Payloads(s.yx[1..]) == Payloads(s.yx[1..]);
    }
  }

  lemma LocalReceive(s: Sys, w: WriteAnswer, accept: bool, limit: nat)
    requires Local(s, limit) && EnabledX(s, Receive(w, accept), limit)
    ensures var t := NextX(s, Receive(w, accept), limit);
            && Ok(t.x.half) && Sized(t.xy, limit) && Sized(t.yx, limit)
            && Closes(t) && Closes(Flip(t)) && Flow(t) && Flow(Flip(t))
  {
    ReceiveFlow(s, w, accept, limit);
    var p := s.yx[0];
    var f := OnPacket(s.x.half, p, w, accept);
    OnPacketOk(s.x.half, p, w, accept);
    PacketData(s.x.half, p, w, accept);
    CountConcat(s.xy, f.emits);
    assert Payloads(s.xy) + [] == Payloads(s.xy);
    assert s.x.sent + [] == s.x.sent;
  }

  lemma LocalStep(s: Sys, act: Act, limit: nat)
    requires Local(s, limit) && EnabledX(s, act, limit)
    ensures var t := NextX(s, act, limit);
            && Ok(t.x.half) && Sized(t.xy, limit) && Sized(t.yx, limit)
            && Closes(t) && Closes(Flip(t)) && Flow(t) && Flow(Flip(t))
  {
    match act {
      case Fd(e) => LocalFd(s, e, limit);
      case Receive(w, accept) => LocalReceive(s, w, accept, limit);
    }
  }

  lemma HandshakeHeads(s: Sys)
    requires Handshake(s)
    ensures HeadOk(s) && HeadOk(Flip(s))
  {
  }

  lemma HandshakeFdX(s: Sys, e: Event, limit: nat)
    requires Ok(s.x.half) && Handshake(s) && EnabledX(s, Fd(e), limit)
    ensures Handshake(NextX(s, Fd(e), limit))
  {
    EventAccount(s.x.half, e, limit);
    OpenMember(s.xy, OnEvent(s.x.half, e).emits);
  }

  lemma HandshakeReceiveX(s: Sys, w: WriteAnswer, accept: bool, limit: nat)
    requires Ok(s.x.half) && Sized(s.yx, limit) && Handshake(s) && EnabledX(s, Receive(w, accept), limit)
    ensures Handshake(NextX(s, Receive(w, accept), limit))
  {
    PacketData(s.x.half, s.yx[0], w, accept);
    OpenMember(s.xy, OnPacket(s.x.half, s.yx[0], w, accept).emits);
  }

  lemma HandshakeFdY(s: Sys, e: Event, limit: nat)
    requires Ok(s.y.half) && Handshake(s) && EnabledX(Flip(s), Fd(e), limit)
    ensures Handshake(Flip(NextX(Flip(s), Fd(e), limit)))
  {
    EventAccount(s.y.half, e, limit);
    OpenMember(s.yx, OnEvent(s.y.half, e).emits);
  }

  lemma HandshakeReceiveY(s: Sys, w: WriteAnswer, accept: bool, limit: nat)
    requires Ok(s.y.half) && Sized(s.xy, limit) && Handshake(s) && EnabledX(Flip(s), Receive(w, accept), limit)
    ensures Handshake(Flip(NextX(Flip(s), Receive(w, accept), limit)))
  {
    PacketData(s.y.half, s.xy[0], w, accept);
    OpenMember(s.yx, OnPacket(s.y.half, s.xy[0], w, accept).emits);
  }

  lemma OpenMember(a: seq<Pkt>, b: seq<Pkt>)
    ensures OPEN in a + b <==> OPEN in a || OPEN in b
  {
  }

  lemma HandshakeX(s: Sys, act: Act, limit: nat)
    requires Ok(s.x.half) && Sized(s.yx, limit) && Handshake(s) && EnabledX(s, act, limit)
    ensures Handshake(NextX(s, act, limit))
  {
    match act {
      case Fd(e) => HandshakeFdX(s, e, limit);
      case Receive(w, accept) => HandshakeReceiveX(s, w, accept, limit);
    }
  }

  lemma HandshakeY(s: Sys, act: Act, limit: nat)
    requires Ok(s.y.half) && Sized(s.xy, limit) && Handshake(s) && EnabledX(Flip(s), act, limit)
    ensures Handshake(Flip(NextX(Flip(s), act, limit)))
  {
    match act {
      case Fd(e) => HandshakeFdY(s, e, limit);
      case Receive(w, accept) => HandshakeReceiveY(s, w, accept, limit);
    }
  }

  /** x reads bytes of its open stream although it may not send. */
  predicate OverdrawsX(s: Sys, act: Act) {
    act.Fd? && Overdraws(s.x.half, act.e)
  }

  /** A step of x moves the rights to send of either direction. A right appears only when x
      overdraws. One disappears only if x had two: an OKAY comes although x may send, or a WRTE
      comes although bytes wait at x. */
  lemma CreditStep(s: Sys, act: Act, limit: nat)
    requires Ok(s.x.half) && Sized(s.yx, limit) && HeadOk(s) && EnabledX(s, act, limit)
    requires s.x.half.phase.Connecting? || s.x.half.phase.Open?
    requires var h := NextX(s, act, limit).x.half; h.phase == s.x.half.phase || h.phase.Open?
    ensures var t := NextX(s, act, limit);
            && Tokens(t) == Tokens(s) + Bit(OverdrawsX(s, act))
                 - (if act.Receive? && s.yx[0].OKAY? then Bit(s.x.half.read) else 0)
            && Tokens(Flip(t)) == Tokens(Flip(s))
                 - (if act.Receive? && s.yx[0].WRTE? then Bit(s.x.half.write) else 0)
  {
    match act {
      case Fd(e) => CreditFd(s, e, limit);
      case Receive(w, accept) => CreditReceive(s, w, accept, limit);
    }
  }

  lemma CreditFd(s: Sys, e: Event, limit: nat)
    requires Ok(s.x.half) && EnabledX(s, Fd(e), limit)
    requires NextX(s, Fd(e), limit).x.half.phase == s.x.half.phase
    requires s.x.half.phase.Connecting? || s.x.half.phase.Open?
    ensures var t := NextX(s, Fd(e), limit);
            Tokens(t) == Tokens(s) + Bit(Overdraws(s.x.half, e)) && Tokens(Flip(t)) == Tokens(Flip(s))
  {
    EventAccount(s.x.half, e, limit);
    CountConcat(s.xy, OnEvent(s.x.half, e).emits);
  }

  lemma CreditReceive(s: Sys, w: WriteAnswer, accept: bool, limit: nat)
    requires Ok(s.x.half) && Sized(s.yx, limit) && HeadOk(s) && EnabledX(s, Receive(w, accept), limit)
    requires s.x.half.phase.Connecting? || s.x.half.phase.Open?
    requires var h := NextX(s, Receive(w, accept), limit).x.half; h.phase == s.x.half.phase || h.phase.Open?
    ensures var t := NextX(s, Receive(w, accept), limit);
            && Tokens(t) == Tokens(s) - (if s.yx[0].OKAY? then Bit(s.x.half.read) else 0)
            && Tokens(Flip(t)) == Tokens(Flip(s)) - (if s.yx[0].WRTE? then Bit(s.x.half.write) else 0)
  {
    if s.yx[0].OKAY? {
      CreditOkay(s, w, accept, limit);
    } else if s.yx[0].WRTE? {
      CreditWrite(s, w, accept, limit);
    }
  }

  lemma CreditOkay(s: Sys, w: WriteAnswer, accept: bool, limit: nat)
    requires Ok(s.x.half) && EnabledX(s, Receive(w, accept), limit) && s.yx[0].OKAY?
    requires s.x.half.phase.Connecting? || s.x.half.phase.Open?
    ensures var t := NextX(s, Receive(w, accept), limit);
            Tokens(t) == Tokens(s) - Bit(s.x.half.read) && Tokens(Flip(t)) == Tokens(Flip(s))
  {
    assert s.xy + [] == s.xy;
  }

  lemma CreditWrite(s: Sys, w: WriteAnswer, accept: bool, limit: nat)
    requires Ok(s.x.half) && Sized(s.yx, limit) && HeadOk(s) && EnabledX(s, Receive(w, accept), limit) && s.yx[0].WRTE?
    requires s.x.half.phase.Connecting? || s.x.half.phase.Open?
    ensures var t := NextX(s, Receive(w, accept), limit);
            Tokens(t) == Tokens(s) && Tokens(Flip(t)) == Tokens(Flip(s)) - Bit(s.x.half.write)
  {
    var f := OnPacket(s.x.half, s.yx[0], w, accept);
    PacketCredit(s.x.half, s.yx[0], w, accept);
    CountConcat(s.xy, f.emits);
  }

  lemma InvX(s: Sys, act: Act, limit: nat)
    requires Inv(s, limit) && EnabledX(s, act, limit)
    ensures Inv(NextX(s, act, limit), limit)
  {
    HandshakeHeads(s);
    LocalStep(s, act, limit);
    HandshakeX(s, act, limit);
    var t := NextX(s, act, limit);
    if Live(t) {
      PhaseX(s, act, limit);
      CreditStep(s, act, limit);
    }
  }

  lemma PhaseX(s: Sys, act: Act, limit: nat)
    requires Ok(s.x.half) && Sized(s.yx, limit) && EnabledX(s, act, limit) && HeadOk(s)
    requires !s.x.half.phase.Absent?
    ensures var h := NextX(s, act, limit).x.half;
            Over(h) || h.phase == s.x.half.phase || (s.x.half.phase.Connecting? && h.phase.Open?)
  {
    if act.Fd? {
      EventAccount(s.x.half, act.e, limit);
    }
  }

  lemma InvY(s: Sys, act: Act, limit: nat)
    requires Inv(s, limit) && EnabledX(Flip(s), act, limit)
    ensures Inv(Flip(NextX(Flip(s), act, limit)), limit)
  {
    HandshakeHeads(s);
    LocalStep(Flip(s), act, limit);
    HandshakeY(s, act, limit);
    var t := Flip(NextX(Flip(s), act, limit));
    if Live(t) {
      if s.y.half.phase.Absent? {
        Accepted(s, act, limit);
      } else {
        PhaseX(Flip(s), act, limit);
        CreditStep(Flip(s), act, limit);
      }
    }
  }

  /** y accepts: either end may send one WRTE. */
  lemma Accepted(s: Sys, act: Act, limit: nat)
    requires Ok(s.x.half) && Handshake(s) && s.y.half.phase.Absent? && EnabledX(Flip(s), act, limit)
    requires Live(Flip(NextX(Flip(s), act, limit)))
    ensures var t := Flip(NextX(Flip(s), act, limit)); Tokens(t) == 1 && Tokens(Flip(t)) == 1
  {
    var t := Flip(NextX(Flip(s), act, limit));
    assert t.xy == [] && t.yx == [OKAY];
    CountOne(OKAY);
  }

  lemma {:induction false} RunInv(s: Sys, steps: seq<Step>, limit: nat)
    requires Inv(s, limit) && Run(s, steps, limit)
    ensures Inv(After(s, steps, limit), limit)
    decreases |steps|
  {
    if steps == [] {
    } else {
      if steps[0].atX {
        InvX(s, steps[0].act, limit);
      } else {
        InvY(s, steps[0].act, limit);
      }
      RunInv(Next(s, steps[0], limit), steps[1..], limit);
    }
  }

  lemma StartInv(limit: nat)
    ensures Inv(START, limit)
  {
    CountOne(OPEN);
  }

  /** In every run, whatever the descriptors do and whoever closes when: the bytes written at
      either end are a prefix of the bytes the other end sent, and while an end has not left the
      list of open sockets nothing is missing: written, queued and under way make up all that
      was sent. */
  lemma LosslessDelivery(steps: seq<Step>, limit: nat)
    requires Run(START, steps, limit)
    ensures var s := After(START, steps, limit);
            && s.y.put <= s.x.sent && s.x.put <= s.y.sent
            && (!Over(s.y.half) ==> s.y.put + s.y.half.queue + Payloads(s.xy) == s.x.sent)
            && (!Over(s.x.half) ==> s.x.put + s.x.half.queue + Payloads(s.yx) == s.y.sent)
  {
    StartInv(limit);
    RunInv(START, steps, limit);
  }

  /** In every run, while the stream is up, neither direction has lost its right to send: the two
      ends cannot both wait for the other. */
  lemma NeverStuck(steps: seq<Step>, limit: nat)
    requires Run(START, steps, limit)
    ensures var s := After(START, steps, limit);
            && (Live(s) ==> Tokens(s) >= 1 && Tokens(Flip(s)) >= 1)
            && Ok(s.x.half) && Ok(s.y.half)
  {
    StartInv(limit);
    RunInv(START, steps, limit);
  }
}
