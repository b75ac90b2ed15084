/** What an end reads from its descriptor, and what of it is sent. */
module StreamReading {
  import opened Bytes
  import opened Stream
  import opened TwoEnds

  function EndOf(s: Sys, atX: bool): End {
    if atX then s.x else s.y
  }

  /** The end reads bytes although it has no peer: its stream is not open yet, or not any more. A
      socket that is destroyed by the writing half of the event is not read. */
  predicate Drops(s: Sys, step: Step, limit: nat, atX: bool)
    requires Enabled(s, step, limit)
  {
    && step.atX == atX && step.act.Fd?
    && !EndOf(s, atX).half.phase.Open? && OnEvent(EndOf(s, atX).half, step.act.e).got != []
  }

  ghost predicate NoDrop(s: Sys, steps: seq<Step>, limit: nat, atX: bool)
    requires Run(s, steps, limit)
    decreases |steps|
  {
    steps == [] || (!Drops(s, steps[0], limit, atX) && NoDrop(Next(s, steps[0], limit), steps[1..], limit, atX))
  }

  lemma EventReads(h: Half, e: Event, limit: nat)
    requires EventPossible(h, e, limit)
    ensures var f := OnEvent(h, e); f.sent == if h.phase.Open? then f.got else []
  {
  }

  lemma PacketReads(h: Half, p: Pkt, w: WriteAnswer, accept: bool)
    requires p.WRTE? ==> Possible(h.queue + p.data, w)
    ensures OnPacket(h, p, w, accept).sent == [] && OnPacket(h, p, w, accept).got == []
  {
  }

  /** All was sent, or some is missing for good. */
  predicate Behind(e: End) {
    e.sent == e.got || |e.sent| < |e.got|
  }

  lemma ReadStepX(s: Sys, act: Act, limit: nat)
    requires EnabledX(s, act, limit) && Behind(s.x)
    ensures var t := NextX(s, act, limit).x;
            Behind(t) && (t.sent == t.got <==> s.x.sent == s.x.got && !Drops(s, Step(true, act), limit, true))
  {
    match act {
      case Fd(e) => EventReads(s.x.half, e, limit);
      case Receive(w, accept) => PacketReads(s.x.half, s.yx[0], w, accept);
    }
    var f := EffectX(s, act, limit);
    assert |f.sent| <= |f.got|;
  }

  lemma ReadStep(s: Sys, step: Step, limit: nat, atX: bool)
    requires Enabled(s, step, limit) && Behind(EndOf(s, atX))
    ensures var t := EndOf(Next(s, step, limit), atX);
            Behind(t) && (t.sent == t.got <==> EndOf(s, atX).sent == EndOf(s, atX).got && !Drops(s, step, limit, atX))
  {
    if step.atX == atX {
      ReadStepX(if atX then s else Flip(s), step.act, limit);
    }
  }

  lemma {:induction false} ReadRun(s: Sys, steps: seq<Step>, limit: nat, atX: bool)
    requires Run(s, steps, limit) && Behind(EndOf(s, atX))
    ensures var e := EndOf(After(s, steps, limit), atX);
            e.sent == e.got <==> EndOf(s, atX).sent == EndOf(s, atX).got && NoDrop(s, steps, limit, atX)
    decreases |steps|
  {
    if steps == [] {
    } else {
      ReadStep(s, steps[0], limit, atX);
      ReadRun(Next(s, steps[0], limit), steps[1..], limit, atX);
    }
  }

  /** In every run, either end has sent exactly the bytes that it read, if and only if no read event
      brought it bytes while its stream was not open. */
  lemma SentIsRead(steps: seq<Step>, limit: nat, atX: bool)
    requires Run(START, steps, limit)
    ensures var e := EndOf(After(START, steps, limit), atX);
            e.sent == e.got <==> NoDrop(START, steps, limit, atX)
  {
    ReadRun(START, steps, limit, atX);
  }

  /** From descriptor to descriptor: if an end drops nothing, what the other wrote is a prefix of what
      it read, and until the other leaves the list nothing is missing. */
  lemma ReadIsDelivered(steps: seq<Step>, limit: nat)
    requires Run(START, steps, limit)
    ensures var s := After(START, steps, limit);
            && (NoDrop(START, steps, limit, true) ==>
                  s.y.put <= s.x.got && (!Over(s.y.half) ==> s.y.put + s.y.half.queue + Payloads(s.xy) == s.x.got))
            && (NoDrop(START, steps, limit, false) ==>
                  s.x.put <= s.y.got && (!Over(s.x.half) ==> s.x.put + s.x.half.queue + Payloads(s.yx) == s.y.got))
  {
    LosslessDelivery(steps, limit);
    SentIsRead(steps, limit, true);
    SentIsRead(steps, limit, false);
  }

  /** The condition is needed: a client writes a byte and hangs up before the first OKAY. */
  lemma DropHappens(limit: nat) returns (steps: seq<Step>)
    requires limit >= 2
    ensures Run(START, steps, limit)
    ensures var s := After(START, steps, limit); s.x.got == [7] && s.x.sent == [] && s.x.half.phase.Gone?
  {
    var step := Step(true, Fd(Event(false, true, Again, [7], true)));
    steps := [step];
    assert steps[1..] == [];
    assert Enabled(START, step, limit);
    assert Run(Next(START, step, limit), steps[1..], limit);
  }
}
