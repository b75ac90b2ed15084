/** The end of a stream: if one end is closed, the other gets to know. */
module StreamEnding {
  import opened Bytes
  import opened Stream
  import opened StreamClosing
  import opened TwoEnds

  predicate Waits(h: Half) {
    h.phase.Connecting? || h.phase.Open?
  }

  /** x is closed and y is not: a CLSE is on its way to y, or an OKAY to x, which x will answer with
      one. */
  predicate Told(s: Sys) {
    Over(s.x.half) && Waits(s.y.half) ==> CLSE in s.xy || OKAY in s.yx
  }

  /** An end that connects to one that has accepted will get its OKAY. */
  predicate Answered(s: Sys) {
    s.x.half.phase.Connecting? && Waits(s.y.half) ==> s.y.half.phase.Open? && OKAY in s.yx
  }

  lemma Member(a: seq<Pkt>, b: seq<Pkt>, p: Pkt)
    ensures p in a + b <==> p in a || p in b
  {
  }

  lemma Behind(ch: seq<Pkt>, p: Pkt)
    requires ch != [] && p in ch && ch[0] != p
    ensures p in ch[1..]
  {
    assert ch == [ch[0]] + ch[1..];
  }

  /** An event that closes an open socket sends a CLSE. */
  lemma ClosingEvent(h: Half, e: Event, limit: nat)
    requires Ok(h) && EventPossible(h, e, limit) && Over(OnEvent(h, e).half) && h.phase.Open?
    ensures CLSE in OnEvent(h, e).emits
  {
    EventParts(h, e);
    var h1 := if e.write then FlushIncoming(h, e.w).0 else h;
    Member(if e.data != [] then [WRTE(e.data)] else [], [CLSE], CLSE);
    Member([OKAY], OutgoingEmits(h1, e.data, e.eof), CLSE);
  }

  lemma ToldFd(s: Sys, e: Event, limit: nat)
    requires Ok(s.x.half) && Told(s) && Told(Flip(s)) && Answered(s) && EnabledX(s, Fd(e), limit)
    ensures var t := NextX(s, Fd(e), limit); Told(t) && Told(Flip(t))
  {
    var f := OnEvent(s.x.half, e);
    EventAccount(s.x.half, e, limit);
    if s.x.half.phase.Open? && Over(f.half) {
      ClosingEvent(s.x.half, e, limit);
    }
    Member(s.xy, f.emits, CLSE);
    Member(s.xy, f.emits, OKAY);
  }

  lemma ToldReceive(s: Sys, w: WriteAnswer, accept: bool, limit: nat)
    requires HeadOk(s) && Closes(Flip(s)) && Told(s) && Told(Flip(s)) && EnabledX(s, Receive(w, accept), limit)
    ensures var t := NextX(s, Receive(w, accept), limit); Told(t) && Told(Flip(t))
  {
    var p := s.yx[0];
    var f := OnPacket(s.x.half, p, w, accept);
    Member(s.xy, f.emits, CLSE);
    Member(s.xy, f.emits, OKAY);
    if OKAY in s.yx && p != OKAY {
      Behind(s.yx, OKAY);
    }
    if CLSE in s.yx && p != CLSE {
      Behind(s.yx, CLSE);
    }
  }

  /** What the invariant says, whichever end is the opener. */
  lemma EitherAnswered(s: Sys, limit: nat)
    requires EitherInv(s, limit)
    ensures Answered(s) && Answered(Flip(s)) && HeadOk(s) && HeadOk(Flip(s)) && Closes(s) && Closes(Flip(s))
    ensures Ok(s.x.half) && Ok(s.y.half)
  {
    HandshakeHeads(if Inv(s, limit) then s else Flip(s));
  }

  lemma ToldStep(s: Sys, step: Step, limit: nat)
    requires EitherInv(s, limit) && Told(s) && Told(Flip(s)) && Enabled(s, step, limit)
    ensures Told(Next(s, step, limit)) && Told(Flip(Next(s, step, limit)))
  {
    EitherAnswered(s, limit);
    var t := if step.atX then s else Flip(s);
    match step.act
    case Fd(e) => ToldFd(t, e, limit);
    case Receive(w, accept) => ToldReceive(t, w, accept, limit);
  }

  lemma {:induction false} ToldRun(s: Sys, steps: seq<Step>, limit: nat)
    requires EitherInv(s, limit) && Told(s) && Told(Flip(s)) && Run(s, steps, limit)
    ensures var t := After(s, steps, limit); EitherInv(t, limit) && Told(t) && Told(Flip(t))
    decreases |steps|
  {
    if steps == [] {
    } else {
      EitherInvStep(s, steps[0], limit);
      ToldStep(s, steps[0], limit);
      ToldRun(Next(s, steps[0], limit), steps[1..], limit);
    }
  }

  /** In every run, whoever closes when: as soon as nothing is under way, the stream is closed at both
      ends or at neither, and none still waits for an answer. */
  lemma ClosesTogether(steps: seq<Step>, limit: nat)
    requires Run(START, steps, limit)
    ensures var s := After(START, steps, limit);
            s.xy == [] && s.yx == [] ==>
              (Over(s.x.half) && Over(s.y.half)) || (s.x.half.phase.Open? && s.y.half.phase.Open?)
  {
    StartInv(limit);
    ToldRun(START, steps, limit);
    RunInv(START, steps, limit);
  }
}
