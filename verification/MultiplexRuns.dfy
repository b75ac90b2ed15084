/** Whole runs of the network: what each stream goes through is a run of the two ends of a lone
    stream, so everything that is proved of such runs holds of each of many streams. */
module MultiplexRuns {
  import opened Bytes
  import opened Multiplex
  import opened MultiplexStreams
  import opened Stream
  import opened StreamClosing
  import opened StreamCredit
  import opened StreamEnding
  import opened StreamReading
  import opened TwoEnds

  /** What a move is for the stream that a opened with socket i: one step of it, or none. A packet
      that is not taken is received without any write. */
  ghost function StepsOf(n: Net, move: Move, i: nat, limit: nat): seq<Step>
    requires EnabledMove(n, move, limit) && Opened(n, i)
  {
    match move.action
    case Connect => []
    case OnFd(id, e) =>
      if (if move.atA then id == i else n.b.socks[id].peer == i) then [Step(move.atA, Fd(e))] else []
    case Deliver(w, accept) =>
      if move.atA then
        if n.ba[0].to == i then [Step(true, Receive(if Takes(n.a, n.ba[0]) then w else Again, accept))] else []
      else if n.ab[0].from == i then
        [Step(false, Receive(if n.ab[0].pkt.OPEN? || Takes(n.b, n.ab[0]) then w else Again, accept))]
      else []
  }

  /** The stream takes these steps. */
  ghost predicate Advances(s: Sys, steps: seq<Step>, t: Sys, limit: nat) {
    || (steps == [] && t == s)
    || (|steps| == 1 && Enabled(s, steps[0], limit) && t == Next(s, steps[0], limit))
  }

  lemma StepOfA(n: Net, action: Action, i: nat, limit: nat)
    requires NetOk(n, limit) && EnabledA(n, action, limit) && Opened(n, i)
    ensures var n' := NextA(n, action, limit);
            Opened(n', i) && Advances(View(n, i), StepsOf(n, Move(true, action), i, limit), View(n', i), limit)
  {
    assert StreamOk(n, i, limit);
    match action
    case Connect => OpenerConnect(n, i, limit);
    case OnFd(id, e) => OpenerFd(n, id, e, i, limit);
    case Deliver(w, accept) => DeliveryAtA(n, w, accept, i, limit);
  }

  lemma DeliveryAtA(n: Net, w: WriteAnswer, accept: bool, i: nat, limit: nat)
    requires NetOk(n, limit) && EnabledA(n, Deliver(w, accept), limit) && Opened(n, i)
    ensures var n' := NextA(n, Deliver(w, accept), limit);
            Opened(n', i) && Advances(View(n, i), StepsOf(n, Move(true, Deliver(w, accept)), i, limit), View(n', i), limit)
  {
    assert StreamOk(n, i, limit);
    if n.ba[0].to != i {
      OpenerOther(n, w, accept, i, limit);
    } else if Takes(n.a, n.ba[0]) {
      OpenerTakes(n, w, accept, i, limit);
    } else {
      OpenerRefuses(n, w, accept, i, limit);
    }
  }

  lemma StepOfB(n: Net, action: Action, i: nat, limit: nat)
    requires NetOk(n, limit) && EnabledA(Mirror(n), action, limit) && Opened(n, i)
    ensures var n' := Mirror(NextA(Mirror(n), action, limit));
            Opened(n', i) && Advances(View(n, i), StepsOf(n, Move(false, action), i, limit), View(n', i), limit)
  {
    var m := Mirror(n);
    assert Mirror(m) == n;
    match action
    case Connect => AcceptorConnect(m, i, limit);
    case OnFd(id, e) =>
      if m.a.socks[id].peer == i {
        AcceptorFd(m, id, e, i, limit);
      } else {
        AcceptorFdOther(m, id, e, i, limit);
      }
    case Deliver(w, accept) =>
      if m.ba[0].from != i {
        AcceptorOther(m, w, accept, i, limit);
      } else if m.ba[0].pkt.OPEN? {
        OpenIsNew(m, limit);
        AcceptorOpens(m, w, accept, i, limit);
      } else if Takes(m.a, m.ba[0]) {
        AcceptorTakes(m, w, accept, i, limit);
      } else {
        AcceptorRefuses(m, w, accept, i, limit);
      }
  }

  lemma StepOfMove(n: Net, move: Move, i: nat, limit: nat)
    requires NetOk(n, limit) && EnabledMove(n, move, limit) && Opened(n, i)
    ensures var n' := NextNet(n, move, limit);
            NetOk(n', limit) && Opened(n', i) && Advances(View(n, i), StepsOf(n, move, i, limit), View(n', i), limit)
  {
    NextNetOk(n, move, limit);
    if move.atA {
      StepOfA(n, move.action, i, limit);
    } else {
      StepOfB(n, move.action, i, limit);
    }
  }

  lemma NextNetOk(n: Net, move: Move, limit: nat)
    requires NetOk(n, limit) && EnabledMove(n, move, limit)
    ensures NetOk(NextNet(n, move, limit), limit)
  {
    StepOk(if move.atA then n else Mirror(n), move.action, limit);
  }

  /** All the steps of the stream in a run of the network, from its OPEN on. */
  ghost function Trace(n: Net, moves: seq<Move>, i: nat, limit: nat): seq<Step>
    decreases moves
  {
    if moves == [] || !EnabledMove(n, moves[0], limit) then []
    else
      (if Opened(n, i) then StepsOf(n, moves[0], i, limit) else [])
      + Trace(NextNet(n, moves[0], limit), moves[1..], i, limit)
  }

  lemma RunAfter(s: Sys, first: seq<Step>, t: Sys, more: seq<Step>, limit: nat)
    requires Advances(s, first, t, limit) && Run(t, more, limit)
    ensures Run(s, first + more, limit) && After(s, first + more, limit) == After(t, more, limit)
  {
    if first == [] {
      assert first + more == more;
    } else {
      assert first == [first[0]];
      RunOne(s, first[0], more, limit);
    }
  }

  lemma {:induction false} TraceRuns(n: Net, moves: seq<Move>, end: Net, i: nat, limit: nat)
    requires NetOk(n, limit) && Opened(n, i) && Moves(n, moves, end, limit)
    ensures Opened(end, i)
    ensures Run(View(n, i), Trace(n, moves, i, limit), limit)
    ensures After(View(n, i), Trace(n, moves, i, limit), limit) == View(end, i)
    decreases moves
  {
    if moves == [] {
    } else {
      var n' := NextNet(n, moves[0], limit);
      StepOfMove(n, moves[0], i, limit);
      TraceRuns(n', moves[1..], end, i, limit);
      RunAfter(View(n, i), StepsOf(n, moves[0], i, limit), View(n', i), Trace(n', moves[1..], i, limit), limit);
    }
  }

  lemma OpensAt(n: Net, move: Move, i: nat, limit: nat)
    requires NetOk(n, limit) && EnabledMove(n, move, limit) && !Opened(n, i) && Opened(NextNet(n, move, limit), i)
    ensures View(NextNet(n, move, limit), i) == START
  {
    if move.atA {
      OnlyConnectOpens(n, move.action, i, limit);
      NewStream(n, limit);
    }
  }

  lemma {:induction false} TraceFromOpen(n: Net, moves: seq<Move>, end: Net, i: nat, limit: nat)
    requires NetOk(n, limit) && !Opened(n, i) && Moves(n, moves, end, limit) && Opened(end, i)
    ensures Run(START, Trace(n, moves, i, limit), limit)
    ensures After(START, Trace(n, moves, i, limit), limit) == View(end, i)
    decreases moves
  {
    var n' := NextNet(n, moves[0], limit);
    NextNetOk(n, moves[0], limit);
    assert [] + Trace(n', moves[1..], i, limit) == Trace(n', moves[1..], i, limit);
    if Opened(n', i) {
      OpensAt(n, moves[0], i, limit);
      TraceRuns(n', moves[1..], end, i, limit);
    } else {
      TraceFromOpen(n', moves[1..], end, i, limit);
    }
  }

  // Either end's streams.

  function MirrorAll(moves: seq<Move>): (r: seq<Move>)
    ensures |r| == |moves|
  {
    if moves == [] then [] else [Move(!moves[0].atA, moves[0].action)] + MirrorAll(moves[1..])
  }

  lemma {:induction false} MirrorMoves(n: Net, moves: seq<Move>, end: Net, limit: nat)
    requires Moves(n, moves, end, limit)
    ensures Moves(Mirror(n), MirrorAll(moves), Mirror(end), limit)
    decreases moves
  {
    if moves == [] {
    } else {
      MirrorMoves(NextNet(n, moves[0], limit), moves[1..], end, limit);
      assert MirrorAll(moves)[1..] == MirrorAll(moves[1..]);
      assert Mirror(Mirror(n)) == n;
    }
  }

  /** The network as the end sees it that opened the stream. */
  function Seen(n: Net, byA: bool): Net {
    if byA then n else Mirror(n)
  }

  ghost function TraceOf(moves: seq<Move>, byA: bool, i: nat, limit: nat): seq<Step> {
    Trace(EMPTY, if byA then moves else MirrorAll(moves), i, limit)
  }

  /** In every run of the network, whichever end opens streams and however many: what each stream goes
      through, with its own events and answers, is a run of a lone stream, and takes it where it is. */
  lemma EachStreamRuns(moves: seq<Move>, end: Net, byA: bool, i: nat, limit: nat)
    requires Moves(EMPTY, moves, end, limit) && Opened(Seen(end, byA), i)
    ensures Run(START, TraceOf(moves, byA, i, limit), limit)
    ensures After(START, TraceOf(moves, byA, i, limit), limit) == View(Seen(end, byA), i)
  {
    MirrorMoves(EMPTY, moves, end, limit);
    assert NetOk(EMPTY, limit);
    TraceFromOpen(EMPTY, if byA then moves else MirrorAll(moves), Seen(end, byA), i, limit);
  }

  /** So the bytes of each stream arrive at its own other end, in order and without loss, and it is
      never stuck. */
  lemma EachStreamIsLossless(moves: seq<Move>, end: Net, byA: bool, i: nat, limit: nat)
    requires Moves(EMPTY, moves, end, limit) && Opened(Seen(end, byA), i)
    ensures var s := View(Seen(end, byA), i);
            && s.y.put <= s.x.sent && s.x.put <= s.y.sent
            && (!Over(s.y.half) ==> s.y.put + s.y.half.queue + Payloads(s.xy) == s.x.sent)
            && (!Over(s.x.half) ==> s.x.put + s.x.half.queue + Payloads(s.yx) == s.y.sent)
            && (Live(s) ==> Tokens(s) >= 1 && Tokens(Flip(s)) >= 1)
  {
    EachStreamRuns(moves, end, byA, i, limit);
    LosslessDelivery(TraceOf(moves, byA, i, limit), limit);
    NeverStuck(TraceOf(moves, byA, i, limit), limit);
  }

  /** Each of its ends has sent what it read, if and only if it dropped nothing. */
  lemma EachStreamSendsWhatItReads(moves: seq<Move>, end: Net, byA: bool, i: nat, limit: nat, atX: bool)
    requires Moves(EMPTY, moves, end, limit) && Opened(Seen(end, byA), i)
    ensures Run(START, TraceOf(moves, byA, i, limit), limit)
    ensures var e := EndOf(View(Seen(end, byA), i), atX);
            e.sent == e.got <==> NoDrop(START, TraceOf(moves, byA, i, limit), limit, atX)
  {
    EachStreamRuns(moves, end, byA, i, limit);
    SentIsRead(TraceOf(moves, byA, i, limit), limit, atX);
  }

  /** Each of its directions has exactly one right to send, all along, if and only if no read event of
      the stream came without one. */
  lemma EachStreamConservesCredit(moves: seq<Move>, end: Net, byA: bool, i: nat, limit: nat)
    requires Moves(EMPTY, moves, end, limit) && Opened(Seen(end, byA), i)
    ensures Run(START, TraceOf(moves, byA, i, limit), limit)
    ensures ConservedAlong(START, TraceOf(moves, byA, i, limit), limit)
       <==> NoOverdraft(START, TraceOf(moves, byA, i, limit), limit)
  {
    EachStreamRuns(moves, end, byA, i, limit);
    CreditConservation(TraceOf(moves, byA, i, limit), limit);
  }

  /** With none of its packets under way, it is closed at both ends or open at both. */
  lemma EachStreamClosesTogether(moves: seq<Move>, end: Net, byA: bool, i: nat, limit: nat)
    requires Moves(EMPTY, moves, end, limit) && Opened(Seen(end, byA), i)
    ensures var s := View(Seen(end, byA), i);
            s.xy == [] && s.yx == [] ==>
              (Over(s.x.half) && Over(s.y.half)) || (s.x.half.phase.Open? && s.y.half.phase.Open?)
  {
    EachStreamRuns(moves, end, byA, i, limit);
    ClosesTogether(TraceOf(moves, byA, i, limit), limit);
  }

  function FlipAll(steps: seq<Step>): (r: seq<Step>)
    ensures |r| == |steps|
  {
    if steps == [] then [] else [Step(!steps[0].atX, steps[0].act)] + FlipAll(steps[1..])
  }

  lemma {:induction false} FlipRun(s: Sys, steps: seq<Step>, limit: nat)
    requires Run(s, steps, limit)
    ensures Run(Flip(s), FlipAll(steps), limit)
    ensures After(Flip(s), FlipAll(steps), limit) == Flip(After(s, steps, limit))
    decreases steps
  {
    if steps == [] {
    } else {
      FlipRun(Next(s, steps[0], limit), steps[1..], limit);
      assert FlipAll(steps)[1..] == FlipAll(steps[1..]);
      assert Flip(Flip(s)) == s;
    }
  }

  /** The steps with the sender as x. */
  ghost function SenderTrace(moves: seq<Move>, byA: bool, i: nat, limit: nat, openerSends: bool): seq<Step> {
    if openerSends then TraceOf(moves, byA, i, limit) else FlipAll(TraceOf(moves, byA, i, limit))
  }

  /** Either end of each stream closes whenever it likes: if the other meets no write error and does
      not close first, then once it is destroyed it has written every byte sent, if and only if it met
      no end of the file while on the closing list. */
  lemma EachStreamClosesGracefully(moves: seq<Move>, end: Net, byA: bool, i: nat, limit: nat, openerSends: bool)
    requires Moves(EMPTY, moves, end, limit) && Opened(Seen(end, byA), i)
    ensures var (start, steps) := (if openerSends then START else Flip(START), SenderTrace(moves, byA, i, limit, openerSends));
            var s := if openerSends then View(Seen(end, byA), i) else Flip(View(Seen(end, byA), i));
            && Run(start, steps, limit) && After(start, steps, limit) == s
            && (PoliteRun(start, steps, limit) && s.y.half.phase.Gone? ==>
                  (s.y.put == s.x.sent <==> NoLoss(start, steps, limit)))
  {
    var steps := TraceOf(moves, byA, i, limit);
    EachStreamRuns(moves, end, byA, i, limit);
    FlipRun(START, steps, limit);
    var start := if openerSends then START else Flip(START);
    var sent := SenderTrace(moves, byA, i, limit, openerSends);
    if PoliteRun(start, sent, limit) {
      GracefulClose(start, sent, limit);
    }
  }
}
