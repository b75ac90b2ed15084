/** Two local sockets that are each other's peers, as a client and a service of the same daemon are
    (adb/sockets.cpp): what holds in every run of such a pair. */
module LocalPairs {
  import opened Bytes
  import opened Sockets
  import opened Stream

  /** A socket, with the bytes that were read at it and handed to the other, and those written to its
      file descriptor. */
  datatype Mate = Mate(half: Half, sent: seq<Byte>, put: seq<Byte>)

  datatype Pair = Pair(x: Mate, y: Mate)

  /** An event at x or at y, and what the descriptor of the other answers. */
  datatype Step = Step(atX: bool, e: Event, w: WriteAnswer)

  const JOINED := Mate(Half(Open, [], true, false, false), [], [])

  /** As smart_socket_enqueue joins them: both are read. */
  const START := Pair(JOINED, JOINED)

  function Flip(s: Pair): Pair {
    Pair(s.y, s.x)
  }

  predicate EnabledX(s: Pair, e: Event, w: WriteAnswer, limit: nat) {
    && Deliverable(s.x.half, e, limit) && (s.x.half.phase.Open? || s.x.half.phase.Closing?)
    && (s.x.half.phase.Open? ==> Possible(s.y.half.queue + e.data, w))
    && (s.x.half.phase.Closing? ==> EventPossible(s.x.half, e, limit))
  }

  /** An open socket gives what it reads to its peer; one that is closing has none any more. */
  function NextX(s: Pair, e: Event, w: WriteAnswer, limit: nat): Pair
    requires EnabledX(s, e, w, limit)
  {
    var put := if e.write then Put(s.x.half.queue, e.w) else [];
    if s.x.half.phase.Closing? then Pair(Mate(OnEvent(s.x.half, e).half, s.x.sent, s.x.put + put), s.y)
    else
      var (x, y) := PairEvents(s.x.half, s.y.half, e, w);
      Pair(Mate(x, s.x.sent + e.data, s.x.put + put),
           Mate(y, s.y.sent, s.y.put + if e.data == [] then [] else Put(s.y.half.queue + e.data, w)))
  }

  predicate Enabled(s: Pair, step: Step, limit: nat) {
    EnabledX(if step.atX then s else Flip(s), step.e, step.w, limit)
  }

  function Next(s: Pair, step: Step, limit: nat): Pair
    requires Enabled(s, step, limit)
  {
    if step.atX then NextX(s, step.e, step.w, limit) else Flip(NextX(Flip(s), step.e, step.w, limit))
  }

  ghost predicate Run(s: Pair, steps: seq<Step>, limit: nat)
    decreases |steps|
  {
    steps == [] || (Enabled(s, steps[0], limit) && Run(Next(s, steps[0], limit), steps[1..], limit))
  }

  ghost function After(s: Pair, steps: seq<Step>, limit: nat): Pair
    requires Run(s, steps, limit)
    decreases |steps|
  {
    if steps == [] then s else After(Next(s, steps[0], limit), steps[1..], limit)
  }

  // Bytes.

  predicate Settled(h: Half) {
    Ok(h) && !h.phase.Absent? && !h.phase.Connecting?
  }

  /** What x was read is written or queued at y, and the other way round; they open and close
      together. */
  ghost predicate Inv(s: Pair) {
    && Settled(s.x.half) && Settled(s.y.half) && (s.x.half.phase.Open? <==> s.y.half.phase.Open?)
    && s.y.put + s.y.half.queue == s.x.sent && s.x.put + s.x.half.queue == s.y.sent
  }

  lemma Regroup(a: seq<Byte>, b: seq<Byte>, c: seq<Byte>, d: seq<Byte>)
    requires b + c == d
    ensures (a + b) + c == a + d
  {
  }

  lemma InvX(s: Pair, e: Event, w: WriteAnswer, limit: nat)
    requires Inv(s) && EnabledX(s, e, w, limit)
    ensures Inv(NextX(s, e, w, limit))
  {
    if s.x.half.phase.Closing? {
      ClosingX(s, e, w, limit);
    } else {
      OpenX(s, e, w, limit);
    }
  }

  lemma ClosingX(s: Pair, e: Event, w: WriteAnswer, limit: nat)
    requires Inv(s) && EnabledX(s, e, w, limit) && s.x.half.phase.Closing?
    ensures Inv(NextX(s, e, w, limit))
  {
    OnEventOk(s.x.half, e, limit);
    EventAccount(s.x.half, e, limit);
    var put := if e.write then Put(s.x.half.queue, e.w) else [];
    assert OnEvent(s.x.half, e).put == put;
    Regroup(s.x.put, put, OnEvent(s.x.half, e).half.queue, s.x.half.queue);
  }

  lemma OpenX(s: Pair, e: Event, w: WriteAnswer, limit: nat)
    requires Inv(s) && EnabledX(s, e, w, limit) && s.x.half.phase.Open?
    ensures Inv(NextX(s, e, w, limit))
  {
    var (x, y) := PairEvents(s.x.half, s.y.half, e, w);
    PairAccount(s.x.half, s.y.half, e, w, limit);
    Regroup(s.x.put, if e.write then Put(s.x.half.queue, e.w) else [], x.queue, s.x.half.queue);
    Regroup(s.y.put, if e.data == [] then [] else Put(s.y.half.queue + e.data, w), y.queue, s.y.half.queue + e.data);
    assert s.y.put + (s.y.half.queue + e.data) == s.x.sent + e.data;
  }

  lemma {:induction false} RunInv(s: Pair, steps: seq<Step>, limit: nat)
    requires Inv(s) && Run(s, steps, limit)
    ensures Inv(After(s, steps, limit))
    decreases |steps|
  {
    if steps == [] {
    } else {
      InvX(if steps[0].atX then s else Flip(s), steps[0].e, steps[0].w, limit);
      RunInv(Next(s, steps[0], limit), steps[1..], limit);
    }
  }

  /** In every run, whatever blocks, fails or ends when: what was written at one socket, and what still
      waits there, is exactly what was read at the other while they were peers. */
  lemma PairIsLossless(steps: seq<Step>, limit: nat)
    requires Run(START, steps, limit)
    ensures var s := After(START, steps, limit);
            s.y.put + s.y.half.queue == s.x.sent && s.x.put + s.x.half.queue == s.y.sent
  {
    RunInv(START, steps, limit);
  }

  // The right to send.

  /** While they are peers, one socket is read exactly if nothing waits to be written at the other. */
  predicate Balanced(s: Pair) {
    s.x.half.phase.Open? && s.y.half.phase.Open? ==>
      (s.x.half.read <==> !s.y.half.write) && (s.y.half.read <==> !s.x.half.write)
  }

  /** x is read although FDE_READ is off, as on a hang-up, and y can write all of it, or fails; or an
      FDE_WRITE that is not asked for any more finds what an earlier failure left, and cannot write
      it all. */
  predicate UpsetsX(s: Pair, e: Event, w: WriteAnswer) {
    s.x.half.phase.Open? && !e.eof &&
    (|| (e.data != [] && !s.x.half.read && (w.Failed? || w == Wrote(|s.y.half.queue + e.data|)))
     || (e.write && !s.x.half.write && s.x.half.queue != [] && (e.w.Again? || (e.w.Wrote? && e.w.n < |s.x.half.queue|))))
  }

  predicate Upsets(s: Pair, step: Step) {
    UpsetsX(if step.atX then s else Flip(s), step.e, step.w)
  }

  /** The writing half of an event moves the right to send of the other socket, and nothing else. */
  lemma WriteTurn(h: Half, p: Half, w: WriteAnswer)
    requires Ok(h) && h.phase.Open? && Possible(h.queue, w) && (p.read <==> !h.write)
    ensures var (h1, p1) := PairWrites(h, p, w);
            && h1.read == h.read && h1.phase.Open? && p1 == p.(read := p1.read)
            && ((p1.read <==> !h1.write) <==>
                  !(!h.write && h.queue != [] && (w.Again? || (w.Wrote? && w.n < |h.queue|))))
  {
  }

  /** The reading half moves the right of the socket itself. */
  lemma ReadTurn(h: Half, p: Half, data: seq<Byte>, w: WriteAnswer)
    requires Ok(p) && p.phase.Open? && Possible(p.queue + data, w) && (h.read <==> !p.write)
    ensures var (h1, p1) := PairReads(h, p, data, false, w);
            && h1 == h.(read := h1.read) && p1.read == p.read && p1.phase.Open?
            && ((h1.read <==> !p1.write) <==>
                  !(data != [] && !h.read && (w.Failed? || w == Wrote(|p.queue + data|))))
  {
  }

  lemma BalancedX(s: Pair, e: Event, w: WriteAnswer, limit: nat)
    requires Inv(s) && Balanced(s) && EnabledX(s, e, w, limit)
    ensures Balanced(NextX(s, e, w, limit)) <==> !UpsetsX(s, e, w)
  {
    if s.x.half.phase.Open? {
      if e.eof {
        PairAccount(s.x.half, s.y.half, e, w, limit);
      } else {
        EventTurn(s.x.half, s.y.half, e, w);
      }
    }
  }

  /** Both halves of an event. */
  lemma EventTurn(h: Half, p: Half, e: Event, w: WriteAnswer)
    requires Ok(h) && Ok(p) && h.phase.Open? && p.phase.Open? && (h.read <==> !p.write) && (p.read <==> !h.write)
    requires (e.write ==> Possible(h.queue, e.w)) && Possible(p.queue + e.data, w) && !e.eof
    ensures var (h', p') := PairEvents(h, p, e, w);
            && h'.phase.Open? && p'.phase.Open?
            && ((h'.read <==> !p'.write) <==>
                  !(e.data != [] && !h.read && (w.Failed? || w == Wrote(|p.queue + e.data|))))
            && ((p'.read <==> !h'.write) <==>
                  !(e.write && !h.write && h.queue != [] && (e.w.Again? || (e.w.Wrote? && e.w.n < |h.queue|))))
  {
    if e.write {
      WriteTurn(h, p, e.w);
      var (h1, p1) := PairWrites(h, p, e.w);
      ReadTurn(h1, p1, e.data, w);
    } else {
      ReadTurn(h, p, e.data, w);
    }
  }

  ghost predicate BalancedAlong(s: Pair, steps: seq<Step>, limit: nat)
    requires Run(s, steps, limit)
    decreases |steps|
  {
    Balanced(s) && (steps == [] || BalancedAlong(Next(s, steps[0], limit), steps[1..], limit))
  }

  ghost predicate NoUpset(s: Pair, steps: seq<Step>, limit: nat)
    requires Run(s, steps, limit)
    decreases |steps|
  {
    steps == [] || (!Upsets(s, steps[0]) && NoUpset(Next(s, steps[0], limit), steps[1..], limit))
  }

  lemma {:induction false} BalancedRun(s: Pair, steps: seq<Step>, limit: nat)
    requires Inv(s) && Balanced(s) && Run(s, steps, limit)
    ensures BalancedAlong(s, steps, limit) <==> NoUpset(s, steps, limit)
    decreases |steps|
  {
    if steps == [] {
    } else {
      var t := if steps[0].atX then s else Flip(s);
      InvX(t, steps[0].e, steps[0].w, limit);
      BalancedX(t, steps[0].e, steps[0].w, limit);
      if Balanced(Next(s, steps[0], limit)) {
        BalancedRun(Next(s, steps[0], limit), steps[1..], limit);
      }
    }
  }

  /** In every run: at every moment each socket is read exactly if nothing waits at the other, if and
      only if no event of the run upsets that. */
  lemma PairTakesTurns(steps: seq<Step>, limit: nat)
    requires Run(START, steps, limit)
    ensures BalancedAlong(START, steps, limit) <==> NoUpset(START, steps, limit)
  {
    BalancedRun(START, steps, limit);
  }

  /** x reads a byte that y cannot write yet, and is hung up on with a full payload left, which y writes
      with the byte: x is not read any more, and nothing waits at y that would change that. */
  lemma PairFallsSilent(limit: nat) returns (steps: seq<Step>)
    requires limit >= 1
    ensures Run(START, steps, limit)
    ensures var s := After(START, steps, limit);
            s.x.half.phase.Open? && s.y.half.phase.Open? && !s.x.half.read && !s.y.half.write && s.y.half.queue == []
  {
    var full: seq<Byte> := seq(limit, _ => 7);
    var blocked := Step(true, Event(false, true, Again, [7], false), Again);
    var hangUp := Step(true, Event(false, true, Again, full, false), Wrote(limit + 1));
    var s1 := Next(START, blocked, limit);
    assert [] + [7 as Byte] == [7];
    assert s1.x.half == Half(Open, [], false, false, false) && s1.y.half == Half(Open, [7], true, true, false);
    var s2 := Next(s1, hangUp, limit);
    assert ([7] + full)[limit + 1..] == [];
    steps := [blocked, hangUp];
    assert steps[1..] == [hangUp] && [hangUp][1..] == [];
    assert Run(s1, [hangUp], limit) && After(s1, [hangUp], limit) == s2;
  }

  // The objects.

  /** Two sockets of a table are where the pair is. */
  ghost predicate Shows(table: SocketTable, x: Socket, y: Socket, s: Pair)
    reads table, table.live, x, y
  {
    && table.Valid() && x != y && x.kind.Local? && y.kind.Local?
    && table.HalfOf(x) == s.x.half && table.HalfOf(y) == s.y.half
    && (s.x.half.phase.Open? ==> x.peer == y) && (s.y.half.phase.Open? ==> y.peer == x)
  }

  /** An event at x, on the objects. */
  method EventAt(table: SocketTable, x: Socket, y: Socket, ghost s: Pair, e: Event, w: WriteAnswer, limit: nat)
    requires Inv(s) && Shows(table, x, y, s) && EnabledX(s, e, w, limit)
    modifies table, x, y
    ensures Shows(table, x, y, NextX(s, e, w, limit)) && table.live <= old(table.live)
  {
    assert x in table.live && table.Linked(x);
    assert y in table.live ==> table.Linked(y);
    InvX(s, e, w, limit);
    if x.closing {
      table.StreamEvent(x, e, limit);
    } else {
      table.PairEvent(x, y, e, w, limit);
      assert x in table.live ==> table.Linked(x);
      assert y in table.live ==> table.Linked(y);
    }
  }

  /** The objects go through any run of a pair, and end where it ends. */
  method Drive(table: SocketTable, x: Socket, y: Socket, ghost s: Pair, steps: seq<Step>, limit: nat)
    requires Inv(s) && Shows(table, x, y, s) && Run(s, steps, limit)
    modifies table, x, y
    ensures Shows(table, x, y, After(s, steps, limit))
    decreases |steps|
  {
    if steps == [] {
      return;
    }
    InvX(if steps[0].atX then s else Flip(s), steps[0].e, steps[0].w, limit);
    if steps[0].atX {
      EventAt(table, x, y, s, steps[0].e, steps[0].w, limit);
    } else {
      EventAt(table, y, x, Flip(s), steps[0].e, steps[0].w, limit);
    }
    Drive(table, x, y, Next(s, steps[0], limit), steps[1..], limit);
  }
}
