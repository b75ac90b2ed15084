/** Two tables of socket objects and two channels, through any run of the network: after it, each
    table represents its side, so what is proved of the network holds of the objects. */
module DaemonRuns {
  import opened Bytes
  import opened Daemon
  import opened Multiplex
  import opened MultiplexIds
  import opened MultiplexRuns
  import opened MultiplexStreams
  import opened Sockets
  import opened Stream

  /** What was given to send_packet, as the network has it. */
  function Stripped(ch: seq<Sent>): (r: seq<Msg>)
    ensures |r| == |ch|
    ensures forall i :: 0 <= i < |ch| ==> r[i] == Msg(ch[i].pkt, ch[i].arg0, ch[i].arg1)
  {
    seq(|ch|, i requires 0 <= i < |ch| => Msg(ch[i].pkt, ch[i].arg0, ch[i].arg1))
  }

  lemma StrippedConcat(a: seq<Sent>, b: seq<Sent>)
    ensures Stripped(a + b) == Stripped(a) + Stripped(b)
  {
  }

  lemma {:induction false} StrippedTag(t: nat, from: nat, to: nat, pkts: seq<Pkt>)
    ensures Stripped(Tag(t, from, to, pkts)) == Address(pkts, from, to)
  {
    if pkts == [] {
    } else {
      StrippedTag(t, from, to, pkts[1..]);
      StrippedConcat([Sent(t, pkts[0], from, to)], Tag(t, from, to, pkts[1..]));
    }
  }

  /** The socket whose descriptor has the event. */
  method SocketOf(table: SocketTable, ghost t: nat, ghost a: Side, id: nat) returns (s: Socket)
    requires Represents(table, t, a) && id in a.socks && !a.socks[id].end.half.phase.Gone?
    ensures s in table.live && s.kind.Local? && s.id == id
  {
    assert Present(table, id);
    assert table.byId[id] in table.locals + table.closings;
    s :| s in table.locals + table.closings && s.id == id;
  }

  /** One daemon takes the step of its side: what it takes off the channel to it, and what it puts on
      the channel to the other, is as in the network. */
  method TakeStep(table: SocketTable, t: nat, ghost n: Net, action: Action, inbox: seq<Sent>, limit: nat)
    returns (rest: seq<Sent>, out: seq<Sent>)
    requires Represents(table, t, n.a) && EnabledA(n, action, limit) && Stripped(inbox) == n.ba
    requires NextA(n, action, limit).a.next < WORD
    modifies table, table.live
    ensures var n' := NextA(n, action, limit);
            Represents(table, t, n'.a) && Stripped(rest) == n'.ba && n.ab + Stripped(out) == n'.ab && n'.b == n.b
    ensures fresh(table.live - old(table.live))
  {
    rest := inbox;
    ghost var pkts, from, to := [], 0, 0;
    var sent := |table.wire|;
    match action {
      case Connect =>
        pkts, from := [OPEN], n.a.next;
        Daemon.Connect(table, t, n, limit);
        TagOne(t, from, to, OPEN);
      case OnFd(id, e) =>
        pkts, from, to := OnEvent(n.a.socks[id].end.half, e).emits, id, n.a.socks[id].peer;
        var s := SocketOf(table, t, n.a, id);
        OnEventOf(table, t, n, s, e, limit);
      case Deliver(w, accept) =>
        ghost var o := OnMsg(n.a, n.ba[0], w, accept);
        pkts, from, to := o.pkts, o.from, o.to;
        var m := Msg(inbox[0].pkt, inbox[0].arg0, inbox[0].arg1);
        HandlePacket(table, t, n.a, m, w, accept);
        rest := inbox[1..];
    }
    out := table.wire[sent..];
    assert out == Tag(t, from, to, pkts);
    StrippedTag(t, from, to, pkts);
  }

  /** Two daemons share no object. */
  ghost predicate Separate(a: SocketTable, b: SocketTable)
    reads a, b
  {
    a != b && a.live !! b.live
  }

  /** Both daemons and both channels are as the network has them. */
  ghost predicate Stands(a: SocketTable, t: nat, b: SocketTable, u: nat, ab: seq<Sent>, ba: seq<Sent>, n: Net)
    reads a, a.live, set s | s in a.live && s.peer != null :: s.peer
    reads b, b.live, set s | s in b.live && s.peer != null :: s.peer
  {
    && Represents(a, t, n.a) && Represents(b, u, n.b) && Separate(a, b)
    && Stripped(ab) == n.ab && Stripped(ba) == n.ba
  }

  /** A step of a leaves b alone. */
  method StepOfOne(a: SocketTable, t: nat, b: SocketTable, u: nat, ghost n: Net, action: Action, ab: seq<Sent>, ba: seq<Sent>, limit: nat)
    returns (ab': seq<Sent>, ba': seq<Sent>)
    requires Stands(a, t, b, u, ab, ba, n) && EnabledA(n, action, limit) && NextA(n, action, limit).a.next < WORD
    modifies a, a.live
    ensures Stands(a, t, b, u, ab', ba', NextA(n, action, limit))
    ensures fresh(a.live - old(a.live)) && b.live == old(b.live)
  {
    assert forall s :: s in b.live && s.peer != null ==> b.Linked(s) && s.peer in b.live;
    var rest, out := TakeStep(a, t, n, action, ba, limit);
    StrippedConcat(ab, out);
    ab', ba' := ab + out, rest;
  }

  /** A move of either daemon. */
  method StepOfEither(a: SocketTable, t: nat, b: SocketTable, u: nat, ghost n: Net, move: Move, ab: seq<Sent>, ba: seq<Sent>, limit: nat)
    returns (ab': seq<Sent>, ba': seq<Sent>)
    requires Stands(a, t, b, u, ab, ba, n) && EnabledMove(n, move, limit)
    requires NextNet(n, move, limit).a.next < WORD && NextNet(n, move, limit).b.next < WORD
    modifies a, a.live, b, b.live
    ensures Stands(a, t, b, u, ab', ba', NextNet(n, move, limit))
    ensures fresh(a.live - old(a.live)) && fresh(b.live - old(b.live))
  {
    if move.atA {
      ab', ba' := StepOfOne(a, t, b, u, n, move.action, ab, ba, limit);
    } else {
      assert Stands(b, u, a, t, ba, ab, Mirror(n));
      ba', ab' := StepOfOne(b, u, a, t, Mirror(n), move.action, ba, ab, limit);
    }
  }

  lemma {:induction false} IdsOnlyGrow(n: Net, moves: seq<Move>, end: Net, limit: nat)
    requires Moves(n, moves, end, limit)
    ensures n.a.next <= end.a.next && n.b.next <= end.b.next
    decreases moves
  {
    if moves == [] {
    } else {
      IdsOnlyGrow(NextNet(n, moves[0], limit), moves[1..], end, limit);
    }
  }

  /** From any state that stands for a network, through any run of it. */
  method Continue(a: SocketTable, t: nat, b: SocketTable, u: nat, ghost n: Net, moves: seq<Move>, ghost end: Net,
                  ab: seq<Sent>, ba: seq<Sent>, limit: nat)
    returns (ab': seq<Sent>, ba': seq<Sent>)
    requires Stands(a, t, b, u, ab, ba, n) && Moves(n, moves, end, limit) && end.a.next < WORD && end.b.next < WORD
    modifies a, a.live, b, b.live
    ensures Stands(a, t, b, u, ab', ba', end)
    decreases moves
  {
    if moves == [] {
      return ab, ba;
    }
    IdsOnlyGrow(NextNet(n, moves[0], limit), moves[1..], end, limit);
    ab', ba' := StepOfEither(a, t, b, u, n, moves[0], ab, ba, limit);
    ab', ba' := Continue(a, t, b, u, NextNet(n, moves[0], limit), moves[1..], end, ab', ba', limit);
  }

  /** Two daemons on the objects go through any run of the network, while ids last, and end where it
      ends. */
  method Drive(t: nat, u: nat, moves: seq<Move>, ghost end: Net, limit: nat)
    returns (a: SocketTable, b: SocketTable, ab: seq<Sent>, ba: seq<Sent>)
    requires Moves(EMPTY, moves, end, limit) && end.a.next < WORD && end.b.next < WORD
    ensures Stands(a, t, b, u, ab, ba, end)
  {
    a := Start(t);
    b := Start(u);
    ab, ba := Continue(a, t, b, u, EMPTY, moves, end, [], [], limit);
  }

  /** After any run: two open sockets that are the ends of one stream, s at the end that opened it.
      What r wrote, what waits in its queue and what is under way are exactly what s sent, and the
      other way round; and each direction has its right to send somewhere. */
  lemma ObjectsDeliver(x: SocketTable, t: nat, y: SocketTable, u: nat, moves: seq<Move>, end: Net, byA: bool,
                       s: Socket, r: Socket, limit: nat)
    requires Moves(EMPTY, moves, end, limit)
    requires Represents(x, t, Seen(end, byA).a) && Represents(y, u, Seen(end, byA).b)
    requires s in x.live && r in y.live && s.kind.Local? && r.kind.Local? && s.peer != null && r.peer != null
    requires s.peer.id == r.id && r.peer.id == s.id && Opened(Seen(end, byA), s.id)
    ensures s.id in Seen(end, byA).a.socks && r.id in Seen(end, byA).b.socks
    ensures var n := Seen(end, byA);
            var (p, q) := (n.a.socks[s.id].end, n.b.socks[r.id].end);
            && q.put + r.queue + Payloads(From(n.ab, s.id)) == p.sent
            && p.put + s.queue + Payloads(To(n.ba, s.id)) == q.sent
            && Bit(s.read) + Writes(From(n.ab, s.id)) + Bit(r.write) + Okays(To(n.ba, s.id)) >= 1
            && Bit(r.read) + Writes(To(n.ba, s.id)) + Bit(s.write) + Okays(From(n.ab, s.id)) >= 1
  {
    var n := Seen(end, byA);
    assert Mirrors(x, t, s, n.a.socks[s.id]) && Mirrors(y, u, r, n.b.socks[r.id]);
    assert x.Linked(s) && y.Linked(r);
    SameStream(moves, end, byA, s.id, r.id, limit);
    EachStreamIsLossless(moves, end, byA, s.id, limit);
  }

  /** The other end of a stream is the record that has the peer's id. */
  lemma SameStream(moves: seq<Move>, end: Net, byA: bool, i: nat, j: nat, limit: nat)
    requires Moves(EMPTY, moves, end, limit) && Opened(Seen(end, byA), i)
    requires j in Seen(end, byA).b.socks && j != 0 && Seen(end, byA).a.socks[i].peer == j
    ensures View(Seen(end, byA), i).y == Seen(end, byA).b.socks[j].end
  {
    var n := Seen(end, byA);
    assert NetOk(EMPTY, limit);
    MovesOk(EMPTY, moves, end, limit);
    assert SockIds(n.a, n.b, i);
  }
}
