/** Any number of streams over one transport, opened from either end: the packets of all of them
    share the two channels and carry the ids of the sockets (adb/sockets.cpp, adb/adb.cpp). */
module Multiplex {
  import opened Bytes
  import opened Options
  import opened Stream
  import opened TwoEnds

  /** A local socket, kept for the record after it is gone. `peer` is the id of its remote socket, 0
      while there is none; `opener` tells whether this end asked for the stream. */
  datatype Sock = Sock(end: End, peer: nat, opener: bool)

  /** A packet with its two ids. */
  datatype Msg = Msg(pkt: Pkt, from: nat, to: nat)

  /** `next` is local_socket_next_id; `answered` records how each OPEN of the other end fared: the id
      of the socket that was made for it, or None if it was refused. */
  datatype Side = Side(next: nat, socks: map<nat, Sock>, answered: map<nat, Option<nat>>)

  datatype Net = Net(a: Side, b: Side, ab: seq<Msg>, ba: seq<Msg>)

  datatype Action = Connect | OnFd(id: nat, e: Event) | Deliver(w: WriteAnswer, accept: bool)

  datatype Move = Move(atA: bool, action: Action)

  const EMPTY := Net(Side(1, map[], map[]), Side(1, map[], map[]), [], [])

  function Mirror(n: Net): Net {
    Net(n.b, n.a, n.ba, n.ab)
  }

  function Address(pkts: seq<Pkt>, from: nat, to: nat): (r: seq<Msg>)
    ensures |r| == |pkts|
    ensures forall i :: 0 <= i < |r| ==> r[i] == Msg(pkts[i], from, to)
  {
    if pkts == [] then [] else [Msg(pkts[0], from, to)] + Address(pkts[1..], from, to)
  }

  /** On local_socket_list. */
  predicate Listed(h: Half) {
    h.phase.Connecting? || h.phase.Open?
  }

  /** handle_packet finds the socket, and the ids are right: an OKAY goes to a socket that waits for
      its peer, or comes from the peer; a CLSE or WRTE comes from the peer, or a CLSE from nobody. */
  predicate Takes(a: Side, m: Msg) {
    m.to in a.socks && Listed(a.socks[m.to].end.half) &&
    var s := a.socks[m.to];
    if m.pkt.OKAY? then m.from != 0 && (s.end.half.phase.Connecting? || s.peer == m.from)
    else if m.pkt.WRTE? then m.from != 0 && s.end.half.phase.Open? && s.peer == m.from
    else m.pkt.CLSE? && (m.from == 0 || (s.end.half.phase.Open? && s.peer == m.from))
  }

  /** The side after a packet, and the packets it sends for one of its sockets. */
  datatype Outcome = Outcome(side: Side, pkts: seq<Pkt>, from: nat, to: nat) {
    function Emits(): seq<Msg> {
      Address(pkts, from, to)
    }
  }

  function OnOpen(a: Side, m: Msg, accept: bool): Outcome {
    if accept
    then Outcome(Side(a.next + 1, a.socks[a.next := Sock(End(Half(Open, [], true, false, false), [], [], []), m.from, false)],
                      a.answered[m.from := Some(a.next)]),
                 [OKAY], a.next, m.from)
    else Outcome(a.(answered := a.answered[m.from := None]), [CLSE], 0, m.from)
  }

  function OnTaken(a: Side, m: Msg, w: WriteAnswer): Outcome
    requires Takes(a, m) && (m.pkt.WRTE? ==> Possible(a.socks[m.to].end.half.queue + m.pkt.data, w))
  {
    var s := a.socks[m.to];
    var f := OnPacket(s.end.half, m.pkt, w, false);
    Outcome(a.(socks := a.socks[m.to := Sock(End(f.half, s.end.sent + f.sent, s.end.put + f.put, s.end.got + f.got),
                                             if m.pkt.OKAY? then m.from else s.peer, s.opener)]),
            f.emits, m.to, s.peer)
  }

  /** handle_packet. An OKAY for a socket that is not on the list is answered with a CLSE. */
  function OnMsg(a: Side, m: Msg, w: WriteAnswer, accept: bool): Outcome
    requires Takes(a, m) && m.pkt.WRTE? ==> Possible(a.socks[m.to].end.half.queue + m.pkt.data, w)
  {
    if m.pkt.OPEN? then (if m.from != 0 && m.to == 0 then OnOpen(a, m, accept) else Outcome(a, [], 0, 0))
    else if Takes(a, m) then OnTaken(a, m, w)
    else if m.pkt.OKAY? && m.from != 0 && m.to != 0 && (m.to in a.socks ==> !Listed(a.socks[m.to].end.half))
    then Outcome(a, [CLSE], m.to, m.from)
    else Outcome(a, [], 0, 0)
  }

  predicate EnabledA(n: Net, action: Action, limit: nat) {
    match action
    case Connect => true
    case OnFd(id, e) => id in n.a.socks && EventPossible(n.a.socks[id].end.half, e, limit)
    case Deliver(w, _) =>
      && n.ba != []
      && (Takes(n.a, n.ba[0]) && n.ba[0].pkt.WRTE? ==>
            Possible(n.a.socks[n.ba[0].to].end.half.queue + n.ba[0].pkt.data, w))
  }

  function NextA(n: Net, action: Action, limit: nat): Net
    requires EnabledA(n, action, limit)
  {
    match action
    case Connect =>
      n.(a := Side(n.a.next + 1, n.a.socks[n.a.next := Sock(START.x, 0, true)], n.a.answered),
         ab := n.ab + Address([OPEN], n.a.next, 0))
    case OnFd(id, e) =>
      var s := n.a.socks[id];
      var f := OnEvent(s.end.half, e);
      n.(a := n.a.(socks := n.a.socks[id := s.(end := End(f.half, s.end.sent + f.sent, s.end.put + f.put, s.end.got + f.got))]),
         ab := n.ab + Address(f.emits, id, s.peer))
    case Deliver(w, accept) =>
      var o := OnMsg(n.a, n.ba[0], w, accept);
      Net(o.side, n.b, n.ab + o.Emits(), n.ba[1..])
  }

  predicate EnabledMove(n: Net, move: Move, limit: nat) {
    EnabledA(if move.atA then n else Mirror(n), move.action, limit)
  }

  function NextNet(n: Net, move: Move, limit: nat): Net
    requires EnabledMove(n, move, limit)
  {
    if move.atA then NextA(n, move.action, limit) else Mirror(NextA(Mirror(n), move.action, limit))
  }

  ghost predicate Moves(n: Net, moves: seq<Move>, end: Net, limit: nat)
    decreases moves
  {
    if moves == [] then end == n
    else EnabledMove(n, moves[0], limit) && Moves(NextNet(n, moves[0], limit), moves[1..], end, limit)
  }

  // One stream of many: the one that a opened with socket i.

  /** The packets from socket i, and to socket i. */
  function From(ch: seq<Msg>, i: nat): seq<Pkt> {
    if ch == [] then [] else if ch[0].from == i then [ch[0].pkt] + From(ch[1..], i) else From(ch[1..], i)
  }

  function To(ch: seq<Msg>, i: nat): seq<Pkt> {
    if ch == [] then [] else if ch[0].to == i then [ch[0].pkt] + To(ch[1..], i) else To(ch[1..], i)
  }

  lemma Prepend(p: Pkt, x: seq<Pkt>, y: seq<Pkt>)
    ensures [p] + (x + y) == ([p] + x) + y
  {
  }

  lemma {:induction false} FromConcat(x: seq<Msg>, y: seq<Msg>, i: nat)
    ensures From(x + y, i) == From(x, i) + From(y, i)
  {
    if x == [] {
      assert x + y == y;
    } else {
      assert (x + y)[0] == x[0] && (x + y)[1..] == x[1..] + y;
      FromConcat(x[1..], y, i);
      Prepend(x[0].pkt, From(x[1..], i), From(y, i));
    }
  }

  lemma {:induction false} ToConcat(x: seq<Msg>, y: seq<Msg>, i: nat)
    ensures To(x + y, i) == To(x, i) + To(y, i)
  {
    if x == [] {
      assert x + y == y;
    } else {
      assert (x + y)[0] == x[0] && (x + y)[1..] == x[1..] + y;
      ToConcat(x[1..], y, i);
      Prepend(x[0].pkt, To(x[1..], i), To(y, i));
    }
  }

  lemma {:induction false} AddressFrom(pkts: seq<Pkt>, from: nat, to: nat, i: nat)
    ensures From(Address(pkts, from, to), i) == if from == i then pkts else []
    ensures To(Address(pkts, from, to), i) == if to == i then pkts else []
  {
    if pkts == [] {
    } else {
      var rest := Address(pkts[1..], from, to);
      AddressFrom(pkts[1..], from, to, i);
      assert ([Msg(pkts[0], from, to)] + rest)[1..] == rest;
    }
  }

  lemma {:induction false} NoneFrom(ch: seq<Msg>, i: nat)
    requires forall k :: 0 <= k < |ch| ==> ch[k].from != i
    ensures From(ch, i) == []
  {
    if ch == [] {
    } else {
      NoneFrom(ch[1..], i);
    }
  }

  lemma {:induction false} NoneTo(ch: seq<Msg>, i: nat)
    requires forall k :: 0 <= k < |ch| ==> ch[k].to != i
    ensures To(ch, i) == []
  {
    if ch == [] {
    } else {
      NoneTo(ch[1..], i);
    }
  }

  predicate Opened(n: Net, i: nat) {
    i in n.a.socks && n.a.socks[i].opener
  }

  /** The other end of the stream. */
  function OtherEnd(b: Side, i: nat): End {
    if i !in b.answered then START.y
    else
      match b.answered[i]
      case None => End(START.y.half.(phase := Gone), [], [], [])
      case Some(j) => if j in b.socks then b.socks[j].end else START.y
  }

  function View(n: Net, i: nat): Sys
    requires Opened(n, i)
  {
    Sys(n.a.socks[i].end, OtherEnd(n.b, i), From(n.ab, i), To(n.ba, i))
  }
}
