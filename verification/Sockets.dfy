/** The socket objects of adb/sockets.cpp: peer links, the two lists of local sockets, closing. */
module Sockets {
  import opened Bytes
  import opened Lists
  import opened Stream

  datatype Kind = Local | Remote | Smart

  class Socket {
    const kind: Kind
    const id: nat
    var transport: nat  // 0: none
    var peer: Socket?
    var closing: bool
    var hasWriteError: bool
    var read: bool
    var write: bool
    var queue: seq<Byte>

    constructor (kind: Kind, id: nat, transport: nat)
      ensures this.kind == kind && this.id == id && this.transport == transport
      ensures peer == null && !closing && !hasWriteError && !read && !write && queue == []
    {
      this.kind, this.id, this.transport := kind, id, transport;
      peer, closing, hasWriteError, read, write, queue := null, false, false, false, false, [];
    }
  }

  /** A packet given to send_packet, with its two ids. */
  datatype Sent = Sent(transport: nat, pkt: Pkt, arg0: nat, arg1: nat)

  function Tag(transport: nat, arg0: nat, arg1: nat, pkts: seq<Pkt>): seq<Sent> {
    if pkts == [] then [] else [Sent(transport, pkts[0], arg0, arg1)] + Tag(transport, arg0, arg1, pkts[1..])
  }

  lemma {:induction false} TagConcat(transport: nat, arg0: nat, arg1: nat, a: seq<Pkt>, b: seq<Pkt>)
    ensures Tag(transport, arg0, arg1, a + b) == Tag(transport, arg0, arg1, a) + Tag(transport, arg0, arg1, b)
  {
    if a == [] {
      assert a + b == b;
    } else {
      assert (a + b)[1..] == a[1..] + b;
      TagConcat(transport, arg0, arg1, a[1..], b);
    }
  }

  lemma TagOne(transport: nat, arg0: nat, arg1: nat, p: Pkt)
    ensures Tag(transport, arg0, arg1, [p]) == [Sent(transport, p, arg0, arg1)]
  {
    assert [p][1..] == [];
  }

  /** What smart_socket_enqueue comes to. */
  datatype SmartAnswer = Wait | Stuck | Fail | ToRemote(transport: nat) | ToService(service: Socket)

  /** The peer of a smart socket afterwards. */
  ghost function SmartHalf(h: Half, data: seq<Byte>, eof: bool, answer: SmartAnswer): Half {
    if data != [] && answer.Stuck? then h
    else if data != [] && answer.Fail? then Close(h)
    else
      var h1 := if data != [] && answer.ToRemote? then Half(Connecting, [], false, false, false) else h;
      if eof then Close(h1) else h1
  }

  /** The OPEN for the device, the only packet that comes of it. */
  function SmartEmits(s: Socket, data: seq<Byte>, answer: SmartAnswer): seq<Sent> {
    if data != [] && answer.ToRemote? then [Sent(answer.transport, OPEN, s.id, 0)] else []
  }

  class SocketTable {
    var nextId: nat
    var locals: seq<Socket>    // local_socket_list
    var closings: seq<Socket>  // local_socket_closing_list
    var wire: seq<Sent>
    ghost var live: set<Socket>  // allocated and not deleted
    ghost var byId: map<nat, Socket>  // the local socket that got an id

    /** The peer link of s is mutual; sockets other than local ones exist only with a peer, and a
        smart socket never writes to its peer. */
    ghost predicate Paired(s: Socket)
      requires s in live
      reads this`live, live`peer, live`closing, live`queue, live`hasWriteError
    {
      && (s.peer != null ==> s.peer in live && s.peer != s && s.peer.peer == s)
      && (!s.kind.Local? ==> s.peer != null && s.peer.kind.Local?)
      && (s.closing ==> s.kind.Local? && s.peer == null)
      && (s.peer != null && s.peer.kind.Smart? ==> s.queue == [] && !s.hasWriteError)
      && (s.kind.Smart? ==> s.id == 0)
    }

    ghost predicate Linked(s: Socket)
      requires s in live
      reads this`live, live`peer, live`closing, live`queue, live`hasWriteError, live`read, live`write
    {
      Paired(s) && Masked(s)
    }

    /** The event mask tells the state of the queue. */
    static ghost predicate Masked(s: Socket)
      reads s`peer, s`closing, s`queue, s`hasWriteError, s`read, s`write
    {
      && WritePending(s)
      && (s.write ==> s.queue != [])
      && (s.closing ==> s.write && !s.read && !s.hasWriteError)
      && (s.peer == null && !s.closing ==> s.queue == [] && !s.read && !s.hasWriteError)
    }

    static ghost predicate WritePending(s: Socket)
      reads s`queue, s`hasWriteError, s`write
    {
      s.queue != [] && !s.hasWriteError ==> s.write
    }

    /** The lists hold exactly the live local sockets, each once, on the list its state asks for. */
    ghost predicate Listed()
      reads this`locals, this`closings, this`live, live`closing
    {
      && Once(locals) && Once(closings)
      && (forall s :: s in locals ==> s in live && s.kind.Local? && !s.closing)
      && (forall s :: s in closings ==> s in live && s.kind.Local? && s.closing)
      && (forall s :: s in live && s.kind.Local? ==> s in locals || s in closings)
    }

    /** No two local sockets have the same id. */
    ghost predicate Numbered()
      reads this`nextId, this`byId, this`live
    {
      && 0 < nextId
      && (forall s :: s in live && s.kind.Local? ==> 0 < s.id < nextId && s.id in byId && byId[s.id] == s)
    }

    /** All sockets but some are linked. */
    ghost predicate ValidBut(some: set<Socket>)
      reads this`locals, this`closings, this`live, live`peer, live`closing, live`queue, live`hasWriteError, live`read, live`write
    {
      && Listed()
      && (forall s :: s in live && s !in some ==> Linked(s))
    }

    ghost predicate Valid()
      reads this`locals, this`closings, this`live, this`nextId, this`byId, live`peer, live`closing, live`queue, live`hasWriteError, live`read, live`write
    {
      ValidBut({}) && Numbered()
    }

    ghost predicate NobodysPeer(s: Socket, but: set<Socket>)
      reads this`live, live`peer
    {
      forall o :: o in live && o !in but ==> o.peer != s
    }

    constructor ()
      ensures Valid() && live == {} && locals == [] && closings == [] && wire == [] && nextId == 1
    {
      nextId, locals, closings, wire, live, byId := 1, [], [], [], {}, map[];
    }

    /** delete s: only what is live can be deleted, so nothing is deleted twice. */
    ghost method Delete(s: Socket)
      requires s in live
      modifies this`live
      ensures live == old(live) - {s}
    {
      live := live - {s};
    }

    method RemoveSocket(s: Socket)
      modifies this`locals, this`closings
      ensures locals == Without(old(locals), s) && closings == Without(old(closings), s)
    {
      locals := Without(locals, s);
      closings := Without(closings, s);
    }

    method LocalSocketDestroy(s: Socket, ghost but: set<Socket>)
      requires ValidBut(but + {s}) && s in live && s !in but && s.kind.Local? && NobodysPeer(s, but)
      modifies this`locals, this`closings, this`live
      ensures ValidBut(but) && live == old(live) - {s}
      ensures locals == Without(old(locals), s)
    {
      RemoveSocket(s);
      Delete(s);
    }

    method MoveToClosing(s: Socket, ghost but: set<Socket>)
      requires ValidBut(but + {s}) && s in live && s !in but && s.kind.Local? && NobodysPeer(s, but)
      requires s.peer == null && !s.closing && s.write && s.queue != [] && !s.hasWriteError
      modifies this`locals, this`closings, s`closing, s`read
      ensures ValidBut(but) && locals == Without(old(locals), s)
      ensures s.closing && !s.read
    {
      s.closing := true;
      s.read := false;
      WithoutAbsent(closings, s);
      RemoveSocket(s);
      closings := closings + [s];
      forall o | o in live && o !in but
        ensures Linked(o)
      {
        assert o != s ==> old(Linked(o));
      }
    }

    /** The end of local_socket_close, when the socket has no peer any more. */
    method FinishClose(s: Socket, ghost but: set<Socket>)
      requires ValidBut(but + {s}) && s in live && s !in but && s.kind.Local? && NobodysPeer(s, but)
      requires s.peer == null && WritePending(s)
      modifies this`locals, this`closings, this`live, s
      ensures ValidBut(but) && locals == Without(old(locals), s)
      ensures s.peer == null && unchanged(s`transport, s`hasWriteError, s`queue)
      ensures if old(s.closing || s.hasWriteError || s.queue == [])
              then live == old(live) - {s}
              else live == old(live) && s.closing && !s.read && s.write
    {
      if s.closing || s.hasWriteError || s.queue == [] {
        LocalSocketDestroy(s, but);
        return;
      }
      MoveToClosing(s, but);
      assert s.write;  // CHECK_EQ(FDE_WRITE, s->fde->state & FDE_WRITE)
    }

    /** close on a socket whose peer link has been cut; `other` is the end that cut it. */
    method CloseDetached(s: Socket, ghost other: Socket)
      requires ValidBut({other, s}) && s in live && other != s && NobodysPeer(s, {other})
      requires s.peer == null && !s.closing && WritePending(s)
      modifies this`locals, this`closings, this`live, s
      ensures ValidBut({other})
      ensures s.kind.Local? ==> locals == Without(old(locals), s)
      ensures !s.kind.Local? ==> locals == old(locals)
      ensures s.peer == null && unchanged(s`transport, s`hasWriteError, s`queue)
      ensures if s.kind.Local? && !s.hasWriteError && s.queue != []
              then live == old(live) && s.closing
              else live == old(live) - {s}
    {
      if s.kind.Local? {
        assert {other, s} == {other} + {s};
        FinishClose(s, {other});
      } else {
        Delete(s);
      }
    }

    /** fdevent_add and fdevent_del of FDE_READ. */
    method SetRead(s: Socket, on: bool)
      requires Valid() && s in live && (on ==> s.peer != null)
      modifies s`read
      ensures Valid() && s.read == on
    {
      assert Linked(s);
      s.read := on;
      forall o | o in live
        ensures Linked(o)
      {
        assert old(Linked(o));
      }
    }

    /** Where the local socket s is, seen from its stream. */
    ghost function HalfOf(s: Socket): Half
      reads this`live, s`peer, s`closing, s`queue, s`hasWriteError, s`read, s`write
    {
      if s !in live then Half(Gone, s.queue, false, false, s.hasWriteError)
      else Half(if s.closing then Closing else if s.peer == null then Connecting else Open,
                s.queue, s.read, s.write, s.hasWriteError)
    }

    /** Cuts the link between s and its peer, and closes the peer. */
    method ClosePeer(s: Socket)
      requires Valid() && s in live && s.peer != null
      modifies this`locals, this`closings, this`live, s`peer, s.peer
      ensures ValidBut({s}) && s in live && s.peer == null && NobodysPeer(s, {})
      ensures forall o :: o in locals ==> o in old(locals)
      ensures s in locals <==> s in old(locals)
      ensures |locals| <= |old(locals)|
      ensures old(s.peer).kind.Local? ==> HalfOf(old(s.peer)) == Close(old(HalfOf(s.peer)))
      ensures !old(s.peer).kind.Local? ==> old(s.peer) !in live
      ensures old(s.peer).transport == old(s.peer.transport)
      ensures old(live) - {old(s.peer)} <= live <= old(live)
    {
      var p := s.peer;
      assert Linked(s) && Linked(p);
      p.peer := null;
      CloseDetached(p, s);
      label Closed:
      s.peer := null;
      forall o | o in live && o !in {s}
        ensures Linked(o)
      {
        assert old@Closed(Linked(o));
      }
    }

    /** The beginning of local_socket_close: the peer is shut down, which tells a remote end, and
        closed. */
    method ShutDownPeer(s: Socket)
      requires Valid() && s in live && s.kind.Local? && s.peer != null
      modifies this`locals, this`closings, this`live, this`wire, s`peer, s.peer
      ensures ValidBut({s}) && Numbered() && s in live && s.peer == null && NobodysPeer(s, {})
      ensures s in locals && !s.closing && WritePending(s)
      ensures (forall o :: o in locals ==> o in old(locals)) && |locals| <= |old(locals)|
      ensures old(s.peer).transport == old(s.peer.transport)
      ensures old(s.peer).kind.Local? ==> HalfOf(old(s.peer)) == Close(old(HalfOf(s.peer)))
      ensures old(live) - {old(s.peer)} <= live <= old(live)
      ensures wire == old(wire) + if old(s.peer).kind.Remote?
                                  then [Sent(old(s.peer.transport), CLSE, s.id, old(s.peer).id)] else []
    {
      assert Linked(s);
      if s.peer.kind.Remote? {
        wire := wire + [Sent(s.peer.transport, CLSE, s.id, s.peer.id)];
      }
      ClosePeer(s);
    }

    /** Closes a local socket, and its peer with it. */
    method LocalSocketClose(s: Socket)
      requires Valid() && s in live && s.kind.Local?
      modifies this`locals, this`closings, this`live, this`wire, s, if s.peer == null then {} else {s.peer}
      ensures Valid() && nextId == old(nextId)
      ensures s !in locals && (forall o :: o in locals ==> o in old(locals))
      ensures |locals| < |old(locals)| + Bit(old(s.closing))
      ensures HalfOf(s) == Close(old(HalfOf(s))) && s.peer == null && s.transport == old(s.transport)
      ensures old(s.peer) != null ==> old(s.peer).transport == old(s.peer.transport)
      ensures old(s.peer != null && s.peer.kind.Local?) ==> HalfOf(old(s.peer)) == Close(old(HalfOf(s.peer)))
      ensures Spares(old(live), s, old(s.peer)) && live <= old(live)
      ensures wire == old(wire) + if old(s.peer != null && s.peer.kind.Remote?)
                                  then [Sent(old(s.peer.transport), CLSE, s.id, old(s.peer).id)] else []
    {
      assert Linked(s);
      if s.peer != null {
        ShutDownPeer(s);
      }
      FinishClose(s, {});
    }

    /** Closes a remote or smart socket, and its peer with it. */
    method OtherSocketClose(s: Socket)
      requires Valid() && s in live && !s.kind.Local?
      modifies this`locals, this`closings, this`live, s, s.peer
      ensures Valid() && s !in live && s.peer == null
      ensures HalfOf(old(s.peer)) == Close(old(HalfOf(s.peer)))
      ensures Spares(old(live), s, old(s.peer)) && live <= old(live)
    {
      ClosePeer(s);
      label Closed:
      Delete(s);
      forall o | o in live
        ensures Linked(o)
      {
        assert old@Closed(Linked(o));
      }
    }

    /** Closing a socket spares every other pair. */
    method CloseSparing(s: Socket, ghost spared: set<Socket>, t: nat)
      requires Valid() && s in locals && Bound(s, t)
      requires forall u :: u in spared ==> u in locals && !Bound(u, t)
      modifies this`locals, this`closings, this`live, this`wire, live
      ensures Valid() && live <= old(live) && |locals| < |old(locals)|
      ensures forall o :: o in locals ==> o in old(locals)
      ensures forall u :: u in spared ==> u in locals && !Bound(u, t) && unchanged(u)
    {
      assert s in live && Linked(s);
      forall u | u in spared
        ensures u in live && u != s && u != s.peer && u.peer != s && (u.peer != null ==> u.peer != s.peer) && !u.closing
      {
        assert u in live && Linked(u);
      }
      LocalSocketClose(s);
      forall u | u in spared
        ensures u in locals && !Bound(u, t)
      {
        assert u in live && u.kind.Local?;
      }
    }

    /** close_all_sockets: every close changes the list, so the scan starts over each time. */
    method CloseAllSockets(t: nat)
      requires Valid()
      modifies this`locals, this`closings, this`live, this`wire, live
      ensures Valid() && live <= old(live)
      ensures forall s :: s in locals ==> s in old(locals) && s.transport != t && (s.peer != null ==> s.peer.transport != t)
      ensures forall s :: s in old(locals) && !old(Bound(s, t)) ==> s in locals && unchanged(s)
    {
      ghost var spared := set u | u in locals && !Bound(u, t);
      var s := FirstBound(t);
      while s != null
        invariant Valid() && live <= old(live)
        invariant s != null ==> s in locals && Bound(s, t)
        invariant s == null ==> forall o :: o in locals ==> !Bound(o, t)
        invariant forall o :: o in locals ==> o in old(locals)
        invariant forall u :: u in spared ==> u in locals && unchanged(u) && !Bound(u, t)
        decreases |locals|
      {
        CloseSparing(s, spared, t);
        s := FirstBound(t);
      }
    }

    /** The scan of close_all_sockets, from the beginning of the list. */
    method FirstBound(t: nat) returns (s: Socket?)
      ensures s != null ==> s in locals && Bound(s, t)
      ensures s == null ==> forall o :: o in locals ==> !Bound(o, t)
    {
      for i := 0 to |locals|
        invariant forall k :: 0 <= k < i ==> !Bound(locals[k], t)
      {
        s := locals[i];
        if s.transport == t || (s.peer != null && s.peer.transport == t) {
          return;
        }
      }
      s := null;
    }

    /** The socket or its peer is bound to transport t. */
    static ghost predicate Bound(s: Socket, t: nat)
      reads s, s.peer
    {
      s.transport == t || (s.peer != null && s.peer.transport == t)
    }

    predicate Matches(s: Socket, localId: nat, peerId: nat)
      reads s, s.peer
    {
      s.id == localId && (peerId == 0 || (s.peer != null && s.peer.id == peerId))
    }

    method FindLocalSocket(localId: nat, peerId: nat) returns (r: Socket?)
      requires Valid()
      ensures r != null ==> r in locals && Matches(r, localId, peerId)
      ensures r != null ==> r.id == localId && (peerId != 0 ==> r.peer != null && r.peer.id == peerId)
      ensures r == null ==> forall s :: s in locals ==> !Matches(s, localId, peerId)
    {
      for i := 0 to |locals|
        invariant forall k :: 0 <= k < i ==> locals[k].id != localId
      {
        var s := locals[i];
        if s.id == localId {
          if peerId == 0 || (s.peer != null && s.peer.id == peerId) {
            return s;
          }
          return null;
        }
      }
      return null;
    }

    // The callbacks.

    /** A local socket whose peer, if any, is remote. */
    static ghost predicate StreamSocket(s: Socket)
      reads s
    {
      s.kind.Local? && (s.peer == null || s.peer.kind.Remote?)
    }

    /** The write at the top of local_socket_flush_incoming. */
    method WriteQueue(s: Socket, w: WriteAnswer) returns (again: bool)
      requires ValidBut({s}) && s in live && s.kind.Local? && Paired(s) && Possible(s.queue, w)
      modifies s`queue, s`write, s`hasWriteError
      ensures ValidBut({s}) && Paired(s)
      ensures s.queue == Unwritten(old(s.queue), w)
      ensures again == (old(s.queue) != [] && (w.Again? || (w.Wrote? && s.queue != [])))
      ensures s.write == (old(s.write) || again)
      ensures s.hasWriteError == (old(s.hasWriteError) || (old(s.queue) != [] && w.Failed?))
    {
      again := false;
      if s.queue != [] {
        match w {
          case Wrote(n) =>
            again := n != |s.queue|;
            s.queue := s.queue[n..];
          case Again =>
            again := true;
          case Failed =>
            s.hasWriteError := true;
        }
        if again {
          s.write := true;
        }
      }
    }

    method FlushIncoming(s: Socket, w: WriteAnswer) returns (result: FlushResult)
      requires ValidBut({s}) && Numbered() && s in live && s.kind.Local? && Paired(s)
      requires s.peer == null ==> Masked(s)
      requires Possible(s.queue, w)
      modifies this`locals, this`closings, this`live, s
      ensures Valid() && s.peer == old(s.peer) && s.transport == old(s.transport)
      ensures (HalfOf(s), result) == Stream.FlushIncoming(old(HalfOf(s)), w)
      ensures live == if result.Destroyed? then old(live) - {s} else old(live)
      ensures !result.Destroyed? ==> locals == old(locals)
    {
      var again := WriteQueue(s, w);
      if again {
        return TryAgain;
      }
      if s.closing {
        FinishClose(s, {});
        return Destroyed;
      }
      ClearWrite(s);
      return Completed;
    }

    /** fdevent_del of FDE_WRITE, when all is written. */
    method ClearWrite(s: Socket)
      requires ValidBut({s}) && Numbered() && s in live && s.kind.Local? && Paired(s) && !s.closing
      requires s.queue != [] ==> s.hasWriteError
      requires s.peer == null ==> s.queue == [] && !s.read && !s.hasWriteError
      modifies s`write
      ensures Valid() && !s.write
    {
      s.write := false;
      forall o | o in live
        ensures Linked(o)
      {
        assert o != s ==> old(Linked(o));
      }
    }

    /** local_socket_enqueue: 0 if the bytes are written, 1 if some wait, -1 if s is destroyed. */
    method Enqueue(s: Socket, data: seq<Byte>, w: WriteAnswer) returns (r: int)
      requires Valid() && s in live && s.kind.Local? && s.peer != null && !s.peer.kind.Smart?
      requires Possible(s.queue + data, w)
      modifies this`locals, this`closings, this`live, s
      ensures Valid() && s.peer == old(s.peer)
      ensures var (h, result) := Stream.FlushIncoming(old(HalfOf(s)).(queue := old(s.queue) + data), w);
              HalfOf(s) == h && r == (match result case Destroyed => -1 case TryAgain => 1 case Completed => 0)
      ensures r >= 0 ==> live == old(live) && locals == old(locals)
    {
      assert Linked(s);
      s.queue := s.queue + data;
      var result := FlushIncoming(s, w);
      match result {
        case Destroyed => return -1;
        case TryAgain => return 1;
        case Completed => return 0;
      }
    }

    /** Nothing but a socket and its peer was freed. */
    ghost predicate Spares(before: set<Socket>, s: Socket, p: Socket?)
      reads this`live
    {
      forall o :: o in before && o != s && o != p ==> o in live
    }

    /** The socket has the peer it had, or none, and the peer the transport it had. */
    static ghost predicate KeepsPeer(s: Socket, p: Socket?, transport: nat)
      reads s, p
    {
      (s.peer == null || s.peer == p) && (p != null ==> p.transport == transport)
    }

    /** local_socket_flush_outgoing after its read loop. */
    method FlushOutgoing(s: Socket, data: seq<Byte>, eof: bool) returns (alive: bool)
      requires Valid() && s in live && StreamSocket(s)
      modifies this`locals, this`closings, this`live, this`wire, s, if s.peer == null then {} else {s.peer}
      ensures Valid() && alive == !eof
      ensures HalfOf(s) == Stream.FlushOutgoing(old(HalfOf(s)), data, eof)
      ensures wire == old(wire) + old(Tagged(s, OutgoingEmits(HalfOf(s), data, eof)))
      ensures Spares(old(live), s, old(s.peer)) && live <= old(live)
      ensures KeepsPeer(s, old(s.peer), old(if s.peer == null then 0 else s.peer.transport))
    {
      assert Linked(s);
      if s.peer != null {
        TagConcat(s.peer.transport, s.id, s.peer.id, if data != [] then [WRTE(data)] else [], if eof then [CLSE] else []);
      }
      if data != [] && s.peer != null {
        wire := wire + [Sent(s.peer.transport, WRTE(data), s.id, s.peer.id)];
        SetRead(s, false);
      }
      if eof {
        LocalSocketClose(s);
        return false;
      }
      return true;
    }

    /** Packets of the stream of s, with their ids. */
    static ghost function Tagged(s: Socket, pkts: seq<Pkt>): seq<Sent>
      reads s, s.peer
    {
      if s.peer == null then [] else Tag(s.peer.transport, s.id, s.peer.id, pkts)
    }

    /** The FDE_READ half of an event. */
    method ReadEvent(s: Socket, e: Event)
      requires Valid() && s in live && StreamSocket(s) && (!e.read ==> e.data == [] && !e.eof)
      modifies this`locals, this`closings, this`live, this`wire, s, if s.peer == null then {} else {s.peer}
      ensures Valid()
      ensures HalfOf(s) == Stream.FlushOutgoing(old(HalfOf(s)), e.data, e.eof)
      ensures wire == old(wire) + old(Tagged(s, OutgoingEmits(HalfOf(s), e.data, e.eof)))
      ensures Spares(old(live), s, old(s.peer)) && live <= old(live)
      ensures KeepsPeer(s, old(s.peer), old(if s.peer == null then 0 else s.peer.transport))
    {
      if e.read {
        var _ := FlushOutgoing(s, e.data, e.eof);
      }
    }

    /** An event whose flush completes: the peer is told before the socket is read. */
    method AckThenRead(s: Socket, e: Event)
      requires Valid() && s in live && StreamSocket(s) && s.peer != null && (!e.read ==> e.data == [] && !e.eof)
      modifies this`locals, this`closings, this`live, this`wire, s, s.peer
      ensures Valid()
      ensures HalfOf(s) == Stream.FlushOutgoing(old(HalfOf(s)), e.data, e.eof)
      ensures wire == old(wire) + old(Tagged(s, [OKAY] + OutgoingEmits(HalfOf(s), e.data, e.eof)))
      ensures Spares(old(live), s, old(s.peer)) && live <= old(live)
      ensures KeepsPeer(s, old(s.peer), old(if s.peer == null then 0 else s.peer.transport))
    {
      ghost var out := OutgoingEmits(HalfOf(s), e.data, e.eof);
      TagConcat(s.peer.transport, s.id, s.peer.id, [OKAY], out);
      TagOne(s.peer.transport, s.id, s.peer.id, OKAY);
      ghost var ack := [Sent(s.peer.transport, OKAY, s.id, s.peer.id)];
      assert (wire + ack) + Tagged(s, out) == wire + (ack + Tagged(s, out));
      wire := wire + [Sent(s.peer.transport, OKAY, s.id, s.peer.id)];
      ReadEvent(s, e);
    }

    /** local_socket_event_func, for an end of a stream. */
    method StreamEvent(s: Socket, e: Event, limit: nat)
      requires Valid() && s in live && StreamSocket(s) && EventPossible(HalfOf(s), e, limit)
      modifies this`locals, this`closings, this`live, this`wire, s, if s.peer == null then {} else {s.peer}
      ensures Valid()
      ensures HalfOf(s) == OnEvent(old(HalfOf(s)), e).half
      ensures wire == old(wire) + old(Tagged(s, OnEvent(HalfOf(s), e).emits))
      ensures Spares(old(live), s, old(s.peer)) && live <= old(live)
      ensures KeepsPeer(s, old(s.peer), old(if s.peer == null then 0 else s.peer.transport))
    {
      assert Linked(s);
      EventParts(HalfOf(s), e);
      if e.write {
        var result := FlushIncoming(s, e.w);
        match result {
          case Destroyed =>
            return;
          case TryAgain =>
          case Completed =>
            AckThenRead(s, e);
            return;
        }
      }
      ReadEvent(s, e);
    }

    /** What s read is queued at p, which may block s. */
    method PairEnqueue(s: Socket, p: Socket, data: seq<Byte>, w: WriteAnswer)
      requires Valid() && s in live && p in live && s.kind.Local? && p.kind.Local? && s.peer == p
      requires data != [] && Possible(p.queue + data, w)
      modifies this`locals, this`closings, this`live, s`read, p
      ensures Valid() && live == old(live) && s.peer == p && p.peer == s
      ensures (HalfOf(s), HalfOf(p)) == PairReads(old(HalfOf(s)), old(HalfOf(p)), data, false, w)
    {
      assert Linked(s) && Linked(p);
      var r := Enqueue(p, data, w);
      if r > 0 {
        SetRead(s, false);
      }
    }

    /** What s reads goes to p, its peer in the same daemon. */
    method PairRead(s: Socket, p: Socket, data: seq<Byte>, eof: bool, w: WriteAnswer)
      requires Valid() && s in live && p in live && s.kind.Local? && p.kind.Local? && s.peer == p
      requires Possible(p.queue + data, w)
      modifies this`locals, this`closings, this`live, this`wire, s, p
      ensures Valid() && wire == old(wire) && Spares(old(live), s, p) && live <= old(live)
      ensures s.peer == if eof then null else p
      ensures (HalfOf(s), HalfOf(p)) == PairReads(old(HalfOf(s)), old(HalfOf(p)), data, eof, w)
    {
      assert Linked(s) && Linked(p);
      if data != [] {
        PairEnqueue(s, p, data, w);
      }
      if eof {
        LocalSocketClose(s);
      }
    }

    /** A completed write turns the peer's reading on. */
    method PairWrite(s: Socket, p: Socket, w: WriteAnswer)
      requires Valid() && s in live && p in live && s.kind.Local? && p.kind.Local? && s.peer == p && Possible(s.queue, w)
      modifies this`locals, this`closings, this`live, s, p`read
      ensures Valid() && live == old(live) && s.peer == p
      ensures (HalfOf(s), HalfOf(p)) == PairWrites(old(HalfOf(s)), old(HalfOf(p)), w)
    {
      assert Linked(s) && Linked(p);
      var result := FlushIncoming(s, w);
      if result.Completed? {
        assert Linked(p);
        SetRead(p, true);
      }
    }

    /** local_socket_event_func, for a socket whose peer is local. */
    method PairEvent(s: Socket, p: Socket, e: Event, w: WriteAnswer, limit: nat)
      requires Valid() && s in live && p in live && s.kind.Local? && p.kind.Local? && s.peer == p
      requires Deliverable(HalfOf(s), e, limit) && Possible(p.queue + e.data, w)
      modifies this`locals, this`closings, this`live, this`wire, s, p
      ensures Valid() && wire == old(wire) && Spares(old(live), s, p) && live <= old(live)
      ensures s.peer == if e.eof then null else p
      ensures (HalfOf(s), HalfOf(p)) == PairEvents(old(HalfOf(s)), old(HalfOf(p)), e, w)
    {
      if e.write {
        PairWrite(s, p, e.w);
      }
      PairRead(s, p, e.data, e.eof, w);
    }

    /** What a smart socket does with what its peer read: it needs more of the request, gives up
        without closing, fails, or hands its peer over to a remote or a local service. */
    method SmartRead(s: Socket, data: seq<Byte>, eof: bool, answer: SmartAnswer)
      requires Valid() && s in live && s.kind.Local? && s.peer != null && s.peer.kind.Smart?
      requires answer.ToService? ==> answer.service in locals && answer.service.peer == null
      modifies this`locals, this`closings, this`live, this`wire, s, s.peer, if answer.ToService? then {answer.service} else {}
      ensures Valid() && live <= old(live)
      ensures wire == old(wire) + SmartEmits(s, data, answer)
      ensures HalfOf(s) == SmartHalf(old(HalfOf(s)), data, eof, answer)
      ensures forall o :: o in old(live) && o != s && o != old(s.peer) && !(answer.ToService? && o == answer.service) ==> o in live
      ensures data != [] && answer.ToService? ==> old(s.peer) !in live && (!eof ==> s.peer == answer.service && answer.service.peer == s)
      ensures data != [] && answer.ToRemote? ==> old(s.peer) !in live && (!eof ==> s in live && s.peer == null)
      ensures data != [] && answer.Fail? ==> old(s.peer) !in live && s !in live
      ensures (data == [] || answer.Wait? || answer.Stuck?) && !(eof && !(data != [] && answer.Stuck?)) ==>
        live == old(live) && unchanged(s)
      ensures eof && (data == [] || answer.Wait?) ==> old(s.peer) !in live && s !in live
    {
      assert Linked(s);
      if data != [] {
        match answer {
          case Wait =>
          case Stuck =>
            return;
          case Fail =>
            OtherSocketClose(s.peer);
            return;
          case ToRemote(t) =>
            SmartToRemote(s.peer, t);
          case ToService(service) =>
            SmartToService(s.peer, service);
        }
      }
      if eof {
        LocalSocketClose(s);
      }
    }

    /** local_socket_event_func, whatever the peer is: none, remote, local or smart. `w` is what the
        peer's descriptor answers, `answer` what a smart peer does. */
    method EventFunc(s: Socket, e: Event, w: WriteAnswer, answer: SmartAnswer, limit: nat)
      requires Valid() && s in live && s.kind.Local? && Deliverable(HalfOf(s), e, limit)
      requires StreamSocket(s) ==> EventPossible(HalfOf(s), e, limit)
      requires s.peer != null && s.peer.kind.Local? ==> Possible(s.peer.queue + e.data, w)
      requires answer.ToService? ==> answer.service in locals && answer.service.peer == null
      modifies this`locals, this`closings, this`live, this`wire, s, if s.peer == null then {} else {s.peer},
               if answer.ToService? then {answer.service} else {}
      ensures Valid() && live <= old(live)
      ensures forall o :: o in old(live) && o != s && o != old(s.peer) && !(answer.ToService? && o == answer.service) ==> o in live
      ensures old(StreamSocket(s)) ==>
        HalfOf(s) == OnEvent(old(HalfOf(s)), e).half && wire == old(wire) + old(Tagged(s, OnEvent(HalfOf(s), e).emits))
      ensures old(s.peer != null && s.peer.kind.Local?) ==>
        wire == old(wire) && (HalfOf(s), HalfOf(old(s.peer))) == PairEvents(old(HalfOf(s)), old(HalfOf(s.peer)), e, w)
      ensures old(s.peer != null && s.peer.kind.Smart?) ==>
        wire == old(wire) + SmartEmits(s, e.data, answer) && HalfOf(s) == SmartHalf(old(HalfOf(s)), e.data, e.eof, answer)
    {
      assert Linked(s);
      if s.peer == null || s.peer.kind.Remote? {
        StreamEvent(s, e, limit);
      } else if s.peer.kind.Local? {
        assert Linked(s.peer);
        PairEvent(s, s.peer, e, w, limit);
      } else {
        SmartRead(s, e.data, e.eof, answer);
      }
    }

    /** The bytes of a WRTE go to s; if they are written, an OKAY goes back. */
    method Receive(s: Socket, t: nat, arg0: nat, data: seq<Byte>, w: WriteAnswer)
      requires Valid() && s in locals && s.peer != null && !s.peer.kind.Smart? && Possible(s.queue + data, w)
      modifies this`locals, this`closings, this`live, this`wire, s
      ensures Valid() && live == old(live) && locals == old(locals)
      ensures var f := OnPacket(old(HalfOf(s)), WRTE(data), w, true);
              HalfOf(s) == f.half && wire == old(wire) + Tag(t, s.id, arg0, f.emits)
    {
      assert Linked(s);
      TagOne(t, s.id, arg0, OKAY);
      var r := Enqueue(s, data, w);
      if r == 0 {
        wire := wire + [Sent(t, OKAY, s.id, arg0)];
      }
    }

    /** A_WRTE: the bytes go to the open socket with these two ids, if there is one. */
    method HandleWrite(t: nat, online: bool, arg0: nat, arg1: nat, data: seq<Byte>, w: WriteAnswer) returns (found: Socket?)
      requires Valid()
      requires arg0 != 0 ==> forall s :: s in locals && Matches(s, arg1, arg0) ==> Possible(s.queue + data, w)
      modifies this`locals, this`closings, this`live, this`wire, locals
      ensures Valid()
      ensures found == null <==> !(online && arg0 != 0 && arg1 != 0 && exists s :: s in old(locals) && old(Matches(s, arg1, arg0)))
      ensures found == null ==> unchanged(this) && unchanged(old(locals))
      ensures found != null ==> found in old(locals) && old(Matches(found, arg1, arg0))
      ensures found != null ==> HalfOf(found) == OnPacket(old(HalfOf(found)), WRTE(data), w, true).half
      ensures found != null ==> wire == old(wire) + Tag(t, arg1, arg0, OnPacket(old(HalfOf(found)), WRTE(data), w, true).emits)
      ensures live == old(live) && locals == old(locals)
      ensures forall o :: o in old(live) && o != found ==> unchanged(o)
    {
      found := null;
      if online && arg0 != 0 && arg1 != 0 {
        found := FindLocalSocket(arg1, arg0);
        if found != null {
          assert Linked(found);
          Receive(found, t, arg0, data, w);
        }
      }
    }

    ghost predicate MayClose(s: Socket, t: nat, arg0: nat, arg1: nat)
      reads s, s.peer
    {
      Matches(s, arg1, arg0) && (arg0 == 0 && s.peer != null ==> s.peer.transport == t)
    }

    /** A_CLSE: the socket with these ids is closed. With arg0 zero the peer's id is not compared,
        but its transport is. */
    method HandleClose(t: nat, online: bool, arg0: nat, arg1: nat) returns (found: Socket?)
      requires Valid()
      modifies this`locals, this`closings, this`live, this`wire, live
      ensures Valid()
      ensures found == null ==> unchanged(this) && unchanged(old(live))
      ensures found == null <==> !(online && arg1 != 0 && exists s :: s in old(locals) && old(MayClose(s, t, arg0, arg1)))
      ensures found != null ==> found in old(locals) && old(Matches(found, arg1, arg0))
      ensures found != null ==> HalfOf(found) == Close(old(HalfOf(found))) && found.peer == null
      ensures found != null ==>
        wire == old(wire) + if old(found.peer != null && found.peer.kind.Remote?)
                            then [Sent(old(found.peer.transport), CLSE, found.id, old(found.peer).id)] else []
      ensures live <= old(live)
      ensures forall o :: o in old(live) && o != found && (found != null ==> o != old(found.peer)) ==> o in live && unchanged(o)
    {
      found := null;
      if online && arg1 != 0 {
        found := FindLocalSocket(arg1, arg0);
        if found != null {
          assert Linked(found);
          if arg0 == 0 && found.peer != null && found.peer.transport != t {
            found := null;
          } else {
            LocalSocketClose(found);
          }
        }
      }
    }

    // Packets and transports.

    /** The stream of s is on transport t. A local pair is on none. */
    static ghost predicate Of(s: Socket, t: nat)
      reads s, s.peer
    {
      if s.peer == null then s.transport == t else s.peer.kind.Remote? && s.peer.transport == t
    }

    /** handle_packet takes s for the socket that the packet is for. */
    static ghost predicate Addressed(s: Socket, t: nat, pkt: Pkt, arg0: nat, arg1: nat)
      reads s, s.peer
    {
      s.id == arg1 && arg1 != 0 &&
      match pkt
      case OPEN => false
      case OKAY => arg0 != 0 && (s.peer == null || s.peer.id == arg0)
      case CLSE => if arg0 == 0 then s.peer == null || s.peer.transport == t else s.peer != null && s.peer.id == arg0
      case WRTE(_) => arg0 != 0 && s.peer != null && s.peer.id == arg0
    }

    /** A socket of another transport is taken for the one that the packet is for. */
    ghost predicate Confusable(t: nat, pkt: Pkt, arg0: nat, arg1: nat)
      reads this`locals, locals, set s | s in locals && s.peer != null :: s.peer
    {
      exists s :: s in locals && Addressed(s, t, pkt, arg0, arg1) && !Of(s, t)
    }

    /** handle_packet, for a table with any number of transports: the packet reaches a socket of
        another transport if and only if one is confusable; if none is, all of them are as before. */
    method HandlePacket(t: nat, online: bool, pkt: Pkt, arg0: nat, arg1: nat, w: WriteAnswer, accept: bool)
      returns (reached: Socket?)
      requires Valid() && (pkt.OPEN? && online && arg0 != 0 && arg1 == 0 && accept ==> nextId + 1 < WORD)
      requires pkt.WRTE? ==> forall s :: s in locals && Addressed(s, t, pkt, arg0, arg1) ==> Possible(s.queue + pkt.data, w)
      modifies this, live
      ensures Valid()
      ensures reached != null ==> reached in old(locals) && old(Addressed(reached, t, pkt, arg0, arg1))
      ensures reached != null ==>
        HalfOf(reached) == OnPacket(old(HalfOf(reached)), pkt, w, accept).half
      ensures reached != null && !old(Of(reached, t)) <==> online && old(Confusable(t, pkt, arg0, arg1))
      ensures !(online && old(Confusable(t, pkt, arg0, arg1))) ==>
        forall o :: o in old(live) && o.kind.Local? && !old(Of(o, t)) ==> o in live && unchanged(o)
    {
      reached := null;
      match pkt {
        case OPEN =>
          var _ := HandleOpen(t, online, arg0, arg1, accept);
        case OKAY =>
          reached := HandleOkay(t, online, arg0, arg1);
          if reached != null && reached.peer.id != arg0 {
            reached := null;
          }
        case CLSE =>
          reached := HandleClose(t, online, arg0, arg1);
        case WRTE(data) =>
          reached := HandleWrite(t, online, arg0, arg1, data, w);
      }
    }

    /** Creates the remote half of a connection and joins it to s. */
    method AttachRemote(s: Socket, id: nat, t: nat)
      requires Valid() && s in locals && s.peer == null && id != 0
      modifies this`live, s`peer, s`read
      ensures Valid() && s.read && s.peer != null && s.peer.kind.Remote? && s.peer.id == id && s.peer.transport == t
      ensures fresh(s.peer) && live == old(live) + {s.peer}
    {
      assert Linked(s);
      var r := new Socket(Remote, id, t);
      r.peer := s;
      s.peer := r;
      s.read := true;
      live := live + {r};
      forall o | o in live
        ensures Linked(o)
      {
        assert o != r ==> old(Linked(o));
      }
    }

    /** A_OKAY: the first one for a socket connects it, later ones let it send again. A socket that
        is not there (any more) is closed at the other side. */
    method HandleOkay(t: nat, online: bool, arg0: nat, arg1: nat) returns (found: Socket?)
      requires Valid()
      modifies this`locals, this`closings, this`live, this`wire, live
      ensures Valid()
      ensures !(online && arg0 != 0 && arg1 != 0) ==> found == null && unchanged(this) && unchanged(old(live))
      ensures online && arg0 != 0 && arg1 != 0 ==>
        (found == null <==> !exists s :: s in old(locals) && s.id == arg1)
      ensures online && arg0 != 0 && arg1 != 0 && found == null ==>
        wire == old(wire) + [Sent(t, CLSE, arg1, arg0)] && locals == old(locals) && unchanged(old(live))
      ensures found != null ==> found in old(locals) && found.id == arg1 && wire == old(wire) && locals == old(locals)
      ensures found != null && (old(found.peer == null || found.peer.id == arg0)) ==>
        HalfOf(found) == OnPacket(old(HalfOf(found)), OKAY, Again, true).half && found.peer != null && found.peer.id == arg0
      ensures found != null && !(old(found.peer == null || found.peer.id == arg0)) ==> unchanged(old(live))
      ensures forall o :: o in old(live) ==> o in live && (o != found ==> unchanged(o))
      ensures forall o :: o in live && o.kind.Local? ==> o in old(live)
      ensures fresh(live - old(live))
      ensures found != null && old(found.peer == null) ==> found.peer.kind.Remote? && found.peer.transport == t
    {
      found := null;
      if online && arg0 != 0 && arg1 != 0 {
        found := FindLocalSocket(arg1, 0);
        if found == null {
          wire := wire + [Sent(t, CLSE, arg1, arg0)];
        } else {
          assert Linked(found);
          if found.peer == null {
            AttachRemote(found, arg0, t);
          } else if found.peer.id == arg0 {
            SetRead(found, true);
          }
        }
      }
    }

    /** create_local_socket. The id counter may not wrap (LOG(FATAL)). */
    method CreateLocalSocket() returns (s: Socket)
      requires Valid() && nextId + 1 < WORD
      modifies this`nextId, this`locals, this`live, this`byId
      ensures Valid() && fresh(s) && s.kind.Local? && s.id == old(nextId) && s.peer == null && s.transport == 0
      ensures locals == old(locals) + [s] && live == old(live) + {s} && nextId == old(nextId) + 1
      ensures HalfOf(s) == Half(Connecting, [], false, false, false)
    {
      s := new Socket(Local, nextId, 0);
      byId := byId[nextId := s];
      nextId := nextId + 1;
      locals := locals + [s];
      live := live + {s};
      forall o | o in live
        ensures Linked(o)
      {
        assert o != s ==> old(Linked(o));
      }
    }

    /** A_OPEN: a service is started and joined to the stream, or the stream is refused. */
    method HandleOpen(t: nat, online: bool, arg0: nat, arg1: nat, accept: bool) returns (s: Socket?)
      requires Valid() && (online && arg0 != 0 && arg1 == 0 && accept ==> nextId + 1 < WORD)
      modifies this
      ensures Valid()
      ensures s != null <==> online && arg0 != 0 && arg1 == 0 && accept
      ensures s != null ==> fresh(s) && HalfOf(s) == OnPacket(Half(Absent, [], false, false, false), OPEN, Again, true).half
      ensures s != null ==> s.peer != null && s.peer.kind.Remote? && s.peer.id == arg0 && s.peer.transport == t
      ensures wire == old(wire) + if s != null then [Sent(t, OKAY, s.id, arg0)]
                                  else if online && arg0 != 0 && arg1 == 0 then [Sent(t, CLSE, 0, arg0)] else []
      ensures s != null ==> s.kind.Local? && s.id == old(nextId) && nextId == old(nextId) + 1
      ensures s != null ==> live == old(live) + {s, s.peer} && locals == old(locals) + [s] && fresh(s.peer)
      ensures s == null ==> live == old(live) && locals == old(locals) && nextId == old(nextId)
    {
      s := null;
      if online && arg0 != 0 && arg1 == 0 {
        if !accept {
          wire := wire + [Sent(t, CLSE, 0, arg0)];
        } else {
          s := CreateLocalSocket();
          AttachRemote(s, arg0, t);
          wire := wire + [Sent(t, OKAY, s.id, s.peer.id)];
        }
      }
    }

    /** connect_to_remote, behind the assignment of the transport. */
    method ConnectToRemote(s: Socket, t: nat)
      requires Valid() && s in locals
      modifies this`wire, s`transport
      ensures Valid() && s.transport == t && wire == old(wire) + [Sent(t, OPEN, s.id, 0)]
    {
      s.transport := t;
      wire := wire + [Sent(t, OPEN, s.id, 0)];
    }

    /** connect_to_smartsocket. */
    method ConnectToSmart(s: Socket) returns (ss: Socket)
      requires Valid() && s in locals && s.peer == null
      modifies this`live, s`peer, s`read
      ensures Valid() && fresh(ss) && ss.kind.Smart? && s.peer == ss && s.read && live == old(live) + {ss}
    {
      assert Linked(s);
      ss := new Socket(Smart, 0, 0);
      s.peer := ss;
      ss.peer := s;
      s.read := true;
      live := live + {ss};
      forall o | o in live
        ensures Linked(o)
      {
        assert o != ss ==> old(Linked(o));
      }
    }

    /** Two local sockets become each other's peers. */
    method Join(s: Socket, p: Socket)
      requires ValidBut({s}) && Numbered() && s in live && p in live && s != p && s.kind.Local? && p.kind.Local?
      requires s.peer == null && p.peer == null && !s.closing && !p.closing && NobodysPeer(s, {})
      requires s.queue == [] && !s.hasWriteError && !s.write
      modifies s`peer, p`peer, p`read
      ensures Valid() && s.peer == p && p.peer == s && p.read
    {
      assert Linked(p) && NobodysPeer(p, {});
      s.peer := p;
      p.peer := s;
      p.read := true;
      forall o | o in live
        ensures Linked(o)
      {
        assert o != s ==> old(Linked(o));
      }
    }

    /** A smart socket lets go of its peer and is deleted. */
    method DetachSmart(ss: Socket) returns (s: Socket)
      requires Valid() && ss in live && ss.kind.Smart?
      modifies this`live, ss`peer, ss.peer`peer
      ensures ValidBut({s}) && Numbered() && live == old(live) - {ss}
      ensures s == old(ss.peer) && s in live && s.kind.Local? && s.peer == null && NobodysPeer(s, {})
      ensures !s.closing && s.queue == [] && !s.hasWriteError && !s.write
    {
      s := ss.peer;
      assert Linked(ss) && Linked(s);
      s.peer := null;
      ss.peer := null;
      Delete(ss);
    }

    /** The end of smart_socket_enqueue for a service of the device on transport t: the local socket
        is cut loose, sends its OPEN and waits for the device's OKAY, and the smart socket is
        deleted. Its result 1 turns FDE_READ of the local socket off. */
    method SmartToRemote(ss: Socket, t: nat)
      requires Valid() && ss in live && ss.kind.Smart?
      modifies this`live, this`wire, ss`peer, ss.peer
      ensures Valid() && live == old(live) - {ss}
      ensures HalfOf(old(ss.peer)) == Half(Connecting, [], false, false, false) && old(ss.peer).transport == t
      ensures wire == old(wire) + [Sent(t, OPEN, old(ss.peer).id, 0)]
    {
      var s := DetachSmart(ss);
      label Detached:
      s.read := false;
      forall o | o in live
        ensures Linked(o)
      {
        assert o != s ==> old@Detached(Linked(o));
      }
      ConnectToRemote(s, t);
    }

    /** The end of smart_socket_enqueue for a host service: the local socket is joined to the socket
        of the service, and the smart socket is deleted. */
    method SmartToService(ss: Socket, s2: Socket)
      requires Valid() && ss in live && ss.kind.Smart? && s2 in locals && s2.peer == null
      modifies this`live, ss`peer, ss.peer`peer, s2`peer, s2`read
      ensures Valid() && live == old(live) - {ss}
      ensures old(ss.peer).peer == s2 && s2.peer == old(ss.peer) && s2.read
    {
      assert Linked(ss) && Linked(s2);
      var s := DetachSmart(ss);
      assert Linked(s2);
      Join(s, s2);
    }
  }

  /** A stream of transport 1, and a WRTE with its ids that comes on transport 2: it is taken. */
  method OtherTransport() returns (home: nat, taken: bool)
    ensures home == 1 && taken
  {
    var table := new SocketTable();
    var s := table.HandleOpen(1, true, 5, 0, true);
    home := s.peer.transport;
    assert table.locals == [s] && SocketTable.Addressed(s, 2, WRTE([7]), 5, s.id) && !SocketTable.Of(s, 2);
    var reached := table.HandlePacket(2, true, WRTE([7]), 5, s.id, Wrote(1), false);
    taken := reached == s;
  }

  /** What read answers. */
  datatype ReadAnswer = Got(bytes: seq<Byte>) | WouldBlock | EndOrError

  /** A read returns at least a byte and no more than there is room for. */
  predicate Plausible(answers: seq<ReadAnswer>, room: nat) {
    answers == [] || room == 0 ||
    (answers[0].Got? ==> 0 < |answers[0].bytes| <= room && Plausible(answers[1..], room - |answers[0].bytes|))
  }

  /** All that is read before the descriptor blocks or ends or the room is used up, and whether it
      ended. Past the given answers the descriptor blocks. */
  function Available(answers: seq<ReadAnswer>, room: nat): (r: (seq<Byte>, bool))
    requires Plausible(answers, room)
    ensures |r.0| <= room && (r.1 ==> |r.0| < room)
  {
    if answers == [] || room == 0 then ([], false)
    else
      match answers[0]
      case WouldBlock => ([], false)
      case EndOrError => ([], true)
      case Got(bytes) =>
        var (rest, eof) := Available(answers[1..], room - |bytes|);
        (bytes + rest, eof)
  }

  /** All the bytes that the first answers bring. */
  function BytesOf(answers: seq<ReadAnswer>): seq<Byte>
    requires forall i :: 0 <= i < |answers| ==> answers[i].Got?
  {
    if answers == [] then [] else answers[0].bytes + BytesOf(answers[1..])
  }

  /** What is available, without the loop: the bytes of the reads in front of the first that brings
      none, or until the room is used up; it ends there exactly if there is room left and that read
      met the end or an error. */
  lemma {:induction false} AvailableMeans(answers: seq<ReadAnswer>, room: nat) returns (k: nat)
    requires Plausible(answers, room)
    ensures k <= |answers| && forall i :: 0 <= i < k ==> answers[i].Got?
    ensures var (data, eof) := Available(answers, room);
            && data == BytesOf(answers[..k]) && |data| <= room
            && (k < |answers| && |data| < room ==> !answers[k].Got?)
            && (eof <==> k < |answers| && |data| < room && answers[k].EndOrError?)
    decreases |answers|
  {
    if answers == [] || room == 0 || !answers[0].Got? {
      k := 0;
    } else {
      var j := AvailableMeans(answers[1..], room - |answers[0].bytes|);
      k := j + 1;
      assert answers[..k][1..] == answers[1..][..j];
      assert forall i :: 0 < i < k ==> answers[i] == answers[1..][i - 1];
    }
  }

  /** The read loop of local_socket_flush_outgoing. */
  method ReadLoop(answers: seq<ReadAnswer>, limit: nat) returns (data: seq<Byte>, eof: bool)
    requires Plausible(answers, limit)
    ensures (data, eof) == Available(answers, limit)
    ensures |data| <= limit && (eof ==> |data| < limit)
  {
    data, eof := [], false;
    var i, avail := 0, limit;
    assert answers[0..] == answers;
    assert [] + Available(answers, limit).0 == Available(answers, limit).0;
    while avail > 0 && i < |answers|
      invariant i <= |answers| && 0 <= avail <= limit && |data| + avail == limit && !eof
      invariant Plausible(answers[i..], avail) && Available(answers, limit) == Ahead(data, answers[i..], avail)
      decreases |answers| - i
    {
      AheadStep(data, answers, i, avail);
      match answers[i] {
        case WouldBlock =>
          return;
        case EndOrError =>
          return data, true;
        case Got(bytes) =>
          avail, data := avail - |bytes|, data + bytes;
      }
      i := i + 1;
    }
    AheadDone(data, answers[i..], avail);
  }

  /** What is read, and then what is still available. */
  ghost function Ahead(data: seq<Byte>, answers: seq<ReadAnswer>, room: nat): (seq<Byte>, bool)
    requires Plausible(answers, room)
  {
    (data + Available(answers, room).0, Available(answers, room).1)
  }

  lemma AheadDone(data: seq<Byte>, answers: seq<ReadAnswer>, room: nat)
    requires answers == [] || room == 0
    ensures Ahead(data, answers, room) == (data, false)
  {
    assert data + [] == data;
  }

  lemma AheadStep(data: seq<Byte>, answers: seq<ReadAnswer>, i: nat, room: nat)
    requires i < |answers| && room > 0 && Plausible(answers[i..], room)
    ensures answers[i].WouldBlock? ==> Ahead(data, answers[i..], room) == (data, false)
    ensures answers[i].EndOrError? ==> Ahead(data, answers[i..], room) == (data, true)
    ensures answers[i].Got? ==>
      var bytes := answers[i].bytes;
      && 0 < |bytes| <= room && Plausible(answers[i + 1..], room - |bytes|)
      && Ahead(data, answers[i..], room) == Ahead(data + bytes, answers[i + 1..], room - |bytes|)
  {
    assert answers[i..][1..] == answers[i + 1..];
    assert data + [] == data;
    if answers[i].Got? {
      var bytes := answers[i].bytes;
      Associate(data, bytes, Available(answers[i + 1..], room - |bytes|).0);
    }
  }
}
