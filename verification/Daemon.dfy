/** The objects do what the multiplexed streams do: a table of sockets on one transport represents one
    side of the network of Multiplex, and every handler takes the step that this side takes. */
module Daemon {
  import opened Bytes
  import opened Multiplex
  import opened Sockets
  import opened Stream

  /** A local socket of the transport, and its record. */
  ghost predicate Mirrors(table: SocketTable, t: nat, s: Socket, x: Sock)
    reads table, s, s.peer
  {
    && SocketTable.StreamSocket(s) && (s.peer != null ==> s.peer.transport == t && x.peer == s.peer.id)
    && x.end.half == table.HalfOf(s)
  }

  ghost predicate Recorded(table: SocketTable, t: nat, a: Side)
    reads table, table.live, set s | s in table.live && s.peer != null :: s.peer
  {
    forall s :: s in table.live && s.kind.Local? ==> s.id in a.socks && Mirrors(table, t, s, a.socks[s.id])
  }

  ghost predicate Present(table: SocketTable, k: nat)
    reads table
  {
    k in table.byId && table.byId[k] in table.live && table.byId[k].kind.Local? && table.byId[k].id == k
  }

  /** Every local socket has a record, and every record that is not gone has its socket. */
  ghost predicate Represents(table: SocketTable, t: nat, a: Side)
    reads table, table.live, set s | s in table.live && s.peer != null :: s.peer
  {
    && table.Valid() && table.nextId == a.next && Recorded(table, t, a)
    && (forall k :: k in a.socks && !a.socks[k].end.half.phase.Gone? ==> Present(table, k))
  }

  /** find_local_socket finds a socket exactly if there is an open record with these ids. */
  lemma Finds(table: SocketTable, t: nat, a: Side, from: nat, to: nat)
    requires Represents(table, t, a) && from != 0
    ensures (to in a.socks && a.socks[to].end.half.phase.Open? && a.socks[to].peer == from)
            <==> exists s :: s in table.locals && table.Matches(s, to, from)
    ensures forall s :: s in table.locals && table.Matches(s, to, from) ==>
              s.id == to && to in a.socks && table.HalfOf(s) == a.socks[to].end.half
  {
    forall s | s in table.locals && table.Matches(s, to, from)
      ensures s.id == to && to in a.socks && table.HalfOf(s) == a.socks[to].end.half
      ensures a.socks[to].end.half.phase.Open? && a.socks[to].peer == from
    {
      assert s in table.live && s.kind.Local?;
      assert Mirrors(table, t, s, a.socks[s.id]);
    }
    if to in a.socks && a.socks[to].end.half.phase.Open? && a.socks[to].peer == from {
      assert Present(table, to);
      var s := table.byId[to];
      assert Mirrors(table, t, s, a.socks[to]);
      assert s in table.locals && table.Matches(s, to, from);
    }
  }

  /** The local sockets other than s, and their records. */
  ghost predicate Others(table: SocketTable, t: nat, a: Side, s: Socket)
    reads table, table.live, set o | o in table.live && o.peer != null :: o.peer
  {
    && (forall o :: o in table.live && o.kind.Local? && o != s ==> o.id in a.socks && Mirrors(table, t, o, a.socks[o.id]))
    && (forall k :: k in a.socks && k != s.id && !a.socks[k].end.half.phase.Gone? ==> Present(table, k))
  }

  /** The peers of two local sockets are two sockets, if there are any. */
  lemma Apart(table: SocketTable, s: Socket)
    requires table.Valid() && s in table.live
    ensures forall o :: o in table.live && o != s && o != s.peer ==> o.peer != s && (o.peer != null ==> o.peer != s.peer)
  {
    assert table.Linked(s);
    forall o | o in table.live && o != s && o != s.peer
      ensures o.peer != s && (o.peer != null ==> o.peer != s.peer)
    {
      assert table.Linked(o);
    }
  }

  /** The record of s is brought up to date. */
  lemma Updated(table: SocketTable, t: nat, a: Side, s: Socket, x: Sock)
    requires table.Valid() && table.nextId == a.next && Others(table, t, a, s) && s.kind.Local?
    requires s in table.live ==> Present(table, s.id) && Mirrors(table, t, s, x)
    requires x.end.half == table.HalfOf(s) && s.id in table.byId && table.byId[s.id] == s
    ensures Represents(table, t, a.(socks := a.socks[s.id := x]))
  {
    var a' := a.(socks := a.socks[s.id := x]);
    forall o | o in table.live && o.kind.Local?
      ensures o.id in a'.socks && Mirrors(table, t, o, a'.socks[o.id])
    {
      assert table.byId[o.id] == o;
    }
  }

  /** The packet did something to s, and the others are as they were. */
  ghost predicate Acted(table: SocketTable, t: nat, a: Side, m: Msg, s: Socket)
    reads table, table.live, set o | o in table.live && o.peer != null :: o.peer
  {
    && table.Valid() && table.nextId == a.next && Others(table, t, a, s)
    && s.kind.Local? && s.id == m.to && m.to in a.socks && s.id in table.byId && table.byId[s.id] == s
  }

  /** A_WRTE leaves the others alone. */
  method WriteOf(table: SocketTable, t: nat, ghost a: Side, m: Msg, w: WriteAnswer) returns (found: Socket?)
    requires Represents(table, t, a) && m.pkt.WRTE?
    requires Takes(a, m) ==> Possible(a.socks[m.to].end.half.queue + m.pkt.data, w)
    modifies table, table.live
    ensures found != null <==> Takes(a, m)
    ensures found == null ==> Represents(table, t, a) && table.wire == old(table.wire)
    ensures found != null ==> Acted(table, t, a, m, found)
    ensures found != null ==>
      var f := OnPacket(a.socks[m.to].end.half, m.pkt, w, true);
      && table.HalfOf(found) == f.half && table.wire == old(table.wire) + Tag(t, m.to, m.from, f.emits)
      && Mirrors(table, t, found, a.socks[m.to].(end := a.socks[m.to].end.(half := f.half)))
    ensures table.live == old(table.live)
  {
    if m.from != 0 {
      Finds(table, t, a, m.from, m.to);
    }
    found := table.HandleWrite(t, true, m.from, m.to, m.pkt.data, w);
    if found == null {
      return;
    }
    forall o | o in table.live && o.kind.Local? && o != found
      ensures o.id in a.socks && Mirrors(table, t, o, a.socks[o.id])
    {
      assert old(Mirrors(table, t, o, a.socks[o.id]));
    }
    forall k | k in a.socks && k != found.id && !a.socks[k].end.half.phase.Gone?
      ensures Present(table, k)
    {
      assert old(Present(table, k));
    }
  }

  /** A_WRTE. */
  method Write(table: SocketTable, t: nat, ghost a: Side, m: Msg, w: WriteAnswer)
    requires Represents(table, t, a) && m.pkt.WRTE?
    requires Takes(a, m) ==> Possible(a.socks[m.to].end.half.queue + m.pkt.data, w)
    modifies table, table.live
    ensures var o := OnMsg(a, m, w, false);
            Represents(table, t, o.side) && table.wire == old(table.wire) + Tag(t, o.from, o.to, o.pkts)
    ensures fresh(table.live - old(table.live))
  {
    var found := WriteOf(table, t, a, m, w);
    if found != null {
      SameAnswer(a.socks[m.to].end.half, m.pkt, w, true);
      Updated(table, t, a, found, OnMsg(a, m, w, false).side.socks[m.to]);
    }
  }

  /** A socket is on local_socket_list exactly if its record says so. */
  lemma FindsListed(table: SocketTable, t: nat, a: Side, to: nat)
    requires Represents(table, t, a)
    ensures (to in a.socks && Listed(a.socks[to].end.half)) <==> exists s :: s in table.locals && s.id == to
    ensures forall s :: s in table.locals && s.id == to ==>
              to in a.socks && Mirrors(table, t, s, a.socks[to]) && to != 0
  {
    forall s | s in table.locals && s.id == to
      ensures to in a.socks && Mirrors(table, t, s, a.socks[to]) && Listed(a.socks[to].end.half) && to != 0
    {
      assert s in table.live && s.kind.Local?;
    }
    if to in a.socks && Listed(a.socks[to].end.half) {
      assert Present(table, to);
      var s := table.byId[to];
      assert Mirrors(table, t, s, a.socks[to]);
      assert s in table.locals && s.id == to;
    }
  }

  /** A CLSE is for the socket that handle_packet may close. */
  lemma FindsClosable(table: SocketTable, t: nat, a: Side, m: Msg)
    requires Represents(table, t, a) && m.pkt.CLSE?
    ensures Takes(a, m) <==> (m.to != 0 && exists s :: s in table.locals && table.MayClose(s, t, m.from, m.to))
    ensures forall s :: s in table.locals && table.MayClose(s, t, m.from, m.to) ==>
              s in table.live && m.to in a.socks && Mirrors(table, t, s, a.socks[m.to])
  {
    FindsListed(table, t, a, m.to);
    if Takes(a, m) {
      var s :| s in table.locals && s.id == m.to;
      assert table.MayClose(s, t, m.from, m.to);
    }
  }

  /** A_CLSE leaves the others alone. */
  method CloseOf(table: SocketTable, t: nat, ghost a: Side, m: Msg) returns (found: Socket?)
    requires Represents(table, t, a) && m.pkt.CLSE?
    modifies table, table.live
    ensures found != null <==> Takes(a, m)
    ensures found == null ==> Represents(table, t, a) && table.wire == old(table.wire)
    ensures found != null ==> Acted(table, t, a, m, found)
    ensures found != null ==> found in old(table.locals) && old(Mirrors(table, t, found, a.socks[m.to])) && found.peer == null
    ensures found != null ==> table.HalfOf(found) == Stream.Close(old(table.HalfOf(found)))
    ensures found != null ==>
      table.wire == old(table.wire) + if old(found.peer != null) then [Sent(t, CLSE, m.to, old(found.peer).id)] else []
    ensures table.live <= old(table.live)
  {
    FindsClosable(table, t, a, m);
    found := table.HandleClose(t, true, m.from, m.to);
    if found == null {
      return;
    }
    forall o | o in table.live && o.kind.Local? && o != found
      ensures o.id in a.socks && Mirrors(table, t, o, a.socks[o.id])
    {
      assert old(Mirrors(table, t, o, a.socks[o.id]));
      assert o.peer != null ==> unchanged(o.peer) by {
        assert old(table.Linked(o));
      }
    }
    forall k | k in a.socks && k != found.id && !a.socks[k].end.half.phase.Gone?
      ensures Present(table, k)
    {
      assert old(Present(table, k));
    }
  }

  /** A_CLSE. */
  method Close(table: SocketTable, t: nat, ghost a: Side, m: Msg)
    requires Represents(table, t, a) && m.pkt.CLSE?
    modifies table, table.live
    ensures var o := OnMsg(a, m, Again, false);
            Represents(table, t, o.side) && table.wire == old(table.wire) + Tag(t, o.from, o.to, o.pkts)
    ensures fresh(table.live - old(table.live))
  {
    var found := CloseOf(table, t, a, m);
    if found != null {
      TagOne(t, m.to, a.socks[m.to].peer, CLSE);
      Updated(table, t, a, found, OnMsg(a, m, Again, false).side.socks[m.to]);
    }
  }

  /** A_OKAY leaves the others alone. */
  method OkayOf(table: SocketTable, t: nat, ghost a: Side, m: Msg) returns (found: Socket?)
    requires Represents(table, t, a) && m.pkt.OKAY?
    modifies table, table.live
    ensures found != null <==> Takes(a, m)
    ensures found == null ==> Represents(table, t, a)
    ensures found == null ==>
      table.wire == old(table.wire) + if m.from != 0 && m.to != 0 && (m.to in a.socks ==> !Listed(a.socks[m.to].end.half))
                                      then [Sent(t, CLSE, m.to, m.from)] else []
    ensures found != null ==> Acted(table, t, a, m, found) && found in table.live && table.wire == old(table.wire)
    ensures found != null ==>
      var x := a.socks[m.to];
      && table.HalfOf(found) == OnPacket(x.end.half, OKAY, Again, true).half
      && Mirrors(table, t, found, x.(end := x.end.(half := table.HalfOf(found)), peer := m.from))
    ensures fresh(table.live - old(table.live))
  {
    FindsListed(table, t, a, m.to);
    found := table.HandleOkay(t, true, m.from, m.to);
    forall o | o in table.live && o.kind.Local? && o != found
      ensures o.id in a.socks && Mirrors(table, t, o, a.socks[o.id])
    {
      assert old(Mirrors(table, t, o, a.socks[o.id]));
    }
    forall k | k in a.socks && !a.socks[k].end.half.phase.Gone?
      ensures Present(table, k)
    {
      assert old(Present(table, k));
    }
    if found != null && found.peer.id != m.from {
      assert Mirrors(table, t, found, a.socks[m.to]);
      found := null;
    }
  }

  /** A_OKAY. */
  method Okay(table: SocketTable, t: nat, ghost a: Side, m: Msg)
    requires Represents(table, t, a) && m.pkt.OKAY?
    modifies table, table.live
    ensures var o := OnMsg(a, m, Again, false);
            Represents(table, t, o.side) && table.wire == old(table.wire) + Tag(t, o.from, o.to, o.pkts)
    ensures fresh(table.live - old(table.live))
  {
    var found := OkayOf(table, t, a, m);
    TagOne(t, m.to, m.from, CLSE);
    if found != null {
      SameAnswer(a.socks[m.to].end.half, m.pkt, Again, true);
      Updated(table, t, a, found, OnMsg(a, m, Again, false).side.socks[m.to]);
    }
  }

  /** A_OPEN. */
  method AcceptOrRefuse(table: SocketTable, t: nat, ghost a: Side, m: Msg, accept: bool)
    requires Represents(table, t, a) && m.pkt.OPEN? && (m.from != 0 && m.to == 0 && accept ==> table.nextId + 1 < WORD)
    modifies table
    ensures var o := OnMsg(a, m, Again, accept);
            Represents(table, t, o.side) && table.wire == old(table.wire) + Tag(t, o.from, o.to, o.pkts)
    ensures fresh(table.live - old(table.live))
  {
    ghost var a' := OnMsg(a, m, Again, accept).side;
    var s := table.HandleOpen(t, true, m.from, m.to, accept);
    TagOne(t, a.next, m.from, OKAY);
    TagOne(t, 0, m.from, CLSE);
    forall o | o in table.live && o.kind.Local?
      ensures o.id in a'.socks && Mirrors(table, t, o, a'.socks[o.id])
    {
      if o != s {
        assert old(Mirrors(table, t, o, a.socks[o.id]));
      }
      assert table.byId[o.id] == o;
    }
    forall k | k in a'.socks && !a'.socks[k].end.half.phase.Gone?
      ensures Present(table, k)
    {
      if s == null || k != s.id {
        assert old(Present(table, k));
      }
    }
  }

  /** connect_to_remote, with a new local socket. */
  method Connect(table: SocketTable, t: nat, ghost n: Net, limit: nat)
    requires Represents(table, t, n.a) && table.nextId + 1 < WORD
    modifies table
    ensures Represents(table, t, NextA(n, Action.Connect, limit).a)
    ensures table.wire == old(table.wire) + [Sent(t, OPEN, n.a.next, 0)]
    ensures fresh(table.live - old(table.live))
  {
    ghost var a, a' := n.a, NextA(n, Action.Connect, limit).a;
    var s := table.CreateLocalSocket();
    table.ConnectToRemote(s, t);
    forall o | o in table.live && o.kind.Local?
      ensures o.id in a'.socks && Mirrors(table, t, o, a'.socks[o.id])
    {
      if o != s {
        assert old(Mirrors(table, t, o, a.socks[o.id]));
      }
      assert table.byId[o.id] == o;
    }
    forall k | k in a'.socks && !a'.socks[k].end.half.phase.Gone?
      ensures Present(table, k)
    {
      if k != s.id {
        assert old(Present(table, k));
      }
    }
  }

  /** A valid table has the event masks right. */
  lemma MasksOk(table: SocketTable, s: Socket)
    requires table.Valid() && s in table.live && SocketTable.StreamSocket(s)
    ensures Ok(table.HalfOf(s))
  {
    assert table.Linked(s);
  }

  lemma NoPackets(t: nat, s: Socket, x: Sock, pkts: seq<Pkt>)
    requires s.peer != null ==> s.peer.transport == t && x.peer == s.peer.id
    requires s.peer == null ==> pkts == []
    ensures SocketTable.Tagged(s, pkts) == Tag(t, s.id, x.peer, pkts)
  {
  }

  /** An event of s leaves the others alone. */
  method EventOf(table: SocketTable, t: nat, ghost a: Side, s: Socket, e: Event, limit: nat)
    requires Represents(table, t, a) && s in table.live && s.kind.Local?
    requires EventPossible(a.socks[s.id].end.half, e, limit)
    modifies table, table.live
    ensures table.Valid() && table.nextId == a.next && Others(table, t, a, s)
    ensures var x := a.socks[s.id];
            && (s in table.live ==> Present(table, s.id) && Mirrors(table, t, s, x.(end := x.end.(half := table.HalfOf(s)))))
            && table.HalfOf(s) == OnEvent(x.end.half, e).half
            && table.wire == old(table.wire) + old(SocketTable.Tagged(s, OnEvent(x.end.half, e).emits))
    ensures table.live <= old(table.live) && s.id in table.byId && table.byId[s.id] == s
  {
    assert Mirrors(table, t, s, a.socks[s.id]);
    Apart(table, s);
    table.StreamEvent(s, e, limit);
    forall o | o in table.live && o.kind.Local? && o != s
      ensures o.id in a.socks && Mirrors(table, t, o, a.socks[o.id])
    {
      assert old(Mirrors(table, t, o, a.socks[o.id]));
    }
    forall k | k in a.socks && k != s.id && !a.socks[k].end.half.phase.Gone?
      ensures Present(table, k)
    {
      assert old(Present(table, k));
    }
  }

  /** An event of the file descriptor of s. */
  method OnEventOf(table: SocketTable, t: nat, ghost n: Net, s: Socket, e: Event, limit: nat)
    requires Represents(table, t, n.a) && s in table.live && s.kind.Local?
    requires EnabledA(n, OnFd(s.id, e), limit)
    modifies table, table.live
    ensures Represents(table, t, NextA(n, OnFd(s.id, e), limit).a)
    ensures var x := n.a.socks[s.id];
            table.wire == old(table.wire) + Tag(t, s.id, x.peer, OnEvent(x.end.half, e).emits)
    ensures table.live <= old(table.live)
  {
    assert Mirrors(table, t, s, n.a.socks[s.id]);
    MasksOk(table, s);
    EventAccount(table.HalfOf(s), e, limit);
    NoPackets(t, s, n.a.socks[s.id], OnEvent(table.HalfOf(s), e).emits);
    EventOf(table, t, n.a, s, e, limit);
    Updated(table, t, n.a, s, NextA(n, OnFd(s.id, e), limit).a.socks[s.id]);
  }

  /** A new table is one side of a network without streams. */
  method Start(t: nat) returns (table: SocketTable)
    ensures fresh(table) && Represents(table, t, EMPTY.a) && table.wire == []
  {
    table := new SocketTable();
  }

  /** handle_packet: whatever arrives, the table takes the step of its side, and sends its packets. */
  method HandlePacket(table: SocketTable, t: nat, ghost a: Side, m: Msg, w: WriteAnswer, accept: bool)
    requires Represents(table, t, a) && (m.pkt.OPEN? && m.from != 0 && m.to == 0 && accept ==> table.nextId + 1 < WORD)
    requires Takes(a, m) && m.pkt.WRTE? ==> Possible(a.socks[m.to].end.half.queue + m.pkt.data, w)
    modifies table, table.live
    ensures var o := OnMsg(a, m, w, accept);
            Represents(table, t, o.side) && table.wire == old(table.wire) + Tag(t, o.from, o.to, o.pkts)
    ensures fresh(table.live - old(table.live))
  {
    match m.pkt
    case OPEN => AcceptOrRefuse(table, t, a, m, accept);
    case OKAY => Okay(table, t, a, m);
    case CLSE => Close(table, t, a, m);
    case WRTE(_) => Write(table, t, a, m, w);
  }
}
