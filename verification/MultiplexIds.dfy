/** The ids of sockets and packets fit together in every run. */
module MultiplexIds {
  import opened Bytes
  import opened Multiplex
  import opened Options
  import opened Stream

  /** A socket that asked for its stream knows its peer only after the other end made it. */
  predicate Opener(s: Sock, k: nat, b: Side) {
    && !s.end.half.phase.Absent?
    && (s.peer != 0 ==> k in b.answered && b.answered[k] == Some(s.peer))
    && (s.end.half.phase.Open? ==> s.peer != 0)
    && (s.end.half.phase.Connecting? ==> s.peer == 0)
  }

  /** A socket that was made for an OPEN has had its peer from the start. */
  predicate Acceptor(s: Sock, k: nat, a: Side, b: Side) {
    && !s.end.half.phase.Absent? && !s.end.half.phase.Connecting?
    && s.peer in b.socks && b.socks[s.peer].opener
    && s.peer in a.answered && a.answered[s.peer] == Some(k)
  }

  predicate SockIds(a: Side, b: Side, k: nat)
    requires k in a.socks
  {
    && 0 < k < a.next
    && (if a.socks[k].opener then Opener(a.socks[k], k, b) else Acceptor(a.socks[k], k, a, b))
  }

  /** An OPEN of a that was answered. */
  predicate AnswerIds(a: Side, b: Side, i: nat)
    requires i in b.answered
  {
    && i in a.socks && a.socks[i].opener
    && (b.answered[i].Some? ==>
          var j := b.answered[i].value;
          j in b.socks && !b.socks[j].opener && b.socks[j].peer == i)
  }

  predicate Ids(a: Side, b: Side) {
    && 0 < a.next
    && (forall k :: k in a.socks ==> SockIds(a, b, k))
    && (forall i :: i in b.answered ==> AnswerIds(a, b, i))
  }

  /** A packet from a carries the ids of the two sockets of its stream; that of a refusal has no
      socket to come from. */
  predicate Addressed(a: Side, b: Side, m: Msg) {
    if m.pkt.OPEN? then m.to == 0 && m.from in a.socks && a.socks[m.from].opener
    else if m.from == 0 then m.pkt.CLSE? && m.to in a.answered && a.answered[m.to].None?
    else
      && m.to != 0 && m.from in a.socks
      && (if a.socks[m.from].opener
          then m.from in b.answered && b.answered[m.from] == Some(m.to)
          else a.socks[m.from].peer == m.to)
  }

  predicate AllAddressed(a: Side, b: Side, ch: seq<Msg>) {
    forall k :: 0 <= k < |ch| ==> Addressed(a, b, ch[k])
  }

  predicate IdsOk(n: Net) {
    && Ids(n.a, n.b) && Ids(n.b, n.a)
    && AllAddressed(n.a, n.b, n.ab) && AllAddressed(n.b, n.a, n.ba)
  }

  /** a' is a after some steps of a: nothing is forgotten. */
  predicate Grows(a: Side, a': Side) {
    && a.next <= a'.next
    && (forall k :: k in a.socks ==>
          && k in a'.socks && a'.socks[k].opener == a.socks[k].opener
          && (a.socks[k].peer != 0 ==> a'.socks[k].peer == a.socks[k].peer))
    && (forall i :: i in a.answered ==> i in a'.answered && a'.answered[i] == a.answered[i])
  }

  lemma StillAddressed(a: Side, a': Side, b: Side, ch: seq<Msg>)
    requires Grows(a, a') && Ids(a, b) && Ids(b, a) && AllAddressed(a, b, ch)
    ensures AllAddressed(a', b, ch)
  {
    forall k | 0 <= k < |ch|
      ensures Addressed(a', b, ch[k])
    {
      var m := ch[k];
      assert Addressed(a, b, m);
      if m.from in a.socks {
        assert SockIds(a, b, m.from);
        if !a.socks[m.from].opener {
          assert SockIds(b, a, a.socks[m.from].peer);
        }
      }
    }
  }

  lemma StillAddressedTo(a: Side, a': Side, b: Side, ch: seq<Msg>)
    requires Grows(a, a') && AllAddressed(b, a, ch)
    ensures AllAddressed(b, a', ch)
  {
    forall k | 0 <= k < |ch|
      ensures Addressed(b, a', ch[k])
    {
      assert Addressed(b, a, ch[k]);
    }
  }

  /** The other side's ids, while a only grows. */
  lemma OtherIds(a: Side, a': Side, b: Side)
    requires Grows(a, a') && Ids(a, b) && Ids(b, a)
    requires forall i :: i in a'.answered && i !in a.answered ==> AnswerIds(b, a', i)
    ensures Ids(b, a')
  {
    forall k | k in b.socks
      ensures SockIds(b, a', k)
    {
      assert SockIds(b, a, k);
    }
    forall i | i in a'.answered
      ensures AnswerIds(b, a', i)
    {
      if i in a.answered {
        assert AnswerIds(b, a, i);
        if a.answered[i].Some? {
          var j := a.answered[i].value;
          assert SockIds(a, b, j);
          assert SockIds(b, a, i);
        }
      }
    }
  }

  lemma AnswersKept(a: Side, a': Side, b: Side)
    requires Grows(a, a') && Ids(a, b)
    ensures forall i :: i in b.answered ==> AnswerIds(a', b, i)
  {
    forall i | i in b.answered
      ensures AnswerIds(a', b, i)
    {
      assert AnswerIds(a, b, i);
    }
  }

  // The steps of a.

  lemma ConnectIds(n: Net, limit: nat)
    requires IdsOk(n)
    ensures IdsOk(NextA(n, Connect, limit)) && Grows(n.a, NextA(n, Connect, limit).a)
  {
    var n' := NextA(n, Connect, limit);
    var a, a', b := n.a, n'.a, n.b;
    assert a.next !in a.socks;
    StillAddressed(a, a', b, n.ab);
    StillAddressedTo(a, a', b, n.ba);
    OtherIds(a, a', b);
    AnswersKept(a, a', b);
    forall k | k in a'.socks
      ensures SockIds(a', b, k)
    {
      if k != a.next {
        assert SockIds(a, b, k);
      }
    }
  }

  /** A step that changes one socket of a, but neither whose it is nor a peer it has. */
  lemma UpdateIds(a: Side, b: Side, k: nat, s: Sock)
    requires Ids(a, b) && Ids(b, a) && k in a.socks
    requires s.opener == a.socks[k].opener && (a.socks[k].peer != 0 ==> s.peer == a.socks[k].peer)
    requires var a' := a.(socks := a.socks[k := s]); SockIds(a', b, k)
    ensures var a' := a.(socks := a.socks[k := s]); Grows(a, a') && Ids(a', b) && Ids(b, a')
  {
    var a' := a.(socks := a.socks[k := s]);
    OtherIds(a, a', b);
    AnswersKept(a, a', b);
    forall i | i in a'.socks
      ensures SockIds(a', b, i)
    {
      if i != k {
        assert SockIds(a, b, i);
      }
    }
  }

  lemma Appended(a: Side, b: Side, ch: seq<Msg>, more: seq<Msg>)
    requires AllAddressed(a, b, ch) && AllAddressed(a, b, more)
    ensures AllAddressed(a, b, ch + more)
  {
  }

  /** Packets of an open socket go to its peer. */
  lemma OwnAddressed(a: Side, b: Side, k: nat, pkts: seq<Pkt>)
    requires Ids(a, b) && Ids(b, a) && k in a.socks && OPEN !in pkts && (pkts != [] ==> a.socks[k].peer != 0)
    ensures AllAddressed(a, b, Address(pkts, k, a.socks[k].peer))
  {
    assert SockIds(a, b, k);
    var ch := Address(pkts, k, a.socks[k].peer);
    forall i | 0 <= i < |ch|
      ensures Addressed(a, b, ch[i])
    {
      assert pkts[i] in pkts;
    }
  }

  lemma FdIds(n: Net, id: nat, e: Event, limit: nat)
    requires IdsOk(n) && EnabledA(n, OnFd(id, e), limit) && Ok(n.a.socks[id].end.half)
    ensures IdsOk(NextA(n, OnFd(id, e), limit)) && Grows(n.a, NextA(n, OnFd(id, e), limit).a)
  {
    var n' := NextA(n, OnFd(id, e), limit);
    var a, a', b := n.a, n'.a, n.b;
    var s := a.socks[id];
    EventAccount(s.end.half, e, limit);
    assert SockIds(a, b, id);
    UpdateIds(a, b, id, a'.socks[id]);
    StillAddressed(a, a', b, n.ab);
    StillAddressedTo(a, a', b, n.ba);
    OwnAddressed(a', b, id, OnEvent(s.end.half, e).emits);
    Appended(a', b, n.ab, Address(OnEvent(s.end.half, e).emits, id, s.peer));
  }

  lemma OpenSockIds(a: Side, b: Side, m: Msg, accept: bool)
    requires Ids(a, b) && Addressed(b, a, m) && m.pkt.OPEN? && m.from !in a.answered
    ensures var a' := OnOpen(a, m, accept).side; forall k :: k in a'.socks ==> SockIds(a', b, k)
  {
    var a' := OnOpen(a, m, accept).side;
    forall k | k in a'.socks
      ensures SockIds(a', b, k)
    {
      if k != a.next {
        assert SockIds(a, b, k);
      }
    }
  }

  lemma OpenSide(a: Side, b: Side, m: Msg, accept: bool)
    requires Ids(a, b) && Ids(b, a) && Addressed(b, a, m) && m.pkt.OPEN? && m.from !in a.answered
    ensures var o := OnOpen(a, m, accept);
            Grows(a, o.side) && Ids(o.side, b) && Ids(b, o.side) && AllAddressed(o.side, b, o.Emits())
  {
    var a' := OnOpen(a, m, accept).side;
    assert SockIds(b, a, m.from);
    assert a.next !in a.socks;
    assert AnswerIds(b, a', m.from);
    OtherIds(a, a', b);
    AnswersKept(a, a', b);
    OpenSockIds(a, b, m, accept);
    OpenAddressed(a, b, m, accept);
  }

  lemma OpenAddressed(a: Side, b: Side, m: Msg, accept: bool)
    requires Ids(a, b) && Ids(b, a) && Addressed(b, a, m) && m.pkt.OPEN? && m.from !in a.answered
    ensures var o := OnOpen(a, m, accept); AllAddressed(o.side, b, o.Emits())
  {
    assert SockIds(b, a, m.from);
  }

  lemma OpenIds(n: Net, w: WriteAnswer, accept: bool, limit: nat)
    requires IdsOk(n) && EnabledA(n, Deliver(w, accept), limit)
    requires n.ba[0].pkt.OPEN? && n.ba[0].from !in n.a.answered
    ensures IdsOk(NextA(n, Deliver(w, accept), limit)) && Grows(n.a, NextA(n, Deliver(w, accept), limit).a)
  {
    var m := n.ba[0];
    assert Addressed(n.b, n.a, m);
    assert SockIds(n.b, n.a, m.from);
    OpenSide(n.a, n.b, m, accept);
    ChannelsIds(n, OnOpen(n.a, m, accept));
  }

  /** A packet that is not an OPEN and comes from a socket finds its own stream's socket. */
  lemma RightSocket(a: Side, b: Side, m: Msg)
    requires Ids(a, b) && Ids(b, a) && Addressed(b, a, m) && !m.pkt.OPEN? && m.from != 0
    ensures m.to in a.socks && m.from in b.socks && b.socks[m.from].opener != a.socks[m.to].opener
    ensures a.socks[m.to].peer == m.from || (a.socks[m.to].opener && a.socks[m.to].peer == 0)
    ensures a.socks[m.to].opener ==> m.to in b.answered && b.answered[m.to] == Some(m.from)
    ensures !a.socks[m.to].opener ==> m.from in a.answered && a.answered[m.from] == Some(m.to)
  {
    assert SockIds(b, a, m.from);
    if b.socks[m.from].opener {
      assert AnswerIds(b, a, m.from);
      assert SockIds(a, b, m.to);
    } else {
      assert AnswerIds(a, b, m.to);
      assert SockIds(a, b, m.to);
    }
  }

  /** The phases that a packet leads to. */
  lemma TakenPhase(h: Half, p: Pkt, w: WriteAnswer)
    requires Ok(h) && Listed(h) && !p.OPEN? && (p.WRTE? ==> h.phase.Open? && Possible(h.queue + p.data, w))
    ensures var h' := OnPacket(h, p, w, false).half;
            && !h'.phase.Absent? && !h'.phase.Connecting?
            && (h'.phase.Open? ==> p.OKAY? || h.phase.Open?)
  {
  }

  /** The socket after a packet that it takes. */
  lemma TakenSock(a: Side, b: Side, m: Msg, w: WriteAnswer)
    requires Ids(a, b) && Ids(b, a) && Addressed(b, a, m) && Takes(a, m)
    requires Ok(a.socks[m.to].end.half)
    requires m.pkt.WRTE? ==> m.pkt.data != [] && Possible(a.socks[m.to].end.half.queue + m.pkt.data, w)
    ensures var (s, s') := (a.socks[m.to], OnTaken(a, m, w).side.socks[m.to]);
            && s'.opener == s.opener && (s.peer != 0 ==> s'.peer == s.peer)
            && SockIds(OnTaken(a, m, w).side, b, m.to)
            && OPEN !in OnPacket(s.end.half, m.pkt, w, false).emits
            && (OnPacket(s.end.half, m.pkt, w, false).emits != [] ==> s.peer != 0)
  {
    var s := a.socks[m.to];
    assert SockIds(a, b, m.to);
    PacketData(s.end.half, m.pkt, w, false);
    if m.from != 0 {
      RightSocket(a, b, m);
    }
    TakenPhase(s.end.half, m.pkt, w);
  }

  lemma TakenSide(a: Side, b: Side, m: Msg, w: WriteAnswer)
    requires Ids(a, b) && Ids(b, a) && Addressed(b, a, m) && Takes(a, m)
    requires Ok(a.socks[m.to].end.half)
    requires m.pkt.WRTE? ==> m.pkt.data != [] && Possible(a.socks[m.to].end.half.queue + m.pkt.data, w)
    ensures var o := OnTaken(a, m, w);
            Grows(a, o.side) && Ids(o.side, b) && Ids(b, o.side) && AllAddressed(o.side, b, o.Emits())
  {
    var s, a' := a.socks[m.to], OnTaken(a, m, w).side;
    TakenSock(a, b, m, w);
    UpdateIds(a, b, m.to, a'.socks[m.to]);
    OwnAddressed(a', b, m.to, OnPacket(s.end.half, m.pkt, w, false).emits);
  }

  /** The two channels, after a took a packet. */
  lemma ChannelsIds(n: Net, o: Outcome)
    requires IdsOk(n) && n.ba != []
    requires Grows(n.a, o.side) && Ids(o.side, n.b) && Ids(n.b, o.side) && AllAddressed(o.side, n.b, o.Emits())
    ensures IdsOk(Net(o.side, n.b, n.ab + o.Emits(), n.ba[1..]))
  {
    StillAddressed(n.a, o.side, n.b, n.ab);
    StillAddressedTo(n.a, o.side, n.b, n.ba);
    Appended(o.side, n.b, n.ab, o.Emits());
  }

  lemma TakenIds(n: Net, w: WriteAnswer, accept: bool, limit: nat)
    requires IdsOk(n) && EnabledA(n, Deliver(w, accept), limit)
    requires Takes(n.a, n.ba[0]) && Ok(n.a.socks[n.ba[0].to].end.half) && (n.ba[0].pkt.WRTE? ==> n.ba[0].pkt.data != [])
    ensures IdsOk(NextA(n, Deliver(w, accept), limit)) && Grows(n.a, NextA(n, Deliver(w, accept), limit).a)
  {
    assert Addressed(n.b, n.a, n.ba[0]);
    TakenSide(n.a, n.b, n.ba[0], w);
    ChannelsIds(n, OnTaken(n.a, n.ba[0], w));
  }

  lemma NotTakenIds(n: Net, w: WriteAnswer, accept: bool, limit: nat)
    requires IdsOk(n) && EnabledA(n, Deliver(w, accept), limit)
    requires !n.ba[0].pkt.OPEN? && !Takes(n.a, n.ba[0])
    ensures IdsOk(NextA(n, Deliver(w, accept), limit)) && Grows(n.a, NextA(n, Deliver(w, accept), limit).a)
  {
    var m := n.ba[0];
    assert Addressed(n.b, n.a, m);
    if m.from != 0 {
      RightSocket(n.a, n.b, m);
      assert Addressed(n.a, n.b, Msg(CLSE, m.to, m.from));
    }
    var o := OnMsg(n.a, m, w, accept);
    assert o.side == n.a && AllAddressed(n.a, n.b, o.Emits());
    ChannelsIds(n, o);
  }
}
