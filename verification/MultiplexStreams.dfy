/** Each of the streams that share a transport behaves as a stream that has it for itself. */
module MultiplexStreams {
  import opened Bytes
  import opened Multiplex
  import opened MultiplexIds
  import opened Options
  import opened Stream
  import opened TwoEnds

  /** A state of the two ends of a lone stream. */
  ghost predicate Reachable(s: Sys, limit: nat) {
    exists steps :: Run(START, steps, limit) && After(START, steps, limit) == s
  }

  lemma {:induction false} RunAppend(s: Sys, steps: seq<Step>, step: Step, limit: nat)
    requires Run(s, steps, limit) && Enabled(After(s, steps, limit), step, limit)
    ensures Run(s, steps + [step], limit)
    ensures After(s, steps + [step], limit) == Next(After(s, steps, limit), step, limit)
    decreases |steps|
  {
    if steps == [] {
      assert [step][1..] == [];
    } else {
      assert (steps + [step])[1..] == steps[1..] + [step];
      RunAppend(Next(s, steps[0], limit), steps[1..], step, limit);
    }
  }

  /** One step of the lone stream, or none. */
  ghost predicate Follows(s: Sys, t: Sys, limit: nat) {
    t == s || exists step :: Enabled(s, step, limit) && t == Next(s, step, limit)
  }

  lemma ReachableFollows(s: Sys, t: Sys, limit: nat)
    requires Reachable(s, limit) && Follows(s, t, limit)
    ensures Reachable(t, limit)
  {
    if t != s {
      var steps :| Run(START, steps, limit) && After(START, steps, limit) == s;
      var step :| Enabled(s, step, limit) && t == Next(s, step, limit);
      RunAppend(START, steps, step, limit);
    }
  }

  lemma ReachableInv(s: Sys, limit: nat)
    requires Reachable(s, limit)
    ensures Inv(s, limit)
  {
    var steps :| Run(START, steps, limit) && After(START, steps, limit) == s;
    StartInv(limit);
    RunInv(START, steps, limit);
  }

  lemma ReachableStart(limit: nat)
    ensures Reachable(START, limit)
  {
    var none: seq<Step> := [];
    assert Run(START, none, limit) && After(START, none, limit) == START;
  }

  /** An opener that waits although its OPEN was accepted gets the OKAY first. */
  predicate OkayFirst(n: Net, i: nat)
    requires Opened(n, i)
  {
    n.a.socks[i].end.half.phase.Connecting? && i in n.b.answered && n.b.answered[i].Some? ==>
      To(n.ba, i) != [] && To(n.ba, i)[0].OKAY?
  }

  ghost predicate StreamOk(n: Net, i: nat, limit: nat)
    requires Opened(n, i)
  {
    Reachable(View(n, i), limit) && OkayFirst(n, i)
  }

  lemma EmitView(ch: seq<Msg>, pkts: seq<Pkt>, from: nat, to: nat, i: nat)
    ensures From(ch + Address(pkts, from, to), i) == if from == i then From(ch, i) + pkts else From(ch, i)
    ensures To(ch + Address(pkts, from, to), i) == if to == i then To(ch, i) + pkts else To(ch, i)
  {
    FromConcat(ch, Address(pkts, from, to), i);
    ToConcat(ch, Address(pkts, from, to), i);
    AddressFrom(pkts, from, to, i);
  }

  // The streams that a opened, when a makes a step.

  lemma OpenerFd(n: Net, id: nat, e: Event, i: nat, limit: nat)
    requires Opened(n, i) && EnabledA(n, OnFd(id, e), limit)
    ensures Opened(NextA(n, OnFd(id, e), limit), i)
    ensures id == i ==> EnabledX(View(n, i), Fd(e), limit)
    ensures View(NextA(n, OnFd(id, e), limit), i) == if id == i then NextX(View(n, i), Fd(e), limit) else View(n, i)
  {
    var s := n.a.socks[id];
    EmitView(n.ab, OnEvent(s.end.half, e).emits, id, s.peer, i);
  }

  lemma OpenerFdOkay(n: Net, id: nat, e: Event, i: nat, limit: nat)
    requires Opened(n, i) && EnabledA(n, OnFd(id, e), limit) && Ok(n.a.socks[id].end.half) && OkayFirst(n, i)
    ensures var n' := NextA(n, OnFd(id, e), limit); Opened(n', i) && OkayFirst(n', i)
  {
    EventAccount(n.a.socks[id].end.half, e, limit);
  }

  lemma OpenerConnect(n: Net, i: nat, limit: nat)
    requires IdsOk(n) && Opened(n, i)
    ensures var n' := NextA(n, Connect, limit); Opened(n', i) && View(n', i) == View(n, i)
  {
    assert SockIds(n.a, n.b, i);
    EmitView(n.ab, [OPEN], n.a.next, 0, i);
  }

  lemma Elsewhere(a: Side, b: Side, m: Msg, w: WriteAnswer, accept: bool, i: nat)
    requires Ids(a, b) && i in a.socks && m.to != i
    requires Takes(a, m) && m.pkt.WRTE? ==> Possible(a.socks[m.to].end.half.queue + m.pkt.data, w)
    ensures var o := OnMsg(a, m, w, accept);
            o.from != i && i in o.side.socks && o.side.socks[i] == a.socks[i]
  {
    assert SockIds(a, b, i);
  }

  /** A packet for another socket. */
  lemma OpenerOther(n: Net, w: WriteAnswer, accept: bool, i: nat, limit: nat)
    requires Ids(n.a, n.b) && Opened(n, i) && EnabledA(n, Deliver(w, accept), limit) && n.ba[0].to != i
    ensures var n' := NextA(n, Deliver(w, accept), limit); Opened(n', i) && View(n', i) == View(n, i)
  {
    var m := n.ba[0];
    var o := OnMsg(n.a, m, w, accept);
    Elsewhere(n.a, n.b, m, w, accept, i);
    EmitView(n.ab, o.pkts, o.from, o.to, i);
  }

  /** A packet that the socket takes. */
  lemma OpenerTakes(n: Net, w: WriteAnswer, accept: bool, i: nat, limit: nat)
    requires Opened(n, i) && EnabledA(n, Deliver(w, accept), limit) && n.ba[0].to == i && Takes(n.a, n.ba[0])
    ensures EnabledX(View(n, i), Receive(w, accept), limit)
    ensures var n' := NextA(n, Deliver(w, accept), limit);
            Opened(n', i) && View(n', i) == NextX(View(n, i), Receive(w, accept), limit)
  {
    var m := n.ba[0];
    var o := OnTaken(n.a, m, w);
    EmitView(n.ab, o.pkts, o.from, o.to, i);
    SameAnswer(n.a.socks[i].end.half, m.pkt, w, accept);
    assert To(n.ba, i) == [m.pkt] + To(n.ba[1..], i);
  }

  /** A packet that the socket does not take does nothing to a lone stream either, but that an OKAY
      which comes too late is answered. */
  lemma OpenerRefuses(n: Net, w: WriteAnswer, accept: bool, i: nat, limit: nat)
    requires IdsOk(n) && Opened(n, i) && OkayFirst(n, i)
    requires EnabledA(n, Deliver(w, accept), limit) && n.ba[0].to == i && !Takes(n.a, n.ba[0])
    ensures EnabledX(View(n, i), Receive(Again, accept), limit)
    ensures var n' := NextA(n, Deliver(w, accept), limit);
            Opened(n', i) && View(n', i) == NextX(View(n, i), Receive(Again, accept), limit)
  {
    var m := n.ba[0];
    var o := OnMsg(n.a, m, w, accept);
    var h := n.a.socks[i].end.half;
    RefusedId(n, m, i);
    EmitView(n.ab, o.pkts, o.from, o.to, i);
    assert To(n.ba, i) == [m.pkt] + To(n.ba[1..], i);
    assert OnPacket(h, m.pkt, Again, accept) == Effect(h, o.pkts, [], []);
    var s := n.a.socks[i].end;
    assert s.sent + [] == s.sent && s.put + [] == s.put && s.got + [] == s.got;
  }

  lemma RefusedId(n: Net, m: Msg, i: nat)
    requires IdsOk(n) && Opened(n, i) && OkayFirst(n, i) && n.ba != [] && m == n.ba[0] && m.to == i && !Takes(n.a, m)
    ensures !m.pkt.OPEN? && !n.a.socks[i].end.half.phase.Absent?
    ensures m.pkt.OKAY? || m.pkt.CLSE? ==> !Listed(n.a.socks[i].end.half)
    ensures m.pkt.WRTE? ==> !n.a.socks[i].end.half.phase.Open?
    ensures m.pkt.OKAY? ==> m.from != 0
  {
    assert Addressed(n.b, n.a, m);
    assert SockIds(n.a, n.b, i);
    if m.from != 0 && !m.pkt.OPEN? {
      RightSocket(n.a, n.b, m);
      assert To(n.ba, i)[0] == m.pkt;
    }
  }

  // The streams that b opened, when a makes a step.

  /** The socket that was made for i is the one whose peer is i. */
  lemma Owner(a: Side, b: Side, k: nat, i: nat)
    requires Ids(a, b) && Ids(b, a) && k in a.socks && i in b.socks && b.socks[i].opener
    ensures i != 0 && (a.socks[k].peer == i <==> i in a.answered && a.answered[i] == Some(k))
  {
    assert SockIds(a, b, k) && SockIds(b, a, i);
    if a.socks[k].opener && a.socks[k].peer != 0 {
      assert AnswerIds(a, b, k);
    }
    if i in a.answered && a.answered[i] == Some(k) {
      assert AnswerIds(b, a, i);
    }
  }

  /** The other end of a stream that is not that of socket k. */
  lemma OtherEndKept(a: Side, a': Side, b: Side, i: nat, k: nat)
    requires Ids(a, b) && Ids(b, a) && i in b.socks && b.socks[i].opener
    requires i in a.answered ==> i in a'.answered && a'.answered[i] == a.answered[i] && a.answered[i] != Some(k)
    requires i !in a.answered ==> i !in a'.answered
    requires forall j :: j in a.socks && j != k ==> j in a'.socks && a'.socks[j].end == a.socks[j].end
    ensures OtherEnd(a', i) == OtherEnd(a, i)
  {
    if i in a.answered {
      assert AnswerIds(b, a, i);
    }
  }

  lemma AcceptorConnect(n: Net, i: nat, limit: nat)
    requires IdsOk(n) && Opened(Mirror(n), i)
    ensures View(Mirror(NextA(n, Connect, limit)), i) == View(Mirror(n), i)
  {
    assert SockIds(n.b, n.a, i);
    assert n.a.next !in n.a.socks;
    if i in n.a.answered {
      assert AnswerIds(n.b, n.a, i);
    }
    OtherEndKept(n.a, NextA(n, Connect, limit).a, n.b, i, n.a.next);
    EmitView(n.ab, [OPEN], n.a.next, 0, i);
  }

  lemma AcceptorFd(n: Net, id: nat, e: Event, i: nat, limit: nat)
    requires IdsOk(n) && Opened(Mirror(n), i) && EnabledA(n, OnFd(id, e), limit) && n.a.socks[id].peer == i
    ensures Enabled(View(Mirror(n), i), Step(false, Fd(e)), limit)
    ensures View(Mirror(NextA(n, OnFd(id, e), limit)), i) == Next(View(Mirror(n), i), Step(false, Fd(e)), limit)
  {
    var s := n.a.socks[id];
    Owner(n.a, n.b, id, i);
    EmitView(n.ab, OnEvent(s.end.half, e).emits, id, i, i);
  }

  lemma AcceptorFdOther(n: Net, id: nat, e: Event, i: nat, limit: nat)
    requires IdsOk(n) && Opened(Mirror(n), i) && EnabledA(n, OnFd(id, e), limit) && n.a.socks[id].peer != i
    ensures View(Mirror(NextA(n, OnFd(id, e), limit)), i) == View(Mirror(n), i)
  {
    var s := n.a.socks[id];
    Owner(n.a, n.b, id, i);
    EmitView(n.ab, OnEvent(s.end.half, e).emits, id, s.peer, i);
    OtherEndKept(n.a, NextA(n, OnFd(id, e), limit).a, n.b, i, id);
  }

  /** The OPEN itself. */
  lemma AcceptorOpens(n: Net, w: WriteAnswer, accept: bool, i: nat, limit: nat)
    requires IdsOk(n) && Opened(Mirror(n), i) && EnabledA(n, Deliver(w, accept), limit)
    requires n.ba[0].from == i && n.ba[0].pkt.OPEN? && i !in n.a.answered
    ensures Enabled(View(Mirror(n), i), Step(false, Receive(w, accept)), limit)
    ensures View(Mirror(NextA(n, Deliver(w, accept), limit)), i) == Next(View(Mirror(n), i), Step(false, Receive(w, accept)), limit)
  {
    var m := n.ba[0];
    assert Addressed(n.b, n.a, m);
    assert SockIds(n.b, n.a, i);
    var o := OnOpen(n.a, m, accept);
    EmitView(n.ab, o.pkts, o.from, o.to, i);
    assert From(n.ba, i) == [m.pkt] + From(n.ba[1..], i);
  }

  lemma AcceptorTakes(n: Net, w: WriteAnswer, accept: bool, i: nat, limit: nat)
    requires IdsOk(n) && Opened(Mirror(n), i) && EnabledA(n, Deliver(w, accept), limit)
    requires n.ba[0].from == i && !n.ba[0].pkt.OPEN? && Takes(n.a, n.ba[0])
    ensures Enabled(View(Mirror(n), i), Step(false, Receive(w, accept)), limit)
    ensures View(Mirror(NextA(n, Deliver(w, accept), limit)), i) == Next(View(Mirror(n), i), Step(false, Receive(w, accept)), limit)
  {
    var m := n.ba[0];
    var o := OnTaken(n.a, m, w);
    AcceptorId(n, m, i);
    EmitView(n.ab, o.pkts, o.from, o.to, i);
    SameAnswer(n.a.socks[m.to].end.half, m.pkt, w, accept);
    assert From(n.ba, i) == [m.pkt] + From(n.ba[1..], i);
  }

  lemma AcceptorRefuses(n: Net, w: WriteAnswer, accept: bool, i: nat, limit: nat)
    requires IdsOk(n) && Opened(Mirror(n), i) && EnabledA(n, Deliver(w, accept), limit)
    requires n.ba[0].from == i && !n.ba[0].pkt.OPEN? && !Takes(n.a, n.ba[0])
    ensures Enabled(View(Mirror(n), i), Step(false, Receive(Again, accept)), limit)
    ensures View(Mirror(NextA(n, Deliver(w, accept), limit)), i) == Next(View(Mirror(n), i), Step(false, Receive(Again, accept)), limit)
  {
    var m := n.ba[0];
    var o := OnMsg(n.a, m, w, accept);
    AcceptorId(n, m, i);
    EmitView(n.ab, o.pkts, o.from, o.to, i);
    assert From(n.ba, i) == [m.pkt] + From(n.ba[1..], i);
    var s := n.a.socks[m.to].end;
    assert OnPacket(s.half, m.pkt, Again, accept) == Effect(s.half, o.pkts, [], []);
    assert s.sent + [] == s.sent && s.put + [] == s.put && s.got + [] == s.got;
  }

  /** What b's opener sends arrives at the socket that was made for it. */
  lemma AcceptorId(n: Net, m: Msg, i: nat)
    requires IdsOk(n) && Opened(Mirror(n), i) && n.ba != [] && m == n.ba[0] && m.from == i && !m.pkt.OPEN?
    ensures i != 0 && m.to in n.a.socks && i in n.a.answered && n.a.answered[i] == Some(m.to)
    ensures n.a.socks[m.to].peer == i && !n.a.socks[m.to].end.half.phase.Absent?
    ensures !n.a.socks[m.to].end.half.phase.Connecting? && m.to != 0
  {
    assert Addressed(n.b, n.a, m);
    assert SockIds(n.b, n.a, i);
    RightSocket(n.a, n.b, m);
    assert SockIds(n.a, n.b, m.to);
  }

  /** A packet of another stream. */
  lemma AcceptorOther(n: Net, w: WriteAnswer, accept: bool, i: nat, limit: nat)
    requires IdsOk(n) && Opened(Mirror(n), i) && EnabledA(n, Deliver(w, accept), limit) && n.ba[0].from != i
    ensures View(Mirror(NextA(n, Deliver(w, accept), limit)), i) == View(Mirror(n), i)
  {
    var m := n.ba[0];
    var o := OnMsg(n.a, m, w, accept);
    OtherStream(n.a, n.b, m, i, w, accept);
    EmitView(n.ab, o.pkts, o.from, o.to, i);
  }

  lemma OtherStream(a: Side, b: Side, m: Msg, i: nat, w: WriteAnswer, accept: bool)
    requires Ids(a, b) && Ids(b, a) && Addressed(b, a, m) && i in b.socks && b.socks[i].opener && m.from != i
    requires Takes(a, m) && m.pkt.WRTE? ==> Possible(a.socks[m.to].end.half.queue + m.pkt.data, w)
    ensures var o := OnMsg(a, m, w, accept); o.to != i && OtherEnd(o.side, i) == OtherEnd(a, i)
  {
    var o := OnMsg(a, m, w, accept);
    assert SockIds(b, a, i);
    assert a.next !in a.socks;
    if i in a.answered {
      assert AnswerIds(b, a, i);
    }
    if m.pkt.OPEN? {
      OtherEndKept(a, o.side, b, i, a.next);
    } else if Takes(a, m) {
      NotItsSocket(a, b, m, i);
      OtherEndKept(a, o.side, b, i, m.to);
    }
  }

  lemma NotItsSocket(a: Side, b: Side, m: Msg, i: nat)
    requires Ids(a, b) && Ids(b, a) && Addressed(b, a, m) && i in b.socks && b.socks[i].opener && m.from != i
    requires !m.pkt.OPEN? && m.to in a.socks
    ensures a.socks[m.to].peer != i && !(i in a.answered && a.answered[i] == Some(m.to))
  {
    Owner(a, b, m.to, i);
    if m.from != 0 {
      RightSocket(a, b, m);
    } else {
      assert AnswerIds(a, b, m.to);
      assert SockIds(a, b, m.to);
    }
  }

  // All together.

  ghost predicate AllStreams(n: Net, limit: nat) {
    forall i :: Opened(n, i) ==> StreamOk(n, i, limit)
  }

  ghost predicate NetOk(n: Net, limit: nat) {
    IdsOk(n) && AllStreams(n, limit) && AllStreams(Mirror(n), limit)
  }

  /** The event mask of every socket is right. */
  lemma SockOk(n: Net, k: nat, limit: nat)
    requires NetOk(n, limit) && k in n.a.socks
    ensures Ok(n.a.socks[k].end.half)
  {
    assert SockIds(n.a, n.b, k);
    if n.a.socks[k].opener {
      assert Opened(n, k);
      ReachableInv(View(n, k), limit);
    } else {
      var i := n.a.socks[k].peer;
      assert Opened(Mirror(n), i);
      ReachableInv(View(Mirror(n), i), limit);
    }
  }

  /** The packet that b's end of some stream sees next. */
  lemma HeadSized(n: Net, limit: nat)
    requires NetOk(n, limit) && n.ba != [] && n.ba[0].pkt.WRTE?
    ensures n.ba[0].pkt.data != []
  {
    var m := n.ba[0];
    assert Addressed(n.b, n.a, m);
    RightSocket(n.a, n.b, m);
    if n.b.socks[m.from].opener {
      assert Opened(Mirror(n), m.from);
      ReachableInv(View(Mirror(n), m.from), limit);
      assert From(n.ba, m.from)[0] == m.pkt;
    } else {
      assert Opened(n, m.to);
      ReachableInv(View(n, m.to), limit);
      assert To(n.ba, m.to)[0] == m.pkt;
    }
  }

  lemma AnsweredEnd(a: Side, b: Side, i: nat)
    requires Ids(a, b) && Ids(b, a) && i in a.answered
    ensures !OtherEnd(a, i).half.phase.Absent?
  {
    assert AnswerIds(b, a, i);
    if a.answered[i].Some? {
      assert SockIds(a, b, a.answered[i].value);
    }
  }

  lemma OpenIsNew(n: Net, limit: nat)
    requires NetOk(n, limit) && n.ba != [] && n.ba[0].pkt.OPEN?
    ensures n.ba[0].from !in n.a.answered && Opened(Mirror(n), n.ba[0].from)
    ensures View(Mirror(n), n.ba[0].from).yx == []
  {
    var m := n.ba[0];
    assert Addressed(n.b, n.a, m);
    if m.from in n.a.answered {
      AnsweredEnd(n.a, n.b, m.from);
    }
    assert Opened(Mirror(n), m.from);
    var v := View(Mirror(n), m.from);
    ReachableInv(v, limit);
    assert v.xy[0] == OPEN && OPEN in v.xy;
  }

  lemma IdsStep(n: Net, action: Action, limit: nat)
    requires NetOk(n, limit) && EnabledA(n, action, limit)
    ensures IdsOk(NextA(n, action, limit)) && Grows(n.a, NextA(n, action, limit).a)
  {
    match action
    case Connect => ConnectIds(n, limit);
    case OnFd(id, e) =>
      SockOk(n, id, limit);
      FdIds(n, id, e, limit);
    case Deliver(w, accept) =>
      if n.ba[0].pkt.OPEN? {
        OpenIsNew(n, limit);
        OpenIds(n, w, accept, limit);
      } else if Takes(n.a, n.ba[0]) {
        SockOk(n, n.ba[0].to, limit);
        if n.ba[0].pkt.WRTE? {
          HeadSized(n, limit);
        }
        TakenIds(n, w, accept, limit);
      } else {
        NotTakenIds(n, w, accept, limit);
      }
  }

  lemma FollowsX(s: Sys, act: Act, limit: nat)
    requires EnabledX(s, act, limit)
    ensures Follows(s, NextX(s, act, limit), limit)
  {
    var step := Step(true, act);
    assert Enabled(s, step, limit) && Next(s, step, limit) == NextX(s, act, limit);
  }

  /** A stream that a opened takes at most one step, and only its own. */
  lemma OpenerFollows(n: Net, action: Action, i: nat, limit: nat)
    requires NetOk(n, limit) && EnabledA(n, action, limit) && Opened(n, i)
    ensures var n' := NextA(n, action, limit); Opened(n', i) && Follows(View(n, i), View(n', i), limit)
  {
    assert StreamOk(n, i, limit);
    match action
    case Connect => OpenerConnect(n, i, limit);
    case OnFd(id, e) =>
      OpenerFd(n, id, e, i, limit);
      if id == i {
        FollowsX(View(n, i), Fd(e), limit);
      }
    case Deliver(w, accept) =>
      if n.ba[0].to != i {
        OpenerOther(n, w, accept, i, limit);
      } else if Takes(n.a, n.ba[0]) {
        OpenerTakes(n, w, accept, i, limit);
        FollowsX(View(n, i), Receive(w, accept), limit);
      } else {
        OpenerRefuses(n, w, accept, i, limit);
        FollowsX(View(n, i), Receive(Again, accept), limit);
      }
  }

  /** So does a stream that b opened. */
  lemma AcceptorFollows(n: Net, action: Action, i: nat, limit: nat)
    requires NetOk(n, limit) && EnabledA(n, action, limit) && Opened(Mirror(n), i)
    ensures Follows(View(Mirror(n), i), View(Mirror(NextA(n, action, limit)), i), limit)
  {
    match action
    case Connect => AcceptorConnect(n, i, limit);
    case OnFd(id, e) =>
      if n.a.socks[id].peer == i {
        AcceptorFd(n, id, e, i, limit);
      } else {
        AcceptorFdOther(n, id, e, i, limit);
      }
    case Deliver(w, accept) =>
      if n.ba[0].from != i {
        AcceptorOther(n, w, accept, i, limit);
      } else if n.ba[0].pkt.OPEN? {
        OpenIsNew(n, limit);
        AcceptorOpens(n, w, accept, i, limit);
      } else if Takes(n.a, n.ba[0]) {
        AcceptorTakes(n, w, accept, i, limit);
      } else {
        AcceptorRefuses(n, w, accept, i, limit);
      }
  }

  lemma OpenerDeliverOkay(n: Net, w: WriteAnswer, accept: bool, i: nat, limit: nat)
    requires IdsOk(n) && Opened(n, i) && OkayFirst(n, i) && EnabledA(n, Deliver(w, accept), limit)
    ensures var n' := NextA(n, Deliver(w, accept), limit); Opened(n', i) && OkayFirst(n', i)
  {
    var m := n.ba[0];
    if m.to != i {
      Elsewhere(n.a, n.b, m, w, accept, i);
    } else if Takes(n.a, m) {
      TakenOkay(n, w, accept, i, limit);
    } else {
      RefusedId(n, m, i);
      assert To(n.ba, i)[0] == m.pkt;
    }
  }

  /** After an OKAY or a CLSE the opener is connecting no more. */
  lemma TakenOkay(n: Net, w: WriteAnswer, accept: bool, i: nat, limit: nat)
    requires Opened(n, i) && EnabledA(n, Deliver(w, accept), limit) && n.ba[0].to == i && Takes(n.a, n.ba[0])
    ensures var n' := NextA(n, Deliver(w, accept), limit); Opened(n', i) && OkayFirst(n', i)
  {
  }

  lemma OpenerOkay(n: Net, action: Action, i: nat, limit: nat)
    requires NetOk(n, limit) && EnabledA(n, action, limit) && Opened(n, i)
    ensures var n' := NextA(n, action, limit); Opened(n', i) && OkayFirst(n', i)
  {
    assert StreamOk(n, i, limit);
    match action
    case Connect => OpenerConnect(n, i, limit);
    case OnFd(id, e) =>
      SockOk(n, id, limit);
      OpenerFdOkay(n, id, e, i, limit);
    case Deliver(w, accept) => OpenerDeliverOkay(n, w, accept, i, limit);
  }

  /** An answer is recorded only with the packet that carries it. */
  lemma AnswersRecorded(a: Side, m: Msg, w: WriteAnswer, accept: bool, i: nat)
    requires Takes(a, m) && m.pkt.WRTE? ==> Possible(a.socks[m.to].end.half.queue + m.pkt.data, w)
    ensures var o := OnMsg(a, m, w, accept);
            i in o.side.answered && o.side.answered[i].Some? ==>
              || (i in a.answered && a.answered[i].Some?)
              || (m.pkt.OPEN? && m.from == i && o.pkts == [OKAY] && o.to == i)
  {
  }

  /** b's opener, when a answers its OPEN or sends anything else. */
  lemma AcceptorDeliverOkay(n: Net, w: WriteAnswer, accept: bool, i: nat, limit: nat)
    requires Opened(Mirror(n), i) && OkayFirst(Mirror(n), i) && EnabledA(n, Deliver(w, accept), limit)
    requires n.ba[0].pkt.OPEN? && n.ba[0].from == i ==> To(n.ab, i) == []
    ensures OkayFirst(Mirror(NextA(n, Deliver(w, accept), limit)), i)
  {
    var o := OnMsg(n.a, n.ba[0], w, accept);
    AnswersRecorded(n.a, n.ba[0], w, accept, i);
    EmitView(n.ab, o.pkts, o.from, o.to, i);
    FirstStays(n, o, n.ba[1..], i);
  }

  lemma FirstStays(n: Net, o: Outcome, rest: seq<Msg>, i: nat)
    requires Opened(Mirror(n), i) && OkayFirst(Mirror(n), i)
    requires i in o.side.answered && o.side.answered[i].Some? ==>
               || (i in n.a.answered && n.a.answered[i].Some?)
               || (To(n.ab, i) == [] && o.pkts == [OKAY] && o.to == i)
    requires To(n.ab + o.Emits(), i) == if o.to == i then To(n.ab, i) + o.pkts else To(n.ab, i)
    ensures OkayFirst(Net(n.b, o.side, rest, n.ab + o.Emits()), i)
  {
    if o.to == i && To(n.ab, i) != [] {
      StillFirst(To(n.ab, i), o.pkts);
    }
  }

  lemma StillFirst(ch: seq<Pkt>, more: seq<Pkt>)
    requires ch != []
    ensures (ch + more)[0] == ch[0]
  {
  }

  lemma AcceptorOkay(n: Net, action: Action, i: nat, limit: nat)
    requires NetOk(n, limit) && EnabledA(n, action, limit) && Opened(Mirror(n), i)
    ensures OkayFirst(Mirror(NextA(n, action, limit)), i)
  {
    assert StreamOk(Mirror(n), i, limit);
    match action
    case Connect => EmitView(n.ab, [OPEN], n.a.next, 0, i);
    case OnFd(id, e) => EmitView(n.ab, OnEvent(n.a.socks[id].end.half, e).emits, id, n.a.socks[id].peer, i);
    case Deliver(w, accept) =>
      if n.ba[0].pkt.OPEN? {
        OpenIsNew(n, limit);
      }
      AcceptorDeliverOkay(n, w, accept, i, limit);
  }

  /** A new stream starts as a lone one does. */
  lemma NewStream(n: Net, limit: nat)
    requires IdsOk(n)
    ensures var n' := NextA(n, Connect, limit);
            Opened(n', n.a.next) && StreamOk(n', n.a.next, limit) && View(n', n.a.next) == START
  {
    var i, n' := n.a.next, NextA(n, Connect, limit);
    assert i !in n.a.socks;
    forall k | 0 <= k < |n.ab|
      ensures n.ab[k].from != i
    {
      assert Addressed(n.a, n.b, n.ab[k]);
    }
    forall k | 0 <= k < |n.ba|
      ensures n.ba[k].to != i
    {
      NobodysId(n.a, n.b, n.ba[k]);
    }
    NoneFrom(n.ab, i);
    NoneTo(n.ba, i);
    EmitView(n.ab, [OPEN], i, 0, i);
    assert i !in n.b.answered;
    assert View(n', i) == START;
    ReachableStart(limit);
  }

  lemma NobodysId(a: Side, b: Side, m: Msg)
    requires Ids(a, b) && Ids(b, a) && Addressed(b, a, m)
    ensures m.to != a.next
  {
    if m.pkt.OPEN? {
    } else if m.from == 0 {
      assert AnswerIds(a, b, m.to);
      assert SockIds(a, b, m.to);
    } else {
      RightSocket(a, b, m);
      assert SockIds(a, b, m.to);
    }
  }

  lemma StepOk(n: Net, action: Action, limit: nat)
    requires NetOk(n, limit) && EnabledA(n, action, limit)
    ensures NetOk(NextA(n, action, limit), limit)
  {
    var n' := NextA(n, action, limit);
    IdsStep(n, action, limit);
    forall i | Opened(n', i)
      ensures StreamOk(n', i, limit)
    {
      if Opened(n, i) {
        OpenerFollows(n, action, i, limit);
        ReachableFollows(View(n, i), View(n', i), limit);
        OpenerOkay(n, action, i, limit);
      } else {
        OnlyConnectOpens(n, action, i, limit);
        NewStream(n, limit);
      }
    }
    forall i | Opened(Mirror(n'), i)
      ensures StreamOk(Mirror(n'), i, limit)
    {
      AcceptorFollows(n, action, i, limit);
      ReachableFollows(View(Mirror(n), i), View(Mirror(n'), i), limit);
      AcceptorOkay(n, action, i, limit);
    }
  }

  lemma OnlyConnectOpens(n: Net, action: Action, i: nat, limit: nat)
    requires EnabledA(n, action, limit) && Opened(NextA(n, action, limit), i) && !Opened(n, i)
    ensures action.Connect? && i == n.a.next
  {
  }

  lemma {:induction false} MovesOk(n: Net, moves: seq<Move>, end: Net, limit: nat)
    requires NetOk(n, limit) && Moves(n, moves, end, limit)
    ensures NetOk(end, limit)
    decreases moves
  {
    if moves == [] {
    } else {
      if moves[0].atA {
        StepOk(n, moves[0].action, limit);
      } else {
        StepOk(Mirror(n), moves[0].action, limit);
      }
      MovesOk(NextNet(n, moves[0], limit), moves[1..], end, limit);
    }
  }

  /** In every run of the two ends, whichever of them opens streams and however many, every stream
      is in a state that it could be in if it had the transport for itself. */
  lemma StreamsAreIndependent(moves: seq<Move>, end: Net, i: nat, limit: nat)
    requires Moves(EMPTY, moves, end, limit)
    ensures Opened(end, i) ==> Reachable(View(end, i), limit)
    ensures Opened(Mirror(end), i) ==> Reachable(View(Mirror(end), i), limit)
  {
    MovesOk(EMPTY, moves, end, limit);
  }
}
