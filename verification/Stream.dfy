/** One end of a stream (adb/sockets.cpp, adb/adb.cpp), on values: a local socket with its file
    descriptor, and the remote socket that is its peer while the stream is open. */
module Stream {
  import opened Bytes

  /** Where the local socket is.
      Absent: the OPEN packet has not arrived yet (accepting end).
      Connecting: on local_socket_list, no peer yet (opening end).
      Open: on local_socket_list, with its peer.
      Closing: on local_socket_closing_list, no peer, bytes left to write.
      Gone: destroyed. */
  datatype Phase = Absent | Connecting | Open | Closing | Gone

  /** `read` and `write` are FDE_READ and FDE_WRITE of the fdevent. */
  datatype Half = Half(phase: Phase, queue: seq<Byte>, read: bool, write: bool, writeError: bool)

  /** The packets of one stream. */
  datatype Pkt = OPEN | OKAY | WRTE(data: seq<Byte>) | CLSE

  predicate Possible(queue: seq<Byte>, w: WriteAnswer) {
    w.Wrote? ==> 0 < w.n <= |queue|
  }

  datatype FlushResult = Destroyed | TryAgain | Completed

  /** local_socket_close: the peer goes with a CLSE; the socket itself is destroyed unless bytes
      wait to be written. A destroyed socket keeps, for the record, what it never wrote. */
  function Close(h: Half): Half {
    if h.phase.Closing? || h.writeError || h.queue == []
    then h.(phase := Gone, read := false, write := false)
    else h.(phase := Closing, read := false)
  }

  function CloseEmits(h: Half): seq<Pkt> {
    if h.phase.Open? then [CLSE] else []
  }

  /** The queue after one writev, and what reached the file descriptor. */
  function Unwritten(queue: seq<Byte>, w: WriteAnswer): seq<Byte>
    requires Possible(queue, w)
  {
    if w.Wrote? then queue[w.n..] else queue
  }

  function Put(queue: seq<Byte>, w: WriteAnswer): seq<Byte>
    requires Possible(queue, w)
  {
    if w.Wrote? then queue[..w.n] else []
  }

  /** local_socket_flush_incoming. With an empty queue there is no write. */
  function FlushIncoming(h: Half, w: WriteAnswer): (Half, FlushResult)
    requires Possible(h.queue, w)
  {
    var rest := Unwritten(h.queue, w);
    if h.queue != [] && (w.Again? || (w.Wrote? && rest != [])) then
      (h.(queue := rest, write := true), TryAgain)
    else
      var h1 := h.(queue := rest, writeError := h.writeError || (h.queue != [] && w.Failed?));
      if h.phase.Closing? then (Close(h1), Destroyed) else (h1.(write := false), Completed)
  }

  /** local_socket_flush_outgoing after its read loop: `data` was read, and `eof` says whether the
      loop met the end of the file or an error. Without a peer the data is dropped. */
  function FlushOutgoing(h: Half, data: seq<Byte>, eof: bool): Half {
    var h1 := if data != [] && h.phase.Open? then h.(read := false) else h;
    if eof then Close(h1) else h1
  }

  function OutgoingEmits(h: Half, data: seq<Byte>, eof: bool): seq<Pkt> {
    (if data != [] && h.phase.Open? then [WRTE(data)] else []) + (if eof then CloseEmits(h) else [])
  }

  // Whole callbacks.

  /** What one callback does: the socket after it, the packets it sends, the bytes that reach the
      file descriptor, the bytes read from it that went into a packet, and all bytes read from it. */
  datatype Effect = Effect(half: Half, emits: seq<Pkt>, put: seq<Byte>, sent: seq<Byte>, got: seq<Byte> := [])

  /** An event from fdevent: FDE_WRITE only if asked for; FDE_READ if asked for, or on a hang-up
      or error of the descriptor, asked for or not. */
  datatype Event = Event(write: bool, read: bool, w: WriteAnswer, data: seq<Byte>, eof: bool)

  /** An event as it may be delivered. fdevent collects the events of several descriptors before it
      delivers any, so FDE_WRITE may have been turned off in between. `limit` is
      get_max_payload(): the read loop stops when it has read that much. */
  predicate Deliverable(h: Half, e: Event, limit: nat) {
    && (h.phase.Connecting? || h.phase.Open? || h.phase.Closing?)
    && (e.write ==> Possible(h.queue, e.w))
    && |e.data| <= limit && (e.eof ==> |e.data| < limit)
    && (!e.read ==> e.data == [] && !e.eof)
  }

  /** An event whose FDE_WRITE is still asked for, as it is unless the peer is a local socket. */
  predicate EventPossible(h: Half, e: Event, limit: nat) {
    Deliverable(h, e, limit) && (e.write ==> h.write)
  }

  /** local_socket_event_func: writing before reading. */
  function OnEvent(h: Half, e: Event): Effect
    requires e.write ==> Possible(h.queue, e.w)
  {
    if !e.write then OnReadEvent(h, e, [], [])
    else
      var (h1, result) := FlushIncoming(h, e.w);
      var put := Put(h.queue, e.w);
      match result
      case Destroyed => Effect(h1, [], put, [])
      case TryAgain => OnReadEvent(h1, e, [], put)
      case Completed => OnReadEvent(h1, e, [OKAY], put)
  }

  /** The reading half, after the writing half sent `acks`. Without FDE_READ there is no data. */
  function OnReadEvent(h: Half, e: Event, acks: seq<Pkt>, put: seq<Byte>): Effect {
    Effect(FlushOutgoing(h, e.data, e.eof), acks + OutgoingEmits(h, e.data, e.eof), put,
           if h.phase.Open? then e.data else [], e.data)
  }

  /** handle_packet for a packet of this stream. `accept`: a service was found for the OPEN. */
  function OnPacket(h: Half, p: Pkt, w: WriteAnswer, accept: bool): Effect
    requires p.WRTE? ==> Possible(h.queue + p.data, w)
  {
    match p
    case OPEN =>
      if !h.phase.Absent? then Effect(h, [], [], [])
      else if accept then Effect(Half(Open, [], true, false, false), [OKAY], [], [])
      else Effect(h.(phase := Gone), [CLSE], [], [])
    case OKAY =>
      if h.phase.Open? then Effect(h.(read := true), [], [], [])
      else if h.phase.Connecting? then Effect(h.(phase := Open, read := true), [], [], [])
      else Effect(h, [CLSE], [], [])
    case CLSE =>
      if h.phase.Open? || h.phase.Connecting? then Effect(Close(h), CloseEmits(h), [], [])
      else Effect(h, [], [], [])
    case WRTE(data) =>
      if !h.phase.Open? then Effect(h, [], [], [])
      else
        var h0 := h.(queue := h.queue + data);
        var (h1, result) := FlushIncoming(h0, w);
        Effect(h1, if result.Completed? then [OKAY] else [], Put(h0.queue, w), [])
  }

  /** Two local sockets that are each other's peers, h and p: what h reads is queued at p. */
  function PairReads(h: Half, p: Half, data: seq<Byte>, eof: bool, w: WriteAnswer): (Half, Half)
    requires Possible(p.queue + data, w)
  {
    var (h1, p1) :=
      if data == [] then (h, p)
      else
        var (p1, result) := FlushIncoming(p.(queue := p.queue + data), w);
        (if result.TryAgain? then h.(read := false) else h, p1);
    if eof then (Close(h1), Close(p1)) else (h1, p1)
  }

  /** What waits at h is written, and then p may be read. */
  function PairWrites(h: Half, p: Half, w: WriteAnswer): (Half, Half)
    requires Possible(h.queue, w)
  {
    var (h1, result) := FlushIncoming(h, w);
    (h1, if result.Completed? then p.(read := true) else p)
  }

  function PairEvents(h: Half, p: Half, e: Event, w: WriteAnswer): (Half, Half)
    requires (e.write ==> Possible(h.queue, e.w)) && Possible(p.queue + e.data, w)
  {
    var (h1, p1) := if e.write then PairWrites(h, p, e.w) else (h, p);
    PairReads(h1, p1, e.data, e.eof, w)
  }

  /** Whether a service is found matters to an OPEN only. */
  lemma SameAnswer(h: Half, p: Pkt, w: WriteAnswer, accept: bool)
    requires !p.OPEN? && (p.WRTE? ==> Possible(h.queue + p.data, w))
    ensures OnPacket(h, p, w, accept) == OnPacket(h, p, w, false)
  {
  }

  /** An event is its writing half, then its reading half. */
  lemma EventParts(h: Half, e: Event)
    requires e.write ==> Possible(h.queue, e.w)
    ensures !e.write ==>
      && OnEvent(h, e).half == FlushOutgoing(h, e.data, e.eof)
      && OnEvent(h, e).emits == OutgoingEmits(h, e.data, e.eof)
    ensures e.write ==>
      var (h1, result) := FlushIncoming(h, e.w);
      if result.Destroyed? then OnEvent(h, e).half == h1 && OnEvent(h, e).emits == []
      else
        && OnEvent(h, e).half == FlushOutgoing(h1, e.data, e.eof)
        && OnEvent(h, e).emits ==
             (if result.Completed? then [OKAY] + OutgoingEmits(h1, e.data, e.eof) else OutgoingEmits(h1, e.data, e.eof))
  {
  }

  // What every callback keeps.

  /** The event mask tells the state of the queue. */
  predicate Ok(h: Half) {
    && (h.write ==> h.queue != [] && (h.phase.Open? || h.phase.Closing?))
    && ((h.phase.Open? || h.phase.Closing?) && h.queue != [] && !h.writeError ==> h.write)
    && (h.phase.Closing? ==> h.write && !h.read && !h.writeError)
    && (h.phase.Absent? || h.phase.Connecting? ==> h.queue == [] && !h.read && !h.writeError)
    && (h.phase.Gone? ==> !h.read)
  }

  lemma FlushOk(h: Half, w: WriteAnswer)
    requires Ok(h) && Possible(h.queue, w) && !h.phase.Absent? && !h.phase.Gone?
    ensures Ok(FlushIncoming(h, w).0)
  {
  }

  lemma OutgoingOk(h: Half, data: seq<Byte>, eof: bool)
    requires Ok(h) && !h.phase.Gone?
    ensures Ok(FlushOutgoing(h, data, eof))
  {
  }

  /** Every callback keeps the event mask right. In particular a socket that goes to the closing
      list has FDE_WRITE set (the CHECK at the end of local_socket_close), and a socket whose
      flush completes on an event has a peer to call ready on. */
  lemma OnEventOk(h: Half, e: Event, limit: nat)
    requires Ok(h) && EventPossible(h, e, limit)
    ensures Ok(OnEvent(h, e).half)
    ensures OnEvent(h, e).half.phase.Closing? ==> OnEvent(h, e).half.write
    ensures e.write && FlushIncoming(h, e.w).1.Completed? ==> h.phase.Open?
  {
    EventParts(h, e);
    if e.write {
      FlushOk(h, e.w);
      if !FlushIncoming(h, e.w).1.Destroyed? {
        OutgoingOk(FlushIncoming(h, e.w).0, e.data, e.eof);
      }
    } else {
      OutgoingOk(h, e.data, e.eof);
    }
  }

  lemma OnPacketOk(h: Half, p: Pkt, w: WriteAnswer, accept: bool)
    requires Ok(h) && (p.WRTE? ==> p.data != [] && Possible(h.queue + p.data, w))
    ensures Ok(OnPacket(h, p, w, accept).half)
    ensures p.WRTE? && h.phase.Open? ==> !FlushIncoming(h.(queue := h.queue + p.data), w).1.Destroyed?
  {
  }

  /** When a socket is destroyed with bytes it never wrote although no write failed: exactly if a
      socket on the closing list gets a read event that meets the end of the file while its queue
      is not written out. */
  lemma DestroyedUnwritten(h: Half, e: Event, limit: nat)
    requires Ok(h) && EventPossible(h, e, limit)
    ensures var g := OnEvent(h, e).half;
            g.phase.Gone? && g.queue != [] && !g.writeError <==>
              h.phase.Closing? && e.eof && !(e.write && (e.w.Failed? || e.w == Wrote(|h.queue|)))
  {
  }

  /** Without a failed write and an end of file, an open socket stays on the list. */
  lemma PoliteEvent(h: Half, e: Event, limit: nat)
    requires Ok(h) && EventPossible(h, e, limit) && !h.writeError
    requires (e.write ==> !e.w.Failed?) && (e.eof ==> h.phase.Closing?)
    ensures !OnEvent(h, e).half.writeError
    ensures Over(OnEvent(h, e).half) ==> h.phase.Closing?
  {
  }

  /** A packet destroys a socket only with an empty queue or after a failed write. */
  lemma PacketDestroys(h: Half, p: Pkt, w: WriteAnswer, accept: bool)
    requires Ok(h) && !h.phase.Gone? && (p.WRTE? ==> p.data != [] && Possible(h.queue + p.data, w))
    ensures var g := OnPacket(h, p, w, accept).half; g.phase.Gone? ==> g.queue == [] || g.writeError
  {
  }

  /** The socket has left the local socket list. */
  predicate Over(h: Half) {
    h.phase.Closing? || h.phase.Gone?
  }

  // Counting packets.

  function Payloads(ch: seq<Pkt>): seq<Byte> {
    if ch == [] then [] else (if ch[0].WRTE? then ch[0].data else []) + Payloads(ch[1..])
  }

  function Writes(ch: seq<Pkt>): nat {
    if ch == [] then 0 else (if ch[0].WRTE? then 1 else 0) + Writes(ch[1..])
  }

  function Okays(ch: seq<Pkt>): nat {
    if ch == [] then 0 else (if ch[0].OKAY? then 1 else 0) + Okays(ch[1..])
  }

  lemma {:induction false} CountConcat(a: seq<Pkt>, b: seq<Pkt>)
    ensures Payloads(a + b) == Payloads(a) + Payloads(b)
    ensures Writes(a + b) == Writes(a) + Writes(b)
    ensures Okays(a + b) == Okays(a) + Okays(b)
  {
    if a == [] {
      assert a + b == b;
    } else {
      assert (a + b)[1..] == a[1..] + b;
      CountConcat(a[1..], b);
    }
  }

  /** Every WRTE carries at least a byte and no more than the limit. */
  predicate Sized(ch: seq<Pkt>, limit: nat) {
    forall i :: 0 <= i < |ch| ==> ch[i].WRTE? ==> 0 < |ch[i].data| <= limit
  }

  lemma SizedConcat(a: seq<Pkt>, b: seq<Pkt>, limit: nat)
    requires Sized(a, limit) && Sized(b, limit)
    ensures Sized(a + b, limit)
    ensures forall p :: p in a + b <==> p in a || p in b
  {
  }

  function Bit(b: bool): nat {
    if b then 1 else 0
  }

  /** The event reads bytes of an open stream although FDE_READ is off. */
  predicate Overdraws(h: Half, e: Event) {
    h.phase.Open? && e.data != [] && !h.read
  }

  lemma CountOne(p: Pkt)
    ensures Payloads([p]) == if p.WRTE? then p.data else []
    ensures Writes([p]) == Bit(p.WRTE?) && Okays([p]) == Bit(p.OKAY?)
  {
    assert [p][1..] == [];
  }

  /** The reading half of an event. */
  lemma OutgoingAccount(h: Half, data: seq<Byte>, eof: bool)
    ensures var emits := OutgoingEmits(h, data, eof);
            && Payloads(emits) == (if h.phase.Open? then data else [])
            && Writes(emits) == Bit(h.phase.Open? && data != []) && Okays(emits) == 0
            && Sized(emits, |data|) && OPEN !in emits
            && (CLSE in emits ==> eof && h.phase.Open?)
            && (h.phase.Open? || emits == [])
  {
    var a := if data != [] && h.phase.Open? then [WRTE(data)] else [];
    var b := if eof then CloseEmits(h) else [];
    CountOne(WRTE(data));
    CountOne(CLSE);
    CountConcat(a, b);
  }

  lemma FlushAccount(h: Half, w: WriteAnswer)
    requires Possible(h.queue, w)
    ensures var (g, result) := FlushIncoming(h, w);
            && Put(h.queue, w) + g.queue == h.queue && |Put(h.queue, w)| == (if w.Wrote? then w.n else 0)
            && (result.Destroyed? ==> g.phase.Gone?)
            && (!result.Destroyed? ==> g.phase == h.phase && g.read == h.read)
            && (result.TryAgain? ==> g.write) && (result.Completed? ==> !g.write && !h.phase.Closing?)
  {
    if w.Wrote? {
      assert h.queue[..w.n] + h.queue[w.n..] == h.queue;
    } else {
      assert [] + h.queue == h.queue;
    }
  }

  lemma PairWritesAccount(h: Half, p: Half, w: WriteAnswer)
    requires Ok(h) && Ok(p) && h.phase.Open? && p.phase.Open? && Possible(h.queue, w)
    ensures var (h1, p1) := PairWrites(h, p, w);
            && Ok(h1) && Ok(p1) && h1.phase.Open? && p1.phase.Open? && p1.queue == p.queue
            && Put(h.queue, w) + h1.queue == h.queue
  {
    FlushAccount(h, w);
    FlushOk(h, w);
  }

  /** What is read at h joins the queue of p. */
  lemma QueuedAccount(p: Half, data: seq<Byte>, w: WriteAnswer)
    requires Ok(p) && p.phase.Open? && data != [] && Possible(p.queue + data, w)
    ensures var p1 := FlushIncoming(p.(queue := p.queue + data), w).0;
            Ok(p1) && p1.phase.Open? && Put(p.queue + data, w) + p1.queue == p.queue + data
  {
    FlushAccount(p.(queue := p.queue + data), w);
  }

  lemma PairReadsAccount(h: Half, p: Half, data: seq<Byte>, eof: bool, w: WriteAnswer)
    requires Ok(h) && Ok(p) && h.phase.Open? && p.phase.Open? && Possible(p.queue + data, w)
    ensures var (h1, p1) := PairReads(h, p, data, eof, w);
            && Ok(h1) && Ok(p1) && (h1.phase.Open? <==> !eof) && (p1.phase.Open? <==> !eof) && h1.queue == h.queue
            && (if data == [] then [] else Put(p.queue + data, w)) + p1.queue == p.queue + data
  {
    if data != [] {
      QueuedAccount(p, data, w);
    } else {
      assert [] + p.queue == p.queue == p.queue + [];
    }
  }

  /** A local pair loses nothing either: what p writes and keeps is what waited there and what h
      read; both masks stay right. */
  lemma PairAccount(h: Half, p: Half, e: Event, w: WriteAnswer, limit: nat)
    requires Ok(h) && Ok(p) && h.phase.Open? && p.phase.Open? && Deliverable(h, e, limit) && Possible(p.queue + e.data, w)
    ensures var (h', p') := PairEvents(h, p, e, w);
            && Ok(h') && Ok(p') && (h'.phase.Open? <==> !e.eof) && (p'.phase.Open? <==> !e.eof)
            && (if e.write then Put(h.queue, e.w) else []) + h'.queue == h.queue
            && (if e.data == [] then [] else Put(p.queue + e.data, w)) + p'.queue == p.queue + e.data
            && |Put(p.queue + e.data, w)| == (if w.Wrote? then w.n else 0)
  {
    if e.write {
      PairWritesAccount(h, p, e.w);
      var (h1, p1) := PairWrites(h, p, e.w);
      PairReadsAccount(h1, p1, e.data, e.eof, w);
    } else {
      assert [] + h.queue == h.queue;
      PairReadsAccount(h, p, e.data, e.eof, w);
    }
  }

  /** An acknowledgement before other packets. */
  lemma AcknowledgedAccount(acks: seq<Pkt>, out: seq<Pkt>, limit: nat)
    requires (acks == [] || acks == [OKAY]) && Sized(out, limit)
    ensures Payloads(acks + out) == Payloads(out) && Sized(acks + out, limit)
    ensures Okays(acks + out) == |acks| + Okays(out) && Writes(acks + out) == Writes(out)
    ensures forall p :: p in acks + out <==> p in acks || p in out
  {
    if acks == [] {
      assert acks + out == out;
    } else {
      CountOne(OKAY);
      CountConcat(acks, out);
      SizedConcat(acks, out, limit);
      assert [] + Payloads(out) == Payloads(out);
    }
  }

  /** The reading half of an event: the packets. */
  lemma ReadEventPackets(h: Half, e: Event, acks: seq<Pkt>, put: seq<Byte>, limit: nat)
    requires acks == [] || (acks == [OKAY] && h.phase.Open?)
    requires |e.data| <= limit
    ensures var f := OnReadEvent(h, e, acks, put);
            && Payloads(f.emits) == f.sent && Sized(f.emits, limit) && OPEN !in f.emits
            && Okays(f.emits) == |acks| && Writes(f.emits) == Bit(h.phase.Open? && e.data != [])
            && (CLSE in f.emits ==> e.eof && h.phase.Open?)
            && (h.phase.Open? || f.emits == [])
  {
    OutgoingAccount(h, e.data, e.eof);
    AcknowledgedAccount(acks, OutgoingEmits(h, e.data, e.eof), limit);
  }

  /** The reading half of an event: the socket. */
  lemma ReadEventSocket(h: Half, data: seq<Byte>, eof: bool)
    ensures var g := FlushOutgoing(h, data, eof);
            && g.queue == h.queue
            && (eof ==> Over(g)) && (!eof ==> g.phase == h.phase)
            && (!eof && h.phase.Open? ==>
                  && g.write == h.write
                  && Bit(g.read) + Bit(data != []) == Bit(h.read) + Bit(data != [] && !h.read))
  {
  }

  lemma ReadEventAccount(h: Half, e: Event, acks: seq<Pkt>, put: seq<Byte>, limit: nat)
    requires acks == [] || (acks == [OKAY] && h.phase.Open?)
    requires |e.data| <= limit
    ensures var f := OnReadEvent(h, e, acks, put);
            && f.put == put && f.half.queue == h.queue
            && Payloads(f.emits) == f.sent && Sized(f.emits, limit) && OPEN !in f.emits
            && Okays(f.emits) == |acks|
            && (h.phase.Open? || f.emits == [])
            && (CLSE in f.emits ==> Over(f.half)) && (f.half.phase == h.phase || Over(f.half))
            && (f.half.phase.Open? ==>
                  && f.half.write == h.write
                  && Bit(f.half.read) + Writes(f.emits) == Bit(h.read) + Bit(Overdraws(h, e)))
  {
    ReadEventPackets(h, e, acks, put, limit);
    ReadEventSocket(h, e.data, e.eof);
  }

  /** As many bytes reach the descriptor as it took. */
  lemma EventPuts(h: Half, e: Event)
    requires e.write ==> Possible(h.queue, e.w)
    ensures |OnEvent(h, e).put| == if e.write && e.w.Wrote? then e.w.n else 0
  {
  }

  /** An event sends what it read from an open stream and keeps the bytes it did not write. While
      the stream stays open, it spends the right to send one WRTE per WRTE, unless it had none to
      spend, and turns pending bytes into one OKAY. */
  lemma EventAccount(h: Half, e: Event, limit: nat)
    requires Ok(h) && EventPossible(h, e, limit)
    ensures var f := OnEvent(h, e);
            && f.put + f.half.queue == h.queue
            && Payloads(f.emits) == f.sent && Sized(f.emits, limit) && OPEN !in f.emits
            && (h.phase.Open? || f.emits == [])
            && (CLSE in f.emits ==> Over(f.half)) && (f.half.phase == h.phase || Over(f.half))
            && (f.half.phase.Open? ==>
                  && Bit(f.half.read) + Writes(f.emits) == Bit(h.read) + Bit(Overdraws(h, e))
                  && Bit(f.half.write) + Okays(f.emits) == Bit(h.write))
  {
    if !e.write {
      assert [] + h.queue == h.queue;
      ReadEventAccount(h, e, [], [], limit);
    } else {
      FlushAccount(h, e.w);
      var (h1, result) := FlushIncoming(h, e.w);
      var put := Put(h.queue, e.w);
      match result {
        case Destroyed =>
        case TryAgain => ReadEventAccount(h1, e, [], put, limit);
        case Completed => ReadEventAccount(h1, e, [OKAY], put, limit);
      }
    }
  }

  /** A packet sends no data; a WRTE to an open stream joins the queue. */
  lemma PacketData(h: Half, p: Pkt, w: WriteAnswer, accept: bool)
    requires Ok(h) && (p.WRTE? ==> p.data != [] && Possible(h.queue + p.data, w))
    ensures var f := OnPacket(h, p, w, accept);
            && Payloads(f.emits) == [] && f.sent == []
            && f.put + f.half.queue == (if h.phase.Open? && p.WRTE? then h.queue + p.data else h.queue)
            && |f.put| == (if h.phase.Open? && p.WRTE? && w.Wrote? then w.n else 0)
            && OPEN !in f.emits && Writes(f.emits) == 0
            && (forall q :: q in f.emits ==> !q.WRTE?)
            && (CLSE in f.emits ==> Over(f.half) || (h.phase.Absent? && p.OKAY?))
  {
    CountOne(OKAY);
    CountOne(CLSE);
    assert [] + h.queue == h.queue;
    if p.WRTE? {
      FlushAccount(h.(queue := h.queue + p.data), w);
    }
  }

  /** While the stream is open at this end: an OKAY gives the right to send, and a WRTE is
      answered now or later. */
  lemma PacketCredit(h: Half, p: Pkt, w: WriteAnswer, accept: bool)
    requires Ok(h) && (p.WRTE? ==> p.data != [] && Possible(h.queue + p.data, w))
    requires OnPacket(h, p, w, accept).half.phase.Open? && (h.phase.Open? || h.phase.Connecting?)
    ensures var f := OnPacket(h, p, w, accept);
            && Writes(f.emits) == 0
            && Bit(f.half.read) == (if p.OKAY? then 1 else Bit(h.read))
            && Bit(f.half.write) + Okays(f.emits) == (if p.WRTE? then 1 else Bit(h.write))
  {
    CountOne(OKAY);
  }
}
