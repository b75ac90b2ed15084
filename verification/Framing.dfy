/** What NonblockingFdConnection (adb/transport_fd.cpp) does to the byte stream, on values:
    reassembly of packets from arbitrary chunks, and partial writes. */
module Framing {
  import opened Bytes
  import opened Options
  import opened Packets

  /** read_header_ and the bytes in read_buffer_. */
  datatype Receiver = Receiver(header: Option<Message>, buffer: seq<Byte>)

  const IDLE := Receiver(None, [])

  function TakeHeader(r: Receiver): Receiver {
    if r.header.None? && |r.buffer| >= HEADER_SIZE
    then Receiver(Some(ParseHeader(r.buffer[..HEADER_SIZE])), r.buffer[HEADER_SIZE..])
    else r
  }

  function TakePacket(r: Receiver): (Receiver, Option<Packet>) {
    if r.header.Some? && |r.buffer| >= r.header.value.dataLength
    then (Receiver(None, r.buffer[r.header.value.dataLength..]),
          Some(Packet(r.header.value, r.buffer[..r.header.value.dataLength])))
    else (r, None)
  }

  /** One turn of the read loop: at most one packet comes out. */
  function OnRead(r: Receiver, chunk: seq<Byte>): (Receiver, Option<Packet>) {
    TakePacket(TakeHeader(r.(buffer := r.buffer + chunk)))
  }

  /** The received bytes that no delivered packet has used yet. */
  function Pending(r: Receiver): seq<Byte> {
    (if r.header.Some? then HeaderBytes(r.header.value) else []) + r.buffer
  }

  function Packed(p: Option<Packet>): seq<Packet> {
    if p.Some? then [p.value] else []
  }

  /** The payload length that a header at the front of some bytes announces. */
  function Announced(s: seq<Byte>): nat
    requires |s| >= HEADER_SIZE
  {
    BytesWord(s[12..16])
  }

  lemma AnnouncedLength(m: Message, rest: seq<Byte>)
    ensures Announced(HeaderBytes(m) + rest) == m.dataLength
  {
    WordRoundTrip(m.dataLength);
    assert (HeaderBytes(m) + rest)[12..16] == WordBytes(m.dataLength);
  }

  /** The number of whole packets at the front of some bytes. */
  function Complete(s: seq<Byte>): nat
    decreases |s|
  {
    if |s| < HEADER_SIZE || |s| < HEADER_SIZE + Announced(s) then 0
    else 1 + Complete(s[HEADER_SIZE + Announced(s)..])
  }

  lemma CompleteAfter(p: Packet, rest: seq<Byte>)
    requires WellFormed(p)
    ensures Complete(Encode(p) + rest) == 1 + Complete(rest)
  {
    Associate(HeaderBytes(p.msg), p.payload, rest);
    AnnouncedLength(p.msg, p.payload + rest);
    assert (Encode(p) + rest)[HEADER_SIZE + |p.payload|..] == rest;
  }

  lemma {:induction false} CompleteAfterAll(ps: seq<Packet>, rest: seq<Byte>)
    requires AllWellFormed(ps)
    ensures Complete(EncodeAll(ps) + rest) == |ps| + Complete(rest)
  {
    if ps == [] {
      assert EncodeAll(ps) + rest == rest;
    } else {
      Associate(Encode(ps[0]), EncodeAll(ps[1..]), rest);
      CompleteAfter(ps[0], EncodeAll(ps[1..]) + rest);
      CompleteAfterAll(ps[1..], rest);
    }
  }

  lemma Cut(s: seq<Byte>, k: nat)
    requires k <= |s|
    ensures s[..k] + s[k..] == s
  {
  }

  lemma TakeHeaderPending(r: Receiver)
    ensures Pending(TakeHeader(r)) == Pending(r)
    ensures TakeHeader(r).header.None? ==> Complete(Pending(r)) == 0
  {
    if r.header.None? {
      assert Pending(r) == r.buffer;
      if |r.buffer| >= HEADER_SIZE {
        ParseRoundTrip(r.buffer[..HEADER_SIZE]);
        Cut(r.buffer, HEADER_SIZE);
      }
    }
  }

  /** A turn of the read loop uses up the bytes of the packet it delivers and no others, and
      delivers one exactly when one is complete. */
  lemma OnReadExact(r: Receiver, chunk: seq<Byte>)
    ensures var (r', p) := OnRead(r, chunk);
            && (p.Some? ==> WellFormed(p.value))
            && EncodeAll(Packed(p)) + Pending(r') == Pending(r) + chunk
            && (p.Some? <==> Complete(Pending(r) + chunk) > 0)
            && Complete(Pending(r')) + |Packed(p)| == Complete(Pending(r) + chunk)
  {
    var all := r.(buffer := r.buffer + chunk);
    assert Pending(all) == Pending(r) + chunk;
    TakeHeaderPending(all);
    var t := TakeHeader(all);
    if t.header.Some? {
      TakePacketExact(t);
    } else {
      assert EncodeAll([]) + Pending(t) == Pending(t);
    }
  }

  lemma TakePacketExact(t: Receiver)
    requires t.header.Some?
    ensures var (r', p) := TakePacket(t);
            && (p.Some? ==> WellFormed(p.value))
            && EncodeAll(Packed(p)) + Pending(r') == Pending(t)
            && (p.Some? <==> Complete(Pending(t)) > 0)
            && Complete(Pending(r')) + |Packed(p)| == Complete(Pending(t))
  {
    var (r', p) := TakePacket(t);
    var h := t.header.value;
    if p.Some? {
      assert Pending(t) == Encode(p.value) + Pending(r');
      CompleteAfter(p.value, Pending(r'));
      assert EncodeAll([p.value]) == Encode(p.value) + EncodeAll([p.value][1..]);
    } else {
      AnnouncedLength(h, t.buffer);
      assert EncodeAll([]) + Pending(r') == Pending(r');
    }
  }

  // Whole runs of the read loop.

  function ReadAll(chunks: seq<seq<Byte>>): (Receiver, seq<Packet>) {
    if chunks == [] then (IDLE, [])
    else
      var (r, got) := ReadAll(chunks[..|chunks| - 1]);
      var (r', p) := OnRead(r, chunks[|chunks| - 1]);
      (r', got + Packed(p))
  }

  /** One more chunk, after packets and pending bytes that account for all bytes so far. */
  lemma ReceivedStep(got: seq<Packet>, r: Receiver, all: seq<Byte>, chunk: seq<Byte>)
    requires AllWellFormed(got) && EncodeAll(got) + Pending(r) == all
    ensures var (r', p) := OnRead(r, chunk);
            && AllWellFormed(got + Packed(p))
            && EncodeAll(got + Packed(p)) + Pending(r') == all + chunk
            && |got + Packed(p)| == if |got| + 1 <= Complete(all + chunk) then |got| + 1 else Complete(all + chunk)
  {
    OnReadExact(r, chunk);
    var (r', p) := OnRead(r, chunk);
    EncodeAllPacked(got, p);
    Associate(EncodeAll(got), EncodeAll(Packed(p)), Pending(r'));
    Associate(EncodeAll(got), Pending(r), chunk);
    CompleteAfterAll(got, Pending(r) + chunk);
  }

  /** Delivered packets, the pending header and the buffer account for every byte received. */
  ghost predicate Accounted(chunks: seq<seq<Byte>>) {
    && AllWellFormed(ReadAll(chunks).1)
    && EncodeAll(ReadAll(chunks).1) + Pending(ReadAll(chunks).0) == Join(chunks)
  }

  function Delivered(chunks: seq<seq<Byte>>): nat {
    |ReadAll(chunks).1|
  }

  lemma ReadAllAppend(before: seq<seq<Byte>>, last: seq<Byte>)
    ensures var (r, p) := OnRead(ReadAll(before).0, last);
            ReadAll(before + [last]) == (r, ReadAll(before).1 + Packed(p))
  {
    assert (before + [last])[..|before|] == before;
  }

  lemma ReadStep(before: seq<seq<Byte>>, last: seq<Byte>)
    requires Accounted(before)
    ensures Accounted(before + [last])
    ensures var ready := Complete(Join(before) + last);
            Delivered(before + [last]) == if Delivered(before) + 1 <= ready then Delivered(before) + 1 else ready
  {
    ReadAllAppend(before, last);
    ReceivedStep(ReadAll(before).1, ReadAll(before).0, Join(before), last);
    JoinAppend(before, last);
  }

  /** After any chunks: delivered packets ++ pending header ++ buffered bytes are exactly the
      bytes received. */
  lemma {:induction false} ReceivedBytes(chunks: seq<seq<Byte>>)
    ensures Accounted(chunks)
  {
    if chunks == [] {
      assert EncodeAll([]) + Pending(IDLE) == [];
    } else {
      var before, last := chunks[..|chunks| - 1], chunks[|chunks| - 1];
      ReceivedBytes(before);
      ReadStep(before, last);
      assert chunks == before + [last];
    }
  }

  lemma EncodeAllPacked(got: seq<Packet>, p: Option<Packet>)
    ensures EncodeAll(got + Packed(p)) == EncodeAll(got) + EncodeAll(Packed(p))
  {
    if p.Some? {
      EncodeAllAppend(got, p.value);
      assert EncodeAll([p.value]) == Encode(p.value) + EncodeAll([p.value][1..]);
    } else {
      assert got + [] == got;
    }
  }

  /** However the sent bytes are cut into chunks, and however many of them have arrived, the
      packets delivered are the first packets sent, header and payload intact. */
  lemma FramingRoundTrip(sent: seq<Packet>, chunks: seq<seq<Byte>>)
    requires AllWellFormed(sent)
    requires Join(chunks) <= EncodeAll(sent)
    ensures ReadAll(chunks).1 <= sent
  {
    ReceivedBytes(chunks);
    PrefixWithRest(ReadAll(chunks).1, Pending(ReadAll(chunks).0), Join(chunks), sent);
  }

  lemma PrefixWithRest(got: seq<Packet>, pending: seq<Byte>, all: seq<Byte>, sent: seq<Packet>)
    requires AllWellFormed(got) && AllWellFormed(sent)
    requires EncodeAll(got) + pending == all && all <= EncodeAll(sent)
    ensures got <= sent
  {
    var missing := EncodeAll(sent)[|all|..];
    assert EncodeAll(sent) == all + missing;
    Associate(EncodeAll(got), pending, missing);
    PrefixOfPackets(got, pending + missing, sent);
  }

  /** The lag of the read loop: each chunk brings out one more packet at most, even when more
      are complete. */
  lemma OnePerRead(before: seq<seq<Byte>>, last: seq<Byte>)
    ensures var ready := Complete(Join(before + [last]));
            Delivered(before + [last]) == if Delivered(before) + 1 <= ready then Delivered(before) + 1 else ready
  {
    ReceivedBytes(before);
    ReadStep(before, last);
    JoinAppend(before, last);
  }

  ghost predicate CaughtUp(chunks: seq<seq<Byte>>) {
    Delivered(chunks) == Complete(Join(chunks))
  }

  /** The last chunk completes no more than one packet. */
  ghost predicate OneCompletes(chunks: seq<seq<Byte>>)
    requires chunks != []
  {
    Complete(Join(chunks)) <= Complete(Join(chunks[..|chunks| - 1])) + 1
  }

  /** The connection keeps up with the peer, never leaving a whole packet in the buffer, if and
      only if no chunk completes two packets. */
  lemma {:induction false} KeepsUpExactly(chunks: seq<seq<Byte>>)
    ensures (forall k :: 0 <= k <= |chunks| ==> CaughtUp(chunks[..k]))
       <==> (forall k :: 0 < k <= |chunks| ==> OneCompletes(chunks[..k]))
  {
    assert CaughtUp([]);
    if forall k :: 0 < k <= |chunks| ==> OneCompletes(chunks[..k]) {
      forall k | 0 <= k <= |chunks|
        ensures CaughtUp(chunks[..k])
      {
        CatchesUp(chunks, k);
      }
    } else {
      var k :| 0 < k <= |chunks| && !OneCompletes(chunks[..k]);
      assert chunks[..k][..k - 1] == chunks[..k - 1];
      assert chunks[..k] == chunks[..k - 1] + [chunks[k - 1]];
      OnePerRead(chunks[..k - 1], chunks[k - 1]);
      assert !(CaughtUp(chunks[..k - 1]) && CaughtUp(chunks[..k]));
    }
  }

  lemma {:induction false} CatchesUp(chunks: seq<seq<Byte>>, k: nat)
    requires k <= |chunks|
    requires forall j :: 0 < j <= k ==> OneCompletes(chunks[..j])
    ensures CaughtUp(chunks[..k])
  {
    if k > 0 {
      CatchesUp(chunks, k - 1);
      assert chunks[..k][..k - 1] == chunks[..k - 1];
      assert OneCompletes(chunks[..k]);
      assert chunks[..k] == chunks[..k - 1] + [chunks[k - 1]];
      OnePerRead(chunks[..k - 1], chunks[k - 1]);
      MoreBytes(chunks[..k]);
    }
  }

  /** More bytes never complete fewer packets. */
  lemma MoreBytes(chunks: seq<seq<Byte>>)
    requires chunks != []
    ensures Complete(Join(chunks[..|chunks| - 1])) <= Complete(Join(chunks))
  {
    var before, last := chunks[..|chunks| - 1], chunks[|chunks| - 1];
    assert chunks == before + [last];
    JoinAppend(before, last);
    CompleteMonotone(Join(before), last);
  }

  lemma {:induction false} CompleteMonotone(s: seq<Byte>, more: seq<Byte>)
    ensures Complete(s) <= Complete(s + more)
    decreases |s|
  {
    if |s| >= HEADER_SIZE {
      assert (s + more)[12..16] == s[12..16];
      var n := HEADER_SIZE + Announced(s);
      if |s| >= n {
        assert (s + more)[n..] == s[n..] + more;
        CompleteMonotone(s[n..], more);
      }
    }
  }

  /** Any two packets in one chunk: one of them is left waiting. */
  lemma TwoInOneChunk(p: Packet, q: Packet)
    requires WellFormed(p) && WellFormed(q)
    ensures var chunks := [Encode(p) + Encode(q)]; Delivered(chunks) == 1 && Complete(Join(chunks)) == 2
  {
    var chunk := Encode(p) + Encode(q);
    CompleteAfter(p, Encode(q));
    CompleteAfter(q, []);
    assert Encode(q) + [] == Encode(q);
    OnePerRead([], chunk);
    assert [] + [chunk] == [chunk];
    JoinAppend([], chunk);
    assert [] + chunk == chunk;
  }
}
