/** The packet format on the wire: a header of six 32-bit words, sent in little-endian order
    (adb/protocol.txt), then the payload. */
module Packets {
  import opened Bytes

  type Word = x: int | 0 <= x < 0x1_0000_0000 witness 0

  datatype Message = Message(command: Word, arg0: Word, arg1: Word, dataLength: Word, dataCheck: Word, magic: Word)

  datatype Packet = Packet(msg: Message, payload: seq<Byte>)

  const HEADER_SIZE := 24

  function WordBytes(w: Word): (s: seq<Byte>)
    ensures |s| == 4
  {
    [w % 256, w / 256 % 256, w / 256 / 256 % 256, w / 256 / 256 / 256]
  }

  function BytesWord(s: seq<Byte>): Word
    requires |s| == 4
  {
    s[0] as int + 256 * (s[1] as int + 256 * (s[2] as int + 256 * s[3] as int))
  }

  lemma WordRoundTrip(w: Word)
    ensures BytesWord(WordBytes(w)) == w
  {
  }

  lemma LowByte(b: Byte, rest: nat)
    ensures (b as int + 256 * rest) % 256 == b && (b as int + 256 * rest) / 256 == rest
  {
  }

  lemma BytesRoundTrip(s: seq<Byte>)
    requires |s| == 4
    ensures WordBytes(BytesWord(s)) == s
  {
    LowByte(s[2], s[3]);
    LowByte(s[1], s[2] as int + 256 * s[3] as int);
    LowByte(s[0], s[1] as int + 256 * (s[2] as int + 256 * s[3] as int));
  }

  function HeaderBytes(m: Message): (s: seq<Byte>)
    ensures |s| == HEADER_SIZE
  {
    WordBytes(m.command) + WordBytes(m.arg0) + WordBytes(m.arg1)
    + WordBytes(m.dataLength) + WordBytes(m.dataCheck) + WordBytes(m.magic)
  }

  /** The wire format: six words, in the order of the protocol, each with its least byte first. */
  lemma HeaderLayout(m: Message, i: nat, w: Word)
    requires i < 6 && w == [m.command, m.arg0, m.arg1, m.dataLength, m.dataCheck, m.magic][i]
    ensures HeaderBytes(m)[4 * i..4 * i + 4] == [w % 256, w / 0x100 % 256, w / 0x1_0000 % 256, w / 0x100_0000]
  {
    assert w / 256 / 256 == w / 0x1_0000 && w / 256 / 256 / 256 == w / 0x100_0000;
    assert HeaderBytes(m)[4 * i..4 * i + 4] == WordBytes(w);
  }

  function ParseHeader(s: seq<Byte>): Message
    requires |s| == HEADER_SIZE
  {
    Message(BytesWord(s[0..4]), BytesWord(s[4..8]), BytesWord(s[8..12]),
            BytesWord(s[12..16]), BytesWord(s[16..20]), BytesWord(s[20..24]))
  }

  lemma HeaderRoundTrip(m: Message)
    ensures ParseHeader(HeaderBytes(m)) == m
  {
    var s := HeaderBytes(m);
    WordRoundTrip(m.command);
    WordRoundTrip(m.arg0);
    WordRoundTrip(m.arg1);
    WordRoundTrip(m.dataLength);
    WordRoundTrip(m.dataCheck);
    WordRoundTrip(m.magic);
    assert s[0..4] == WordBytes(m.command) && s[4..8] == WordBytes(m.arg0) && s[8..12] == WordBytes(m.arg1);
    assert s[12..16] == WordBytes(m.dataLength) && s[16..20] == WordBytes(m.dataCheck) && s[20..24] == WordBytes(m.magic);
  }

  lemma ParseRoundTrip(s: seq<Byte>)
    requires |s| == HEADER_SIZE
    ensures HeaderBytes(ParseHeader(s)) == s
  {
    BytesRoundTrip(s[0..4]);
    BytesRoundTrip(s[4..8]);
    BytesRoundTrip(s[8..12]);
    BytesRoundTrip(s[12..16]);
    BytesRoundTrip(s[16..20]);
    BytesRoundTrip(s[20..24]);
    assert s == s[0..4] + s[4..8] + s[8..12] + s[12..16] + s[16..20] + s[20..24];
  }

  /** The sender's promise: the header announces the payload's length. */
  predicate WellFormed(p: Packet) {
    p.msg.dataLength == |p.payload|
  }

  function Encode(p: Packet): seq<Byte> {
    HeaderBytes(p.msg) + p.payload
  }

  function EncodeAll(ps: seq<Packet>): seq<Byte> {
    if ps == [] then [] else Encode(ps[0]) + EncodeAll(ps[1..])
  }

  lemma {:induction false} EncodeAllAppend(ps: seq<Packet>, p: Packet)
    ensures EncodeAll(ps + [p]) == EncodeAll(ps) + Encode(p)
  {
    if ps == [] {
      assert EncodeAll([p]) == Encode(p) + EncodeAll([p][1..]);
    } else {
      assert (ps + [p])[1..] == ps[1..] + [p];
      EncodeAllAppend(ps[1..], p);
    }
  }

  predicate AllWellFormed(ps: seq<Packet>) {
    forall i :: 0 <= i < |ps| ==> WellFormed(ps[i])
  }

  /** A packet is determined by any bytes that begin with it. */
  lemma FirstPacketUnique(p: Packet, x: seq<Byte>, q: Packet, y: seq<Byte>)
    requires WellFormed(p) && WellFormed(q)
    requires Encode(p) + x == Encode(q) + y
    ensures p == q && x == y
  {
    var s := Encode(p) + x;
    assert s[..HEADER_SIZE] == HeaderBytes(p.msg);
    assert s[..HEADER_SIZE] == HeaderBytes(q.msg);
    HeaderRoundTrip(p.msg);
    HeaderRoundTrip(q.msg);
    assert s[HEADER_SIZE..][..|p.payload|] == p.payload;
    assert s[HEADER_SIZE..][..|q.payload|] == q.payload;
    assert s[|Encode(p)|..] == x;
    assert s[|Encode(q)|..] == y;
  }

  /** Packets decoded from a prefix of the sent bytes are a prefix of the sent packets. */
  lemma {:induction false} PrefixOfPackets(got: seq<Packet>, rest: seq<Byte>, sent: seq<Packet>)
    requires AllWellFormed(got) && AllWellFormed(sent)
    requires EncodeAll(got) + rest == EncodeAll(sent)
    ensures got <= sent && rest == EncodeAll(sent[|got|..])
  {
    if got == [] {
      assert EncodeAll(got) + rest == rest;
    } else {
      assert EncodeAll(sent) != [];
      Associate(Encode(got[0]), EncodeAll(got[1..]), rest);
      FirstPacketUnique(got[0], EncodeAll(got[1..]) + rest, sent[0], EncodeAll(sent[1..]));
      PrefixOfPackets(got[1..], rest, sent[1..]);
      assert sent[1..][|got| - 1..] == sent[|got|..];
      assert got == [got[0]] + got[1..] && sent == [sent[0]] + sent[1..];
    }
  }
}
