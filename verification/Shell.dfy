/** The shell protocol of adb/shell_service_protocol.cpp: packets of one identifier byte, a 32-bit
    length and the data. A reader whose buffer is smaller than a packet gets it in several fragments.
    Both ends are taken to be little-endian. */
module Shell {
  import opened Bytes
  import opened Options
  import opened Packets

  const HEADER_LENGTH := 5

  datatype Fragment = Fragment(id: Byte, data: seq<Byte>)

  predicate Sendable(p: Fragment) {
    |p.data| < WORD
  }

  function Wire(p: Fragment): (s: seq<Byte>)
    requires Sendable(p)
    ensures |s| == HEADER_LENGTH + |p.data|
  {
    [p.id] + WordBytes(|p.data|) + p.data
  }

  /** The wire format: the id, the length with its least byte first, the data. */
  lemma WireLayout(p: Fragment)
    requires Sendable(p)
    ensures var n := |p.data|;
            Wire(p) == [p.id, n % 256, n / 0x100 % 256, n / 0x1_0000 % 256, n / 0x100_0000] + p.data
  {
    var n := |p.data|;
    assert n / 256 / 256 == n / 0x1_0000 && n / 256 / 256 / 256 == n / 0x100_0000;
  }

  predicate AllSendable(packets: seq<Fragment>) {
    forall i :: 0 <= i < |packets| ==> Sendable(packets[i])
  }

  function WireAll(packets: seq<Fragment>): seq<Byte>
    requires AllSendable(packets)
  {
    if packets == [] then [] else Wire(packets[0]) + WireAll(packets[1..])
  }

  /** The data of a packet in pieces of the reader's capacity. */
  function Pieces(id: Byte, data: seq<Byte>, capacity: nat): (r: seq<Fragment>)
    requires capacity > 0
    ensures forall i :: 0 <= i < |r| ==> r[i].id == id && |r[i].data| <= capacity
    decreases |data|
  {
    if |data| <= capacity then [Fragment(id, data)]
    else [Fragment(id, data[..capacity])] + Pieces(id, data[capacity..], capacity)
  }

  function Data(fragments: seq<Fragment>): seq<Byte> {
    if fragments == [] then [] else fragments[0].data + Data(fragments[1..])
  }

  /** max(1, ceil(length / capacity)). */
  function Reads(length: nat, capacity: nat): nat
    requires capacity > 0
  {
    if length == 0 then 1 else (length + capacity - 1) / capacity
  }

  lemma {:induction false} PiecesExact(id: Byte, data: seq<Byte>, capacity: nat)
    requires capacity > 0
    ensures Data(Pieces(id, data, capacity)) == data
    ensures |Pieces(id, data, capacity)| == Reads(|data|, capacity)
    decreases |data|
  {
    if |data| <= capacity {
      assert [Fragment(id, data)][1..] == [];
      OneRead(|data|, capacity);
    } else {
      var rest := Pieces(id, data[capacity..], capacity);
      PiecesExact(id, data[capacity..], capacity);
      assert ([Fragment(id, data[..capacity])] + rest)[1..] == rest;
      MoreReads(|data|, capacity);
    }
  }

  lemma OneRead(length: nat, capacity: nat)
    requires 0 < capacity && length <= capacity
    ensures Reads(length, capacity) == 1
  {
    if length > 0 {
      Quotient(length + capacity - 1, capacity, 1, length - 1);
    }
  }

  lemma MoreReads(length: nat, capacity: nat)
    requires 0 < capacity < length
    ensures Reads(length, capacity) == 1 + Reads(length - capacity, capacity)
  {
    var n := length - 1;
    Quotient(n + capacity, capacity, n / capacity + 1, n % capacity);
  }

  lemma Quotient(n: nat, d: nat, q: nat, r: nat)
    requires 0 < d && r < d && n == d * q + r
    ensures n / d == q
  {
    var (p, r') := (n / d, n % d);
    assert n == d * p + r';
    assert d * (q - p) == r' - r;
    if p < q {
      Grows(d, q - p);
    } else if p > q {
      Grows(d, p - q);
    }
  }

  lemma {:induction false} Grows(d: nat, k: nat)
    requires k > 0
    ensures d * k >= d
  {
    if k > 1 {
      Grows(d, k - 1);
      assert d * k == d * (k - 1) + d;
    }
  }

  function AllPieces(packets: seq<Fragment>, capacity: nat): seq<Fragment>
    requires capacity > 0
  {
    if packets == [] then [] else Pieces(packets[0].id, packets[0].data, capacity) + AllPieces(packets[1..], capacity)
  }

  // The reader.

  /** `id` is what the buffer starts with, `left` the part of the packet still to come. */
  datatype Reader = Reader(id: Byte, left: nat, input: seq<Byte>)

  datatype Result = Result(fragment: Fragment, reader: Reader)

  function Min(a: nat, b: nat): nat {
    if a <= b then a else b
  }

  /** One Read(); None if the input ends too early. */
  function ReadHeader(r: Reader): Option<Reader> {
    if r.left > 0 then Some(r)
    else if |r.input| < HEADER_LENGTH then None
    else Some(Reader(r.input[0], BytesWord(r.input[1..HEADER_LENGTH]), r.input[HEADER_LENGTH..]))
  }

  function ReadData(r: Reader, capacity: nat): Option<Result> {
    var n := Min(r.left, capacity);
    if |r.input| < n then None
    else Some(Result(Fragment(r.id, r.input[..n]), Reader(r.id, r.left - n, r.input[n..])))
  }

  function Read(r: Reader, capacity: nat): Option<Result> {
    var h := ReadHeader(r);
    if h.None? then None else ReadData(h.value, capacity)
  }

  type Reading = Reader -> Option<Result>

  function ReadingWith(capacity: nat): Reading {
    r => Read(r, capacity)
  }

  /** Successive reads return these fragments. */
  predicate Yields(read: Reading, r: Reader, fragments: seq<Fragment>, end: Reader)
    decreases fragments
  {
    if fragments == [] then end == r
    else
      && read(r).Some? && read(r).value.fragment == fragments[0]
      && Yields(read, read(r).value.reader, fragments[1..], end)
  }

  lemma YieldsFirst(read: Reading, r: Reader, first: Fragment, next: Reader, more: seq<Fragment>, end: Reader)
    requires read(r) == Some(Result(first, next)) && Yields(read, next, more, end)
    ensures Yields(read, r, [first] + more, end)
  {
    assert ([first] + more)[1..] == more;
  }

  lemma {:induction false} YieldsConcat(read: Reading, r: Reader, a: seq<Fragment>, mid: Reader, b: seq<Fragment>, end: Reader)
    requires Yields(read, r, a, mid) && Yields(read, mid, b, end)
    ensures Yields(read, r, a + b, end)
    decreases a
  {
    if a == [] {
      assert a + b == b;
    } else {
      YieldsConcat(read, read(r).value.reader, a[1..], mid, b, end);
      assert (a + b)[1..] == a[1..] + b;
    }
  }

  lemma ReadPiece(id: Byte, data: seq<Byte>, rest: seq<Byte>, capacity: nat)
    ensures var n := Min(|data|, capacity);
            ReadData(Reader(id, |data|, data + rest), capacity)
            == Some(Result(Fragment(id, data[..n]), Reader(id, |data| - n, data[n..] + rest)))
  {
    var n := Min(|data|, capacity);
    assert (data + rest)[..n] == data[..n] && (data + rest)[n..] == data[n..] + rest;
  }

  lemma ReadLastPiece(id: Byte, data: seq<Byte>, rest: seq<Byte>, capacity: nat)
    requires |data| <= capacity
    ensures ReadData(Reader(id, |data|, data + rest), capacity) == Some(Result(Fragment(id, data), Reader(id, 0, rest)))
  {
    ReadPiece(id, data, rest, capacity);
    assert data[..|data|] == data && data[|data|..] + rest == rest;
  }

  /** A reader that is about to read the data gets all the pieces. */
  lemma {:induction false} ReadPieces(read: Reading, r: Reader, id: Byte, data: seq<Byte>, rest: seq<Byte>, capacity: nat)
    requires capacity > 0 && forall x :: read(x) == Read(x, capacity)
    requires read(r) == ReadData(Reader(id, |data|, data + rest), capacity)
    ensures Yields(read, r, Pieces(id, data, capacity), Reader(id, 0, rest))
    decreases |data|
  {
    if |data| <= capacity {
      ReadLastPiece(id, data, rest, capacity);
      YieldsFirst(read, r, Fragment(id, data), Reader(id, 0, rest), [], Reader(id, 0, rest));
    } else {
      var more := data[capacity..];
      var next := Reader(id, |more|, more + rest);
      ReadPiece(id, data, rest, capacity);
      assert read(next) == Read(next, capacity);
      ReadPieces(read, next, id, more, rest, capacity);
      YieldsFirst(read, r, Fragment(id, data[..capacity]), next, Pieces(id, more, capacity), Reader(id, 0, rest));
    }
  }

  lemma ReadWireHeader(was: Byte, p: Fragment, rest: seq<Byte>)
    requires Sendable(p)
    ensures ReadHeader(Reader(was, 0, Wire(p) + rest)) == Some(Reader(p.id, |p.data|, p.data + rest))
  {
    var input := Wire(p) + rest;
    assert input[0] == p.id && input[1..HEADER_LENGTH] == WordBytes(|p.data|);
    assert input[HEADER_LENGTH..] == p.data + rest;
    WordRoundTrip(|p.data|);
  }

  lemma ReadPacket(read: Reading, was: Byte, p: Fragment, rest: seq<Byte>, capacity: nat)
    requires capacity > 0 && Sendable(p) && forall x :: read(x) == Read(x, capacity)
    ensures Yields(read, Reader(was, 0, Wire(p) + rest), Pieces(p.id, p.data, capacity), Reader(p.id, 0, rest))
  {
    var r := Reader(was, 0, Wire(p) + rest);
    ReadWireHeader(was, p, rest);
    assert read(r) == Read(r, capacity);
    ReadPieces(read, r, p.id, p.data, rest, capacity);
  }

  function LastId(was: Byte, packets: seq<Fragment>): Byte {
    if packets == [] then was else packets[|packets| - 1].id
  }

  lemma {:induction false} ReadPackets(read: Reading, was: Byte, packets: seq<Fragment>, rest: seq<Byte>, capacity: nat)
    requires capacity > 0 && AllSendable(packets) && forall x :: read(x) == Read(x, capacity)
    ensures Yields(read, Reader(was, 0, WireAll(packets) + rest), AllPieces(packets, capacity),
                   Reader(LastId(was, packets), 0, rest))
    decreases packets
  {
    if packets == [] {
      assert WireAll(packets) + rest == rest;
    } else {
      var p, more := packets[0], packets[1..];
      var behind := WireAll(more) + rest;
      ReadPacket(read, was, p, behind, capacity);
      ReadPackets(read, p.id, more, rest, capacity);
      Associate(Wire(p), WireAll(more), rest);
      YieldsConcat(read, Reader(was, 0, Wire(p) + behind), Pieces(p.id, p.data, capacity),
                   Reader(p.id, 0, behind), AllPieces(more, capacity), Reader(LastId(p.id, more), 0, rest));
    }
  }

  /** Whatever was written is read, each packet in as few fragments as the capacity allows. */
  lemma ShellRoundTrip(was: Byte, packets: seq<Fragment>, rest: seq<Byte>, capacity: nat)
    requires capacity > 0 && AllSendable(packets)
    ensures Yields(ReadingWith(capacity), Reader(was, 0, WireAll(packets) + rest), AllPieces(packets, capacity),
                   Reader(LastId(was, packets), 0, rest))
  {
    ReadPackets(ReadingWith(capacity), was, packets, rest, capacity);
  }

  function Empty(id: Byte, n: nat): (r: seq<Fragment>)
    ensures |r| == n && forall i :: 0 <= i < n ==> r[i] == Fragment(id, [])
  {
    seq(n, _ => Fragment(id, []))
  }

  /** With no room for data a packet is never finished: any number of reads return empty fragments and
      leave the reader where it is. */
  lemma {:induction false} NoCapacity(read: Reading, id: Byte, data: seq<Byte>, rest: seq<Byte>, n: nat)
    requires data != [] && forall x :: read(x) == Read(x, 0)
    ensures Yields(read, Reader(id, |data|, data + rest), Empty(id, n), Reader(id, |data|, data + rest))
    decreases n
  {
    if n > 0 {
      var r := Reader(id, |data|, data + rest);
      assert read(r) == Read(r, 0);
      ReadPiece(id, data, rest, 0);
      assert data[..0] == [] && data[0..] == data;
      NoCapacity(read, id, data, rest, n - 1);
      YieldsFirst(read, r, Fragment(id, []), r, Empty(id, n - 1), r);
      assert [Fragment(id, [])] + Empty(id, n - 1) == Empty(id, n);
    }
  }

  class ShellProtocol {
    const buffer: array<Byte>
    var dataLength: nat
    var bytesLeft: nat
    var input: seq<Byte>   // what the descriptor will still deliver
    var output: seq<Byte>

    ghost predicate Valid()
      reads this
    {
      buffer.Length >= HEADER_LENGTH && dataLength <= buffer.Length - HEADER_LENGTH
    }

    /** The state of the reader. */
    ghost function View(): Reader
      requires Valid()
      reads this, buffer
    {
      Reader(buffer[0], bytesLeft, input)
    }

    constructor (size: nat, input: seq<Byte>)
      requires size >= HEADER_LENGTH
      ensures Valid() && View() == Reader(255, 0, input) && output == [] && fresh(buffer) && buffer.Length == size
    {
      buffer := new Byte[size];
      dataLength, bytesLeft, this.input, output := 0, 0, input, [];
      new;
      buffer[0] := 255;
    }

    /** ReadFdExactly. */
    method ReadExactly(at: nat, n: nat) returns (ok: bool)
      requires at + n <= buffer.Length
      modifies this`input, buffer
      ensures ok == (n <= |old(input)|)
      ensures ok ==> input == old(input)[n..]
      ensures ok ==> buffer[..] == old(buffer[..at]) + old(input)[..n] + old(buffer[at + n..])
    {
      if |input| < n {
        input := [];
        return false;
      }
      Memcpy(buffer, at, input[..n]);
      input := input[n..];
      ok := true;
    }

    method ReadHeaderBytes() returns (ok: bool)
      requires Valid() && bytesLeft == 0
      modifies this, buffer
      ensures Valid() && output == old(output)
      ensures ok == ReadHeader(old(View())).Some?
      ensures ok ==> ReadHeader(old(View())) == Some(View())
    {
      ok := ReadExactly(0, HEADER_LENGTH);
      if ok {
        assert buffer[..HEADER_LENGTH] == old(input)[..HEADER_LENGTH];
        assert buffer[1..HEADER_LENGTH] == old(input)[1..HEADER_LENGTH];
        bytesLeft := BytesWord(buffer[1..HEADER_LENGTH]);
        dataLength := 0;
      }
    }

    /** Read(). */
    method ReadFragment() returns (ok: bool)
      requires Valid()
      modifies this, buffer
      ensures Valid() && output == old(output)
      ensures var r := Read(old(View()), buffer.Length - HEADER_LENGTH);
              && ok == r.Some?
              && (ok ==> r.value.reader == View()
                         && r.value.fragment == Fragment(buffer[0], buffer[HEADER_LENGTH..HEADER_LENGTH + dataLength]))
    {
      if bytesLeft == 0 {
        ok := ReadHeaderBytes();
        if !ok {
          return;
        }
      }
      ghost var r := View();
      var n := Min(bytesLeft, buffer.Length - HEADER_LENGTH);
      if n > 0 {
        ok := ReadExactly(HEADER_LENGTH, n);
        if !ok {
          return;
        }
      }
      bytesLeft, dataLength := bytesLeft - n, n;
      ok := true;
      assert buffer[0] == r.id && buffer[HEADER_LENGTH..HEADER_LENGTH + n] == r.input[..n];
    }

    /** Write(): the data is in the buffer already. */
    method WritePacket(id: Byte, length: nat)
      requires Valid() && length <= buffer.Length - HEADER_LENGTH && length < WORD
      modifies this`output, buffer
      ensures buffer[HEADER_LENGTH..] == old(buffer[HEADER_LENGTH..])
      ensures output == old(output) + Wire(Fragment(id, old(buffer[HEADER_LENGTH..HEADER_LENGTH + length])))
    {
      ghost var data := buffer[HEADER_LENGTH..HEADER_LENGTH + length];
      buffer[0] := id;
      Memcpy(buffer, 1, WordBytes(length));
      assert buffer[..HEADER_LENGTH] == [id] + WordBytes(length);
      assert buffer[HEADER_LENGTH..HEADER_LENGTH + length] == data;
      assert buffer[..HEADER_LENGTH + length] == buffer[..HEADER_LENGTH] + buffer[HEADER_LENGTH..HEADER_LENGTH + length];
      output := output + buffer[..HEADER_LENGTH + length];
    }
  }
}
