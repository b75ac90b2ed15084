/** The CNXN exchange of adb/adb.cpp: protocol version and payload limit of a transport. */
module Negotiation {
  import opened Bytes
  import opened Packets

  /** What a build of adb was compiled with: A_VERSION and MAX_PAYLOAD. */
  datatype Build = Build(version: nat, maxPayload: nat)

  predicate Proper(b: Build) {
    b.version < 0x8000_0000 && 0 < b.maxPayload < WORD
  }

  const VERSION_MIN := 0x0100_0000
  const CNXN: Word := 0x4e58_4e43
  const WRTE: Word := 0x4554_5257

  /** The two fields of an atransport that are agreed upon. */
  datatype Limits = Limits(version: int, payload: nat)

  function Fresh(b: Build): Limits {
    Limits(VERSION_MIN, b.maxPayload)
  }

  function Min(x: int, y: int): int {
    if x <= y then x else y
  }

  /** The word as a C int. */
  function AsInt(w: Word): int {
    if w < 0x8000_0000 then w else w - WORD
  }

  /** command ^ 0xffffffff. */
  function Magic(command: Word): Word {
    0xffff_ffff - command
  }

  /** The bit of weight 2^k. */
  function BitOf(n: nat, k: nat): nat {
    if k == 0 then n % 2 else BitOf(n / 2, k - 1)
  }

  function Power2(k: nat): (p: nat)
    ensures p > 0
  {
    if k == 0 then 1 else 2 * Power2(k - 1)
  }

  lemma {:induction false} ComplementBits(width: nat, n: nat, k: nat)
    requires k < width && n < Power2(width)
    ensures BitOf(Power2(width) - 1 - n, k) == 1 - BitOf(n, k)
  {
    var half := Power2(width - 1);
    assert Power2(width) - 1 - n == 2 * (half - 1 - n / 2) + (1 - n % 2);
    if k > 0 {
      ComplementBits(width - 1, n / 2, k - 1);
    }
  }

  lemma {:induction false} SameBits(width: nat, m: nat, n: nat)
    requires m < Power2(width) && n < Power2(width) && forall k: nat :: k < width ==> BitOf(m, k) == BitOf(n, k)
    ensures m == n
  {
    if width > 0 {
      assert BitOf(m, 0) == BitOf(n, 0);
      forall k: nat | k < width - 1
        ensures BitOf(m / 2, k) == BitOf(n / 2, k)
      {
        assert BitOf(m, k + 1) == BitOf(n, k + 1);
      }
      SameBits(width - 1, m / 2, n / 2);
    }
  }

  lemma Power2Of32()
    ensures Power2(32) == WORD
  {
    assert Power2(8) == 256;
    assert Power2(16) == 0x1_0000;
    assert Power2(24) == 0x100_0000;
  }

  /** Each of the 32 bits of x is the opposite of that of y. */
  ghost predicate Opposite(x: Word, y: Word) {
    forall k: nat :: k < 32 ==> BitOf(x, k) + BitOf(y, k) == 1
  }

  lemma MagicIsOpposite(x: Word, command: Word)
    ensures x == Magic(command) <==> Opposite(x, command)
  {
    Power2Of32();
    forall k: nat | k < 32
      ensures BitOf(Magic(command), k) + BitOf(command, k) == 1
    {
      ComplementBits(32, command, k);
    }
    if Opposite(x, command) {
      forall k: nat | k < 32
        ensures BitOf(x, k) == BitOf(Magic(command), k)
      {
        assert BitOf(x, k) + BitOf(command, k) == 1 && BitOf(Magic(command), k) + BitOf(command, k) == 1;
      }
      SameBits(32, x, Magic(command));
    }
  }

  /** A header passes the check if and only if its magic has the opposite bits of its command, and the
      payload it announces is within the limit. */
  lemma PassesExactly(t: Limits, m: Message)
    ensures Passes(t, m) <==> Opposite(m.magic, m.command) && m.dataLength <= t.payload
  {
    MagicIsOpposite(m.magic, m.command);
  }

  class Transport {
    const build: Build
    var version: int
    var maxPayload: nat

    ghost predicate Valid()
      reads this
    {
      Proper(build) && maxPayload <= build.maxPayload
    }

    ghost function View(): Limits
      reads this
    {
      Limits(version, maxPayload)
    }

    constructor (build: Build)
      requires Proper(build)
      ensures Valid() && this.build == build && View() == Fresh(build)
      ensures version == 0x0100_0000 && maxPayload == build.maxPayload
    {
      this.build, version, maxPayload := build, VERSION_MIN, build.maxPayload;
    }

    /** send_connect. */
    method SendConnect(banner: seq<Byte>) returns (p: Packet)
      requires Valid() && |banner| <= 4096
      ensures p == Connect(build, View(), banner)
    {
      p := Packet(Message(CNXN, build.version, maxPayload, |banner|, 0, Magic(CNXN)), banner);
    }

    /** update_version, with the arguments of the other end's CNXN. */
    method UpdateVersion(arg0: Word, arg1: Word)
      requires Valid()
      modifies this
      ensures Valid() && View() == Updated(build, arg0, arg1)
    {
      version := Min(AsInt(arg0), build.version);
      maxPayload := Min(arg1, build.maxPayload);
    }

    method CheckHeader(m: Message) returns (ok: bool)
      ensures ok == Passes(View(), m)
    {
      if m.magic != Magic(m.command) {
        return false;
      }
      return m.dataLength <= maxPayload;
    }
  }

  function Connect(b: Build, t: Limits, banner: seq<Byte>): Packet
    requires Proper(b) && t.payload < WORD && |banner| < WORD
  {
    Packet(Message(CNXN, b.version, t.payload, |banner|, 0, Magic(CNXN)), banner)
  }

  function Updated(b: Build, arg0: Word, arg1: Word): Limits
    requires Proper(b)
  {
    Limits(Min(AsInt(arg0), b.version), Min(arg1, b.maxPayload))
  }

  /** What update_version keeps: the lesser of the two limits, and of the two versions, where a version of
      2^31 or more counts as negative. */
  lemma UpdatedMeans(b: Build, arg0: Word, arg1: Word)
    requires Proper(b)
    ensures var t := Updated(b, arg0, arg1);
            && (arg0 >= 0x8000_0000 ==> t.version == arg0 - 0x1_0000_0000)
            && (arg0 < 0x8000_0000 ==> t.version <= arg0 && t.version <= b.version && (t.version == arg0 || t.version == b.version))
            && t.payload <= arg1 && t.payload <= b.maxPayload && (t.payload == arg1 || t.payload == b.maxPayload)
  {
  }

  predicate Passes(t: Limits, m: Message) {
    m.magic == Magic(m.command) && m.dataLength <= t.payload
  }

  /** The device's limits after the host's CNXN, and the host's after the device's reply. */
  function DeviceSide(host: Build, h: Limits, device: Build): Limits
    requires Proper(host) && Proper(device) && h.payload < WORD
  {
    var c := Connect(host, h, []).msg;
    Updated(device, c.arg0, c.arg1)
  }

  function HostSide(host: Build, h: Limits, device: Build): Limits
    requires Proper(host) && Proper(device) && h.payload < WORD
  {
    var c := Connect(device, DeviceSide(host, h, device), []).msg;
    Updated(host, c.arg0, c.arg1)
  }

  /** The host keeps its atransport when it reconnects: its limits after a series of devices. */
  function HostAfter(host: Build, h: Limits, devices: seq<Build>): (r: Limits)
    requires Proper(host) && h.payload <= host.maxPayload
    requires forall i :: 0 <= i < |devices| ==> Proper(devices[i])
    ensures r.payload <= host.maxPayload
    decreases devices
  {
    if devices == [] then h else HostAfter(host, HostSide(host, h, devices[0]), devices[1..])
  }

  function Least(m: nat, devices: seq<Build>): nat {
    if devices == [] then m else Least(Min(m, devices[0].maxPayload), devices[1..])
  }

  /** After every exchange the two ends agree on version and payload. */
  lemma Agreement(host: Build, h: Limits, device: Build)
    requires Proper(host) && Proper(device) && h.payload <= host.maxPayload
    ensures HostSide(host, h, device) == DeviceSide(host, h, device)
    ensures HostSide(host, h, device).version == Min(host.version, device.version)
    ensures HostSide(host, h, device).payload == Min(host.maxPayload, device.maxPayload)
            <==> Min(host.maxPayload, device.maxPayload) <= h.payload
  {
  }

  /** The payload limit of a transport is the least it has ever met: it does not rise again. */
  lemma {:induction false} LimitNeverRises(host: Build, h: Limits, devices: seq<Build>)
    requires Proper(host) && h.payload <= host.maxPayload
    requires forall i :: 0 <= i < |devices| ==> Proper(devices[i])
    ensures HostAfter(host, h, devices).payload == Least(h.payload, devices)
    decreases devices
  {
    if devices == [] {
    } else {
      LimitNeverRises(host, HostSide(host, h, devices[0]), devices[1..]);
    }
  }

  /** asocket::get_max_payload of a socket whose peer is on the transport. */
  function SocketLimit(b: Build, t: Limits): nat {
    Min(b.maxPayload, t.payload)
  }

  function WritePacket(data: seq<Byte>): Packet
    requires |data| < WORD
  {
    Packet(Message(WRTE, 1, 1, |data|, 0, Magic(WRTE)), data)
  }

  /** Whatever devices came before: a WRTE that a socket of either end can make passes the check of
      the other end, and no larger one does. */
  lemma WritesPass(host: Build, devices: seq<Build>, device: Build, data: seq<Byte>)
    requires Proper(host) && Proper(device) && |data| < WORD
    requires forall i :: 0 <= i < |devices| ==> Proper(devices[i])
    ensures var before := HostAfter(host, Fresh(host), devices);
            var (h, d) := (HostSide(host, before, device), DeviceSide(host, before, device));
            && (|data| <= SocketLimit(host, h) <==> Passes(d, WritePacket(data).msg))
            && (|data| <= SocketLimit(device, d) <==> Passes(h, WritePacket(data).msg))
  {
    Agreement(host, HostAfter(host, Fresh(host), devices), device);
  }

  /** A device with a small limit, then one with a large limit: both ends could do more. */
  lemma LimitStaysLow()
    ensures var (large, small) := (Build(0x0100_0001, 0x10_0000), Build(0x0100_0001, 4096));
            HostAfter(large, Fresh(large), [small, large]).payload == 4096 < Min(large.maxPayload, large.maxPayload)
  {
    var large, small := Build(0x0100_0001, 0x10_0000), Build(0x0100_0001, 4096);
    LimitNeverRises(large, Fresh(large), [small, large]);
    assert [small, large][1..] == [large] && [large][1..] == [];
    assert Least(4096, [large]) == Least(4096, []);
  }
}
