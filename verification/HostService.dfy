/** parse_host_service of adb/sockets.cpp: splits "serial:command", where the serial may itself hold
    colons. */
module HostService {
  import NetAddress
  import opened Options
  import opened Text

  const PREFIXES: seq<string> := ["usb:", "product:", "model:", "device:", "localfilesystem:"]

  predicate StartsWith(s: string, i: nat, prefix: string) {
    i + |prefix| <= |s| && s[i..i + |prefix|] == prefix
  }

  /** How much of the input one of the prefixes, from the k-th on, takes; 0 if none does. */
  function PrefixFrom(s: string, k: nat): (n: nat)
    requires k <= |PREFIXES|
    ensures n <= |s|
    decreases |PREFIXES| - k
  {
    if k == |PREFIXES| then 0
    else if StartsWith(s, 0, PREFIXES[k]) then |PREFIXES[k]|
    else PrefixFrom(s, k + 1)
  }

  function PrefixLength(s: string): (n: nat)
    ensures n <= |s|
  {
    PrefixFrom(s, 0)
  }

  /** Past "tcp:" or "udp:", then past "vsock:". */
  function PastProtocol(s: string): (i: nat)
    ensures i <= |s|
  {
    var i := if StartsWith(s, 0, "tcp:") || StartsWith(s, 0, "udp:") then 4 else 0;
    if StartsWith(s, i, "vsock:") then i + 6 else i
  }

  /** Past the address that starts at i and the colon behind it; None if it does not end in one. */
  function PastAddress(s: string, i: nat): (r: Option<nat>)
    requires i <= |s|
    ensures r.Some? ==> i < r.value <= |s| && s[r.value - 1] == ':'
  {
    if i < |s| && s[i] == '[' && Find(s, ']', i) < |s| then
      var j := Find(s, ']', i) + 1;
      if j < |s| && s[j] == ':' then Some(j + 1) else None
    else
      var c := Find(s, ':', i);
      if c == |s| then None else Some(c + 1)
  }

  /** Past a port that starts at a, if digits and a colon are there. */
  function PastPort(s: string, a: nat): (n: nat)
    requires a <= |s|
    ensures a <= n <= |s| && (n == a || s[n - 1] == ':')
  {
    var c := Find(s, ':', a);
    if c < |s| && AllDigits(s[a..c]) then c + 1 else a
  }

  /** Where the command begins, None if the input is refused. */
  function CommandStart(s: string): (r: Option<nat>)
    ensures r.Some? ==> 0 < r.value < |s| && s[r.value - 1] == ':'
  {
    var p := PrefixLength(s);
    if s == [] then None
    else if p > 0 then
      var c := Find(s, ':', p);
      if c + 1 >= |s| then None else Some(c + 1)
    else
      match PastAddress(s, PastProtocol(s))
      case None => None
      case Some(a) =>
        var n := PastPort(s, a);
        if n == |s| then None else Some(n)
  }

  /** The code: `n` bytes have gone from the command to the serial. `overread` tells whether the first
      byte of an empty rest is looked at. That byte is behind the input, and no bracket as long as the
      input is followed by a NUL. */
  method ParseHostService(s: string) returns (ok: bool, serial: string, command: string, overread: bool)
    ensures ok == CommandStart(s).Some?
    ensures ok ==> |serial| + 1 == CommandStart(s).value && s == serial + ":" + command && command != []
    ensures overread <==> s == "vsock:" || s == "tcp:vsock:" || s == "udp:vsock:"
  {
    ok, serial, command, overread := false, "", "", false;
    NothingButProtocol(s);
    if s == [] {
      return;
    }
    var n := TryPrefixes(s);
    if n > 0 {
      var offset := Find(s, ':', n);
      if offset == |s| {
        return;
      }
      ok, serial, command := Finish(s, offset + 1);
      return;
    }
    var refused;
    n, refused := SkipProtocol(s);
    if refused {
      return;
    }
    overread := n == |s|;
    var past := SkipAddress(s, n);
    if past.None? {
      return;
    }
    n := SkipPort(s, past.value);
    ok, serial, command := Finish(s, n);
  }

  /** The test for an empty rest is behind the first two prefixes only. */
  method SkipProtocol(s: string) returns (n: nat, refused: bool)
    ensures n == PastProtocol(s) && (refused <==> s == "tcp:" || s == "udp:")
  {
    n, refused := 0, false;
    if StartsWith(s, 0, "tcp:") || StartsWith(s, 0, "udp:") {
      n := 4;
      assert |s| == 4 ==> s[0..4] == s;
      if n == |s| {
        return n, true;
      }
    }
    if StartsWith(s, n, "vsock:") {
      VsockColon(s, n);
      n := Find(s, ':', n) + 1;
    }
  }

  method SkipPort(s: string, a: nat) returns (n: nat)
    requires a <= |s|
    ensures n == PastPort(s, a)
  {
    n := a;
    var colon := Find(s, ':', a);
    if colon < |s| {
      var valid := DigitsBetween(s, a, colon);
      if valid {
        n := colon + 1;
      }
    }
  }

  method TryPrefixes(s: string) returns (n: nat)
    ensures n == PrefixLength(s)
  {
    for k := 0 to |PREFIXES|
      invariant PrefixFrom(s, k) == PrefixLength(s)
    {
      if StartsWith(s, 0, PREFIXES[k]) {
        return |PREFIXES[k]|;
      }
    }
    return 0;
  }

  lemma OtherStart(s: string, name: string, k: nat)
    requires k < |s| && k < |name| && s[k] != name[k]
    ensures !StartsWith(s, 0, name)
  {
    if |name| <= |s| {
      assert s[0..|name|][k] == s[k];
    }
  }

  /** Nothing that begins with a protocol begins with one of the prefixes. */
  lemma ProtocolNoPrefix(s: string)
    requires |s| > 1 && (s[0] == 't' || s[0] == 'v' || (s[0] == 'u' && s[1] == 'd'))
    ensures PrefixLength(s) == 0
  {
    OtherStart(s, "usb:", if s[0] == 'u' then 1 else 0);
    OtherStart(s, "product:", 0);
    OtherStart(s, "model:", 0);
    OtherStart(s, "device:", 0);
    OtherStart(s, "localfilesystem:", 0);
    assert PrefixFrom(s, 5) == 0 && PrefixFrom(s, 4) == 0 && PrefixFrom(s, 3) == 0;
    assert PrefixFrom(s, 2) == 0 && PrefixFrom(s, 1) == 0;
  }

  predicate OnlyProtocol(s: string) {
    s == "tcp:" || s == "udp:" || s == "vsock:" || s == "tcp:vsock:" || s == "udp:vsock:"
  }

  /** Inputs without anything behind the protocol. */
  lemma NothingButProtocol(s: string)
    ensures s != [] && PastProtocol(s) == |s| <==> OnlyProtocol(s)
    ensures OnlyProtocol(s) ==> PrefixLength(s) == 0
  {
    assert |s| == 10 ==> s == s[0..4] + s[4..10];
    assert s == s[0..|s|];
    if OnlyProtocol(s) {
      ProtocolNoPrefix(s);
      OnlyProtocolPast(s);
    }
  }

  lemma OnlyProtocolPast(s: string)
    requires OnlyProtocol(s)
    ensures PastProtocol(s) == |s|
  {
    if |s| == 4 {
      assert s[0..4] == s;
    } else if |s| == 6 {
      assert s[0..6] == s;
      OtherStart(s, "tcp:", 0);
      OtherStart(s, "udp:", 0);
    } else {
      assert s[0..4] == s[..4] && s[4..10] == "vsock:";
      assert s[..4] == "tcp:" || s[..4] == "udp:";
    }
  }

  lemma VsockColon(s: string, n: nat)
    requires StartsWith(s, n, "vsock:")
    ensures Find(s, ':', n) == n + 5
  {
    var v := s[n..n + 6];
    assert s[n] == v[0] && s[n + 1] == v[1] && s[n + 2] == v[2] && s[n + 3] == v[3] && s[n + 4] == v[4] && s[n + 5] == v[5];
    FindAt(s, ':', n, n + 5);
  }

  /** The address: in brackets, or up to the next colon. */
  method SkipAddress(s: string, start: nat) returns (past: Option<nat>)
    requires start <= |s|
    ensures past == PastAddress(s, start)
  {
    if start < |s| && s[start] == '[' {
      var end := Find(s, ']', start);
      if end < |s| {
        if end + 1 == |s| || s[end + 1] != ':' {
          return None;
        }
        return Some(end + 2);
      }
    }
    var offset := Find(s, ':', start);
    if offset == |s| {
      return None;
    }
    return Some(offset + 1);
  }

  method DigitsBetween(s: string, a: nat, b: nat) returns (valid: bool)
    requires a <= b <= |s|
    ensures valid == AllDigits(s[a..b])
  {
    for i := a to b
      invariant AllDigits(s[a..i])
    {
      if !IsDigit(s[i]) {
        assert s[a..b][i - a] == s[i];
        return false;
      }
      assert s[a..i + 1] == s[a..i] + [s[i]];
    }
    return true;
  }

  /** Drops the colon at the end of the serial (CHECK_EQ), unless a part is empty. */
  method Finish(s: string, n: nat) returns (ok: bool, serial: string, command: string)
    requires 0 < n <= |s| && s[n - 1] == ':'
    ensures ok == (n < |s|)
    ensures ok ==> |serial| + 1 == n && s == serial + ":" + command && command != []
  {
    if n == |s| {
      return false, "", "";
    }
    return true, s[..n - 1], s[n..];
  }

  // What was printed by ParseNetAddress is read back.

  /** The command itself looks like a port and something behind it. */
  predicate LooksLikePort(command: string) {
    var c := Find(command, ':', 0);
    c < |command| && AllDigits(command[..c])
  }

  predicate ReservedHost(host: string) {
    host == "tcp" || host == "udp" || host == "vsock"
  }

  lemma FindAt(s: string, c: char, i: nat, j: nat)
    requires i <= j < |s| && s[j] == c && forall k :: i <= k < j ==> s[k] != c
    ensures Find(s, c, i) == j
  {
  }

  lemma {:induction false} FindBehind(a: string, b: string, c: char, i: nat)
    requires i <= |b|
    ensures Find(a + b, c, |a| + i) == |a| + Find(b, c, i)
  {
    var j := Find(b, c, i);
    assert forall k :: |a| + i <= k < |a| + j ==> (a + b)[k] == b[k - |a|];
    if j < |b| {
      assert (a + b)[|a| + j] == c;
      FindAt(a + b, c, |a| + i, |a| + j);
    }
  }

  /** Text that is behind a colon already read. */
  lemma CommandOrPort(s: string, a: nat)
    requires a <= |s|
    ensures PastPort(s, a) == a <==> !LooksLikePort(s[a..])
    ensures PastPort(s, a) == |s| && a < |s| ==> LooksLikePort(s[a..])
  {
    assert s == s[..a] + s[a..];
    FindBehind(s[..a], s[a..], ':', 0);
    var c := Find(s[a..], ':', 0);
    assert s[a..][..c] == s[a..a + c];
  }

  lemma BracketPrefix(s: string)
    requires s != [] && s[0] == '['
    ensures PrefixLength(s) == 0 && PastProtocol(s) == 0
  {
    BracketNoProtocol(s);
    assert PrefixFrom(s, 5) == 0 by { BracketStart(s); }
    assert PrefixFrom(s, 4) == 0 by { BracketStart(s); }
    assert PrefixFrom(s, 3) == 0 by { BracketStart(s); }
    assert PrefixFrom(s, 2) == 0 by { BracketStart(s); }
    assert PrefixFrom(s, 1) == 0 by { BracketStart(s); }
    BracketStart(s);
  }

  lemma BracketStart(s: string)
    requires s != [] && s[0] == '['
    ensures forall name: string :: name != [] && name[0] != '[' ==> !StartsWith(s, 0, name)
  {
    forall name: string | name != [] && name[0] != '['
      ensures !StartsWith(s, 0, name)
    {
      assert |name| <= |s| ==> s[0..|name|][0] == '[';
    }
  }

  lemma BracketNoProtocol(s: string)
    requires s != [] && s[0] == '['
    ensures PastProtocol(s) == 0
  {
    BracketStart(s);
  }

  predicate Protocol(p: string) {
    p == "tcp:" || p == "udp:" || p == "vsock:" || p == "tcp:vsock:" || p == "udp:vsock:"
  }

  lemma ProtocolStart(p: string, rest: string)
    requires Protocol(p) && PastProtocol(rest) == 0
    ensures p != [] && PrefixLength(p + rest) == 0 && PastProtocol(p + rest) == |p|
  {
    var s := p + rest;
    ProtocolNoPrefix(s);
    assert s[..|p|] == p;
    if |p| == 4 {
      assert s[0..4] == p && (|rest| >= 6 ==> s[4..10] == rest[0..6]);
    } else if |p| == 6 {
      assert s[0..6] == p;
      OtherStart(s, "tcp:", 0);
      OtherStart(s, "udp:", 0);
    } else {
      assert s[0..4] == p[0..4] && s[4..10] == p[4..10] == "vsock:";
      assert p[0..4] == "tcp:" || p[0..4] == "udp:";
    }
  }

  /** Behind anything, an address and a port end where they would end alone. */
  lemma ShiftedAddress(p: string, rest: string)
    ensures var (a, b) := (PastAddress(p + rest, |p|), PastAddress(rest, 0));
            && a.Some? == b.Some? && (b.Some? ==> a.value == |p| + b.value)
  {
    FindBehind(p, rest, ']', 0);
    FindBehind(p, rest, ':', 0);
  }

  lemma ShiftedPort(p: string, rest: string, a: nat)
    requires a <= |rest|
    ensures PastPort(p + rest, |p| + a) == |p| + PastPort(rest, a)
  {
    FindBehind(p, rest, ':', a);
    var c := Find(rest, ':', a);
    assert (p + rest)[|p| + a..|p| + c] == rest[a..c];
  }

  /** A protocol in front of a serial without one changes nothing but the place of the command: it is
      found exactly where it is found without the protocol. */
  lemma ProtocolIsSkipped(p: string, rest: string)
    requires Protocol(p) && PrefixLength(rest) == 0 && PastProtocol(rest) == 0
    ensures var (a, b) := (CommandStart(p + rest), CommandStart(rest));
            && a.Some? == b.Some? && (b.Some? ==> a.value == |p| + b.value)
  {
    ProtocolStart(p, rest);
    SkippedBehind(p, rest);
  }

  lemma SkippedBehind(p: string, rest: string)
    requires PrefixLength(p + rest) == 0 && PastProtocol(p + rest) == |p|
    requires PrefixLength(rest) == 0 && PastProtocol(rest) == 0
    ensures var (a, b) := (CommandStart(p + rest), CommandStart(rest));
            && a.Some? == b.Some? && (b.Some? ==> a.value == |p| + b.value)
  {
    ShiftedParts(p, rest);
    StartIsSkipped(p + rest, rest, |p|);
  }

  lemma ShiftedParts(p: string, rest: string)
    ensures PastAddress(p + rest, |p|).Some? == PastAddress(rest, 0).Some?
    ensures PastAddress(rest, 0).Some? ==>
      var a := PastAddress(rest, 0).value;
      PastAddress(p + rest, |p|).value == |p| + a && PastPort(p + rest, |p| + a) == |p| + PastPort(rest, a)
  {
    ShiftedAddress(p, rest);
    var a := PastAddress(rest, 0);
    if a.Some? {
      ShiftedPort(p, rest, a.value);
    }
  }

  lemma StartIsSkipped(s: string, rest: string, n: nat)
    requires |s| == n + |rest| && PrefixLength(s) == 0 && PastProtocol(s) == n
    requires PrefixLength(rest) == 0 && PastProtocol(rest) == 0
    requires PastAddress(s, n).Some? == PastAddress(rest, 0).Some?
    requires PastAddress(rest, 0).Some? ==>
      var a := PastAddress(rest, 0).value;
      PastAddress(s, n).value == n + a && PastPort(s, n + a) == n + PastPort(rest, a)
    ensures CommandStart(s).Some? == CommandStart(rest).Some?
    ensures CommandStart(rest).Some? ==> CommandStart(s).value == n + CommandStart(rest).value
  {
    var a := PastAddress(rest, 0);
    if a.None? {
      NoAddressCase(s, n);
      NoAddressCase(rest, 0);
    } else {
      ShiftedCase(s, rest, n, a.value);
    }
  }

  lemma ShiftedCase(s: string, rest: string, n: nat, a: nat)
    requires 0 < |rest| && |s| == n + |rest| && a <= |rest|
    requires PrefixLength(s) == 0 && PastProtocol(s) == n && PastAddress(s, n) == Some(n + a)
    requires PrefixLength(rest) == 0 && PastProtocol(rest) == 0 && PastAddress(rest, 0) == Some(a)
    requires PastPort(s, n + a) == n + PastPort(rest, a)
    ensures CommandStart(s).Some? == CommandStart(rest).Some?
    ensures CommandStart(rest).Some? ==> CommandStart(s).value == n + CommandStart(rest).value
  {
    AddressCase(s, n, n + a);
    AddressCase(rest, 0, a);
  }

  lemma NoAddressCase(s: string, i: nat)
    requires PrefixLength(s) == 0 && PastProtocol(s) == i && PastAddress(s, i) == None
    ensures CommandStart(s) == None
  {
  }

  lemma AddressCase(s: string, i: nat, a: nat)
    requires s != [] && PrefixLength(s) == 0 && PastProtocol(s) == i && PastAddress(s, i) == Some(a)
    ensures CommandStart(s) == if PastPort(s, a) == |s| then None else Some(PastPort(s, a))
  {
  }

  /** A serial in brackets; e is the closing one, c the colon in front of the command. */
  lemma BracketCase(s: string, e: nat, c: nat)
    requires s != [] && s[0] == '[' && e + 2 <= c && c + 1 < |s| && s[e] == ']' && s[e + 1] == ':'
    requires Find(s, ':', e + 2) == c && AllDigits(s[e + 2..c])
    ensures CommandStart(s) == Some(c + 1) <==> Find(s, ']', 0) == e
  {
    BracketPrefix(s);
    var j := Find(s, ']', 0);
    assert j <= e;
    if j == e {
      AddressCase(s, 0, e + 2);
    } else if s[j + 1] == ':' {
      AddressCase(s, 0, j + 2);
      assert Find(s, ':', j + 2) <= e + 1;
    }
  }

  /** Where the parts of head, port and command lie. */
  lemma Layout(s: string, head: string, digits: string, command: string)
    requires s == head + digits + ":" + command
    ensures |s| == |head| + |digits| + 1 + |command| && s[..|head|] == head
    ensures s[|head|..|head| + |digits|] == digits
    ensures s[|head| + |digits|] == ':' && s[|head| + |digits| + 1..] == command
  {
  }

  lemma FindBehindDigits(s: string, h: nat, c: nat)
    requires h <= c < |s| && s[c] == ':' && AllDigits(s[h..c])
    ensures Find(s, ':', h) == c
  {
    forall k | h <= k < c
      ensures s[k] != ':'
    {
      assert s[k] == s[h..c][k - h];
    }
    FindAt(s, ':', h, c);
  }

  lemma FirstBracket(s: string, e: nat)
    requires 0 < e < |s| && s[0] == '[' && s[e] == ']'
    ensures Find(s, ']', 0) == e <==> ']' !in s[1..e]
  {
    if Find(s, ']', 0) == e {
      assert forall k :: 0 <= k < e - 1 ==> s[1..e][k] == s[k + 1] != ']';
    } else {
      var j := Find(s, ']', 0);
      assert s[1..e][j - 1] == s[j];
    }
  }

  lemma Bracketed(s: string, e: nat, c: nat)
    requires 0 < e && e + 2 <= c && c + 1 < |s| && s[0] == '[' && s[e] == ']' && s[e + 1] == ':'
    requires s[c] == ':' && AllDigits(s[e + 2..c])
    ensures CommandStart(s) == Some(c + 1) <==> ']' !in s[1..e]
  {
    FindBehindDigits(s, e + 2, c);
    FirstBracket(s, e);
    BracketCase(s, e, c);
  }

  predicate PrefixHost(host: string) {
    host == "usb" || host == "product" || host == "model" || host == "device" || host == "localfilesystem"
  }

  lemma PlainPrefixLength(s: string, h: nat)
    requires h < |s| && s[h] == ':' && ':' !in s[..h]
    ensures PrefixLength(s) == if PrefixHost(s[..h]) then h + 1 else 0
  {
    var host := s[..h];
    PlainPrefix(s, h, "usb");
    PlainPrefix(s, h, "product");
    PlainPrefix(s, h, "model");
    PlainPrefix(s, h, "device");
    PlainPrefix(s, h, "localfilesystem");
    assert PrefixFrom(s, 5) == 0;
    assert PrefixFrom(s, 4) == if host == "localfilesystem" then 16 else 0;
    assert PrefixFrom(s, 3) == if host == "device" then 7 else PrefixFrom(s, 4);
    assert PrefixFrom(s, 2) == if host == "model" then 6 else PrefixFrom(s, 3);
    assert PrefixFrom(s, 1) == if host == "product" then 8 else PrefixFrom(s, 2);
  }

  /** The reserved names are taken for a protocol. */
  lemma PlainProtocol(s: string, h: nat)
    requires h + 1 < |s| && s[h] == ':' && ':' !in s[..h] && s[h + 1] != 'v'
    ensures PastProtocol(s) == if ReservedHost(s[..h]) then h + 1 else 0
  {
    PlainPrefix(s, h, "tcp");
    PlainPrefix(s, h, "udp");
    PlainPrefix(s, h, "vsock");
    if s[..h] == "tcp" || s[..h] == "udp" {
      assert h == 3;
      assert |s| >= 10 ==> s[4..10][0] == s[4];
    }
  }

  lemma PlainPrefix(s: string, h: nat, name: string)
    requires h < |s| && s[h] == ':' && ':' !in s[..h] && ':' !in name
    ensures StartsWith(s, 0, name + ":") <==> s[..h] == name
  {
    var n := |name|;
    if n < |s| {
      assert s[..n + 1] == s[..n] + [s[n]];
      assert (name + ":")[n] == ':' && (name + ":")[..n] == name;
    }
    if StartsWith(s, 0, name + ":") {
      assert s[0..n + 1] == name + ":";
      assert s[n] == s[0..n + 1][n] && s[..n] == s[0..n + 1][..n];
      assert n == h;
    }
  }

  lemma PrefixCase(s: string, p: nat, c: nat)
    requires 0 < p == PrefixLength(s) && Find(s, ':', p) == c && c + 1 < |s|
    ensures CommandStart(s) == Some(c + 1)
  {
  }

  /** A plain serial; p is where it is taken to start, c the first colon from there on. */
  lemma ReservedCase(s: string, p: nat, c: nat)
    requires p < c && c + 1 < |s| && s[p] != '[' && Find(s, ':', p) == c
    requires PrefixLength(s) == 0 && PastProtocol(s) == p
    ensures CommandStart(s) == Some(c + 1) <==> !LooksLikePort(s[c + 1..])
  {
    PlainAddress(s, p, c);
    AddressCase(s, p, c + 1);
    CommandOrPort(s, c + 1);
  }

  lemma PlainAddress(s: string, p: nat, c: nat)
    requires p < c && c + 1 < |s| && s[p] != '[' && Find(s, ':', p) == c
    ensures PastAddress(s, p) == Some(c + 1)
  {
  }

  lemma OrdinaryCase(s: string, h: nat, c: nat)
    requires 0 < h < c && c + 1 < |s| && s[0] != '[' && PrefixLength(s) == 0 && PastProtocol(s) == 0
    requires Find(s, ':', 0) == h && Find(s, ':', h + 1) == c && AllDigits(s[h + 1..c])
    ensures CommandStart(s) == Some(c + 1)
  {
    PlainAddress(s, 0, h);
    AddressCase(s, 0, h + 1);
  }

  /** host:port:command, for a plain host that ends at h and a port that ends at c. */
  lemma Plain(s: string, h: nat, c: nat)
    requires 0 < h && h + 1 < c && c + 1 < |s| && s[0] != '[' && s[h] == ':' && ':' !in s[..h]
    requires s[c] == ':' && AllDigits(s[h + 1..c])
    ensures CommandStart(s) == Some(c + 1) <==> !(ReservedHost(s[..h]) && LooksLikePort(s[c + 1..]))
  {
    FindBehindDigits(s, h + 1, c);
    assert s[h + 1..c][0] == s[h + 1];
    PlainPrefixLength(s, h);
    PlainProtocol(s, h);
    if PrefixHost(s[..h]) {
      PrefixCase(s, h + 1, c);
    } else if ReservedHost(s[..h]) {
      ReservedCase(s, h + 1, c);
    } else {
      PlainColon(s, h);
      OrdinaryCase(s, h, c);
    }
  }

  lemma PlainColon(s: string, h: nat)
    requires h < |s| && s[h] == ':' && ':' !in s[..h]
    ensures Find(s, ':', 0) == h
  {
    assert forall k :: 0 <= k < h ==> s[..h][k] == s[k];
    FindAt(s, ':', 0, h);
  }

  /** The command is found right behind what ParseNetAddress printed. */
  ghost predicate SplitsAt(canonical: string, command: string) {
    CommandStart(canonical + ":" + command) == Some(|canonical| + 1)
  }

  lemma SplitsBracketed(host: string, digits: string, command: string)
    requires AllDigits(digits) && command != []
    ensures SplitsAt("[" + host + "]:" + digits, command) <==> ']' !in host
  {
    var head := "[" + host + "]:";
    var s := head + digits + ":" + command;
    Layout(s, head, digits, command);
    SplitsBehind(s, host, |head| + |digits|);
  }

  lemma SplitsBehind(s: string, host: string, c: nat)
    requires |host| + 3 <= c && c + 1 < |s| && s[..|host| + 3] == "[" + host + "]:"
    requires s[c] == ':' && AllDigits(s[|host| + 3..c])
    ensures CommandStart(s) == Some(c + 1) <==> ']' !in host
  {
    BracketLayout(s, host);
    Bracketed(s, |host| + 1, c);
  }

  lemma BracketLayout(s: string, host: string)
    requires |host| + 3 <= |s| && s[..|host| + 3] == "[" + host + "]:"
    ensures s[0] == '[' && s[1..|host| + 1] == host && s[|host| + 1] == ']' && s[|host| + 2] == ':'
  {
    var head := s[..|host| + 3];
    assert head[0] == s[0] && head[|host| + 1] == s[|host| + 1] && head[|host| + 2] == s[|host| + 2];
    assert head[1..|host| + 1] == s[1..|host| + 1];
  }

  lemma PlainLayout(s: string, host: string)
    requires |host| + 1 <= |s| && s[..|host| + 1] == host + ":"
    ensures s[..|host|] == host && s[|host|] == ':'
  {
    var head := s[..|host| + 1];
    assert head[|host|] == s[|host|] && head[..|host|] == s[..|host|];
  }

  lemma SplitsPlain(host: string, digits: string, command: string)
    requires ':' !in host && host != [] && host[0] != '[' && AllDigits(digits) && digits != [] && command != []
    ensures SplitsAt(host + ":" + digits, command) <==> !(ReservedHost(host) && LooksLikePort(command))
  {
    var head := host + ":";
    var s := head + digits + ":" + command;
    Layout(s, head, digits, command);
    PlainBehind(s, host, |head| + |digits|);
  }

  lemma PlainBehind(s: string, host: string, c: nat)
    requires ':' !in host && host != [] && host[0] != '[' && |host| + 1 < c && c + 1 < |s|
    requires s[..|host| + 1] == host + ":" && s[c] == ':' && AllDigits(s[|host| + 1..c])
    ensures CommandStart(s) == Some(c + 1) <==> !(ReservedHost(host) && LooksLikePort(s[c + 1..]))
  {
    PlainLayout(s, host);
    assert s[0] == s[..|host|][0];
    Plain(s, |host|, c);
  }

  /** A serial behind one of the five prefixes ends at its first colon. */
  lemma PrefixedSerial(host: string, serial: string, command: string)
    requires PrefixHost(host) && ':' !in serial && command != []
    ensures SplitsAt(host + ":" + serial, command)
  {
    var head := host + ":";
    var s := head + serial + ":" + command;
    Layout(s, head, serial, command);
    PlainLayout(s, host);
    PlainPrefixLength(s, |host|);
    PrefixedAt(s, |head|, |head| + |serial|);
  }

  lemma PrefixedAt(s: string, h: nat, c: nat)
    requires 0 < h == PrefixLength(s) && h <= c && c + 1 < |s| && s[c] == ':' && ':' !in s[h..c]
    ensures CommandStart(s) == Some(c + 1)
  {
    assert forall k :: h <= k < c ==> s[k] == s[h..c][k - h];
    FindAt(s, ':', h, c);
    PrefixCase(s, h, c);
  }

  /** A plain serial without a port ends at its colon, if and only if the command does not begin like
      a port. */
  lemma SerialAlone(host: string, command: string)
    requires ':' !in host && host != [] && host[0] != '[' && !ReservedHost(host) && !PrefixHost(host) && command != []
    ensures SplitsAt(host, command) <==> !LooksLikePort(command)
  {
    var s := host + ":" + command;
    var h := |host|;
    assert s[..h + 1] == host + ":";
    PlainLayout(s, host);
    PlainPrefixLength(s, h);
    PlainPrefix(s, h, "tcp");
    PlainPrefix(s, h, "udp");
    PlainPrefix(s, h, "vsock");
    PlainColon(s, h);
    assert s[h + 1..] == command;
    ReservedCase(s, 0, h);
  }

  /** A bracket that is never closed is part of a plain serial. */
  lemma UnclosedSerial(host: string, command: string)
    requires host != [] && host[0] == '[' && ':' !in host && ']' !in host && ']' !in command && command != []
    ensures SplitsAt(host, command) <==> !LooksLikePort(command)
  {
    var s := host + ":" + command;
    var h := |host|;
    assert s[..h + 1] == host + ":";
    PlainLayout(s, host);
    BracketPrefix(s);
    PlainColon(s, h);
    assert s[h + 1..] == command && ']' !in s;
    assert PastAddress(s, 0) == Some(h + 1);
    AddressCase(s, 0, h + 1);
    CommandOrPort(s, h + 1);
  }

  /** What ParseNetAddress prints is a serial that splits off again: for an accepted address with a
      port number and a host without NUL, and any command, "canonical:command" is split exactly
      there, if and only if the host holds no ']' when it is printed in brackets, and otherwise is
      not "tcp", "udp" or "vsock" followed by a command that itself begins like a port. */
  lemma CanonicalThenCommand(address: string, port: int, garbled: int, command: string)
    requires NetAddress.Parse(address, port, garbled).Parsed? && command != []
    requires var r := NetAddress.Parse(address, port, garbled); NetAddress.PortInRange(r.port) && '\0' !in r.host
    ensures var r := NetAddress.Parse(address, port, garbled);
            && (r.ipv6 ==> (SplitsAt(r.canonical, command) <==> ']' !in r.host))
            && (!r.ipv6 ==> (SplitsAt(r.canonical, command) <==> !(ReservedHost(r.host) && LooksLikePort(command))))
  {
    var r := NetAddress.Parse(address, port, garbled);
    assert CString(r.host) == r.host;
    if r.ipv6 {
      SplitsBracketed(r.host, PrintNat(r.port), command);
    } else {
      NetAddress.HostShape(address);
      SplitsPlain(r.host, PrintNat(r.port), command);
    }
  }

  /** A host that is taken for a protocol: "tcp:5:1:x" is not split behind the port. */
  lemma TcpHostMisread()
    ensures !SplitsAt("tcp:5", "1:x")
  {
    var command := "1:x";
    FindAt(command, ':', 0, 1);
    assert command[..1] == "1";
    SplitsPlain("tcp", "5", command);
    assert "tcp" + ":" + "5" == "tcp:5";
  }

  /** A host in brackets that holds one: "[a]b]:5:x" is refused. */
  lemma BracketHostRefused()
    ensures !SplitsAt("[a]b]:5", "x")
  {
    var host := "a]b";
    assert host[1] == ']';
    SplitsBracketed(host, "5", "x");
    BracketHostText();
  }

  lemma BracketHostText()
    ensures "[" + "a]b" + "]:" + "5" == "[a]b]:5"
  {
    assert "[" + "a]b" == "[a]b";
    assert "[a]b" + "]:" == "[a]b]:";
  }
}
