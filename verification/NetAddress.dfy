/** ParseNetAddress of base/parsenetaddress.cpp. */
module NetAddress {
  import opened Options
  import opened Text

  /** Where "]:" stands. */
  predicate CloseAt(s: string, i: int) {
    0 <= i < |s| - 1 && s[i] == ']' && s[i + 1] == ':'
  }

  /** find("]:") from i on. */
  function FirstClose(s: string, i: nat): (r: Option<nat>)
    ensures r.Some? ==> i <= r.value && CloseAt(s, r.value) && forall k :: i <= k < r.value ==> !CloseAt(s, k)
    ensures r.None? ==> forall k :: i <= k ==> !CloseAt(s, k)
    decreases |s| - i
  {
    if i >= |s| then None else if CloseAt(s, i) then Some(i) else FirstClose(s, i + 1)
  }

  /** rfind("]:") below i. */
  function LastClose(s: string, i: nat): (r: Option<nat>)
    ensures r.Some? ==> r.value < i && CloseAt(s, r.value) && forall k :: r.value < k < i ==> !CloseAt(s, k)
    ensures r.None? ==> forall k :: 0 <= k < i ==> !CloseAt(s, k)
  {
    if i == 0 then None else if CloseAt(s, i - 1) then Some(i - 1) else LastClose(s, i - 1)
  }

  ghost predicate HasClose(s: string) {
    exists i :: CloseAt(s, i)
  }

  /** How an address is read: a host, whether it is printed in brackets, and the text of a port. */
  datatype Form = Form(host: string, ipv6: bool, port: Option<string>) | BadIPv6

  function Recognize(address: string): Form {
    var colons, dots := Count(address, ':'), Count(address, '.');
    if address != [] && address[0] == '[' then
      // In brackets: the host ends at the first "]:", the port begins behind the last.
      var last := LastClose(address, |address|);
      if last.None? then BadIPv6
      else
        assert CloseAt(address, last.value);
        var first := FirstClose(address, 0).value;
        Form(address[1..first], true, Some(address[last.value + 2..]))
    else if dots == 0 && 2 <= colons <= 7 then
      // All of it is the host.
      Form(address, true, None)
    else if colons <= 1 then
      // A name or a number with dots, and perhaps a port.
      var c := Find(address, ':', 0);
      if c == |address| then Form(address, false, None)
      else Form(address[..c], false, Some(address[c + 1..]))
    else Form("", true, None)
  }

  /** The port that a text gives: `garbled` is what sscanf makes of a number that is no int. */
  function PortOf(text: string, garbled: int): Option<int> {
    match ScanInt(text)
    case None => None
    case Some(n) =>
      var port := if -0x8000_0000 <= n < 0x8000_0000 then n else garbled;
      if 0 < port <= 65535 then Some(port) else None
  }

  function Canonical(host: string, ipv6: bool, port: int): string {
    if ipv6 then "[" + CString(host) + "]:" + PrintInt(port) else CString(host) + ":" + PrintInt(port)
  }

  datatype Result =
    | Parsed(host: string, ipv6: bool, port: int, canonical: string)
    | Rejected

  /** `port` is what the caller had put there: an address without a port leaves it alone. */
  function Parse(address: string, port: int, garbled: int): Result {
    match Recognize(address)
    case BadIPv6 => Rejected
    case Form(host, ipv6, text) =>
      if host == [] then Rejected
      else
        match text
        case None => Parsed(host, ipv6, port, Canonical(host, ipv6, port))
        case Some(t) =>
          match PortOf(t, garbled)
          case None => Rejected
          case Some(p) => Parsed(host, ipv6, p, Canonical(host, ipv6, p))
  }

  predicate PortInRange(port: int) {
    0 < port <= 65535
  }

  predicate SameEndpoint(r: Result, host: string, ipv6: bool, port: int) {
    r.Parsed? && r.host == host && r.ipv6 == ipv6 && r.port == port
  }

  /** What an accepted host looks like. */
  lemma HostShape(address: string)
    requires Recognize(address).Form? && !Recognize(address).ipv6
    ensures var f := Recognize(address); ':' !in f.host && (f.host != [] ==> f.host[0] != '[')
  {
  }

  lemma PrintedPort(port: int, garbled: int)
    requires -0x8000_0000 <= port < 0x8000_0000
    ensures PortOf(PrintInt(port), garbled) == if PortInRange(port) then Some(port) else None
  {
    ScanPrint(port);
  }

  /** host:port, for a host without a colon that does not start with a bracket. */
  lemma RecognizePlain(host: string, digits: string)
    requires ':' !in host && ':' !in digits && (host == [] || host[0] != '[')
    ensures Recognize(host + ":" + digits) == Form(host, false, Some(digits))
  {
    var s := host + ":" + digits;
    assert s[0] != '[';
    CountConcat(host + ":", digits, ':');
    CountConcat(host, ":", ':');
    CountNone(host, ':');
    CountNone(digits, ':');
    assert Count(":", ':') == 1;
    var c := Find(s, ':', 0);
    assert s[|host|] == ':';
    assert forall k :: 0 <= k < |host| ==> s[k] == host[k];
    assert c == |host|;
    assert s[..c] == host && s[c + 1..] == digits;
  }

  /** An address without brackets and without a port: with no colon, or with two to seven and no dot, all
      of it is the host and the caller's port stays; with more, or with dots as well, it is refused. */
  lemma NoPortGiven(address: string, port: int, garbled: int)
    requires address != [] && address[0] != '[' && Count(address, ':') != 1
    ensures var fits := ':' !in address || (Count(address, ':') <= 7 && '.' !in address);
            Parse(address, port, garbled) ==
              if fits then Parsed(address, ':' in address, port, Canonical(address, ':' in address, port)) else Rejected
  {
    CountNone(address, ':');
    CountNone(address, '.');
    if ':' !in address {
      assert Find(address, ':', 0) == |address|;
    }
  }

  /** With one colon: the host is in front of it, and the port is the number behind it. */
  lemma PortGiven(host: string, text: string, port: int, garbled: int)
    requires ':' !in host && ':' !in text && (host == [] || host[0] != '[')
    ensures Parse(host + ":" + text, port, garbled) ==
      if host == [] || PortOf(text, garbled).None? then Rejected
      else Parsed(host, false, PortOf(text, garbled).value, Canonical(host, false, PortOf(text, garbled).value))
  {
    RecognizePlain(host, text);
  }

  /** [host]:port. */
  lemma RecognizeBracketed(host: string, digits: string)
    requires ']' !in digits
    ensures var f := Recognize("[" + host + "]:" + digits);
            && f.Form? && f.ipv6 && f.port == Some(digits)
            && (!HasClose(host) ==> f.host == host)
            && (HasClose(host) ==> |f.host| < |host|)
  {
    var s := "[" + host + "]:" + digits;
    var e := |host| + 1;
    assert s[e] == ']' && s[e + 1] == ':' && CloseAt(s, e);
    assert forall k :: e < k < |s| ==> s[k] != ']';
    assert LastClose(s, |s|) == Some(e);
    assert s[e + 2..] == digits;
    var first := FirstClose(s, 0).value;
    assert forall k :: 0 <= k < |host| ==> s[k + 1] == host[k];
    if HasClose(host) {
      var i :| CloseAt(host, i);
      assert CloseAt(s, i + 1);
    } else {
      forall k | 0 <= k < e
        ensures !CloseAt(s, k)
      {
        if CloseAt(s, k) {
          assert CloseAt(host, k - 1);
        }
      }
      assert first == e && s[1..e] == host;
    }
  }

  lemma DigitsOnly(port: int)
    ensures ':' !in PrintInt(port) && ']' !in PrintInt(port)
  {
  }

  lemma ReparsePlain(host: string, port: int, port': int, garbled: int)
    requires ':' !in host && host != [] && host[0] != '[' && -0x8000_0000 <= port < 0x8000_0000
    ensures SameEndpoint(Parse(Canonical(host, false, port), port', garbled), host, false, port)
       <==> PortInRange(port) && '\0' !in host
  {
    var c := CString(host);
    DigitsOnly(port);
    RecognizePlain(c, PrintInt(port));
    PrintedPort(port, garbled);
    assert '\0' !in host ==> c == host;
  }

  lemma ReparseBracketed(host: string, port: int, port': int, garbled: int)
    requires host != [] && -0x8000_0000 <= port < 0x8000_0000
    ensures SameEndpoint(Parse(Canonical(host, true, port), port', garbled), host, true, port)
       <==> PortInRange(port) && '\0' !in host && !HasClose(host)
  {
    var c := CString(host);
    DigitsOnly(port);
    RecognizeBracketed(c, PrintInt(port));
    PrintedPort(port, garbled);
    assert '\0' !in host ==> c == host;
  }

  /** Reading the canonical form of an accepted address gives back the same host and port, if and
      only if the port is a port number (the caller's may not be), the host holds no NUL, and a host
      printed in brackets holds no "]:". */
  lemma CanonicalRoundTrip(address: string, port: int, garbled: int, port': int, garbled': int)
    requires -0x8000_0000 <= port < 0x8000_0000
    requires Parse(address, port, garbled).Parsed?
    ensures var r := Parse(address, port, garbled);
            SameEndpoint(Parse(r.canonical, port', garbled'), r.host, r.ipv6, r.port) <==>
              PortInRange(r.port) && '\0' !in r.host && (r.ipv6 ==> !HasClose(r.host))
  {
    var r := Parse(address, port, garbled);
    if r.ipv6 {
      ReparseBracketed(r.host, r.port, port', garbled');
    } else {
      HostShape(address);
      ReparsePlain(r.host, r.port, port', garbled');
    }
  }

  /** An address that does not read back: the canonical form "[x]:1:2]:5555" is that of the host x. */
  lemma HostWithClose(garbled: int)
    ensures var r := Parse("x]:1:2", 5555, garbled);
            && r == Parsed("x]:1:2", true, 5555, Canonical("x]:1:2", true, 5555))
            && !SameEndpoint(Parse(r.canonical, 0, garbled), r.host, r.ipv6, r.port)
  {
    var address := "x]:1:2";
    assert address[1..] == "]:1:2" && "]:1:2"[1..] == ":1:2" && ":1:2"[1..] == "1:2" && "1:2"[1..] == ":2" && ":2"[1..] == "2";
    assert "2"[1..] == "";
    assert Count("1:2", ':') == 1 && Count(address, ':') == 2;
    assert Count("1:2", '.') == 0 && Count(address, '.') == 0;
    assert CloseAt(address, 1);
    CanonicalRoundTrip(address, 5555, garbled, 0, garbled);
  }
}
