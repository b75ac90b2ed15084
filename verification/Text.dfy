/** Decimal numbers and searches in strings, as the C and C++ libraries do them. */
module Text {
  import opened Options

  predicate IsDigit(c: char) {
    '0' <= c <= '9'
  }

  predicate AllDigits(s: string) {
    forall i :: 0 <= i < |s| ==> IsDigit(s[i])
  }

  function DigitValue(c: char): nat
    requires IsDigit(c)
  {
    c as nat - '0' as nat
  }

  function Digit(n: nat): (c: char)
    requires n < 10
    ensures IsDigit(c) && DigitValue(c) == n
  {
    '0' + n as char
  }

  function PrintNat(n: nat): (s: string)
    ensures s != [] && AllDigits(s)
  {
    if n < 10 then [Digit(n)] else PrintNat(n / 10) + [Digit(n % 10)]
  }

  function PrintInt(n: int): (s: string)
    ensures s != []
  {
    if n < 0 then "-" + PrintNat(-n) else PrintNat(n)
  }

  function ValueOf(s: string): nat
    requires AllDigits(s)
  {
    if s == [] then 0 else 10 * ValueOf(s[..|s| - 1]) + DigitValue(s[|s| - 1])
  }

  lemma {:induction false} PrintRoundTrip(n: nat)
    ensures ValueOf(PrintNat(n)) == n
  {
    var s := PrintNat(n);
    if n < 10 {
      assert s[..|s| - 1] == [];
    } else {
      PrintRoundTrip(n / 10);
      assert s[..|s| - 1] == PrintNat(n / 10);
    }
  }

  predicate IsSpace(c: char) {
    c in [' ', '\t', '\n', '\U{000B}', '\U{000C}', '\r']
  }

  function SkipSpace(s: string): string {
    if s != [] && IsSpace(s[0]) then SkipSpace(s[1..]) else s
  }

  function LeadingDigits(s: string): (n: nat)
    ensures n <= |s| && AllDigits(s[..n])
    ensures n < |s| ==> !IsDigit(s[n])
  {
    if s != [] && IsDigit(s[0]) then
      var n := 1 + LeadingDigits(s[1..]);
      assert s[..n] == [s[0]] + s[1..][..n - 1];
      n
    else 0
  }

  /** sscanf(s, "%d"): the number, or None if there is none. */
  function ScanInt(s: string): Option<int> {
    ScanSigned(SkipSpace(s))
  }

  function ScanSigned(t: string): Option<int> {
    var negative := t != [] && t[0] == '-';
    var u := if t != [] && (t[0] == '-' || t[0] == '+') then t[1..] else t;
    var n := LeadingDigits(u);
    if n == 0 then None
    else Some(if negative then -(ValueOf(u[..n]) as int) else ValueOf(u[..n]))
  }

  lemma LeadingDigitsAll(s: string)
    requires AllDigits(s)
    ensures LeadingDigits(s) == |s|
  {
  }

  predicate AllSpace(s: string) {
    forall i :: 0 <= i < |s| ==> s[i] in [' ', '\t', '\n', '\U{000B}', '\U{000C}', '\r']
  }

  lemma {:induction false} SpaceSkipped(space: string, s: string)
    requires AllSpace(space) && (s == [] || !IsSpace(s[0]))
    ensures SkipSpace(space + s) == s
  {
    if space == [] {
      assert space + s == s;
    } else {
      assert (space + s)[1..] == space[1..] + s;
      SpaceSkipped(space[1..], s);
    }
  }

  lemma {:induction false} LeadingDigitsOf(digits: string, rest: string)
    requires AllDigits(digits) && (rest == [] || !IsDigit(rest[0]))
    ensures LeadingDigits(digits + rest) == |digits|
  {
    if digits == [] {
      assert digits + rest == rest;
    } else {
      assert (digits + rest)[1..] == digits[1..] + rest;
      LeadingDigitsOf(digits[1..], rest);
    }
  }

  /** What sscanf reads: white space, a sign, digits; and what is behind them does not matter. */
  lemma ScanMeans(space: string, sign: string, digits: string, rest: string)
    requires AllSpace(space) && (sign == "" || sign == "-" || sign == "+") && AllDigits(digits) && digits != []
    requires rest == [] || !IsDigit(rest[0])
    ensures ScanInt(space + (sign + (digits + rest))) ==
            Some(if sign == "-" then -(ValueOf(digits) as int) else ValueOf(digits))
  {
    assert (digits + rest)[0] == digits[0];
    assert sign != "" ==> (sign + (digits + rest))[0] == sign[0];
    assert sign == "" ==> sign + (digits + rest) == digits + rest;
    SpaceSkipped(space, sign + (digits + rest));
    SignedMeans(sign, digits, rest);
  }

  lemma SignedMeans(sign: string, digits: string, rest: string)
    requires (sign == "" || sign == "-" || sign == "+") && AllDigits(digits) && digits != []
    requires rest == [] || !IsDigit(rest[0])
    ensures ScanSigned(sign + (digits + rest)) ==
            Some(if sign == "-" then -(ValueOf(digits) as int) else ValueOf(digits))
  {
    var u := digits + rest;
    LeadingDigitsOf(digits, rest);
    assert u[0] == digits[0] && u[..|digits|] == digits;
    if sign == "" {
      assert sign + u == u;
    } else {
      assert (sign + u)[0] == sign[0] && (sign + u)[1..] == u;
    }
  }

  lemma ScanPrint(n: int)
    ensures ScanInt(PrintInt(n)) == Some(n)
  {
    var s := PrintInt(n);
    var d := PrintNat(if n < 0 then -n else n);
    assert !IsSpace(s[0]) && (n >= 0 ==> s[0] != '-' && s[0] != '+');
    assert n < 0 ==> s[1..] == d;
    LeadingDigitsAll(d);
    assert d[..|d|] == d;
    PrintRoundTrip(if n < 0 then -n else n);
  }

  /** The first index of c at or after i, |s| if there is none. */
  function Find(s: string, c: char, i: nat): (j: nat)
    requires i <= |s|
    ensures i <= j <= |s|
    ensures j < |s| ==> s[j] == c
    ensures forall k :: i <= k < j ==> s[k] != c
    decreases |s| - i
  {
    if i == |s| || s[i] == c then i else Find(s, c, i + 1)
  }

  function Count(s: string, c: char): nat {
    if s == [] then 0 else (if s[0] == c then 1 else 0) + Count(s[1..], c)
  }

  lemma {:induction false} CountConcat(s: string, t: string, c: char)
    ensures Count(s + t, c) == Count(s, c) + Count(t, c)
  {
    if s == [] {
      assert s + t == t;
    } else {
      assert (s + t)[1..] == s[1..] + t;
      CountConcat(s[1..], t, c);
    }
  }

  lemma {:induction false} CountNone(s: string, c: char)
    ensures Count(s, c) == 0 <==> c !in s
  {
    if s == [] {
    } else {
      CountNone(s[1..], c);
      assert s == [s[0]] + s[1..];
    }
  }

  /** c_str(): a C string ends at the first NUL. */
  function CString(s: string): (t: string)
    ensures '\0' !in t && t <= s
    ensures '\0' in s <==> |t| < |s|
  {
    s[..Find(s, '\0', 0)]
  }
}
