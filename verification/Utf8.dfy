/** The console's streaming UTF-8 splitter (adb/sysdeps_win32.cpp), against the grammar of section 4
    of RFC 3629. */
module Utf8 {
  type Octet = bv8

  /** The length of a sequence by its lead byte, packed two bits per high nibble. */
  function CodepointLen(ch: Octet): nat {
    (((0xe5000000 as bv32) >> (((ch as bv32) >> 3) & 0x1e)) & 3) as nat + 1
  }

  lemma CodepointLenTable(ch: Octet)
    ensures CodepointLen(ch) == if ch < 0xC0 then 1 else if ch < 0xE0 then 2 else if ch < 0xF0 then 3 else 4
  {
    var shifted := ((0xe5000000 as bv32) >> (((ch as bv32) >> 3) & 0x1e)) & 3;
    assert shifted == if ch < 0xC0 then 0 else if ch < 0xE0 then 1 else if ch < 0xF0 then 2 else 3;
  }

  predicate IsLead(ch: Octet) {
    ch & 0xC0 == 0xC0
  }

  predicate IsTail(ch: Octet) {
    ch & 0x80 != 0 && !IsLead(ch)
  }

  /** The bytes from k on are a lead byte and fewer tail bytes than it asks for. */
  predicate Incomplete(b: seq<Octet>, k: nat) {
    && k < |b| && IsLead(b[k]) && |b| - k < CodepointLen(b[k])
    && forall j :: k < j < |b| ==> IsTail(b[j])
  }

  /** The backward scan: where to cut b, looking at the bytes before `after`. */
  function SplitFrom(b: seq<Octet>, after: nat): (k: nat)
    requires after <= |b|
    ensures k <= |b|
  {
    if after == 0 || b[after - 1] & 0x80 == 0 then |b|
    else if IsLead(b[after - 1]) then
      if |b| - (after - 1) < CodepointLen(b[after - 1]) then after - 1 else |b|
    else SplitFrom(b, after - 1)
  }

  function Split(b: seq<Octet>): (k: nat)
    ensures k <= |b|
  {
    SplitFrom(b, |b|)
  }

  function Carry(b: seq<Octet>): seq<Octet> {
    b[Split(b)..]
  }

  /** ParseCompleteUTF8: the length of the complete part; the rest is appended to `remaining`. */
  method ParseCompleteUTF8(b: seq<Octet>, remaining: seq<Octet>) returns (n: nat, remaining': seq<Octet>)
    ensures n == Split(b) && remaining' == remaining + Carry(b)
  {
    var after: nat := |b|;
    while after != 0
      invariant after <= |b| && SplitFrom(b, after) == Split(b)
    {
      var current := after - 1;
      var ch := b[current];
      if ch & 0x80 == 0 {
        break;
      } else if ch & 0xC0 == 0xC0 {
        var available := |b| - current;
        if available < CodepointLen(ch) {
          return current, remaining + b[current..];
        } else {
          break;
        }
      }
      after := after - 1;
    }
    return |b|, remaining;
  }

  /** The scan finds the incomplete sequence at the end of the buffer if and only if there is one. */
  lemma {:induction false} SplitFromExact(b: seq<Octet>, after: nat)
    requires after <= |b| && forall j :: after <= j < |b| ==> IsTail(b[j])
    ensures SplitFrom(b, after) < |b| ==> Incomplete(b, SplitFrom(b, after))
    ensures forall k: nat :: k < after && Incomplete(b, k) ==> SplitFrom(b, after) == k
  {
    if after != 0 && IsTail(b[after - 1]) {
      SplitFromExact(b, after - 1);
    }
    forall k: nat | k < after && Incomplete(b, k)
      ensures SplitFrom(b, after) == k
    {
      assert k == after - 1 || IsTail(b[after - 1]);
    }
  }

  lemma SplitExact(b: seq<Octet>)
    ensures Split(b) < |b| ==> Incomplete(b, Split(b))
    ensures forall k: nat :: Incomplete(b, k) ==> Split(b) == k
  {
    SplitFromExact(b, |b|);
  }

  lemma CarryAtMostThree(b: seq<Octet>)
    ensures |Carry(b)| <= 3
  {
    SplitExact(b);
    if Split(b) < |b| {
      CodepointLenTable(b[Split(b)]);
    }
  }

  /** On any bytes, well-formed or not: what is carried over does not depend on where the input was
      cut into writes. */
  lemma CarryOfCarry(a: seq<Octet>, b: seq<Octet>)
    ensures Carry(Carry(a) + b) == Carry(a + b)
  {
    var k, c := Split(a), Carry(a);
    assert a + b == a[..k] + (c + b);
    SplitExact(a);
    SplitExact(a + b);
    SplitExact(c + b);
    var m := Split(a + b);
    if m < |a + b| {
      if m < |a| {
        IncompleteBefore(a, b, m);
      }
      IncompleteBehind(a[..k], c + b, m);
      assert Split(c + b) == m - k;
    } else if Split(c + b) < |c + b| {
      IncompleteAhead(a[..k], c + b, Split(c + b));
    }
  }

  lemma IncompleteBefore(a: seq<Octet>, b: seq<Octet>, m: nat)
    requires m < |a| && Incomplete(a + b, m)
    ensures Incomplete(a, m)
  {
    assert forall j :: 0 <= j < |a| ==> a[j] == (a + b)[j];
  }

  lemma IncompleteBehind(p: seq<Octet>, s: seq<Octet>, m: nat)
    requires |p| <= m && Incomplete(p + s, m)
    ensures Incomplete(s, m - |p|)
  {
    assert forall j :: 0 <= j < |s| ==> s[j] == (p + s)[|p| + j];
  }

  lemma IncompleteAhead(p: seq<Octet>, s: seq<Octet>, j: nat)
    requires Incomplete(s, j)
    ensures Incomplete(p + s, |p| + j)
  {
    assert forall i :: |p| <= i < |p + s| ==> (p + s)[i] == s[i - |p|];
  }

  // Section 4 of RFC 3629.

  predicate In(ch: Octet, lo: Octet, hi: Octet) {
    lo <= ch <= hi
  }

  predicate Tail(ch: Octet) {
    In(ch, 0x80, 0xBF)
  }

  predicate Sequence(s: seq<Octet>) {
    || (|s| == 1 && In(s[0], 0x00, 0x7F))
    || (|s| == 2 && In(s[0], 0xC2, 0xDF) && Tail(s[1]))
    || (|s| == 3 && s[0] == 0xE0 && In(s[1], 0xA0, 0xBF) && Tail(s[2]))
    || (|s| == 3 && In(s[0], 0xE1, 0xEC) && Tail(s[1]) && Tail(s[2]))
    || (|s| == 3 && s[0] == 0xED && In(s[1], 0x80, 0x9F) && Tail(s[2]))
    || (|s| == 3 && In(s[0], 0xEE, 0xEF) && Tail(s[1]) && Tail(s[2]))
    || (|s| == 4 && s[0] == 0xF0 && In(s[1], 0x90, 0xBF) && Tail(s[2]) && Tail(s[3]))
    || (|s| == 4 && In(s[0], 0xF1, 0xF3) && Tail(s[1]) && Tail(s[2]) && Tail(s[3]))
    || (|s| == 4 && s[0] == 0xF4 && In(s[1], 0x80, 0x8F) && Tail(s[2]) && Tail(s[3]))
  }

  ghost predicate AllSequences(qs: seq<seq<Octet>>) {
    forall i :: 0 <= i < |qs| ==> Sequence(qs[i])
  }

  function Flat(qs: seq<seq<Octet>>): seq<Octet> {
    if qs == [] then [] else qs[0] + Flat(qs[1..])
  }

  /** Any number of sequences, one after another. */
  ghost predicate WellFormed(b: seq<Octet>) {
    exists qs :: AllSequences(qs) && Flat(qs) == b
  }

  /** The beginning, but not all, of one sequence. */
  ghost predicate Partial(c: seq<Octet>) {
    exists s :: Sequence(s) && c < s
  }

  lemma SequenceShape(s: seq<Octet>)
    requires Sequence(s)
    ensures |s| == CodepointLen(s[0]) && (|s| > 1 <==> IsLead(s[0])) && (|s| == 1 ==> s[0] & 0x80 == 0)
    ensures forall j :: 0 < j < |s| ==> IsTail(s[j])
  {
    CodepointLenTable(s[0]);
  }

  lemma SequenceSplit(s: seq<Octet>)
    requires Sequence(s)
    ensures Carry(s) == []
  {
    SequenceShape(s);
    SplitExact(s);
  }

  lemma {:induction false} FlatConcat(qs: seq<seq<Octet>>, rs: seq<seq<Octet>>)
    ensures Flat(qs + rs) == Flat(qs) + Flat(rs)
  {
    if qs == [] {
      assert qs + rs == rs;
    } else {
      assert (qs + rs)[1..] == qs[1..] + rs;
      FlatConcat(qs[1..], rs);
    }
  }

  lemma WellFormedConcat(a: seq<Octet>, b: seq<Octet>)
    requires WellFormed(a) && WellFormed(b)
    ensures WellFormed(a + b)
  {
    var qs :| AllSequences(qs) && Flat(qs) == a;
    var rs :| AllSequences(rs) && Flat(rs) == b;
    FlatConcat(qs, rs);
    assert AllSequences(qs + rs);
  }

  /** No sequence begins another. */
  lemma FirstUnique(q: seq<Octet>, x: seq<Octet>, r: seq<Octet>, y: seq<Octet>)
    requires Sequence(q) && Sequence(r) && q + x == r + y
    ensures q == r && x == y
  {
    SequenceShape(q);
    SequenceShape(r);
    assert (q + x)[0] == q[0] && (r + y)[0] == r[0];
    assert (q + x)[..|q|] == q && (r + y)[..|r|] == r;
    assert (q + x)[|q|..] == x && (r + y)[|r|..] == y;
  }

  lemma {:induction false} RestOfSequences(qs: seq<seq<Octet>>, b: seq<Octet>, rs: seq<seq<Octet>>)
    requires AllSequences(qs) && AllSequences(rs) && Flat(qs) + b == Flat(rs)
    ensures WellFormed(b)
  {
    if qs == [] {
      assert Flat(qs) + b == b;
    } else {
      assert Flat(qs) + b == qs[0] + (Flat(qs[1..]) + b);
      SequenceShape(qs[0]);
      assert rs != [];
      FirstUnique(qs[0], Flat(qs[1..]) + b, rs[0], Flat(rs[1..]));
      RestOfSequences(qs[1..], b, rs[1..]);
    }
  }

  /** Well-formed text can be cut between any two sequences. */
  lemma WellFormedRest(a: seq<Octet>, b: seq<Octet>)
    requires WellFormed(a) && WellFormed(a + b)
    ensures WellFormed(b)
  {
    var qs :| AllSequences(qs) && Flat(qs) == a;
    var rs :| AllSequences(rs) && Flat(rs) == a + b;
    RestOfSequences(qs, b, rs);
  }

  lemma SplitInFirst(b: seq<Octet>, q: seq<Octet>)
    requires Sequence(q) && b < q && b != []
    ensures Split(b) == 0
  {
    SequenceShape(q);
    assert forall j :: 0 <= j < |b| ==> b[j] == q[j];
    assert Incomplete(b, 0);
    SplitExact(b);
  }

  lemma SplitAfterFirst(q: seq<Octet>, rest: seq<Octet>)
    requires Sequence(q)
    ensures Split(q + rest) == |q| + Split(rest)
  {
    SequenceSplit(q);
    CarryOfCarry(q, rest);
    assert [] + rest == rest;
    assert |Carry(q + rest)| == |Carry(rest)|;
  }

  lemma OneSequence(q: seq<Octet>)
    requires Sequence(q)
    ensures WellFormed(q)
  {
    assert [q][1..] == [] && q + [] == q;
    assert AllSequences([q]) && Flat([q]) == q;
  }

  lemma NoSequence()
    ensures WellFormed([])
  {
    assert AllSequences([]) && Flat([]) == [];
  }

  lemma PrependSequence(q: seq<Octet>, rest: seq<Octet>)
    requires Sequence(q) && WellFormed(rest[..Split(rest)])
    ensures WellFormed((q + rest)[..Split(q + rest)]) && Carry(q + rest) == Carry(rest)
  {
    SplitAfterFirst(q, rest);
    assert (q + rest)[..Split(q + rest)] == q + rest[..Split(rest)];
    OneSequence(q);
    WellFormedConcat(q, rest[..Split(rest)]);
  }

  lemma {:induction false} SplitSequences(b: seq<Octet>, qs: seq<seq<Octet>>)
    requires AllSequences(qs) && b <= Flat(qs)
    ensures WellFormed(b[..Split(b)])
    ensures Carry(b) != [] ==> Partial(Carry(b))
  {
    if b == [] {
      NoSequence();
    } else {
      var q := qs[0];
      if |b| < |q| {
        SplitInFirst(b, q);
        assert Carry(b) == b && b < q && b[..0] == [];
        NoSequence();
      } else {
        var rest := b[|q|..];
        assert b == q + rest && rest <= Flat(qs[1..]);
        SplitSequences(rest, qs[1..]);
        PrependSequence(q, rest);
      }
    }
  }

  /** On the beginning of well-formed text the splitter cuts exactly between two sequences, leaving
      less than one. */
  lemma SplitPrefix(b: seq<Octet>, w: seq<Octet>)
    requires WellFormed(w) && b <= w
    ensures WellFormed(b[..Split(b)])
    ensures Carry(b) != [] ==> Partial(Carry(b))
  {
    var qs :| AllSequences(qs) && Flat(qs) == w;
    SplitSequences(b, qs);
  }

  // The console.

  function Concat(writes: seq<seq<Octet>>): seq<Octet> {
    if writes == [] then [] else Concat(writes[..|writes| - 1]) + writes[|writes| - 1]
  }

  /** What each write sends to the console, and what is carried over after all of them. */
  function Run(writes: seq<seq<Octet>>): (seq<seq<Octet>>, seq<Octet>) {
    if writes == [] then ([], [])
    else
      var (out, carry) := Run(writes[..|writes| - 1]);
      var combined := carry + writes[|writes| - 1];
      (out + [combined[..Split(combined)]], Carry(combined))
  }

  class Console {
    var buffer: seq<Octet>  // console_output_buffer

    constructor ()
      ensures buffer == []
    {
      buffer := [];
    }

    /** The carry buffer of _console_write_utf8; `out` goes to the console now. */
    method Write(buf: seq<Octet>) returns (out: seq<Octet>)
      modifies this
      ensures var combined := old(buffer) + buf; out == combined[..Split(combined)] && buffer == Carry(combined)
    {
      var n;
      if buffer == [] {
        assert buffer + buf == buf;
        n, buffer := ParseCompleteUTF8(buf, buffer);
        out := buf[..n];
        assert [] + Carry(buf) == Carry(buf);
      } else {
        var combined := buffer;
        buffer := [];
        combined := combined + buf;
        n, buffer := ParseCompleteUTF8(combined, buffer);
        out := combined[..n];
        assert [] + Carry(combined) == Carry(combined);
      }
    }
  }

  /** A console that has seen some writes has sent and kept what Run says. */
  method WriteAll(writes: seq<seq<Octet>>) returns (out: seq<seq<Octet>>, console: Console)
    ensures (out, console.buffer) == Run(writes)
  {
    console := new Console();
    out := [];
    for i := 0 to |writes|
      invariant (out, console.buffer) == Run(writes[..i])
    {
      assert writes[..i + 1][..i] == writes[..i];
      var chunk := console.Write(writes[i]);
      out := out + [chunk];
    }
    assert writes[..|writes|] == writes;
  }

  lemma ConcatAppend(out: seq<seq<Octet>>, chunk: seq<Octet>)
    ensures Concat(out + [chunk]) == Concat(out) + chunk
  {
    assert (out + [chunk])[..|out|] == out;
  }

  /** Output so far and carry account for the input so far. */
  ghost predicate Accounts(out: seq<seq<Octet>>, carry: seq<Octet>, all: seq<Octet>) {
    Concat(out) + carry == all && carry == Carry(all)
  }

  lemma AccountsStep(out: seq<seq<Octet>>, carry: seq<Octet>, all: seq<Octet>, last: seq<Octet>)
    requires Accounts(out, carry, all)
    ensures var combined := carry + last;
            Accounts(out + [combined[..Split(combined)]], Carry(combined), all + last)
  {
    var combined := carry + last;
    var chunk := combined[..Split(combined)];
    CarryOfCarry(all, last);
    ConcatAppend(out, chunk);
    assert chunk + Carry(combined) == combined;
    assert (Concat(out) + chunk) + Carry(combined) == Concat(out) + (chunk + Carry(combined));
    assert Concat(out) + (carry + last) == (Concat(out) + carry) + last;
  }

  lemma {:induction false} StreamingAccounts(writes: seq<seq<Octet>>)
    ensures Accounts(Run(writes).0, Run(writes).1, Concat(writes))
  {
    if writes == [] {
    } else {
      var before, last := writes[..|writes| - 1], writes[|writes| - 1];
      StreamingAccounts(before);
      AccountsStep(Run(before).0, Run(before).1, Concat(before), last);
    }
  }

  /** After any writes of any bytes: output and carry together are the input, in order; the carry is
      what a single write of everything would have carried, at most three bytes. */
  lemma StreamingSplit(writes: seq<seq<Octet>>)
    ensures var (out, carry) := Run(writes);
            && Concat(out) + carry == Concat(writes)
            && carry == Carry(Concat(writes)) && |carry| <= 3
  {
    CarryAtMostThree(Concat(writes));
    StreamingAccounts(writes);
  }

  /** What has been sent is well-formed, write by write. */
  ghost predicate Clean(out: seq<seq<Octet>>) {
    (forall i :: 0 <= i < |out| ==> WellFormed(out[i])) && WellFormed(Concat(out))
  }

  lemma CleanAppend(out: seq<seq<Octet>>, chunk: seq<Octet>)
    requires Clean(out) && WellFormed(chunk)
    ensures Clean(out + [chunk])
  {
    WellFormedConcat(Concat(out), chunk);
    ConcatAppend(out, chunk);
    forall i | 0 <= i < |out + [chunk]|
      ensures WellFormed((out + [chunk])[i])
    {
      assert (out + [chunk])[i] == if i < |out| then out[i] else chunk;
    }
  }

  /** A write behind well-formed output, cut. */
  lemma CleanChunk(done: seq<Octet>, combined: seq<Octet>, w: seq<Octet>)
    requires WellFormed(done) && WellFormed(w) && done + combined <= w
    ensures WellFormed(combined[..Split(combined)])
  {
    var rest := w[|done|..];
    assert w == done + rest && combined <= rest;
    WellFormedRest(done, rest);
    SplitPrefix(combined, rest);
  }

  lemma {:induction false} StreamingClean(writes: seq<seq<Octet>>, w: seq<Octet>)
    requires WellFormed(w) && Concat(writes) <= w
    ensures Clean(Run(writes).0)
  {
    if writes == [] {
      NoSequence();
    } else {
      var before, last := writes[..|writes| - 1], writes[|writes| - 1];
      assert Concat(before) <= w;
      StreamingClean(before, w);
      StreamingBytes(before);
      Regroup(Concat(Run(before).0), Run(before).1, last, w);
      var combined := Run(before).1 + last;
      CleanChunk(Concat(Run(before).0), combined, w);
      CleanAppend(Run(before).0, combined[..Split(combined)]);
    }
  }

  lemma StreamingBytes(writes: seq<seq<Octet>>)
    ensures Concat(Run(writes).0) + Run(writes).1 == Concat(writes)
  {
    StreamingAccounts(writes);
  }

  lemma Regroup(a: seq<Octet>, b: seq<Octet>, c: seq<Octet>, w: seq<Octet>)
    requires (a + b) + c <= w
    ensures a + (b + c) <= w
  {
    assert (a + b) + c == a + (b + c);
  }

  /** If all the input is the beginning of some well-formed text, every write sends well-formed text
      to the console, and the carry is less than one sequence. */
  lemma StreamingWellFormed(writes: seq<seq<Octet>>, w: seq<Octet>)
    requires WellFormed(w) && Concat(writes) <= w
    ensures Clean(Run(writes).0)
    ensures Run(writes).1 != [] ==> Partial(Run(writes).1)
  {
    StreamingClean(writes, w);
    StreamingAccounts(writes);
    SplitPrefix(Concat(writes), w);
  }
}
