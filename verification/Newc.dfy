/** The "newc" archive format of the initramfs buffer-format document that cpio/mkbootfs.c names:
    what _eject writes for one entry, and a reader for the format. */
module Newc {
  import opened Bytes
  import opened Options
  import opened Packets

  datatype Entry = Entry(inode: Word, mode: Word, path: seq<Byte>, data: seq<Byte>)

  const TRAILER: seq<Byte> := [0x54, 0x52, 0x41, 0x49, 0x4c, 0x45, 0x52, 0x21, 0x21, 0x21]  // TRAILER!!!
  const MAGIC: seq<Byte> := [0x30, 0x37, 0x30, 0x37, 0x30, 0x31]  // 070701
  const FIELDS := 13
  const HEADER := 110

  // Numbers: eight hexadecimal digits each.

  function HexDigit(n: nat): Byte
    requires n < 16
  {
    if n < 10 then 0x30 + n else 0x57 + n
  }

  function HexValue(b: Byte): Option<nat> {
    if 0x30 <= b <= 0x39 then Some(b - 0x30)
    else if 0x61 <= b <= 0x66 then Some(b - 0x57)
    else if 0x41 <= b <= 0x46 then Some(b - 0x37)
    else None
  }

  function Power16(k: nat): (p: nat)
    ensures p > 0
  {
    if k == 0 then 1 else 16 * Power16(k - 1)
  }

  /** The k low digits of n, the most significant one first. */
  function Hex(n: nat, k: nat): (s: seq<Byte>)
    ensures |s| == k
  {
    if k == 0 then [] else Hex(n / 16, k - 1) + [HexDigit(n % 16)]
  }

  function Unhex(s: seq<Byte>): Option<nat> {
    if s == [] then Some(0)
    else
      var (high, low) := (Unhex(s[..|s| - 1]), HexValue(s[|s| - 1]));
      if high.None? || low.None? then None else Some(16 * high.value + low.value)
  }

  lemma {:induction false} HexRoundTrip(n: nat, k: nat)
    requires n < Power16(k)
    ensures Unhex(Hex(n, k)) == Some(n)
  {
    if k > 0 {
      HexRoundTrip(n / 16, k - 1);
      var s := Hex(n, k);
      assert s[..|s| - 1] == Hex(n / 16, k - 1);
    }
  }

  lemma Power16Of8()
    ensures Power16(8) == WORD
  {
    assert Power16(2) == 256;
    assert Power16(4) == 0x1_0000;
    assert Power16(6) == 0x100_0000;
  }

  function UnhexWord(s: seq<Byte>): Option<Word>
    requires |s| == 8
  {
    match Unhex(s)
    case None => None
    case Some(n) => if n < WORD then Some(n) else None
  }

  function HexAll(fields: seq<Word>): (s: seq<Byte>)
    ensures |s| == 8 * |fields|
  {
    if fields == [] then [] else Hex(fields[0], 8) + HexAll(fields[1..])
  }

  function UnhexAll(s: seq<Byte>): (r: Option<seq<Word>>)
    ensures r.Some? ==> |s| == 8 * |r.value|
  {
    if s == [] then Some([])
    else if |s| < 8 then None
    else
      var (first, rest) := (UnhexWord(s[..8]), UnhexAll(s[8..]));
      if first.None? || rest.None? then None else Some([first.value] + rest.value)
  }

  lemma {:induction false} FieldsRoundTrip(fields: seq<Word>)
    ensures UnhexAll(HexAll(fields)) == Some(fields)
  {
    if fields == [] {
    } else {
      var s := HexAll(fields);
      Power16Of8();
      HexRoundTrip(fields[0], 8);
      assert s[..8] == Hex(fields[0], 8) && s[8..] == HexAll(fields[1..]);
      FieldsRoundTrip(fields[1..]);
      assert fields == [fields[0]] + fields[1..];
    }
  }

  // One entry.

  /** What fits the format: a name without NUL, and lengths of 32 bits. */
  predicate Fits(e: Entry) {
    0 !in e.path && |e.path| + 1 < WORD && |e.data| < WORD
  }

  function HeaderFields(e: Entry): (fields: seq<Word>)
    ensures |fields| == FIELDS
  {
    [e.inode, e.mode, 0, 0, 1, 0, Wrap32(|e.data|), 0, 0, 0, 0, Wrap32(|e.path| + 1), 0]
  }

  function Header(e: Entry): (s: seq<Byte>)
    ensures |s| == HEADER
  {
    MAGIC + HexAll(HeaderFields(e))
  }

  /** The k-th field of a header. */
  function Field(header: seq<Byte>, k: nat): Option<Word>
    requires k < FIELDS && |header| == HEADER
  {
    UnhexWord(header[6 + 8 * k..14 + 8 * k])
  }

  lemma {:induction false} FieldOf(fields: seq<Word>, k: nat)
    requires k < |fields|
    ensures UnhexWord(HexAll(fields)[8 * k..8 * k + 8]) == Some(fields[k])
  {
    var s := HexAll(fields);
    if k == 0 {
      Power16Of8();
      HexRoundTrip(fields[0], 8);
      assert s[0..8] == Hex(fields[0], 8);
    } else {
      FieldOf(fields[1..], k - 1);
      assert s[8..] == HexAll(fields[1..]);
      assert s[8 * k..8 * k + 8] == s[8..][8 * (k - 1)..8 * (k - 1) + 8];
    }
  }

  /** What the header says, field by field, in the order of the format: ino, mode, uid, gid, nlink, mtime,
      filesize, four device numbers, namesize and check. Everything belongs to root, has one link and
      no time, and the checksum is not used. */
  lemma HeaderSays(e: Entry, k: nat)
    requires Fits(e) && k < FIELDS
    ensures Field(Header(e), k) == Some(if k == 0 then e.inode else if k == 1 then e.mode else if k == 4 then 1
                                        else if k == 6 then |e.data| else if k == 11 then |e.path| + 1 else 0)
  {
    FieldAt(HeaderFields(e), k);
  }

  lemma FieldAt(fields: seq<Word>, k: nat)
    requires |fields| == FIELDS && k < FIELDS
    ensures Field(MAGIC + HexAll(fields), k) == Some(fields[k])
  {
    FieldOf(fields, k);
    SliceBehind(MAGIC, HexAll(fields), 8 * k, 8);
  }

  lemma SliceBehind(a: seq<Byte>, b: seq<Byte>, i: nat, n: nat)
    requires i + n <= |b|
    ensures (a + b)[|a| + i..|a| + i + n] == b[i..i + n]
  {
  }

  function Zeros(n: nat): (s: seq<Byte>)
    ensures |s| == n && forall i :: 0 <= i < n ==> s[i] == 0
  {
    seq(n, i => 0)
  }

  predicate IsUnit(unit: nat) {
    unit == 4 || unit == 256
  }

  /** The next multiple of 4 or of 256. */
  function Up(n: nat, unit: nat): (m: nat)
    requires IsUnit(unit)
    ensures n <= m < n + unit && m % unit == 0
  {
    if unit == 4 then (n + 3) / 4 * 4 else (n + 255) / 256 * 256
  }

  function Padded(b: seq<Byte>, unit: nat): (r: seq<Byte>)
    requires IsUnit(unit)
    ensures b <= r && |r| == Up(|b|, unit)
  {
    b + Zeros(Up(|b|, unit) - |b|)
  }

  function Named(b: seq<Byte>, e: Entry): (r: seq<Byte>)
    ensures b <= r && |r| == Up(|b|, 4) + HEADER + |e.path| + 1
  {
    Padded(b, 4) + Header(e) + (e.path + [0])
  }

  /** The archive b with one more entry. */
  function Emit(b: seq<Byte>, e: Entry): (r: seq<Byte>)
    ensures b <= r && |r| == Up(Up(|b|, 4) + HEADER + |e.path| + 1, 4) + |e.data|
  {
    Padded(Named(b, e), 4) + e.data
  }

  predicate AllFit(entries: seq<Entry>) {
    forall i :: 0 <= i < |entries| ==> Fits(entries[i])
  }

  function EmitAll(b: seq<Byte>, entries: seq<Entry>): (r: seq<Byte>)
    ensures b <= r
    decreases entries
  {
    if entries == [] then b else EmitAll(Emit(b, entries[0]), entries[1..])
  }

  /** The part is in s from that place on. */
  predicate PartAt(s: seq<Byte>, from: nat, part: seq<Byte>) {
    from + |part| <= |s| && s[from..from + |part|] == part
  }

  /** Header and data both begin at a multiple of 4, and only there is padding. */
  lemma EmitLayout(b: seq<Byte>, e: Entry)
    ensures var (r, p) := (Emit(b, e), Up(|b|, 4));
            var (q, d) := (p + HEADER + |e.path| + 1, Up(p + HEADER + |e.path| + 1, 4));
            && p % 4 == 0 && d % 4 == 0 && |r| == d + |e.data|
            && PartAt(r, 0, b) && PartAt(r, |b|, Zeros(p - |b|)) && PartAt(r, p, Header(e))
            && PartAt(r, p + HEADER, e.path + [0]) && PartAt(r, q, Zeros(d - q)) && PartAt(r, d, e.data)
  {
    var r := Emit(b, e);
    var named := Named(b, e);
    PartWithin(Padded(named, 4), e.data, r);
    PartWithin(named, Zeros(Up(|named|, 4) - |named|), r);
    PartWithin(Padded(b, 4) + Header(e), e.path + [0], r);
    PartWithin(Padded(b, 4), Header(e), r);
    PartWithin(b, Zeros(Up(|b|, 4) - |b|), r);
    PartWithin([], b, r);
  }

  lemma PartWithin(a: seq<Byte>, part: seq<Byte>, r: seq<Byte>)
    requires a + part <= r
    ensures a <= r && PartAt(r, |a|, part)
  {
    Within(a, part, r);
  }

  // The reader.

  datatype Item = Item(entry: Entry, next: nat)

  /** The entry at or behind `pos`, and where it ends. */
  function ReadEntry(b: seq<Byte>, pos: nat): (r: Option<Item>)
    ensures r.Some? ==> pos < r.value.next <= |b|
  {
    var p := Up(pos, 4);
    if p + HEADER > |b| || b[p..p + |MAGIC|] != MAGIC then None
    else
      var fields := UnhexAll(b[p + |MAGIC|..p + HEADER]);
      if fields.None? then None else ReadBody(b, p + HEADER, fields.value)
  }

  function ReadBody(b: seq<Byte>, q: nat, fields: seq<Word>): (r: Option<Item>)
    requires q <= |b| && |fields| == FIELDS
    ensures r.Some? ==> q < r.value.next <= |b|
  {
    var (dataSize, nameSize) := (fields[6], fields[11]);
    if nameSize == 0 || q + nameSize > |b| || b[q + nameSize - 1] != 0 then None
    else
      var d := Up(q + nameSize, 4);
      if d + dataSize > |b| then None
      else Some(Item(Entry(fields[0], fields[1], b[q..q + nameSize - 1], b[d..d + dataSize]), d + dataSize))
  }

  /** The entries in front of the trailer; nothing if there is no well-formed trailer. */
  function ReadArchive(b: seq<Byte>, pos: nat): Option<seq<Entry>>
    requires pos <= |b|
    decreases |b| - pos
  {
    match ReadEntry(b, pos)
    case None => None
    case Some(item) =>
      if item.entry.path == TRAILER then Some([])
      else
        match ReadArchive(b, item.next)
        case None => None
        case Some(rest) => Some([item.entry] + rest)
  }

  lemma Within(a: seq<Byte>, b: seq<Byte>, c: seq<Byte>)
    requires a + b <= c
    ensures |a| + |b| <= |c| && c[|a|..|a| + |b|] == b && a <= c
  {
    assert c[..|a| + |b|] == a + b;
    assert c[|a|..|a| + |b|] == (a + b)[|a|..];
  }

  lemma ReadHeader(a: seq<Byte>, e: Entry, whole: seq<Byte>)
    requires Fits(e) && a + Header(e) <= whole
    ensures |a| + HEADER <= |whole| && whole[|a|..|a| + |MAGIC|] == MAGIC
    ensures UnhexAll(whole[|a| + |MAGIC|..|a| + HEADER]) == Some(HeaderFields(e))
  {
    var h := Header(e);
    Within(a, h, whole);
    assert whole[|a|..|a| + |MAGIC|] == h[..|MAGIC|] == MAGIC;
    assert whole[|a| + |MAGIC|..|a| + HEADER] == h[|MAGIC|..] == HexAll(HeaderFields(e));
    FieldsRoundTrip(HeaderFields(e));
  }

  /** Where name and data of an entry lie. */
  lemma BodyWithin(b: seq<Byte>, e: Entry, whole: seq<Byte>)
    requires Emit(b, e) <= whole
    ensures var (q, d) := (Up(|b|, 4) + HEADER, |Emit(b, e)| - |e.data|);
            && q + |e.path| + 1 <= d <= d + |e.data| <= |whole|
            && whole[q..q + |e.path| + 1] == e.path + [0] && whole[d..d + |e.data|] == e.data
  {
    var named := Named(b, e);
    Within(Padded(named, 4), e.data, whole);
    Within(named, Zeros(Up(|named|, 4) - |named|), whole);
    Within(Padded(b, 4) + Header(e), e.path + [0], whole);
  }

  lemma ReadBodyAt(whole: seq<Byte>, q: nat, e: Entry)
    requires Fits(e) && q + |e.path| + 1 <= |whole| && whole[q..q + |e.path| + 1] == e.path + [0]
    requires var d := Up(q + |e.path| + 1, 4); d + |e.data| <= |whole| && whole[d..d + |e.data|] == e.data
    ensures ReadBody(whole, q, HeaderFields(e)) == Some(Item(e, Up(q + |e.path| + 1, 4) + |e.data|))
  {
    var n := |e.path|;
    assert whole[q..q + n] == whole[q..q + n + 1][..n] == e.path;
    assert whole[q + n] == whole[q..q + n + 1][n] == 0;
  }

  lemma ReadName(b: seq<Byte>, e: Entry, whole: seq<Byte>)
    requires Fits(e) && Emit(b, e) <= whole
    ensures ReadBody(whole, Up(|b|, 4) + HEADER, HeaderFields(e)) == Some(Item(e, |Emit(b, e)|))
  {
    BodyWithin(b, e, whole);
    ReadBodyAt(whole, Up(|b|, 4) + HEADER, e);
  }

  lemma HeaderWithin(b: seq<Byte>, e: Entry, whole: seq<Byte>)
    requires Fits(e) && Emit(b, e) <= whole
    ensures Padded(b, 4) + Header(e) <= whole
  {
    Within(Padded(Named(b, e), 4), e.data, whole);
    Within(Padded(b, 4) + Header(e), e.path + [0], whole);
  }

  lemma ReadAfterHeader(b: seq<Byte>, pos: nat, p: nat, fields: seq<Word>)
    requires p == Up(pos, 4) && p + HEADER <= |b| && b[p..p + |MAGIC|] == MAGIC && |fields| == FIELDS
    requires UnhexAll(b[p + |MAGIC|..p + HEADER]) == Some(fields)
    ensures ReadEntry(b, pos) == ReadBody(b, p + HEADER, fields)
  {
  }

  lemma ReadParsed(b: seq<Byte>, e: Entry, whole: seq<Byte>)
    requires Fits(e) && Emit(b, e) <= whole
    ensures ReadEntry(whole, |b|) == ReadBody(whole, Up(|b|, 4) + HEADER, HeaderFields(e))
  {
    HeaderWithin(b, e, whole);
    ReadHeader(Padded(b, 4), e, whole);
    ReadAfterHeader(whole, |b|, Up(|b|, 4), HeaderFields(e));
  }

  /** An entry is read back from wherever it was written, whatever comes behind. */
  lemma ReadEmitted(b: seq<Byte>, e: Entry, whole: seq<Byte>)
    requires Fits(e) && Emit(b, e) <= whole
    ensures ReadEntry(whole, |b|) == Some(Item(e, |Emit(b, e)|))
  {
    ReadParsed(b, e, whole);
    ReadName(b, e, whole);
  }

  lemma Begins(a: seq<Byte>, b: seq<Byte>, c: seq<Byte>, d: seq<Byte>)
    requires a <= b <= c <= d
    ensures a <= d
  {
  }

  /** Reading a written archive gives the entries up to the first one called like the trailer. */
  lemma {:induction false} ReadWritten(b: seq<Byte>, entries: seq<Entry>, trailer: Entry, whole: seq<Byte>)
    requires AllFit(entries) && Fits(trailer) && trailer.path == TRAILER
    requires Emit(EmitAll(b, entries), trailer) <= whole
    ensures ReadArchive(whole, |b|) == Some(UpToTrailer(entries))
    decreases entries
  {
    if entries == [] {
      ReadEmitted(b, trailer, whole);
    } else {
      var b' := Emit(b, entries[0]);
      Begins(b', EmitAll(b', entries[1..]), Emit(EmitAll(b, entries), trailer), whole);
      ReadEmitted(b, entries[0], whole);
      ReadWritten(b', entries[1..], trailer, whole);
    }
  }

  function UpToTrailer(entries: seq<Entry>): (r: seq<Entry>)
    ensures r <= entries
  {
    if entries == [] || entries[0].path == TRAILER then [] else [entries[0]] + UpToTrailer(entries[1..])
  }

  /** It ends in front of the first entry of that name. */
  lemma {:induction false} UpToTrailerEnds(entries: seq<Entry>)
    ensures var n := |UpToTrailer(entries)|;
            && UpToTrailer(entries) == entries[..n]
            && (forall i :: 0 <= i < n ==> entries[i].path != TRAILER)
            && (n < |entries| ==> entries[n].path == TRAILER)
  {
    if entries == [] || entries[0].path == TRAILER {
    } else {
      UpToTrailerEnds(entries[1..]);
      assert forall i :: 0 < i < |entries| ==> entries[i] == entries[1..][i - 1];
    }
  }
}
