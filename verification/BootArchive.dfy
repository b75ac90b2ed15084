/** What mkbootfs writes, read again: the visible entries of the given trees, each exactly once, in
    the order of a sorted depth-first walk. */
module BootArchive {
  import opened Bytes
  import opened FileTree
  import opened MkBootFs
  import opened Newc
  import opened Options
  import opened Packets

  /** One command-line argument: a directory, and the prefix its entries get. */
  datatype Source = Source(prefix: seq<Byte>, dir: Node)

  predicate Usable(source: Source) {
    source.dir.Dir? && Supported(source.dir)
  }

  predicate AllUsable(sources: seq<Source>) {
    forall i :: 0 <= i < |sources| ==> Usable(sources[i])
  }

  lemma UsableStep(sources: seq<Source>, i: nat)
    requires i < |sources| && AllUsable(sources[..i]) && Usable(sources[i])
    ensures AllUsable(sources[..i + 1])
  {
    var upTo := sources[..i + 1];
    forall k | 0 <= k < |upTo|
      ensures Usable(upTo[k])
    {
      if k < i {
        assert upTo[k] == sources[..i][k];
      }
    }
  }

  ghost predicate Sound(source: Source) {
    0 !in source.prefix && PathsFit(|source.prefix|, source.dir) && Proper(source.dir)
  }

  function SourceRecords(source: Source): seq<Record> {
    if source.dir.Dir? then Below(source.prefix, source.dir, Names(source.dir)) else []
  }

  function AllRecords(sources: seq<Source>): seq<Record> {
    if sources == [] then [] else SourceRecords(sources[0]) + AllRecords(sources[1..])
  }

  lemma {:induction false} AllRecordsAppend(sources: seq<Source>, source: Source)
    ensures AllRecords(sources + [source]) == AllRecords(sources) + SourceRecords(source)
  {
    if sources == [] {
      assert [source][1..] == [];
    } else {
      assert (sources + [source])[1..] == sources[1..] + [source];
      AllRecordsAppend(sources[1..], source);
    }
  }

  // The records, as a list of what the walk visits.

  /** The path of what a list of names leads to. */
  function Render(prefix: seq<Byte>, parts: Parts): seq<Byte>
    decreases parts
  {
    if parts == [] then prefix else Render(Sub(prefix, parts[0]), parts[1..])
  }

  /** The names, with slashes between them. */
  function Joined(parts: Parts): seq<Byte>
    requires parts != []
  {
    if |parts| == 1 then parts[0] else parts[0] + [0x2f] + Joined(parts[1..])
  }

  function PathOf(prefix: seq<Byte>, parts: Parts): seq<Byte>
    requires parts != []
  {
    if prefix == [] then Joined(parts) else prefix + [0x2f] + Joined(parts)
  }

  lemma {:induction false} RenderIsPath(prefix: seq<Byte>, parts: Parts)
    requires parts != []
    ensures Render(prefix, parts) == PathOf(prefix, parts)
    decreases parts
  {
    var path := Sub(prefix, parts[0]);
    if |parts| == 1 {
      assert Render(path, parts[1..]) == path;
    } else {
      RenderIsPath(path, parts[1..]);
      assert prefix + [0x2f] + parts[0] + [0x2f] + Joined(parts[1..])
          == prefix + [0x2f] + (parts[0] + [0x2f] + Joined(parts[1..]));
    }
  }

  function RecordAt(prefix: seq<Byte>, dir: Node, parts: Parts): Record {
    match Resolve(dir, parts)
    case Some(node) => Record(Render(prefix, parts), node.mode, Content(node))
    case None => Record(Render(prefix, parts), 0, [])
  }

  function RecordsAt(prefix: seq<Byte>, dir: Node, walk: seq<Parts>): (r: seq<Record>)
    ensures |r| == |walk|
    ensures forall i :: 0 <= i < |r| ==> r[i] == RecordAt(prefix, dir, walk[i])
  {
    if walk == [] then [] else [RecordAt(prefix, dir, walk[0])] + RecordsAt(prefix, dir, walk[1..])
  }

  lemma RecordsUnder(prefix: seq<Byte>, dir: Node, name: Name, walk: seq<Parts>)
    requires Has(dir, name)
    ensures RecordsAt(prefix, dir, Under(name, walk)) == RecordsAt(Sub(prefix, name), Get(dir, name), walk)
  {
    forall i | 0 <= i < |walk|
      ensures RecordAt(prefix, dir, Under(name, walk)[i]) == RecordAt(Sub(prefix, name), Get(dir, name), walk[i])
    {
      var parts := Under(name, walk)[i];
      assert parts[0] == name && parts[1..] == walk[i];
    }
  }

  lemma RecordsConcat(prefix: seq<Byte>, dir: Node, name: Name, x: seq<Parts>, y: seq<Parts>)
    ensures RecordsAt(prefix, dir, [[name]] + x + y)
         == [RecordAt(prefix, dir, [name])] + RecordsAt(prefix, dir, x) + RecordsAt(prefix, dir, y)
  {
  }

  lemma {:induction false} BelowIsWalk(prefix: seq<Byte>, dir: Node, names: seq<Name>)
    requires dir.Dir? && AllIn(dir, names)
    ensures Below(prefix, dir, names) == RecordsAt(prefix, dir, WalkNames(dir, names))
    decreases dir, |names|
  {
    if names == [] {
    } else {
      var name, child := names[0], Get(dir, names[0]);
      RecordsIsWalk(prefix, dir, name);
      BelowIsWalk(prefix, dir, names[1..]);
      RecordsConcat(prefix, dir, name, Under(name, Walk(child)), WalkNames(dir, names[1..]));
    }
  }

  lemma OneName(prefix: seq<Byte>, dir: Node, name: Name)
    requires Has(dir, name)
    ensures Resolve(dir, [name]) == Some(Get(dir, name)) && Render(prefix, [name]) == Sub(prefix, name)
  {
    var parts: Parts := [name];
    var rest := parts[1..];
    assert rest == [];
    assert Resolve(dir, parts) == Resolve(Get(dir, name), rest);
    assert Render(prefix, parts) == Render(Sub(prefix, name), rest);
  }

  lemma {:induction false} RecordsIsWalk(prefix: seq<Byte>, dir: Node, name: Name)
    requires Has(dir, name)
    ensures Records(Sub(prefix, name), Get(dir, name))
         == [RecordAt(prefix, dir, [name])] + RecordsAt(prefix, dir, Under(name, Walk(Get(dir, name))))
    decreases dir, 0
  {
    var child := Get(dir, name);
    OneName(prefix, dir, name);
    RecordsUnder(prefix, dir, name, Walk(child));
    if child.Dir? {
      BelowIsWalk(Sub(prefix, name), child, Names(child));
    }
  }

  /** The record is that of the entry which the names lead to. Its data is exact but for a link
      whose target is longer than the buffer given to readlink. */
  predicate Stores(record: Record, prefix: seq<Byte>, dir: Node, parts: Parts) {
    match Resolve(dir, parts)
    case None => false
    case Some(node) =>
      && record.path == Render(prefix, parts) && record.mode == node.mode
      && (node.File? ==> record.data == node.data)
      && (node.Dir? ==> record.data == [])
      && (node.Link? ==> (record.data == node.target <==> |node.target| <= LINK_MAX))
      && (node.Link? ==> record.data <= node.target)
  }

  ghost predicate Visits(walk: seq<Parts>, dir: Node) {
    forall parts :: parts in walk <==> parts != [] && Resolve(dir, parts).Some?
  }

  /** The records of a directory are those of its visible entries, each once and in order. */
  lemma Listing(prefix: seq<Byte>, dir: Node)
    requires dir.Dir? && Proper(dir)
    ensures Ordered(Walk(dir)) && Visits(Walk(dir), dir)
    ensures var records := Below(prefix, dir, Names(dir));
            && |records| == |Walk(dir)|
            && forall i :: 0 <= i < |records| ==> Stores(records[i], prefix, dir, Walk(dir)[i])
  {
    var walk, records := Walk(dir), Below(prefix, dir, Names(dir));
    BelowIsWalk(prefix, dir, Names(dir));
    WalkOrdered(dir);
    forall parts: Parts
      ensures parts in walk <==> parts != [] && Resolve(dir, parts).Some?
    {
      WalkVisits(dir, parts);
    }
    forall i | 0 <= i < |records|
      ensures Stores(records[i], prefix, dir, walk[i])
    {
      assert walk[i] in walk;
      Stored(prefix, dir, walk[i]);
    }
  }

  /** One link whose target is a byte longer than the buffer: the byte is missing from the archive. */
  lemma LongLinkIsCut(target: seq<Byte>)
    requires |target| == LINK_MAX + 1
    ensures var dir := Dir(0, [Child([0x6c], Link(0, target))]);
            && Proper(dir) && Supported(dir)
            && Below([], dir, Names(dir)) == [Record([0x6c], 0, target[..LINK_MAX])] && target[..LINK_MAX] != target
  {
    var dir := Dir(0, [Child([0x6c], Link(0, target))]);
    var names: seq<Name> := [[0x6c]];
    assert KeptNames(dir.entries[1..]) == [] && KeptNames(dir.entries) == names;
    assert Sort(names[1..]) == [] && Insert([0x6c], []) == names;
    assert Below([], dir, names) == Records([0x6c], dir.entries[0].node) + Below([], dir, []);
  }

  lemma {:induction false} SupportedReaches(node: Node, parts: Parts, end: Node)
    requires Supported(node) && Resolve(node, parts) == Some(end)
    ensures Storable(end)
    decreases parts
  {
    if parts == [] {
    } else {
      SupportedReaches(Get(node, parts[0]), parts[1..], end);
    }
  }

  lemma {:induction false} UnsupportedReaches(node: Node) returns (parts: Parts, end: Node)
    requires Proper(node) && !Supported(node)
    ensures Resolve(node, parts) == Some(end) && !Storable(end)
    decreases node
  {
    if !node.Dir? {
      parts, end := [], node;
    } else {
      var i :| 0 <= i < |node.entries| && Kept(node.entries[i].name) && !Supported(node.entries[i].node);
      var rest;
      rest, end := UnsupportedReaches(node.entries[i].node);
      OnlyEntry(node.entries, i);
      parts := [node.entries[i].name] + rest;
      assert parts[1..] == rest;
    }
  }

  /** What the program can store: a tree in which nothing that can be reached is a special file, or a
      file longer than one read. */
  lemma SupportedMeans(node: Node)
    requires Proper(node)
    ensures Supported(node) <==> forall parts, end :: Resolve(node, parts) == Some(end) ==> Storable(end)
  {
    if Supported(node) {
      forall parts, end | Resolve(node, parts) == Some(end)
        ensures Storable(end)
      {
        SupportedReaches(node, parts, end);
      }
    } else {
      var parts, end := UnsupportedReaches(node);
    }
  }

  predicate Storable(node: Node) {
    !node.Other? && (node.File? ==> |node.data| <= 0x7fff_f000)
  }

  lemma Stored(prefix: seq<Byte>, dir: Node, parts: Parts)
    requires Resolve(dir, parts).Some?
    ensures Stores(RecordAt(prefix, dir, parts), prefix, dir, parts)
  {
  }

  // The archive, read.

  /** The entries as written, with their inode numbers. */
  function Entries(records: seq<Record>, inode: Word, fix: FixMode): (r: seq<Entry>)
    ensures |r| == |records|
  {
    if records == [] then [] else [Stamp(records[0], inode, fix)] + Entries(records[1..], Wrap32(inode + 1), fix)
  }

  lemma {:induction false} WriteIsEmitAll(a: Archive, records: seq<Record>, fix: FixMode)
    ensures Write(a, records, fix).bytes == EmitAll(a.bytes, Entries(records, a.inode, fix))
    decreases records
  {
    if records == [] {
    } else {
      var next := Add(a, records[0], fix);
      WriteIsEmitAll(next, records[1..], fix);
      var all, rest := Entries(records, a.inode, fix), Entries(records[1..], next.inode, fix);
      assert all[0] == Stamp(records[0], a.inode, fix) && all[1..] == rest;
    }
  }

  lemma WrapAdd(n: nat, k: nat)
    ensures Wrap32(Wrap32(n) + k) == Wrap32(n + k)
  {
  }

  lemma {:induction false} EntryAt(records: seq<Record>, inode: Word, fix: FixMode, i: nat)
    requires i < |records|
    ensures Entries(records, inode, fix)[i] == Stamp(records[i], Wrap32(inode + i), fix)
    decreases i
  {
    if i > 0 {
      EntryAt(records[1..], Wrap32(inode + 1), fix, i - 1);
      WrapAdd(inode + 1, i - 1);
    }
  }

  predicate DistinctInodes(entries: seq<Entry>) {
    forall i, j :: 0 <= i < j < |entries| ==> entries[i].inode != entries[j].inode
  }

  lemma WrapApart(n: nat, i: nat, j: nat)
    requires i < j < i + WORD
    ensures Wrap32(n + i) != Wrap32(n + j)
  {
  }

  predicate RecordsFit(records: seq<Record>) {
    forall i :: 0 <= i < |records| ==>
      0 !in records[i].path && |records[i].path| < PATH_MAX && |records[i].data| <= READ_MAX
  }

  lemma {:induction false} NodeFits(path: seq<Byte>, node: Node)
    requires 0 !in path && PathsFit(|path|, node) && Proper(node) && Supported(node)
    ensures RecordsFit(Records(path, node))
    decreases node, 1, 0
  {
    if node.Dir? {
      SupportedByName(node, Names(node));
      BelowFits(path, node, Names(node));
    }
  }

  lemma {:induction false} BelowFits(path: seq<Byte>, dir: Node, names: seq<Name>)
    requires dir.Dir? && AllIn(dir, names) && AllSupported(dir, names)
    requires 0 !in path && PathsFit(|path|, dir) && Proper(dir)
    ensures RecordsFit(Below(path, dir, names))
    decreases dir, 0, |names|
  {
    if names == [] {
    } else {
      ChildFits(|path|, dir, names[0]);
      NodeFits(Sub(path, names[0]), Get(dir, names[0]));
      BelowFits(path, dir, names[1..]);
    }
  }

  lemma {:induction false} AllRecordsFit(sources: seq<Source>)
    requires (forall i :: 0 <= i < |sources| ==> Sound(sources[i])) && AllUsable(sources)
    ensures RecordsFit(AllRecords(sources))
  {
    if sources == [] {
    } else {
      var source := sources[0];
      SupportedByName(source.dir, Names(source.dir));
      BelowFits(source.prefix, source.dir, Names(source.dir));
      AllRecordsFit(sources[1..]);
    }
  }

  // Which entries are called like the trailer.

  predicate NoTrailer(records: seq<Record>) {
    forall i :: 0 <= i < |records| ==> records[i].path != TRAILER
  }

  lemma NoTrailerConcat(x: seq<Record>, y: seq<Record>)
    ensures NoTrailer(x + y) <==> NoTrailer(x) && NoTrailer(y)
  {
    if NoTrailer(x + y) {
      assert forall i :: 0 <= i < |x| ==> x[i] == (x + y)[i];
      assert forall i :: 0 <= i < |y| ==> y[i] == (x + y)[|x| + i];
    }
  }

  /** Below a directory that has a path, every path has a slash. */
  lemma {:induction false} BelowHasSlash(path: seq<Byte>, dir: Node, names: seq<Name>)
    requires path != [] && dir.Dir? && AllIn(dir, names)
    ensures NoTrailer(Below(path, dir, names))
    decreases dir, 0, |names|
  {
    if names == [] {
    } else {
      var sub, child := Sub(path, names[0]), Get(dir, names[0]);
      assert sub[|path|] == SLASH;
      assert SLASH !in TRAILER;
      if child.Dir? {
        BelowHasSlash(sub, child, Names(child));
      }
      BelowHasSlash(path, dir, names[1..]);
    }
  }

  lemma NodeTrailer(name: Name, node: Node)
    ensures NoTrailer(Records(name, node)) <==> name != TRAILER
  {
    var first, rest := [Record(name, node.mode, Content(node))], if node.Dir? then Below(name, node, Names(node)) else [];
    if node.Dir? {
      BelowHasSlash(name, node, Names(node));
    }
    assert first[0].path == name;
    NoTrailerConcat(first, rest);
    assert Records(name, node) == first + rest;
  }

  lemma {:induction false} TopTrailer(dir: Node, names: seq<Name>)
    requires dir.Dir? && AllIn(dir, names)
    ensures NoTrailer(Below([], dir, names)) <==> TRAILER !in names
  {
    if names == [] {
    } else {
      var name, child := names[0], Get(dir, names[0]);
      NodeTrailer(name, child);
      TopTrailer(dir, names[1..]);
      NoTrailerConcat(Records(name, child), Below([], dir, names[1..]));
      assert names == [name] + names[1..];
    }
  }

  /** The top of an archive without prefix has an entry called TRAILER!!!. */
  predicate HasTrailer(source: Source) {
    source.prefix == [] && Has(source.dir, TRAILER)
  }

  predicate NoneHasTrailer(sources: seq<Source>) {
    forall i :: 0 <= i < |sources| ==> !HasTrailer(sources[i])
  }

  lemma NoneHasStep(sources: seq<Source>)
    requires sources != []
    ensures NoneHasTrailer(sources) <==> !HasTrailer(sources[0]) && NoneHasTrailer(sources[1..])
  {
    assert forall i :: 0 <= i < |sources[1..]| ==> sources[1..][i] == sources[i + 1];
    assert forall i :: 0 < i < |sources| ==> sources[i] == sources[1..][i - 1];
  }

  lemma SourceTrailer(source: Source)
    requires source.dir.Dir?
    ensures NoTrailer(SourceRecords(source)) <==> !HasTrailer(source)
  {
    if source.prefix == [] {
      TopTrailer(source.dir, Names(source.dir));
    } else {
      BelowHasSlash(source.prefix, source.dir, Names(source.dir));
    }
  }

  lemma {:induction false} AllTrailer(sources: seq<Source>)
    requires forall i :: 0 <= i < |sources| ==> sources[i].dir.Dir?
    ensures NoTrailer(AllRecords(sources)) <==> NoneHasTrailer(sources)
  {
    if sources == [] {
    } else {
      SourceTrailer(sources[0]);
      AllTrailer(sources[1..]);
      NoTrailerConcat(SourceRecords(sources[0]), AllRecords(sources[1..]));
      NoneHasStep(sources);
    }
  }

  function ImageOf(records: seq<Record>, fix: FixMode): (bytes: seq<Byte>)
    ensures |bytes| % 256 == 0
  {
    var a := Write(Archive([], FIRST_INODE), records, fix);
    Padded(Add(a, Record(TRAILER, 0, []), fix).bytes, 256)
  }

  /** What main() leaves on stdout. */
  function Image(sources: seq<Source>, fix: FixMode): (bytes: seq<Byte>)
    ensures |bytes| % 256 == 0
  {
    ImageOf(AllRecords(sources), fix)
  }

  lemma EntriesFit(records: seq<Record>, inode: Word, fix: FixMode)
    requires RecordsFit(records)
    ensures AllFit(Entries(records, inode, fix))
  {
    forall i | 0 <= i < |records|
      ensures Fits(Entries(records, inode, fix)[i])
    {
      EntryAt(records, inode, fix, i);
    }
  }

  lemma ReadImage(records: seq<Record>, fix: FixMode)
    requires RecordsFit(records)
    ensures ReadArchive(ImageOf(records, fix), 0) == Some(UpToTrailer(Entries(records, FIRST_INODE, fix)))
  {
    var entries := Entries(records, FIRST_INODE, fix);
    var a := Write(Archive([], FIRST_INODE), records, fix);
    var trailer := Stamp(Record(TRAILER, 0, []), a.inode, fix);
    EntriesFit(records, FIRST_INODE, fix);
    WriteIsEmitAll(Archive([], FIRST_INODE), records, fix);
    ReadWritten([], entries, trailer, ImageOf(records, fix));
  }

  /** An entry that was read is the i-th record: path and data as they are, the mode as fixed, and the
      number that the i-th entry gets. */
  predicate Matches(e: Entry, record: Record, i: nat, fix: FixMode) {
    && e.path == record.path && e.data == record.data && e.mode == fix(record.path, record.mode)
    && e.inode == (300000 + i) % 0x1_0000_0000
  }

  predicate GotBack(got: seq<Entry>, records: seq<Record>, fix: FixMode) {
    |got| == |records| && forall i :: 0 <= i < |got| ==> Matches(got[i], records[i], i, fix)
  }

  lemma EntriesMatch(records: seq<Record>, fix: FixMode)
    ensures GotBack(Entries(records, FIRST_INODE, fix), records, fix)
  {
    forall i | 0 <= i < |records|
      ensures Matches(Entries(records, FIRST_INODE, fix)[i], records[i], i, fix)
    {
      EntryAt(records, FIRST_INODE, fix, i);
    }
  }

  /** What a reader gets: the records in front of the first that is called like the trailer. */
  lemma ReadBack(records: seq<Record>, fix: FixMode) returns (got: seq<Entry>)
    requires RecordsFit(records)
    ensures ReadArchive(ImageOf(records, fix), 0) == Some(got)
    ensures |got| <= |records| && GotBack(got, records[..|got|], fix)
    ensures NoTrailer(records[..|got|]) && (|got| < |records| ==> records[|got|].path == TRAILER)
  {
    var entries := Entries(records, FIRST_INODE, fix);
    ReadImage(records, fix);
    EntriesMatch(records, fix);
    got := UpToTrailer(entries);
    UpToTrailerEnds(entries);
  }

  /** So it gets them all if and only if there is none. */
  lemma RecordsRoundTrip(records: seq<Record>, fix: FixMode) returns (got: seq<Entry>)
    requires RecordsFit(records)
    ensures ReadArchive(ImageOf(records, fix), 0) == Some(got)
    ensures GotBack(got, records, fix) <==> NoTrailer(records)
  {
    got := ReadBack(records, fix);
    BackOrCut(got, records, fix);
  }

  lemma BackOrCut(got: seq<Entry>, records: seq<Record>, fix: FixMode)
    requires |got| <= |records| && GotBack(got, records[..|got|], fix)
    requires NoTrailer(records[..|got|]) && (|got| < |records| ==> records[|got|].path == TRAILER)
    ensures GotBack(got, records, fix) <==> NoTrailer(records)
  {
    assert |got| == |records| ==> records[..|got|] == records;
  }

  /** The round trip: a reader gets back every record of every source, and nothing else, if and only if
      none at the top of an archive without prefix is called TRAILER!!!. */
  lemma ArchiveRoundTrip(sources: seq<Source>, fix: FixMode) returns (got: seq<Entry>)
    requires (forall i :: 0 <= i < |sources| ==> Sound(sources[i])) && AllUsable(sources)
    ensures ReadArchive(Image(sources, fix), 0) == Some(got)
    ensures GotBack(got, AllRecords(sources), fix) <==> NoneHasTrailer(sources)
  {
    AllRecordsFit(sources);
    AllTrailer(sources);
    got := RecordsRoundTrip(AllRecords(sources), fix);
  }

  /** The entry is that of the node which the names lead to. */
  predicate Returned(e: Entry, prefix: seq<Byte>, dir: Node, parts: Parts, fix: FixMode)
    requires parts != []
  {
    match Resolve(dir, parts)
    case None => false
    case Some(node) =>
      && e.path == PathOf(prefix, parts) && e.mode == fix(PathOf(prefix, parts), node.mode)
      && (node.File? ==> e.data == node.data)
      && (node.Dir? ==> e.data == [])
      && (node.Link? ==> e.data <= node.target && (e.data == node.target <==> |node.target| <= 1024))
  }

  /** Where the entries of the k-th source begin. */
  function Offset(sources: seq<Source>, k: nat): nat
    requires k <= |sources|
  {
    |AllRecords(sources[..k])|
  }

  /** The lists that a function gives for each source, in one. */
  function AllOf(records: Source -> seq<Record>, sources: seq<Source>): seq<Record> {
    if sources == [] then [] else records(sources[0]) + AllOf(records, sources[1..])
  }

  lemma {:induction false} AllOfSources(sources: seq<Source>)
    ensures AllRecords(sources) == AllOf(SourceRecords, sources)
  {
    if sources == [] {
    } else {
      AllOfSources(sources[1..]);
    }
  }

  lemma {:induction false} AllOfAt(records: Source -> seq<Record>, sources: seq<Source>, k: nat, i: nat)
    requires k < |sources| && i < |records(sources[k])|
    ensures var n := |AllOf(records, sources[..k])| + i;
            n < |AllOf(records, sources)| && AllOf(records, sources)[n] == records(sources[k])[i]
  {
    if k == 0 {
      assert sources[..0] == [];
    } else {
      AllOfAt(records, sources[1..], k - 1, i);
      assert sources[..k][0] == sources[0] && sources[..k][1..] == sources[1..][..k - 1];
    }
  }

  lemma RecordOfSource(sources: seq<Source>, k: nat, i: nat)
    requires k < |sources| && i < |SourceRecords(sources[k])|
    ensures Offset(sources, k) + i < |AllRecords(sources)|
    ensures AllRecords(sources)[Offset(sources, k) + i] == SourceRecords(sources[k])[i]
  {
    AllOfSources(sources);
    AllOfSources(sources[..k]);
    AllOfAt(SourceRecords, sources, k, i);
  }

  lemma ReturnedFrom(e: Entry, record: Record, n: nat, prefix: seq<Byte>, dir: Node, parts: Parts, fix: FixMode)
    requires parts != [] && Matches(e, record, n, fix) && Stores(record, prefix, dir, parts)
    ensures Returned(e, prefix, dir, parts, fix)
  {
    RenderIsPath(prefix, parts);
  }

  lemma NodeReturned(got: seq<Entry>, sources: seq<Source>, fix: FixMode, k: nat, i: nat)
    requires GotBack(got, AllRecords(sources), fix)
    requires k < |sources| && sources[k].dir.Dir? && Proper(sources[k].dir) && i < |Walk(sources[k].dir)|
    ensures Offset(sources, k) + i < |got| && Walk(sources[k].dir)[i] != []
    ensures Returned(got[Offset(sources, k) + i], sources[k].prefix, sources[k].dir, Walk(sources[k].dir)[i], fix)
  {
    WalkOrdered(sources[k].dir);
    var source, n := sources[k], Offset(sources, k) + i;
    Listing(source.prefix, source.dir);
    RecordOfSource(sources, k, i);
    assert Matches(got[n], AllRecords(sources)[n], n, fix);
    ReturnedFrom(got[n], SourceRecords(source)[i], n, source.prefix, source.dir, Walk(source.dir)[i], fix);
  }

  /** Down to the nodes of the trees: in the archive of any sources without such a name, the entries of
      each stand where it says, one for each node that can be reached and in the order of the walk,
      with the path, mode and data of that node. */
  lemma TreesRoundTrip(sources: seq<Source>, fix: FixMode, k: nat, i: nat) returns (got: seq<Entry>)
    requires (forall j :: 0 <= j < |sources| ==> Sound(sources[j])) && AllUsable(sources) && NoneHasTrailer(sources)
    requires k < |sources| && i < |Walk(sources[k].dir)|
    ensures ReadArchive(Image(sources, fix), 0) == Some(got) && |got| == WalkLengths(sources)
    ensures Offset(sources, k) + i < |got| && Walk(sources[k].dir)[i] != []
    ensures Returned(got[Offset(sources, k) + i], sources[k].prefix, sources[k].dir, Walk(sources[k].dir)[i], fix)
  {
    got := ArchiveRoundTrip(sources, fix);
    AllCounted(sources);
    NodeReturned(got, sources, fix, k, i);
  }

  /** As many entries as there are nodes to be reached. */
  function WalkLengths(sources: seq<Source>): nat {
    if sources == [] then 0 else |Walk(sources[0].dir)| + WalkLengths(sources[1..])
  }

  lemma {:induction false} AllCounted(sources: seq<Source>)
    requires (forall j :: 0 <= j < |sources| ==> Sound(sources[j])) && AllUsable(sources)
    ensures |AllRecords(sources)| == WalkLengths(sources)
  {
    if sources == [] {
    } else {
      assert Usable(sources[0]) && Sound(sources[0]);
      Listing(sources[0].prefix, sources[0].dir);
      assert forall j :: 0 <= j < |sources[1..]| ==> sources[1..][j] == sources[j + 1];
      AllCounted(sources[1..]);
    }
  }

  /** The inode numbers of the entries that are read are distinct, if and only if 32 bits can number
      the nodes. */
  lemma InodesDistinct(sources: seq<Source>, fix: FixMode) returns (got: seq<Entry>)
    requires (forall j :: 0 <= j < |sources| ==> Sound(sources[j])) && AllUsable(sources) && NoneHasTrailer(sources)
    ensures ReadArchive(Image(sources, fix), 0) == Some(got)
    ensures DistinctInodes(got) <==> WalkLengths(sources) <= 0x1_0000_0000
  {
    got := ArchiveRoundTrip(sources, fix);
    AllCounted(sources);
    Numbered(got, AllRecords(sources), fix);
  }

  lemma Numbered(got: seq<Entry>, records: seq<Record>, fix: FixMode)
    requires GotBack(got, records, fix)
    ensures DistinctInodes(got) <==> |got| <= WORD
  {
    if |got| <= WORD {
      forall i, j | 0 <= i < j < |got|
        ensures got[i].inode != got[j].inode
      {
        assert Matches(got[i], records[i], i, fix) && Matches(got[j], records[j], j, fix);
        WrapApart(300000, i, j);
      }
    } else {
      assert Matches(got[0], records[0], 0, fix) && Matches(got[WORD], records[WORD], WORD, fix);
      assert got[0].inode == got[WORD].inode;
    }
  }

  const TRAILER_FILE: Source := Source([], Dir(0, [Child(TRAILER, File(0, [0x61]))]))

  lemma TrailerFileRecords()
    ensures Names(TRAILER_FILE.dir) == [TRAILER]
    ensures AllRecords([TRAILER_FILE]) == [Record(TRAILER, 0, [0x61])]
  {
    var dir := TRAILER_FILE.dir;
    var names: seq<Name> := [TRAILER];
    assert KeptNames(dir.entries[1..]) == [] && KeptNames(dir.entries) == names;
    assert Sort(names[1..]) == [] && Insert(TRAILER, []) == names;
    assert Below([], dir, names) == Records(TRAILER, dir.entries[0].node) + Below([], dir, []);
    assert [TRAILER_FILE][1..] == [];
  }

  lemma TrailerFileSound()
    ensures Sound(TRAILER_FILE) && Usable(TRAILER_FILE)
  {
    TrailerFileRecords();
  }

  /** One file of that name: the archive reads as empty. */
  lemma TrailerFileIsLost(fix: FixMode)
    ensures Sound(TRAILER_FILE) && Usable(TRAILER_FILE)
    ensures |AllRecords([TRAILER_FILE])| == 1 && ReadArchive(Image([TRAILER_FILE], fix), 0) == Some([])
  {
    TrailerFileSound();
    TrailerFileRecords();
    TrailerFirst([Record(TRAILER, 0, [0x61])], fix);
  }

  lemma TrailerFirst(records: seq<Record>, fix: FixMode)
    requires records != [] && records[0].path == TRAILER && RecordsFit(records)
    ensures ReadArchive(ImageOf(records, fix), 0) == Some([])
  {
    ReadImage(records, fix);
  }

  method AddSource(archiver: Archiver, source: Source) returns (ok: bool)
    requires archiver.Valid() && Sound(source)
    modifies archiver, archiver.out
    ensures archiver.Valid() && ok == Usable(source)
    ensures ok ==> archiver.State() == Write(old(archiver.State()), SourceRecords(source), archiver.fix)
  {
    if !source.dir.Dir? {
      return false;
    }
    Memcpy(archiver.out, 0, source.prefix + [0]);
    assert archiver.out[..|source.prefix|] == source.prefix;
    ok := archiver.ArchiveDir(|source.prefix|, source.dir);
  }

  lemma SourceStep(start: Archive, sources: seq<Source>, i: nat, fix: FixMode)
    requires i < |sources|
    ensures Write(start, AllRecords(sources[..i + 1]), fix)
         == Write(Write(start, AllRecords(sources[..i]), fix), SourceRecords(sources[i]), fix)
  {
    assert sources[..i + 1] == sources[..i] + [sources[i]];
    AllRecordsAppend(sources[..i], sources[i]);
    WriteConcat(start, AllRecords(sources[..i]), SourceRecords(sources[i]), fix);
  }

  /** main(), from the first argument to the trailer. */
  method MakeBootFs(sources: seq<Source>, fix: FixMode) returns (ok: bool, bytes: seq<Byte>)
    requires forall i :: 0 <= i < |sources| ==> Sound(sources[i])
    ensures ok == AllUsable(sources)
    ensures ok ==> bytes == Image(sources, fix)
  {
    var archiver := new Archiver(fix);
    ghost var start := Archive([], FIRST_INODE);
    for i := 0 to |sources|
      invariant archiver.Valid() && fresh(archiver) && fresh(archiver.out) && archiver.fix == fix
      invariant AllUsable(sources[..i])
      invariant archiver.State() == Write(start, AllRecords(sources[..i]), fix)
    {
      var done := AddSource(archiver, sources[i]);
      if !done {
        return false, [];
      }
      UsableStep(sources, i);
      SourceStep(start, sources, i, fix);
    }
    assert sources[..|sources|] == sources;
    archiver.EjectTrailer();
    return true, archiver.stdout;
  }
}
