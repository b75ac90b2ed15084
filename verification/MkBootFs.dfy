/** The archive writer of cpio/mkbootfs.c, over file trees. What fix_stat makes of a mode is a
    parameter; stdout is a sequence of bytes. */
module MkBootFs {
  import opened Bytes
  import opened FileTree
  import opened Newc
  import opened Packets

  const READ_MAX := 0x7fff_f000  // as much as one read() returns
  const LINK_MAX := 1024
  const PATH_MAX := 8192
  const FIRST_INODE: Word := 300000

  datatype Record = Record(path: seq<Byte>, mode: Word, data: seq<Byte>)

  type FixMode = (seq<Byte>, Word) -> Word

  /** What is stored for a node; readlink cuts a long target off. */
  function Content(node: Node): seq<Byte> {
    match node
    case File(_, data) => data
    case Link(_, target) => if |target| <= LINK_MAX then target else target[..LINK_MAX]
    case _ => []
  }

  /** The node, and all that is archived below it, can be stored: nothing but files that one read()
      returns, directories and links. */
  predicate Supported(node: Node) {
    match node
    case File(_, data) => |data| <= READ_MAX
    case Dir(_, entries) =>
      forall i :: 0 <= i < |entries| && Kept(entries[i].name) ==> Supported(entries[i].node)
    case Link(_, _) => true
    case Other(_) => false
  }

  function SubLength(olen: nat, name: Name): nat {
    if olen == 0 then |name| else olen + 1 + |name|
  }

  /** Every path below, with its NUL, has room in the path buffer. */
  predicate PathsFit(olen: nat, node: Node)
    decreases node
  {
    olen < PATH_MAX &&
    (node.Dir? ==>
       forall i :: 0 <= i < |node.entries| && Kept(node.entries[i].name) ==>
         PathsFit(SubLength(olen, node.entries[i].name), node.entries[i].node))
  }

  /** The path of an entry of the directory `path`. */
  function Sub(path: seq<Byte>, name: Name): (r: seq<Byte>)
    ensures |r| == SubLength(|path|, name)
    ensures 0 !in path ==> 0 !in r
  {
    if path == [] then name else path + [SLASH] + name
  }

  /** What is archived for a node, and for the given names of a directory. */
  function Records(path: seq<Byte>, node: Node): seq<Record>
    decreases node, 1, 0
  {
    [Record(path, node.mode, Content(node))] + if node.Dir? then Below(path, node, Names(node)) else []
  }

  function Below(path: seq<Byte>, dir: Node, names: seq<Name>): seq<Record>
    requires AllIn(dir, names)
    decreases dir, 0, |names|
  {
    if names == [] then []
    else Records(Sub(path, names[0]), Get(dir, names[0])) + Below(path, dir, names[1..])
  }

  lemma {:induction false} BelowAppend(path: seq<Byte>, dir: Node, names: seq<Name>, name: Name)
    requires AllIn(dir, names) && Has(dir, name)
    ensures Below(path, dir, names + [name]) == Below(path, dir, names) + Records(Sub(path, name), Get(dir, name))
  {
    if names == [] {
      assert Below(path, dir, [name]) == Records(Sub(path, name), Get(dir, name)) + Below(path, dir, []);
    } else {
      assert (names + [name])[1..] == names[1..] + [name];
      BelowAppend(path, dir, names[1..], name);
    }
  }

  // The state of the writer.

  datatype Archive = Archive(bytes: seq<Byte>, inode: Word)

  function Stamp(record: Record, inode: Word, fix: FixMode): Entry {
    Entry(inode, fix(record.path, record.mode), record.path, record.data)
  }

  function Add(a: Archive, record: Record, fix: FixMode): Archive {
    Archive(Emit(a.bytes, Stamp(record, a.inode, fix)), Wrap32(a.inode + 1))
  }

  function Write(a: Archive, records: seq<Record>, fix: FixMode): Archive
    decreases records
  {
    if records == [] then a else Write(Add(a, records[0], fix), records[1..], fix)
  }

  lemma {:induction false} WriteConcat(a: Archive, x: seq<Record>, y: seq<Record>, fix: FixMode)
    ensures Write(a, x + y, fix) == Write(Write(a, x, fix), y, fix)
    decreases x
  {
    if x == [] {
      assert x + y == y;
    } else {
      assert (x + y)[0] == x[0] && (x + y)[1..] == x[1..] + y;
      WriteConcat(Add(a, x[0], fix), x[1..], y, fix);
    }
  }

  /** Strlen, memcpy and the rest see a C string of length n. */
  ghost predicate CString(buffer: seq<Byte>, n: nat) {
    n < |buffer| && buffer[n] == 0 && 0 !in buffer[..n]
  }

  class Archiver {
    var stdout: seq<Byte>
    var totalSize: nat
    var nextInode: Word
    const out: array<Byte>
    const fix: FixMode

    ghost predicate Valid()
      reads this
    {
      totalSize == |stdout| && out.Length == PATH_MAX
    }

    ghost function State(): Archive
      reads this
    {
      Archive(stdout, nextInode)
    }

    constructor (fix: FixMode)
      ensures Valid() && State() == Archive([], FIRST_INODE) && fresh(out) && this.fix == fix
    {
      stdout, totalSize, nextInode := [], 0, FIRST_INODE;
      out := new Byte[PATH_MAX];
      this.fix := fix;
    }

    method Pad(unit: nat)
      requires Valid() && IsUnit(unit)
      modifies this
      ensures Valid() && nextInode == old(nextInode)
      ensures stdout == Padded(old(stdout), unit)
    {
      ghost var goal := Up(totalSize, unit);
      while totalSize % unit != 0
        invariant totalSize == |stdout| <= goal
        invariant nextInode == old(nextInode)
        invariant stdout == old(stdout) + Zeros(totalSize - |old(stdout)|)
        decreases goal - totalSize
      {
        StillBelow(old(totalSize), totalSize, unit);
        totalSize := totalSize + 1;
        stdout := stdout + [0];
      }
      AtMultiple(old(totalSize), totalSize, unit);
    }

    /** strlen(out). */
    method PathLength(ghost k: nat) returns (n: nat)
      requires CString(out[..], k)
      ensures n == k
    {
      n := 0;
      while out[n] != 0
        invariant n <= k
        decreases k - n
      {
        assert n != k;
        n := n + 1;
      }
    }

    /** _eject: the name is in the path buffer. Its length is as announced, so that the check for it
        does not stop the program. */
    method Eject(olen: nat, mode: Word, data: seq<Byte>)
      requires Valid() && CString(out[..], olen)
      modifies this
      ensures Valid() && State() == Add(old(State()), Record(out[..olen], mode, data), fix)
    {
      Pad(4);
      var n := PathLength(olen);
      var e := Entry(nextInode, fix(out[..n], mode), out[..n], data);
      nextInode := Wrap32(nextInode + 1);
      stdout := stdout + Header(e) + (out[..n] + [0]);
      totalSize := totalSize + 6 + 8 * 13 + olen + 1;
      assert n == olen;
      Pad(4);
      stdout, totalSize := stdout + data, totalSize + |data|;
    }

    method EjectTrailer()
      requires Valid()
      modifies this, out
      ensures Valid() && |stdout| % 256 == 0
      ensures stdout == Padded(Add(old(State()), Record(TRAILER, 0, []), fix).bytes, 256)
    {
      Memcpy(out, 0, TRAILER + [0]);
      assert out[..][..10] == TRAILER && out[10] == 0;
      Eject(10, 0, []);
      Pad(256);
    }

    /** Appends a name to the path in the buffer. */
    method EnterName(olen: nat, name: Name) returns (n: nat)
      requires out.Length == PATH_MAX && CString(out[..], olen) && SubLength(olen, name) < PATH_MAX
      modifies out
      ensures n == SubLength(olen, name) >= olen && CString(out[..], n)
      ensures out[..n] == Sub(old(out[..olen]), name) && out[..olen] == old(out[..olen])
    {
      ghost var path := out[..olen];
      if olen > 0 {
        out[olen] := SLASH;
        Memcpy(out, olen + 1, name + [0]);
        n := olen + 1 + |name|;
        EnterLayout(out[..], path, name);
      } else {
        Memcpy(out, 0, name + [0]);
        n := |name|;
        assert out[..][..n] == name && out[..][n] == 0;
      }
    }

    /** _archive. The result is false where the source stops with an error message. */
    method ArchiveNode(olen: nat, node: Node) returns (ok: bool)
      requires Valid() && CString(out[..], olen) && PathsFit(olen, node) && Proper(node)
      modifies this, out
      ensures Valid() && ok == Supported(node)
      ensures CString(out[..], olen) && out[..olen] == old(out[..olen])
      ensures ok ==> State() == Write(old(State()), Records(old(out[..olen]), node), fix)
      decreases node, 3
    {
      ghost var path, before := out[..olen], State();
      ghost var first := Record(path, node.mode, Content(node));
      match node
      case File(mode, data) =>
        if |data| > READ_MAX {
          return false;
        }
        Eject(olen, mode, data);
        WriteRecords(before, path, node, fix);
        return true;
      case Dir(mode, entries) =>
        Eject(olen, mode, []);
        ok := ArchiveDir(olen, node);
        WriteRecords(before, path, node, fix);
      case Link(mode, target) =>
        Eject(olen, mode, if |target| <= LINK_MAX then target else target[..LINK_MAX]);
        WriteRecords(before, path, node, fix);
        return true;
      case Other(_) =>
        return false;
    }

    method ArchiveChild(olen: nat, dir: Node, name: Name) returns (ok: bool)
      requires Has(dir, name) && Valid() && CString(out[..], olen) && PathsFit(olen, dir) && Proper(dir)
      modifies this, out
      ensures Valid() && ok == Supported(Get(dir, name))
      ensures CString(out[..], olen) && out[..olen] == old(out[..olen])
      ensures ok ==> State() == Write(old(State()), Records(Sub(old(out[..olen]), name), Get(dir, name)), fix)
      decreases dir, 0
    {
      ghost var path := out[..olen];
      ChildFits(olen, dir, name);
      var n := EnterName(olen, name);
      ok := ArchiveNode(n, Get(dir, name));
      Restored(out[..], path, name);
      out[olen] := 0;
      assert out[..olen] == path;
    }

    /** _archive_dir. The path buffer ends up as it was. */
    method ArchiveDir(olen: nat, dir: Node) returns (ok: bool)
      requires dir.Dir? && Valid() && CString(out[..], olen) && PathsFit(olen, dir) && Proper(dir)
      modifies this, out
      ensures Valid() && ok == Supported(dir)
      ensures CString(out[..], olen) && out[..olen] == old(out[..olen])
      ensures ok ==> State() == Write(old(State()), Below(old(out[..olen]), dir, Names(dir)), fix)
      decreases dir, 2
    {
      var kept := CollectNames(dir.entries);
      var names := Sort(kept);
      assert names == Names(dir);
      ok := ArchiveNames(olen, dir, names);
      SupportedByName(dir, names);
    }

    method ArchiveNames(olen: nat, dir: Node, names: seq<Name>) returns (ok: bool)
      requires dir.Dir? && AllIn(dir, names)
      requires Valid() && CString(out[..], olen) && PathsFit(olen, dir) && Proper(dir)
      modifies this, out
      ensures Valid() && ok == AllSupported(dir, names)
      ensures CString(out[..], olen) && out[..olen] == old(out[..olen])
      ensures ok ==> State() == Write(old(State()), Below(old(out[..olen]), dir, names), fix)
      decreases dir, 1
    {
      ghost var path, before := out[..olen], State();
      for i := 0 to |names|
        invariant Valid() && CString(out[..], olen) && out[..olen] == path
        invariant AllSupported(dir, names[..i])
        invariant State() == Write(before, Below(path, dir, names[..i]), fix)
      {
        var childOk := ArchiveChild(olen, dir, names[i]);
        if !childOk {
          return false;
        }
        SupportedStep(dir, names, i);
        BelowStep(before, path, dir, names, i, fix);
      }
      assert names[..|names|] == names;
      ok := true;
    }
  }

  /** The readdir loop. */
  method CollectNames(entries: seq<Child>) returns (names: seq<Name>)
    ensures names == KeptNames(entries)
  {
    names := [];
    assert entries[0..] == entries;
    for i := 0 to |entries|
      invariant names + KeptNames(entries[i..]) == KeptNames(entries)
    {
      assert entries[i..][1..] == entries[i + 1..];
      if Kept(entries[i].name) {
        names := names + [entries[i].name];
      }
    }
  }

  lemma EnterLayout(buffer: seq<Byte>, path: seq<Byte>, name: Name)
    requires path != [] && 0 !in path && |path| + 1 + |name| < |buffer|
    requires path + [SLASH] <= buffer && buffer[|path| + 1..|path| + 2 + |name|] == name + [0]
    ensures CString(buffer, |path| + 1 + |name|) && buffer[..|path| + 1 + |name|] == path + [SLASH] + name
    ensures buffer[..|path|] == path
  {
  }

  /** A path that was entered begins with the directory's. */
  lemma Restored(buffer: seq<Byte>, path: seq<Byte>, name: Name)
    requires |path| <= SubLength(|path|, name) <= |buffer| && buffer[..SubLength(|path|, name)] == Sub(path, name)
    ensures buffer[..|path|] == path
  {
    assert buffer[..|path|] == buffer[..SubLength(|path|, name)][..|path|];
  }

  lemma ChildFits(olen: nat, dir: Node, name: Name)
    requires Has(dir, name) && PathsFit(olen, dir) && Proper(dir)
    ensures PathsFit(SubLength(olen, name), Get(dir, name)) && Proper(Get(dir, name))
  {
    var i := At(dir.entries, name);
    assert dir.entries[i].name == name;
  }

  predicate AllSupported(dir: Node, names: seq<Name>)
    requires AllIn(dir, names)
  {
    forall k :: 0 <= k < |names| ==> Supported(Get(dir, names[k]))
  }

  lemma SupportedStep(dir: Node, names: seq<Name>, i: nat)
    requires i < |names| && AllIn(dir, names) && AllSupported(dir, names[..i]) && Supported(Get(dir, names[i]))
    ensures AllIn(dir, names[..i + 1]) && AllSupported(dir, names[..i + 1])
  {
    var upTo := names[..i + 1];
    forall k | 0 <= k < |upTo|
      ensures Supported(Get(dir, upTo[k]))
    {
      if k < i {
        assert upTo[k] == names[..i][k];
      }
    }
  }

  lemma SupportedByName(dir: Node, names: seq<Name>)
    requires dir.Dir? && Proper(dir) && names == Names(dir)
    ensures AllSupported(dir, names) <==> Supported(dir)
  {
    var entries := dir.entries;
    if AllSupported(dir, names) {
      forall i | 0 <= i < |entries| && Kept(entries[i].name)
        ensures Supported(entries[i].node)
      {
        var name := entries[i].name;
        assert At(entries, name) == i;
        assert Has(dir, name) && name in names;
        var k :| 0 <= k < |names| && names[k] == name;
        assert Get(dir, names[k]) == entries[i].node;
      }
    } else {
      var k :| 0 <= k < |names| && !Supported(Get(dir, names[k]));
      var i := At(entries, names[k]);
      assert names[k] in names;
      assert Kept(entries[i].name) && !Supported(entries[i].node);
    }
  }

  lemma BelowStep(before: Archive, path: seq<Byte>, dir: Node, names: seq<Name>, i: nat, fix: FixMode)
    requires i < |names| && AllIn(dir, names)
    ensures AllIn(dir, names[..i + 1])
    ensures Write(before, Below(path, dir, names[..i + 1]), fix)
         == Write(Write(before, Below(path, dir, names[..i]), fix), Records(Sub(path, names[i]), Get(dir, names[i])), fix)
  {
    assert names[..i + 1] == names[..i] + [names[i]];
    BelowAppend(path, dir, names[..i], names[i]);
    WriteConcat(before, Below(path, dir, names[..i]), Records(Sub(path, names[i]), Get(dir, names[i])), fix);
  }

  lemma WriteRecords(a: Archive, path: seq<Byte>, node: Node, fix: FixMode)
    ensures var first := Add(a, Record(path, node.mode, Content(node)), fix);
            Write(a, Records(path, node), fix)
            == if node.Dir? then Write(first, Below(path, node, Names(node)), fix) else first
  {
    var record := Record(path, node.mode, Content(node));
    assert Records(path, node)[0] == record;
    assert Records(path, node)[1..] == if node.Dir? then Below(path, node, Names(node)) else [];
  }

  lemma StillBelow(from: nat, n: nat, unit: nat)
    requires IsUnit(unit) && from <= n <= Up(from, unit) && n % unit != 0
    ensures n < Up(from, unit)
  {
  }

  lemma AtMultiple(from: nat, n: nat, unit: nat)
    requires IsUnit(unit) && from <= n <= Up(from, unit) && n % unit == 0
    ensures n == Up(from, unit)
  {
  }
}
