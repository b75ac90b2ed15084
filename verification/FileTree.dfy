/** The file trees that cpio/mkbootfs.c archives, and the order it walks them in. */
module FileTree {
  import opened Bytes
  import opened Options
  import opened Packets

  const SLASH: Byte := 0x2f
  const DOT: Byte := 0x2e
  const ROOT: seq<Byte> := [0x72, 0x6f, 0x6f, 0x74]  // root

  /** A directory entry's name. */
  type Name = s: seq<Byte> | s != [] && 0 !in s && SLASH !in s witness [0x61]

  datatype Node =
    | File(mode: Word, data: seq<Byte>)
    | Dir(mode: Word, entries: seq<Child>)
    | Link(mode: Word, target: seq<Byte>)
    | Other(mode: Word)

  /** The entries of a directory are in the order in which readdir returns them. */
  datatype Child = Child(name: Name, node: Node)

  /** Dotfiles, and anything called "root", are skipped. */
  predicate Kept(name: Name) {
    name[0] != DOT && name != ROOT
  }

  predicate Unique(entries: seq<Child>) {
    forall i, j :: 0 <= i < j < |entries| ==> entries[i].name != entries[j].name
  }

  /** No directory has two entries of one name. */
  ghost predicate Proper(node: Node) {
    node.Dir? ==>
      && Unique(node.entries)
      && forall i :: 0 <= i < |node.entries| ==> Proper(node.entries[i].node)
  }

  /** Where a name is in a directory; the number of entries if it is not. */
  function At(entries: seq<Child>, name: Name): (i: nat)
    ensures i <= |entries|
    ensures i < |entries| ==> entries[i].name == name
    ensures forall k :: 0 <= k < i ==> entries[k].name != name
  {
    if entries == [] || entries[0].name == name then 0
    else
      var i := At(entries[1..], name) + 1;
      assert forall k :: 1 <= k < i ==> entries[k] == entries[1..][k - 1];
      i
  }

  predicate Has(node: Node, name: Name) {
    node.Dir? && Kept(name) && At(node.entries, name) < |node.entries|
  }

  function Get(node: Node, name: Name): (child: Node)
    requires Has(node, name)
  {
    node.entries[At(node.entries, name)].node
  }

  // The order of the names: strcmp.

  predicate Before(a: seq<Byte>, b: seq<Byte>) {
    b != [] && (a == [] || a[0] < b[0] || (a[0] == b[0] && Before(a[1..], b[1..])))
  }

  /** The names agree up to some byte; there the first one ends, or has the lesser byte. */
  predicate LessAt(a: seq<Byte>, b: seq<Byte>, k: nat) {
    k <= |a| && k < |b| && a[..k] == b[..k] && (k < |a| ==> a[k] < b[k])
  }

  /** What strcmp compares: the first byte that differs, where the end counts as the least. */
  lemma {:induction false} BeforeMeans(a: seq<Byte>, b: seq<Byte>)
    ensures Before(a, b) <==> exists k: nat :: LessAt(a, b, k)
  {
    if b == [] {
    } else if a == [] || a[0] < b[0] {
      assert LessAt(a, b, 0);
    } else if a[0] == b[0] {
      BeforeMeans(a[1..], b[1..]);
      if Before(a, b) {
        var k: nat :| LessAt(a[1..], b[1..], k);
        assert a[..k + 1] == [a[0]] + a[1..][..k] && b[..k + 1] == [b[0]] + b[1..][..k];
        assert LessAt(a, b, k + 1);
      }
      if k: nat :| LessAt(a, b, k) {
        assert k > 0;
        assert a[1..][..k - 1] == a[..k][1..] && b[1..][..k - 1] == b[..k][1..];
        assert LessAt(a[1..], b[1..], k - 1);
      }
    } else if k: nat :| LessAt(a, b, k) {
      assert k > 0 ==> a[..k][0] == a[0] && b[..k][0] == b[0];
    }
  }

  lemma {:induction false} BeforeIsTotal(a: seq<Byte>, b: seq<Byte>)
    ensures a != b ==> Before(a, b) || Before(b, a)
    ensures Before(a, b) ==> !Before(b, a) && a != b
  {
    if a != [] && b != [] && a[0] == b[0] {
      BeforeIsTotal(a[1..], b[1..]);
      assert a == [a[0]] + a[1..] && b == [b[0]] + b[1..];
    }
  }

  lemma {:induction false} BeforeIsTransitive(a: seq<Byte>, b: seq<Byte>, c: seq<Byte>)
    requires Before(a, b) && Before(b, c)
    ensures Before(a, c)
  {
    if a != [] && a[0] == b[0] == c[0] {
      BeforeIsTransitive(a[1..], b[1..], c[1..]);
    }
  }

  predicate Increasing(names: seq<Name>) {
    forall i, j :: 0 <= i < j < |names| ==> Before(names[i], names[j])
  }

  function Insert(name: Name, names: seq<Name>): (r: seq<Name>)
    ensures forall n :: n in r <==> n == name || n in names
  {
    if names == [] || Before(name, names[0]) then [name] + names
    else
      assert names == [names[0]] + names[1..];
      [names[0]] + Insert(name, names[1..])
  }

  lemma {:induction false} InsertIncreasing(name: Name, names: seq<Name>)
    requires Increasing(names) && name !in names
    ensures Increasing(Insert(name, names))
  {
    if names == [] {
    } else if Before(name, names[0]) {
      forall j | 0 <= j < |names|
        ensures Before(name, names[j])
      {
        if j > 0 {
          BeforeIsTransitive(name, names[0], names[j]);
        }
      }
    } else {
      var rest := Insert(name, names[1..]);
      InsertIncreasing(name, names[1..]);
      BeforeIsTotal(name, names[0]);
      forall j | 0 <= j < |rest|
        ensures Before(names[0], rest[j])
      {
        assert rest[j] in rest;
        if rest[j] != name {
          var k :| 0 <= k < |names[1..]| && names[1..][k] == rest[j];
          assert Before(names[0], names[k + 1]);
        }
      }
    }
  }

  /** qsort with strcmp. */
  function Sort(names: seq<Name>): (r: seq<Name>)
    ensures forall n :: n in r <==> n in names
  {
    if names == [] then []
    else
      assert names == [names[0]] + names[1..];
      Insert(names[0], Sort(names[1..]))
  }

  lemma {:induction false} SortIncreasing(names: seq<Name>)
    requires forall i, j :: 0 <= i < j < |names| ==> names[i] != names[j]
    ensures Increasing(Sort(names))
  {
    if names == [] {
    } else {
      SortIncreasing(names[1..]);
      InsertIncreasing(names[0], Sort(names[1..]));
    }
  }

  /** The names that the readdir loop collects. */
  function KeptNames(entries: seq<Child>): (names: seq<Name>)
    ensures forall n :: n in names <==> Kept(n) && At(entries, n) < |entries|
    ensures Unique(entries) ==> forall i, j :: 0 <= i < j < |names| ==> names[i] != names[j]
  {
    if entries == [] then []
    else
      var rest := KeptNames(entries[1..]);
      AtRest(entries);
      if Kept(entries[0].name) then [entries[0].name] + rest else rest
  }

  lemma AtRest(entries: seq<Child>)
    requires entries != []
    ensures forall n :: At(entries, n) < |entries| <==> n == entries[0].name || At(entries[1..], n) < |entries[1..]|
    ensures Unique(entries) ==> Unique(entries[1..]) && At(entries[1..], entries[0].name) == |entries[1..]|
  {
    var i := At(entries[1..], entries[0].name);
    assert i < |entries[1..]| ==> entries[i + 1].name == entries[0].name;
  }

  function Names(dir: Node): (names: seq<Name>)
    requires dir.Dir?
    ensures forall n :: n in names <==> Has(dir, n)
  {
    Sort(KeptNames(dir.entries))
  }

  // The walk: the entries of a directory, each as the list of names that leads to it.

  type Parts = seq<Name>

  function Under(name: Name, walk: seq<Parts>): (r: seq<Parts>)
    ensures |r| == |walk|
    ensures forall i :: 0 <= i < |r| ==> r[i] == [name] + walk[i]
  {
    seq(|walk|, i requires 0 <= i < |walk| => [name] + walk[i])
  }

  predicate AllIn(dir: Node, names: seq<Name>) {
    forall i :: 0 <= i < |names| ==> Has(dir, names[i])
  }

  function Walk(node: Node): seq<Parts>
    decreases node, 1, 0
  {
    if node.Dir? then WalkNames(node, Names(node)) else []
  }

  function WalkNames(dir: Node, names: seq<Name>): seq<Parts>
    requires AllIn(dir, names)
    decreases dir, 0, |names|
  {
    if names == [] then []
    else [[names[0]]] + Under(names[0], Walk(Get(dir, names[0]))) + WalkNames(dir, names[1..])
  }

  /** The node that a list of names leads to, past nothing that is skipped. */
  function Resolve(node: Node, parts: Parts): Option<Node>
    decreases parts
  {
    if parts == [] then Some(node)
    else if !Has(node, parts[0]) then None
    else Resolve(Get(node, parts[0]), parts[1..])
  }

  /** The order of a sorted depth-first walk: a directory before what is in it, siblings by name. */
  predicate PartsBefore(a: Parts, b: Parts) {
    b != [] && (a == [] || Before(a[0], b[0]) || (a[0] == b[0] && PartsBefore(a[1..], b[1..])))
  }

  predicate Ordered(walk: seq<Parts>) {
    forall i, j :: 0 <= i < j < |walk| ==> PartsBefore(walk[i], walk[j])
  }

  /** Every element begins with one of the names. */
  predicate HeadsIn(walk: seq<Parts>, names: seq<Name>) {
    forall i :: 0 <= i < |walk| ==> walk[i] != [] && walk[i][0] in names
  }

  lemma UnderOrdered(name: Name, walk: seq<Parts>)
    requires Ordered(walk) && forall i :: 0 <= i < |walk| ==> walk[i] != []
    ensures Ordered([[name]] + Under(name, walk))
  {
    var r := [[name]] + Under(name, walk);
    forall i, j | 0 <= i < j < |r|
      ensures PartsBefore(r[i], r[j])
    {
      assert r[j] == [name] + walk[j - 1] && r[j][1..] == walk[j - 1];
      if i > 0 {
        assert r[i] == [name] + walk[i - 1] && r[i][1..] == walk[i - 1];
      }
    }
  }

  lemma OrderedConcat(a: seq<Parts>, b: seq<Parts>, name: Name, names: seq<Name>)
    requires Ordered(a) && Ordered(b) && HeadsIn(a, [name]) && HeadsIn(b, names)
    requires forall n :: n in names ==> Before(name, n)
    ensures Ordered(a + b)
  {
    var r := a + b;
    forall i, j | 0 <= i < j < |r|
      ensures PartsBefore(r[i], r[j])
    {
      if i < |a| <= j {
        assert r[i] == a[i] && r[j] == b[j - |a|];
        assert a[i][0] == name && b[j - |a|][0] in names;
      }
    }
  }

  /** Strictly increasing, so in particular no entry comes twice. */
  lemma {:induction false} WalkOrdered(node: Node)
    requires Proper(node)
    ensures Ordered(Walk(node))
    ensures forall i :: 0 <= i < |Walk(node)| ==> Walk(node)[i] != []
    decreases node, 1, 0
  {
    if node.Dir? {
      SortIncreasing(KeptNames(node.entries));
      WalkNamesOrdered(node, Names(node));
    }
  }

  lemma {:induction false} WalkNamesOrdered(dir: Node, names: seq<Name>)
    requires dir.Dir? && Proper(dir) && AllIn(dir, names) && Increasing(names)
    ensures Ordered(WalkNames(dir, names)) && HeadsIn(WalkNames(dir, names), names)
    decreases dir, 0, |names|
  {
    if names == [] {
    } else {
      var name, rest := names[0], names[1..];
      var child := Get(dir, name);
      WalkOrdered(child);
      UnderOrdered(name, Walk(child));
      WalkNamesOrdered(dir, rest);
      var first := [[name]] + Under(name, Walk(child));
      assert HeadsIn(first, [name]);
      OrderedConcat(first, WalkNames(dir, rest), name, rest);
      assert names == [name] + rest;
    }
  }

  /** A name that mkbootfs passes over: it begins with a dot, or is "root". */
  predicate Hidden(name: Name) {
    name[0] == 0x2e || name == [0x72, 0x6f, 0x6f, 0x74]
  }

  /** The names lead from a node to another, entry by entry. */
  ghost predicate Leads(node: Node, parts: Parts, end: Node)
    decreases parts
  {
    if parts == [] then end == node
    else
      node.Dir? &&
      exists i :: 0 <= i < |node.entries| && node.entries[i].name == parts[0] && Leads(node.entries[i].node, parts[1..], end)
  }

  predicate NoneHidden(parts: Parts) {
    forall k :: 0 <= k < |parts| ==> !Hidden(parts[k])
  }

  lemma OnlyEntry(entries: seq<Child>, i: nat)
    requires Unique(entries) && i < |entries|
    ensures At(entries, entries[i].name) == i
  {
  }

  /** What can be reached: what names lead to of which none is hidden. */
  lemma {:induction false} ResolveMeans(node: Node, parts: Parts, end: Node)
    requires Proper(node)
    ensures Resolve(node, parts) == Some(end) <==> Leads(node, parts, end) && NoneHidden(parts)
    decreases parts
  {
    if parts == [] {
    } else {
      assert NoneHidden(parts) <==> !Hidden(parts[0]) && NoneHidden(parts[1..]) by {
        assert parts == [parts[0]] + parts[1..];
        assert forall k :: 0 <= k < |parts[1..]| ==> parts[1..][k] == parts[k + 1];
      }
      if node.Dir? {
        var i := At(node.entries, parts[0]);
        if i < |node.entries| {
          ResolveMeans(node.entries[i].node, parts[1..], end);
        }
        forall j | 0 <= j < |node.entries| && node.entries[j].name == parts[0]
          ensures j == i
        {
          OnlyEntry(node.entries, j);
        }
      }
    }
  }

  /** The walk visits exactly what is there. */
  lemma {:induction false} WalkVisits(node: Node, parts: Parts)
    ensures parts in Walk(node) <==> parts != [] && Resolve(node, parts).Some?
    decreases node, 1, 0
  {
    if node.Dir? {
      WalkNamesVisits(node, Names(node), parts);
    }
  }

  lemma {:induction false} WalkNamesVisits(dir: Node, names: seq<Name>, parts: Parts)
    requires dir.Dir? && AllIn(dir, names)
    ensures parts in WalkNames(dir, names) <==> parts != [] && parts[0] in names && Resolve(dir, parts).Some?
    decreases dir, 0, |names|
  {
    if names == [] {
    } else {
      var name, rest := names[0], names[1..];
      var walk := Walk(Get(dir, name));
      WalkNamesVisits(dir, rest, parts);
      UnderVisits(name, walk, parts);
      if parts == [] {
      } else {
        WalkVisits(Get(dir, name), parts[1..]);
      }
      assert names == [name] + rest;
    }
  }

  lemma UnderVisits(name: Name, walk: seq<Parts>, parts: Parts)
    ensures parts in [[name]] + Under(name, walk)
            <==> parts != [] && parts[0] == name && (parts[1..] == [] || parts[1..] in walk)
  {
    var r := Under(name, walk);
    if parts in r {
      var i :| 0 <= i < |r| && r[i] == parts;
      assert parts[1..] == walk[i];
    }
    if parts != [] {
      assert parts == [parts[0]] + parts[1..];
      assert parts[1..] == [] ==> parts == [parts[0]];
      assert ([[name]] + r)[0] == [name];
      if parts[0] == name && parts[1..] in walk {
        var i :| 0 <= i < |walk| && walk[i] == parts[1..];
        assert r[i] == parts;
      }
    }
  }
}
