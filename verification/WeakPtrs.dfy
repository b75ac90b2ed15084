/** weak_ptr and enable_weak_from_this of adb/types.h: an object knows the weak pointers that refer to
    it, and clears them when it is destroyed. */
module WeakPtrs {
  import opened Lists

  class Weak {
    var ptr: Referent?
    constructor ()
      ensures ptr == null
    {
      ptr := null;
    }
  }

  class Referent {
    var weakPtrs: seq<Weak>
    constructor ()
      ensures weakPtrs == []
    {
      weakPtrs := [];
    }
  }

  /** std::remove: the other elements move to the front, and their end is returned. */
  method StdRemove<T(==)>(s: seq<T>, w: T) returns (r: seq<T>, end: nat)
    ensures |r| == |s| && end <= |r| && r[..end] == Without(s, w)
  {
    r, end := s, 0;
    for i := 0 to |s|
      invariant end <= i && |r| == |s|
      invariant r[..end] == Without(s[..i], w)
      invariant forall k :: i <= k < |s| ==> r[k] == s[k]
    {
      WithoutNext(s, i, w);
      if r[i] != w {
        PutAt(r, end, r[i]);
        r := r[end := r[i]];
        end := end + 1;
      }
    }
    assert s[..|s|] == s;
  }

  lemma WithoutNext<T>(s: seq<T>, i: nat, w: T)
    requires i < |s|
    ensures Without(s[..i + 1], w) == Without(s[..i], w) + if s[i] == w then [] else [s[i]]
  {
    assert s[..i + 1] == s[..i] + [s[i]];
    WithoutAppend(s[..i], s[i], w);
  }

  lemma PutAt<T>(r: seq<T>, end: nat, x: T)
    requires end < |r|
    ensures r[end := x][..end + 1] == r[..end] + [x]
  {
  }

  /** erase(remove(...)) with a single iterator: one element is erased behind the others. */
  method EraseRemove<T(==)>(s: seq<T>, w: T) returns (r: seq<T>)
    requires Once(s) && w in s
    ensures r == Without(s, w)
  {
    var moved, end := StdRemove(s, w);
    WithoutOne(s, w);
    r := moved[..end] + moved[end + 1..];
  }

  /** All weak pointers and all objects that there are. */
  class Memory {
    ghost var weaks: set<Weak>
    ghost var live: set<Referent>

    /** w.ptr is o exactly when w is on o's list, and then once; nothing refers to a dead object. */
    ghost predicate Valid()
      reads this, weaks, live
    {
      && (forall w :: w in weaks && w.ptr != null ==> w.ptr in live && w in w.ptr.weakPtrs)
      && (forall o :: o in live ==> Once(o.weakPtrs))
      && (forall o, w :: o in live && w in o.weakPtrs ==> w in weaks && w.ptr == o)
    }

    constructor ()
      ensures Valid() && weaks == {} && live == {}
    {
      weaks, live := {}, {};
    }

    method Unlink(w: Weak)
      requires Valid() && w in weaks && w.ptr != null
      modifies w, w.ptr
      ensures Valid() && w.ptr == null
      ensures old(w.ptr).weakPtrs == Without(old(w.ptr.weakPtrs), w)
    {
      var r := EraseRemove(w.ptr.weakPtrs, w);
      w.ptr.weakPtrs := r;
      w.ptr := null;
    }

    method Link(w: Weak, p: Referent)
      requires Valid() && w in weaks && w.ptr == null && p in live
      modifies w, p
      ensures Valid() && w.ptr == p
      ensures p.weakPtrs == old(p.weakPtrs) + [w]
    {
      w.ptr := p;
      p.weakPtrs := p.weakPtrs + [w];
    }

    /** weak_ptr::reset. */
    method Reset(w: Weak, p: Referent?)
      requires Valid() && w in weaks && (p != null ==> p in live)
      modifies w, w.ptr, p
      ensures Valid() && w.ptr == p
    {
      if p == w.ptr {
        return;
      }
      if w.ptr != null {
        Unlink(w);
      }
      if p != null {
        Link(w, p);
      }
    }

    /** weak_ptr(T* ptr), and weak(). */
    method Make(p: Referent?) returns (w: Weak)
      requires Valid() && (p != null ==> p in live)
      modifies this, p
      ensures Valid() && fresh(w) && weaks == old(weaks) + {w} && live == old(live) && w.ptr == p
    {
      w := new Weak();
      weaks := weaks + {w};
      Reset(w, p);
    }

    /** The copy constructor. */
    method Copy(from: Weak) returns (w: Weak)
      requires Valid() && from in weaks
      modifies this, from.ptr
      ensures Valid() && fresh(w) && weaks == old(weaks) + {w} && live == old(live) && w.ptr == from.ptr
    {
      w := Make(from.ptr);
    }

    /** The move constructor. */
    method MoveFrom(from: Weak) returns (w: Weak)
      requires Valid() && from in weaks
      modifies this, from, from.ptr
      ensures Valid() && fresh(w) && weaks == old(weaks) + {w} && live == old(live)
      ensures w.ptr == old(from.ptr) && from.ptr == null
    {
      w := Make(from.ptr);
      Reset(from, null);
    }

    method CopyAssign(w: Weak, from: Weak)
      requires Valid() && w in weaks && from in weaks
      modifies w, w.ptr, from.ptr
      ensures Valid() && w.ptr == old(from.ptr) && (w != from ==> from.ptr == old(from.ptr))
    {
      if w == from {
        return;
      }
      Reset(w, from.ptr);
    }

    method MoveAssign(w: Weak, from: Weak)
      requires Valid() && w in weaks && from in weaks
      modifies w, from, w.ptr, from.ptr
      ensures Valid() && w.ptr == old(from.ptr) && (w != from ==> from.ptr == null)
    {
      if w == from {
        return;
      }
      Reset(w, from.ptr);
      Reset(from, null);
    }

    /** ~weak_ptr. */
    method Destroy(w: Weak)
      requires Valid() && w in weaks
      modifies this, w, w.ptr
      ensures Valid() && weaks == old(weaks) - {w} && live == old(live)
    {
      Reset(w, null);
      weaks := weaks - {w};
    }

    method Create() returns (o: Referent)
      requires Valid()
      modifies this
      ensures Valid() && fresh(o) && live == old(live) + {o} && weaks == old(weaks)
    {
      o := new Referent();
      live := live + {o};
    }

    /** ~enable_weak_from_this: exactly the pointers to the object become null. */
    method Delete(o: Referent)
      requires Valid() && o in live
      modifies this, o, weaks
      ensures Valid() && live == old(live) - {o} && weaks == old(weaks)
      ensures forall w :: w in weaks ==> w.ptr == if old(w.ptr) == o then null else old(w.ptr)
    {
      var list := o.weakPtrs;
      for i := 0 to |list|
        invariant live == old(live) && weaks == old(weaks)
        invariant forall r :: r in live ==> r.weakPtrs == old(r.weakPtrs)
        invariant forall w :: w in weaks ==> w.ptr == if w in list[..i] then null else old(w.ptr)
      {
        assert list[..i + 1] == list[..i] + [list[i]];
        list[i].ptr := null;
      }
      assert list[..|list|] == list;
      o.weakPtrs := [];
      live := live - {o};
    }
  }
}
