/** Lists of objects without duplicates. */
module Lists {
  predicate Once<T(==)>(s: seq<T>) {
    forall i, j :: 0 <= i < j < |s| ==> s[i] != s[j]
  }

  /** The list without w. */
  function Without<T(==)>(s: seq<T>, w: T): (r: seq<T>)
    ensures forall x :: x in r ==> x in s && x != w
    ensures forall x :: x in s && x != w ==> x in r
    ensures |r| <= |s| && (w in s ==> |r| < |s|)
    ensures Once(s) ==> Once(r)
  {
    if s == [] then []
    else
      assert s == [s[0]] + s[1..];
      assert Once(s) ==> s[0] !in s[1..];
      if s[0] == w then Without(s[1..], w) else [s[0]] + Without(s[1..], w)
  }

  lemma {:induction false} WithoutAppend<T>(s: seq<T>, x: T, w: T)
    ensures Without(s + [x], w) == if x == w then Without(s, w) else Without(s, w) + [x]
  {
    if s == [] {
      assert [x][1..] == [];
    } else {
      assert (s + [x])[1..] == s[1..] + [x];
      WithoutAppend(s[1..], x, w);
    }
  }

  lemma {:induction false} WithoutOne<T>(s: seq<T>, w: T)
    requires Once(s)
    ensures |Without(s, w)| == |s| - if w in s then 1 else 0
  {
    if s == [] {
    } else {
      assert s == [s[0]] + s[1..];
      WithoutOne(s[1..], w);
    }
  }

  /** The list without all of `gone`, as std::list::remove_if leaves it. */
  function Minus<T(==)>(s: seq<T>, gone: set<T>): (r: seq<T>)
    ensures forall x :: x in r ==> x in s && x !in gone
    ensures forall x :: x in s && x !in gone ==> x in r
    ensures Once(s) ==> Once(r)
  {
    if s == [] then []
    else
      assert s == [s[0]] + s[1..];
      assert Once(s) ==> s[0] !in s[1..];
      if s[0] in gone then Minus(s[1..], gone) else [s[0]] + Minus(s[1..], gone)
  }

  lemma {:induction false} MinusNone<T>(s: seq<T>)
    ensures Minus(s, {}) == s
  {
    if s == [] {
    } else {
      MinusNone(s[1..]);
    }
  }

  lemma {:induction false} MinusOneMore<T>(s: seq<T>, gone: set<T>, x: T)
    ensures Without(Minus(s, gone), x) == Minus(s, gone + {x})
  {
    if s == [] {
    } else {
      MinusOneMore(s[1..], gone, x);
      var rest := Minus(s[1..], gone);
      assert ([s[0]] + rest)[1..] == rest;
    }
  }

  lemma {:induction false} WithoutConcat<T>(a: seq<T>, b: seq<T>, w: T)
    ensures Without(a + b, w) == Without(a, w) + Without(b, w)
  {
    if a == [] {
      assert a + b == b;
    } else {
      assert (a + b)[1..] == a[1..] + b;
      WithoutConcat(a[1..], b, w);
    }
  }

  lemma WithoutAt<T>(s: seq<T>, i: nat)
    requires Once(s) && i < |s|
    ensures s[..i] + s[i + 1..] == Without(s, s[i])
  {
    var tail := s[i..];
    assert s == s[..i] + tail && tail[1..] == s[i + 1..] && tail[0] == s[i];
    WithoutConcat(s[..i], tail, s[i]);
    WithoutAbsent(s[..i], s[i]);
    WithoutAbsent(s[i + 1..], s[i]);
  }

  lemma {:induction false} WithoutAbsent<T>(s: seq<T>, x: T)
    requires x !in s
    ensures Without(s, x) == s
  {
    if s == [] {
    } else {
      assert s == [s[0]] + s[1..];
      WithoutAbsent(s[1..], x);
    }
  }
}
