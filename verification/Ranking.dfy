/** `sorted(xs, key=..., reverse=True)`: descending, and stable for equal keys. */
module Ranking {

  function Insert<T>(key: T -> real, x: T, ys: seq<T>): seq<T> {
    if ys == [] || key(x) >= key(ys[0]) then [x] + ys else [ys[0]] + Insert(key, x, ys[1..])
  }

  function SortDesc<T>(key: T -> real, xs: seq<T>): seq<T> {
    if xs == [] then [] else Insert(key, xs[0], SortDesc(key, xs[1..]))
  }

  ghost predicate Descending<T>(key: T -> real, xs: seq<T>) {
    forall i, j | 0 <= i < j < |xs| :: key(xs[i]) >= key(xs[j])
  }

  /** The elements with one key, in order. */
  function WithKey<T>(key: T -> real, r: real, xs: seq<T>): seq<T> {
    if xs == [] then [] else (if key(xs[0]) == r then [xs[0]] else []) + WithKey(key, r, xs[1..])
  }

  lemma {:induction false} InsertKeeps<T>(key: T -> real, x: T, ys: seq<T>)
    ensures multiset(Insert(key, x, ys)) == multiset{x} + multiset(ys)
  {
    if !(ys == [] || key(x) >= key(ys[0])) {
      InsertKeeps(key, x, ys[1..]);
      assert ys == [ys[0]] + ys[1..];
    }
  }

  lemma {:induction false} InsertSorts<T>(key: T -> real, x: T, ys: seq<T>)
    requires Descending(key, ys)
    ensures Descending(key, Insert(key, x, ys))
  {
    if !(ys == [] || key(x) >= key(ys[0])) {
      var rest := Insert(key, x, ys[1..]);
      InsertSorts(key, x, ys[1..]);
      InsertKeeps(key, x, ys[1..]);
      forall j | 0 <= j < |rest|
        ensures key(ys[0]) >= key(rest[j])
      {
        assert rest[j] in multiset(rest);
        assert rest[j] == x || rest[j] in ys[1..];
      }
    }
  }

  lemma {:induction false} InsertIsStable<T>(key: T -> real, x: T, ys: seq<T>, r: real)
    requires Descending(key, ys)
    ensures WithKey(key, r, Insert(key, x, ys)) == WithKey(key, r, [x] + ys)
  {
    assert ([x] + ys)[1..] == ys;
    if !(ys == [] || key(x) >= key(ys[0])) {
      InsertIsStable(key, x, ys[1..], r);
      assert ([x] + ys[1..])[1..] == ys[1..];
    }
  }

  /** Descending, a permutation, and elements with equal keys keep their order. */
  lemma {:induction false} SortDescSorts<T>(key: T -> real, xs: seq<T>)
    ensures Descending(key, SortDesc(key, xs))
    ensures multiset(SortDesc(key, xs)) == multiset(xs)
    ensures |SortDesc(key, xs)| == |xs|
    ensures forall r :: WithKey(key, r, SortDesc(key, xs)) == WithKey(key, r, xs)
  {
    if xs != [] {
      var rest := SortDesc(key, xs[1..]);
      SortDescSorts(key, xs[1..]);
      InsertSorts(key, xs[0], rest);
      InsertKeeps(key, xs[0], rest);
      forall r
        ensures WithKey(key, r, SortDesc(key, xs)) == WithKey(key, r, xs)
      {
        InsertIsStable(key, xs[0], rest, r);
        assert ([xs[0]] + rest)[1..] == rest;
      }
      assert xs == [xs[0]] + xs[1..];
      assert |multiset(SortDesc(key, xs))| == |multiset(xs)|;
    }
  }

  /** A list already in descending order is left as it is. */
  lemma {:induction false} SortDescIdentity<T>(key: T -> real, xs: seq<T>)
    requires Descending(key, xs)
    ensures SortDesc(key, xs) == xs
  {
    if xs != [] {
      SortDescIdentity(key, xs[1..]);
      assert xs == [xs[0]] + xs[1..];
    }
  }

  lemma {:induction false} WithKeyMember<T>(key: T -> real, r: real, xs: seq<T>)
    ensures forall i | 0 <= i < |xs| && key(xs[i]) == r :: WithKey(key, r, xs) != []
    ensures WithKey(key, r, xs) != [] ==> exists i :: 0 <= i < |xs| && key(xs[i]) == r
  {
    if xs != [] {
      WithKeyMember(key, r, xs[1..]);
      assert forall i | 1 <= i < |xs| :: xs[i] == xs[1..][i - 1];
    }
  }

  /** Descending order and stability leave only one result. */
  lemma {:induction false} SortIsUnique<T>(key: T -> real, xs: seq<T>, ys: seq<T>)
    requires Descending(key, xs) && Descending(key, ys)
    requires forall r :: WithKey(key, r, xs) == WithKey(key, r, ys)
    ensures xs == ys
    decreases |xs|
  {
    if xs == [] || ys == [] {
      if ys != [] {
        WithKeyMember(key, key(ys[0]), ys);
      }
      if xs != [] {
        WithKeyMember(key, key(xs[0]), xs);
      }
      return;
    }
    var a, b := key(xs[0]), key(ys[0]);
    WithKeyMember(key, a, xs);
    WithKeyMember(key, b, ys);
    WithKeyMember(key, a, ys);
    WithKeyMember(key, b, xs);
    assert a == b;
    assert xs[0] == WithKey(key, a, xs)[0] == ys[0];
    forall r
      ensures WithKey(key, r, xs[1..]) == WithKey(key, r, ys[1..])
    {
      var p := if a == r then [xs[0]] else [];
      assert WithKey(key, r, xs) == p + WithKey(key, r, xs[1..]);
      assert WithKey(key, r, ys) == p + WithKey(key, r, ys[1..]);
      assert WithKey(key, r, xs[1..]) == WithKey(key, r, xs)[|p|..];
    }
    SortIsUnique(key, xs[1..], ys[1..]);
  }
}
