/** A stable sort by an integer key, the contract of Python's `list.sort(key=...)`:
    the result is ordered by key and, among elements with equal keys, keeps
    their original relative order. Those two facts determine the result. */
module StableSort {

  /** Keys never decrease from left to right. */
  predicate SortedBy<T>(s: seq<T>, key: T -> int) {
    forall i, j :: 0 <= i < j < |s| ==> key(s[i]) <= key(s[j])
  }

  /** The elements of `s` whose key is `k`, in their order in `s`. */
  function WithKey<T>(s: seq<T>, key: T -> int, k: int): (r: seq<T>)
    ensures |r| <= |s|
  {
    if s == [] then []
    else if key(s[0]) == k then [s[0]] + WithKey(s[1..], key, k)
    else WithKey(s[1..], key, k)
  }

  /** `r` is a stable reordering of `s`: every key class appears in the same order. */
  ghost predicate SameKeyClasses<T>(r: seq<T>, s: seq<T>, key: T -> int) {
    forall k :: WithKey(r, key, k) == WithKey(s, key, k)
  }

  lemma WithKeyCons<T>(y: T, t: seq<T>, key: T -> int)
    ensures forall k :: WithKey([y] + t, key, k) == (if key(y) == k then [y] else []) + WithKey(t, key, k)
  {
    assert ([y] + t)[1..] == t;
  }

  /** Places `x` before the first element of `s` whose key is not smaller. */
  function Insert<T>(x: T, s: seq<T>, key: T -> int): seq<T>
  {
    if s == [] || key(x) <= key(s[0]) then [x] + s
    else [s[0]] + Insert(x, s[1..], key)
  }

  /** Inserting into a sorted sequence keeps it sorted. */
  lemma {:induction false} InsertSorted<T>(x: T, s: seq<T>, key: T -> int)
    requires SortedBy(s, key)
    ensures SortedBy(Insert(x, s, key), key)
  {
    if s != [] && key(x) > key(s[0]) {
      var rest := Insert(x, s[1..], key);
      InsertSorted(x, s[1..], key);
      InsertMultiset(x, s[1..], key);
      forall i | 0 <= i < |rest|
        ensures key(s[0]) <= key(rest[i])
      {
        assert rest[i] in multiset(rest);
        if rest[i] != x {
          assert rest[i] in multiset(s[1..]);
          var j :| 0 <= j < |s[1..]| && s[1..][j] == rest[i];
          assert s[j + 1] == rest[i];
        }
      }
    }
  }

  /** Inserting adds exactly `x`. */
  lemma {:induction false} InsertMultiset<T>(x: T, s: seq<T>, key: T -> int)
    ensures multiset(Insert(x, s, key)) == multiset(s) + multiset{x}
  {
    if s != [] && key(x) > key(s[0]) {
      InsertMultiset(x, s[1..], key);
      assert s == [s[0]] + s[1..];
    }
  }

  /** Inserting puts `x` in front of the elements that share its key and leaves every
      other key class as it was. */
  lemma {:induction false} InsertKeyClasses<T>(x: T, s: seq<T>, key: T -> int)
    ensures forall k :: WithKey(Insert(x, s, key), key, k) == (if key(x) == k then [x] else []) + WithKey(s, key, k)
  {
    if s == [] || key(x) <= key(s[0]) {
      WithKeyCons(x, s, key);
    } else {
      var rest := Insert(x, s[1..], key);
      InsertKeyClasses(x, s[1..], key);
      assert s == [s[0]] + s[1..];
      WithKeyCons(s[0], rest, key);
      WithKeyCons(s[0], s[1..], key);
    }
  }

  /** Inserting `x` into a stable sort of `t` gives a stable sort of `[x] + t`. */
  lemma InsertExtends<T>(x: T, t: seq<T>, rest: seq<T>, key: T -> int)
    requires SortedBy(rest, key)
    requires multiset(rest) == multiset(t)
    requires SameKeyClasses(rest, t, key)
    ensures SortedBy(Insert(x, rest, key), key)
    ensures multiset(Insert(x, rest, key)) == multiset([x] + t)
    ensures SameKeyClasses(Insert(x, rest, key), [x] + t, key)
  {
    InsertSorted(x, rest, key);
    InsertMultiset(x, rest, key);
    InsertKeyClasses(x, rest, key);
    WithKeyCons(x, t, key);
  }

  /** Insertion sort from the back: each element goes in front of the already sorted suffix. */
  function Sort<T>(s: seq<T>, key: T -> int): (r: seq<T>)
    ensures SortedBy(r, key)
    ensures multiset(r) == multiset(s)
    ensures SameKeyClasses(r, s, key)
  {
    if s == [] then []
    else
      var rest := Sort(s[1..], key);
      InsertExtends(s[0], s[1..], rest, key);
      assert [s[0]] + s[1..] == s;
      Insert(s[0], rest, key)
  }

  /** An element with key `k` occurs in `s` exactly when it occurs in `WithKey(s, key, k)`. */
  lemma {:induction false} InWithKey<T>(s: seq<T>, key: T -> int, k: int, x: T)
    ensures x in WithKey(s, key, k) <==> x in s && key(x) == k
  {
    if s != [] {
      InWithKey(s[1..], key, k, x);
      assert s == [s[0]] + s[1..];
    }
  }

  /** A sorted sequence is determined by its key classes: two sorted sequences with the
      same elements per key, in the same order, are equal. So `Sort` returns THE stable
      sorted order, the one Python's sort produces. */
  lemma {:induction false} StableSortUnique<T>(a: seq<T>, b: seq<T>, key: T -> int)
    requires SortedBy(a, key) && SortedBy(b, key)
    requires SameKeyClasses(a, b, key)
    ensures a == b
  {
    // A non-empty sequence has a non-empty key class, so both are empty or neither is.
    if a != [] {
      assert WithKey(a, key, key(a[0])) != [];
    }
    if b != [] {
      assert WithKey(b, key, key(b[0])) != [];
    }
    if a == [] || b == [] {
      return;
    }
    var ka, kb := key(a[0]), key(b[0]);
    assert a[0] in WithKey(b, key, ka) by {
      assert WithKey(a, key, ka) == [a[0]] + WithKey(a[1..], key, ka);
    }
    InWithKey(b, key, ka, a[0]);
    assert kb <= ka;
    assert b[0] in WithKey(a, key, kb) by {
      assert WithKey(b, key, kb) == [b[0]] + WithKey(b[1..], key, kb);
    }
    InWithKey(a, key, kb, b[0]);
    assert ka <= kb;
    assert WithKey(a, key, ka)[0] == a[0] && WithKey(b, key, ka)[0] == b[0];
    assert a[0] == b[0];
    assert a == [a[0]] + a[1..] && b == [b[0]] + b[1..];
    WithKeyCons(a[0], a[1..], key);
    WithKeyCons(b[0], b[1..], key);
    forall k
      ensures WithKey(a[1..], key, k) == WithKey(b[1..], key, k)
    {
      var head := if k == ka then [a[0]] else [];
      assert head + WithKey(a[1..], key, k) == head + WithKey(b[1..], key, k);
      assert WithKey(a[1..], key, k) == (head + WithKey(a[1..], key, k))[|head|..];
    }
    StableSortUnique(a[1..], b[1..], key);
  }

  /** Stable sorting as Python specifies it: the result is `Sort(s, key)` exactly when it
      is sorted by key and keeps the relative order of equal keys. */
  lemma SortCharacterized<T>(s: seq<T>, r: seq<T>, key: T -> int)
    ensures r == Sort(s, key) <==> SortedBy(r, key) && SameKeyClasses(r, s, key)
  {
    if SortedBy(r, key) && SameKeyClasses(r, s, key) {
      var t := Sort(s, key);
      assert SameKeyClasses(r, t, key);
      StableSortUnique(r, t, key);
    }
  }
}
