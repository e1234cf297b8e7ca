/** Stable insertion sort on a two-part key, compared lexicographically: the model of both
    the store's `ORDER BY` and Python's `list.sort(key=...)` with a tuple key. */
module Sorting {
  import opened Seqs

  type Key = (int, int)

  /** Lexicographic order on keys: a total preorder. */
  predicate KeyLe(a: Key, b: Key) {
    a.0 < b.0 || (a.0 == b.0 && a.1 <= b.1)
  }

  predicate SortedBy<T>(s: seq<T>, key: T -> Key) {
    forall i, j :: 0 <= i < j < |s| ==> KeyLe(key(s[i]), key(s[j]))
  }

  /** Inserts `x` in front of the first element whose key is not smaller than its own, which
      keeps `x` ahead of the equal-keyed elements that came after it in the input. */
  function Insert<T(==,!new)>(x: T, s: seq<T>, key: T -> Key): (r: seq<T>)
    requires SortedBy(s, key)
    ensures SortedBy(r, key)
    ensures multiset(r) == multiset(s) + multiset{x}
    ensures forall y :: y in r <==> y == x || y in s
  {
    if s == [] || KeyLe(key(x), key(s[0])) then [x] + s
    else
      var rest := Insert(x, s[1..], key);
      assert s == [s[0]] + s[1..];
      assert forall k :: 0 <= k < |rest| ==> KeyLe(key(s[0]), key(rest[k])) by {
        forall k | 0 <= k < |rest|
          ensures KeyLe(key(s[0]), key(rest[k]))
        {
          assert rest[k] in rest;
        }
      }
      assert multiset([s[0]] + rest) == multiset{s[0]} + multiset(rest);
      [s[0]] + rest
  }

  /** The elements of `s` reordered by ascending key. */
  function SortBy<T(==,!new)>(s: seq<T>, key: T -> Key): (r: seq<T>)
    ensures SortedBy(r, key)
    ensures multiset(r) == multiset(s)
  {
    if s == [] then []
    else
      assert s == [s[0]] + s[1..];
      Insert(s[0], SortBy(s[1..], key), key)
  }

  /** The first `n` elements of a sorted sequence are sorted, and they are its `n` smallest:
      nothing left out has a smaller key than anything kept. */
  lemma SortedPrefix<T>(s: seq<T>, key: T -> Key, n: nat)
    requires SortedBy(s, key) && n <= |s|
    ensures SortedBy(s[..n], key)
    ensures forall x, i :: x in s && x !in s[..n] && 0 <= i < n ==> KeyLe(key(s[i]), key(x))
  {
    forall x, i | x in s && x !in s[..n] && 0 <= i < n
      ensures KeyLe(key(s[i]), key(x))
    {
      assert s == s[..n] + s[n..];
      assert x in s[n..];
      var k :| 0 <= k < |s[n..]| && s[n..][k] == x;
      assert s[n + k] == x;
    }
  }

  /** The elements whose key is `k`. */
  function HasKey<T>(key: T -> Key, k: Key): T -> bool {
    (x: T) => key(x) == k
  }

  /** Inserting `x` puts it ahead of every element with the same key. */
  lemma {:induction false} InsertStable<T(!new)>(x: T, s: seq<T>, key: T -> Key, k: Key)
    requires SortedBy(s, key)
    ensures Filter(Insert(x, s, key), HasKey(key, k))
      == (if key(x) == k then [x] else []) + Filter(s, HasKey(key, k))
  {
    if s == [] || KeyLe(key(x), key(s[0])) {
      InsertInFront(x, s, key);
      FilterCons(x, s, HasKey(key, k));
    } else {
      InsertStable(x, s[1..], key, k);
      InsertBehind(x, s, key);
      FilterPast(s[0], x, Insert(x, s[1..], key), s[1..], HasKey(key, k));
    }
  }

  lemma InsertInFront<T(!new)>(x: T, s: seq<T>, key: T -> Key)
    requires SortedBy(s, key) && (s == [] || KeyLe(key(x), key(s[0])))
    ensures Insert(x, s, key) == [x] + s
  {
  }

  /** `x` goes behind a first element with a smaller key, which therefore has a different
      key. */
  lemma InsertBehind<T(!new)>(x: T, s: seq<T>, key: T -> Key)
    requires SortedBy(s, key) && s != [] && !KeyLe(key(x), key(s[0]))
    ensures Insert(x, s, key) == [s[0]] + Insert(x, s[1..], key)
    ensures s == [s[0]] + s[1..] && key(s[0]) != key(x)
  {
  }

  /** An element `y` that cannot be selected together with `x` may move past it. */
  lemma FilterPast<T(!new)>(y: T, x: T, rest: seq<T>, tail: seq<T>, keep: T -> bool)
    requires !(keep(y) && keep(x))
    requires Filter(rest, keep) == (if keep(x) then [x] else []) + Filter(tail, keep)
    ensures Filter([y] + rest, keep) == (if keep(x) then [x] else []) + Filter([y] + tail, keep)
  {
    FilterCons(y, rest, keep);
    FilterCons(y, tail, keep);
    SwapEmpty(if keep(y) then [y] else [], if keep(x) then [x] else [], Filter(tail, keep));
  }

  /** The sort is stable: the elements sharing any one key keep their input order. */
  lemma {:induction false} SortStable<T(!new)>(s: seq<T>, key: T -> Key, k: Key)
    ensures Filter(SortBy(s, key), HasKey(key, k)) == Filter(s, HasKey(key, k))
  {
    if s != [] {
      assert s == [s[0]] + s[1..];
      SortStable(s[1..], key, k);
      InsertStable(s[0], SortBy(s[1..], key), key, k);
      FilterCons(s[0], s[1..], HasKey(key, k));
    }
  }

  lemma SwapEmpty<T>(a: seq<T>, b: seq<T>, c: seq<T>)
    requires a == [] || b == []
    ensures a + (b + c) == b + (a + c)
  {
    if a == [] {
      assert a + (b + c) == b + c && a + c == c;
    } else {
      assert b + c == c && b + (a + c) == a + c;
    }
  }
}
