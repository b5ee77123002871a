/** A stable sort by an integer key: `Array.prototype.sort` with the comparator
    `(a, b) => key(a) - key(b)`, which section 23.1.3.30 of ECMA-262 (2019 and later)
    requires to be stable. */
module StableSort {
  import opened Seqs

  predicate SortedBy<T>(s: seq<T>, key: T -> int)
  {
    forall i, j | 0 <= i < j < |s| :: key(s[i]) <= key(s[j])
  }

  function KeyIs<T>(key: T -> int, k: int): T -> bool
  {
    x => key(x) == k
  }

  /** The elements whose key is `k`, in order. */
  function WithKey<T>(s: seq<T>, key: T -> int, k: int): seq<T>
  {
    Filter(s, KeyIs(key, k))
  }

  /** `r` is what a stable sort of `s` by `key` returns: sorted, and the elements of each key
      keep their relative order. */
  ghost predicate IsStableSortOf<T>(r: seq<T>, s: seq<T>, key: T -> int)
  {
    SortedBy(r, key) && forall k :: WithKey(r, key, k) == WithKey(s, key, k)
  }

  /** Places `x` after every element whose key is not greater than its own. */
  function Insert<T>(r: seq<T>, x: T, key: T -> int): seq<T>
  {
    if |r| == 0 then [x]
    else if key(r[0]) > key(x) then [x] + r
    else [r[0]] + Insert(r[1..], x, key)
  }

  /** Insertion sort, inserting the elements from first to last. */
  function SortBy<T>(s: seq<T>, key: T -> int): seq<T>
  {
    if |s| == 0 then [] else Insert(SortBy(s[..|s| - 1], key), s[|s| - 1], key)
  }

  lemma WithKeyCons<T>(x: T, r: seq<T>, key: T -> int, k: int)
    ensures WithKey([x] + r, key, k) == (if key(x) == k then [x] else []) + WithKey(r, key, k)
  {
    FilterAppend([x], r, KeyIs(key, k));
    assert [x][..0] == [];
  }

  lemma InsertSorted<T>(r: seq<T>, x: T, key: T -> int)
    requires SortedBy(r, key)
    ensures SortedBy(Insert(r, x, key), key)
    ensures multiset(Insert(r, x, key)) == multiset(r) + multiset{x}
    ensures |Insert(r, x, key)| == |r| + 1
  {
    InsertStaysSorted(r, x, key);
    InsertCount(r, x, key);
  }

  lemma {:induction false} InsertCount<T>(r: seq<T>, x: T, key: T -> int)
    ensures multiset(Insert(r, x, key)) == multiset(r) + multiset{x}
    ensures |Insert(r, x, key)| == |r| + 1
    decreases |r|
  {
    if |r| > 0 && key(r[0]) <= key(x) {
      InsertCount(r[1..], x, key);
      assert r == [r[0]] + r[1..];
    }
  }

  /** Inserting an element whose key is at least `lo` into elements whose keys are at least
      `lo` keeps every key at least `lo`. */
  lemma {:induction false} InsertKeysAbove<T>(r: seq<T>, x: T, key: T -> int, lo: int)
    requires forall i | 0 <= i < |r| :: lo <= key(r[i])
    requires lo <= key(x)
    ensures forall j | 0 <= j < |Insert(r, x, key)| :: lo <= key(Insert(r, x, key)[j])
    decreases |r|
  {
    if |r| > 0 && key(r[0]) <= key(x) {
      InsertKeysAbove(r[1..], x, key, lo);
      var ins := Insert(r[1..], x, key);
      assert Insert(r, x, key) == [r[0]] + ins;
    }
  }

  lemma {:induction false} InsertStaysSorted<T>(r: seq<T>, x: T, key: T -> int)
    requires SortedBy(r, key)
    ensures SortedBy(Insert(r, x, key), key)
    decreases |r|
  {
    if |r| > 0 && key(r[0]) <= key(x) {
      var rest := r[1..];
      assert SortedBy(rest, key);
      InsertStaysSorted(rest, x, key);
      InsertKeysAbove(rest, x, key, key(r[0]));
      var ins := Insert(rest, x, key);
      assert Insert(r, x, key) == [r[0]] + ins;
    }
  }

  lemma {:induction false} WithKeyNone<T>(r: seq<T>, key: T -> int, k: int)
    requires forall i | 0 <= i < |r| :: key(r[i]) != k
    ensures WithKey(r, key, k) == []
    decreases |r|
  {
    if |r| > 0 {
      WithKeyNone(r[..|r| - 1], key, k);
      assert !KeyIs(key, k)(r[|r| - 1]);
    }
  }

  lemma {:induction false} InsertWithKey<T>(r: seq<T>, x: T, key: T -> int, k: int)
    requires SortedBy(r, key)
    ensures WithKey(Insert(r, x, key), key, k) == WithKey(r, key, k) + (if key(x) == k then [x] else [])
    decreases |r|
  {
    if |r| == 0 {
      WithKeyCons(x, r, key, k);
    } else if key(r[0]) > key(x) {
      WithKeyCons(x, r, key, k);
      if key(x) == k {
        WithKeyNone(r, key, k);
      }
    } else {
      var rest := r[1..];
      assert r == [r[0]] + rest;
      assert SortedBy(rest, key);
      InsertWithKey(rest, x, key, k);
      WithKeyCons(r[0], rest, key, k);
      assert Insert(r, x, key) == [r[0]] + Insert(rest, x, key);
      WithKeyCons(r[0], Insert(rest, x, key), key, k);
    }
  }

  /** The insertion sort is a stable sort and a permutation of its input. */
  lemma SortByIsStableSort<T>(s: seq<T>, key: T -> int)
    ensures IsStableSortOf(SortBy(s, key), s, key)
    ensures multiset(SortBy(s, key)) == multiset(s)
    ensures |SortBy(s, key)| == |s|
  {
    SortByPermutes(s, key);
    SortByKeepsKeyOrder(s, key);
  }

  lemma {:induction false} SortByPermutes<T>(s: seq<T>, key: T -> int)
    ensures SortedBy(SortBy(s, key), key)
    ensures multiset(SortBy(s, key)) == multiset(s)
    ensures |SortBy(s, key)| == |s|
    decreases |s|
  {
    if |s| > 0 {
      var init := s[..|s| - 1];
      var x := s[|s| - 1];
      SortByPermutes(init, key);
      InsertSorted(SortBy(init, key), x, key);
      assert init + [x] == s;
    }
  }

  lemma {:induction false} SortByKeepsKeyOrder<T>(s: seq<T>, key: T -> int)
    ensures forall k :: WithKey(SortBy(s, key), key, k) == WithKey(s, key, k)
    decreases |s|
  {
    if |s| > 0 {
      var init := s[..|s| - 1];
      var x := s[|s| - 1];
      SortByKeepsKeyOrder(init, key);
      SortByPermutes(init, key);
      assert init + [x] == s;
      forall k ensures WithKey(SortBy(s, key), key, k) == WithKey(s, key, k) {
        InsertWithKey(SortBy(init, key), x, key, k);
        FilterAppend(init, [x], KeyIs(key, k));
        assert [x][..0] == [];
      }
    }
  }

  lemma WithKeyHead<T>(r: seq<T>, key: T -> int)
    requires |r| > 0
    ensures WithKey(r, key, key(r[0])) == [r[0]] + WithKey(r[1..], key, key(r[0]))
  {
    assert r == [r[0]] + r[1..];
    WithKeyCons(r[0], r[1..], key, key(r[0]));
  }

  /** In a sorted sequence no element has a key below the first one's. */
  lemma MinKeyFirst<T>(a: seq<T>, key: T -> int, y: T)
    requires SortedBy(a, key) && |a| > 0 && y in a
    ensures key(a[0]) <= key(y)
  {
    var j :| 0 <= j < |a| && a[j] == y;
  }

  lemma HeadsAgree<T>(a: seq<T>, b: seq<T>, key: T -> int)
    requires SortedBy(a, key) && SortedBy(b, key) && |a| > 0 && |b| > 0
    requires forall k :: WithKey(a, key, k) == WithKey(b, key, k)
    ensures a[0] == b[0]
  {
    var ka, kb := key(a[0]), key(b[0]);
    WithKeyHead(a, key);
    WithKeyHead(b, key);
    assert WithKey(a, key, ka) == WithKey(b, key, ka);
    assert WithKey(a, key, kb) == WithKey(b, key, kb);
    assert a[0] in WithKey(b, key, ka);
    MinKeyFirst(b, key, a[0]);
    assert b[0] in WithKey(a, key, kb);
    MinKeyFirst(a, key, b[0]);
    assert ka == kb;
    assert WithKey(a, key, ka)[0] == a[0];
    assert WithKey(b, key, kb)[0] == b[0];
  }

  lemma TailsAgree<T>(a: seq<T>, b: seq<T>, key: T -> int)
    requires |a| > 0 && |b| > 0 && a[0] == b[0]
    requires forall k :: WithKey(a, key, k) == WithKey(b, key, k)
    ensures forall k :: WithKey(a[1..], key, k) == WithKey(b[1..], key, k)
  {
    var ta, tb := a[1..], b[1..];
    assert a == [a[0]] + ta && b == [b[0]] + tb;
    forall k ensures WithKey(ta, key, k) == WithKey(tb, key, k) {
      WithKeyCons(a[0], ta, key, k);
      WithKeyCons(b[0], tb, key, k);
      var h := if key(a[0]) == k then [a[0]] else [];
      assert h + WithKey(ta, key, k) == h + WithKey(tb, key, k);
      assert WithKey(ta, key, k) == (h + WithKey(ta, key, k))[|h|..];
      assert WithKey(tb, key, k) == (h + WithKey(tb, key, k))[|h|..];
    }
  }

  lemma EmptyAgree<T>(a: seq<T>, b: seq<T>, key: T -> int)
    requires |a| == 0 && |b| > 0
    ensures WithKey(a, key, key(b[0])) != WithKey(b, key, key(b[0]))
  {
    WithKeyHead(b, key);
  }

  /** A stable sort's result is unique: two sorted sequences with the same elements per key,
      in the same order, are equal. So every conforming `sort` agrees with `SortBy`. */
  lemma {:induction false} StableSortUnique<T>(a: seq<T>, b: seq<T>, key: T -> int)
    requires SortedBy(a, key) && SortedBy(b, key)
    requires forall k :: WithKey(a, key, k) == WithKey(b, key, k)
    ensures a == b
    decreases |a| + |b|
  {
    if |a| == 0 && |b| == 0 {
    } else if |a| == 0 {
      EmptyAgree(a, b, key);
    } else if |b| == 0 {
      EmptyAgree(b, a, key);
    } else {
      HeadsAgree(a, b, key);
      TailsAgree(a, b, key);
      StableSortUnique(a[1..], b[1..], key);
      assert a == [a[0]] + a[1..] && b == [b[0]] + b[1..];
    }
  }
}
