/**
 * `sorted(s, key=key, reverse=True)` and `list.sort(key=key, reverse=True)`:
 * Python's sort is stable even when reversed, so elements with equal keys
 * keep their input order. Modelled as insertion sort.
 */
module StableSort {

  /** `le` is a total preorder on keys. */
  ghost predicate TotalPreorder<K(!new)>(le: (K, K) -> bool)
  {
    (forall a, b :: le(a, b) || le(b, a))
    && (forall a, b, c :: le(a, b) && le(b, c) ==> le(a, c))
  }

  /** Keys are non-increasing along the sequence. */
  ghost predicate SortedDesc<T, K>(s: seq<T>, key: T -> K, le: (K, K) -> bool)
  {
    forall i, j :: 0 <= i < j < |s| ==> le(key(s[j]), key(s[i]))
  }

  /** Inserts x after every element whose key is at least x's key. */
  function Insert<T, K>(x: T, s: seq<T>, key: T -> K, le: (K, K) -> bool): (r: seq<T>)
    ensures multiset(r) == multiset(s) + multiset{x}
  {
    if s == [] then [x]
    else if le(key(x), key(s[0])) then
      assert s == [s[0]] + s[1..];
      [s[0]] + Insert(x, s[1..], key, le)
    else [x] + s
  }

  /** Stable descending sort by key. */
  function SortDesc<T, K>(s: seq<T>, key: T -> K, le: (K, K) -> bool): (r: seq<T>)
    ensures multiset(r) == multiset(s)
  {
    if s == [] then []
    else
      assert s == s[..|s| - 1] + [s[|s| - 1]];
      Insert(s[|s| - 1], SortDesc(s[..|s| - 1], key, le), key, le)
  }

  /** The elements whose key is c, in order. */
  function WithKey<T, K(==)>(s: seq<T>, key: T -> K, c: K): seq<T>
  {
    if s == [] then []
    else (if key(s[0]) == c then [s[0]] else []) + WithKey(s[1..], key, c)
  }

  /** The elements satisfying p, in order (a list comprehension with an `if`). */
  function Filter<T>(s: seq<T>, p: T -> bool): (r: seq<T>)
    ensures |r| <= |s|
  {
    if s == [] then []
    else (if p(s[0]) then [s[0]] else []) + Filter(s[1..], p)
  }

  /** `[f(x) for x in s]` keeping only the results that pass `keep`, in order; built from the end. */
  function MapFilter<T, U>(s: seq<T>, f: T -> U, keep: U -> bool): (r: seq<U>)
    ensures |r| <= |s|
    ensures forall i :: 0 <= i < |r| ==> keep(r[i])
    decreases |s|
  {
    if s == [] then []
    else
      var y := f(s[|s| - 1]);
      MapFilter(s[..|s| - 1], f, keep) + (if keep(y) then [y] else [])
  }

  /** The results kept are exactly the images of the inputs that pass. */
  lemma {:induction false} MapFilterMember<T, U>(s: seq<T>, f: T -> U, keep: U -> bool, y: U)
    ensures y in MapFilter(s, f, keep) <==> exists i :: 0 <= i < |s| && y == f(s[i]) && keep(y)
    decreases |s|
  {
    if s != [] {
      var n := |s| - 1;
      var init := s[..n];
      MapFilterMember(init, f, keep, y);
      assert forall i :: 0 <= i < |init| ==> init[i] == s[i];
      if y in MapFilter(s, f, keep) && y !in MapFilter(init, f, keep) {
        assert y == f(s[n]) && keep(y);
      }
      if exists i :: 0 <= i < |s| && y == f(s[i]) && keep(y) {
        var i :| 0 <= i < |s| && y == f(s[i]) && keep(y);
        if i < n {
          assert y in MapFilter(init, f, keep);
        }
      }
    }
  }

  lemma {:induction false} WithKeyAppend<T, K>(a: seq<T>, b: seq<T>, key: T -> K, c: K)
    ensures WithKey(a + b, key, c) == WithKey(a, key, c) + WithKey(b, key, c)
    decreases |a|
  {
    if a == [] {
      assert a + b == b;
    } else {
      WithKeyAppend(a[1..], b, key, c);
      assert (a + b)[1..] == a[1..] + b;
    }
  }

  lemma {:induction false} WithKeyNone<T, K>(s: seq<T>, key: T -> K, c: K)
    requires forall i :: 0 <= i < |s| ==> key(s[i]) != c
    ensures WithKey(s, key, c) == []
    decreases |s|
  {
    if s != [] {
      WithKeyNone(s[1..], key, c);
    }
  }

  lemma {:induction false} InsertSorted<T, K(!new)>(x: T, s: seq<T>, key: T -> K, le: (K, K) -> bool)
    requires TotalPreorder(le)
    requires SortedDesc(s, key, le)
    ensures SortedDesc(Insert(x, s, key, le), key, le)
    decreases |s|
  {
    if s != [] && le(key(x), key(s[0])) {
      InsertSorted(x, s[1..], key, le);
      InsertAfterHead(x, s, key, le);
    } else if s != [] {
      InsertInFront(x, s, key, le);
    }
  }

  /** x goes after the head: the head's key bounds everything behind it. */
  lemma {:induction false} InsertAfterHead<T, K>(x: T, s: seq<T>, key: T -> K, le: (K, K) -> bool)
    requires s != [] && le(key(x), key(s[0]))
    requires SortedDesc(s, key, le) && SortedDesc(Insert(x, s[1..], key, le), key, le)
    ensures SortedDesc([s[0]] + Insert(x, s[1..], key, le), key, le)
  {
    var t := Insert(x, s[1..], key, le);
    InsertBound(x, s[1..], key, le, key(s[0]));
    var r := [s[0]] + t;
    forall i, j | 0 <= i < j < |r| ensures le(key(r[j]), key(r[i])) {
      assert r[j] == t[j - 1];
      if i == 0 {
        assert le(key(t[j - 1]), key(s[0]));
      } else {
        assert r[i] == t[i - 1];
      }
    }
  }

  /** A bound on the keys of s and of x bounds the keys after the insertion. */
  lemma {:induction false} InsertBound<T, K>(x: T, s: seq<T>, key: T -> K, le: (K, K) -> bool, c: K)
    requires le(key(x), c) && forall i :: 0 <= i < |s| ==> le(key(s[i]), c)
    ensures forall i :: 0 <= i < |Insert(x, s, key, le)| ==> le(key(Insert(x, s, key, le)[i]), c)
    decreases |s|
  {
    if s != [] && le(key(x), key(s[0])) {
      assert forall i :: 0 <= i < |s[1..]| ==> s[1..][i] == s[i + 1];
      InsertBound(x, s[1..], key, le, c);
      var t := Insert(x, s[1..], key, le);
      assert Insert(x, s, key, le) == [s[0]] + t;
      assert forall i :: 1 <= i < |t| + 1 ==> ([s[0]] + t)[i] == t[i - 1];
    }
  }

  /** x goes in front: its key is above the head's, so above everything. */
  lemma {:induction false} InsertInFront<T, K(!new)>(x: T, s: seq<T>, key: T -> K, le: (K, K) -> bool)
    requires TotalPreorder(le)
    requires s != [] && !le(key(x), key(s[0])) && SortedDesc(s, key, le)
    ensures SortedDesc([x] + s, key, le)
  {
    var r := [x] + s;
    assert le(key(s[0]), key(x));
    forall i, j | 0 <= i < j < |r| ensures le(key(r[j]), key(r[i])) {
      assert r[j] == s[j - 1];
      if i == 0 {
        assert le(key(s[j - 1]), key(s[0]));
      } else {
        assert r[i] == s[i - 1];
      }
    }
  }

  /** The sort puts keys in non-increasing order. */
  lemma {:induction false} SortDescSorted<T, K(!new)>(s: seq<T>, key: T -> K, le: (K, K) -> bool)
    requires TotalPreorder(le)
    ensures SortedDesc(SortDesc(s, key, le), key, le)
    decreases |s|
  {
    if s != [] {
      SortDescSorted(s[..|s| - 1], key, le);
      InsertSorted(s[|s| - 1], SortDesc(s[..|s| - 1], key, le), key, le);
    }
  }

  /** Inserting into a sorted sequence puts x after every element with the same key. */
  lemma {:induction false} InsertWithKey<T, K(!new)>(x: T, s: seq<T>, key: T -> K, le: (K, K) -> bool, c: K)
    requires TotalPreorder(le)
    requires SortedDesc(s, key, le)
    ensures WithKey(Insert(x, s, key, le), key, c) == WithKey(s, key, c) + (if key(x) == c then [x] else [])
    decreases |s|
  {
    if s == [] {
    } else if le(key(x), key(s[0])) {
      var t := Insert(x, s[1..], key, le);
      assert Insert(x, s, key, le) == [s[0]] + t;
      assert WithKey([s[0]] + t, key, c) == WithKey([s[0]], key, c) + WithKey(t, key, c) by {
        WithKeyAppend([s[0]], t, key, c);
      }
      assert SortedDesc(s[1..], key, le);
      InsertWithKey(x, s[1..], key, le, c);
      assert WithKey(s, key, c) == WithKey([s[0]], key, c) + WithKey(s[1..], key, c) by {
        assert s == [s[0]] + s[1..];
        WithKeyAppend([s[0]], s[1..], key, c);
      }
    } else {
      assert ([x] + s)[1..] == s;
      if key(x) == c {
        forall i | 0 <= i < |s| ensures key(s[i]) != c {
          if i > 0 {
            assert le(key(s[i]), key(s[0]));
          }
        }
        WithKeyNone(s, key, c);
      }
    }
  }

  /** Stability: for every key, the elements carrying it keep their input order. */
  lemma {:induction false} SortDescStable<T, K(!new)>(s: seq<T>, key: T -> K, le: (K, K) -> bool, c: K)
    requires TotalPreorder(le)
    ensures WithKey(SortDesc(s, key, le), key, c) == WithKey(s, key, c)
    decreases |s|
  {
    if s != [] {
      var init, x := s[..|s| - 1], s[|s| - 1];
      var sorted := SortDesc(init, key, le);
      var tail := if key(x) == c then [x] else [];
      assert WithKey(SortDesc(s, key, le), key, c) == WithKey(sorted, key, c) + tail by {
        assert SortDesc(s, key, le) == Insert(x, sorted, key, le);
        SortDescSorted(init, key, le);
        InsertWithKey(x, sorted, key, le, c);
      }
      assert WithKey(sorted, key, c) == WithKey(init, key, c) by {
        SortDescStable(init, key, le, c);
      }
      assert WithKey(s, key, c) == WithKey(init, key, c) + tail by {
        assert WithKey([x], key, c) == tail by {
          assert [x][1..] == [];
        }
        assert s == init + [x];
        WithKeyAppend(init, [x], key, c);
      }
    }
  }

  /** Filtering and selecting by key commute. */
  lemma {:induction false} FilterWithKey<T, K>(s: seq<T>, p: T -> bool, key: T -> K, c: K)
    ensures WithKey(Filter(s, p), key, c) == Filter(WithKey(s, key, c), p)
    decreases |s|
  {
    if s != [] {
      FilterWithKey(s[1..], p, key, c);
      var h := if p(s[0]) then [s[0]] else [];
      WithKeyAppend(h, Filter(s[1..], p), key, c);
      var g := if key(s[0]) == c then [s[0]] else [];
      FilterAppend(g, WithKey(s[1..], key, c), p);
      if p(s[0]) {
        assert WithKey(h, key, c) == g + WithKey(h[1..], key, c);
      }
      if key(s[0]) == c {
        assert Filter(g, p) == h + Filter(g[1..], p);
      }
    }
  }

  lemma {:induction false} FilterAppend<T>(a: seq<T>, b: seq<T>, p: T -> bool)
    ensures Filter(a + b, p) == Filter(a, p) + Filter(b, p)
    decreases |a|
  {
    if a == [] {
      assert a + b == b;
    } else {
      FilterAppend(a[1..], b, p);
      var ab := a + b;
      assert ab[0] == a[0];
      assert ab[1..] == a[1..] + b;
      assert Filter(ab, p) == (if p(a[0]) then [a[0]] else []) + Filter(a[1..] + b, p);
    }
  }

  /** Filtering a prefix one element longer. */
  lemma {:induction false} FilterSnoc<T>(s: seq<T>, i: nat, p: T -> bool)
    requires i < |s|
    ensures Filter(s[..i + 1], p) == Filter(s[..i], p) + (if p(s[i]) then [s[i]] else [])
  {
    assert s[..i + 1] == s[..i] + [s[i]];
    FilterAppend(s[..i], [s[i]], p);
    assert [s[i]][1..] == [];
  }

  /** A filtered sequence keeps exactly the occurrences of the elements that pass. */
  lemma {:induction false} FilterCount<T>(s: seq<T>, p: T -> bool, x: T)
    ensures multiset(Filter(s, p))[x] == if p(x) then multiset(s)[x] else 0
    decreases |s|
  {
    if s != [] {
      FilterCount(s[1..], p, x);
      assert s == [s[0]] + s[1..];
    }
  }

  /** Every element of a filtered sequence passes the filter and comes from the input. */
  lemma {:induction false} FilterMember<T>(s: seq<T>, p: T -> bool)
    ensures forall x :: x in Filter(s, p) ==> x in s && p(x)
  {
    forall x | x in Filter(s, p) ensures x in s && p(x) {
      FilterCount(s, p, x);
      assert x in multiset(Filter(s, p));
    }
  }

  /** A filtered sequence of a sorted one is sorted. */
  lemma {:induction false} FilterSorted<T, K>(s: seq<T>, p: T -> bool, key: T -> K, le: (K, K) -> bool)
    requires SortedDesc(s, key, le)
    ensures SortedDesc(Filter(s, p), key, le)
    decreases |s|
  {
    if s != [] {
      FilterSorted(s[1..], p, key, le);
      var t := Filter(s[1..], p);
      if p(s[0]) {
        var r := [s[0]] + t;
        forall j | 0 < j < |r| ensures le(key(r[j]), key(s[0])) {
          FilterMember(s[1..], p);
          assert r[j] in s[1..];
          var m :| 0 <= m < |s[1..]| && s[1..][m] == r[j];
          assert s[1..][m] == s[m + 1];
        }
      }
    }
  }
}
