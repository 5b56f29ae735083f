/**
 Stable sorting by an integer key: what sort.SliceStable promises, that it determines the result, and a list
 that is already in order is left as it is.
 */
module StableSort {

  ghost predicate SortedBy<T>(key: T -> int, s: seq<T>) {
    forall i, j :: 0 <= i < j < |s| ==> key(s[i]) <= key(s[j])
  }

  /** The elements with key k, in the order they occur. */
  function WithKey<T>(key: T -> int, s: seq<T>, k: int): (r: seq<T>) {
    if s == [] then [] else WithKey(key, s[..|s| - 1], k) + if key(s[|s| - 1]) == k then [s[|s| - 1]] else []
  }

  ghost predicate SameKeys<T>(key: T -> int, a: seq<T>, b: seq<T>) {
    forall k :: WithKey(key, a, k) == WithKey(key, b, k)
  }

  /** s sorted, with elements of equal key in their order of t. */
  ghost predicate StablySorts<T>(key: T -> int, t: seq<T>, s: seq<T>) {
    SortedBy(key, s) && SameKeys(key, s, t)
  }

  /** x after every element whose key is not larger. */
  function Insert<T>(key: T -> int, s: seq<T>, x: T): (r: seq<T>)
    ensures |r| == |s| + 1
  {
    if s == [] then [x]
    else if key(s[|s| - 1]) <= key(x) then s + [x]
    else Insert(key, s[..|s| - 1], x) + [s[|s| - 1]]
  }

  function Sort<T>(key: T -> int, s: seq<T>): (r: seq<T>)
    ensures |r| == |s|
  {
    if s == [] then [] else Insert(key, Sort(key, s[..|s| - 1]), s[|s| - 1])
  }

  lemma WithKeySnoc<T>(key: T -> int, s: seq<T>, x: T, k: int)
    ensures WithKey(key, s + [x], k) == WithKey(key, s, k) + if key(x) == k then [x] else []
  {
    assert (s + [x])[..|s|] == s;
  }

  lemma {:induction false} WithKeyAppend<T>(key: T -> int, s: seq<T>, t: seq<T>, k: int)
    ensures WithKey(key, s + t, k) == WithKey(key, s, k) + WithKey(key, t, k)
    decreases |t|
  {
    if t == [] {
      assert s + t == s;
    } else {
      var init, x := t[..|t| - 1], t[|t| - 1];
      assert s + t == (s + init) + [x];
      WithKeyAppend(key, s, init, k);
      WithKeySnoc(key, s + init, x, k);
    }
  }

  lemma {:induction false} WithKeyMembers<T>(key: T -> int, s: seq<T>, k: int)
    ensures forall x :: x in WithKey(key, s, k) <==> x in s && key(x) == k
    ensures multiset(WithKey(key, s, k)) <= multiset(s)
  {
    if s != [] {
      WithKeyMembers(key, s[..|s| - 1], k);
      assert s == s[..|s| - 1] + [s[|s| - 1]];
    }
  }

  lemma {:induction false} WithKeyNone<T>(key: T -> int, s: seq<T>, k: int)
    requires forall x :: x in s ==> key(x) != k
    ensures WithKey(key, s, k) == []
  {
    if s != [] {
      assert s == s[..|s| - 1] + [s[|s| - 1]];
      WithKeyNone(key, s[..|s| - 1], k);
    }
  }

  lemma {:induction false} InsertMembers<T>(key: T -> int, s: seq<T>, x: T)
    ensures multiset(Insert(key, s, x)) == multiset(s) + multiset{x}
  {
    if s != [] {
      assert s == s[..|s| - 1] + [s[|s| - 1]];
      InsertMembers(key, s[..|s| - 1], x);
    }
  }

  lemma SortedSnoc<T>(key: T -> int, s: seq<T>, x: T)
    requires SortedBy(key, s) && forall y :: y in s ==> key(y) <= key(x)
    ensures SortedBy(key, s + [x])
  {
  }

  lemma LastIsLargest<T>(key: T -> int, s: seq<T>)
    requires SortedBy(key, s) && s != []
    ensures forall y :: y in s ==> key(y) <= key(s[|s| - 1])
  {
  }

  lemma {:induction false} InsertSorted<T>(key: T -> int, s: seq<T>, x: T)
    requires SortedBy(key, s)
    ensures SortedBy(key, Insert(key, s, x))
  {
    if s != [] {
      var init, last := s[..|s| - 1], s[|s| - 1];
      LastIsLargest(key, s);
      if key(last) <= key(x) {
        SortedSnoc(key, s, x);
      } else {
        InsertSorted(key, init, x);
        InsertMembers(key, init, x);
        forall y | y in Insert(key, init, x) ensures key(y) <= key(last) {
          assert y in multiset(Insert(key, init, x));
        }
        SortedSnoc(key, Insert(key, init, x), last);
      }
    }
  }

  lemma {:induction false} InsertWithKey<T>(key: T -> int, s: seq<T>, x: T, k: int)
    ensures WithKey(key, Insert(key, s, x), k) == WithKey(key, s, k) + if key(x) == k then [x] else []
  {
    WithKeySnoc(key, s, x, k);
    if s == [] {
      assert [] + [x] == [x];
    } else if key(s[|s| - 1]) > key(x) {
      var init, last := s[..|s| - 1], s[|s| - 1];
      InsertWithKey(key, init, x, k);
      WithKeySnoc(key, Insert(key, init, x), last, k);
    }
  }

  /** Sorting is stable, and keeps every element as often as it occurs. */
  lemma {:induction false} SortIsStable<T>(key: T -> int, s: seq<T>)
    ensures StablySorts(key, s, Sort(key, s)) && multiset(Sort(key, s)) == multiset(s)
  {
    if s != [] {
      var init, x := s[..|s| - 1], s[|s| - 1];
      assert s == init + [x];
      SortIsStable(key, init);
      forall k ensures WithKey(key, Sort(key, s), k) == WithKey(key, s, k) {
        InsertWithKey(key, Sort(key, init), x, k);
        WithKeySnoc(key, init, x, k);
      }
      InsertSorted(key, Sort(key, init), x);
      InsertMembers(key, Sort(key, init), x);
    }
  }

  lemma HeadOf<T>(key: T -> int, s: seq<T>)
    requires s != []
    ensures WithKey(key, s, key(s[0])) != [] && WithKey(key, s, key(s[0]))[0] == s[0]
    ensures forall k :: WithKey(key, s, k) == (if key(s[0]) == k then [s[0]] else []) + WithKey(key, s[1..], k)
  {
    assert s == [s[0]] + s[1..];
    forall k ensures WithKey(key, s, k) == (if key(s[0]) == k then [s[0]] else []) + WithKey(key, s[1..], k) {
      WithKeyAppend(key, [s[0]], s[1..], k);
      assert [s[0]] == [] + [s[0]];
      WithKeySnoc(key, [], s[0], k);
    }
  }

  lemma FirstKey<T>(key: T -> int, a: seq<T>, b: seq<T>)
    requires SortedBy(key, b) && SameKeys(key, a, b) && a != []
    ensures b != [] && key(b[0]) <= key(a[0])
  {
    HeadOf(key, a);
    assert WithKey(key, a, key(a[0])) == WithKey(key, b, key(a[0]));
    WithKeyMembers(key, b, key(a[0]));
    assert a[0] in b;
  }

  /** Two sorted lists that agree on every key are the same list. */
  lemma {:induction false} StableUnique<T>(key: T -> int, a: seq<T>, b: seq<T>)
    requires SortedBy(key, a) && SortedBy(key, b) && SameKeys(key, a, b)
    ensures a == b
    decreases |a|
  {
    if a == [] {
      if b != [] {
        FirstKey(key, b, a);
        assert false;
      }
    } else {
      FirstKey(key, a, b);
      FirstKey(key, b, a);
      HeadOf(key, a);
      HeadOf(key, b);
      assert WithKey(key, a, key(a[0])) == WithKey(key, b, key(a[0]));
      forall k ensures WithKey(key, a[1..], k) == WithKey(key, b[1..], k) {
        assert WithKey(key, a, k) == WithKey(key, b, k);
        SameTail(if key(a[0]) == k then [a[0]] else [], WithKey(key, a[1..], k), WithKey(key, b[1..], k));
      }
      hide WithKey;
      StableUnique(key, a[1..], b[1..]);
    }
  }

  lemma SameTail<T>(h: seq<T>, s: seq<T>, t: seq<T>)
    requires h + s == h + t
    ensures s == t
  {
    assert s == (h + s)[|h|..];
    assert t == (h + t)[|h|..];
  }

  /** There is one stable sort: whatever sorts t stably is Sort(t). */
  lemma StableSortIsUnique<T>(key: T -> int, t: seq<T>, s: seq<T>)
    requires StablySorts(key, t, s)
    ensures s == Sort(key, t)
  {
    SortIsStable(key, t);
    StableUnique(key, s, Sort(key, t));
  }

  /** A list already in order needs no sorting. */
  lemma SortedStays<T>(key: T -> int, s: seq<T>)
    requires SortedBy(key, s)
    ensures Sort(key, s) == s
  {
    StableSortIsUnique(key, s, s);
  }
}
