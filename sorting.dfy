/**
 * Python's `sorted(xs, key=f)`: an ascending sort that keeps elements with equal
 * keys in their original order (a stable sort). Modelled as insertion sort, which
 * inserts each element after every element whose key is not larger.
 */
module Sorting {

  /** Ascending by key. */
  ghost predicate SortedBy<T>(s: seq<T>, key: T -> real)
  {
    forall i, j :: 0 <= i < j < |s| ==> key(s[i]) <= key(s[j])
  }

  /** The elements of `s` whose key is `k`, in the order they occur in `s`. */
  function WithKey<T>(s: seq<T>, key: T -> real, k: real): seq<T>
  {
    if |s| == 0 then []
    else WithKey(s[..|s| - 1], key, k) + (if key(s[|s| - 1]) == k then [s[|s| - 1]] else [])
  }

  /** `r` with `x` placed after every element whose key is at most `key(x)`. */
  function Insert<T>(r: seq<T>, x: T, key: T -> real): seq<T>
  {
    if |r| == 0 then [x]
    else if key(r[|r| - 1]) <= key(x) then r + [x]
    else Insert(r[..|r| - 1], x, key) + [r[|r| - 1]]
  }

  /** `sorted(s, key=key)`. */
  function SortBy<T>(s: seq<T>, key: T -> real): seq<T>
  {
    if |s| == 0 then []
    else Insert(SortBy(s[..|s| - 1], key), s[|s| - 1], key)
  }

  lemma {:induction false} WithKeyAppend<T>(a: seq<T>, b: seq<T>, key: T -> real, k: real)
    ensures WithKey(a + b, key, k) == WithKey(a, key, k) + WithKey(b, key, k)
    decreases |b|
  {
    if |b| > 0 {
      assert (a + b)[..|a + b| - 1] == a + b[..|b| - 1];
      WithKeyAppend(a, b[..|b| - 1], key, k);
    } else {
      assert a + b == a;
    }
  }

  lemma {:induction false} InsertPermutes<T>(r: seq<T>, x: T, key: T -> real)
    ensures multiset(Insert(r, x, key)) == multiset(r) + multiset{x}
    decreases |r|
  {
    if |r| > 0 && key(r[|r| - 1]) > key(x) {
      assert r == r[..|r| - 1] + [r[|r| - 1]];
      InsertPermutes(r[..|r| - 1], x, key);
    }
  }

  /** Inserting an element no larger than a bound keeps every key at most that bound. */
  lemma {:induction false} InsertBounded<T>(r: seq<T>, x: T, key: T -> real, m: real)
    requires forall i :: 0 <= i < |r| ==> key(r[i]) <= m
    requires key(x) <= m
    ensures forall i :: 0 <= i < |Insert(r, x, key)| ==> key(Insert(r, x, key)[i]) <= m
    decreases |r|
  {
    if |r| > 0 && key(r[|r| - 1]) > key(x) {
      InsertBounded(r[..|r| - 1], x, key, m);
    }
  }

  lemma {:induction false} InsertSorted<T>(r: seq<T>, x: T, key: T -> real)
    requires SortedBy(r, key)
    ensures SortedBy(Insert(r, x, key), key)
    decreases |r|
  {
    if |r| > 0 && key(r[|r| - 1]) > key(x) {
      var front, last := r[..|r| - 1], r[|r| - 1];
      assert SortedBy(front, key) by {
        forall i, j | 0 <= i < j < |front| ensures key(front[i]) <= key(front[j]) {
          assert front[i] == r[i] && front[j] == r[j];
        }
      }
      InsertSorted(front, x, key);
      forall i | 0 <= i < |front| ensures key(front[i]) <= key(last) {
        assert front[i] == r[i];
      }
      InsertBounded(front, x, key, key(last));
      var ins := Insert(front, x, key);
      assert Insert(r, x, key) == ins + [last];
      forall i, j | 0 <= i < j < |ins| + 1 ensures key((ins + [last])[i]) <= key((ins + [last])[j]) {
        if j == |ins| {
          assert (ins + [last])[i] == ins[i];
        } else {
          assert (ins + [last])[i] == ins[i] && (ins + [last])[j] == ins[j];
        }
      }
    } else if |r| > 0 {
      forall i, j | 0 <= i < j < |r| + 1 ensures key((r + [x])[i]) <= key((r + [x])[j]) {
        if j == |r| {
          assert (r + [x])[i] == r[i];
          assert key(r[i]) <= key(r[|r| - 1]);
        } else {
          assert (r + [x])[i] == r[i] && (r + [x])[j] == r[j];
        }
      }
    }
  }

  lemma {:induction false} InsertStable<T>(r: seq<T>, x: T, key: T -> real, k: real)
    ensures WithKey(Insert(r, x, key), key, k) == WithKey(r, key, k) + (if key(x) == k then [x] else [])
    decreases |r|
  {
    if |r| == 0 {
      assert WithKey([x], key, k) == WithKey([], key, k) + (if key(x) == k then [x] else []) by {
        assert [x][..0] == [];
      }
    } else if key(r[|r| - 1]) <= key(x) {
      assert Insert(r, x, key) == r + [x];
      assert (r + [x])[..|r|] == r;
      assert WithKey(r + [x], key, k) == WithKey(r, key, k) + (if key(x) == k then [x] else []);
    } else {
      var front, last := r[..|r| - 1], r[|r| - 1];
      InsertStable(front, x, key, k);
      var ins := Insert(front, x, key);
      assert Insert(r, x, key) == ins + [last];
      assert (ins + [last])[..|ins|] == ins;
      assert WithKey(ins + [last], key, k) == WithKey(ins, key, k) + (if key(last) == k then [last] else []);
      assert WithKey(r, key, k) == WithKey(front, key, k) + (if key(last) == k then [last] else []);
    }
  }

  /**
   * The sort is ascending, is a permutation, and is stable: for every key, the
   * elements with that key appear in the same order as in the input.
   */
  lemma {:induction false} SortByCorrect<T>(s: seq<T>, key: T -> real)
    ensures SortedBy(SortBy(s, key), key)
    ensures multiset(SortBy(s, key)) == multiset(s)
    ensures |SortBy(s, key)| == |s|
    ensures forall k :: WithKey(SortBy(s, key), key, k) == WithKey(s, key, k)
  {
    if |s| > 0 {
      var front := s[..|s| - 1];
      assert s == front + [s[|s| - 1]];
      var x := s[|s| - 1];
      SortByCorrect(front, key);
      InsertSorted(SortBy(front, key), x, key);
      InsertPermutes(SortBy(front, key), x, key);
      assert |SortBy(s, key)| == |multiset(SortBy(s, key))|;
      forall k ensures WithKey(SortBy(s, key), key, k) == WithKey(s, key, k) {
        InsertStable(SortBy(front, key), x, key, k);
      }
    }
  }
}
