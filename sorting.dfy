/** The order-level specifications the sort stages are proved against.

    Go's sort.SliceStable runs an insertion sort on every block of twenty
    elements and merges the blocks; for a slice of up to twenty elements it is
    exactly the insertion sort below, and whenever the comparator is a strict
    weak order every stable sort yields the same result, so `InsertionSort`
    pins down what the sort stages produce.

    Comparisons go through a key: an element `x` ranks before `y` when
    `lt(key(x), key(y))`. Keys are plain values, so the order laws can be
    quantified over them even when the elements hold references. */
module Sorting {

  /** One step of insertion sort: `x` is appended to `t` and moved left past
      every trailing element it ranks before. */
  function Insert<T, K>(t: seq<T>, x: T, key: T -> K, lt: (K, K) -> bool): (r: seq<T>)
    ensures |r| == |t| + 1
    ensures multiset(r) == multiset(t) + multiset{x}
    decreases |t|
  {
    if t == [] || !lt(key(x), key(t[|t| - 1])) then t + [x]
    else
      assert t == t[..|t| - 1] + [t[|t| - 1]];
      Insert(t[..|t| - 1], x, key, lt) + [t[|t| - 1]]
  }

  /** Stable insertion sort: the elements of `s` inserted one by one, left to right. */
  function InsertionSort<T, K>(s: seq<T>, key: T -> K, lt: (K, K) -> bool): (r: seq<T>)
    ensures |r| == |s|
    ensures multiset(r) == multiset(s)
  {
    if s == [] then []
    else
      assert s == s[..|s| - 1] + [s[|s| - 1]];
      Insert(InsertionSort(s[..|s| - 1], key, lt), s[|s| - 1], key, lt)
  }

  /** An order that ranks nothing before anything leaves the sequence as it is. */
  lemma {:induction false} NeverLessKeepsOrder<T, K(!new)>(s: seq<T>, key: T -> K, lt: (K, K) -> bool)
    requires forall a, b :: !lt(a, b)
    ensures InsertionSort(s, key, lt) == s
  {
    if s != [] {
      NeverLessKeepsOrder(s[..|s| - 1], key, lt);
      assert s[..|s| - 1] + [s[|s| - 1]] == s;
    }
  }

  /** Sorting one more element of the input inserts it into the sorted prefix. */
  lemma InsertionSortPrefix<T, K>(s: seq<T>, i: nat, key: T -> K, lt: (K, K) -> bool)
    requires i < |s|
    ensures InsertionSort(s[..i + 1], key, lt) == Insert(InsertionSort(s[..i], key, lt), s[i], key, lt)
  {
    assert s[..i + 1][..i] == s[..i];
  }

  /** Where `x` lands: after the elements it does not rank before, ahead of those it passed. */
  lemma {:induction false} InsertAt<T, K>(t: seq<T>, x: T, j: nat, key: T -> K, lt: (K, K) -> bool)
    requires j <= |t|
    requires j == 0 || !lt(key(x), key(t[j - 1]))
    requires forall m :: j <= m < |t| ==> lt(key(x), key(t[m]))
    ensures Insert(t, x, key, lt) == t[..j] + [x] + t[j..]
    decreases |t|
  {
    if j == |t| {
      assert t[..j] == t && t[j..] == [];
    } else {
      var t' := t[..|t| - 1];
      InsertAt(t', x, j, key, lt);
      InsertPast(t, x, j, key, lt);
    }
  }

  /** The step of InsertAt: `x` passes the last element of `t`. */
  lemma {:induction false} InsertPast<T, K>(t: seq<T>, x: T, j: nat, key: T -> K, lt: (K, K) -> bool)
    requires j < |t|
    requires lt(key(x), key(t[|t| - 1]))
    requires Insert(t[..|t| - 1], x, key, lt) == t[..|t| - 1][..j] + [x] + t[..|t| - 1][j..]
    ensures Insert(t, x, key, lt) == t[..j] + [x] + t[j..]
  {
    var t', last := t[..|t| - 1], t[|t| - 1];
    var r := Insert(t', x, key, lt);
    assert Insert(t, x, key, lt) == r + [last];
    assert t'[..j] == t[..j];
    assert t'[j..] + [last] == t[j..];
    calc {
      r + [last];
      t[..j] + [x] + t'[j..] + [last];
      t[..j] + [x] + (t'[j..] + [last]);
    }
  }

  /** No element ranks before one to its left. */
  ghost predicate Sorted<T, K>(s: seq<T>, key: T -> K, lt: (K, K) -> bool) {
    forall k, l :: 0 <= k < l < |s| ==> !lt(key(s[l]), key(s[k]))
  }

  /** Irreflexive, transitive, and with transitive incomparability (stated as
      transitivity of "does not rank before"): the orders a stable sort is meant for. */
  ghost predicate StrictWeakOrder<K(!new)>(lt: (K, K) -> bool) {
    && (forall a :: !lt(a, a))
    && (forall a, b, c :: lt(a, b) && lt(b, c) ==> lt(a, c))
    && (forall a, b, c :: !lt(a, b) && !lt(b, c) ==> !lt(a, c))
  }

  /** Neither key ranks before the other: the sort must keep such elements in input order. */
  predicate Equiv<K>(lt: (K, K) -> bool, a: K, b: K) {
    !lt(a, b) && !lt(b, a)
  }

  lemma {:induction false} InsertSorted<T, K(!new)>(t: seq<T>, x: T, key: T -> K, lt: (K, K) -> bool)
    requires StrictWeakOrder(lt)
    requires Sorted(t, key, lt)
    ensures Sorted(Insert(t, x, key, lt), key, lt)
    decreases |t|
  {
    if t == [] || !lt(key(x), key(t[|t| - 1])) {
      var r := t + [x];
      forall k, l | 0 <= k < l < |r|
        ensures !lt(key(r[l]), key(r[k]))
      {
        if l == |t| && k < |t| - 1 {
          assert !lt(key(t[|t| - 1]), key(t[k]));
        }
      }
    } else {
      var t', last := t[..|t| - 1], t[|t| - 1];
      InsertSorted(t', x, key, lt);
      var r' := Insert(t', x, key, lt);
      var r := r' + [last];
      forall k, l | 0 <= k < l < |r|
        ensures !lt(key(r[l]), key(r[k]))
      {
        if l == |r'| {
          assert r'[k] in multiset(r');
          if r'[k] != x {
            assert r'[k] in multiset(t');
            var m :| 0 <= m < |t'| && t'[m] == r'[k];
            assert !lt(key(t[|t| - 1]), key(t[m]));
          }
        }
      }
    }
  }

  /** Insertion sort under a strict weak order yields a sorted sequence. */
  lemma {:induction false} InsertionSortSorted<T, K(!new)>(s: seq<T>, key: T -> K, lt: (K, K) -> bool)
    requires StrictWeakOrder(lt)
    ensures Sorted(InsertionSort(s, key, lt), key, lt)
  {
    if s != [] {
      InsertionSortSorted(s[..|s| - 1], key, lt);
      InsertSorted(InsertionSort(s[..|s| - 1], key, lt), s[|s| - 1], key, lt);
    }
  }

  /** The elements of `s` whose key is equivalent to `k`, in order. */
  function Filter<T, K>(s: seq<T>, key: T -> K, lt: (K, K) -> bool, k: K): seq<T> {
    if s == [] then []
    else Filter(s[..|s| - 1], key, lt, k) + (if Equiv(lt, key(s[|s| - 1]), k) then [s[|s| - 1]] else [])
  }

  lemma {:induction false} InsertStable<T, K(!new)>(t: seq<T>, x: T, key: T -> K, lt: (K, K) -> bool, k: K)
    requires StrictWeakOrder(lt)
    ensures Filter(Insert(t, x, key, lt), key, lt, k)
         == Filter(t, key, lt, k) + (if Equiv(lt, key(x), k) then [x] else [])
    decreases |t|
  {
    if t == [] || !lt(key(x), key(t[|t| - 1])) {
      assert (t + [x])[..|t|] == t;
    } else {
      var t', last := t[..|t| - 1], t[|t| - 1];
      InsertStable(t', x, key, lt, k);
      var r' := Insert(t', x, key, lt);
      assert (r' + [last])[..|r'|] == r';
    }
  }

  /** Stability: for every key, the elements equivalent to it appear in the
      output in the same order as in the input. */
  lemma {:induction false} InsertionSortStable<T, K(!new)>(s: seq<T>, key: T -> K, lt: (K, K) -> bool, k: K)
    requires StrictWeakOrder(lt)
    ensures Filter(InsertionSort(s, key, lt), key, lt, k) == Filter(s, key, lt, k)
  {
    if s != [] {
      var s' := s[..|s| - 1];
      InsertionSortStable(s', key, lt, k);
      InsertStable(InsertionSort(s', key, lt), s[|s| - 1], key, lt, k);
    }
  }

  // A comparator that can fail (Go's comparator panics): `bad(a, b)` says that
  // comparing `a` with `b` fails; it is consulted before `lt`.

  /** Does inserting `x` into the first `j` elements of `t` reach a failing
      comparison? `x` is compared with `t[j - 1]`, `t[j - 2]`, ... while it ranks
      before them. */
  function InsertPanics<T, K>(t: seq<T>, j: nat, x: T, key: T -> K, lt: (K, K) -> bool, bad: (K, K) -> bool): bool
    requires j <= |t|
    decreases j
  {
    j > 0 &&
    (bad(key(x), key(t[j - 1])) ||
     (lt(key(x), key(t[j - 1])) && InsertPanics(t, j - 1, x, key, lt, bad)))
  }

  /** Does insertion-sorting `s` reach a failing comparison? */
  function SortPanics<T, K>(s: seq<T>, key: T -> K, lt: (K, K) -> bool, bad: (K, K) -> bool): bool {
    s != [] &&
    (SortPanics(s[..|s| - 1], key, lt, bad) ||
     InsertPanics(InsertionSort(s[..|s| - 1], key, lt), |s| - 1, s[|s| - 1], key, lt, bad))
  }

  /** Passing elements `x` ranks before without a failing comparison does not
      change whether the insertion fails. */
  lemma {:induction false} InsertPanicsPast<T, K>(t: seq<T>, i: nat, j: nat, x: T, key: T -> K, lt: (K, K) -> bool, bad: (K, K) -> bool)
    requires j <= i <= |t|
    requires forall m :: j <= m < i ==> lt(key(x), key(t[m])) && !bad(key(x), key(t[m]))
    ensures InsertPanics(t, i, x, key, lt, bad) == InsertPanics(t, j, x, key, lt, bad)
    decreases i
  {
    if j < i {
      InsertPanicsPast(t, i - 1, j, x, key, lt, bad);
    }
  }

  /** Only the first `j` elements matter. */
  lemma {:induction false} InsertPanicsPrefix<T, K>(t: seq<T>, u: seq<T>, j: nat, x: T, key: T -> K, lt: (K, K) -> bool, bad: (K, K) -> bool)
    requires j <= |t| && j <= |u| && t[..j] == u[..j]
    ensures InsertPanics(t, j, x, key, lt, bad) == InsertPanics(u, j, x, key, lt, bad)
  {
    if j > 0 {
      assert t[j - 1] == t[..j][j - 1] == u[j - 1];
      assert t[..j - 1] == t[..j][..j - 1];
      assert u[..j - 1] == u[..j][..j - 1];
      InsertPanicsPrefix(t, u, j - 1, x, key, lt, bad);
    }
  }

  /** Sorting one more element fails when sorting the prefix failed or inserting
      the element does. */
  lemma SortPanicsPrefix<T, K>(s: seq<T>, i: nat, key: T -> K, lt: (K, K) -> bool, bad: (K, K) -> bool)
    requires i < |s|
    ensures SortPanics(s[..i + 1], key, lt, bad)
            == (SortPanics(s[..i], key, lt, bad)
                || InsertPanics(InsertionSort(s[..i], key, lt), i, s[i], key, lt, bad))
  {
    assert s[..i + 1][..i] == s[..i];
  }

  /** Once sorting a prefix fails, sorting the whole sequence fails. */
  lemma {:induction false} SortPanicsGrows<T, K>(s: seq<T>, n: nat, key: T -> K, lt: (K, K) -> bool, bad: (K, K) -> bool)
    requires n <= |s|
    requires SortPanics(s[..n], key, lt, bad)
    ensures SortPanics(s, key, lt, bad)
    decreases |s| - n
  {
    if n == |s| {
      assert s[..n] == s;
    } else {
      SortPanicsPrefix(s, n, key, lt, bad);
      SortPanicsGrows(s, n + 1, key, lt, bad);
    }
  }

  /** A comparator that never fails never makes the sort fail. */
  lemma {:induction false} NeverBadNeverPanics<T, K(!new)>(s: seq<T>, key: T -> K, lt: (K, K) -> bool, bad: (K, K) -> bool)
    requires forall a, b :: !bad(a, b)
    ensures !SortPanics(s, key, lt, bad)
  {
    if s != [] {
      NeverBadNeverPanics(s[..|s| - 1], key, lt, bad);
      NeverBadInsert(InsertionSort(s[..|s| - 1], key, lt), |s| - 1, s[|s| - 1], key, lt, bad);
    }
  }

  lemma {:induction false} NeverBadInsert<T, K(!new)>(t: seq<T>, j: nat, x: T, key: T -> K, lt: (K, K) -> bool, bad: (K, K) -> bool)
    requires j <= |t|
    requires forall a, b :: !bad(a, b)
    ensures !InsertPanics(t, j, x, key, lt, bad)
  {
    if j > 0 {
      NeverBadInsert(t, j - 1, x, key, lt, bad);
    }
  }

  /** A comparator that always fails makes the sort fail as soon as there are two elements. */
  lemma {:induction false} AlwaysBadPanics<T, K(!new)>(s: seq<T>, key: T -> K, lt: (K, K) -> bool, bad: (K, K) -> bool)
    requires forall a, b :: bad(a, b)
    requires |s| >= 2
    ensures SortPanics(s, key, lt, bad)
  {
    var t := InsertionSort(s[..|s| - 1], key, lt);
    assert bad(key(s[|s| - 1]), key(t[|t| - 1]));
  }

  /** The sequence read back to front. */
  function Reversed<T>(s: seq<T>): (r: seq<T>)
    ensures |r| == |s|
  {
    if s == [] then [] else [s[|s| - 1]] + Reversed(s[..|s| - 1])
  }

  lemma {:induction false} ReversedAt<T>(s: seq<T>, k: nat)
    requires k < |s|
    ensures Reversed(s)[k] == s[|s| - 1 - k]
  {
    if k > 0 {
      ReversedAt(s[..|s| - 1], k - 1);
    }
  }

  /** Reversal is self-inverse. */
  lemma {:induction false} ReversedTwice<T>(s: seq<T>)
    ensures Reversed(Reversed(s)) == s
  {
    forall k | 0 <= k < |s|
      ensures Reversed(Reversed(s))[k] == s[k]
    {
      ReversedAt(Reversed(s), k);
      ReversedAt(s, |s| - 1 - k);
    }
  }
}
