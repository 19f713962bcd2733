/**
 Ordering by a key, largest key first, keeping the input order among equal
 keys: the behaviour of Python's stable `sorted(..., key=..., reverse=True)`.
 Written as an insertion sort; its three properties (non-increasing keys,
 same elements, equal-key elements in input order) are proved below.
 */
module Ranking {

  function Min(a: nat, b: nat): (m: nat)
    ensures m <= a && m <= b && (m == a || m == b)
  {
    if a <= b then a else b
  }

  /** Keys never increase from left to right. */
  ghost predicate NonIncreasing<T>(s: seq<T>, key: T -> int) {
    forall a, b :: 0 <= a < b < |s| ==> key(s[a]) >= key(s[b])
  }

  /** No element occurs twice. */
  ghost predicate Distinct<T>(s: seq<T>) {
    forall a, b :: 0 <= a < b < |s| ==> s[a] != s[b]
  }

  /** The elements of `s` whose key is `c`, in the order of `s`. */
  function WithKey<T>(s: seq<T>, key: T -> int, c: int): seq<T> {
    if s == [] then []
    else (if key(s[0]) == c then [s[0]] else []) + WithKey(s[1..], key, c)
  }

  /** Puts `x` in front of the first element whose key is not larger than its own. */
  function Insert<T>(x: T, s: seq<T>, key: T -> int): seq<T> {
    if s == [] || key(s[0]) <= key(x) then [x] + s
    else [s[0]] + Insert(x, s[1..], key)
  }

  lemma {:induction false} InsertElements<T>(x: T, s: seq<T>, key: T -> int)
    ensures |Insert(x, s, key)| == |s| + 1
    ensures multiset(Insert(x, s, key)) == multiset(s) + multiset{x}
  {
    if s != [] && key(s[0]) > key(x) {
      InsertElements(x, s[1..], key);
      assert s == [s[0]] + s[1..];
    }
  }

  lemma {:induction false} InsertOrdered<T>(x: T, s: seq<T>, key: T -> int)
    requires NonIncreasing(s, key)
    ensures NonIncreasing(Insert(x, s, key), key)
  {
    if s != [] && key(s[0]) > key(x) {
      InsertOrdered(x, s[1..], key);
      InsertElements(x, s[1..], key);
      var r := Insert(x, s[1..], key);
      forall b | 0 <= b < |r| ensures key(s[0]) >= key(r[b]) {
        assert r[b] in multiset(r);
        if r[b] != x {
          assert r[b] in multiset(s[1..]);
          var j :| 0 <= j < |s[1..]| && s[1..][j] == r[b];
          assert s[j + 1] == r[b];
        }
      }
    }
  }

  /** Filtering a list that starts with `y` filters `y` and then the rest. */
  lemma WithKeyCons<T>(y: T, s: seq<T>, key: T -> int, c: int)
    ensures WithKey([y] + s, key, c) == (if key(y) == c then [y] else []) + WithKey(s, key, c)
  {
    assert ([y] + s)[1..] == s;
  }

  lemma {:induction false} InsertWithKey<T>(x: T, s: seq<T>, key: T -> int, c: int)
    ensures WithKey(Insert(x, s, key), key, c) ==
            (if key(x) == c then [x] else []) + WithKey(s, key, c)
  {
    if s == [] || key(s[0]) <= key(x) {
      WithKeyCons(x, s, key, c);
    } else {
      var rest := Insert(x, s[1..], key);
      InsertWithKey(x, s[1..], key, c);
      WithKeyCons(s[0], rest, key, c);
      assert s == [s[0]] + s[1..];
      WithKeyCons(s[0], s[1..], key, c);
      if key(x) == c {
        assert key(s[0]) != c;
      }
    }
  }

  lemma {:induction false} InsertDistinct<T>(x: T, s: seq<T>, key: T -> int)
    requires Distinct(s) && x !in s
    ensures Distinct(Insert(x, s, key))
  {
    if s != [] && key(s[0]) > key(x) {
      InsertDistinct(x, s[1..], key);
      InsertElements(x, s[1..], key);
      var r := Insert(x, s[1..], key);
      forall b | 0 <= b < |r| ensures s[0] != r[b] {
        assert r[b] in multiset(r);
        if r[b] != x {
          assert r[b] in multiset(s[1..]);
          var j :| 0 <= j < |s[1..]| && s[1..][j] == r[b];
          assert s[j + 1] == r[b];
        }
      }
    }
  }

  /**
   Stable sort by descending key: the later elements are sorted first, then
   the head is inserted. The result holds exactly the input elements, and its
   keys never increase.
   */
  function SortDesc<T>(xs: seq<T>, key: T -> int): (r: seq<T>)
    ensures |r| == |xs|
    ensures multiset(r) == multiset(xs)
    ensures NonIncreasing(r, key)
  {
    if xs == [] then []
    else
      var rest := SortDesc(xs[1..], key);
      InsertElements(xs[0], rest, key);
      InsertOrdered(xs[0], rest, key);
      assert xs == [xs[0]] + xs[1..];
      Insert(xs[0], rest, key)
  }

  /** Stability: for every key, the elements with that key keep their input order. */
  lemma {:induction false} SortDescStable<T>(xs: seq<T>, key: T -> int, c: int)
    ensures WithKey(SortDesc(xs, key), key, c) == WithKey(xs, key, c)
  {
    if xs != [] {
      SortDescStable(xs[1..], key, c);
      InsertWithKey(xs[0], SortDesc(xs[1..], key), key, c);
    }
  }

  /** Sorting a list without repetitions yields a list without repetitions. */
  lemma {:induction false} SortDescDistinct<T>(xs: seq<T>, key: T -> int)
    requires Distinct(xs)
    ensures Distinct(SortDesc(xs, key))
  {
    if xs != [] {
      SortDescDistinct(xs[1..], key);
      assert xs[0] !in multiset(xs[1..]);
      assert xs[0] !in multiset(SortDesc(xs[1..], key));
      InsertDistinct(xs[0], SortDesc(xs[1..], key), key);
    }
  }

  /** Keeping a prefix of a list keeps a prefix of each key's elements. */
  lemma {:induction false} WithKeyOfPrefix<T>(s: seq<T>, m: nat, key: T -> int, c: int)
    requires m <= |s|
    ensures WithKey(s[..m], key, c) <= WithKey(s, key, c)
  {
    if m > 0 {
      WithKeyOfPrefix(s[1..], m - 1, key, c);
      assert s[..m][1..] == s[1..][..m - 1];
    }
  }
}
