/**
 * Python's `list.sort(key=...)` for an integer-valued key: a stable sort,
 * written as insertion sort, together with what makes it the one stable
 * sort: the elements are kept, ascending by key, and the elements sharing a
 * key stay in their original order.
 */
module Stable {

  /** Puts `x` after every element whose key is at most its own. */
  function InsertBy<T>(key: T -> nat, x: T, s: seq<T>): seq<T>
  {
    if s == [] then [x]
    else if key(x) < key(s[0]) then [x] + s
    else [s[0]] + InsertBy(key, x, s[1..])
  }

  /** `s.sort(key=key)`. */
  function SortBy<T>(key: T -> nat, s: seq<T>): seq<T>
  {
    if s == [] then [] else InsertBy(key, s[|s| - 1], SortBy(key, s[..|s| - 1]))
  }

  ghost predicate SortedBy<T>(key: T -> nat, s: seq<T>)
  {
    forall i, j :: 0 <= i < j < |s| ==> key(s[i]) <= key(s[j])
  }

  /** The elements of `s` whose key is `k`, in order. */
  function WithKey<T>(key: T -> nat, s: seq<T>, k: nat): seq<T>
  {
    if s == [] then []
    else WithKey(key, s[..|s| - 1], k) + (if key(s[|s| - 1]) == k then [s[|s| - 1]] else [])
  }

  /** The sort keeps every element, orders them by key and keeps the original order within a key. */
  lemma {:induction false} SortByCorrect<T>(key: T -> nat, s: seq<T>)
    ensures multiset(SortBy(key, s)) == multiset(s)
    ensures SortedBy(key, SortBy(key, s))
    ensures forall k :: WithKey(key, SortBy(key, s), k) == WithKey(key, s, k)
  {
    if s != [] {
      var init := s[..|s| - 1];
      var x := s[|s| - 1];
      var t := SortBy(key, init);
      assert s == init + [x];
      assert SortBy(key, s) == InsertBy(key, x, t);
      SortByCorrect(key, init);
      InsertByMultiset(key, x, t);
      InsertBySorted(key, x, t);
      forall k ensures WithKey(key, SortBy(key, s), k) == WithKey(key, s, k) {
        InsertByWithKey(key, x, t, k);
        assert WithKey(key, s, k) == WithKey(key, init, k) + (if key(x) == k then [x] else []);
      }
    }
  }

  lemma {:induction false} InsertByMultiset<T>(key: T -> nat, x: T, t: seq<T>)
    ensures multiset(InsertBy(key, x, t)) == multiset(t) + multiset{x}
  {
    if t != [] && key(x) >= key(t[0]) {
      InsertByMultiset(key, x, t[1..]);
      assert t == [t[0]] + t[1..];
    }
  }

  lemma {:induction false} InsertBySorted<T>(key: T -> nat, x: T, t: seq<T>)
    requires SortedBy(key, t)
    ensures SortedBy(key, InsertBy(key, x, t))
  {
    if t != [] && key(x) >= key(t[0]) {
      var r := InsertBy(key, x, t[1..]);
      InsertBySorted(key, x, t[1..]);
      InsertByBound(key, x, t[1..], key(t[0]));
      var u := [t[0]] + r;
      assert forall j :: 0 < j < |u| ==> u[j] == r[j - 1];
    }
  }

  /** Inserting an element no smaller than a bound into elements no smaller than it keeps every key above the bound. */
  lemma {:induction false} InsertByBound<T>(key: T -> nat, x: T, t: seq<T>, b: nat)
    requires key(x) >= b && forall i :: 0 <= i < |t| ==> key(t[i]) >= b
    ensures forall i :: 0 <= i < |InsertBy(key, x, t)| ==> key(InsertBy(key, x, t)[i]) >= b
  {
    if t != [] && key(x) >= key(t[0]) {
      InsertByBound(key, x, t[1..], b);
      var r := InsertBy(key, x, t[1..]);
      assert forall j :: 0 < j < |[t[0]] + r| ==> ([t[0]] + r)[j] == r[j - 1];
    }
  }

  lemma {:induction false} InsertByWithKey<T>(key: T -> nat, x: T, t: seq<T>, k: nat)
    requires SortedBy(key, t)
    ensures WithKey(key, InsertBy(key, x, t), k) == WithKey(key, t, k) + (if key(x) == k then [x] else [])
    decreases |t|
  {
    var e := if key(x) == k then [x] else [];
    if t == [] {
      assert InsertBy(key, x, t) == [x];
      assert WithKey(key, [x], k) == WithKey(key, [], k) + e;
    } else if key(x) < key(t[0]) {
      assert InsertBy(key, x, t) == [x] + t;
      WithKeyCons(key, x, t, k);
      if key(x) == k {
        WithKeyNone(key, t, k);
      }
    } else {
      InsertByWithKey(key, x, t[1..], k);
      InsertAfterHead(key, x, t, k);
    }
  }

  /** The step of `InsertByWithKey` when `x` goes after the head of `t`. */
  lemma InsertAfterHead<T>(key: T -> nat, x: T, t: seq<T>, k: nat)
    requires t != [] && key(x) >= key(t[0])
    requires WithKey(key, InsertBy(key, x, t[1..]), k) == WithKey(key, t[1..], k) + (if key(x) == k then [x] else [])
    ensures WithKey(key, InsertBy(key, x, t), k) == WithKey(key, t, k) + (if key(x) == k then [x] else [])
  {
    var e := if key(x) == k then [x] else [];
    var c := if key(t[0]) == k then [t[0]] else [];
    var r := InsertBy(key, x, t[1..]);
    var w := WithKey(key, t[1..], k);
    calc {
      WithKey(key, InsertBy(key, x, t), k);
      { assert InsertBy(key, x, t) == [t[0]] + r; }
      WithKey(key, [t[0]] + r, k);
      { WithKeyCons(key, t[0], r, k); }
      c + (w + e);
      (c + w) + e;
      { WithKeyCons(key, t[0], t[1..], k); }
      WithKey(key, [t[0]] + t[1..], k) + e;
      { assert t == [t[0]] + t[1..]; }
      WithKey(key, t, k) + e;
    }
  }

  lemma {:induction false} WithKeyCons<T>(key: T -> nat, x: T, t: seq<T>, k: nat)
    ensures WithKey(key, [x] + t, k) == (if key(x) == k then [x] else []) + WithKey(key, t, k)
    decreases |t|
  {
    if t != [] {
      var n := |t| - 1;
      WithKeyCons(key, x, t[..n], k);
      assert ([x] + t)[..|[x] + t| - 1] == [x] + t[..n];
    } else {
      assert WithKey(key, [x], k) == WithKey(key, [], k) + (if key(x) == k then [x] else []);
    }
  }

  lemma {:induction false} WithKeyNone<T>(key: T -> nat, t: seq<T>, k: nat)
    requires forall i :: 0 <= i < |t| ==> key(t[i]) > k
    ensures WithKey(key, t, k) == []
  {
    if t != [] {
      WithKeyNone(key, t[..|t| - 1], k);
    }
  }
}
