/**
 * A Python `dict` from strings to counts, as the recon summarisers use it:
 * `d[k] = d.get(k, 0) + 1` per occurrence, then `sorted(d.items())`.
 * CPython dicts keep insertion order, so the dict is an association list
 * whose keys appear in the order they were first inserted.
 */
module Counter {
  import opened Order

  datatype Entry = Entry(key: string, count: nat)

  type Dict = seq<Entry>

  function Keys(d: Dict): (ks: seq<string>)
    ensures |ks| == |d|
  {
    if d == [] then [] else [d[0].key] + Keys(d[1..])
  }

  lemma {:induction false} KeysAt(d: Dict, i: int)
    requires 0 <= i < |d|
    ensures Keys(d)[i] == d[i].key
  {
    if i > 0 { KeysAt(d[1..], i - 1); }
  }

  ghost predicate DistinctKeys(d: Dict)
  {
    forall i, j :: 0 <= i < j < |d| ==> d[i].key != d[j].key
  }

  /** `d.get(k, 0)`. */
  function Get(d: Dict, k: string): nat
  {
    if d == [] then 0 else if d[0].key == k then d[0].count else Get(d[1..], k)
  }

  /** `d[k] = d.get(k, 0) + 1`: bump the entry in place, or append a new one. */
  function Increment(d: Dict, k: string): Dict
  {
    if d == [] then [Entry(k, 1)]
    else if d[0].key == k then [Entry(k, d[0].count + 1)] + d[1..]
    else [d[0]] + Increment(d[1..], k)
  }

  /** `sum(d.values())`. */
  function Sum(d: Dict): nat
  {
    if d == [] then 0 else d[0].count + Sum(d[1..])
  }

  lemma {:induction false} GetZero(d: Dict, k: string)
    requires forall i :: 0 <= i < |d| ==> d[i].count == 0
    ensures Get(d, k) == 0
  {
    if d != [] { GetZero(d[1..], k); }
  }

  /** Incrementing `k` adds one to `k` and leaves every other key's count alone. */
  lemma {:induction false} IncrementGet(d: Dict, k: string, j: string)
    ensures Get(Increment(d, k), j) == Get(d, j) + (if j == k then 1 else 0)
  {
    if d != [] && d[0].key != k {
      IncrementGet(d[1..], k, j);
    }
  }

  /** Each increment adds exactly one to the total. */
  lemma {:induction false} IncrementSum(d: Dict, k: string)
    ensures Sum(Increment(d, k)) == Sum(d) + 1
  {
    if d != [] && d[0].key != k {
      IncrementSum(d[1..], k);
    }
  }

  /** Existing keys keep their place; a new key goes to the end. */
  lemma {:induction false} IncrementKeys(d: Dict, k: string)
    ensures Keys(Increment(d, k)) == if k in Keys(d) then Keys(d) else Keys(d) + [k]
  {
    if d != [] && d[0].key != k {
      IncrementKeys(d[1..], k);
      assert Keys(d) == [d[0].key] + Keys(d[1..]);
      assert Keys(Increment(d, k)) == [d[0].key] + Keys(Increment(d[1..], k));
    } else if d != [] {
      assert Keys(Increment(d, k)) == [k] + Keys(d[1..]);
      assert Keys(d) == [k] + Keys(d[1..]);
    }
  }

  lemma IncrementDistinct(d: Dict, k: string)
    requires DistinctKeys(d)
    ensures DistinctKeys(Increment(d, k))
  {
    IncrementKeys(d, k);
    var r := Increment(d, k);
    forall i, j | 0 <= i < j < |r| ensures r[i].key != r[j].key {
      KeysAt(r, i);
      KeysAt(r, j);
      KeysAt(d, i);
      if j < |d| {
        KeysAt(d, j);
      } else {
        assert Keys(d)[i] in Keys(d);
      }
    }
  }

  lemma KeysNotIn(d: Dict, k: string)
    requires forall i :: 0 <= i < |d| ==> d[i].key != k
    ensures k !in Keys(d)
  {
    forall j | 0 <= j < |d| ensures Keys(d)[j] != k { KeysAt(d, j); }
  }

  /** With distinct keys, the count stored beside a key is what `get` returns. */
  lemma {:induction false} GetMember(d: Dict, e: Entry)
    requires DistinctKeys(d) && e in d
    ensures Get(d, e.key) == e.count
  {
    if d[0] != e {
      var i :| 0 <= i < |d| && d[i] == e;
      assert d[1..][i - 1] == e;
      GetMember(d[1..], e);
    }
  }

  lemma SortedCons(x: string, t: seq<string>)
    requires StrictlySorted(t) && forall y :: y in t ==> Less(x, y)
    ensures StrictlySorted([x] + t)
  {
    var r := [x] + t;
    forall i, j | 0 <= i < j < |r| ensures Less(r[i], r[j]) {
      if i == 0 { assert r[j] == t[j - 1]; } else { assert r[i] == t[i - 1] && r[j] == t[j - 1]; }
    }
  }

  /** Inserts `e` before the first entry whose key is larger. */
  function InsertEntry(e: Entry, s: Dict): Dict
  {
    if s == [] then [e]
    else if Less(e.key, s[0].key) then [e] + s
    else [s[0]] + InsertEntry(e, s[1..])
  }

  /** Insertion adds `e` and nothing else, so it adds `e.count` to the total. */
  lemma {:induction false} InsertEntryContents(e: Entry, s: Dict)
    ensures multiset(InsertEntry(e, s)) == multiset(s) + multiset{e}
    ensures Sum(InsertEntry(e, s)) == e.count + Sum(s)
    ensures forall y :: y in Keys(InsertEntry(e, s)) <==> y == e.key || y in Keys(s)
  {
    if s != [] {
      assert Keys(s) == [s[0].key] + Keys(s[1..]);
      assert s == [s[0]] + s[1..];
      if !Less(e.key, s[0].key) {
        InsertEntryContents(e, s[1..]);
        assert Keys(InsertEntry(e, s)) == [s[0].key] + Keys(InsertEntry(e, s[1..]));
      } else {
        assert Keys(InsertEntry(e, s)) == [e.key] + Keys(s);
      }
    }
  }

  /** Inserting a new key into key-sorted entries keeps them key-sorted. */
  lemma {:induction false} InsertEntrySorted(e: Entry, s: Dict)
    requires StrictlySorted(Keys(s)) && e.key !in Keys(s)
    ensures StrictlySorted(Keys(InsertEntry(e, s)))
  {
    if s != [] {
      var ks := Keys(s);
      assert ks == [s[0].key] + Keys(s[1..]);
      if Less(e.key, s[0].key) {
        assert Keys(InsertEntry(e, s)) == [e.key] + ks;
        forall y | y in ks ensures Less(e.key, y) {
          var j :| 0 <= j < |ks| && ks[j] == y;
          if j > 0 { LessTransitive(e.key, ks[0], ks[j]); }
        }
        SortedCons(e.key, ks);
      } else {
        var t := InsertEntry(e, s[1..]);
        SortedTail(ks);
        InsertEntrySorted(e, s[1..]);
        InsertEntryContents(e, s[1..]);
        assert Less(s[0].key, e.key) by { LessTotal(e.key, s[0].key); }
        assert Keys(InsertEntry(e, s)) == [s[0].key] + Keys(t);
        forall y | y in Keys(t) ensures Less(s[0].key, y) {
          if y != e.key {
            var j :| 0 <= j < |Keys(s[1..])| && Keys(s[1..])[j] == y;
            assert ks[j + 1] == y;
          }
        }
        SortedCons(s[0].key, Keys(t));
      }
    }
  }

  /** `sorted(d.items())`: insertion sort on the keys. */
  function SortByKey(d: Dict): Dict
  {
    if d == [] then [] else InsertEntry(d[0], SortByKey(d[1..]))
  }

  /** Sorting keeps every entry, so every count and the total, and orders the keys. */
  lemma {:induction false} SortByKeyCorrect(d: Dict)
    requires DistinctKeys(d)
    ensures StrictlySorted(Keys(SortByKey(d)))
    ensures multiset(SortByKey(d)) == multiset(d)
    ensures Sum(SortByKey(d)) == Sum(d)
    ensures forall y :: y in Keys(SortByKey(d)) <==> y in Keys(d)
  {
    if d != [] {
      var t := SortByKey(d[1..]);
      assert Keys(d) == [d[0].key] + Keys(d[1..]);
      assert d == [d[0]] + d[1..];
      SortByKeyCorrect(d[1..]);
      InsertEntryContents(d[0], t);
      KeysNotIn(d[1..], d[0].key);
      InsertEntrySorted(d[0], t);
    }
  }
}
