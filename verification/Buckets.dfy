/**
 Dictionaries of lists: what `by_key.setdefault(key(x), []).append(x)` builds, and why it
 loses and repeats nothing.
 */
module Buckets {
  /** The elements with the key k, in order. */
  function KeyedBy<T, K(==)>(s: seq<T>, key: T -> K, k: K): seq<T> {
    if s == [] then []
    else KeyedBy(s[..|s| - 1], key, k) + if key(s[|s| - 1]) == k then [s[|s| - 1]] else []
  }

  /** The lists of the given keys, one after the other. */
  function Chained<T, K(==)>(s: seq<T>, key: T -> K, keys: seq<K>): seq<T> {
    if keys == [] then [] else Chained(s, key, keys[..|keys| - 1]) + KeyedBy(s, key, keys[|keys| - 1])
  }

  function Within<T, K(==)>(s: seq<T>, key: T -> K, keys: set<K>): seq<T> {
    if s == [] then []
    else Within(s[..|s| - 1], key, keys) + if key(s[|s| - 1]) in keys then [s[|s| - 1]] else []
  }

  predicate Distinct<K(==)>(keys: seq<K>) {
    forall i, j :: 0 <= i < j < |keys| ==> keys[i] != keys[j]
  }

  /** The keys in use, each once. */
  ghost predicate Covers<T, K>(keys: seq<K>, s: seq<T>, key: T -> K) {
    && Distinct(keys)
    && (forall x :: x in s ==> key(x) in keys)
    && (forall k :: k in keys ==> exists x :: x in s && key(x) == k)
  }

  ghost predicate Holds<T, K>(keys: seq<K>, buckets: map<K, seq<T>>, s: seq<T>, key: T -> K) {
    && (forall k :: k in buckets ==> k in keys) && (forall k :: k in keys ==> k in buckets)
    && (forall k :: k in keys ==> buckets[k] == KeyedBy(s, key, k))
  }

  lemma {:induction false} KeyedByMembers<T, K>(s: seq<T>, key: T -> K, k: K)
    ensures forall x :: x in KeyedBy(s, key, k) <==> x in s && key(x) == k
    decreases |s|
  {
    if s != [] {
      KeyedByMembers(s[..|s| - 1], key, k);
      assert s == s[..|s| - 1] + [s[|s| - 1]];
    }
  }

  lemma {:induction false} WithinGrows<T, K>(s: seq<T>, key: T -> K, keys: set<K>, k: K)
    requires k !in keys
    ensures multiset(Within(s, key, keys + {k})) == multiset(Within(s, key, keys)) + multiset(KeyedBy(s, key, k))
    decreases |s|
  {
    if s != [] {
      WithinGrows(s[..|s| - 1], key, keys, k);
    }
  }

  lemma {:induction false} WithinAll<T, K>(s: seq<T>, key: T -> K, keys: set<K>)
    requires forall x :: x in s ==> key(x) in keys
    ensures Within(s, key, keys) == s
    decreases |s|
  {
    if s != [] {
      WithinAll(s[..|s| - 1], key, keys);
      assert s == s[..|s| - 1] + [s[|s| - 1]];
    }
  }

  lemma {:induction false} ChainedIsWithin<T, K>(s: seq<T>, key: T -> K, keys: seq<K>)
    requires Distinct(keys)
    ensures multiset(Chained(s, key, keys)) == multiset(Within(s, key, set k | k in keys))
    decreases |keys|
  {
    if keys == [] {
      assert (set k | k in keys) == {};
      WithinNone(s, key);
    } else {
      var front, last := keys[..|keys| - 1], keys[|keys| - 1];
      ChainedIsWithin(s, key, front);
      assert (set k | k in keys) == (set k | k in front) + {last};
      WithinGrows(s, key, (set k | k in front), last);
    }
  }

  lemma {:induction false} WithinNone<T, K>(s: seq<T>, key: T -> K)
    ensures Within(s, key, {}) == []
    decreases |s|
  {
    if s != [] {
      WithinNone(s[..|s| - 1], key);
    }
  }

  /** The lists together hold every element as often as the source does. */
  lemma BucketsPartition<T, K>(s: seq<T>, key: T -> K, keys: seq<K>)
    requires Distinct(keys) && forall x :: x in s ==> key(x) in keys
    ensures multiset(Chained(s, key, keys)) == multiset(s)
  {
    ChainedIsWithin(s, key, keys);
    WithinAll(s, key, (set k | k in keys));
  }

  lemma Appended<T, K>(s: seq<T>, x: T, key: T -> K)
    ensures forall k :: KeyedBy(s + [x], key, k) == KeyedBy(s, key, k) + if key(x) == k then [x] else []
  {
    assert (s + [x])[..|s|] == s;
  }

  lemma CountAppended<T>(s: seq<T>, x: T, y: T)
    ensures multiset(s + [x])[y] == multiset(s)[y] + if x == y then 1 else 0
  {
    assert multiset(s + [x]) == multiset(s) + multiset{x};
  }

  lemma {:induction false} KeyedByNothing<T, K>(s: seq<T>, key: T -> K, k: K)
    requires forall x :: x in s ==> key(x) != k
    ensures KeyedBy(s, key, k) == []
    decreases |s|
  {
    if s != [] {
      KeyedByNothing(s[..|s| - 1], key, k);
    }
  }

  /** One setdefault-and-append. */
  method Append<T, K(==)>(keys: seq<K>, buckets: map<K, seq<T>>, ghost s: seq<T>, x: T, k: K, ghost key: T -> K)
    returns (nextKeys: seq<K>, nextBuckets: map<K, seq<T>>)
    requires Covers(keys, s, key) && Holds(keys, buckets, s, key) && k == key(x)
    ensures Covers(nextKeys, s + [x], key) && Holds(nextKeys, nextBuckets, s + [x], key)
  {
    Appended(s, x, key);
    nextKeys := keys;
    var bucket := [];
    if k in buckets {
      bucket := buckets[k];
    } else {
      KeyedByNothing(s, key, k);
      nextKeys := keys + [k];
    }
    nextBuckets := buckets[k := bucket + [x]];
    assert x in s + [x];
    forall q | q in nextKeys ensures exists y :: y in s + [x] && key(y) == q {
      if q in keys {
        var y :| y in s && key(y) == q;
        assert y in s + [x];
      }
    }
  }

  /** The same for a list of elements, whose keys `under` computes. */
  method AppendAll<T, K(==)>(
    records: seq<T>, under: T -> K, keys: seq<K>, buckets: map<K, seq<T>>, ghost filed: seq<T>, ghost key: T -> K)
    returns (nextKeys: seq<K>, nextBuckets: map<K, seq<T>>)
    requires forall x :: x in records ==> under(x) == key(x)
    requires Covers(keys, filed, key) && Holds(keys, buckets, filed, key)
    ensures Covers(nextKeys, filed + records, key) && Holds(nextKeys, nextBuckets, filed + records, key)
  {
    nextKeys, nextBuckets := keys, buckets;
    assert filed + records[..0] == filed;
    for r := 0 to |records|
      invariant Covers(nextKeys, filed + records[..r], key)
      invariant Holds(nextKeys, nextBuckets, filed + records[..r], key)
    {
      var x := records[r];
      assert x in records;
      nextKeys, nextBuckets := Append(nextKeys, nextBuckets, filed + records[..r], x, under(x), key);
      assert filed + records[..r + 1] == (filed + records[..r]) + [x];
    }
    assert records[..|records|] == records;
  }
}
