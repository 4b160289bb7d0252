/**
 * The order in which `SubgraphCacheNode.cache_sorted_keys` lists a node's cached keys:
 * `sorted(cache.items(), key=lambda kv: kv[1], reverse=True)`, keys only. Python's sort
 * is stable, so keys of equal value keep the cache's insertion order.
 */
module CacheSort {
  import opened Base
  import opened StableSort
  import opened TrieShape

  /** The sort key of a cached key: its value in the cache. */
  function ValueOf(cache: map<Key, int>): Key -> Option<int> {
    (k: Key) => if k in cache then Some(cache[k]) else None
  }

  /** The cache's keys, given in insertion order by `order`, by descending value. */
  function SortedKeysOf(order: seq<Key>, cache: map<Key, int>): seq<Key> {
    SortDesc(order, ValueOf(cache))
  }

  /** A permutation of the cache's keys: each key exactly once, nothing else. */
  lemma SortedKeysExact(order: seq<Key>, cache: map<Key, int>)
    requires Distinct(order) && Elems(order) == cache.Keys
    ensures Distinct(SortedKeysOf(order, cache))
    ensures Elems(SortedKeysOf(order, cache)) == cache.Keys
    ensures |SortedKeysOf(order, cache)| == |cache|
  {
    PermutationDistinct(order, SortedKeysOf(order, cache));
    DistinctCard(order);
  }

  /** A permutation of a sequence without repetitions has none either, and the same elements. */
  lemma PermutationDistinct<T>(a: seq<T>, b: seq<T>)
    requires Distinct(a) && multiset(a) == multiset(b)
    ensures Distinct(b) && Elems(b) == Elems(a)
  {
    forall x ensures x in b <==> x in a {
      assert x in b <==> x in multiset(b);
      assert x in a <==> x in multiset(a);
    }
    forall i, j | 0 <= i < j < |b| ensures b[i] != b[j] {
      if b[i] == b[j] {
        TwiceCount(b, i, j);
        DistinctCount(a, b[i]);
      }
    }
  }

  lemma TwiceCount<T>(s: seq<T>, i: nat, j: nat)
    requires i < j < |s| && s[i] == s[j]
    ensures multiset(s)[s[i]] >= 2
  {
    var x := s[i];
    assert s == s[..i] + [x] + (s[i + 1..j] + [x] + s[j + 1..]);
    assert s[i + 1..j] + [x] + s[j + 1..] == s[i + 1..j] + ([x] + s[j + 1..]);
  }

  lemma {:induction false} DistinctCount<T>(s: seq<T>, x: T)
    requires Distinct(s)
    ensures multiset(s)[x] <= 1
  {
    if s != [] {
      assert Distinct(s[1..]);
      DistinctCount(s[1..], x);
      assert s == [s[0]] + s[1..];
      if s[0] == x {
        assert x !in s[1..];
        assert multiset(s[1..])[x] == 0;
      }
    }
  }

  /** Listed by non-increasing value. */
  lemma SortedKeysDescending(order: seq<Key>, cache: map<Key, int>)
    requires Elems(order) <= cache.Keys
    ensures forall k :: k in SortedKeysOf(order, cache) ==> k in cache
    ensures forall i, j :: 0 <= i < j < |SortedKeysOf(order, cache)| ==>
      cache[SortedKeysOf(order, cache)[i]] >= cache[SortedKeysOf(order, cache)[j]]
  {
    var r := SortedKeysOf(order, cache);
    forall k | k in r ensures k in cache {
      assert k in multiset(r);
      assert k in multiset(order);
    }
    forall i, j | 0 <= i < j < |r| ensures cache[r[i]] >= cache[r[j]] {
      assert r[i] in r && r[j] in r;
      assert !Below(ValueOf(cache)(r[i]), ValueOf(cache)(r[j]));
    }
  }

  /** Ties: the keys of any one value come out in the cache's insertion order. */
  lemma SortedKeysTies(order: seq<Key>, cache: map<Key, int>, v: int)
    ensures Only(SortedKeysOf(order, cache), ValueOf(cache), Some(v)) == Only(order, ValueOf(cache), Some(v))
  {
    SortDescStable(order, ValueOf(cache), Some(v));
  }
}
