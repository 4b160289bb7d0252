/**
 * The subtree-caching trie of src/autocomplete/subgraph_cache_trie.py: the plain trie
 * operations followed by the cache patches of `CachePaths`.
 */
module SubgraphCache {
  import opened Base
  import opened TrieShape
  import opened Tries
  import opened CacheSort
  import opened CachePaths

  /**
   * How `delete` ends: it removed the key, found no node for it and returned, or found a
   * node that was not terminal and raised `KeyError` at `del node.cache[node.key]`.
   */
  datatype DeleteOutcome = Deleted | NotFound | KeyError

  class SubgraphCacheTrie {
    const trie: Trie

    ghost predicate Valid()
      reads trie, trie.Repr
    {
      trie.Valid() && AllCached(trie.nodes, trie.terms)
    }

    /** `SubgraphCacheTrie()`: an empty trie whose root caches nothing. */
    constructor ()
      ensures Valid() && fresh(trie) && fresh(trie.Repr)
      ensures trie.terms == map[]
    {
      trie := new Trie();
      new;
      assert trie.nodes == map[[] := trie.root];
    }

    /**
     * `insert(key, value)`: the plain insert, then `key` is set to `v` in the cache of its
     * node and of every ancestor, each marked dirty. Only the caches on the path change,
     * and each of them by overwriting or appending `key` alone.
     */
    method Insert(key: Key, v: int)
      requires Valid()
      modifies trie, trie.Repr`children, trie.Repr`childOrder, trie.Repr`value, trie.Repr`isTerminal
      modifies trie.Repr`cache, trie.Repr`cacheOrder, trie.Repr`isDirty
      ensures Valid()
      ensures trie.terms == old(trie.terms)[key := v] && trie.order == Grow(old(trie.order), key, |key|)
      ensures forall k :: k in old(trie.nodes) ==> k in trie.nodes && trie.nodes[k] == old(trie.nodes[k])
      ensures forall k :: k in trie.nodes && IsPrefix(k, key) ==> trie.nodes[k].isDirty
      ensures Marked(old(trie.nodes), old(Snaps(trie.nodes)), key, 0, true)
      ensures old(trie.Repr) <= trie.Repr && fresh(trie.Repr - old(trie.Repr))
    {
      ghost var T0 := trie.terms;
      ghost var o0 := trie.order;
      ghost var N0 := trie.nodes;
      ghost var S0 := Snaps(N0);
      var node := PlainInsert(key, v, N0);
      CachedKept(Cached(N0, S0, T0));
      FinishInsert(node, key, v, N0, S0, T0, o0);
    }

    /** The plain trie insert, which leaves the caches of the existing nodes alone. */
    method PlainInsert(key: Key, v: int, ghost N: map<Key, Node>) returns (node: Node)
      requires trie.Valid() && N == trie.nodes
      modifies trie, trie.Repr`children, trie.Repr`childOrder, trie.Repr`value, trie.Repr`isTerminal
      ensures trie.Valid()
      ensures trie.terms == old(trie.terms)[key := v] && trie.order == Grow(old(trie.order), key, |key|)
      ensures key in trie.nodes && node == trie.nodes[key]
      ensures forall k :: k in N ==> k in trie.nodes && trie.nodes[k] == N[k]
      ensures forall k :: k in trie.nodes && k !in N ==> IsPrefix(k, key) && trie.nodes[k].Blank()
      ensures old(trie.Repr) <= trie.Repr && fresh(trie.Repr - old(trie.Repr))
      ensures Views(N) == old(Views(N))
    {
      node := trie.Insert(key, v);
      ViewsFramed(N);
    }

    /** The cache updates of `insert` after the plain insert has set `key` to `v`. */
    method FinishInsert(node: Node, key: Key, v: int, ghost N0: map<Key, Node>, ghost S0: map<Key, Snap>, ghost T0: Terms,
                        ghost o0: Order)
      requires trie.Valid() && trie.terms == T0[key := v] && trie.order == Grow(o0, key, |key|)
      requires key in trie.nodes && node == trie.nodes[key]
      requires forall k :: k in N0 ==> k in trie.nodes && trie.nodes[k] == N0[k]
      requires forall k :: k in trie.nodes && k !in N0 ==> trie.nodes[k].Blank()
      requires TreeInv(T0, o0) && N0.Keys == o0.Keys && AllCached(N0, T0) && S0 == Snaps(N0)
      modifies Objs(trie.nodes)`cache, Objs(trie.nodes)`cacheOrder, Objs(trie.nodes)`isDirty
      ensures Valid()
      ensures forall k :: k in trie.nodes && IsPrefix(k, key) ==> trie.nodes[k].isDirty
      ensures Marked(N0, S0, key, 0, true)
    {
      ghost var N := trie.nodes;
      ghost var S := Snaps(N);
      SnapsSub(N0, N, S0, S);
      GrowCached(N0, N, T0, o0);
      KeyedOf(trie);
      ChainOf(trie, key);
      InsertCaches(node, key, v, S, T0);
      MarkedRestrict(N, S, N0, S0, key, 0, true);
      MarkedDirty(N, S, key, true);
    }

    /** The cache patch of `insert` on the path to `key`; the trie itself is not touched. */
    method InsertCaches(node: Node, key: Key, v: int, ghost S: map<Key, Snap>, ghost T0: Terms)
      requires trie.Valid() && Keyed(trie.nodes) && Chain(trie.nodes, key) && key in trie.nodes && node == trie.nodes[key]
      requires trie.terms == T0[key := v] && AllCached(trie.nodes, T0) && S == Snaps(trie.nodes)
      modifies Objs(trie.nodes)`cache, Objs(trie.nodes)`cacheOrder, Objs(trie.nodes)`isDirty
      ensures Valid() && Marked(trie.nodes, S, key, 0, true)
    {
      PatchInsertPath(node, key, v, trie.nodes, S, T0, trie.terms);
    }

    /**
     * `delete(key)`: nothing when `find` has no node for `key`; otherwise the plain delete,
     * then `key` leaves the cache of its node and of every ancestor, each marked dirty.
     * A node that is not terminal has no `key` in its cache: the `del` raises `KeyError`
     * after the plain delete, which changed nothing.
     */
    method Delete(key: Key) returns (outcome: DeleteOutcome)
      requires Valid()
      modifies trie, trie.Repr`children, trie.Repr`childOrder, trie.Repr`value, trie.Repr`isTerminal
      modifies trie.Repr`cache, trie.Repr`cacheOrder, trie.Repr`isDirty
      ensures Valid()
      ensures outcome == NotFound <==> key !in old(trie.order)
      ensures outcome == KeyError <==> key in old(trie.order) && key !in old(trie.terms)
      ensures outcome == NotFound ==> unchanged(trie) && unchanged(trie.Repr)
      ensures outcome != Deleted ==> trie.terms == old(trie.terms) && trie.order == old(trie.order) && trie.nodes == old(trie.nodes)
      ensures outcome == Deleted ==> trie.terms == old(trie.terms) - {key}
      ensures outcome == Deleted ==> trie.order == Prune(old(trie.order), trie.terms, key, 0)
      ensures forall k :: k in trie.nodes ==> k in old(trie.nodes) && trie.nodes[k] == old(trie.nodes)[k]
      ensures outcome == Deleted ==> forall k :: k in trie.nodes && IsPrefix(k, key) ==> trie.nodes[k].isDirty
      ensures outcome == Deleted ==> Marked(trie.nodes, old(Snaps(trie.nodes)), key, 0, false)
      ensures outcome == KeyError ==> Marked(trie.nodes, old(Snaps(trie.nodes)), key, |key| + 1, false)
      ensures trie.Repr == old(trie.Repr)
    {
      ghost var S := Snaps(trie.nodes);
      var node := trie.Find(key);
      if node == null {
        return NotFound;
      }
      assert S == Snaps(trie.nodes);
      outcome := DeleteFound(node, key, S);
    }

    /** `delete` once `find` has returned the node of `key`. */
    method DeleteFound(node: Node, key: Key, ghost S: map<Key, Snap>) returns (outcome: DeleteOutcome)
      requires Valid() && key in trie.nodes && node == trie.nodes[key] && S == Snaps(trie.nodes)
      modifies trie, trie.Repr`children, trie.Repr`childOrder, trie.Repr`value, trie.Repr`isTerminal
      modifies trie.Repr`cache, trie.Repr`cacheOrder, trie.Repr`isDirty
      ensures Valid()
      ensures outcome != NotFound
      ensures outcome == KeyError <==> key !in old(trie.terms)
      ensures trie.terms == old(trie.terms) - {key} && trie.order == Prune(old(trie.order), trie.terms, key, 0)
      ensures key !in old(trie.terms) ==> trie.terms == old(trie.terms) && trie.order == old(trie.order) && trie.nodes == old(trie.nodes)
      ensures forall k :: k in trie.nodes ==> k in old(trie.nodes) && trie.nodes[k] == old(trie.nodes)[k]
      ensures outcome == Deleted ==> forall k :: k in trie.nodes && IsPrefix(k, key) ==> trie.nodes[k].isDirty
      ensures outcome == Deleted ==> Marked(trie.nodes, S, key, 0, false)
      ensures outcome == KeyError ==> Marked(trie.nodes, S, key, |key| + 1, false)
      ensures trie.Repr == old(trie.Repr)
    {
      ghost var T0 := trie.terms;
      ghost var N := trie.nodes;
      ReadyOf(trie, node, key, S);
      PlainDelete(key, N);
      ReadyKept(Prep(node, key, N, S, T0));
      outcome := AfterDelete(node, key, N, S, T0);
    }

    /** The plain trie delete, which leaves every cache alone. */
    method PlainDelete(key: Key, ghost N: map<Key, Node>)
      requires trie.Valid() && N == trie.nodes
      modifies trie, trie.Repr`children, trie.Repr`childOrder, trie.Repr`value, trie.Repr`isTerminal
      ensures trie.Valid()
      ensures trie.terms == old(trie.terms) - {key} && trie.order == Prune(old(trie.order), trie.terms, key, 0)
      ensures key !in old(trie.terms) ==> trie.terms == old(trie.terms) && trie.order == old(trie.order) && trie.nodes == N
      ensures forall k :: k in trie.nodes ==> k in N && trie.nodes[k] == N[k]
      ensures trie.Repr == old(trie.Repr)
      ensures Views(N) == old(Views(N))
    {
      trie.Delete(key);
      ViewsFramed(N);
    }

    /**
     * `delete` after the plain delete: `del node.cache[node.key]` raises `KeyError` when
     * the key was not terminal, and otherwise the caches are patched.
     */
    method AfterDelete(node: Node, key: Key, ghost N: map<Key, Node>, ghost S: map<Key, Snap>, ghost T0: Terms)
      returns (outcome: DeleteOutcome)
      requires trie.Valid() && Ready(node, key, N, S, T0)
      requires trie.terms == T0 - {key} && (key !in T0 ==> trie.nodes == N)
      requires forall k :: k in trie.nodes ==> k in N && trie.nodes[k] == N[k]
      modifies Objs(N)`cache, Objs(N)`cacheOrder, Objs(N)`isDirty
      ensures Valid()
      ensures outcome != NotFound && (outcome == KeyError <==> key !in T0)
      ensures outcome == Deleted ==> forall k :: k in trie.nodes && IsPrefix(k, key) ==> trie.nodes[k].isDirty
      ensures outcome == Deleted ==> Marked(trie.nodes, S, key, 0, false)
      ensures outcome == KeyError ==> Marked(trie.nodes, S, key, |key| + 1, false)
    {
      assert CacheAt(N[key], key, T0);
      if node.key !in node.cache {
        assert trie.terms == T0;
        return KeyError;
      }
      FinishDelete(node, key, N, S, T0);
      outcome := Deleted;
    }

    /** The cache updates of `delete` after the plain delete has removed `key`. */
    method FinishDelete(node: Node, key: Key, ghost N: map<Key, Node>, ghost S: map<Key, Snap>, ghost T0: Terms)
      requires trie.Valid() && Keyed(N) && Chain(N, key) && key in N && node == N[key]
      requires key in T0 && trie.terms == T0 - {key} && AllCached(N, T0) && S == Snaps(N)
      requires forall k :: k in trie.nodes ==> k in N && trie.nodes[k] == N[k]
      modifies Objs(N)`cache, Objs(N)`cacheOrder, Objs(N)`isDirty
      ensures Valid()
      ensures forall k :: k in trie.nodes && IsPrefix(k, key) ==> trie.nodes[k].isDirty
      ensures Marked(trie.nodes, S, key, 0, false)
    {
      DeleteCaches(node, key, N, S, T0);
      MarkedRestrict(N, S, trie.nodes, S, key, 0, false);
      MarkedDirty(trie.nodes, S, key, false);
      forall k | k in trie.nodes ensures CacheAt(trie.nodes[k], k, trie.terms) {
        assert CacheAt(N[k], k, trie.terms);
      }
    }

    /** The cache patch of `delete` on the path to `key`; the trie itself is not touched. */
    method DeleteCaches(node: Node, key: Key, ghost N: map<Key, Node>, ghost S: map<Key, Snap>, ghost T0: Terms)
      requires trie.Valid() && Keyed(N) && Chain(N, key) && key in N && node == N[key]
      requires key in T0 && AllCached(N, T0) && S == Snaps(N)
      modifies Objs(N)`cache, Objs(N)`cacheOrder, Objs(N)`isDirty
      ensures trie.Valid() && AllCached(N, T0 - {key}) && Marked(N, S, key, 0, false)
    {
      PatchDeletePath(node, key, N, S, T0, T0 - {key});
    }

    /**
     * The autocomplete read: no suggestions for the empty query; otherwise `find(query)`,
     * then the node's `cache_sorted_keys`, or no suggestions when the query is not a node.
     * The suggestions are the terminal keys under the query, each once, by non-increasing
     * value, and the caches stay valid.
     */
    method Suggestions(query: Key) returns (r: seq<Key>)
      requires Valid()
      modifies trie.Repr`isDirty, trie.Repr`sortedKeys
      ensures Valid()
      ensures query == [] || query !in trie.order ==> r == []
      ensures query != [] && query in trie.order ==> Ranked(r, trie.terms, query)
    {
      if query == [] {
        return [];
      }
      r := FindSuggestions(query);
    }

    /** `find(query)`, then the node's `cache_sorted_keys`, or `[]` when there is no node. */
    method FindSuggestions(query: Key) returns (r: seq<Key>)
      requires Valid()
      modifies trie.Repr`isDirty, trie.Repr`sortedKeys
      ensures Valid()
      ensures query !in trie.order ==> r == []
      ensures query in trie.order ==> Ranked(r, trie.terms, query)
    {
      var node := trie.Find(query);
      if node == null {
        return [];
      }
      assert CacheAt(trie.nodes[query], query, trie.terms);
      SuggestionsRanked(node.cacheOrder, node.cache, trie.terms, query);
      r := node.CacheSortedKeys();
      SortedKept(Touched(trie.nodes, trie.terms, node));
    }
  }

  /** A step that refreshed the sort memo of `node`, one of the nodes of `N`. */
  datatype Touched = Touched(N: map<Key, Node>, T: Terms, node: Node)

  /** Refreshing one node's sort memo leaves every cache the subtree of its key. */
  twostate lemma SortedKept(e: Touched)
    requires old(AllCached(e.N, e.T))
    requires unchanged(Objs(e.N)`cache, Objs(e.N)`cacheOrder) && unchanged(Objs(e.N) - {e.node})
    requires e.node.CacheOk()
    ensures AllCached(e.N, e.T)
  {
    forall k | k in e.N
      ensures CacheAt(e.N[k], k, e.T)
    {
      assert old(CacheAt(e.N[k], k, e.T));
      assert e.N[k] in Objs(e.N);
    }
  }

  /** The terminal keys under `k`, each once, by non-increasing value. */
  ghost predicate Ranked(r: seq<Key>, T: Terms, k: Key) {
    Distinct(r) && Elems(r) == Subtree(T, k).Keys
    && forall i, j :: 0 <= i < j < |r| ==> r[i] in T && r[j] in T && T[r[i]] >= T[r[j]]
  }

  /** A node's sorted cache keys, with the cache equal to the subtree of its key. */
  lemma SuggestionsRanked(order: seq<Key>, cache: map<Key, int>, T: Terms, k: Key)
    requires cache == Subtree(T, k) && Distinct(order) && Elems(order) == cache.Keys
    ensures Ranked(SortedKeysOf(order, cache), T, k)
  {
    SortedKeysExact(order, cache);
    SortedKeysDescending(order, cache);
  }
}
