/**
 * The cache invariant of src/autocomplete/subgraph_cache_trie.py and its patching along
 * the path from a node to the root.
 *
 * Every node keeps in `cache` the terminal keys of its subtree (itself included) with
 * their values, in dict insertion order `cacheOrder`, and a memo `sortedKeys` of those
 * keys by descending value that is rebuilt only when `isDirty` says a write made it stale.
 * `insert` and `delete` patch the cache of the node of the key and of every ancestor
 * reached through the parent links, one node at a time.
 */
module CachePaths {
  import opened Base
  import opened TrieShape
  import opened Tries
  import opened CacheSort

  /** The memo fields of a node, as they stand at one moment. */
  datatype Snap = Snap(dirty: bool, cacheOrder: seq<Key>, sortedKeys: seq<Key>)

  ghost function SnapOf(n: Node): Snap
    reads n`isDirty, n`cacheOrder, n`sortedKeys
  {
    Snap(n.isDirty, n.cacheOrder, n.sortedKeys)
  }

  ghost function Snaps(N: map<Key, Node>): map<Key, Snap>
    reads Objs(N)`isDirty, Objs(N)`cacheOrder, Objs(N)`sortedKeys
  {
    map k | k in N :: SnapOf(N[k])
  }

  ghost function Objs(N: map<Key, Node>): set<Node> {
    set k | k in N :: N[k]
  }

  /** Each node object carries its own key, so different keys have different nodes. */
  ghost predicate Keyed(N: map<Key, Node>)
    reads Objs(N)`key
  {
    forall k :: k in N ==> N[k].key == k
  }

  /** The node `n` of key `k` caches exactly the subtree of `k` under the terminal keys `T`. */
  ghost predicate CacheAt(n: Node, k: Key, T: Terms)
    reads n`cache, n`cacheOrder, n`isDirty, n`sortedKeys
  {
    n.cache == Subtree(T, k) && n.CacheOk()
  }

  /** The central invariant: every node's cache is the subtree of its key. */
  ghost predicate AllCached(N: map<Key, Node>, T: Terms)
    reads Objs(N)`cache, Objs(N)`cacheOrder, Objs(N)`isDirty, Objs(N)`sortedKeys
  {
    forall k {:trigger CacheAt(N[k], k, T)} :: k in N ==> CacheAt(N[k], k, T)
  }

  /**
   * Which terminal keys a node's cache reflects while the caches along the path of `key`
   * are patched bottom-up: the nodes of the path shorter than `i` are not patched yet.
   */
  function Stage(T0: Terms, T1: Terms, key: Key, i: nat, k: Key): Terms {
    if IsPrefix(k, key) && |k| < i then T0 else T1
  }

  ghost predicate Mixed(N: map<Key, Node>, T0: Terms, T1: Terms, key: Key, i: nat)
    reads Objs(N)`cache, Objs(N)`cacheOrder, Objs(N)`isDirty, Objs(N)`sortedKeys
  {
    forall k {:trigger CacheAt(N[k], k, Stage(T0, T1, key, i, k))} :: k in N ==> CacheAt(N[k], k, Stage(T0, T1, key, i, k))
  }

  /**
   * The memo fields while the path of `key` is patched: a patched node (a prefix of `key`
   * of length at least `i`) is dirty and has `key` added to (`adding`) or removed from its
   * insertion order; every other node is as recorded in `S`.
   */
  ghost predicate Marked(N: map<Key, Node>, S: map<Key, Snap>, key: Key, i: nat, adding: bool)
    reads Objs(N)`isDirty, Objs(N)`cacheOrder, Objs(N)`sortedKeys
  {
    forall k {:trigger MarkedAt(N[k], k, S, key, i, adding)} :: k in N ==> MarkedAt(N[k], k, S, key, i, adding)
  }

  ghost predicate MarkedAt(n: Node, k: Key, S: map<Key, Snap>, key: Key, i: nat, adding: bool)
    reads n`isDirty, n`cacheOrder, n`sortedKeys
  {
    k in S &&
    if IsPrefix(k, key) && |k| >= i then n.isDirty && n.cacheOrder == Edited(S[k].cacheOrder, key, adding)
    else SnapOf(n) == S[k]
  }

  /** A dict's key order after setting (`adding`) or deleting `key`. */
  function Edited(o: seq<Key>, key: Key, adding: bool): seq<Key> {
    if adding then AddKey(o, key) else Remove(o, key)
  }

  /** The parent links from the node of `k` lead through the nodes of its prefixes to the root. */
  ghost predicate Chain(N: map<Key, Node>, k: Key)
    reads Objs(N)`parent
  {
    (forall j :: 0 <= j <= |k| ==> k[..j] in N)
    && N[k[..0]].parent == null
    && forall j :: 0 < j <= |k| ==> N[k[..j]].parent == N[k[..j - 1]]
  }

  /** Before any node is patched, only the nodes on the path of `key` are out of date. */
  lemma StartMixed(N: map<Key, Node>, T0: Terms, T1: Terms, key: Key)
    requires AllCached(N, T0)
    requires forall k :: !IsPrefix(k, key) ==> Subtree(T1, k) == Subtree(T0, k)
    ensures Mixed(N, T0, T1, key, |key| + 1)
  {
    forall k | k in N ensures CacheAt(N[k], k, Stage(T0, T1, key, |key| + 1, k)) {
      assert CacheAt(N[k], k, T0);
    }
  }

  /** Once the root is patched, every cache is up to date. */
  lemma EndMixed(N: map<Key, Node>, T0: Terms, T1: Terms, key: Key)
    requires Mixed(N, T0, T1, key, 0)
    ensures AllCached(N, T1)
  {
    forall k | k in N ensures CacheAt(N[k], k, T1) {
      assert CacheAt(N[k], k, Stage(T0, T1, key, 0, k));
    }
  }

  lemma StartMarked(N: map<Key, Node>, key: Key, adding: bool)
    ensures Marked(N, Snaps(N), key, |key| + 1, adding)
  {
  }

  /** A prefix of `key` is determined by its length. */
  lemma PrefixByLength(k: Key, k': Key, key: Key)
    requires IsPrefix(k, key) && IsPrefix(k', key) && |k| == |k'|
    ensures k == k'
  {
  }

  /**
   * `ancestor.cache[node.key] = node.value; ancestor.is_dirty = True` on the node `n` of
   * the prefix `k` of `key`, the next one up the path.
   */
  method PatchInsert(n: Node, ghost k: Key, key: Key, v: int, ghost N: map<Key, Node>, ghost S: map<Key, Snap>,
                     ghost T0: Terms, ghost T1: Terms, ghost i: nat, ghost i1: nat)
    requires Keyed(N) && k in N && n == N[k] && IsPrefix(k, key) && i == |k| + 1 && i1 == |k| && T1 == T0[key := v]
    requires Mixed(N, T0, T1, key, i) && Marked(N, S, key, i, true)
    modifies n`cache, n`cacheOrder, n`isDirty
    ensures Mixed(N, T0, T1, key, i1) && Marked(N, S, key, i1, true)
  {
    assert CacheAt(N[k], k, Stage(T0, T1, key, i, k));
    SubtreeAfterInsert(T0, k, key, v);
    n.cache := n.cache[key := v];
    n.cacheOrder := AddKey(n.cacheOrder, key);
    n.isDirty := true;
    forall k' | k' in N
      ensures CacheAt(N[k'], k', Stage(T0, T1, key, i1, k'))
    {
      if k' != k {
        assert old(CacheAt(N[k'], k', Stage(T0, T1, key, i, k')));
        if IsPrefix(k', key) && |k'| == |k| {
          PrefixByLength(k, k', key);
        }
      }
    }
    forall k' | k' in N
      ensures MarkedAt(N[k'], k', S, key, i1, true)
    {
      assert old(MarkedAt(N[k'], k', S, key, i, true));
      if k' != k {
        if IsPrefix(k', key) && |k'| == |k| {
          PrefixByLength(k, k', key);
        }
      }
    }
  }

  /**
   * `del ancestor.cache[node.key]; ancestor.is_dirty = True` on the node `n` of the prefix
   * `k` of `key`, the next one up the path. The key is always there to delete.
   */
  method PatchDelete(n: Node, ghost k: Key, key: Key, ghost N: map<Key, Node>, ghost S: map<Key, Snap>,
                     ghost T0: Terms, ghost T1: Terms, ghost i: nat, ghost i1: nat)
    requires Keyed(N) && k in N && n == N[k] && IsPrefix(k, key) && i == |k| + 1 && i1 == |k| && key in T0 && T1 == T0 - {key}
    requires Mixed(N, T0, T1, key, i) && Marked(N, S, key, i, false)
    modifies n`cache, n`cacheOrder, n`isDirty
    ensures key in old(n.cache)
    ensures Mixed(N, T0, T1, key, i1) && Marked(N, S, key, i1, false)
  {
    assert CacheAt(N[k], k, Stage(T0, T1, key, i, k));
    SubtreeAfterDelete(T0, k, key);
    RemoveElems(n.cacheOrder, key);
    RemoveDistinct(n.cacheOrder, key);
    n.cache := n.cache - {key};
    n.cacheOrder := Remove(n.cacheOrder, key);
    n.isDirty := true;
    forall k' | k' in N
      ensures CacheAt(N[k'], k', Stage(T0, T1, key, i1, k'))
    {
      if k' != k {
        assert old(CacheAt(N[k'], k', Stage(T0, T1, key, i, k')));
        if IsPrefix(k', key) && |k'| == |k| {
          PrefixByLength(k, k', key);
        }
      }
    }
    forall k' | k' in N
      ensures MarkedAt(N[k'], k', S, key, i1, false)
    {
      assert old(MarkedAt(N[k'], k', S, key, i, false));
      if k' != k {
        if IsPrefix(k', key) && |k'| == |k| {
          PrefixByLength(k, k', key);
        }
      }
    }
  }

  /**
   * `_ancestors(node)`: the nodes met by following the parent links from the node of `k`,
   * nearest first; that is the nodes of the proper prefixes of `k`, longest first.
   */
  method Ancestors(node: Node, ghost N: map<Key, Node>, ghost k: Key) returns (r: seq<Node>)
    requires Chain(N, k) && k in N && node == N[k]
    ensures |r| == |k|
    ensures forall j :: 0 <= j < |k| ==> r[j] == N[k[..|k| - 1 - j]]
  {
    assert k[..|k|] == k;
    r := [];
    var a := node.parent;
    ghost var i := |k|;
    while a != null
      invariant 0 <= i <= |k| && |r| == |k| - i
      invariant a == if i == 0 then null else N[k[..i - 1]]
      invariant forall j :: 0 <= j < |r| ==> r[j] == N[k[..|k| - 1 - j]]
      decreases i
    {
      r := r + [a];
      a := a.parent;
      i := i - 1;
    }
  }

  /** The parent links of a trie follow the prefixes of a key. */
  lemma ChainOf(t: Trie, k: Key)
    requires t.HeapOk() && StructInv(t.order) && k in t.nodes
    ensures Chain(t.nodes, k)
  {
    forall j | 0 <= j <= |k| ensures k[..j] in t.nodes {
      PrefixIn(t.order, k, j);
    }
    assert k[..0] == [];
    assert NodeAt(t.nodes[[]], [], t.nodes, t.terms, t.order);
    forall j | 0 < j <= |k| ensures t.nodes[k[..j]].parent == t.nodes[k[..j - 1]] {
      assert NodeAt(t.nodes[k[..j]], k[..j], t.nodes, t.terms, t.order);
      assert Parent(k[..j]) == k[..j - 1];
    }
  }

  /** A trie's nodes carry their own keys. */
  lemma KeyedOf(t: Trie)
    requires t.HeapOk()
    ensures Keyed(t.nodes)
  {
    forall k | k in t.nodes ensures t.nodes[k].key == k {
      assert NodeAt(t.nodes[k], k, t.nodes, t.terms, t.order);
    }
  }

  /** What `Marked` says about the nodes of the path once all of them are patched. */
  lemma MarkedDirty(N: map<Key, Node>, S: map<Key, Snap>, key: Key, adding: bool)
    requires Marked(N, S, key, 0, adding)
    ensures forall k :: k in N && IsPrefix(k, key) ==> N[k].isDirty
  {
    forall k | k in N && IsPrefix(k, key) ensures N[k].isDirty {
      assert MarkedAt(N[k], k, S, key, 0, adding);
    }
  }

  /** `Marked` holds of any part of the nodes on which the snapshots agree. */
  lemma MarkedRestrict(N: map<Key, Node>, S: map<Key, Snap>, N0: map<Key, Node>, S0: map<Key, Snap>,
                       key: Key, i: nat, adding: bool)
    requires Marked(N, S, key, i, adding)
    requires forall k :: k in N0 ==> k in N && N[k] == N0[k] && k in S && k in S0 && S[k] == S0[k]
    ensures Marked(N0, S0, key, i, adding)
  {
    forall k | k in N0 ensures MarkedAt(N0[k], k, S0, key, i, adding) {
      assert MarkedAt(N[k], k, S, key, i, adding);
    }
  }

  /** The snapshot of a larger map of nodes agrees with that of a smaller one. */
  lemma SnapsSub(N0: map<Key, Node>, N: map<Key, Node>, S0: map<Key, Snap>, S: map<Key, Snap>)
    requires forall k :: k in N0 ==> k in N && N[k] == N0[k]
    requires S0 == Snaps(N0) && S == Snaps(N)
    ensures forall k :: k in N0 ==> k in N && N[k] == N0[k] && k in S && k in S0 && S[k] == S0[k]
  {
  }

  /** New nodes start with an empty cache, which is right: nothing lies below a new key yet. */
  lemma GrowCached(N0: map<Key, Node>, N: map<Key, Node>, T0: Terms, o0: Order)
    requires AllCached(N0, T0) && TreeInv(T0, o0) && N0.Keys == o0.Keys
    requires forall k :: k in N0 ==> k in N && N[k] == N0[k]
    requires forall k :: k in N && k !in N0 ==> N[k].Blank()
    ensures AllCached(N, T0)
  {
    forall k | k in N ensures CacheAt(N[k], k, T0) {
      if k in N0 {
        assert CacheAt(N0[k], k, T0);
      } else {
        SubtreeOfAbsent(T0, o0, k);
      }
    }
  }

  /**
   * The cache updates of `insert`: `key` is set to `v` in the cache of the node of `key`,
   * then in that of each node `_ancestors` yields.
   */
  method PatchInsertPath(node: Node, key: Key, v: int, ghost N: map<Key, Node>, ghost S: map<Key, Snap>,
                         ghost T0: Terms, ghost T1: Terms)
    requires Keyed(N) && Chain(N, key) && key in N && node == N[key] && T1 == T0[key := v]
    requires AllCached(N, T0) && S == Snaps(N)
    modifies Objs(N)`cache, Objs(N)`cacheOrder, Objs(N)`isDirty
    ensures AllCached(N, T1) && Marked(N, S, key, 0, true)
  {
    forall k | !IsPrefix(k, key) ensures Subtree(T1, k) == Subtree(T0, k) {
      SubtreeAfterInsert(T0, k, key, v);
    }
    StartMixed(N, T0, T1, key);
    StartMarked(N, key, true);
    PatchInsert(node, key, key, v, N, S, T0, T1, |key| + 1, |key|);
    var ancestors := Ancestors(node, N, key);
    for j := 0 to |ancestors|
      modifies Objs(N)`cache, Objs(N)`cacheOrder, Objs(N)`isDirty
      invariant Mixed(N, T0, T1, key, |key| - j)
      invariant Marked(N, S, key, |key| - j, true)
    {
      PathStep(key, |key| - 1 - j);
      PatchInsert(ancestors[j], key[..|key| - 1 - j], key, v, N, S, T0, T1, |key| - j, |key| - (j + 1));
    }
    EndMixed(N, T0, T1, key);
  }

  /**
   * The cache updates of `delete` once the node of `key` is known to hold it: `key` leaves
   * the cache of that node, then that of each node `_ancestors` yields.
   */
  method PatchDeletePath(node: Node, key: Key, ghost N: map<Key, Node>, ghost S: map<Key, Snap>,
                         ghost T0: Terms, ghost T1: Terms)
    requires Keyed(N) && Chain(N, key) && key in N && node == N[key] && key in T0 && T1 == T0 - {key}
    requires AllCached(N, T0) && S == Snaps(N)
    modifies Objs(N)`cache, Objs(N)`cacheOrder, Objs(N)`isDirty
    ensures AllCached(N, T1) && Marked(N, S, key, 0, false)
  {
    forall k | !IsPrefix(k, key) ensures Subtree(T1, k) == Subtree(T0, k) {
      SubtreeAfterDelete(T0, k, key);
    }
    StartMixed(N, T0, T1, key);
    StartMarked(N, key, false);
    PatchDelete(node, key, key, N, S, T0, T1, |key| + 1, |key|);
    var ancestors := Ancestors(node, N, key);
    for j := 0 to |ancestors|
      modifies Objs(N)`cache, Objs(N)`cacheOrder, Objs(N)`isDirty
      invariant Mixed(N, T0, T1, key, |key| - j)
      invariant Marked(N, S, key, |key| - j, false)
    {
      PathStep(key, |key| - 1 - j);
      PatchDelete(ancestors[j], key[..|key| - 1 - j], key, N, S, T0, T1, |key| - j, |key| - (j + 1));
    }
    EndMixed(N, T0, T1, key);
  }

  /**
   * What `delete` knows, before the plain delete, about the node of `key` and its
   * ancestors; the plain delete does not touch any of it.
   */
  ghost predicate Ready(node: Node, key: Key, N: map<Key, Node>, S: map<Key, Snap>, T0: Terms)
    reads Objs(N)`key, Objs(N)`parent, Objs(N)`cache, Objs(N)`cacheOrder, Objs(N)`isDirty, Objs(N)`sortedKeys
  {
    Keyed(N) && Chain(N, key) && key in N && node == N[key]
    && AllCached(N, T0) && S == Snaps(N) && Marked(N, S, key, |key| + 1, false)
  }

  /** The arguments of `Ready`, packed as one value. */
  datatype Prep = Prep(node: Node, key: Key, N: map<Key, Node>, S: map<Key, Snap>, T0: Terms)

  /** The fields of a node that `delete`'s cache patch reads, as they stand at one moment. */
  datatype View = View(key: Key, parent: Node?, cache: map<Key, int>, cacheOrder: seq<Key>, dirty: bool, sortedKeys: seq<Key>)

  ghost function Views(N: map<Key, Node>): map<Key, View>
    reads Objs(N)`key, Objs(N)`parent, Objs(N)`cache, Objs(N)`cacheOrder, Objs(N)`isDirty, Objs(N)`sortedKeys
  {
    map k | k in N :: View(N[k].key, N[k].parent, N[k].cache, N[k].cacheOrder, N[k].isDirty, N[k].sortedKeys)
  }

  /** The views of nodes whose viewed fields a step has not written are the same after it. */
  twostate lemma ViewsFramed(N: map<Key, Node>)
    requires unchanged(Objs(N)`key, Objs(N)`parent, Objs(N)`cache, Objs(N)`cacheOrder, Objs(N)`isDirty, Objs(N)`sortedKeys)
    ensures Views(N) == old(Views(N))
  {
  }

  /** Equal views mean equal fields, node by node, and equal memo snapshots. */
  twostate lemma ViewsKept(N: map<Key, Node>)
    requires Views(N) == old(Views(N))
    ensures forall n :: n in Objs(N) ==> n.key == old(n.key) && n.parent == old(n.parent) && n.cache == old(n.cache)
    ensures forall n :: n in Objs(N) ==> n.cacheOrder == old(n.cacheOrder) && n.isDirty == old(n.isDirty) && n.sortedKeys == old(n.sortedKeys)
    ensures Snaps(N) == old(Snaps(N))
  {
    forall n | n in Objs(N)
      ensures n.key == old(n.key) && n.parent == old(n.parent) && n.cache == old(n.cache)
      ensures n.cacheOrder == old(n.cacheOrder) && n.isDirty == old(n.isDirty) && n.sortedKeys == old(n.sortedKeys)
    {
      var k :| k in N && N[k] == n;
      assert Views(N)[k] == old(Views(N))[k];
    }
    forall k | k in N ensures Snaps(N)[k] == old(Snaps(N))[k] {
      assert Views(N)[k] == old(Views(N))[k];
    }
  }

  /** `Ready` survives any step that leaves the views of its nodes alone. */
  twostate lemma ReadyKept(p: Prep)
    requires old(Ready(p.node, p.key, p.N, p.S, p.T0))
    requires Views(p.N) == old(Views(p.N))
    ensures Ready(p.node, p.key, p.N, p.S, p.T0)
  {
    ViewsKept(p.N);
  }

  /** Nodes, their memo snapshots and the terms their caches hold, packed as one value. */
  datatype Cached = Cached(N: map<Key, Node>, S: map<Key, Snap>, T: Terms)

  /** The caches of `N` survive any step that leaves the views of its nodes alone. */
  twostate lemma CachedKept(c: Cached)
    requires old(AllCached(c.N, c.T)) && old(c.S == Snaps(c.N))
    requires Views(c.N) == old(Views(c.N))
    ensures AllCached(c.N, c.T) && c.S == Snaps(c.N)
  {
    ViewsKept(c.N);
  }

  lemma ReadyOf(t: Trie, node: Node, key: Key, S: map<Key, Snap>)
    requires t.Valid() && AllCached(t.nodes, t.terms) && key in t.nodes && node == t.nodes[key] && S == Snaps(t.nodes)
    ensures Ready(node, key, t.nodes, S, t.terms)
  {
    KeyedOf(t);
    ChainOf(t, key);
    StartMarked(t.nodes, key, false);
  }
}
