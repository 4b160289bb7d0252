/**
 * The autocomplete trie of src/autocomplete/trie.py as a heap of `Node` objects.
 *
 * A `Trie` carries, as ghost state, the abstract shape it stands for (`order`, `terms`,
 * see module TrieShape) and the map `nodes` from each key to its node object. `HeapOk`
 * ties every node's fields to that shape; the methods are specified by the functions of
 * TrieShape and TrieBfs, whose properties are proved there.
 */
module Tries {
  import opened Base
  import opened TrieShape
  import opened TrieBfs
  import opened StableSort
  import opened CacheSort

  /**
   * A trie node. The last four fields are those `SubgraphCacheNode` adds; a plain trie
   * leaves them as the constructor sets them. `childOrder` is the iteration order of the
   * `children` dict (its keys in insertion order); `cacheOrder` that of `cache`.
   */
  class Node {
    var key: Key
    var value: Option<int>
    var children: map<char, Node>
    var childOrder: seq<char>
    var isTerminal: bool
    var parent: Node?
    var cache: map<Key, int>
    var cacheOrder: seq<Key>
    var isDirty: bool
    var sortedKeys: seq<Key>

    constructor (key: Key, value: Option<int>)
      ensures this.key == key && this.value == value
      ensures children == map[] && childOrder == [] && !isTerminal && parent == null
      ensures cache == map[] && cacheOrder == [] && !isDirty && sortedKeys == []
    {
      this.key := key;
      this.value := value;
      children := map[];
      childOrder := [];
      isTerminal := false;
      parent := null;
      cache := map[];
      cacheOrder := [];
      isDirty := false;
      sortedKeys := [];
    }

    /** The cache fields as the constructor leaves them. */
    ghost predicate Blank()
      reads this`cache, this`cacheOrder, this`isDirty, this`sortedKeys
    {
      cache == map[] && cacheOrder == [] && !isDirty && sortedKeys == []
    }

    /** A new child `c` of this node, appended to the children in insertion order. */
    method AddChild(c: char) returns (n: Node)
      modifies this`children, this`childOrder
      ensures fresh(n) && n.Blank() && n.parent == this
      ensures n.key == key + [c] && n.value == None && n.children == map[] && n.childOrder == [] && !n.isTerminal
      ensures children == old(children)[c := n] && childOrder == old(childOrder) + [c]
    {
      n := new Node(key + [c], None);
      n.parent := this;
      children := children[c := n];
      childOrder := childOrder + [c];
    }

    /** The memo is either stale (`isDirty`) or holds the sorted keys of the cache. */
    ghost predicate CacheOk()
      reads this`cache, this`cacheOrder, this`isDirty, this`sortedKeys
    {
      Distinct(cacheOrder) && Elems(cacheOrder) == cache.Keys
      && (!isDirty ==> sortedKeys == SortedKeysOf(cacheOrder, cache))
    }

    /**
     * `cache_sorted_keys`: re-sorts only when a write has made the memo stale, and
     * returns the cache's keys by descending value (see CacheSort for what that order is).
     */
    method CacheSortedKeys() returns (r: seq<Key>)
      requires CacheOk()
      modifies this`isDirty, this`sortedKeys
      ensures CacheOk() && !isDirty && sortedKeys == r
      ensures r == SortedKeysOf(cacheOrder, cache)
      ensures !old(isDirty) ==> r == old(sortedKeys)
    {
      if isDirty {
        sortedKeys := SortDesc(cacheOrder, ValueOf(cache));
        isDirty := false;
      }
      r := sortedKeys;
    }
  }

  /**
   * The node `n` stands for key `k` of the shape (`N`, `T`, `o`): its key, children
   * (in order), terminal flag, value and parent link are what the shape says.
   */
  ghost predicate NodeAt(n: Node, k: Key, N: map<Key, Node>, T: Terms, o: Order)
    reads n`key, n`value, n`children, n`childOrder, n`isTerminal, n`parent
  {
    n.key == k && k in o && n.childOrder == o[k]
    && n.children.Keys == Elems(o[k])
    && (forall c :: c in n.children ==> ChildKey(k, c) in N && n.children[c] == N[ChildKey(k, c)])
    && (n.isTerminal <==> k in T)
    && n.value == (if k in T then Some(T[k]) else None)
    && (if k == [] then n.parent == null else Parent(k) in N && n.parent == N[Parent(k)])
  }

  /** `NodeAt` depends only on the entries of the shape around `k`. */
  lemma NodeAtMoved(n: Node, k: Key, N: map<Key, Node>, T: Terms, o: Order, N': map<Key, Node>, T': Terms, o': Order)
    requires NodeAt(n, k, N, T, o)
    requires k in o' && o'[k] == o[k]
    requires (k in T' <==> k in T) && (k in T ==> T'[k] == T[k])
    requires forall c :: c in o[k] ==> ChildKey(k, c) in N' && N'[ChildKey(k, c)] == N[ChildKey(k, c)]
    requires k != [] ==> Parent(k) in N' && N'[Parent(k)] == N[Parent(k)]
    ensures NodeAt(n, k, N', T', o')
  {
  }

  /** A restriction of a map to all of its keys is the map itself. */
  lemma SameKeysSameMap<K, V>(m: map<K, V>, r: map<K, V>)
    requires forall k :: k in r ==> k in m && r[k] == m[k]
    requires r.Keys == m.Keys
    ensures r == m
  {
  }

  /**
   * Where one step of `insert` or `delete` changes trie `t`: the node `node` of key `p`,
   * its edge `c` and the key `x` below that edge.
   */
  datatype Site = Site(t: Trie, node: Node, c: char, p: Key, x: Key)

  /** What `DropChild` does to the heap keeps `HeapOk`. */
  twostate lemma DropChildHeap(e: Site)
    requires old(e.t.HeapOk() && ChildrenListed(e.t.order))
    requires old(e.p in e.t.nodes && e.node == e.t.nodes[e.p] && e.x in e.t.order && e.t.order[e.x] == []) && e.x == ChildKey(e.p, e.c)
    requires e.t.terms == old(e.t.terms) && e.t.Repr == old(e.t.Repr)
    requires e.t.nodes == old(e.t.nodes) - {e.x} && e.t.order == RemoveChild(old(e.t.order), e.p, e.c)
    requires e.node.children == old(e.node.children) - {e.c} && e.node.childOrder == Remove(old(e.node.childOrder), e.c)
    requires unchanged(old(e.t.Repr) - {e.node}) && unchanged(e.node`key, e.node`value, e.node`isTerminal, e.node`parent)
    ensures e.t.HeapOk()
  {
    var t, node, c, p, x := e.t, e.node, e.c, e.p, e.x;
    ghost var N0 := old(t.nodes);
    ghost var o0 := old(t.order);
    ghost var T := t.terms;
    ChildKeyParts(p, c);
    RemoveElems(o0[p], c);
    assert old(NodeAt(t.nodes[p], p, t.nodes, t.terms, t.order));
    forall k | k in t.nodes ensures NodeAt(t.nodes[k], k, t.nodes, T, t.order) {
      assert old(NodeAt(t.nodes[k], k, t.nodes, t.terms, t.order));
      if k != p {
        assert N0[k] in old(t.Repr) - {node};
        assert NodeAt(N0[k], k, N0, T, o0);
        forall c' | c' in o0[k] ensures ChildKey(k, c') in t.nodes && t.nodes[ChildKey(k, c')] == N0[ChildKey(k, c')] {
          ChildKeyParts(k, c');
        }
        if k != [] {
          assert Last(k) in o0[Parent(k)];
        }
        NodeAtMoved(N0[k], k, N0, T, o0, t.nodes, T, t.order);
      } else {
        forall c' | c' in node.children ensures ChildKey(p, c') in t.nodes && node.children[c'] == t.nodes[ChildKey(p, c')] {
          ChildKeyParts(p, c');
        }
      }
    }
  }

  /** What `AddNode` does to the heap keeps `HeapOk`. */
  twostate lemma AddNodeHeap(e: Site, new n: Node)
    requires old(e.t.HeapOk() && e.p in e.t.nodes && e.node == e.t.nodes[e.p] && e.x !in e.t.order && e.x !in e.t.terms)
    requires e.x == ChildKey(e.p, e.c) && n !in old(e.t.Repr)
    requires e.t.terms == old(e.t.terms) && e.t.Repr == old(e.t.Repr) + {n}
    requires e.t.nodes == old(e.t.nodes)[e.x := n] && e.t.order == old(e.t.order)[e.p := old(e.t.order)[e.p] + [e.c]][e.x := []]
    requires e.node.children == old(e.node.children)[e.c := n] && e.node.childOrder == old(e.node.childOrder) + [e.c]
    requires unchanged(old(e.t.Repr) - {e.node}) && unchanged(e.node`key, e.node`value, e.node`isTerminal, e.node`parent)
    requires n.key == e.x && n.value == None && n.children == map[] && n.childOrder == [] && !n.isTerminal && n.parent == e.node
    ensures e.t.HeapOk()
  {
    var t, cur, c, p, x := e.t, e.node, e.c, e.p, e.x;
    ghost var N0 := old(t.nodes);
    ghost var o0 := old(t.order);
    ghost var T := t.terms;
    ChildKeyParts(p, c);
    assert old(NodeAt(t.nodes[p], p, t.nodes, t.terms, t.order));
    forall k | k in t.nodes ensures NodeAt(t.nodes[k], k, t.nodes, T, t.order) {
      if k != x {
        assert old(NodeAt(t.nodes[k], k, t.nodes, t.terms, t.order));
        if k != p {
          assert old(t.nodes[k] in t.Repr);
          assert N0[k] in old(t.Repr) - {cur};
          assert NodeAt(N0[k], k, N0, T, o0);
          NodeAtMoved(N0[k], k, N0, T, o0, t.nodes, T, t.order);
        }
      }
    }
  }

  /** Setting the terminal flag and value of one node (insert's end, delete's base case). */
  twostate lemma SetTermHeap(e: Site)
    requires old(e.t.HeapOk() && e.p in e.t.nodes && e.node == e.t.nodes[e.p])
    requires e.t.nodes == old(e.t.nodes) && e.t.order == old(e.t.order) && e.t.Repr == old(e.t.Repr)
    requires e.t.terms - {e.p} == old(e.t.terms) - {e.p}
    requires (e.node.isTerminal <==> e.p in e.t.terms) && e.node.value == (if e.p in e.t.terms then Some(e.t.terms[e.p]) else None)
    requires unchanged(old(e.t.Repr) - {e.node}) && unchanged(e.node`key, e.node`children, e.node`childOrder, e.node`parent)
    ensures e.t.HeapOk()
  {
    var t, n, k := e.t, e.node, e.p;
    assert old(NodeAt(t.nodes[k], k, t.nodes, t.terms, t.order));
    forall j | j in t.nodes ensures NodeAt(t.nodes[j], j, t.nodes, t.terms, t.order) {
      assert old(NodeAt(t.nodes[j], j, t.nodes, t.terms, t.order));
      if j != k {
        assert old(t.nodes[j] in t.Repr);
        assert t.nodes[j] in old(t.Repr) - {n};
        assert j in t.terms <==> j in t.terms - {k};
        assert j in old(t.terms) <==> j in old(t.terms) - {k};
        if j in t.terms {
          assert t.terms[j] == (t.terms - {k})[j];
          assert old(t.terms)[j] == (old(t.terms) - {k})[j];
        }
      }
    }
  }

  class Trie {
    const root: Node
    /** The node of every key in the trie. */
    ghost var nodes: map<Key, Node>
    /** The terminal keys and their values. */
    ghost var terms: Terms
    /** The child edges of every node, in insertion order. */
    ghost var order: Order
    /** Every node ever created by this trie, pruned ones included. */
    ghost var Repr: set<Node>

    ghost predicate HeapOk()
      reads this, Repr`key, Repr`value, Repr`children, Repr`childOrder, Repr`isTerminal, Repr`parent
    {
      nodes.Keys == order.Keys && [] in nodes && nodes[[]] == root
      && (forall k :: k in nodes ==> nodes[k] in Repr)
      && (forall k {:trigger NodeAt(nodes[k], k, nodes, terms, order)} :: k in nodes ==> NodeAt(nodes[k], k, nodes, terms, order))
    }

    ghost predicate Valid()
      reads this, Repr`key, Repr`value, Repr`children, Repr`childOrder, Repr`isTerminal, Repr`parent
    {
      HeapOk() && TreeInv(terms, order)
    }

    /** `Trie()`: a lone, non-terminal root with the empty key. */
    constructor ()
      ensures Valid() && fresh(Repr)
      ensures terms == map[] && order == map[[] := []]
      ensures root.cache == map[] && root.cacheOrder == [] && !root.isDirty && root.sortedKeys == []
    {
      var r := new Node([], None);
      root := r;
      nodes := map[[] := r];
      terms := map[];
      order := map[[] := []];
      Repr := {r};
    }

    /**
     * `insert(key, value)`: walks `key` from the root, adding each missing child at the
     * end of its parent's children, then marks the last node terminal with the value.
     */
    method Insert(key: Key, v: int) returns (node: Node)
      requires Valid()
      modifies this, Repr`children, Repr`childOrder, Repr`value, Repr`isTerminal
      ensures Valid()
      ensures terms == old(terms)[key := v]
      ensures order == Grow(old(order), key, |key|)
      ensures key in nodes && node == nodes[key]
      ensures node.key == key && node.value == Some(v) && node.isTerminal
      ensures forall k :: k in old(nodes) ==> k in nodes && nodes[k] == old(nodes)[k]
      ensures forall k :: k in nodes && k !in old(nodes) ==> IsPrefix(k, key) && nodes[k].Blank()
      ensures old(Repr) <= Repr && fresh(Repr - old(Repr))
    {
      node := Walk(key);
      SetTerminal(node, key, v);
      assert NodeAt(nodes[key], key, nodes, terms, order);
      InsertShape(old(terms), old(order), key, v);
    }

    /** The end of `insert`: the node of `key` becomes terminal with value `v`. */
    method SetTerminal(node: Node, ghost key: Key, v: int)
      requires HeapOk() && key in nodes && node == nodes[key]
      modifies this, node`isTerminal, node`value
      ensures HeapOk() && terms == old(terms)[key := v]
      ensures order == old(order) && nodes == old(nodes) && Repr == old(Repr)
    {
      assert NodeAt(nodes[key], key, nodes, terms, order);
      node.value := Some(v);
      node.isTerminal := true;
      terms := terms[key := v];
      assert terms - {key} == old(terms) - {key};
      SetTermHeap(Site(this, node, ' ', key, []));
    }

    /** The walk of `insert` down `key`, creating the missing nodes on the way. */
    method Walk(key: Key) returns (cur: Node)
      requires HeapOk() && StructInv(order) && TermsIn(terms, order)
      modifies this, Repr`children, Repr`childOrder
      ensures HeapOk() && StructInv(order) && TermsIn(terms, order)
      ensures order == Grow(old(order), key, |key|) && terms == old(terms)
      ensures key in nodes && cur == nodes[key]
      ensures forall k :: k in old(nodes) ==> k in nodes && nodes[k] == old(nodes)[k]
      ensures forall k :: k in nodes && k !in old(nodes) ==> IsPrefix(k, key) && nodes[k].Blank()
      ensures old(Repr) <= Repr && fresh(Repr - old(Repr))
    {
      ghost var o0, T0, N0 := order, terms, nodes;
      cur := root;
      var i := 0;
      while i < |key|
        invariant Walked(key, i, cur, o0, T0, N0)
        invariant old(Repr) <= Repr && fresh(Repr - old(Repr))
      {
        cur := Descend(cur, key, i, o0, T0, N0);
        i := i + 1;
      }
      assert key[..|key|] == key;
    }

    /**
     * Where the walk of `insert` down `key` stands after `i` characters: `cur` is the node of
     * `key[..i]`, the shape has grown by the nodes of the first `i` prefixes only, which
     * are still blank, and no existing node has moved.
     */
    ghost predicate Walked(key: Key, i: nat, cur: Node, o0: Order, T0: Terms, N0: map<Key, Node>)
      reads this, Repr`key, Repr`value, Repr`children, Repr`childOrder, Repr`isTerminal, Repr`parent
      reads Repr`cache, Repr`cacheOrder, Repr`isDirty, Repr`sortedKeys
    {
      i <= |key| && HeapOk() && StructInv(order) && TermsIn(terms, order)
      && order == Grow(o0, key, i) && terms == T0
      && key[..i] in nodes && cur == nodes[key[..i]]
      && (forall k :: k in N0 ==> k in nodes && nodes[k] == N0[k])
      && (forall k :: k in nodes && k !in N0 ==> IsPrefix(k, key) && nodes[k].Blank())
    }

    /** The loop body of `insert`: moves to the child `key[i]` of `cur`, creating it if missing. */
    method Descend(cur: Node, key: Key, i: nat, ghost o0: Order, ghost T0: Terms, ghost N0: map<Key, Node>)
      returns (next: Node)
      requires i < |key| && Walked(key, i, cur, o0, T0, N0)
      modifies this, cur`children, cur`childOrder
      ensures Walked(key, i + 1, next, o0, T0, N0)
      ensures Repr == old(Repr) || (fresh(next) && Repr == old(Repr) + {next})
    {
      var c := key[i];
      ghost var p, x := key[..i], key[..i + 1];
      PathStep(key, i);
      assert NodeAt(nodes[p], p, nodes, terms, order);
      if c !in cur.children {
        next := Extend(cur, key, i, o0, T0, N0);
      } else {
        assert x in order;
        next := cur.children[c];
      }
    }

    /** `insert`'s loop body when `cur` has no child `key[i]`: the new child is the next node. */
    method Extend(cur: Node, key: Key, i: nat, ghost o0: Order, ghost T0: Terms, ghost N0: map<Key, Node>)
      returns (next: Node)
      requires i < |key| && Walked(key, i, cur, o0, T0, N0) && key[i] !in cur.children
      modifies this, cur`children, cur`childOrder
      ensures Walked(key, i + 1, next, o0, T0, N0)
      ensures Repr == old(Repr) || (fresh(next) && Repr == old(Repr) + {next})
    {
      var c := key[i];
      ghost var p, x := key[..i], key[..i + 1];
      PathStep(key, i);
      StepStruct(order, p, c);
      StepMem(order, p, c, x);
      next := AddNode(cur, c, p, x);
    }

    /** The loop body of `insert` when `cur` has no child `c`: a new node joins the trie. */
    method AddNode(cur: Node, c: char, ghost p: Key, ghost x: Key) returns (n: Node)
      requires HeapOk() && StructInv(order) && TermsIn(terms, order)
      requires p in nodes && cur == nodes[p] && c !in cur.children && x == ChildKey(p, c)
      modifies this, cur`children, cur`childOrder
      ensures HeapOk() && order == Step(old(order), p, c) && terms == old(terms)
      ensures nodes == old(nodes)[x := n] && x !in old(nodes) && fresh(n)
      ensures n.Blank()
      ensures Repr == old(Repr) + {n} && cur.children == old(cur.children)[c := n]
    {
      ChildKeyParts(p, c);
      assert NodeAt(nodes[p], p, nodes, terms, order);
      assert x !in order;
      n := cur.AddChild(c);
      nodes := nodes[x := n];
      order := Step(order, p, c);
      Repr := Repr + {n};
      assert order == old(order)[p := old(order)[p] + [c]][x := []];
      AddNodeHeap(Site(this, cur, c, p, x), n);
    }

    /**
     * `find(key)`: follows `key` from the root; `None` as soon as an edge is missing.
     * It returns a node exactly when `key` is in the trie.
     */
    method Find(key: Key) returns (r: Node?)
      requires Valid()
      ensures r == null <==> key !in order
      ensures r != null ==> key in nodes && r == nodes[key] && r.key == key
    {
      var cur := root;
      var i := 0;
      while i < |key|
        invariant 0 <= i <= |key|
        invariant key[..i] in nodes && cur == nodes[key[..i]]
      {
        var c := key[i];
        assert NodeAt(nodes[key[..i]], key[..i], nodes, terms, order);
        if c !in cur.children {
          assert key !in order by {
            if key in order {
              assert Parent(key[..i + 1]) == key[..i] && Last(key[..i + 1]) == c;
              PrefixIn(order, key, i + 1);
            }
          }
          return null;
        }
        assert ChildKey(key[..i], c) == key[..i + 1];
        cur := cur.children[c];
        i := i + 1;
      }
      assert key[..i] == key;
      assert NodeAt(nodes[key], key, nodes, terms, order);
      return cur;
    }

    /** The nodes `ns` are those of the keys `ks`, in the same order. */
    ghost predicate Lists(ns: seq<Node>, ks: seq<Key>)
      reads this
    {
      |ns| == |ks| && forall i :: 0 <= i < |ks| ==> ks[i] in nodes && ns[i] == nodes[ks[i]]
    }

    lemma ListsConcat(a: seq<Node>, ka: seq<Key>, b: seq<Node>, kb: seq<Key>)
      requires Lists(a, ka) && Lists(b, kb)
      ensures Lists(a + b, ka + kb)
    {
      forall i | 0 <= i < |ka + kb| ensures (ka + kb)[i] in nodes && (a + b)[i] == nodes[(ka + kb)[i]] {
        if i >= |ka| {
          assert (ka + kb)[i] == kb[i - |ka|] && (a + b)[i] == b[i - |ka|];
        }
      }
    }

    lemma ListsSplit(ns: seq<Node>, ks: seq<Key>)
      requires Lists(ns, ks) && ks != []
      ensures Lists([ns[0]], [ks[0]]) && Lists(ns[1..], ks[1..])
    {
      assert ks[0] in nodes && ns[0] == nodes[ks[0]];
      forall i | 0 <= i < |ks| - 1 ensures ks[1..][i] in nodes && ns[1..][i] == nodes[ks[1..][i]] {
        assert ks[1..][i] == ks[i + 1] && ns[1..][i] == ns[i + 1];
      }
    }

    /**
     * `bfs()`: yields the nodes level by level from the root, each level in the order of
     * the level above and then of each node's children; the queue holds the rest of the
     * current level followed by the children of the part already taken.
     */
    method Bfs() returns (r: seq<Node>)
      requires HeapOk() && StructInv(order)
      ensures Lists(r, BfsKeys(order))
    {
      ghost var d: nat, p: nat, out: seq<Key>, q: seq<Key> := 0, 0, [], [[]];
      var queue := [root];
      var visited: set<Key> := {};
      r := [];
      BfsStart(order);
      while queue != []
        invariant BfsAt(order, d, p, out, q)
        invariant Lists(r, out) && Lists(queue, q)
        invariant forall v :: v in visited ==> |v| <= d
        decreases MaxLen(order.Keys) + 1 - d, |Level(order, d)| - p
      {
        queue, r, visited, d, p, out, q := BfsStep(queue, r, visited, d, p, out, q);
      }
      BfsFinish(order, d, p, out);
    }

    /**
     * One round of `bfs`'s loop: the front of the queue is yielded, marked visited, and its
     * children queued behind the rest; the keys read move one place along the level order.
     */
    method BfsStep(queue: seq<Node>, r: seq<Node>, visited: set<Key>,
                   ghost d: nat, ghost p: nat, ghost out: seq<Key>, ghost q: seq<Key>)
      returns (queue': seq<Node>, r': seq<Node>, visited': set<Key>,
               ghost d': nat, ghost p': nat, ghost out': seq<Key>, ghost q': seq<Key>)
      requires HeapOk() && StructInv(order) && queue != []
      requires BfsAt(order, d, p, out, q) && Lists(r, out) && Lists(queue, q)
      requires forall v :: v in visited ==> |v| <= d
      ensures r' == r + [queue[0]] && |queue'| >= |queue| - 1 && queue'[..|queue| - 1] == queue[1..]
      ensures BfsAt(order, d', p', out', q') && Lists(r', out') && Lists(queue', q')
      ensures forall v :: v in visited' ==> |v| <= d'
      ensures d < d' || (d == d' && p < p')
    {
      ghost var k := q[0];
      d', p', out', q' := BfsAdvance(order, d, p, out, q);
      VisitedBelow(visited, d, d', k);
      ListsSplit(queue, q);
      var cur := queue[0];
      var kids;
      visited', kids := Visit(cur, k, visited);
      ListsConcat(queue[1..], q[1..], kids, Kids(order, k));
      ListsConcat(r, out, [cur], [k]);
      queue' := queue[1..] + kids;
      r' := r + [cur];
      assert queue'[..|queue| - 1] == queue[1..];
    }

    /** The keys visited are no longer than the one taken off the queue, nor than the level read. */
    lemma VisitedBelow(visited: set<Key>, d: nat, d': nat, k: Key)
      requires (forall v :: v in visited ==> |v| <= d) && d <= d' && |k| == d'
      ensures forall v :: v in visited ==> |v| <= |k|
      ensures forall v :: v in visited + {k} ==> |v| <= d'
    {
    }

    /**
     * One step of `bfs` at the node `cur` of key `k`: marks `k` visited and returns the
     * children it appends to the queue, those not yet visited, in order. As `visited` holds
     * no key longer than `k`, that is every child.
     */
    method Visit(cur: Node, ghost k: Key, visited: set<Key>) returns (visited': set<Key>, kids: seq<Node>)
      requires HeapOk() && k in nodes && cur == nodes[k]
      requires forall v :: v in visited ==> |v| <= |k|
      ensures visited' == visited + {k}
      ensures Lists(kids, Kids(order, k))
    {
      assert NodeAt(nodes[k], k, nodes, terms, order);
      visited' := visited + {cur.key};
      kids := [];
      var j := 0;
      while j < |cur.childOrder|
        invariant j <= |cur.childOrder|
        invariant Lists(kids, KidsOf(k, cur.childOrder[..j]))
        invariant visited' == visited + {k}
      {
        var c := cur.childOrder[j];
        assert c in Elems(order[k]);
        var child := cur.children[c];
        assert NodeAt(nodes[ChildKey(k, c)], ChildKey(k, c), nodes, terms, order);
        KidsOfSnoc(k, cur.childOrder, j);
        ListsConcat(kids, KidsOf(k, cur.childOrder[..j]), [child], [ChildKey(k, c)]);
        if child.key !in visited' {
          kids := kids + [child];
        }
        j := j + 1;
      }
      assert cur.childOrder[..j] == cur.childOrder;
    }

    /**
     * `delete(key)`: clears the terminal flag of `key`, then drops every node on its path
     * that is left without a terminal key below it. A key not in the trie changes nothing.
     */
    method Delete(key: Key)
      requires Valid()
      modifies this, Repr`children, Repr`childOrder, Repr`value, Repr`isTerminal
      ensures Valid()
      ensures terms == old(terms) - {key}
      ensures order == Prune(old(order), terms, key, 0)
      ensures forall k :: k in nodes ==> k in old(nodes) && nodes[k] == old(nodes)[k]
      ensures Repr == old(Repr)
      ensures key !in old(terms) ==> terms == old(terms) && order == old(order) && nodes == old(nodes)
    {
      assert key == [] + key;
      var _ := Inner(root, key, []);
      DeleteShape(old(terms), old(order), key);
      if key !in old(terms) {
        PruneNoop(old(terms), old(order), key, 0);
        SameKeysSameMap(old(nodes), nodes);
      }
    }

    /**
     * `delete`'s inner function on the node of `prefix` and the rest of the key. It returns
     * the node, or `None` once the node is neither terminal nor has a child (its parent then
     * removes it); the root's result is ignored.
     */
    method Inner(node: Node, rest: Key, ghost prefix: Key) returns (r: Node?)
      requires Valid()
      requires prefix in nodes && node == nodes[prefix]
      modifies this, Repr`children, Repr`childOrder, Repr`value, Repr`isTerminal
      ensures HeapOk() && StructInv(order)
      ensures terms == old(terms) - {prefix + rest}
      ensures order == Prune(old(order), terms, prefix + rest, |prefix|)
      ensures forall k :: k in nodes ==> k in old(nodes) && nodes[k] == old(nodes)[k]
      ensures Repr == old(Repr)
      ensures prefix in order
      ensures r != null ==> r == node
      ensures prefix != [] ==> (r == null <==> prefix !in terms && order[prefix] == [])
      decreases |rest|, 1
    {
      ghost var key := prefix + rest;
      ghost var T0 := terms;
      ghost var o0 := order;
      ghost var d := |prefix|;
      assert key[..d] == prefix;
      PruneStruct(T0, o0, key, d);
      if rest == [] {
        assert key == prefix;
        PruneBottom(o0, T0 - {key}, key);
        r := ClearKey(node, prefix);
        return;
      }
      r := InnerStep(node, rest, prefix);
    }

    /** `inner` when the key goes on below this node: follow the edge `rest[0]`, if any. */
    method InnerStep(node: Node, rest: Key, ghost prefix: Key) returns (r: Node?)
      requires rest != []
      requires Valid()
      requires prefix in nodes && node == nodes[prefix]
      modifies this, Repr`children, Repr`childOrder, Repr`value, Repr`isTerminal
      ensures HeapOk() && StructInv(order)
      ensures terms == old(terms) - {prefix + rest}
      ensures order == Prune(old(order), terms, prefix + rest, |prefix|)
      ensures forall k :: k in nodes ==> k in old(nodes) && nodes[k] == old(nodes)[k]
      ensures Repr == old(Repr)
      ensures prefix in order
      ensures r != null ==> r == node
      ensures prefix != [] ==> (r == null <==> prefix !in terms && order[prefix] == [])
      decreases |rest|, 0
    {
      ghost var key := prefix + rest;
      ghost var T0 := terms;
      ghost var o0 := order;
      ghost var d := |prefix|;
      KeySplit(prefix, rest);
      PruneStruct(T0, o0, key, d);
      var c := rest[0];
      assert NodeAt(nodes[prefix], prefix, nodes, terms, order);
      if c !in node.children {
        DeleteMissingEdge(T0, o0, key, d);
        return node;
      }
      ghost var x := ChildKey(prefix, c);
      ChildKeyParts(prefix, c);
      DeleteStepBack(T0, o0, key, d);
      var child := Inner(node.children[c], rest[1..], x);
      r := AfterChild(node, c, child, prefix);
    }

    /**
     * `inner`'s base case: the node of the whole key loses its terminal flag and value,
     * and is returned only while it has children.
     */
    method ClearKey(node: Node, ghost key: Key) returns (r: Node?)
      requires HeapOk() && key in nodes && node == nodes[key]
      modifies this, node`isTerminal, node`value
      ensures HeapOk() && terms == old(terms) - {key}
      ensures order == old(order) && nodes == old(nodes) && Repr == old(Repr)
      ensures r != null ==> r == node
      ensures r == null <==> order[key] == []
    {
      assert NodeAt(nodes[key], key, nodes, terms, order);
      if node.isTerminal {
        node.isTerminal := false;
        node.value := None;
      }
      terms := terms - {key};
      assert terms - {key} == old(terms) - {key};
      SetTermHeap(Site(this, node, ' ', key, []));
      if node.children != map[] {
        r := node;
      } else {
        r := null;
        ElemsEmpty(order[key]);
      }
    }

    /**
     * `inner` after the recursive call on the child `c`: drops the child if it came back
     * as `None`, then returns the node unless it is left non-terminal and childless.
     */
    method AfterChild(node: Node, c: char, child: Node?, ghost prefix: Key) returns (r: Node?)
      requires HeapOk() && StructInv(order)
      requires prefix in nodes && node == nodes[prefix] && ChildKey(prefix, c) in order
      requires child == null ==> ChildKey(prefix, c) !in terms && order[ChildKey(prefix, c)] == []
      requires child != null ==> child == nodes[ChildKey(prefix, c)]
      modifies this, node`children, node`childOrder
      ensures HeapOk() && terms == old(terms) && Repr == old(Repr)
      ensures child == null ==> order == RemoveChild(old(order), prefix, c) && nodes == old(nodes) - {ChildKey(prefix, c)}
      ensures child != null ==> order == old(order) && nodes == old(nodes)
      ensures r != null ==> r == node
      ensures r == null <==> prefix !in terms && order[prefix] == []
    {
      ghost var x := ChildKey(prefix, c);
      ChildKeyParts(prefix, c);
      assert c in order[prefix];
      assert NodeAt(nodes[prefix], prefix, nodes, terms, order);
      if child == null {
        DropChild(node, c, prefix, x);
      } else {
        node.children := node.children[c := child];
        assert node.children == old(node.children);
      }
      assert NodeAt(nodes[prefix], prefix, nodes, terms, order);
      if node.children != map[] || node.isTerminal {
        r := node;
      } else {
        r := null;
        ElemsEmpty(order[prefix]);
      }
    }

    /**
     * `del node.children[c]` when the child `x` came back as `None`: the child leaves the
     * parent's children and the trie.
     */
    method DropChild(node: Node, c: char, ghost p: Key, ghost x: Key)
      requires HeapOk() && StructInv(order)
      requires p in nodes && node == nodes[p] && x == ChildKey(p, c) && x in order && order[x] == []
      modifies this, node`children, node`childOrder
      ensures HeapOk() && terms == old(terms) && Repr == old(Repr)
      ensures order == RemoveChild(old(order), p, c)
      ensures nodes == old(nodes) - {x}
    {
      node.children := node.children - {c};
      node.childOrder := Remove(node.childOrder, c);
      nodes := nodes - {x};
      order := RemoveChild(order, p, c);
      DropChildHeap(Site(this, node, c, p, x));
    }
  }
}
