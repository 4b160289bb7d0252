/**
 * The abstract shape of the autocomplete trie, as plain values.
 *
 * A trie is described by two maps: `order` gives, for the key of every node, the
 * characters of its child edges in the order the children were added (the iteration
 * order of the node's `children` dict), and `terms` gives the value of every terminal
 * key. The heap-based trie keeps its nodes in step with these maps, and its insert,
 * delete and breadth-first traversal are specified by the functions below.
 */
module TrieShape {
  import opened Base

  type Key = string
  /** Node key -> edge characters of its children, in insertion order. */
  type Order = map<Key, seq<char>>
  /** Terminal key -> value. */
  type Terms = map<Key, int>

  function Parent(k: Key): Key
    requires k != []
  {
    k[..|k| - 1]
  }

  function Last(k: Key): char
    requires k != []
  {
    k[|k| - 1]
  }

  /** The key of the child reached from `k` along the edge `c` (`current_node.key + c`). */
  function ChildKey(k: Key, c: char): Key {
    k + [c]
  }

  lemma ChildKeyParts(k: Key, c: char)
    ensures ChildKey(k, c) != [] && |ChildKey(k, c)| == |k| + 1
    ensures Parent(ChildKey(k, c)) == k && Last(ChildKey(k, c)) == c
  {
    assert ChildKey(k, c)[..|k|] == k;
  }

  lemma ParentLast(k: Key)
    requires k != []
    ensures ChildKey(Parent(k), Last(k)) == k
  {
  }

  /** How a key splits at the node of `prefix` on its path. */
  lemma KeySplit(prefix: Key, rest: Key)
    requires rest != []
    ensures (prefix + rest)[..|prefix|] == prefix && (prefix + rest)[|prefix|] == rest[0]
    ensures (prefix + rest)[..|prefix| + 1] == ChildKey(prefix, rest[0])
    ensures prefix + rest == ChildKey(prefix, rest[0]) + rest[1..]
  {
    assert rest == [rest[0]] + rest[1..];
  }

  predicate IsPrefix(p: Key, k: Key) {
    |p| <= |k| && k[..|p|] == p
  }

  /** One step further down the path of `key`. */
  lemma PathStep(key: Key, i: nat)
    requires i < |key|
    ensures ChildKey(key[..i], key[i]) == key[..i + 1] && IsPrefix(key[..i + 1], key)
  {
  }

  lemma PrefixLonger(p: Key, k: Key)
    requires IsPrefix(p, k) && p != k
    ensures |p| < |k|
  {
  }

  /** Some terminal key lies in the subtree of `k` (`k` itself included). */
  ghost predicate HasTerm(T: Terms, k: Key) {
    exists t :: t in T && IsPrefix(k, t)
  }

  /** Every non-root node is listed among its parent's children. */
  ghost predicate ChildrenListed(o: Order) {
    forall k {:trigger Parent(k)} :: k in o && k != [] ==> Parent(k) in o && Last(k) in o[Parent(k)]
  }

  /** Every listed child edge leads to a node. */
  ghost predicate ChildrenExist(o: Order) {
    forall k, c {:trigger c in o[k]} :: k in o && c in o[k] ==> ChildKey(k, c) in o
  }

  ghost predicate ListsDistinct(o: Order) {
    forall k :: k in o ==> Distinct(o[k])
  }

  /** A rooted tree of keys in which each node's key extends its parent's by one character. */
  ghost predicate StructInv(o: Order) {
    [] in o && ChildrenListed(o) && ChildrenExist(o) && ListsDistinct(o)
  }

  ghost predicate TermsIn(T: Terms, o: Order) {
    forall t :: t in T ==> t in o
  }

  /** No node other than the root is kept without a terminal key below it. */
  ghost predicate NoDeadNodes(T: Terms, o: Order) {
    forall k {:trigger HasTerm(T, k)} :: k in o && k != [] ==> HasTerm(T, k)
  }

  /** The invariant of a trie that only `insert` and `delete` have touched. */
  ghost predicate TreeInv(T: Terms, o: Order) {
    StructInv(o) && TermsIn(T, o) && NoDeadNodes(T, o)
  }

  lemma {:induction false} PrefixIn(o: Order, k: Key, j: nat)
    requires ChildrenListed(o) && k in o && j <= |k|
    ensures k[..j] in o
    decreases |k| - j
  {
    if j < |k| {
      PrefixIn(o, k, j + 1);
      var y := k[..j + 1];
      assert y != [] && Parent(y) == k[..j];
    } else {
      assert k[..j] == k;
    }
  }

  /** A node exists iff it is terminal or has a child (the root always exists). */
  lemma {:induction false} TerminalOrHasChild(T: Terms, o: Order, k: Key)
    requires TreeInv(T, o) && k in o && k != []
    ensures k in T || o[k] != []
  {
    assert HasTerm(T, k);
    var t :| t in T && IsPrefix(k, t);
    if t != k {
      PrefixLonger(k, t);
      PrefixIn(o, t, |k| + 1);
      var y := t[..|k| + 1];
      assert y[..|k|] == t[..|k|];
      assert Parent(y) == k;
      assert Last(y) in o[k];
    }
  }

  // ---------------------------------------------------------------------------------
  // Insert: walking the key from the root and adding each missing child.

  /** Adds the child `c` below `p` unless it is already there (trie.py, insert's loop body). */
  function Step(o: Order, p: Key, c: char): Order {
    if ChildKey(p, c) in o then o
    else o[p := (if p in o then o[p] else []) + [c]][ChildKey(p, c) := []]
  }

  /** The shape after walking the first `i` characters of `key`. */
  function Grow(o: Order, key: Key, i: nat): Order
    requires i <= |key|
  {
    if i == 0 then o else Step(Grow(o, key, i - 1), key[..i - 1], key[i - 1])
  }

  /** `Step` adds the child (and nothing else) and only appends to the parent's list. */
  lemma StepMem(o: Order, p: Key, c: char, k: Key)
    requires p in o
    ensures k in Step(o, p, c) <==> k in o || k == ChildKey(p, c)
    ensures k in o ==> o[k] <= Step(o, p, c)[k]
  {
  }

  lemma StepStruct(o: Order, p: Key, c: char)
    requires StructInv(o) && p in o
    ensures StructInv(Step(o, p, c))
  {
    var x := ChildKey(p, c);
    ChildKeyParts(p, c);
    if x !in o {
      var o' := Step(o, p, c);
      assert c !in o[p];
      assert o'[p] == o[p] + [c];
      forall k | k in o' && k != [] ensures Parent(k) in o' && Last(k) in o'[Parent(k)] {
        if k != x {
          assert Parent(k) in o;
          StepMem(o, p, c, Parent(k));
        }
      }
      forall k, c' | k in o' && c' in o'[k] ensures ChildKey(k, c') in o' {
        if k == p && c' != c {
          assert c' in o[p] by {
            var i :| 0 <= i < |o'[p]| && o'[p][i] == c';
            assert i < |o[p]|;
          }
        }
      }
      forall k | k in o' ensures Distinct(o'[k]) {
        if k == p {
          assert Distinct(o[p]);
        }
      }
    }
  }

  lemma {:induction false} GrowStruct(o: Order, key: Key, i: nat)
    requires StructInv(o) && i <= |key|
    ensures StructInv(Grow(o, key, i))
    ensures key[..i] in Grow(o, key, i)
  {
    if i == 0 {
      assert key[..0] == [];
    } else {
      GrowStruct(o, key, i - 1);
      StepStruct(Grow(o, key, i - 1), key[..i - 1], key[i - 1]);
      assert ChildKey(key[..i - 1], key[i - 1]) == key[..i];
      StepMem(Grow(o, key, i - 1), key[..i - 1], key[i - 1], key[..i]);
    }
  }

  /** Walking `key` adds exactly its missing prefixes, and only appends to child lists. */
  lemma {:induction false} GrowMem(o: Order, key: Key, i: nat, k: Key)
    requires StructInv(o) && i <= |key|
    ensures k in Grow(o, key, i) <==> k in o || (IsPrefix(k, key) && |k| <= i)
    ensures k in o ==> o[k] <= Grow(o, key, i)[k]
  {
    if i == 0 {
      if IsPrefix(k, key) && |k| <= 0 {
        assert k == [];
      }
    } else {
      GrowMem(o, key, i - 1, k);
      GrowStruct(o, key, i - 1);
      var g := Grow(o, key, i - 1);
      StepMem(g, key[..i - 1], key[i - 1], k);
      assert ChildKey(key[..i - 1], key[i - 1]) == key[..i];
      if IsPrefix(k, key) && |k| == i {
        assert k == key[..i];
      }
    }
  }

  /**
   * Inserting `key` into a valid trie gives a valid trie whose nodes are the old ones
   * plus every prefix of `key`, and in which every old node keeps its children in order
   * (new children are only appended).
   */
  lemma InsertShape(T: Terms, o: Order, key: Key, v: int)
    requires TreeInv(T, o)
    ensures TreeInv(T[key := v], Grow(o, key, |key|))
    ensures forall k :: k in Grow(o, key, |key|) <==> k in o || IsPrefix(k, key)
    ensures forall k :: k in o ==> o[k] <= Grow(o, key, |key|)[k]
  {
    GrowStruct(o, key, |key|);
    var T' := T[key := v];
    var g := Grow(o, key, |key|);
    assert key[..|key|] == key;
    forall k ensures (k in g <==> k in o || IsPrefix(k, key)) && (k in o ==> o[k] <= g[k]) {
      GrowMem(o, key, |key|, k);
    }
    forall k | k in g && k != [] ensures HasTerm(T', k) {
      if k in o {
        assert HasTerm(T, k);
        var t :| t in T && IsPrefix(k, t);
        assert t in T';
      } else {
        assert IsPrefix(k, key) && key in T';
      }
    }
  }

  // ---------------------------------------------------------------------------------
  // Subtree caches.

  /** The terminal keys in the subtree of `k` (`k` included), with their values. */
  function Subtree(T: Terms, k: Key): map<Key, int> {
    map t | t in T && IsPrefix(k, t) :: T[t]
  }

  /** The root's subtree cache holds every terminal key of the trie. */
  lemma SubtreeOfRoot(T: Terms)
    ensures Subtree(T, []) == T
  {
    assert forall t :: IsPrefix([], t);
  }

  /** Insert overwrites `key` in the caches of `key` and its ancestors, and nowhere else. */
  lemma SubtreeAfterInsert(T: Terms, k: Key, key: Key, v: int)
    ensures Subtree(T[key := v], k) == if IsPrefix(k, key) then Subtree(T, k)[key := v] else Subtree(T, k)
  {
  }

  /** Delete removes `key` from the caches that hold it and changes nothing else. */
  lemma SubtreeAfterDelete(T: Terms, k: Key, key: Key)
    ensures Subtree(T - {key}, k) == Subtree(T, k) - {key}
    ensures key in Subtree(T, k) <==> key in T && IsPrefix(k, key)
  {
  }

  /** A key that is not a node has nothing below it. */
  lemma SubtreeOfAbsent(T: Terms, o: Order, k: Key)
    requires TreeInv(T, o) && k !in o
    ensures Subtree(T, k) == map[]
  {
    forall t | t in T && IsPrefix(k, t) ensures false {
      PrefixIn(o, t, |k|);
    }
  }

  // ---------------------------------------------------------------------------------
  // Delete: clearing the terminal flag and pruning the path bottom-up.

  /**
   * Below depth `d`, a node on the path of `key` that has lost every terminal key in its
   * subtree: the recursion of trie.py's delete removes it on the way back up.
   */
  ghost predicate Doomed(T: Terms, key: Key, d: nat, k: Key) {
    |k| > d && IsPrefix(k, key) && !HasTerm(T, k)
  }

  /** The child edges in `s` whose child survives, in their order. */
  ghost function KeepChildren(s: seq<char>, T: Terms, key: Key, d: nat, k: Key): (r: seq<char>)
    ensures forall c :: c in r <==> c in s && !Doomed(T, key, d, ChildKey(k, c))
    ensures Distinct(s) ==> Distinct(r)
    ensures |r| <= |s|
  {
    if s == [] then []
    else
      var r' := KeepChildren(s[1..], T, key, d, k);
      assert s == [s[0]] + s[1..];
      if Doomed(T, key, d, ChildKey(k, s[0])) then r'
      else
        var r := [s[0]] + r';
        assert Distinct(s) ==> Distinct(r) by {
          if Distinct(s) {
            assert s[0] !in s[1..];
            forall i, j | 0 <= i < j < |r| ensures r[i] != r[j] {
              if i == 0 { assert r[j] in r'; } else { assert r[i] == r'[i - 1] && r[j] == r'[j - 1]; }
            }
          }
        }
        r
  }

  /**
   * The shape once the nodes doomed below depth `d` are gone (with `T` the terminal
   * keys after the deletion). `Prune(o, T - {key}, key, 0)` is the whole delete.
   */
  ghost function Prune(o: Order, T: Terms, key: Key, d: nat): Order {
    map k | k in o && !Doomed(T, key, d, k) :: KeepChildren(o[k], T, key, d, k)
  }

  lemma {:induction false} KeepAll(s: seq<char>, T: Terms, key: Key, d: nat, k: Key)
    requires forall c :: c in s ==> !Doomed(T, key, d, ChildKey(k, c))
    ensures KeepChildren(s, T, key, d, k) == s
  {
    if s != [] {
      KeepAll(s[1..], T, key, d, k);
      assert s == [s[0]] + s[1..];
    }
  }

  lemma {:induction false} KeepSame(s: seq<char>, T: Terms, key: Key, d: nat, d': nat, k: Key)
    requires forall c :: c in s ==> (Doomed(T, key, d, ChildKey(k, c)) <==> Doomed(T, key, d', ChildKey(k, c)))
    ensures KeepChildren(s, T, key, d, k) == KeepChildren(s, T, key, d', k)
  {
    if s != [] {
      KeepSame(s[1..], T, key, d, d', k);
      assert s[0] in s;
    }
  }

  lemma {:induction false} KeepDropOne(s: seq<char>, T: Terms, key: Key, d: nat, k: Key, c0: char)
    requires Distinct(s)
    requires forall c :: c in s && c != c0 ==> (Doomed(T, key, d, ChildKey(k, c)) <==> Doomed(T, key, d + 1, ChildKey(k, c)))
    requires c0 in s ==> Doomed(T, key, d, ChildKey(k, c0)) && !Doomed(T, key, d + 1, ChildKey(k, c0))
    ensures KeepChildren(s, T, key, d, k) == Remove(KeepChildren(s, T, key, d + 1, k), c0)
  {
    if s != [] {
      assert s == [s[0]] + s[1..];
      assert Distinct(s[1..]);
      assert s[0] in s;
      KeepDropOne(s[1..], T, key, d, k, c0);
      if s[0] == c0 {
        assert c0 !in s[1..];
        assert c0 !in KeepChildren(s[1..], T, key, d + 1, k);
      }
    }
  }

  lemma HasTermUp(T: Terms, k: Key)
    requires k != [] && HasTerm(T, k)
    ensures HasTerm(T, Parent(k))
  {
    var t :| t in T && IsPrefix(k, t);
    assert IsPrefix(Parent(k), t);
  }

  /** A node off the path of the deleted key keeps a terminal key below it. */
  lemma HasTermOffPath(T: Terms, key: Key, k: Key)
    requires HasTerm(T, k) && !IsPrefix(k, key)
    ensures HasTerm(T - {key}, k)
  {
    var t :| t in T && IsPrefix(k, t);
    assert t != key;
    assert t in T - {key};
  }

  lemma {:induction false} PruneStruct(T: Terms, o: Order, key: Key, d: nat)
    requires TreeInv(T, o)
    ensures StructInv(Prune(o, T - {key}, key, d))
    ensures forall k :: k in Prune(o, T - {key}, key, d) ==> k in o
  {
    var T' := T - {key};
    var p := Prune(o, T', key, d);
    assert [] in p;
    forall k | k in p && k != [] ensures Parent(k) in p && Last(k) in p[Parent(k)] {
      var q := Parent(k);
      assert q in o && Last(k) in o[q];
      if Doomed(T', key, d, q) {
        if IsPrefix(k, key) {
          assert HasTerm(T', k);
          HasTermUp(T', k);
          assert false;
        } else {
          assert HasTerm(T, k);
          HasTermOffPath(T, key, k);
          HasTermUp(T', k);
          assert false;
        }
      }
      ParentLast(k);
    }
    forall k, c | k in p && c in p[k] ensures ChildKey(k, c) in p {
      assert c in o[k];
    }
  }

  /** When `key` is not terminal, delete prunes nothing at any depth. */
  lemma PruneNoop(T: Terms, o: Order, key: Key, d: nat)
    requires TreeInv(T, o) && key !in T
    ensures Prune(o, T - {key}, key, d) == o
  {
    assert T - {key} == T;
    forall k | k in o ensures !Doomed(T, key, d, k) {
    }
    forall k | k in o ensures KeepChildren(o[k], T, key, d, k) == o[k] {
      forall c | c in o[k] ensures !Doomed(T, key, d, ChildKey(k, c)) {
        assert ChildKey(k, c) in o && ChildKey(k, c) != [];
      }
      KeepAll(o[k], T, key, d, k);
    }
  }

  /** At the depth of the key itself nothing is pruned yet. */
  lemma PruneBottom(o: Order, T: Terms, key: Key)
    ensures Prune(o, T, key, |key|) == o
  {
    forall k | k in o ensures KeepChildren(o[k], T, key, |key|, k) == o[k] {
      forall c | c in o[k] ensures !Doomed(T, key, |key|, ChildKey(k, c)) {
        ChildKeyParts(k, c);
      }
      KeepAll(o[k], T, key, |key|, k);
    }
  }

  /** Removing the child `c` of `p` (trie.py's `del node.children[key[0]]`). */
  function RemoveChild(o: Order, p: Key, c: char): Order
    requires p in o
  {
    (o - {ChildKey(p, c)})[p := Remove(o[p], c)]
  }

  /** One level deeper, the only node whose fate changes is `key[..d+1]`. */
  lemma DoomedShift(T: Terms, key: Key, d: nat, k: Key)
    requires d < |key|
    ensures Doomed(T, key, d, k) <==> Doomed(T, key, d + 1, k) || (k == key[..d + 1] && !HasTerm(T, k))
  {
    if |k| == d + 1 && IsPrefix(k, key) {
      assert k == key[..d + 1];
    }
  }

  /** If `key[..d+1]` keeps a terminal key, pruning at depth `d` removes nothing more. */
  lemma {:induction false} PruneKeepStep(o: Order, T: Terms, key: Key, d: nat)
    requires d < |key| && HasTerm(T, key[..d + 1])
    ensures Prune(o, T, key, d) == Prune(o, T, key, d + 1)
  {
    var o0 := Prune(o, T, key, d);
    var o1 := Prune(o, T, key, d + 1);
    forall k ensures k in o0 <==> k in o1 {
      DoomedShift(T, key, d, k);
    }
    forall k | k in o0 ensures o0[k] == o1[k] {
      forall c | c in o[k] ensures Doomed(T, key, d, ChildKey(k, c)) <==> Doomed(T, key, d + 1, ChildKey(k, c)) {
        DoomedShift(T, key, d, ChildKey(k, c));
      }
      KeepSame(o[k], T, key, d, d + 1, k);
    }
  }

  /**
   * If `key[..d+1]` has lost every terminal key, pruning at depth `d` also removes it
   * from the shape and from its parent's children.
   */
  lemma {:induction false} PruneDropStep(o: Order, T: Terms, key: Key, d: nat)
    requires d < |key| && !HasTerm(T, key[..d + 1])
    requires key[..d] in o && Distinct(o[key[..d]])
    ensures key[..d] in Prune(o, T, key, d + 1)
    ensures Prune(o, T, key, d) == RemoveChild(Prune(o, T, key, d + 1), key[..d], key[d])
  {
    var x := key[..d + 1];
    var p := key[..d];
    var c := key[d];
    assert ChildKey(p, c) == x;
    var o0 := Prune(o, T, key, d);
    var o1 := Prune(o, T, key, d + 1);
    var r := RemoveChild(o1, p, c);
    forall k ensures k in o0 <==> k in r {
      DoomedShift(T, key, d, k);
    }
    forall k | k in o0 ensures o0[k] == r[k] {
      forall c' | c' in o[k] && ChildKey(k, c') != x
        ensures Doomed(T, key, d, ChildKey(k, c')) <==> Doomed(T, key, d + 1, ChildKey(k, c'))
      {
        DoomedShift(T, key, d, ChildKey(k, c'));
      }
      if k == p {
        forall c' | c' in o[p] && c' != c
          ensures Doomed(T, key, d, ChildKey(p, c')) <==> Doomed(T, key, d + 1, ChildKey(p, c'))
        {
          ChildKeyParts(p, c');
        }
        KeepDropOne(o[p], T, key, d, p, c);
      } else {
        forall c' | c' in o[k] ensures ChildKey(k, c') != x {
          ChildKeyParts(k, c');
          ChildKeyParts(p, c);
        }
        KeepSame(o[k], T, key, d, d + 1, k);
      }
    }
  }

  /** The node at depth `d + 1` on the path survives pruning below it. */
  lemma PrunePathKept(o: Order, T: Terms, key: Key, d: nat)
    requires d < |key| && key[..d + 1] in o
    ensures key[..d + 1] in Prune(o, T, key, d + 1)
  {
  }

  /** A path node that still has a terminal key below it is terminal or keeps a child. */
  lemma {:induction false} LiveNodeKeepsChild(T: Terms, o: Order, key: Key, d: nat)
    requires TreeInv(T, o) && d < |key| && key[..d + 1] in o
    requires HasTerm(T - {key}, key[..d + 1]) && key[..d + 1] !in T - {key}
    ensures Prune(o, T - {key}, key, d + 1)[key[..d + 1]] != []
  {
    var T' := T - {key};
    var x := key[..d + 1];
    var o1 := Prune(o, T', key, d + 1);
    var t :| t in T' && IsPrefix(x, t);
    PrefixLonger(x, t);
    PrefixIn(o, t, |x| + 1);
    var y := t[..|x| + 1];
    assert y[..|x|] == t[..|x|];
    assert Parent(y) == x;
    assert Last(y) in o[x];
    assert IsPrefix(y, t);
    ParentLast(y);
    assert !Doomed(T', key, d + 1, ChildKey(x, Last(y)));
    assert Last(y) in o1[x];
  }

  /** A path node that keeps a child after pruning still has a terminal key below it. */
  lemma {:induction false} ChildKeepsNodeLive(T: Terms, o: Order, key: Key, d: nat)
    requires TreeInv(T, o) && d < |key| && key[..d + 1] in o
    requires Prune(o, T - {key}, key, d + 1)[key[..d + 1]] != []
    ensures HasTerm(T - {key}, key[..d + 1])
  {
    var T' := T - {key};
    var x := key[..d + 1];
    var o1 := Prune(o, T', key, d + 1);
    var c := o1[x][0];
    assert c in o1[x];
    var y := ChildKey(x, c);
    assert y in o && !Doomed(T', key, d + 1, y);
    ChildKeyParts(x, c);
    if IsPrefix(y, key) {
      HasTermUp(T', y);
    } else {
      assert HasTerm(T, y);
      HasTermOffPath(T, key, y);
      HasTermUp(T', y);
    }
  }

  /**
   * Once everything below `x = key[..d+1]` is pruned, `x` still has a terminal key below
   * it exactly when it is terminal or keeps a child: what the recursive call returns.
   */
  lemma PruneHasTermIff(T: Terms, o: Order, key: Key, d: nat)
    requires TreeInv(T, o) && d < |key| && key[..d + 1] in o
    ensures key[..d + 1] in Prune(o, T - {key}, key, d + 1)
    ensures HasTerm(T - {key}, key[..d + 1]) <==>
      key[..d + 1] in T - {key} || Prune(o, T - {key}, key, d + 1)[key[..d + 1]] != []
  {
    var x := key[..d + 1];
    if x in T - {key} {
      assert IsPrefix(x, x);
    } else if HasTerm(T - {key}, x) {
      LiveNodeKeepsChild(T, o, key, d);
    } else if Prune(o, T - {key}, key, d + 1)[x] != [] {
      ChildKeepsNodeLive(T, o, key, d);
    }
  }

  /** Deleting a key whose path breaks off at depth `d` changes nothing. */
  lemma DeleteMissingEdge(T: Terms, o: Order, key: Key, d: nat)
    requires TreeInv(T, o) && d < |key| && key[..d] in o && key[d] !in o[key[..d]]
    ensures key !in o && T - {key} == T
    ensures Prune(o, T - {key}, key, d) == o
    ensures key[..d] != [] ==> key[..d] in T || o[key[..d]] != []
  {
    assert key !in o by {
      if key in o {
        PathStep(key, d);
        ChildKeyParts(key[..d], key[d]);
        PrefixIn(o, key, d + 1);
      }
    }
    PruneNoop(T, o, key, d);
    if key[..d] != [] {
      TerminalOrHasChild(T, o, key[..d]);
    }
  }

  /**
   * One step of delete's recursion on the way back up, from depth `d + 1` to depth `d`:
   * the child `key[..d+1]` survives unless it is left non-terminal and childless, in which
   * case it is removed from its parent, and nothing else changes.
   */
  lemma DeleteStepBack(T: Terms, o: Order, key: Key, d: nat)
    requires TreeInv(T, o) && d < |key| && key[..d + 1] in o
    ensures key[..d] in Prune(o, T - {key}, key, d + 1)
    ensures key[..d + 1] in Prune(o, T - {key}, key, d + 1)
    ensures key[..d + 1] !in T - {key} && Prune(o, T - {key}, key, d + 1)[key[..d + 1]] == [] ==>
      Prune(o, T - {key}, key, d) == RemoveChild(Prune(o, T - {key}, key, d + 1), key[..d], key[d])
    ensures key[..d + 1] in T - {key} || Prune(o, T - {key}, key, d + 1)[key[..d + 1]] != [] ==>
      Prune(o, T - {key}, key, d) == Prune(o, T - {key}, key, d + 1)
  {
    PrefixIn(o, key[..d + 1], d);
    assert key[..d + 1][..d] == key[..d];
    PruneHasTermIff(T, o, key, d);
    if !HasTerm(T - {key}, key[..d + 1]) {
      PruneDropStep(o, T - {key}, key, d);
    } else {
      PruneKeepStep(o, T - {key}, key, d);
    }
  }

  /**
   * After deleting `key`, a node remains exactly when it is the root or still has a
   * terminal key in its subtree: every ancestor left non-terminal and childless is
   * pruned, the root never is. The result is again a valid trie.
   */
  lemma DeleteShape(T: Terms, o: Order, key: Key)
    requires TreeInv(T, o)
    ensures TreeInv(T - {key}, Prune(o, T - {key}, key, 0))
    ensures forall k :: k in Prune(o, T - {key}, key, 0) <==> k in o && (k == [] || HasTerm(T - {key}, k))
  {
    var T' := T - {key};
    var p := Prune(o, T', key, 0);
    PruneStruct(T, o, key, 0);
    forall k | k in o && k != [] && !IsPrefix(k, key) ensures HasTerm(T', k) {
      HasTermOffPath(T, key, k);
    }
    forall t | t in T' ensures t in p {
      assert IsPrefix(t, t);
    }
  }

  /**
   * Deleting a terminal key that still has children keeps the node and all its child
   * edges; only its terminal flag and value go (through `terms`).
   */
  lemma DeleteInnerKey(T: Terms, o: Order, key: Key)
    requires TreeInv(T, o) && key in T && o[key] != []
    ensures key in Prune(o, T - {key}, key, 0)
    ensures Prune(o, T - {key}, key, 0)[key] == o[key]
  {
    var T' := T - {key};
    var c := o[key][0];
    assert c in o[key];
    var y := ChildKey(key, c);
    ChildKeyParts(key, c);
    assert y in o && y != [];
    assert HasTerm(T, y);
    assert !IsPrefix(y, key);
    HasTermOffPath(T, key, y);
    HasTermUp(T', y);
    forall c' | c' in o[key] ensures !Doomed(T', key, 0, ChildKey(key, c')) {
      ChildKeyParts(key, c');
    }
    KeepAll(o[key], T', key, 0, key);
  }
}
