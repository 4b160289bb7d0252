/**
 * The breadth-first order in which trie.py's `bfs` visits the nodes: level by level,
 * each level left to right in the order of the previous level and then of each node's
 * children.
 */
module TrieBfs {
  import opened Base
  import opened TrieShape

  /** The keys of the children of `k` reached along the edges `s`, in order. */
  function KidsOf(k: Key, s: seq<char>): (r: seq<Key>)
    ensures |r| == |s|
  {
    if s == [] then [] else [ChildKey(k, s[0])] + KidsOf(k, s[1..])
  }

  function Kids(o: Order, k: Key): seq<Key> {
    if k in o then KidsOf(k, o[k]) else []
  }

  /** The children of every key of `ks`, in the order of `ks` and then of their edges. */
  function Expand(o: Order, ks: seq<Key>): seq<Key> {
    if ks == [] then [] else Kids(o, ks[0]) + Expand(o, ks[1..])
  }

  /** The keys at depth `d`, left to right. */
  function Level(o: Order, d: nat): seq<Key> {
    if d == 0 then [[]] else Expand(o, Level(o, d - 1))
  }

  function LevelFn(o: Order): nat -> seq<Key> {
    (d: nat) => Level(o, d)
  }

  /** Levels `d` to `d + n - 1` of the level function `L`, concatenated. */
  function Levels(L: nat -> seq<Key>, d: nat, n: nat): seq<Key>
    decreases n
  {
    if n == 0 then [] else L(d) + Levels(L, d + 1, n - 1)
  }

  ghost function MaxLen(s: set<Key>): (m: nat)
    ensures forall k :: k in s ==> |k| <= m
    ensures s != {} ==> exists k :: k in s && |k| == m
  {
    if s == {} then 0
    else
      var k :| k in s;
      var m := MaxLen(s - {k});
      if |k| >= m then |k| else m
  }

  /** Breadth-first order of the whole trie. */
  ghost function BfsKeys(o: Order): seq<Key> {
    Levels(LevelFn(o), 0, MaxLen(o.Keys) + 1)
  }

  // ---------------------------------------------------------------------------------
  // Concatenated levels, for any level function.

  lemma {:induction false} LevelsSnoc(L: nat -> seq<Key>, d: nat, n: nat)
    ensures Levels(L, d, n + 1) == Levels(L, d, n) + L(d + n)
    decreases n
  {
    if n > 0 {
      LevelsSnoc(L, d + 1, n - 1);
    }
  }

  lemma {:induction false} LevelsNil(L: nat -> seq<Key>, d: nat, n: nat)
    requires forall e :: d <= e < d + n ==> L(e) == []
    ensures Levels(L, d, n) == []
    decreases n
  {
    if n > 0 {
      LevelsNil(L, d + 1, n - 1);
    }
  }

  lemma {:induction false} LevelsStop(L: nat -> seq<Key>, d: nat, n: nat, extra: nat)
    requires forall e :: d + n <= e < d + n + extra ==> L(e) == []
    ensures Levels(L, d, n + extra) == Levels(L, d, n)
    decreases n
  {
    if n == 0 {
      LevelsNil(L, d, extra);
    } else {
      LevelsStop(L, d + 1, n - 1, extra);
      assert Levels(L, d, n + extra) == L(d) + Levels(L, d + 1, (n - 1) + extra);
    }
  }

  /** Every key in `s` has length `e`. */
  predicate AllOfDepth(s: seq<Key>, e: nat) {
    forall i :: 0 <= i < |s| ==> |s[i]| == e
  }

  /** Every key in `s` is at least `d` long. */
  predicate AtLeastDepth(s: seq<Key>, d: nat) {
    forall i :: 0 <= i < |s| ==> d <= |s[i]|
  }

  /** No key in `s` comes after a longer one. */
  predicate DepthOrdered(s: seq<Key>) {
    forall i, j :: 0 <= i < j < |s| ==> |s[i]| <= |s[j]|
  }

  /** Each of the levels `d .. d + n - 1` is duplicate-free and holds keys of its own depth. */
  predicate WellLevelled(L: nat -> seq<Key>, d: nat, n: nat) {
    forall e :: d <= e < d + n ==> Distinct(L(e)) && AllOfDepth(L(e), e)
  }

  lemma {:induction false} DistinctConcat<T>(a: seq<T>, b: seq<T>)
    requires Distinct(a) && Distinct(b)
    requires forall x :: x in a ==> x !in b
    ensures Distinct(a + b)
  {
    var r := a + b;
    forall i, j | 0 <= i < j < |r| ensures r[i] != r[j] {
      if j < |a| {
        assert r[i] == a[i] && r[j] == a[j];
      } else if i >= |a| {
        assert r[i] == b[i - |a|] && r[j] == b[j - |a|];
      } else {
        assert r[i] == a[i] && r[j] == b[j - |a|];
        assert r[j] in b;
      }
    }
  }

  lemma DepthOrderedConcat(a: seq<Key>, b: seq<Key>, d: nat)
    requires AllOfDepth(a, d)
    requires AtLeastDepth(b, d + 1) && DepthOrdered(b)
    ensures AtLeastDepth(a + b, d) && DepthOrdered(a + b)
  {
    var r := a + b;
    forall i | 0 <= i < |r| ensures d <= |r[i]| {
      if i >= |a| { assert r[i] == b[i - |a|]; }
    }
    forall i, j | 0 <= i < j < |r| ensures |r[i]| <= |r[j]| {
      if i >= |a| {
        assert r[i] == b[i - |a|] && r[j] == b[j - |a|];
      } else if j >= |a| {
        assert r[j] == b[j - |a|];
      }
    }
  }

  /** Well-levelled levels concatenate into a duplicate-free sequence ordered by depth. */
  lemma {:induction false} LevelsOrdered(L: nat -> seq<Key>, d: nat, n: nat)
    requires WellLevelled(L, d, n)
    ensures Distinct(Levels(L, d, n))
    ensures AtLeastDepth(Levels(L, d, n), d) && DepthOrdered(Levels(L, d, n))
    decreases n
  {
    if n > 0 {
      var a := L(d);
      var b := Levels(L, d + 1, n - 1);
      assert Distinct(a) && AllOfDepth(a, d);
      LevelsOrdered(L, d + 1, n - 1);
      DepthOrderedConcat(a, b, d);
      forall x | x in a ensures x !in b {
      }
      DistinctConcat(a, b);
    }
  }

  /** In well-levelled levels, a key can only sit in the level of its own depth. */
  lemma {:induction false} LevelsMem(L: nat -> seq<Key>, d: nat, n: nat, k: Key)
    requires WellLevelled(L, d, n)
    ensures k in Levels(L, d, n) <==> d <= |k| < d + n && k in L(|k|)
    decreases n
  {
    if n > 0 {
      assert AllOfDepth(L(d), d);
      LevelsMem(L, d + 1, n - 1, k);
    }
  }

  // ---------------------------------------------------------------------------------
  // The levels of a trie.

  lemma {:induction false} ExpandAppend(o: Order, a: seq<Key>, b: seq<Key>)
    ensures Expand(o, a + b) == Expand(o, a) + Expand(o, b)
  {
    if a != [] {
      assert (a + b)[0] == a[0];
      assert (a + b)[1..] == a[1..] + b;
      ExpandAppend(o, a[1..], b);
    } else {
      assert a + b == b;
    }
  }

  lemma {:induction false} KidsOfAt(k: Key, s: seq<char>, i: nat)
    requires i < |s|
    ensures KidsOf(k, s)[i] == ChildKey(k, s[i])
  {
    if i > 0 {
      KidsOfAt(k, s[1..], i - 1);
    }
  }

  lemma {:induction false} KidsOfMem(k: Key, s: seq<char>, x: Key)
    ensures x in KidsOf(k, s) <==> x != [] && Parent(x) == k && Last(x) in s
  {
    if x in KidsOf(k, s) {
      var i :| 0 <= i < |s| && KidsOf(k, s)[i] == x;
      KidsOfAt(k, s, i);
      ChildKeyParts(k, s[i]);
    }
    if x != [] && Parent(x) == k && Last(x) in s {
      var i :| 0 <= i < |s| && s[i] == Last(x);
      ParentLast(x);
      KidsOfAt(k, s, i);
    }
  }

  lemma {:induction false} KidsOfDistinct(k: Key, s: seq<char>)
    requires Distinct(s)
    ensures Distinct(KidsOf(k, s))
  {
    var r := KidsOf(k, s);
    forall i, j | 0 <= i < j < |r| ensures r[i] != r[j] {
      KidsOfAt(k, s, i);
      KidsOfAt(k, s, j);
      ChildKeyParts(k, s[i]);
      ChildKeyParts(k, s[j]);
    }
  }

  lemma {:induction false} ExpandMem(o: Order, ks: seq<Key>, x: Key)
    ensures x in Expand(o, ks) <==> x != [] && Parent(x) in ks && Parent(x) in o && Last(x) in o[Parent(x)]
  {
    if ks != [] {
      ExpandMem(o, ks[1..], x);
      assert ks == [ks[0]] + ks[1..];
      if ks[0] in o {
        KidsOfMem(ks[0], o[ks[0]], x);
      }
    }
  }

  lemma {:induction false} ExpandDistinct(o: Order, ks: seq<Key>)
    requires ListsDistinct(o) && Distinct(ks)
    ensures Distinct(Expand(o, ks))
  {
    if ks != [] {
      assert Distinct(ks[1..]);
      ExpandDistinct(o, ks[1..]);
      var a := Kids(o, ks[0]);
      if ks[0] in o {
        KidsOfDistinct(ks[0], o[ks[0]]);
      }
      forall x | x in a ensures x !in Expand(o, ks[1..]) {
        KidsOfMem(ks[0], o[ks[0]], x);
        ExpandMem(o, ks[1..], x);
        assert ks[0] !in ks[1..];
      }
      DistinctConcat(a, Expand(o, ks[1..]));
    }
  }

  /** Level `d` lists exactly the nodes of depth `d`. */
  lemma {:induction false} LevelMem(o: Order, d: nat, k: Key)
    requires StructInv(o)
    ensures k in Level(o, d) <==> k in o && |k| == d
  {
    if d > 0 {
      ExpandMem(o, Level(o, d - 1), k);
      if k != [] {
        LevelMem(o, d - 1, Parent(k));
        ParentLast(k);
        assert k in o ==> Parent(k) in o && Last(k) in o[Parent(k)];
      }
    }
  }

  /** Level `d` lists each node once. */
  lemma {:induction false} LevelDistinct(o: Order, d: nat)
    requires StructInv(o)
    ensures Distinct(Level(o, d))
  {
    if d > 0 {
      LevelDistinct(o, d - 1);
      ExpandDistinct(o, Level(o, d - 1));
    }
  }

  lemma LevelsOfTrie(o: Order, d: nat, n: nat)
    requires StructInv(o)
    ensures WellLevelled(LevelFn(o), d, n)
  {
    forall e | d <= e < d + n ensures Distinct(Level(o, e)) && AllOfDepth(Level(o, e), e) {
      LevelDistinct(o, e);
      forall i | 0 <= i < |Level(o, e)| ensures |Level(o, e)[i]| == e {
        LevelMem(o, e, Level(o, e)[i]);
      }
    }
  }

  lemma {:induction false} LevelEmptyAfter(o: Order, d: nat, e: nat)
    requires Level(o, d) == [] && d <= e
    ensures Level(o, e) == []
    decreases e - d
  {
    if d < e {
      assert Level(o, d + 1) == Expand(o, []) == [];
      LevelEmptyAfter(o, d + 1, e);
    }
  }

  lemma BfsMem(o: Order, k: Key)
    requires StructInv(o)
    ensures k in BfsKeys(o) <==> k in o
  {
    var m := MaxLen(o.Keys);
    LevelsOfTrie(o, 0, m + 1);
    LevelsMem(LevelFn(o), 0, m + 1, k);
    LevelMem(o, |k|, k);
  }

  lemma BfsOrdered(o: Order)
    requires StructInv(o)
    ensures Distinct(BfsKeys(o)) && DepthOrdered(BfsKeys(o))
  {
    var m := MaxLen(o.Keys);
    LevelsOfTrie(o, 0, m + 1);
    LevelsOrdered(LevelFn(o), 0, m + 1);
  }

  lemma BfsRootFirst(o: Order)
    ensures |BfsKeys(o)| > 0 && BfsKeys(o)[0] == []
  {
    var m := MaxLen(o.Keys);
    var L := LevelFn(o);
    assert Levels(L, 0, m + 1) == L(0) + Levels(L, 1, m);
    assert L(0) == [[]];
  }

  /**
   * The breadth-first order starts at the root, lists every node exactly once, and never
   * lists a deeper node before a shallower one.
   */
  lemma BfsExact(o: Order)
    requires StructInv(o)
    ensures |BfsKeys(o)| > 0 && BfsKeys(o)[0] == []
    ensures Distinct(BfsKeys(o))
    ensures forall k :: k in BfsKeys(o) <==> k in o
    ensures DepthOrdered(BfsKeys(o))
  {
    BfsRootFirst(o);
    BfsOrdered(o);
    forall k ensures k in BfsKeys(o) <==> k in o {
      BfsMem(o, k);
    }
  }

  /** A non-empty level lies within the depth of the trie. */
  lemma DepthBound(o: Order, d: nat)
    requires StructInv(o) && Level(o, d) != []
    ensures d <= MaxLen(o.Keys)
  {
    var k := Level(o, d)[0];
    LevelMem(o, d, k);
  }

  lemma LevelsUpTo(o: Order, d: nat, m: nat)
    requires Level(o, d + 1) == [] && d <= m
    ensures Levels(LevelFn(o), 0, d + 1) == Levels(LevelFn(o), 0, m + 1)
  {
    var L := LevelFn(o);
    forall e | d + 1 <= e < d + 1 + (m - d) ensures L(e) == [] {
      LevelEmptyAfter(o, d + 1, e);
    }
    LevelsStop(L, 0, d + 1, m - d);
    assert (d + 1) + (m - d) == m + 1;
  }

  /** Once a level is empty, the levels read so far are the whole breadth-first order. */
  lemma BfsEndsAt(o: Order, d: nat)
    requires StructInv(o) && Level(o, d) != [] && Level(o, d + 1) == []
    ensures Levels(LevelFn(o), 0, d + 1) == BfsKeys(o)
    ensures d <= MaxLen(o.Keys)
  {
    DepthBound(o, d);
    LevelsUpTo(o, d, MaxLen(o.Keys));
  }

  // ---------------------------------------------------------------------------------
  // The queue of trie.py's `bfs`.

  lemma {:induction false} KidsOfSnoc(k: Key, s: seq<char>, j: nat)
    requires j < |s|
    ensures KidsOf(k, s[..j + 1]) == KidsOf(k, s[..j]) + [ChildKey(k, s[j])]
  {
    if j > 0 {
      assert s[..j + 1][1..] == s[1..][..j] && s[..j][1..] == s[1..][..j - 1];
      KidsOfSnoc(k, s[1..], j - 1);
    } else {
      assert s[..1] == [s[0]];
    }
  }

  /** The queue of a level `l` of which `p` keys have been taken: their children follow it. */
  function QueueOf(o: Order, l: seq<Key>, p: nat): seq<Key>
    requires p <= |l|
  {
    l[p..] + Expand(o, l[..p])
  }

  lemma ExpandSnoc(o: Order, ks: seq<Key>, k: Key)
    ensures Expand(o, ks + [k]) == Expand(o, ks) + Kids(o, k)
  {
    ExpandAppend(o, ks, [k]);
    assert Expand(o, [k]) == Kids(o, k) + Expand(o, []);
  }

  /** Taking the front of the queue and appending its children moves one key along. */
  lemma QueuePop(o: Order, l: seq<Key>, p: nat)
    requires p < |l|
    ensures QueueOf(o, l, p) != [] && QueueOf(o, l, p)[0] == l[p]
    ensures QueueOf(o, l, p)[1..] + Kids(o, l[p]) == QueueOf(o, l, p + 1)
    ensures l[..p] + [l[p]] == l[..p + 1]
  {
    ExpandSnoc(o, l[..p], l[p]);
    assert l[..p + 1] == l[..p] + [l[p]];
    DropFront(l, p, Expand(o, l[..p]), Kids(o, l[p]));
  }

  lemma DropFront<T>(l: seq<T>, p: nat, e: seq<T>, kids: seq<T>)
    requires p < |l|
    ensures (l[p..] + e)[0] == l[p]
    ensures (l[p..] + e)[1..] + kids == l[p + 1..] + (e + kids)
  {
    assert l[p..] == [l[p]] + l[p + 1..];
  }

  lemma QueueNextLevel(o: Order, d: nat)
    ensures QueueOf(o, Level(o, d), |Level(o, d)|) == Level(o, d + 1) == QueueOf(o, Level(o, d + 1), 0)
    ensures Levels(LevelFn(o), 0, d) + Level(o, d)[..|Level(o, d)|] == Levels(LevelFn(o), 0, d + 1) + Level(o, d + 1)[..0]
  {
    assert Level(o, d)[..|Level(o, d)|] == Level(o, d);
    assert Level(o, d + 1)[..0] == [];
    LevelsSnoc(LevelFn(o), 0, d);
  }

  /**
   * The state of `bfs` while it reads level `d`, `p` keys of it taken: `out` is what it
   * has produced and `q` (the keys of) its queue.
   */
  ghost predicate BfsAt(o: Order, d: nat, p: nat, out: seq<Key>, q: seq<Key>) {
    Level(o, d) != [] && d <= MaxLen(o.Keys) && p <= |Level(o, d)|
    && out == Levels(LevelFn(o), 0, d) + Level(o, d)[..p]
    && q == QueueOf(o, Level(o, d), p)
  }

  lemma BfsStart(o: Order)
    requires StructInv(o)
    ensures BfsAt(o, 0, 0, [], [[]])
  {
    assert Level(o, 0) == [[]];
    LevelMem(o, 0, []);
  }

  /**
   * One round of `bfs`'s loop: the front key is produced and its children queued. It is a
   * node of the level being read, which is the next one once the current level is done.
   */
  lemma BfsAdvance(o: Order, d: nat, p: nat, out: seq<Key>, q: seq<Key>)
    returns (d': nat, p': nat, out': seq<Key>, q': seq<Key>)
    requires StructInv(o) && BfsAt(o, d, p, out, q) && q != []
    ensures out' == out + [q[0]] && q' == q[1..] + Kids(o, q[0])
    ensures BfsAt(o, d', p', out', q')
    ensures q[0] in o && |q[0]| == d' && d <= d'
    ensures d < d' || (d == d' && p < p')
  {
    out', q' := out + [q[0]], q[1..] + Kids(o, q[0]);
    if p == |Level(o, d)| {
      d', p' := d + 1, 1;
      BfsNextLevel(o, d, p, d', out, q);
      BfsPop(o, d', 0, p', out, q);
    } else {
      d', p' := d, p + 1;
      BfsPop(o, d', p, p', out, q);
    }
  }

  /** A level fully read: its queue is the next level, which is not empty while the queue is not. */
  lemma BfsNextLevel(o: Order, d: nat, p: nat, d1: nat, out: seq<Key>, q: seq<Key>)
    requires StructInv(o) && BfsAt(o, d, p, out, q) && p == |Level(o, d)| && q != [] && d1 == d + 1
    ensures BfsAt(o, d1, 0, out, q)
  {
    QueueNextLevel(o, d);
    DepthBound(o, d + 1);
  }

  /** Taking key `p` of level `d` off the front of the queue. */
  lemma BfsPop(o: Order, d: nat, p: nat, p1: nat, out: seq<Key>, q: seq<Key>)
    requires StructInv(o) && BfsAt(o, d, p, out, q) && p < |Level(o, d)| && p1 == p + 1
    ensures q != [] && q[0] == Level(o, d)[p]
    ensures BfsAt(o, d, p1, out + [q[0]], q[1..] + Kids(o, q[0]))
    ensures q[0] in o && |q[0]| == d
  {
    var l := Level(o, d);
    QueuePop(o, l, p);
    LevelMem(o, d, l[p]);
    assert out + [q[0]] == Levels(LevelFn(o), 0, d) + (l[..p] + [l[p]]);
  }

  /** An empty queue means the whole breadth-first order has been produced. */
  lemma BfsFinish(o: Order, d: nat, p: nat, out: seq<Key>)
    requires StructInv(o) && BfsAt(o, d, p, out, [])
    ensures out == BfsKeys(o)
  {
    var l := Level(o, d);
    EmptyQueue(l, p, Expand(o, l[..p]));
    assert Level(o, d + 1) == Expand(o, l);
    LevelsClose(LevelFn(o), d, out, l);
    BfsEndsAt(o, d);
  }

  lemma LevelsClose(L: nat -> seq<Key>, d: nat, out: seq<Key>, l: seq<Key>)
    requires L(d) == l && out == Levels(L, 0, d) + l
    ensures out == Levels(L, 0, d + 1)
  {
    LevelsSnoc(L, 0, d);
  }

  lemma EmptyQueue<T>(l: seq<T>, p: nat, e: seq<T>)
    requires p <= |l| && l[p..] + e == []
    ensures p == |l| && l[..p] == l && e == []
  {
    assert |l[p..] + e| == |l| - p + |e|;
  }
}
