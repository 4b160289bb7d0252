/**
 * Python's `sorted(..., key=rank, reverse=True)` and `list.sort(key=rank, reverse=True)`:
 * a stable sort by descending rank. Ranks are optional integers; `None` ranks below every
 * integer, which is how the search index treats a missing score (as negative infinity).
 */
module StableSort {
  import opened Base

  /** `a` ranks strictly below `b`. */
  predicate Below(a: Option<int>, b: Option<int>) {
    b.Some? && (a.None? || a.value < b.value)
  }

  /** Ordered by non-increasing rank. */
  predicate NonIncreasing<T>(s: seq<T>, rank: T -> Option<int>) {
    forall i, j :: 0 <= i < j < |s| ==> !Below(rank(s[i]), rank(s[j]))
  }

  /** The elements of `s` whose rank is `v`, in their order in `s`. */
  function Only<T>(s: seq<T>, rank: T -> Option<int>, v: Option<int>): seq<T> {
    if s == [] then []
    else if rank(s[0]) == v then [s[0]] + Only(s[1..], rank, v)
    else Only(s[1..], rank, v)
  }

  lemma OnlyAppend<T>(a: seq<T>, b: seq<T>, rank: T -> Option<int>, v: Option<int>)
    ensures Only(a + b, rank, v) == Only(a, rank, v) + Only(b, rank, v)
  {
    if a == [] {
      assert a + b == b;
    } else {
      assert (a + b)[0] == a[0];
      assert (a + b)[1..] == a[1..] + b;
      OnlyAppend(a[1..], b, rank, v);
    }
  }

  /** Cutting a list short keeps a prefix of each rank's elements. */
  lemma OnlyPrefix<T>(a: seq<T>, b: seq<T>, rank: T -> Option<int>, v: Option<int>)
    requires a <= b
    ensures Only(a, rank, v) <= Only(b, rank, v)
  {
    assert b == a + b[|a|..];
    OnlyAppend(a, b[|a|..], rank, v);
  }

  /**
   * Places `x` in front of the first element that does not rank above it, so that
   * it precedes every element of `s` of equal rank.
   */
  function InsertDesc<T>(x: T, s: seq<T>, rank: T -> Option<int>): (r: seq<T>)
    ensures multiset(r) == multiset(s) + multiset{x}
    ensures |r| == |s| + 1
  {
    if s == [] || !Below(rank(x), rank(s[0])) then [x] + s
    else
      assert s == [s[0]] + s[1..];
      [s[0]] + InsertDesc(x, s[1..], rank)
  }

  lemma {:induction false} InsertDescSorted<T>(x: T, s: seq<T>, rank: T -> Option<int>)
    requires NonIncreasing(s, rank)
    ensures NonIncreasing(InsertDesc(x, s, rank), rank)
  {
    var r := InsertDesc(x, s, rank);
    if s == [] || !Below(rank(x), rank(s[0])) {
      forall i, j | 0 <= i < j < |r| ensures !Below(rank(r[i]), rank(r[j])) {
        if i == 0 {
          assert r[j] == s[j - 1];
          if j > 1 { assert !Below(rank(s[0]), rank(s[j - 1])); }
        } else {
          assert r[i] == s[i - 1] && r[j] == s[j - 1];
        }
      }
    } else {
      var t := s[1..];
      assert NonIncreasing(t, rank) by {
        forall i, j | 0 <= i < j < |t| ensures !Below(rank(t[i]), rank(t[j])) {
          assert t[i] == s[i + 1] && t[j] == s[j + 1];
        }
      }
      InsertDescSorted(x, t, rank);
      var r' := InsertDesc(x, t, rank);
      assert r == [s[0]] + r';
      forall i, j | 0 <= i < j < |r| ensures !Below(rank(r[i]), rank(r[j])) {
        if i == 0 {
          var y := r[j];
          assert y == r'[j - 1];
          assert y in multiset(r');
          assert y == x || y in multiset(t);
          if y != x {
            var k :| 0 <= k < |t| && t[k] == y;
            assert s[k + 1] == y;
          }
        } else {
          assert r[i] == r'[i - 1] && r[j] == r'[j - 1];
        }
      }
    }
  }

  lemma {:induction false} InsertDescStable<T>(x: T, s: seq<T>, rank: T -> Option<int>, v: Option<int>)
    ensures Only(InsertDesc(x, s, rank), rank, v) == Only([x] + s, rank, v)
  {
    if s == [] || !Below(rank(x), rank(s[0])) {
    } else {
      var t := s[1..];
      InsertDescStable(x, t, rank, v);
      var r' := InsertDesc(x, t, rank);
      assert InsertDesc(x, s, rank) == [s[0]] + r';
      assert s == [s[0]] + t;
      OnlyAppend([s[0]], r', rank, v);
      OnlyAppend([x], t, rank, v);
      OnlyAppend([s[0]], t, rank, v);
      OnlyAppend([x], s, rank, v);
      OnlyOne(x, rank, v);
      OnlyOne(s[0], rank, v);
      var a, b, c := Only([s[0]], rank, v), Only([x], rank, v), Only(t, rank, v);
      assert a == [] || b == [];
      calc {
        Only(InsertDesc(x, s, rank), rank, v);
        a + Only(r', rank, v);
        a + (b + c);
        b + (a + c);
        Only([x] + s, rank, v);
      }
    }
  }

  lemma OnlyOne<T>(y: T, rank: T -> Option<int>, v: Option<int>)
    ensures Only([y], rank, v) == if rank(y) == v then [y] else []
  {
    assert [y][1..] == [];
  }

  /** Insertion sort by descending rank; equal ranks keep their order in `s`. */
  function SortDesc<T>(s: seq<T>, rank: T -> Option<int>): (r: seq<T>)
    ensures multiset(r) == multiset(s)
    ensures |r| == |s|
    ensures NonIncreasing(r, rank)
  {
    if s == [] then []
    else
      assert s == [s[0]] + s[1..];
      InsertDescSorted(s[0], SortDesc(s[1..], rank), rank);
      InsertDesc(s[0], SortDesc(s[1..], rank), rank)
  }

  /** Stability: among elements of equal rank, the sort keeps the input order. */
  lemma {:induction false} SortDescStable<T>(s: seq<T>, rank: T -> Option<int>, v: Option<int>)
    ensures Only(SortDesc(s, rank), rank, v) == Only(s, rank, v)
  {
    if s != [] {
      var t := SortDesc(s[1..], rank);
      SortDescStable(s[1..], rank, v);
      calc {
        Only(SortDesc(s, rank), rank, v);
        Only(InsertDesc(s[0], t, rank), rank, v);
        { InsertDescStable(s[0], t, rank, v); }
        Only([s[0]] + t, rank, v);
        { OnlyAppend([s[0]], t, rank, v); OnlyAppend([s[0]], s[1..], rank, v); assert s == [s[0]] + s[1..]; }
        Only(s, rank, v);
      }
    }
  }

  /**
   * The first `k` of a stable descending sort (`sorted(...)[:k]`): still ordered, drawn
   * from `s`, and among equal ranks a prefix of `s`'s order.
   */
  lemma TakeSorted<T>(s: seq<T>, rank: T -> Option<int>, k: int, v: Option<int>)
    ensures NonIncreasing(PyTake(SortDesc(s, rank), k), rank)
    ensures multiset(PyTake(SortDesc(s, rank), k)) <= multiset(s)
    ensures Only(PyTake(SortDesc(s, rank), k), rank, v) <= Only(s, rank, v)
  {
    var t := SortDesc(s, rank);
    var r := PyTake(t, k);
    assert t == r + t[|r|..];
    assert multiset(t) == multiset(r) + multiset(t[|r|..]);
    SortDescStable(s, rank, v);
    OnlyPrefix(r, t, rank, v);
  }
}
