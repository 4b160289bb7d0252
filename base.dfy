/** Small value types and sequence helpers shared by every part of the model. */
module Base {

  /** Python's `None` / present value. */
  datatype Option<+T> = None | Some(value: T) {
    function GetOr(default: T): T {
      match this
      case Some(v) => v
      case None => default
    }
  }

  /** No element occurs twice (the key order of a Python dict). */
  predicate Distinct<T(==)>(s: seq<T>) {
    forall i, j :: 0 <= i < j < |s| ==> s[i] != s[j]
  }

  /** The elements of a sequence, as a set. */
  function Elems<T>(s: seq<T>): set<T>
  {
    set x | x in s
  }

  lemma ElemsEmpty<T>(s: seq<T>)
    ensures Elems(s) == {} <==> s == []
  {
    if s != [] {
      assert s[0] in Elems(s);
    }
  }

  /** `s` without any occurrence of `x`, others kept in order (deleting a dict key). */
  function Remove<T(==)>(s: seq<T>, x: T): (r: seq<T>)
    ensures |r| <= |s|
    ensures x !in s ==> r == s
  {
    if s == [] then []
    else if s[0] == x then Remove(s[1..], x)
    else [s[0]] + Remove(s[1..], x)
  }

  lemma {:induction false} RemoveElems<T>(s: seq<T>, x: T)
    ensures Elems(Remove(s, x)) == Elems(s) - {x}
  {
    if s != [] {
      RemoveElems(s[1..], x);
      assert s == [s[0]] + s[1..];
      assert Elems(s) == {s[0]} + Elems(s[1..]);
      if s[0] != x {
        assert Elems([s[0]] + Remove(s[1..], x)) == {s[0]} + Elems(Remove(s[1..], x));
      }
    }
  }

  lemma {:induction false} RemoveDistinct<T>(s: seq<T>, x: T)
    requires Distinct(s)
    ensures Distinct(Remove(s, x))
  {
    if s != [] {
      assert Distinct(s[1..]);
      RemoveDistinct(s[1..], x);
      RemoveElems(s[1..], x);
      if s[0] != x {
        var r' := Remove(s[1..], x);
        var r := [s[0]] + r';
        assert s[0] !in s[1..];
        assert s[0] !in Elems(r');
        forall i, j | 0 <= i < j < |r| ensures r[i] != r[j] {
          if i == 0 { assert r[j] in Elems(r'); } else { assert r[i] == r'[i - 1] && r[j] == r'[j - 1]; }
        }
      }
    }
  }

  lemma {:induction false} DistinctCard<T>(s: seq<T>)
    requires Distinct(s)
    ensures |Elems(s)| == |s|
  {
    if s != [] {
      assert Distinct(s[1..]);
      DistinctCard(s[1..]);
      assert s == [s[0]] + s[1..];
      assert s[0] !in s[1..];
      assert Elems(s) == Elems(s[1..]) + {s[0]};
    }
  }

  /** Deleting from a concatenation deletes from both halves. */
  lemma {:induction false} RemoveAppend<T>(a: seq<T>, b: seq<T>, x: T)
    ensures Remove(a + b, x) == Remove(a, x) + Remove(b, x)
  {
    if a == [] {
      assert a + b == b;
    } else {
      var c := a + b;
      assert c[0] == a[0] && c[1..] == a[1..] + b;
      RemoveAppend(a[1..], b, x);
      assert Remove(c[1..], x) == Remove(a[1..], x) + Remove(b, x);
      if a[0] != x {
        assert Remove(c, x) == [a[0]] + Remove(c[1..], x);
        assert Remove(a, x) == [a[0]] + Remove(a[1..], x);
      }
    }
  }

  /** Deleting a key that occurs once shortens the sequence by one. */
  lemma {:induction false} RemoveOnce<T>(s: seq<T>, x: T)
    requires Distinct(s) && x in s
    ensures |Remove(s, x)| == |s| - 1
  {
    assert Distinct(s[1..]);
    if s[0] != x {
      RemoveOnce(s[1..], x);
    } else {
      assert x !in s[1..];
    }
  }

  /** Appending a key that a dict does not hold yet, or keeping the order when it does. */
  function AddKey<T(==)>(s: seq<T>, x: T): (r: seq<T>)
    ensures Distinct(s) ==> Distinct(r)
    ensures Elems(r) == Elems(s) + {x}
  {
    if x in s then s
    else
      var r := s + [x];
      assert Elems(r) == Elems(s) + {x};
      r
  }

  /** Python's `s[:k]` for any integer `k` (a negative `k` drops `-k` elements from the end). */
  function PyTake<T>(s: seq<T>, k: int): (r: seq<T>)
    ensures 0 <= k ==> |r| == if k < |s| then k else |s|
    ensures k < 0 ==> |r| == if |s| + k < 0 then 0 else |s| + k
    ensures r <= s
  {
    if 0 <= k then (if k < |s| then s[..k] else s)
    else if |s| + k < 0 then []
    else s[..|s| + k]
  }

  function Min(a: int, b: int): int { if a <= b then a else b }
  function Max(a: int, b: int): int { if a >= b then a else b }

  /** `counts[q]` on a `defaultdict(int)`. */
  function Count(counts: map<string, int>, q: string): int {
    if q in counts then counts[q] else 0
  }

  /** `counts[q] += 1` for each string of `qs` in turn. */
  function Tally(counts: map<string, int>, qs: seq<string>): map<string, int> {
    if qs == [] then counts
    else
      var m := Tally(counts, qs[..|qs| - 1]);
      var q := qs[|qs| - 1];
      m[q := Count(m, q) + 1]
  }

  lemma TallySnoc(counts: map<string, int>, qs: seq<string>, q: string)
    ensures Tally(counts, qs + [q]) == Tally(counts, qs)[q := Count(Tally(counts, qs), q) + 1]
  {
    assert (qs + [q])[..|qs|] == qs;
  }

  /** After the tally each string's count went up by the number of times it occurs in `qs`. */
  lemma {:induction false} TallyCounts(counts: map<string, int>, qs: seq<string>)
    ensures Tally(counts, qs).Keys == counts.Keys + Elems(qs)
    ensures forall q :: Count(Tally(counts, qs), q) == Count(counts, q) + multiset(qs)[q]
  {
    if qs != [] {
      var init := qs[..|qs| - 1];
      TallyCounts(counts, init);
      assert qs == init + [qs[|qs| - 1]];
      assert multiset(qs) == multiset(init) + multiset{qs[|qs| - 1]};
      assert Elems(qs) == Elems(init) + {qs[|qs| - 1]};
    }
  }

  /** Tallying two batches one after the other is tallying them together. */
  lemma {:induction false} TallyAppend(counts: map<string, int>, a: seq<string>, b: seq<string>)
    ensures Tally(Tally(counts, a), b) == Tally(counts, a + b)
  {
    if b == [] {
      assert a + b == a;
    } else {
      var init := b[..|b| - 1];
      TallyAppend(counts, a, init);
      assert (a + b)[..|a + b| - 1] == a + init;
      assert (a + b)[|a + b| - 1] == b[|b| - 1];
    }
  }

  /** A subset is no larger than its superset. */
  lemma SubsetCard<T>(a: set<T>, b: set<T>)
    requires a <= b
    ensures |a| <= |b|
  {
    assert b == a + (b - a);
  }
}
