/**
 * The reranking stage of `SearchIndex.top_k`: the bounded least-recently-used score
 * cache (an `OrderedDict` keyed by `(query, doc id)`), the pass over the shortlist that
 * sorts cached pairs from missing ones, and the single batched reranker call whose scores
 * are written back and cached.
 *
 * Each phase is a function over values (the specification) and a loop method proved to
 * compute it; the lemmas state what the phases mean.
 */
module RerankCache {
  import opened Base
  import opened SearchDocs

  /** A cache key: the query and a document id. */
  type CacheKey = (string, string)

  /** The `OrderedDict`: the scores and the keys from least to most recently used. */
  datatype ScoreCache = ScoreCache(values: map<CacheKey, int>, order: seq<CacheKey>)

  /** The key order lists every held key exactly once. */
  ghost predicate Wf(c: ScoreCache) {
    Distinct(c.order) && Elems(c.order) == c.values.Keys
  }

  /** A well-formed cache holding no more than `cache_size` entries (none when it is negative). */
  ghost predicate CacheOk(c: ScoreCache, cap: int) {
    Wf(c) && |c.order| <= Max(cap, 0)
  }

  /** `move_to_end(key)` on a held key. */
  function MoveToEnd(c: ScoreCache, key: CacheKey): ScoreCache {
    c.(order := Remove(c.order, key) + [key])
  }

  /** `cache[key] = v` followed by `move_to_end(key)`. */
  function Store(c: ScoreCache, key: CacheKey, v: int): ScoreCache {
    ScoreCache(c.values[key := v], Remove(c.order, key) + [key])
  }

  /** `if len(cache) > cache_size: cache.popitem(last=False)`. */
  function EvictOldest(c: ScoreCache, cap: int): ScoreCache
    requires c.order != []
  {
    if |c.order| > cap then ScoreCache(c.values - {c.order[0]}, c.order[1..]) else c
  }

  /** `doc_id_to_text.get(id, "")`. */
  function TextOf(texts: map<string, string>, id: string): string {
    if id in texts then texts[id] else ""
  }

  // ---------------------------------------------------------------------------------
  // Key order facts
  // ---------------------------------------------------------------------------------

  /** Moving a key to the most recent end keeps the keys distinct and adds that key. */
  lemma ToEnd<T>(order: seq<T>, key: T)
    requires Distinct(order)
    ensures Distinct(Remove(order, key) + [key])
    ensures Elems(Remove(order, key) + [key]) == Elems(order) + {key}
    ensures |Remove(order, key) + [key]| == if key in order then |order| else |order| + 1
  {
    var r := Remove(order, key);
    RemoveDistinct(order, key);
    RemoveElems(order, key);
    assert key !in r;
    assert AddKey(r, key) == r + [key];
    if key in order {
      RemoveOnce(order, key);
    }
  }

  /** Dropping the oldest key keeps the cache well formed. */
  lemma EvictWf(c: ScoreCache, cap: int)
    requires Wf(c) && c.order != []
    ensures Wf(EvictOldest(c, cap))
    ensures |EvictOldest(c, cap).order| == if |c.order| > cap then |c.order| - 1 else |c.order|
  {
    if |c.order| > cap {
      assert c.order == [c.order[0]] + c.order[1..];
      assert c.order[0] !in c.order[1..];
      assert Elems(c.order) == {c.order[0]} + Elems(c.order[1..]);
    }
  }

  /** One store-and-evict step keeps the cache within its bound. */
  lemma StoreKeepsBound(c: ScoreCache, key: CacheKey, v: int, cap: int)
    requires CacheOk(c, cap)
    ensures CacheOk(EvictOldest(Store(c, key, v), cap), cap)
  {
    ToEnd(c.order, key);
    EvictWf(Store(c, key, v), cap);
  }

  /**
   * The keys `R` are the most recently used ones: they fill the end of the key order,
   * after every other key.
   */
  ghost predicate Recent<T>(order: seq<T>, R: set<T>) {
    |R| <= |order| && Elems(order[|order| - |R|..]) == R
  }

  lemma RecentNone<T>(order: seq<T>)
    ensures Recent(order, {})
  {
    ElemsEmpty(order[|order|..]);
  }

  lemma RecentHeld<T>(order: seq<T>, R: set<T>)
    requires Recent(order, R)
    ensures R <= Elems(order)
  {
    forall x | x in R ensures x in Elems(order) {
      var s := order[|order| - |R|..];
      assert x in s;
    }
  }

  lemma RecentSuffix<T>(P: seq<T>, S: seq<T>, R: set<T>)
    requires Elems(S) == R && |S| == |R|
    ensures Recent(P + S, R)
  {
    assert (P + S)[|P + S| - |R|..] == S;
  }

  lemma AppendAssoc<T>(a: seq<T>, b: seq<T>, x: T)
    ensures (a + b) + [x] == a + (b + [x])
  {
  }

  /** In a sequence without repeats, nothing after position `p` occurs before it. */
  lemma DistinctSplit<T>(s: seq<T>, p: int)
    requires Distinct(s) && 0 <= p <= |s|
    ensures Distinct(s[p..])
    ensures forall x :: x in s[p..] ==> x !in s[..p]
  {
    forall x | x in s[p..] ensures x !in s[..p] {
      var j :| 0 <= j < |s| - p && s[p..][j] == x;
      assert forall i :: 0 <= i < p ==> s[..p][i] != s[p + j];
    }
  }

  lemma ToEndSplit<T>(order: seq<T>, p: int, key: T)
    requires 0 <= p <= |order|
    ensures Remove(order, key) + [key] == Remove(order[..p], key) + (Remove(order[p..], key) + [key])
  {
    assert order == order[..p] + order[p..];
    RemoveAppend(order[..p], order[p..], key);
    AppendAssoc(Remove(order[..p], key), Remove(order[p..], key), key);
  }

  lemma ToEndRecentPart<T>(order: seq<T>, R: set<T>, key: T)
    requires Distinct(order) && Recent(order, R)
    ensures Elems(Remove(order[|order| - |R|..], key) + [key]) == R + {key}
    ensures |Remove(order[|order| - |R|..], key) + [key]| == |R + {key}|
  {
    var S := order[|order| - |R|..];
    DistinctSplit(order, |order| - |R|);
    DistinctCard(S);
    ToEnd(S, key);
    if key in R {
      assert R + {key} == R;
    }
  }

  /** Moving a key to the end makes it one of the most recent keys. */
  lemma RecentToEnd<T>(order: seq<T>, R: set<T>, key: T)
    requires Distinct(order) && Recent(order, R)
    ensures Recent(Remove(order, key) + [key], R + {key})
  {
    var p := |order| - |R|;
    ToEndSplit(order, p, key);
    ToEndRecentPart(order, R, key);
    RecentSuffix(Remove(order[..p], key), Remove(order[p..], key) + [key], R + {key});
  }

  /** An eviction with the recent keys fitting the bound takes an older key. */
  lemma RecentEvict<T>(order: seq<T>, R: set<T>, cap: int)
    requires Distinct(order) && Recent(order, R) && |R| <= cap < |order|
    ensures order[0] !in R && Recent(order[1..], R)
  {
    var p := |order| - |R|;
    assert order[1..][|order| - 1 - |R|..] == order[p..];
    DistinctSplit(order, p);
    assert order[0] in order[..p];
  }

  /** A lookup hit becomes one of the most recent keys. */
  lemma MoveRecent(c: ScoreCache, key: CacheKey, R: set<CacheKey>)
    requires Wf(c) && key in c.values && Recent(c.order, R)
    ensures Wf(MoveToEnd(c, key)) && |MoveToEnd(c, key).order| == |c.order|
    ensures Recent(MoveToEnd(c, key).order, R + {key})
  {
    ToEnd(c.order, key);
    RecentToEnd(c.order, R, key);
  }

  lemma StoreWf(c: ScoreCache, key: CacheKey, v: int)
    requires Wf(c)
    ensures Wf(Store(c, key, v)) && Store(c, key, v).order != []
  {
    ToEnd(c.order, key);
  }

  lemma EvictRecent(c: ScoreCache, cap: int, R: set<CacheKey>)
    requires Wf(c) && c.order != [] && Recent(c.order, R) && |R| <= cap
    ensures Wf(EvictOldest(c, cap)) && Recent(EvictOldest(c, cap).order, R)
  {
    EvictWf(c, cap);
    if |c.order| > cap {
      RecentEvict(c.order, R, cap);
    }
  }

  /** A stored score becomes one of the most recent keys and, with room for them all, stays. */
  lemma StoreRecent(c: ScoreCache, key: CacheKey, v: int, cap: int, R: set<CacheKey>)
    requires Wf(c) && Recent(c.order, R) && |R + {key}| <= cap
    ensures Wf(EvictOldest(Store(c, key, v), cap))
    ensures Recent(EvictOldest(Store(c, key, v), cap).order, R + {key})
  {
    StoreWf(c, key, v);
    RecentToEnd(c.order, R, key);
    EvictRecent(Store(c, key, v), cap, R + {key});
  }

  // ---------------------------------------------------------------------------------
  // Phase 1: looking the shortlist up in the cache
  // ---------------------------------------------------------------------------------

  /** The loop state after looking up part of the shortlist. */
  datatype Triage = Triage(cache: ScoreCache, results: seq<SearchResult>, missing: seq<int>,
                           pairs: seq<(string, string)>)

  /**
   * The first `n` steps of the lookup loop: a cached pair is moved to the recent end
   * and its score copied into the result; a missing one is queued with its text.
   */
  function TriageOf(q: string, texts: map<string, string>, c0: ScoreCache, rs: seq<SearchResult>, n: int): (t: Triage)
    requires 0 <= n <= |rs|
    ensures |t.results| == |rs| && |t.missing| == |t.pairs| && t.cache.values == c0.values
    ensures forall j :: 0 <= j < |t.missing| ==> 0 <= t.missing[j] < n
  {
    if n == 0 then Triage(c0, rs, [], [])
    else
      var t := TriageOf(q, texts, c0, rs, n - 1);
      var key := (q, rs[n - 1].id);
      if key in t.cache.values then
        t.(cache := MoveToEnd(t.cache, key),
           results := t.results[n - 1 := t.results[n - 1].(score := Some(t.cache.values[key]))])
      else
        t.(missing := t.missing + [n - 1], pairs := t.pairs + [(q, TextOf(texts, rs[n - 1].id))])
  }

  /** Reference definition: the `(query, text)` pairs of the shortlisted documents not cached. */
  function MissPairs(q: string, texts: map<string, string>, known: map<CacheKey, int>,
                     rs: seq<SearchResult>): seq<(string, string)> {
    if rs == [] then []
    else
      var r := rs[|rs| - 1];
      MissPairs(q, texts, known, rs[..|rs| - 1]) + if (q, r.id) in known then [] else [(q, TextOf(texts, r.id))]
  }

  /** All `(query, doc id)` keys of a shortlist. */
  ghost function RoundKeys(q: string, rs: seq<SearchResult>): set<CacheKey> {
    set i | 0 <= i < |rs| :: (q, rs[i].id)
  }

  /** The same document, whatever its score. */
  predicate SameDoc(a: SearchResult, b: SearchResult) {
    a == b.(score := a.score)
  }

  lemma RoundKeysOfSameDocs(q: string, a: seq<SearchResult>, b: seq<SearchResult>)
    requires |a| == |b| && forall i :: 0 <= i < |a| ==> SameDoc(a[i], b[i])
    ensures RoundKeys(q, a) == RoundKeys(q, b)
  {
    forall k | k in RoundKeys(q, a) ensures k in RoundKeys(q, b) {
      var i :| 0 <= i < |a| && k == (q, a[i].id);
      assert k == (q, b[i].id);
    }
    forall k | k in RoundKeys(q, b) ensures k in RoundKeys(q, a) {
      var i :| 0 <= i < |b| && k == (q, b[i].id);
      assert k == (q, a[i].id);
    }
  }

  lemma InRoundKeys(q: string, rs: seq<SearchResult>, i: int)
    requires 0 <= i < |rs|
    ensures (q, rs[i].id) in RoundKeys(q, rs)
  {
  }

  /** One step of the lookup loop. */
  lemma TriageStep(q: string, texts: map<string, string>, c0: ScoreCache, rs: seq<SearchResult>, n: int)
    requires 0 < n <= |rs|
    ensures var t := TriageOf(q, texts, c0, rs, n - 1);
      var key := (q, rs[n - 1].id);
      TriageOf(q, texts, c0, rs, n) ==
        if key in c0.values then
          t.(cache := MoveToEnd(t.cache, key), results := t.results[n - 1 := t.results[n - 1].(score := Some(c0.values[key]))])
        else
          t.(missing := t.missing + [n - 1], pairs := t.pairs + [(q, TextOf(texts, rs[n - 1].id))])
  {
  }

  /** The lookup pass reorders the cache, keeps its keys, and makes the cached pairs recent. */
  lemma HitStep(q: string, rs: seq<SearchResult>, known: map<CacheKey, int>, n: int, R1: set<CacheKey>,
                R: set<CacheKey>)
    requires 0 < n <= |rs| && R1 <= R
    requires forall i :: 0 <= i < n - 1 && (q, rs[i].id) in known ==> (q, rs[i].id) in R1
    requires (q, rs[n - 1].id) in known ==> (q, rs[n - 1].id) in R
    ensures forall i :: 0 <= i < n && (q, rs[i].id) in known ==> (q, rs[i].id) in R
  {
  }

  lemma {:induction false} TriageCache(q: string, texts: map<string, string>, c0: ScoreCache, rs: seq<SearchResult>, n: int)
    returns (R: set<CacheKey>)
    requires Wf(c0) && 0 <= n <= |rs|
    ensures Wf(TriageOf(q, texts, c0, rs, n).cache)
    ensures |TriageOf(q, texts, c0, rs, n).cache.order| == |c0.order|
    ensures Recent(TriageOf(q, texts, c0, rs, n).cache.order, R) && R <= RoundKeys(q, rs)
    ensures forall i :: 0 <= i < n && (q, rs[i].id) in c0.values ==> (q, rs[i].id) in R
  {
    if n == 0 {
      RecentNone(c0.order);
      R := {};
    } else {
      var t := TriageOf(q, texts, c0, rs, n - 1);
      var R1 := TriageCache(q, texts, c0, rs, n - 1);
      var key := (q, rs[n - 1].id);
      TriageStep(q, texts, c0, rs, n);
      R := R1;
      if key in c0.values {
        MoveRecent(t.cache, key, R1);
        InRoundKeys(q, rs, n - 1);
        R := R1 + {key};
      }
      HitStep(q, rs, c0.values, n, R1, R);
    }
  }

  /** The lookup pass queues exactly the shortlisted pairs that are not cached, in shortlist order. */
  lemma {:induction false} TriagePairs(q: string, texts: map<string, string>, c0: ScoreCache, rs: seq<SearchResult>, n: int)
    requires 0 <= n <= |rs|
    ensures TriageOf(q, texts, c0, rs, n).pairs == MissPairs(q, texts, c0.values, rs[..n])
  {
    if n > 0 {
      TriagePairs(q, texts, c0, rs, n - 1);
      PairsStep(q, texts, c0, rs, n);
      MissPairsStep(q, texts, c0.values, rs, n);
    }
  }

  lemma PairsStep(q: string, texts: map<string, string>, c0: ScoreCache, rs: seq<SearchResult>, n: int)
    requires 0 < n <= |rs|
    ensures TriageOf(q, texts, c0, rs, n).pairs == TriageOf(q, texts, c0, rs, n - 1).pairs +
      if (q, rs[n - 1].id) in c0.values then [] else [(q, TextOf(texts, rs[n - 1].id))]
  {
    TriageStep(q, texts, c0, rs, n);
  }

  lemma MissPairsStep(q: string, texts: map<string, string>, known: map<CacheKey, int>, rs: seq<SearchResult>, n: int)
    requires 0 < n <= |rs|
    ensures MissPairs(q, texts, known, rs[..n]) == MissPairs(q, texts, known, rs[..n - 1]) +
      if (q, rs[n - 1].id) in known then [] else [(q, TextOf(texts, rs[n - 1].id))]
  {
    assert rs[..n][..n - 1] == rs[..n - 1];
  }

  lemma MissStep(q: string, rs: seq<SearchResult>, known: map<CacheKey, int>, n: int, m1: seq<int>, m: seq<int>)
    requires 0 < n <= |rs| && Indices(m1, |rs|)
    requires m == if (q, rs[n - 1].id) in known then m1 else m1 + [n - 1]
    requires forall j :: 0 <= j < |m1| ==> (q, rs[m1[j]].id) !in known
    requires forall i :: 0 <= i < n - 1 && (q, rs[i].id) !in known ==> i in m1
    ensures forall j :: 0 <= j < |m| ==> (q, rs[m[j]].id) !in known
    ensures forall i :: 0 <= i < n && (q, rs[i].id) !in known ==> i in m
  {
  }

  /** The queued indices are exactly those of the pairs not cached. */
  lemma {:induction false} TriageMissing(q: string, texts: map<string, string>, c0: ScoreCache, rs: seq<SearchResult>, n: int)
    requires 0 <= n <= |rs|
    ensures forall j :: 0 <= j < |TriageOf(q, texts, c0, rs, n).missing| ==>
      (q, rs[TriageOf(q, texts, c0, rs, n).missing[j]].id) !in c0.values
    ensures forall i :: 0 <= i < n && (q, rs[i].id) !in c0.values ==> i in TriageOf(q, texts, c0, rs, n).missing
  {
    if n > 0 {
      TriageMissing(q, texts, c0, rs, n - 1);
      TriageStep(q, texts, c0, rs, n);
      MissStep(q, rs, c0.values, n, TriageOf(q, texts, c0, rs, n - 1).missing, TriageOf(q, texts, c0, rs, n).missing);
    }
  }

  /** A cached pair's score is copied into its result; nothing else about the results changes. */
  lemma {:induction false} TriageResults(q: string, texts: map<string, string>, c0: ScoreCache, rs: seq<SearchResult>, n: int)
    requires 0 <= n <= |rs|
    ensures forall i :: 0 <= i < |rs| ==>
      TriageOf(q, texts, c0, rs, n).results[i] == (if i < n && (q, rs[i].id) in c0.values then rs[i].(score := Some(c0.values[(q, rs[i].id)])) else rs[i])
  {
    if n > 0 {
      TriageResults(q, texts, c0, rs, n - 1);
      TriageStep(q, texts, c0, rs, n);
    }
  }

  /** The lookup loop of `top_k`. */
  method LookUp(q: string, texts: map<string, string>, c0: ScoreCache, rs: seq<SearchResult>)
    returns (cache: ScoreCache, results: seq<SearchResult>, missing: seq<int>, pairs: seq<(string, string)>)
    ensures Triage(cache, results, missing, pairs) == TriageOf(q, texts, c0, rs, |rs|)
  {
    cache, results, missing, pairs := c0, rs, [], [];
    for i := 0 to |rs|
      invariant Triage(cache, results, missing, pairs) == TriageOf(q, texts, c0, rs, i)
    {
      var key := (q, rs[i].id);
      if key in cache.values {
        var score := cache.values[key];
        cache := MoveToEnd(cache, key);
        results := results[i := results[i].(score := Some(score))];
      } else {
        missing := missing + [i];
        pairs := pairs + [(q, TextOf(texts, rs[i].id))];
      }
    }
  }

  // ---------------------------------------------------------------------------------
  // Phase 2: writing the reranker's scores back
  // ---------------------------------------------------------------------------------

  /** Indices into the results, as the queued misses are. */
  predicate Indices(missing: seq<int>, n: int) {
    forall j :: 0 <= j < |missing| ==> 0 <= missing[j] < n
  }

  /**
   * The first `n` steps of `for result, score in zip(missing, scores)`: the score is
   * written into the result, stored as the most recent entry, and the oldest entry is
   * evicted when the cache is over its size.
   */
  function ApplyOf(q: string, c: ScoreCache, rs: seq<SearchResult>, missing: seq<int>, scores: seq<int>,
                   cap: int, n: int): (a: (ScoreCache, seq<SearchResult>))
    requires 0 <= n <= |missing| && n <= |scores| && Indices(missing, |rs|)
    ensures |a.1| == |rs|
  {
    if n == 0 then (c, rs)
    else
      var a := ApplyOf(q, c, rs, missing, scores, cap, n - 1);
      var i := missing[n - 1];
      (EvictOldest(Store(a.0, (q, rs[i].id), scores[n - 1]), cap), a.1[i := a.1[i].(score := Some(scores[n - 1]))])
  }

  /** One step of the write-back loop. */
  lemma ApplyStep(q: string, c: ScoreCache, rs: seq<SearchResult>, missing: seq<int>, scores: seq<int>,
                  cap: int, n: int)
    requires 0 < n <= |missing| && n <= |scores| && Indices(missing, |rs|)
    ensures var a := ApplyOf(q, c, rs, missing, scores, cap, n - 1);
      var i := missing[n - 1];
      ApplyOf(q, c, rs, missing, scores, cap, n) ==
        (EvictOldest(Store(a.0, (q, rs[i].id), scores[n - 1]), cap), a.1[i := a.1[i].(score := Some(scores[n - 1]))])
  {
  }

  lemma {:induction false} ApplyBound(q: string, c: ScoreCache, rs: seq<SearchResult>, missing: seq<int>,
                                      scores: seq<int>, cap: int, n: int)
    requires 0 <= n <= |missing| && n <= |scores| && Indices(missing, |rs|)
    requires CacheOk(c, cap)
    ensures CacheOk(ApplyOf(q, c, rs, missing, scores, cap, n).0, cap)
  {
    if n > 0 {
      ApplyBound(q, c, rs, missing, scores, cap, n - 1);
      var a := ApplyOf(q, c, rs, missing, scores, cap, n - 1);
      StoreKeepsBound(a.0, (q, rs[missing[n - 1]].id), scores[n - 1], cap);
    }
  }

  /** One write-back step stores its key among the recent ones. */
  lemma ApplyCacheStep(q: string, c: ScoreCache, rs: seq<SearchResult>, missing: seq<int>,
                       scores: seq<int>, cap: int, n: int, R0: set<CacheKey>, R1: set<CacheKey>, K: set<CacheKey>)
    requires 0 < n <= |missing| && n <= |scores| && Indices(missing, |rs|)
    requires Wf(ApplyOf(q, c, rs, missing, scores, cap, n - 1).0)
    requires Recent(ApplyOf(q, c, rs, missing, scores, cap, n - 1).0.order, R1)
    requires R0 <= R1 <= K && (q, rs[missing[n - 1]].id) in K && |K| <= cap
    ensures R0 <= R1 + {(q, rs[missing[n - 1]].id)} <= K
    ensures Wf(ApplyOf(q, c, rs, missing, scores, cap, n).0)
    ensures Recent(ApplyOf(q, c, rs, missing, scores, cap, n).0.order, R1 + {(q, rs[missing[n - 1]].id)})
  {
    var a := ApplyOf(q, c, rs, missing, scores, cap, n - 1);
    var key := (q, rs[missing[n - 1]].id);
    ApplyStep(q, c, rs, missing, scores, cap, n);
    SubsetCard(R1 + {key}, K);
    StoreRecent(a.0, key, scores[n - 1], cap, R1);
  }

  lemma QueuedStep(q: string, rs: seq<SearchResult>, missing: seq<int>, n: int, R1: set<CacheKey>)
    requires 0 < n <= |missing| && Indices(missing, |rs|)
    requires forall j :: 0 <= j < n - 1 ==> (q, rs[missing[j]].id) in R1
    ensures forall j :: 0 <= j < n ==> (q, rs[missing[j]].id) in R1 + {(q, rs[missing[n - 1]].id)}
  {
  }

  /** The keys of the first `n` queued results are all in `R`. */
  ghost predicate Queued(q: string, rs: seq<SearchResult>, missing: seq<int>, n: int, R: set<CacheKey>)
    requires 0 <= n <= |missing| && Indices(missing, |rs|)
  {
    forall j :: 0 <= j < n ==> (q, rs[missing[j]].id) in R
  }

  /** No write-back step leaves the cache as it was. */
  lemma ApplyNone(q: string, c: ScoreCache, rs: seq<SearchResult>, missing: seq<int>, scores: seq<int>, cap: int)
    requires Indices(missing, |rs|)
    ensures ApplyOf(q, c, rs, missing, scores, cap, 0).0 == c
  {
  }

  /** `ApplyCache` for `n` steps from its result for `n - 1` steps. */
  lemma ApplyCacheSnoc(q: string, c: ScoreCache, rs: seq<SearchResult>, missing: seq<int>, scores: seq<int>,
                       cap: int, n: int, K: set<CacheKey>, R0: set<CacheKey>, R1: set<CacheKey>)
    returns (R: set<CacheKey>)
    requires 0 < n <= |missing| && n <= |scores| && Indices(missing, |rs|)
    requires forall j :: 0 <= j < |missing| ==> (q, rs[missing[j]].id) in K
    requires |K| <= cap
    requires Wf(ApplyOf(q, c, rs, missing, scores, cap, n - 1).0)
    requires Recent(ApplyOf(q, c, rs, missing, scores, cap, n - 1).0.order, R1)
    requires R0 <= R1 <= K
    requires Queued(q, rs, missing, n - 1, R1)
    ensures Wf(ApplyOf(q, c, rs, missing, scores, cap, n).0)
    ensures Recent(ApplyOf(q, c, rs, missing, scores, cap, n).0.order, R)
    ensures R0 <= R <= K
    ensures Queued(q, rs, missing, n, R)
  {
    ApplyCacheStep(q, c, rs, missing, scores, cap, n, R0, R1, K);
    R := R1 + {(q, rs[missing[n - 1]].id)};
    QueuedStep(q, rs, missing, n, R1);
  }

  /**
   * With room for a set of keys `K` that holds every queued key, each stored key stays
   * among the recent ones.
   */
  lemma {:induction false} ApplyCache(q: string, c: ScoreCache, rs: seq<SearchResult>, missing: seq<int>,
                                      scores: seq<int>, cap: int, n: int, K: set<CacheKey>, R0: set<CacheKey>)
    returns (R: set<CacheKey>)
    requires 0 <= n <= |missing| && n <= |scores| && Indices(missing, |rs|)
    requires forall j :: 0 <= j < |missing| ==> (q, rs[missing[j]].id) in K
    requires Wf(c) && Recent(c.order, R0) && R0 <= K && |K| <= cap
    ensures Wf(ApplyOf(q, c, rs, missing, scores, cap, n).0)
    ensures Recent(ApplyOf(q, c, rs, missing, scores, cap, n).0.order, R)
    ensures R0 <= R <= K
    ensures Queued(q, rs, missing, n, R)
  {
    if n == 0 {
      R := R0;
      ApplyNone(q, c, rs, missing, scores, cap);
    } else {
      var R1 := ApplyCache(q, c, rs, missing, scores, cap, n - 1, K, R0);
      R := ApplyCacheSnoc(q, c, rs, missing, scores, cap, n, K, R0, R1);
    }
  }

  /** Writing scores back touches only the queued results, and scores each of them. */
  lemma {:induction false} ApplyResults(q: string, c: ScoreCache, rs: seq<SearchResult>, missing: seq<int>,
                                        scores: seq<int>, cap: int, n: int)
    requires 0 <= n <= |missing| && n <= |scores| && Indices(missing, |rs|)
    ensures forall i :: 0 <= i < |rs| ==> SameDoc(ApplyOf(q, c, rs, missing, scores, cap, n).1[i], rs[i])
    ensures forall i :: 0 <= i < |rs| && i !in missing[..n] ==> ApplyOf(q, c, rs, missing, scores, cap, n).1[i] == rs[i]
    ensures forall j :: 0 <= j < n ==> ApplyOf(q, c, rs, missing, scores, cap, n).1[missing[j]].score.Some?
  {
    if n > 0 {
      ApplyResults(q, c, rs, missing, scores, cap, n - 1);
      assert missing[..n] == missing[..n - 1] + [missing[n - 1]];
    }
  }

  /** The write-back loop of `top_k`. */
  method WriteBack(q: string, c: ScoreCache, rs: seq<SearchResult>, missing: seq<int>, scores: seq<int>, cap: int)
    returns (cache: ScoreCache, results: seq<SearchResult>)
    requires Indices(missing, |rs|)
    ensures (cache, results) == ApplyOf(q, c, rs, missing, scores, cap, Min(|missing|, |scores|))
  {
    cache, results := c, rs;
    var n := Min(|missing|, |scores|);
    for j := 0 to n
      invariant (cache, results) == ApplyOf(q, c, rs, missing, scores, cap, j)
    {
      ApplyStep(q, c, rs, missing, scores, cap, j + 1);
      var i := missing[j];
      results := results[i := results[i].(score := Some(scores[j]))];
      cache := EvictOldest(Store(cache, (q, rs[i].id), scores[j]), cap);
    }
  }

  // ---------------------------------------------------------------------------------
  // The whole reranking stage
  // ---------------------------------------------------------------------------------

  /** The scored shortlist, the new cache, and the pairs sent to the reranker (none: no call). */
  datatype Outcome = Outcome(results: seq<SearchResult>, cache: ScoreCache, batch: seq<(string, string)>)

  /** Look the shortlist up, call the reranker once on the misses if there are any, write back. */
  function Rerank(q: string, texts: map<string, string>, c0: ScoreCache, cap: int, rs: seq<SearchResult>,
                  predict: seq<(string, string)> -> seq<int>): (o: Outcome)
    ensures |o.results| == |rs|
  {
    var t := TriageOf(q, texts, c0, rs, |rs|);
    if t.pairs == [] then Outcome(t.results, t.cache, [])
    else
      var scores := predict(t.pairs);
      var a := ApplyOf(q, t.cache, t.results, t.missing, scores, cap, Min(|t.missing|, |scores|));
      Outcome(a.1, a.0, t.pairs)
  }

  lemma {:induction false} MissPairsNone(q: string, texts: map<string, string>, known: map<CacheKey, int>,
                                         rs: seq<SearchResult>)
    ensures MissPairs(q, texts, known, rs) == [] <==> forall i :: 0 <= i < |rs| ==> (q, rs[i].id) in known
  {
    if rs != [] {
      MissPairsNone(q, texts, known, rs[..|rs| - 1]);
    }
  }

  /**
   * The reranker is asked for exactly the shortlisted pairs whose key is not cached, in
   * shortlist order, and is not called at all when every key is cached.
   */
  lemma RerankBatch(q: string, texts: map<string, string>, c0: ScoreCache, cap: int, rs: seq<SearchResult>,
                    predict: seq<(string, string)> -> seq<int>)
    ensures Rerank(q, texts, c0, cap, rs, predict).batch == MissPairs(q, texts, c0.values, rs)
    ensures Rerank(q, texts, c0, cap, rs, predict).batch == [] <==>
      forall i :: 0 <= i < |rs| ==> (q, rs[i].id) in c0.values
  {
    TriagePairs(q, texts, c0, rs, |rs|);
    assert rs[..|rs|] == rs;
    MissPairsNone(q, texts, c0.values, rs);
  }

  /** The cache keeps its keys distinct and holds at most `cache_size` entries. */
  lemma RerankBound(q: string, texts: map<string, string>, c0: ScoreCache, cap: int, rs: seq<SearchResult>,
                    predict: seq<(string, string)> -> seq<int>)
    requires CacheOk(c0, cap)
    ensures CacheOk(Rerank(q, texts, c0, cap, rs, predict).cache, cap)
  {
    var t := TriageOf(q, texts, c0, rs, |rs|);
    var R := TriageCache(q, texts, c0, rs, |rs|);
    if t.pairs != [] {
      var scores := predict(t.pairs);
      ApplyBound(q, t.cache, t.results, t.missing, scores, cap, Min(|t.missing|, |scores|));
    }
  }

  /** The results are the shortlisted documents in shortlist order, a cached pair's score reused. */
  lemma RerankResults(q: string, texts: map<string, string>, c0: ScoreCache, cap: int, rs: seq<SearchResult>,
                      predict: seq<(string, string)> -> seq<int>)
    ensures forall i :: 0 <= i < |rs| ==> SameDoc(Rerank(q, texts, c0, cap, rs, predict).results[i], rs[i])
    ensures forall i :: 0 <= i < |rs| && (q, rs[i].id) in c0.values ==>
      Rerank(q, texts, c0, cap, rs, predict).results[i].score == Some(c0.values[(q, rs[i].id)])
  {
    var t := TriageOf(q, texts, c0, rs, |rs|);
    TriageResults(q, texts, c0, rs, |rs|);
    if t.pairs != [] {
      TriageMissing(q, texts, c0, rs, |rs|);
      var scores := predict(t.pairs);
      var n := Min(|t.missing|, |scores|);
      ApplyResults(q, t.cache, t.results, t.missing, scores, cap, n);
      var a := ApplyOf(q, t.cache, t.results, t.missing, scores, cap, n);
      forall i | 0 <= i < |rs| && (q, rs[i].id) in c0.values
        ensures a.1[i] == t.results[i]
      {
        assert i !in t.missing;
        assert i !in t.missing[..n];
      }
    }
  }

  /** With a reranker giving one score per pair, every result is scored. */
  lemma RerankScoresAll(q: string, texts: map<string, string>, c0: ScoreCache, cap: int, rs: seq<SearchResult>,
                        predict: seq<(string, string)> -> seq<int>)
    requires forall ps :: |predict(ps)| == |ps|
    ensures forall i :: 0 <= i < |rs| ==> Rerank(q, texts, c0, cap, rs, predict).results[i].score.Some?
  {
    var t := TriageOf(q, texts, c0, rs, |rs|);
    if t.pairs != [] {
      var scores := predict(t.pairs);
      assert Min(|t.missing|, |scores|) == |t.missing|;
      ScoredAfterWriteBack(q, texts, c0, cap, rs, scores);
    } else {
      ScoredFromCache(q, texts, c0, rs);
    }
  }

  /** With one score per queued pair, the write-back scores every result not already scored. */
  lemma ScoredAfterWriteBack(q: string, texts: map<string, string>, c0: ScoreCache, cap: int, rs: seq<SearchResult>,
                             scores: seq<int>)
    requires |scores| == |TriageOf(q, texts, c0, rs, |rs|).missing|
    ensures var t := TriageOf(q, texts, c0, rs, |rs|);
      forall i :: 0 <= i < |rs| ==> ApplyOf(q, t.cache, t.results, t.missing, scores, cap, |t.missing|).1[i].score.Some?
  {
    var t := TriageOf(q, texts, c0, rs, |rs|);
    TriageResults(q, texts, c0, rs, |rs|);
    TriageMissing(q, texts, c0, rs, |rs|);
    ApplyResults(q, t.cache, t.results, t.missing, scores, cap, |t.missing|);
    var a := ApplyOf(q, t.cache, t.results, t.missing, scores, cap, |t.missing|);
    forall i | 0 <= i < |rs| ensures a.1[i].score.Some? {
      if (q, rs[i].id) !in c0.values {
        var j :| 0 <= j < |t.missing| && t.missing[j] == i;
      }
    }
  }

  /** When nothing is queued, every result took its score from the cache. */
  lemma ScoredFromCache(q: string, texts: map<string, string>, c0: ScoreCache, rs: seq<SearchResult>)
    requires TriageOf(q, texts, c0, rs, |rs|).pairs == []
    ensures forall i :: 0 <= i < |rs| ==> TriageOf(q, texts, c0, rs, |rs|).results[i].score.Some?
  {
    TriageResults(q, texts, c0, rs, |rs|);
    TriagePairs(q, texts, c0, rs, |rs|);
    assert rs[..|rs|] == rs;
    MissPairsNone(q, texts, c0.values, rs);
  }

  /** Every queued index names a key of the shortlist. */
  lemma MissingKeys(q: string, texts: map<string, string>, c0: ScoreCache, rs: seq<SearchResult>)
    ensures var t := TriageOf(q, texts, c0, rs, |rs|);
      forall j :: 0 <= j < |t.missing| ==> (q, t.results[t.missing[j]].id) in RoundKeys(q, rs)
  {
    var t := TriageOf(q, texts, c0, rs, |rs|);
    TriageResults(q, texts, c0, rs, |rs|);
    RoundKeysOfSameDocs(q, t.results, rs);
    forall j | 0 <= j < |t.missing| ensures (q, t.results[t.missing[j]].id) in RoundKeys(q, rs) {
      InRoundKeys(q, t.results, t.missing[j]);
    }
  }

  /** When nothing is queued, every shortlisted key was already cached, and stays. */
  lemma FillsWithoutMisses(q: string, texts: map<string, string>, c0: ScoreCache, rs: seq<SearchResult>)
    requires Wf(c0) && TriageOf(q, texts, c0, rs, |rs|).pairs == []
    ensures forall i :: 0 <= i < |rs| ==> (q, rs[i].id) in TriageOf(q, texts, c0, rs, |rs|).cache.values
  {
    var t := TriageOf(q, texts, c0, rs, |rs|);
    var R0 := TriageCache(q, texts, c0, rs, |rs|);
    TriagePairs(q, texts, c0, rs, |rs|);
    MissPairsNone(q, texts, c0.values, rs);
    assert rs[..|rs|] == rs;
    RecentHeld(t.cache.order, R0);
  }

  lemma TriageIds(q: string, texts: map<string, string>, c0: ScoreCache, rs: seq<SearchResult>)
    ensures forall i :: 0 <= i < |rs| ==> TriageOf(q, texts, c0, rs, |rs|).results[i].id == rs[i].id
  {
    TriageResults(q, texts, c0, rs, |rs|);
  }

  /** A key cached before the round or queued and stored during it is among the stored keys. */
  lemma Covered(q: string, known: map<CacheKey, int>, rs: seq<SearchResult>, results: seq<SearchResult>,
                missing: seq<int>, R0: set<CacheKey>, R: set<CacheKey>)
    requires |results| == |rs| && R0 <= R && Indices(missing, |rs|)
    requires forall i :: 0 <= i < |rs| ==> results[i].id == rs[i].id
    requires forall i :: 0 <= i < |rs| && (q, rs[i].id) in known ==> (q, rs[i].id) in R0
    requires forall i :: 0 <= i < |rs| && (q, rs[i].id) !in known ==> i in missing
    requires forall j :: 0 <= j < |missing| ==> (q, results[missing[j]].id) in R
    ensures forall i :: 0 <= i < |rs| ==> (q, rs[i].id) in R
  {
    forall i | 0 <= i < |rs| ensures (q, rs[i].id) in R {
      if (q, rs[i].id) !in known {
        var j :| 0 <= j < |missing| && missing[j] == i;
        assert (q, results[missing[j]].id) in R;
      }
    }
  }

  /** With room for every key and one score per queued pair, every shortlisted key ends up cached. */
  lemma FillsWithMisses(q: string, texts: map<string, string>, c0: ScoreCache, cap: int, rs: seq<SearchResult>,
                        scores: seq<int>)
    requires Wf(c0) && |RoundKeys(q, rs)| <= cap
    requires |scores| == |TriageOf(q, texts, c0, rs, |rs|).missing|
    ensures var t := TriageOf(q, texts, c0, rs, |rs|);
      forall i :: 0 <= i < |rs| ==> (q, rs[i].id) in ApplyOf(q, t.cache, t.results, t.missing, scores, cap, |t.missing|).0.values
  {
    var t := TriageOf(q, texts, c0, rs, |rs|);
    var R0 := TriageCache(q, texts, c0, rs, |rs|);
    TriageMissing(q, texts, c0, rs, |rs|);
    TriageIds(q, texts, c0, rs);
    MissingKeys(q, texts, c0, rs);
    var R := ApplyCache(q, t.cache, t.results, t.missing, scores, cap, |t.missing|, RoundKeys(q, rs), R0);
    Covered(q, c0.values, rs, t.results, t.missing, R0, R);
    RecentHeld(ApplyOf(q, t.cache, t.results, t.missing, scores, cap, |t.missing|).0.order, R);
  }

  /**
   * With room in the cache for every key of the shortlist and a reranker giving one score
   * per pair, every shortlisted key is cached afterwards.
   */
  lemma RerankFills(q: string, texts: map<string, string>, c0: ScoreCache, cap: int, rs: seq<SearchResult>,
                    predict: seq<(string, string)> -> seq<int>)
    requires Wf(c0) && |RoundKeys(q, rs)| <= cap
    requires forall ps :: |predict(ps)| == |ps|
    ensures forall i :: 0 <= i < |rs| ==> (q, rs[i].id) in Rerank(q, texts, c0, cap, rs, predict).cache.values
  {
    var t := TriageOf(q, texts, c0, rs, |rs|);
    if t.pairs == [] {
      FillsWithoutMisses(q, texts, c0, rs);
    } else {
      var scores := predict(t.pairs);
      assert Min(|t.missing|, |scores|) == |t.missing|;
      FillsWithMisses(q, texts, c0, cap, rs, scores);
    }
  }

  /**
   * Asking the same query again over the same shortlist calls the reranker no more:
   * every pair is served from the cache.
   */
  lemma RepeatedQuery(q: string, texts: map<string, string>, c0: ScoreCache, cap: int, rs: seq<SearchResult>,
                      predict: seq<(string, string)> -> seq<int>, predict2: seq<(string, string)> -> seq<int>)
    requires Wf(c0) && |RoundKeys(q, rs)| <= cap
    requires forall ps :: |predict(ps)| == |ps|
    ensures Rerank(q, texts, Rerank(q, texts, c0, cap, rs, predict).cache, cap, rs, predict2).batch == []
  {
    RerankFills(q, texts, c0, cap, rs, predict);
    RerankBatch(q, texts, Rerank(q, texts, c0, cap, rs, predict).cache, cap, rs, predict2);
  }
}
