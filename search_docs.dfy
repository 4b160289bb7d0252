/**
 * What the two search indexes share: the documents they are given, the results they
 * return, the token count of `_word_count`, the label registry of the vector index and
 * the lookups that turn approximate-nearest-neighbour hits into results.
 *
 * The embedder, the ANN index and the tokenizer are oracles: a hit carries the label
 * the ANN index returned and `1 - distance` as an abstract ordered score.
 */
module SearchDocs {
  import opened Base

  /** The crawler's `Node`, as far as indexing reads it. */
  datatype Doc = Doc(id: string, url: string, title: Option<string>, text: Option<string>)

  /** `SearchResult`: `score` is `None` or an abstract ordered score standing for the float. */
  datatype SearchResult = SearchResult(id: string, url: string, title: Option<string>, score: Option<int>)

  /** One neighbour returned by `knn_query`: its label (`lbl`) and `1 - distance`. */
  datatype Hit = Hit(lbl: int, similarity: int)

  /** The sort key of `top_k`: `None` ranks below every score, as `float("-inf")` does. */
  function Score(r: SearchResult): Option<int> { r.score }

  // ---------------------------------------------------------------------------------
  // `_word_count`
  // ---------------------------------------------------------------------------------

  /** The key order of the counts dict: each token where it first occurs. */
  function FirstOccurrences(tokens: seq<string>): seq<string> {
    if tokens == [] then []
    else AddKey(FirstOccurrences(tokens[..|tokens| - 1]), tokens[|tokens| - 1])
  }

  lemma {:induction false} FirstOccurrencesSpec(tokens: seq<string>)
    ensures Distinct(FirstOccurrences(tokens))
    ensures Elems(FirstOccurrences(tokens)) == Elems(tokens)
  {
    if tokens != [] {
      var init := tokens[..|tokens| - 1];
      FirstOccurrencesSpec(init);
      assert tokens == init + [tokens[|tokens| - 1]];
      assert Elems(tokens) == Elems(init) + {tokens[|tokens| - 1]};
    }
  }

  /** The sum of `counts[w]` over the words `ws`. */
  function SumCounts(counts: map<string, int>, ws: seq<string>): int {
    if ws == [] then 0 else SumCounts(counts, ws[..|ws| - 1]) + Count(counts, ws[|ws| - 1])
  }

  lemma {:induction false} SumBump(counts: map<string, int>, ws: seq<string>, t: string)
    requires Distinct(ws)
    ensures SumCounts(counts[t := Count(counts, t) + 1], ws) == SumCounts(counts, ws) + (if t in ws then 1 else 0)
  {
    if ws != [] {
      var init := ws[..|ws| - 1];
      assert Distinct(init);
      SumBump(counts, init, t);
      assert ws == init + [ws[|ws| - 1]];
      if ws[|ws| - 1] == t {
        assert t !in init;
      }
    }
  }

  lemma {:induction false} SumNothing(ws: seq<string>)
    ensures SumCounts(map[], ws) == 0
  {
    if ws != [] {
      SumNothing(ws[..|ws| - 1]);
    }
  }

  lemma {:induction false} SumTally(tokens: seq<string>, ws: seq<string>)
    requires Distinct(ws) && Elems(tokens) <= Elems(ws)
    ensures SumCounts(Tally(map[], tokens), ws) == |tokens|
  {
    if tokens == [] {
      SumNothing(ws);
    } else {
      var init := tokens[..|tokens| - 1];
      var t := tokens[|tokens| - 1];
      assert tokens == init + [t];
      assert Elems(tokens) == Elems(init) + {t};
      SumTally(init, ws);
      SumBump(Tally(map[], init), ws, t);
    }
  }

  /**
   * The word count of a token list: one entry per distinct token counting its
   * occurrences, the distinct tokens listed once each, and counts adding up to the total.
   */
  lemma WordCountSpec(tokens: seq<string>)
    ensures Tally(map[], tokens).Keys == Elems(tokens)
    ensures forall w :: Count(Tally(map[], tokens), w) == multiset(tokens)[w]
    ensures Distinct(FirstOccurrences(tokens)) && Elems(FirstOccurrences(tokens)) == Elems(tokens)
    ensures SumCounts(Tally(map[], tokens), FirstOccurrences(tokens)) == |tokens|
  {
    TallyCounts(map[], tokens);
    FirstOccurrencesSpec(tokens);
    SumTally(tokens, FirstOccurrences(tokens));
  }

  /**
   * `_word_count(text)`: the counts dict (with its key order made explicit as `words`)
   * and the number of tokens.
   */
  method WordCount(tokenize: Option<string> -> seq<string>, text: Option<string>)
    returns (counts: map<string, int>, words: seq<string>, total: int)
    ensures counts == Tally(map[], tokenize(text))
    ensures words == FirstOccurrences(tokenize(text))
    ensures total == |tokenize(text)|
  {
    var tokens := tokenize(text);
    counts, words, total := map[], [], 0;
    for i := 0 to |tokens|
      invariant counts == Tally(map[], tokens[..i])
      invariant words == FirstOccurrences(tokens[..i])
      invariant total == i
    {
      var word := tokens[i];
      assert tokens[..i + 1][..i] == tokens[..i];
      counts := counts[word := Count(counts, word) + 1];
      words := AddKey(words, word);
      total := total + 1;
    }
    assert tokens[..|tokens|] == tokens;
  }

  // ---------------------------------------------------------------------------------
  // The label registry of the vector index
  // ---------------------------------------------------------------------------------

  /** The capacity hnswlib is created with (`max_elements=100_000`). */
  const InitialCapacity: int := 100_000

  /** The breadth hnswlib searches with until `set_ef` is called. */
  const DefaultEf: int := 10

  /**
   * Labels are exactly `0 .. next - 1`, all below the capacity, and every document
   * holding a label is mapped back to by it.
   */
  ghost predicate LabelsOk(idToLabel: map<string, int>, labelToId: map<int, string>, next: int, capacity: int) {
    0 <= next <= capacity && 0 < capacity
    && (forall l :: l in labelToId <==> 0 <= l < next)
    && (forall id :: id in idToLabel ==> idToLabel[id] in labelToId && labelToId[idToLabel[id]] == id)
  }

  /** The capacity after the `resize_index(next * 2)` that runs when the index is full. */
  function Grown(next: int, capacity: int): int {
    if next >= capacity then next * 2 else capacity
  }

  /**
   * Registering a document under the next label keeps the registry consistent, and
   * the grown capacity leaves room for that label.
   */
  lemma Register(idToLabel: map<string, int>, labelToId: map<int, string>, next: int, capacity: int, id: string)
    requires LabelsOk(idToLabel, labelToId, next, capacity)
    ensures next < Grown(next, capacity)
    ensures LabelsOk(idToLabel[id := next], labelToId[next := id], next + 1, Grown(next, capacity))
    ensures forall l :: l in labelToId ==> labelToId[next := id][l] == labelToId[l]
  {
    var i2l, l2i := idToLabel[id := next], labelToId[next := id];
    forall d | d in i2l ensures i2l[d] in l2i && l2i[i2l[d]] == d {
      if d != id {
        assert idToLabel[d] in labelToId && idToLabel[d] < next;
      }
    }
  }

  // ---------------------------------------------------------------------------------
  // From ANN hits to results
  // ---------------------------------------------------------------------------------

  /** Every hit's label is registered and its document has a url and a title. */
  predicate Resolvable(labelToId: map<int, string>, url: map<string, string>, title: map<string, Option<string>>,
                       hits: seq<Hit>) {
    forall h :: h in hits ==> h.lbl in labelToId && labelToId[h.lbl] in url && labelToId[h.lbl] in title
  }

  /** The result for one hit, with the given score. */
  function Resolve(labelToId: map<int, string>, url: map<string, string>, title: map<string, Option<string>>,
                   h: Hit, score: Option<int>): SearchResult
    requires h.lbl in labelToId && labelToId[h.lbl] in url && labelToId[h.lbl] in title
  {
    var id := labelToId[h.lbl];
    SearchResult(id, url[id], title[id], score)
  }

  /** The shortlist `top_k` builds from the hits: unscored results in ANN order. */
  function Shortlist(labelToId: map<int, string>, url: map<string, string>, title: map<string, Option<string>>,
                     hits: seq<Hit>): (r: seq<SearchResult>)
    requires Resolvable(labelToId, url, title, hits)
    ensures |r| == |hits|
  {
    if hits == [] then []
    else
      var h := hits[|hits| - 1];
      Shortlist(labelToId, url, title, hits[..|hits| - 1]) + [Resolve(labelToId, url, title, h, None)]
  }

  /** The results the older index returns: each hit resolved and scored by its similarity. */
  function Neighbours(labelToId: map<int, string>, url: map<string, string>, title: map<string, Option<string>>,
                      hits: seq<Hit>): (r: seq<SearchResult>)
    requires Resolvable(labelToId, url, title, hits)
    ensures |r| == |hits|
  {
    if hits == [] then []
    else
      var h := hits[|hits| - 1];
      Neighbours(labelToId, url, title, hits[..|hits| - 1]) + [Resolve(labelToId, url, title, h, Some(h.similarity))]
  }

  /** `for result, distance in zip(results, distances): result.score = 1 - distance`. */
  function WithSimilarity(rs: seq<SearchResult>, hits: seq<Hit>): (r: seq<SearchResult>)
    ensures |r| == |rs|
  {
    if rs == [] || hits == [] then rs
    else [rs[0].(score := Some(hits[0].similarity))] + WithSimilarity(rs[1..], hits[1..])
  }

  /**
   * Each hit, in ANN order, becomes the result of the document its label is registered
   * to, carrying that document's url and title; the shortlist leaves the score unset.
   */
  lemma {:induction false} ShortlistSpec(labelToId: map<int, string>, url: map<string, string>,
                                         title: map<string, Option<string>>, hits: seq<Hit>)
    requires Resolvable(labelToId, url, title, hits)
    ensures forall i :: 0 <= i < |hits| ==>
      var r := Shortlist(labelToId, url, title, hits)[i];
      r.id == labelToId[hits[i].lbl] && r.url == url[r.id] && r.title == title[r.id] && r.score.None?
    ensures forall i :: 0 <= i < |hits| ==>
      Neighbours(labelToId, url, title, hits)[i] ==
      Shortlist(labelToId, url, title, hits)[i].(score := Some(hits[i].similarity))
  {
    if hits != [] {
      ShortlistSpec(labelToId, url, title, hits[..|hits| - 1]);
    }
  }

  /** Scoring the shortlist by similarity gives exactly the older index's results. */
  lemma {:induction false} ScoredShortlist(labelToId: map<int, string>, url: map<string, string>,
                                           title: map<string, Option<string>>, hits: seq<Hit>)
    requires Resolvable(labelToId, url, title, hits)
    ensures WithSimilarity(Shortlist(labelToId, url, title, hits), hits) == Neighbours(labelToId, url, title, hits)
  {
    ShortlistSpec(labelToId, url, title, hits);
    WithSimilaritySpec(Shortlist(labelToId, url, title, hits), hits);
  }

  lemma {:induction false} WithSimilaritySpec(rs: seq<SearchResult>, hits: seq<Hit>)
    ensures forall i :: 0 <= i < |rs| ==>
      WithSimilarity(rs, hits)[i] == if i < |hits| then rs[i].(score := Some(hits[i].similarity)) else rs[i]
  {
    if rs != [] && hits != [] {
      WithSimilaritySpec(rs[1..], hits[1..]);
    }
  }

  /** The loop of `top_k` that builds the shortlist. */
  method BuildShortlist(labelToId: map<int, string>, url: map<string, string>, title: map<string, Option<string>>,
                        hits: seq<Hit>) returns (rs: seq<SearchResult>)
    requires Resolvable(labelToId, url, title, hits)
    ensures rs == Shortlist(labelToId, url, title, hits)
  {
    rs := [];
    for i := 0 to |hits|
      invariant rs == Shortlist(labelToId, url, title, hits[..i])
    {
      assert hits[..i + 1][..i] == hits[..i];
      var h := hits[i];
      var id := labelToId[h.lbl];
      rs := rs + [SearchResult(id, url[id], title[id], None)];
    }
    assert hits[..|hits|] == hits;
  }

  /** The loop of the older `top_k`: each hit resolved and scored as it is read. */
  method BuildNeighbours(labelToId: map<int, string>, url: map<string, string>, title: map<string, Option<string>>,
                         hits: seq<Hit>) returns (rs: seq<SearchResult>)
    requires Resolvable(labelToId, url, title, hits)
    ensures rs == Neighbours(labelToId, url, title, hits)
  {
    rs := [];
    for i := 0 to |hits|
      invariant rs == Neighbours(labelToId, url, title, hits[..i])
    {
      assert hits[..i + 1][..i] == hits[..i];
      var h := hits[i];
      var id := labelToId[h.lbl];
      rs := rs + [SearchResult(id, url[id], title[id], Some(h.similarity))];
    }
    assert hits[..|hits|] == hits;
  }

  /** The `zip` loop that scores the shortlist by similarity when there is no reranker. */
  method ScoreBySimilarity(rs0: seq<SearchResult>, hits: seq<Hit>) returns (rs: seq<SearchResult>)
    ensures rs == WithSimilarity(rs0, hits)
  {
    rs := rs0;
    WithSimilaritySpec(rs0, hits);
    var n := Min(|rs0|, |hits|);
    for i := 0 to n
      invariant |rs| == |rs0|
      invariant forall j :: 0 <= j < |rs| ==> rs[j] == if j < i then rs0[j].(score := Some(hits[j].similarity)) else rs0[j]
    {
      rs := rs[i := rs[i].(score := Some(hits[i].similarity))];
    }
  }
}
