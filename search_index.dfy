/**
 * `SearchIndex` (src/search/search_index.py): word postings, per-document token totals,
 * the label registry of the vector index, and `top_k` with its optional reranking stage.
 *
 * The embedder, the approximate nearest-neighbour search, the reranker and the tokenizer
 * are oracles passed in as functions; similarities and reranker scores are integers.
 */
module SearchIndexModel {
  import opened Base
  import opened StableSort
  import opened SearchDocs
  import opened RerankCache

  /** One entry of a posting list: a document id and the word's count in it. */
  type Posting = (string, int)

  /** The cross-encoder's `predict`: one score per `(query, text)` pair. */
  type Predict = seq<(string, string)> -> seq<int>

  // ---------------------------------------------------------------------------------
  // Postings
  // ---------------------------------------------------------------------------------

  /** `_search(word)`: the word's posting list, or `[]` for a word never indexed. */
  function PostingsOf(index: map<string, seq<Posting>>, word: string): (r: seq<Posting>)
    ensures word !in index ==> r == []
  {
    if word in index then index[word] else []
  }

  /** `for word, count in counts.items(): _inverted_index[word].append((id, count))`. */
  function AddPostings(index: map<string, seq<Posting>>, id: string, counts: map<string, int>,
                       words: seq<string>): map<string, seq<Posting>>
  {
    if words == [] then index
    else
      var w := words[|words| - 1];
      var ix := AddPostings(index, id, counts, words[..|words| - 1]);
      ix[w := PostingsOf(ix, w) + [(id, Count(counts, w))]]
  }

  /**
   * Indexing a document appends exactly one posting to the list of each of its distinct
   * words and leaves every other list as it was.
   */
  lemma AddPostingsSpec(index: map<string, seq<Posting>>, id: string, counts: map<string, int>, words: seq<string>)
    requires Distinct(words)
    ensures AddPostings(index, id, counts, words).Keys == index.Keys + Elems(words)
    ensures forall w :: (PostingsOf(AddPostings(index, id, counts, words), w) ==
      PostingsOf(index, w) + (if w in words then [(id, Count(counts, w))] else []))
  {
    AddPostingsKeys(index, id, counts, words);
    AddPostingsLists(index, id, counts, words);
  }

  lemma {:induction false} AddPostingsKeys(index: map<string, seq<Posting>>, id: string, counts: map<string, int>,
                                           words: seq<string>)
    ensures AddPostings(index, id, counts, words).Keys == index.Keys + Elems(words)
  {
    if words != [] {
      var init := words[..|words| - 1];
      assert words == init + [words[|words| - 1]];
      AddPostingsKeys(index, id, counts, init);
      assert Elems(words) == Elems(init) + {words[|words| - 1]};
    }
  }

  lemma {:induction false} AddPostingsLists(index: map<string, seq<Posting>>, id: string, counts: map<string, int>,
                                            words: seq<string>)
    requires Distinct(words)
    ensures forall w :: (PostingsOf(AddPostings(index, id, counts, words), w) ==
      PostingsOf(index, w) + (if w in words then [(id, Count(counts, w))] else []))
  {
    if words != [] {
      var init := words[..|words| - 1];
      var last := words[|words| - 1];
      assert words == init + [last];
      assert Distinct(init) && last !in init;
      AddPostingsLists(index, id, counts, init);
      var ix := AddPostings(index, id, counts, init);
      var p := (id, Count(counts, last));
      var ix' := AddPostings(index, id, counts, words);
      assert ix' == ix[last := PostingsOf(ix, last) + [p]];
      forall w
        ensures PostingsOf(ix', w) == PostingsOf(index, w) + (if w in words then [(id, Count(counts, w))] else [])
      {
        AppendOne(ix, last, p, w);
        assert w in words <==> w in init || w == last;
      }
    }
  }

  /** Appending one posting to the list of `w0` changes no other list. */
  lemma AppendOne(ix: map<string, seq<Posting>>, w0: string, p: Posting, w: string)
    ensures PostingsOf(ix[w0 := PostingsOf(ix, w0) + [p]], w) == PostingsOf(ix, w) + (if w == w0 then [p] else [])
  {
  }

  /** Every posting names a document the index knows. */
  ghost predicate PostedIn(index: map<string, seq<Posting>>, docs: set<string>) {
    forall w, p :: w in index && p in index[w] ==> p.0 in docs
  }

  lemma AddPostingsKnown(index: map<string, seq<Posting>>, id: string, counts: map<string, int>,
                         words: seq<string>, docs0: set<string>, docs: set<string>)
    requires Distinct(words) && PostedIn(index, docs0) && docs0 <= docs && id in docs
    ensures PostedIn(AddPostings(index, id, counts, words), docs)
  {
    var ix := AddPostings(index, id, counts, words);
    AddPostingsSpec(index, id, counts, words);
    forall w: string, p: Posting | w in ix && p in ix[w] ensures p.0 in docs {
      assert p in PostingsOf(ix, w);
    }
  }

  /** `search(word)`: each posting of the word, in posting order, as an unscored result. */
  function Lookup(index: map<string, seq<Posting>>, url: map<string, string>, title: map<string, Option<string>>,
                  word: string): (r: seq<SearchResult>)
    requires forall p :: p in PostingsOf(index, word) ==> p.0 in url && p.0 in title
    ensures |r| == |PostingsOf(index, word)|
    ensures forall i :: 0 <= i < |r| ==>
      var id := PostingsOf(index, word)[i].0;
      r[i] == SearchResult(id, url[id], title[id], None)
  {
    var ps := PostingsOf(index, word);
    seq(|ps|, i requires 0 <= i < |ps| => SearchResult(ps[i].0, url[ps[i].0], title[ps[i].0], None))
  }

  /**
   * After a document is indexed, searching one of its words gives the earlier results
   * followed by that document; searching any other word gives the earlier results.
   */
  lemma LookupAfterAdd(index: map<string, seq<Posting>>, id: string, counts: map<string, int>, words: seq<string>,
                       url: map<string, string>, title: map<string, Option<string>>, word: string)
    requires Distinct(words) && id in url && id in title
    requires forall p :: p in PostingsOf(index, word) ==> p.0 in url && p.0 in title
    ensures forall p :: p in PostingsOf(AddPostings(index, id, counts, words), word) ==> p.0 in url && p.0 in title
    ensures Lookup(AddPostings(index, id, counts, words), url, title, word) ==
      Lookup(index, url, title, word) + if word in words then [SearchResult(id, url[id], title[id], None)] else []
  {
    AddPostingsSpec(index, id, counts, words);
  }

  /**
   * After `insert(doc)`, `search(w)` gives the earlier results of `w`, now read through
   * the new url and title maps, then the new document exactly when `w` is among its tokens.
   */
  lemma SearchAfterInsert(index: map<string, seq<Posting>>, url0: map<string, string>, title0: map<string, Option<string>>,
                          doc: Doc, tokens: seq<string>, url: map<string, string>, title: map<string, Option<string>>)
    requires PostedIn(index, url0.Keys) && title0.Keys == url0.Keys
    requires url == url0[doc.id := doc.url] && title == title0[doc.id := doc.title]
    ensures forall w, p :: p in PostingsOf(index, w) ==> p.0 in url && p.0 in title
    ensures forall w, p :: p in PostingsOf(AddPostings(index, doc.id, Tally(map[], tokens), FirstOccurrences(tokens)), w) ==>
      p.0 in url && p.0 in title
    ensures forall w ::
      Lookup(AddPostings(index, doc.id, Tally(map[], tokens), FirstOccurrences(tokens)), url, title, w) ==
      Lookup(index, url, title, w) + (if w in tokens then [SearchResult(doc.id, doc.url, doc.title, None)] else [])
  {
    forall w {
      SearchWordAfterInsert(index, url0, title0, doc, tokens, url, title, w);
    }
  }

  /** `SearchAfterInsert` for one word. */
  lemma SearchWordAfterInsert(index: map<string, seq<Posting>>, url0: map<string, string>, title0: map<string, Option<string>>,
                              doc: Doc, tokens: seq<string>, url: map<string, string>, title: map<string, Option<string>>,
                              w: string)
    requires PostedIn(index, url0.Keys) && title0.Keys == url0.Keys
    requires url == url0[doc.id := doc.url] && title == title0[doc.id := doc.title]
    ensures forall p :: p in PostingsOf(index, w) ==> p.0 in url && p.0 in title
    ensures forall p :: p in PostingsOf(AddPostings(index, doc.id, Tally(map[], tokens), FirstOccurrences(tokens)), w) ==>
      p.0 in url && p.0 in title
    ensures Lookup(AddPostings(index, doc.id, Tally(map[], tokens), FirstOccurrences(tokens)), url, title, w)
      == Lookup(index, url, title, w) + (if w in tokens then [SearchResult(doc.id, doc.url, doc.title, None)] else [])
  {
    FirstOccurrencesSpec(tokens);
    forall p | p in PostingsOf(index, w) ensures p.0 in url && p.0 in title {
      assert p in index[w];
    }
    LookupAfterAdd(index, doc.id, Tally(map[], tokens), FirstOccurrences(tokens), url, title, w);
    assert w in FirstOccurrences(tokens) <==> w in Elems(FirstOccurrences(tokens));
    assert w in tokens <==> w in Elems(tokens);
  }

  // ---------------------------------------------------------------------------------
  // top_k
  // ---------------------------------------------------------------------------------

  /** `candidates = min(max(k, candidates or next_label), next_label)`. */
  function Candidates(k: int, candidates: Option<int>, next: int): int {
    Min(Max(k, candidates.GetOr(next)), next)
  }

  /**
   * The shortlist never exceeds the index, holds at least `k` entries unless it is the
   * whole index, and is the whole index when no size is given.
   */
  lemma CandidatesBounds(k: int, candidates: Option<int>, next: int)
    ensures Candidates(k, candidates, next) <= next
    ensures k <= Candidates(k, candidates, next) || Candidates(k, candidates, next) == next
    ensures candidates.Some? ==> candidates.value <= Candidates(k, candidates, next) || Candidates(k, candidates, next) == next
    ensures candidates.None? ==> Candidates(k, candidates, next) == next
  {
  }

  /** What `top_k` answers, the cache it leaves and the pairs it sends to the reranker. */
  datatype Reply = Reply(results: seq<SearchResult>, cache: ScoreCache, batch: seq<(string, string)>)

  /**
   * `top_k` once the hits are known: the shortlist scored by similarity and cut to `k`
   * without a reranker; with one, the reranking stage, a stable sort by descending
   * score (a missing score last) and the cut to `k`.
   */
  function Rank(labelToId: map<int, string>, url: map<string, string>, title: map<string, Option<string>>,
                texts: map<string, string>, cache: ScoreCache, cap: int, encoder: Option<Predict>,
                query: string, k: int, hits: seq<Hit>): Reply
    requires Resolvable(labelToId, url, title, hits)
  {
    var rs := Shortlist(labelToId, url, title, hits);
    match encoder
    case None => Reply(PyTake(WithSimilarity(rs, hits), k), cache, [])
    case Some(predict) =>
      var o := Rerank(query, texts, cache, cap, rs, predict);
      Reply(PyTake(SortDesc(o.results, Score), k), o.cache, o.batch)
  }

  /** At most `k` results, and never more than the hits. */
  lemma RankSize(labelToId: map<int, string>, url: map<string, string>, title: map<string, Option<string>>,
                 texts: map<string, string>, cache: ScoreCache, cap: int, encoder: Option<Predict>,
                 query: string, k: int, hits: seq<Hit>)
    requires Resolvable(labelToId, url, title, hits)
    ensures |Rank(labelToId, url, title, texts, cache, cap, encoder, query, k, hits).results| <= |hits|
    ensures 0 <= k ==> |Rank(labelToId, url, title, texts, cache, cap, encoder, query, k, hits).results| <= k
  {
  }

  /**
   * Without a reranker the answer is the hits in ANN order, each scored by its
   * similarity, cut to `k`; the cache is untouched and nothing is sent to a reranker.
   */
  lemma RankBySimilarity(labelToId: map<int, string>, url: map<string, string>, title: map<string, Option<string>>,
                         texts: map<string, string>, cache: ScoreCache, cap: int, query: string, k: int, hits: seq<Hit>)
    requires Resolvable(labelToId, url, title, hits)
    ensures Rank(labelToId, url, title, texts, cache, cap, None, query, k, hits) ==
      Reply(PyTake(Neighbours(labelToId, url, title, hits), k), cache, [])
  {
    ScoredShortlist(labelToId, url, title, hits);
  }

  /**
   * With a reranker the answer is ordered by non-increasing score, is drawn from the
   * reranked shortlist, and among equal scores keeps shortlist order.
   */
  lemma RankOrdered(labelToId: map<int, string>, url: map<string, string>, title: map<string, Option<string>>,
                    texts: map<string, string>, cache: ScoreCache, cap: int, predict: Predict,
                    query: string, k: int, hits: seq<Hit>, v: Option<int>)
    requires Resolvable(labelToId, url, title, hits)
    ensures var rs := Rerank(query, texts, cache, cap, Shortlist(labelToId, url, title, hits), predict).results;
      var r := Rank(labelToId, url, title, texts, cache, cap, Some(predict), query, k, hits).results;
      NonIncreasing(r, Score) && multiset(r) <= multiset(rs) && Only(r, Score, v) <= Only(rs, Score, v)
  {
    TakeSorted(Rerank(query, texts, cache, cap, Shortlist(labelToId, url, title, hits), predict).results, Score, k, v);
  }

  /**
   * The reranker is sent exactly the shortlisted pairs not cached, in shortlist order,
   * and is not called when every pair is cached.
   */
  lemma RankBatch(labelToId: map<int, string>, url: map<string, string>, title: map<string, Option<string>>,
                  texts: map<string, string>, cache: ScoreCache, cap: int, predict: Predict,
                  query: string, k: int, hits: seq<Hit>)
    requires Resolvable(labelToId, url, title, hits)
    ensures var rs := Shortlist(labelToId, url, title, hits);
      var a := Rank(labelToId, url, title, texts, cache, cap, Some(predict), query, k, hits);
      a.batch == MissPairs(query, texts, cache.values, rs)
      && (a.batch == [] <==> forall i :: 0 <= i < |rs| ==> (query, rs[i].id) in cache.values)
  {
    var rs := Shortlist(labelToId, url, title, hits);
    RerankBatch(query, texts, cache, cap, rs, predict);
  }

  /** The score cache stays within `cache_size` entries with its keys distinct. */
  lemma RankCacheBound(labelToId: map<int, string>, url: map<string, string>, title: map<string, Option<string>>,
                       texts: map<string, string>, cache: ScoreCache, cap: int, encoder: Option<Predict>,
                       query: string, k: int, hits: seq<Hit>)
    requires Resolvable(labelToId, url, title, hits) && CacheOk(cache, cap)
    ensures CacheOk(Rank(labelToId, url, title, texts, cache, cap, encoder, query, k, hits).cache, cap)
  {
    if encoder.Some? {
      RerankBound(query, texts, cache, cap, Shortlist(labelToId, url, title, hits), encoder.value);
    }
  }

  /**
   * Asking the same query again over the same hits sends nothing more to the reranker,
   * when the cache has room for the query's pairs.
   */
  lemma RankRepeated(labelToId: map<int, string>, url: map<string, string>, title: map<string, Option<string>>,
                     texts: map<string, string>, cache: ScoreCache, cap: int, predict: Predict,
                     query: string, k: int, hits: seq<Hit>)
    requires Resolvable(labelToId, url, title, hits) && Wf(cache)
    requires |RoundKeys(query, Shortlist(labelToId, url, title, hits))| <= cap
    requires forall ps :: |predict(ps)| == |ps|
    ensures var a := Rank(labelToId, url, title, texts, cache, cap, Some(predict), query, k, hits);
      Rank(labelToId, url, title, texts, a.cache, cap, Some(predict), query, k, hits).batch == []
  {
    var rs := Shortlist(labelToId, url, title, hits);
    RepeatedQuery(query, texts, cache, cap, rs, predict, predict);
  }

  // ---------------------------------------------------------------------------------
  // The label registry as written
  // ---------------------------------------------------------------------------------

  /**
   * Inserting an id that already holds a label gives it the next label and leaves the
   * old one mapped to it too: `label_to_id` is one-to-one only over distinct ids.
   */
  lemma ReinsertKeepsOldLabel(idToLabel: map<string, int>, labelToId: map<int, string>, next: int, capacity: int,
                              id: string)
    requires LabelsOk(idToLabel, labelToId, next, capacity) && id in idToLabel
    ensures idToLabel[id] != next
    ensures labelToId[next := id][idToLabel[id]] == id && labelToId[next := id][next] == id
    ensures idToLabel[id := next][id] == next
  {
    assert idToLabel[id] in labelToId;
  }

  lemma PostedLookup(index: map<string, seq<Posting>>, url: map<string, string>, title: map<string, Option<string>>,
                     word: string)
    requires PostedIn(index, url.Keys) && title.Keys == url.Keys
    ensures forall p :: p in PostingsOf(index, word) ==> p.0 in url && p.0 in title
  {
  }

  /**
   * Labels are exactly `0 .. next_label - 1`, one vector each, all below the capacity,
   * and every labelled document is one of `docs`.
   */
  ghost predicate RegistryOk(idToLabel: map<string, int>, labelToId: map<int, string>, next: int, capacity: int,
                             vectors: seq<string>, docs: set<string>) {
    LabelsOk(idToLabel, labelToId, next, capacity)
    && |vectors| == next
    && (forall l :: l in labelToId ==> labelToId[l] in docs)
  }

  lemma RegistryGrows(idToLabel: map<string, int>, labelToId: map<int, string>, next: int, capacity: int,
                      vectors: seq<string>, docs: set<string>, docs2: set<string>)
    requires RegistryOk(idToLabel, labelToId, next, capacity, vectors, docs) && docs <= docs2
    ensures RegistryOk(idToLabel, labelToId, next, capacity, vectors, docs2)
  {
  }

  /** Adding a known document's vector under the next label keeps the registry consistent. */
  lemma RegistryAdd(idToLabel: map<string, int>, labelToId: map<int, string>, next: int, capacity: int,
                    vectors: seq<string>, docs: set<string>, id: string, t: string)
    requires RegistryOk(idToLabel, labelToId, next, capacity, vectors, docs) && id in docs
    ensures RegistryOk(idToLabel[id := next], labelToId[next := id], next + 1, Grown(next, capacity), vectors + [t], docs)
  {
    Register(idToLabel, labelToId, next, capacity, id);
  }

  /** The documents are the ids inserted; each has a url and a title, and so does every posting. */
  ghost predicate DocsOk(url: map<string, string>, title: map<string, Option<string>>, inserted: seq<string>,
                         postings: map<string, seq<Posting>>) {
    url.Keys == Elems(inserted) && title.Keys == url.Keys && PostedIn(postings, url.Keys)
  }

  lemma DocsAdd(url: map<string, string>, title: map<string, Option<string>>, inserted: seq<string>,
                postings: map<string, seq<Posting>>, id: string, u: string, t: Option<string>)
    requires url.Keys == Elems(inserted) && title.Keys == url.Keys && PostedIn(postings, url.Keys + {id})
    ensures DocsOk(url[id := u], title[id := t], inserted + [id], postings)
  {
    assert Elems(inserted + [id]) == Elems(inserted) + {id};
  }

  // ---------------------------------------------------------------------------------
  // The index
  // ---------------------------------------------------------------------------------

  class SearchIndex {
    /** `_inverted_index`: word to posting list. */
    var postings: map<string, seq<Posting>>
    /** `_words_per_doc`. */
    var wordsPerDoc: map<string, int>
    /** `_doc_id_to_url`, `_doc_id_to_title`, `_doc_id_to_text`. */
    var url: map<string, string>
    var title: map<string, Option<string>>
    var text: map<string, string>
    /** The texts whose embeddings were added to the vector index, by label. */
    var vectors: seq<string>
    /** The vector index's `max_elements` and search breadth `ef`. */
    var capacity: int
    var ef: int
    var idToLabel: map<string, int>
    var labelToId: map<int, string>
    var nextLabel: int
    var crossEncoder: Option<Predict>
    /** `_score_cache` and `_cache_size`. */
    var scoreCache: ScoreCache
    const cacheSize: int
    /** The ids passed to `insert`, in call order. */
    ghost var inserted: seq<string>
    /** The pair lists passed to the reranker, in call order. */
    ghost var batches: seq<seq<(string, string)>>

    /** The label registry, with `url`'s ids as the known documents. */
    ghost predicate LabelsValid()
      reads this`idToLabel, this`labelToId, this`nextLabel, this`capacity, this`vectors, this`url
    {
      RegistryOk(idToLabel, labelToId, nextLabel, capacity, vectors, url.Keys)
    }

    ghost predicate DocsValid()
      reads this`url, this`title, this`inserted, this`postings
    {
      DocsOk(url, title, inserted, postings)
    }

    /** The score cache keeps its keys distinct and within `cache_size` entries. */
    ghost predicate CacheValid()
      reads this`scoreCache
    {
      CacheOk(scoreCache, cacheSize)
    }

    ghost predicate Valid()
      reads this
    {
      LabelsValid() && DocsValid() && CacheValid()
    }

    /** An empty index; `crossEncoder` is the reranker the constructor loads, if any. */
    constructor (cacheSize: int, crossEncoder: Option<Predict>)
      ensures Valid()
      ensures postings == map[] && wordsPerDoc == map[] && url == map[] && title == map[] && text == map[]
      ensures vectors == [] && capacity == InitialCapacity && ef == DefaultEf
      ensures idToLabel == map[] && labelToId == map[] && nextLabel == 0
      ensures this.crossEncoder == crossEncoder && this.cacheSize == cacheSize
      ensures scoreCache == ScoreCache(map[], []) && inserted == [] && batches == []
    {
      postings, wordsPerDoc := map[], map[];
      url, title, text := map[], map[], map[];
      vectors := [];
      capacity, ef := InitialCapacity, DefaultEf;
      idToLabel, labelToId, nextLabel := map[], map[], 0;
      this.crossEncoder := crossEncoder;
      scoreCache := ScoreCache(map[], []);
      this.cacheSize := cacheSize;
      inserted, batches := [], [];
    }

    /** `total_docs` as written: the number of distinct words indexed, not of documents. */
    function TotalDocs(): (r: nat)
      reads this
      ensures r == |postings.Keys|
    {
      |postings|
    }

    /** The number of documents: the distinct ids inserted. */
    function DocCount(): (r: nat)
      requires Valid()
      reads this
      ensures r == |Elems(inserted)|
    {
      |url|
    }

    /**
     * `insert(doc)`: one posting per distinct token, the token total, url and title;
     * with a text (an empty one too), the text, a vector under the next label (after
     * doubling a full index) and both label maps.
     */
    method Insert(doc: Doc, tokenize: Option<string> -> seq<string>)
      requires Valid()
      modifies this`postings, this`wordsPerDoc, this`url, this`title, this`text, this`vectors,
               this`capacity, this`idToLabel, this`labelToId, this`nextLabel, this`inserted
      ensures Valid()
      ensures postings == AddPostings(old(postings), doc.id, Tally(map[], tokenize(doc.text)), FirstOccurrences(tokenize(doc.text)))
      ensures wordsPerDoc == old(wordsPerDoc)[doc.id := |tokenize(doc.text)|]
      ensures url == old(url)[doc.id := doc.url] && title == old(title)[doc.id := doc.title]
      ensures inserted == old(inserted) + [doc.id]
      ensures doc.text.None? ==> (text == old(text) && vectors == old(vectors) && capacity == old(capacity)
        && idToLabel == old(idToLabel) && labelToId == old(labelToId) && nextLabel == old(nextLabel))
      ensures doc.text.Some? ==> (text == old(text)[doc.id := doc.text.value] && vectors == old(vectors) + [doc.text.value]
        && capacity == Grown(old(nextLabel), old(capacity)) && nextLabel == old(nextLabel) + 1
        && idToLabel == old(idToLabel)[doc.id := old(nextLabel)] && labelToId == old(labelToId)[old(nextLabel) := doc.id])
      ensures forall w ::
        Search(w) == Lookup(old(postings), url, title, w) +
        (if w in tokenize(doc.text) then [SearchResult(doc.id, doc.url, doc.title, None)] else [])
    {
      var total := IndexWords(doc, tokenize);
      Record(doc, total);
      SearchAfterInsert(old(postings), old(url), old(title), doc, tokenize(doc.text), url, title);
    }

    /** The bookkeeping of `insert` after the postings: totals, url, title, then the vector. */
    method Record(doc: Doc, total: int)
      requires LabelsValid() && CacheValid() && url.Keys == Elems(inserted) && title.Keys == url.Keys
      requires PostedIn(postings, url.Keys + {doc.id})
      modifies this`wordsPerDoc, this`url, this`title, this`text, this`vectors,
               this`capacity, this`idToLabel, this`labelToId, this`nextLabel, this`inserted
      ensures Valid()
      ensures wordsPerDoc == old(wordsPerDoc)[doc.id := total]
      ensures url == old(url)[doc.id := doc.url] && title == old(title)[doc.id := doc.title]
      ensures inserted == old(inserted) + [doc.id]
      ensures doc.text.None? ==> (text == old(text) && vectors == old(vectors) && capacity == old(capacity)
        && idToLabel == old(idToLabel) && labelToId == old(labelToId) && nextLabel == old(nextLabel))
      ensures doc.text.Some? ==> (text == old(text)[doc.id := doc.text.value] && vectors == old(vectors) + [doc.text.value]
        && capacity == Grown(old(nextLabel), old(capacity)) && nextLabel == old(nextLabel) + 1
        && idToLabel == old(idToLabel)[doc.id := old(nextLabel)] && labelToId == old(labelToId)[old(nextLabel) := doc.id])
    {
      RecordDoc(doc, total);
      RecordText(doc);
    }

    /** The word count and the posting loop of `insert`. */
    method IndexWords(doc: Doc, tokenize: Option<string> -> seq<string>) returns (total: int)
      requires PostedIn(postings, url.Keys)
      modifies this`postings
      ensures postings == AddPostings(old(postings), doc.id, Tally(map[], tokenize(doc.text)), FirstOccurrences(tokenize(doc.text)))
      ensures PostedIn(postings, url.Keys + {doc.id})
      ensures total == |tokenize(doc.text)|
    {
      var counts, words;
      counts, words, total := WordCount(tokenize, doc.text);
      FirstOccurrencesSpec(tokenize(doc.text));
      AppendPostings(doc.id, counts, words);
      AddPostingsKnown(old(postings), doc.id, counts, words, url.Keys, url.Keys + {doc.id});
    }

    /** The part of `insert` that runs only when the document has a text. */
    method RecordText(doc: Doc)
      requires Valid() && doc.id in url
      modifies this`text, this`vectors, this`capacity, this`idToLabel, this`labelToId, this`nextLabel
      ensures Valid()
      ensures doc.text.None? ==> (text == old(text) && vectors == old(vectors) && capacity == old(capacity)
        && idToLabel == old(idToLabel) && labelToId == old(labelToId) && nextLabel == old(nextLabel))
      ensures doc.text.Some? ==> (text == old(text)[doc.id := doc.text.value] && vectors == old(vectors) + [doc.text.value]
        && capacity == Grown(old(nextLabel), old(capacity)) && nextLabel == old(nextLabel) + 1
        && idToLabel == old(idToLabel)[doc.id := old(nextLabel)] && labelToId == old(labelToId)[old(nextLabel) := doc.id])
    {
      if doc.text.Some? {
        AddVector(doc.id, doc.text.value);
      }
    }

    /** The posting loop of `insert`. */
    method AppendPostings(id: string, counts: map<string, int>, words: seq<string>)
      modifies this`postings
      ensures postings == AddPostings(old(postings), id, counts, words)
    {
      for i := 0 to |words|
        invariant postings == AddPostings(old(postings), id, counts, words[..i])
      {
        assert words[..i + 1][..i] == words[..i];
        var w := words[i];
        postings := postings[w := PostingsOf(postings, w) + [(id, Count(counts, w))]];
      }
      assert words[..|words|] == words;
    }

    /** The token total, url and title of `insert`. */
    method RecordDoc(doc: Doc, total: int)
      requires LabelsValid() && CacheValid() && url.Keys == Elems(inserted) && title.Keys == url.Keys
      requires PostedIn(postings, url.Keys + {doc.id})
      modifies this`wordsPerDoc, this`url, this`title, this`inserted
      ensures Valid()
      ensures wordsPerDoc == old(wordsPerDoc)[doc.id := total]
      ensures url == old(url)[doc.id := doc.url] && title == old(title)[doc.id := doc.title]
      ensures inserted == old(inserted) + [doc.id]
    {
      DocsAdd(url, title, inserted, postings, doc.id, doc.url, doc.title);
      RegistryGrows(idToLabel, labelToId, nextLabel, capacity, vectors, url.Keys, url[doc.id := doc.url].Keys);
      wordsPerDoc := wordsPerDoc[doc.id := total];
      url := url[doc.id := doc.url];
      title := title[doc.id := doc.title];
      inserted := inserted + [doc.id];
    }

    /** The text and the vector of `insert`, under the next label, doubling a full index first. */
    method AddVector(id: string, t: string)
      requires LabelsValid() && id in url
      modifies this`text, this`vectors, this`capacity, this`idToLabel, this`labelToId, this`nextLabel
      ensures LabelsValid()
      ensures text == old(text)[id := t] && vectors == old(vectors) + [t]
      ensures capacity == Grown(old(nextLabel), old(capacity)) && nextLabel == old(nextLabel) + 1
      ensures idToLabel == old(idToLabel)[id := old(nextLabel)] && labelToId == old(labelToId)[old(nextLabel) := id]
    {
      text := text[id := t];
      RegistryAdd(idToLabel, labelToId, nextLabel, capacity, vectors, url.Keys, id, t);
      if nextLabel >= capacity {
        capacity := nextLabel * 2;
      }
      vectors := vectors + [t];
      idToLabel := idToLabel[id := nextLabel];
      labelToId := labelToId[nextLabel := id];
      nextLabel := nextLabel + 1;
    }

    /** `search(word)`: the word's postings, in insertion order, as unscored results. */
    function Search(word: string): (r: seq<SearchResult>)
      requires Valid()
      reads this
      ensures r == Lookup(postings, url, title, word)
      ensures forall x :: x in r ==> x.id in Elems(inserted) && x.url == url[x.id] && x.title == title[x.id] && x.score == None
    {
      PostedLookup(postings, url, title, word);
      Lookup(postings, url, title, word)
    }

    /** `num_words_in_doc(id)`: the stored total, or 0, which the `defaultdict` also stores. */
    method NumWordsInDoc(id: string) returns (n: int)
      requires Valid()
      modifies this`wordsPerDoc
      ensures Valid()
      ensures n == if id in old(wordsPerDoc) then old(wordsPerDoc)[id] else 0
      ensures wordsPerDoc == if id in old(wordsPerDoc) then old(wordsPerDoc) else old(wordsPerDoc)[id := 0]
    {
      if id !in wordsPerDoc {
        wordsPerDoc := wordsPerDoc[id := 0];
      }
      n := wordsPerDoc[id];
    }

    method SetCrossEncoder(predict: Predict)
      requires Valid()
      modifies this`crossEncoder
      ensures Valid() && crossEncoder == Some(predict)
    {
      crossEncoder := Some(predict);
    }

    /**
     * `top_k(query, k, candidates)`, with `knn(n, ef)` the labels and similarities the
     * vector index returns for the query's embedding when asked for `n` neighbours at
     * breadth `ef`.
     */
    method TopK(query: string, k: int, candidates: Option<int>, knn: (int, int) -> seq<Hit>)
      returns (r: seq<SearchResult>)
      requires Valid()
      requires forall n, e, h :: h in knn(n, e) ==> h.lbl in labelToId
      modifies this`ef, this`scoreCache, this`batches
      ensures Valid()
      ensures nextLabel == 0 ==> r == [] && ef == old(ef) && scoreCache == old(scoreCache) && batches == old(batches)
      ensures nextLabel > 0 ==>
        var n := Candidates(k, candidates, nextLabel);
        var a := Rank(labelToId, url, title, text, old(scoreCache), cacheSize, crossEncoder, query, k, knn(n, Max(n, 10)));
        ef == Max(n, 10) && r == a.results && scoreCache == a.cache
        && batches == old(batches) + (if a.batch == [] then [] else [a.batch])
    {
      if nextLabel == 0 {
        return [];
      }
      KnnResolvable(knn, Candidates(k, candidates, nextLabel));
      r := Nearest(query, k, candidates, knn);
    }

    /** Every label the vector index returns names a document with a url and a title. */
    lemma KnnResolvable(knn: (int, int) -> seq<Hit>, n: int)
      requires Valid()
      requires forall n, e, h :: h in knn(n, e) ==> h.lbl in labelToId
      ensures forall h :: h in knn(n, Max(n, 10)) ==>
        h.lbl in labelToId && labelToId[h.lbl] in url && labelToId[h.lbl] in title
    {
    }

    /** `top_k` on an index holding at least one vector. */
    method Nearest(query: string, k: int, candidates: Option<int>, knn: (int, int) -> seq<Hit>)
      returns (r: seq<SearchResult>)
      requires nextLabel > 0 && CacheValid()
      requires forall h :: h in knn(Candidates(k, candidates, nextLabel), Max(Candidates(k, candidates, nextLabel), 10)) ==>
        h.lbl in labelToId && labelToId[h.lbl] in url && labelToId[h.lbl] in title
      modifies this`ef, this`scoreCache, this`batches
      ensures CacheValid()
      ensures var n := Candidates(k, candidates, nextLabel);
        var a := Rank(labelToId, url, title, text, old(scoreCache), cacheSize, crossEncoder, query, k, knn(n, Max(n, 10)));
        ef == Max(n, 10) && r == a.results && scoreCache == a.cache
        && batches == old(batches) + (if a.batch == [] then [] else [a.batch])
    {
      var n := Candidates(k, candidates, nextLabel);
      ef := Max(n, 10);
      var hits := knn(n, ef);
      r := Answer(query, k, hits);
    }

    /** `top_k` once the vector index has answered with `hits`. */
    method Answer(query: string, k: int, hits: seq<Hit>) returns (r: seq<SearchResult>)
      requires Resolvable(labelToId, url, title, hits) && CacheValid()
      modifies this`scoreCache, this`batches
      ensures CacheValid()
      ensures var a := Rank(labelToId, url, title, text, old(scoreCache), cacheSize, crossEncoder, query, k, hits);
        r == a.results && scoreCache == a.cache && batches == old(batches) + (if a.batch == [] then [] else [a.batch])
    {
      var results := BuildShortlist(labelToId, url, title, hits);
      RankCacheBound(labelToId, url, title, text, scoreCache, cacheSize, crossEncoder, query, k, hits);
      match crossEncoder
      case None =>
        r := AnswerBySimilarity(results, hits, k);
      case Some(predict) =>
        var scored := RerankShortlist(query, results, predict);
        r := PyTake(SortDesc(scored, Score), k);
    }

    /**
     * The reranking stage of `top_k`: cache lookups, one reranker call on the misses if
     * there are any, and the write-back.
     */
    method RerankShortlist(query: string, results: seq<SearchResult>, predict: Predict)
      returns (scored: seq<SearchResult>)
      modifies this`scoreCache, this`batches
      ensures var o := Rerank(query, text, old(scoreCache), cacheSize, results, predict);
        scored == o.results && scoreCache == o.cache
        && batches == old(batches) + (if o.batch == [] then [] else [o.batch])
    {
      var cache, missing, pairs;
      cache, scored, missing, pairs := LookUp(query, text, scoreCache, results);
      if pairs != [] {
        var scores := predict(pairs);
        batches := batches + [pairs];
        cache, scored := WriteBack(query, cache, scored, missing, scores, cacheSize);
      }
      scoreCache := cache;
    }
  }

  /** The no-reranker branch of `top_k`: score the shortlist by similarity and cut it to `k`. */
  method AnswerBySimilarity(results: seq<SearchResult>, hits: seq<Hit>, k: int) returns (r: seq<SearchResult>)
    ensures r == PyTake(WithSimilarity(results, hits), k)
  {
    var scored := ScoreBySimilarity(results, hits);
    r := PyTake(scored, k);
  }

  lemma TwoWordPostings(id: string)
    ensures |AddPostings(map[], id, Tally(map[], ["a", "b"]), FirstOccurrences(["a", "b"])).Keys| == 2
  {
    var tokens := ["a", "b"];
    FirstOccurrencesSpec(tokens);
    AddPostingsSpec(map[], id, Tally(map[], tokens), FirstOccurrences(tokens));
    assert Elems(tokens) == {"a", "b"};
  }

  lemma OneDoc(id: string)
    ensures |Elems([] + [id])| == 1
  {
    assert Elems([] + [id]) == {id};
  }

  /**
   * One document with two distinct words: `total_docs` reports two, while one document
   * is indexed.
   */
  method TotalDocsMiscount() returns (ix: SearchIndex)
    ensures ix.Valid() && ix.TotalDocs() == 2 && ix.DocCount() == 1
  {
    ix := new SearchIndex(1000, None);
    ix.Insert(Doc("d", "u", None, Some("a b")), t => ["a", "b"]);
    TwoWordPostings("d");
    OneDoc("d");
  }
}
