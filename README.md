# search-engine core, modelled in Dafny

This project models the core of a small search engine. It has four parts.

**Autocomplete trie.** This is a character-keyed prefix tree.
- Every node stores its full key, an optional value, a terminal flag, its children in insertion order and a parent link.
- Operations: `insert`, `find`, a recursive `delete` that prunes dead branches, and a breadth-first `bfs`.
- The subgraph-cache subclass gives every node three more fields:
  - a cache mapping each terminal key of its subtree to its value;
  - a dirty flag;
  - a memo of the cache's keys sorted by descending value, rebuilt only when the flag is set.
- `insert` and `delete` patch the caches along the parent chain.

**Search index.** `SearchIndex` is the main index and `InvertedIndex` its predecessor. Each keeps:
- word postings `(doc id, count)` and a per-document token total;
- urls, titles and texts;
- a label registry for the vector index, whose capacity doubles when full.

`SearchIndex.top_k` works in stages:
1. It clamps the number of candidates and asks the vector index for that many neighbours.
2. It builds a shortlist.
3. It scores the shortlist by similarity, or, when a reranker is set:
   - looks every `(query, doc id)` pair up in a bounded least-recently-used score cache;
   - sends the misses to the reranker in one batch;
   - writes the scores back, evicting the oldest entries;
   - sorts stably by descending score.
4. It cuts the result to `k`.

**Mermaid renderer.** It prints a trie as a Mermaid graph, using a key→id memo that persists across calls.

**Analytics log reader.** It counts, per query, the log lines written since a saved offset, then saves the new offset.

## How the model is built

Each stateful Python class becomes a Dafny `class` whose fields mirror the Python fields. Ghost fields describe what the heap holds:
- the trie's `nodes`, `terms` and `order`;
- the ids inserted into an index;
- the reranker batches sent.

Each loop becomes a method whose postcondition ties its result to a function on values. The properties of those functions are proved as lemmas.

The Python modules map to Dafny modules as follows:

| Python source | Dafny modules |
|---|---|
| `src/autocomplete/trie.py` | `TrieShape` (the tree as maps; insert and prune specifications), `TrieBfs` (level order), `Tries` (`Node`, `Trie`) |
| `src/autocomplete/subgraph_cache_trie.py` | `CacheSort` (the sorted memo), `CachePaths` (cache invariant and path patching), `SubgraphCache` |
| `src/search/search_index.py` and `src/search/inverted_index.py` | `SearchDocs` (shared records, word count, label registry, shortlist), `RerankCache`, `StableSort`, `SearchIndexModel`, `InvertedIndexModel` |
| `src/mermaid.py` | `MermaidRender` |
| `log_reader.py` | `PyText` (`str.strip`, `int`, `str`, `rsplit`), `LogReader`, `LogReaderScenario` |

`Base` holds generic sequence and dictionary helpers, including Python's `s[:k]`, dict key order and `counts[q] += 1`.

Outside code the model does not include is replaced by parameters:
- the tokenizer is a function `Option<string> -> seq<string>`;
- the vector index's k-nearest-neighbour query is `knn(n, ef)`, returning labels with similarities;
- the cross-encoder is `seq<(string, string)> -> seq<int>`;
- the two files of the log reader are the fields of a `LogFiles` object.

Scores are integers. They stand in for the floats of the source and are only compared. A missing score sorts last, as `float("-inf")` does.

## Model

| member | source | states |
|---|---|---|
| Tries.Node.constructor | src/autocomplete/trie.py:7-13 | A new node has the given key and value, no children, is not terminal and has no parent. Its cache is empty and not dirty. |
| Tries.Node.AddChild | src/autocomplete/trie.py:36-39 | The new child's key is the parent's key plus the edge character. Its value is None, it is not terminal, and its parent link points back. It is added last among the children. |
| Tries.Node.CacheSortedKeys | src/autocomplete/subgraph_cache_trie.py:13-32 | Returns the cache's keys sorted by descending value and clears the dirty flag. When the flag was clear, returns the stored memo unchanged. |
| Tries.Trie.constructor | src/autocomplete/trie.py:29-31 | A lone, non-terminal root with the empty key. |
| Tries.Trie.Insert | src/autocomplete/trie.py:33-43 | The key becomes terminal with the value. Nodes are added for the missing prefixes only, and children are only appended. Every other node and every other key's value is unchanged. Returns the node of the key. |
| Tries.Trie.Find | src/autocomplete/trie.py:63-69 | Returns null exactly when the key is not a node of the trie; otherwise returns the node whose key is the key (the root for ""). |
| Tries.Trie.Bfs | src/autocomplete/trie.py:71-83 | Returns the nodes in the breadth-first key order `BfsKeys`. |
| Tries.Trie.BfsStep | src/autocomplete/trie.py:75-83 | One round yields the front node, queues its children behind the rest, and moves one place along `BfsKeys`. |
| Tries.Trie.Delete | src/autocomplete/trie.py:45-61 | The key stops being terminal and its node path is pruned as `Prune` says. No node is added. A key that is not terminal leaves the trie unchanged. |
| TrieShape.InsertShape | src/autocomplete/trie.py:33-43 | After insert the trie is valid again. Its nodes are the old ones plus the prefixes of the key, and every old child list is a prefix of the new one. |
| TrieShape.TerminalOrHasChild | src/autocomplete/trie.py:47-61 | In a trie built by insert and delete, every non-root node is terminal or has a child. |
| TrieShape.DeleteShape | src/autocomplete/trie.py:45-61 | After delete the trie is valid again. A node remains exactly when it is the root or still has a terminal key in its subtree. |
| TrieShape.DeleteInnerKey | src/autocomplete/trie.py:47-59 | Deleting a terminal key that has children keeps its node with the same children. |
| TrieShape.DeleteMissingEdge | src/autocomplete/trie.py:52-53 | When the key's path breaks off, delete changes nothing. |
| TrieShape.PruneNoop | src/autocomplete/trie.py:47-51 | Deleting a key that is not terminal prunes nothing. |
| TrieShape.PruneHasTermIff | src/autocomplete/trie.py:54-59 | After its subtree is pruned, a node on the path is kept exactly when it is terminal or still has a child. |
| TrieShape.SubtreeAfterInsert | src/autocomplete/subgraph_cache_trie.py:40-46 | Insert overwrites the key in the subtree map of the key and of each ancestor, and changes no other subtree map. |
| TrieShape.SubtreeAfterDelete | src/autocomplete/subgraph_cache_trie.py:48-57 | Delete removes the key from every subtree map and changes nothing else. A subtree map holds the key exactly when the key is terminal and below that node. |
| TrieBfs.BfsExact | src/autocomplete/trie.py:71-83 | The breadth-first order starts at the root and lists every node exactly once. A deeper node never comes before a shallower one. |
| CacheSort.SortedKeysExact | src/autocomplete/subgraph_cache_trie.py:23-30 | The sorted memo is a permutation of the cache's keys. |
| CacheSort.SortedKeysDescending | src/autocomplete/subgraph_cache_trie.py:23-30 | The sorted memo lists the keys by non-increasing value. |
| CacheSort.SortedKeysTies | src/autocomplete/subgraph_cache_trie.py:23-30 | Keys of equal value keep the cache's insertion order (the sort is stable). |
| StableSort.SortDesc | src/search/search_index.py:147-150 | The stable descending sort is a permutation of its input and is non-increasing by rank. |
| StableSort.SortDescStable | src/search/search_index.py:147-150 | Among elements of equal rank, the sort keeps the input order. |
| StableSort.TakeSorted | src/search/search_index.py:147-151 | The first `k` elements of the sort are still ordered and are drawn from the input. Among equal ranks they are a prefix of the input order. |
| CachePaths.PatchInsert | src/autocomplete/subgraph_cache_trie.py:44-46 | One ancestor step of insert: that node's cache now reflects the new terms and the node is marked dirty. Nodes off the path keep their memo fields. |
| CachePaths.PatchDelete | src/autocomplete/subgraph_cache_trie.py:55-57 | One ancestor step of delete: the key is in the ancestor's cache before the `del`, and the cache reflects the deletion afterwards. The node is marked dirty. |
| CachePaths.Ancestors | src/autocomplete/subgraph_cache_trie.py:59-64 | The parent chain from a node is the nodes of the key's proper prefixes, longest first, ending at the root. |
| SubgraphCache.SubgraphCacheTrie.constructor | src/autocomplete/subgraph_cache_trie.py:37-38 | An empty trie whose caches satisfy the invariant. |
| SubgraphCache.SubgraphCacheTrie.Insert | src/autocomplete/subgraph_cache_trie.py:40-46 | Plain insert, after which every node's cache is again exactly its subtree's terminal keys with their values. The node of the key and every ancestor are dirty. Only the caches on the path change. |
| SubgraphCache.SubgraphCacheTrie.Suggestions | src/app.py:54-57 | The autocomplete read keeps the caches valid. It returns nothing for the empty query and for a query that is not a node. Otherwise it returns the terminal keys under the query, each once, by non-increasing value. |
| SubgraphCache.SubgraphCacheTrie.FindSuggestions | src/app.py:56-57 | `find`, then `cache_sorted_keys`: nothing when the query is not a node, otherwise the terminal keys under it, each once, by non-increasing value. |
| SubgraphCache.SortedKept | src/autocomplete/subgraph_cache_trie.py:27-32 | Refreshing one node's sort memo keeps every cache equal to the subtree of its key. |
| SubgraphCache.SubgraphCacheTrie.Delete | src/autocomplete/subgraph_cache_trie.py:48-57 | A missing node: nothing changes. A non-terminal node: `KeyError`, with the trie unchanged. Otherwise: plain delete, after which the caches equal the subtrees again and the path is dirty. |
| MermaidRender.IdTextDistinct | src/mermaid.py:14 | Different counters give different ids. |
| MermaidRender.AssignIdFacts | src/mermaid.py:11-15 | A key seen before returns its id and leaves the memo unchanged. An unseen key gets `n` plus the next counter value. Earlier ids are kept. |
| MermaidRender.AssignIdSpec | src/mermaid.py:11-15 | Taking an id keeps the memo sound: every id came from the counter, and no two keys share one. |
| MermaidRender.NameOfChild | src/mermaid.py:17-20 | A non-root node's name is the last character of its key. |
| MermaidRender.DeclsNumbering | src/mermaid.py:11-26 | Keys met for the first time are numbered in the order they are met. |
| MermaidRender.EdgesSpec | src/mermaid.py:27-30 | When every key and parent already has an id, the edge pass assigns none. |
| MermaidRender.RenderLayout | src/mermaid.py:22-31 | The text is the header, one declaration per node in BFS order, then one edge per non-root node in BFS order. The memo keeps earlier ids and adds those of the trie. |
| MermaidRender.RenderAgain | src/mermaid.py:7-15 | The memo persists: rendering the same trie again hands out no new ids and writes the same text. |
| MermaidRender.FirstRender | src/mermaid.py:22-31 | A fresh renderer numbers the nodes `n0`, `n1`, ... in BFS order, declares them and draws their edges. |
| MermaidRender.Mermaid.constructor | src/mermaid.py:7-9 | An empty memo with the counter at -1. |
| MermaidRender.Mermaid.Id | src/mermaid.py:11-15 | `_id` agrees with `AssignId` on the memo fields. |
| MermaidRender.Mermaid.DeclareNode | src/mermaid.py:26 | The declaration line agrees with `DeclOf`. |
| MermaidRender.Mermaid.DrawEdge | src/mermaid.py:28-30 | The edge line agrees with `EdgeOf`. |
| MermaidRender.Mermaid.RenderTrie | src/mermaid.py:22-31 | The memo afterwards and the text agree with `Render` over the trie's BFS keys. |
| PyText.StripSpec | log_reader.py:43 | `strip()` keeps a slice with no whitespace at either end and drops only whitespace. |
| PyText.ParseInt | log_reader.py:20 | A parsed string is non-empty, starts with a digit or a sign, and has only digits and underscores after it. A string of decimal digits of any script reads as `DigitsValue`, and with a leading `-` as its negation. |
| PyText.ParseIntDigits | log_reader.py:20 | Arabic-Indic and fullwidth digits read as their values: both spellings of `12` give 12. |
| PyText.NatToString | log_reader.py:27 | `str(n)` is a non-empty digit string without a leading zero. |
| PyText.NatRoundTrip | log_reader.py:20-27 | What `str` writes, `int(... .strip())` reads back. |
| PyText.AfterLastSepSpec | log_reader.py:43 | `rsplit(" - ", 1)[-1]` is a suffix with no separator in it. It is the whole line exactly when the line has no separator. |
| LogReader.LineEndSpec | log_reader.py:34 | `readline()` stops just after the first newline, or at the end of the file. |
| LogReader.UnreadShape | log_reader.py:29-37 | Every line read is non-empty, and every line but the last ends with a newline. |
| LogReader.UnreadPositions | log_reader.py:37 | `tell()` after each line is the offset plus the length of the lines read so far. |
| LogReader.LastOffset | log_reader.py:42-45 | From an offset inside the file, the position after the last line is the end of the file. |
| LogReader.OffsetOf | log_reader.py:15-23 | The offset reads as 0 when the file is missing or `int` fails; otherwise it is the parsed integer. |
| LogReader.OffsetRoundTrip | log_reader.py:15-27 | An offset written by `_set_log_offset` reads back unchanged. |
| LogReader.CountPass | log_reader.py:39-48 | The new offset is the end of the file (or the old offset if it is beyond the end), and `bytes_read` is new minus old offset. |
| LogReader.NothingNew | log_reader.py:41-47 | With nothing new in the log, the counts and the offset stay the same and `bytes_read` is 0. |
| LogReader.Incremental | log_reader.py:39-48 | Two calls, the second after more text was appended, count the same as one call over the whole log. |
| LogReader.QueryOfEntry | log_reader.py:43 | The query read back from a logged line is the query logged. |
| LogReader.EntriesQueries | log_reader.py:42-44 | The queries read from a log of logged lines are the logged queries, in order. |
| LogReader.AnalyticsLogReader.constructor | log_reader.py:9-13 | No bytes read and empty counts. |
| LogReader.AnalyticsLogReader.SetLogOffset | log_reader.py:25-27 | The offset file holds `str(offset)`, and `_get_log_offset` reads it back. |
| LogReader.AnalyticsLogReader.CountLines | log_reader.py:42-45 | Each unread line's query is tallied once. `last_offset` ends at the end of the file or at the offset. |
| LogReader.AnalyticsLogReader.UniqueCount | log_reader.py:39-48 | A missing log or a negative offset: an error, nothing changes. Otherwise: the counts, offset file and `bytes_read` are those of `CountPass`, and the cumulative counts are returned. |
| LogReaderScenario.SegmentPasses | log_reader.py:39-48 | Over a log of two segments: each call counts only its new segment, and a third call reads 0 bytes. |
| LogReaderScenario.TwoSegments | log_reader.py:39-48 | A reader over a growing log returns cumulative counts. It saves each segment end as the offset and reports `[|seg1|, |seg2|, 0]` bytes read. |
| LogReaderScenario.LoggedSegments | log_reader.py:43-44 | Each query's count is the number of times it was logged. |
| LogReaderScenario.ThirdPassNotEmpty | src/autocomplete/tests/test_log_reader.py:79 | The third count of the scenario is empty exactly when neither segment logged a query. |
| Base.TallyCounts | log_reader.py:44 | `counts[q] += 1` over a list adds to each count the number of times that string occurs. |
| Base.PyTake | src/search/search_index.py:151 | Python's `s[:k]` is a prefix of `s` of length `min(k, len)` for `k >= 0`, and drops `-k` elements from the end otherwise. |
| Base.AddKey | src/autocomplete/subgraph_cache_trie.py:42 | Setting a dict key keeps the key order free of repeats and adds the key. |
| SearchDocs.WordCount | src/search/search_index.py:72-79 | `_word_count` returns `Tally` of the tokens, their first occurrences as the dict's key order, and the number of tokens. |
| SearchDocs.WordCountSpec | src/search/search_index.py:72-79 | Each distinct token is counted by its number of occurrences, and the counts sum to the total. |
| SearchDocs.FirstOccurrencesSpec | src/search/search_index.py:57 | The counts dict lists each distinct token exactly once. |
| SearchDocs.Register | src/search/search_index.py:65-70 | Registering the next label keeps the labels at exactly `0.._next_label-1`, all below the capacity, with both maps in step. The grown capacity has room for the label. |
| SearchDocs.ShortlistSpec | src/search/search_index.py:112-122 | Each hit, in ANN order, becomes an unscored result for the document its label maps to, with that document's url and title. |
| SearchDocs.ScoredShortlist | src/search/search_index.py:112-125 | Scoring the shortlist by similarity gives the older index's results. |
| SearchDocs.WithSimilaritySpec | src/search/search_index.py:124-125 | The `zip` loop scores the first `min(len)` results with their hit's similarity and leaves the rest alone. |
| SearchDocs.BuildShortlist | src/search/search_index.py:112-122 | The loop computes `Shortlist`. |
| SearchDocs.BuildNeighbours | src/search/inverted_index.py:75-87 | The loop computes `Neighbours`. |
| SearchDocs.ScoreBySimilarity | src/search/search_index.py:124-125 | The loop computes `WithSimilarity`. |
| RerankCache.ToEnd | src/search/search_index.py:133 | `move_to_end` keeps the keys distinct and adds only that key. |
| RerankCache.EvictWf | src/search/search_index.py:145-146 | `popitem(last=False)` keeps the cache well formed and removes one entry when over size. |
| RerankCache.StoreKeepsBound | src/search/search_index.py:143-146 | A store followed by an eviction keeps the cache within `cache_size`. |
| RerankCache.TriageOf | src/search/search_index.py:129-137 | The lookup pass keeps the cached scores and all results. It queues only shortlist positions. |
| RerankCache.TriagePairs | src/search/search_index.py:127-137 | The pairs queued are exactly the uncached shortlist pairs, in shortlist order. |
| RerankCache.TriageResults | src/search/search_index.py:132-134 | A cached pair's score is copied into its result, and nothing else changes. |
| RerankCache.TriageCache | src/search/search_index.py:132-133 | The hits move to the most-recent end, and the cache keeps its size. |
| RerankCache.LookUp | src/search/search_index.py:127-137 | The lookup loop computes `TriageOf`. |
| RerankCache.ApplyBound | src/search/search_index.py:143-146 | The write-back keeps the cache within `cache_size` entries. |
| RerankCache.ApplyCache | src/search/search_index.py:140-146 | With room for every queued key, each stored key stays among the recent ones. |
| RerankCache.ApplyResults | src/search/search_index.py:140-142 | The write-back scores exactly the queued results and leaves every result's document unchanged. |
| RerankCache.WriteBack | src/search/search_index.py:140-146 | The write-back loop computes `ApplyOf` over `zip(missing, scores)`. |
| RerankCache.MissPairsNone | src/search/search_index.py:138 | No pairs are queued exactly when every shortlisted key is cached. |
| RerankCache.RerankBatch | src/search/search_index.py:127-139 | The reranker is sent exactly the uncached pairs, in shortlist order, and is not called when every pair is cached. |
| RerankCache.RerankBound | src/search/search_index.py:127-146 | After `top_k` the cache is well formed and holds at most `cache_size` entries. |
| RerankCache.RerankResults | src/search/search_index.py:129-146 | The results are the shortlist's documents in shortlist order, and a cached pair's score is reused. |
| RerankCache.RerankScoresAll | src/search/search_index.py:138-141 | With one score per pair from the reranker, every result is scored. |
| RerankCache.RerankFills | src/search/search_index.py:138-146 | With room for the round's keys, every shortlisted key is cached afterwards. |
| RerankCache.RepeatedQuery | src/search/search_index.py:127-139 | An identical repeated query sends nothing more to the reranker. |
| SearchIndexModel.PostingsOf | src/search/search_index.py:81-83 | An unknown word has no postings. |
| SearchIndexModel.AddPostingsSpec | src/search/search_index.py:56-58 | Insert appends exactly one `(id, count)` posting to each distinct token's list and leaves every other list as it was. |
| SearchIndexModel.Lookup | src/search/search_index.py:85-94 | `search` gives one unscored result per posting, in posting order, with the url and title of its document. |
| SearchIndexModel.LookupAfterAdd | src/search/search_index.py:85-94 | After an insert, searching one of the document's words gives the earlier results followed by that document. Other words are unchanged. |
| SearchIndexModel.CandidatesBounds | src/search/search_index.py:107-108 | The shortlist size never exceeds the index size. It is at least `k` and at least `candidates` unless it is the whole index, and it is the whole index when no size is given. |
| SearchIndexModel.RankSize | src/search/search_index.py:123-151 | At most `k` results, and never more than the hits. |
| SearchIndexModel.RankBySimilarity | src/search/search_index.py:123-126 | Without a reranker: the hits scored by similarity, cut to `k`. The cache is untouched and no batch is sent. |
| SearchIndexModel.RankOrdered | src/search/search_index.py:147-151 | With a reranker: non-increasing by score and drawn from the reranked shortlist. Ties keep shortlist order. |
| SearchIndexModel.RankBatch | src/search/search_index.py:127-139 | The batch is exactly the uncached pairs, and is empty exactly when everything is cached. |
| SearchIndexModel.RankCacheBound | src/search/search_index.py:127-146 | `top_k` keeps the score cache within `cache_size` entries. |
| SearchIndexModel.RankRepeated | src/search/search_index.py:127-139 | Repeating a query sends no second batch. |
| SearchIndexModel.ReinsertKeepsOldLabel | src/search/search_index.py:68-69 | A re-inserted id gets a new label, while its old label still maps to it. |
| SearchIndexModel.RegistryAdd | src/search/search_index.py:62-70 | Adding a vector under the next label keeps the registry consistent. |
| SearchIndexModel.SearchIndex.constructor | src/search/search_index.py:22-49 | An empty index with capacity 100000, the given cache size and reranker, and an empty score cache. |
| SearchIndexModel.SearchIndex.TotalDocs | src/search/search_index.py:51-53 | As written: the number of distinct words indexed. |
| SearchIndexModel.SearchIndex.DocCount | src/search/search_index.py:51-53 | The number of distinct document ids inserted. |
| SearchIndexModel.SearchIndex.Insert | src/search/search_index.py:55-70 | Postings, token total, url and title are updated. A document with a text (even an empty one) gets the next label, and the capacity grows first when full. The registry invariant is kept. Afterwards `search(w)` gives the earlier results of `w`, then the new document exactly when `w` is one of its tokens. |
| SearchIndexModel.SearchAfterInsert | src/search/search_index.py:55-58 | After an insert, each word's lookup is its earlier lookup through the new url and title maps, followed by the new document exactly when the word is among its tokens. |
| SearchIndexModel.SearchIndex.IndexWords | src/search/search_index.py:56-58 | Computes `AddPostings` over the word count, and returns the token total. |
| SearchIndexModel.SearchIndex.AppendPostings | src/search/search_index.py:57-58 | The posting loop computes `AddPostings`. |
| SearchIndexModel.SearchIndex.RecordDoc | src/search/search_index.py:59-61 | Stores the token total, url and title, and keeps the invariant. |
| SearchIndexModel.SearchIndex.RecordText | src/search/search_index.py:62-70 | Only a document with a text gets the next label and a vector. |
| SearchIndexModel.SearchIndex.Record | src/search/search_index.py:59-70 | The bookkeeping after the postings: totals, url, title, then the vector when there is a text. |
| SearchIndexModel.SearchIndex.AddVector | src/search/search_index.py:63-70 | Resizes the index to twice `_next_label` when full, then stores the text and both label maps and increments the counter. |
| SearchIndexModel.SearchIndex.Search | src/search/search_index.py:85-94 | Every result is an inserted document, with its current url and title and no score. The results are `Lookup` over the postings, whose change under `insert` is stated on `Insert`. |
| SearchIndexModel.SearchIndex.NumWordsInDoc | src/search/search_index.py:96-97 | The stored total, or 0 for an unknown id. The `defaultdict` also stores that 0. |
| SearchIndexModel.SearchIndex.SetCrossEncoder | src/search/search_index.py:99-100 | The reranker is replaced. |
| SearchIndexModel.SearchIndex.TopK | src/search/search_index.py:102-151 | An empty index gives `[]`. Otherwise: the clamped candidate count, `ef = max(n, 10)`, and the `Rank` reply. The cache becomes the reply's cache, and a non-empty batch is logged once. |
| SearchIndexModel.SearchIndex.Nearest | src/search/search_index.py:107-111 | Clamps, sets `ef` and queries the neighbours, then answers as `Rank`. |
| SearchIndexModel.SearchIndex.Answer | src/search/search_index.py:112-151 | Shortlist, then the similarity or reranker branch, equal to `Rank`. |
| SearchIndexModel.SearchIndex.RerankShortlist | src/search/search_index.py:127-146 | Lookup, at most one reranker call with the misses, write-back; equal to `Rerank`. |
| SearchIndexModel.AnswerBySimilarity | src/search/search_index.py:123-126 | Equals `WithSimilarity` cut to `k`. |
| SearchIndexModel.TotalDocsMiscount | src/search/search_index.py:51-53 | One document with two distinct words: `total_docs` says 2, the document count is 1. |
| InvertedIndexModel.InvertedIndex.constructor | src/search/inverted_index.py:22-36 | An empty index with capacity 100000 and no labels. |
| InvertedIndexModel.InvertedIndex.TotalDocs | src/search/inverted_index.py:38-40 | The number of distinct document ids inserted. |
| InvertedIndexModel.InvertedIndex.Insert | src/search/inverted_index.py:42-54 | The token total overwrites the old one, and url and title are set. A re-insert does not grow the document count. Labels go consecutively to documents with a text, and the capacity doubles when full. |
| InvertedIndexModel.InvertedIndex.RecordDoc | src/search/inverted_index.py:43-46 | Stores the total, url and title, and keeps the invariant. |
| InvertedIndexModel.InvertedIndex.RecordText | src/search/inverted_index.py:47-54 | Only a document with a text gets the next label, and the capacity grows first when full. |
| InvertedIndexModel.InvertedIndex.NumWordsInDoc | src/search/inverted_index.py:65-66 | The stored total, or 0 for an unknown id. The `defaultdict` also stores that 0. |
| InvertedIndexModel.InvertedIndex.TopK | src/search/inverted_index.py:68-87 | An empty index gives `[]`. Otherwise it asks for `min(k, _next_label)` neighbours with `ef = max(that, 10)` and returns them resolved and scored, in ANN order. |
| InvertedIndexModel.InvertedIndex.Nearest | src/search/inverted_index.py:71-87 | The clamp, `ef` and the result loop, equal to `Neighbours`. |

## Left out

- The vector index (hnswlib): `knn_query` is the parameter `knn(n, ef)`. The model does not require it to return exactly `n` labels. Every label it returns must be a registered one, which holds for labels the index was given.
  - `resize_index` and `max_elements` appear only as the number `capacity`.
  - `add_items` appears as appending the text to `vectors`.
- The embedder (SentenceTransformer): no embedding is computed.
- The cross-encoder: an uninterpreted function from pairs to scores. The model does not rely on it returning one score per pair (the `zip` stops at the shorter list), except in `RerankScoresAll`, `RerankFills` and `RankRepeated`, which assume it.
- Floats: similarities (`1.0 - distance`) and reranker scores are integers, compared only.
- The tokenizer (NLTK): an uninterpreted function. It is total on `None` text, where the real tokenizer would raise.
- The constructors' model loading: `SearchIndex.constructor` takes the reranker (or none) as a parameter instead of loading one by name.
- File I/O in the log reader: each file is an `Option<string>`.
  - Offsets count characters, while Python's `tell()` in text mode is an opaque position. They agree for ASCII logs.
  - Lines end at `\n` only. Text mode's universal newlines, where a lone `\r` or a `\r\n` also ends a line and reads as `\n`, are not modelled.
  - `_unread_lines(None)` is never called with `None` by `unique_count`, so that branch is left out.
- `LogReader.AnalyticsLogReader.UniqueCount`: a missing log file or a negative saved offset, where Python raises, is returned as `None` with nothing changed.
- `Node.get`, `Node.child_keys`, `__getitem__` and `__setitem__` are used inside the trie methods but have no members of their own.
- `bfs` is a generator in Python. `Tries.Trie.Bfs` returns the whole list, which is what both loops of `render_trie` consume.
- The renderer in `src/mermaid.py` imports the trie from `src/trie.py`, a superseded copy. That copy has only a private `_bfs` (src/trie.py:67) and no `bfs`, so `render_trie`'s call `trie.bfs()` can only run on the trie of `src/autocomplete/trie.py`. It is modelled over that trie.
- The exact text of the Mermaid test for the trie `all`, `any`, `an` is not stated as a lemma. `MermaidRender.FirstRender` states its layout for every trie.
- Trie values are integers (`Any` in Python).
- `MermaidRender.Name`: its own contract states only that a name has one character. `MermaidRender.NameOfChild` states which character it is.
- Concurrency, the crawler, persistence, the web app (apart from its autocomplete read, `SubgraphCacheTrie.Suggestions`) and the cron glue are not part of this model.

## Findings

| source | as written | input that shows it | evidently intended | confidence | as-written member | corrected member |
|---|---|---|---|---|---|---|
| src/search/search_index.py:51-53 | `total_docs` returns `len(self._inverted_index)`, the number of distinct words indexed | one document whose text tokenizes to `["a", "b"]`: `total_docs` is 2 while one document is indexed | the number of documents, as `InvertedIndex.total_docs` (`len(self._doc_id_to_url)`) returns | medium; not executed | SearchIndexModel.TotalDocsMiscount | SearchIndexModel.SearchIndex.DocCount |
| src/autocomplete/tests/test_log_reader.py:79 | `reader.unique_count() == dict()` is a bare comparison without `assert`, so its result is discarded | the test's own two segments: the third call returns the cumulative counts, which are not empty, so the comparison is False and the test still passes | a checked statement about the third call, which returns the same counts as the second | medium; not executed | LogReaderScenario.ThirdPassNotEmpty | LogReaderScenario.TwoSegments |

Two behaviours of the code are modelled as written:
- Any document whose text is not `None` gets a label, including the empty text.
- Re-inserting an id gives it a new label, while the old label still maps to it (`SearchIndexModel.ReinsertKeepsOldLabel`). So `label_to_id` is one-to-one only over distinct ids, and the ANN can return the same document twice.
