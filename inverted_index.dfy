/**
 * `InvertedIndex` (src/search/inverted_index.py), the predecessor of `SearchIndex`: token
 * totals, urls and titles, the label registry of the vector index, and a `top_k` that
 * returns the nearest neighbours scored by similarity.
 */
module InvertedIndexModel {
  import opened Base
  import opened SearchDocs
  import opened SearchIndexModel

  class InvertedIndex {
    /** `_words_per_doc`, `_doc_id_to_url` and `_doc_id_to_title`. */
    var wordsPerDoc: map<string, int>
    var url: map<string, string>
    var title: map<string, Option<string>>
    /** The texts whose embeddings were added to the vector index, by label. */
    var vectors: seq<string>
    /** The vector index's `max_elements` and search breadth `ef`. */
    var capacity: int
    var ef: int
    var idToLabel: map<string, int>
    var labelToId: map<int, string>
    var nextLabel: int
    /** The ids passed to `insert`, in call order. */
    ghost var inserted: seq<string>

    /** The label registry, with `url`'s ids as the known documents. */
    ghost predicate LabelsValid()
      reads this`idToLabel, this`labelToId, this`nextLabel, this`capacity, this`vectors, this`url
    {
      RegistryOk(idToLabel, labelToId, nextLabel, capacity, vectors, url.Keys)
    }

    /** The documents are the ids inserted, each with a url and a title. */
    ghost predicate DocsValid()
      reads this`url, this`title, this`inserted
    {
      url.Keys == Elems(inserted) && title.Keys == url.Keys
    }

    ghost predicate Valid()
      reads this
    {
      LabelsValid() && DocsValid()
    }

    /** An empty index. */
    constructor ()
      ensures Valid()
      ensures wordsPerDoc == map[] && url == map[] && title == map[] && vectors == []
      ensures capacity == InitialCapacity && ef == DefaultEf
      ensures idToLabel == map[] && labelToId == map[] && nextLabel == 0 && inserted == []
    {
      wordsPerDoc, url, title, vectors := map[], map[], map[], [];
      capacity, ef := InitialCapacity, DefaultEf;
      idToLabel, labelToId, nextLabel := map[], map[], 0;
      inserted := [];
    }

    /** `total_docs`: the number of distinct ids inserted. */
    function TotalDocs(): (r: nat)
      requires Valid()
      reads this
      ensures r == |Elems(inserted)|
    {
      |url|
    }

    /**
     * `insert(doc)`: the token total (the per-word counts are dropped), url and title;
     * with a text, a vector under the next label (after doubling a full index) and both
     * label maps. Inserting an id again overwrites its entries and adds no document.
     */
    method Insert(doc: Doc, tokenize: Option<string> -> seq<string>)
      requires Valid()
      modifies this`wordsPerDoc, this`url, this`title, this`vectors, this`capacity,
               this`idToLabel, this`labelToId, this`nextLabel, this`inserted
      ensures Valid()
      ensures wordsPerDoc == old(wordsPerDoc)[doc.id := |tokenize(doc.text)|]
      ensures url == old(url)[doc.id := doc.url] && title == old(title)[doc.id := doc.title]
      ensures inserted == old(inserted) + [doc.id]
      ensures |url| == if doc.id in old(url) then |old(url)| else |old(url)| + 1
      ensures doc.text.None? ==> (vectors == old(vectors) && capacity == old(capacity)
        && idToLabel == old(idToLabel) && labelToId == old(labelToId) && nextLabel == old(nextLabel))
      ensures doc.text.Some? ==> (vectors == old(vectors) + [doc.text.value]
        && capacity == Grown(old(nextLabel), old(capacity)) && nextLabel == old(nextLabel) + 1
        && idToLabel == old(idToLabel)[doc.id := old(nextLabel)] && labelToId == old(labelToId)[old(nextLabel) := doc.id])
    {
      var _, _, total := WordCount(tokenize, doc.text);
      RecordDoc(doc, total);
      RecordText(doc);
    }

    /** The token total, url and title of `insert`. */
    method RecordDoc(doc: Doc, total: int)
      requires Valid()
      modifies this`wordsPerDoc, this`url, this`title, this`inserted
      ensures Valid()
      ensures wordsPerDoc == old(wordsPerDoc)[doc.id := total]
      ensures url == old(url)[doc.id := doc.url] && title == old(title)[doc.id := doc.title]
      ensures inserted == old(inserted) + [doc.id]
    {
      RegistryGrows(idToLabel, labelToId, nextLabel, capacity, vectors, url.Keys, url[doc.id := doc.url].Keys);
      wordsPerDoc := wordsPerDoc[doc.id := total];
      url := url[doc.id := doc.url];
      title := title[doc.id := doc.title];
      inserted := inserted + [doc.id];
      assert Elems(inserted) == Elems(old(inserted)) + {doc.id};
    }

    /** The part of `insert` that runs only when the document has a text. */
    method RecordText(doc: Doc)
      requires Valid() && doc.id in url
      modifies this`vectors, this`capacity, this`idToLabel, this`labelToId, this`nextLabel
      ensures Valid()
      ensures doc.text.None? ==> (vectors == old(vectors) && capacity == old(capacity)
        && idToLabel == old(idToLabel) && labelToId == old(labelToId) && nextLabel == old(nextLabel))
      ensures doc.text.Some? ==> (vectors == old(vectors) + [doc.text.value]
        && capacity == Grown(old(nextLabel), old(capacity)) && nextLabel == old(nextLabel) + 1
        && idToLabel == old(idToLabel)[doc.id := old(nextLabel)] && labelToId == old(labelToId)[old(nextLabel) := doc.id])
    {
      if doc.text.Some? {
        RegistryAdd(idToLabel, labelToId, nextLabel, capacity, vectors, url.Keys, doc.id, doc.text.value);
        if nextLabel >= capacity {
          capacity := nextLabel * 2;
        }
        vectors := vectors + [doc.text.value];
        idToLabel := idToLabel[doc.id := nextLabel];
        labelToId := labelToId[nextLabel := doc.id];
        nextLabel := nextLabel + 1;
      }
    }

    /** `num_words_in_doc(id)`: the stored total, or 0, which the `defaultdict` also stores. */
    method NumWordsInDoc(id: string) returns (n: int)
      requires Valid()
      modifies this`wordsPerDoc
      ensures Valid()
      ensures n == if id in old(wordsPerDoc) then old(wordsPerDoc)[id] else 0
      ensures wordsPerDoc == if id in old(wordsPerDoc) then old(wordsPerDoc) else old(wordsPerDoc)[id := 0]
    {
      if id !in wordsPerDoc {
        wordsPerDoc := wordsPerDoc[id := 0];
      }
      n := wordsPerDoc[id];
    }

    /**
     * `top_k(query, k)`, with `knn(n, ef)` the labels and similarities the vector index
     * returns for the query's embedding when asked for `n` neighbours at breadth `ef`.
     */
    method TopK(query: string, k: int, knn: (int, int) -> seq<Hit>) returns (r: seq<SearchResult>)
      requires Valid()
      requires forall n, e, h :: h in knn(n, e) ==> h.lbl in labelToId
      modifies this`ef
      ensures Valid()
      ensures nextLabel == 0 ==> r == [] && ef == old(ef)
      ensures nextLabel > 0 ==>
        var n := Min(k, nextLabel);
        ef == Max(n, 10) && r == Neighbours(labelToId, url, title, knn(n, Max(n, 10)))
    {
      if nextLabel == 0 {
        return [];
      }
      r := Nearest(k, knn);
    }

    /** `top_k` on an index holding at least one vector. */
    method Nearest(k: int, knn: (int, int) -> seq<Hit>) returns (r: seq<SearchResult>)
      requires nextLabel > 0
      requires forall h :: h in knn(Min(k, nextLabel), Max(Min(k, nextLabel), 10)) ==>
        h.lbl in labelToId && labelToId[h.lbl] in url && labelToId[h.lbl] in title
      modifies this`ef
      ensures var n := Min(k, nextLabel);
        ef == Max(n, 10) && r == Neighbours(labelToId, url, title, knn(n, Max(n, 10)))
    {
      var n := Min(k, nextLabel);
      ef := Max(n, 10);
      var hits := knn(n, ef);
      r := BuildNeighbours(labelToId, url, title, hits);
    }
  }
}
