/**
 * The Mermaid renderer of the autocomplete trie (`src/mermaid.py`).
 *
 * A `Mermaid` object keeps a memo from node keys to ids `n0`, `n1`, ... and a counter.
 * `render_trie` walks the trie breadth-first twice: once declaring every node with its
 * id and name, once drawing an edge from every non-root node's parent to it. The
 * functions below give the memo and the text as values; the class performs the same
 * steps on its fields and is proved to agree with them.
 */
module MermaidRender {
  import opened Base
  import opened PyText
  import opened TrieShape
  import opened TrieBfs
  import opened Tries

  /** `node_ids` and `node_counter`. */
  datatype Memo = Memo(ids: map<Key, string>, counter: int)

  /** The id `f"n{i}"`. */
  function IdText(i: nat): string {
    "n" + NatToString(i)
  }

  lemma IdTextDistinct(i: nat, j: nat)
    requires i != j
    ensures IdText(i) != IdText(j)
  {
    if IdText(i) == IdText(j) {
      assert IdText(i)[1..] == NatToString(i) && IdText(j)[1..] == NatToString(j);
      NatToStringInjective(i, j);
    }
  }

  /** `s` is one of the ids handed out before the counter reached `n`. */
  ghost predicate IdBelow(s: string, n: int) {
    exists i: nat {:trigger IdText(i)} :: i < n && s == IdText(i)
  }

  /**
   * The memo is sound: the counter never went below its start `-1`, every id was handed
   * out by the counter, and no two keys share an id.
   */
  ghost predicate MemoOk(m: Memo) {
    m.counter >= -1
    && (forall k :: k in m.ids ==> IdBelow(m.ids[k], m.counter + 1))
    && (forall k1, k2 :: k1 in m.ids && k2 in m.ids && m.ids[k1] == m.ids[k2] ==> k1 == k2)
  }

  /** `_id(node)` for the node with key `k`: the memo afterwards and the id returned. */
  function AssignId(m: Memo, k: Key): (Memo, string)
    requires m.counter >= -1
  {
    if k in m.ids then (m, m.ids[k])
    else
      var c := m.counter + 1;
      (Memo(m.ids[k := IdText(c)], c), IdText(c))
  }

  /**
   * A key seen before keeps its id and the memo is unchanged; an unseen key gets the
   * next number. Either way the memo only grows by `k`.
   */
  lemma AssignIdFacts(m: Memo, k: Key)
    requires m.counter >= -1
    ensures var (m', id) := AssignId(m, k);
      k in m'.ids && id == m'.ids[k]
      && (forall k' :: k' in m'.ids <==> k' in m.ids || k' == k)
      && (forall k' :: k' in m.ids ==> m'.ids[k'] == m.ids[k'])
      && (k in m.ids ==> m' == m)
      && (k !in m.ids ==> m'.counter == m.counter + 1 && id == IdText(m'.counter))
  {
  }

  /** Taking an id keeps the memo sound: a new key gets an id no other key has. */
  lemma AssignIdSpec(m: Memo, k: Key)
    requires MemoOk(m)
    ensures MemoOk(AssignId(m, k).0)
  {
    if k !in m.ids {
      var c: nat := m.counter + 1;
      forall k1 | k1 in m.ids
        ensures m.ids[k1] != IdText(c) && IdBelow(m.ids[k1], c + 1)
      {
        var i: nat :| i < c && m.ids[k1] == IdText(i);
        IdTextDistinct(i, c);
      }
      assert IdBelow(IdText(c), c + 1);
    }
  }

  /** `_name(node)`: a blank for the root, otherwise the last character of the key. */
  function Name(k: Key): (r: string)
    ensures |r| == 1
  {
    if k == [] then " " else [Last(k)]
  }

  lemma NameOfChild(p: Key, c: char)
    ensures Name(ChildKey(p, c)) == [c]
  {
    ChildKeyParts(p, c);
  }

  function DeclLine(id: string, name: string): string {
    "\t" + id + "[" + name + "]\n"
  }

  function EdgeLine(parentId: string, id: string): string {
    "\t" + parentId + " --> " + id + "\n"
  }

  /** The declaration line of the node with key `k`, and the memo after its id is taken. */
  function DeclOf(m: Memo, k: Key): (Memo, string)
    requires m.counter >= -1
  {
    var (m1, id) := AssignId(m, k);
    (m1, DeclLine(id, Name(k)))
  }

  /** The edge line into the non-root node with key `k`; the parent's id is taken first. */
  function EdgeOf(m: Memo, k: Key): (Memo, string)
    requires m.counter >= -1 && k != []
  {
    var (m1, parentId) := AssignId(m, Parent(k));
    var (m2, id) := AssignId(m1, k);
    (m2, EdgeLine(parentId, id))
  }

  /** The declaration loop of `render_trie` over the keys `ks`, from memo `m`. */
  function Decls(m: Memo, ks: seq<Key>): (Memo, string)
    requires m.counter >= -1
    ensures Decls(m, ks).0.counter >= m.counter
  {
    if ks == [] then (m, "")
    else
      var (m1, s) := Decls(m, ks[..|ks| - 1]);
      var (m2, line) := DeclOf(m1, ks[|ks| - 1]);
      (m2, s + line)
  }

  /** The edge loop of `render_trie`: the root is skipped. */
  function Edges(m: Memo, ks: seq<Key>): (Memo, string)
    requires m.counter >= -1
    ensures Edges(m, ks).0.counter >= m.counter
  {
    if ks == [] then (m, "")
    else
      var (m1, s) := Edges(m, ks[..|ks| - 1]);
      var k := ks[|ks| - 1];
      if k == [] then (m1, s)
      else
        var (m2, line) := EdgeOf(m1, k);
        (m2, s + line)
  }

  /** `render_trie` over the breadth-first keys `ks`: the memo afterwards and the text. */
  function Render(m: Memo, ks: seq<Key>): (Memo, string)
    requires m.counter >= -1
  {
    var (m1, decls) := Decls(m, ks);
    var (m2, edges) := Edges(m1, ks);
    (m2, "graph TD\n" + decls + edges)
  }

  // ---------------------------------------------------------------------------------
  // The text in terms of a finished memo
  // ---------------------------------------------------------------------------------

  /** One declaration line per key, in order, with the ids of `ids`. */
  function DeclText(ids: map<Key, string>, ks: seq<Key>): string
    requires forall k :: k in ks ==> k in ids
  {
    if ks == [] then ""
    else DeclText(ids, ks[..|ks| - 1]) + DeclLine(ids[ks[|ks| - 1]], Name(ks[|ks| - 1]))
  }

  /** Parents of listed non-root keys are known to `ids` as well. */
  predicate EdgesKnown(ids: map<Key, string>, ks: seq<Key>) {
    forall k :: k in ks ==> k in ids && (k != [] ==> Parent(k) in ids)
  }

  /** One edge line per non-root key, in order, from its parent's id to its own. */
  function EdgeText(ids: map<Key, string>, ks: seq<Key>): string
    requires EdgesKnown(ids, ks)
  {
    if ks == [] then ""
    else
      var k := ks[|ks| - 1];
      var s := EdgeText(ids, ks[..|ks| - 1]);
      if k == [] then s else s + EdgeLine(ids[Parent(k)], ids[k])
  }

  lemma {:induction false} DeclTextAgree(a: map<Key, string>, b: map<Key, string>, ks: seq<Key>)
    requires forall k :: k in ks ==> k in a && k in b && a[k] == b[k]
    ensures DeclText(a, ks) == DeclText(b, ks)
  {
    if ks != [] {
      DeclTextAgree(a, b, ks[..|ks| - 1]);
    }
  }

  /** The declaration loop adds exactly the keys `ks` to the memo and keeps every id in it. */
  lemma {:induction false} DeclsKeys(m: Memo, ks: seq<Key>)
    requires m.counter >= -1
    ensures var m' := Decls(m, ks).0;
      (forall k :: k in m'.ids <==> k in m.ids || k in ks)
      && (forall k :: k in m.ids ==> m'.ids[k] == m.ids[k])
  {
    if ks != [] {
      var init, k := ks[..|ks| - 1], ks[|ks| - 1];
      DeclsKeys(m, init);
      AssignIdFacts(Decls(m, init).0, k);
      assert ks == init + [k];
    }
  }

  /** The declaration loop keeps the memo sound. */
  lemma {:induction false} DeclsOk(m: Memo, ks: seq<Key>)
    requires MemoOk(m)
    ensures MemoOk(Decls(m, ks).0)
  {
    if ks != [] {
      DeclsOk(m, ks[..|ks| - 1]);
      AssignIdSpec(Decls(m, ks[..|ks| - 1]).0, ks[|ks| - 1]);
    }
  }

  /** The declarations carry the ids the memo holds at the end of the loop. */
  lemma {:induction false} DeclsText(m: Memo, ks: seq<Key>)
    requires m.counter >= -1
    ensures var (m', text) := Decls(m, ks);
      (forall k :: k in ks ==> k in m'.ids) && text == DeclText(m'.ids, ks)
  {
    DeclsKeys(m, ks);
    if ks != [] {
      var init, k := ks[..|ks| - 1], ks[|ks| - 1];
      DeclsText(m, init);
      var m1 := Decls(m, init).0;
      AssignIdFacts(m1, k);
      DeclTextAgree(m1.ids, AssignId(m1, k).0.ids, init);
    }
  }

  /** When every key is already known, the declaration loop leaves the memo as it is. */
  lemma {:induction false} DeclsKnown(m: Memo, ks: seq<Key>)
    requires m.counter >= -1 && forall k :: k in ks ==> k in m.ids
    ensures Decls(m, ks) == (m, DeclText(m.ids, ks))
  {
    if ks != [] {
      DeclsKnown(m, ks[..|ks| - 1]);
    }
  }

  /** Keys met for the first time are numbered in the order they are met. */
  lemma {:induction false} DeclsNumbering(m: Memo, ks: seq<Key>)
    requires m.counter >= -1 && Distinct(ks) && forall k :: k in ks ==> k !in m.ids
    ensures Numbered(m, ks, Decls(m, ks).0)
  {
    if ks != [] {
      var init, k := ks[..|ks| - 1], ks[|ks| - 1];
      assert ks == init + [k] && Distinct(init) && k !in init && forall k :: k in init ==> k in ks;
      DeclsNumbering(m, init);
      NumberingStep(m, init, k, ks);
    }
  }

  /**
   * The keys `ks`, met for the first time, got the numbers after the memo `m`'s counter, in
   * the order they are met.
   */
  ghost predicate Numbered(m: Memo, ks: seq<Key>, m': Memo) {
    m.counter >= -1 && m'.counter == m.counter + |ks|
    && forall i :: 0 <= i < |ks| ==> ks[i] in m'.ids && m'.ids[ks[i]] == IdText(m.counter + 1 + i)
  }

  /** The last key met for the first time takes the next number. */
  lemma NumberingStep(m: Memo, init: seq<Key>, k: Key, ks: seq<Key>)
    requires m.counter >= -1 && ks == init + [k] && k !in init && k !in m.ids
    requires Numbered(m, init, Decls(m, init).0)
    ensures Numbered(m, ks, Decls(m, ks).0)
  {
    var m1 := Decls(m, init).0;
    var c := m1.counter + 1;
    assert Decls(m, ks).0 == Memo(m1.ids[k := IdText(c)], c) by {
      DeclsFresh(m, init, k);
      assert ks[..|ks| - 1] == init;
      DeclsSnoc(m, ks);
    }
    NumberedSnoc(m, m1, init, k, ks);
  }

  /** A key neither known nor declared is still unknown after the declaration loop. */
  lemma DeclsFresh(m: Memo, ks: seq<Key>, k: Key)
    requires m.counter >= -1 && k !in m.ids && k !in ks
    ensures k !in Decls(m, ks).0.ids
  {
    DeclsKeys(m, ks);
  }

  /** One more declaration takes the id of the last key. */
  lemma DeclsSnoc(m: Memo, ks: seq<Key>)
    requires m.counter >= -1 && ks != []
    ensures Decls(m, ks).0 == AssignId(Decls(m, ks[..|ks| - 1]).0, ks[|ks| - 1]).0
  {
  }

  /** Numbering one more key, after the numbered ones, keeps the earlier numbers. */
  lemma NumberedSnoc(m: Memo, m1: Memo, init: seq<Key>, k: Key, ks: seq<Key>)
    requires ks == init + [k] && k !in init && Numbered(m, init, m1)
    ensures Numbered(m, ks, Memo(m1.ids[k := IdText(m1.counter + 1)], m1.counter + 1))
  {
    var ids' := m1.ids[k := IdText(m1.counter + 1)];
    forall i | 0 <= i < |ks| ensures ks[i] in ids' && ids'[ks[i]] == IdText(m.counter + 1 + i) {
      if i < |init| {
        assert ks[i] == init[i];
      }
    }
  }

  /** When every key and parent is already known, the edge loop leaves the memo as it is. */
  lemma {:induction false} EdgesSpec(m: Memo, ks: seq<Key>)
    requires m.counter >= -1 && EdgesKnown(m.ids, ks)
    ensures Edges(m, ks) == (m, EdgeText(m.ids, ks))
  {
    if ks != [] {
      var init, k := ks[..|ks| - 1], ks[|ks| - 1];
      assert EdgesKnown(m.ids, init);
      EdgesSpec(m, init);
    }
  }

  /** Listed non-root keys have their parents listed too, as in a whole trie. */
  predicate ParentsListed(ks: seq<Key>) {
    forall k {:trigger Parent(k)} :: k in ks && k != [] ==> Parent(k) in ks
  }

  /**
   * The text is the header, one declaration per key in order and one edge per non-root
   * key in order, all with the ids of the memo afterwards, which keeps every earlier id
   * and adds those of `ks`.
   */
  lemma RenderLayout(m: Memo, ks: seq<Key>)
    requires MemoOk(m) && ParentsListed(ks)
    ensures var (m', text) := Render(m, ks);
      MemoOk(m') && (forall k :: k in m'.ids <==> k in m.ids || k in ks)
      && (forall k :: k in m.ids ==> m'.ids[k] == m.ids[k])
      && EdgesKnown(m'.ids, ks)
      && text == "graph TD\n" + DeclText(m'.ids, ks) + EdgeText(m'.ids, ks)
  {
    DeclsKeys(m, ks);
    DeclsOk(m, ks);
    DeclsText(m, ks);
    var m1 := Decls(m, ks).0;
    assert EdgesKnown(m1.ids, ks);
    EdgesSpec(m1, ks);
  }

  /**
   * The memo persists: rendering the same keys again hands out no new ids and writes
   * the same text.
   */
  lemma RenderAgain(m: Memo, ks: seq<Key>)
    requires MemoOk(m) && ParentsListed(ks)
    ensures Render(Render(m, ks).0, ks) == Render(m, ks)
  {
    RenderLayout(m, ks);
    var m' := Render(m, ks).0;
    DeclsKnown(m', ks);
    EdgesSpec(m', ks);
  }

  /**
   * The first rendering of a trie by a new renderer numbers the nodes `n0`, `n1`, ... in
   * breadth-first order, declares them in that order with their names and draws the edge
   * of every non-root node in that order.
   */
  lemma FirstRender(o: Order)
    requires StructInv(o)
    ensures var ks := BfsKeys(o);
      var (m, text) := Render(Memo(map[], -1), ks);
      m.counter == |ks| - 1 && EdgesKnown(m.ids, ks)
      && (forall k :: k in m.ids <==> k in o)
      && (forall i :: 0 <= i < |ks| ==> m.ids[ks[i]] == IdText(i))
      && text == "graph TD\n" + DeclText(m.ids, ks) + EdgeText(m.ids, ks)
  {
    var ks := BfsKeys(o);
    var m0 := Memo(map[], -1);
    BfsExact(o);
    assert ParentsListed(ks);
    RenderLayout(m0, ks);
    DeclsNumbering(m0, ks);
    DeclsKeys(m0, ks);
    var m1 := Decls(m0, ks).0;
    EdgesSpec(m1, ks);
  }

  // ---------------------------------------------------------------------------------
  // The renderer object
  // ---------------------------------------------------------------------------------

  /** What the trie guarantees about the nodes of its breadth-first list. */
  lemma ListedNodes(trie: Trie, ns: seq<Node>, ks: seq<Key>)
    requires trie.HeapOk() && trie.Lists(ns, ks)
    ensures forall i :: 0 <= i < |ks| ==> ns[i].key == ks[i] && (ns[i].parent == null <==> ks[i] == [])
    ensures forall i :: 0 <= i < |ks| && ns[i].parent != null ==> ns[i].parent.key == Parent(ks[i])
  {
    forall i | 0 <= i < |ks|
      ensures ns[i].key == ks[i] && (ns[i].parent == null <==> ks[i] == [])
      ensures ns[i].parent != null ==> ns[i].parent.key == Parent(ks[i])
    {
      var k := ks[i];
      assert NodeAt(trie.nodes[k], k, trie.nodes, trie.terms, trie.order);
      if k != [] {
        assert NodeAt(trie.nodes[Parent(k)], Parent(k), trie.nodes, trie.terms, trie.order);
      }
    }
  }

  /** Rendering a whole trie keeps the memo sound. */
  lemma RenderKeepsMemo(m: Memo, o: Order)
    requires MemoOk(m) && StructInv(o)
    ensures MemoOk(Render(m, BfsKeys(o)).0)
  {
    BfsExact(o);
    assert ParentsListed(BfsKeys(o));
    RenderLayout(m, BfsKeys(o));
  }

  /** A renderer never changes the trie it draws. */
  twostate lemma TrieKept(trie: Trie)
    requires old(trie.HeapOk()) && unchanged(trie) && unchanged(trie.Repr)
    ensures trie.HeapOk()
  {
  }

  /** The declaration loop has handled `ks[..i]`, starting from memo `m0`. */
  ghost predicate Declared(m0: Memo, ks: seq<Key>, i: nat, m: Memo, text: string) {
    m0.counter >= -1 && i <= |ks| && Decls(m0, ks[..i]).0 == m && "graph TD\n" + Decls(m0, ks[..i]).1 == text
  }

  lemma DeclaredStep(m0: Memo, ks: seq<Key>, i: nat, m: Memo, text: string, next: (Memo, string))
    requires Declared(m0, ks, i, m, text) && i < |ks| && m.counter >= -1
    requires next == DeclOf(m, ks[i])
    ensures Declared(m0, ks, i + 1, next.0, text + next.1)
  {
    assert ks[..i + 1][..i] == ks[..i];
    var s := Decls(m0, ks[..i]).1;
    assert "graph TD\n" + (s + next.1) == "graph TD\n" + s + next.1;
  }

  /** The edge loop has handled `ks[..i]`, after declarations `decls` left memo `m1`. */
  ghost predicate Drawn(m1: Memo, decls: string, ks: seq<Key>, i: nat, m: Memo, text: string) {
    m1.counter >= -1 && i <= |ks| && Edges(m1, ks[..i]).0 == m && "graph TD\n" + decls + Edges(m1, ks[..i]).1 == text
  }

  lemma DrawnRoot(m1: Memo, decls: string, ks: seq<Key>, i: nat, m: Memo, text: string)
    requires Drawn(m1, decls, ks, i, m, text) && i < |ks| && ks[i] == []
    ensures Drawn(m1, decls, ks, i + 1, m, text)
  {
    assert ks[..i + 1][..i] == ks[..i];
  }

  lemma DrawnStep(m1: Memo, decls: string, ks: seq<Key>, i: nat, m: Memo, text: string, next: (Memo, string))
    requires Drawn(m1, decls, ks, i, m, text) && i < |ks| && ks[i] != [] && m.counter >= -1
    requires next == EdgeOf(m, ks[i])
    ensures Drawn(m1, decls, ks, i + 1, next.0, text + next.1)
  {
    assert ks[..i + 1][..i] == ks[..i];
    var s := Edges(m1, ks[..i]).1;
    assert "graph TD\n" + decls + (s + next.1) == "graph TD\n" + decls + s + next.1;
  }

  /** `Mermaid()`: the id memo kept across renderings. */
  class Mermaid {
    var nodeIds: map<Key, string>
    var nodeCounter: int

    function State(): Memo
      reads this
    {
      Memo(nodeIds, nodeCounter)
    }

    ghost predicate Valid()
      reads this
    {
      MemoOk(State())
    }

    constructor ()
      ensures Valid() && nodeIds == map[] && nodeCounter == -1
    {
      nodeIds := map[];
      nodeCounter := -1;
    }

    /** `_id(node)`. */
    method Id(node: Node) returns (id: string)
      requires nodeCounter >= -1
      modifies this
      ensures nodeCounter >= -1 && (State(), id) == AssignId(old(State()), node.key)
    {
      if node.key !in nodeIds {
        nodeCounter := nodeCounter + 1;
        nodeIds := nodeIds[node.key := IdText(nodeCounter)];
      }
      id := nodeIds[node.key];
    }

    /** The line `f"\t{self._id(node)}[{self._name(node)}]\n"`. */
    method DeclareNode(node: Node) returns (line: string)
      requires nodeCounter >= -1
      modifies this
      ensures nodeCounter >= -1 && (State(), line) == DeclOf(old(State()), node.key)
    {
      var id := Id(node);
      line := DeclLine(id, Name(node.key));
    }

    /** The line `f"\t{self._id(node.parent)} --> {self._id(node)}\n"`. */
    method DrawEdge(node: Node) returns (line: string)
      requires nodeCounter >= -1 && node.parent != null && node.key != [] && node.parent.key == Parent(node.key)
      modifies this
      ensures nodeCounter >= -1 && (State(), line) == EdgeOf(old(State()), node.key)
    {
      var parentId := Id(node.parent);
      var id := Id(node);
      line := EdgeLine(parentId, id);
    }

    /** One round of the edge loop: the edge into `node`, unless it is the root. */
    method DrawNext(node: Node, ghost ks: seq<Key>, ghost i: nat, ghost m1: Memo, ghost decls: string, text0: string)
      returns (text: string)
      requires i < |ks| && node.key == ks[i] && (node.parent == null <==> ks[i] == [])
      requires node.parent != null ==> node.parent.key == Parent(ks[i])
      requires nodeCounter >= -1 && Drawn(m1, decls, ks, i, State(), text0)
      modifies this
      ensures nodeCounter >= -1 && Drawn(m1, decls, ks, i + 1, State(), text)
    {
      if node.parent == null {
        DrawnRoot(m1, decls, ks, i, State(), text0);
        text := text0;
      } else {
        ghost var m := State();
        var line := DrawEdge(node);
        DrawnStep(m1, decls, ks, i, m, text0, (State(), line));
        text := text0 + line;
      }
    }

    /** `render_trie(trie)`: two breadth-first passes, declarations and then edges. */
    method RenderTrie(trie: Trie) returns (text: string)
      requires Valid() && trie.HeapOk() && StructInv(trie.order)
      modifies this
      ensures Valid() && (State(), text) == Render(old(State()), BfsKeys(trie.order))
    {
      RenderKeepsMemo(State(), trie.order);
      text := Declare(trie);
      TrieKept(trie);
      text := Draw(trie, State(), Decls(old(State()), BfsKeys(trie.order)).1, text);
    }

    /** The first loop of `render_trie`, over `trie.bfs()`. */
    method Declare(trie: Trie) returns (text: string)
      requires nodeCounter >= -1 && trie.HeapOk() && StructInv(trie.order)
      modifies this
      ensures nodeCounter >= -1
      ensures var ks := BfsKeys(trie.order);
        State() == Decls(old(State()), ks).0 && text == "graph TD\n" + Decls(old(State()), ks).1
    {
      var nodes := trie.Bfs();
      ListedNodes(trie, nodes, BfsKeys(trie.order));
      text := DeclareNodes(nodes, BfsKeys(trie.order));
    }

    /** The second loop of `render_trie`, over `trie.bfs()` again. */
    method Draw(trie: Trie, ghost m1: Memo, ghost decls: string, text0: string) returns (text: string)
      requires nodeCounter >= -1 && trie.HeapOk() && StructInv(trie.order)
      requires State() == m1 && text0 == "graph TD\n" + decls
      modifies this
      ensures nodeCounter >= -1
      ensures var ks := BfsKeys(trie.order);
        State() == Edges(m1, ks).0 && text == "graph TD\n" + decls + Edges(m1, ks).1
    {
      var nodes := trie.Bfs();
      ListedNodes(trie, nodes, BfsKeys(trie.order));
      text := DrawEdges(nodes, BfsKeys(trie.order), m1, decls, text0);
    }

    /** One declaration line per node of `nodes`, whose keys are `ks`. */
    method DeclareNodes(nodes: seq<Node>, ghost ks: seq<Key>) returns (text: string)
      requires nodeCounter >= -1 && |nodes| == |ks|
      requires forall i :: 0 <= i < |ks| ==> nodes[i].key == ks[i]
      modifies this
      ensures nodeCounter >= -1
      ensures State() == Decls(old(State()), ks).0 && text == "graph TD\n" + Decls(old(State()), ks).1
    {
      ghost var m0 := State();
      text := "graph TD\n";
      var i := 0;
      assert ks[..0] == [];
      while i < |nodes|
        invariant i <= |nodes|
        invariant nodeCounter >= -1 && Declared(m0, ks, i, State(), text)
      {
        ghost var m := State();
        var line := DeclareNode(nodes[i]);
        DeclaredStep(m0, ks, i, m, text, (State(), line));
        text := text + line;
        i := i + 1;
      }
      assert ks[..i] == ks;
    }

    /** One edge line per node of `nodes` that has a parent. */
    method DrawEdges(nodes: seq<Node>, ghost ks: seq<Key>, ghost m1: Memo, ghost decls: string, text0: string)
      returns (text: string)
      requires nodeCounter >= -1 && |nodes| == |ks|
      requires forall i :: 0 <= i < |ks| ==> nodes[i].key == ks[i] && (nodes[i].parent == null <==> ks[i] == [])
      requires forall i :: 0 <= i < |ks| && nodes[i].parent != null ==> nodes[i].parent.key == Parent(ks[i])
      requires State() == m1 && text0 == "graph TD\n" + decls
      modifies this
      ensures nodeCounter >= -1
      ensures State() == Edges(m1, ks).0 && text == "graph TD\n" + decls + Edges(m1, ks).1
    {
      text := text0;
      var i := 0;
      assert ks[..0] == [];
      while i < |nodes|
        invariant i <= |nodes|
        invariant nodeCounter >= -1 && Drawn(m1, decls, ks, i, State(), text)
      {
        text := DrawNext(nodes[i], ks, i, m1, decls, text);
        i := i + 1;
      }
      assert ks[..i] == ks;
    }
  }
}
