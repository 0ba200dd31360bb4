/**
 * The preprocessing both PageRank computers do before iterating: the
 * initial rank table keyed by page id, the out-degree table `numLinks`,
 * the list of dangling pages and the reverse-edge table `edges`. Each table
 * is built by a loop over the pages, as in the source; each loop is proved
 * against a function over the page sequence, and the lemmas say what the
 * tables mean.
 */
module PageRankPrep {

  const Uint32Modulus: int := 0x1_0000_0000

  /** A page identifier (the text of its hash); only equality is used. */
  type PageId = string

  datatype Page = Page(id: PageId, links: seq<PageId>)

  // ---------------------------------------------------------------------
  // The rank table's keys

  function IdSet(pages: seq<Page>): set<PageId>
  {
    if |pages| == 0 then {} else IdSet(pages[..|pages| - 1]) + {pages[|pages| - 1].id}
  }

  lemma IdSetMembers(pages: seq<Page>)
    ensures forall x :: x in IdSet(pages) <==> exists i :: 0 <= i < |pages| && pages[i].id == x
  {
    if |pages| > 0 {
      var prefix := pages[..|pages| - 1];
      IdSetMembers(prefix);
      forall x | x in IdSet(pages) ensures exists i :: 0 <= i < |pages| && pages[i].id == x
      {
        if x in IdSet(prefix) {
          var i :| 0 <= i < |prefix| && prefix[i].id == x;
          assert pages[i].id == x;
        } else {
          assert pages[|pages| - 1].id == x;
        }
      }
      forall x | exists i :: 0 <= i < |pages| && pages[i].id == x ensures x in IdSet(pages)
      {
        var i :| 0 <= i < |pages| && pages[i].id == x;
        if i < |prefix| {
          assert prefix[i].id == x;
        }
      }
    }
  }

  /**
   * The first loop: `pageHashMap[page.getId()] = init` for every page
   * (the initial rank `1.0 / network.getSize()` is the parameter `init`).
   */
  method InitialRanks<R>(pages: seq<Page>, init: R) returns (ranks: map<PageId, R>)
    ensures ranks.Keys == IdSet(pages)
    ensures forall x :: x in ranks ==> ranks[x] == init
  {
    ranks := map[];
    for i := 0 to |pages|
      invariant ranks.Keys == IdSet(pages[..i])
      invariant forall x :: x in ranks ==> ranks[x] == init
    {
      assert pages[..i + 1][..i] == pages[..i];
      ranks := ranks[pages[i].id := init];
    }
    assert pages[..|pages|] == pages;
  }

  /** No two pages share an id. */
  predicate DistinctIds(pages: seq<Page>)
  {
    forall i, j :: 0 <= i < j < |pages| ==> pages[i].id != pages[j].id
  }

  /** Without its last page, a sequence of distinct ids stays distinct and does not have the last id. */
  lemma DistinctSplit(pages: seq<Page>)
    requires |pages| > 0 && DistinctIds(pages)
    ensures DistinctIds(pages[..|pages| - 1])
    ensures pages[|pages| - 1].id !in IdSet(pages[..|pages| - 1])
  {
    var prefix := pages[..|pages| - 1];
    IdSetMembers(prefix);
    forall i, j | 0 <= i < j < |prefix| ensures prefix[i].id != prefix[j].id
    {
      assert prefix[i] == pages[i] && prefix[j] == pages[j];
    }
    forall i | 0 <= i < |prefix| ensures prefix[i].id != pages[|pages| - 1].id
    {
      assert prefix[i] == pages[i];
    }
  }

  /** A repeated id is repeated within the prefix or is the last id reappearing. */
  lemma RepeatSplit(pages: seq<Page>)
    requires |pages| > 0 && !DistinctIds(pages)
    ensures !DistinctIds(pages[..|pages| - 1]) || pages[|pages| - 1].id in IdSet(pages[..|pages| - 1])
  {
    var prefix := pages[..|pages| - 1];
    IdSetMembers(prefix);
    var i, j :| 0 <= i < j < |pages| && pages[i].id == pages[j].id;
    assert prefix[i] == pages[i];
    if j < |pages| - 1 {
      assert prefix[j] == pages[j];
    }
  }

  lemma {:induction false} IdSetSize(pages: seq<Page>)
    ensures |IdSet(pages)| <= |pages|
    ensures |IdSet(pages)| == |pages| <==> DistinctIds(pages)
  {
    if |pages| > 0 {
      var prefix := pages[..|pages| - 1];
      IdSetSize(prefix);
      if DistinctIds(pages) {
        DistinctSplit(pages);
      } else {
        RepeatSplit(pages);
      }
    }
  }

  /**
   * The result vector holds one entry per key of the rank table, so the
   * size check against the network size passes exactly when page ids are
   * distinct.
   */
  lemma ResultSizeMatchesIffDistinct<R>(pages: seq<Page>, ranks: map<PageId, R>)
    requires ranks.Keys == IdSet(pages)
    ensures |ranks| == |pages| <==> DistinctIds(pages)
  {
    IdSetSize(pages);
    assert |ranks.Keys| == |ranks|;
  }

  // ---------------------------------------------------------------------
  // Out-degrees

  /** `numLinks`: each id mapped to its page's link count, truncated to `uint32_t`; a later page wins. */
  function NumLinks(pages: seq<Page>): map<PageId, nat>
  {
    if |pages| == 0 then map[]
    else
      var last := pages[|pages| - 1];
      NumLinks(pages[..|pages| - 1])[last.id := |last.links| % Uint32Modulus]
  }

  method CountLinks(pages: seq<Page>) returns (numLinks: map<PageId, nat>)
    ensures numLinks == NumLinks(pages)
  {
    numLinks := map[];
    for i := 0 to |pages|
      invariant numLinks == NumLinks(pages[..i])
    {
      assert pages[..i + 1][..i] == pages[..i];
      numLinks := numLinks[pages[i].id := |pages[i].links| % Uint32Modulus];
    }
    assert pages[..|pages|] == pages;
  }

  /**
   * `numLinks` has a key for every page and, when ids are distinct, gives
   * each page its own number of links (modulo 2^32).
   */
  lemma {:induction false} NumLinksOfPage(pages: seq<Page>, k: nat)
    requires DistinctIds(pages) && k < |pages|
    ensures pages[k].id in NumLinks(pages)
    ensures NumLinks(pages)[pages[k].id] == |pages[k].links| % Uint32Modulus
  {
    var prefix := pages[..|pages| - 1];
    if k < |pages| - 1 {
      assert DistinctIds(prefix) by {
        forall i, j | 0 <= i < j < |prefix| ensures prefix[i].id != prefix[j].id
        {
          assert prefix[i] == pages[i] && prefix[j] == pages[j];
        }
      }
      NumLinksOfPage(prefix, k);
      assert prefix[k] == pages[k];
    }
  }

  lemma {:induction false} NumLinksKeys(pages: seq<Page>)
    ensures NumLinks(pages).Keys == IdSet(pages)
  {
    if |pages| > 0 {
      NumLinksKeys(pages[..|pages| - 1]);
    }
  }

  // ---------------------------------------------------------------------
  // Dangling pages

  /** The ids of the pages without links, in page order. */
  function Dangling(pages: seq<Page>): seq<PageId>
  {
    if |pages| == 0 then []
    else
      var last := pages[|pages| - 1];
      Dangling(pages[..|pages| - 1]) + (if |last.links| == 0 then [last.id] else [])
  }

  method CollectDangling(pages: seq<Page>) returns (dangling: seq<PageId>)
    ensures dangling == Dangling(pages)
  {
    dangling := [];
    for i := 0 to |pages|
      invariant dangling == Dangling(pages[..i])
    {
      assert pages[..i + 1][..i] == pages[..i];
      if |pages[i].links| == 0 {
        dangling := dangling + [pages[i].id];
      }
    }
    assert pages[..|pages|] == pages;
  }

  /** The dangling list of a concatenation is the concatenation of the lists: page order is kept. */
  lemma {:induction false} DanglingOfConcat(a: seq<Page>, b: seq<Page>)
    ensures Dangling(a + b) == Dangling(a) + Dangling(b)
  {
    if |b| > 0 {
      var b' := b[..|b| - 1];
      assert (a + b)[..|a + b| - 1] == a + b';
      DanglingOfConcat(a, b');
    } else {
      assert a + b == a;
    }
  }

  /** An id is listed iff some page with it has no links. */
  lemma {:induction false} DanglingMembers(pages: seq<Page>, x: PageId)
    ensures x in Dangling(pages) <==> exists i :: 0 <= i < |pages| && pages[i].id == x && |pages[i].links| == 0
  {
    if |pages| > 0 {
      var prefix := pages[..|pages| - 1];
      DanglingMembers(prefix, x);
      if exists i :: 0 <= i < |pages| && pages[i].id == x && |pages[i].links| == 0 {
        var i :| 0 <= i < |pages| && pages[i].id == x && |pages[i].links| == 0;
        if i < |prefix| {
          assert prefix[i] == pages[i];
        }
      }
      if x in Dangling(prefix) {
        var i :| 0 <= i < |prefix| && prefix[i].id == x && |prefix[i].links| == 0;
        assert pages[i] == prefix[i];
      }
    }
  }

  // ---------------------------------------------------------------------
  // Reverse edges

  type Edges = map<PageId, seq<PageId>>

  /** `edges[link].push_back(id)`: a missing entry starts out empty. */
  function AddLink(edges: Edges, id: PageId, link: PageId): Edges
  {
    edges[link := (if link in edges then edges[link] else []) + [id]]
  }

  /** The inner loop over one page's links. */
  function AddLinks(edges: Edges, id: PageId, links: seq<PageId>): Edges
  {
    if |links| == 0 then edges
    else AddLink(AddLinks(edges, id, links[..|links| - 1]), id, links[|links| - 1])
  }

  /** The table after both loops. */
  function EdgesOf(pages: seq<Page>): Edges
  {
    if |pages| == 0 then map[]
    else
      var last := pages[|pages| - 1];
      AddLinks(EdgesOf(pages[..|pages| - 1]), last.id, last.links)
  }

  method BuildEdges(pages: seq<Page>) returns (edges: Edges)
    ensures edges == EdgesOf(pages)
  {
    edges := map[];
    for i := 0 to |pages|
      invariant edges == EdgesOf(pages[..i])
    {
      assert pages[..i + 1][..i] == pages[..i];
      ghost var before := edges;
      var links := pages[i].links;
      for j := 0 to |links|
        invariant edges == AddLinks(before, pages[i].id, links[..j])
      {
        assert links[..j + 1][..j] == links[..j];
        var link := links[j];
        edges := edges[link := (if link in edges then edges[link] else []) + [pages[i].id]];
      }
      assert links[..|links|] == links;
    }
    assert pages[..|pages|] == pages;
  }

  /** How often `x` occurs in `s`. */
  function Count(s: seq<PageId>, x: PageId): nat
  {
    if |s| == 0 then 0 else Count(s[..|s| - 1], x) + (if s[|s| - 1] == x then 1 else 0)
  }

  /** `id` repeated `k` times. */
  function Repeat(id: PageId, k: nat): (s: seq<PageId>)
    ensures |s| == k && forall i :: 0 <= i < k ==> s[i] == id
  {
    if k == 0 then [] else Repeat(id, k - 1) + [id]
  }

  /**
   * Reference definition of who links to `x`, independent of the table:
   * each page's id, once per occurrence of `x` among its links, in page
   * order.
   */
  function Referrers(pages: seq<Page>, x: PageId): seq<PageId>
  {
    if |pages| == 0 then []
    else
      var last := pages[|pages| - 1];
      Referrers(pages[..|pages| - 1], x) + Repeat(last.id, Count(last.links, x))
  }

  /** The entry of `x` after the inner loop: `Count(links, x)` more copies of `id`. */
  lemma {:induction false} AddLinksEntry(edges: Edges, id: PageId, links: seq<PageId>, x: PageId)
    ensures x in AddLinks(edges, id, links) <==> x in edges || Count(links, x) > 0
    ensures var before := if x in edges then edges[x] else [];
      x in AddLinks(edges, id, links) ==> AddLinks(edges, id, links)[x] == before + Repeat(id, Count(links, x))
  {
    if |links| > 0 {
      var init := links[..|links| - 1];
      AddLinksEntry(edges, id, init, x);
      var before := if x in edges then edges[x] else [];
      if links[|links| - 1] == x {
        assert before + Repeat(id, Count(init, x)) + [id] == before + Repeat(id, Count(init, x) + 1);
      }
    }
  }

  /**
   * `edges[x]` lists exactly the referrers of `x`, and `x` has an entry
   * iff some page links to it; pages nobody links to have none.
   */
  lemma {:induction false} EdgesAreReferrers(pages: seq<Page>, x: PageId)
    ensures x in EdgesOf(pages) <==> |Referrers(pages, x)| > 0
    ensures x in EdgesOf(pages) ==> EdgesOf(pages)[x] == Referrers(pages, x)
  {
    if |pages| > 0 {
      var prefix := pages[..|pages| - 1];
      var last := pages[|pages| - 1];
      EdgesAreReferrers(prefix, x);
      AddLinksEntry(EdgesOf(prefix), last.id, last.links, x);
    }
  }

  lemma {:induction false} CountPositive(s: seq<PageId>, x: PageId)
    ensures Count(s, x) > 0 <==> x in s
  {
    if |s| > 0 {
      CountPositive(s[..|s| - 1], x);
      assert s == s[..|s| - 1] + [s[|s| - 1]];
    }
  }

  /** Someone refers to `x` iff some page's links contain `x`. */
  lemma {:induction false} ReferrersMembers(pages: seq<Page>, x: PageId)
    ensures |Referrers(pages, x)| > 0 <==> exists i :: 0 <= i < |pages| && x in pages[i].links
  {
    if |pages| > 0 {
      var prefix := pages[..|pages| - 1];
      var last := pages[|pages| - 1];
      ReferrersMembers(prefix, x);
      CountPositive(last.links, x);
      if exists i :: 0 <= i < |pages| && x in pages[i].links {
        var i :| 0 <= i < |pages| && x in pages[i].links;
        if i < |prefix| {
          assert prefix[i] == pages[i];
        }
      }
      if exists i :: 0 <= i < |prefix| && x in prefix[i].links {
        var i :| 0 <= i < |prefix| && x in prefix[i].links;
        assert pages[i] == prefix[i];
      }
    }
  }
}
