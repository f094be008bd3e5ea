/**
 * `update_from_scrapbox`: every page of the export is chunked and every chunk is added
 * to the output store, with the optional input index consulted as a read-only cache.
 */
module Builder {
  import opened Results
  import opened Store
  import opened Chunker

  /** The chunks of one page, each tagged with the page title. */
  function Tagged(bodies: seq<string>, title: string): (r: seq<Chunk>)
    ensures |r| == |bodies|
    ensures forall i :: 0 <= i < |r| ==> r[i] == Chunk(bodies[i], title)
    ensures forall c :: c in r ==> c.title == title
  {
    if bodies == [] then [] else Tagged(bodies[..|bodies| - 1], title) + [Chunk(bodies[|bodies| - 1], title)]
  }

  /** Every `add_record` call the builder makes for `pages`, in order: page by page, chunk by chunk. */
  ghost function AllChunks(size: string -> nat, pages: seq<Page>): seq<Chunk>
  {
    if pages == [] then []
    else
      var last := pages[|pages| - 1];
      AllChunks(size, pages[..|pages| - 1]) + Tagged(PageChunks(size, last.lines), last.title)
  }

  /** The calls for the first `i + 1` pages are those for the first `i`, then page `i`'s chunks. */
  lemma AllChunksSnoc(size: string -> nat, pages: seq<Page>, i: nat)
    requires i < |pages|
    ensures AllChunks(size, pages[..i + 1])
            == AllChunks(size, pages[..i]) + Tagged(PageChunks(size, pages[i].lines), pages[i].title)
  {
    assert pages[..i + 1][..i] == pages[..i];
  }

  /** Every chunk is stored under the title of the page it was cut from. */
  lemma {:induction false} ChunkTitles(size: string -> nat, pages: seq<Page>)
    ensures forall c :: c in AllChunks(size, pages) ==> exists i :: 0 <= i < |pages| && c.title == pages[i].title
  {
    if pages != [] {
      var init := pages[..|pages| - 1];
      var last := pages[|pages| - 1];
      ChunkTitles(size, init);
      var front := AllChunks(size, init);
      var tail := Tagged(PageChunks(size, last.lines), last.title);
      assert AllChunks(size, pages) == front + tail;
      forall c: Chunk | c in front + tail ensures exists i :: 0 <= i < |pages| && c.title == pages[i].title {
        LastPageTitles(pages, init, front, tail, c);
      }
    }
  }

  /**
   * A chunk of the pages before the last carries the title of one of them; a chunk of the
   * last page carries its title.
   */
  lemma LastPageTitles(pages: seq<Page>, init: seq<Page>, front: seq<Chunk>, tail: seq<Chunk>, c: Chunk)
    requires pages != [] && init == pages[..|pages| - 1] && c in front + tail
    requires forall d :: d in front ==> exists i :: 0 <= i < |init| && d.title == init[i].title
    requires forall d :: d in tail ==> d.title == pages[|pages| - 1].title
    ensures exists i :: 0 <= i < |pages| && c.title == pages[i].title
  {
    if c in front {
      var i :| 0 <= i < |init| && c.title == init[i].title;
      assert c.title == pages[i].title;
    } else {
      assert c.title == pages[|pages| - 1].title;
    }
  }

  /** The texts of `chunks`. */
  function Bodies(chunks: seq<Chunk>): set<string>
  {
    set c | c in chunks :: c.body
  }

  lemma BodiesSnoc(chunks: seq<Chunk>)
    requires chunks != []
    ensures Bodies(chunks) == Bodies(chunks[..|chunks| - 1]) + {chunks[|chunks| - 1].body}
  {
    assert chunks == chunks[..|chunks| - 1] + [chunks[|chunks| - 1]];
  }

  /** The store contents and the embedding log after a run of `add_record` calls. */
  datatype Filled = Filled(cache: Cache, sent: seq<string>)

  /**
   * The store after `add_record(c.body, c.title, fallback)` for each `c` of `chunks` in
   * order, starting from `cache` with `sent` already sent to the embedding service. The
   * store ends up holding exactly its old texts and the chunk texts, and the log only grows.
   */
  ghost function AddAll(cache: Cache, fallback: Option<Cache>, chunks: seq<Chunk>,
                        respond: (nat, string) -> Embedding, sent: seq<string>): (f: Filled)
    ensures f.cache.Keys == cache.Keys + Bodies(chunks)
    ensures |sent| <= |f.sent| && f.sent[..|sent|] == sent
  {
    if chunks == [] then Filled(cache, sent)
    else
      var prev := AddAll(cache, fallback, chunks[..|chunks| - 1], respond, sent);
      var c := chunks[|chunks| - 1];
      BodiesSnoc(chunks);
      AddOne(prev, fallback, c, respond)
  }

  /** One more `add_record(c.body, c.title, fallback)` after `prev`, the service answering by `respond`. */
  ghost function AddOne(prev: Filled, fallback: Option<Cache>, c: Chunk, respond: (nat, string) -> Embedding): (f: Filled)
    ensures f.cache.Keys == prev.cache.Keys + {c.body}
    ensures f.sent == prev.sent || f.sent == prev.sent + [c.body]
  {
    var a := AddRecordStep(prev.cache, fallback, c.body, c.title, respond(|prev.sent|, c.body));
    Filled(a.cache, prev.sent + if a.embedded then [c.body] else [])
  }

  /**
   * Without an input index the store is its own cache: records already stored are never
   * replaced, and the embedding service is called once per text that was new to the store.
   */
  lemma {:induction false} AddAllWithoutFallback(cache: Cache, chunks: seq<Chunk>,
                                                 respond: (nat, string) -> Embedding, sent: seq<string>)
    ensures var f := AddAll(cache, None, chunks, respond, sent);
            && (forall k :: k in cache ==> f.cache[k] == cache[k])
            && |f.sent| - |sent| == |f.cache| - |cache|
  {
    if chunks != [] {
      var prev := AddAll(cache, None, chunks[..|chunks| - 1], respond, sent);
      AddAllWithoutFallback(cache, chunks[..|chunks| - 1], respond, sent);
      var c := chunks[|chunks| - 1];
      var a := AddRecordStep(prev.cache, None, c.body, c.title, respond(|prev.sent|, c.body));
      if a.embedded {
        assert a.cache.Keys == prev.cache.Keys + {c.body};
        assert |a.cache.Keys| == |prev.cache.Keys| + 1;
      } else {
        assert a.cache == prev.cache;
      }
    }
  }

  /** How many of `chunks` have a text the input index lacks. */
  function Misses(chunks: seq<Chunk>, index: Cache): (n: nat)
    ensures n <= |chunks|
    ensures n == 0 <==> forall c :: c in chunks ==> c.body in index
  {
    if chunks == [] then 0
    else
      var last := chunks[|chunks| - 1];
      assert forall c :: c in chunks ==> c in chunks[..|chunks| - 1] || c == last;
      Misses(chunks[..|chunks| - 1], index) + if last.body in index then 0 else 1
  }

  /**
   * With an input index, only texts missing from it are embedded, once per such call even
   * when the same text comes again; a text the input index has keeps the record the store
   * already held, or else receives the input index's record.
   */
  lemma {:induction false} AddAllWithFallback(cache: Cache, index: Cache, chunks: seq<Chunk>,
                                              respond: (nat, string) -> Embedding, sent: seq<string>)
    ensures var f := AddAll(cache, Some(index), chunks, respond, sent);
            && |f.sent| - |sent| == Misses(chunks, index)
            && (forall k :: k in f.cache && k in index ==> f.cache[k] == if k in cache then cache[k] else index[k])
  {
    if chunks != [] {
      AddAllWithFallback(cache, index, chunks[..|chunks| - 1], respond, sent);
    }
  }

  /** Adding chunk `j` of a page extends the run of calls by one `AddOne`. */
  lemma AddAllSnoc(start: Cache, fallback: Option<Cache>, done: seq<Chunk>, bodies: seq<string>, j: nat,
                   title: string, respond: (nat, string) -> Embedding, sent0: seq<string>)
    requires j < |bodies|
    ensures AddAll(start, fallback, done + Tagged(bodies[..j + 1], title), respond, sent0)
            == AddOne(AddAll(start, fallback, done + Tagged(bodies[..j], title), respond, sent0),
                      fallback, Chunk(bodies[j], title), respond)
  {
    var c := Chunk(bodies[j], title);
    assert bodies[..j + 1][..j] == bodies[..j];
    var added := done + Tagged(bodies[..j], title);
    assert done + Tagged(bodies[..j + 1], title) == added + [c];
    assert (added + [c])[..|added|] == added;
  }

  /**
   * The inner loop of `update_from_scrapbox` for one page: `add_record(body, title, fallback)`
   * for each chunk text of the page, in order. `done` lists the calls made before, from
   * store contents `start` and embedding log `sent0`.
   */
  method AddPage(vs: VectorStore, bodies: seq<string>, title: string, fallback: Option<Cache>, embedder: Embedder,
                 ghost start: Cache, ghost sent0: seq<string>, ghost done: seq<Chunk>)
    requires Filled(vs.cache, embedder.sent) == AddAll(start, fallback, done, embedder.respond, sent0)
    modifies vs, embedder
    ensures Filled(vs.cache, embedder.sent) == AddAll(start, fallback, done + Tagged(bodies, title), embedder.respond, sent0)
  {
    assert done + Tagged(bodies[..0], title) == done by {
      assert bodies[..0] == [];
    }
    for j := 0 to |bodies|
      invariant Filled(vs.cache, embedder.sent)
                == AddAll(start, fallback, done + Tagged(bodies[..j], title), embedder.respond, sent0)
    {
      AddAllSnoc(start, fallback, done, bodies, j, title, embedder.respond, sent0);
      var _ := vs.AddRecord(bodies[j], title, fallback, embedder);
    }
    assert bodies[..|bodies|] == bodies;
  }

  /**
   * `update_from_scrapbox`: open the output store (loading `saved` when the output index
   * already exists, starting empty otherwise), then add every chunk of every page, page by
   * page. The returned store's contents are what `save` writes.
   */
  method UpdateFromScrapbox(pages: seq<Page>, outIndex: string, saved: Option<Cache>, fallback: Option<Cache>,
                            embedder: Embedder, size: string -> nat) returns (vs: VectorStore)
    modifies embedder
    ensures fresh(vs) && vs.name == outIndex
    ensures Filled(vs.cache, embedder.sent)
            == AddAll(if saved.Some? then saved.value else map[], fallback, AllChunks(size, pages),
                      embedder.respond, old(embedder.sent))
  {
    var res := VectorStore.Open(outIndex, saved, true);
    vs := res.value;
    ghost var start := vs.cache;
    ghost var sent0 := embedder.sent;
    assert AllChunks(size, pages[..0]) == [] by {
      assert pages[..0] == [];
    }
    for i := 0 to |pages|
      invariant fresh(vs) && vs.name == outIndex
      invariant Filled(vs.cache, embedder.sent) == AddAll(start, fallback, AllChunks(size, pages[..i]), embedder.respond, sent0)
    {
      var chunks := ChunkPage(pages[i].lines, size);
      AddPage(vs, chunks, pages[i].title, fallback, embedder, start, sent0, AllChunks(size, pages[..i]));
      AllChunksSnoc(size, pages, i);
    }
    assert pages[..|pages|] == pages;
  }
}
