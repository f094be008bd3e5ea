/**
 * The embedding cache: a map from exact chunk text to its embedding and page title,
 * filled by `add_record` and ranked against a query by `get_sorted`.
 */
module Store {
  import opened Results
  import opened Ranking

  /** An embedding vector as the service returns it; its numbers are never inspected here. */
  type Embedding = seq<real>

  /** What the store keeps for one chunk text. */
  datatype Record = Record(embedding: Embedding, title: string)

  /** The store's contents: chunk text to record. */
  type Cache = map<string, Record>

  datatype StoreError = MissingIndex

  /**
   * The embedding service. `respond(n, text)` is the vector it returns to the n-th request
   * (counting from 0), so asking twice for the same text may give two different vectors;
   * `sent` lists every text sent so far, oldest first.
   */
  class Embedder {
    const respond: (nat, string) -> Embedding
    var sent: seq<string>

    constructor (respond: (nat, string) -> Embedding)
      ensures this.respond == respond && sent == []
    {
      this.respond := respond;
      sent := [];
    }

    method Embed(text: string) returns (v: Embedding)
      modifies this
      ensures sent == old(sent) + [text]
      ensures v == respond(|old(sent)|, text)
    {
      v := respond(|sent|, text);
      sent := sent + [text];
    }
  }

  /**
   * The map `add_record` looks `body` up in: the fallback snapshot when one is given,
   * otherwise the store's own contents.
   */
  function Consulted(cache: Cache, fallback: Option<Cache>): Cache
  {
    if fallback.Some? then fallback.value else cache
  }

  /** The effect of one `add_record` call: the new contents, the record returned, whether it embedded. */
  datatype Added = Added(cache: Cache, record: Record, embedded: bool)

  /**
   * One `add_record(body, title, fallback)` on contents `cache`, where `vector` is what the
   * embedding service would answer. It embeds exactly when the consulted map lacks `body`,
   * and then overwrites whatever the store held for `body`; otherwise it copies the
   * fallback's record only if the store lacks `body`, and leaves the store alone if not.
   */
  function AddRecordStep(cache: Cache, fallback: Option<Cache>, body: string, title: string, vector: Embedding): (a: Added)
    ensures body in a.cache && a.record == a.cache[body]
    ensures a.cache.Keys == cache.Keys + {body}
    ensures forall k :: k in cache && k != body ==> a.cache[k] == cache[k]
    ensures a.embedded <==> body !in Consulted(cache, fallback)
    ensures a.embedded ==> a.record == Record(vector, title)
    ensures !a.embedded && body in cache ==> a.cache == cache
    ensures !a.embedded && body !in cache ==> fallback.Some? && a.record == fallback.value[body]
  {
    var consulted := Consulted(cache, fallback);
    if body !in consulted then
      Added(cache[body := Record(vector, title)], Record(vector, title), true)
    else if body !in cache then
      Added(cache[body := consulted[body]], consulted[body], false)
    else
      Added(cache, cache[body], false)
  }

  /** Without a fallback, adding the same text twice embeds at most once and the second call changes nothing. */
  lemma AddRecordIdempotent(cache: Cache, body: string, title1: string, title2: string, v1: Embedding, v2: Embedding)
    ensures var a1 := AddRecordStep(cache, None, body, title1, v1);
            var a2 := AddRecordStep(a1.cache, None, body, title2, v2);
            !a2.embedded && a2.cache == a1.cache && a2.record == a1.record
  {
  }

  /** A fallback that already has `body` is reused: no embedding, and the store's own record wins if it has one. */
  lemma FallbackHitReuses(cache: Cache, f: Cache, body: string, title: string, vector: Embedding)
    requires body in f
    ensures var a := AddRecordStep(cache, Some(f), body, title, vector);
            !a.embedded && a.record == (if body in cache then cache[body] else f[body])
  {
  }

  /**
   * A fallback that lacks `body` makes every call embed again, even right after the store
   * got `body`: the second call overwrites the first call's record with its own vector and title.
   */
  lemma FallbackMissReembeds(cache: Cache, f: Cache, body: string, title1: string, title2: string, v1: Embedding, v2: Embedding)
    requires body !in f
    ensures var a1 := AddRecordStep(cache, Some(f), body, title1, v1);
            var a2 := AddRecordStep(a1.cache, Some(f), body, title2, v2);
            a1.embedded && a2.embedded && a2.record == Record(v2, title2)
  {
  }

  /** The row `get_sorted` builds for a stored text: the query's score against its vector, the text, its title. */
  function EntryOf(cache: Cache, q: Embedding, dot: (Embedding, Embedding) -> int, body: string): Scored
    requires body in cache
  {
    Scored(dot(q, cache[body].embedding), body, cache[body].title)
  }

  /** All the rows `get_sorted` has to rank, one per stored text. */
  function Entries(cache: Cache, q: Embedding, dot: (Embedding, Embedding) -> int): set<Scored>
  {
    set b | b in cache :: EntryOf(cache, q, dot, b)
  }

  /** `ranked` holds exactly the store's rows, each once, strictly decreasing in tuple order. */
  ghost predicate RanksStore(cache: Cache, q: Embedding, dot: (Embedding, Embedding) -> int, ranked: seq<Scored>)
  {
    && StrictlyDescending(ranked)
    && forall x :: x in ranked <==> x in Entries(cache, q, dot)
  }

  /** For a fixed store and query vector the ranked list is unique, whatever order the map is walked in. */
  lemma RankingDeterministic(cache: Cache, q: Embedding, dot: (Embedding, Embedding) -> int, r1: seq<Scored>, r2: seq<Scored>)
    requires RanksStore(cache, q, dot, r1) && RanksStore(cache, q, dot, r2)
    ensures r1 == r2
  {
    StrictlyDescendingUnique(r1, r2);
  }

  /** `buf` holds one row per stored text, for every stored text, in some order. */
  ghost predicate CollectsStore(cache: Cache, q: Embedding, dot: (Embedding, Embedding) -> int, buf: seq<Scored>)
  {
    && |buf| == |cache|
    && (forall i :: 0 <= i < |buf| ==> buf[i].body in cache && buf[i] == EntryOf(cache, q, dot, buf[i].body))
    && (forall b :: b in cache ==> EntryOf(cache, q, dot, b) in buf)
    && (forall i, j :: 0 <= i < j < |buf| ==> buf[i].body != buf[j].body)
  }

  /** Sorting a collection of the store's rows in decreasing order yields the store's ranking. */
  lemma SortedCollectionRanks(cache: Cache, q: Embedding, dot: (Embedding, Embedding) -> int, buf: seq<Scored>)
    requires CollectsStore(cache, q, dot, buf)
    ensures var ranked := SortDescending(buf);
            && RanksStore(cache, q, dot, ranked)
            && |ranked| == |cache|
            && forall i, j :: 0 <= i < j < |ranked| ==> ranked[i].body != ranked[j].body
  {
    var ranked := SortDescending(buf);
    assert NoDuplicates(buf);
    NoDuplicatesCounts(buf);
    NoDuplicatesCounts(ranked);
    DescendingDistinct(ranked);
    assert |ranked| == |multiset(ranked)| == |multiset(buf)| == |buf|;
    forall x ensures x in ranked <==> x in Entries(cache, q, dot) {
      assert x in ranked <==> x in multiset(buf);
    }
    forall i, j | 0 <= i < j < |ranked| ensures ranked[i].body != ranked[j].body {
      assert ranked[i] in multiset(buf) && ranked[j] in multiset(buf);
    }
  }

  class VectorStore {
    const name: string
    var cache: Cache

    constructor (name: string, initial: Cache)
      ensures this.name == name && cache == initial
    {
      this.name := name;
      cache := initial;
    }

    /**
     * `VectorStore(name, create_if_not_exist)`: the store holds the snapshot saved under
     * `name` when there is one; without one it starts empty, or fails with MissingIndex
     * when creating is not allowed.
     */
    static method Open(name: string, snapshot: Option<Cache>, createIfNotExist: bool) returns (r: Result<VectorStore, StoreError>)
      ensures r.Failure? <==> snapshot.None? && !createIfNotExist
      ensures r.Failure? ==> r.error == MissingIndex
      ensures r.Success? ==> fresh(r.value) && r.value.name == name
      ensures r.Success? ==> r.value.cache == if snapshot.Some? then snapshot.value else map[]
    {
      if snapshot.Some? {
        var vs := new VectorStore(name, snapshot.value);
        r := Success(vs);
      } else if createIfNotExist {
        var vs := new VectorStore(name, map[]);
        r := Success(vs);
      } else {
        r := Failure(MissingIndex);
      }
    }

    /** `add_record(body, title, fallback)`; the embedding call goes to `embedder`. */
    method AddRecord(body: string, title: string, fallback: Option<Cache>, embedder: Embedder) returns (r: Record)
      modifies this, embedder
      ensures var a := AddRecordStep(old(cache), fallback, body, title, embedder.respond(|old(embedder.sent)|, body));
              && cache == a.cache
              && r == a.record
              && embedder.sent == old(embedder.sent) + (if a.embedded then [body] else [])
    {
      var consulted := Consulted(cache, fallback);
      if body !in consulted {
        var v := embedder.Embed(body);
        cache := cache[body := Record(v, title)];
      } else if body !in cache {
        cache := cache[body := consulted[body]];
      }
      r := cache[body];
    }

    /**
     * The scoring and sorting half of `get_sorted`, for a query already embedded as `q`:
     * every stored text appears exactly once, scored against `q`, in decreasing
     * `(score, body, title)` order.
     */
    method Rank(q: Embedding, dot: (Embedding, Embedding) -> int) returns (ranked: seq<Scored>)
      ensures RanksStore(cache, q, dot, ranked)
      ensures |ranked| == |cache|
      ensures forall i, j :: 0 <= i < j < |ranked| ==> ranked[i].body != ranked[j].body
    {
      var keys := cache.Keys;
      var buf: seq<Scored> := [];
      while keys != {}
        invariant keys <= cache.Keys
        invariant |buf| + |keys| == |cache|
        invariant forall i :: 0 <= i < |buf| ==> buf[i].body in cache && buf[i].body !in keys
        invariant forall i :: 0 <= i < |buf| ==> buf[i] == EntryOf(cache, q, dot, buf[i].body)
        invariant forall b :: b in cache && b !in keys ==> EntryOf(cache, q, dot, b) in buf
        invariant forall i, j :: 0 <= i < j < |buf| ==> buf[i].body != buf[j].body
        decreases keys
      {
        var b :| b in keys;
        buf := buf + [EntryOf(cache, q, dot, b)];
        keys := keys - {b};
      }
      ranked := SortDescending(buf);
      SortedCollectionRanks(cache, q, dot, buf);
    }

    /** `get_sorted(query)`: embed the query once, then rank every stored text against it. */
    method GetSorted(query: string, embedder: Embedder, dot: (Embedding, Embedding) -> int) returns (ranked: seq<Scored>)
      modifies embedder
      ensures embedder.sent == old(embedder.sent) + [query]
      ensures RanksStore(cache, embedder.respond(|old(embedder.sent)|, query), dot, ranked)
      ensures |ranked| == |cache|
    {
      var q := embedder.Embed(query);
      ranked := Rank(q, dot);
    }
  }
}
