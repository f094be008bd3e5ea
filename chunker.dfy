/**
 * Index building: every page of the wiki export is cut into overlapping windows of lines,
 * and every window's text is added to the store.
 */
module Chunker {
  import opened Results
  import opened Text
  import opened Store

  /** A chunk is emitted once its text takes more than this many tokens. */
  const BLOCK_SIZE: nat := 500

  /** One page of the export: its title and its lines in order. */
  datatype Page = Page(title: string, lines: seq<string>)

  /** What is handed to `add_record`: a chunk text and the title of its page. */
  datatype Chunk = Chunk(body: string, title: string)

  /** The lines `lines[lo..hi]` a chunk emitted inside the line loop was made from. */
  datatype Window = Window(lo: nat, hi: nat)

  /** Where the buffer starts after emitting window `w`: it keeps its second half. */
  function Retained(w: Window): (start: nat)
    requires w.lo < w.hi
    ensures w.lo <= start < w.hi
    ensures w.hi - start == (w.hi - w.lo) - (w.hi - w.lo) / 2
  {
    w.lo + (w.hi - w.lo) / 2
  }

  /** `buf[len(buf) // 2:]`: the last `|buf| - |buf| / 2` elements, all of them for a one-element buffer. */
  function SecondHalf<T>(buf: seq<T>): (r: seq<T>)
    ensures |r| == |buf| - |buf| / 2
    ensures r == buf[|buf| - |r|..]
    ensures |buf| == 1 ==> r == buf
    ensures |buf| > 1 ==> |r| < |buf|
  {
    buf[|buf| / 2..]
  }

  /** The line-joined text of `lines[lo..e]` is within the block size. */
  predicate Quiet(size: string -> nat, lines: seq<string>, lo: int, e: int)
  {
    0 <= lo <= e <= |lines| && size(Join(" ", lines[lo..e])) <= BLOCK_SIZE
  }

  /** The end of the window before window `k`, or 0 for the first one. */
  function PrevHi(windows: seq<Window>, k: nat): nat
    requires k <= |windows|
  {
    if k == 0 then 0 else windows[k - 1].hi
  }

  /** The state of the per-page loop: chunks emitted so far, their windows, and where the buffer starts. */
  datatype Scanned = Scanned(chunks: seq<string>, windows: seq<Window>, seed: nat)

  /**
   * One turn of the line loop: line `n - 1` has been appended, so the buffer is
   * `lines[prev.seed..n]`; if its text exceeds BLOCK_SIZE it is emitted and the buffer
   * keeps its second half.
   */
  ghost function Step(size: string -> nat, lines: seq<string>, prev: Scanned, n: nat): (r: Scanned)
    requires prev.seed < n <= |lines|
    ensures r.seed < n
    ensures |r.chunks| - |r.windows| == |prev.chunks| - |prev.windows|
    ensures r == prev || PrevHi(r.windows, |r.windows|) == n
  {
    var body := Join(" ", lines[prev.seed..n]);
    if size(body) > BLOCK_SIZE then
      var w := Window(prev.seed, n);
      Scanned(prev.chunks + [body], prev.windows + [w], Retained(w))
    else prev
  }

  /**
   * The loop state after the first `n` lines of the page: one chunk per window, and the
   * buffer `lines[seed..n]` non-empty once a line has been seen.
   */
  ghost function Scan(size: string -> nat, lines: seq<string>, n: nat): (r: Scanned)
    requires n <= |lines|
    ensures r.seed <= n && (n > 0 ==> r.seed < n)
    ensures |r.chunks| == |r.windows|
    ensures PrevHi(r.windows, |r.windows|) <= n
  {
    if n == 0 then Scanned([], [], 0)
    else Step(size, lines, Scan(size, lines, n - 1), n)
  }

  /** Every chunk emitted in the loop is the space-joined text of its window, and that text exceeds BLOCK_SIZE. */
  ghost predicate ChunksExceed(size: string -> nat, lines: seq<string>, r: Scanned)
  {
    && |r.chunks| == |r.windows|
    && forall k :: 0 <= k < |r.windows| ==>
         && r.windows[k].lo <= r.windows[k].hi <= |lines|
         && r.chunks[k] == Join(" ", lines[r.windows[k].lo..r.windows[k].hi])
         && size(r.chunks[k]) > BLOCK_SIZE
  }

  /**
   * Windows overlap by half: the first starts at line 0, each later one starts where the
   * previous one's second half began and ends later than it, and the buffer left after
   * the lines starts at the last window's second half.
   */
  ghost predicate WindowsOverlap(r: Scanned)
  {
    && (forall k :: 0 <= k < |r.windows| ==> r.windows[k].lo < r.windows[k].hi)
    && (r.windows != [] ==> r.windows[0].lo == 0)
    && (forall k :: 0 < k < |r.windows| ==>
          r.windows[k].lo == Retained(r.windows[k - 1]) && r.windows[k - 1].hi < r.windows[k].hi)
    && r.seed == (if r.windows == [] then 0 else Retained(r.windows[|r.windows| - 1]))
  }

  /**
   * Each window ends at the first line, after the previous window, that takes the buffer
   * over BLOCK_SIZE: every shorter run from its start that was measured stayed within the
   * limit. Likewise the buffer `lines[seed..e]` stayed within it after the last window,
   * for every `e` up to `n`.
   */
  ghost predicate WindowsShortest(size: string -> nat, lines: seq<string>, n: nat, r: Scanned)
  {
    && (forall k, e :: 0 <= k < |r.windows| && PrevHi(r.windows, k) < e < r.windows[k].hi ==>
          Quiet(size, lines, r.windows[k].lo, e))
    && (forall e :: PrevHi(r.windows, |r.windows|) < e <= n ==> Quiet(size, lines, r.seed, e))
  }

  lemma StepChunksExceed(size: string -> nat, lines: seq<string>, prev: Scanned, n: nat)
    requires prev.seed < n <= |lines| && ChunksExceed(size, lines, prev)
    ensures ChunksExceed(size, lines, Step(size, lines, prev, n))
  {
    var r := Step(size, lines, prev, n);
    if r != prev {
      forall k | 0 <= k < |prev.windows|
        ensures r.windows[k] == prev.windows[k] && r.chunks[k] == prev.chunks[k]
      {
      }
    }
  }

  lemma StepWindowsOverlap(size: string -> nat, lines: seq<string>, prev: Scanned, n: nat)
    requires prev.seed < n <= |lines| && PrevHi(prev.windows, |prev.windows|) < n
    requires WindowsOverlap(prev)
    ensures WindowsOverlap(Step(size, lines, prev, n))
  {
    var r := Step(size, lines, prev, n);
    if r != prev {
      var w := Window(prev.seed, n);
      assert r.windows == prev.windows + [w] && r.seed == Retained(w);
      forall k | 0 <= k < |r.windows| ensures r.windows[k].lo < r.windows[k].hi {
        if k < |prev.windows| {
          assert r.windows[k] == prev.windows[k];
        }
      }
      forall k | 0 < k < |r.windows|
        ensures r.windows[k].lo == Retained(r.windows[k - 1]) && r.windows[k - 1].hi < r.windows[k].hi
      {
        if k < |prev.windows| {
          assert r.windows[k] == prev.windows[k] && r.windows[k - 1] == prev.windows[k - 1];
        }
      }
    }
  }

  lemma StepWindowsShortest(size: string -> nat, lines: seq<string>, prev: Scanned, n: nat)
    requires prev.seed < n <= |lines| && PrevHi(prev.windows, |prev.windows|) < n
    requires WindowsShortest(size, lines, n - 1, prev)
    ensures WindowsShortest(size, lines, n, Step(size, lines, prev, n))
  {
    var r := Step(size, lines, prev, n);
    if r != prev {
      var w := Window(prev.seed, n);
      assert r.windows == prev.windows + [w];
      forall k, e | 0 <= k < |r.windows| && PrevHi(r.windows, k) < e < r.windows[k].hi
        ensures Quiet(size, lines, r.windows[k].lo, e)
      {
        assert PrevHi(r.windows, k) == PrevHi(prev.windows, k);
        if k < |prev.windows| {
          assert r.windows[k] == prev.windows[k];
        }
      }
    } else {
      assert Quiet(size, lines, prev.seed, n);
    }
  }

  lemma {:induction false} ScanChunksExceed(size: string -> nat, lines: seq<string>, n: nat)
    requires n <= |lines|
    ensures ChunksExceed(size, lines, Scan(size, lines, n))
  {
    if n > 0 {
      ScanChunksExceed(size, lines, n - 1);
      StepChunksExceed(size, lines, Scan(size, lines, n - 1), n);
    }
  }

  lemma {:induction false} ScanWindowsOverlap(size: string -> nat, lines: seq<string>, n: nat)
    requires n <= |lines|
    ensures WindowsOverlap(Scan(size, lines, n))
  {
    if n > 0 {
      ScanWindowsOverlap(size, lines, n - 1);
      StepWindowsOverlap(size, lines, Scan(size, lines, n - 1), n);
    }
  }

  lemma {:induction false} ScanWindowsShortest(size: string -> nat, lines: seq<string>, n: nat)
    requires n <= |lines|
    ensures WindowsShortest(size, lines, n, Scan(size, lines, n))
  {
    if n > 0 {
      ScanWindowsShortest(size, lines, n - 1);
      StepWindowsShortest(size, lines, Scan(size, lines, n - 1), n);
    }
  }

  /**
   * What the page emits after its last line: the stripped text of the buffer `lines[seed..]`
   * when that is not all whitespace, and nothing otherwise.
   */
  function Remainder(lines: seq<string>, seed: nat): (tail: seq<string>)
    requires seed <= |lines|
    ensures |tail| <= 1
    ensures tail == [] <==> AllSpace(Join(" ", lines[seed..]))
    ensures tail != [] ==> tail[0] == Strip(Join(" ", lines[seed..]))
  {
    var body := Strip(Join(" ", lines[seed..]));
    if body != [] then [body] else []
  }

  /** Everything one page emits, in order: the chunks of the line loop, then the remainder. */
  ghost function PageChunks(size: string -> nat, lines: seq<string>): seq<string>
  {
    var r := Scan(size, lines, |lines|);
    r.chunks + Remainder(lines, r.seed)
  }

  /** A page without lines emits nothing: the buffer is empty and strips to nothing. */
  lemma EmptyPageEmitsNothing(size: string -> nat)
    ensures PageChunks(size, []) == []
  {
    assert Join(" ", []) == [];
    assert AllSpace([]);
  }

  /**
   * A page with lines always reaches the end with a non-empty buffer, so its last chunk is
   * dropped only when that buffer is all whitespace, and otherwise it is the stripped text.
   */
  lemma PageTail(size: string -> nat, lines: seq<string>)
    requires lines != []
    ensures var r := Scan(size, lines, |lines|);
            && r.seed < |lines|
            && (PageChunks(size, lines) == r.chunks <==> AllSpace(Join(" ", lines[r.seed..])))
            && (!AllSpace(Join(" ", lines[r.seed..])) ==>
                  PageChunks(size, lines) == r.chunks + [Strip(Join(" ", lines[r.seed..]))])
  {
  }

  /**
   * One turn of the line loop on the buffer itself: appending line `i` to the buffer of
   * state `st` gives the buffer of the next state, after cutting it to its second half
   * when its text was emitted.
   */
  lemma BufferStep(size: string -> nat, lines: seq<string>, st: Scanned, i: nat, buf: seq<string>)
    requires i < |lines| && st.seed <= i && buf == lines[st.seed..i]
    ensures var grown := buf + [lines[i]];
            var next := Step(size, lines, st, i + 1);
            && grown == lines[st.seed..i + 1]
            && (size(Join(" ", grown)) > BLOCK_SIZE ==>
                  next.chunks == st.chunks + [Join(" ", grown)] && SecondHalf(grown) == lines[next.seed..i + 1])
            && (size(Join(" ", grown)) <= BLOCK_SIZE ==> next == st)
  {
    var grown := buf + [lines[i]];
    assert grown == lines[st.seed..i + 1];
    var cut := |grown| / 2;
    assert lines[st.seed..i + 1][cut..] == lines[st.seed + cut..i + 1];
  }

  /**
   * The per-page loop of the index builder. Lines are appended to a buffer; whenever the
   * space-joined buffer exceeds BLOCK_SIZE tokens it is emitted and cut to its second half.
   * After the last line the stripped buffer is emitted if it is not empty.
   */
  method ChunkPage(lines: seq<string>, size: string -> nat) returns (chunks: seq<string>)
    ensures chunks == PageChunks(size, lines)
  {
    var buf: seq<string> := [];
    chunks := [];
    ghost var st := Scan(size, lines, 0);
    for i := 0 to |lines|
      invariant st == Scan(size, lines, i)
      invariant chunks == st.chunks
      invariant buf == lines[st.seed..i]
    {
      BufferStep(size, lines, st, i, buf);
      buf := buf + [lines[i]];
      var body := Join(" ", buf);
      if size(body) > BLOCK_SIZE {
        chunks := chunks + [body];
        buf := SecondHalf(buf);
      }
      st := Step(size, lines, st, i + 1);
    }
    assert buf == lines[st.seed..];
    var body := Strip(Join(" ", buf));
    if body != [] {
      chunks := chunks + [body];
    }
  }
}
