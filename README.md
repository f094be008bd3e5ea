# Qualia: index builder and context packing, modelled in Dafny

Qualia is a Discord bot that answers questions from a personal Scrapbox wiki, and it works in two halves.

The index builder (`make_index.py`) cuts every page of a Scrapbox JSON export into overlapping chunks of lines. It stores each chunk's embedding vector and page title in a pickled map keyed by the chunk text. It can consult an older index as a read-only cache to avoid embedding calls.

The bot (`bot.py`) answers a question in four steps:
- It checks that the question fits the token budget.
- It embeds the question and ranks every stored chunk by dot product with it.
- It packs the best chunks of distinct pages into what is left of the 4096-token window.
- It formats the prompt for the completion model.

This project models those two halves:

- `results.dfy`: `Option` and `Result`.
- `text.dfy`: the string operations the code relies on:
  - `sep.join(parts)`;
  - `str.strip()`, with Python's whitespace set;
  - Python's code-point string order.
- `ranking.dfy`: the descending order that Python's tuple comparison gives `(score, body, title)` rows, and a sort by it.
- `store.dfy`: `VectorStore` as a class:
  - `add_record` with its exact three-way branch;
  - loading or creating the store;
  - `get_sorted`.
  - `embed_text` is an `Embedder` object that logs every text sent to the service.
- `chunker.dfy`: the per-page line loop of `update_from_scrapbox`, proved against a specification function `Scan`.
- `builder.dfy`: `update_from_scrapbox` over all pages, proved against `AddAll`, the run of `add_record` calls it makes.
- `bot.dfy`: `ask` up to the completion call, namely the budget check, ranking, the packing loop and the prompt text.
- `packing.dfy`: the packing loop has exactly one outcome. The description `Bot.Pack` is proved against fixes every result of the loop.

The model has these parameters:
- The tokenizer is `size: string -> nat`.
- The dot product is `dot: (Embedding, Embedding) -> int`.
- The embedding service is `respond(n, text)`, its answer to the n-th request.
- The output index and the bot's index are `Option<Cache>` values, `None` when the file does not exist. The store then starts empty.
- The input index is the `fallback: Option<Cache>` parameter of `add_record`. `None` means no input index was given (`in_index is None`).

## Model

| member | source | states |
|---|---|---|
| Text.Join | make_index.py:92-96 | `sep.join(parts)` (also `"\n\n".join` at bot.py:102): no parts join to the empty string, and one part joins to itself; the general case is stated by Text.JoinAppend |
| Text.JoinAppend | make_index.py:91-92 | after appending a line to the buffer, its joined text is the previous joined text, a space and the new line |
| Text.Strip | make_index.py:96 | the result is the contiguous middle of the text with only whitespace around it; it does not start or end with whitespace; it is empty exactly when the text is all whitespace |
| Text.TrimLeft | make_index.py:96 | drops exactly the leading whitespace |
| Text.TrimRight | make_index.py:96 | drops exactly the trailing whitespace |
| Text.IsSpace | make_index.py:96 | the whitespace set of Python's `str.isspace()`, which `strip()` removes: space, tab, newline and carriage return are in it; ASCII letters and digits are not |
| Text.StrLess | make_index.py:131 | Python's `<` on `str`, by code point: a proper prefix comes first, and no string is below itself |
| Text.StrLessTransitive | make_index.py:131 | Python's string order is transitive |
| Text.StrLessTotal | make_index.py:131 | any two different strings are ordered one way or the other |
| Text.StrLessAsymmetric | make_index.py:131 | Python's string order is asymmetric |
| Ranking.Above | make_index.py:130-131 | Python's `>` on `(score, body, title)` tuples: a higher score always ranks above, a lower one never does, and no row is above itself; equal scores are ordered by body, then by title |
| Ranking.AboveTransitive | make_index.py:130-131 | tuple order on `(score, body, title)` is transitive |
| Ranking.AboveTotal | make_index.py:130-131 | two different rows are always ordered |
| Ranking.AboveAsymmetric | make_index.py:130-131 | tuple order is asymmetric |
| Ranking.Insert | make_index.py:131 | inserting into a non-increasing list keeps it non-increasing and adds exactly that row |
| Ranking.SortDescending | make_index.py:131 | `sort(reverse=True)`: the result is non-increasing in tuple order and is a permutation of the input |
| Ranking.NoDuplicatesCounts | make_index.py:129-131 | a list has no repeated row iff no row occurs twice in its multiset |
| Ranking.StrictlyDescendingUnique | make_index.py:131 | two strictly decreasing lists with the same rows are equal |
| Store.Embedder.Embed | make_index.py:40-57 | one request: the text is appended to the log, and the answer is the service's answer to that request |
| Store.Consulted | make_index.py:115-117 | the map `add_record` looks the body up in: the fallback when one is given, otherwise the store's own contents (its definition) |
| Store.AddRecordStep | make_index.py:114-124 | the body is stored and its record returned; no other key changes; it embeds exactly when the consulted map (the fallback if given, else the store) lacks the body; an embedded record overwrites with the new vector and title; otherwise an existing entry is kept as is, or the fallback's record is copied |
| Store.VectorStore.AddRecord | make_index.py:114-124 | the new contents and the returned record are `AddRecordStep`'s; the body is sent to the service exactly when it embeds |
| Store.AddRecordIdempotent | make_index.py:115-122 | without a fallback, a second `add_record` of the same body embeds nothing and changes nothing |
| Store.FallbackHitReuses | make_index.py:117-122 | a fallback holding the body is never re-embedded; the store's own record wins, else the fallback's is copied |
| Store.FallbackMissReembeds | make_index.py:117-119 | a fallback lacking the body makes every call embed and overwrite, even right after the store got it |
| Store.VectorStore.Open | make_index.py:104-112 | loads the saved contents when the file exists; otherwise starts empty, or fails when creation is not allowed |
| Store.SortedCollectionRanks | make_index.py:129-132 | sorting one row per stored text gives every stored text exactly once, strictly decreasing |
| Store.RankingDeterministic | make_index.py:129-131 | the ranked list is unique for given contents and query vector, whatever order the map is walked in |
| Store.VectorStore.Rank | make_index.py:128-132 | the list holds exactly the store's rows (`EntryOf`: the query's score against the stored vector, the text, its title), one per stored text, strictly decreasing in `(score, body, title)` |
| Store.VectorStore.GetSorted | make_index.py:126-132 | embeds the query exactly once, then returns the ranking of the store against that vector |
| Chunker.Retained | make_index.py:95 | after an emission the buffer keeps its last `len - len // 2` lines |
| Chunker.SecondHalf | make_index.py:95 | `buf[len(buf)//2:]` is a suffix of that length; a one-line buffer is kept whole, and a longer one shrinks |
| Chunker.Step | make_index.py:90-95 | one turn of the line loop leaves a non-empty buffer; after an emission the last window ends at the current line |
| Chunker.Scan | make_index.py:88-95 | after n lines there is one window per emitted chunk, and the buffer is non-empty once a line was seen |
| Chunker.StepChunksExceed | make_index.py:91-94 | one loop turn keeps every emitted chunk equal to the space-join of its window, with size over BLOCK_SIZE |
| Chunker.ScanChunksExceed | make_index.py:90-94 | every chunk emitted mid-loop is the space-join of contiguous lines, and its size exceeds BLOCK_SIZE |
| Chunker.StepWindowsOverlap | make_index.py:95 | one loop turn keeps windows overlapping by half |
| Chunker.ScanWindowsOverlap | make_index.py:88-95 | the first window starts at line 0; each later window starts at the previous one's kept half and ends later; the buffer starts at the last window's kept half |
| Chunker.StepWindowsShortest | make_index.py:92-93 | one loop turn keeps each window the shortest run that exceeds BLOCK_SIZE |
| Chunker.ScanWindowsShortest | make_index.py:91-94 | each window ends at the first line that takes the buffer over BLOCK_SIZE; the buffer after the last window never went over |
| Chunker.Remainder | make_index.py:96-98 | the trailing chunk is the stripped buffer; it is emitted only when the buffer is not all whitespace |
| Chunker.PageChunks | make_index.py:87-98 | everything one page emits, in order (its definition): the chunks of the line loop, then the remainder |
| Chunker.EmptyPageEmitsNothing | make_index.py:88-98 | a page without lines emits no chunk |
| Chunker.PageTail | make_index.py:90-98 | a page with lines ends with a non-empty buffer; the page emits its loop chunks, then the stripped buffer unless that is all whitespace |
| Chunker.ChunkPage | make_index.py:88-98 | the page loop emits exactly `PageChunks`: the loop chunks described by the three `Scan` lemmas, then the remainder |
| Builder.Tagged | make_index.py:89-98 | each chunk of a page is paired with that page's title |
| Builder.AllChunks | make_index.py:87-98 | every `add_record` call of the build, in order (its definition): page by page, each page's `PageChunks` tagged with its title |
| Builder.ChunkTitles | make_index.py:87-98 | every chunk handed to `add_record` carries the title of a page of the export |
| Builder.AddOne | make_index.py:114-124 | one `add_record` adds the body to the keys and sends at most that body to the service |
| Builder.AddAll | make_index.py:87-98 | after the build the store holds exactly its old texts and every chunk text; the embedding log only grows |
| Builder.AddAllWithoutFallback | make_index.py:115-122 | without an input index, stored records are never replaced, and one embedding call is made per text new to the store |
| Builder.Misses | make_index.py:117 | counts the calls whose text the input index lacks; zero exactly when it has them all |
| Builder.AddAllWithFallback | make_index.py:79-124 | with an input index: one embedding call per chunk that the input index lacks, repeats included; a text the input index has keeps the store's old record, else gets the input index's record |
| Builder.AddPage | make_index.py:90-98 | the chunks of one page are added in order with the page title |
| Builder.UpdateFromScrapbox | make_index.py:60-100 | the output store is opened (existing contents or empty); the final contents and embedding log are `AddAll` over every chunk of every page, in page order |
| Bot.PackSkip | bot.py:93-94 | a row whose title is already used is skipped before its size is looked at |
| Bot.PackAccept | bot.py:95-100 | a row with a new title whose size is at most what is left (equal included) is accepted; what is left shrinks by its size |
| Bot.FirstWithTitle | bot.py:92-93 | every title seen has a first row carrying it |
| Bot.PacksTitles | bot.py:92-99 | no title is used twice; the used titles are exactly the titles of the rows before the stop |
| Bot.PackStop | bot.py:95-97 | the first row with a new title that does not fit ends packing there |
| Bot.PackEnd | bot.py:92 | running out of rows ends packing after the last one |
| Bot.Pack | bot.py:90-100 | what is left is never negative, and it plus the accepted sizes is the budget. Accepted bodies keep rank order. A row before the stop is accepted iff no earlier row has its title, so each accepted body is the first of its title. Packing stops only at a new-title row larger than what is left. No title twice. These promises fix the result (PackingFacts.PackedAllUnique) |
| PackingFacts.FirstRowsUnique | bot.py:92-94 | the rows a packing accepts before a given row are exactly the rows that are first with their title, in rank order |
| PackingFacts.EarliestStop | bot.py:95-97 | if one packing stops early at a row, no packing of the same rows and budget gets past that row: going past it would mean accepting that row, and it does not fit |
| PackingFacts.PackedAllUnique | bot.py:90-100 | two packings that both satisfy `PackedAll` for the same rows and budget are equal, so the loop's outcome, and the prompt, is determined |
| Bot.Raw | bot.py:69-80 | the template as written, with its `{text}` and `{input}` placeholders; `PROMPT_SIZE` is the size of this text (its definition) |
| Bot.Format | bot.py:103 | `PROMPT.format(input=..., text=...)`: the context goes in place of `{text}` and the question in place of `{input}` (its definition) |
| Bot.Ask | bot.py:65-103 | fails with TooLarge iff `size(input) > 4096 - 500 - size(PROMPT)`, before loading or embedding anything. Otherwise it embeds the question once and ranks the store. It packs with budget `4096 - 500 - size(PROMPT) - size(input)` and puts the accepted bodies, joined by `"\n\n"`, in the `{text}` place |

## Left out

- Discord wiring (`on_ready`, `ask_command`), the start-up file check and `acquire_index_from_s3`: these are network and file I/O.
- The JSON export, pickle load and dump, and `save`: files are `Option<Cache>` values, and `save` writes the returned store's `cache`. The atomicity of `save` is not modelled.
- Store.VectorStore.Open: only a missing file is modelled; other load errors (a corrupt pickle) are not.
- The completion call and its error message: Bot.Ask returns the prompt it would send.
- `embed_text` internals (newline replacement, truncation to 8150 tokens, retry loop, sleeping): they are abstracted into the service's answer `respond`.
- tiktoken: token counting is the parameter `size`.
- numpy's floating-point dot product: it is the parameter `dot` with integer scores. Rounding, float equality such as `0.0 == -0.0`, and the effect of NaN on tuple comparison are not modelled. Equal scores are modelled, and are ordered by body and then title (Ranking.Above).
- The tqdm progress bars and logging.
- Store.VectorStore.Rank: Python's in-place `list.sort` is modelled on values, by an insertion sort with the same result. Since the rows are distinct and strictly ordered, the result does not depend on the sort's stability or on the map's iteration order (Store.RankingDeterministic).
- Builder.UpdateFromScrapbox: the source calls `add_record` as each chunk is emitted. The model chunks a page first and then adds its chunks in the same order. The sequence of calls is identical because chunking never reads the store.
- A missing input-index file: `pickle.load(open(in_index, "rb"))` raises `FileNotFoundError` (make_index.py:80). That error is not modelled; a given input index is always a map.
- The input index is a value: the fallback map is never modified, by construction, and aliasing between it and the store is not modelled.
- Bot.Ask: the prompt template is a parameter `Template(lead, middle, trail)` around the `{text}` and `{input}` placeholders, not the literal Japanese text. `str.format` is modelled only for that shape.
- Chunk size bound: BLOCK_SIZE is not an upper bound on chunk size. Every chunk emitted inside the line loop exceeds it (Chunker.ScanChunksExceed).
- Idempotence of `add_record`: it is idempotent only without a fallback (Store.AddRecordIdempotent), or with a fallback that holds the body (Store.FallbackHitReuses). With a fallback that lacks the body, every call embeds again and overwrites (Store.FallbackMissReembeds).
