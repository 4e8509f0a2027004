# drx_nlp_pipeline core, modelled in Dafny

This project models the sequential logic of the document-ingestion and retrieval
pipeline of drx_nlp_pipeline. The machine-learning and I/O libraries it calls are
left abstract:

- **Chunker** (`chunk_documents`). Each document's text is encoded to tokens. The
  tokens are cut into consecutive windows of `max_tokens`. Each window is decoded
  back to text and numbered from 1. The tokenizer is a pair of uninterpreted functions.
- **Embedder** (`generate_embeddings`). It projects each chunk's `text` and builds a
  `file`/`page`/`chunk` metadata record, with `"Unknown"` for missing fields. It makes
  one batch call to the encoder (an uninterpreted function that may fail). Then it
  zips vectors, metadata and texts back together in input order.
- **Vector database** (`vector_db/db_handler.py`). A class holds the two cache slots
  `faiss_index` and `metadata_store`, over a disk with two artifact slots. It offers
  build, load-once and search. The nearest-neighbour search is an uninterpreted
  function that returns a row of ids.
- **Summarizer** (`summarize_text`). Short texts come back unchanged. Texts of at most
  1000 words are summarized in one model call. Longer texts are cut into 1000-word
  chunks; chunks with fewer than `min_length` words are skipped, and a chunk whose
  summary fails contributes its own text. The model is an uninterpreted function
  returning an `Option`.

Python dicts are `map<string, Value>`, where `Value` is a string or an integer.
`str.split()` and `" ".join` are defined over Python's whitespace characters.

Files: `wrappers.dfy` (Option, Result), `slicing.dfy` (the
`[xs[i:i+n] for i in range(0, len(xs), n)]` windows shared by the chunker and the
summarizer), `values.dfy`, `chunker.dfy`, `embedder.dfy`, `vector_db.dfy`,
`words.dfy`, `summarizer.dfy`, `pipeline.dfy` (how the stages connect).

Behaviour of the code worth noting:

- Row ids are not range-checked. FAISS pads a short answer with id `-1`, and Python
  reads that as the last record, so `top_k` above the number of rows repeats the
  last record instead of returning each row once (`VectorDb.PaddingRepeatsLastRecord`).
- The chunker does not isolate per-document failures. `max_tokens = 0` aborts the
  whole call at the first document, and so would a tokenizer error on any document
  (see "Left out"). A negative `max_tokens` silently yields no chunks.
- Load checks no consistency between the two artifacts. When the metadata store is
  shorter than the index, a search that reads past it fails with `BadRowId`; when it
  is longer, nothing is raised and results silently come from records whose rows do
  not match, and the padding id `-1` reads a store record that has no index row.
- The chunk number is stored under the key `"chunk"`, and the missing-field sentinel
  is the string `"Unknown"`.

## Model

| member | source | states |
|---|---|---|
| `Slicing.Windows` | chunking/tokenizer.py:60-61 | defines the comprehension `[xs[i:i+n] for i in range(0, len(xs), n)]` as consecutive windows of n elements, the last possibly shorter |
| `Slicing.WindowsCount` | chunking/tokenizer.py:60 | a sequence of L elements cut with step M gives ceil(L/M) windows, and none exactly when L = 0 |
| `Slicing.WindowSizes` | chunking/tokenizer.py:60-61 | every window but the last has exactly M elements; the last has 1 to M |
| `Slicing.WindowsFlatten` | chunking/tokenizer.py:58-61 | the windows concatenated in order give back the whole sequence |
| `Slicing.WindowAt` | chunking/tokenizer.py:60-61 | window k is the Python slice starting at offset k*M, clamped at the end, and that offset lies inside the sequence |
| `Slicing.WindowExists` | chunking/tokenizer.py:60 | window k exists exactly when the range offset k*M is below the length |
| `Slicing.DivMul` | chunking/tokenizer.py:66 | the offset k*M floor-divided by M is k, so `i // max_tokens + 1` numbers window k as k+1 |
| `Chunker.DocumentWindows` | chunking/tokenizer.py:58-61 | defines a document's token windows: its encoded text cut every max_tokens tokens |
| `Chunker.DocumentChunks` | chunking/tokenizer.py:58-68 | defines a document's chunks: window k decoded, numbered k+1, with the document's file |
| `Chunker.AllChunks` | chunking/tokenizer.py:56-70 | defines the output for positive max_tokens: each document's chunks in turn, in document order |
| `Chunker.ChunkDocuments` | chunking/tokenizer.py:52-70 | with positive max_tokens the result is every document's chunks in document order; zero raises at the first document (and returns [] for no documents); negative gives no chunks |
| `Chunker.DocumentChunkCount` | chunking/tokenizer.py:58-60 | a document of L tokens gives ceil(L/M) chunks, none iff L = 0 |
| `Chunker.DocumentChunkAt` | chunking/tokenizer.py:60-68 | chunk k is numbered k+1, carries the document's file, and is the decoding of the token slice from offset k*M, which lies inside the tokens |
| `Chunker.DocumentWindowsLaw` | chunking/tokenizer.py:58-61 | a document's windows match its chunks one to one, hold M tokens each except the last (1 to M), and concatenate back to its token sequence |
| `Chunker.AllChunksAppend` | chunking/tokenizer.py:56-68 | chunking a concatenation of document lists is the concatenation of their chunkings |
| `Chunker.AllChunksLayout` | chunking/tokenizer.py:56-68 | document j's chunks form one contiguous block after all earlier documents' chunks and before all later ones |
| `Chunker.AllChunksProvenance` | chunking/tokenizer.py:64-68 | every output chunk is numbered from 1 and names the file of some input document |
| `Values.Get` | embedding/embedder.py:14-16 | defines `dict.get(key, default)`: the stored value when the key is present, else the default |
| `Embedder.Texts` | embedding/embedder.py:10 | projection succeeds iff every chunk has "text", giving the texts in order; otherwise it fails with the position of the first chunk without "text" |
| `Embedder.Metadata` | embedding/embedder.py:13-17 | the metadata record has exactly the keys file, page and chunk; each is copied from the chunk when present and "Unknown" otherwise |
| `Embedder.GenerateEmbeddings` | embedding/embedder.py:8-36 | a missing text fails before encoding; an encoder failure makes the whole result one error value; otherwise entry i is (vector i, metadata of chunk i, text of chunk i), and there are min(#vectors, #chunks) entries |
| `VectorDb.Embeddings` | vector_db/db_handler.py:17 | the index rows are the items' embeddings, one per item, in order |
| `VectorDb.StoredRecord` | vector_db/db_handler.py:18 | a stored record is the item's metadata plus the key "text" holding the item's text (overriding any earlier "text"); all other keys keep their values |
| `VectorDb.StoredRecords` | vector_db/db_handler.py:18 | the metadata store has one record per item, record i coming from item i |
| `VectorDb.ListPosition` | vector_db/db_handler.py:63 | a valid Python list index (negative counts from the end) reads a position inside the list |
| `VectorDb.Lookup` | vector_db/db_handler.py:63 | the lookup succeeds iff every id is a valid list index; then result j is the record at id j (Python indexing), with one result per id in id order; otherwise it raises IndexError |
| `VectorDb.Database.constructor` | vector_db/db_handler.py:10-11 | both cache slots start empty |
| `VectorDb.Database.Build` | vector_db/db_handler.py:13-32 | an empty batch fails and changes nothing; otherwise both artifacts are written, and both cache slots are replaced by the new index and its aligned metadata store |
| `VectorDb.Database.Load` | vector_db/db_handler.py:35-49 | with both slots filled it does nothing and reads nothing; else a missing artifact fails with not-found and leaves the cache unchanged; else both slots are read from disk; success iff loaded afterwards; alignment is kept when the two artifacts hold the same number of rows |
| `VectorDb.Database.Search` | vector_db/db_handler.py:52-64 | it loads first: with the cache not filled and an artifact missing, it fails with not-found and changes nothing; whenever the cache was filled or both artifacts exist, the cache ends up filled and the result is the Lookup of the searcher's id row in the cached metadata store |
| `VectorDb.LoadTwice` | vector_db/db_handler.py:41-48 | a second load right after a first returns the same outcome and changes nothing: after both, the cache is untouched when it was filled or the first load failed, and otherwise holds both artifacts after exactly one disk read |
| `VectorDb.AlignedLookup` | vector_db/db_handler.py:62-64 | over a filled and aligned cache, ids inside the cached index's rows always resolve; result j is the cached record at row ids[j] |
| `VectorDb.BuildThenSearch` | vector_db/db_handler.py:13-64 | a search right after a build answers from the new index and store without reading the disk; every id inside the batch selects the record built from that item |
| `VectorDb.PaddingRepeatsLastRecord` | vector_db/db_handler.py:62-63 | with two records, the padded id row [0, 1, -1] returns the last record twice |
| `Words.IsSpace` | summarize/summarizer.py:26 | defines the whitespace characters `str.split()` separates on (the ASCII separators, 0x1C-0x1F, NEL, NBSP and the Unicode space separators) |
| `Words.Join` | summarize/summarizer.py:41 | defines `" ".join`: the words with one space between neighbours |
| `Words.Split` | summarize/summarizer.py:26 | `split()` yields only non-empty words without whitespace |
| `Words.SplitKeepsCharacters` | summarize/summarizer.py:26 | the words of `split()`, concatenated, are exactly the text's non-whitespace characters in order, and there are none exactly when the text is all whitespace |
| `Words.WordStarts` | summarize/summarizer.py:26 | defines the word starts of a text: the non-whitespace positions at the start or after whitespace, left to right |
| `Words.WordStartsExactly` | summarize/summarizer.py:26 | the word-start list holds every word start and nothing else, strictly increasing |
| `Words.SplitAtWordStarts` | summarize/summarizer.py:26 | `split()` yields one word per word start; word k lies in the text at the k-th word start and is followed by whitespace or the end, so no word spans whitespace and none is cut short |
| `Words.SplitJoin` | summarize/summarizer.py:41-43 | splitting the space-join of words gives back exactly those words, so a chunk's re-split word count is its length |
| `Summarizer.Contribution` | summarize/summarizer.py:41-50 | defines one chunk's part of the result: nothing when its re-split text has fewer than min_length words, else the summary or, on failure, the chunk text |
| `Summarizer.Contributions` | summarize/summarizer.py:39-50 | defines the list `summaries`: the chunks' parts in chunk order, skipped chunks left out |
| `Summarizer.Summary` | summarize/summarizer.py:26-61 | defines the result of `summarize_text` on its three branches: short text unchanged, long text as the join of the chunk parts, otherwise one summary or the text on failure |
| `Summarizer.ChunkInputs` | summarize/summarizer.py:40-46 | defines the chunk texts handed to the model: those of chunks not skipped, in chunk order |
| `Summarizer.ModelInputs` | summarize/summarizer.py:26-57 | defines the texts the model is called on, in call order: none for a short text, the unskipped chunk texts for a long one, the text itself otherwise |
| `Summarizer.SummarizeText` | summarize/summarizer.py:12-61 | the driver, including its per-chunk loop with skip and fallback, computes Summary, and the texts it actually hands to the model, in call order, are ModelInputs |
| `Summarizer.ShortTextUnchanged` | summarize/summarizer.py:26-27 | a text of at most min_length words is returned unchanged, with no model call |
| `Summarizer.WordChunksLaw` | summarize/summarizer.py:33-36 | a text of W > 1000 words is cut into ceil(W/1000) chunks; all but the last have 1000 words, the last 1 to 1000; together they give back the words |
| `Summarizer.ChunksAreWords` | summarize/summarizer.py:34-36 | every element of every chunk is a word |
| `Summarizer.ContributionLaw` | summarize/summarizer.py:41-50 | a chunk adds nothing iff it has fewer than min_length words; otherwise it adds the model's summary of its joined text, or that text on failure |
| `Summarizer.ContributionsBound` | summarize/summarizer.py:39-50 | there are never more contributions than chunks |
| `Summarizer.LongChunksAllContribute` | summarize/summarizer.py:40-50 | chunks that all have at least min_length words all contribute |
| `Summarizer.ShortChunksVanish` | summarize/summarizer.py:40-44 | chunks that all have fewer than min_length words contribute nothing |
| `Summarizer.LongTextSummary` | summarize/summarizer.py:33-53 | a long text's result is the space-join of its chunks' contributions in chunk order: at most ceil(W/1000) of them, at least ceil(W/1000)-1 when min_length <= 1000, and the empty string when min_length > 1000 |
| `Summarizer.MidTextSingleCall` | summarize/summarizer.py:54-61 | for min_length < W <= 1000 the model inputs (the calls SummarizeText makes) are exactly the text itself; the result is its summary, or the text on failure |
| `Summarizer.ContributionsAgree` | summarize/summarizer.py:40-50 | the chunk contributions depend on the model only at the chunk texts that reach it |
| `Summarizer.SummaryDependsOnlyOnModelInputs` | summarize/summarizer.py:24-61 | two models that agree on the listed call inputs give the same result |
| `Summarizer.ChunkInputsBound` | summarize/summarizer.py:40-46 | no more chunk texts reach the model than there are chunks |
| `Summarizer.LongTextCallCount` | summarize/summarizer.py:33-46 | a long text has at most ceil(W/1000) model inputs, so SummarizeText makes at most that many model calls |
| `Pipeline.ChunkDict` | chunking/tokenizer.py:64-68 | defines the dict the chunker appends: "file", "chunk" and "text" |
| `Pipeline.ChunkDictsEmbed` | embedding/embedder.py:10-17 | chunker output always projects its texts, and its metadata keeps file and chunk number, with "Unknown" for page |
| `Pipeline.StoredChunkRecord` | vector_db/db_handler.py:18 | the stored record of an embedded chunker chunk has exactly file, page, chunk and text, with the chunk's own values |
| `Pipeline.TwoDocumentScenario` | chunking/tokenizer.py:52-70 | documents of 1200 and 300 tokens with max_tokens 500 give chunks numbered 1, 2, 3, 1 from windows of 500, 500, 200 and 300 tokens, in document order |

## Left out

- File readers, folder scans and module-level scripts (`chunking/tokenizer.py:8-49`, `:72-85`, `extract/extractor.py`): library wrappers and directory I/O. Documents are given as `{file, text}` records, so the KeyError for a document missing either key is not modelled.
- `Chunker.ChunkDocuments`: the tokenizer's encode (`Chunker.Tokenizer`) cannot fail in the model, so success is promised for every positive `max_tokens`. The tiktoken encoder raises on text holding a special-token string such as `<|endoftext|>`, and that error aborts `chunk_documents` (`chunking/tokenizer.py:58`) for all documents.
- Tokenizer, sentence encoder, index search and summarization model: foreign libraries. They are function parameters, so only token-level facts are proved; text-level decode/encode round trips are not.
- `VectorDb.Database.Search`: makes no claim about nearest-first order or distances; `top_k` validation happens inside FAISS and is not modelled.
- Vector dimensions and float32 conversion are not modelled, for build (`vector_db/db_handler.py:17,20-21`: a ragged batch fails in numpy) or for search (a query of the wrong dimension fails in FAISS); vectors are an uninterpreted type.
- Persistence (`pickle`, `write_index`/`read_index`, `makedirs`): the disk is two `Option` slots. A write that fails part-way is not modelled; build either raises before writing or writes both.
- The runtime-error guard at `vector_db/db_handler.py:58-59` is not modelled. In the model a present metadata artifact always holds a record list, so the guard cannot fire; a pickled `None` is not modelled.
- Printing and the timing context manager (`utils/logger.py`); the error messages printed by the summarizer.
- `Summarizer.SummarizeText`: exceptions raised while extracting `summary[0]['summary_text']` are folded into the model's `None`; `max_length` is only passed through.
- Record values are only strings and integers.
- Translation, evaluation and `main.py`: thin wrappers or orchestration over code that is not part of this model (`rag.qa_system` is not part of this model).
