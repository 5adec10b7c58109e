# StudyRAG core, modelled in Dafny

StudyRAG is a study assistant. The user uploads documents (PDF, DOCX, PPTX, images,
YouTube links) into a workspace, called a session, and then chats with a local language
model that answers from the uploaded material. This project models the pipeline from
ingestion to retrieval and proves properties of that model:

- **Session table** (`db.py`, module `Db`): the `sessions` rows as a map keyed by
  `session_id`. It covers primary-key insert, lookup, partial update (only the fields
  given), delete that reports whether a row existed, and a filter by category.
- **Loader** (`loader.py`, module `Loader`):
  - `clean_text`: the two regular-expression passes and `strip`.
  - `detect_file_type`: the YouTube substring test, then the lower-cased extension as
    `os.path.splitext` computes it.
  - `extract_text`: dispatch to a processor, or an error for an unsupported type.
  - `ingest`: session check, extraction, cleaning, chunking, one metadata record per
    chunk, storage in the session's vector store, and the result dictionary.
- **Chunker** (`chunker.py`, module `Chunker`): the token-window loop of `chunk_text`,
  with the tokenizer as the abstract pair `encode`/`decode`.
- **Vector store** (`retriever.py`, module `Retriever`):
  - a class with the fields `index`, `metadata` and `dimension`, over a `Disk` that holds
    the `.index` and `.meta` files of each storage path;
  - `add` fixes the dimension, appends and saves;
  - `search` ranks entries by an abstract similarity, keeps the best `min(top_k, ntotal)`
    and drops hits without a metadata record;
  - `save` and `load` write and read the pair of files.
- **Prompts** (`prompts.py`, module `Prompts`): the six templates and the case-insensitive
  mode lookup with its fallback.
- **Chat** (`chat.py`, module `Chat`): the `ChatBot` class with its fields `messages`,
  `system_prompt` and `current_mode`. It covers one chat turn, context retrieval and
  rendering, the conversation history, clearing, mode switching, and saving and loading
  the history file.

Modules `Text` and `Wrappers` hold the Python string built-ins the core relies on
(`isspace`, `strip`, `lower`, `in`, `join`, `str(n)`) and an `Option` type.

Several inputs are parameters rather than code:

| parameter | stands for |
|---|---|
| `encode`, `decode` | the `cl100k_base` tokenizer |
| `process(type, path)` | a document processor |
| `embed`, `embedQuery` | the embedding service |
| `sim(query, v)` | inner product of the normalised vectors |
| `llm` | the chat model |
| `fmt` | the `{score:.2f}` rendering |

A Python `None` for a history path, a vector store path or a chat mode is the empty
string here. The source tests those values for truthiness, which treats `None` and `""`
alike.

The source differs from its configuration in places, and the model follows the code:

- `chunk_text` without an explicit overlap reads `settings.CHUNK_OVERLAP_PERCENT`
  (backend/app/rag/chunker.py:42).
- `_retrieve_context` without `top_k` reads `settings.ALL_RESULTS` and
  `settings.TOP_K_RESULTS` (backend/app/rag/chat.py:106-108).
- The settings class defines none of these names (backend/app/config.py:21-23), so both
  default paths raise. The model takes the overlap (as a token count) and `topK` as
  explicit parameters.
- A `.txt` file is detected as `"unknown"`, and extraction then refuses it
  (`Loader.TextFileUnknown`, `Loader.ExtractionFailsOnlyForUnknown`). This holds even
  though the ingestion test script feeds text files to the pipeline.

## Model

| member | source | states |
|---|---|---|
| Text.StripSlice | backend/app/rag/loader.py:34 | `str.strip` returns a slice of its input with only whitespace cut off at both ends; the result is empty exactly for blank input, and otherwise begins and ends with a visible character |
| Chunker.ChunkText | backend/app/rag/chunker.py:23-72 | the windowing loop returns exactly `Chunks`: `[]` for blank text, `[text]` (not stripped) for text of at most `chunkSize` tokens, otherwise the stripped decoding of each window; the loop terminates when the stride `chunkSize - overlapTokens` is positive |
| Chunker.LoopStep | backend/app/rag/chunker.py:57-66 | one loop pass appends the stripped decoding of `tokens[start:start+chunkSize]` and moves `start` on by the stride, keeping the loop invariant |
| Chunker.DecodeStep | backend/app/rag/chunker.py:58-66 | the chunks from `start` on are the chunk of the window at `start` followed by the chunks from `start + stride` |
| Chunker.ChunksShape | backend/app/rag/chunker.py:44-66 | blank text gives no chunks; text of at most `chunkSize` tokens gives itself; longer text gives one chunk per loop start, and chunk `i` is the stripped decoding of the slice of at most `chunkSize` tokens at the `i`-th start |
| Chunker.ChunksEmptyIffBlank | backend/app/rag/chunker.py:44-51 | the result is empty if and only if the text is empty or whitespace only |
| Chunker.StartsShape | backend/app/rag/chunker.py:57-70 | the loop's starts begin at 0 and grow by the stride; each lies below the token count, and the next one after the last does not |
| Chunker.StartsAreMultiples | backend/app/rag/chunker.py:54-66 | the `i`-th window starts at `i * (chunkSize - overlapTokens)` |
| Chunker.WindowCount | backend/app/rag/chunker.py:57-70 | there are `ceil(n / stride)` windows for `n` tokens |
| Chunker.CeilingDivision | backend/app/rag/chunker.py:57-70 | the window count, the least `c` with `n <= c * stride`, equals `(n + stride - 1) / stride` |
| Chunker.WindowsLength | backend/app/rag/chunker.py:57-70 | there is one window per loop start |
| Chunker.WindowAt | backend/app/rag/chunker.py:58-59 | window `i` is `tokens[s_i : s_i + size]` (the end clamped to the length) at the `i`-th start `s_i < n` |
| Chunker.WindowsShape | backend/app/rag/chunker.py:58-59 | every window is the slice at its start and holds between 1 and `chunkSize` tokens |
| Chunker.DecodedAtStarts | backend/app/rag/chunker.py:62-63 | each emitted chunk is its window decoded and stripped of surrounding whitespace |
| Chunker.WindowsCover | backend/app/rag/chunker.py:57-70 | with a stride no larger than the window, every token position at or after the first start lies in some window |
| Chunker.ChunkCoverage | backend/app/rag/chunker.py:57-70 | for text longer than one window, every token index lies in the window of some emitted chunk: the windows leave no gap |
| Chunker.ConsecutiveWindowsOverlap | backend/app/rag/chunker.py:54-66 | window `i` without its first `stride` tokens is a prefix of window `i + 1`; for a full window that shared part is exactly the first `overlapTokens` tokens of the next |
| Chunker.FiftyTokenScenario | backend/app/rag/chunker.py:57-70 | 50 tokens, windows of 30 and overlap 6 give the windows [0,30), [24,50) and [48,50); the last lies entirely inside its predecessor |
| Chunker.NonPositiveStrideNeverEnds | backend/app/rag/chunker.py:57-70 | with `chunkSize - overlapTokens <= 0`, `start` stays at or below 0 on every pass, so neither the loop test nor the break ever ends the loop |
| Retriever.VectorStore.constructor | backend/app/rag/retriever.py:14-30 | a new store loads the persisted index, metadata and dimension when both files exist; otherwise it is empty with no index and no dimension |
| Retriever.VectorStore.Add | backend/app/rag/retriever.py:32-60 | an empty, ragged or wrongly sized batch changes nothing and writes nothing; otherwise it appends the vectors and the metadata, keeps an existing dimension (a first batch sets it), and saves the new state to both files |
| Retriever.ExtendAppends | backend/app/rag/retriever.py:46-57 | a successful add leaves the old entries followed by the batch (count grows by the batch size), keeps an existing dimension or takes the batch width, and leaves every vector of the index's width |
| Retriever.AddFailsOnlyOnBadBatch | backend/app/rag/retriever.py:40-56 | `add` returns early exactly for an empty batch, and raises exactly for a non-empty batch that is ragged or whose width differs from the index's |
| Retriever.VectorStore.Search | backend/app/rag/retriever.py:62-90 | fails (`None`, the exception FAISS raises) exactly when the index is non-empty and either the query's width differs from the index's or `topK` is 0, so that `min(topK, ntotal)` asks for no hits; otherwise the results loop returns exactly `SearchSpec`: nothing from an absent or empty index, else the hits of the `min(topK, ntotal)`-best search that have a metadata record, paired with that record, in hit order |
| Retriever.FlatSearch | backend/app/rag/retriever.py:81-82 | the exhaustive index search returns exactly `k` hits |
| Retriever.RankingIsPermutation | backend/app/rag/retriever.py:82 | the index ranking lists every stored entry exactly once |
| Retriever.RankingIsSorted | backend/app/rag/retriever.py:82 | the index ranking lists entries from the highest score to the lowest |
| Retriever.InsertMembers | backend/app/rag/retriever.py:82 | inserting an entry into the ranking adds it and keeps every listed entry |
| Retriever.InsertDescending | backend/app/rag/retriever.py:82 | inserting an entry keeps the ranking sorted by descending score |
| Retriever.InsertDistinct | backend/app/rag/retriever.py:82 | inserting a new entry keeps the ranking free of repeats |
| Retriever.FlatSearchSorted | backend/app/rag/retriever.py:81-82 | the hits are distinct stored entries with their own scores, best first |
| Retriever.FlatSearchIsTopK | backend/app/rag/retriever.py:81-82 | no entry left out of the hits scores higher than any hit |
| Retriever.ResolveBounded | backend/app/rag/retriever.py:85-88 | the results loop keeps at most one result per hit, and each carries a stored metadata record |
| Retriever.ResolveComplete | backend/app/rag/retriever.py:85-88 | when every hit has a record, the loop keeps every hit in order as `(metadata[idx], score)` |
| Retriever.ResolveScoresAbove | backend/app/rag/retriever.py:85-88 | filtering hits keeps any lower bound on their scores |
| Retriever.ResolveDescending | backend/app/rag/retriever.py:85-88 | hits listed best first give results listed best first |
| Retriever.SearchResults | backend/app/rag/retriever.py:62-90 | `search` returns `[]` for an absent or empty index, and at most `min(topK, ntotal)` results, best first, each carrying a stored metadata record |
| Retriever.SearchComplete | backend/app/rag/retriever.py:81-88 | when every entry has a record, `search` returns exactly `min(topK, ntotal)` results, each the record and score of a stored entry |
| Retriever.VectorStore.Save | backend/app/rag/retriever.py:92-103 | with an index, both files under the storage path are overwritten with the current index, metadata and dimension; without one nothing is written |
| Retriever.VectorStore.Load | backend/app/rag/retriever.py:105-118 | state is restored from the files only when both exist; otherwise it is left untouched |
| Retriever.ReopenAfterAdd | backend/app/rag/retriever.py:14-60 | after an `add` (successful or not), a store opened afresh at the same path holds the same index, metadata and dimension as the store the batch went to |
| Retriever.SaveThenLoad | backend/app/rag/retriever.py:92-118 | saving and then loading a store with an index reproduces its index, metadata and dimension |
| Prompts.KnownModes | backend/app/rag/prompts.py:113-121 | each of the seven lower-case keys resolves to its own template, and so do the spellings `Summary` and `SUMMARY` (any spelling: `Prompts.CaseInsensitive`) |
| Prompts.CaseInsensitive | backend/app/rag/prompts.py:123-124 | the mode is lower-cased before lookup: modes that agree after lower-casing select the same prompt |
| Prompts.ImportantIsPoints | backend/app/rag/prompts.py:116-117 | the important-points template is selected exactly by "important" and "points" |
| Prompts.FallbackToBase | backend/app/rag/prompts.py:123-124 | the lookup never fails; the base prompt is selected exactly for "chat" and for every mode outside the map |
| Db.Database.constructor | backend/app/db.py:13-23 | opening the database exposes the stored rows, each keyed by its own id |
| Db.Database.CreateSession | backend/app/db.py:55-87 | a new id inserts the row (category "notes" unless given) and returns it as read back; an existing id violates the primary key and changes nothing |
| Db.Database.GetSession | backend/app/db.py:89-108 | returns the row with that id, and `None` exactly when there is none |
| Db.Assignments | backend/app/db.py:144-158 | the SET list has one assignment per field given, and is empty exactly when no field is given; applying it replaces exactly those fields |
| Db.ApplyFields | backend/app/db.py:144-171 | the UPDATE built from the given fields yields the row with exactly those fields replaced and the others kept |
| Db.ApplyAllAppend | backend/app/db.py:165-171 | applying a SET list in two parts gives the same row as applying it at once |
| Db.Database.UpdateSession | backend/app/db.py:123-173 | for an existing id, exactly the fields passed as non-`None` change and the updated row is returned; with no field given nothing is written; an unknown id changes nothing and returns `None` |
| Db.Database.DeleteSession | backend/app/db.py:175-189 | removes the row and returns true if and only if a row with that id existed |
| Db.DeleteThenGet | backend/app/db.py:175-189 | after a delete, `get_session` returns `None` and a second delete reports false |
| Db.Database.GetSessionsByCategory | backend/app/db.py:191-208 | returns exactly the rows whose `category_map` equals the argument, each once |
| Loader.SqueezeHead | backend/app/rag/loader.py:28 | a replacement pass keeps the input's first character unless it starts a run, which becomes the replacement |
| Loader.SqueezeCollapses | backend/app/rag/loader.py:28 | after `\s+` becomes one space, every whitespace character is a space and no two whitespace characters are adjacent |
| Loader.SqueezeAbsent | backend/app/rag/loader.py:31 | a pass over a character class that does not occur changes nothing; this is why the newline pass is a no-op |
| Loader.SqueezeCollapsedIdentity | backend/app/rag/loader.py:28 | the whitespace pass leaves an already collapsed string unchanged |
| Loader.SliceCollapsed | backend/app/rag/loader.py:34 | stripping a collapsed string leaves it collapsed |
| Loader.CleanTextShape | backend/app/rag/loader.py:17-36 | the newline pass is a no-op; the result has no newline, no two adjacent whitespace characters (all spaces), and no whitespace at either end |
| Loader.CleanTextIdempotent | backend/app/rag/loader.py:17-36 | cleaning cleaned text changes nothing |
| Loader.SqueezeBlank | backend/app/rag/loader.py:28 | the whitespace pass yields blank text exactly for blank input |
| Loader.BlankAppend | backend/app/rag/loader.py:28 | a concatenation is blank exactly when both parts are |
| Loader.CleanTextEmptyIffBlank | backend/app/rag/loader.py:17-36 | the result is "" if and only if the input is whitespace only |
| Loader.NonSpaceAppend | backend/app/rag/loader.py:28 | the visible characters of a concatenation are those of the parts, in order |
| Loader.NonSpaceBlank | backend/app/rag/loader.py:28 | blank text has no visible characters |
| Loader.SqueezeKeepsText | backend/app/rag/loader.py:28 | the whitespace pass keeps every visible character, in order |
| Loader.NonSpaceStrip | backend/app/rag/loader.py:34 | stripping removes whitespace only |
| Loader.CleanTextKeepsText | backend/app/rag/loader.py:17-36 | cleaning keeps exactly the visible characters of the input, in order |
| Loader.LastIndexOf | backend/app/rag/loader.py:52 | the last occurrence of a character, or -1 when there is none |
| Loader.ExtensionShape | backend/app/rag/loader.py:52 | the extension is empty, or a suffix of the path that starts with its only dot and holds no separator |
| Loader.SplitExtension | backend/app/rag/loader.py:52 | a name `stem.e` whose last component has a character other than a dot before the dot has the extension `.e` |
| Loader.YoutubeWins | backend/app/rag/loader.py:49-50 | any input containing "youtube.com" or "youtu.be" is a YouTube source, whatever its extension |
| Loader.DetectShortLink | backend/app/rag/loader.py:49-50 | a short video link that ends in `.pdf` is still a YouTube source |
| Loader.ExtensionDecides | backend/app/rag/loader.py:52-63 | otherwise the lower-cased extension alone decides the type: `.pdf`/`.docx`/`.pptx` name themselves, the five image extensions give "image", and anything else, `.txt` included, gives "unknown" |
| Loader.DetectIgnoresCase | backend/app/rag/loader.py:52 | changing the case of an extension does not change the detected type |
| Loader.UpperCasePdf | backend/app/rag/loader.py:52-55 | `a.PDF` is a PDF |
| Loader.TextFileUnknown | backend/app/rag/loader.py:62-63 | `a.txt` is of unknown type |
| Loader.DotFileUnknown | backend/app/rag/loader.py:52-63 | a dot file named `.pdf` has no extension and is of unknown type |
| Loader.ExtractionFailsOnlyForUnknown | backend/app/rag/loader.py:66-88 | after detection, extraction raises exactly for the unknown type and otherwise returns the processor's text |
| Loader.BuildMetadata | backend/app/rag/loader.py:142-150 | one record per chunk; record `i` has exactly the five keys, `chunk_index = i`, `text = chunks[i]`, and the shared session, category and source |
| Loader.NoChunksIffBlank | backend/app/rag/loader.py:124-135 | cleaned and chunked extracted text yields no chunks exactly when it is blank |
| Loader.IngestFailures | backend/app/rag/loader.py:110-135 | an unknown session raises first; an unsupported type raises exactly when the session exists and the type is unknown; the "no text" error comes exactly from blank extracted text |
| Loader.IngestSuccess | backend/app/rag/loader.py:157-163 | success reports the non-zero chunk count of the extracted text, the detected type name and the session |
| Loader.IngestAsWrittenNeverSucceeds | backend/app/rag/loader.py:128 | as written, every call that gets past extraction raises at the `chunk_text` call; it agrees with the intended pipeline only on the two errors raised before chunking |
| Loader.Ingest | backend/app/rag/loader.py:91-163 | the pipeline returns `IngestSpec` of the rows and files before the call. Every outcome except success leaves the disk untouched. A successful non-empty batch is appended to the session's store and persisted, one record per chunk after those already stored; only the session's index path changes in either file map. When the embedder returns one vector per chunk and the store's vectors and records were in step, they stay in step |
| Chat.HistoryOfAppend | backend/app/rag/chat.py:143-151 | the history is built message by message: the history of a concatenation is the concatenation of the histories |
| Chat.HistoryRoles | backend/app/rag/chat.py:143-151 | Human maps to "user" and AI to "assistant", one entry each and in order; other messages are dropped, so a conversation without them has one entry per message |
| Chat.RestoreHistory | backend/app/rag/chat.py:193-217 | loading the entries saved from a conversation restores the same messages |
| Chat.HistoryOfMessageOf | backend/app/rag/chat.py:213-217 | re-saving the message restored from one entry gives that entry back when its role is known, and nothing otherwise |
| Chat.RestoreKeepsKnownRoles | backend/app/rag/chat.py:213-217 | loading skips entries of other roles: restoring and saving again keeps exactly the "user" and "assistant" entries |
| Chat.RestoreConversational | backend/app/rag/chat.py:213-217 | loaded messages are only Human and AI messages |
| Chat.EntryNumbered | backend/app/rag/chat.py:128-132 | each rendered context entry begins with its number in brackets |
| Chat.ContextShape | backend/app/rag/chat.py:116-141 | no results give `("", [])`; otherwise the context opens with "[1]", and there is one numbered entry and one source per result, in result order, each source carrying the result's score |
| Chat.Defaults | backend/app/rag/chat.py:123-126 | missing keys default to source "Unknown", page "?", category "notes" and empty text; each of the four keys, when present, is used as stored |
| Chat.IngestedRecordSource | backend/app/rag/chat.py:123-139 | a record written by ingestion shows its file, page "?", its category and its chunk text |
| Chat.SourcesDescending | backend/app/rag/chat.py:114-139 | the sources of a search come most relevant first |
| Chat.RenderResults | backend/app/rag/chat.py:120-141 | the formatting loop produces the numbered entries joined by "\n" and one source per result, as `ContextOf` describes |
| Chat.SystemTextShape | backend/app/rag/chat.py:77-79 | the system message is the prompt unchanged exactly when the context is empty; otherwise it is the prompt followed by the context block |
| Chat.ChatBot.constructor | backend/app/rag/chat.py:17-49 | starts in mode "chat" with the base prompt; opens a store on the given disk exactly when a store path is given, holding the persisted index, metadata and dimension when both files exist and empty otherwise; the messages are those loaded from the history file, if any |
| Chat.ChatBot.Chat | backend/app/rag/chat.py:51-93 | the mode switches only when a mode is given and differs from the current one. When retrieval fails (a query of the wrong width, or `topK` 0, on a non-empty index), the turn fails with the messages and the history file unchanged. Otherwise the model receives the system message (prompt plus any context) followed by the whole conversation and the user message. If the model call raises, the user message stays appended without a reply and nothing is saved. If it answers, exactly the user message and the reply are appended, and the history and the retrieved sources are saved when there is a history path |
| Chat.ChatBot.Retrieve | backend/app/rag/chat.py:67-71 | retrieval yields `("", [])` unless RAG is on and there is a store, and then `_retrieve_context`, which fails when the search does |
| Chat.ChatBot.Respond | backend/app/rag/chat.py:73-87 | appends the user message, sends the system message and the conversation to the model, and appends its reply; when the call raises, the user message is left without a reply; the mode and prompt are untouched |
| Chat.ChatBot.RetrieveContext | backend/app/rag/chat.py:95-141 | searches the store with the embedded query and renders the results as `ContextOf` describes; fails exactly when the search does: a query of the wrong width, or `topK` 0, on a non-empty index |
| Chat.RetrievalAsWrittenRaises | backend/app/rag/chat.py:69-71 | as written, a turn with RAG on and a store raises at `settings.ALL_RESULTS` (chat.py:108); every other turn retrieves `("", [])` as the corrected model does |
| Chat.ChatBot.GetConversationHistory | backend/app/rag/chat.py:143-151 | the loop returns exactly `HistoryOf(messages)` |
| Chat.ChatBot.ClearHistory | backend/app/rag/chat.py:153-157 | empties the conversation and, with a history path, saves an empty history with no sources |
| Chat.ChatBot.SetMode | backend/app/rag/chat.py:168-177 | records the mode name as given and selects `get_prompt_by_mode(mode)`; the messages are untouched |
| Chat.ChatBot.SaveHistory | backend/app/rag/chat.py:179-200 | with a history path, writes the conversation history and the given sources there; without one writes nothing |
| Chat.ChatBot.LoadHistory | backend/app/rag/chat.py:202-219 | replaces the conversation with the restored messages of the saved file. Nothing changes without a path, for a missing file or for an unreadable one |
| Chat.SaveThenLoad | backend/app/rag/chat.py:179-219 | with a history path, saving and then loading gives back the same conversation, and the file holds its history and the given sources |

## Left out

- Tokenizer: `tiktoken` and `count_tokens` are left out. Encoding and decoding are the parameters `encode`/`decode`.
- Chunker.ChunkText: takes the overlap as the integer `overlapTokens`, not the float expression `int(chunk_size * overlap_percent)`, because floating point is not modelled.
- Chunker.ChunkText: requires a positive stride (`overlapTokens < chunkSize`), which the source never checks. With any other stride the source loops forever (`Chunker.NonPositiveStrideNeverEnds`), and a method must terminate.
- Chunker.ChunkText: the default-argument path that reads `settings.CHUNK_OVERLAP_PERCENT` raises `AttributeError`. It is not modelled.
- Retriever.VectorStore.Save: the two files are written as one atomic step. The source writes `.index` and then `.meta` separately (backend/app/rag/retriever.py:94-103); a failure between the two, or any other I/O failure, is not modelled.
- Loader.Ingest: the embedder is an unconstrained parameter, so the vectors and records are shown to stay in step only when it returns one vector per chunk.
- Retriever.VectorStore.Search: FAISS ranks equal scores in an unspecified order. The model lists earlier entries first.
- Retriever.VectorStore.Search: the FAISS internals, L2 normalisation and float32 arithmetic are one abstract similarity `sim`.
- Retriever.VectorStore.Search: a negative `top_k`, which the source accepts and FAISS then rejects, is not modelled, because `topK` is a natural number; `topK` 0 is modelled as the same failure.
- Retriever.VectorStore.Search: `min(None, ntotal)`, reached when `_retrieve_context` uses `ALL_RESULTS`, raises `TypeError`. It is not modelled, because `topK` is a natural number.
- Retriever.VectorStore: the FAISS and pickle file formats are not modelled; a file is its abstract content.
- Retriever.VectorStore: `os.makedirs` is not modelled. It raises for a path with no directory part.
- Retriever.VectorStore.Add: the source does not check that the metadata list is as long as the batch, and neither does the model. The model states the two appends separately.
- Chat.ChatBot.RetrieveContext: the number of results is the explicit `topK`, because the settings it would default to do not exist.
- Chat.ChatBot: the LLM call is the function parameter `llm`; `None` stands for any exception it raises, and the exception's kind is not modelled.
- Chat.ChatBot: the query embedding is `embedQuery` and the score rendering `{score:.2f}` is `fmt`. Float formatting is not modelled.
- Chat.ChatBot.LoadHistory: an entry lacking `role` or `content` raises `KeyError` inside the `try`. The source then leaves the messages loaded so far; the model has only well-formed entries or an unreadable file.
- Chat.ChatBot.SaveHistory: JSON encoding is not modelled, and neither is `os.makedirs` on the history directory. A history path with no directory part makes `os.makedirs("")` raise.
- `set_system_prompt` and the command-line `main` of chat.py are not part of this model. Neither is part of the chat pipeline.
- `print` calls are left out.
- Db.Database: connections, commit and rollback are not modelled. Each method is one atomic step on the row map.
- Db.Database: the `created_at` column is not modelled, so `Db.Database.GetSessionsByCategory` states which rows it returns but not their `created_at DESC` order.
- `get_all_sessions` is not part of this model.
- Document processors (PDF, DOCX, PPTX, OCR, YouTube): their text is the parameter `process(type, path)`.
- The embedding service: its vectors are the parameter `embed(chunks)`.
- Loader.Ingest: `VectorStore(None)` for a session without an index path raises inside `os.path.dirname`. The model records this as the `MissingIndexPath` error.
- Loader.Ingest: the source calls the embedder before the path check. Since the embedder is a pure parameter here, the order does not matter.
- Text.Lower: lower-cases ASCII letters only. The compared names (extensions, mode keys) are ASCII and contain no letter whose Unicode lower-casing differs.
- Loader.Extension: follows POSIX `os.path.splitext`, with `/` as the only separator.
- main.py (the HTTP endpoints) and models.py (request schemas) are not part of this model.
- The test scripts are not part of this model.

## Findings

| source | as written | input that shows it | evidently intended | confidence | as-written member | corrected member |
|---|---|---|---|---|---|---|
| backend/app/rag/loader.py:128 | `ingest` calls `chunk_text(cleaned_text, chunk_size=1000, chunk_overlap=200)`, but `chunk_text` has no `chunk_overlap` parameter, so the call raises `TypeError` | any existing session and any path of a supported type, e.g. `lecture.pdf`: the call raises before chunking, so no document is ever ingested | chunks of 1000 tokens overlapping by 200 tokens (the configured `CHUNK_OVERLAP = 200`), i.e. `overlap_percent = 0.2` | not executed | Loader.IngestAsWrittenNeverSucceeds | Loader.Ingest |
| backend/app/rag/chat.py:71 | `chat` calls `_retrieve_context(user_input)` without `top_k`, so it evaluates `settings.ALL_RESULTS` (chat.py:108), which the settings class does not define, and raises `AttributeError` | any turn with `use_rag=True` on a bot that has a vector store | retrieve a configured number of results (`TOP_K_RESULTS`, or the whole store) | not executed | Chat.RetrievalAsWrittenRaises | Chat.ChatBot.RetrieveContext |
