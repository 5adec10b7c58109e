/**
 * The conversation object (backend/app/rag/chat.py, class `ChatBot`).
 *
 * The language model, the query embedder and the `{score:.2f}` rendering of a
 * similarity are parameters (`llm`, `embedQuery`, `fmt`); a model call that raises
 * returns `None`. The similarity used by the store is `sim`, as in the retriever
 * model. History files are a map from path to
 * the JSON document last written there, or to `Unreadable` for a file that does not
 * parse. A path or mode given as `None` is the empty string here: the source tests
 * both with Python truthiness, which treats `None` and `""` alike.
 *
 * When `_retrieve_context` is called without `top_k` the source reads
 * `settings.ALL_RESULTS` and `settings.TOP_K_RESULTS`, which the settings class does
 * not define; here the number of results is the explicit parameter `topK`.
 */
module Chat {
  import opened Wrappers
  import opened Text
  import Prompts
  import Retriever
  import Loader

  /** A LangChain message: `HumanMessage`, `AIMessage` or `SystemMessage`. */
  datatype Message = Human(content: string) | Ai(content: string) | System(content: string)

  /** One `{"role": ..., "content": ...}` dictionary of a saved history. */
  datatype HistoryEntry = HistoryEntry(role: string, content: string)

  /** One `{'source', 'page', 'category', 'relevance'}` dictionary of `sources`. */
  datatype SourceInfo = SourceInfo(source: Retriever.Value, page: Retriever.Value,
                                   category: Retriever.Value, relevance: real)

  /** The JSON document `save_history` writes: `messages` and `last_sources`. */
  datatype HistoryFile = HistoryFile(messages: seq<HistoryEntry>, lastSources: seq<SourceInfo>)

  datatype StoredHistory = Parsed(file: HistoryFile) | Unreadable

  /** The history files, by path. */
  class HistoryDisk {
    var files: map<string, StoredHistory>

    constructor()
      ensures files == map[]
    {
      files := map[];
    }
  }

  /* ---------------- get_conversation_history / load_history ---------------- */

  /** The history entry of one message: none for a system message. */
  function EntryOf(m: Message): seq<HistoryEntry> {
    match m
    case Human(c) => [HistoryEntry("user", c)]
    case Ai(c) => [HistoryEntry("assistant", c)]
    case System(_) => []
  }

  /** `get_conversation_history()` of a message list. */
  function HistoryOf(ms: seq<Message>): seq<HistoryEntry> {
    if ms == [] then [] else HistoryOf(ms[..|ms| - 1]) + EntryOf(ms[|ms| - 1])
  }

  /** The message one saved entry restores: none for a role other than "user" or "assistant". */
  function MessageOf(e: HistoryEntry): seq<Message> {
    if e.role == "user" then [Human(e.content)]
    else if e.role == "assistant" then [Ai(e.content)]
    else []
  }

  /** The messages `load_history` rebuilds from the saved entries. */
  function Restore(es: seq<HistoryEntry>): seq<Message> {
    if es == [] then [] else Restore(es[..|es| - 1]) + MessageOf(es[|es| - 1])
  }

  /** The entries with one of the two roles `load_history` understands, in order. */
  function KnownRoles(es: seq<HistoryEntry>): seq<HistoryEntry> {
    if es == [] then []
    else KnownRoles(es[..|es| - 1])
         + (if es[|es| - 1].role in {"user", "assistant"} then [es[|es| - 1]] else [])
  }

  /** The message list holds no system message. */
  predicate Conversational(ms: seq<Message>) {
    forall i :: 0 <= i < |ms| ==> !ms[i].System?
  }

  /**
   * The history is built message by message and keeps their order: the history of a
   * concatenation is the concatenation of the histories.
   */
  lemma {:induction false} HistoryOfAppend(a: seq<Message>, b: seq<Message>)
    ensures HistoryOf(a + b) == HistoryOf(a) + HistoryOf(b)
    decreases |b|
  {
    if b == [] {
      assert a + b == a;
    } else {
      var init := b[..|b| - 1];
      assert (a + b)[..|a + b| - 1] == a + init;
      HistoryOfAppend(a, init);
    }
  }

  /**
   * Human messages become "user" entries and AI messages "assistant" entries, one
   * each and in order; system messages are dropped, so a conversation without them
   * has exactly one entry per message.
   */
  lemma {:induction false} HistoryRoles(ms: seq<Message>)
    ensures |HistoryOf(ms)| <= |ms|
    ensures forall e :: e in HistoryOf(ms) ==> e.role == "user" || e.role == "assistant"
    ensures Conversational(ms) ==> |HistoryOf(ms)| == |ms|
    ensures Conversational(ms) ==> forall i :: 0 <= i < |ms| ==>
              HistoryOf(ms)[i] == HistoryEntry(if ms[i].Human? then "user" else "assistant", ms[i].content)
  {
    if ms != [] {
      var init := ms[..|ms| - 1];
      HistoryRoles(init);
      if Conversational(ms) {
        assert Conversational(init) by {
          forall i | 0 <= i < |init| ensures !init[i].System? {
            assert init[i] == ms[i];
          }
        }
      }
    }
  }

  /** Saving a conversation and restoring it gives back the same messages. */
  lemma {:induction false} RestoreHistory(ms: seq<Message>)
    requires Conversational(ms)
    ensures Restore(HistoryOf(ms)) == ms
    decreases |ms|
  {
    if ms != [] {
      var init, last := ms[..|ms| - 1], ms[|ms| - 1];
      assert Conversational(init) by {
        forall i | 0 <= i < |init| ensures !init[i].System? {
          assert init[i] == ms[i];
        }
      }
      RestoreHistory(init);
      assert !last.System? by { assert last == ms[|ms| - 1]; }
      var h := HistoryOf(init);
      assert HistoryOf(ms) == h + EntryOf(last);
      assert (h + EntryOf(last))[..|h + EntryOf(last)| - 1] == h;
      assert ms == init + [last];
    }
  }

  /** Saving the messages one entry restores gives back that entry when its role is known. */
  lemma HistoryOfMessageOf(e: HistoryEntry)
    ensures HistoryOf(MessageOf(e)) == if e.role in {"user", "assistant"} then [e] else []
  {
    var ms := MessageOf(e);
    if ms != [] {
      assert ms[..|ms| - 1] == [];
    }
  }

  /** Restoring entries and saving again keeps exactly the entries with a known role. */
  lemma {:induction false} RestoreKeepsKnownRoles(es: seq<HistoryEntry>)
    ensures HistoryOf(Restore(es)) == KnownRoles(es)
    decreases |es|
  {
    if es != [] {
      var init, last := es[..|es| - 1], es[|es| - 1];
      RestoreKeepsKnownRoles(init);
      HistoryOfAppend(Restore(init), MessageOf(last));
      HistoryOfMessageOf(last);
    }
  }

  /** Restored messages are never system messages. */
  lemma {:induction false} RestoreConversational(es: seq<HistoryEntry>)
    ensures Conversational(Restore(es))
    decreases |es|
  {
    if es != [] {
      var init := es[..|es| - 1];
      RestoreConversational(init);
      var r, r0, ms := Restore(es), Restore(init), MessageOf(es[|es| - 1]);
      forall i | 0 <= i < |r| ensures !r[i].System? {
        if i < |r0| {
          assert r[i] == r0[i];
        } else {
          assert r[i] == ms[i - |r0|];
        }
      }
    }
  }

  /** The messages a `load_history` call leaves, given the current ones. */
  function Loaded(files: map<string, StoredHistory>, path: string, current: seq<Message>): seq<Message> {
    if path == "" || path !in files || files[path].Unreadable? then current
    else Restore(files[path].file.messages)
  }

  /* ---------------- _retrieve_context ---------------- */

  /** How an f-string renders a metadata value. */
  function Show(v: Retriever.Value): string {
    match v
    case Str(s) => s
    case Num(n) => NatToString(n)
  }

  function SourceField(meta: Retriever.Meta): Retriever.Value {
    Retriever.Get(meta, "source", Retriever.Str("Unknown"))
  }

  function PageField(meta: Retriever.Meta): Retriever.Value {
    Retriever.Get(meta, "page", Retriever.Str("?"))
  }

  function TextField(meta: Retriever.Meta): Retriever.Value {
    Retriever.Get(meta, "text", Retriever.Str(""))
  }

  function CategoryField(meta: Retriever.Meta): Retriever.Value {
    Retriever.Get(meta, "category", Retriever.Str("notes"))
  }

  /** The context entry of result number `n` (counting from 1). */
  function ContextEntry(n: nat, meta: Retriever.Meta, score: real, fmt: real -> string): string {
    "[" + NatToString(n) + "]" + EntryBody(meta, score, fmt)
  }

  /** The part of an entry after its number. */
  function EntryBody(meta: Retriever.Meta, score: real, fmt: real -> string): string {
    " Source: " + Show(SourceField(meta))
    + " (Page " + Show(PageField(meta)) + ", Category: " + Show(CategoryField(meta)) + ")\n"
    + "Relevance: " + fmt(score) + "\n"
    + "Content: " + Show(TextField(meta)) + "\n"
  }

  function SourceOf(meta: Retriever.Meta, score: real): SourceInfo {
    SourceInfo(SourceField(meta), PageField(meta), CategoryField(meta), score)
  }

  function ContextEntries(results: seq<(Retriever.Meta, real)>, fmt: real -> string): seq<string> {
    seq(|results|, i requires 0 <= i < |results| => ContextEntry(i + 1, results[i].0, results[i].1, fmt))
  }

  function Sources(results: seq<(Retriever.Meta, real)>): seq<SourceInfo> {
    seq(|results|, i requires 0 <= i < |results| => SourceOf(results[i].0, results[i].1))
  }

  /** The context string and the sources `_retrieve_context` returns for search results. */
  function ContextOf(results: seq<(Retriever.Meta, real)>, fmt: real -> string): (string, seq<SourceInfo>) {
    (Join(ContextEntries(results, fmt), "\n"), Sources(results))
  }

  /** Every rendered entry begins with its number in brackets. */
  lemma EntryNumbered(n: nat, meta: Retriever.Meta, score: real, fmt: real -> string)
    ensures "[" + NatToString(n) + "]" <= ContextEntry(n, meta, score, fmt)
  {
    var head := "[" + NatToString(n) + "]";
    var e := ContextEntry(n, meta, score, fmt);
    assert e[..|head|] == head;
  }

  /**
   * No results give the empty context and no sources; otherwise the context is not
   * empty and opens with entry "[1]", and there is one numbered entry and one source
   * per result, in result order, the source carrying the result's score.
   */
  lemma ContextShape(results: seq<(Retriever.Meta, real)>, fmt: real -> string)
    ensures ContextOf(results, fmt).0 == "" <==> results == []
    ensures ContextOf(results, fmt).1 == [] <==> results == []
    ensures results != [] ==> "[1]" <= ContextOf(results, fmt).0
    ensures |ContextEntries(results, fmt)| == |ContextOf(results, fmt).1| == |results|
    ensures forall i :: 0 <= i < |results| ==>
              && "[" + NatToString(i + 1) + "]" <= ContextEntries(results, fmt)[i]
              && ContextOf(results, fmt).1[i].relevance == results[i].1
  {
    forall i | 0 <= i < |results|
      ensures "[" + NatToString(i + 1) + "]" <= ContextEntries(results, fmt)[i]
    {
      EntryNumbered(i + 1, results[i].0, results[i].1, fmt);
    }
    if results != [] {
      var first := ContextEntries(results, fmt)[0];
      assert NatToString(1) == "1";
      assert "[1]" <= first;
      assert "[1]" <= ContextOf(results, fmt).0;
    }
  }

  /**
   * A key missing from a record takes its default: source "Unknown", page "?",
   * category "notes", and empty content.
   */
  lemma Defaults(meta: Retriever.Meta, score: real)
    ensures "source" !in meta ==> SourceOf(meta, score).source == Retriever.Str("Unknown")
    ensures "page" !in meta ==> SourceOf(meta, score).page == Retriever.Str("?")
    ensures "category" !in meta ==> SourceOf(meta, score).category == Retriever.Str("notes")
    ensures "text" !in meta ==> TextField(meta) == Retriever.Str("")
    ensures "source" in meta ==> SourceOf(meta, score).source == meta["source"]
    ensures "category" in meta ==> SourceOf(meta, score).category == meta["category"]
    ensures "page" in meta ==> SourceOf(meta, score).page == meta["page"]
    ensures "text" in meta ==> TextField(meta) == meta["text"]
  {
  }

  /**
   * For a record written by ingestion the source names the uploaded file, the page is
   * always "?" (ingestion stores no page), the category is the session's and the
   * content is the chunk.
   */
  lemma IngestedRecordSource(sessionId: string, category: string, source: string, i: nat, chunk: string, score: real)
    ensures var meta := Loader.ChunkRecord(sessionId, category, source, i, chunk);
      && SourceOf(meta, score) == SourceInfo(Retriever.Str(source), Retriever.Str("?"), Retriever.Str(category), score)
      && TextField(meta) == Retriever.Str(chunk)
  {
  }

  /** The sources of a search come most relevant first. */
  lemma SourcesDescending(index: Option<Retriever.FlatIndex>, metadata: seq<Retriever.Meta>, query: Retriever.Vector,
                          topK: nat, sim: (Retriever.Vector, Retriever.Vector) -> real, fmt: real -> string)
    ensures var sources := ContextOf(Retriever.SearchSpec(index, metadata, query, topK, sim), fmt).1;
      forall p, q :: 0 <= p < q < |sources| ==> sources[q].relevance <= sources[p].relevance
  {
    var results := Retriever.SearchSpec(index, metadata, query, topK, sim);
    Retriever.SearchResults(index, metadata, query, topK, sim);
    var sources := ContextOf(results, fmt).1;
    forall p, q | 0 <= p < q < |sources| ensures sources[q].relevance <= sources[p].relevance {
      assert sources[p].relevance == results[p].1 && sources[q].relevance == results[q].1;
    }
  }

  /**
   * The formatting loop of `_retrieve_context`: one entry and one source per result,
   * numbered from 1, the entries joined by newlines.
   */
  method RenderResults(results: seq<(Retriever.Meta, real)>, fmt: real -> string)
    returns (context: string, sources: seq<SourceInfo>)
    ensures (context, sources) == ContextOf(results, fmt)
  {
    var parts := [];
    sources := [];
    var i := 0;
    while i < |results|
      invariant 0 <= i <= |results|
      invariant parts == ContextEntries(results[..i], fmt)
      invariant sources == Sources(results[..i])
    {
      var (meta, score) := results[i];
      assert results[..i + 1] == results[..i] + [(meta, score)];
      parts := parts + [ContextEntry(i + 1, meta, score, fmt)];
      sources := sources + [SourceOf(meta, score)];
      i := i + 1;
    }
    assert results[..i] == results;
    context := Join(parts, "\n");
  }

  /* ---------------- chat ---------------- */

  /** The system message sent: the prompt, followed by the context block when there is context. */
  function SystemText(prompt: string, context: string): string {
    if context == "" then prompt else prompt + "\n\nRelevant context from documents:\n" + context
  }

  /** Without context the prompt is sent as is; with context it is extended, never altered. */
  lemma SystemTextShape(prompt: string, context: string)
    ensures context == "" <==> SystemText(prompt, context) == prompt
    ensures prompt <= SystemText(prompt, context)
    ensures context != "" ==>
              SystemText(prompt, context)[|prompt|..] == "\n\nRelevant context from documents:\n" + context
  {
    if context != "" {
      var s := SystemText(prompt, context);
      assert s == prompt + ("\n\nRelevant context from documents:\n" + context);
      assert |s| > |prompt|;
    }
  }

  /** The chat session: the messages so far, the prompt mode and its system prompt. */
  class ChatBot {
    var messages: seq<Message>
    var systemPrompt: string
    var currentMode: string
    const vectorStore: Option<Retriever.VectorStore>
    const historyPath: string
    const historyDisk: HistoryDisk

    /** The conversation holds only user and AI messages, and the store, if any, is well formed. */
    ghost predicate Valid()
      reads this, if vectorStore.Some? then {vectorStore.value, vectorStore.value.disk} else {}
    {
      && Conversational(messages)
      && (vectorStore.Some? ==> vectorStore.value.Valid())
    }

    /**
     * Starts in "chat" mode with the base prompt and no messages, opens the store when a
     * path is given, and then loads the saved history when a history path is given.
     */
    constructor(vectorStorePath: string, storeDisk: Retriever.Disk, historyPath: string, historyDisk: HistoryDisk)
      requires storeDisk.Valid()
      ensures Valid()
      ensures this.historyPath == historyPath && this.historyDisk == historyDisk
      ensures currentMode == "chat" && systemPrompt == Prompts.PromptByMode("chat")
      ensures vectorStore.Some? <==> vectorStorePath != ""
      ensures vectorStore.Some? ==> vectorStore.value.storagePath == vectorStorePath && vectorStore.value.disk == storeDisk
      ensures vectorStore.Some? && vectorStore.value.Persisted() ==>
                && vectorStore.value.index == Some(storeDisk.indexFiles[vectorStorePath])
                && vectorStore.value.metadata == storeDisk.metaFiles[vectorStorePath].metadata
                && vectorStore.value.dimension == storeDisk.metaFiles[vectorStorePath].dimension
      ensures vectorStore.Some? && !vectorStore.value.Persisted() ==>
                vectorStore.value.index == None && vectorStore.value.metadata == [] && vectorStore.value.dimension == None
      ensures messages == Loaded(historyDisk.files, historyPath, [])
    {
      messages := [];
      systemPrompt := Prompts.PromptByMode("chat");
      currentMode := "chat";
      if vectorStorePath != "" {
        var store := new Retriever.VectorStore(vectorStorePath, storeDisk);
        vectorStore := Some(store);
      } else {
        vectorStore := None;
      }
      this.historyPath := historyPath;
      this.historyDisk := historyDisk;
      new;
      LoadHistory();
    }

    /**
     * What retrieval yields for a query: nothing when retrieval is off or there is no
     * store, and otherwise the rendered search results; `None` stands for the exception
     * the index search raises for a query of another width than the index or for a
     * request of no results.
     */
    function Retrieval(useRag: bool, query: string, topK: nat, embedQuery: string -> Retriever.Vector,
                       sim: (Retriever.Vector, Retriever.Vector) -> real, fmt: real -> string)
      : Option<(string, seq<SourceInfo>)>
      reads if vectorStore.Some? then {vectorStore.value} else {}
    {
      if useRag && vectorStore.Some? then
        var store, q := vectorStore.value, embedQuery(query);
        if Retriever.SearchFits(store.index, q, topK) then
          Some(ContextOf(Retriever.SearchSpec(store.index, store.metadata, q, topK, sim), fmt))
        else None
      else Some(("", []))
    }

    /**
     * One turn. The mode switches only when a mode is given and differs from the
     * current one. When retrieval raises, the turn ends there: no message is appended
     * and nothing is saved. Otherwise the user message is appended and the model
     * receives the system message (the prompt, plus the context when there is any)
     * followed by the conversation. When the model call raises (`None`), the user
     * message stays without a reply and nothing is saved; otherwise the reply is
     * appended and the history is saved with the retrieved sources when there is a
     * history path.
     */
    method Chat(userInput: string, useRag: bool, mode: string, topK: nat,
                embedQuery: string -> Retriever.Vector, sim: (Retriever.Vector, Retriever.Vector) -> real,
                fmt: real -> string, llm: seq<Message> -> Option<string>)
      returns (reply: Option<string>)
      requires Valid()
      modifies this, historyDisk
      ensures Valid()
      ensures mode != "" && mode != old(currentMode) ==>
                currentMode == mode && systemPrompt == Prompts.PromptByMode(mode)
      ensures mode == "" || mode == old(currentMode) ==>
                currentMode == old(currentMode) && systemPrompt == old(systemPrompt)
      ensures Retrieval(useRag, userInput, topK, embedQuery, sim, fmt).None? ==>
                reply.None? && messages == old(messages) && historyDisk.files == old(historyDisk.files)
      ensures Retrieval(useRag, userInput, topK, embedQuery, sim, fmt).Some? ==>
                reply == llm([System(SystemText(systemPrompt, Retrieval(useRag, userInput, topK, embedQuery, sim, fmt).value.0))]
                             + old(messages) + [Human(userInput)])
      ensures Retrieval(useRag, userInput, topK, embedQuery, sim, fmt).Some? && reply.None? ==>
                messages == old(messages) + [Human(userInput)] && historyDisk.files == old(historyDisk.files)
      ensures reply.Some? ==>
                && Retrieval(useRag, userInput, topK, embedQuery, sim, fmt).Some?
                && messages == old(messages) + [Human(userInput), Ai(reply.value)]
      ensures reply.Some? && historyPath != "" ==>
                historyDisk.files == old(historyDisk.files)[historyPath :=
                  Parsed(HistoryFile(HistoryOf(messages), Retrieval(useRag, userInput, topK, embedQuery, sim, fmt).value.1))]
      ensures reply.Some? && historyPath == "" ==> historyDisk.files == old(historyDisk.files)
    {
      if mode != "" && mode != currentMode {
        SetMode(mode);
      }
      var retrieved := Retrieve(useRag, userInput, topK, embedQuery, sim, fmt);
      if retrieved.None? {
        return None;
      }
      var context, sources := retrieved.value.0, retrieved.value.1;
      reply := Respond(userInput, context, llm);
      if reply.Some? && historyPath != "" {
        SaveHistory(sources);
      }
    }

    /** The retrieval step of `chat`: `_retrieve_context` when retrieval is on and there is a store. */
    method Retrieve(useRag: bool, query: string, topK: nat, embedQuery: string -> Retriever.Vector,
                    sim: (Retriever.Vector, Retriever.Vector) -> real, fmt: real -> string)
      returns (retrieved: Option<(string, seq<SourceInfo>)>)
      requires Valid()
      ensures retrieved == Retrieval(useRag, query, topK, embedQuery, sim, fmt)
    {
      retrieved := Some(("", []));
      if useRag && vectorStore.Some? {
        retrieved := RetrieveContext(query, topK, embedQuery, sim, fmt);
      }
    }

    /**
     * The exchange itself: appends the user message, sends the system message and the
     * conversation to the model, and appends its reply. When the call raises (`None`),
     * the user message is left without a reply.
     */
    method Respond(userInput: string, context: string, llm: seq<Message> -> Option<string>)
      returns (reply: Option<string>)
      modifies this
      ensures reply == llm([System(SystemText(systemPrompt, context))] + old(messages) + [Human(userInput)])
      ensures reply.None? ==> messages == old(messages) + [Human(userInput)]
      ensures reply.Some? ==> messages == old(messages) + [Human(userInput), Ai(reply.value)]
      ensures currentMode == old(currentMode) && systemPrompt == old(systemPrompt)
    {
      messages := messages + [Human(userInput)];
      var systemMessage := systemPrompt;
      if context != "" {
        systemMessage := systemMessage + "\n\nRelevant context from documents:\n" + context;
      }
      assert [System(systemMessage)] + messages == [System(systemMessage)] + old(messages) + [Human(userInput)];
      reply := llm([System(systemMessage)] + messages);
      if reply.Some? {
        messages := messages + [Ai(reply.value)];
      }
    }

    /**
     * Searches the store with the embedded query and renders the results: one
     * numbered entry and one source per result, as `ContextOf` describes; `None` when
     * the search raises.
     */
    method RetrieveContext(query: string, topK: nat, embedQuery: string -> Retriever.Vector,
                           sim: (Retriever.Vector, Retriever.Vector) -> real, fmt: real -> string)
      returns (retrieved: Option<(string, seq<SourceInfo>)>)
      requires Valid() && vectorStore.Some?
      ensures retrieved == Retrieval(true, query, topK, embedQuery, sim, fmt)
    {
      var found := vectorStore.value.Search(embedQuery(query), topK, sim);
      if found.None? {
        return None;
      }
      var results := found.value;
      if results == [] {
        assert Sources(results) == [] && ContextEntries(results, fmt) == [];
        return Some(("", []));
      }
      var context, sources := RenderResults(results, fmt);
      retrieved := Some((context, sources));
    }

    /** `get_conversation_history()`: one entry per message, as `HistoryOf` describes. */
    method GetConversationHistory() returns (history: seq<HistoryEntry>)
      ensures history == HistoryOf(messages)
    {
      history := [];
      var i := 0;
      while i < |messages|
        invariant 0 <= i <= |messages|
        invariant history == HistoryOf(messages[..i])
      {
        var msg := messages[i];
        if msg.Human? {
          history := history + [HistoryEntry("user", msg.content)];
        } else if msg.Ai? {
          history := history + [HistoryEntry("assistant", msg.content)];
        }
        assert messages[..i + 1][..i] == messages[..i];
        i := i + 1;
      }
      assert messages[..i] == messages;
    }

    /** Empties the conversation and, with a history path, saves the empty history. */
    method ClearHistory()
      requires Valid()
      modifies this, historyDisk
      ensures Valid()
      ensures messages == []
      ensures currentMode == old(currentMode) && systemPrompt == old(systemPrompt)
      ensures historyPath != "" ==> historyDisk.files == old(historyDisk.files)[historyPath := Parsed(HistoryFile([], []))]
      ensures historyPath == "" ==> historyDisk.files == old(historyDisk.files)
    {
      messages := [];
      if historyPath != "" {
        SaveHistory([]);
      }
    }

    /** Records the mode name as given and selects its prompt. */
    method SetMode(mode: string)
      modifies this
      ensures currentMode == mode && systemPrompt == Prompts.PromptByMode(mode)
      ensures messages == old(messages)
    {
      currentMode := mode;
      systemPrompt := Prompts.PromptByMode(mode);
    }

    /** Writes the conversation history and the given sources; without a history path writes nothing. */
    method SaveHistory(sources: seq<SourceInfo>)
      modifies historyDisk
      ensures historyPath != "" ==>
                historyDisk.files == old(historyDisk.files)[historyPath := Parsed(HistoryFile(HistoryOf(messages), sources))]
      ensures historyPath == "" ==> historyDisk.files == old(historyDisk.files)
    {
      if historyPath == "" {
        return;
      }
      var history := GetConversationHistory();
      historyDisk.files := historyDisk.files[historyPath := Parsed(HistoryFile(history, sources))];
    }

    /**
     * Replaces the conversation with the saved one. Nothing changes without a history
     * path, when the file is missing or when it does not parse; entries with another
     * role are skipped.
     */
    method LoadHistory()
      requires Conversational(messages)
      modifies this
      ensures Conversational(messages)
      ensures messages == Loaded(historyDisk.files, historyPath, old(messages))
      ensures currentMode == old(currentMode) && systemPrompt == old(systemPrompt)
    {
      if historyPath == "" || historyPath !in historyDisk.files {
        return;
      }
      var stored := historyDisk.files[historyPath];
      if stored.Unreadable? {
        return;
      }
      var entries := stored.file.messages;
      messages := [];
      var i := 0;
      while i < |entries|
        invariant 0 <= i <= |entries|
        invariant messages == Restore(entries[..i])
        invariant currentMode == old(currentMode) && systemPrompt == old(systemPrompt)
      {
        var msg := entries[i];
        if msg.role == "user" {
          messages := messages + [Human(msg.content)];
        } else if msg.role == "assistant" {
          messages := messages + [Ai(msg.content)];
        }
        assert entries[..i + 1][..i] == entries[..i];
        i := i + 1;
      }
      assert entries[..i] == entries;
      RestoreConversational(entries);
    }
  }

  /**
   * With a history path, saving and then loading restores the conversation exactly
   * and writes the given sources alongside it.
   */
  method SaveThenLoad(bot: ChatBot, sources: seq<SourceInfo>)
    requires bot.Valid() && bot.historyPath != ""
    modifies bot, bot.historyDisk
    ensures bot.Valid()
    ensures bot.messages == old(bot.messages)
    ensures bot.historyPath in bot.historyDisk.files
    ensures bot.historyDisk.files[bot.historyPath] == Parsed(HistoryFile(HistoryOf(bot.messages), sources))
  {
    bot.SaveHistory(sources);
    RestoreHistory(bot.messages);
    bot.LoadHistory();
  }

  /**
   * `_retrieve_context(user_input)` as `chat` calls it: without `top_k` it reads
   * `settings.ALL_RESULTS`, which the settings class does not define, so it raises
   * `AttributeError` before any search. `None` stands for that exception; without
   * retrieval or without a store the call is not made.
   */
  function RetrievalAsWritten(useRag: bool, hasStore: bool): Option<(string, seq<SourceInfo>)> {
    if useRag && hasStore then None else Some(("", []))
  }

  /**
   * As written, every turn with retrieval on and a store raises, whatever the store
   * holds, so `chat` appends nothing; the retrieval with an explicit number of results
   * agrees with it exactly on the turns that do not search.
   */
  lemma RetrievalAsWrittenRaises(bot: ChatBot, useRag: bool, query: string, topK: nat,
                                 embedQuery: string -> Retriever.Vector,
                                 sim: (Retriever.Vector, Retriever.Vector) -> real, fmt: real -> string)
    ensures RetrievalAsWritten(useRag, bot.vectorStore.Some?).None? <==> useRag && bot.vectorStore.Some?
    ensures !(useRag && bot.vectorStore.Some?) ==>
              RetrievalAsWritten(useRag, bot.vectorStore.Some?) == bot.Retrieval(useRag, query, topK, embedQuery, sim, fmt)
  {
  }
}
