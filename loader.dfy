/**
 * Text cleaning, file-type detection, extraction dispatch and the ingestion pipeline
 * (backend/app/rag/loader.py).
 *
 * The processors (PDF, DOCX, PPTX, OCR, YouTube transcription), the embedder and the
 * tokenizer are parameters: `process(fileType, path)` is the text a processor
 * returns, `embed(chunks)` the vectors `generate_embeddings` returns, and
 * `encode`/`decode` the tokenizer.
 */
module Loader {
  import opened Wrappers
  import opened Text
  import Chunker
  import Retriever
  import Db

  /* ---------------- clean_text ---------------- */

  /**
   * `re.sub(pattern, rep, s)` for a pattern `c+` matching maximal runs of characters
   * in the class `inRun`: every maximal run becomes the single character `rep`.
   */
  function Squeeze(s: string, inRun: char -> bool, rep: char): string
    decreases |s|
  {
    if s == [] then []
    else if inRun(s[0]) then
      var k := RunLength(s, inRun);
      assert 0 < k;
      [rep] + Squeeze(s[k..], inRun, rep)
    else [s[0]] + Squeeze(s[1..], inRun, rep)
  }

  predicate IsNewline(c: char) {
    c == '\n'
  }

  /** `clean_text`: collapse whitespace runs, then newline runs, then strip. */
  function CleanText(s: string): string {
    Strip(Squeeze(Squeeze(s, IsSpace, ' '), IsNewline, '\n'))
  }

  /** Every whitespace character is a plain space and no two whitespace characters touch. */
  predicate Collapsed(t: string) {
    && (forall i :: 0 <= i < |t| && IsSpace(t[i]) ==> t[i] == ' ')
    && (forall i :: 0 <= i < |t| - 1 ==> !IsSpace(t[i]) || !IsSpace(t[i + 1]))
  }

  /** The visible characters of `s`, in order. */
  function NonSpace(s: string): string {
    if s == [] then [] else (if IsSpace(s[0]) then [] else [s[0]]) + NonSpace(s[1..])
  }

  /** A squeezed string starts with the input's first character unless that one is replaced. */
  lemma SqueezeHead(s: string, inRun: char -> bool, rep: char)
    requires s != []
    ensures Squeeze(s, inRun, rep) != []
    ensures Squeeze(s, inRun, rep)[0] == if inRun(s[0]) then rep else s[0]
  {
  }

  /** Replacing whitespace runs by one space leaves a collapsed string. */
  lemma {:induction false} SqueezeCollapses(s: string)
    ensures Collapsed(Squeeze(s, IsSpace, ' '))
    decreases |s|
  {
    if s != [] {
      var t := Squeeze(s, IsSpace, ' ');
      if IsSpace(s[0]) {
        var k := RunLength(s, IsSpace);
        RunLengthShape(s, IsSpace);
        var rest := s[k..];
        SqueezeCollapses(rest);
        if rest != [] {
          SqueezeHead(rest, IsSpace, ' ');
        }
        assert t == [' '] + Squeeze(rest, IsSpace, ' ');
      } else {
        SqueezeCollapses(s[1..]);
        assert t == [s[0]] + Squeeze(s[1..], IsSpace, ' ');
      }
    }
  }

  /** A pass over a class of characters that does not occur changes nothing. */
  lemma {:induction false} SqueezeAbsent(t: string, inRun: char -> bool, rep: char)
    requires forall i :: 0 <= i < |t| ==> !inRun(t[i])
    ensures Squeeze(t, inRun, rep) == t
    decreases |t|
  {
    if t != [] {
      SqueezeAbsent(t[1..], inRun, rep);
    }
  }

  /** A collapsed string is already squeezed. */
  lemma {:induction false} SqueezeCollapsedIdentity(t: string)
    requires Collapsed(t)
    ensures Squeeze(t, IsSpace, ' ') == t
    decreases |t|
  {
    if t != [] {
      assert Collapsed(t[1..]);
      SqueezeCollapsedIdentity(t[1..]);
      if IsSpace(t[0]) {
        assert RunLength(t, IsSpace) == 1;
      }
    }
  }

  /** A slice of a collapsed string is collapsed. */
  lemma SliceCollapsed(t: string, i: nat, j: nat)
    requires Collapsed(t) && i <= j <= |t|
    ensures Collapsed(t[i..j])
  {
    var u := t[i..j];
    forall m | 0 <= m < |u| - 1 ensures !IsSpace(u[m]) || !IsSpace(u[m + 1]) {
      assert u[m] == t[i + m] && u[m + 1] == t[i + m + 1];
    }
  }

  /**
   * The shape of `clean_text`'s result: no newline, every whitespace character a
   * single space between two visible characters, nothing blank at either end; the
   * newline pass changes nothing.
   */
  lemma CleanTextShape(s: string)
    ensures Squeeze(Squeeze(s, IsSpace, ' '), IsNewline, '\n') == Squeeze(s, IsSpace, ' ')
    ensures Collapsed(CleanText(s))
    ensures forall i :: 0 <= i < |CleanText(s)| ==> CleanText(s)[i] != '\n'
    ensures CleanText(s) != [] ==> !IsSpace(CleanText(s)[0]) && !IsSpace(CleanText(s)[|CleanText(s)| - 1])
  {
    var t := Squeeze(s, IsSpace, ' ');
    SqueezeCollapses(s);
    SqueezeAbsent(t, IsNewline, '\n');
    var i, j := StripSlice(t);
    SliceCollapsed(t, i, j);
  }

  /** `clean_text` is idempotent. */
  lemma CleanTextIdempotent(s: string)
    ensures CleanText(CleanText(s)) == CleanText(s)
  {
    var r := CleanText(s);
    CleanTextShape(s);
    SqueezeCollapsedIdentity(r);
    SqueezeAbsent(r, IsNewline, '\n');
    StripUnchanged(r);
  }

  lemma {:induction false} SqueezeBlank(s: string)
    ensures IsBlank(Squeeze(s, IsSpace, ' ')) <==> IsBlank(s)
    decreases |s|
  {
    if s != [] {
      var t := Squeeze(s, IsSpace, ' ');
      SqueezeHead(s, IsSpace, ' ');
      if IsSpace(s[0]) {
        var k := RunLength(s, IsSpace);
        RunLengthShape(s, IsSpace);
        SqueezeBlank(s[k..]);
        BlankAppend([' '], Squeeze(s[k..], IsSpace, ' '));
        assert s == s[..k] + s[k..];
        BlankAppend(s[..k], s[k..]);
      }
    }
  }

  lemma BlankAppend(a: string, b: string)
    ensures IsBlank(a + b) <==> IsBlank(a) && IsBlank(b)
  {
    if IsBlank(a) && IsBlank(b) {
      forall i | 0 <= i < |a + b| ensures IsSpace((a + b)[i]) {
        if i >= |a| { assert (a + b)[i] == b[i - |a|]; }
      }
    }
    if IsBlank(a + b) {
      forall i | 0 <= i < |a| ensures IsSpace(a[i]) {
        assert (a + b)[i] == a[i];
      }
      forall i | 0 <= i < |b| ensures IsSpace(b[i]) {
        assert (a + b)[|a| + i] == b[i];
      }
    }
  }

  /** `clean_text` returns "" exactly for blank input. */
  lemma CleanTextEmptyIffBlank(s: string)
    ensures CleanText(s) == [] <==> IsBlank(s)
  {
    var t := Squeeze(s, IsSpace, ' ');
    CleanTextShape(s);
    SqueezeBlank(s);
    var _, _ := StripSlice(t);
  }

  lemma {:induction false} NonSpaceAppend(a: string, b: string)
    ensures NonSpace(a + b) == NonSpace(a) + NonSpace(b)
    decreases |a|
  {
    if a != [] {
      assert (a + b)[1..] == a[1..] + b;
      NonSpaceAppend(a[1..], b);
    } else {
      assert a + b == b;
    }
  }

  lemma {:induction false} NonSpaceBlank(a: string)
    requires IsBlank(a)
    ensures NonSpace(a) == []
    decreases |a|
  {
    if a != [] {
      NonSpaceBlank(a[1..]);
    }
  }

  lemma {:induction false} SqueezeKeepsText(s: string)
    ensures NonSpace(Squeeze(s, IsSpace, ' ')) == NonSpace(s)
    decreases |s|
  {
    if s != [] {
      var t := Squeeze(s, IsSpace, ' ');
      if IsSpace(s[0]) {
        var k := RunLength(s, IsSpace);
        RunLengthShape(s, IsSpace);
        SqueezeKeepsText(s[k..]);
        assert t == [' '] + Squeeze(s[k..], IsSpace, ' ');
        NonSpaceAppend([' '], Squeeze(s[k..], IsSpace, ' '));
        assert s == s[..k] + s[k..];
        NonSpaceAppend(s[..k], s[k..]);
        NonSpaceBlank(s[..k]);
      } else {
        SqueezeKeepsText(s[1..]);
        assert t == [s[0]] + Squeeze(s[1..], IsSpace, ' ');
        NonSpaceAppend([s[0]], Squeeze(s[1..], IsSpace, ' '));
      }
    }
  }

  /** Stripping removes whitespace only. */
  lemma NonSpaceStrip(t: string)
    ensures NonSpace(Strip(t)) == NonSpace(t)
  {
    var i, j := StripSlice(t);
    assert t == t[..i] + t[i..j] + t[j..];
    NonSpaceAppend(t[..i] + t[i..j], t[j..]);
    NonSpaceAppend(t[..i], t[i..j]);
    NonSpaceBlank(t[..i]);
    NonSpaceBlank(t[j..]);
  }

  /**
   * `clean_text` only touches whitespace: the visible characters of the result are
   * those of the input, all of them and in order.
   */
  lemma CleanTextKeepsText(s: string)
    ensures NonSpace(CleanText(s)) == NonSpace(s)
  {
    CleanTextShape(s);
    SqueezeKeepsText(s);
    NonSpaceStrip(Squeeze(s, IsSpace, ' '));
  }

  /* ---------------- detect_file_type ---------------- */

  datatype FileType = Pdf | Docx | Pptx | Image | Youtube | Unknown

  /** Index of the last occurrence of `c` in `s`, or -1 (`str.rfind`). */
  function LastIndexOf(s: string, c: char): (k: int)
    ensures -1 <= k < |s|
    ensures 0 <= k ==> s[k] == c
    ensures forall m :: k < m < |s| ==> s[m] != c
  {
    if s == [] then -1
    else if s[|s| - 1] == c then |s| - 1
    else LastIndexOf(s[..|s| - 1], c)
  }

  /**
   * The extension `os.path.splitext` (POSIX) returns: from the last dot on, when that
   * dot lies in the last path component and is preceded there by some character other
   * than a dot; otherwise empty (so `.bashrc` has no extension).
   */
  function Extension(p: string): string {
    var sep := LastIndexOf(p, '/');
    var dot := LastIndexOf(p, '.');
    if sep < dot && exists k | sep + 1 <= k < dot :: p[k] != '.' then p[dot..] else []
  }

  /** The extension is empty or a suffix of the path made of one dot and no separator. */
  lemma ExtensionShape(p: string)
    ensures Extension(p) <= p[|p| - |Extension(p)|..] && |Extension(p)| <= |p|
    ensures Extension(p) == p[|p| - |Extension(p)|..]
    ensures Extension(p) != [] ==>
              && Extension(p)[0] == '.'
              && forall m :: 0 < m < |Extension(p)| ==> Extension(p)[m] != '.' && Extension(p)[m] != '/'
  {
    var sep := LastIndexOf(p, '/');
    var dot := LastIndexOf(p, '.');
    if Extension(p) != [] {
      forall m | 0 < m < |Extension(p)| ensures Extension(p)[m] != '.' && Extension(p)[m] != '/' {
        assert Extension(p)[m] == p[dot + m];
      }
    }
  }

  /**
   * A name ending in `.e`, where `e` has no dot or separator and the last path
   * component has a character other than a dot before it, has the extension `.e`.
   */
  lemma SplitExtension(stem: string, e: string, k: nat)
    requires k < |stem| && stem[k] != '.' && stem[k] != '/'
    requires forall m :: k < m < |stem| ==> stem[m] != '/'
    requires forall m :: 0 <= m < |e| ==> e[m] != '.' && e[m] != '/'
    ensures Extension(stem + "." + e) == "." + e
  {
    var p := stem + "." + e;
    var sep := LastIndexOf(p, '/');
    var dot := LastIndexOf(p, '.');
    assert p[|stem|] == '.';
    assert forall m :: |stem| < m < |p| ==> p[m] == e[m - |stem| - 1];
    assert dot == |stem|;
    assert p[k] == stem[k];
    assert forall m :: k < m < |p| ==> p[m] != '/';
    assert sep < k;
    assert p[dot..] == "." + e;
  }

  /** The file type an extension selects (after lower-casing). */
  function TypeOfExtension(ext: string): FileType {
    if ext == ".pdf" then Pdf
    else if ext == ".docx" then Docx
    else if ext == ".pptx" then Pptx
    else if ext in [".png", ".jpg", ".jpeg", ".tiff", ".bmp"] then Image
    else Unknown
  }

  predicate IsYoutubeLink(p: string) {
    Contains(p, "youtube.com") || Contains(p, "youtu.be")
  }

  /** `detect_file_type`. */
  function DetectFileType(p: string): FileType {
    if IsYoutubeLink(p) then Youtube else TypeOfExtension(Lower(Extension(p)))
  }

  /** A link mentioning YouTube is a YouTube source whatever it ends with. */
  lemma YoutubeWins(p: string)
    requires IsYoutubeLink(p)
    ensures DetectFileType(p) == Youtube
  {
  }

  /**
   * Otherwise the extension decides, ignoring case: `name.e` is a PDF, DOCX, PPTX or
   * image exactly when `.e` lower-cased is one of those extensions, and of unknown
   * type for every other extension, `.txt` included.
   */
  lemma ExtensionDecides(stem: string, e: string, k: nat)
    requires k < |stem| && stem[k] != '.' && stem[k] != '/'
    requires forall m :: k < m < |stem| ==> stem[m] != '/'
    requires forall m :: 0 <= m < |e| ==> e[m] != '.' && e[m] != '/'
    requires !IsYoutubeLink(stem + "." + e)
    ensures DetectFileType(stem + "." + e) == TypeOfExtension(Lower("." + e))
    ensures Lower(e) == "txt" ==> DetectFileType(stem + "." + e) == Unknown
    ensures Lower(e) == "pdf" ==> DetectFileType(stem + "." + e) == Pdf
  {
    SplitExtension(stem, e, k);
    assert Lower("." + e) == "." + Lower(e);
  }

  /**
   * Extensions are compared without regard to case: changing the case of the
   * extension does not change the detected type.
   */
  lemma DetectIgnoresCase(stem: string, e: string, k: nat)
    requires k < |stem| && stem[k] != '.' && stem[k] != '/'
    requires forall m :: k < m < |stem| ==> stem[m] != '/'
    requires forall m :: 0 <= m < |e| ==> e[m] != '.' && e[m] != '/'
    requires !IsYoutubeLink(stem + "." + e) && !IsYoutubeLink(stem + "." + Lower(e))
    ensures DetectFileType(stem + "." + e) == DetectFileType(stem + "." + Lower(e))
  {
    var le := Lower(e);
    forall m | 0 <= m < |le| ensures le[m] != '.' && le[m] != '/' {
      assert le[m] == LowerChar(e[m]);
    }
    ExtensionDecides(stem, e, k);
    ExtensionDecides(stem, le, k);
    LowerIdempotent(e);
    assert Lower("." + e) == "." + le;
    assert Lower("." + le) == "." + Lower(le);
  }

  /** An upper-case PDF extension is a PDF. */
  lemma UpperCasePdf()
    ensures DetectFileType("a.PDF") == Pdf
  {
    assert Extension("a.PDF") == ".PDF" by {
      assert "a" + "." + "PDF" == "a.PDF";
      SplitExtension("a", "PDF", 0);
    }
    assert Lower(".PDF") == ".pdf";
  }

  /** A plain text file is of unknown type. */
  lemma TextFileUnknown()
    ensures DetectFileType("a.txt") == Unknown
  {
    assert Extension("a.txt") == ".txt" by {
      assert "a" + "." + "txt" == "a.txt";
      SplitExtension("a", "txt", 0);
    }
    assert Lower(".txt") == ".txt";
  }

  /** A dot file named `.pdf` has no extension, so it is of unknown type. */
  lemma DotFileUnknown()
    ensures DetectFileType("d/.pdf") == Unknown
  {
    assert Extension("d/.pdf") == [] by {
      var p := "d/.pdf";
      assert p[1] == '/' && p[2] == '.' && p[3] != '/' && p[4] != '/' && p[5] != '/';
      assert p[3] != '.' && p[4] != '.' && p[5] != '.';
      assert LastIndexOf(p, '/') == 1;
      assert LastIndexOf(p, '.') == 2;
    }
    assert Lower([]) == [];
  }

  /** A short link to a video named like a PDF is still a YouTube source. */
  lemma DetectShortLink()
    ensures DetectFileType("youtu.be/a.pdf") == Youtube
  {
    assert OccursAt("youtu.be/a.pdf", "youtu.be", 0);
  }

  /* ---------------- extract_text ---------------- */

  /** The string `detect_file_type` returns for each type. */
  function Name(t: FileType): string {
    match t
    case Pdf => "pdf"
    case Docx => "docx"
    case Pptx => "pptx"
    case Image => "image"
    case Youtube => "youtube"
    case Unknown => "unknown"
  }

  const Supported: set<string> := {"pdf", "docx", "pptx", "image", "youtube"}

  /**
   * `extract_text`: the processor's text for one of the five supported type names,
   * `None` (the `ValueError`) for any other name.
   */
  function ExtractText(path: string, fileType: string, process: (string, string) -> string): Option<string> {
    if fileType in Supported then Some(process(fileType, path)) else None
  }

  /**
   * Extraction after detection fails exactly for the unknown type, so every file whose
   * extension is not listed (a `.txt` file among them) is refused.
   */
  lemma ExtractionFailsOnlyForUnknown(path: string, process: (string, string) -> string)
    ensures ExtractText(path, Name(DetectFileType(path)), process).None? <==> DetectFileType(path) == Unknown
  {
  }

  /* ---------------- ingest ---------------- */

  /** The metadata dictionary `ingest` builds for chunk `i`. */
  function ChunkRecord(sessionId: string, category: string, source: string, i: nat, chunk: string): Retriever.Meta {
    map["session_id" := Retriever.Str(sessionId), "category" := Retriever.Str(category),
        "source" := Retriever.Str(source), "chunk_index" := Retriever.Num(i), "text" := Retriever.Str(chunk)]
  }

  /** The records of all chunks, in order. */
  function Records(chunks: seq<string>, sessionId: string, category: string, source: string): seq<Retriever.Meta> {
    seq(|chunks|, i requires 0 <= i < |chunks| => ChunkRecord(sessionId, category, source, i, chunks[i]))
  }

  /**
   * The metadata loop of `ingest`: one record per chunk, record `i` holding
   * `chunk_index` `i` and the text of chunk `i`, all sharing the session, category and
   * source.
   */
  method BuildMetadata(chunks: seq<string>, sessionId: string, category: string, source: string)
    returns (metadata: seq<Retriever.Meta>)
    ensures |metadata| == |chunks|
    ensures forall i :: 0 <= i < |chunks| ==>
              && metadata[i].Keys == {"session_id", "category", "source", "chunk_index", "text"}
              && metadata[i]["chunk_index"] == Retriever.Num(i)
              && metadata[i]["text"] == Retriever.Str(chunks[i])
              && metadata[i]["session_id"] == Retriever.Str(sessionId)
              && metadata[i]["category"] == Retriever.Str(category)
              && metadata[i]["source"] == Retriever.Str(source)
    ensures metadata == Records(chunks, sessionId, category, source)
  {
    metadata := [];
    var i := 0;
    while i < |chunks|
      invariant 0 <= i <= |chunks|
      invariant metadata == Records(chunks[..i], sessionId, category, source)
    {
      metadata := metadata + [ChunkRecord(sessionId, category, source, i, chunks[i])];
      i := i + 1;
      assert chunks[..i][..i - 1] == chunks[..i - 1];
    }
    assert chunks[..i] == chunks;
  }

  /** The chunks `ingest` stores for raw text: cleaned, then 1000-token windows overlapping by 200. */
  function IngestChunks<T>(raw: string, encode: string -> seq<T>, decode: seq<T> -> string): seq<string> {
    Chunker.Chunks(CleanText(raw), 1000, 200, encode, decode)
  }

  /** Raw text yields no chunks exactly when it is blank. */
  lemma NoChunksIffBlank<T>(raw: string, encode: string -> seq<T>, decode: seq<T> -> string)
    ensures IngestChunks(raw, encode, decode) == [] <==> IsBlank(raw)
  {
    var clean := CleanText(raw);
    CleanTextShape(raw);
    CleanTextEmptyIffBlank(raw);
    Chunker.ChunksEmptyIffBlank(clean, 1000, 200, encode, decode);
  }

  /** The index a store opened at `path` loads: present only when both files exist. */
  function StoredIndex(indexFiles: map<string, Retriever.FlatIndex>, metaFiles: map<string, Retriever.MetaBundle>,
                       path: string): Option<Retriever.FlatIndex>
  {
    if path in indexFiles && path in metaFiles then Some(indexFiles[path]) else None
  }

  /** The metadata a store opened at `path` loads. */
  function StoredMetadata(indexFiles: map<string, Retriever.FlatIndex>, metaFiles: map<string, Retriever.MetaBundle>,
                          path: string): seq<Retriever.Meta>
  {
    if path in indexFiles && path in metaFiles then metaFiles[path].metadata else []
  }

  datatype IngestError =
    | SessionNotFound       // `ValueError(f"Session {session_id} not found")`
    | UnsupportedFileType   // `ValueError` from `extract_text`
    | MissingIndexPath      // the session has no `vector_index_path`: `VectorStore(None)` raises
    | IndexRejected         // `VectorStore.add` raises on a ragged batch or a wrong width
    | UnexpectedKeyword     // `chunk_text` called with a keyword it does not accept

  /**
   * The dictionary `ingest` returns, or the exception it raises: `Ingested` is
   * `status: "success"` with the chunk count, type name and session; `NoText` is
   * `status: "error"` with `chunks_count: 0`.
   */
  datatype IngestResult =
    | Ingested(chunksCount: nat, fileType: string, sessionId: string)
    | NoText
    | Raised(error: IngestError)

  /**
   * What `ingest` returns when `chunk_text` is called with an overlap of 200 tokens,
   * given the session rows and the files on disk before the call.
   */
  function IngestSpec<T>(sessions: map<string, Db.Session>, indexFiles: map<string, Retriever.FlatIndex>,
                         metaFiles: map<string, Retriever.MetaBundle>, path: string, sessionId: string,
                         process: (string, string) -> string, embed: seq<string> -> seq<Retriever.Vector>,
                         encode: string -> seq<T>, decode: seq<T> -> string): IngestResult
  {
    if sessionId !in sessions then Raised(SessionNotFound)
    else
      var fileType := Name(DetectFileType(path));
      var raw := ExtractText(path, fileType, process);
      if raw.None? then Raised(UnsupportedFileType)
      else
        var chunks := IngestChunks(raw.value, encode, decode);
        if chunks == [] then NoText
        else if sessions[sessionId].vectorIndexPath.None? then Raised(MissingIndexPath)
        else
          var prior := StoredIndex(indexFiles, metaFiles, sessions[sessionId].vectorIndexPath.value);
          if Retriever.AddOutcomeOf(prior, embed(chunks)).Rejected? then Raised(IndexRejected)
          else Ingested(|chunks|, fileType, sessionId)
  }

  /**
   * The failures of `ingest` before anything is stored: an unknown session raises
   * first; an unsupported type raises next; blank extracted text gives the "no text"
   * error and nothing else does.
   */
  lemma IngestFailures<T>(sessions: map<string, Db.Session>, indexFiles: map<string, Retriever.FlatIndex>,
                          metaFiles: map<string, Retriever.MetaBundle>, path: string, sessionId: string,
                          process: (string, string) -> string, embed: seq<string> -> seq<Retriever.Vector>,
                          encode: string -> seq<T>, decode: seq<T> -> string)
    ensures sessionId !in sessions ==>
              IngestSpec(sessions, indexFiles, metaFiles, path, sessionId, process, embed, encode, decode) == Raised(SessionNotFound)
    ensures IngestSpec(sessions, indexFiles, metaFiles, path, sessionId, process, embed, encode, decode) == Raised(UnsupportedFileType)
            <==> sessionId in sessions && DetectFileType(path) == Unknown
    ensures IngestSpec(sessions, indexFiles, metaFiles, path, sessionId, process, embed, encode, decode) == NoText
            <==> sessionId in sessions && DetectFileType(path) != Unknown && IsBlank(process(Name(DetectFileType(path)), path))
  {
    ExtractionFailsOnlyForUnknown(path, process);
    NoChunksIffBlank(process(Name(DetectFileType(path)), path), encode, decode);
  }

  /**
   * A successful `ingest` reports the (non-zero) number of chunks of the extracted
   * text, the detected type and the session.
   */
  lemma IngestSuccess<T>(sessions: map<string, Db.Session>, indexFiles: map<string, Retriever.FlatIndex>,
                         metaFiles: map<string, Retriever.MetaBundle>, path: string, sessionId: string,
                         process: (string, string) -> string, embed: seq<string> -> seq<Retriever.Vector>,
                         encode: string -> seq<T>, decode: seq<T> -> string)
    requires IngestSpec(sessions, indexFiles, metaFiles, path, sessionId, process, embed, encode, decode).Ingested?
    ensures var r := IngestSpec(sessions, indexFiles, metaFiles, path, sessionId, process, embed, encode, decode);
      && r.chunksCount == |IngestChunks(process(r.fileType, path), encode, decode)|
      && 0 < r.chunksCount
      && r.fileType == Name(DetectFileType(path))
      && r.sessionId == sessionId
      && sessions[sessionId].vectorIndexPath.Some?
  {
  }

  /**
   * `ingest` as written: `chunk_text(cleaned_text, chunk_size=1000, chunk_overlap=200)`
   * names a keyword `chunk_text` does not have, so the call raises `TypeError` once the
   * session and extraction checks pass.
   */
  function IngestAsWritten(sessions: map<string, Db.Session>, path: string, sessionId: string,
                           process: (string, string) -> string): IngestResult
  {
    if sessionId !in sessions then Raised(SessionNotFound)
    else if ExtractText(path, Name(DetectFileType(path)), process).None? then Raised(UnsupportedFileType)
    else Raised(UnexpectedKeyword)
  }

  /**
   * As written, `ingest` never stores anything: whenever the intended call would ingest
   * a document or report blank text, the call as written raises instead; it agrees with
   * the intended behaviour only on the two errors raised before chunking.
   */
  lemma IngestAsWrittenNeverSucceeds<T>(sessions: map<string, Db.Session>, indexFiles: map<string, Retriever.FlatIndex>,
                                        metaFiles: map<string, Retriever.MetaBundle>, path: string, sessionId: string,
                                        process: (string, string) -> string, embed: seq<string> -> seq<Retriever.Vector>,
                                        encode: string -> seq<T>, decode: seq<T> -> string)
    ensures IngestAsWritten(sessions, path, sessionId, process).Raised?
    ensures var intended := IngestSpec(sessions, indexFiles, metaFiles, path, sessionId, process, embed, encode, decode);
      && (intended.Ingested? || intended == NoText ==> IngestAsWritten(sessions, path, sessionId, process) == Raised(UnexpectedKeyword))
      && (intended == Raised(SessionNotFound) || intended == Raised(UnsupportedFileType) ==>
            IngestAsWritten(sessions, path, sessionId, process) == intended)
  {
  }

  /**
   * The ingestion pipeline with the intended overlap of 200 tokens. Blank text and
   * every error leave the disk alone; a successful non-empty batch is appended to the
   * session's store and persisted, one record per chunk after the records already
   * stored, and no other path's files change. With one vector per chunk (as the
   * embedder returns, falling back to a zero vector), a store whose vectors and records
   * were in step stays in step.
   */
  method Ingest<T>(db: Db.Database, disk: Retriever.Disk, path: string, sessionId: string,
                   process: (string, string) -> string, embed: seq<string> -> seq<Retriever.Vector>,
                   encode: string -> seq<T>, decode: seq<T> -> string, category: string := "notes")
    returns (result: IngestResult)
    requires db.Valid() && disk.Valid()
    modifies disk
    ensures disk.Valid()
    ensures result == IngestSpec(db.sessions, old(disk.indexFiles), old(disk.metaFiles), path, sessionId,
                                 process, embed, encode, decode)
    ensures !result.Ingested? ==> unchanged(disk)
    ensures result.Ingested? ==>
              var chunks := IngestChunks(process(result.fileType, path), encode, decode);
              var vip := db.sessions[sessionId].vectorIndexPath.value;
              embed(chunks) == [] ==> unchanged(disk)
    ensures result.Ingested? ==>
              var chunks := IngestChunks(process(result.fileType, path), encode, decode);
              var vip := db.sessions[sessionId].vectorIndexPath.value;
              var prior := StoredIndex(old(disk.indexFiles), old(disk.metaFiles), vip);
              embed(chunks) != [] ==>
                && disk.indexFiles == old(disk.indexFiles)[vip := Retriever.Extend(prior, embed(chunks))]
                && disk.metaFiles == old(disk.metaFiles)[vip := Retriever.MetaBundle(
                     StoredMetadata(old(disk.indexFiles), old(disk.metaFiles), vip) + Records(chunks, sessionId, category, path),
                     Some(Retriever.Extend(prior, embed(chunks)).d))]
                && disk.indexFiles[vip].vectors == Retriever.Entries(prior) + embed(chunks)
    ensures result.Ingested? ==>
              var chunks := IngestChunks(process(result.fileType, path), encode, decode);
              var vip := db.sessions[sessionId].vectorIndexPath.value;
              var prior := StoredIndex(old(disk.indexFiles), old(disk.metaFiles), vip);
              |embed(chunks)| == |chunks| && |Retriever.Entries(prior)| == |StoredMetadata(old(disk.indexFiles), old(disk.metaFiles), vip)| ==>
                |disk.indexFiles[vip].vectors| == |disk.metaFiles[vip].metadata|
  {
    var session := db.GetSession(sessionId);
    if session.None? {
      return Raised(SessionNotFound);
    }
    var fileType := Name(DetectFileType(path));
    var raw := ExtractText(path, fileType, process);
    if raw.None? {
      return Raised(UnsupportedFileType);
    }
    var cleaned := CleanText(raw.value);
    var chunks := Chunker.ChunkText(cleaned, 1000, 200, encode, decode);
    if chunks == [] {
      return NoText;
    }
    var embeddings := embed(chunks);
    var metadata := BuildMetadata(chunks, sessionId, category, path);
    if session.value.vectorIndexPath.None? {
      return Raised(MissingIndexPath);
    }
    var store := new Retriever.VectorStore(session.value.vectorIndexPath.value, disk);
    var outcome := store.Add(embeddings, metadata);
    if outcome.Rejected? {
      return Raised(IndexRejected);
    }
    result := Ingested(|chunks|, fileType, sessionId);
    if outcome == Retriever.Added {
      Retriever.ExtendAppends(StoredIndex(old(disk.indexFiles), old(disk.metaFiles), store.storagePath), embeddings);
    }
  }
}
