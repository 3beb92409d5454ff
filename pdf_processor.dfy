/**
 * Document ingestion (`EnhancedDocumentProcessor`): format check, loading
 * with an ordered loader fallback, categorisation by the language model,
 * saving under a unique name, and splitting pages into numbered chunks.
 *
 * Loaders, the text splitter, the model, the clock and the file write are
 * parameters: `load` gives a loader's outcome on the uploaded file,
 * `split` is `RecursiveCharacterTextSplitter.split_text`.
 */
module PdfProcessor {
  import opened Wrappers
  import opened PyStr
  import opened PyPath
  import opened Documents
  import opened JsonValues

  // ---------------------------------------------------------------------
  // Formats

  /** The keys of `supported_formats`, in order. */
  const SupportedExtensions: seq<string> := [".pdf", ".docx", ".txt", ".doc"]

  const UnsupportedError: string := "Unsupported file format. Supported: ['.pdf', '.docx', '.txt', '.doc']"
  const NoContentError: string := "Could not extract content from document"
  const EmptyError: string := "Document appears to be empty"
  const SaveError: string := "Could not save document file"

  /** `_get_file_extension`: the extension of the lower-cased name, with its dot. */
  function GetFileExtension(filename: string): (ext: string)
    ensures ext == [] || ext[0] == '.'
    ensures ext == Lower(Splitext(filename).1)
  {
    SplitextLower(filename);
    Splitext(Lower(filename)).1
  }

  predicate IsSupportedFormat(filename: string) {
    GetFileExtension(filename) in SupportedExtensions
  }

  /** The format check ignores case and looks only at the last extension. */
  lemma SupportedIffExtension(stem: string, ext: string)
    requires stem != [] && forall j | 0 <= j < |stem| :: stem[j] != '.' && stem[j] != '/'
    requires forall j | 0 <= j < |ext| :: ext[j] != '.' && ext[j] != '/'
    ensures IsSupportedFormat(stem + "." + ext) <==> "." + Lower(ext) in SupportedExtensions
  {
    StemAndExtension(stem, ext);
    assert Lower("." + ext) == "." + Lower(ext);
  }

  /** A name without a proper extension (no dot, or a leading dot only) is never supported. */
  lemma NoExtensionUnsupported(name: string)
    requires forall j | 0 <= j < |name| :: name[j] != '.' && name[j] != '/'
    ensures !IsSupportedFormat(name) && !IsSupportedFormat("." + name)
  {
    NoDotNoExtension(name);
    DotFileHasNoExtension(name);
  }

  // ---------------------------------------------------------------------
  // Loading

  /** A LangChain page: its content and its metadata. */
  datatype Page = Page(content: string, metadata: Metadata)

  datatype Loader = PyPdf | PdfPlumber | UnstructuredPdf | Docx2txt | TextUtf8

  /** A loader's outcome on the uploaded file. */
  datatype LoadResult = LoadRaised | Loaded(pages: seq<Page>)

  /** `documents and any(doc.page_content.strip() for doc in documents)` (see `StripEmptyIff`). */
  predicate Usable(pages: seq<Page>) {
    pages != [] && exists p | p in pages :: !IsBlank(p.content)
  }

  const PdfLoaders: seq<Loader> := [PyPdf, PdfPlumber, UnstructuredPdf]

  /** The pages of the first loader in `order` with a usable result; [] when none has one. */
  function FirstUsable(order: seq<Loader>, load: Loader -> LoadResult): (r: seq<Page>)
    ensures r == [] || Usable(r)
    ensures r != [] ==>
      exists k | 0 <= k < |order| ::
        (load(order[k]) == Loaded(r)
         && forall j | 0 <= j < k :: !(load(order[j]).Loaded? && Usable(load(order[j]).pages)))
    ensures r == [] <==> forall k | 0 <= k < |order| :: !(load(order[k]).Loaded? && Usable(load(order[k]).pages))
  {
    if order == [] then []
    else
      var outcome := load(order[0]);
      if outcome.Loaded? && Usable(outcome.pages) then outcome.pages
      else
        var rest := FirstUsable(order[1..], load);
        assert forall k | 1 <= k < |order| :: order[k] == order[1..][k - 1];
        rest
  }

  /** `_load_pdf_with_fallback`: pypdf, then pdfplumber, then unstructured; a raising loader is skipped. */
  function LoadPdfWithFallback(load: Loader -> LoadResult): seq<Page> {
    FirstUsable(PdfLoaders, load)
  }

  /** The pypdf result is taken whenever it is usable, and a later loader is reached only past every earlier one. */
  lemma PdfFallbackOrder(load: Loader -> LoadResult)
    ensures load(PyPdf).Loaded? && Usable(load(PyPdf).pages) ==> LoadPdfWithFallback(load) == load(PyPdf).pages
    ensures LoadPdfWithFallback(load) == [] <==>
      forall l | l in PdfLoaders :: !(load(l).Loaded? && Usable(load(l).pages))
  {
  }

  function LoaderResult(load: Loader -> LoadResult, l: Loader): seq<Page> {
    match load(l) case Loaded(pages) => pages case LoadRaised => []
  }

  /** `_load_document`: the loader chosen by the extension; a raising loader gives []. */
  function LoadDocument(filename: string, load: Loader -> LoadResult): (pages: seq<Page>)
    ensures GetFileExtension(filename) !in SupportedExtensions ==> pages == []
  {
    var ext := GetFileExtension(filename);
    if ext == ".pdf" then LoadPdfWithFallback(load)
    else if ext == ".docx" then LoaderResult(load, Docx2txt)
    else if ext == ".txt" then LoaderResult(load, TextUtf8)
    else if ext == ".doc" then LoaderResult(load, UnstructuredPdf)
    else []
  }

  // ---------------------------------------------------------------------
  // Saving

  const StoragePath: string := "/home/iauro/Documents/files"

  /** `category_folders.get(category, "Engineer")`. */
  function CategoryFolder(category: string): string {
    if category == "engineering" then "Engineer"
    else if category == "medical" then "Doctor"
    else if category == "legal" then "Lawyer"
    else "Engineer"
  }

  /** `f"{name}_{timestamp}{ext}"` with the original (not lower-cased) name and extension. */
  function UniqueFilename(filename: string, timestamp: int): (u: string)
    ensures u == Splitext(filename).0 + "_" + IntToString(timestamp) + Splitext(filename).1
  {
    var (name, ext) := Splitext(filename);
    name + "_" + IntToString(timestamp) + ext
  }

  /** The path `save_document_file` writes to. */
  function SavedPath(filename: string, category: string, timestamp: int): string {
    PathJoin(PathJoin(StoragePath, CategoryFolder(category)), UniqueFilename(filename, timestamp))
  }

  /** `save_document_file`: the path, or "" when the write fails (`writeOk` false). */
  function SaveDocumentFile(filename: string, category: string, timestamp: int, writeOk: bool): (path: string)
    ensures path == "" <==> !writeOk
  {
    if writeOk then
      var p := SavedPath(filename, category, timestamp);
      assert |p| > 0 by {
        var u := UniqueFilename(filename, timestamp);
        assert |u| > 0;
      }
      p
    else ""
  }

  /** The saved name keeps the original extension, case included, at its end. */
  lemma SavedPathKeepsExtension(filename: string, category: string, timestamp: int)
    ensures var p, ext := SavedPath(filename, category, timestamp), Splitext(filename).1;
      |p| >= |ext| && p[|p| - |ext|..] == ext
  {
  }

  lemma {:induction false} CancelAffixes(a: string, x: string, y: string, b: string)
    requires a + x + b == a + y + b
    ensures x == y
  {
    var s := a + x + b;
    assert |x| == |y|;
    assert x == s[|a|..|a| + |x|];
    assert y == (a + y + b)[|a|..|a| + |y|];
  }

  /** Two uploads of the same name and category in different seconds never overwrite each other. */
  lemma DistinctTimestampsDistinctPaths(filename: string, category: string, t1: int, t2: int)
    requires SavedPath(filename, category, t1) == SavedPath(filename, category, t2)
    ensures t1 == t2
  {
    var (name, ext) := Splitext(filename);
    var dir := PathJoin(StoragePath, CategoryFolder(category));
    var u1, u2 := UniqueFilename(filename, t1), UniqueFilename(filename, t2);
    assert u1 == (name + "_") + IntToString(t1) + ext;
    assert u2 == (name + "_") + IntToString(t2) + ext;
    assert u1 != [] && u2 != [] && u1[0] == u2[0] by {
      if name != [] {
        assert u1[0] == name[0] && u2[0] == name[0];
      } else {
        assert u1[0] == '_' && u2[0] == '_';
      }
    }
    if u1[0] == '/' {
      assert u1 == u2;
    } else {
      var p := SavedPath(filename, category, t1);
      assert u1 == p[|p| - |u1|..];
      assert |u1| == |u2|;
      assert u2 == p[|p| - |u2|..];
    }
    CancelAffixes(name + "_", IntToString(t1), IntToString(t2), ext);
    IntToStringInjective(t1, t2);
  }

  /** A client-supplied absolute name escapes the storage folder. */
  lemma AbsoluteNameEscapesStorage(rest: string, timestamp: int)
    ensures var f := "/" + rest;
      SavedPath(f, "engineering", timestamp) == UniqueFilename(f, timestamp)
  {
    var f := "/" + rest;
    var (name, ext) := Splitext(f);
    var u := UniqueFilename(f, timestamp);
    assert u[0] == name[0] == f[0];
  }

  // ---------------------------------------------------------------------
  // Categorisation

  datatype Categorization = Categorization(category: string, filename: string, textLength: nat, sampleText: string)

  predicate IsValidCategory(c: string) {
    c in ["engineering", "medical", "legal"]
  }

  /** The category read from the model's reply: a stripped, lower-cased valid value, else "engineering". */
  function CategoryOf(reply: Option<string>, parseJson: string -> Json): (c: string)
    ensures IsValidCategory(c)
  {
    if reply.None? then "engineering"
    else match parseJson(reply.value)
      case Object(fields) =>
        if "category" !in fields then "engineering"
        else (match fields["category"]
              case JString(s) => var v := Lower(Strip(s)); if IsValidCategory(v) then v else "engineering"
              case JOther => "engineering")
      case _ => "engineering"
  }

  /** A reply whose "category", stripped and lower-cased, is one of the three is kept as that value. */
  lemma ValidReplyIsKept(reply: string, parseJson: string -> Json, fields: map<string, JsonValue>, s: string)
    requires parseJson(reply) == Object(fields) && "category" in fields && fields["category"] == JString(s)
    requires IsValidCategory(Lower(Strip(s)))
    ensures CategoryOf(Some(reply), parseJson) == Lower(Strip(s))
  {
  }

  /** Any category other than the default comes from a reply object whose "category" normalises to it. */
  lemma NonDefaultComesFromReply(reply: Option<string>, parseJson: string -> Json)
    requires CategoryOf(reply, parseJson) != "engineering"
    ensures reply.Some? && parseJson(reply.value).Object?
    ensures var fields := parseJson(reply.value).fields;
      && "category" in fields && fields["category"].JString?
      && CategoryOf(reply, parseJson) == Lower(Strip(fields["category"].s))
  {
  }

  /**
   * `categorize_document_content(text, filename)`: the model sees the first
   * 2000 characters; `categorize(filename, sample)` is its reply, None when
   * the call raises.
   */
  function CategorizeDocumentContent(text: string, filename: string,
                                     categorize: (string, string) -> Option<string>,
                                     parseJson: string -> Json): (r: Categorization)
    ensures IsValidCategory(r.category)
    ensures r.category == CategoryOf(categorize(filename, Prefix(text, 2000)), parseJson)
    ensures r.filename == filename && r.textLength == |text|
    ensures |r.sampleText| == Min(200, |text|)
    ensures r.sampleText == text[..|r.sampleText|]
  {
    var sample := Prefix(text, 2000);
    Categorization(CategoryOf(categorize(filename, sample), parseJson), filename, |text|, Prefix(sample, 200))
  }

  /** The sample the model sees is the first 2000 characters; the reported sample is the first 200 on every path. */
  lemma SampleIsPrefix(text: string, filename: string, categorize: (string, string) -> Option<string>,
                       parseJson: string -> Json)
    ensures CategorizeDocumentContent(text, filename, categorize, parseJson).sampleText == Prefix(text, 200)
  {
  }

  // ---------------------------------------------------------------------
  // Chunks

  /** The chunk's metadata: the input metadata with the four numbering keys. */
  function PageChunkMetadata(metadata: Metadata, index: nat, page: Page, docIdx: nat, total: nat): Metadata {
    metadata["chunk_index" := Num(index)]["doc_page" := Num(docIdx)]["total_chunks" := Num(total)]
      ["page_number" := Get(page.metadata, "page").GetOr(Num(docIdx))]
  }

  /** The pieces of one page that are not blank. */
  function NonBlank(pieces: seq<string>): (r: seq<string>)
    ensures |r| <= |pieces|
    ensures forall k | 0 <= k < |r| :: !IsBlank(r[k]) && r[k] in pieces
  {
    if pieces == [] then []
    else
      var last := pieces[|pieces| - 1];
      NonBlank(pieces[..|pieces| - 1]) + (if !IsBlank(last) then [last] else [])
  }

  /** The chunks made from one page, kept pieces numbered from `start`; `total` counts every piece. */
  function PageChunks(metadata: Metadata, page: Page, docIdx: nat, pieces: seq<string>, start: nat, total: nat)
    : (r: seq<Doc>)
    ensures |r| == |NonBlank(pieces)|
    ensures forall k | 0 <= k < |r| :: r[k].metadata == PageChunkMetadata(metadata, start + k, page, docIdx, total)
    ensures forall k | 0 <= k < |r| :: !IsBlank(r[k].text)
    ensures forall k | 0 <= k < |r| :: r[k].text in pieces
  {
    if pieces == [] then []
    else
      var init := pieces[..|pieces| - 1];
      var prev := PageChunks(metadata, page, docIdx, init, start, total);
      var last := pieces[|pieces| - 1];
      assert forall x | x in init :: x in pieces;
      prev + (if IsBlank(last) then []
              else [Doc(last, PageChunkMetadata(metadata, start + |prev|, page, docIdx, total))])
  }

  /** What `create_document_chunks(pages, metadata)` returns. */
  function AllChunks(pages: seq<Page>, metadata: Metadata, split: string -> seq<string>): seq<Doc> {
    if pages == [] then []
    else
      var prev := AllChunks(pages[..|pages| - 1], metadata, split);
      var page := pages[|pages| - 1];
      var pieces := split(page.content);
      prev + (if IsBlank(page.content) then []
              else PageChunks(metadata, page, |pages| - 1, pieces, |prev|, |pieces|))
  }

  method CreateDocumentChunks(pages: seq<Page>, metadata: Metadata, split: string -> seq<string>)
    returns (allChunks: seq<Doc>)
    ensures allChunks == AllChunks(pages, metadata, split)
  {
    allChunks := [];
    var docIdx := 0;
    while docIdx < |pages|
      invariant 0 <= docIdx <= |pages|
      invariant allChunks == AllChunks(pages[..docIdx], metadata, split)
    {
      var page := pages[docIdx];
      assert pages[..docIdx + 1][..docIdx] == pages[..docIdx];
      StripEmptyIff(page.content);
      if Strip(page.content) != "" {
        var pieces := split(page.content);
        var added := SplitPage(metadata, page, docIdx, pieces, |allChunks|);
        allChunks := allChunks + added;
      }
      docIdx := docIdx + 1;
    }
    assert pages[..docIdx] == pages;
  }

  /** The inner loop of `create_document_chunks` over one page's pieces. */
  method SplitPage(metadata: Metadata, page: Page, docIdx: nat, pieces: seq<string>, start: nat)
    returns (added: seq<Doc>)
    ensures added == PageChunks(metadata, page, docIdx, pieces, start, |pieces|)
  {
    added := [];
    var chunkIdx := 0;
    while chunkIdx < |pieces|
      invariant 0 <= chunkIdx <= |pieces|
      invariant added == PageChunks(metadata, page, docIdx, pieces[..chunkIdx], start, |pieces|)
    {
      var piece := pieces[chunkIdx];
      ghost var next := PageChunks(metadata, page, docIdx, pieces[..chunkIdx + 1], start, |pieces|);
      assert pieces[..chunkIdx + 1][..chunkIdx] == pieces[..chunkIdx];
      assert next == added + (if IsBlank(piece) then []
                              else [Doc(piece, PageChunkMetadata(metadata, start + |added|, page, docIdx, |pieces|))]);
      StripEmptyIff(piece);
      if Strip(piece) != "" {
        added := added + [Doc(piece, PageChunkMetadata(metadata, start + |added|, page, docIdx, |pieces|))];
      }
      chunkIdx := chunkIdx + 1;
    }
    assert pieces[..chunkIdx] == pieces;
  }

  /** The numbering keys and the copied metadata of one chunk. */
  lemma PageChunkMetadataKeys(metadata: Metadata, index: nat, page: Page, docIdx: nat, total: nat)
    ensures var m := PageChunkMetadata(metadata, index, page, docIdx, total);
      && m.Keys == metadata.Keys + {"chunk_index", "doc_page", "total_chunks", "page_number"}
      && m["chunk_index"] == Num(index) && m["doc_page"] == Num(docIdx) && m["total_chunks"] == Num(total)
      && m["page_number"] == (if "page" in page.metadata then page.metadata["page"] else Num(docIdx))
      && forall key | key in metadata && key !in NumberingKeys :: m[key] == metadata[key]
  {
  }

  /** Chunk j of a page numbered from `start` carries `chunk_index` start + j. */
  lemma PageChunksIndex(metadata: Metadata, page: Page, docIdx: nat, pieces: seq<string>, start: nat, total: nat,
                        j: nat)
    requires j < |PageChunks(metadata, page, docIdx, pieces, start, total)|
    ensures var c := PageChunks(metadata, page, docIdx, pieces, start, total)[j];
      "chunk_index" in c.metadata && c.metadata["chunk_index"] == Num(start + j)
  {
    PageChunkMetadataKeys(metadata, start + j, page, docIdx, total);
  }

  const NumberingKeys: set<string> := {"chunk_index", "doc_page", "total_chunks", "page_number"}

  lemma UploadKeysAreNotNumbering()
    ensures "source" !in NumberingKeys && "category" !in NumberingKeys && "file_path" !in NumberingKeys
    ensures "type" !in NumberingKeys
  {
  }

  /** Chunk k carries `chunk_index` k. */
  predicate NumberedByPosition(r: seq<Doc>) {
    forall k | 0 <= k < |r| :: "chunk_index" in r[k].metadata && r[k].metadata["chunk_index"] == Num(k)
  }

  predicate NoBlankChunk(r: seq<Doc>) {
    forall k | 0 <= k < |r| :: !IsBlank(r[k].text)
  }

  /** Each chunk's `doc_page` is the index of a non-blank page. */
  predicate FromNonBlankPages(r: seq<Doc>, pages: seq<Page>) {
    forall k | 0 <= k < |r| :: "doc_page" in r[k].metadata && r[k].metadata["doc_page"].Num?
      && 0 <= r[k].metadata["doc_page"].n < |pages| && !IsBlank(pages[r[k].metadata["doc_page"].n].content)
  }

  /** Every key of `metadata` other than the numbering keys is copied into each chunk. */
  predicate KeepsMetadata(r: seq<Doc>, metadata: Metadata) {
    forall k, key | 0 <= k < |r| && key in metadata && key !in NumberingKeys ::
      key in r[k].metadata && r[k].metadata[key] == metadata[key]
  }

  /** The chunks of the last page follow those of the earlier pages. */
  lemma AllChunksSnoc(pages: seq<Page>, metadata: Metadata, split: string -> seq<string>)
    requires pages != []
    ensures var init, page := pages[..|pages| - 1], pages[|pages| - 1];
      var prev, r := AllChunks(init, metadata, split), AllChunks(pages, metadata, split);
      && |prev| <= |r| && r[..|prev|] == prev
      && (IsBlank(page.content) ==> r == prev)
      && (!IsBlank(page.content) ==>
            r[|prev|..] == PageChunks(metadata, page, |pages| - 1, split(page.content), |prev|, |split(page.content)|))
  {
  }

  lemma {:induction false} ChunkIndexIsPosition(pages: seq<Page>, metadata: Metadata, split: string -> seq<string>)
    ensures NumberedByPosition(AllChunks(pages, metadata, split))
  {
    if pages != [] {
      var init := pages[..|pages| - 1];
      ChunkIndexIsPosition(init, metadata, split);
      AllChunksSnoc(pages, metadata, split);
      var prev, r := AllChunks(init, metadata, split), AllChunks(pages, metadata, split);
      forall k | 0 <= k < |r|
        ensures "chunk_index" in r[k].metadata && r[k].metadata["chunk_index"] == Num(k)
      {
        if k < |prev| {
          assert r[k] == prev[k];
        } else {
          LastPageChunkIndex(pages, metadata, split, k);
        }
      }
    }
  }

  /** A chunk of the last page is numbered by its position among all chunks. */
  lemma LastPageChunkIndex(pages: seq<Page>, metadata: Metadata, split: string -> seq<string>, k: nat)
    requires pages != []
    requires |AllChunks(pages[..|pages| - 1], metadata, split)| <= k < |AllChunks(pages, metadata, split)|
    ensures var c := AllChunks(pages, metadata, split)[k];
      "chunk_index" in c.metadata && c.metadata["chunk_index"] == Num(k)
  {
    var page := pages[|pages| - 1];
    var prev := AllChunks(pages[..|pages| - 1], metadata, split);
    var pieces := split(page.content);
    var added := PageChunks(metadata, page, |pages| - 1, pieces, |prev|, |pieces|);
    assert |AllChunks(pages, metadata, split)| > |prev|;
    assert !IsBlank(page.content);
    assert AllChunks(pages, metadata, split) == prev + added;
    PageChunksIndex(metadata, page, |pages| - 1, pieces, |prev|, |pieces|, k - |prev|);
  }

  lemma {:induction false} ChunksNotBlank(pages: seq<Page>, metadata: Metadata, split: string -> seq<string>)
    ensures NoBlankChunk(AllChunks(pages, metadata, split))
  {
    if pages != [] {
      var init, page := pages[..|pages| - 1], pages[|pages| - 1];
      ChunksNotBlank(init, metadata, split);
      AllChunksSnoc(pages, metadata, split);
      var prev, r := AllChunks(init, metadata, split), AllChunks(pages, metadata, split);
      forall k | 0 <= k < |r|
        ensures !IsBlank(r[k].text)
      {
        if k < |prev| {
          assert r[k] == prev[k];
        } else {
          assert r[k] == r[|prev|..][k - |prev|];
        }
      }
    }
  }

  lemma {:induction false} ChunkPageIsNonBlank(pages: seq<Page>, metadata: Metadata, split: string -> seq<string>)
    ensures FromNonBlankPages(AllChunks(pages, metadata, split), pages)
  {
    if pages != [] {
      var init, page := pages[..|pages| - 1], pages[|pages| - 1];
      ChunkPageIsNonBlank(init, metadata, split);
      AllChunksSnoc(pages, metadata, split);
      var prev, r := AllChunks(init, metadata, split), AllChunks(pages, metadata, split);
      forall k | 0 <= k < |r|
        ensures "doc_page" in r[k].metadata && r[k].metadata["doc_page"].Num?
          && 0 <= r[k].metadata["doc_page"].n < |pages| && !IsBlank(pages[r[k].metadata["doc_page"].n].content)
      {
        if k < |prev| {
          assert r[k] == prev[k];
          var d := prev[k].metadata["doc_page"].n;
          assert pages[d] == init[d];
        } else {
          var pieces := split(page.content);
          assert r[k] == r[|prev|..][k - |prev|];
          PageChunkMetadataKeys(metadata, k, page, |pages| - 1, |pieces|);
        }
      }
    }
  }

  lemma {:induction false} ChunksKeepMetadata(pages: seq<Page>, metadata: Metadata, split: string -> seq<string>)
    ensures KeepsMetadata(AllChunks(pages, metadata, split), metadata)
  {
    if pages != [] {
      var init, page := pages[..|pages| - 1], pages[|pages| - 1];
      ChunksKeepMetadata(init, metadata, split);
      AllChunksSnoc(pages, metadata, split);
      var prev, r := AllChunks(init, metadata, split), AllChunks(pages, metadata, split);
      forall k, key | 0 <= k < |r| && key in metadata && key !in NumberingKeys
        ensures key in r[k].metadata && r[k].metadata[key] == metadata[key]
      {
        if k < |prev| {
          assert r[k] == prev[k];
        } else {
          var pieces := split(page.content);
          assert r[k] == r[|prev|..][k - |prev|];
          PageChunkMetadataKeys(metadata, k, page, |pages| - 1, |pieces|);
        }
      }
    }
  }

  /** A blank page yields no chunk, so a document of blank pages yields none. */
  lemma BlankPagesNoChunks(pages: seq<Page>, metadata: Metadata, split: string -> seq<string>)
    requires forall k | 0 <= k < |pages| :: IsBlank(pages[k].content)
    ensures AllChunks(pages, metadata, split) == []
  {
    ChunkPageIsNonBlank(pages, metadata, split);
  }

  // ---------------------------------------------------------------------
  // The pipeline

  datatype ProcessResult =
    | Failure(error: string)
    | Success(category: string, filename: string, filePath: string, textLength: nat, numChunks: nat,
              numPages: nat, documents: seq<Doc>, sampleText: string)

  /** The contents of the non-blank pages, in order. */
  function NonBlankContents(pages: seq<Page>): (r: seq<string>)
    ensures |r| <= |pages|
    ensures r == [] <==> forall k | 0 <= k < |pages| :: IsBlank(pages[k].content)
  {
    if pages == [] then []
    else
      var init := NonBlankContents(pages[..|pages| - 1]);
      var last := pages[|pages| - 1];
      assert forall k | 0 <= k < |pages| - 1 :: pages[k] == pages[..|pages| - 1][k];
      init + (if IsBlank(last.content) then [] else [last.content])
  }

  lemma {:induction false} NonBlankContentsNotBlank(pages: seq<Page>)
    ensures forall k | 0 <= k < |NonBlankContents(pages)| :: !IsBlank(NonBlankContents(pages)[k])
  {
    if pages != [] {
      NonBlankContentsNotBlank(pages[..|pages| - 1]);
    }
  }

  /** `"\n".join(...)` of the non-blank pages. */
  function FullText(pages: seq<Page>): (t: string)
    ensures IsBlank(t) <==> forall k | 0 <= k < |pages| :: IsBlank(pages[k].content)
  {
    var parts := NonBlankContents(pages);
    if parts == [] then ""
    else
      NonBlankContentsNotBlank(pages);
      JoinNotBlank("\n", parts, 0);
      Join("\n", parts)
  }

  /** The metadata every chunk of an upload starts from. */
  function UploadMetadata(filename: string, category: string, savedPath: string): Metadata {
    map["source" := Str(filename), "category" := Str(category),
        "type" := Str(Suffix(GetFileExtension(filename), 1)), "file_path" := Str(savedPath)]
  }

  /** What `process_document` depends on besides the file name: loaders, model, splitter, clock and disk. */
  datatype Services = Services(load: Loader -> LoadResult, categorize: (string, string) -> Option<string>,
                               parseJson: string -> Json, split: string -> seq<string>,
                               timestamp: int, writeOk: bool)

  /** `process_document(file_content, filename)`. */
  function ProcessDocument(filename: string, env: Services): ProcessResult {
    if !IsSupportedFormat(filename) then Failure(UnsupportedError)
    else ProcessPages(filename, LoadDocument(filename, env.load), env)
  }

  /** `process_document` once the pages are loaded; `IsBlank` is `not s.strip()` (see `StripEmptyIff`). */
  function ProcessPages(filename: string, pages: seq<Page>, env: Services): ProcessResult {
    if pages == [] then Failure(NoContentError)
    else if IsBlank(FullText(pages)) then Failure(EmptyError)
    else StoreDocument(filename, pages, env)
  }

  /** The tail of `process_document`: categorise, save, chunk. */
  function StoreDocument(filename: string, pages: seq<Page>, env: Services): ProcessResult {
    var fullText := FullText(pages);
    var c := CategorizeDocumentContent(fullText, filename, env.categorize, env.parseJson);
    var saved := SaveDocumentFile(filename, c.category, env.timestamp, env.writeOk);
    if saved == [] then Failure(SaveError)
    else
      var chunks := AllChunks(pages, UploadMetadata(filename, c.category, saved), env.split);
      Success(c.category, filename, saved, |fullText|, |chunks|, |pages|, chunks, c.sampleText)
  }

  /** The format check comes first. */
  lemma UnsupportedFirst(filename: string, env: Services)
    ensures ProcessDocument(filename, env) == Failure(UnsupportedError) <==> !IsSupportedFormat(filename)
  {
  }

  /** A supported file the loaders read nothing from. */
  lemma NoContentWhenNothingLoaded(filename: string, env: Services)
    ensures ProcessDocument(filename, env) == Failure(NoContentError)
            <==> IsSupportedFormat(filename) && LoadDocument(filename, env.load) == []
  {
  }

  /** Pages were loaded but every one of them is blank. */
  lemma EmptyWhenAllPagesBlank(filename: string, env: Services)
    ensures var pages := LoadDocument(filename, env.load);
      ProcessDocument(filename, env) == Failure(EmptyError)
      <==> IsSupportedFormat(filename) && pages != [] && forall k | 0 <= k < |pages| :: IsBlank(pages[k].content)
  {
    var pages := LoadDocument(filename, env.load);
    if IsSupportedFormat(filename) && pages != [] && !IsBlank(FullText(pages)) {
      assert StoreDocument(filename, pages, env) != Failure(EmptyError);
    }
  }

  /** The file write is the last thing that can fail; success follows from text and a working write. */
  lemma SaveOrSucceed(filename: string, env: Services)
    requires IsSupportedFormat(filename)
    requires exists k | 0 <= k < |LoadDocument(filename, env.load)| :: !IsBlank(LoadDocument(filename, env.load)[k].content)
    ensures var r := ProcessDocument(filename, env);
      (r == Failure(SaveError) <==> !env.writeOk) && (r.Success? <==> env.writeOk)
  {
    var pages := LoadDocument(filename, env.load);
    assert !IsBlank(FullText(pages));
  }

  /** What a successful upload reports. */
  lemma ProcessDocumentSuccess(filename: string, env: Services)
    requires ProcessDocument(filename, env).Success?
    ensures var r, pages := ProcessDocument(filename, env), LoadDocument(filename, env.load);
      && IsValidCategory(r.category)
      && r.filePath == SavedPath(filename, r.category, env.timestamp)
      && r.numPages == |pages| && r.numChunks == |r.documents|
      && r.textLength == |FullText(pages)| && r.sampleText == Prefix(FullText(pages), 200)
  {
    var pages := LoadDocument(filename, env.load);
    var r := ProcessDocument(filename, env);
    assert r == StoreDocument(filename, pages, env);
    var c := CategorizeDocumentContent(FullText(pages), filename, env.categorize, env.parseJson);
    assert r.category == c.category && r.sampleText == c.sampleText;
  }

  /** Each chunk carries the upload's source, category and saved path, and its own position. */
  predicate CarriesUpload(docs: seq<Doc>, filename: string, category: string, filePath: string) {
    forall k | 0 <= k < |docs| ::
      && "source" in docs[k].metadata && docs[k].metadata["source"] == Str(filename)
      && "category" in docs[k].metadata && docs[k].metadata["category"] == Str(category)
      && "file_path" in docs[k].metadata && docs[k].metadata["file_path"] == Str(filePath)
      && "chunk_index" in docs[k].metadata && docs[k].metadata["chunk_index"] == Num(k)
  }

  lemma ChunksCarryUpload(pages: seq<Page>, m: Metadata, split: string -> seq<string>,
                          filename: string, category: string, filePath: string)
    requires "source" in m && m["source"] == Str(filename) && "source" !in NumberingKeys
    requires "category" in m && m["category"] == Str(category) && "category" !in NumberingKeys
    requires "file_path" in m && m["file_path"] == Str(filePath) && "file_path" !in NumberingKeys
    ensures CarriesUpload(AllChunks(pages, m, split), filename, category, filePath)
  {
    ChunksKeepMetadata(pages, m, split);
    ChunkIndexIsPosition(pages, m, split);
  }

  lemma UploadMetadataFields(filename: string, category: string, filePath: string)
    ensures var m := UploadMetadata(filename, category, filePath);
      && "source" in m && m["source"] == Str(filename)
      && "category" in m && m["category"] == Str(category)
      && "file_path" in m && m["file_path"] == Str(filePath)
  {
    UploadFieldsDistinct(Str(filename), Str(category), Str(Suffix(GetFileExtension(filename), 1)), Str(filePath));
  }

  /** The four keys of an upload's metadata are distinct, so each keeps its own value. */
  lemma UploadFieldsDistinct(source: MetaValue, category: MetaValue, fileType: MetaValue, path: MetaValue)
    ensures var m := map["source" := source, "category" := category, "type" := fileType, "file_path" := path];
      && "source" in m && m["source"] == source
      && "category" in m && m["category"] == category
      && "file_path" in m && m["file_path"] == path
  {
    // The four keys differ in length.
    assert |"source"| == 6 && |"category"| == 8 && |"type"| == 4 && |"file_path"| == 9;
  }

  /** Each stored chunk of a successful upload carries its source, category, saved path and position. */
  lemma ProcessedChunksMetadata(filename: string, env: Services)
    requires ProcessDocument(filename, env).Success?
    ensures CarriesUpload(ProcessDocument(filename, env).documents, filename,
                          ProcessDocument(filename, env).category, ProcessDocument(filename, env).filePath)
  {
    var r := ProcessDocument(filename, env);
    var pages := LoadDocument(filename, env.load);
    assert r == ProcessPages(filename, pages, env) == StoreDocument(filename, pages, env);
    assert r.documents == AllChunks(pages, UploadMetadata(filename, r.category, r.filePath), env.split);
    UploadMetadataFields(filename, r.category, r.filePath);
    UploadKeysAreNotNumbering();
    ChunksCarryUpload(pages, UploadMetadata(filename, r.category, r.filePath), env.split,
                      filename, r.category, r.filePath);
  }

  /** The PDF fallback only accepts a result with text, so a PDF is never reported empty. */
  lemma PdfNeverEmpty(filename: string, env: Services)
    requires GetFileExtension(filename) == ".pdf"
    ensures ProcessDocument(filename, env) != Failure(EmptyError)
  {
    EmptyWhenAllPagesBlank(filename, env);
    var pages := LoadDocument(filename, env.load);
    if pages != [] {
      var p :| p in pages && !IsBlank(p.content);
    }
  }
}
