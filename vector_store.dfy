/**
 * The knowledge store of the multi-agent assistant (`VectorStoreManager`):
 * an in-memory list of document chunks, the persisted per-source metadata
 * file, category- and user-specific vector collections, and the search
 * that falls back to the local lexical search.
 *
 * The vector database and the embedding model are an oracle: the answer of
 * `collection_exists` + `search` for a collection, a query and a limit.
 */
module VectorStore {
  import opened Wrappers
  import opened PyStr
  import opened Documents
  import opened LexicalSearch

  // ---------------------------------------------------------------------
  // Fixed-size overlapping chunks (`_create_document_chunks`)

  const ChunkSize: nat := 1000
  const ChunkOverlap: nat := 200
  /** `chunk_size - overlap`. */
  const ChunkStep: nat := 800

  /** `text[i:i + chunk_size]`. */
  function Window(text: string, i: nat): string {
    Slice(text, i, i + ChunkSize)
  }

  lemma WindowIsInfix(text: string, i: nat)
    requires i < |text|
    ensures Window(text, i) == text[i..Min(i + ChunkSize, |text|)]
  {
  }

  /** The window starts `range(i, len(text), 800)` whose window is not blank. */
  function KeptStarts(text: string, i: nat): seq<nat>
    decreases |text| - i
  {
    if i >= |text| then []
    else (if !IsBlank(Window(text, i)) then [i] else []) + KeptStarts(text, i + ChunkStep)
  }

  /** The chunk's metadata: a copy of the document's, with its index and the estimated total. */
  function ChunkMetadata(m: Metadata, k: nat, textLength: nat): Metadata {
    m["chunk_index" := Num(k)]["total_chunks" := Num(textLength / ChunkStep + 1)]
  }

  /** The chunks `_create_document_chunks(text, metadata)` returns. */
  function DocumentChunks(text: string, metadata: Metadata): (r: seq<Doc>)
    ensures |r| == |KeptStarts(text, 0)|
  {
    var starts := KeptStarts(text, 0);
    seq(|starts|, k requires 0 <= k < |starts| =>
      Doc(Window(text, starts[k]), ChunkMetadata(metadata, k, |text|)))
  }

  method CreateDocumentChunks(text: string, metadata: Metadata) returns (chunks: seq<Doc>)
    ensures chunks == DocumentChunks(text, metadata)
  {
    chunks := [];
    var i: nat := 0;
    ghost var done: seq<nat> := [];
    while i < |text|
      invariant KeptStarts(text, 0) == done + KeptStarts(text, i)
      invariant ChunksAt(text, metadata, chunks, done)
      decreases |text| - i
    {
      var chunkText := Window(text, i);
      KeepStep(text, i, done);
      // `chunk_text.strip()` is non-empty exactly when the window is not blank (StripEmptyIff).
      if !IsBlank(chunkText) {
        ChunksAtSnoc(text, metadata, chunks, done, i);
        chunks := chunks + [Doc(chunkText, ChunkMetadata(metadata, |chunks|, |text|))];
        done := done + [i];
      } else {
        assert done + [] == done;
      }
      i := i + ChunkStep;
    }
    DocumentChunksFromStarts(text, metadata, chunks, done);
  }

  /** `chunks[k]` is the chunk for the `k`-th of `starts`. */
  predicate ChunksAt(text: string, metadata: Metadata, chunks: seq<Doc>, starts: seq<nat>) {
    && |chunks| == |starts|
    && forall k | 0 <= k < |starts| :: chunks[k] == Doc(Window(text, starts[k]), ChunkMetadata(metadata, k, |text|))
  }

  /** One step of `KeptStarts`, after the starts already kept. */
  lemma KeepStep(text: string, i: nat, done: seq<nat>)
    requires i < |text|
    ensures done + KeptStarts(text, i)
         == (done + (if !IsBlank(Window(text, i)) then [i] else [])) + KeptStarts(text, i + ChunkStep)
  {
    var head := if !IsBlank(Window(text, i)) then [i] else [];
    assert KeptStarts(text, i) == head + KeptStarts(text, i + ChunkStep);
    StartsRegroup(done, head, KeptStarts(text, i + ChunkStep));
  }

  lemma StartsRegroup(a: seq<nat>, b: seq<nat>, c: seq<nat>)
    ensures a + (b + c) == (a + b) + c
  {
  }

  lemma ChunksAtSnoc(text: string, metadata: Metadata, chunks: seq<Doc>, starts: seq<nat>, i: nat)
    requires ChunksAt(text, metadata, chunks, starts)
    ensures ChunksAt(text, metadata, chunks + [Doc(Window(text, i), ChunkMetadata(metadata, |chunks|, |text|))], starts + [i])
  {
  }

  lemma DocumentChunksFromStarts(text: string, metadata: Metadata, chunks: seq<Doc>, starts: seq<nat>)
    requires starts == KeptStarts(text, 0) && ChunksAt(text, metadata, chunks, starts)
    ensures chunks == DocumentChunks(text, metadata)
  {
    assert forall k | 0 <= k < |chunks| :: chunks[k] == DocumentChunks(text, metadata)[k];
  }

  /** Every kept start lies in the text, at or after the first candidate. */
  lemma {:induction false} KeptStartsInText(text: string, i: nat)
    ensures forall s | s in KeptStarts(text, i) :: i <= s < |text| && !IsBlank(Window(text, s))
    decreases |text| - i
  {
    if i < |text| {
      KeptStartsInText(text, i + ChunkStep);
    }
  }

  /** Every chunk starts at a multiple of 800. */
  lemma {:induction false} KeptStartsAligned(text: string, i: nat)
    requires i % ChunkStep == 0
    ensures forall s | s in KeptStarts(text, i) :: s % ChunkStep == 0
    decreases |text| - i
  {
    if i < |text| {
      KeptStartsAligned(text, i + ChunkStep);
    }
  }

  /** The starts are strictly increasing. */
  lemma {:induction false} KeptStartsIncreasing(text: string, i: nat)
    ensures forall j, k | 0 <= j < k < |KeptStarts(text, i)| :: KeptStarts(text, i)[j] < KeptStarts(text, i)[k]
    decreases |text| - i
  {
    if i < |text| {
      KeptStartsIncreasing(text, i + ChunkStep);
      KeptStartsInText(text, i + ChunkStep);
      var rest := KeptStarts(text, i + ChunkStep);
      if !IsBlank(Window(text, i)) {
        var starts := KeptStarts(text, i);
        assert starts == [i] + rest;
        forall j, k | 0 <= j < k < |starts| ensures starts[j] < starts[k] {
          assert starts[k] == rest[k - 1] && starts[k] in rest;
          if j > 0 {
            assert starts[j] == rest[j - 1];
          }
        }
      }
    }
  }

  /** Every non-blank window at a step position is kept. */
  lemma {:induction false} KeptStartsComplete(text: string, i: nat, s: nat)
    requires i <= s < |text| && (s - i) % ChunkStep == 0 && !IsBlank(Window(text, s))
    ensures s in KeptStarts(text, i)
    decreases |text| - i
  {
    if s != i {
      KeptStartsComplete(text, i + ChunkStep, s);
    }
  }

  lemma {:induction false} KeptStartsCount(text: string, i: nat)
    requires i <= |text|
    ensures |KeptStarts(text, i)| * ChunkStep <= |text| - i + ChunkStep - 1
    decreases |text| - i
  {
    if i < |text| {
      if i + ChunkStep <= |text| {
        KeptStartsCount(text, i + ChunkStep);
      } else {
        assert KeptStarts(text, i + ChunkStep) == [];
      }
    }
  }

  /** The last step position at or before `p`. */
  lemma AlignedStart(p: nat) returns (s: nat)
    ensures s % ChunkStep == 0 && s <= p < s + ChunkStep
  {
    s := p / ChunkStep * ChunkStep;
  }

  /** The chunks cover every non-whitespace character of the text. */
  lemma ChunksCoverText(text: string, metadata: Metadata, p: nat)
    requires p < |text| && !IsSpace(text[p])
    ensures var starts := KeptStarts(text, 0);
      exists k | 0 <= k < |starts| ::
        starts[k] <= p < starts[k] + |DocumentChunks(text, metadata)[k].text|
        && DocumentChunks(text, metadata)[k].text[p - starts[k]] == text[p]
  {
    var s := AlignedStart(p);
    var w := Window(text, s);
    WindowIsInfix(text, s);
    assert w[p - s] == text[p];
    assert !IsBlank(w);
    KeptStartsComplete(text, 0, s);
    var starts := KeptStarts(text, 0);
    var k :| 0 <= k < |starts| && starts[k] == s;
    assert DocumentChunks(text, metadata)[k].text == w;
  }

  /** `c` carries every field of `m` except the two chunk counters. */
  predicate CopiesFields(c: Doc, m: Metadata) {
    forall key | key in m && key != "chunk_index" && key != "total_chunks" ::
      key in c.metadata && c.metadata[key] == m[key]
  }

  /** Each chunk is a non-blank window of at most 1000 characters; its metadata keeps every other key. */
  lemma ChunkShape(text: string, metadata: Metadata, k: nat)
    requires k < |DocumentChunks(text, metadata)|
    ensures 0 < |DocumentChunks(text, metadata)[k].text| <= ChunkSize
    ensures !IsBlank(DocumentChunks(text, metadata)[k].text)
    ensures DocumentChunks(text, metadata)[k].metadata["chunk_index"] == Num(k)
    ensures CopiesFields(DocumentChunks(text, metadata)[k], metadata)
  {
    KeptStartsInText(text, 0);
    var s := KeptStarts(text, 0)[k];
    assert s in KeptStarts(text, 0);
    WindowIsInfix(text, s);
  }

  /** `total_chunks` bounds the number of chunks but overstates it, e.g. for an 800-character text. */
  lemma TotalChunksBound(text: string, metadata: Metadata)
    ensures |DocumentChunks(text, metadata)| <= |text| / ChunkStep + 1
    ensures |text| == ChunkStep ==> |DocumentChunks(text, metadata)| < |text| / ChunkStep + 1
  {
    KeptStartsCount(text, 0);
  }

  // ---------------------------------------------------------------------
  // Persisted metadata (`_save_metadata`)

  /** One entry of `documents_metadata.json`. */
  datatype SourceRecord = SourceRecord(filename: MetaValue, metadata: Metadata, filePath: MetaValue)

  /** The key chunks are grouped by: `metadata.get('source', 'unknown')`. */
  function SourceOf(d: Doc): MetaValue {
    Get(d.metadata, "source").GetOr(Str("unknown"))
  }

  function RecordOf(d: Doc): (r: SourceRecord)
    ensures r.filename == SourceOf(d)
    ensures r.metadata.Keys == {"source", "category", "type", "file_path"}
    ensures forall key | key in r.metadata :: r.metadata[key] == GetOrNull(d.metadata, key)
  {
    var m := d.metadata;
    SourceRecord(
      SourceOf(d),
      map["source" := GetOrNull(m, "source"), "category" := GetOrNull(m, "category"),
          "type" := GetOrNull(m, "type"), "file_path" := GetOrNull(m, "file_path")],
      Get(m, "file_path").GetOr(Str("")))
  }

  function Sources(ds: seq<Doc>): (r: seq<MetaValue>)
    ensures |r| == |ds|
  {
    seq(|ds|, k requires 0 <= k < |ds| => SourceOf(ds[k]))
  }

  /** The first chunk of every source, in order of first appearance (the dictionary `unique_docs`). */
  function FirstPerSource(docs: seq<Doc>): seq<Doc> {
    if docs == [] then []
    else
      var prev := FirstPerSource(docs[..|docs| - 1]);
      var d := docs[|docs| - 1];
      if SourceOf(d) in Sources(prev) then prev else prev + [d]
  }

  function RecordsOf(ds: seq<Doc>): (r: seq<SourceRecord>)
    ensures |r| == |ds|
  {
    seq(|ds|, k requires 0 <= k < |ds| => RecordOf(ds[k]))
  }

  /** Adding one chunk adds its record and its source at the end. */
  lemma SnocRecordsAndSources(ds: seq<Doc>, d: Doc)
    ensures RecordsOf(ds + [d]) == RecordsOf(ds) + [RecordOf(d)]
    ensures Sources(ds + [d]) == Sources(ds) + [SourceOf(d)]
  {
    assert forall k | 0 <= k < |ds| :: (ds + [d])[k] == ds[k];
  }

  predicate DistinctSources(ds: seq<Doc>) {
    forall j, k | 0 <= j < k < |ds| :: SourceOf(ds[j]) != SourceOf(ds[k])
  }

  predicate CoversSources(docs: seq<Doc>, firsts: seq<Doc>) {
    forall d | d in docs :: SourceOf(d) in Sources(firsts)
  }

  /** `docs[i]` is the first element of `docs` with its source. */
  predicate FirstOfSource(docs: seq<Doc>, i: int) {
    0 <= i < |docs| && forall h | 0 <= h < i :: SourceOf(docs[h]) != SourceOf(docs[i])
  }

  /** `x` is the first element of `docs` with its source. */
  predicate IsFirstOfSource(docs: seq<Doc>, x: Doc) {
    exists i | 0 <= i < |docs| && FirstOfSource(docs, i) :: docs[i] == x
  }

  predicate TakenFirst(docs: seq<Doc>, firsts: seq<Doc>) {
    forall k | 0 <= k < |firsts| :: IsFirstOfSource(docs, firsts[k])
  }

  /**
   * One record per source: the sources are distinct, every source of the
   * store is there, and each record is taken from the first chunk of its
   * source.
   */
  lemma FirstPerSourceSpec(docs: seq<Doc>)
    ensures DistinctSources(FirstPerSource(docs))
    ensures CoversSources(docs, FirstPerSource(docs))
    ensures TakenFirst(docs, FirstPerSource(docs))
  {
    FirstPerSourceDistinct(docs);
    FirstPerSourceCovers(docs);
    FirstPerSourceTakenFirst(docs);
  }

  lemma {:induction false} FirstPerSourceDistinct(docs: seq<Doc>)
    ensures DistinctSources(FirstPerSource(docs))
  {
    if docs != [] {
      var init := docs[..|docs| - 1];
      var d := docs[|docs| - 1];
      var prev := FirstPerSource(init);
      FirstPerSourceDistinct(init);
      if SourceOf(d) !in Sources(prev) {
        var firsts := prev + [d];
        forall j, k | 0 <= j < k < |firsts| ensures SourceOf(firsts[j]) != SourceOf(firsts[k]) {
          if k == |prev| {
            assert Sources(prev)[j] == SourceOf(prev[j]);
          }
        }
      }
    }
  }

  lemma {:induction false} FirstPerSourceCovers(docs: seq<Doc>)
    ensures CoversSources(docs, FirstPerSource(docs))
  {
    if docs != [] {
      var init := docs[..|docs| - 1];
      var d := docs[|docs| - 1];
      var prev := FirstPerSource(init);
      FirstPerSourceCovers(init);
      assert docs == init + [d];
      var firsts := FirstPerSource(docs);
      forall e | e in docs ensures SourceOf(e) in Sources(firsts) {
        if e in init {
          var k :| 0 <= k < |prev| && Sources(prev)[k] == SourceOf(e);
          assert Sources(firsts)[k] == SourceOf(e);
        } else if SourceOf(d) !in Sources(prev) {
          assert Sources(firsts)[|prev|] == SourceOf(d);
        }
      }
    }
  }

  lemma {:induction false} FirstPerSourceTakenFirst(docs: seq<Doc>)
    ensures TakenFirst(docs, FirstPerSource(docs))
  {
    if docs != [] {
      var init := docs[..|docs| - 1];
      var d := docs[|docs| - 1];
      var prev := FirstPerSource(init);
      FirstPerSourceTakenFirst(init);
      var firsts := FirstPerSource(docs);
      forall k | 0 <= k < |firsts| ensures IsFirstOfSource(docs, firsts[k]) {
        if k < |prev| {
          assert IsFirstOfSource(init, prev[k]);
          var i :| 0 <= i < |init| && FirstOfSource(init, i) && init[i] == prev[k];
          assert docs[i] == init[i];
          assert forall h | 0 <= h < i :: docs[h] == init[h];
          assert FirstOfSource(docs, i) && docs[i] == firsts[k];
        } else {
          assert firsts[k] == d && SourceOf(d) !in Sources(prev);
          FirstPerSourceCovers(init);
          forall h | 0 <= h < |docs| - 1 ensures SourceOf(docs[h]) != SourceOf(d) {
            assert docs[h] == init[h] && init[h] in init;
          }
          assert FirstOfSource(docs, |docs| - 1) && docs[|docs| - 1] == firsts[k];
        }
      }
    }
  }

  // ---------------------------------------------------------------------
  // Reloading at start-up (`_load_existing_documents`)

  /** What reading a stored record's file gives at start-up. */
  datatype FileRead =
    | Missing               // `os.path.exists` is false: the record is skipped
    | Unreadable            // the file exists but opening or reading it raises
    | Contents(text: string) // the text extracted from it ("" when extraction fails)

  /**
   * The chunks rebuilt from the stored records: each record whose file
   * yields a non-empty text is re-chunked with the record's metadata.
   */
  function Reloaded(stored: seq<SourceRecord>, fileText: MetaValue -> FileRead): seq<Doc> {
    if stored == [] then []
    else Reloaded(stored[..|stored| - 1], fileText) + RecordChunks(stored[|stored| - 1], fileText)
  }

  /**
   * How many records the reload reads: the whole loop sits in one `try`, so
   * the first record whose file cannot be read ends it.
   */
  function ReadableRun(stored: seq<SourceRecord>, fileText: MetaValue -> FileRead): (n: nat)
    ensures n <= |stored|
    ensures forall k | 0 <= k < n :: !fileText(stored[k].filePath).Unreadable?
    ensures n < |stored| ==> fileText(stored[n].filePath).Unreadable?
  {
    if stored == [] || fileText(stored[0].filePath).Unreadable? then 0
    else 1 + ReadableRun(stored[1..], fileText)
  }

  /** The chunks rebuilt from one record. */
  function RecordChunks(r: SourceRecord, fileText: MetaValue -> FileRead): seq<Doc> {
    match fileText(r.filePath)
    case Contents(t) => if t != "" then DocumentChunks(t, r.metadata) else []
    case _ => []
  }

  /** Every chunk rebuilt from a record copies the record's fields. */
  lemma RecordChunksCopyFields(r: SourceRecord, fileText: MetaValue -> FileRead, c: Doc)
    requires c in RecordChunks(r, fileText)
    ensures CopiesFields(c, r.metadata)
  {
    ChunkCopiesFields(fileText(r.filePath).text, r.metadata, c);
  }

  lemma ChunkCopiesFields(text: string, metadata: Metadata, c: Doc)
    requires c in DocumentChunks(text, metadata)
    ensures CopiesFields(c, metadata)
  {
    var chunks := DocumentChunks(text, metadata);
    var k :| 0 <= k < |chunks| && chunks[k] == c;
    ChunkShape(text, metadata, k);
  }

  /** Chunks rebuilt from a record keep the record's fields (source, category, type, path). */
  lemma {:induction false} ReloadedKeepsRecordFields(stored: seq<SourceRecord>, fileText: MetaValue -> FileRead, c: Doc)
    requires c in Reloaded(stored, fileText)
    ensures exists r | r in stored :: CopiesFields(c, r.metadata)
  {
    var init := stored[..|stored| - 1];
    var r := stored[|stored| - 1];
    assert stored == init + [r];
    if c in Reloaded(init, fileText) {
      ReloadedKeepsRecordFields(init, fileText, c);
      var r0 :| r0 in init && CopiesFields(c, r0.metadata);
      assert r0 in stored;
    } else {
      RecordChunksCopyFields(r, fileText, c);
    }
  }

  /**
   * Persistence round trip: reloading what was saved yields only chunks
   * whose source and category are those of some chunk of the saved store.
   */
  lemma SavedThenReloadedKeepsFields(docs: seq<Doc>, fileText: MetaValue -> FileRead, c: Doc)
    requires c in Reloaded(RecordsOf(FirstPerSource(docs)), fileText)
    ensures exists d | d in docs ::
      && "source" in c.metadata && c.metadata["source"] == GetOrNull(d.metadata, "source")
      && "category" in c.metadata && c.metadata["category"] == GetOrNull(d.metadata, "category")
  {
    var records := RecordsOf(FirstPerSource(docs));
    ReloadedKeepsRecordFields(records, fileText, c);
    var r :| r in records && CopiesFields(c, r.metadata);
    var k :| 0 <= k < |records| && records[k] == r;
    var firsts := FirstPerSource(docs);
    FirstPerSourceSpec(docs);
    assert IsFirstOfSource(docs, firsts[k]);
    var i :| 0 <= i < |docs| && FirstOfSource(docs, i) && docs[i] == firsts[k];
    assert r == RecordOf(docs[i]);
    assert "source" in r.metadata && "category" in r.metadata;
  }

  // ---------------------------------------------------------------------
  // Collections and category mapping

  /** `self.collections.get(category, "engineer_knowledge")`. */
  function CollectionBase(category: string): string {
    if category == "engineering" then "engineer_knowledge"
    else if category == "medical" then "doctor_knowledge"
    else if category == "legal" then "lawyer_knowledge"
    else "engineer_knowledge"
  }

  predicate IsKnownCategory(category: string) {
    category == "engineering" || category == "medical" || category == "legal"
  }

  /** `_get_user_collection_name(user_id, category)`. */
  function CollectionName(userId: string, category: string): string {
    "user_" + userId + "_" + CollectionBase(category)
  }

  /** Users and known categories never share a collection. */
  lemma CollectionNamesSeparate(u1: string, c1: string, u2: string, c2: string)
    requires IsKnownCategory(c1) && IsKnownCategory(c2)
    requires CollectionName(u1, c1) == CollectionName(u2, c2)
    ensures u1 == u2 && c1 == c2
  {
    BaseTail(c1);
    BaseTail(c2);
    TailChar("user_" + u1 + "_", CollectionBase(c1), 16);
    TailChar("user_" + u2 + "_", CollectionBase(c2), 16);
    assert c1 == c2;
    SameMiddle("user_", u1, u2, "_", CollectionBase(c1));
  }

  /** The `k`-th character from the end of `x + b` lies in `b` when `b` is long enough. */
  lemma TailChar(x: string, b: string, k: nat)
    requires 0 < k <= |b|
    ensures (x + b)[|x + b| - k] == b[|b| - k]
  {
  }

  /** Two strings with the same prefix and the same suffix have the same middle when they are equal. */
  lemma SameMiddle(p: string, x: string, y: string, q: string, t: string)
    requires p + x + q + t == p + y + q + t
    ensures x == y
  {
    var n := p + x + q + t;
    assert |x| == |y|;
    assert x == n[|p|..|p| + |x|];
    assert y == (p + y + q + t)[|p|..|p| + |y|];
  }

  /** The sixteenth character from the end of a known collection's name tells the category. */
  lemma BaseTail(c: string)
    requires IsKnownCategory(c)
    ensures var b := CollectionBase(c);
      && |b| >= 16
      && (b[|b| - 16] == 'g' <==> c == "engineering")
      && (b[|b| - 16] == 'd' <==> c == "medical")
  {
  }

  /** An unknown category shares the engineering collection. */
  lemma UnknownCategoryUsesEngineering(u: string, c: string)
    requires !IsKnownCategory(c)
    ensures CollectionName(u, c) == CollectionName(u, "engineering")
  {
  }

  /** The category `search_knowledge` searches for an agent type (None or "" is engineering). */
  function CategoryForAgent(agentType: Option<string>): (c: string)
    ensures IsKnownCategory(c)
    ensures agentType == Some("doctor") || agentType == Some("medical") <==> c == "medical"
    ensures agentType == Some("lawyer") || agentType == Some("legal") <==> c == "legal"
  {
    if agentType.None? || agentType.value == "" then "engineering"
    else match agentType.value
      case "engineer" => "engineering"
      case "doctor" => "medical"
      case "lawyer" => "legal"
      case "engineering" => "engineering"
      case "medical" => "medical"
      case "legal" => "legal"
      case _ => "engineering"
  }

  // ---------------------------------------------------------------------
  // The store

  /** What the vector database answers to `collection_exists` followed by `search`. */
  datatype VectorAnswer =
    | SearchFailed          // an exception from the client or the embedding model
    | NoCollection          // `collection_exists` is false
    | Hits(texts: seq<string>)

  /** `{"category": c, "source_type": "pdf", "user_id": u}` merged into each chunk. */
  function Tag(d: Doc, category: string, userId: string): (r: Doc)
    ensures r.text == d.text
    ensures Get(r.metadata, "category") == Some(Str(category))
    ensures Get(r.metadata, "source_type") == Some(Str("pdf"))
    ensures Get(r.metadata, "user_id") == Some(Str(userId))
    ensures forall key | key in d.metadata && key !in {"category", "source_type", "user_id"} ::
      key in r.metadata && r.metadata[key] == d.metadata[key]
  {
    Doc(d.text, d.metadata["category" := Str(category)]["source_type" := Str("pdf")]["user_id" := Str(userId)])
  }

  /** Every chunk tagged, in order. */
  function TagAll(ds: seq<Doc>, category: string, userId: string): (r: seq<Doc>)
    ensures |r| == |ds|
    ensures forall k | 0 <= k < |ds| :: r[k] == Tag(ds[k], category, userId)
  {
    seq(|ds|, k requires 0 <= k < |ds| => Tag(ds[k], category, userId))
  }

  /** What the local search returns when the store holds no chunk at all. */
  lemma LocalSearchOfEmptyStore(query: string, category: Option<string>, topK: int)
    ensures LocalSearchResult([], query, category, topK) == NoDocumentsMessage
  {
  }

  /** Newly added chunks are candidates of a local search in their category, whatever the user. */
  lemma AddedChunksSearchable(ds: seq<Doc>, category: string, userId: string, d: Doc)
    requires d in TagAll(ds, category, userId)
    ensures InCategory(d, Some(category)) && InCategory(d, None)
  {
    var k :| 0 <= k < |ds| && TagAll(ds, category, userId)[k] == d;
  }

  /** With a positive `top_k` the local search never answers with an empty string. */
  lemma LocalSearchNonEmpty(docs: seq<Doc>, query: string, category: Option<string>, topK: int)
    requires topK >= 1
    ensures LocalSearchResult(docs, query, category, topK) != ""
  {
    var rel := Relevant(docs, category, query);
    if docs != [] && rel != [] {
      var top := Top(docs, category, query, topK);
      assert |top| >= 1;
      RenderedStartsWithFrom(top);
    }
  }

  /** What a search of the store reads: the local chunks and the vector database's state. */
  datatype SearchView = SearchView(localDocuments: seq<Doc>, useQdrant: bool, hasEmbedder: bool,
                                   vectorSearch: (string, string, int) -> VectorAnswer)

  /** What `search_pdf_knowledge(query, category, user_id, top_k)` returns on a store in state `v`. */
  function SearchResult(v: SearchView, query: string, category: Option<string>, userId: string, topK: int): string
  {
    var local := LocalSearchResult(v.localDocuments, query, category, topK);
    if v.useQdrant && v.hasEmbedder && category.Some? && category.value != "" then
      match v.vectorSearch(CollectionName(userId, category.value), query, topK)
      case Hits(texts) => if texts != [] then Join(" ", texts) else local
      case _ => local
    else local
  }

  /** The reload loop of `_load_existing_documents`, which the first unreadable file ends. */
  method ReloadRecords(records: seq<SourceRecord>, fileText: MetaValue -> FileRead) returns (docs: seq<Doc>)
    ensures docs == Reloaded(records[..ReadableRun(records, fileText)], fileText)
  {
    docs := [];
    var j := 0;
    while j < |records|
      invariant 0 <= j <= ReadableRun(records, fileText)
      invariant docs == Reloaded(records[..j], fileText)
    {
      var r := records[j];
      var text := fileText(r.filePath);
      if text.Unreadable? {
        assert j == ReadableRun(records, fileText);
        return;
      }
      if text.Contents? && text.text != "" {
        var chunks := CreateDocumentChunks(text.text, r.metadata);
        docs := docs + chunks;
      }
      assert records[..j + 1][..j] == records[..j];
      j := j + 1;
    }
  }

  class KnowledgeStore {
    /** `local_documents`. */
    var localDocuments: seq<Doc>
    /** The contents of `documents_metadata.json`. */
    var savedMetadata: seq<SourceRecord>
    /** The database connection succeeded at start-up. */
    const useQdrant: bool
    /** The embedding model loaded at start-up. */
    const hasEmbedder: bool
    const vectorSearch: (string, string, int) -> VectorAnswer

    /**
     * Start-up: connect (given) and reload the chunks of the stored records,
     * up to the first one whose file cannot be read. `stored` is None when the
     * metadata file is missing or unreadable.
     */
    constructor (useQdrant: bool, hasEmbedder: bool, vectorSearch: (string, string, int) -> VectorAnswer,
                 stored: Option<seq<SourceRecord>>, fileText: MetaValue -> FileRead)
      ensures this.useQdrant == useQdrant && this.hasEmbedder == hasEmbedder
      ensures this.vectorSearch == vectorSearch
      ensures localDocuments == if stored.Some? then Reloaded(stored.value[..ReadableRun(stored.value, fileText)], fileText) else []
      ensures savedMetadata == stored.GetOr([])
    {
      var docs: seq<Doc> := [];
      if stored.Some? {
        docs := ReloadRecords(stored.value, fileText);
      }
      this.useQdrant := useQdrant;
      this.hasEmbedder := hasEmbedder;
      this.vectorSearch := vectorSearch;
      localDocuments := docs;
      savedMetadata := stored.GetOr([]);
    }

    /** `_save_metadata`; `writable` is false when writing the file fails (the old contents stay). */
    method SaveMetadata(writable: bool)
      modifies this`savedMetadata
      ensures savedMetadata == if writable then RecordsOf(FirstPerSource(localDocuments)) else old(savedMetadata)
    {
      // `unique_docs`: its keys are `seen`, its values `records`, built from the first chunk of each source.
      var docs := localDocuments;
      var records: seq<SourceRecord> := [];
      var seen: set<MetaValue> := {};
      ghost var firsts: seq<Doc> := [];
      var i := 0;
      while i < |docs|
        invariant 0 <= i <= |docs|
        invariant firsts == FirstPerSource(docs[..i])
        invariant records == RecordsOf(firsts)
        invariant forall v :: v in seen <==> v in Sources(firsts)
        invariant unchanged(this)
      {
        var source := SourceOf(docs[i]);
        assert docs[..i + 1][..i] == docs[..i];
        if source !in seen {
          SnocRecordsAndSources(firsts, docs[i]);
          records := records + [RecordOf(docs[i])];
          firsts := firsts + [docs[i]];
          seen := seen + {source};
        } else {
          ghost var k :| 0 <= k < |firsts| && Sources(firsts)[k] == source;
        }
        i := i + 1;
      }
      assert docs[..i] == docs;
      if writable {
        savedMetadata := records;
      }
    }

    /**
     * `add_pdf_documents`: tag the chunks, append them to the local store and
     * persist the metadata. The upload to the vector database changes none of
     * the modelled state, and every path answers True.
     */
    method AddPdfDocuments(documents: seq<Doc>, category: string, userId: string, metadataWritable: bool)
      returns (ok: bool)
      modifies this`localDocuments, this`savedMetadata
      ensures ok
      ensures localDocuments == old(localDocuments) + TagAll(documents, category, userId)
      ensures savedMetadata ==
        if metadataWritable then RecordsOf(FirstPerSource(localDocuments)) else old(savedMetadata)
    {
      var tagged: seq<Doc> := [];
      var i := 0;
      while i < |documents|
        invariant 0 <= i <= |documents|
        invariant tagged == TagAll(documents[..i], category, userId)
      {
        tagged := tagged + [Tag(documents[i], category, userId)];
        i := i + 1;
      }
      assert documents[..i] == documents;
      localDocuments := localDocuments + tagged;
      SaveMetadata(metadataWritable);
      ok := true;
    }

    /** The store's current state, as a search reads it. */
    function View(): SearchView
      reads this
    {
      SearchView(localDocuments, useQdrant, hasEmbedder, vectorSearch)
    }

    /** What `search_pdf_knowledge(query, category, user_id, top_k)` returns now. */
    function SearchPdfResult(query: string, category: Option<string>, userId: string, topK: int): string
      reads this
    {
      SearchResult(View(), query, category, userId, topK)
    }

    /**
     * The vector answer is used only when the database and the embedder are
     * both up, a category is given and the search found something; in every
     * other case the answer is the local search's.
     */
    lemma SearchFallsBack(query: string, category: Option<string>, userId: string, topK: int)
      ensures var r := SearchPdfResult(query, category, userId, topK);
        (exists texts | texts != [] && useQdrant && hasEmbedder && category.Some? && category.value != ""
           && vectorSearch(CollectionName(userId, category.value), query, topK) == Hits(texts)
           :: r == Join(" ", texts))
        || r == LocalSearchResult(localDocuments, query, category, topK)
    {
      if useQdrant && hasEmbedder && category.Some? && category.value != "" {
        var answer := vectorSearch(CollectionName(userId, category.value), query, topK);
        if answer.Hits? && answer.texts != [] {
          assert SearchPdfResult(query, category, userId, topK) == Join(" ", answer.texts);
        }
      }
    }

    method SearchPdfKnowledge(query: string, category: Option<string>, userId: string, topK: int)
      returns (r: string)
      ensures r == SearchPdfResult(query, category, userId, topK)
    {
      if useQdrant && hasEmbedder && category.Some? && category.value != "" {
        var answer := vectorSearch(CollectionName(userId, category.value), query, topK);
        if answer.Hits? && answer.texts != [] {
          return Join(" ", answer.texts);
        }
      }
      r := LocalSearch(query, category, topK);
    }

    /** `search_knowledge(query, agent_type, top_k)`: the default user's collection of the mapped category. */
    method SearchKnowledge(query: string, agentType: Option<string>, topK: int) returns (r: string)
      ensures r == SearchPdfResult(query, Some(CategoryForAgent(agentType)), "default", topK)
    {
      r := SearchPdfKnowledge(query, Some(CategoryForAgent(agentType)), "default", topK);
    }

    /** `_local_search(query, category, top_k)`. */
    method LocalSearch(query: string, category: Option<string>, topK: int) returns (r: string)
      ensures r == LocalSearchResult(localDocuments, query, category, topK)
    {
      var docs := localDocuments;
      if |docs| == 0 {
        return NoDocumentsMessage;
      }
      var relevant := ScoreChunks(docs, category, query);
      if relevant == [] {
        relevant := LenientScan(docs, category, query);
      }
      if relevant == [] {
        return NoContentMessage(category);
      }
      var top := Prefix(SortByScore(relevant), topK);
      var text := RenderBlocks(top);
      r := Strip(text);
    }
  }

  /** The first pass of `_local_search`: score every chunk of the category and keep the relevant ones. */
  method ScoreChunks(docs: seq<Doc>, category: Option<string>, query: string) returns (relevant: seq<Scored>)
    ensures relevant == FirstPass(docs, category, QueryWords(query))
  {
    // The source recomputes the query words for every chunk; they do not depend on it.
    var words := QueryWords(query);
    relevant := [];
    var i := 0;
    while i < |docs|
      invariant 0 <= i <= |docs|
      invariant relevant == FirstPass(docs[..i], category, words)
    {
      FirstPassStep(docs, i, category, words);
      var kept := ScoreChunk(docs[i], category, words);
      relevant := relevant + kept;
      i := i + 1;
    }
    assert docs[..i] == docs;
  }

  /** The body of the first pass for one chunk: its scored entry when it is kept. */
  method ScoreChunk(doc: Doc, category: Option<string>, words: seq<string>) returns (kept: seq<Scored>)
    ensures kept == FirstPassEntry(doc, category, words)
  {
    kept := [];
    if InCategory(doc, category) {
      var textLower := Lower(doc.text);
      var matches, partials := CountMatches(words, textLower);
      var total := 10 * matches + 5 * partials;
      if (|words| > 0 && total >= |words|) || matches >= 1 {
        kept := [Scored(doc, total)];
      }
    }
  }

  /** The lenient second pass of `_local_search`. */
  method LenientScan(docs: seq<Doc>, category: Option<string>, query: string) returns (relevant: seq<Scored>)
    ensures relevant == LenientPass(docs, category, Split(Lower(query)))
  {
    // The source recomputes the query words for every chunk; they do not depend on it.
    var words := Split(Lower(query));
    relevant := [];
    var i := 0;
    while i < |docs|
      invariant 0 <= i <= |docs|
      invariant relevant == LenientPass(docs[..i], category, words)
    {
      LenientPassStep(docs, i, category, words);
      var doc := docs[i];
      if InCategory(doc, category) && AnyLongWordIn(words, Lower(doc.text)) {
        relevant := relevant + [Scored(doc, 1)];
      }
      i := i + 1;
    }
    assert docs[..i] == docs;
  }

  /** `result_text += f"From {source_name}: {text_preview}\n\n"` over the top chunks. */
  method RenderBlocks(top: seq<Scored>) returns (text: string)
    ensures text == Blocks(top)
  {
    text := "";
    var j := 0;
    while j < |top|
      invariant 0 <= j <= |top|
      invariant text == Rendered(top[..j], Block)
    {
      assert top[..j + 1][..j] == top[..j];
      text := text + Block(top[j]);
      j := j + 1;
    }
    assert top[..j] == top;
  }

  /** The exact and partial match counts of `_local_search`'s inner loop. */
  method CountMatches(words: seq<string>, textLower: string) returns (matches: nat, partials: nat)
    ensures matches == MatchCount(words, textLower) && partials == PartialCount(words, textLower)
  {
    matches, partials := 0, 0;
    var j := 0;
    while j < |words|
      invariant 0 <= j <= |words|
      invariant matches == MatchCount(words[..j], textLower)
      invariant partials == PartialCount(words[..j], textLower)
    {
      var word := words[j];
      assert words[..j + 1][..j] == words[..j];
      if Contains(textLower, word) {
        matches := matches + 1;
      } else {
        var found := FindPartial(word, Split(textLower));
        if found {
          partials := partials + 1;
        }
      }
      j := j + 1;
    }
    assert words[..j] == words;
  }

  /** The scan over the chunk's tokens that stops at the first partial match. */
  method FindPartial(word: string, tokens: seq<string>) returns (found: bool)
    ensures found == HasPartial(word, tokens)
  {
    found := false;
    var k := 0;
    while k < |tokens|
      invariant 0 <= k <= |tokens|
      invariant forall h | 0 <= h < k :: !PartialOverlap(word, tokens[h])
    {
      if (Contains(tokens[k], word) || Contains(word, tokens[k])) && |word| > 2 && |tokens[k]| > 2 {
        found := true;
        assert tokens[k] in tokens;
        return;
      }
      k := k + 1;
    }
  }
}
