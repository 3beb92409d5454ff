# A verified model of the multi-agent assistant and its companion tools

This project is a Dafny model of the deterministic core of a collection of
small Python applications. The model captures the string and list logic that
decides what each application answers. Every language model, vector
database, document loader, clock and file system the applications call is a
parameter of the model. Each such parameter is an arbitrary function, so
every property proved holds whatever those services return.

The centre is the **domain-routed question-answering chat server**. It is
modelled in these files:

- `guardrails.dfy`: the three-tier input safety filter (harmful keywords,
  harmful-intent patterns, a profanity count) and the per-agent disclaimer.
- `agents.dfy`: the classifier's answer is mapped to exactly one of
  engineer/engineering, doctor/medical and lawyer/legal. Each specialist
  answers only when the knowledge store returned real content, and otherwise
  gives a fixed refusal. The graph runs classifier, then one specialist,
  then the end.
- `vector_store.dfy` and `lexical_search.dfy`: the knowledge store.
  - Fixed-window chunking.
  - Tagging and appending uploaded chunks, keeping earlier ones.
  - The one-record-per-source metadata file and the chunks reloaded from it.
  - Per-user collection names.
  - The fallback from vector search to the local lexical search, with its
    scoring, threshold, lenient second pass, stable sort, top-k and
    500-character previews.
- `pdf_processor.dfy`: document ingestion.
  - The extension whitelist.
  - The ordered PDF loader fallback.
  - Category validation.
  - Unique storage names.
  - Chunk numbering across pages.
  - The ordered failure checks of `process_document`.
- `chat_server.dfy`: `process_message` and the upload endpoint. Also the
  websocket loop, which skips blank messages and stops at an unreadable
  frame.

The smaller tools are modelled alongside:

- `rag_utils.dfy` and `rag_cli.dfy`: the PDF question-answering command line
  tool. It covers the overlapping chunker, the filter on the nearest-neighbour
  index's answer, the answer prompt, the chunk file's join and split, the
  match preview and the command dispatch.
- `research_client.dfy` and `research_utils.dfy`: the research assistant.
  - Threads, their message history and the session's thread list (update or
    append).
  - The research and follow-up prompts.
  - Truncation, word counts and reading time.
  - The key-point heuristic.
  - The plain-text export.
- `sms.dfy`: the student management system, whose ids stay distinct, and its
  input checks.
- `file_parse.dfy`: the file parser's counts, keyword search and line
  extraction.
- `calculator.dfy`: the console calculator, with Python's floor division and
  modulus, and its read-evaluate-continue loop.
- `schedule.dfy`: the calendar notification text.

`py_str.dfy` and `py_path.dfy` define the Python built-ins the model is
written in, each once:

- `strip`, `split()`, `lower` and `upper`;
- `x in s`, `find`, `join` and `split(sep)`;
- slicing with Python's bounds;
- `str(int)` and `int(str)`;
- `os.path.splitext` and `os.path.join`.

`ranking.dfy` defines `list.sort(key=..., reverse=True)` once, as a stable
sort by descending key. Both the knowledge store's search and the key-point
extractor rank with it.

`wrappers.dfy`, `documents.dfy` and `json_values.dfy` hold the shared
`Option`, the chunk record and what `json.loads` returns.

Objects whose fields the source updates in place are classes:

- the knowledge store;
- the research thread and the session;
- the student registry;
- the file parser.

Loops in the source are methods with loop invariants. Each method is proved
equal to a specification function, and the lemmas state what the source
promises about that function.

Where the code and a reader's expectation differ, the model follows the code:

- The chunker in the PDF tool uses 700/140 characters, so windows advance
  by 560.
- An "exact" lexical match is a substring test on the whole chunk.
- The local search ignores the user id.
- `total_chunks` in the knowledge store is an estimate that can exceed the
  real count.
- The response filter's apology only appears for an empty answer from an
  unknown agent.
- The chunk file round trip needs more than "no chunk contains the
  separator". A chunk that ends in a newline and the marker is glued to the
  following separator, as `RagCli.MarkerAtChunkEndBreaksRoundTrip` shows.
  The round trip is proved for chunks that do not contain the marker itself.

## Model

| member | source | states |
|---|---|---|
| Guardrails.CountPresent | module-8/guardrails.py:54-55 | the count never exceeds the number of listed words |
| Guardrails.CheckInputSafety | module-8/guardrails.py:32-67 | a safe verdict carries the input unchanged; an unsafe one carries one of the three fixed tier messages |
| Guardrails.CheckInputSafetyTiers | module-8/guardrails.py:35-63 | keyword message iff some keyword is a substring of the lower-cased input; pattern message iff no keyword but some pattern; profanity message iff neither and more than 2 listed words; safe iff none of these |
| Guardrails.SafetyIgnoresCase | module-8/guardrails.py:35 | lower-casing the input first does not change whether it is safe |
| Guardrails.SkillIsRejected | module-8/guardrails.py:9-43 | "skill" is refused with the harmful-activities message, because it contains "kill" |
| Guardrails.HowToPattern | module-8/guardrails.py:9-25 | the first pattern matches only text that holds a keyword or "how to break into" |
| Guardrails.MakePattern | module-8/guardrails.py:9-26 | every match of the second pattern holds a keyword |
| Guardrails.CrackPattern | module-8/guardrails.py:20-29 | every match of the fifth pattern holds a keyword |
| Guardrails.PatternTierOnlyThreePhrases | module-8/guardrails.py:24-51 | when the pattern tier fires, the input holds "how to break into", "illegal ways to" or "bypass security" |
| Guardrails.CountPresentIsDistinct | module-8/guardrails.py:55 | over a list of distinct words the count is the size of the set of words present, so a repeat counts once |
| Guardrails.ProfanityNeedsThreeDistinctWords | module-8/guardrails.py:54-57 | the profanity count is the number of distinct listed words in the input |
| Guardrails.Disclaimer | module-8/guardrails.py:71-77 | non-empty for "doctor", "lawyer" and "engineer", empty for every other agent type |
| Guardrails.AddDisclaimers | module-8/guardrails.py:69-78 | the response comes first; it is unchanged for an unknown agent type and strictly longer for a known one |
| Guardrails.FilterResponse | module-8/guardrails.py:80-89 | never empty; the apology exactly for an empty response to an unknown agent type, otherwise response plus disclaimer |
| Agents.RouteFor | module-8/agents.py:52-63 | the doctor iff no engineering word and some medical word occurs; the lawyer iff no engineering or medical word and some legal word occurs; otherwise the engineer |
| Agents.ClassificationSelectsOnePair | module-8/agents.py:45-66 | every classifier reply selects engineer/engineering, doctor/medical or lawyer/legal |
| Agents.UnreadableClassificationIsEngineering | module-8/agents.py:45-54 | a reply that is not an object with a string "category" routes to the engineer |
| Agents.ClassificationIgnoresCase | module-8/agents.py:48 | two categories that agree after lower-casing route alike |
| Agents.SentinelsAreStoreMessages | module-8/agents.py:83-87 | the three sentinel strings are exactly the knowledge store's no-content answers |
| Agents.AnswerOf | module-8/agents.py:126-131 | a parsed object with a string "response" gives that string; a reply that is not an object with "response" gives the raw completion |
| Agents.NoContentNoGeneration | module-8/agents.py:77-99 | without a store or without usable content the reply is the fixed refusal, whatever the model would answer |
| Agents.GroundedAnswer | module-8/agents.py:100-131 | with usable content the reply fails iff the one grounded completion call fails, and is otherwise read from that completion |
| Agents.LocalSentinelsAreNotContent | module-8/agents.py:83-89 | the store's empty-store and no-hit answers never count as content |
| Agents.SentinelInsideChunkSilences | module-8/agents.py:88 | any text holding "No PDF documents uploaded yet." is not content, even inside a found chunk |
| Agents.GraphShape | module-8/agents.py:273-302 | from the classifier the chosen agent is the only successor, each agent goes to END, END has no successor, and nothing leads back to the classifier |
| Agents.AgentState.constructor | module-8/agents.py:306-313 | the initial state holds the query and the store and empty fields |
| Agents.ProcessOutcomeShape | module-8/agents.py:319-324 | the result echoes the query and names one of the three agent/field pairs |
| Agents.NoStoreRefuses | module-8/agents.py:79-99 | without a store the reply is the selected specialist's refusal |
| Agents.MultiAgentSystem.ClassifyQuery | module-8/agents.py:21-68 | writes the agent and field that RouteFor gives for the parsed classification; fails, changing nothing, iff the model call fails |
| Agents.MultiAgentSystem.RunSpecialist | module-8/agents.py:70-134 | the node's reply is the specialist outcome for its own category's search; a failing model call leaves the reply untouched |
| Agents.MultiAgentSystem.ProcessQuery | module-8/agents.py:304-324 | returns what ProcessOutcome gives for the query and the store's state |
| LexicalSearch.SignificantWords | module-8/vector_store.py:333-334 | every kept word is a query word that is not a stop word and is longer than one character, and every such query word is kept |
| LexicalSearch.SignificantWordsSingle | module-8/vector_store.py:333-334 | a single word is kept once exactly when it is significant, and otherwise dropped |
| LexicalSearch.SignificantWordsConcat | module-8/vector_store.py:333-334 | the filter distributes over concatenation, so the kept words keep query order and repetitions, which fix `n` in the score threshold |
| LexicalSearch.MatchCount | module-8/vector_store.py:343-345 | at most one full match per query word |
| LexicalSearch.PartialCount | module-8/vector_store.py:346-352 | at most one half point per query word |
| LexicalSearch.CountsBounded | module-8/vector_store.py:343-352 | a word earns either a full match or a half point, never both |
| LexicalSearch.ScoreBounds | module-8/vector_store.py:354 | the score moves in half points and is at most one point per query word |
| LexicalSearch.FirstPassMembers | module-8/vector_store.py:325-359 | an entry is in the first pass iff its chunk is in the store and in the category, passes the 10%-or-one-match test, and carries its score |
| LexicalSearch.LenientPassMembers | module-8/vector_store.py:361-371 | an entry is in the lenient pass iff its chunk is in the store and in the category, holds a query word longer than two characters, and scores 0.1 |
| Ranking.InsertPermutes | module-8/vector_store.py:378 | inserting adds exactly the new entry and loses none |
| Ranking.SortPermutes | module-8/vector_store.py:378 | the sort is a permutation of its input |
| Ranking.InsertBounded | module-8/vector_store.py:378 | inserting an entry under a key bound keeps every key under it |
| Ranking.InsertDescends | module-8/vector_store.py:378 | inserting into a list of non-increasing keys keeps the keys non-increasing |
| Ranking.SortDescends | module-8/vector_store.py:378 | the sorted list has non-increasing keys |
| Ranking.InsertStable | module-8/vector_store.py:378 | inserting keeps, for every key value, the order of the entries with that key |
| Ranking.SortStable | module-8/vector_store.py:378 | entries with equal keys keep their input order (Python's sort is stable) |
| Ranking.SortUniformIdentity | module-8/vector_store.py:378 | a list whose keys are all equal comes out unchanged |
| LexicalSearch.SortByScoreSpec | module-8/vector_store.py:378 | the ranking is a permutation of the relevant chunks with non-increasing scores, and chunks of equal score keep their store order |
| LexicalSearch.TopFromCategory | module-8/vector_store.py:326-379 | every ranked chunk comes from the store and from the requested category |
| LexicalSearch.TopBoundedAndOrdered | module-8/vector_store.py:378-379 | at most `top_k` chunks, in non-increasing score order |
| LexicalSearch.ExactMatchIsKept | module-8/vector_store.py:343-358 | a chunk of the category that holds a query word is always kept by the first pass |
| LexicalSearch.MatchCountPositive | module-8/vector_store.py:343-345 | one word found gives at least one match |
| LexicalSearch.LenientPassScoresOne | module-8/vector_store.py:371 | every lenient entry scores 0.1 |
| LexicalSearch.LenientRankingKeepsStoreOrder | module-8/vector_store.py:361-378 | when the first pass is empty, the ranking is the lenient pass in store order |
| LexicalSearch.RenderedStartsWithFrom | module-8/vector_store.py:382-389 | a non-empty ranking renders, after stripping, to text starting with "From " |
| LexicalSearch.BlocksStartWithFirst | module-8/vector_store.py:383-387 | the rendering begins with the block of the best chunk |
| VectorStore.WindowIsInfix | module-8/vector_store.py:118 | a window is the slice of the text from its start, at most 1000 characters long |
| VectorStore.CreateDocumentChunks | module-8/vector_store.py:110-130 | the loop returns exactly DocumentChunks: one chunk per kept start, numbered by position |
| VectorStore.KeptStartsInText | module-8/vector_store.py:117-119 | every kept start lies in the text and its window is not blank |
| VectorStore.KeptStartsAligned | module-8/vector_store.py:117 | every chunk starts at a multiple of 800 |
| VectorStore.KeptStartsIncreasing | module-8/vector_store.py:117 | the starts are strictly increasing |
| VectorStore.KeptStartsComplete | module-8/vector_store.py:117-119 | every non-blank window at a step position is kept |
| VectorStore.KeptStartsCount | module-8/vector_store.py:117 | at most one chunk per 800 characters, rounded up |
| VectorStore.ChunksCoverText | module-8/vector_store.py:117-119 | every non-whitespace character of the text lies in some chunk, at its own offset |
| VectorStore.ChunkShape | module-8/vector_store.py:118-124 | each chunk is a non-blank window of 1 to 1000 characters; its `chunk_index` is its position; every other metadata key is copied |
| VectorStore.TotalChunksBound | module-8/vector_store.py:123 | `total_chunks` is at least the real count, and overstates it for an 800-character text |
| VectorStore.RecordOf | module-8/vector_store.py:139-150 | the record's filename is the chunk's source, and its metadata holds exactly source, category, type and file_path, null when missing |
| VectorStore.SnocRecordsAndSources | module-8/vector_store.py:138 | one more chunk adds its record and its source at the end |
| VectorStore.FirstPerSourceSpec | module-8/vector_store.py:137-150 | one record per distinct source, every source covered, each taken from its source's first chunk |
| VectorStore.FirstPerSourceDistinct | module-8/vector_store.py:140 | no two records share a source |
| VectorStore.FirstPerSourceCovers | module-8/vector_store.py:138-141 | every source in the store has a record |
| VectorStore.FirstPerSourceTakenFirst | module-8/vector_store.py:140-141 | each record comes from the first chunk of its source |
| VectorStore.RecordChunksCopyFields | module-8/vector_store.py:84-87 | every chunk rebuilt from a record copies the record's fields |
| VectorStore.ChunkCopiesFields | module-8/vector_store.py:120-124 | every chunk copies the document metadata except the two counters |
| VectorStore.ReloadedKeepsRecordFields | module-8/vector_store.py:77-87 | every reloaded chunk copies the fields of some stored record |
| VectorStore.SavedThenReloadedKeepsFields | module-8/vector_store.py:68-157 | reloading what was saved yields only chunks whose source and category are those of some chunk of the saved store |
| VectorStore.CollectionNamesSeparate | module-8/vector_store.py:159-162 | two users, or two known categories, never share a collection name |
| VectorStore.UnknownCategoryUsesEngineering | module-8/vector_store.py:161 | an unknown category uses the engineering collection |
| VectorStore.CategoryForAgent | module-8/vector_store.py:268-276 | medical exactly for "doctor"/"medical", legal exactly for "lawyer"/"legal", engineering otherwise |
| VectorStore.Tag | module-8/vector_store.py:202-205 | the text is kept; category, source type "pdf" and user are set; every other key is kept |
| VectorStore.TagAll | module-8/vector_store.py:202-205 | every document is tagged, in order: element k is document k with the category, "pdf" and user stamp |
| VectorStore.LocalSearchOfEmptyStore | module-8/vector_store.py:321-322 | an empty store answers "No PDF documents uploaded yet." |
| VectorStore.AddedChunksSearchable | module-8/vector_store.py:203-206 | added chunks are candidates of a search in their category, whatever the user |
| VectorStore.LocalSearchNonEmpty | module-8/vector_store.py:318-389 | with a positive `top_k` the local search never answers with an empty string |
| VectorStore.ReadableRun | module-8/vector_store.py:69-94 | the number of records read before the first whose file exists but cannot be opened; every earlier one is readable or missing |
| VectorStore.ReloadRecords | module-8/vector_store.py:77-87 | the loop rebuilds the chunks of the records before the first unreadable file, in record order |
| VectorStore.KnowledgeStore.constructor | module-8/vector_store.py:13-95 | the local store is the chunks reloaded from the saved records up to the first unreadable file, where the one `try` ends the reload, or empty when there are no records |
| VectorStore.KnowledgeStore.SaveMetadata | module-8/vector_store.py:132-157 | the saved records become RecordsOf(FirstPerSource(store)); a failed write keeps the old ones |
| VectorStore.KnowledgeStore.AddPdfDocuments | module-8/vector_store.py:197-263 | answers True; the tagged chunks are appended after the earlier ones, which stay; the metadata is saved |
| VectorStore.KnowledgeStore.SearchFallsBack | module-8/vector_store.py:279-316 | the answer is the joined vector hits only when the database and the embedder are up, a category is given and there were hits; otherwise it is the local search's |
| VectorStore.KnowledgeStore.SearchPdfKnowledge | module-8/vector_store.py:279-316 | returns SearchPdfResult |
| VectorStore.KnowledgeStore.SearchKnowledge | module-8/vector_store.py:265-277 | searches the default user's collection of the mapped category |
| VectorStore.KnowledgeStore.LocalSearch | module-8/vector_store.py:318-389 | returns LocalSearchResult over the local chunks |
| VectorStore.ScoreChunks | module-8/vector_store.py:325-359 | the first-pass loop gives exactly FirstPass |
| VectorStore.ScoreChunk | module-8/vector_store.py:327-359 | the body for one chunk gives its first-pass entry |
| VectorStore.LenientScan | module-8/vector_store.py:361-371 | the lenient loop gives exactly LenientPass |
| VectorStore.RenderBlocks | module-8/vector_store.py:382-387 | the rendering loop gives exactly Blocks |
| VectorStore.CountMatches | module-8/vector_store.py:340-352 | the counting loop gives MatchCount and PartialCount |
| VectorStore.FindPartial | module-8/vector_store.py:348-352 | the token scan finds a partial match iff HasPartial holds |
| PdfProcessor.GetFileExtension | module-8/pdf_processor.py:59-61 | the extension is empty or starts with a dot, and is the lower-cased last extension of the name |
| PdfProcessor.SupportedIffExtension | module-8/pdf_processor.py:33-66 | `stem.ext` is supported exactly when `.ext`, lower-cased, is one of .pdf, .docx, .txt, .doc |
| PdfProcessor.NoExtensionUnsupported | module-8/pdf_processor.py:59-66 | a name with no dot, or whose only dot is a leading one, is never supported |
| PdfProcessor.FirstUsable | module-8/pdf_processor.py:68-102 | the result is empty or has a non-blank page; it is the pages of a loader before which every loader raised or gave nothing usable; it is empty exactly when no loader gave usable pages |
| PdfProcessor.PdfFallbackOrder | module-8/pdf_processor.py:72-102 | usable pypdf pages are returned as they are; the fallback gives [] exactly when none of pypdf, pdfplumber and unstructured gave usable pages |
| PdfProcessor.LoadDocument | module-8/pdf_processor.py:104-136 | an extension other than the four supported ones loads nothing |
| PdfProcessor.UniqueFilename | module-8/pdf_processor.py:150-152 | the stored name is the original stem, an underscore, the timestamp, and the original extension |
| PdfProcessor.SaveDocumentFile | module-8/pdf_processor.py:142-163 | the returned path is empty exactly when the write fails |
| PdfProcessor.SavedPathKeepsExtension | module-8/pdf_processor.py:151-154 | the saved path ends with the original extension, case included |
| PdfProcessor.DistinctTimestampsDistinctPaths | module-8/pdf_processor.py:145-154 | the same name and category saved at two different timestamps get two different paths |
| PdfProcessor.AbsoluteNameEscapesStorage | module-8/pdf_processor.py:146-154 | for an absolute file name, os.path.join drops the storage folder and the path is the unique name itself |
| PdfProcessor.CategoryOf | module-8/pdf_processor.py:193-210 | whatever the model replies, or if the call raises, the category is one of engineering, medical, legal |
| PdfProcessor.ValidReplyIsKept | module-8/pdf_processor.py:193-198 | a reply object whose "category", stripped and lower-cased, is engineering, medical or legal gives exactly that category |
| PdfProcessor.NonDefaultComesFromReply | module-8/pdf_processor.py:193-198 | a category other than engineering comes from a reply object whose "category" string normalises to it |
| PdfProcessor.CategorizeDocumentContent | module-8/pdf_processor.py:165-214 | the category is valid and is the one read from the model's reply to the filename and the text's first 2000 characters; the filename and text length are reported; the sample is the text's first min(200, len) characters |
| PdfProcessor.SampleIsPrefix | module-8/pdf_processor.py:168-213 | on both the success and the exception path the sample is the first 200 characters of the text |
| PdfProcessor.NonBlank | module-8/pdf_processor.py:228 | the kept pieces are the non-blank ones, each taken from the pieces |
| PdfProcessor.PageChunks | module-8/pdf_processor.py:227-243 | one chunk per non-blank piece; chunk k is numbered start + k, carries the page's numbering keys, and its text is a non-blank piece |
| PdfProcessor.CreateDocumentChunks | module-8/pdf_processor.py:216-245 | the nested loops return exactly AllChunks: blank pages skipped, the non-blank pieces of each page numbered on from the chunks already collected |
| PdfProcessor.SplitPage | module-8/pdf_processor.py:225-243 | the inner loop over one page's pieces gives exactly PageChunks with `total_chunks` equal to the number of pieces |
| PdfProcessor.PageChunkMetadataKeys | module-8/pdf_processor.py:230-236 | a chunk's metadata holds the four numbering keys with their values (`page_number` falls back to the page index), plus every other input key unchanged |
| PdfProcessor.PageChunksIndex | module-8/pdf_processor.py:232 | chunk j of a page whose numbering starts at `start` has `chunk_index` start + j |
| PdfProcessor.AllChunksSnoc | module-8/pdf_processor.py:220-243 | the chunks of the last page come after those of the earlier pages, numbered on from their count |
| PdfProcessor.ChunkIndexIsPosition | module-8/pdf_processor.py:232 | across the whole document, chunk k has `chunk_index` k |
| PdfProcessor.LastPageChunkIndex | module-8/pdf_processor.py:232 | a chunk of the last page is numbered by its position among all the chunks |
| PdfProcessor.ChunksNotBlank | module-8/pdf_processor.py:228 | no chunk text is blank |
| PdfProcessor.ChunkPageIsNonBlank | module-8/pdf_processor.py:221-233 | every chunk's `doc_page` is the index of a page that is not blank |
| PdfProcessor.ChunksKeepMetadata | module-8/pdf_processor.py:230-231 | every input key other than the four numbering keys is copied unchanged into every chunk |
| PdfProcessor.BlankPagesNoChunks | module-8/pdf_processor.py:221-222 | a document whose pages are all blank gives no chunks |
| PdfProcessor.NonBlankContents | module-8/pdf_processor.py:263 | at most one entry per page, and none exactly when every page is blank |
| PdfProcessor.NonBlankContentsNotBlank | module-8/pdf_processor.py:263 | every joined page content is non-blank |
| PdfProcessor.FullText | module-8/pdf_processor.py:263-264 | the joined text is blank exactly when every page is blank |
| PdfProcessor.UnsupportedFirst | module-8/pdf_processor.py:251-255 | the unsupported-format error is returned exactly for unsupported names |
| PdfProcessor.NoContentWhenNothingLoaded | module-8/pdf_processor.py:258-260 | the could-not-extract error is returned exactly for a supported name from which nothing was loaded |
| PdfProcessor.EmptyWhenAllPagesBlank | module-8/pdf_processor.py:263-265 | the empty-document error is returned exactly when pages were loaded and all of them are blank |
| PdfProcessor.SaveOrSucceed | module-8/pdf_processor.py:271-294 | with a supported name and a non-blank page, the only possible failure is the save error, which happens exactly when the write fails; otherwise the upload succeeds |
| PdfProcessor.ProcessDocumentSuccess | module-8/pdf_processor.py:267-294 | on success: a valid category, the saved path for it, the page and chunk counts, the full text's length, and its first 200 characters as the sample |
| PdfProcessor.ChunksCarryUpload | module-8/pdf_processor.py:230-282 | when the base metadata holds source, category and file_path, every chunk keeps them and is numbered by its position |
| PdfProcessor.UploadMetadataFields | module-8/pdf_processor.py:277-282 | the upload metadata maps source to the file name, category to the category and file_path to the saved path |
| PdfProcessor.UploadFieldsDistinct | module-8/pdf_processor.py:277-282 | the four metadata keys are distinct, so none overwrites another |
| PdfProcessor.ProcessedChunksMetadata | module-8/pdf_processor.py:272-292 | every chunk of a successful upload carries its file name, category, saved path and position |
| PdfProcessor.PdfNeverEmpty | module-8/pdf_processor.py:68-102 | a PDF is never reported as "Document appears to be empty", because the fallback accepts only pages with text |
| ChatServer.ProcessMessage | module-8/main.py:163-201 | every reply has a non-empty message and the current timestamp, and is either an agent response or an error |
| ChatServer.ReplyKinds | module-8/main.py:167-201 | the reply names the "safety" agent exactly when the guardrail refuses the message; it is an error exactly when the guardrail accepted the message and the agent system raised or returned no text |
| ChatServer.UnsafeSkipsAgents | module-8/main.py:167-175 | an unsafe message gets the guardrail's message, marked safety, whatever the model and the store |
| ChatServer.SafeReplyIsFiltered | module-8/main.py:178-193 | a safe message's reply is the filtered answer, which begins with the agent's answer, along with the selected agent, its field and the original query |
| ChatServer.ModelFailureGivesErrorReply | module-8/main.py:195-201 | when the classification call fails, the reply is the fixed apology with type "error" |
| ChatServer.UnsupportedUploadDetail | module-8/main.py:73-81 | the 400 detail lists the four extensions joined by ", " |
| ChatServer.UploadWhitelistIsProcessorWhitelist | module-8/main.py:73-77 | the endpoint accepts exactly the names the document processor supports |
| ChatServer.UploadDocument | module-8/main.py:68-111 | a rejected extension or a failed pipeline gives a 400 and leaves the store as it was; on success the chunks are added to the store under the document's category, the metadata file is rewritten from the new store (or kept when the write fails), and the response reports the pipeline's result |
| ChatServer.Replies | module-8/main.py:139-160 | there are never more replies than frames |
| ChatServer.WebsocketEndpoint | module-8/main.py:125-161 | the welcome, then one reply for each frame as Replies says |
| ChatServer.ServeFrames | module-8/main.py:139-160 | the receive loop sends exactly Replies for the frames it receives |
| ChatServer.RepliesStopAtError | module-8/main.py:154-161 | after a frame that cannot be read, nothing more is sent |
| ChatServer.BlankMessageSkipped | module-8/main.py:143-145 | a frame whose message is blank adds no reply |
| ChatServer.OneReplyPerMessage | module-8/main.py:139-150 | frames with non-blank messages get one reply each, in order, each computed at that frame's time |
| ChatServer.FrameWithoutMessageSkipped | module-8/main.py:142-145 | a JSON object without a "message" key is read as "" and gets no reply |
| PyPath.RFind | module-8/pdf_processor.py:61 | the index is -1 or holds the character, and no later index holds it |
| PyPath.Splitext | module-8/pdf_processor.py:61 | the two parts put back together give the path; the extension is empty or a single dot followed by no dot or slash |
| PyPath.NoDotNoExtension | module-8/pdf_processor.py:61 | a name with no dot has no extension |
| PyPath.DotFileHasNoExtension | module-8/pdf_processor.py:61 | a name whose only dot is the leading one has no extension |
| PyPath.StemAndExtension | module-8/pdf_processor.py:61 | `stem.ext` splits into the stem and `.ext` |
| PyPath.SplitextLower | module-8/pdf_processor.py:61 | splitting the lower-cased name gives the lower-cased parts of the split |
| PyPath.PathJoin | module-8/pdf_processor.py:146-154 | an absolute second part replaces the first; otherwise the result begins with the first part and ends with the second |
| RagUtils.WindowsAtIndex | Module_7/utils.py:28-29 | window k is the text sliced from start k |
| RagUtils.ChunkText | Module_7/utils.py:23-33 | `chunk_text` returns the substantial windows at starts 0, step, 2·step, … that lie in the text |
| RagUtils.EmptyTextNoChunks | Module_7/utils.py:27 | an empty text gives no chunks for any chunk size and overlap, since the loop test fails at once |
| RagUtils.KeepWindows | Module_7/utils.py:25-33 | the loop collects exactly the windows at the kept starts, in order |
| RagUtils.KeptStartsInText | Module_7/utils.py:27-31 | every kept start lies inside the text, and its window passes the length test |
| RagUtils.KeptStartsAligned | Module_7/utils.py:26-32 | every kept start is a whole number of steps (chunk_size - overlap) from the first |
| RagUtils.KeptStartsIncreasing | Module_7/utils.py:32 | the kept starts are strictly increasing |
| RagUtils.KeptStartsCount | Module_7/utils.py:27-32 | there are at most ceil(len / step) chunks |
| RagUtils.WindowIsInfix | Module_7/utils.py:28-29 | a window is the text from its start up to start + chunk_size, or up to the end of the text |
| RagUtils.ChunkShape | Module_7/utils.py:27-31 | each chunk is a slice of the text at a start inside it, at most chunk_size long, with more than 60 characters once stripped |
| RagUtils.DefaultStep | Module_7/utils.py:10-32 | with the defaults, windows advance by 560 characters |
| RagUtils.Hits | Module_7/utils.py:74-78 | at most one hit per neighbour, and every hit's text is a stored chunk |
| RagUtils.Retrieve | Module_7/utils.py:74-78 | the loop over the index's answer returns exactly Hits |
| RagUtils.MissingNeighborDropped | Module_7/utils.py:76 | a -1 neighbour, or one past the end of the chunk list, adds nothing |
| RagUtils.AllFound | Module_7/utils.py:75-77 | when every neighbour names a chunk, hit k is that chunk with neighbour k's distance |
| RagUtils.ContextHoldsEveryChunk | Module_7/utils.py:83 | the context contains every retrieved chunk |
| RagUtils.ContextIgnoresDistances | Module_7/utils.py:83 | two result lists with the same texts give the same context, whatever their distances |
| RagUtils.AnswerPrompt | Module_7/utils.py:85-93 | the prompt contains the context and the question |
| RagUtils.PromptContains | Module_7/utils.py:85-93 | a prompt built around a context and a question contains both |
| RagUtils.GenerateAnswer | Module_7/utils.py:95-104 | the answer is no longer than the model's reply and has no whitespace at either end |
| RagCli.SplitAfterFirst | Module_7/main.py:29-44 | splitting a chunk without the marker, then the separator, then more text, gives the chunk and then the split of the rest |
| RagCli.ChunkFileRoundTrip | Module_7/main.py:28-44 | reading back the chunk file gives the chunks that were written, provided none contains the marker |
| RagCli.EmptyChunkList | Module_7/main.py:29-44 | an empty chunk list is written as an empty file, which reads back as one empty chunk |
| RagCli.MarkerAtChunkEndBreaksRoundTrip | Module_7/main.py:29-44 | a chunk that ends in a newline and the marker, though it holds no full separator, is split wrongly when read back |
| RagCli.LongPreview | Module_7/main.py:51 | a text over 90 characters previews as its first 90 characters, newlines made spaces, stripped, then "..." |
| RagCli.PreviewShape | Module_7/main.py:51 | a short text is shown whole; a long one is shown as one line of at most 93 characters ending in "...", cut from its first 90 characters |
| RagCli.DispatchIgnoresCase | Module_7/main.py:71 | the command word is matched without regard to case |
| RagCli.AskedQuestion | Module_7/main.py:63-88 | a question is asked exactly for "ask" followed by at least one word, and it is the words joined by spaces |
| RagCli.QuestionHoldsEveryWord | Module_7/main.py:87 | every word after "ask" appears in the question |
| ResearchClient.ResearchThread.constructor | module-5/module-5/claude_client.py:20-30 | a new thread has the given id, topic and times, and no messages |
| ResearchClient.ResearchThread.AddMessage | module-5/module-5/claude_client.py:101-110 | the history gains the new message at its end and nothing else; the update time is the new one |
| ResearchClient.AppendKeepsHistory | module-5/module-5/claude_client.py:109 | after an append, every earlier message is still in its place and the new one is last |
| ResearchClient.QuestionLines | module-5/module-5/claude_client.py:51-52 | one line per question; line j is numbered j + 1 |
| ResearchClient.NumberedLines | module-5/module-5/claude_client.py:51-52 | the numbered block is the question lines in order, each numbered by its position from 1 |
| ResearchClient.ResearchPromptShape | module-5/module-5/claude_client.py:35-54 | with no questions (None or []) the prompt is the opening, the topic, the outline and the closing; with questions it contains the questions header |
| ResearchClient.QuestionInPrompt | module-5/module-5/claude_client.py:49-52 | question j appears in the prompt on the line numbered j + 1 |
| ResearchClient.AppendQuestions | module-5/module-5/claude_client.py:49-52 | the prompt gains the questions section, and nothing when there are no questions |
| ResearchClient.AppendNumbered | module-5/module-5/claude_client.py:51-52 | the loop appends exactly the numbered lines |
| ResearchClient.ResearchPrompt | module-5/module-5/claude_client.py:35-54 | the prompt built step by step is ResearchPromptText |
| ResearchClient.ConductResearch | module-5/module-5/claude_client.py:32-68 | the result is the model's reply to the research prompt, or None when the call fails |
| ResearchClient.RecentMessages | module-5/module-5/claude_client.py:75 | the last min(3, n) messages, oldest first |
| ResearchClient.ContextLineShape | module-5/module-5/claude_client.py:76 | a quoted message is its role and at most 500 characters of its content, always followed by "..." |
| ResearchClient.ContextLinesConcat | module-5/module-5/claude_client.py:75-76 | the quoted lines are the messages' lines, one each, in order |
| ResearchClient.OlderMessagesIgnored | module-5/module-5/claude_client.py:75 | messages before the last three do not change the context |
| ResearchClient.QuoteRecent | module-5/module-5/claude_client.py:74-76 | the loop builds exactly FollowUpContext |
| ResearchClient.FollowUpPrompt | module-5/module-5/claude_client.py:73-85 | the prompt is FollowUpPromptText of the thread's topic, its messages and the question |
| ResearchClient.FollowUpResearch | module-5/module-5/claude_client.py:70-99 | the result is the model's reply to the follow-up prompt, or None when the call fails |
| ResearchUtils.FirstWithId | module-5/module-5/utils.py:14-18 | the index of the first thread with the id, or the length when there is none |
| ResearchUtils.Session.constructor | module-5/module-5/utils.py:9 | a fresh session has no thread list |
| ResearchUtils.Session.SaveThread | module-5/module-5/utils.py:7-21 | the list, created if missing, has the thread in place of the first with its id, or appended |
| ResearchUtils.Session.GetThreads | module-5/module-5/utils.py:23-27 | the list is returned, and a missing list is created empty |
| ResearchUtils.UpsertedShape | module-5/module-5/utils.py:13-21 | a thread whose id is listed replaces the first such entry and nothing else; a new id is appended at the end |
| ResearchUtils.UpsertedIdempotent | module-5/module-5/utils.py:13-21 | saving the same thread twice is the same as saving it once |
| ResearchUtils.UpsertedKeepsIdsDistinct | module-5/module-5/utils.py:13-21 | saving keeps the ids distinct and lists the saved thread |
| ResearchUtils.TruncateText | module-5/module-5/utils.py:37-41 | a text within the bound is returned whole; a longer one becomes its first max_length characters and "..." |
| ResearchUtils.TruncateNegative | module-5/module-5/utils.py:41 | a negative bound cuts that many characters off the end, then adds "..." |
| ResearchUtils.CountWordsZeroIff | module-5/module-5/utils.py:43-45 | there are no words exactly when the text is all whitespace |
| ResearchUtils.ReadingMinutes | module-5/module-5/utils.py:92 | at least one minute; under 400 words, exactly one; otherwise whole minutes at 200 words a minute |
| ResearchUtils.SplitSentences | module-5/module-5/utils.py:49 | the split always gives at least one piece |
| ResearchUtils.SplitSentencesConcat | module-5/module-5/utils.py:49 | the pieces together are the text with every `.`, `!` and `?` removed |
| ResearchUtils.KeptSentences | module-5/module-5/utils.py:50 | no more sentences are kept than there are pieces |
| ResearchUtils.KeptSentencesMembers | module-5/module-5/utils.py:50 | a sentence is kept exactly when it is a stripped piece longer than 20 characters |
| ResearchUtils.ScoredSentences | module-5/module-5/utils.py:53-58 | each kept sentence is paired with the score for its position |
| ResearchUtils.ScoreSentences | module-5/module-5/utils.py:53-58 | the scoring loop gives exactly ScoredSentences |
| ResearchUtils.KeyPointsSpec | module-5/module-5/utils.py:47-62 | at most num_points points; each is a stripped piece between terminators that is longer than 20 characters; they are the first of the kept sentences sorted by descending score, a permutation in which sentences of equal score keep their text order |
| ResearchUtils.ExtractKeyPoints | module-5/module-5/utils.py:47-62 | the method gives exactly KeyPoints |
| ResearchUtils.MessageBlocksConcat | module-5/module-5/utils.py:71-75 | the blocks of two runs of messages are the first run's blocks followed by the second's |
| ResearchUtils.MessageBlockShape | module-5/module-5/utils.py:72-75 | each block opens with the upper-cased role and a colon, and contains the message content |
| ResearchUtils.ExportThread | module-5/module-5/utils.py:64-77 | the export, built line by line, is the header block followed by one block per message |
| ResearchUtils.ExportAfterAdd | module-5/module-5/utils.py:71-75 | adding a message adds its block at the end of the export |
| Sms.IndexOfId | Module_1/SMS/sms.py:24-26 | the position of the first student with the id, or the length when there is none |
| Sms.StudentManagementSystem.constructor | Module_1/SMS/sms.py:12-13 | the system starts with no students |
| Sms.StudentManagementSystem.AddStudent | Module_1/SMS/sms.py:15-21 | a student whose id is taken is refused and the list is unchanged; otherwise the student is appended; ids stay distinct |
| Sms.StudentManagementSystem.RemoveStudent | Module_1/SMS/sms.py:23-29 | an id that is not listed gives "not found" and no change; otherwise the first student with the id is taken out and returned; ids stay distinct |
| Sms.StudentManagementSystem.SearchStudent | Module_1/SMS/sms.py:39-45 | a student is found exactly when the id is listed, and the student found has that id |
| Sms.AddedKeepsIdsDistinct | Module_1/SMS/sms.py:15-20 | adding keeps the ids pairwise distinct |
| Sms.RemovedKeepsIdsDistinct | Module_1/SMS/sms.py:23-28 | removing keeps the ids pairwise distinct |
| Sms.RemovedSpec | Module_1/SMS/sms.py:23-29 | with distinct ids, removal leaves no student with the id, shrinks the list by one exactly when the id was listed, and keeps every other student |
| Sms.AddThenRemove | Module_1/SMS/sms.py:15-28 | adding a student with a new id and then removing that id gives back the original list |
| Sms.SearchMatchesAdd | Module_1/SMS/sms.py:15-44 | after add_student, the student's id is listed |
| Sms.AcceptedId | Module_1/SMS/sms.py:47-55 | a line is accepted exactly when it parses as an integer above zero, and the value is that integer |
| Sms.AcceptedAge | Module_1/SMS/sms.py:57-65 | a line is accepted exactly when it parses as an integer from 1 to 120 |
| Sms.AcceptedGrade | Module_1/SMS/sms.py:67-73 | a line is accepted exactly when, stripped and upper-cased, it is A, B, C, D or F, and the grade is that form |
| Sms.GradeIgnoresCase | Module_1/SMS/sms.py:70-71 | " b " is read as grade B, and "E" is refused |
| Sms.FirstAccepted | Module_1/SMS/sms.py:48-73 | the input loops return the first accepted line with its value, and every earlier line was refused; None when no line is accepted |
| Sms.NewStudent | Module_1/SMS/sms.py:89-96 | a blank name is refused; otherwise the record holds the stripped, non-empty name |
| FileParse.ReadLines | Module_1/file_parse/file.py:5-6 | an empty file has no lines, and a non-empty file has at least one |
| FileParse.ReadLinesConcat | Module_1/file_parse/file.py:6 | the lines put back together are the whole text |
| FileParse.ReadLinesShape | Module_1/file_parse/file.py:6 | no line is empty, no line has a newline before its end, and every line but the last ends in a newline |
| FileParse.TotalCharactersConcat | Module_1/file_parse/file.py:19 | the character total of a list of lines is the length of the lines put together |
| FileParse.CharactersOfFile | Module_1/file_parse/file.py:6-19 | the character count is the length of the file's text, newlines included |
| FileParse.TotalsConcat | Module_1/file_parse/file.py:15-19 | the word and character counts of two runs of lines add up |
| FileParse.Reported | Module_1/file_parse/file.py:25-26 | a line contributes its stripped text, numbered, exactly when its lower-cased form contains the lower-cased keyword |
| FileParse.Matches | Module_1/file_parse/file.py:24-26 | at most one report per line, numbered within the range of the lines |
| FileParse.MatchesAt | Module_1/file_parse/file.py:24-26 | the reports carrying line i's number are exactly the ones line i gives on its own |
| FileParse.MatchesExactly | Module_1/file_parse/file.py:25-26 | line i is reported exactly when it contains the keyword, ignoring case |
| FileParse.MatchesText | Module_1/file_parse/file.py:26 | a report for line i carries that line's stripped text |
| FileParse.MatchesIncrease | Module_1/file_parse/file.py:24 | reports come in strictly increasing line order |
| FileParse.EmptyKeywordMatchesAll | Module_1/file_parse/file.py:25 | the empty keyword matches every line |
| FileParse.Extracted | Module_1/file_parse/file.py:31-37 | a range is accepted exactly when 1 <= start <= end <= the line count; the report then holds those lines, stripped, numbered from start |
| FileParse.FileParser.constructor | Module_1/file_parse/file.py:2-9 | the lines are the file's lines, or none when the file is missing |
| FileParse.FileParser.LineCount | Module_1/file_parse/file.py:11-12 | the count is the number of lines read |
| FileParse.FileParser.CountWords | Module_1/file_parse/file.py:14-16 | the loop's total is the sum of each line's word count |
| FileParse.FileParser.CountCharacters | Module_1/file_parse/file.py:18-20 | the loop's total is the sum of the line lengths, newlines included |
| FileParse.FileParser.SearchKeyword | Module_1/file_parse/file.py:22-29 | the lines printed are exactly Matches from line 1, and "No matches" is printed exactly when none is |
| FileParse.FileParser.ExtractLines | Module_1/file_parse/file.py:31-37 | the method reports Extracted: the numbered lines of a valid range, or the invalid-range message |
| Calculator.FloorDivMod | Module_1/Calculator/calculator.py:22-29 | Python's a // b and a % b recombine to a, and the remainder lies between 0 and b, on the side of b's sign |
| Calculator.FloorDivUnique | Module_1/Calculator/calculator.py:22-29 | any quotient and remainder with those two properties are a // b and a % b |
| Calculator.FloorDivExamples | Module_1/Calculator/calculator.py:22-29 | 7 // 2 = 3 and 7 % 2 = 1; -7 // 2 = -4 and -7 % 2 = 1; 7 // -2 = -4 and 7 % -2 = -1 |
| Calculator.ArithmeticOperations | Module_1/Calculator/calculator.py:9-26 | operations 1, 2 and 3 give a+b, a-b and a*b; 4 with a non-zero b gives a/b exactly; 6 with b >= 0 gives the integer a**b |
| Calculator.CalculateRefusals | Module_1/Calculator/calculator.py:9-33 | a message instead of a number is printed exactly for a zero divisor in operations 4, 5 and 7 or an operation outside 1-7, each with its own text; zero to a negative power is exactly operation 6 with a = 0 and b < 0 |
| Calculator.ModulusAndFloorDivisionAgree | Module_1/Calculator/calculator.py:20-31 | for a non-zero b, operations 5 and 7 give whole numbers that recombine to a, with the remainder on the side of b's sign |
| Calculator.ContinueIsExact | Module_1/Calculator/calculator.py:35-36 | "y" and "Yes" continue; "YES", " y", "no" and "" do not |
| Calculator.NextRound | Module_1/Calculator/calculator.py:2-41 | one pass reads at least one line and no more than there are |
| Calculator.NextRoundContinues | Module_1/Calculator/calculator.py:35-41 | a pass that does not end the loop prints one thing, which is not "Thank you!"; "Thank you!" is always the last thing a pass prints |
| Calculator.ThankYouEndsSession | Module_1/Calculator/calculator.py:35-38 | "Thank you!" is printed at most once, as the last output |
| Calculator.StopAnswerEndsSession | Module_1/Calculator/calculator.py:3-38 | three good numbers and any answer but the four continue spellings: the result, then "Thank you!", then the end |
| Calculator.BadFirstNumberRestarts | Module_1/Calculator/calculator.py:3-41 | a first line that is not an integer prints the error and the loop starts over on the next line |
| Calculator.Run | Module_1/Calculator/calculator.py:1-41 | the loop, line by line, prints exactly Session |
| Schedule.EntryLengthIsFieldsPlusFrame | Module_9_MCP/main.py:11-14 | each entry is its three fields plus 18 fixed characters |
| Schedule.EntriesConcat | Module_9_MCP/main.py:10-14 | the entries of two lists of events, one after the other, are the entries of the joined list |
| Schedule.NoEvents | Module_9_MCP/main.py:9-15 | no events: the summary is the header alone |
| Schedule.MoreEventsAppend | Module_9_MCP/main.py:10-14 | more events add their entries at the end of the summary |
| Schedule.EntryInOrder | Module_9_MCP/main.py:10-14 | event k's entry comes after the earlier events' entries and before the later ones' |
| Schedule.ScheduleLength | Module_9_MCP/main.py:8-15 | the summary begins with the header, and its length is the header's plus every entry's |
| Schedule.FormatSchedule | Module_9_MCP/main.py:8-15 | format_schedule returns the header followed by the events' entries in order |
| Schedule.AppendEntries | Module_9_MCP/main.py:10-14 | the accumulation loop appends exactly the entries of the events |
| PyStr.StripEnds | Module_1/file_parse/file.py:26 | `strip()` leaves no whitespace at either end |
| PyStr.StripEmptyIff | module-8/pdf_processor.py:221-222 | `s.strip()` is empty exactly when s is all whitespace, which is how `not s.strip()` is read throughout the model |
| PyStr.StripIsInfix | Module_7/main.py:51 | `strip()` returns a contiguous piece of its input |
| PyStr.Split | module-5/module-5/utils.py:45 | `split()` gives non-empty words without whitespace |
| PyStr.SplitBlank | module-5/module-5/utils.py:45 | an all-whitespace text splits into no words |
| PyStr.Find | Module_7/main.py:44 | the leftmost occurrence of the separator, or -1 when there is none |
| PyStr.SplitOn | Module_7/main.py:44 | `split(sep)` always gives at least one piece |
| PyStr.JoinNotBlank | module-8/pdf_processor.py:263 | a join with a non-blank part is not blank |
| PyStr.JoinContainsPart | Module_7/main.py:87 | each part occurs in the joined string |
| PyStr.Prefix | module-8/pdf_processor.py:168 | `s[:k]` is a prefix of s, min(k, len) long for k >= 0 and max(0, len + k) long for k < 0 |
| PyStr.Suffix | module-8/pdf_processor.py:280 | `s[k:]` is a suffix of s, min(-k, len) long for k < 0 and len - min(k, len) long for k >= 0 |
| PyStr.ParseIntOfIntToString | module-8/main.py:174 | `int(str(i)) == i` |
| PyStr.IntToStringInjective | module-8/pdf_processor.py:150-152 | `str` gives different integers different texts |

## Left out

- Language models (OpenAI, Anthropic, Ollama): each call is a function parameter that returns a reply, or None where the source catches the exception. The fixed wording of the classifier and specialist prompts is not modelled; only the parts that vary are.
- `json.loads`: a parameter that returns an object, a string or something else.
- Qdrant, the HuggingFace and Ollama embeddings and the FAISS index: the vector database is a parameter answering a search. The index's answer in the command-line tool is a parameter too. Creating collections and uploading points changes no modelled state, so it is left out.
- Document loaders (pypdf, pdfplumber, unstructured, docx2txt, the text loader) and `RecursiveCharacterTextSplitter`: a loader's outcome and `split_text` are parameters. Temporary files are not modelled.
- The file system: the metadata file's load and store, saved uploads, `index/chunks.txt` and folder creation. Writes become a success flag. Reads become the text they would return, or None when the file is missing; at start-up a stored record's file is also either missing, unreadable (opening it raises) or its contents.
- Clocks and identifiers: `time.time`, `datetime.now`, `uuid4` and `format_timestamp` are parameters.
- The FastAPI routes other than the upload endpoint, the connection managers and the websocket transport. The websocket loop is modelled on the list of frames it receives. The health, agent-list and HTTP chat endpoints return constants or wrap `process_message`.
- The Streamlit user interface of the research assistant, including `display_metrics` (only its reading-time formula is modelled) and `create_download_button`.
- The graph visualisation.
- Console output and prompts: the student menu, `display_all_students`, the file parser's menu and the calculator's menu. Each operation returns which outcome it reports.
- The student system's and the calculator's input loops read from a finite list of lines. An exhausted list is the end of input, where `input()` raises EOFError and the program stops.
- Floating point:
  - The calculator's true division and negative powers are exact rationals (`real`).
  - The retrieval distances are not used in any decision.
  - The key-point score is kept in exact tenths (word count times 10, or times 12 for the first 30% of the sentences). The tenths order the sentences exactly as the doubles do. Untied scores differ by at least 0.2, far beyond rounding. An exact tie 12·w1 = 10·w2 means w1 = 5m and w2 = 6m, and the double product 5m·1.2 rounds to exactly 6m, because the representation error of 1.2 is below half a unit in the last place of 6m. The bonus test `i < len(sentences) * 0.3` is exact in the same way, since 10k·0.3 rounds to 3k.
- `Calculator.Calculate`: zero raised to a negative power is an uncaught ZeroDivisionError in Python; the model stops the session there without modelling the traceback.
- `Sms.SearchMatchesAdd`: states only that the added id is listed; finding it is `StudentManagementSystem.SearchStudent`'s contract.
- `PyStr.Lower` and `PyStr.Upper` change only ASCII letters. Python's full Unicode case mapping is not modelled, and neither is Unicode normalisation.
- `PyStr.ParseInt` accepts ASCII decimal digits only. Non-ASCII Unicode digits, which Python's `int` also accepts, are not modelled.
- Reading a file is modelled on its text as `readlines` returns it. Universal-newline translation of "\r\n" and "\r" is not modelled.
- `RagUtils.ChunkText` requires `chunk_size > overlap` or an empty text. For a non-empty text with a step of zero or less the source's loop never ends, so that case has no result to model; an empty text gives [] whatever the sizes (`RagUtils.EmptyTextNoChunks`). The only call, in `Module_7/main.py`, passes the defaults 700 and 140, which meet the requirement.
- `RagCli.ChunkFileRoundTrip` requires that no chunk contains `<CHUNK_SEPARATOR>`, which is stronger than "no chunk contains the separator". The difference is exhibited by `RagCli.MarkerAtChunkEndBreaksRoundTrip`.
- `Schedule.FormatSchedule`: an event is a record with its three fields. The KeyError for a dictionary missing one of them is not modelled.
- `PdfProcessor.LoadDocument`: its contract only states that an unsupported extension loads nothing. For PDFs the fallback order is `PdfProcessor.PdfFallbackOrder`. The other formats return whatever their one loader returns.
- The other applications in the repository: the task manager, the stock dashboard, the llama-index examples, the MCP clients and e-mail sending, the OpenAI research client and the configuration modules.
