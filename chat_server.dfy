/**
 * The chat server's request handling: `process_message` (guardrail, then
 * the multi-agent system, then the response filter), the upload endpoint's
 * extension whitelist and pipeline, and the websocket loop that skips blank
 * messages. The clock is a parameter; the transport is not modelled.
 */
module ChatServer {
  import opened Wrappers
  import opened PyStr
  import opened PyPath
  import opened JsonValues
  import opened Guardrails
  import opened VectorStore
  import opened Agents
  import opened PdfProcessor

  // ---------------------------------------------------------------------
  // process_message

  /** A reply dictionary; an absent key is None. */
  datatype ChatReply = ChatReply(kind: string, message: string, agent: Option<string>,
                                 specialistField: Option<string>, originalQuery: Option<string>,
                                 timestamp: string)

  const ErrorApology: string :=
    "I apologize, but I encountered an error processing your request. Please try again."

  /**
   * `process_message(message, user_id)` at time `now`: an unsafe message is
   * answered by the guardrail; otherwise the agent's reply is filtered; a
   * raising model call, or a reply that is not text (so that adding the
   * disclaimer raises), gives the error reply. `store` is the state of the
   * server's knowledge store. `user_id` is not used.
   */
  function ProcessMessage(llm: Prompt -> Option<string>, parseJson: string -> Json,
                          store: SearchView, message: string, now: int): (r: ChatReply)
    ensures r.message != "" && r.timestamp == IntToString(now)
    ensures r.kind == "agent_response" || r.kind == "error"
  {
    var verdict := CheckInputSafety(message);
    var ts := IntToString(now);
    if !verdict.safe then
      ChatReply("agent_response", verdict.message, Some("safety"), Some("safety"), None, ts)
    else
      var outcome := ProcessOutcome(llm, parseJson, message, Some(store));
      if outcome.Some? && outcome.value.response.Text? then
        var result := outcome.value;
        ProcessOutcomeShape(llm, parseJson, message, Some(store));
        ChatReply("agent_response", FilterResponse(result.response.s, result.selectedAgent),
                  Some(result.selectedAgent), Some(result.specialistField), Some(message), ts)
      else
        ChatReply("error", ErrorApology, None, None, None, ts)
  }

  /** The guardrail's replies are exactly those marked "safety"; errors are exactly the failed or non-text answers. */
  lemma ReplyKinds(llm: Prompt -> Option<string>, parseJson: string -> Json,
                   store: SearchView, message: string, now: int)
    ensures var r := ProcessMessage(llm, parseJson, store, message, now);
      r.agent == Some("safety") <==> !CheckInputSafety(message).safe
    ensures var r, o := ProcessMessage(llm, parseJson, store, message, now), ProcessOutcome(llm, parseJson, message, Some(store));
      r.kind == "error" <==> CheckInputSafety(message).safe && !(o.Some? && o.value.response.Text?)
  {
    var o := ProcessOutcome(llm, parseJson, message, Some(store));
    if o.Some? {
      ProcessOutcomeShape(llm, parseJson, message, Some(store));
    }
  }

  /** An unsafe message never reaches the agents: the reply is the guardrail's, whatever the model and store. */
  lemma UnsafeSkipsAgents(llm1: Prompt -> Option<string>, llm2: Prompt -> Option<string>,
                          parseJson: string -> Json, store1: SearchView, store2: SearchView,
                          message: string, now: int)
    requires !CheckInputSafety(message).safe
    ensures ProcessMessage(llm1, parseJson, store1, message, now) == ProcessMessage(llm2, parseJson, store2, message, now)
    ensures ProcessMessage(llm1, parseJson, store1, message, now)
      == ChatReply("agent_response", CheckInputSafety(message).message, Some("safety"), Some("safety"), None,
                   IntToString(now))
  {
  }

  /** A safe message's reply is the filtered agent answer, which begins with the answer itself. */
  lemma SafeReplyIsFiltered(llm: Prompt -> Option<string>, parseJson: string -> Json,
                            store: SearchView, message: string, now: int)
    requires CheckInputSafety(message).safe
    requires ProcessOutcome(llm, parseJson, message, Some(store)).Some?
    requires ProcessOutcome(llm, parseJson, message, Some(store)).value.response.Text?
    ensures var q, r := ProcessOutcome(llm, parseJson, message, Some(store)).value, ProcessMessage(llm, parseJson, store, message, now);
      && r.kind == "agent_response"
      && r.message == FilterResponse(q.response.s, q.selectedAgent)
      && |q.response.s| <= |r.message| && r.message[..|q.response.s|] == q.response.s
      && r.agent == Some(q.selectedAgent) && r.specialistField == Some(q.specialistField)
      && r.originalQuery == Some(message)
  {
    var q := ProcessOutcome(llm, parseJson, message, Some(store)).value;
    ProcessOutcomeShape(llm, parseJson, message, Some(store));
    assert IsKnownAgent(q.selectedAgent);
  }

  /** A failing model call gives the fixed error reply. */
  lemma ModelFailureGivesErrorReply(llm: Prompt -> Option<string>, parseJson: string -> Json,
                                    store: SearchView, message: string, now: int)
    requires CheckInputSafety(message).safe
    requires llm(ClassifyPrompt(message)).None?
    ensures ProcessMessage(llm, parseJson, store, message, now)
      == ChatReply("error", ErrorApology, None, None, None, IntToString(now))
  {
  }

  // ---------------------------------------------------------------------
  // upload_document

  const UploadExtensions: seq<string> := [".pdf", ".docx", ".txt", ".doc"]

  /** The 400 detail for a rejected extension. */
  function UnsupportedUploadDetail(): (d: string)
    ensures d == "Unsupported file format. Supported formats: .pdf, .docx, .txt, .doc"
  {
    "Unsupported file format. Supported formats: " + Join(", ", UploadExtensions)
  }

  /** The endpoint's own extension check, on the lower-cased name. */
  predicate UploadAccepts(filename: string) {
    Splitext(Lower(filename)).1 in UploadExtensions
  }

  /** The endpoint's whitelist is the processor's: nothing it accepts is refused later for its format. */
  lemma UploadWhitelistIsProcessorWhitelist(filename: string)
    ensures UploadAccepts(filename) <==> IsSupportedFormat(filename)
  {
  }

  /** The response of `upload_document`. */
  datatype UploadResponse =
    | HttpError(status: int, detail: string)
    | Uploaded(message: string, filename: string, filePath: string, category: string, fileType: string,
               textLength: nat, numChunks: nat, numPages: nat, sampleText: string)

  /**
   * `upload_document(file)`: whitelist, process, then add the chunks for the
   * default user. The store's add always succeeds, so its 500 branch is not
   * reachable.
   */
  method UploadDocument(store: KnowledgeStore, filename: string, env: Services, metadataWritable: bool)
    returns (resp: UploadResponse)
    modifies store`localDocuments, store`savedMetadata
    ensures !UploadAccepts(filename) ==>
      resp == HttpError(400, UnsupportedUploadDetail()) && unchanged(store)
    ensures UploadAccepts(filename) && ProcessDocument(filename, env).Failure? ==>
      resp == HttpError(400, ProcessDocument(filename, env).error) && unchanged(store)
    ensures UploadAccepts(filename) && ProcessDocument(filename, env).Success? ==>
      var result := ProcessDocument(filename, env);
      && store.localDocuments == old(store.localDocuments) + TagAll(result.documents, result.category, "default")
      && store.savedMetadata == (if metadataWritable then RecordsOf(FirstPerSource(store.localDocuments))
                                 else old(store.savedMetadata))
      && resp == Uploaded("Document '" + filename + "' successfully processed and categorized as '"
                          + result.category + "'",
                          result.filename, result.filePath, result.category,
                          Suffix(Splitext(Lower(filename)).1, 1),
                          result.textLength, result.numChunks, result.numPages, result.sampleText)
  {
    var ext := Splitext(Lower(filename)).1;
    if ext !in UploadExtensions {
      return HttpError(400, UnsupportedUploadDetail());
    }
    var result := ProcessDocument(filename, env);
    if result.Failure? {
      return HttpError(400, result.error);
    }
    var ok := store.AddPdfDocuments(result.documents, result.category, "default", metadataWritable);
    if !ok {
      return HttpError(500, "Failed to store document in vector database");
    }
    resp := Uploaded("Document '" + filename + "' successfully processed and categorized as '"
                     + result.category + "'",
                     result.filename, result.filePath, result.category, Suffix(ext, 1),
                     result.textLength, result.numChunks, result.numPages, result.sampleText);
  }

  // ---------------------------------------------------------------------
  // The websocket loop

  const WelcomeMessage: string :=
    "Connected to Multi-Agent Chatbot! Ask questions about engineering, medical topics, or legal matters."

  /**
   * `json.loads(data).get("message", "")`: None when the frame is not a
   * JSON object or its message is not a string (so that `.strip()` raises).
   */
  function FrameMessage(data: string, parseJson: string -> Json): Option<string> {
    match parseJson(data)
    case Object(fields) =>
      if "message" !in fields then Some("")
      else (match fields["message"] case JString(s) => Some(s) case JOther => None)
    case _ => None
  }

  /** The error message sent when frame `data`, number `i`, cannot be read. */
  function FrameError(data: string, i: int, clock: int -> int, errorText: string -> string): ChatReply {
    ChatReply("error", "An error occurred: " + errorText(data), None, None, None, IntToString(clock(i)))
  }

  /** The frame reader the loop uses. */
  function Reader(parseJson: string -> Json): string -> Option<string> {
    (data: string) => FrameMessage(data, parseJson)
  }

  /** `process_message` on a store in state `store`, as a function of the message and the time. */
  function Responder(llm: Prompt -> Option<string>, parseJson: string -> Json, store: SearchView)
    : (string, int) -> ChatReply
  {
    (m: string, t: int) => ProcessMessage(llm, parseJson, store, m, t)
  }

  /**
   * The replies the loop sends for `frames`, numbered from `i`, after the
   * welcome: one per non-blank message, none for a blank one; an unreadable
   * frame sends the error message and ends the connection. `read(d)` is
   * `FrameMessage(d, parseJson)`, `respond(m, t)`
   * is `process_message(m, user_id)` at time t, `clock(i)` is the time at
   * frame i and `errorText(d)` is `str(e)` for the exception frame `d` raises.
   */
  function Replies(respond: (string, int) -> ChatReply, read: string -> Option<string>,
                   frames: seq<string>, i: int, clock: int -> int, errorText: string -> string)
    : (r: seq<ChatReply>)
    ensures |r| <= |frames|
  {
    if frames == [] then []
    else match read(frames[0])
      case None => [FrameError(frames[0], i, clock, errorText)]
      case Some(m) =>
        (if IsBlank(m) then [] else [respond(m, clock(i))])
        + Replies(respond, read, frames[1..], i + 1, clock, errorText)
  }

  /** The welcome message sent on connecting at time `now`. */
  function Welcome(now: int): ChatReply {
    ChatReply("system", WelcomeMessage, None, None, None, IntToString(now))
  }

  /**
   * `websocket_endpoint` on a connection made at time `connectedAt` that
   * receives `frames`: the welcome, then the loop's replies, each computed by
   * `process_message` on the store's state.
   */
  method WebsocketEndpoint(llm: Prompt -> Option<string>, parseJson: string -> Json, store: KnowledgeStore,
                           frames: seq<string>, connectedAt: int, clock: int -> int, errorText: string -> string)
    returns (sent: seq<ChatReply>)
    ensures sent == [Welcome(connectedAt)]
                    + Replies(Responder(llm, parseJson, store.View()), Reader(parseJson), frames, 0, clock, errorText)
  {
    var replies := ServeFrames(Responder(llm, parseJson, store.View()), Reader(parseJson), frames, clock, errorText);
    sent := [Welcome(connectedAt)] + replies;
  }

  /** The loop of `websocket_endpoint` after the welcome; `IsBlank(m)` is `not m.strip()`. */
  method ServeFrames(respond: (string, int) -> ChatReply, read: string -> Option<string>,
                     frames: seq<string>, clock: int -> int, errorText: string -> string)
    returns (sent: seq<ChatReply>)
    ensures sent == Replies(respond, read, frames, 0, clock, errorText)
  {
    sent := [];
    var i := 0;
    while i < |frames|
      invariant 0 <= i <= |frames|
      invariant Replies(respond, read, frames, 0, clock, errorText)
             == sent + Replies(respond, read, frames[i..], i, clock, errorText)
    {
      var message := read(frames[i]);
      if message.None? {
        RepliesStepError(respond, read, frames, i, clock, errorText);
        sent := sent + [FrameError(frames[i], i, clock, errorText)];
        return;
      }
      ghost var later := Replies(respond, read, frames[i + 1..], i + 1, clock, errorText);
      RepliesStep(respond, read, frames, i, message.value, clock, errorText);
      StripEmptyIff(message.value);
      if Strip(message.value) != "" {
        var reply := respond(message.value, clock(i));
        assert (sent + [reply]) + later == sent + ([reply] + later);
        sent := sent + [reply];
        assert Replies(respond, read, frames, 0, clock, errorText) == sent + later;
      } else {
        assert IsBlank(message.value);
        assert Replies(respond, read, frames[i..], i, clock, errorText) == later;
        assert Replies(respond, read, frames, 0, clock, errorText) == sent + later;
      }
      i := i + 1;
    }
  }

  /** An unreadable frame gets the error message and ends the replies. */
  lemma RepliesStepError(respond: (string, int) -> ChatReply, read: string -> Option<string>,
                         frames: seq<string>, i: int, clock: int -> int, errorText: string -> string)
    requires 0 <= i < |frames| && read(frames[i]).None?
    ensures Replies(respond, read, frames[i..], i, clock, errorText)
         == [FrameError(frames[i], i, clock, errorText)]
  {
    assert frames[i..][0] == frames[i];
  }

  /** A readable frame: its reply, if its message is not blank, then the rest's. */
  lemma RepliesStep(respond: (string, int) -> ChatReply, read: string -> Option<string>,
                    frames: seq<string>, i: int, m: string, clock: int -> int, errorText: string -> string)
    requires 0 <= i < |frames| && read(frames[i]) == Some(m)
    ensures Replies(respond, read, frames[i..], i, clock, errorText)
         == (if IsBlank(m) then [] else [respond(m, clock(i))])
            + Replies(respond, read, frames[i + 1..], i + 1, clock, errorText)
  {
    assert frames[i..][0] == frames[i];
    assert frames[i..][1..] == frames[i + 1..];
  }

  /** Frames after an unreadable one get no reply. */
  lemma {:induction false} RepliesStopAtError(respond: (string, int) -> ChatReply, read: string -> Option<string>,
                           frames: seq<string>, rest: seq<string>, i: int, clock: int -> int,
                           errorText: string -> string)
    requires frames != [] && read(frames[|frames| - 1]).None?
    ensures Replies(respond, read, frames + rest, i, clock, errorText)
         == Replies(respond, read, frames, i, clock, errorText)
  {
    if |frames| > 1 {
      assert (frames + rest)[1..] == frames[1..] + rest;
      RepliesStopAtError(respond, read, frames[1..], rest, i + 1, clock, errorText);
    }
  }

  /** A readable frame with a blank message adds nothing to what is sent. */
  lemma {:induction false} BlankMessageSkipped(respond: (string, int) -> ChatReply, read: string -> Option<string>,
                                               frames: seq<string>, frame: string,
                                               i: int, clock: int -> int, errorText: string -> string)
    requires forall j | 0 <= j < |frames| :: read(frames[j]).Some?
    requires read(frame).Some? && IsBlank(read(frame).value)
    ensures Replies(respond, read, frames + [frame], i, clock, errorText)
         == Replies(respond, read, frames, i, clock, errorText)
  {
    if frames == [] {
      assert [frame][1..] == [];
    } else {
      assert (frames + [frame])[1..] == frames[1..] + [frame];
      BlankMessageSkipped(respond, read, frames[1..], frame, i + 1, clock, errorText);
    }
  }

  /** Readable frames with non-blank messages get one reply each, in order, computed at their own time. */
  lemma {:induction false} OneReplyPerMessage(respond: (string, int) -> ChatReply, read: string -> Option<string>,
                                              frames: seq<string>, i: int, clock: int -> int,
                                              errorText: string -> string)
    requires forall j | 0 <= j < |frames| :: read(frames[j]).Some? && !IsBlank(read(frames[j]).value)
    ensures var r := Replies(respond, read, frames, i, clock, errorText);
      && |r| == |frames|
      && forall k | 0 <= k < |frames| :: r[k] == respond(read(frames[k]).value, clock(i + k))
  {
    if frames != [] {
      assert forall j | 0 <= j < |frames| - 1 :: frames[1..][j] == frames[j + 1];
      OneReplyPerMessage(respond, read, frames[1..], i + 1, clock, errorText);
      var rest := Replies(respond, read, frames[1..], i + 1, clock, errorText);
      var r := Replies(respond, read, frames, i, clock, errorText);
      var m := read(frames[0]).value;
      assert read(frames[0]) == Some(m) && !IsBlank(m);
      assert r == [respond(m, clock(i))] + rest;
      forall k | 0 < k < |frames|
        ensures r[k] == respond(read(frames[k]).value, clock(i + k))
      {
        assert r[k] == rest[k - 1];
        assert (i + 1) + (k - 1) == i + k;
      }
    }
  }

  /** A frame holding a JSON object without a "message" key is read as the empty message and skipped. */
  lemma FrameWithoutMessageSkipped(respond: (string, int) -> ChatReply, parseJson: string -> Json,
                                   frames: seq<string>, frame: string, i: int, clock: int -> int,
                                   errorText: string -> string)
    requires forall j | 0 <= j < |frames| :: FrameMessage(frames[j], parseJson).Some?
    requires parseJson(frame).Object? && "message" !in parseJson(frame).fields
    ensures Replies(respond, Reader(parseJson), frames + [frame], i, clock, errorText)
         == Replies(respond, Reader(parseJson), frames, i, clock, errorText)
  {
    assert FrameMessage(frame, parseJson) == Some("");
    BlankMessageSkipped(respond, Reader(parseJson), frames, frame, i, clock, errorText);
  }
}
