/**
 * The multi-agent router: a classifier node that asks the language model
 * for a category, three specialist nodes (engineer, doctor, lawyer) that
 * answer only from the knowledge store's content, and the graph
 * classifier -> one specialist -> END.
 *
 * The language model and `json.loads` are oracles of the system: the
 * completion for a prompt (None when the call raises) and the parse of a
 * completion text.
 */
module Agents {
  import opened Wrappers
  import opened PyStr
  import opened VectorStore
  import opened JsonValues

  /** The part of each prompt that varies; the fixed wording around it is not modelled. */
  datatype Prompt =
    | ClassifyPrompt(query: string)
    | AnswerPrompt(field: string, documentation: string, question: string)

  /** The value a specialist leaves in `agent_response`: a string, or any other JSON value. */
  datatype Reply = Text(s: string) | NonText

  datatype Specialist = Engineer | Doctor | Lawyer {
    /** The node name, also `selected_agent`. */
    function Name(): string {
      match this
      case Engineer => "engineer"
      case Doctor => "doctor"
      case Lawyer => "lawyer"
    }

    /** `specialist_field`, also the category the node searches. */
    function Field(): string {
      match this
      case Engineer => "engineering"
      case Doctor => "medical"
      case Lawyer => "legal"
    }
  }

  // ---------------------------------------------------------------------
  // Classification (`classify_query`)

  /**
   * `json.loads(content).get("category", "engineering").lower()`, with every
   * failure (unparseable text, a non-object, a non-string value) giving
   * "engineering".
   */
  function Classification(content: string, parseJson: string -> Json): string {
    match parseJson(content)
    case Object(fields) =>
      if "category" !in fields then "engineering"
      else (match fields["category"] case JString(s) => Lower(s) case JOther => "engineering")
    case _ => "engineering"
  }

  /** The priority substring chain: engineering words, then medical, then legal, else engineering. */
  function RouteFor(classification: string): (s: Specialist)
    ensures s == Doctor <==>
      !Contains(classification, "engineer") && !Contains(classification, "technical")
      && (Contains(classification, "medical") || Contains(classification, "health"))
    ensures s == Lawyer <==>
      !Contains(classification, "engineer") && !Contains(classification, "technical")
      && !Contains(classification, "medical") && !Contains(classification, "health")
      && (Contains(classification, "legal") || Contains(classification, "law"))
  {
    if Contains(classification, "engineer") || Contains(classification, "technical") then Engineer
    else if Contains(classification, "medical") || Contains(classification, "health") then Doctor
    else if Contains(classification, "legal") || Contains(classification, "law") then Lawyer
    else Engineer
  }

  /** Every classifier outcome selects one of the three agents, paired with its own field. */
  lemma ClassificationSelectsOnePair(content: string, parseJson: string -> Json)
    ensures var s := RouteFor(Classification(content, parseJson));
      (s.Name(), s.Field()) in {("engineer", "engineering"), ("doctor", "medical"), ("lawyer", "legal")}
  {
  }

  /** A reply that cannot be read as an object with a string "category" routes to the engineer. */
  lemma UnreadableClassificationIsEngineering(content: string, parseJson: string -> Json)
    requires !parseJson(content).Object? || "category" !in parseJson(content).fields
             || parseJson(content).fields["category"] == JOther
    ensures RouteFor(Classification(content, parseJson)) == Engineer
  {
    assert Contains("engineering", "engineer") by {
      assert OccursAt("engineering", "engineer", 0);
    }
  }

  /** The category is compared after lower-casing, so its case never matters. */
  lemma ClassificationIgnoresCase(s: string, t: string, content: string, parseJson: string -> Json)
    requires Lower(s) == Lower(t)
    requires parseJson(content) == Object(map["category" := JString(s)])
    ensures RouteFor(Classification(content, parseJson)) == RouteFor(Lower(t))
  {
  }

  // ---------------------------------------------------------------------
  // Specialists

  /** "No relevant content found in documents." */
  const NoContentAnyCategory: string := LexicalSearch.NoContentHead + LexicalSearch.NoContentTail

  /**
   * The first entry of each node's `no_content_messages`: "No relevant
   * content found in engineering documents." and its medical and legal
   * counterparts.
   */
  function CategorySentinel(s: Specialist): string {
    LexicalSearch.NoContentHead + " " + s.Field() + LexicalSearch.NoContentTail
  }

  /** The sentinels are exactly the knowledge store's no-content answers. */
  lemma SentinelsAreStoreMessages(s: Specialist)
    ensures CategorySentinel(s) == LexicalSearch.NoContentMessage(Some(s.Field()))
    ensures NoContentAnyCategory == LexicalSearch.NoContentMessage(None)
  {
    assert s.Field() != "";
  }

  /** `pdf_context and pdf_context.strip() and not any(msg in pdf_context ...)`. */
  predicate HasPdfContent(s: Specialist, context: string) {
    && context != ""
    && Strip(context) != ""
    && !Contains(context, CategorySentinel(s))
    && !Contains(context, NoContentAnyCategory)
    && !Contains(context, LexicalSearch.NoDocumentsMessage)
  }

  const EngineerRefusalHead: string :=
    "I don't have any relevant engineering documentation to answer your question about \""
  const EngineerRefusalTail: string :=
    "\". Please upload engineering PDFs (technical docs, programming guides, etc.) so I can provide specific answers based on your documents."
  const DoctorRefusalHead: string :=
    "I don't have any relevant medical documentation to answer your question about '"
  const DoctorRefusalTail: string :=
    "'. Please upload medical PDFs (research papers, clinical guides, etc.) so I can provide specific answers based on your medical documents."
  const LawyerRefusalHead: string :=
    "I don't have any relevant legal documentation to answer your question about '"
  const LawyerRefusalTail: string :=
    "'. Please upload legal PDFs (contracts, legal guides, court documents, etc.) so I can provide specific answers based on your legal documents."

  /** The fixed refusal with the query interpolated (the engineer quotes it with double quotes). */
  function Refusal(s: Specialist, query: string): string {
    match s
    case Engineer => EngineerRefusalHead + query + EngineerRefusalTail
    case Doctor => DoctorRefusalHead + query + DoctorRefusalTail
    case Lawyer => LawyerRefusalHead + query + LawyerRefusalTail
  }

  /** `result.get("response", content)`, or the raw completion when parsing fails. */
  function AnswerOf(content: string, parseJson: string -> Json): (r: Reply)
    ensures parseJson(content).Object? && "response" in parseJson(content).fields
              && parseJson(content).fields["response"].JString?
            ==> r == Text(parseJson(content).fields["response"].s)
    ensures !(parseJson(content).Object? && "response" in parseJson(content).fields) ==> r == Text(content)
  {
    match parseJson(content)
    case Object(fields) =>
      if "response" !in fields then Text(content)
      else (match fields["response"] case JString(t) => Text(t) case JOther => NonText)
    case _ => Text(content)
  }

  /**
   * What a specialist node leaves in `agent_response`, given what the store
   * returned (None when the state holds no store); None when the completion
   * call raises.
   */
  function SpecialistOutcome(llm: Prompt -> Option<string>, parseJson: string -> Json,
                             s: Specialist, query: string, context: Option<string>): Option<Reply>
  {
    if context.None? || !HasPdfContent(s, context.value) then Some(Text(Refusal(s, query)))
    else
      match llm(AnswerPrompt(s.Field(), context.value, query))
      case None => None
      case Some(content) => Some(AnswerOf(content, parseJson))
  }

  /** Without usable content the reply is the refusal, whatever the model would have said. */
  lemma NoContentNoGeneration(llm1: Prompt -> Option<string>, llm2: Prompt -> Option<string>,
                              parseJson: string -> Json, s: Specialist, query: string, context: Option<string>)
    requires context.None? || !HasPdfContent(s, context.value)
    ensures SpecialistOutcome(llm1, parseJson, s, query, context)
         == SpecialistOutcome(llm2, parseJson, s, query, context)
         == Some(Text(Refusal(s, query)))
  {
  }

  /** With usable content the reply depends on the model only through this one prompt. */
  lemma GroundedAnswer(llm: Prompt -> Option<string>, parseJson: string -> Json,
                       s: Specialist, query: string, context: string)
    requires HasPdfContent(s, context)
    ensures var o := SpecialistOutcome(llm, parseJson, s, query, Some(context));
      && (o.None? <==> llm(AnswerPrompt(s.Field(), context, query)).None?)
      && (o.Some? ==> o.value == AnswerOf(llm(AnswerPrompt(s.Field(), context, query)).value, parseJson))
  {
  }

  /** The store's answers that mean "nothing found" never count as content. */
  lemma LocalSentinelsAreNotContent(docs: seq<Documents.Doc>, query: string, s: Specialist, topK: int)
    requires docs == [] || LexicalSearch.Relevant(docs, Some(s.Field()), query) == []
    ensures !HasPdfContent(s, LexicalSearch.LocalSearchResult(docs, query, Some(s.Field()), topK))
  {
    if docs == [] {
      ContainsSelf(LexicalSearch.NoDocumentsMessage);
    } else {
      SentinelsAreStoreMessages(s);
      ContainsSelf(CategorySentinel(s));
    }
  }

  /** A chunk whose own text holds a sentinel phrase silences the specialist even when it is found. */
  lemma SentinelInsideChunkSilences(s: Specialist, before: string, after: string)
    ensures !HasPdfContent(s, before + LexicalSearch.NoDocumentsMessage + after)
  {
    ContainsInfix(before, LexicalSearch.NoDocumentsMessage, after);
  }

  // ---------------------------------------------------------------------
  // The graph

  datatype Node = Classifier | AgentNode(s: Specialist) | End

  const Entry: Node := Classifier

  /**
   * The edges: the classifier's conditional edge maps `selected_agent`
   * through {"engineer", "doctor", "lawyer"} (None for any other value),
   * each agent goes to END, and END has no successor.
   */
  function Successor(n: Node, selectedAgent: string): Option<Node> {
    match n
    case Classifier =>
      if selectedAgent == "engineer" then Some(AgentNode(Engineer))
      else if selectedAgent == "doctor" then Some(AgentNode(Doctor))
      else if selectedAgent == "lawyer" then Some(AgentNode(Lawyer))
      else None
    case AgentNode(_) => Some(End)
    case End => None
  }

  /** From the entry, any classification leads to exactly its specialist and then to END, with no loop back. */
  lemma GraphShape(classification: string, anySelection: string)
    ensures var s := RouteFor(classification);
      && Successor(Entry, s.Name()) == Some(AgentNode(s))
      && Successor(AgentNode(s), anySelection) == Some(End)
      && Successor(End, anySelection).None?
    ensures forall n: Node | n != Classifier :: Successor(n, anySelection) != Some(Classifier)
  {
  }

  // ---------------------------------------------------------------------
  // The state and the nodes

  /** The graph's shared state (`AgentState`). */
  class AgentState {
    var messages: seq<string>
    var userQuery: string
    var selectedAgent: string
    var agentResponse: Reply
    var specialistField: string
    var store: KnowledgeStore?

    /** `initial_state` of `process_query`. */
    constructor (userQuery: string, store: KnowledgeStore?)
      ensures this.userQuery == userQuery && this.store == store
      ensures messages == [] && selectedAgent == "" && agentResponse == Text("") && specialistField == ""
    {
      this.messages := [];
      this.userQuery := userQuery;
      this.selectedAgent := "";
      this.agentResponse := Text("");
      this.specialistField := "";
      this.store := store;
    }
  }

  /** The state of the store a graph state holds, or None when it holds none. */
  function ViewOf(store: KnowledgeStore?): Option<SearchView>
    reads store
  {
    if store == null then None else Some(store.View())
  }

  /** What the specialist's store search returns, or None without a store. */
  function ContextFor(store: Option<SearchView>, s: Specialist, query: string): Option<string> {
    if store.None? then None else Some(SearchResult(store.value, query, Some(s.Field()), "default", 3))
  }

  /** The dictionary `process_query` returns. */
  datatype QueryResult = QueryResult(query: string, selectedAgent: string, specialistField: string, response: Reply)

  /** What `process_query(query, store)` returns; None when a model call raises. */
  function ProcessOutcome(llm: Prompt -> Option<string>, parseJson: string -> Json,
                          query: string, store: Option<SearchView>): Option<QueryResult>
  {
    match llm(ClassifyPrompt(query))
    case None => None
    case Some(content) =>
      var s := RouteFor(Classification(content, parseJson));
      match SpecialistOutcome(llm, parseJson, s, query, ContextFor(store, s, query))
      case None => None
      case Some(reply) => Some(QueryResult(query, s.Name(), s.Field(), reply))
  }

  /** The result echoes the query and names one agent with its own field. */
  lemma ProcessOutcomeShape(llm: Prompt -> Option<string>, parseJson: string -> Json,
                            query: string, store: Option<SearchView>)
    requires ProcessOutcome(llm, parseJson, query, store).Some?
    ensures var r := ProcessOutcome(llm, parseJson, query, store).value;
      && r.query == query
      && (r.selectedAgent, r.specialistField) in
           {("engineer", "engineering"), ("doctor", "medical"), ("lawyer", "legal")}
  {
  }

  /** Without a store every reply is the selected specialist's refusal. */
  lemma NoStoreRefuses(llm: Prompt -> Option<string>, parseJson: string -> Json, query: string)
    requires llm(ClassifyPrompt(query)).Some?
    ensures var s := RouteFor(Classification(llm(ClassifyPrompt(query)).value, parseJson));
      ProcessOutcome(llm, parseJson, query, None) == Some(QueryResult(query, s.Name(), s.Field(), Text(Refusal(s, query))))
  {
  }

  class MultiAgentSystem {
    const llm: Prompt -> Option<string>
    const parseJson: string -> Json

    constructor (llm: Prompt -> Option<string>, parseJson: string -> Json)
      ensures this.llm == llm && this.parseJson == parseJson
    {
      this.llm := llm;
      this.parseJson := parseJson;
    }

    /** `classify_query`: writes `selected_agent` and `specialist_field`; `raised` when the model call raises. */
    method ClassifyQuery(state: AgentState) returns (raised: bool)
      modifies state`selectedAgent, state`specialistField
      ensures raised <==> llm(ClassifyPrompt(state.userQuery)).None?
      ensures raised ==>
        state.selectedAgent == old(state.selectedAgent) && state.specialistField == old(state.specialistField)
      ensures !raised ==>
        var s := RouteFor(Classification(llm(ClassifyPrompt(state.userQuery)).value, parseJson));
        state.selectedAgent == s.Name() && state.specialistField == s.Field()
    {
      var response := llm(ClassifyPrompt(state.userQuery));
      if response.None? {
        return true;
      }
      var classification := Classification(response.value, parseJson);
      var selected, field;
      if Contains(classification, "engineer") || Contains(classification, "technical") {
        selected, field := "engineer", "engineering";
      } else if Contains(classification, "medical") || Contains(classification, "health") {
        selected, field := "doctor", "medical";
      } else if Contains(classification, "legal") || Contains(classification, "law") {
        selected, field := "lawyer", "legal";
      } else {
        selected, field := "engineer", "engineering";
      }
      state.selectedAgent := selected;
      state.specialistField := field;
      raised := false;
    }

    /** `route_to_agent`. */
    function RouteToAgent(state: AgentState): string
      reads state
    {
      state.selectedAgent
    }

    /**
     * The body shared by `engineer_agent`, `doctor_agent` and `lawyer_agent`:
     * search the node's own category for the default user, then refuse or
     * ask the model. `raised` when the model call raises.
     */
    method RunSpecialist(s: Specialist, state: AgentState) returns (raised: bool)
      modifies state`agentResponse
      ensures var o := SpecialistOutcome(llm, parseJson, s, state.userQuery,
                                         ContextFor(ViewOf(state.store), s, state.userQuery));
        && (raised <==> o.None?)
        && (!raised ==> state.agentResponse == o.value)
        && (raised ==> state.agentResponse == old(state.agentResponse))
    {
      var query := state.userQuery;
      var store := state.store;
      ghost var context := ContextFor(ViewOf(store), s, query);
      var pdfContext := "";
      var hasPdfContent := false;
      if store != null {
        pdfContext := store.SearchPdfKnowledge(query, Some(s.Field()), "default", 3);
        assert context == Some(pdfContext);
        hasPdfContent := HasPdfContent(s, pdfContext);
      }
      assert hasPdfContent <==> context.Some? && HasPdfContent(s, context.value);
      ghost var outcome := SpecialistOutcome(llm, parseJson, s, query, context);
      if !hasPdfContent {
        state.agentResponse := Text(Refusal(s, query));
        assert outcome == Some(Text(Refusal(s, query)));
        return false;
      }
      var response := llm(AnswerPrompt(s.Field(), pdfContext, query));
      if response.None? {
        assert outcome.None?;
        return true;
      }
      state.agentResponse := AnswerOf(response.value, parseJson);
      assert outcome == Some(state.agentResponse);
      raised := false;
    }

    /**
     * `process_query`: run the graph from a fresh state and return the final
     * state's fields; None when a model call raises (or, never, when the
     * route is unmapped).
     */
    method ProcessQuery(userQuery: string, store: KnowledgeStore?) returns (r: Option<QueryResult>)
      ensures r == ProcessOutcome(llm, parseJson, userQuery, ViewOf(store))
    {
      var state := new AgentState(userQuery, store);
      var raised := ClassifyQuery(state);
      if raised {
        return None;
      }
      var next := Successor(Classifier, RouteToAgent(state));
      if next.None? || !next.value.AgentNode? {
        return None;
      }
      raised := RunSpecialist(next.value.s, state);
      if raised {
        return None;
      }
      r := Some(QueryResult(userQuery, state.selectedAgent, state.specialistField, state.agentResponse));
    }
  }
}
