/**
 * The research assistant's client: research threads, the message history
 * kept on them, and the two prompts sent to the model. The model call is
 * a parameter `complete` that yields the reply text, or None where the
 * client catches an exception; fresh ids and clock readings are
 * parameters too.
 */
module ResearchClient {
  import opened Wrappers
  import opened PyStr

  /** One entry of a thread's history. */
  datatype Message = Message(id: string, role: string, content: string, timestamp: string)

  /** A research thread; its history and update time change in place. */
  class ResearchThread {
    const id: string
    const topic: string
    const createdAt: string
    var messages: seq<Message>
    var lastUpdated: string

    /** `create_research_thread`: a new thread on `topic` with no messages yet. */
    constructor (threadId: string, topic: string, createdAt: string, updatedAt: string)
      ensures id == threadId && this.topic == topic
      ensures this.createdAt == createdAt && lastUpdated == updatedAt
      ensures messages == []
    {
      id := threadId;
      this.topic := topic;
      this.createdAt := createdAt;
      messages := [];
      lastUpdated := updatedAt;
    }

    /** `add_message_to_thread`: one message at the end of the history, and a new update time. */
    method AddMessage(role: string, content: string, messageId: string, timestamp: string, updatedAt: string)
      modifies this
      ensures messages == old(messages) + [Message(messageId, role, content, timestamp)]
      ensures lastUpdated == updatedAt
    {
      messages := messages + [Message(messageId, role, content, timestamp)];
      lastUpdated := updatedAt;
    }
  }

  /** Every message before the new one keeps its place and contents. */
  lemma AppendKeepsHistory(ms: seq<Message>, m: Message)
    ensures var r := ms + [m];
      && |r| == |ms| + 1 && r[|ms|] == m
      && forall i | 0 <= i < |ms| :: r[i] == ms[i]
  {
  }

  // ---------------------------------------------------------------------
  // conduct_research

  /** The fixed text before the topic. */
  const ResearchOpening: string :=
    "\n        You are a research assistant tasked with conducting comprehensive research on the topic: \""

  /** The fixed text between the topic and the optional questions. */
  const ResearchOutline: string :=
    "\"\n        \n        Please provide detailed, well-structured research that includes:\n"
    + "        1. An overview of the topic\n"
    + "        2. Key concepts and definitions\n"
    + "        3. Current trends and developments\n"
    + "        4. Important facts and statistics\n"
    + "        5. Notable experts or organizations in this field\n"
    + "        6. Recent developments or news\n"
    + "        7. Potential applications or implications\n"
    + "        \n        "

  const QuestionsHeader: string := "\nAlso address these specific questions:\n"

  const ResearchClosing: string :=
    "\nProvide comprehensive, accurate, and well-organized information suitable for research purposes."

  /** The line for the `n`-th question. */
  function QuestionLine(n: int, question: string): string {
    IntToString(n) + ". " + question + "\n"
  }

  /** The questions, numbered from 1 in the order given. */
  function Numbered(questions: seq<string>): string
    decreases |questions|
  {
    if questions == [] then ""
    else Numbered(questions[..|questions| - 1]) + QuestionLine(|questions|, questions[|questions| - 1])
  }

  /** The questions section: absent for no questions. */
  function QuestionSection(questions: seq<string>): string {
    if questions == [] then "" else QuestionsHeader + Numbered(questions)
  }

  /** The research prompt for `topic` and the specific questions (None and [] alike add none). */
  function ResearchPromptText(topic: string, questions: seq<string>): string {
    ResearchOpening + topic + ResearchOutline + QuestionSection(questions) + ResearchClosing
  }

  /** The question lines as a list, the n-th numbered n + 1. */
  function QuestionLines(questions: seq<string>): (r: seq<string>)
    ensures |r| == |questions|
    ensures forall j | 0 <= j < |r| :: r[j] == QuestionLine(j + 1, questions[j])
  {
    seq(|questions|, j requires 0 <= j < |questions| => QuestionLine(j + 1, questions[j]))
  }

  /** One more question adds one line, numbered after the others. */
  lemma NumberedStep(questions: seq<string>, i: nat)
    requires i < |questions|
    ensures Numbered(questions[..i + 1]) == Numbered(questions[..i]) + QuestionLine(i + 1, questions[i])
  {
    assert questions[..i + 1][..i] == questions[..i];
  }

  /** The numbered block is the question lines, each numbered by its position from 1. */
  lemma {:induction false} NumberedLines(questions: seq<string>)
    ensures Numbered(questions) == Concat(QuestionLines(questions))
    decreases |questions|
  {
    if questions != [] {
      var n := |questions| - 1;
      var init := questions[..n];
      NumberedLines(init);
      assert QuestionLines(questions) == QuestionLines(init) + [QuestionLine(n + 1, questions[n])];
      ConcatSnoc(QuestionLines(init), QuestionLine(n + 1, questions[n]));
    }
  }

  /**
   * The prompt opens with the topic and closes with the closing request; the
   * questions section is present exactly when there are questions, and then
   * holds each question on its own numbered line.
   */
  lemma ResearchPromptShape(topic: string, questions: seq<string>)
    ensures questions == [] ==>
      ResearchPromptText(topic, questions) == ResearchOpening + topic + ResearchOutline + ResearchClosing
    ensures questions != [] ==> Contains(ResearchPromptText(topic, questions), QuestionsHeader)
  {
    if questions != [] {
      ContainsInfix("", QuestionsHeader, Numbered(questions));
      assert QuestionSection(questions) == "" + QuestionsHeader + Numbered(questions);
      SectionInPrompt(ResearchOpening, topic, ResearchOutline, QuestionSection(questions), ResearchClosing, QuestionsHeader);
    } else {
      EmptyPiece(ResearchOpening + topic + ResearchOutline, QuestionSection(questions), ResearchClosing);
    }
  }

  /** The `j`-th question appears in the prompt as the line numbered `j + 1`. */
  lemma QuestionInPrompt(topic: string, questions: seq<string>, j: int)
    requires 0 <= j < |questions|
    ensures Contains(ResearchPromptText(topic, questions), QuestionLine(j + 1, questions[j]))
  {
    var lines := QuestionLines(questions);
    NumberedLines(questions);
    ConcatContainsPart(lines, j);
    ContainsInfix(QuestionsHeader, Numbered(questions), "");
    assert QuestionSection(questions) == QuestionsHeader + Numbered(questions) + "";
    ContainsTransitive(QuestionSection(questions), Numbered(questions), lines[j]);
    SectionInPrompt(ResearchOpening, topic, ResearchOutline, QuestionSection(questions), ResearchClosing, lines[j]);
  }

  lemma EmptyPiece(a: string, d: string, e: string)
    requires d == ""
    ensures a + d + e == a + e
  {
    assert a + d == a;
  }

  /** What the fourth of five pieces holds, their concatenation holds. */
  lemma SectionInPrompt(a: string, b: string, c: string, d: string, e: string, part: string)
    requires Contains(d, part)
    ensures Contains(a + b + c + d + e, part)
  {
    ContainsInfix(a + b + c, d, e);
    ContainsTransitive(a + b + c + d + e, d, part);
  }

  /** `prompt` followed by the questions section. */
  method AppendQuestions(prompt: string, questions: seq<string>) returns (r: string)
    ensures r == prompt + QuestionSection(questions)
  {
    if questions == [] {
      r := prompt;
      assert prompt + "" == prompt;
    } else {
      r := AppendNumbered(prompt + QuestionsHeader, questions);
      Regroup(prompt, QuestionsHeader, Numbered(questions));
    }
  }

  lemma Regroup(a: string, b: string, c: string)
    ensures (a + b) + c == a + (b + c)
  {
  }

  /** `head` followed by the numbered questions, one line at a time. */
  method AppendNumbered(head: string, questions: seq<string>) returns (r: string)
    ensures r == head + Numbered(questions)
  {
    r := head;
    var i := 0;
    assert head + "" == head;
    while i < |questions|
      invariant 0 <= i <= |questions|
      invariant r == head + Numbered(questions[..i])
    {
      var line := QuestionLine(i + 1, questions[i]);
      NumberedStep(questions, i);
      assert (head + Numbered(questions[..i])) + line == head + (Numbered(questions[..i]) + line);
      r := r + line;
      i := i + 1;
    }
    assert questions[..i] == questions;
  }

  /** `conduct_research`'s prompt. */
  method ResearchPrompt(topic: string, questions: seq<string>) returns (prompt: string)
    ensures prompt == ResearchPromptText(topic, questions)
  {
    prompt := AppendQuestions(ResearchOpening + topic + ResearchOutline, questions);
    prompt := prompt + ResearchClosing;
  }

  /** `conduct_research`: the model's reply to the research prompt, or None when the call fails. */
  method ConductResearch(complete: string -> Option<string>, topic: string, questions: seq<string>)
    returns (r: Option<string>)
    ensures r == complete(ResearchPromptText(topic, questions))
  {
    var prompt := ResearchPrompt(topic, questions);
    r := complete(prompt);
  }

  // ---------------------------------------------------------------------
  // follow_up_research

  /** At most this many of the latest messages are quoted back. */
  const ContextMessages: nat := 3

  /** Each quoted message is cut to this many characters. */
  const QuotedLength: nat := 500

  function ContextHead(topic: string): string {
    "Previous research on '" + topic + "':\n"
  }

  /** A quoted message: role, at most 500 characters of content, and always "...". */
  function ContextLine(m: Message): string {
    "\n" + m.role + ": " + Prefix(m.content, QuotedLength) + "..."
  }

  /** The latest messages, oldest first (`messages[-3:]`). */
  function RecentMessages(ms: seq<Message>): (r: seq<Message>)
    ensures |r| == Min(ContextMessages, |ms|)
    ensures r == ms[|ms| - |r|..]
  {
    Suffix(ms, -(ContextMessages as int))
  }

  function ContextLines(ms: seq<Message>): string
    decreases |ms|
  {
    if ms == [] then "" else ContextLines(ms[..|ms| - 1]) + ContextLine(ms[|ms| - 1])
  }

  /** The context quoted in the follow-up prompt. */
  function FollowUpContext(topic: string, ms: seq<Message>): string {
    ContextHead(topic) + ContextLines(RecentMessages(ms))
  }

  const FollowUpOpening: string := "\n        "

  const FollowUpRequest: string :=
    "\n        \n        Based on the previous research, please provide detailed information addressing this follow-up question:\n        \""

  const FollowUpClosing: string :=
    "\"\n        \n        Provide specific, detailed information that builds upon the previous research.\n        "

  function FollowUpPromptText(topic: string, ms: seq<Message>, question: string): string {
    FollowUpOpening + FollowUpContext(topic, ms) + FollowUpRequest + question + FollowUpClosing
  }

  lemma ContextLinesStep(ms: seq<Message>, i: nat)
    requires i < |ms|
    ensures ContextLines(ms[..i + 1]) == ContextLines(ms[..i]) + ContextLine(ms[i])
  {
    assert ms[..i + 1][..i] == ms[..i];
  }

  /** Each quoted message shows at most 500 characters of the content, then "...". */
  lemma ContextLineShape(m: Message)
    ensures var l := ContextLine(m);
      && l == "\n" + m.role + ": " + m.content[..Min(QuotedLength, |m.content|)] + "..."
      && l[|l| - 3..] == "..."
  {
  }

  /** The quoted lines are those of the latest messages, one each, oldest first. */
  lemma {:induction false} ContextLinesConcat(ms: seq<Message>)
    ensures ContextLines(ms) == Concat(seq(|ms|, j requires 0 <= j < |ms| => ContextLine(ms[j])))
    decreases |ms|
  {
    if ms != [] {
      var n := |ms| - 1;
      ContextLinesConcat(ms[..n]);
      var lines := seq(|ms|, j requires 0 <= j < |ms| => ContextLine(ms[j]));
      assert lines == seq(n, j requires 0 <= j < n => ContextLine(ms[..n][j])) + [ContextLine(ms[n])];
      ConcatSnoc(seq(n, j requires 0 <= j < n => ContextLine(ms[..n][j])), ContextLine(ms[n]));
    }
  }

  /** Messages older than the last three never reach the prompt. */
  lemma OlderMessagesIgnored(topic: string, older: seq<Message>, recent: seq<Message>)
    requires |recent| >= ContextMessages
    ensures FollowUpContext(topic, older + recent) == FollowUpContext(topic, recent)
  {
    var all := older + recent;
    assert all[|all| - 3..] == recent[|recent| - 3..];
  }

  /** `follow_up_research`'s context, built message by message. */
  method QuoteRecent(topic: string, messages: seq<Message>) returns (context: string)
    ensures context == FollowUpContext(topic, messages)
  {
    var recent := RecentMessages(messages);
    var head := ContextHead(topic);
    context := head;
    assert head + "" == head;
    var i := 0;
    while i < |recent|
      invariant 0 <= i <= |recent|
      invariant context == head + ContextLines(recent[..i])
    {
      var line := ContextLine(recent[i]);
      ContextLinesStep(recent, i);
      Regroup(head, ContextLines(recent[..i]), line);
      context := context + line;
      i := i + 1;
    }
    assert recent[..i] == recent;
  }

  /** `follow_up_research`'s prompt around the quoted context. */
  method FollowUpPrompt(thread: ResearchThread, question: string) returns (prompt: string)
    ensures prompt == FollowUpPromptText(thread.topic, thread.messages, question)
  {
    var context := QuoteRecent(thread.topic, thread.messages);
    prompt := FollowUpOpening + context + FollowUpRequest + question + FollowUpClosing;
  }

  /** `follow_up_research`: the model's reply to the follow-up prompt, or None when the call fails. */
  method FollowUpResearch(complete: string -> Option<string>, thread: ResearchThread, question: string)
    returns (r: Option<string>)
    ensures r == complete(FollowUpPromptText(thread.topic, thread.messages, question))
  {
    var prompt := FollowUpPrompt(thread, question);
    r := complete(prompt);
  }
}
