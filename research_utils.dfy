/**
 * Helpers of the research assistant: the list of threads kept in the
 * session, text truncation and word counts, the key-point heuristic and
 * the plain-text export of a thread. Timestamp formatting goes through
 * `datetime` and is a parameter `format`.
 */
module ResearchUtils {
  import opened Wrappers
  import opened PyStr
  import opened ResearchClient
  import opened Ranking

  // ---------------------------------------------------------------------
  // Threads in the session

  /** The index of the first thread with this id, or the length when there is none. */
  function FirstWithId(threads: seq<ResearchThread>, id: string): (k: nat)
    ensures k <= |threads|
    ensures forall j | 0 <= j < k :: threads[j].id != id
    ensures k < |threads| ==> threads[k].id == id
  {
    if threads == [] then 0
    else if threads[0].id == id then 0
    else 1 + FirstWithId(threads[1..], id)
  }

  /** The list after saving `t`: it replaces the first thread with its id, or goes at the end. */
  function Upserted(threads: seq<ResearchThread>, t: ResearchThread): seq<ResearchThread> {
    var k := FirstWithId(threads, t.id);
    if k < |threads| then threads[k := t] else threads + [t]
  }

  /** A missing session list reads as empty. */
  function Stored(threads: Option<seq<ResearchThread>>): seq<ResearchThread> {
    if threads.Some? then threads.value else []
  }

  predicate HasId(threads: seq<ResearchThread>, id: string) {
    exists j | 0 <= j < |threads| :: threads[j].id == id
  }

  predicate DistinctIds(threads: seq<ResearchThread>) {
    forall i, j | 0 <= i < j < |threads| :: threads[i].id != threads[j].id
  }

  /** `st.session_state`, as far as the research threads go. */
  class Session {
    var researchThreads: Option<seq<ResearchThread>>

    /** A session in which no thread list has been created yet. */
    constructor ()
      ensures researchThreads == None
    {
      researchThreads := None;
    }

    /** `save_thread_to_session`. */
    method SaveThread(thread: ResearchThread)
      modifies this
      ensures researchThreads == Some(Upserted(Stored(old(researchThreads)), thread))
    {
      if researchThreads.None? {
        researchThreads := Some([]);
      }
      var threads := researchThreads.value;
      var found := false;
      var i := 0;
      while i < |threads|
        invariant 0 <= i <= |threads|
        invariant !found && researchThreads == Some(threads)
        invariant forall j | 0 <= j < i :: threads[j].id != thread.id
      {
        if threads[i].id == thread.id {
          researchThreads := Some(threads[i := thread]);
          found := true;
          break;
        }
        i := i + 1;
      }
      if !found {
        researchThreads := Some(threads + [thread]);
      }
    }

    /** `get_threads_from_session`: the list, created empty when missing. */
    method GetThreads() returns (threads: seq<ResearchThread>)
      modifies this
      ensures threads == Stored(old(researchThreads))
      ensures researchThreads == Some(threads)
    {
      if researchThreads.None? {
        researchThreads := Some([]);
      }
      threads := researchThreads.value;
    }
  }

  /**
   * Saving a thread whose id is already listed replaces the first such entry
   * in place and touches no other; saving a new one appends it.
   */
  lemma UpsertedShape(threads: seq<ResearchThread>, t: ResearchThread)
    ensures var r := Upserted(threads, t);
      if HasId(threads, t.id) then
        var k := FirstWithId(threads, t.id);
        && |r| == |threads| && r[k] == t
        && (forall j | 0 <= j < k :: threads[j].id != t.id)
        && (forall j | 0 <= j < |r| && j != k :: r[j] == threads[j])
      else r == threads + [t]
  {
  }

  /** Saving the same thread twice is saving it once. */
  lemma UpsertedIdempotent(threads: seq<ResearchThread>, t: ResearchThread)
    ensures Upserted(Upserted(threads, t), t) == Upserted(threads, t)
  {
    var r := Upserted(threads, t);
    var k := FirstWithId(threads, t.id);
    assert r[k] == t;
    assert forall j | 0 <= j < k :: r[j] == threads[j];
    assert FirstWithId(r, t.id) == k;
  }

  /** Saving keeps the thread ids pairwise distinct, and the saved thread is listed. */
  lemma UpsertedKeepsIdsDistinct(threads: seq<ResearchThread>, t: ResearchThread)
    requires DistinctIds(threads)
    ensures DistinctIds(Upserted(threads, t))
    ensures t in Upserted(threads, t)
  {
    var k := FirstWithId(threads, t.id);
    var r := Upserted(threads, t);
    assert r[k] == t;
  }

  // ---------------------------------------------------------------------
  // Text helpers

  /** `truncate_text`: the text itself when short enough, else its first `maxLength` characters and "...". */
  function TruncateText(text: string, maxLength: int): (r: string)
    ensures |text| <= maxLength ==> r == text
    ensures 0 <= maxLength < |text| ==>
      && |r| == maxLength + 3
      && r[..maxLength] == text[..maxLength]
      && r[maxLength..] == "..."
  {
    if |text| <= maxLength then text else Prefix(text, maxLength) + "..."
  }

  /** A negative bound cuts that many characters off the end, as Python's slice does. */
  lemma TruncateNegative(text: string, maxLength: int)
    requires maxLength < 0
    ensures TruncateText(text, maxLength) == text[..Max(0, |text| + maxLength)] + "..."
  {
  }

  /** `count_words`: the number of whitespace-separated words. */
  function CountWords(text: string): nat {
    |Split(text)|
  }

  /** There are no words exactly when the text is all whitespace. */
  lemma CountWordsZeroIff(text: string)
    ensures CountWords(text) == 0 <==> IsBlank(text)
  {
    LStripFacts(text);
    var l := LStrip(text);
    if IsBlank(text) {
      SplitBlank(text);
    }
  }

  /** Words per minute assumed by the reading-time estimate. */
  const WordsPerMinute: nat := 200

  /** The reading-time metric: whole minutes at 200 words a minute, never below one. */
  function ReadingMinutes(words: nat): (r: nat)
    ensures r >= 1
    ensures words < 2 * WordsPerMinute ==> r == 1
    ensures words >= WordsPerMinute ==> r * WordsPerMinute <= words < (r + 1) * WordsPerMinute
  {
    Max(1, words / WordsPerMinute)
  }

  // ---------------------------------------------------------------------
  // extract_key_points

  predicate IsTerminator(c: char) {
    c == '.' || c == '!' || c == '?'
  }

  predicate NoTerminator(s: string) {
    forall i | 0 <= i < |s| :: !IsTerminator(s[i])
  }

  /** The index of the first sentence terminator, or the length when there is none. */
  function FirstTerminator(s: string): (k: nat)
    ensures k <= |s|
    ensures NoTerminator(s[..k])
    ensures k < |s| ==> IsTerminator(s[k])
  {
    if s == [] || IsTerminator(s[0]) then 0 else 1 + FirstTerminator(s[1..])
  }

  /** The length of the run of terminators that `s` starts with. */
  function TerminatorRun(s: string): (k: nat)
    ensures k <= |s|
    ensures forall i | 0 <= i < k :: IsTerminator(s[i])
    ensures k < |s| ==> !IsTerminator(s[k])
    ensures s != [] && IsTerminator(s[0]) ==> k >= 1
  {
    if s != [] && IsTerminator(s[0]) then 1 + TerminatorRun(s[1..]) else 0
  }

  /** `re.split(r'[.!?]+', text)`: the pieces between maximal runs of terminators. */
  function SplitSentences(s: string): (r: seq<string>)
    ensures |r| >= 1
    decreases |s|
  {
    var k := FirstTerminator(s);
    if k == |s| then [s]
    else
      var rest := s[k..];
      [s[..k]] + SplitSentences(rest[TerminatorRun(rest)..])
  }

  /** The text with every terminator deleted. */
  function WithoutTerminators(s: string): string
    decreases |s|
  {
    if s == [] then ""
    else (if IsTerminator(s[0]) then "" else [s[0]]) + WithoutTerminators(s[1..])
  }

  lemma {:induction false} WithoutTerminatorsConcat(a: string, b: string)
    ensures WithoutTerminators(a + b) == WithoutTerminators(a) + WithoutTerminators(b)
    decreases |a|
  {
    if a != [] {
      assert (a + b)[1..] == a[1..] + b;
      WithoutTerminatorsConcat(a[1..], b);
    } else {
      assert a + b == b;
    }
  }

  lemma {:induction false} WithoutTerminatorsPlain(s: string)
    requires NoTerminator(s)
    ensures WithoutTerminators(s) == s
    decreases |s|
  {
    if s != [] {
      WithoutTerminatorsPlain(s[1..]);
    }
  }

  lemma {:induction false} WithoutTerminatorsRun(s: string)
    requires forall i | 0 <= i < |s| :: IsTerminator(s[i])
    ensures WithoutTerminators(s) == ""
    decreases |s|
  {
    if s != [] {
      WithoutTerminatorsRun(s[1..]);
    }
  }

  /** Where `s` has a terminator, the split cuts off the piece before its first run. */
  lemma SplitCut(s: string) returns (head: string, run: string, tail: string)
    requires FirstTerminator(s) < |s|
    ensures s == head + (run + tail) && |tail| < |s|
    ensures NoTerminator(head) && forall i | 0 <= i < |run| :: IsTerminator(run[i])
    ensures SplitSentences(s) == [head] + SplitSentences(tail)
  {
    var k := FirstTerminator(s);
    var rest := s[k..];
    var n := TerminatorRun(rest);
    head, run, tail := s[..k], rest[..n], rest[n..];
    assert rest == run + tail;
  }

  /** No piece holds a terminator. */
  lemma SplitSentencesPlain(s: string)
    ensures forall j | 0 <= j < |SplitSentences(s)| :: NoTerminator(SplitSentences(s)[j])
  {
    forall j | 0 <= j < |SplitSentences(s)| ensures NoTerminator(SplitSentences(s)[j]) {
      SplitSentencesPlainAt(s, j);
    }
  }

  /** Piece `j` holds no terminator. */
  lemma {:induction false} SplitSentencesPlainAt(s: string, j: nat)
    requires j < |SplitSentences(s)|
    ensures NoTerminator(SplitSentences(s)[j])
    decreases |s|
  {
    if FirstTerminator(s) == |s| {
      assert s[..|s|] == s;
    } else {
      var head, run, tail := SplitCut(s);
      if j > 0 {
        SplitSentencesPlainAt(tail, j - 1);
      }
    }
  }

  /** Together the pieces are the text without its terminators. */
  lemma {:induction false} SplitSentencesConcat(s: string)
    ensures Concat(SplitSentences(s)) == WithoutTerminators(s)
    decreases |s|
  {
    if FirstTerminator(s) == |s| {
      assert s[..|s|] == s;
      WithoutTerminatorsPlain(s);
      assert Concat([s]) == s + Concat([]);
    } else {
      var head, run, tail := SplitCut(s);
      SplitSentencesConcat(tail);
      ConcatCons(head, SplitSentences(tail));
      PieceThenRun(head, run, tail);
    }
  }

  /** Deleting terminators keeps a plain piece and drops the run after it. */
  lemma PieceThenRun(head: string, run: string, tail: string)
    requires NoTerminator(head) && forall i | 0 <= i < |run| :: IsTerminator(run[i])
    ensures WithoutTerminators(head + (run + tail)) == head + WithoutTerminators(tail)
  {
    WithoutTerminatorsConcat(head, run + tail);
    WithoutTerminatorsConcat(run, tail);
    WithoutTerminatorsPlain(head);
    WithoutTerminatorsRun(run);
    assert "" + WithoutTerminators(tail) == WithoutTerminators(tail);
  }

  /** The minimum stripped length, exclusive, of a kept sentence. */
  const MinSentenceLength: nat := 20

  /** The stripped pieces longer than 20 characters, in order. */
  function KeptSentences(pieces: seq<string>): (r: seq<string>)
    ensures |r| <= |pieces|
  {
    if pieces == [] then []
    else
      var s := Strip(pieces[0]);
      (if |s| > MinSentenceLength then [s] else []) + KeptSentences(pieces[1..])
  }

  /** A sentence is kept exactly when it is a stripped piece longer than 20 characters. */
  lemma {:induction false} KeptSentencesMembers(pieces: seq<string>, s: string)
    ensures s in KeptSentences(pieces) <==>
      exists p | p in pieces :: s == Strip(p) && |s| > MinSentenceLength
    decreases |pieces|
  {
    if pieces != [] {
      KeptSentencesMembers(pieces[1..], s);
      var head := Strip(pieces[0]);
      var first := if |head| > MinSentenceLength then [head] else [];
      assert KeptSentences(pieces) == first + KeptSentences(pieces[1..]);
      assert s in KeptSentences(pieces) <==> s in first || s in KeptSentences(pieces[1..]);
      if s in KeptSentences(pieces[1..]) {
        var p :| p in pieces[1..] && s == Strip(p) && |s| > MinSentenceLength;
        assert p in pieces;
      }
      if exists p | p in pieces :: s == Strip(p) && |s| > MinSentenceLength {
        var p :| p in pieces && s == Strip(p) && |s| > MinSentenceLength;
        if p != pieces[0] {
          assert p in pieces[1..];
        }
      }
    }
  }

  /** A sentence with its score, in tenths: the word count, times 1.2 in the first 30% of sentences. */
  datatype ScoredSentence = ScoredSentence(sentence: string, score: nat)

  function SentenceScore(sentence: string, i: nat, n: nat): nat {
    CountWords(sentence) * (if 10 * i < 3 * n then 12 else 10)
  }

  /** Each kept sentence with the score of its position. */
  function ScoredSentences(ss: seq<string>): (r: seq<ScoredSentence>)
    ensures |r| == |ss|
    ensures forall i | 0 <= i < |r| :: r[i] == ScoredSentence(ss[i], SentenceScore(ss[i], i, |ss|))
  {
    seq(|ss|, i requires 0 <= i < |ss| => ScoredSentence(ss[i], SentenceScore(ss[i], i, |ss|)))
  }

  /** The scoring loop of `extract_key_points`. */
  method ScoreSentences(ss: seq<string>) returns (scored: seq<ScoredSentence>)
    ensures scored == ScoredSentences(ss)
  {
    scored := [];
    var i := 0;
    while i < |ss|
      invariant 0 <= i <= |ss|
      invariant scored == ScoredSentences(ss)[..i]
    {
      var score := CountWords(ss[i]) * (if 10 * i < 3 * |ss| then 12 else 10);
      scored := scored + [ScoredSentence(ss[i], score)];
      i := i + 1;
    }
  }

  function PointScore(s: ScoredSentence): nat {
    s.score
  }

  /** `sort(key=score, reverse=True)`: a stable sort by descending score. */
  function SortByScore(xs: seq<ScoredSentence>): seq<ScoredSentence> {
    SortDescending(xs, PointScore)
  }

  function Sentences(xs: seq<ScoredSentence>): (r: seq<string>)
    ensures |r| == |xs|
    ensures forall i | 0 <= i < |r| :: r[i] == xs[i].sentence
  {
    seq(|xs|, i requires 0 <= i < |xs| => xs[i].sentence)
  }

  /** `extract_key_points(text, num_points)` as a value. */
  function KeyPoints(text: string, numPoints: int): seq<string> {
    var kept := KeptSentences(SplitSentences(text));
    Prefix(Sentences(SortByScore(ScoredSentences(kept))), numPoints)
  }

  /** `extract_key_points`. */
  method ExtractKeyPoints(text: string, numPoints: int) returns (points: seq<string>)
    ensures points == KeyPoints(text, numPoints)
  {
    var kept := KeptSentences(SplitSentences(text));
    var scored := ScoreSentences(kept);
    points := Prefix(Sentences(SortByScore(scored)), numPoints);
  }

  /**
   * At most `numPoints` key points; each is a stripped piece of the text
   * between terminators, longer than 20 characters; and they are the first
   * entries of the kept sentences ordered by descending score, sentences
   * of equal score keeping their order in the text.
   */
  lemma KeyPointsSpec(text: string, numPoints: int)
    ensures var r := KeyPoints(text, numPoints);
      && (numPoints >= 0 ==> |r| <= numPoints)
      && (forall j | 0 <= j < |r| ::
            && |r[j]| > MinSentenceLength && NoTerminator(r[j])
            && exists p | p in SplitSentences(text) :: r[j] == Strip(p))
      && var sorted := SortByScore(ScoredSentences(KeptSentences(SplitSentences(text))));
         && Descending(sorted, PointScore)
         && multiset(sorted) == multiset(ScoredSentences(KeptSentences(SplitSentences(text))))
         && (forall v: nat :: WithKey(sorted, PointScore, v) == WithKey(ScoredSentences(KeptSentences(SplitSentences(text))), PointScore, v))
         && r == Sentences(sorted)[..|r|]
  {
    var pieces := SplitSentences(text);
    var kept := KeptSentences(pieces);
    var scored := ScoredSentences(kept);
    var sorted := SortByScore(scored);
    var r := KeyPoints(text, numPoints);
    SortPermutes(scored, PointScore);
    SortDescends(scored, PointScore);
    forall v: nat ensures WithKey(sorted, PointScore, v) == WithKey(scored, PointScore, v) {
      SortStable(scored, PointScore, v);
    }
    SplitSentencesPlain(text);
    forall j | 0 <= j < |r|
      ensures |r[j]| > MinSentenceLength && NoTerminator(r[j])
      ensures exists p | p in pieces :: r[j] == Strip(p)
    {
      assert r[j] == sorted[j].sentence;
      assert sorted[j] in multiset(scored);
      var i :| 0 <= i < |scored| && scored[i] == sorted[j];
      KeptPoint(pieces, kept[i]);
    }
  }

  /** A kept sentence is a long stripped piece, and so holds no terminator. */
  lemma KeptPoint(pieces: seq<string>, s: string)
    requires forall j | 0 <= j < |pieces| :: NoTerminator(pieces[j])
    requires s in KeptSentences(pieces)
    ensures |s| > MinSentenceLength && NoTerminator(s)
    ensures exists p | p in pieces :: s == Strip(p)
  {
    KeptSentencesMembers(pieces, s);
    var p :| p in pieces && s == Strip(p) && |s| > MinSentenceLength;
    StripNoTerminator(p);
  }

  /** Stripping a piece without terminators leaves none. */
  lemma StripNoTerminator(p: string)
    requires NoTerminator(p)
    ensures NoTerminator(Strip(p))
  {
    StripIsInfix(p);
    var lo, hi :| 0 <= lo <= hi <= |p| && Strip(p) == p[lo..hi];
    InfixNoTerminator(p, lo, hi);
  }

  lemma InfixNoTerminator(p: string, lo: nat, hi: nat)
    requires NoTerminator(p) && lo <= hi <= |p|
    ensures NoTerminator(p[lo..hi])
  {
    forall i | 0 <= i < hi - lo ensures !IsTerminator(p[lo..hi][i]) {
      assert p[lo..hi][i] == p[lo + i];
    }
  }

  // ---------------------------------------------------------------------
  // export_thread_to_text

  function ExportHeader(format: string -> string, topic: string, createdAt: string, lastUpdated: string): string {
    "Research Thread: " + topic + "\n"
    + "Created: " + format(createdAt) + "\n"
    + "Last Updated: " + format(lastUpdated) + "\n"
    + Repeat('=', 50) + "\n\n"
  }

  /** One message: the role in upper case, the content, the formatted timestamp and a rule. */
  function MessageBlock(format: string -> string, m: Message): string {
    Upper(m.role) + ":\n"
    + m.content + "\n"
    + "Timestamp: " + format(m.timestamp) + "\n"
    + Repeat('-', 30) + "\n\n"
  }

  function MessageBlocks(format: string -> string, ms: seq<Message>): string
    decreases |ms|
  {
    if ms == [] then "" else MessageBlocks(format, ms[..|ms| - 1]) + MessageBlock(format, ms[|ms| - 1])
  }

  /** The export of a thread: the header block, then one block per message. */
  function ExportText(format: string -> string, topic: string, createdAt: string, lastUpdated: string, ms: seq<Message>): string {
    ExportHeader(format, topic, createdAt, lastUpdated) + MessageBlocks(format, ms)
  }

  lemma MessageBlocksStep(format: string -> string, ms: seq<Message>, i: nat)
    requires i < |ms|
    ensures MessageBlocks(format, ms[..i + 1]) == MessageBlocks(format, ms[..i]) + MessageBlock(format, ms[i])
  {
    assert ms[..i + 1][..i] == ms[..i];
  }

  /** The blocks of two runs of messages are the blocks of the first, then those of the second. */
  lemma {:induction false} MessageBlocksConcat(format: string -> string, a: seq<Message>, b: seq<Message>)
    ensures MessageBlocks(format, a + b) == MessageBlocks(format, a) + MessageBlocks(format, b)
    decreases |b|
  {
    if b == [] {
      assert a + b == a;
    } else {
      var n := |b| - 1;
      assert (a + b)[..|a + b| - 1] == a + b[..n];
      MessageBlocksConcat(format, a, b[..n]);
      Regroup(MessageBlocks(format, a), MessageBlocks(format, b[..n]), MessageBlock(format, b[n]));
    }
  }

  /** Each block opens with the upper-cased role and holds the message's content. */
  lemma MessageBlockShape(format: string -> string, m: Message)
    ensures var b := MessageBlock(format, m);
      && b[..|m.role| + 2] == Upper(m.role) + ":\n"
      && Contains(b, m.content)
  {
    var b := MessageBlock(format, m);
    var head := Upper(m.role) + ":\n";
    var tail := "\n" + "Timestamp: " + format(m.timestamp) + "\n" + Repeat('-', 30) + "\n\n";
    assert b == head + m.content + tail;
    ContainsInfix(head, m.content, tail);
  }

  /** `export_thread_to_text`, built block by block. */
  method ExportThread(format: string -> string, thread: ResearchThread) returns (output: string)
    ensures output == ExportText(format, thread.topic, thread.createdAt, thread.lastUpdated, thread.messages)
  {
    var header := ExportHeader(format, thread.topic, thread.createdAt, thread.lastUpdated);
    output := header;
    assert header + "" == header;
    var i := 0;
    while i < |thread.messages|
      invariant 0 <= i <= |thread.messages|
      invariant output == header + MessageBlocks(format, thread.messages[..i])
    {
      var block := MessageBlock(format, thread.messages[i]);
      MessageBlocksStep(format, thread.messages, i);
      Regroup(header, MessageBlocks(format, thread.messages[..i]), block);
      output := output + block;
      i := i + 1;
    }
    assert thread.messages[..i] == thread.messages;
  }

  /** Adding a message to a thread adds its block at the end of the export's messages. */
  lemma ExportAfterAdd(format: string -> string, ms: seq<Message>, m: Message)
    ensures MessageBlocks(format, ms + [m]) == MessageBlocks(format, ms) + MessageBlock(format, m)
  {
    MessageBlocksConcat(format, ms, [m]);
    assert MessageBlocks(format, [m]) == MessageBlocks(format, []) + MessageBlock(format, m);
  }
}
