/**
 * The local lexical search of the knowledge store (`_local_search`), the
 * fallback used whenever vector search is off, fails or finds nothing.
 *
 * Scores are kept in tenths of a point: an exact match is worth 10, a
 * partial match 5 and a chunk admitted by the lenient pass 1. The source's
 * test `score / n >= 0.1` is then `score10 >= n` for n > 0.
 */
module LexicalSearch {
  import opened Wrappers
  import opened PyStr
  import opened Documents
  import opened Ranking

  const StopWords: set<string> :=
    {"the", "a", "an", "and", "or", "but", "in", "on", "at", "to", "for", "of", "with", "by"}

  const NoDocumentsMessage: string := "No PDF documents uploaded yet."
  const PreviewLength: nat := 500

  /** The sentinel for a search that found nothing; a None or empty category is left out. */
  function NoContentMessage(category: Option<string>): string {
    NoContentHead
      + (if category.Some? && category.value != "" then " " + category.value else "")
      + NoContentTail
  }

  const NoContentHead: string := "No relevant content found in"
  const NoContentTail: string := " documents."

  // ---------------------------------------------------------------------
  // Query words and chunk scores

  /** The query words that are not stop words and longer than one character. */
  function SignificantWords(words: seq<string>): (r: seq<string>)
    ensures forall k | 0 <= k < |r| :: r[k] in words && r[k] !in StopWords && |r[k]| > 1
    ensures forall w | w in words && w !in StopWords && |w| > 1 :: w in r
  {
    if words == [] then []
    else
      (if words[0] !in StopWords && |words[0]| > 1 then [words[0]] else [])
        + SignificantWords(words[1..])
  }

  /** One word is kept, once, exactly when it is significant. */
  lemma SignificantWordsSingle(w: string)
    ensures SignificantWords([w]) == if w !in StopWords && |w| > 1 then [w] else []
  {
    assert [w][1..] == [];
  }

  /** The filter distributes over concatenation, so it keeps query order and repetitions. */
  lemma {:induction false} SignificantWordsConcat(a: seq<string>, b: seq<string>)
    ensures SignificantWords(a + b) == SignificantWords(a) + SignificantWords(b)
  {
    if a != [] {
      assert (a + b)[0] == a[0];
      assert (a + b)[1..] == a[1..] + b;
      SignificantWordsConcat(a[1..], b);
    } else {
      assert a + b == b;
    }
  }

  /** The words scored against every chunk; all words when none is significant. */
  function QueryWords(query: string): seq<string> {
    var words := Split(Lower(query));
    var significant := SignificantWords(words);
    if significant == [] then words else significant
  }

  /** A partial match: substring either way, both words longer than two characters. */
  predicate PartialOverlap(word: string, token: string) {
    (Contains(token, word) || Contains(word, token)) && |word| > 2 && |token| > 2
  }

  predicate HasPartial(word: string, tokens: seq<string>) {
    exists t | t in tokens :: PartialOverlap(word, t)
  }

  /** Words found, as substrings, anywhere in the lower-cased chunk. */
  function MatchCount(words: seq<string>, textLower: string): (n: nat)
    ensures n <= |words|
  {
    if words == [] then 0
    else MatchCount(words[..|words| - 1], textLower)
         + (if Contains(textLower, words[|words| - 1]) then 1 else 0)
  }

  /** Words not found but partially matching some chunk token (one half point each). */
  function PartialCount(words: seq<string>, textLower: string): (n: nat)
    ensures n <= |words|
  {
    if words == [] then 0
    else
      var w := words[|words| - 1];
      PartialCount(words[..|words| - 1], textLower)
        + (if !Contains(textLower, w) && HasPartial(w, Split(textLower)) then 1 else 0)
  }

  lemma {:induction false} CountsBounded(words: seq<string>, textLower: string)
    ensures MatchCount(words, textLower) + PartialCount(words, textLower) <= |words|
  {
    if words != [] {
      CountsBounded(words[..|words| - 1], textLower);
    }
  }

  /** `total_score` in tenths. */
  function Score(words: seq<string>, textLower: string): nat {
    10 * MatchCount(words, textLower) + 5 * PartialCount(words, textLower)
  }

  /** The score moves in half points and is at most one point per query word. */
  lemma ScoreBounds(words: seq<string>, textLower: string)
    ensures Score(words, textLower) % 5 == 0
    ensures Score(words, textLower) <= 10 * |words|
  {
    CountsBounded(words, textLower);
  }

  /** `match_ratio >= 0.1 or matches >= 1`, with the ratio 0 when there are no words. */
  predicate Keeps(words: seq<string>, textLower: string) {
    || (|words| > 0 && Score(words, textLower) >= |words|)
    || MatchCount(words, textLower) >= 1
  }

  /** Only the requested category is searched (every chunk for None); the user is never looked at. */
  predicate InCategory(d: Doc, category: Option<string>) {
    category.None? || Get(d.metadata, "category") == Some(Str(category.value))
  }

  datatype Scored = Scored(doc: Doc, score: nat)

  /** The first pass over the store, in store order. */
  function FirstPass(docs: seq<Doc>, category: Option<string>, words: seq<string>): (r: seq<Scored>)
    ensures |r| <= |docs|
  {
    if docs == [] then []
    else FirstPass(docs[..|docs| - 1], category, words) + FirstPassEntry(docs[|docs| - 1], category, words)
  }

  /** What the first pass keeps of one chunk: its scored entry, when it is in the category and relevant. */
  function FirstPassEntry(d: Doc, category: Option<string>, words: seq<string>): (r: seq<Scored>)
    ensures |r| <= 1
  {
    var t := Lower(d.text);
    if InCategory(d, category) && Keeps(words, t) then [Scored(d, Score(words, t))] else []
  }

  lemma FirstPassStep(docs: seq<Doc>, i: nat, category: Option<string>, words: seq<string>)
    requires i < |docs|
    ensures FirstPass(docs[..i + 1], category, words)
         == FirstPass(docs[..i], category, words) + FirstPassEntry(docs[i], category, words)
  {
    assert docs[..i + 1][..i] == docs[..i];
  }

  /** `any(word in text_lower for word in query_words if len(word) > 2)`. */
  predicate AnyLongWordIn(words: seq<string>, textLower: string) {
    exists w | w in words :: |w| > 2 && Contains(textLower, w)
  }

  /** The lenient pass: every chunk holding a query word longer than two characters, at score 0.1. */
  function LenientPass(docs: seq<Doc>, category: Option<string>, words: seq<string>): (r: seq<Scored>)
    ensures |r| <= |docs|
  {
    if docs == [] then []
    else LenientPass(docs[..|docs| - 1], category, words) + LenientEntry(docs[|docs| - 1], category, words)
  }

  /** What the lenient pass keeps of one chunk. */
  function LenientEntry(d: Doc, category: Option<string>, words: seq<string>): (r: seq<Scored>)
    ensures |r| <= 1
  {
    if InCategory(d, category) && AnyLongWordIn(words, Lower(d.text)) then [Scored(d, 1)] else []
  }

  lemma LenientPassStep(docs: seq<Doc>, i: nat, category: Option<string>, words: seq<string>)
    requires i < |docs|
    ensures LenientPass(docs[..i + 1], category, words)
         == LenientPass(docs[..i], category, words) + LenientEntry(docs[i], category, words)
  {
    assert docs[..i + 1][..i] == docs[..i];
  }

  /** The lenient pass runs only when the first pass kept nothing. */
  function Relevant(docs: seq<Doc>, category: Option<string>, query: string): seq<Scored> {
    var first := FirstPass(docs, category, QueryWords(query));
    if first != [] then first else LenientPass(docs, category, Split(Lower(query)))
  }

  // ---------------------------------------------------------------------
  // Stable sort by descending score (`list.sort(key=..., reverse=True)`)

  function ScoreOf(s: Scored): nat {
    s.score
  }

  /** The ranking's sort: stable, by descending score. */
  function SortByScore(xs: seq<Scored>): seq<Scored> {
    SortDescending(xs, ScoreOf)
  }

  predicate SortedDesc(s: seq<Scored>) {
    forall i, j | 0 <= i < j < |s| :: s[i].score >= s[j].score
  }

  /** The ranking is a permutation of the relevant chunks, by non-increasing score, and chunks of equal score keep their store order. */
  lemma SortByScoreSpec(xs: seq<Scored>)
    ensures multiset(SortByScore(xs)) == multiset(xs)
    ensures SortedDesc(SortByScore(xs))
    ensures forall v: nat :: WithKey(SortByScore(xs), ScoreOf, v) == WithKey(xs, ScoreOf, v)
  {
    SortPermutes(xs, ScoreOf);
    SortDescends(xs, ScoreOf);
    forall v: nat ensures WithKey(SortByScore(xs), ScoreOf, v) == WithKey(xs, ScoreOf, v) {
      SortStable(xs, ScoreOf, v);
    }
  }

  // ---------------------------------------------------------------------
  // Rendering and the whole search

  /** `f"From {source_name}: {text_preview}\n\n"`. */
  function Block(s: Scored): string {
    "From " + Show(Get(s.doc.metadata, "source").GetOr(Str("document"))) + ": "
      + Prefix(s.doc.text, PreviewLength) + "\n\n"
  }

  /** The rendered blocks of the ranking, concatenated. */
  function Blocks(top: seq<Scored>): string {
    Rendered(top, Block)
  }

  /** The concatenation of `render(s)` over `top`, in order. */
  function Rendered(top: seq<Scored>, render: Scored -> string): string {
    if top == [] then "" else Rendered(top[..|top| - 1], render) + render(top[|top| - 1])
  }

  /** The ranked chunks that are rendered: the first `top_k` after sorting. */
  function Top(docs: seq<Doc>, category: Option<string>, query: string, topK: int): seq<Scored> {
    Prefix(SortByScore(Relevant(docs, category, query)), topK)
  }

  /** What `_local_search(query, category, top_k)` returns over the chunks `docs`. */
  function LocalSearchResult(docs: seq<Doc>, query: string, category: Option<string>, topK: int): string {
    if docs == [] then NoDocumentsMessage
    else if Relevant(docs, category, query) == [] then NoContentMessage(category)
    else Strip(Blocks(Top(docs, category, query, topK)))
  }

  // ---------------------------------------------------------------------
  // Properties

  /** Membership in the first pass, both directions. */
  lemma {:induction false} FirstPassMembers(docs: seq<Doc>, category: Option<string>, words: seq<string>, s: Scored)
    ensures s in FirstPass(docs, category, words) <==>
      && s.doc in docs && InCategory(s.doc, category)
      && Keeps(words, Lower(s.doc.text)) && s.score == Score(words, Lower(s.doc.text))
  {
    if docs != [] {
      var init, d := docs[..|docs| - 1], docs[|docs| - 1];
      FirstPassMembers(init, category, words, s);
      assert docs == init + [d];
      assert s.doc in docs <==> s.doc in init || s.doc == d;
      var entry := FirstPassEntry(d, category, words);
      assert s in entry <==>
        s.doc == d && InCategory(d, category) && Keeps(words, Lower(d.text)) && s.score == Score(words, Lower(d.text));
      assert s in FirstPass(docs, category, words) <==> s in FirstPass(init, category, words) || s in entry;
    }
  }

  lemma {:induction false} LenientPassMembers(docs: seq<Doc>, category: Option<string>, words: seq<string>, s: Scored)
    ensures s in LenientPass(docs, category, words) <==>
      && s.doc in docs && InCategory(s.doc, category)
      && AnyLongWordIn(words, Lower(s.doc.text)) && s.score == 1
  {
    if docs != [] {
      var init, d := docs[..|docs| - 1], docs[|docs| - 1];
      LenientPassMembers(init, category, words, s);
      assert docs == init + [d];
      assert s.doc in docs <==> s.doc in init || s.doc == d;
      var entry := LenientEntry(d, category, words);
      assert s in entry <==>
        s.doc == d && InCategory(d, category) && AnyLongWordIn(words, Lower(d.text)) && s.score == 1;
      assert s in LenientPass(docs, category, words) <==> s in LenientPass(init, category, words) || s in entry;
    }
  }

  /** Every ranked chunk comes from the store and from the requested category. */
  lemma TopFromCategory(docs: seq<Doc>, category: Option<string>, query: string, topK: int, s: Scored)
    requires s in Top(docs, category, query, topK)
    ensures s.doc in docs && InCategory(s.doc, category)
  {
    var rel := Relevant(docs, category, query);
    var sorted := SortByScore(rel);
    SortByScoreSpec(rel);
    assert s in sorted;
    assert s in multiset(sorted);
    assert s in rel;
    if FirstPass(docs, category, QueryWords(query)) != [] {
      FirstPassMembers(docs, category, QueryWords(query), s);
    } else {
      LenientPassMembers(docs, category, Split(Lower(query)), s);
    }
  }

  /** At most `top_k` chunks, in non-increasing score order. */
  lemma TopBoundedAndOrdered(docs: seq<Doc>, category: Option<string>, query: string, topK: int)
    ensures var top := Top(docs, category, query, topK);
      && |top| <= |Relevant(docs, category, query)|
      && (topK >= 0 ==> |top| <= topK)
      && SortedDesc(top)
  {
    var rel := Relevant(docs, category, query);
    var sorted := SortByScore(rel);
    SortDescends(rel, ScoreOf);
    assert SortedDesc(sorted);
    var top := Prefix(sorted, topK);
    assert top == sorted[..|top|];
    forall i, j | 0 <= i < j < |top| ensures top[i].score >= top[j].score {
      assert top[i] == sorted[i] && top[j] == sorted[j];
    }
  }

  /** A chunk of the right category holding a query word is always kept by the first pass. */
  lemma ExactMatchIsKept(docs: seq<Doc>, category: Option<string>, query: string, d: Doc, w: string)
    requires d in docs && InCategory(d, category)
    requires w in QueryWords(query) && Contains(Lower(d.text), w)
    ensures Scored(d, Score(QueryWords(query), Lower(d.text))) in Relevant(docs, category, query)
  {
    var words := QueryWords(query);
    MatchCountPositive(words, Lower(d.text), w);
    FirstPassMembers(docs, category, words, Scored(d, Score(words, Lower(d.text))));
  }

  lemma {:induction false} MatchCountPositive(words: seq<string>, textLower: string, w: string)
    requires w in words && Contains(textLower, w)
    ensures MatchCount(words, textLower) >= 1
  {
    if words[|words| - 1] != w {
      assert w in words[..|words| - 1] by {
        assert words == words[..|words| - 1] + [words[|words| - 1]];
      }
      MatchCountPositive(words[..|words| - 1], textLower, w);
    }
  }

  /** All lenient scores are equal, so the lenient pass keeps store order. */
  lemma {:induction false} LenientPassScoresOne(docs: seq<Doc>, category: Option<string>, words: seq<string>)
    ensures forall k | 0 <= k < |LenientPass(docs, category, words)| :: LenientPass(docs, category, words)[k].score == 1
  {
    if docs != [] {
      LenientPassScoresOne(docs[..|docs| - 1], category, words);
    }
  }

  /** When the lenient pass decides, the ranking is the lenient pass in store order. */
  lemma LenientRankingKeepsStoreOrder(docs: seq<Doc>, category: Option<string>, query: string)
    requires FirstPass(docs, category, QueryWords(query)) == []
    ensures SortByScore(Relevant(docs, category, query)) == LenientPass(docs, category, Split(Lower(query)))
  {
    var lenient := LenientPass(docs, category, Split(Lower(query)));
    LenientPassScoresOne(docs, category, Split(Lower(query)));
    SortUniformIdentity(lenient, ScoreOf, 1);
  }

  /** A rendered result starts with "From ", so it is neither blank nor a bare sentinel. */
  lemma RenderedStartsWithFrom(top: seq<Scored>)
    requires top != []
    ensures var r := Strip(Blocks(top)); |r| >= 5 && r[..5] == "From "
  {
    BlocksStartWithFirst(top);
    var b := Blocks(top);
    var first := Block(top[0]);
    var src := Show(Get(top[0].doc.metadata, "source").GetOr(Str("document")));
    var rest := Prefix(top[0].doc.text, PreviewLength) + "\n\n";
    assert first == ("From " + src) + (": " + rest);
    assert first[5 + |src|] == ':';
    assert b[..5] == first[..5] && b[5 + |src|] == first[5 + |src|];
    StripKeepsFrom(Blocks(top), 5 + |src|);
  }

  /** The rendering of a non-empty ranking begins with the block of its best chunk. */
  lemma BlocksStartWithFirst(top: seq<Scored>)
    requires top != []
    ensures |Blocks(top)| >= |Block(top[0])| && Blocks(top)[..|Block(top[0])|] == Block(top[0])
  {
    RenderedStartsWithFirst(top, Block);
  }

  lemma {:induction false} RenderedStartsWithFirst(top: seq<Scored>, render: Scored -> string)
    requires top != []
    ensures |Rendered(top, render)| >= |render(top[0])|
    ensures Rendered(top, render)[..|render(top[0])|] == render(top[0])
  {
    var init := top[..|top| - 1];
    if init != [] {
      RenderedStartsWithFirst(init, render);
      assert init[0] == top[0];
      assert Rendered(top, render) == Rendered(init, render) + render(top[|top| - 1]);
    }
  }

  lemma StripKeepsFrom(b: string, p: nat)
    requires 5 <= p < |b| && b[..5] == "From " && b[p] == ':'
    ensures var r := Strip(b); |r| >= 5 && r[..5] == "From "
  {
    assert !IsSpace(b[0]);
    StripNoLeadingSpace(b);
    RStripKeepsNonSpace(b, p);
    RStripFacts(b);
    var r := RStrip(b);
    assert r[..5] == b[..|r|][..5];
  }

  lemma StripNoLeadingSpace(b: string)
    requires b != [] && !IsSpace(b[0])
    ensures Strip(b) == RStrip(b)
  {
    assert LStrip(b) == b;
  }

  lemma RStripKeepsNonSpace(b: string, p: nat)
    requires p < |b| && !IsSpace(b[p])
    ensures |RStrip(b)| > p
  {
    RStripFacts(b);
  }
}
