/**
 * The retrieval-augmented question answering helpers: overlapping
 * character chunks, filtering the nearest-neighbour index's answer, and the
 * prompt built from the retrieved chunks. Embeddings, the index search and
 * the generation model are not part of this model; the index's answer is a
 * parameter.
 */
module RagUtils {
  import opened PyStr

  const ChunkSize: int := 700
  const ChunkOverlap: int := 140

  // ---------------------------------------------------------------------
  // chunk_text

  /** `text[start:start + chunk_size]`. */
  function Window(text: string, start: nat, chunkSize: int): string {
    Slice(text, start, start + chunkSize)
  }

  /** `len(chunk.strip()) > 60`: a window is kept when it has more than 60 characters once stripped. */
  predicate Substantial(chunk: string) {
    |Strip(chunk)| > 60
  }

  /**
   * The starts `start, start + step, ...` below `len(text)` whose window
   * satisfies `keep`; `chunk_text` keeps the `Substantial` ones.
   */
  function KeptStarts(text: string, chunkSize: int, overlap: int, start: nat, keep: string -> bool): seq<nat>
    requires chunkSize > overlap || text == ""
    decreases |text| - start
  {
    if start >= |text| then []
    else
      (if keep(Window(text, start, chunkSize)) then [start] else [])
      + KeptStarts(text, chunkSize, overlap, start + (chunkSize - overlap), keep)
  }

  /** The windows at `starts`, in order. */
  function WindowsAt(text: string, starts: seq<nat>, chunkSize: int): (r: seq<string>)
    ensures |r| == |starts|
  {
    if starts == [] then []
    else WindowsAt(text, starts[..|starts| - 1], chunkSize) + [Window(text, starts[|starts| - 1], chunkSize)]
  }

  lemma {:induction false} WindowsAtIndex(text: string, starts: seq<nat>, chunkSize: int, k: nat)
    requires k < |starts|
    ensures WindowsAt(text, starts, chunkSize)[k] == Window(text, starts[k], chunkSize)
  {
    if k < |starts| - 1 {
      WindowsAtIndex(text, starts[..|starts| - 1], chunkSize, k);
    }
  }

  /** What `chunk_text(text, chunk_size, overlap)` returns. */
  function Chunks(text: string, chunkSize: int, overlap: int): seq<string>
    requires chunkSize > overlap || text == ""
  {
    WindowsAt(text, KeptStarts(text, chunkSize, overlap, 0, Substantial), chunkSize)
  }

  /** An empty text has no chunks, whatever the sizes: the loop does not start. */
  lemma EmptyTextNoChunks(chunkSize: int, overlap: int)
    ensures Chunks("", chunkSize, overlap) == []
  {
  }

  /** `chunk_text`; on a non-empty text it terminates only when the step `chunk_size - overlap` is positive. */
  method ChunkText(text: string, chunkSize: int, overlap: int) returns (chunks: seq<string>)
    requires chunkSize > overlap || text == ""
    ensures chunks == Chunks(text, chunkSize, overlap)
  {
    chunks := KeepWindows(text, chunkSize, overlap, Substantial);
  }

  /** The loop of `chunk_text`, with the test a window must pass (`Substantial` there) as a parameter. */
  method KeepWindows(text: string, chunkSize: int, overlap: int, keep: string -> bool) returns (chunks: seq<string>)
    requires chunkSize > overlap || text == ""
    ensures chunks == WindowsAt(text, KeptStarts(text, chunkSize, overlap, 0, keep), chunkSize)
  {
    chunks := [];
    var start: nat := 0;
    ghost var done: seq<nat> := [];
    while start < |text|
      invariant KeptStarts(text, chunkSize, overlap, 0, keep)
             == done + KeptStarts(text, chunkSize, overlap, start, keep)
      invariant chunks == WindowsAt(text, done, chunkSize)
      decreases |text| - start
    {
      var chunk := Slice(text, start, start + chunkSize);
      KeepStep(text, chunkSize, overlap, start, keep, done);
      if keep(chunk) {
        WindowsAtSnoc(text, done, start, chunkSize);
        chunks := chunks + [chunk];
        done := done + [start];
      } else {
        assert done + [] == done;
      }
      start := start + (chunkSize - overlap);
    }
    assert done == KeptStarts(text, chunkSize, overlap, 0, keep);
  }

  /** One step of `KeptStarts`, after the starts already kept. */
  lemma KeepStep(text: string, chunkSize: int, overlap: int, start: nat, keep: string -> bool, done: seq<nat>)
    requires chunkSize > overlap && start < |text|
    ensures done + KeptStarts(text, chunkSize, overlap, start, keep)
         == (done + (if keep(Window(text, start, chunkSize)) then [start] else []))
            + KeptStarts(text, chunkSize, overlap, start + (chunkSize - overlap), keep)
  {
  }

  lemma WindowsAtSnoc(text: string, starts: seq<nat>, start: nat, chunkSize: int)
    ensures WindowsAt(text, starts + [start], chunkSize) == WindowsAt(text, starts, chunkSize) + [Window(text, start, chunkSize)]
  {
    assert (starts + [start])[..|starts|] == starts;
  }

  /** Every kept start lies in the text and its window passes `keep`. */
  lemma {:induction false} KeptStartsInText(text: string, chunkSize: int, overlap: int, start: nat,
                                            keep: string -> bool)
    requires chunkSize > overlap
    ensures forall s | s in KeptStarts(text, chunkSize, overlap, start, keep) ::
      start <= s < |text| && keep(Window(text, s, chunkSize))
    decreases |text| - start
  {
    if start < |text| {
      KeptStartsInText(text, chunkSize, overlap, start + (chunkSize - overlap), keep);
    }
  }

  /** `d` is a whole number of steps. */
  predicate StepMultiple(d: int, step: int)
    requires step > 0
    decreases d
  {
    d == 0 || (d >= step && StepMultiple(d - step, step))
  }

  /** Windows start at `start` plus a whole number of steps. */
  lemma {:induction false} KeptStartsAligned(text: string, chunkSize: int, overlap: int, start: nat,
                                             keep: string -> bool)
    requires chunkSize > overlap
    ensures forall s | s in KeptStarts(text, chunkSize, overlap, start, keep) ::
      StepMultiple(s - start, chunkSize - overlap)
    decreases |text| - start
  {
    if start < |text| {
      var step := chunkSize - overlap;
      var next := start + step;
      KeptStartsAligned(text, chunkSize, overlap, next, keep);
      KeptStartsInText(text, chunkSize, overlap, next, keep);
      forall s | s in KeptStarts(text, chunkSize, overlap, next, keep)
        ensures StepMultiple(s - start, step)
      {
        assert s - start - step == s - next;
      }
    }
  }

  predicate Increasing(s: seq<nat>) {
    forall j, k | 0 <= j < k < |s| :: s[j] < s[k]
  }

  /** The kept windows are in increasing start order. */
  lemma {:induction false} KeptStartsIncreasing(text: string, chunkSize: int, overlap: int, start: nat,
                                                keep: string -> bool)
    requires chunkSize > overlap
    ensures Increasing(KeptStarts(text, chunkSize, overlap, start, keep))
    decreases |text| - start
  {
    if start < |text| {
      var next := start + (chunkSize - overlap);
      KeptStartsIncreasing(text, chunkSize, overlap, next, keep);
      KeptStartsInText(text, chunkSize, overlap, next, keep);
      var rest := KeptStarts(text, chunkSize, overlap, next, keep);
      if keep(Window(text, start, chunkSize)) {
        var starts := KeptStarts(text, chunkSize, overlap, start, keep);
        assert starts == [start] + rest && starts[0] == start;
        forall j, k | 0 <= j < k < |starts| ensures starts[j] < starts[k] {
          assert starts[k] == rest[k - 1] && starts[k] in rest;
          if j > 0 {
            assert starts[j] == rest[j - 1];
          }
        }
      } else {
        assert KeptStarts(text, chunkSize, overlap, start, keep) == rest;
      }
    }
  }

  /** At most one chunk per step of the text: the count is at most ceil(len / step). */
  lemma {:induction false} KeptStartsCount(text: string, chunkSize: int, overlap: int, start: nat,
                                           keep: string -> bool)
    requires chunkSize > overlap && start <= |text|
    ensures |KeptStarts(text, chunkSize, overlap, start, keep)| * (chunkSize - overlap)
         <= |text| - start + (chunkSize - overlap) - 1
    decreases |text| - start
  {
    var step := chunkSize - overlap;
    if start < |text| {
      KeepStep(text, chunkSize, overlap, start, keep, []);
      var n := |KeptStarts(text, chunkSize, overlap, start, keep)|;
      var m := |KeptStarts(text, chunkSize, overlap, start + step, keep)|;
      if start + step <= |text| {
        KeptStartsCount(text, chunkSize, overlap, start + step, keep);
      } else {
        assert m == 0;
      }
      OneMoreStep(n, m, step);
    }
  }

  lemma OneMoreStep(n: nat, m: nat, step: int)
    requires n <= m + 1 && step > 0
    ensures n * step <= m * step + step
  {
    assert (m + 1) * step == m * step + step;
  }

  lemma WindowIsInfix(text: string, start: nat, chunkSize: int)
    requires start < |text| && 0 <= chunkSize
    ensures Window(text, start, chunkSize) == text[start..Min(start + chunkSize, |text|)]
  {
  }

  /** `chunk` is `text[start:start + chunk_size]` for a start inside the text. */
  predicate ChunkAt(text: string, chunk: string, start: nat, chunkSize: int) {
    0 <= chunkSize && start < |text| && chunk == text[start..Min(start + chunkSize, |text|)]
  }

  /** Each chunk is a substantial part of the text, no longer than `chunk_size`. */
  lemma ChunkShape(text: string, chunkSize: int, overlap: int, k: nat)
    requires 0 <= chunkSize && chunkSize > overlap
    requires k < |Chunks(text, chunkSize, overlap)|
    ensures ChunkAt(text, Chunks(text, chunkSize, overlap)[k],
                    KeptStarts(text, chunkSize, overlap, 0, Substantial)[k], chunkSize)
    ensures |Chunks(text, chunkSize, overlap)[k]| <= chunkSize
    ensures Substantial(Chunks(text, chunkSize, overlap)[k])
  {
    var starts := KeptStarts(text, chunkSize, overlap, 0, Substantial);
    var s := starts[k];
    var c := Chunks(text, chunkSize, overlap)[k];
    WindowsAtIndex(text, starts, chunkSize, k);
    KeptStartsInText(text, chunkSize, overlap, 0, Substantial);
    assert s in starts;
    WindowIsInfix(text, s, chunkSize);
    assert c == text[s..Min(s + chunkSize, |text|)];
  }

  /** With the defaults windows advance by 560 characters. */
  lemma DefaultStep()
    ensures ChunkSize - ChunkOverlap == 560
  {
  }

  // ---------------------------------------------------------------------
  // retrieve

  /** One entry of the index's answer: a chunk position (-1 for none) and its distance. */
  datatype Neighbor = Neighbor(idx: int, dist: real)

  /** The index returns positions of stored vectors, or -1 for a missing neighbour. */
  predicate IndexAnswer(neighbors: seq<Neighbor>) {
    forall k | 0 <= k < |neighbors| :: neighbors[k].idx >= -1
  }

  predicate Found(n: Neighbor, chunks: seq<string>) {
    n.idx != -1 && n.idx < |chunks|
  }

  /** The `(chunk, distance)` pairs `retrieve` keeps, in the index's order. */
  function Hits(neighbors: seq<Neighbor>, chunks: seq<string>): (r: seq<(string, real)>)
    requires IndexAnswer(neighbors)
    ensures |r| <= |neighbors|
    ensures forall k | 0 <= k < |r| :: r[k].0 in chunks
  {
    if neighbors == [] then []
    else
      var init := neighbors[..|neighbors| - 1];
      var n := neighbors[|neighbors| - 1];
      assert IndexAnswer(init) by {
        assert forall k | 0 <= k < |init| :: init[k] == neighbors[k];
      }
      Hits(init, chunks) + (if Found(n, chunks) then [(chunks[n.idx], n.dist)] else [])
  }

  /** `retrieve` once the index has answered: keep the neighbours that name a chunk. */
  method Retrieve(neighbors: seq<Neighbor>, chunks: seq<string>) returns (results: seq<(string, real)>)
    requires IndexAnswer(neighbors)
    ensures results == Hits(neighbors, chunks)
  {
    results := [];
    var i := 0;
    while i < |neighbors|
      invariant 0 <= i <= |neighbors|
      invariant IndexAnswer(neighbors[..i])
      invariant results == Hits(neighbors[..i], chunks)
    {
      assert neighbors[..i + 1][..i] == neighbors[..i];
      var n := neighbors[i];
      if n.idx != -1 && n.idx < |chunks| {
        results := results + [(chunks[n.idx], n.dist)];
      }
      i := i + 1;
    }
    assert neighbors[..i] == neighbors;
  }

  /** A missing neighbour is dropped, and so is a position past the chunk list. */
  lemma MissingNeighborDropped(neighbors: seq<Neighbor>, chunks: seq<string>, n: Neighbor)
    requires IndexAnswer(neighbors) && n.idx >= -1 && !Found(n, chunks)
    ensures IndexAnswer(neighbors + [n])
    ensures Hits(neighbors + [n], chunks) == Hits(neighbors, chunks)
  {
    assert (neighbors + [n])[..|neighbors|] == neighbors;
  }

  /** When every neighbour names a chunk, every one is returned, with its distance, in order. */
  lemma {:induction false} AllFound(neighbors: seq<Neighbor>, chunks: seq<string>)
    requires IndexAnswer(neighbors)
    requires forall k | 0 <= k < |neighbors| :: Found(neighbors[k], chunks)
    ensures var r := Hits(neighbors, chunks);
      |r| == |neighbors|
      && forall k | 0 <= k < |r| ::
           0 <= neighbors[k].idx < |chunks| && r[k] == (chunks[neighbors[k].idx], neighbors[k].dist)
  {
    if neighbors != [] {
      var init := neighbors[..|neighbors| - 1];
      assert forall k | 0 <= k < |init| :: init[k] == neighbors[k];
      AllFound(init, chunks);
    }
  }

  // ---------------------------------------------------------------------
  // generate_answer

  /** The context handed to the model: the chunk texts joined by blank lines, distances dropped. */
  function Context(results: seq<(string, real)>): string {
    Join("\n\n", seq(|results|, k requires 0 <= k < |results| => results[k].0))
  }

  /** The context holds every retrieved chunk. */
  lemma ContextHoldsEveryChunk(results: seq<(string, real)>, k: int)
    requires 0 <= k < |results|
    ensures Contains(Context(results), results[k].0)
  {
    var texts := seq(|results|, j requires 0 <= j < |results| => results[j].0);
    JoinContainsPart("\n\n", texts, k);
  }

  /** Distances do not affect the context. */
  lemma ContextIgnoresDistances(a: seq<(string, real)>, b: seq<(string, real)>)
    requires |a| == |b| && forall k | 0 <= k < |a| :: a[k].0 == b[k].0
    ensures Context(a) == Context(b)
  {
    var ta := seq(|a|, j requires 0 <= j < |a| => a[j].0);
    var tb := seq(|b|, j requires 0 <= j < |b| => b[j].0);
    assert ta == tb;
  }

  const PromptHead: string :=
    "You are a helpful assistant that answers questions based ONLY on the provided context.\n"
    + "If the information is not in the context, say \"I don't have enough information to answer this.\"\n\n"
    + "Context:\n"

  /** The prompt `generate_answer` sends. */
  function AnswerPrompt(query: string, results: seq<(string, real)>): (p: string)
    ensures Contains(p, Context(results)) && Contains(p, query)
  {
    PromptContains(PromptHead, Context(results), "\n\nQuestion: ", query, "\n\nAnswer:");
    PromptHead + Context(results) + ("\n\nQuestion: " + query + "\n\nAnswer:")
  }

  /** A prompt assembled around the context and the query contains both. */
  lemma PromptContains(head: string, context: string, before: string, query: string, after: string)
    ensures var p := head + context + (before + query + after);
      Contains(p, context) && Contains(p, query)
  {
    var p := head + context + (before + query + after);
    ContainsInfix(head, context, before + query + after);
    assert p == (head + context + before) + query + after;
    ContainsInfix(head + context + before, query, after);
  }

  /** `generate_answer`: the model's reply to the prompt, stripped; `chat` is the model. */
  function GenerateAnswer(query: string, results: seq<(string, real)>, chat: string -> string): (a: string)
    ensures |a| <= |chat(AnswerPrompt(query, results))|
    ensures a == [] || (!IsSpace(a[0]) && !IsSpace(a[|a| - 1]))
  {
    var reply := chat(AnswerPrompt(query, results));
    var a := Strip(reply);
    StripEnds(reply);
    a
  }
}
