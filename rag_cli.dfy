/**
 * The command-line front end of the PDF question-answering tool: the chunk
 * file written by `ingest` and read back by `ask_question`, the preview
 * line printed for each match, and the dispatch of `sys.argv`. Reading and
 * writing files, the index and the printing are not modelled.
 */
module RagCli {
  import opened PyStr

  // ---------------------------------------------------------------------
  // The chunk file

  const Marker: string := "<CHUNK_SEPARATOR>"

  /** The separator written between chunks: the marker on a line of its own. */
  const ChunkSeparator: string := "\n" + Marker + "\n"

  /** The contents `ingest` writes to `index/chunks.txt`. */
  function SaveChunks(chunks: seq<string>): string {
    Join(ChunkSeparator, chunks)
  }

  /** The chunks `ask_question` reads back from the file's contents. */
  function LoadChunks(content: string): seq<string> {
    SplitOn(content, ChunkSeparator)
  }

  /** No character of the marker is a newline. */
  lemma MarkerHasNoNewline()
    ensures |Marker| == 17
    ensures forall i | 0 <= i < |Marker| :: Marker[i] != '\n'
  {
  }

  /**
   * In `c + separator + rest`, the first separator is the one after `c` when
   * `c` holds no marker: an earlier one would need a marker ending inside
   * `c` or crossing the newline that follows `c`.
   */
  lemma FirstSeparatorAfter(c: string, rest: string)
    requires !Contains(c, Marker)
    ensures Find(c + ChunkSeparator + rest, ChunkSeparator) == |c|
  {
    var s := c + ChunkSeparator + rest;
    MarkerHasNoNewline();
    assert OccursAt(s, ChunkSeparator, |c|) by {
      assert s[|c|..|c| + |ChunkSeparator|] == ChunkSeparator;
    }
    forall j | 0 <= j < |c| ensures !OccursAt(s, ChunkSeparator, j) {
      NoSeparatorBefore(c, rest, j);
    }
  }

  /** No separator starts at a position `j` inside `c`. */
  lemma NoSeparatorBefore(c: string, rest: string, j: nat)
    requires !Contains(c, Marker) && j < |c|
    ensures !OccursAt(c + ChunkSeparator + rest, ChunkSeparator, j)
  {
    var s := c + ChunkSeparator + rest;
    if j + 19 <= |s| {
      var w := s[j..j + 19];
      assert ChunkSeparator[1..18] == Marker;
      if j + 18 <= |c| {
        assert !OccursAt(c, Marker, j + 1);
        assert s[..|c|] == c;
        assert w[1..18] == s[j + 1..j + 18] == s[..|c|][j + 1..j + 18];
      } else {
        MarkerHasNoNewline();
        assert w[|c| - j] == s[|c|] == ChunkSeparator[0] == '\n';
        assert ChunkSeparator[|c| - j] == Marker[|c| - j - 1];
      }
    }
  }

  /** A chunk without a marker holds no separator either. */
  lemma NoMarkerNoSeparator(c: string)
    requires !Contains(c, Marker)
    ensures Find(c, ChunkSeparator) == -1
  {
    if Contains(c, ChunkSeparator) {
      ContainsInfix("\n", Marker, "\n");
      ContainsTransitive(c, ChunkSeparator, Marker);
      assert false;
    }
  }

  /** Splitting `c + separator + rest` cuts off `c` and goes on with `rest`. */
  lemma SplitAfterFirst(c: string, rest: string)
    requires !Contains(c, Marker)
    ensures LoadChunks(c + ChunkSeparator + rest) == [c] + LoadChunks(rest)
  {
    var s := c + ChunkSeparator + rest;
    FirstSeparatorAfter(c, rest);
    assert s[..|c|] == c;
    assert s[|c| + |ChunkSeparator|..] == rest;
  }

  /** Reading back what was written gives the chunks again when none of them holds the marker. */
  lemma {:induction false} ChunkFileRoundTrip(chunks: seq<string>)
    requires chunks != []
    requires forall k | 0 <= k < |chunks| :: !Contains(chunks[k], Marker)
    ensures LoadChunks(SaveChunks(chunks)) == chunks
    decreases |chunks|
  {
    if |chunks| == 1 {
      NoMarkerNoSeparator(chunks[0]);
    } else {
      var rest := Join(ChunkSeparator, chunks[1..]);
      assert SaveChunks(chunks) == chunks[0] + ChunkSeparator + rest;
      SplitAfterFirst(chunks[0], rest);
      ChunkFileRoundTrip(chunks[1..]);
      assert chunks == [chunks[0]] + chunks[1..];
    }
  }

  /** An empty list is written as the empty file, which reads back as one empty chunk. */
  lemma EmptyChunkList()
    ensures SaveChunks([]) == ""
    ensures LoadChunks(SaveChunks([])) == [""]
  {
    assert Find("", ChunkSeparator) == -1;
  }

  /**
   * Without the marker condition the round trip fails: a chunk ending in a
   * newline and the marker is glued to the separator that follows it.
   */
  lemma MarkerAtChunkEndBreaksRoundTrip()
    ensures var chunks := ["x" + "\n" + Marker, "b"];
      && (forall k | 0 <= k < |chunks| :: !Contains(chunks[k], ChunkSeparator))
      && LoadChunks(SaveChunks(chunks)) == ["x", Marker + "\n" + "b"]
  {
    var tail := Marker + "\n" + "b";
    NoSeparatorIn("x" + "\n" + Marker);
    NoSeparatorIn(tail);
    assert Find("b", ChunkSeparator) == -1;
    assert !Contains("x", Marker);
    GluedMarker("x", "b");
  }

  /** A chunk ending in a newline and the marker loses them to the chunk after it. */
  lemma GluedMarker(x: string, y: string)
    requires !Contains(x, Marker)
    ensures LoadChunks(SaveChunks([x + "\n" + Marker, y])) == [x] + LoadChunks(Marker + "\n" + y)
  {
    SaveTwo(x + "\n" + Marker, y);
    Regroup(x, Marker, y);
    SplitAfterFirst(x, Marker + "\n" + y);
  }

  /** Two chunks are written with one separator between them. */
  lemma SaveTwo(a: string, b: string)
    ensures SaveChunks([a, b]) == a + ChunkSeparator + b
  {
    assert [a, b][1..] == [b];
    assert Join(ChunkSeparator, [b]) == b;
    assert Join(ChunkSeparator, [a, b]) == a + ChunkSeparator + Join(ChunkSeparator, [b]);
  }

  /** The marker ending a chunk regroups with the separator after it. */
  lemma Regroup(x: string, m: string, y: string)
    ensures (x + "\n" + m) + ("\n" + m + "\n") + y == x + ("\n" + m + "\n") + (m + "\n" + y)
  {
  }

  /** A line of the separator's length that does not start with a newline holds no separator. */
  lemma NoSeparatorIn(w: string)
    requires |w| == |ChunkSeparator| && w[0] != '\n'
    ensures Find(w, ChunkSeparator) == -1
  {
    assert w[..19][0] == w[0];
    assert |w[1..]| < 19;
  }

  // ---------------------------------------------------------------------
  // The match preview

  const PreviewLength: nat := 90

  /**
   * The preview printed for a match: a text of at most 90 characters as it
   * is; a longer one with its newlines turned into spaces, cut to 90
   * characters, stripped and followed by "...".
   */
  function Preview(text: string): string {
    if |text| > PreviewLength then Strip(ReplaceChar(text, '\n', ' ')[..PreviewLength]) + "..." else text
  }

  /** Replacing every newline leaves none. */
  lemma FlatHasNoNewline(text: string)
    ensures forall i | 0 <= i < |text| :: ReplaceChar(text, '\n', ' ')[i] != '\n'
  {
  }

  /** A long text's preview: its first 90 characters on one line, stripped, then "...". */
  lemma LongPreview(text: string)
    requires |text| > PreviewLength
    ensures Preview(text) == Strip(ReplaceChar(text, '\n', ' ')[..PreviewLength]) + "..."
  {
  }

  /** A long text's preview is an infix of its first 90 characters, on one line, marked as cut. */
  lemma PreviewShape(text: string)
    ensures |text| <= PreviewLength ==> Preview(text) == text
    ensures |text| > PreviewLength ==>
      var p := Preview(text);
      && 3 <= |p| <= PreviewLength + 3
      && p[|p| - 3..] == "..."
      && (forall i | 0 <= i < |p| :: p[i] != '\n')
      && exists lo, hi | 0 <= lo <= hi <= PreviewLength ::
           p[..|p| - 3] == ReplaceChar(text, '\n', ' ')[lo..hi]
  {
    if |text| > PreviewLength {
      var line := ReplaceChar(text, '\n', ' ');
      var flat := line[..PreviewLength];
      LongPreview(text);
      StripIsInfix(flat);
      var lo, hi :| 0 <= lo <= hi <= |flat| && Strip(flat) == flat[lo..hi];
      assert Strip(flat) == flat[lo..hi] == line[lo..hi];
      assert Preview(text) == Strip(flat) + "...";
      FlatHasNoNewline(text);
      CutShape(line, lo, hi);
    }
  }

  /** A piece of a line without newlines, followed by "...". */
  lemma CutShape(line: string, lo: nat, hi: nat)
    requires lo <= hi <= PreviewLength <= |line|
    requires forall i | 0 <= i < |line| :: line[i] != '\n'
    ensures var p := line[lo..hi] + "...";
      && 3 <= |p| <= PreviewLength + 3
      && p[|p| - 3..] == "..."
      && (forall i | 0 <= i < |p| :: p[i] != '\n')
      && p[..|p| - 3] == line[lo..hi]
  {
    var p := line[lo..hi] + "...";
    forall i | 0 <= i < |p| ensures p[i] != '\n' {
      if i < hi - lo {
        assert p[i] == line[lo + i];
      }
    }
  }

  // ---------------------------------------------------------------------
  // Command dispatch

  /** What `main` does with its arguments; `argv[0]` is the program name. */
  datatype Action =
    | Usage
    | MissingPdfPath
    | FileNotFound(path: string)
    | Ingest(path: string)
    | MissingQuestion
    | Ask(question: string)
    | UnknownCommand(command: string)

  /** `main()`, given whether a path exists on disk. */
  function Dispatch(argv: seq<string>, pathExists: string -> bool): Action {
    if |argv| < 2 then Usage
    else
      var command := Lower(argv[1]);
      if command == "ingest" then
        if |argv| < 3 then MissingPdfPath
        else if !pathExists(argv[2]) then FileNotFound(argv[2])
        else Ingest(argv[2])
      else if command == "ask" then
        if |argv| < 3 then MissingQuestion
        else Ask(Join(" ", argv[2..]))
      else UnknownCommand(command)
  }

  /** The command word is matched without regard to letter case. */
  lemma DispatchIgnoresCase(argv: seq<string>, other: seq<string>, pathExists: string -> bool)
    requires |argv| >= 2 && |other| == |argv| && other[2..] == argv[2..]
    requires Lower(other[1]) == Lower(argv[1])
    ensures Dispatch(other, pathExists) == Dispatch(argv, pathExists)
  {
    if |argv| >= 3 {
      assert other[2] == other[2..][0] == argv[2..][0] == argv[2];
    }
  }

  /** A question is asked exactly for "ask" with some words after it, and it is those words joined by spaces. */
  lemma AskedQuestion(argv: seq<string>, pathExists: string -> bool)
    ensures Dispatch(argv, pathExists).Ask? <==> |argv| >= 3 && Lower(argv[1]) == "ask"
    ensures Dispatch(argv, pathExists).Ask? ==> Dispatch(argv, pathExists).question == Join(" ", argv[2..])
  {
    if |argv| >= 2 && Lower(argv[1]) == "ask" {
      assert Lower(argv[1]) != "ingest" by {
        assert |"ask"| != |"ingest"|;
      }
    }
  }

  /** Each word of the question occurs in it. */
  lemma QuestionHoldsEveryWord(argv: seq<string>, pathExists: string -> bool, k: int)
    requires Dispatch(argv, pathExists).Ask? && 2 <= k < |argv|
    ensures Contains(Dispatch(argv, pathExists).question, argv[k])
  {
    AskedQuestion(argv, pathExists);
    assert argv[2..][k - 2] == argv[k];
    JoinContainsPart(" ", argv[2..], k - 2);
  }
}
