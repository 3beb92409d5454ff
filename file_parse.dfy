/**
 * The file parser command-line tool: the lines of a text file as
 * `readlines` returns them (each with its newline), and the counts, the
 * keyword search and the line extraction reported on them. Reading the
 * file is a parameter: the text, or None when it is not found.
 */
module FileParse {
  import opened Wrappers
  import opened PyStr

  // ---------------------------------------------------------------------
  // readlines

  /** `f.readlines()`: the text cut after each newline; a last line without one is kept. */
  function ReadLines(text: string): (r: seq<string>)
    ensures text == [] <==> r == []
    decreases |text|
  {
    if text == [] then []
    else
      var k := LineLength(text);
      [text[..k]] + ReadLines(text[k..])
  }

  /** The length of the first line, newline included. */
  function LineLength(text: string): (k: nat)
    requires text != []
    ensures 1 <= k <= |text|
    ensures forall i | 0 <= i < k - 1 :: text[i] != '\n'
    ensures text[k - 1] == '\n' || k == |text|
    decreases |text|
  {
    if text[0] == '\n' || |text| == 1 then 1 else 1 + LineLength(text[1..])
  }

  /** Together the lines are the whole text. */
  lemma {:induction false} ReadLinesConcat(text: string)
    ensures Concat(ReadLines(text)) == text
    decreases |text|
  {
    if text != [] {
      var k := LineLength(text);
      var rest := ReadLines(text[k..]);
      ReadLinesConcat(text[k..]);
      assert ReadLines(text) == [text[..k]] + rest;
      JoinBack(text, k, rest);
    }
  }

  lemma JoinBack(text: string, k: nat, rest: seq<string>)
    requires k <= |text| && Concat(rest) == text[k..]
    ensures Concat([text[..k]] + rest) == text
  {
    ConcatCons(text[..k], rest);
    assert text[..k] + text[k..] == text;
  }

  /** Every line but the last ends in its only newline. */
  lemma {:induction false} ReadLinesShape(text: string)
    ensures var r := ReadLines(text);
      forall j | 0 <= j < |r| ::
        && r[j] != []
        && (forall i | 0 <= i < |r[j]| - 1 :: r[j][i] != '\n')
        && (j < |r| - 1 ==> r[j][|r[j]| - 1] == '\n')
    decreases |text|
  {
    if text != [] {
      var k := LineLength(text);
      ReadLinesShape(text[k..]);
      var r := ReadLines(text);
      assert r[1..] == ReadLines(text[k..]);
      forall j | 0 <= j < |r|
        ensures r[j] != []
        ensures forall i | 0 <= i < |r[j]| - 1 :: r[j][i] != '\n'
        ensures j < |r| - 1 ==> r[j][|r[j]| - 1] == '\n'
      {
        if j > 0 {
          assert r[j] == ReadLines(text[k..])[j - 1];
        } else if |r| > 1 {
          assert k < |text|;
        }
      }
    }
  }

  // ---------------------------------------------------------------------
  // The counts

  function TotalWords(lines: seq<string>): nat
    decreases |lines|
  {
    if lines == [] then 0 else TotalWords(lines[..|lines| - 1]) + |Split(lines[|lines| - 1])|
  }

  function TotalCharacters(lines: seq<string>): nat
    decreases |lines|
  {
    if lines == [] then 0 else TotalCharacters(lines[..|lines| - 1]) + |lines[|lines| - 1]|
  }

  lemma {:induction false} TotalCharactersConcat(lines: seq<string>)
    ensures TotalCharacters(lines) == |Concat(lines)|
    decreases |lines|
  {
    if lines != [] {
      var n := |lines| - 1;
      TotalCharactersConcat(lines[..n]);
      assert lines == lines[..n] + [lines[n]];
      ConcatSnoc(lines[..n], lines[n]);
    }
  }

  /** The character count of a file's lines is the length of its text, newlines included. */
  lemma CharactersOfFile(text: string)
    ensures TotalCharacters(ReadLines(text)) == |text|
  {
    TotalCharactersConcat(ReadLines(text));
    ReadLinesConcat(text);
  }

  /** The counts of two runs of lines add up. */
  lemma {:induction false} TotalsConcat(a: seq<string>, b: seq<string>)
    ensures TotalWords(a + b) == TotalWords(a) + TotalWords(b)
    ensures TotalCharacters(a + b) == TotalCharacters(a) + TotalCharacters(b)
    decreases |b|
  {
    if b == [] {
      assert a + b == a;
    } else {
      var n := |b| - 1;
      assert (a + b)[..|a + b| - 1] == a + b[..n];
      assert (a + b)[|a + b| - 1] == b[n];
      TotalsConcat(a, b[..n]);
    }
  }

  // ---------------------------------------------------------------------
  // search_keyword and extract_lines

  /** A reported line: its number from 1 and its stripped text. */
  datatype NumberedLine = NumberedLine(number: int, text: string)

  /** What one line contributes to the search report: itself, numbered, when it holds the keyword. */
  function Reported(line: string, keyword: string, number: int): (r: seq<NumberedLine>)
    ensures |r| <= 1
    ensures forall j | 0 <= j < |r| :: r[j] == NumberedLine(number, Strip(line))
    ensures r != [] <==> Contains(Lower(line), Lower(keyword))
  {
    if Contains(Lower(line), Lower(keyword)) then [NumberedLine(number, Strip(line))] else []
  }

  /** The lines whose lower-case form holds the lower-cased keyword, numbered from `first` on. */
  function Matches(lines: seq<string>, keyword: string, first: int): (r: seq<NumberedLine>)
    ensures |r| <= |lines|
    ensures forall j | 0 <= j < |r| :: first <= r[j].number < first + |lines|
    decreases |lines|
  {
    if lines == [] then []
    else
      Reported(lines[0], keyword, first) + Matches(lines[1..], keyword, first + 1)
  }

  lemma MatchesStep(lines: seq<string>, keyword: string, i: nat)
    requires i < |lines|
    ensures Matches(lines[i..], keyword, i + 1)
         == Reported(lines[i], keyword, i + 1) + Matches(lines[i + 1..], keyword, i + 2)
  {
    assert lines[i..][1..] == lines[i + 1..];
  }

  /** The reports numbered `first + i` are those line `i` gives on its own. */
  lemma {:induction false} MatchesAt(lines: seq<string>, keyword: string, first: int, i: int)
    requires 0 <= i < |lines|
    ensures forall x: NumberedLine | x.number == first + i :: x in Matches(lines, keyword, first) <==> x in Reported(lines[i], keyword, first + i)
    decreases |lines|
  {
    var head := Reported(lines[0], keyword, first);
    var rest := Matches(lines[1..], keyword, first + 1);
    assert Matches(lines, keyword, first) == head + rest;
    if i > 0 {
      MatchesAt(lines[1..], keyword, first + 1, i - 1);
      assert lines[1..][i - 1] == lines[i];
    }
    forall x: NumberedLine | x.number == first + i
      ensures x in Matches(lines, keyword, first) <==> x in Reported(lines[i], keyword, first + i)
    {
      MemberOfCons(x, head, rest, first);
    }
  }

  /** Line `first + i` is reported exactly when it holds the keyword. */
  lemma MatchesExactly(lines: seq<string>, keyword: string, first: int, i: int)
    requires 0 <= i < |lines|
    ensures NumberedLine(first + i, Strip(lines[i])) in Matches(lines, keyword, first)
        <==> Contains(Lower(lines[i]), Lower(keyword))
  {
    MatchesAt(lines, keyword, first, i);
    var r := Reported(lines[i], keyword, first + i);
    if r != [] {
      assert r[0] == NumberedLine(first + i, Strip(lines[i]));
    }
  }

  /** One line of `search_keyword`'s loop: its report moves from what is left to what is printed. */
  lemma SearchStep(lines: seq<string>, keyword: string, i: nat, reported: seq<NumberedLine>)
    requires i < |lines|
    ensures reported + Matches(lines[i..], keyword, i + 1)
         == (reported + Reported(lines[i], keyword, i + 1)) + Matches(lines[i + 1..], keyword, i + 2)
  {
    MatchesStep(lines, keyword, i);
  }

  /** Membership in a report list whose first part is numbered `n` and whose rest is numbered above `n`. */
  lemma MemberOfCons(x: NumberedLine, head: seq<NumberedLine>, rest: seq<NumberedLine>, n: int)
    requires forall j | 0 <= j < |head| :: head[j].number == n
    requires forall j | 0 <= j < |rest| :: rest[j].number > n
    ensures x.number == n ==> (x in head + rest <==> x in head)
    ensures x.number > n ==> (x in head + rest <==> x in rest)
  {
    assert x in head + rest <==> x in head || x in rest;
  }

  /** A report for line `first + i` carries that line's stripped text. */
  lemma MatchesText(lines: seq<string>, keyword: string, first: int, i: int)
    requires 0 <= i < |lines|
    ensures forall m | m in Matches(lines, keyword, first) && m.number == first + i :: m.text == Strip(lines[i])
  {
    MatchesAt(lines, keyword, first, i);
  }

  predicate NumbersIncrease(r: seq<NumberedLine>) {
    forall a, b | 0 <= a < b < |r| :: r[a].number < r[b].number
  }

  /** Reports come in increasing line order. */
  lemma {:induction false} MatchesIncrease(lines: seq<string>, keyword: string, first: int)
    ensures NumbersIncrease(Matches(lines, keyword, first))
    decreases |lines|
  {
    if lines != [] {
      var head := Reported(lines[0], keyword, first);
      var rest := Matches(lines[1..], keyword, first + 1);
      MatchesIncrease(lines[1..], keyword, first + 1);
      var r := Matches(lines, keyword, first);
      assert r == head + rest;
      forall a, b | 0 <= a < b < |r| ensures r[a].number < r[b].number {
        if a >= |head| {
          assert r[a] == rest[a - |head|] && r[b] == rest[b - |head|];
        } else {
          assert r[a] == head[0] && r[b] == rest[b - 1];
        }
      }
    }
  }

  /** An empty keyword matches every line. */
  lemma {:induction false} EmptyKeywordMatchesAll(lines: seq<string>, first: int)
    ensures |Matches(lines, "", first)| == |lines|
    decreases |lines|
  {
    if lines != [] {
      ContainsEmpty(Lower(lines[0]));
      EmptyKeywordMatchesAll(lines[1..], first + 1);
    }
  }

  /** What `extract_lines` reports; None for "Invalid line range.". */
  function Extracted(lines: seq<string>, start: int, end: int): (r: Option<seq<NumberedLine>>)
    ensures r.Some? <==> 1 <= start <= end <= |lines|
    ensures r.Some? ==>
      && |r.value| == end - start + 1
      && (forall j | 0 <= j < |r.value| :: r.value[j] == NumberedLine(start + j, Strip(lines[start - 1 + j])))
  {
    if start < 1 || end > |lines| || start > end then None
    else Some(seq(end - start + 1, j requires 0 <= j < end - start + 1 => NumberedLine(start + j, Strip(lines[start - 1 + j]))))
  }

  class FileParser {
    const filePath: string
    const lines: seq<string>

    /** Opens the file; a missing file leaves no lines. */
    constructor (filePath: string, contents: Option<string>)
      ensures this.filePath == filePath
      ensures lines == (if contents.Some? then ReadLines(contents.value) else [])
    {
      this.filePath := filePath;
      lines := if contents.Some? then ReadLines(contents.value) else [];
    }

    /** `count_lines`. */
    function LineCount(): (n: nat)
      ensures n == |lines|
    {
      |lines|
    }

    /** `count_words`: the words of the lines, counted line by line. */
    method CountWords() returns (n: nat)
      ensures n == TotalWords(lines)
    {
      n := 0;
      for i := 0 to |lines|
        invariant n == TotalWords(lines[..i])
      {
        assert lines[..i + 1][..i] == lines[..i];
        n := n + |Split(lines[i])|;
      }
      assert lines[..|lines|] == lines;
    }

    /** `count_characters`: the lengths of the lines, newlines included. */
    method CountCharacters() returns (n: nat)
      ensures n == TotalCharacters(lines)
    {
      n := 0;
      for i := 0 to |lines|
        invariant n == TotalCharacters(lines[..i])
      {
        assert lines[..i + 1][..i] == lines[..i];
        n := n + |lines[i]|;
      }
      assert lines[..|lines|] == lines;
    }

    /** `search_keyword`: the lines reported, and whether any was ("No matches found" otherwise). */
    method SearchKeyword(keyword: string) returns (reported: seq<NumberedLine>, found: bool)
      ensures reported == Matches(lines, keyword, 1)
      ensures found <==> reported != []
    {
      reported := [];
      found := false;
      var needle := Lower(keyword);
      for i := 0 to |lines|
        invariant reported + Matches(lines[i..], keyword, i + 1) == Matches(lines, keyword, 1)
        invariant found <==> reported != []
      {
        SearchStep(lines, keyword, i, reported);
        if Contains(Lower(lines[i]), needle) {
          var line := NumberedLine(i + 1, Strip(lines[i]));
          assert Reported(lines[i], keyword, i + 1) == [line];
          reported := reported + [line];
          found := true;
        } else {
          assert reported + Reported(lines[i], keyword, i + 1) == reported;
        }
      }
      assert lines[|lines|..] == [];
      assert reported + [] == reported;
    }

    /** `extract_lines`: the lines `start` to `end` inclusive, or None for an invalid range. */
    method ExtractLines(start: int, end: int) returns (r: Option<seq<NumberedLine>>)
      ensures r == Extracted(lines, start, end)
    {
      if start < 1 || end > |lines| || start > end {
        return None;
      }
      var out: seq<NumberedLine> := [];
      for i := start - 1 to end
        invariant |out| == i - (start - 1)
        invariant forall j | 0 <= j < |out| :: out[j] == NumberedLine(start + j, Strip(lines[start - 1 + j]))
      {
        out := out + [NumberedLine(i + 1, Strip(lines[i]))];
      }
      assert out == Extracted(lines, start, end).value;
      r := Some(out);
    }
  }
}
