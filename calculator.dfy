/**
 * The console calculator: two integers and an operation number are read,
 * the result (or a refusal) is shown, and the user is asked whether to go
 * on. The input lines are a parameter; the menu text is not modelled.
 */
module Calculator {
  import opened Wrappers
  import opened PyStr

  // ---------------------------------------------------------------------
  // Python's integer floor division and modulus

  /** `a // b`: the quotient rounded towards minus infinity. */
  function FloorDiv(a: int, b: int): int
    requires b != 0
  {
    if b > 0 then a / b else (-a) / (-b)
  }

  /** `a % b`: what is left after `a // b`, with the sign of `b`. */
  function FloorMod(a: int, b: int): int
    requires b != 0
  {
    a - b * FloorDiv(a, b)
  }

  /** Floor division and modulus recombine to `a`, and the remainder lies between 0 and `b`. */
  lemma FloorDivMod(a: int, b: int)
    requires b != 0
    ensures a == b * FloorDiv(a, b) + FloorMod(a, b)
    ensures b > 0 ==> 0 <= FloorMod(a, b) < b
    ensures b < 0 ==> b < FloorMod(a, b) <= 0
  {
    if b < 0 {
      var q := (-a) / (-b);
      assert -a == (-b) * q + (-a) % (-b);
    }
  }

  /** Those two facts fix the quotient and the remainder: no other pair meets them. */
  lemma FloorDivUnique(a: int, b: int, q: int, r: int)
    requires b != 0 && a == b * q + r
    requires b > 0 ==> 0 <= r < b
    requires b < 0 ==> b < r <= 0
    ensures q == FloorDiv(a, b) && r == FloorMod(a, b)
  {
    FloorDivMod(a, b);
    var d := q - FloorDiv(a, b);
    assert b * d == FloorMod(a, b) - r by {
      assert b * d == b * q - b * FloorDiv(a, b);
    }
    if d != 0 {
      MulAtLeast(b, d);
      assert false;
    }
  }

  function Abs(x: int): nat {
    if x < 0 then -x else x
  }

  /** A non-zero multiple of `b` is at least as large as `b`. */
  lemma MulAtLeast(b: int, d: int)
    requires b != 0 && d != 0
    ensures Abs(b * d) >= Abs(b)
  {
    var e := Abs(d);
    assert Abs(b) * e == Abs(b) * (e - 1) + Abs(b);
    assert Abs(b * d) == Abs(b) * e;
  }

  /** Where C rounds towards zero, Python rounds down. */
  lemma FloorDivExamples()
    ensures FloorDiv(7, 2) == 3 && FloorMod(7, 2) == 1
    ensures FloorDiv(-7, 2) == -4 && FloorMod(-7, 2) == 1
    ensures FloorDiv(7, -2) == -4 && FloorMod(7, -2) == -1
  {
    FloorDivUnique(-7, 2, -4, 1);
    FloorDivUnique(7, -2, -4, -1);
  }

  function Pow(a: int, n: nat): int {
    if n == 0 then 1 else a * Pow(a, n - 1)
  }

  lemma {:induction false} PowNonZero(a: int, n: nat)
    requires a != 0
    ensures Pow(a, n) != 0
  {
    if n > 0 {
      PowNonZero(a, n - 1);
    }
  }

  // ---------------------------------------------------------------------
  // One calculation

  /** What a calculation shows; true division and negative powers give floats, modelled as reals. */
  datatype Outcome =
    | IntResult(n: int)
    | RealResult(x: real)
    | Refusal(message: string)
    | ZeroToNegativePower

  const DivideByZero: string := "Cannot divide by zero"
  const ModulusByZero: string := "Cannot compute modulus with zero"
  const InvalidOperation: string := "Invalid arithmetic operation selected. Please choose a number between 1 and 7."

  /** The operation numbered `op` on `a` and `b`. */
  function Calculate(a: int, b: int, op: int): Outcome {
    if op == 1 then IntResult(a + b)
    else if op == 2 then IntResult(a - b)
    else if op == 3 then IntResult(a * b)
    else if op == 4 then
      if b != 0 then RealResult(a as real / b as real) else Refusal(DivideByZero)
    else if op == 5 then
      if b != 0 then IntResult(FloorMod(a, b)) else Refusal(ModulusByZero)
    else if op == 6 then
      if b >= 0 then IntResult(Pow(a, b))
      else if a == 0 then ZeroToNegativePower
      else (PowNonZero(a, -b); RealResult(1.0 / Pow(a, -b) as real))
    else if op == 7 then
      if b != 0 then IntResult(FloorDiv(a, b)) else Refusal(DivideByZero)
    else Refusal(InvalidOperation)
  }

  /**
   * A zero divisor is refused by operations 4, 5 and 7 with their fixed
   * messages; an operation outside 1 to 7 is refused as invalid; otherwise
   * there is a value.
   */
  lemma CalculateRefusals(a: int, b: int, op: int)
    ensures Calculate(a, b, op).Refusal? <==> (op in {4, 5, 7} && b == 0) || !(1 <= op <= 7)
    ensures Calculate(a, b, op) == Refusal(DivideByZero) <==> (op == 4 || op == 7) && b == 0
    ensures Calculate(a, b, op) == Refusal(ModulusByZero) <==> op == 5 && b == 0
    ensures Calculate(a, b, op).ZeroToNegativePower? <==> op == 6 && a == 0 && b < 0
  {
  }

  /** Operations 1 to 3 are exact integer arithmetic; 4 is true division; 6 with a non-negative exponent is an integer power. */
  lemma ArithmeticOperations(a: int, b: int)
    ensures Calculate(a, b, 1) == IntResult(a + b)
    ensures Calculate(a, b, 2) == IntResult(a - b)
    ensures Calculate(a, b, 3) == IntResult(a * b)
    ensures b != 0 ==> Calculate(a, b, 4) == RealResult(a as real / b as real)
    ensures b >= 0 ==> Calculate(a, b, 6) == IntResult(Pow(a, b))
  {
  }

  /** Operations 5 and 7 use Python's floor semantics, so recombining them gives back `a`. */
  lemma ModulusAndFloorDivisionAgree(a: int, b: int)
    requires b != 0
    ensures Calculate(a, b, 5).IntResult? && Calculate(a, b, 7).IntResult?
    ensures a == b * Calculate(a, b, 7).n + Calculate(a, b, 5).n
    ensures b > 0 ==> 0 <= Calculate(a, b, 5).n < b
    ensures b < 0 ==> b < Calculate(a, b, 5).n <= 0
  {
    FloorDivMod(a, b);
  }

  // ---------------------------------------------------------------------
  // The input loop

  const ContinueAnswers: seq<string> := ["Yes", "yes", "y", "Y"]

  /** The answer that keeps the loop going: exactly one of four spellings. */
  predicate Continues(answer: string) {
    answer in ContinueAnswers
  }

  /** The answer is taken as typed: no other case and no surrounding whitespace. */
  lemma ContinueIsExact()
    ensures Continues("y") && Continues("Yes")
    ensures !Continues("YES") && !Continues(" y") && !Continues("no") && !Continues("")
  {
  }

  /** What the loop prints, apart from the menu and the prompts. */
  datatype Event = Shown(outcome: Outcome) | InvalidInput | ThankYou

  /** One pass of the loop body: what it prints, how many lines it reads, and whether the loop ends. */
  datatype Round = Round(shown: seq<Event>, used: nat, stops: bool)

  /**
   * The pass that starts at the first of `inputs`. A line that is not an
   * integer prints the error and starts a new pass after it; the input
   * running out ends the program, and so does zero raised to a negative
   * power (an uncaught error); otherwise the outcome is shown and the answer
   * decides whether another pass follows.
   */
  function NextRound(inputs: seq<string>): (r: Round)
    requires |inputs| > 0
    ensures 1 <= r.used <= |inputs|
  {
    if ParseInt(inputs[0]).None? then Round([InvalidInput], 1, false)
    else if |inputs| == 1 then Round([], 1, true)
    else if ParseInt(inputs[1]).None? then Round([InvalidInput], 2, false)
    else if |inputs| == 2 then Round([], 2, true)
    else if ParseInt(inputs[2]).None? then Round([InvalidInput], 3, false)
    else
      var o := Calculate(ParseInt(inputs[0]).value, ParseInt(inputs[1]).value, ParseInt(inputs[2]).value);
      if o.ZeroToNegativePower? || |inputs| == 3 then Round([Shown(o)], 3, true)
      else if Continues(inputs[3]) then Round([Shown(o)], 4, false)
      else Round([Shown(o), ThankYou], 4, true)
  }

  /** A pass that lets the loop go on prints one event, and it is not "Thank you!". */
  lemma NextRoundContinues(inputs: seq<string>)
    requires |inputs| > 0
    ensures !NextRound(inputs).stops ==> |NextRound(inputs).shown| == 1 && NextRound(inputs).shown[0] != ThankYou
    ensures forall j | 0 <= j < |NextRound(inputs).shown| && NextRound(inputs).shown[j] == ThankYou ::
              NextRound(inputs).stops && j == |NextRound(inputs).shown| - 1
  {
  }

  /** The events for the whole input, pass after pass. */
  function Session(inputs: seq<string>): seq<Event>
    decreases |inputs|
  {
    if |inputs| == 0 then []
    else
      var r := NextRound(inputs);
      if r.stops then r.shown else r.shown + Session(inputs[r.used..])
  }

  /** "Thank you!" is printed at most once, as the last thing. */
  lemma {:induction false} ThankYouEndsSession(inputs: seq<string>)
    ensures forall j | 0 <= j < |Session(inputs)| && Session(inputs)[j] == ThankYou :: j == |Session(inputs)| - 1
    decreases |inputs|
  {
    if |inputs| > 0 {
      var r := NextRound(inputs);
      NextRoundContinues(inputs);
      if !r.stops {
        ThankYouEndsSession(inputs[r.used..]);
        ShiftedTail(r.shown, Session(inputs[r.used..]));
      }
    }
  }

  /** A first event other than ThankYou in front of a tail where ThankYou comes last keeps it last. */
  lemma ShiftedTail(head: seq<Event>, tail: seq<Event>)
    requires |head| == 1 && head[0] != ThankYou
    requires forall j | 0 <= j < |tail| && tail[j] == ThankYou :: j == |tail| - 1
    ensures forall j | 0 <= j < |head + tail| && (head + tail)[j] == ThankYou :: j == |head + tail| - 1
  {
    forall j | 0 <= j < |head + tail| && (head + tail)[j] == ThankYou ensures j == |head + tail| - 1 {
      assert tail[j - 1] == (head + tail)[j];
    }
  }

  /** A full pass whose answer is not one of the four shows its outcome and ends the session. */
  lemma StopAnswerEndsSession(a: int, b: int, op: int, inputs: seq<string>)
    requires |inputs| >= 4 && !Continues(inputs[3])
    requires ParseInt(inputs[0]) == Some(a) && ParseInt(inputs[1]) == Some(b) && ParseInt(inputs[2]) == Some(op)
    requires !Calculate(a, b, op).ZeroToNegativePower?
    ensures Session(inputs) == [Shown(Calculate(a, b, op)), ThankYou]
  {
    assert NextRound(inputs) == Round([Shown(Calculate(a, b, op)), ThankYou], 4, true);
  }

  /** A line that is not an integer costs one error message and nothing else: the next pass starts after it. */
  lemma BadFirstNumberRestarts(inputs: seq<string>)
    requires |inputs| > 0 && ParseInt(inputs[0]).None?
    ensures Session(inputs) == [InvalidInput] + Session(inputs[1..])
  {
  }

  /** The loop, one input line at a time. */
  method Run(inputs: seq<string>) returns (events: seq<Event>)
    ensures events == Session(inputs)
  {
    events := [];
    var pos := 0;
    while pos < |inputs|
      invariant 0 <= pos <= |inputs|
      invariant events + Session(inputs[pos..]) == Session(inputs)
      decreases |inputs| - pos
    {
      ghost var rest := inputs[pos..];
      var shown: seq<Event>, used: nat, stops: bool;
      var a := ParseInt(inputs[pos]);
      if a.None? {
        shown, used, stops := [InvalidInput], 1, false;
      } else if pos + 1 == |inputs| {
        shown, used, stops := [], 1, true;
      } else {
        var b := ParseInt(inputs[pos + 1]);
        if b.None? {
          shown, used, stops := [InvalidInput], 2, false;
        } else if pos + 2 == |inputs| {
          shown, used, stops := [], 2, true;
        } else {
          var op := ParseInt(inputs[pos + 2]);
          if op.None? {
            shown, used, stops := [InvalidInput], 3, false;
          } else {
            var o := Calculate(a.value, b.value, op.value);
            if o.ZeroToNegativePower? || pos + 3 == |inputs| {
              shown, used, stops := [Shown(o)], 3, true;
            } else if Continues(inputs[pos + 3]) {
              shown, used, stops := [Shown(o)], 4, false;
            } else {
              shown, used, stops := [Shown(o), ThankYou], 4, true;
            }
          }
        }
      }
      assert NextRound(rest) == Round(shown, used, stops);
      if stops {
        assert Session(rest) == shown;
        events := events + shown;
        return;
      }
      assert Session(rest) == shown + Session(inputs[pos + used..]) by {
        assert rest[used..] == inputs[pos + used..];
      }
      Regroup(events, shown, Session(inputs[pos + used..]));
      events, pos := events + shown, pos + used;
    }
    assert events + [] == events;
  }

  lemma Regroup(a: seq<Event>, b: seq<Event>, c: seq<Event>)
    ensures a + (b + c) == (a + b) + c
  {
  }
}
