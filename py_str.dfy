/**
 * The Python string and list primitives the rest of the model is written in:
 * `str.isspace`, `lower`/`upper` (on ASCII letters), `strip`, `split()`,
 * `sep.join`, `str.split(sep)`, the substring test `x in s`, slicing with
 * Python's rules for negative and out-of-range bounds, and decimal
 * conversion in both directions (`str(n)` and `int(s)`).
 */
module PyStr {
  import opened Wrappers

  function Min(a: int, b: int): int { if a <= b then a else b }
  function Max(a: int, b: int): int { if a <= b then b else a }

  // ---------------------------------------------------------------------
  // Characters

  /** Python's `str.isspace` on one character. */
  predicate IsSpace(c: char) {
    || c == ' ' || c == '\t' || c == '\n' || c == '\r'
    || c == '\U{000B}' || c == '\U{000C}'
    || ('\U{001C}' <= c <= '\U{001F}')
    || c == '\U{0085}' || c == '\U{00A0}' || c == '\U{1680}'
    || ('\U{2000}' <= c <= '\U{200A}')
    || c == '\U{2028}' || c == '\U{2029}' || c == '\U{202F}'
    || c == '\U{205F}' || c == '\U{3000}'
  }

  /** `c.lower()` on ASCII letters; every other character is kept. */
  function LowerChar(c: char): (r: char)
    ensures 'A' <= c <= 'Z' ==> 'a' <= r <= 'z'
    ensures !('A' <= c <= 'Z') ==> r == c
  {
    if 'A' <= c <= 'Z' then (c as int + 32) as char else c
  }

  /** `c.upper()` on ASCII letters; every other character is kept. */
  function UpperChar(c: char): (r: char)
    ensures 'a' <= c <= 'z' ==> 'A' <= r <= 'Z'
    ensures !('a' <= c <= 'z') ==> r == c
  {
    if 'a' <= c <= 'z' then (c as int - 32) as char else c
  }

  function Lower(s: string): (r: string)
    ensures |r| == |s|
  {
    seq(|s|, i requires 0 <= i < |s| => LowerChar(s[i]))
  }

  function Upper(s: string): (r: string)
    ensures |r| == |s|
  {
    seq(|s|, i requires 0 <= i < |s| => UpperChar(s[i]))
  }

  /** `s.replace(a, b)` for single characters. */
  function ReplaceChar(s: string, a: char, b: char): (r: string)
    ensures |r| == |s|
  {
    seq(|s|, i requires 0 <= i < |s| => if s[i] == a then b else s[i])
  }

  /** `c * n` for a one-character string. */
  function Repeat(c: char, n: nat): (r: string)
    ensures |r| == n
  {
    seq(n, i => c)
  }

  lemma LowerIdempotent(s: string)
    ensures Lower(Lower(s)) == Lower(s)
  {
    forall i | 0 <= i < |s| ensures Lower(Lower(s))[i] == Lower(s)[i] {
      var c := s[i];
      if 'A' <= c <= 'Z' {
        assert Lower(s)[i] == (c as int + 32) as char;
      }
    }
  }

  lemma LowerConcat(a: string, b: string)
    ensures Lower(a + b) == Lower(a) + Lower(b)
  {
    assert forall i | 0 <= i < |a + b| :: Lower(a + b)[i] == (Lower(a) + Lower(b))[i];
  }

  // ---------------------------------------------------------------------
  // Substrings

  predicate OccursAt(s: string, sub: string, i: int) {
    0 <= i && i + |sub| <= |s| && s[i..i + |sub|] == sub
  }

  /** Python's `sub in s`. */
  predicate Contains(s: string, sub: string) {
    exists i | 0 <= i <= |s| - |sub| :: OccursAt(s, sub, i)
  }

  lemma ContainsAt(s: string, sub: string, i: int)
    requires OccursAt(s, sub, i)
    ensures Contains(s, sub)
  {
  }

  lemma {:induction false} ContainsTransitive(a: string, b: string, c: string)
    requires Contains(a, b) && Contains(b, c)
    ensures Contains(a, c)
  {
    var i :| 0 <= i <= |a| - |b| && OccursAt(a, b, i);
    var j :| 0 <= j <= |b| - |c| && OccursAt(b, c, j);
    assert a[i..i + |b|] == b;
    assert forall k | 0 <= k < |c| :: a[i + j + k] == b[j + k] == c[k];
    assert a[i + j..i + j + |c|] == c;
    assert OccursAt(a, c, i + j);
  }

  lemma ContainsInfix(x: string, sub: string, y: string)
    ensures Contains(x + sub + y, sub)
  {
    assert (x + sub + y)[|x|..|x| + |sub|] == sub;
    assert OccursAt(x + sub + y, sub, |x|);
  }

  lemma ContainsSelf(s: string)
    ensures Contains(s, s)
  {
    assert OccursAt(s, s, 0);
  }

  lemma ContainsEmpty(s: string)
    ensures Contains(s, "")
  {
    assert OccursAt(s, "", 0);
  }

  // ---------------------------------------------------------------------
  // strip

  predicate IsBlank(s: string) {
    forall i | 0 <= i < |s| :: IsSpace(s[i])
  }

  /** The end of the run of whitespace that starts at `i`. */
  function SpaceRunEnd(s: string, i: nat): (r: nat)
    requires i <= |s|
    ensures i <= r <= |s|
    decreases |s| - i
  {
    if i < |s| && IsSpace(s[i]) then SpaceRunEnd(s, i + 1) else i
  }

  /** The start of the run of whitespace that ends at `j`. */
  function SpaceRunStart(s: string, j: nat): (r: nat)
    requires j <= |s|
    ensures r <= j
  {
    if j > 0 && IsSpace(s[j - 1]) then SpaceRunStart(s, j - 1) else j
  }

  lemma {:induction false} SpaceRunEndFacts(s: string, i: nat)
    requires i <= |s|
    ensures forall k | i <= k < SpaceRunEnd(s, i) :: IsSpace(s[k])
    ensures SpaceRunEnd(s, i) < |s| ==> !IsSpace(s[SpaceRunEnd(s, i)])
    decreases |s| - i
  {
    if i < |s| && IsSpace(s[i]) {
      SpaceRunEndFacts(s, i + 1);
    }
  }

  lemma {:induction false} SpaceRunStartFacts(s: string, j: nat)
    requires j <= |s|
    ensures forall k | SpaceRunStart(s, j) <= k < j :: IsSpace(s[k])
    ensures SpaceRunStart(s, j) > 0 ==> !IsSpace(s[SpaceRunStart(s, j) - 1])
  {
    if j > 0 && IsSpace(s[j - 1]) {
      SpaceRunStartFacts(s, j - 1);
    }
  }

  /** `s.lstrip()`; its properties are `LStripFacts`. */
  function LStrip(s: string): string {
    s[SpaceRunEnd(s, 0)..]
  }

  /** `s.rstrip()`; its properties are `RStripFacts`. */
  function RStrip(s: string): string {
    s[..SpaceRunStart(s, |s|)]
  }

  /** `lstrip` removes a blank prefix and leaves no leading whitespace. */
  lemma LStripFacts(s: string)
    ensures |LStrip(s)| <= |s| && LStrip(s) == s[|s| - |LStrip(s)|..]
    ensures LStrip(s) != [] ==> !IsSpace(LStrip(s)[0])
    ensures IsBlank(s[..|s| - |LStrip(s)|])
  {
    SpaceRunEndFacts(s, 0);
  }

  /** `rstrip` removes a blank suffix and leaves no trailing whitespace. */
  lemma RStripFacts(s: string)
    ensures |RStrip(s)| <= |s| && RStrip(s) == s[..|RStrip(s)|]
    ensures RStrip(s) != [] ==> !IsSpace(RStrip(s)[|RStrip(s)| - 1])
    ensures IsBlank(s[|RStrip(s)|..])
  {
    SpaceRunStartFacts(s, |s|);
  }

  /** `s.strip()`. */
  function Strip(s: string): (r: string)
    ensures |r| <= |s|
  {
    LStripFacts(s);
    RStripFacts(LStrip(s));
    RStrip(LStrip(s))
  }

  /** `strip` leaves no whitespace at either end. */
  lemma StripEnds(s: string)
    ensures var r := Strip(s); r == [] || (!IsSpace(r[0]) && !IsSpace(r[|r| - 1]))
  {
    var l := LStrip(s);
    LStripFacts(s);
    RStripFacts(l);
    var r := RStrip(l);
    if r != [] {
      assert r[0] == l[0];
    }
  }

  /** `s.strip()` is empty exactly when `s` is all whitespace. */
  lemma StripEmptyIff(s: string)
    ensures Strip(s) == [] <==> IsBlank(s)
  {
    var l := LStrip(s);
    LStripFacts(s);
    RStripFacts(l);
    if Strip(s) == [] {
      assert IsBlank(l[0..]);
      assert s == s[..|s| - |l|] + l;
    } else {
      var r := Strip(s);
      assert l == s[|s| - |l|..];
      assert r == l[..|r|] && r[0] == s[|s| - |l|];
    }
  }

  lemma StripIsInfix(s: string)
    ensures exists i, j | 0 <= i <= j <= |s| :: Strip(s) == s[i..j]
  {
    var l := LStrip(s);
    LStripFacts(s);
    RStripFacts(l);
    var r := RStrip(l);
    var i := |s| - |l|;
    assert r == s[i..][..|r|] == s[i..i + |r|];
  }

  lemma StripNoSpaceEnds(s: string)
    requires s == [] || (!IsSpace(s[0]) && !IsSpace(s[|s| - 1]))
    ensures Strip(s) == s
  {
  }

  // ---------------------------------------------------------------------
  // split() on whitespace

  /** Length of the leading run of non-whitespace characters. */
  function WordLen(s: string): (k: nat)
    ensures k <= |s|
    ensures forall i | 0 <= i < k :: !IsSpace(s[i])
    ensures k < |s| ==> IsSpace(s[k])
  {
    if s == [] || IsSpace(s[0]) then 0 else 1 + WordLen(s[1..])
  }

  predicate IsWord(w: string) {
    w != [] && forall i | 0 <= i < |w| :: !IsSpace(w[i])
  }

  /** `s.split()`: the maximal runs of non-whitespace characters, in order. */
  function Split(s: string): (r: seq<string>)
    ensures forall k | 0 <= k < |r| :: IsWord(r[k])
    decreases |s|
  {
    var t := LStrip(s);
    LStripFacts(s);
    if t == [] then []
    else
      var k := WordLen(t);
      [t[..k]] + Split(t[k..])
  }

  lemma SplitBlank(s: string)
    requires IsBlank(s)
    ensures Split(s) == []
  {
    LStripFacts(s);
  }

  // ---------------------------------------------------------------------
  // sep.join(parts) and s.split(sep)

  function Join(sep: string, parts: seq<string>): (r: string)
    decreases |parts|
  {
    if |parts| == 0 then ""
    else if |parts| == 1 then parts[0]
    else parts[0] + sep + Join(sep, parts[1..])
  }

  /** A joined list with a non-blank part is not blank. */
  lemma {:induction false} JoinNotBlank(sep: string, parts: seq<string>, k: int)
    requires 0 <= k < |parts| && !IsBlank(parts[k])
    ensures !IsBlank(Join(sep, parts))
    decreases |parts|
  {
    var j := Join(sep, parts);
    if k == 0 {
      var i :| 0 <= i < |parts[0]| && !IsSpace(parts[0][i]);
      assert j[i] == parts[0][i];
    } else {
      var rest := Join(sep, parts[1..]);
      JoinNotBlank(sep, parts[1..], k - 1);
      var i :| 0 <= i < |rest| && !IsSpace(rest[i]);
      assert j == parts[0] + sep + rest;
      assert j[|parts[0]| + |sep| + i] == rest[i];
    }
  }

  /** Each part occurs in the joined string. */
  lemma {:induction false} JoinContainsPart(sep: string, parts: seq<string>, k: int)
    requires 0 <= k < |parts|
    ensures Contains(Join(sep, parts), parts[k])
    decreases |parts|
  {
    if |parts| == 1 {
      ContainsSelf(parts[0]);
    } else if k == 0 {
      assert Join(sep, parts) == "" + parts[0] + (sep + Join(sep, parts[1..]));
      ContainsInfix("", parts[0], sep + Join(sep, parts[1..]));
    } else {
      var rest := Join(sep, parts[1..]);
      JoinContainsPart(sep, parts[1..], k - 1);
      assert Join(sep, parts) == (parts[0] + sep) + rest + "";
      ContainsInfix(parts[0] + sep, rest, "");
      ContainsTransitive(Join(sep, parts), rest, parts[k]);
    }
  }

  function Concat(parts: seq<string>): string {
    if parts == [] then "" else parts[0] + Concat(parts[1..])
  }

  lemma ConcatCons(x: string, xs: seq<string>)
    ensures Concat([x] + xs) == x + Concat(xs)
  {
    assert ([x] + xs)[1..] == xs;
  }

  lemma {:induction false} ConcatSnoc(parts: seq<string>, x: string)
    ensures Concat(parts + [x]) == Concat(parts) + x
    decreases |parts|
  {
    if parts != [] {
      assert (parts + [x])[1..] == parts[1..] + [x];
      ConcatSnoc(parts[1..], x);
    }
  }

  lemma {:induction false} ConcatContainsPart(parts: seq<string>, k: int)
    requires 0 <= k < |parts|
    ensures Contains(Concat(parts), parts[k])
    decreases |parts|
  {
    if k == 0 {
      ContainsInfix("", parts[0], Concat(parts[1..]));
      assert "" + parts[0] + Concat(parts[1..]) == Concat(parts);
    } else {
      ConcatContainsPart(parts[1..], k - 1);
      ContainsInfix(parts[0], Concat(parts[1..]), "");
      assert parts[0] + Concat(parts[1..]) + "" == Concat(parts);
      ContainsTransitive(Concat(parts), Concat(parts[1..]), parts[k]);
    }
  }

  /** `s.find(sub)` for a non-empty `sub`: the leftmost occurrence, or -1. */
  function Find(s: string, sub: string): (k: int)
    requires sub != []
    ensures -1 <= k <= |s|
    ensures k == -1 ==> !Contains(s, sub)
    ensures k >= 0 ==> OccursAt(s, sub, k) && forall j | 0 <= j < k :: !OccursAt(s, sub, j)
    decreases |s|
  {
    if |s| < |sub| then -1
    else if s[..|sub|] == sub then 0
    else
      var k := Find(s[1..], sub);
      assert !OccursAt(s, sub, 0);
      if k == -1 then
        assert forall j | 0 <= j <= |s| - |sub| :: !OccursAt(s, sub, j) by {
          forall j | 0 <= j <= |s| - |sub| ensures !OccursAt(s, sub, j) {
            if j > 0 {
              OccursShift(s, sub, j - 1);
            }
          }
        }
        -1
      else
        OccursShift(s, sub, k);
        assert forall j | 0 <= j < k + 1 :: !OccursAt(s, sub, j) by {
          forall j | 0 <= j < k + 1 ensures !OccursAt(s, sub, j) {
            if j > 0 {
              OccursShift(s, sub, j - 1);
            }
          }
        }
        k + 1
  }

  lemma OccursShift(s: string, sub: string, j: nat)
    requires s != []
    ensures OccursAt(s, sub, j + 1) <==> OccursAt(s[1..], sub, j)
  {
    if j + 1 + |sub| <= |s| {
      assert s[j + 1..j + 1 + |sub|] == s[1..][j..j + |sub|];
    }
  }

  /** `s.split(sep)` for a non-empty `sep`: cut at the leftmost occurrences. */
  function SplitOn(s: string, sep: string): (r: seq<string>)
    requires sep != []
    ensures |r| >= 1
    decreases |s|
  {
    var k := Find(s, sep);
    if k < 0 then [s] else [s[..k]] + SplitOn(s[k + |sep|..], sep)
  }

  // ---------------------------------------------------------------------
  // Slicing with Python's bounds

  /** The index Python uses for a slice bound `k` on a sequence of length `n`. */
  function SliceIndex(k: int, n: nat): (r: nat)
    ensures r <= n
    ensures k >= 0 ==> r == Min(k, n)
  {
    if k < 0 then Max(0, n + k) else Min(k, n)
  }

  /** `s[:k]`. */
  function Prefix<T>(s: seq<T>, k: int): (r: seq<T>)
    ensures |r| <= |s| && r == s[..|r|]
    ensures 0 <= k ==> |r| == Min(k, |s|)
    ensures k < 0 ==> |r| == Max(0, |s| + k)
  {
    s[..SliceIndex(k, |s|)]
  }

  /** `s[k:]`. */
  function Suffix<T>(s: seq<T>, k: int): (r: seq<T>)
    ensures |r| <= |s| && r == s[|s| - |r|..]
    ensures k < 0 ==> |r| == Min(-k, |s|)
    ensures 0 <= k ==> |r| == |s| - Min(k, |s|)
  {
    s[SliceIndex(k, |s|)..]
  }

  /** `s[i:j]`. */
  function Slice<T>(s: seq<T>, i: int, j: int): (r: seq<T>)
    ensures |r| <= |s|
  {
    var a, b := SliceIndex(i, |s|), SliceIndex(j, |s|);
    if a < b then s[a..b] else []
  }

  // ---------------------------------------------------------------------
  // str(n) and int(s)

  predicate IsDigit(c: char) { '0' <= c <= '9' }

  function DigitChar(d: nat): (c: char)
    requires d < 10
    ensures IsDigit(c) && c as int - '0' as int == d
  {
    ('0' as int + d) as char
  }

  /** `str(n)` for a natural number. */
  function NatToString(n: nat): (r: string)
    ensures 1 <= |r|
    ensures n >= 10 ==> 2 <= |r|
    ensures forall i | 0 <= i < |r| :: IsDigit(r[i])
  {
    if n < 10 then [DigitChar(n)] else NatToString(n / 10) + [DigitChar(n % 10)]
  }

  /** `str(i)` for an integer. */
  function IntToString(i: int): (r: string)
    ensures r != []
  {
    if i < 0 then "-" + NatToString(-i) else NatToString(i)
  }

  lemma {:induction false} NatToStringInjective(a: nat, b: nat)
    requires NatToString(a) == NatToString(b)
    ensures a == b
  {
    var s := NatToString(a);
    if a < 10 || b < 10 {
      assert s[|s| - 1] == DigitChar(a % 10) == DigitChar(b % 10);
    } else {
      assert s[..|s| - 1] == NatToString(a / 10) == NatToString(b / 10);
      NatToStringInjective(a / 10, b / 10);
      assert DigitChar(a % 10) == DigitChar(b % 10);
    }
  }

  /** The value of a run of digits and underscores; underscores are skipped. */
  function DigitsValue(t: string): nat
    requires forall i | 0 <= i < |t| :: IsDigit(t[i]) || t[i] == '_'
  {
    if t == [] then 0
    else if t[|t| - 1] == '_' then DigitsValue(t[..|t| - 1])
    else
      assert IsDigit(t[|t| - 1]);
      DigitsValue(t[..|t| - 1]) * 10 + (t[|t| - 1] as int - '0' as int)
  }

  /** Python's rules for the digit part of `int(s)`: digits, single underscores between them. */
  predicate WellFormedDigits(t: string) {
    && t != [] && IsDigit(t[0]) && IsDigit(t[|t| - 1])
    && (forall i | 0 <= i < |t| :: IsDigit(t[i]) || t[i] == '_')
    && (forall i | 0 <= i < |t| - 1 :: !(t[i] == '_' && t[i + 1] == '_'))
  }

  /** `int(s)` for base-10 ASCII input; `None` where Python raises ValueError. */
  function ParseInt(s: string): Option<int> {
    var t := Strip(s);
    if t != [] && (t[0] == '-' || t[0] == '+') then
      var d := t[1..];
      if WellFormedDigits(d) then
        var v: int := DigitsValue(d);
        Some(if t[0] == '-' then -v else v)
      else None
    else if WellFormedDigits(t) then Some(DigitsValue(t))
    else None
  }

  lemma {:induction false} DigitsValueOfNat(n: nat)
    ensures DigitsValue(NatToString(n)) == n
  {
    var s := NatToString(n);
    if n >= 10 {
      assert s[..|s| - 1] == NatToString(n / 10);
      DigitsValueOfNat(n / 10);
    }
  }

  lemma NatToStringWellFormed(n: nat)
    ensures WellFormedDigits(NatToString(n))
  {
  }

  /** `int(str(i)) == i`. */
  lemma ParseIntOfIntToString(i: int)
    ensures ParseInt(IntToString(i)) == Some(i)
  {
    var s := IntToString(i);
    var m: nat := if i < 0 then -i else i;
    var d := NatToString(m);
    NatToStringWellFormed(m);
    DigitsValueOfNat(m);
    if i < 0 {
      assert s == "-" + d && s[1..] == d;
      assert !IsSpace(s[0]) && !IsSpace(s[|s| - 1]);
      StripNoSpaceEnds(s);
    } else {
      assert s == d;
      assert !IsSpace(s[0]) && !IsSpace(s[|s| - 1]);
      StripNoSpaceEnds(s);
      assert !(s[0] == '-' || s[0] == '+');
    }
  }

  /** `str` is injective on integers. */
  lemma IntToStringInjective(a: int, b: int)
    requires IntToString(a) == IntToString(b)
    ensures a == b
  {
    ParseIntOfIntToString(a);
    ParseIntOfIntToString(b);
  }
}
