/** The two `os.path` functions the pipeline relies on, with POSIX rules. */
module PyPath {
  import opened PyStr

  /** `s.rfind(c)`: the last index of `c`, or -1. */
  function RFind(s: string, c: char): (k: int)
    ensures -1 <= k < |s|
    ensures k >= 0 ==> s[k] == c
    ensures forall j | k < j < |s| :: s[j] != c
  {
    if s == [] then -1
    else if s[|s| - 1] == c then |s| - 1
    else RFind(s[..|s| - 1], c)
  }

  predicate HasNonDot(p: string, from: int, to: int)
    requires 0 <= from <= to <= |p|
  {
    exists j | from <= j < to :: p[j] != '.'
  }

  /**
   * `os.path.splitext(p)`: the extension starts at the last dot after the
   * last slash, unless only dots precede it in the last component.
   */
  function Splitext(p: string): (r: (string, string))
    ensures r.0 + r.1 == p
    ensures r.1 == [] || (r.1[0] == '.' && forall j | 1 <= j < |r.1| :: r.1[j] != '.' && r.1[j] != '/')
  {
    var sepIndex := RFind(p, '/');
    var dotIndex := RFind(p, '.');
    if dotIndex > sepIndex && HasNonDot(p, sepIndex + 1, dotIndex) then
      assert forall j | dotIndex < j < |p| :: p[j] != '/';
      (p[..dotIndex], p[dotIndex..])
    else (p, "")
  }

  /** A name whose last component has no dot, or only leading dots, has no extension. */
  lemma NoDotNoExtension(p: string)
    requires forall j | 0 <= j < |p| :: p[j] != '.'
    ensures Splitext(p) == (p, "")
  {
  }

  lemma DotFileHasNoExtension(name: string)
    requires forall j | 0 <= j < |name| :: name[j] != '.' && name[j] != '/'
    ensures Splitext("." + name) == ("." + name, "")
  {
    var p := "." + name;
    assert RFind(p, '/') == -1;
    var d := RFind(p, '.');
    assert p[0] == '.';
    assert d == 0;
  }

  /** A plain `stem.ext` name splits at its dot. */
  lemma StemAndExtension(stem: string, ext: string)
    requires stem != [] && forall j | 0 <= j < |stem| :: stem[j] != '.' && stem[j] != '/'
    requires forall j | 0 <= j < |ext| :: ext[j] != '.' && ext[j] != '/'
    ensures Splitext(stem + "." + ext) == (stem, "." + ext)
  {
    var p := stem + "." + ext;
    var d := RFind(p, '.');
    assert p[|stem|] == '.';
    assert d == |stem|;
    var s := RFind(p, '/');
    assert s == -1;
    assert p[0] == stem[0];
    assert HasNonDot(p, 0, d);
    assert p[..d] == stem;
    assert p[d..] == "." + ext;
  }

  lemma {:induction false} RFindLower(p: string, c: char)
    requires c == '.' || c == '/'
    ensures RFind(Lower(p), c) == RFind(p, c)
  {
    if p != [] {
      var init := p[..|p| - 1];
      assert Lower(p)[..|p| - 1] == Lower(init);
      RFindLower(init, c);
    }
  }

  /** Lower-casing a path lower-cases both parts of its split: only letters change. */
  lemma SplitextLower(p: string)
    ensures Splitext(Lower(p)) == (Lower(Splitext(p).0), Lower(Splitext(p).1))
  {
    var q := Lower(p);
    RFindLower(p, '/');
    RFindLower(p, '.');
    var s, d := RFind(p, '/'), RFind(p, '.');
    if d > s {
      if HasNonDot(p, s + 1, d) {
        var j :| s + 1 <= j < d && p[j] != '.';
        assert q[j] != '.';
        assert q[..d] == Lower(p[..d]) && q[d..] == Lower(p[d..]);
      } else {
        assert !HasNonDot(q, s + 1, d) by {
          forall j | s + 1 <= j < d ensures q[j] == '.' {
            assert p[j] == '.';
          }
        }
      }
    }
  }

  /** `os.path.join(a, b)`: an absolute `b` replaces `a`. */
  function PathJoin(a: string, b: string): (r: string)
    ensures b != [] && b[0] == '/' ==> r == b
    ensures !(b != [] && b[0] == '/') ==> |r| >= |a| + |b| && r[..|a|] == a && r[|r| - |b|..] == b
  {
    if b != [] && b[0] == '/' then b
    else if a == [] || a[|a| - 1] == '/' then a + b
    else a + "/" + b
  }
}
