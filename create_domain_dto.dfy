/** The constraints on the `name` of a new domain (src/DTO/CreateDomainDTO.php):
    NotBlank, Length 3..255 and the case-insensitive pattern
    `^[a-z0-9]+([\-\.]{1}[a-z0-9]+)*\.[a-z]{2,}$`. The pattern is stated as
    the grammar it denotes and shown equal to a direct description of its
    strings: dot- or hyphen-separated alphanumeric labels ending in a
    top-level label of at least two letters. */
module CreateDomainDTO {
  import opened Common

  /** Width of the `domains.name` column, VARCHAR(100). */
  const NameColumnWidth := 100

  /** `[a-z0-9]` under the `i` modifier. */
  predicate IsAlnum(c: char) {
    'a' <= c <= 'z' || 'A' <= c <= 'Z' || '0' <= c <= '9'
  }

  /** `[a-z]` under the `i` modifier. */
  predicate IsLetter(c: char) {
    'a' <= c <= 'z' || 'A' <= c <= 'Z'
  }

  /** `[\-\.]`. */
  predicate IsSeparator(c: char) {
    c == '-' || c == '.'
  }

  // ---------------------------------------------------------------------
  // The pattern as a grammar

  /** `[a-z0-9]+`. */
  predicate AlnumRun(s: string) {
    |s| >= 1 && forall i | 0 <= i < |s| :: IsAlnum(s[i])
  }

  /** `[a-z0-9]+([\-\.]{1}[a-z0-9]+)*`: one run, or a run, one separator and
      again this grammar. */
  ghost predicate Labels(s: string)
    decreases |s|
  {
    || AlnumRun(s)
    || exists i | 1 <= i < |s| :: AlnumRun(s[..i]) && IsSeparator(s[i]) && Labels(s[i + 1..])
  }

  /** `[a-z]{2,}`. */
  predicate TopLevel(s: string) {
    |s| >= 2 && forall i | 0 <= i < |s| :: IsLetter(s[i])
  }

  /** The pattern between `^` and the end of the subject: labels, a dot, a
      top-level label. */
  ghost predicate MatchesBody(s: string) {
    exists k | 0 < k < |s| :: s[k] == '.' && Labels(s[..k]) && TopLevel(s[k + 1..])
  }

  /** The whole pattern: without the `D` modifier PCRE's `$` matches at the
      end of the subject and also just before a final newline. */
  ghost predicate MatchesPattern(s: string) {
    || MatchesBody(s)
    || (|s| >= 1 && s[|s| - 1] == '\n' && MatchesBody(s[..|s| - 1]))
  }

  // ---------------------------------------------------------------------
  // The same strings, described directly

  /** Alphanumerics and separators only, an alphanumeric at both ends, and
      never two separators in a row. */
  predicate LabelShape(s: string) {
    && |s| >= 1 && IsAlnum(s[0]) && IsAlnum(s[|s| - 1])
    && (forall i | 0 <= i < |s| :: IsAlnum(s[i]) || IsSeparator(s[i]))
    && (forall i | 0 <= i < |s| - 1 :: !(IsSeparator(s[i]) && IsSeparator(s[i + 1])))
  }

  /** The index of the last `c` in `s`, or -1. */
  function LastIndex(s: string, c: char): (k: int)
    ensures -1 <= k < |s|
    ensures k >= 0 ==> s[k] == c
    ensures forall j | k < j < |s| :: s[j] != c
  {
    if |s| == 0 then -1
    else if s[|s| - 1] == c then |s| - 1
    else LastIndex(s[..|s| - 1], c)
  }

  /** Everything before the last dot has label shape, everything after it is
      a top-level label. */
  predicate NameShape(s: string) {
    var k := LastIndex(s, '.');
    k >= 1 && LabelShape(s[..k]) && TopLevel(s[k + 1..])
  }

  /** The length of the leading alphanumeric run. */
  function RunLength(s: string): (n: nat)
    ensures n <= |s|
    ensures forall j | 0 <= j < n :: IsAlnum(s[j])
    ensures n < |s| ==> !IsAlnum(s[n])
  {
    if |s| == 0 || !IsAlnum(s[0]) then 0 else 1 + RunLength(s[1..])
  }

  /** A run, a separator and a label-shaped rest make a label-shaped string. */
  lemma ShapeOfPrefixedLabels(s: string, i: int)
    requires 1 <= i < |s| && AlnumRun(s[..i]) && IsSeparator(s[i]) && LabelShape(s[i + 1..])
    ensures LabelShape(s)
  {
    var r := s[i + 1..];
    assert s[0] == s[..i][0];
    assert s[|s| - 1] == r[|r| - 1];
    forall j | 0 <= j < |s|
      ensures IsAlnum(s[j]) || IsSeparator(s[j])
    {
      if j < i {
        assert s[j] == s[..i][j];
      } else if j > i {
        assert s[j] == r[j - i - 1];
      }
    }
    forall j | 0 <= j < |s| - 1
      ensures !(IsSeparator(s[j]) && IsSeparator(s[j + 1]))
    {
      if j < i {
        assert s[j] == s[..i][j];
      } else if j == i {
        assert s[j + 1] == r[0];
      } else {
        assert s[j] == r[j - i - 1] && s[j + 1] == r[j - i];
      }
    }
  }

  /** A label-shaped string with a separator splits at its first separator
      into a run and a label-shaped rest. */
  lemma SplitAtFirstSeparator(s: string) returns (i: int)
    requires LabelShape(s) && !AlnumRun(s)
    ensures 1 <= i < |s| - 1 && AlnumRun(s[..i]) && IsSeparator(s[i]) && LabelShape(s[i + 1..])
  {
    i := RunLength(s);
    var r := s[i + 1..];
    assert r[0] == s[i + 1];
    assert r[|r| - 1] == s[|s| - 1];
    forall j | 0 <= j < |r|
      ensures IsAlnum(r[j]) || IsSeparator(r[j])
    {
      assert r[j] == s[i + 1 + j];
    }
    forall j | 0 <= j < |r| - 1
      ensures !(IsSeparator(r[j]) && IsSeparator(r[j + 1]))
    {
      assert r[j] == s[i + 1 + j] && r[j + 1] == s[i + 2 + j];
    }
  }

  /** The label grammar denotes exactly the label-shaped strings: separators
      never lead, never trail and are never adjacent. */
  lemma {:induction false} LabelsIff(s: string)
    decreases |s|
    ensures Labels(s) <==> LabelShape(s)
  {
    if Labels(s) && !AlnumRun(s) {
      var i :| 1 <= i < |s| && AlnumRun(s[..i]) && IsSeparator(s[i]) && Labels(s[i + 1..]);
      LabelsIff(s[i + 1..]);
      ShapeOfPrefixedLabels(s, i);
    }
    if LabelShape(s) && !AlnumRun(s) {
      var i := SplitAtFirstSeparator(s);
      LabelsIff(s[i + 1..]);
    }
  }

  /** The pattern body denotes exactly the name-shaped strings. */
  lemma PatternIffShape(s: string)
    ensures MatchesBody(s) <==> NameShape(s)
  {
    var last := LastIndex(s, '.');
    if MatchesBody(s) {
      var k :| 0 < k < |s| && s[k] == '.' && Labels(s[..k]) && TopLevel(s[k + 1..]);
      assert last == k;
      LabelsIff(s[..k]);
    }
    if NameShape(s) {
      LabelsIff(s[..last]);
      assert s[last] == '.';
    }
  }

  /** A string matching the pattern body ends in a letter. */
  lemma BodyEndsInLetter(s: string)
    requires MatchesBody(s)
    ensures |s| >= 2 && IsLetter(s[|s| - 1])
  {
    var k :| 0 < k < |s| && s[k] == '.' && Labels(s[..k]) && TopLevel(s[k + 1..]);
    var top := s[k + 1..];
    assert s[|s| - 1] == top[|top| - 1];
  }

  /** A name matching the pattern ends in a letter, or in a letter and the
      one newline `$` lets through; in particular a purely numeric final
      label never matches. */
  lemma PatternEndsInLetter(s: string)
    requires MatchesPattern(s)
    ensures |s| >= 2
    ensures IsLetter(s[|s| - 1]) || (s[|s| - 1] == '\n' && IsLetter(s[|s| - 2]))
  {
    if MatchesBody(s) {
      BodyEndsInLetter(s);
    } else {
      var b := s[..|s| - 1];
      BodyEndsInLetter(b);
      assert s[|s| - 2] == b[|b| - 1];
    }
  }

  // ---------------------------------------------------------------------
  // The validator

  /** The constraint set as written: NotBlank, 3..255 characters, the pattern. */
  ghost predicate AcceptedAsWritten(name: Option<string>) {
    NotBlank(name) && 3 <= |name.value| <= 255 && MatchesPattern(name.value)
  }

  /** The constraint set as evidently intended, used by the create handler:
      the name fits its column and matches the pattern exactly, with no
      trailing newline. */
  predicate Accepted(name: Option<string>) {
    name.Some? && 3 <= |name.value| <= NameColumnWidth && NameShape(name.value)
  }

  /** An accepted name is an as-written accepted name that fits the column
      and does not end in a newline, and conversely. */
  lemma AcceptedIffFitting(name: Option<string>)
    ensures Accepted(name) <==>
              && AcceptedAsWritten(name)
              && |name.value| <= NameColumnWidth
              && name.value[|name.value| - 1] != '\n'
  {
    if name.Some? {
      var s := name.value;
      PatternIffShape(s);
      if Accepted(name) {
        PatternEndsInLetter(s);
      }
      if AcceptedAsWritten(name) && |s| <= NameColumnWidth && s[|s| - 1] != '\n' {
        assert MatchesBody(s);
      }
    }
  }

  /** `n` copies of the letter `c`. */
  function Repeat(c: char, n: nat): (s: string)
    ensures |s| == n && forall i | 0 <= i < n :: s[i] == c
  {
    if n == 0 then [] else [c] + Repeat(c, n - 1)
  }

  /** Labels, a dot and a top-level label match the pattern body. */
  lemma RunDotTopLevelMatches(run: string, top: string)
    requires AlnumRun(run) && TopLevel(top)
    ensures MatchesBody(run + "." + top)
  {
    var s := run + "." + top;
    assert s[..|run|] == run && s[|run| + 1..] == top && s[|run|] == '.';
  }

  /** A 101-character name passes the constraints as written but does not
      fit the 100-character column. */
  lemma LongNameAcceptedButTooWide()
    ensures var name := Repeat('a', 97) + ".com";
            && |name| == 101
            && AcceptedAsWritten(Some(name))
            && !Accepted(Some(name))
  {
    var name := Repeat('a', 97) + ".com";
    RunDotTopLevelMatches(Repeat('a', 97), "com");
    assert name == Repeat('a', 97) + "." + "com";
  }

  /** `"example.com\n"` passes the constraints as written, newline included. */
  lemma TrailingNewlineAccepted()
    ensures AcceptedAsWritten(Some("example.com\n"))
    ensures !Accepted(Some("example.com\n"))
  {
    var name := "example.com\n";
    RunDotTopLevelMatches("example", "com");
    assert name[..|name| - 1] == "example" + "." + "com";
    AcceptedIffFitting(Some(name));
  }
}
