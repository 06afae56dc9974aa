/** The few .NET string operations the plugin relies on: `Char.IsWhiteSpace`
    (also the class `\s` of .NET regular expressions), `String.Trim`,
    `String.Contains`, and `String.Format` with the single placeholder `{0}`. */
module Text {

  /** .NET's white-space set: the control characters U+0009 to U+000D, NEXT LINE,
      and every space, line and paragraph separator of the Unicode tables. */
  predicate IsWhiteSpace(c: char) {
    || ('\t' <= c <= '\r')
    || c == ' '
    || c == '\U{85}'
    || c == '\U{A0}'
    || c == '\U{1680}'
    || ('\U{2000}' <= c <= '\U{200A}')
    || c == '\U{2028}'
    || c == '\U{2029}'
    || c == '\U{202F}'
    || c == '\U{205F}'
    || c == '\U{3000}'
  }

  /** Drops the leading white space: the result is the longest suffix of `s`
      that does not start with white space. */
  function TrimStart(s: string): (r: string)
    ensures |r| <= |s| && r == s[|s| - |r|..]
    ensures forall i :: 0 <= i < |s| - |r| ==> IsWhiteSpace(s[i])
    ensures |r| > 0 ==> !IsWhiteSpace(r[0])
    decreases |s|
  {
    if |s| > 0 && IsWhiteSpace(s[0]) then TrimStart(s[1..]) else s
  }

  /** Drops the trailing white space: the result is the longest prefix of `s`
      that does not end with white space. */
  function TrimEnd(s: string): (r: string)
    ensures |r| <= |s| && r == s[..|r|]
    ensures forall i :: |r| <= i < |s| ==> IsWhiteSpace(s[i])
    ensures |r| > 0 ==> !IsWhiteSpace(r[|r| - 1])
    decreases |s|
  {
    if |s| > 0 && IsWhiteSpace(s[|s| - 1]) then TrimEnd(s[..|s| - 1]) else s
  }

  /** `r` is the slice of `s` starting at `a`, with only white space on
      either side of it. */
  predicate SliceInWhiteSpace(s: string, r: string, a: int) {
    && 0 <= a <= |s| - |r|
    && r == s[a..a + |r|]
    && (forall i :: 0 <= i < a ==> IsWhiteSpace(s[i]))
    && (forall i :: a + |r| <= i < |s| ==> IsWhiteSpace(s[i]))
  }

  /** `String.Trim()`: white space removed from both ends. The result is a
      slice of `s` with only white space on either side of it. */
  function Trim(s: string): (r: string)
    ensures |r| <= |s|
    ensures exists a :: SliceInWhiteSpace(s, r, a)
    ensures |r| > 0 ==> !IsWhiteSpace(r[0]) && !IsWhiteSpace(r[|r| - 1])
    ensures (forall i :: 0 <= i < |s| ==> IsWhiteSpace(s[i])) ==> r == []
    ensures (|s| > 0 ==> !IsWhiteSpace(s[0]) && !IsWhiteSpace(s[|s| - 1])) ==> r == s
  {
    var t := TrimStart(s);
    TrimmedSlice(s, t, TrimEnd(t));
    TrimEnd(t)
  }

  /** Cutting leading white space and then trailing white space keeps a
      slice with only white space on either side. */
  lemma TrimmedSlice(s: string, t: string, r: string)
    requires |t| <= |s| && t == s[|s| - |t|..]
    requires forall i :: 0 <= i < |s| - |t| ==> IsWhiteSpace(s[i])
    requires |r| <= |t| && r == t[..|r|]
    requires forall i :: |r| <= i < |t| ==> IsWhiteSpace(t[i])
    ensures SliceInWhiteSpace(s, r, |s| - |t|)
  {
    var a := |s| - |t|;
    assert r == s[a..a + |r|];
    forall i | a + |r| <= i < |s|
      ensures IsWhiteSpace(s[i])
    {
      assert s[i] == t[i - a];
    }
  }

  /** Trimming a second time changes nothing. */
  lemma TrimIdempotent(s: string)
    ensures Trim(Trim(s)) == Trim(s)
  {
  }

  /** `pattern` occurs in `s` starting at index `i`. */
  predicate OccursAt(s: string, pattern: string, i: int) {
    0 <= i && i + |pattern| <= |s| && s[i..i + |pattern|] == pattern
  }

  /** Occurrences in the tail of `s` are the occurrences in `s` one index later. */
  lemma ShiftOccurrence(s: string, pattern: string)
    requires |s| > 0
    ensures forall i :: 0 <= i ==> (OccursAt(s[1..], pattern, i) <==> OccursAt(s, pattern, i + 1))
  {
    forall i | 0 <= i
      ensures OccursAt(s[1..], pattern, i) <==> OccursAt(s, pattern, i + 1)
    {
      if 0 <= i && i + |pattern| <= |s| - 1 {
        assert s[1..][i..i + |pattern|] == s[i + 1..i + 1 + |pattern|];
      }
    }
  }

  /** `String.Contains`, by a left-to-right scan: true exactly when `pattern`
      occurs somewhere in `s` (the empty pattern occurs everywhere). */
  function Contains(s: string, pattern: string): (b: bool)
    ensures b <==> exists i :: OccursAt(s, pattern, i)
    decreases |s|
  {
    if |pattern| > |s| then
      false
    else if s[..|pattern|] == pattern then
      assert OccursAt(s, pattern, 0);
      true
    else
      ShiftOccurrence(s, pattern);
      assert !OccursAt(s, pattern, 0);
      assert forall i :: OccursAt(s, pattern, i) ==> OccursAt(s[1..], pattern, i - 1);
      Contains(s[1..], pattern)
  }

  /** The only format item the plugin's tag message uses. */
  const Placeholder := "{0}"

  /** `String.Format(template, name)` restricted to the placeholder `{0}`:
      every occurrence, scanned left to right, is replaced by `name`; any other
      text is copied unchanged. Formatting with the placeholder itself as the
      name therefore gives back the template. */
  function FormatLabel(template: string, name: string): (r: string)
    ensures name == Placeholder ==> r == template
    decreases |template|
  {
    if |template| == 0 then
      ""
    else if |template| >= 3 && template[..3] == Placeholder then
      name + FormatLabel(template[3..], name)
    else
      [template[0]] + FormatLabel(template[1..], name)
  }

  /** A template without the placeholder is its own formatting. */
  lemma {:induction false} FormatWithoutPlaceholder(template: string, name: string)
    requires !Contains(template, Placeholder)
    ensures FormatLabel(template, name) == template
    decreases |template|
  {
    if |template| > 0 {
      ShiftOccurrence(template, Placeholder);
      if |template| >= 3 {
        assert !OccursAt(template, Placeholder, 0);
      }
      assert forall i :: 0 <= i ==> !OccursAt(template[1..], Placeholder, i);
      FormatWithoutPlaceholder(template[1..], name);
    }
  }

  /** A template without braces is its own formatting. */
  lemma {:induction false} FormatWithoutBrace(template: string, name: string)
    requires forall i :: 0 <= i < |template| ==> template[i] != '{' && template[i] != '}'
    ensures FormatLabel(template, name) == template
    decreases |template|
  {
    if |template| > 0 {
      if |template| >= 3 {
        assert template[..3][0] == template[0];
      }
      FormatWithoutBrace(template[1..], name);
    }
  }

  /** Formatting a text that continues with the placeholder formats the part
      before it on its own: no occurrence can straddle the boundary. */
  lemma {:induction false} FormatSplitsBeforePlaceholder(before: string, rest: string, name: string)
    requires |rest| >= 3 && rest[..3] == Placeholder
    ensures FormatLabel(before + rest, name) == FormatLabel(before, name) + FormatLabel(rest, name)
    decreases |before|
  {
    var t := before + rest;
    if |before| == 0 {
      assert t == rest;
    } else if |before| >= 3 && before[..3] == Placeholder {
      assert t[..3] == Placeholder;
      assert t[3..] == before[3..] + rest;
      FormatSplitsBeforePlaceholder(before[3..], rest, name);
    } else {
      if |before| >= 3 {
        assert t[..3] == before[..3];
      } else {
        assert t[|before|] == '{';
      }
      assert t[..3] != Placeholder;
      assert t[1..] == before[1..] + rest;
      FormatSplitsBeforePlaceholder(before[1..], rest, name);
    }
  }

  /** Formatting distributes over a placeholder: the text before it, the name,
      and the text after it are formatted independently. */
  lemma FormatAroundPlaceholder(before: string, after: string, name: string)
    ensures FormatLabel(before + Placeholder + after, name)
         == FormatLabel(before, name) + name + FormatLabel(after, name)
  {
    var rest := Placeholder + after;
    assert rest[..3] == Placeholder && rest[3..] == after;
    assert before + Placeholder + after == before + rest;
    FormatSplitsBeforePlaceholder(before, rest, name);
  }

  /** A template with one placeholder and no other brace formats to the text
      around it with the name in its place. */
  lemma FormatOnePlaceholder(before: string, after: string, name: string)
    requires forall i :: 0 <= i < |before| ==> before[i] != '{' && before[i] != '}'
    requires forall i :: 0 <= i < |after| ==> after[i] != '{' && after[i] != '}'
    ensures FormatLabel(before + Placeholder + after, name) == before + name + after
  {
    FormatAroundPlaceholder(before, after, name);
    FormatWithoutBrace(before, name);
    FormatWithoutBrace(after, name);
  }
}
