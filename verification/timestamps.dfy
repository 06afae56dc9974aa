/** The timestamp rewrite applied to the output of the history query. git
    prints committer dates as `YYYY-MM-DD HH:MM:SS +HHMM`; the XML deserialiser
    wants `YYYY-MM-DDTHH:MM:SS+HH:MM`, so every `<ModifiedTime>` element of the
    first form is rewritten into the second by one regular-expression
    replacement. */
module Timestamps {
  import Text

  const Open := "<ModifiedTime>"
  const Close := "</ModifiedTime>"

  /** Length of one timestamp element, before and after the rewrite. */
  const Width := 54

  /** What one position of the pattern accepts: a literal character, `\d`,
      `\s`, or the sign group `(\+|-)`. */
  datatype CharClass = Exactly(c: char) | Digit | Space | Sign

  /** `\d`, restricted to the ASCII digits. */
  predicate IsDigit(c: char) {
    '0' <= c <= '9'
  }

  predicate IsSign(c: char) {
    c == '+' || c == '-'
  }

  predicate Accepts(cls: CharClass, c: char) {
    match cls
    case Exactly(d) => c == d
    case Digit => IsDigit(c)
    case Space => Text.IsWhiteSpace(c)
    case Sign => IsSign(c)
  }

  /** The regular expression, position by position:
      `<ModifiedTime>(\d{4}-\d\d-\d\d)\s(\d\d:\d\d:\d\d)\s(\+|-)(\d\d)(\d\d)</ModifiedTime>`. */
  function NativeClass(k: int): CharClass
    requires 0 <= k < Width
  {
    if k < 14 then Exactly(Open[k])
    else if k < 24 then (if k == 18 || k == 21 then Exactly('-') else Digit)
    else if k == 24 then Space
    else if k < 33 then (if k == 27 || k == 30 then Exactly(':') else Digit)
    else if k == 33 then Space
    else if k == 34 then Sign
    else if k < 39 then Digit
    else Exactly(Close[k - 39])
  }

  /** The replacement's shape: `<ModifiedTime>YYYY-MM-DDTHH:MM:SS+HH:MM</ModifiedTime>`. */
  function IsoClass(k: int): CharClass
    requires 0 <= k < Width
  {
    if k == 24 then Exactly('T')
    else if k == 33 then Sign
    else if k == 34 || k == 35 || k == 37 || k == 38 then Digit
    else if k == 36 then Exactly(':')
    else NativeClass(k)
  }

  /** `w` is a whole match of the regular expression. */
  predicate IsNative(w: string) {
    |w| == Width && forall k :: 0 <= k < Width ==> Accepts(NativeClass(k), w[k])
  }

  /** `v` is a timestamp element in the extended ISO 8601 form. */
  predicate IsIso(v: string) {
    |v| == Width && forall k :: 0 <= k < Width ==> Accepts(IsoClass(k), v[k])
  }

  /** The replacement `<ModifiedTime>$1T$2$3$4:$5</ModifiedTime>` applied to one
      match: date, `T`, clock, sign, hours, `:`, minutes. */
  function ToIso(w: string): string
    requires IsNative(w)
  {
    var date, clock, sign, hours, minutes := w[14..24], w[25..33], w[34], w[35..37], w[37..39];
    Open + date + "T" + clock + [sign] + hours + ":" + minutes + Close
  }

  /** The inverse of `ToIso`, given the two white-space characters the match
      had between date and clock and between clock and offset. */
  function ToNative(v: string, beforeClock: char, beforeOffset: char): string
    requires IsIso(v) && Text.IsWhiteSpace(beforeClock) && Text.IsWhiteSpace(beforeOffset)
  {
    var date, clock, sign, hours, minutes := v[14..24], v[25..33], v[33], v[34..36], v[37..39];
    Open + date + [beforeClock] + clock + [beforeOffset] + [sign] + hours + minutes + Close
  }

  /** A rewritten match is in the extended form; each of its characters is the
      match's character at the same index, except the `T` at 24, the sign and
      hours moved one place left, and the `:` at 36. */
  lemma ToIsoAt(w: string)
    requires IsNative(w)
    ensures IsIso(ToIso(w))
    ensures forall k :: 0 <= k < Width ==>
      ToIso(w)[k] == (if k == 24 then 'T' else if 33 <= k < 36 then w[k + 1] else if k == 36 then ':' else w[k])
  {
    var v := ToIso(w);
    assert |v| == Width;
    assert v[..14] == Open && v[14..24] == w[14..24] && v[24] == 'T' && v[25..33] == w[25..33];
    assert v[33] == w[34] && v[34] == w[35] && v[35] == w[36] && v[36] == ':';
    assert v[37..39] == w[37..39] && v[39..] == Close;
    forall k | 0 <= k < Width
      ensures v[k] == (if k == 24 then 'T' else if 33 <= k < 36 then w[k + 1] else if k == 36 then ':' else w[k])
      ensures Accepts(IsoClass(k), v[k])
    {
      assert Accepts(NativeClass(k), w[k]);
      if k < 14 {
        assert v[k] == v[..14][k];
      } else if 14 <= k < 24 {
        assert v[k] == v[14..24][k - 14];
      } else if 25 <= k < 33 {
        assert v[k] == v[25..33][k - 25];
      } else if 37 <= k < 39 {
        assert v[k] == v[37..39][k - 37];
      } else if 39 <= k {
        assert v[k] == v[39..][k - 39];
      }
      if 33 <= k < 36 {
        assert Accepts(NativeClass(k + 1), w[k + 1]);
      }
    }
  }

  /** A restored match is a match; each of its characters is the extended
      form's character at the same index, except the two separators and the
      sign and hours moved one place right. */
  lemma ToNativeAt(v: string, beforeClock: char, beforeOffset: char)
    requires IsIso(v) && Text.IsWhiteSpace(beforeClock) && Text.IsWhiteSpace(beforeOffset)
    ensures IsNative(ToNative(v, beforeClock, beforeOffset))
    ensures forall k :: 0 <= k < Width ==>
      ToNative(v, beforeClock, beforeOffset)[k]
        == (if k == 24 then beforeClock else if k == 33 then beforeOffset
            else if 34 <= k < 37 then v[k - 1] else v[k])
  {
    var w := ToNative(v, beforeClock, beforeOffset);
    assert |w| == Width;
    assert w[..14] == Open && w[14..24] == v[14..24] && w[24] == beforeClock && w[25..33] == v[25..33];
    assert w[33] == beforeOffset && w[34] == v[33] && w[35] == v[34] && w[36] == v[35];
    assert w[37..39] == v[37..39] && w[39..] == Close;
    forall k | 0 <= k < Width
      ensures w[k] == (if k == 24 then beforeClock else if k == 33 then beforeOffset
                       else if 34 <= k < 37 then v[k - 1] else v[k])
    {
      if k < 14 {
        assert w[k] == w[..14][k];
      } else if 14 <= k < 24 {
        assert w[k] == w[14..24][k - 14];
      } else if 25 <= k < 33 {
        assert w[k] == w[25..33][k - 25];
      } else if 37 <= k < 39 {
        assert w[k] == w[37..39][k - 37];
      } else if 39 <= k {
        assert w[k] == w[39..][k - 39];
      }
    }
    forall k | 0 <= k < Width
      ensures Accepts(NativeClass(k), w[k])
    {
      assert Accepts(IsoClass(k), v[k]);
      if 34 <= k < 37 {
        assert Accepts(IsoClass(k - 1), v[k - 1]);
      }
    }
  }

  /** Rewriting a match and restoring its separators gives back the match:
      no digit, sign or separator is lost or moved out of its field. */
  lemma NativeRoundTrip(w: string)
    requires IsNative(w)
    ensures ToNative(ToIso(w), w[24], w[33]) == w
  {
    var v := ToIso(w);
    ToIsoAt(w);
    ToNativeAt(v, w[24], w[33]);
    var back := ToNative(v, w[24], w[33]);
    forall k | 0 <= k < Width
      ensures back[k] == w[k]
    {
      if 34 <= k < 37 {
        assert back[k] == v[k - 1];
      } else if k != 24 && k != 33 {
        assert back[k] == v[k];
      }
    }
  }

  /** Every extended-form element is the rewrite of some match, whatever
      white space that match used. */
  lemma IsoRoundTrip(v: string, beforeClock: char, beforeOffset: char)
    requires IsIso(v) && Text.IsWhiteSpace(beforeClock) && Text.IsWhiteSpace(beforeOffset)
    ensures ToIso(ToNative(v, beforeClock, beforeOffset)) == v
  {
    var w := ToNative(v, beforeClock, beforeOffset);
    ToNativeAt(v, beforeClock, beforeOffset);
    ToIsoAt(w);
    var again := ToIso(w);
    forall k | 0 <= k < Width
      ensures again[k] == v[k]
    {
      assert Accepts(IsoClass(k), v[k]);
      if 33 <= k < 36 {
        assert again[k] == w[k + 1];
      } else if k != 24 && k != 36 {
        assert again[k] == w[k];
      }
    }
  }

  /** `Regex.Replace` with this fixed-width pattern: scan left to right; where a
      match starts, emit its rewrite and continue after it; elsewhere copy one
      character and move on. */
  function Rewrite(s: string): (r: string)
    ensures |r| == |s|
    decreases |s|
  {
    if |s| < Width then
      s
    else if IsNative(s[..Width]) then
      ToIso(s[..Width]) + Rewrite(s[Width..])
    else
      [s[0]] + Rewrite(s[1..])
  }

  /** A match of the pattern starts at index `i` of `s`. */
  predicate NativeAt(s: string, i: int) {
    0 <= i && i + Width <= |s| && IsNative(s[i..i + Width])
  }

  ghost predicate NoNative(s: string) {
    forall i :: !NativeAt(s, i)
  }

  /** `<M` starts at index `j`: the only way any match can begin. */
  predicate Opens(s: string, j: int) {
    0 <= j && j + 1 < |s| && s[j] == '<' && s[j + 1] == 'M'
  }

  /** Inside a match, `<M` occurs only at its first position. */
  lemma NativeOpensOnlyAtStart(w: string)
    requires IsNative(w)
    ensures forall k :: 1 <= k < Width ==> !Opens(w, k)
  {
    forall k | 1 <= k < Width - 1
      ensures !Opens(w, k)
    {
      assert Accepts(NativeClass(k), w[k]);
      assert Accepts(NativeClass(k + 1), w[k + 1]);
    }
  }

  /** Inside a rewritten element, `<M` occurs only at its first position. */
  lemma IsoOpensOnlyAtStart(v: string)
    requires IsIso(v)
    ensures forall k :: 1 <= k < Width ==> !Opens(v, k)
  {
    forall k | 1 <= k < Width - 1
      ensures !Opens(v, k)
    {
      assert Accepts(IsoClass(k), v[k]);
      assert Accepts(IsoClass(k + 1), v[k + 1]);
    }
  }

  /** A window holding `<M` anywhere but at its start is not a match. */
  lemma OpensInsideRulesOutNative(x: string, k: int)
    requires 1 <= k < Width && Opens(x, k)
    ensures !IsNative(x)
  {
    if |x| == Width {
      assert !(Accepts(NativeClass(k), x[k]) && Accepts(NativeClass(k + 1), x[k + 1]));
    }
  }

  /** Matches never overlap: no match starts strictly inside another. */
  lemma MatchesDoNotOverlap(s: string, i: int, j: int)
    requires NativeAt(s, i) && i < j < i + Width
    ensures !NativeAt(s, j)
  {
    if j + Width <= |s| {
      var w := s[i..i + Width];
      var x := s[j..j + Width];
      var k := j - i;
      NativeOpensOnlyAtStart(w);
      if k < Width - 1 {
        assert x[0] == w[k] && x[1] == w[k + 1];
      } else {
        assert Accepts(NativeClass(Width - 1), w[Width - 1]);
        assert x[0] == w[Width - 1];
      }
      NoOpenNotNative(x);
    }
  }

  /** Every match of the input is replaced by its rewrite at the same
      position: the scan never skips past the start of a match. */
  lemma {:induction false} RewriteInPlace(s: string, i: int)
    requires NativeAt(s, i)
    ensures Rewrite(s)[i..i + Width] == ToIso(s[i..i + Width])
    decreases |s|
  {
    if IsNative(s[..Width]) {
      if i == 0 {
        assert s[i..i + Width] == s[..Width];
      } else {
        assert NativeAt(s, 0) by { assert s[0..Width] == s[..Width]; }
        if i < Width {
          MatchesDoNotOverlap(s, 0, i);
        }
        var tail := s[Width..];
        NativeInTail(s, Width, i);
        RewriteInPlace(tail, i - Width);
        var front := ToIso(s[..Width]);
        assert Rewrite(s) == front + Rewrite(tail);
        SliceAfterFront(front, Rewrite(tail), i, Width);
      }
    } else {
      assert i != 0 by { assert s[0..Width] == s[..Width]; }
      var tail := s[1..];
      NativeInTail(s, 1, i);
      RewriteInPlace(tail, i - 1);
      assert Rewrite(s) == [s[0]] + Rewrite(tail);
      SliceAfterFront([s[0]], Rewrite(tail), i, Width);
    }
  }

  /** A slice lying wholly after `front` is a slice of what follows it. */
  lemma SliceAfterFront<T>(front: seq<T>, rest: seq<T>, i: int, n: int)
    requires |front| <= i && 0 <= n && i + n <= |front| + |rest|
    ensures (front + rest)[i..i + n] == rest[i - |front|..i - |front| + n]
  {
  }

  /** A match of `s` at or after `n` is a match of the suffix from `n`, at
      the same text. */
  lemma NativeInTail(s: string, n: int, i: int)
    requires 0 <= n <= i && NativeAt(s, i)
    ensures NativeAt(s[n..], i - n) && s[n..][i - n..i - n + Width] == s[i..i + Width]
  {
    assert s[n..][i - n..i - n + Width] == s[i..i + Width];
  }

  /** Index `k` of `s` lies inside some match. */
  ghost predicate Covered(s: string, k: int) {
    exists i :: NativeAt(s, i) && i <= k < i + Width
  }

  /** Matches in a suffix of `s` are matches of `s`, shifted by where the
      suffix starts. */
  lemma NativeInSuffix(s: string, n: int, i: int)
    requires 0 <= n <= |s| && NativeAt(s[n..], i)
    ensures NativeAt(s, i + n)
  {
    assert s[n..][i..i + Width] == s[i + n..i + n + Width];
  }

  /** Every character that no match covers is copied unchanged; with
      `RewriteInPlace` this accounts for every index of the output. */
  lemma {:induction false} RewriteCopiesOutsideMatches(s: string, k: int)
    requires 0 <= k < |s| && !Covered(s, k)
    ensures Rewrite(s)[k] == s[k]
    decreases |s|
  {
    if |s| >= Width {
      if IsNative(s[..Width]) {
        assert NativeAt(s, 0) by { assert s[0..Width] == s[..Width]; }
        forall i | NativeAt(s[Width..], i)
          ensures !(i <= k - Width < i + Width)
        {
          NativeInSuffix(s, Width, i);
        }
        RewriteCopiesOutsideMatches(s[Width..], k - Width);
      } else if k > 0 {
        forall i | NativeAt(s[1..], i)
          ensures !(i <= k - 1 < i + Width)
        {
          NativeInSuffix(s, 1, i);
        }
        RewriteCopiesOutsideMatches(s[1..], k - 1);
      }
    }
  }

  /** The rewrite, described position by position rather than as a scan:
      every match of `s` is replaced at its own place by its rewrite, and
      every character outside the matches is kept. */
  ghost predicate RewrittenFrom(r: string, s: string) {
    && |r| == |s|
    && (forall i :: NativeAt(s, i) ==> r[i..i + Width] == ToIso(s[i..i + Width]))
    && (forall k :: 0 <= k < |s| && !Covered(s, k) ==> r[k] == s[k])
  }

  /** The scan meets the position-by-position description. */
  lemma RewriteMeetsDescription(s: string)
    ensures RewrittenFrom(Rewrite(s), s)
  {
    forall i | NativeAt(s, i)
      ensures Rewrite(s)[i..i + Width] == ToIso(s[i..i + Width])
    {
      RewriteInPlace(s, i);
    }
    forall k | 0 <= k < |s| && !Covered(s, k)
      ensures Rewrite(s)[k] == s[k]
    {
      RewriteCopiesOutsideMatches(s, k);
    }
  }

  /** The description determines the output: whatever meets it is the scan's
      result. */
  lemma DescriptionDeterminesRewrite(r: string, s: string)
    requires RewrittenFrom(r, s)
    ensures r == Rewrite(s)
  {
    RewriteMeetsDescription(s);
    var t := Rewrite(s);
    forall k | 0 <= k < |s|
      ensures r[k] == t[k]
    {
      if Covered(s, k) {
        var i :| NativeAt(s, i) && i <= k < i + Width;
        assert r[k] == r[i..i + Width][k - i];
        assert t[k] == t[i..i + Width][k - i];
      }
    }
  }

  /** Before the first `<M`, the rewrite changes nothing. */
  lemma {:induction false} RewriteKeepsPrefix(t: string, n: nat)
    requires n <= |t|
    requires forall j :: 0 <= j < n ==> !Opens(t, j)
    ensures Rewrite(t)[..n] == t[..n]
    decreases |t|
  {
    if n > 0 && |t| >= Width {
      assert !Opens(t, 0);
      assert !IsNative(t[..Width]) by {
        assert t[..Width][0] != '<' || t[..Width][1] != 'M';
      }
      forall j | 0 <= j < n - 1
        ensures !Opens(t[1..], j)
      {
        assert !Opens(t, j + 1);
      }
      RewriteKeepsPrefix(t[1..], n - 1);
    }
  }

  /** Every `<M` of the input is still a `<M` at the same index of the output. */
  lemma {:induction false} RewriteKeepsOpens(t: string, j: int)
    requires Opens(t, j)
    ensures Opens(Rewrite(t), j)
    decreases |t|
  {
    if |t| >= Width {
      if IsNative(t[..Width]) {
        var w := t[..Width];
        if j < Width {
          NativeOpensOnlyAtStart(w);
          if 0 < j && j < Width - 1 {
            assert Opens(w, j);
          }
          assert j == 0;
          assert Rewrite(t)[..Width] == ToIso(w);
        } else {
          RewriteKeepsOpens(t[Width..], j - Width);
          assert Rewrite(t)[Width..] == Rewrite(t[Width..]);
        }
      } else if j == 0 {
        RewriteKeepsPrefix(t[1..], 1);
      } else {
        RewriteKeepsOpens(t[1..], j - 1);
      }
    }
  }

  /** A window that does not start with `<M` is not a match. */
  lemma NoOpenNotNative(x: string)
    requires |x| == Width && !Opens(x, 0)
    ensures !IsNative(x)
  {
    assert !(Accepts(NativeClass(0), x[0]) && Accepts(NativeClass(1), x[1]));
  }

  /** An element in the extended form is not a match: it has `T` where the
      match needs white space. */
  lemma IsoNotNative(v: string)
    requires IsIso(v)
    ensures !IsNative(v)
  {
    assert Accepts(IsoClass(24), v[24]);
    assert !Accepts(NativeClass(24), v[24]);
  }

  /** No match survives where the scan rewrote a match at the front. */
  lemma RewriteLeavesNoNativeAfterMatch(s: string)
    requires |s| >= Width && IsNative(s[..Width])
    requires NoNative(Rewrite(s[Width..]))
    ensures NoNative(Rewrite(s))
  {
    var r := Rewrite(s);
    var v := ToIso(s[..Width]);
    var rest := Rewrite(s[Width..]);
    ToIsoAt(s[..Width]);
    IsoOpensOnlyAtStart(v);
    assert r == v + rest;
    forall i
      ensures !NativeAt(v + rest, i)
    {
      if 0 <= i && i + Width <= |v + rest| {
        WindowAfterMatch(v, rest, i);
      }
    }
  }

  /** The case analysis behind `RewriteLeavesNoNativeAfterMatch`, on the
      index of the window. */
  lemma WindowAfterMatch(v: string, rest: string, i: int)
    requires IsIso(v) && NoNative(rest)
    requires forall k :: 1 <= k < Width ==> !Opens(v, k)
    requires 0 <= i && i + Width <= |v + rest|
    ensures !IsNative((v + rest)[i..i + Width])
  {
    var x := (v + rest)[i..i + Width];
    if i == 0 {
      assert x == v;
      IsoNotNative(v);
    } else if i < Width {
      assert x[0] == v[i];
      if i < Width - 1 {
        assert x[1] == v[i + 1];
        assert !Opens(v, i);
      } else {
        assert Accepts(IsoClass(Width - 1), v[Width - 1]);
      }
      NoOpenNotNative(x);
    } else {
      assert x == rest[i - Width..i];
      assert !NativeAt(rest, i - Width);
    }
  }

  /** No match survives where the scan copied the first character. */
  lemma RewriteLeavesNoNativeAfterCopy(s: string)
    requires |s| >= Width && !IsNative(s[..Width])
    requires NoNative(Rewrite(s[1..]))
    ensures NoNative(Rewrite(s))
  {
    var r := Rewrite(s);
    var rest := Rewrite(s[1..]);
    assert r == [s[0]] + rest;
    forall i
      ensures !NativeAt(r, i)
    {
      if 0 < i && i + Width <= |r| {
        WindowAfterCopy(s[0], rest, i);
      } else if i == 0 {
        FrontWindowAfterCopy(s);
        assert r[..Width] == r[0..Width];
      }
    }
  }

  /** Past the copied character, the windows are those of the rewritten tail. */
  lemma WindowAfterCopy(c: char, rest: string, i: int)
    requires NoNative(rest)
    requires 0 < i && i + Width <= |[c] + rest|
    ensures !NativeAt([c] + rest, i)
  {
    assert ([c] + rest)[i..i + Width] == rest[i - 1..i - 1 + Width];
    assert !NativeAt(rest, i - 1);
  }

  /** After copying the first character, the window at the front is no match:
      either the input already had `<M` inside that window, which the rewrite
      keeps, or the rewrite did not touch the window at all. */
  lemma FrontWindowAfterCopy(s: string)
    requires |s| >= Width && !IsNative(s[..Width])
    ensures !IsNative(Rewrite(s)[..Width])
  {
    if exists j :: 1 <= j < Width && Opens(s, j) {
      var j :| 1 <= j < Width && Opens(s, j);
      FrontWindowKeepsOpen(s, j);
    } else {
      FrontWindowUntouched(s);
    }
  }

  /** An `<M` inside the front window is still there after the rewrite, so
      the rewritten window is no match. */
  lemma FrontWindowKeepsOpen(s: string, j: int)
    requires |s| >= Width && !IsNative(s[..Width])
    requires 1 <= j < Width && Opens(s, j)
    ensures !IsNative(Rewrite(s)[..Width])
  {
    var t := s[1..];
    var rest := Rewrite(t);
    assert Rewrite(s) == [s[0]] + rest;
    var x := Rewrite(s)[..Width];
    assert Opens(t, j - 1);
    RewriteKeepsOpens(t, j - 1);
    assert x[j] == rest[j - 1] == '<';
    if j < Width - 1 {
      assert x[j + 1] == rest[j] == 'M';
      assert Opens(x, j);
      OpensInsideRulesOutNative(x, j);
    } else {
      assert !Accepts(NativeClass(Width - 1), x[Width - 1]);
    }
  }

  /** Without an `<M` inside the front window, the rewrite leaves the window
      as it was, and it was no match. */
  lemma FrontWindowUntouched(s: string)
    requires |s| >= Width && !IsNative(s[..Width])
    requires forall j :: 1 <= j < Width ==> !Opens(s, j)
    ensures !IsNative(Rewrite(s)[..Width])
  {
    var t := s[1..];
    var rest := Rewrite(t);
    assert Rewrite(s) == [s[0]] + rest;
    forall k | 0 <= k < Width - 1
      ensures !Opens(t, k)
    {
      assert !Opens(s, k + 1);
    }
    RewriteKeepsPrefix(t, Width - 1);
    assert rest[..Width - 1] == t[..Width - 1];
    assert Rewrite(s)[..Width] == [s[0]] + rest[..Width - 1];
    assert s[..Width] == [s[0]] + t[..Width - 1];
  }

  /** The rewrite is complete: no match of the pattern survives in its output. */
  lemma {:induction false} RewriteLeavesNoNative(s: string)
    ensures NoNative(Rewrite(s))
    decreases |s|
  {
    if |s| >= Width {
      if IsNative(s[..Width]) {
        RewriteLeavesNoNative(s[Width..]);
        RewriteLeavesNoNativeAfterMatch(s);
      } else {
        RewriteLeavesNoNative(s[1..]);
        RewriteLeavesNoNativeAfterCopy(s);
      }
    }
  }

  /** Text without a match is left exactly as it was. */
  lemma {:induction false} RewriteIdentity(s: string)
    requires NoNative(s)
    ensures Rewrite(s) == s
    decreases |s|
  {
    if |s| >= Width {
      assert !NativeAt(s, 0);
      assert s[..Width] == s[0..Width];
      forall i
        ensures !NativeAt(s[1..], i)
      {
        if 0 <= i && i + Width <= |s| - 1 {
          assert s[1..][i..i + Width] == s[i + 1..i + 1 + Width];
          assert !NativeAt(s, i + 1);
        }
      }
      RewriteIdentity(s[1..]);
    }
  }

  /** Rewriting twice is rewriting once. */
  lemma RewriteIdempotent(s: string)
    ensures Rewrite(Rewrite(s)) == Rewrite(s)
  {
    RewriteLeavesNoNative(s);
    RewriteIdentity(Rewrite(s));
  }

  /** The digits and signs of `s`, in order. */
  function DigitsAndSigns(s: string): string
    decreases |s|
  {
    if |s| == 0 then []
    else (if IsDigit(s[0]) || IsSign(s[0]) then [s[0]] else []) + DigitsAndSigns(s[1..])
  }

  lemma DigitsAndSignsCons(c: char, s: string)
    ensures DigitsAndSigns([c] + s) == (if IsDigit(c) || IsSign(c) then [c] else []) + DigitsAndSigns(s)
  {
    assert ([c] + s)[1..] == s;
  }

  lemma {:induction false} DigitsAndSignsAppend(a: string, b: string)
    ensures DigitsAndSigns(a + b) == DigitsAndSigns(a) + DigitsAndSigns(b)
    decreases |a|
  {
    if |a| > 0 {
      assert (a + b)[0] == a[0];
      assert (a + b)[1..] == a[1..] + b;
      DigitsAndSignsAppend(a[1..], b);
    } else {
      assert a + b == b;
    }
  }

  /** One rewritten match keeps its digits and its sign, in order. */
  lemma ToIsoKeepsDigitsAndSigns(w: string)
    requires IsNative(w)
    ensures DigitsAndSigns(ToIso(w)) == DigitsAndSigns(w)
  {
    var v := ToIso(w);
    ToIsoAt(w);
    assert !IsDigit(w[24]) && !IsSign(w[24]) && !IsDigit(w[33]) && !IsSign(w[33]) by {
      assert Accepts(NativeClass(24), w[24]) && Accepts(NativeClass(33), w[33]);
    }
    // Cut both windows at 24, 25, 33 and 37: the outer pieces are equal, the
    // piece at 24 holds no digit or sign, and the piece from 33 to 37 holds
    // the sign and the hours on both sides.
    assert v[..24] == w[..24] && v[25..33] == w[25..33] && v[37..] == w[37..];
    assert DigitsAndSigns(v[24..25]) == [] == DigitsAndSigns(w[24..25]);
    assert IsDigit(w[35]) && IsDigit(w[36]) && IsSign(w[34]) by {
      assert Accepts(NativeClass(34), w[34]) && Accepts(NativeClass(35), w[35]);
      assert Accepts(NativeClass(36), w[36]);
    }
    assert v[33..37] == [w[34]] + ([w[35]] + ([w[36]] + [':']));
    assert w[33..37] == [w[33]] + ([w[34]] + ([w[35]] + [w[36]]));
    DigitsAndSignsCons(w[34], [w[35]] + ([w[36]] + [':']));
    DigitsAndSignsCons(w[35], [w[36]] + [':']);
    DigitsAndSignsCons(w[36], [':']);
    DigitsAndSignsCons(':', []);
    DigitsAndSignsCons(w[33], [w[34]] + ([w[35]] + [w[36]]));
    DigitsAndSignsCons(w[34], [w[35]] + [w[36]]);
    DigitsAndSignsCons(w[35], [w[36]]);
    DigitsAndSignsCons(w[36], []);
    assert DigitsAndSigns(v[33..37]) == DigitsAndSigns(w[33..37]);
    JoinFive(v);
    JoinFive(w);
  }

  /** Digits and signs of a window, gathered from its pieces at 24, 25, 33, 37. */
  lemma JoinFive(x: string)
    requires |x| == Width
    ensures DigitsAndSigns(x)
         == DigitsAndSigns(x[..24]) + DigitsAndSigns(x[24..25]) + DigitsAndSigns(x[25..33])
            + DigitsAndSigns(x[33..37]) + DigitsAndSigns(x[37..])
  {
    var a, b, c, d, e := x[..24], x[24..25], x[25..33], x[33..37], x[37..];
    assert x[..25] == a + b;
    assert x[..33] == x[..25] + c;
    assert x[..37] == x[..33] + d;
    assert x == x[..37] + e;
    DigitsAndSignsAppend(x[..37], e);
    DigitsAndSignsAppend(x[..33], d);
    DigitsAndSignsAppend(x[..25], c);
    DigitsAndSignsAppend(a, b);
  }

  /** The whole rewrite keeps every digit and sign of its input, in order: it
      only inserts `T` and `:` and drops the white space it replaces. */
  lemma {:induction false} RewriteKeepsDigitsAndSigns(s: string)
    ensures DigitsAndSigns(Rewrite(s)) == DigitsAndSigns(s)
    decreases |s|
  {
    if |s| >= Width {
      if IsNative(s[..Width]) {
        RewriteKeepsDigitsAndSigns(s[Width..]);
        ToIsoKeepsDigitsAndSigns(s[..Width]);
        DigitsAndSignsAppend(ToIso(s[..Width]), Rewrite(s[Width..]));
        DigitsAndSignsAppend(s[..Width], s[Width..]);
        assert s == s[..Width] + s[Width..];
      } else {
        RewriteKeepsDigitsAndSigns(s[1..]);
      }
    }
  }
}
