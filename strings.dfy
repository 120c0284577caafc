/**
 * The few pieces of Python's `str` that the plug-in relies on: `in`, `startswith`,
 * `split(sep)`, `sep.join(parts)` and `replace(old, new)`, for a non-empty separator.
 */
module Strings {
  import opened Wrappers

  predicate StartsWith(s: string, prefix: string) {
    |prefix| <= |s| && s[..|prefix|] == prefix
  }

  /** `sub` occurs in `s` at index `i`. */
  predicate OccursAt(s: string, sub: string, i: int) {
    0 <= i && i + |sub| <= |s| && s[i..i + |sub|] == sub
  }

  /** Python's `sub in s`. */
  predicate Contains(s: string, sub: string)
    decreases |s|
  {
    StartsWith(s, sub) || (|s| > 0 && Contains(s[1..], sub))
  }

  lemma {:induction false} ContainsOccurs(s: string, sub: string)
    ensures Contains(s, sub) <==> exists i :: OccursAt(s, sub, i)
    decreases |s|
  {
    if StartsWith(s, sub) {
      assert OccursAt(s, sub, 0);
    }
    if |s| > 0 {
      ContainsOccurs(s[1..], sub);
      if Contains(s[1..], sub) {
        var i :| OccursAt(s[1..], sub, i);
        assert s[1..][i..i + |sub|] == s[i + 1..i + 1 + |sub|];
        assert OccursAt(s, sub, i + 1);
      }
      if i :| OccursAt(s, sub, i) {
        if i > 0 {
          assert s[1..][i - 1..i - 1 + |sub|] == s[i..i + |sub|];
          assert OccursAt(s[1..], sub, i - 1);
        } else {
          assert StartsWith(s, sub);
        }
      }
    } else if i :| OccursAt(s, sub, i) {
      assert s[..|sub|] == sub;
    }
  }

  /** A string with no occurrence of `c` does not contain the one-character string `[c]`. */
  lemma NoCharNotContains(s: string, c: char)
    requires c !in s
    ensures !Contains(s, [c])
  {
    ContainsOccurs(s, [c]);
    NoCharNoOccurrence(s, c);
  }

  /** A string lacking some character of `sub` does not contain `sub`. */
  lemma MissingCharNotContains(s: string, sub: string, c: char)
    requires c in sub && c !in s
    ensures !Contains(s, sub)
  {
    ContainsOccurs(s, sub);
  }

  lemma NoCharNoOccurrence(s: string, c: char)
    requires c !in s
    ensures forall j :: !OccursAt(s, [c], j)
  {
    forall j | 0 <= j < |s|
      ensures !OccursAt(s, [c], j)
    {
      assert s[j..j + 1] == [s[j]];
    }
  }

  predicate EndsWith(s: string, suffix: string) {
    |suffix| <= |s| && s[|s| - |suffix|..] == suffix
  }

  /** A string in which the one-character string `[c]` never occurs does not hold `c`. */
  lemma NoOccurrenceNoChar(s: string, c: char)
    requires forall j :: !OccursAt(s, [c], j)
    ensures c !in s
  {
    forall j | 0 <= j < |s|
      ensures s[j] != c
    {
      assert !OccursAt(s, [c], j);
      assert s[j..j + 1] == [s[j]];
    }
  }

  /** Python's `s.find(sep, i)` for a non-empty `sep`: the leftmost occurrence at or after `i`. */
  function FindFrom(s: string, sep: string, i: nat): (r: Option<nat>)
    requires |sep| > 0
    ensures r.Some? ==> i <= r.value && OccursAt(s, sep, r.value)
    ensures r.Some? ==> forall j :: i <= j < r.value ==> !OccursAt(s, sep, j)
    ensures r.None? ==> forall j :: i <= j ==> !OccursAt(s, sep, j)
    decreases |s| - i
  {
    if i + |sep| > |s| then None
    else if s[i..i + |sep|] == sep then Some(i)
    else FindFrom(s, sep, i + 1)
  }

  /** The contract of FindFrom determines its result. */
  lemma FindFromIs(s: string, sep: string, i: nat, k: nat)
    requires |sep| > 0 && i <= k && OccursAt(s, sep, k)
    requires forall j :: i <= j < k ==> !OccursAt(s, sep, j)
    ensures FindFrom(s, sep, i) == Some(k)
  {
  }

  /** The text before the first occurrence of `sep` holds no occurrence of it. */
  lemma NoOccurrenceBefore(s: string, sep: string, i: nat)
    requires |sep| > 0 && FindFrom(s, sep, 0) == Some(i)
    ensures forall j :: !OccursAt(s[..i], sep, j)
  {
    forall j | OccursAt(s[..i], sep, j)
      ensures false
    {
      assert s[..i][j..j + |sep|] == s[j..j + |sep|];
      assert OccursAt(s, sep, j);
    }
  }

  /** Python's `s.split(sep)` for a non-empty `sep`: the pieces between leftmost non-overlapping occurrences. */
  function SplitOn(s: string, sep: string): (r: seq<string>)
    requires |sep| > 0
    ensures |r| >= 1
    ensures forall k, j :: 0 <= k < |r| ==> !OccursAt(r[k], sep, j)
    decreases |s|
  {
    match FindFrom(s, sep, 0)
    case None => [s]
    case Some(i) =>
      NoOccurrenceBefore(s, sep, i);
      [s[..i]] + SplitOn(s[i + |sep|..], sep)
  }

  /** The last piece of a split is a suffix of the string (Python's `s.split(sep)[-1]`). */
  lemma {:induction false} SplitLastIsSuffix(s: string, sep: string)
    requires |sep| > 0
    ensures EndsWith(s, SplitOn(s, sep)[|SplitOn(s, sep)| - 1])
    decreases |s|
  {
    match FindFrom(s, sep, 0)
    case None =>
    case Some(i) =>
      var t := s[i + |sep|..];
      SplitLastIsSuffix(t, sep);
      var p := SplitOn(t, sep);
      var w := p[|p| - 1];
      assert SplitOn(s, sep) == [s[..i]] + p;
      assert s[|s| - |w|..] == t[|t| - |w|..];
  }

  /** Python's `sep.join(parts)`. */
  function Join(parts: seq<string>, sep: string): string
    decreases |parts|
  {
    if |parts| == 0 then ""
    else if |parts| == 1 then parts[0]
    else parts[0] + sep + Join(parts[1..], sep)
  }

  /** Python's `s.replace(pat, rep)`: a left-to-right scan replacing non-overlapping occurrences. */
  function ReplaceAll(s: string, pat: string, rep: string): string
    requires |pat| > 0
    decreases |s|
  {
    if |s| == 0 then ""
    else if StartsWith(s, pat) then rep + ReplaceAll(s[|pat|..], pat, rep)
    else [s[0]] + ReplaceAll(s[1..], pat, rep)
  }

  /** Joining the pieces of a split with the same separator gives back the string. */
  lemma {:induction false} JoinSplit(s: string, sep: string)
    requires |sep| > 0
    ensures Join(SplitOn(s, sep), sep) == s
    decreases |s|
  {
    var f := FindFrom(s, sep, 0);
    if f.Some? {
      var i := f.value;
      var rest := s[i + |sep|..];
      JoinSplit(rest, sep);
      SplitAt(s, sep, i);
      JoinCons(s[..i], SplitOn(rest, sep), sep);
    }
  }

  /** One step of a split that finds `sep` at `i`: the string is the piece, the separator and the rest. */
  lemma SplitAt(s: string, sep: string, i: nat)
    requires |sep| > 0 && FindFrom(s, sep, 0) == Some(i)
    ensures i + |sep| <= |s|
    ensures SplitOn(s, sep) == [s[..i]] + SplitOn(s[i + |sep|..], sep)
    ensures s == s[..i] + sep + s[i + |sep|..]
  {
    assert s[i..i + |sep|] == sep;
    assert s == s[..i] + s[i..i + |sep|] + s[i + |sep|..];
  }

  lemma JoinCons(p: string, r: seq<string>, sep: string)
    requires |r| >= 1
    ensures Join([p] + r, sep) == p + sep + Join(r, sep)
  {
    assert ([p] + r)[1..] == r;
  }

  /** The position of the first `c` in `s`. */
  function FirstIndexOf(s: string, c: char): (k: nat)
    requires c in s
    ensures k < |s| && s[k] == c
    ensures forall m :: 0 <= m < k ==> s[m] != c
  {
    if s[0] == c then 0 else FirstIndexOf(s[1..], c) + 1
  }

  /** A string without `c` holds no occurrence of a separator that has a `c`. */
  lemma NoCharNoSeparator(s: string, sep: string, c: char)
    requires c in sep && c !in s
    ensures forall j :: !OccursAt(s, sep, j)
  {
    var k := FirstIndexOf(sep, c);
    forall j
      ensures !OccursAt(s, sep, j)
    {
      if 0 <= j && j + |sep| <= |s| {
        assert s[j..j + |sep|][k] == s[j + k];
      }
    }
  }

  /**
   * Splitting recovers the parts that were joined, provided the separator holds a character that
   * no part contains.
   */
  lemma {:induction false} SplitJoin(parts: seq<string>, sep: string, c: char)
    requires |parts| >= 1 && c in sep
    requires forall i :: 0 <= i < |parts| ==> c !in parts[i]
    ensures SplitOn(Join(parts, sep), sep) == parts
    decreases |parts|
  {
    var s := Join(parts, sep);
    if |parts| == 1 {
      NoCharNoSeparator(s, sep, c);
    } else {
      var p0 := parts[0];
      var tail := Join(parts[1..], sep);
      var k := FirstIndexOf(sep, c);
      assert s == p0 + sep + tail;
      assert OccursAt(s, sep, |p0|) by {
        assert s[|p0|..|p0| + |sep|] == sep;
      }
      forall j | 0 <= j < |p0|
        ensures !OccursAt(s, sep, j)
      {
        if j + |sep| <= |s| {
          if j + k < |p0| {
            assert s[j + k] == p0[j + k];
          } else {
            assert s[j + k] == sep[j + k - |p0|];
          }
          assert s[j..j + |sep|][k] == s[j + k];
        }
      }
      FindFromIs(s, sep, 0, |p0|);
      assert s[..|p0|] == p0;
      assert s[|p0| + |sep|..] == tail;
      SplitJoin(parts[1..], sep, c);
      assert parts == [p0] + parts[1..];
    }
  }

  lemma JoinConsHead(c: char, h: string, t: seq<string>, sep: string)
    ensures Join([[c] + h] + t, sep) == [c] + Join([h] + t, sep)
  {
    var a := [[c] + h] + t;
    var b := [h] + t;
    assert a[1..] == t && b[1..] == t;
  }

  /** Searching `s` from `i + 1` is searching its tail from `i`, one index further on. */
  lemma {:induction false} FindFromTail(s: string, sep: string, i: nat)
    requires |sep| > 0 && |s| > 0
    ensures FindFrom(s[1..], sep, i).None? ==> FindFrom(s, sep, i + 1).None?
    ensures FindFrom(s[1..], sep, i).Some? ==> FindFrom(s, sep, i + 1) == Some(FindFrom(s[1..], sep, i).value + 1)
    decreases |s| - i
  {
    if i + |sep| <= |s[1..]| {
      assert s[1..][i..i + |sep|] == s[i + 1..i + 1 + |sep|];
      FindFromTail(s, sep, i + 1);
    }
  }

  /** Searching a string that does not start with `sep` is searching its tail, one index further on. */
  lemma FindShift(s: string, sep: string)
    requires |sep| > 0 && |s| > 0 && !StartsWith(s, sep)
    ensures FindFrom(s[1..], sep, 0).None? ==> FindFrom(s, sep, 0).None?
    ensures FindFrom(s[1..], sep, 0).Some? ==> FindFrom(s, sep, 0) == Some(FindFrom(s[1..], sep, 0).value + 1)
  {
    FindFromTail(s, sep, 0);
    assert FindFrom(s, sep, 0) == FindFrom(s, sep, 1);
  }

  /** A scan that finds no occurrence at index 0 sees the same pieces as the scan of the tail. */
  lemma SplitShift(s: string, sep: string)
    requires |sep| > 0 && |s| > 0 && !StartsWith(s, sep)
    ensures var t := SplitOn(s[1..], sep);
            SplitOn(s, sep) == [[s[0]] + t[0]] + t[1..]
  {
    FindShift(s, sep);
    var t := SplitOn(s[1..], sep);
    var f := FindFrom(s[1..], sep, 0);
    if f.None? {
      assert SplitOn(s, sep) == [s];
      assert t == [s[1..]];
      assert [s[0]] + s[1..] == s;
    } else {
      SplitShiftFound(s, sep, f.value);
    }
  }

  lemma SplitShiftFound(s: string, sep: string, i: nat)
    requires |sep| > 0 && |s| > 0 && FindFrom(s[1..], sep, 0) == Some(i) && FindFrom(s, sep, 0) == Some(i + 1)
    ensures var t := SplitOn(s[1..], sep);
            SplitOn(s, sep) == [[s[0]] + t[0]] + t[1..]
  {
    var tail := s[1..];
    var rest := s[i + 1 + |sep|..];
    SplitAt(tail, sep, i);
    assert tail[i + |sep|..] == rest;
    assert tail[..i] == s[1..i + 1];
    SplitAt(s, sep, i + 1);
    assert s[..i + 1] == [s[0]] + s[1..i + 1];
  }

  /** Splitting a string that starts with `pat` puts an empty piece first. */
  lemma JoinSplitAtPattern(s: string, pat: string, rep: string)
    requires |pat| > 0 && |s| > 0 && StartsWith(s, pat)
    ensures Join(SplitOn(s, pat), rep) == rep + Join(SplitOn(s[|pat|..], pat), rep)
  {
    assert OccursAt(s, pat, 0);
    FindFromIs(s, pat, 0, 0);
    var r := SplitOn(s[|pat|..], pat);
    assert SplitOn(s, pat) == [s[..0]] + r;
    assert ([s[..0]] + r)[1..] == r;
  }

  /** Splitting a string that does not start with `pat` keeps its first character in the first piece. */
  lemma JoinSplitAtOther(s: string, pat: string, rep: string)
    requires |pat| > 0 && |s| > 0 && !StartsWith(s, pat)
    ensures Join(SplitOn(s, pat), rep) == [s[0]] + Join(SplitOn(s[1..], pat), rep)
  {
    SplitShift(s, pat);
    var t := SplitOn(s[1..], pat);
    assert t == [t[0]] + t[1..];
    JoinConsHead(s[0], t[0], t[1..], rep);
  }

  /** Python's identity `s.replace(pat, rep) == rep.join(s.split(pat))`. */
  lemma {:induction false} ReplaceIsJoinSplit(s: string, pat: string, rep: string)
    requires |pat| > 0
    ensures ReplaceAll(s, pat, rep) == Join(SplitOn(s, pat), rep)
    decreases |s|
  {
    if |s| == 0 {
      assert FindFrom(s, pat, 0).None?;
    } else if StartsWith(s, pat) {
      ReplaceIsJoinSplit(s[|pat|..], pat, rep);
      JoinSplitAtPattern(s, pat, rep);
    } else {
      ReplaceIsJoinSplit(s[1..], pat, rep);
      JoinSplitAtOther(s, pat, rep);
    }
  }

  /** Replacing never introduces a character that is in neither the string nor the replacement. */
  lemma {:induction false} ReplaceKeepsOut(s: string, pat: string, rep: string, c: char)
    requires |pat| > 0 && c !in s && c !in rep
    ensures c !in ReplaceAll(s, pat, rep)
    decreases |s|
  {
    if |s| > 0 {
      if StartsWith(s, pat) {
        ReplaceKeepsOut(s[|pat|..], pat, rep, c);
      } else {
        ReplaceKeepsOut(s[1..], pat, rep, c);
      }
    }
  }

  /** Python's `a < b` on strings: code points compared from the left, a proper prefix first. */
  predicate StrLess(a: string, b: string)
    decreases |a|
  {
    |b| > 0 && (|a| == 0 || a[0] < b[0] || (a[0] == b[0] && StrLess(a[1..], b[1..])))
  }

  lemma {:induction false} StrLessIrreflexive(a: string)
    ensures !StrLess(a, a)
    decreases |a|
  {
    if |a| > 0 {
      StrLessIrreflexive(a[1..]);
    }
  }

  lemma {:induction false} StrLessTransitive(a: string, b: string, c: string)
    requires StrLess(a, b) && StrLess(b, c)
    ensures StrLess(a, c)
    decreases |a|
  {
    if |a| > 0 && a[0] == b[0] && b[0] == c[0] {
      StrLessTransitive(a[1..], b[1..], c[1..]);
    }
  }

  /** Two different strings are ordered one way or the other. */
  lemma {:induction false} StrLessTotal(a: string, b: string)
    requires a != b
    ensures StrLess(a, b) || StrLess(b, a)
    decreases |a|
  {
    if |a| > 0 && |b| > 0 && a[0] == b[0] {
      assert a == [a[0]] + a[1..] && b == [b[0]] + b[1..];
      StrLessTotal(a[1..], b[1..]);
    }
  }
}
