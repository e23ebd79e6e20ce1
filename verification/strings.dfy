/** The two string helpers the bridge installs on String.prototype (main.js:3-10):
    `capitalize` and a literal, global `replaceAll`. Case mapping is modelled per
    character over ASCII letters; every other character maps to itself. */
module Strings {

  predicate IsUpper(c: char) { 'A' <= c <= 'Z' }

  predicate IsLower(c: char) { 'a' <= c <= 'z' }

  /** `toUpperCase` on one character. */
  function ToUpper(c: char): (r: char)
    ensures !IsLower(r)
    ensures IsLower(c) || r == c
  {
    if IsLower(c) then (c as int - 32) as char else c
  }

  /** `toLowerCase` on one character. */
  function ToLower(c: char): (r: char)
    ensures !IsUpper(r)
    ensures IsUpper(c) || r == c
  {
    if IsUpper(c) then (c as int + 32) as char else c
  }

  /** `toLowerCase` on a whole string. */
  function LowerString(s: string): (r: string)
    ensures |r| == |s|
    ensures forall i :: 0 <= i < |s| ==> r[i] == ToLower(s[i])
  {
    seq(|s|, i requires 0 <= i < |s| => ToLower(s[i]))
  }

  /** Two strings that differ at most in the case of their letters. */
  predicate SameUpToCase(a: string, b: string) {
    |a| == |b| && forall i :: 0 <= i < |a| ==> ToLower(a[i]) == ToLower(b[i])
  }

  /** First character not a lower-case letter, no later character an upper-case one. */
  predicate IsCapitalized(s: string) {
    (|s| > 0 ==> !IsLower(s[0])) && forall i :: 1 <= i < |s| ==> !IsUpper(s[i])
  }

  /** `capitalize`: the first character upper-cased followed by the lower-cased
      string with its first character dropped; the empty string stays empty. */
  function Capitalize(s: string): (r: string)
    ensures IsCapitalized(r)
    ensures SameUpToCase(r, s)
  {
    if |s| == 0 then "" else [ToUpper(s[0])] + LowerString(s)[1..]
  }

  /** `capitalize` returns the one capitalized string that differs from its
      input only in letter case. */
  lemma LemmaCapitalizeUnique(s: string, t: string)
    requires IsCapitalized(t) && SameUpToCase(t, s)
    ensures t == Capitalize(s)
  {
  }

  /** A string is left unchanged by `capitalize` exactly when it is already
      capitalized; in particular `capitalize` is idempotent. */
  lemma LemmaCapitalizeFixpoint(s: string)
    ensures Capitalize(s) == s <==> IsCapitalized(s)
    ensures Capitalize(Capitalize(s)) == Capitalize(s)
  {
  }

  /** `pat` occurs in `s` starting at index `i`. */
  predicate MatchAt(s: string, pat: string, i: int) {
    0 <= i && i + |pat| <= |s| && s[i..i + |pat|] == pat
  }

  predicate Occurs(pat: string, s: string) {
    exists i :: 0 <= i <= |s| && MatchAt(s, pat, i)
  }

  /** `replaceAll(search, replacement)` for a search string without regular
      expression metacharacters and a replacement without `$` patterns: scan from
      the left and replace every non-overlapping occurrence. */
  function ReplaceAll(s: string, pat: string, rep: string): (r: string)
    requires |pat| > 0
    ensures forall c :: c in r ==> c in s || c in rep
    ensures |rep| <= |pat| ==> |r| <= |s|
    decreases |s|
  {
    if |s| < |pat| then s
    else if s[..|pat|] == pat then rep + ReplaceAll(s[|pat|..], pat, rep)
    else [s[0]] + ReplaceAll(s[1..], pat, rep)
  }

  /** With a strictly shorter replacement, `replaceAll` changes its input exactly
      when the pattern occurs in it. */
  lemma {:induction false} LemmaReplaceAllUnchanged(s: string, pat: string, rep: string)
    requires |pat| > 0 && |rep| < |pat|
    ensures ReplaceAll(s, pat, rep) == s <==> !Occurs(pat, s)
  {
    if Occurs(pat, s) {
      LemmaReplaceAllShrinks(s, pat, rep);
    } else {
      LemmaReplaceAllAbsent(s, pat, rep);
    }
  }

  lemma {:induction false} LemmaReplaceAllShrinks(s: string, pat: string, rep: string)
    requires |pat| > 0 && |rep| < |pat|
    requires Occurs(pat, s)
    ensures |ReplaceAll(s, pat, rep)| < |s|
    decreases |s|
  {
    var i :| 0 <= i <= |s| && MatchAt(s, pat, i);
    if s[..|pat|] != pat {
      assert i != 0 by { assert s[..|pat|] == s[0..0 + |pat|]; }
      var t := s[1..];
      assert t[i - 1..i - 1 + |pat|] == s[i..i + |pat|];
      assert MatchAt(t, pat, i - 1);
      LemmaReplaceAllShrinks(t, pat, rep);
    }
  }

  lemma {:induction false} LemmaReplaceAllAbsent(s: string, pat: string, rep: string)
    requires |pat| > 0
    requires !Occurs(pat, s)
    ensures ReplaceAll(s, pat, rep) == s
    decreases |s|
  {
    if |s| < |pat| {
    } else {
      assert !MatchAt(s, pat, 0);
      forall i | MatchAt(s[1..], pat, i)
        ensures false
      {
        assert s[1..][i..i + |pat|] == s[i + 1..i + 1 + |pat|];
        assert MatchAt(s, pat, i + 1);
      }
      LemmaReplaceAllAbsent(s[1..], pat, rep);
      assert [s[0]] + s[1..] == s;
    }
  }

  /** A string that lacks the pattern's first character is left unchanged. */
  lemma LemmaReplaceAllForeign(s: string, pat: string, rep: string)
    requires |pat| > 0 && pat[0] !in s
    ensures ReplaceAll(s, pat, rep) == s
  {
  }

  /** No occurrence of `pat` can straddle the boundary between `x` and `y`:
      one of the two characters on either side of it is foreign to `pat`. */
  predicate CleanBoundary(x: string, y: string, pat: string) {
    |x| == 0 || |y| == 0 || x[|x| - 1] !in pat || y[0] !in pat
  }

  /** `replaceAll` distributes over a concatenation whose seam no occurrence
      can cross. */
  lemma {:induction false} LemmaReplaceAllAppend(x: string, y: string, pat: string, rep: string)
    requires |pat| > 0
    requires CleanBoundary(x, y, pat)
    ensures ReplaceAll(x + y, pat, rep) == ReplaceAll(x, pat, rep) + ReplaceAll(y, pat, rep)
    decreases |x|
  {
    var s := x + y;
    if |x| == 0 {
      assert s == y;
    } else if |s| < |pat| {
    } else if |x| >= |pat| {
      LemmaAppendLongHead(x, y, pat, rep);
    } else {
      LemmaNoStraddle(x, y, pat);
      assert s[1..] == x[1..] + y;
      LemmaReplaceAllAppend(x[1..], y, pat, rep);
      LemmaReplaceAllAbsent(x[1..], pat, rep);
      assert [x[0]] + x[1..] == x;
    }
  }

  /** The inductive step of `LemmaReplaceAllAppend` when `x` is at least as
      long as the pattern: both scans take the same first step inside `x`. */
  lemma {:induction false} LemmaAppendLongHead(x: string, y: string, pat: string, rep: string)
    requires |pat| > 0 && |x| >= |pat|
    requires CleanBoundary(x, y, pat)
    ensures ReplaceAll(x + y, pat, rep) == ReplaceAll(x, pat, rep) + ReplaceAll(y, pat, rep)
    decreases |x|, 0
  {
    var s := x + y;
    assert s[..|pat|] == x[..|pat|];
    if x[..|pat|] == pat {
      assert s[|pat|..] == x[|pat|..] + y;
      LemmaReplaceAllAppend(x[|pat|..], y, pat, rep);
    } else {
      assert s[1..] == x[1..] + y;
      LemmaReplaceAllAppend(x[1..], y, pat, rep);
    }
  }

  /** A window that starts inside a short `x` and reaches into `y` is not the
      pattern. */
  lemma LemmaNoStraddle(x: string, y: string, pat: string)
    requires |pat| > 0 && 0 < |x| < |pat| <= |x + y|
    requires CleanBoundary(x, y, pat)
    ensures (x + y)[..|pat|] != pat
  {
    var w := (x + y)[..|pat|];
    assert w[|x| - 1] == x[|x| - 1] && w[|x|] == y[0];
  }

  /** Replacing a one-character pattern by a one-character replacement is a
      character-by-character map. */
  lemma {:induction false} LemmaReplaceCharIsMap(s: string, pat: string, rep: string)
    requires |pat| == 1 && |rep| == 1
    ensures |ReplaceAll(s, pat, rep)| == |s|
    ensures forall i :: 0 <= i < |s| ==>
      ReplaceAll(s, pat, rep)[i] == (if s[i] == pat[0] then rep[0] else s[i])
    decreases |s|
  {
    if |s| > 0 {
      LemmaReplaceCharIsMap(s[1..], pat, rep);
      if s[..1] == pat {
        assert s[1..] == s[|pat|..];
      } else {
        assert s[0] != pat[0] by { assert s[..1] == [s[0]]; }
      }
    }
  }

  /** A string that starts or ends with a character foreign to the pattern
      keeps that character at the same end after `replaceAll`. */
  lemma {:induction false} LemmaReplaceAllKeepsEnds(s: string, pat: string, rep: string)
    requires |pat| > 0
    ensures |s| > 0 && s[|s| - 1] !in pat ==>
      |ReplaceAll(s, pat, rep)| > 0
      && ReplaceAll(s, pat, rep)[|ReplaceAll(s, pat, rep)| - 1] == s[|s| - 1]
    ensures |s| > 0 && s[0] !in pat ==>
      |ReplaceAll(s, pat, rep)| > 0 && ReplaceAll(s, pat, rep)[0] == s[0]
  {
    if |s| > 0 && s[|s| - 1] !in pat {
      var x := s[..|s| - 1];
      var y := [s[|s| - 1]];
      assert x + y == s;
      LemmaReplaceAllAppend(x, y, pat, rep);
      if |pat| == 1 {
        assert y[..|pat|] != pat by { assert y[..1] == y; assert pat[0] in pat; }
      }
      assert ReplaceAll(y, pat, rep) == y;
    }
    if |s| > 0 && s[0] !in pat {
      if |s| >= |pat| {
        assert s[..|pat|] != pat by { assert s[..|pat|][0] == s[0]; assert pat[0] in pat; }
      }
    }
  }

  /** The ends of `x` and `y` that face the middle piece are foreign to `pat`. */
  predicate OuterEndsForeign(x: string, y: string, pat: string) {
    (|x| == 0 || x[|x| - 1] !in pat) && (|y| == 0 || y[0] !in pat)
  }

  /** One replace-all pass over `x + h + y` works on the three pieces apart and
      keeps the outer ends of `x` and `y`. */
  lemma LemmaPassSplit(x: string, h: string, y: string, pat: string, rep: string)
    requires |pat| > 0 && OuterEndsForeign(x, y, pat)
    ensures ReplaceAll(x + h + y, pat, rep)
         == ReplaceAll(x, pat, rep) + ReplaceAll(h, pat, rep) + ReplaceAll(y, pat, rep)
    ensures |ReplaceAll(x, pat, rep)| == 0 <==> |x| == 0
    ensures |ReplaceAll(y, pat, rep)| == 0 <==> |y| == 0
    ensures |x| > 0 ==> ReplaceAll(x, pat, rep)[|ReplaceAll(x, pat, rep)| - 1] == x[|x| - 1]
    ensures |y| > 0 ==> ReplaceAll(y, pat, rep)[0] == y[0]
  {
    LemmaReplaceAllAppend(x, h, pat, rep);
    LemmaReplaceAllAppend(x + h, y, pat, rep);
    LemmaReplaceAllKeepsEnds(x, pat, rep);
    LemmaReplaceAllKeepsEnds(y, pat, rep);
  }
}
