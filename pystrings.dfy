/**
 * The three Python string operations the transcoder relies on:
 * `str(n)` for a non-negative integer, `str.replace(old, new)` (every
 * occurrence, left to right, non-overlapping) and `os.path.join(a, b)` on a
 * POSIX system.
 */
module PyStrings {

  // ---------------------------------------------------------------------
  // str(n) for n >= 0
  // ---------------------------------------------------------------------

  predicate IsDigit(c: char) {
    '0' <= c <= '9'
  }

  function DigitChar(d: nat): (c: char)
    requires d < 10
    ensures IsDigit(c) && c as int - '0' as int == d
  {
    ('0' as int + d) as char
  }

  /** Decimal notation of `n`, as Python's `str` writes a non-negative int. */
  function NatToString(n: nat): (s: string)
    ensures |s| > 0
    ensures forall i :: 0 <= i < |s| ==> IsDigit(s[i])
    ensures |s| > 1 ==> s[0] != '0'
    ensures n < 10 <==> |s| == 1
  {
    if n < 10 then [DigitChar(n)] else NatToString(n / 10) + [DigitChar(n % 10)]
  }

  /** The value of a string of decimal digits (the inverse of `NatToString`). */
  function DigitsToNat(s: string): nat
    requires forall i :: 0 <= i < |s| ==> IsDigit(s[i])
  {
    if s == [] then 0
    else
      assert IsDigit(s[|s| - 1]);
      DigitsToNat(s[..|s| - 1]) * 10 + (s[|s| - 1] as int - '0' as int)
  }

  lemma {:induction false} DigitsToNatOfNatToString(n: nat)
    ensures DigitsToNat(NatToString(n)) == n
  {
    if n >= 10 {
      var s := NatToString(n);
      assert s[..|s| - 1] == NatToString(n / 10);
      DigitsToNatOfNatToString(n / 10);
    }
  }

  /** Distinct counters give distinct ids. */
  lemma NatToStringInjective(m: nat, n: nat)
    requires m != n
    ensures NatToString(m) != NatToString(n)
  {
    DigitsToNatOfNatToString(m);
    DigitsToNatOfNatToString(n);
  }

  // ---------------------------------------------------------------------
  // str.replace(pat, rep)
  // ---------------------------------------------------------------------

  predicate StartsWith(s: string, p: string) {
    |p| <= |s| && s[..|p|] == p
  }

  /** `p` occurs somewhere in `s` (Python's `p in s`). */
  predicate Contains(s: string, p: string)
    decreases |s|
  {
    StartsWith(s, p) || (|s| > 0 && Contains(s[1..], p))
  }

  /** A string cannot contain a pattern whose first character it lacks. */
  lemma {:induction false} LacksFirstCharacter(s: string, p: string)
    requires |p| > 0 && p[0] !in s
    ensures !Contains(s, p)
    decreases |s|
  {
    if |p| <= |s| {
      assert s[..|p|][0] == s[0];
    }
    if |s| > 0 {
      LacksFirstCharacter(s[1..], p);
    }
  }

  /** Python's `s.replace("", rep)`: `rep` before every character and at the end. */
  function InsertEverywhere(s: string, rep: string): (r: string)
    ensures |r| == |s| + (|s| + 1) * |rep|
    ensures StartsWith(r, rep)
  {
    if s == [] then rep
    else
      var tail := InsertEverywhere(s[1..], rep);
      assert (rep + [s[0]] + tail)[..|rep|] == rep;
      rep + [s[0]] + tail
  }

  /**
   * Read from the other end: one more character at the end of `s` adds that
   * character and one more `rep`. With `InsertEverywhere([], rep) == rep`
   * this fixes every position of the result.
   */
  lemma {:induction false} InsertEverywhereSnoc(s: string, c: char, rep: string)
    ensures InsertEverywhere(s + [c], rep) == InsertEverywhere(s, rep) + [c] + rep
  {
    var sc := s + [c];
    if s == [] {
      assert sc[1..] == [];
    } else {
      assert sc[0] == s[0] && sc[1..] == s[1..] + [c];
      InsertEverywhereSnoc(s[1..], c, rep);
      var head, tail := rep + [s[0]], InsertEverywhere(s[1..], rep);
      assert InsertEverywhere(sc, rep) == head + (tail + ([c] + rep));
      Associates(head, tail, [c] + rep);
      Associates(head + tail, [c], rep);
    }
  }

  /**
   * Python's `s.replace(pat, rep)`: scanning left to right, each occurrence of
   * `pat` that does not overlap an occurrence already replaced becomes `rep`.
   */
  function ReplaceAll(s: string, pat: string, rep: string): string
    decreases |s|
  {
    if |pat| == 0 then InsertEverywhere(s, rep)
    else if StartsWith(s, pat) then rep + ReplaceAll(s[|pat|..], pat, rep)
    else if s == [] then []
    else [s[0]] + ReplaceAll(s[1..], pat, rep)
  }

  /** A string without an occurrence of the pattern is left as it is. */
  lemma {:induction false} ReplaceAllWithoutOccurrence(s: string, pat: string, rep: string)
    requires |pat| > 0 && !Contains(s, pat)
    ensures ReplaceAll(s, pat, rep) == s
    decreases |s|
  {
    if s != [] {
      ReplaceAllWithoutOccurrence(s[1..], pat, rep);
    }
  }

  /** The pattern on its own becomes the replacement. */
  lemma ReplaceAllOfPattern(pat: string, rep: string)
    requires |pat| > 0
    ensures ReplaceAll(pat, pat, rep) == rep
  {
    assert StartsWith(pat, pat);
    assert pat[|pat|..] == [];
    assert ReplaceAll([], pat, rep) == [];
  }

  /** A leading occurrence is replaced, and scanning resumes right after it. */
  lemma ReplaceAllAfterMatch(pat: string, rest: string, rep: string)
    requires |pat| > 0
    ensures ReplaceAll(pat + rest, pat, rep) == rep + ReplaceAll(rest, pat, rep)
  {
    assert (pat + rest)[..|pat|] == pat;
    assert (pat + rest)[|pat|..] == rest;
  }

  /** A string that starts with the pattern has that occurrence replaced first. */
  lemma ReplaceAllLeadingOccurrence(s: string, pat: string, rep: string)
    requires |pat| > 0 && !Contains(s, pat)
    ensures ReplaceAll(pat + s, pat, rep) == rep + s
  {
    assert (pat + s)[..|pat|] == pat;
    assert (pat + s)[|pat|..] == s;
    ReplaceAllWithoutOccurrence(s, pat, rep);
  }

  /** A match at the front of `a` is a match at the front of anything `a` starts. */
  lemma MatchExtends(a: string, rest: string, pat: string)
    requires StartsWith(a, pat)
    ensures StartsWith(a + rest, pat) && (a + rest)[|pat|..] == a[|pat|..] + rest
  {
    assert (a + rest)[..|pat|] == a[..|pat|];
  }

  /** No match can start in `a` and run across a character that is not in the pattern. */
  lemma SeparatorBlocksMatch(a: string, c: char, b: string, pat: string)
    requires |pat| > 0 && c !in pat && !StartsWith(a, pat)
    ensures !StartsWith(a + [c] + b, pat)
  {
    var s := a + [c] + b;
    if |pat| <= |a| {
      assert s[..|pat|] == a[..|pat|];
    } else if |pat| <= |s| {
      assert s[..|pat|][|a|] == c;
    }
  }

  /** Concatenation regrouped: a lemma to call where the solver would otherwise search for it. */
  lemma Associates<T>(x: seq<T>, y: seq<T>, z: seq<T>)
    ensures x + (y + z) == x + y + z
  {
  }

  /**
   * A character that is not part of the pattern separates the replacement:
   * no occurrence can straddle it.
   */
  lemma {:induction false} ReplaceAllAroundSeparator(a: string, c: char, b: string, pat: string, rep: string)
    requires |pat| > 0 && c !in pat
    ensures ReplaceAll(a + [c] + b, pat, rep) == ReplaceAll(a, pat, rep) + [c] + ReplaceAll(b, pat, rep)
    decreases |a|
  {
    var s := a + [c] + b;
    var tail := ReplaceAll(b, pat, rep);
    if StartsWith(a, pat) {
      var a' := a[|pat|..];
      MatchExtends(a, [c] + b, pat);
      assert s[|pat|..] == a' + [c] + b;
      ReplaceAllAroundSeparator(a', c, b, pat, rep);
      var done := ReplaceAll(a', pat, rep);
      assert ReplaceAll(s, pat, rep) == rep + (done + [c] + tail);
      assert ReplaceAll(a, pat, rep) == rep + done;
      Associates(rep, done + [c], tail);
      Associates(rep, done, [c]);
    } else if a == [] {
      SeparatorBlocksMatch(a, c, b, pat);
      assert s[1..] == b;
      assert ReplaceAll(s, pat, rep) == [c] + tail;
    } else {
      SeparatorBlocksMatch(a, c, b, pat);
      assert s[1..] == a[1..] + [c] + b;
      ReplaceAllAroundSeparator(a[1..], c, b, pat, rep);
      var done := ReplaceAll(a[1..], pat, rep);
      assert ReplaceAll(s, pat, rep) == [a[0]] + (done + [c] + tail);
      assert ReplaceAll(a, pat, rep) == [a[0]] + done;
      Associates([a[0]], done + [c], tail);
      Associates([a[0]], done, [c]);
    }
  }

  /** A trailing occurrence after a separator is the only one replaced in a string that has no other. */
  lemma ReplaceAllOfSuffix(stem: string, c: char, pat: string, rep: string)
    requires |pat| > 0 && c !in pat && !Contains(stem, pat)
    ensures ReplaceAll(stem + [c] + pat, pat, rep) == stem + [c] + rep
  {
    ReplaceAllAroundSeparator(stem, c, pat, pat, rep);
    ReplaceAllWithoutOccurrence(stem, pat, rep);
    ReplaceAllOfPattern(pat, rep);
  }

  // ---------------------------------------------------------------------
  // os.path.join(a, b) (posixpath)
  // ---------------------------------------------------------------------

  /**
   * An absolute second component replaces the first; otherwise the two are
   * joined with one '/', unless the first is empty or already ends in '/'.
   */
  function Join(a: string, b: string): string
  {
    if |b| > 0 && b[0] == '/' then b
    else if |a| == 0 || a[|a| - 1] == '/' then a + b
    else a + "/" + b
  }

  /**
   * An absolute second component replaces the first; otherwise the result
   * starts with `a` and ends with `b`, with one separator added between
   * them when `a` is non-empty and does not already end in one.
   */
  lemma JoinShape(a: string, b: string)
    ensures var r := Join(a, b);
      && (|b| > 0 && b[0] == '/' ==> r == b)
      && (!(|b| > 0 && b[0] == '/') ==> |a| + |b| <= |r| && r[..|a|] == a && r[|r| - |b|..] == b)
      && (!(|b| > 0 && b[0] == '/') && (|a| == 0 || a[|a| - 1] == '/') ==> r == a + b)
      && (!(|b| > 0 && b[0] == '/') && |a| > 0 && a[|a| - 1] != '/' ==> |r| == |a| + 1 + |b| && r[|a|] == '/')
  {
  }
}
