/** The parts of Go's `strings` package the pipeline relies on: ToLower,
    Repeat, Replace and Split, with strings as sequences of characters. */
module Strings {

  /** ASCII lower-casing of one character. */
  function LowerChar(c: char): char {
    if 'A' <= c <= 'Z' then (c as int + 32) as char else c
  }

  /** `strings.ToLower`, folding the ASCII letters only. */
  function ToLower(s: string): (r: string)
    ensures |r| == |s|
    ensures forall i :: 0 <= i < |s| ==> r[i] == LowerChar(s[i])
  {
    seq(|s|, i requires 0 <= i < |s| => LowerChar(s[i]))
  }

  /** `strings.Repeat(s, n)`: `n` copies of `s`. */
  function Repeat(s: string, n: nat): string {
    if n == 0 then [] else s + Repeat(s, n - 1)
  }

  lemma {:induction false} RepeatLength(s: string, n: nat)
    ensures |Repeat(s, n)| == n * |s|
  {
    if n > 0 {
      RepeatLength(s, n - 1);
    }
  }

  predicate StartsWith(s: string, prefix: string) {
    |prefix| <= |s| && s[..|prefix|] == prefix
  }

  /** `sub` occurs in `s` starting at index `i`. */
  predicate OccursAt(s: string, sub: string, i: int) {
    0 <= i && i + |sub| <= |s| && s[i..i + |sub|] == sub
  }

  lemma OccursAtTail(s: string, sub: string, i: int)
    requires |s| > 0 && 0 <= i
    ensures OccursAt(s[1..], sub, i) <==> OccursAt(s, sub, i + 1)
  {
    if i + |sub| <= |s[1..]| {
      assert s[1..][i..i + |sub|] == s[i + 1..i + 1 + |sub|];
    }
  }

  /** `strings.Index(s, sub)`: the first index where `sub` occurs, or -1. */
  function IndexOf(s: string, sub: string): (r: int)
    ensures r == -1 || 0 <= r
    ensures r >= 0 ==> OccursAt(s, sub, r)
    ensures forall i :: 0 <= i && (r == -1 || i < r) ==> !OccursAt(s, sub, i)
    decreases |s|
  {
    if StartsWith(s, sub) then
      assert s[0..|sub|] == s[..|sub|];
      0
    else if |s| == 0 then -1
    else
      var k := IndexOf(s[1..], sub);
      assert !OccursAt(s, sub, 0);
      assert forall i :: 1 <= i ==> (OccursAt(s, sub, i) <==> OccursAt(s[1..], sub, i - 1)) by {
        forall i | 1 <= i
          ensures OccursAt(s, sub, i) <==> OccursAt(s[1..], sub, i - 1)
        {
          OccursAtTail(s, sub, i - 1);
        }
      }
      if k < 0 then -1 else k + 1
  }

  /** One step of the countdown in `strings.Replace`: a negative count means
      "no limit" and never reaches zero. */
  function Dec(n: int): int {
    if n < 0 then n else n - 1
  }

  /** `strings.Replace(s, pat, rep, n)`: replaces the first `n` non-overlapping
      occurrences of `old`, scanning left to right, or all of them when `n` is
      negative. An empty `old` matches before every character and at the end. */
  function Replace(s: string, pat: string, rep: string, n: int): string
    decreases |s|
  {
    if n == 0 then s
    else if pat == [] then
      if s == [] then rep else rep + [s[0]] + Replace(s[1..], pat, rep, Dec(n))
    else if StartsWith(s, pat) then rep + Replace(s[|pat|..], pat, rep, Dec(n))
    else if s == [] then []
    else [s[0]] + Replace(s[1..], pat, rep, n)
  }

  /** How `strings.Replace` scans, for a non-empty `old` and a count that is
      not used up: everything before the first occurrence is kept, that
      occurrence becomes `new`, and the scan resumes after it with one
      replacement fewer to go; with no occurrence the string is unchanged. */
  lemma {:induction false} ReplaceStep(s: string, pat: string, rep: string, n: int)
    requires pat != [] && n != 0
    ensures IndexOf(s, pat) == -1 ==> Replace(s, pat, rep, n) == s
    ensures IndexOf(s, pat) >= 0 ==>
              Replace(s, pat, rep, n) ==
              s[..IndexOf(s, pat)] + rep + Replace(s[IndexOf(s, pat) + |pat|..], pat, rep, Dec(n))
    decreases |s|
  {
    var i := IndexOf(s, pat);
    var r := Replace(s, pat, rep, n);
    if StartsWith(s, pat) {
      assert i == 0;
    } else if s == [] {
      assert i == -1 && r == s;
    } else {
      SkipFirst(s, pat, rep, n);
      ReplaceStep(s[1..], pat, rep, n);
      var k := IndexOf(s[1..], pat);
      if k >= 0 {
        StepBehind(s, pat, rep, n, k);
      } else {
        assert [s[0]] + s[1..] == s;
      }
    }
  }

  /** The inductive step of `ReplaceStep` when the first occurrence lies
      behind the first character: the kept prefix grows by that character. */
  lemma StepBehind(s: string, pat: string, rep: string, n: int, k: nat)
    requires s != [] && k + |pat| <= |s[1..]|
    requires Replace(s, pat, rep, n) == [s[0]] + Replace(s[1..], pat, rep, n)
    requires Replace(s[1..], pat, rep, n) == s[1..][..k] + rep + Replace(s[1..][k + |pat|..], pat, rep, Dec(n))
    ensures Replace(s, pat, rep, n) == s[..k + 1] + rep + Replace(s[k + 1 + |pat|..], pat, rep, Dec(n))
  {
    var tail := Replace(s[1..][k + |pat|..], pat, rep, Dec(n));
    assert s[1..][k + |pat|..] == s[k + 1 + |pat|..];
    assert [s[0]] + s[1..][..k] == s[..k + 1];
    calc {
      Replace(s, pat, rep, n);
      [s[0]] + (s[1..][..k] + rep + tail);
      ([s[0]] + s[1..][..k]) + rep + tail;
    }
  }

  /** A string that does not start with `old` keeps its first character, and
      the search and the replacement carry on from the second. */
  lemma SkipFirst(s: string, pat: string, rep: string, n: int)
    requires pat != [] && n != 0 && s != [] && !StartsWith(s, pat)
    ensures Replace(s, pat, rep, n) == [s[0]] + Replace(s[1..], pat, rep, n)
    ensures IndexOf(s, pat) == if IndexOf(s[1..], pat) < 0 then -1 else IndexOf(s[1..], pat) + 1
  {
  }

  /** Replacing with a count of one rewrites exactly the first occurrence of a
      non-empty `old` and leaves the string alone when there is none. */
  lemma ReplaceOnce(s: string, pat: string, rep: string)
    requires pat != []
    ensures IndexOf(s, pat) == -1 ==> Replace(s, pat, rep, 1) == s
    ensures IndexOf(s, pat) >= 0 ==>
              Replace(s, pat, rep, 1) == s[..IndexOf(s, pat)] + rep + s[IndexOf(s, pat) + |pat|..]
  {
    ReplaceStep(s, pat, rep, 1);
  }

  /** Replacing a string by itself is the identity, for every count; this is
      the shortcut `strings.Replace` takes when `pat == rep`. */
  lemma {:induction false} ReplaceSelf(s: string, pat: string, n: int)
    ensures Replace(s, pat, pat, n) == s
    decreases |s|
  {
    if n == 0 {
    } else if pat == [] {
      if s != [] {
        ReplaceSelf(s[1..], pat, Dec(n));
        assert [s[0]] + s[1..] == s;
      }
    } else if StartsWith(s, pat) {
      ReplaceSelf(s[|pat|..], pat, Dec(n));
      assert pat + s[|pat|..] == s;
    } else if s != [] {
      ReplaceSelf(s[1..], pat, n);
      assert [s[0]] + s[1..] == s;
    }
  }

  /** The inverse of splitting: the parts glued back with the separator. */
  function Join(parts: seq<string>, sep: char): string
    requires |parts| >= 1
  {
    if |parts| == 1 then parts[0] else parts[0] + [sep] + Join(parts[1..], sep)
  }

  /** `strings.Split(s, sep)` for a one-character separator: the pieces between
      successive separators, so there is always at least one piece. */
  function Split(s: string, sep: char): (parts: seq<string>)
    ensures |parts| >= 1
    ensures forall k :: 0 <= k < |parts| ==> sep !in parts[k]
    ensures Join(parts, sep) == s
    decreases |s|
  {
    if |s| == 0 then [""]
    else if s[0] == sep then [""] + Split(s[1..], sep)
    else
      var rest := Split(s[1..], sep);
      [[s[0]] + rest[0]] + rest[1..]
  }

  /** The first piece of a split is everything before the first separator, and
      a second piece exists exactly when the separator occurs. */
  lemma {:induction false} SplitHead(s: string, sep: char)
    ensures sep !in s <==> |Split(s, sep)| == 1
    ensures sep !in s ==> Split(s, sep)[0] == s
    ensures sep in s ==> s == Split(s, sep)[0] + [sep] + Join(Split(s, sep)[1..], sep)
  {
    var parts := Split(s, sep);
    if |parts| > 1 {
      assert s == parts[0] + [sep] + Join(parts[1..], sep);
      assert s[|parts[0]|] == sep;
    } else {
      assert s == parts[0];
    }
  }
}
