/**
 * The JavaScript string operations the program relies on (`indexOf`,
 * `includes`, `split`, `join`, `substring`), and facts about where a
 * pattern can occur in a string built from newline-separated pieces.
 */
module Strings {

  /** `pat` occurs in `s` starting at index `i`. */
  predicate OccursAt(s: string, pat: string, i: nat) {
    i + |pat| <= |s| && s[i..i + |pat|] == pat
  }

  /** `pat` occurs nowhere in `s`. */
  ghost predicate Absent(s: string, pat: string) {
    forall i: nat :: !OccursAt(s, pat, i)
  }

  /** `pat` occurs in `s` at index `k` and nowhere else. */
  ghost predicate OnlyAt(s: string, pat: string, k: nat) {
    forall i: nat :: OccursAt(s, pat, i) <==> i == k
  }

  lemma OccursInTail(s: string, pat: string)
    requires |s| > 0
    ensures forall j: nat :: OccursAt(s[1..], pat, j) <==> OccursAt(s, pat, j + 1)
  {
    forall j: nat
      ensures OccursAt(s[1..], pat, j) <==> OccursAt(s, pat, j + 1)
    {
      if j + 1 + |pat| <= |s| {
        assert s[1..][j..j + |pat|] == s[j + 1..j + 1 + |pat|];
      }
    }
  }

  /** `s.indexOf(pat)`: the first index where `pat` occurs, or -1. */
  function IndexOf(s: string, pat: string): (r: int)
    ensures r == -1 || (0 <= r && OccursAt(s, pat, r))
    ensures r == -1 <==> Absent(s, pat)
    ensures forall j: nat :: j < r ==> !OccursAt(s, pat, j)
    decreases |s|
  {
    if |s| < |pat| then -1
    else if s[..|pat|] == pat then 0
    else
      assert !OccursAt(s, pat, 0) by { assert s[0..|pat|] == s[..|pat|]; }
      OccursInTail(s, pat);
      assert forall j: nat :: 0 < j ==> (OccursAt(s, pat, j) <==> OccursAt(s[1..], pat, j - 1));
      var k := IndexOf(s[1..], pat);
      if k < 0 then -1 else k + 1
  }

  /** `s.includes(pat)`. */
  predicate Includes(s: string, pat: string)
    ensures Includes(s, pat) <==> !Absent(s, pat)
  {
    IndexOf(s, pat) >= 0
  }

  /**
   * `s.substring(a, b)` for indices within the string: the arguments are
   * swapped when `a > b`.
   */
  function Substring(s: string, a: nat, b: nat): (r: string)
    requires a <= |s| && b <= |s|
    ensures a <= b ==> r == s[a..b]
    ensures b < a ==> r == s[b..a]
  {
    if a <= b then s[a..b] else s[b..a]
  }

  /** `s.split(sep)` for a one-character separator. */
  function Split(s: string, sep: char): (r: seq<string>)
    ensures |r| >= 1
    ensures forall k :: 0 <= k < |r| ==> sep !in r[k]
    decreases |s|
  {
    if s == [] then [[]]
    else
      var rest := Split(s[1..], sep);
      if s[0] == sep then [[]] + rest
      else [[s[0]] + rest[0]] + rest[1..]
  }

  /** `parts.join(sep)`. */
  function Join(parts: seq<string>, sep: string): (r: string)
    ensures parts == [] ==> r == ""
    ensures parts != [] ==> parts[0] <= r
    decreases |parts|
  {
    if |parts| == 0 then ""
    else if |parts| == 1 then parts[0]
    else parts[0] + sep + Join(parts[1..], sep)
  }

  /** A string without the separator splits into itself alone. */
  lemma {:induction false} SplitWithoutSeparator(s: string, sep: char)
    requires sep !in s
    ensures Split(s, sep) == [s]
    decreases |s|
  {
    if s != [] {
      SplitWithoutSeparator(s[1..], sep);
      assert s == [s[0]] + s[1..];
    }
  }

  /** Splitting on a character and joining back on it gives the original string. */
  lemma {:induction false} JoinSplit(s: string, sep: char)
    ensures Join(Split(s, sep), [sep]) == s
    decreases |s|
  {
    if s != [] {
      JoinSplit(s[1..], sep);
      var rest := Split(s[1..], sep);
      if s[0] == sep {
        assert ([[]] + rest)[1..] == rest;
        assert s == [] + [sep] + s[1..];
      } else {
        var parts := [[s[0]] + rest[0]] + rest[1..];
        if |rest| == 1 {
          assert s == [s[0]] + s[1..];
        } else {
          assert parts[1..] == rest[1..];
          assert Join(rest, [sep]) == rest[0] + [sep] + Join(rest[1..], [sep]);
          assert s == [s[0]] + s[1..];
        }
      }
    }
  }

  /**
   * The first piece of `s.split(sep)` is the text before the first `sep`,
   * or the whole string when `sep` does not occur.
   */
  lemma {:induction false} SplitHead(s: string, sep: char)
    ensures var h := Split(s, sep)[0];
      && h <= s
      && (|h| < |s| ==> s[|h|] == sep)
      && (sep !in s ==> h == s)
    decreases |s|
  {
    if s != [] && s[0] != sep {
      SplitHead(s[1..], sep);
      var rest := Split(s[1..], sep);
      assert Split(s, sep)[0] == [s[0]] + rest[0];
      assert s == [s[0]] + s[1..];
      assert sep !in s ==> sep !in s[1..];
    }
  }

  /** Where a pattern without `c` can occur in `a + [c] + b`. */
  lemma OccursAroundSeparator(a: string, c: char, b: string, pat: string, i: nat)
    requires c !in pat
    ensures OccursAt(a + [c] + b, pat, i)
        <==> OccursAt(a, pat, i) || (i > |a| && OccursAt(b, pat, i - |a| - 1))
  {
    var s := a + [c] + b;
    var n := |pat|;
    if i + n <= |a| {
      assert s[i..i + n] == a[i..i + n];
    } else if i <= |a| {
      if i + n <= |s| {
        assert s[i..i + n][|a| - i] == c;
        assert s[i..i + n] != pat;
      }
    } else if i + n <= |s| {
      assert s[i..i + n] == b[i - |a| - 1..i - |a| - 1 + n];
    }
  }

  lemma AbsentAroundSeparator(a: string, c: char, b: string, pat: string)
    requires c !in pat && Absent(a, pat) && Absent(b, pat)
    ensures Absent(a + [c] + b, pat)
  {
    forall i: nat ensures !OccursAt(a + [c] + b, pat, i) {
      OccursAroundSeparator(a, c, b, pat, i);
    }
  }

  lemma OnlyAtLeftOfSeparator(a: string, c: char, b: string, pat: string, k: nat)
    requires c !in pat && OnlyAt(a, pat, k) && Absent(b, pat)
    ensures OnlyAt(a + [c] + b, pat, k)
  {
    forall i: nat ensures OccursAt(a + [c] + b, pat, i) <==> i == k {
      OccursAroundSeparator(a, c, b, pat, i);
    }
  }

  lemma OnlyAtRightOfSeparator(a: string, c: char, b: string, pat: string, k: nat)
    requires c !in pat && Absent(a, pat) && OnlyAt(b, pat, k)
    ensures OnlyAt(a + [c] + b, pat, |a| + 1 + k)
  {
    forall i: nat ensures OccursAt(a + [c] + b, pat, i) <==> i == |a| + 1 + k {
      OccursAroundSeparator(a, c, b, pat, i);
    }
  }

  /** Joining pieces that do not contain `pat` on a character `pat` lacks cannot create `pat`. */
  lemma {:induction false} JoinAbsent(parts: seq<string>, c: char, pat: string)
    requires |pat| > 0 && c !in pat
    requires forall k :: 0 <= k < |parts| ==> Absent(parts[k], pat)
    ensures Absent(Join(parts, [c]), pat)
    decreases |parts|
  {
    if |parts| > 1 {
      JoinAbsent(parts[1..], c, pat);
      AbsentAroundSeparator(parts[0], c, Join(parts[1..], [c]), pat);
    }
  }

  /** A pattern that does not start with a space occurs in an indented string only after the indent. */
  lemma OccursAfterIndent(indent: string, x: string, pat: string, i: nat)
    requires |pat| > 0
    requires forall k :: 0 <= k < |indent| ==> indent[k] != pat[0]
    ensures OccursAt(indent + x, pat, i) <==> i >= |indent| && OccursAt(x, pat, i - |indent|)
  {
    var s := indent + x;
    if i < |indent| {
      if i + |pat| <= |s| { assert s[i..i + |pat|][0] == indent[i]; }
    } else if i + |pat| <= |s| {
      assert s[i..i + |pat|] == x[i - |indent|..i - |indent| + |pat|];
    }
  }
}
