/**
 * The few string operations of the .NET base library that the tool relies on,
 * stated over `string` = `seq<char>`: character-by-character prefix/suffix tests, substring
 * search, `String.Replace` (left-to-right, non-overlapping), ASCII case folding,
 * and splitting/joining on a separator character.
 */
module Text {

  predicate StartsWith(s: string, prefix: string) {
    |prefix| <= |s| && s[..|prefix|] == prefix
  }

  predicate EndsWith(s: string, suffix: string) {
    |suffix| <= |s| && s[|s| - |suffix|..] == suffix
  }

  /** `t` occurs somewhere in `s`. */
  predicate Contains(s: string, t: string)
    decreases |s|
  {
    StartsWith(s, t) || (|s| > 0 && Contains(s[1..], t))
  }

  /**
   * `String.Replace(pattern, replacement, comparison)`, matching the pattern character by
   * character: the input is scanned from the left and every occurrence that does not
   * overlap an earlier replaced one is replaced.
   */
  function ReplaceAll(s: string, pattern: string, replacement: string): string
    requires |pattern| > 0
    decreases |s|
  {
    if |s| < |pattern| then s
    else if StartsWith(s, pattern) then replacement + ReplaceAll(s[|pattern|..], pattern, replacement)
    else [s[0]] + ReplaceAll(s[1..], pattern, replacement)
  }

  /** Text without an occurrence of the pattern is left alone. */
  lemma {:induction false} ReplaceAllAbsent(s: string, pattern: string, replacement: string)
    requires |pattern| > 0
    requires !Contains(s, pattern)
    ensures ReplaceAll(s, pattern, replacement) == s
    decreases |s|
  {
    if |s| >= |pattern| {
      ReplaceAllAbsent(s[1..], pattern, replacement);
      assert s == [s[0]] + s[1..];
    }
  }

  /** Invariant-culture case folding, restricted to ASCII letters. */
  function LowerChar(c: char): char {
    if 'A' <= c <= 'Z' then (c as int + 32) as char else c
  }

  function Lower(s: string): string {
    seq(|s|, i requires 0 <= i < |s| => LowerChar(s[i]))
  }

  /** `EndsWith(suffix, StringComparison.InvariantCultureIgnoreCase)`. */
  predicate EndsWithIgnoreCase(s: string, suffix: string) {
    |suffix| <= |s| && Lower(s[|s| - |suffix|..]) == Lower(suffix)
  }

  /** Index of the first `c` in `s`, or -1. */
  function IndexOf(s: string, c: char): (r: int)
    ensures -1 <= r < |s|
    ensures r >= 0 ==> s[r] == c && c !in s[..r]
    ensures r < 0 ==> c !in s
  {
    if |s| == 0 then -1
    else if s[0] == c then 0
    else var k := IndexOf(s[1..], c); if k < 0 then -1 else k + 1
  }

  /** Index of the last `c` in `s`, or -1. */
  function LastIndexOf(s: string, c: char): (r: int)
    ensures -1 <= r < |s|
    ensures r >= 0 ==> s[r] == c && c !in s[r + 1..]
    ensures r < 0 ==> c !in s
  {
    if |s| == 0 then -1
    else if s[|s| - 1] == c then |s| - 1
    else LastIndexOf(s[..|s| - 1], c)
  }

  /** The last `c` of `a + [c] + b` is the one after `a` when `b` holds none. */
  lemma {:induction false} LastIndexOfBeforeSuffix(a: string, c: char, b: string)
    requires c !in b
    ensures LastIndexOf(a + [c] + b, c) == |a|
    decreases |b|
  {
    var s := a + [c] + b;
    if |b| > 0 {
      assert s[|s| - 1] == b[|b| - 1];
      assert s[..|s| - 1] == a + [c] + b[..|b| - 1];
      LastIndexOfBeforeSuffix(a, c, b[..|b| - 1]);
    }
  }

  /** `String.Split(sep)`: the pieces between the occurrences of `sep`. */
  function Split(s: string, sep: char): (parts: seq<string>)
    ensures |parts| > 0
    decreases |s|
  {
    var k := IndexOf(s, sep);
    if k < 0 then [s] else [s[..k]] + Split(s[k + 1..], sep)
  }

  lemma {:induction false} SplitPiecesLackSeparator(s: string, sep: char)
    ensures forall i :: 0 <= i < |Split(s, sep)| ==> sep !in Split(s, sep)[i]
    decreases |s|
  {
    var k := IndexOf(s, sep);
    if k >= 0 {
      SplitPiecesLackSeparator(s[k + 1..], sep);
    }
  }

  /** `String.Join(sep, parts)`. */
  function Join(parts: seq<string>, sep: char): string {
    if |parts| == 0 then ""
    else if |parts| == 1 then parts[0]
    else parts[0] + [sep] + Join(parts[1..], sep)
  }

  lemma {:induction false} JoinSplit(s: string, sep: char)
    ensures Join(Split(s, sep), sep) == s
    decreases |s|
  {
    var k := IndexOf(s, sep);
    if k >= 0 {
      JoinSplit(s[k + 1..], sep);
      assert s == s[..k] + [sep] + s[k + 1..];
    }
  }

  lemma {:induction false} SplitJoin(parts: seq<string>, sep: char)
    requires |parts| > 0
    requires forall i :: 0 <= i < |parts| ==> sep !in parts[i]
    ensures Split(Join(parts, sep), sep) == parts
  {
    if |parts| > 1 {
      var head, rest := parts[0], Join(parts[1..], sep);
      var s := head + [sep] + rest;
      assert Join(parts, sep) == s;
      assert s == head + ([sep] + rest);
      IndexOfAfterPrefix(head, sep, [sep] + rest);
      SplitAt(s, sep, head, rest);
      SplitJoin(parts[1..], sep);
      assert parts == [head] + parts[1..];
    } else {
      assert Join(parts, sep) == parts[0];
      assert IndexOf(parts[0], sep) < 0;
    }
  }

  /** Splitting at the first separator: the piece before it, then the split of the rest. */
  lemma SplitAt(s: string, sep: char, a: string, b: string)
    requires s == a + [sep] + b && IndexOf(s, sep) == |a|
    ensures Split(s, sep) == [a] + Split(b, sep)
  {
    assert s[..|a|] == a;
    assert s[|a| + 1..] == b;
  }

  /** If `c` is absent from `u`, the first `c` in `u + v` is the first `c` in `v`, shifted. */
  lemma {:induction false} IndexOfAfterPrefix(u: string, c: char, v: string)
    requires c !in u
    requires |v| > 0 && v[0] == c
    ensures IndexOf(u + v, c) == |u|
  {
    if |u| > 0 {
      assert (u + v)[1..] == u[1..] + v;
      IndexOfAfterPrefix(u[1..], c, v);
    }
  }

  /** `u` and `v` agree on their common length: one could be the start of the other. */
  predicate Overlaps(u: string, v: string) {
    var n := if |u| < |v| then |u| else |v|;
    u[..n] == v[..n]
  }

  /** Replacement distributes over `p + t` when no occurrence of `pattern` can straddle the seam. */
  lemma {:induction false} ReplaceAllAppend(p: string, t: string, pattern: string, replacement: string)
    requires |pattern| > 0
    requires forall j :: 0 < j < |pattern| ==> !Overlaps(pattern[j..], t)
    ensures ReplaceAll(p + t, pattern, replacement) == ReplaceAll(p, pattern, replacement) + ReplaceAll(t, pattern, replacement)
    decreases |p|
  {
    if |p| == 0 {
      assert p + t == t;
    } else if StartsWith(p + t, pattern) {
      ReplaceAllAppendMatch(p, t, pattern);
      ReplaceAllAppend(p[|pattern|..], t, pattern, replacement);
      ReplaceAllAppendMatchStep(p, t, pattern, replacement);
    } else {
      ReplaceAllAppend(p[1..], t, pattern, replacement);
      ReplaceAllAppendSkip(p, t, pattern, replacement);
    }
  }

  lemma ReplaceAllAppendMatchStep(p: string, t: string, pattern: string, replacement: string)
    requires |pattern| > 0 && StartsWith(p, pattern)
    ensures ReplaceAll(p + t, pattern, replacement) == replacement + ReplaceAll(p[|pattern|..] + t, pattern, replacement)
    ensures ReplaceAll(p, pattern, replacement) == replacement + ReplaceAll(p[|pattern|..], pattern, replacement)
  {
    var s := p + t;
    assert s[..|pattern|] == p[..|pattern|];
    assert s[|pattern|..] == p[|pattern|..] + t;
  }

  lemma ReplaceAllAppendMatch(p: string, t: string, pattern: string)
    requires |p| > 0 && StartsWith(p + t, pattern)
    requires forall j :: 0 < j < |pattern| ==> !Overlaps(pattern[j..], t)
    ensures StartsWith(p, pattern)
  {
    var s := p + t;
    var k := |pattern|;
    if |p| < k {
      StraddleOverlaps(p, t, pattern);
      assert false;
    }
    assert p[..k] == s[..k];
  }

  lemma StraddleOverlaps(p: string, t: string, pattern: string)
    requires 0 < |p| < |pattern| && StartsWith(p + t, pattern)
    ensures Overlaps(pattern[|p|..], t)
  {
    var s := p + t;
    var k := |pattern|;
    assert s[|p|..k] == t[..k - |p|];
  }

  lemma ReplaceAllAppendSkip(p: string, t: string, pattern: string, replacement: string)
    requires |pattern| > 0 && |p| > 0
    requires !StartsWith(p + t, pattern)
    ensures ReplaceAll(p + t, pattern, replacement) == [p[0]] + ReplaceAll(p[1..] + t, pattern, replacement)
    ensures ReplaceAll(p, pattern, replacement) == [p[0]] + ReplaceAll(p[1..], pattern, replacement)
  {
    var s := p + t;
    assert s[1..] == p[1..] + t;
    assert s[0] == p[0];
    if |p| >= |pattern| {
      assert !StartsWith(p, pattern) by { assert p[..|pattern|] == s[..|pattern|]; }
    } else {
      assert p == [p[0]] + p[1..];
    }
  }

  /** No position of `s` can begin an occurrence of `pattern`. */
  lemma {:induction false} NotContainsByOverlap(s: string, pattern: string)
    requires |pattern| > 0
    requires forall i :: 0 <= i < |s| ==> !Overlaps(s[i..], pattern)
    ensures !Contains(s, pattern)
    decreases |s|
  {
    if |s| > 0 {
      assert !Overlaps(s[0..], pattern);
      assert s[0..] == s;
      forall i | 0 <= i < |s[1..]|
        ensures !Overlaps(s[1..][i..], pattern)
      {
        assert s[1..][i..] == s[i + 1..];
      }
      NotContainsByOverlap(s[1..], pattern);
    }
  }

  /**
   * A prefix `w` of the replaced text none of whose positions could begin a copy of
   * `replacement` was already a prefix of the original text.
   */
  lemma {:induction false} ReplacedPrefix(x: string, pattern: string, replacement: string, w: string)
    requires |pattern| > 0 && |replacement| > 0
    requires StartsWith(ReplaceAll(x, pattern, replacement), w)
    requires forall i :: 0 <= i < |w| ==> !Overlaps(w[i..], replacement)
    ensures StartsWith(x, w)
    decreases |x|
  {
    var q := ReplaceAll(x, pattern, replacement);
    assert w[0..] == w;
    if |w| == 0 || |x| < |pattern| {
    } else if StartsWith(x, pattern) {
      assert false;
    } else {
      var qr := ReplaceAll(x[1..], pattern, replacement);
      assert q == [x[0]] + qr;
      assert StartsWith(qr, w[1..]) by { assert q[1..|w|] == w[1..]; }
      forall i | 0 <= i < |w[1..]|
        ensures !Overlaps(w[1..][i..], replacement)
      {
        assert w[1..][i..] == w[i + 1..];
      }
      ReplacedPrefix(x[1..], pattern, replacement, w[1..]);
      assert x == [x[0]] + x[1..];
    }
  }

  /**
   * Replacing `pattern` by `replacement` and then `replacement` by `pattern` restores
   * the text, provided the text holds no `replacement` of its own and no copy of
   * `replacement` can begin inside a copy of it (past its first character).
   */
  lemma {:induction false} ReplaceAllRoundTrip(p: string, pattern: string, replacement: string)
    requires |pattern| > 0 && |replacement| > 0
    requires !Contains(p, replacement)
    requires forall i :: 1 <= i < |replacement| ==> !Overlaps(replacement[i..], replacement)
    ensures ReplaceAll(ReplaceAll(p, pattern, replacement), replacement, pattern) == p
    decreases |p|
  {
    if |p| < |pattern| {
      ReplaceAllAbsent(p, replacement, pattern);
    } else if StartsWith(p, pattern) {
      var rest := p[|pattern|..];
      NotContainsDrop(p, replacement, |pattern|);
      ReplaceAllRoundTrip(rest, pattern, replacement);
      var x := ReplaceAll(rest, pattern, replacement);
      assert ReplaceAll(p, pattern, replacement) == replacement + x;
      assert p == pattern + rest;
      MatchReturns(x, rest, replacement + x, pattern, replacement);
    } else {
      var rest := p[1..];
      assert !Contains(rest, replacement);
      ReplaceAllRoundTrip(rest, pattern, replacement);
      var x := ReplaceAll(rest, pattern, replacement);
      assert ReplaceAll(p, pattern, replacement) == [p[0]] + x;
      assert p == [p[0]] + rest;
      NoReplacementAfterKept(p[0], rest, x, pattern, replacement);
      KeptReturns(p[0], x, rest, [p[0]] + x, pattern, replacement);
      assert p == [p[0]] + rest;
    }
  }

  /** A replacement at the front of `q` turns back into the pattern. */
  lemma MatchReturns(x: string, rest: string, q: string, pattern: string, replacement: string)
    requires |pattern| > 0 && |replacement| > 0
    requires q == replacement + x
    requires ReplaceAll(x, replacement, pattern) == rest
    ensures ReplaceAll(q, replacement, pattern) == pattern + rest
  {
    assert q[..|replacement|] == replacement;
    assert q[|replacement|..] == x;
  }

  /** A character at the front of `q` that starts no replacement is kept on the way back. */
  lemma KeptReturns(c: char, x: string, rest: string, q: string, pattern: string, replacement: string)
    requires |pattern| > 0 && |replacement| > 0
    requires q == [c] + x
    requires !(|q| >= |replacement| && StartsWith(q, replacement))
    requires ReplaceAll(x, replacement, pattern) == rest
    ensures ReplaceAll(q, replacement, pattern) == [c] + rest
  {
    assert q[1..] == x;
  }

  /**
   * A character kept at the front of the replaced text cannot start a replacement: the
   * rest of the text holds none, and no copy of it can begin inside another.
   */
  lemma NoReplacementAfterKept(c: char, rest: string, x: string, pattern: string, replacement: string)
    requires |pattern| > 0 && |replacement| > 0
    requires x == ReplaceAll(rest, pattern, replacement)
    requires !Contains([c] + rest, replacement)
    requires forall i :: 1 <= i < |replacement| ==> !Overlaps(replacement[i..], replacement)
    ensures !(|[c] + x| >= |replacement| && StartsWith([c] + x, replacement))
  {
    var q := [c] + x;
    if |q| >= |replacement| && StartsWith(q, replacement) {
      var w := replacement[1..];
      assert StartsWith(x, w) by { assert q[1..|replacement|] == w; }
      forall i | 0 <= i < |w|
        ensures !Overlaps(w[i..], replacement)
      {
        assert w[i..] == replacement[i + 1..];
      }
      ReplacedPrefix(rest, pattern, replacement, w);
      assert false;
    }
  }

  lemma {:induction false} NotContainsDrop(s: string, t: string, k: nat)
    requires k <= |s|
    requires !Contains(s, t)
    ensures !Contains(s[k..], t)
    decreases k
  {
    if k > 0 {
      NotContainsDrop(s[1..], t, k - 1);
      assert s[1..][k - 1..] == s[k..];
    }
  }
}
