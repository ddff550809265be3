/**
 * The parts of `System.IO.Path` the tool uses, over '/'-separated paths:
 * `Combine`, `GetFileName`, `GetFileNameWithoutExtension`, `GetDirectoryName` and
 * `GetRelativePath`.  Paths are taken to be normalised: no "." or ".." segment and
 * no doubled separator inside the root-relative part.  `GetRelativePath` joins its
 * result with the platform separator, which is a parameter here.
 */
module Paths {
  import opened Text

  const Separator: char := '/'

  predicate IsRooted(p: string) {
    |p| > 0 && p[0] == Separator
  }

  /** `Path.Combine(a, b)`: a rooted `b` wins; otherwise a separator is put between them when needed. */
  function Combine(a: string, b: string): (r: string)
    ensures IsRooted(b) || |a| == 0 ==> r == b
    ensures !IsRooted(b) && |a| > 0 ==> EndsWith(r, b) && StartsWith(r, a)
  {
    if IsRooted(b) || |a| == 0 then b
    else if |b| == 0 then a
    else if EndsWith(a, [Separator]) then a + b
    else a + [Separator] + b
  }

  /** `Path.GetFileName`: what follows the last separator. */
  function FileName(p: string): (r: string)
    ensures Separator !in r
    ensures EndsWith(p, r)
  {
    var k := LastIndexOf(p, Separator);
    assert p[k + 1..] == p[|p| - |p[k + 1..]|..];
    p[k + 1..]
  }

  /** `Path.GetFileNameWithoutExtension`: the file name up to its last '.', if it has one. */
  function FileNameWithoutExtension(p: string): (r: string)
    ensures Separator !in r
    ensures StartsWith(FileName(p), r)
    ensures '.' in FileName(p) <==> |r| < |FileName(p)|
  {
    var name := FileName(p);
    var k := LastIndexOf(name, '.');
    if k < 0 then name else name[..k]
  }

  /** The path as a sequence of segments. */
  function Segments(p: string): (segs: seq<string>)
    ensures |segs| > 0
  {
    Split(p, Separator)
  }

  /** The segments of `Path.GetDirectoryName(p)`: all but the last. */
  function DirectorySegments(p: string): seq<string> {
    var segs := Segments(p);
    segs[..|segs| - 1]
  }

  /** Length of the longest common prefix of two segment sequences (ordinal comparison). */
  function CommonPrefixLength(a: seq<string>, b: seq<string>): (n: nat)
    ensures n <= |a| && n <= |b|
    ensures a[..n] == b[..n]
    ensures n < |a| && n < |b| ==> a[n] != b[n]
  {
    if |a| == 0 || |b| == 0 || a[0] != b[0] then 0
    else 1 + CommonPrefixLength(a[1..], b[1..])
  }

  function Ups(n: nat): (r: seq<string>)
    ensures |r| == n
    ensures forall i :: 0 <= i < n ==> r[i] == ".."
  {
    if n == 0 then [] else [".."] + Ups(n - 1)
  }

  /** The segments of `Path.GetRelativePath(from, to)`: climb out of `from` to the common prefix, then descend. */
  function RelativeSegments(from: seq<string>, to: seq<string>): seq<string> {
    var c := CommonPrefixLength(from, to);
    Ups(|from| - c) + to[c..]
  }

  /** `Path.GetRelativePath(from, to)` rendered with the platform separator `sep`; "." when the paths coincide. */
  function RelativePath(from: seq<string>, to: seq<string>, sep: char): string {
    var segs := RelativeSegments(from, to);
    if |segs| == 0 then "." else Join(segs, sep)
  }

  /** Following a relative segment sequence from a directory: ".." climbs, anything else descends. */
  function Resolve(base: seq<string>, rel: seq<string>): seq<string>
    decreases |rel|
  {
    if |rel| == 0 then base
    else if rel[0] == ".." then Resolve(if |base| > 0 then base[..|base| - 1] else base, rel[1..])
    else Resolve(base + [rel[0]], rel[1..])
  }

  /** Following the relative path from `from` lands on `to`, provided `to` has no ".." segment. */
  lemma {:induction false} ResolveRelativeSegments(from: seq<string>, to: seq<string>)
    requires forall i :: 0 <= i < |to| ==> to[i] != ".."
    ensures Resolve(from, RelativeSegments(from, to)) == to
  {
    var c := CommonPrefixLength(from, to);
    ResolveUps(from, |from| - c, to[c..]);
    assert from[..c] == to[..c];
    ResolveDescend(to[..c], to[c..]);
    assert to[..c] + to[c..] == to;
  }

  lemma {:induction false} ResolveUps(base: seq<string>, n: nat, rest: seq<string>)
    requires n <= |base|
    ensures Resolve(base, Ups(n) + rest) == Resolve(base[..|base| - n], rest)
    decreases n
  {
    if n > 0 {
      assert (Ups(n) + rest)[0] == "..";
      assert (Ups(n) + rest)[1..] == Ups(n - 1) + rest;
      ResolveUps(base[..|base| - 1], n - 1, rest);
      assert base[..|base| - 1][..|base| - 1 - (n - 1)] == base[..|base| - n];
    } else {
      assert Ups(n) + rest == rest;
      assert base[..|base| - n] == base;
    }
  }

  lemma {:induction false} ResolveDescend(base: seq<string>, rest: seq<string>)
    requires forall i :: 0 <= i < |rest| ==> rest[i] != ".."
    ensures Resolve(base, rest) == base + rest
    decreases |rest|
  {
    if |rest| > 0 {
      ResolveDescend(base + [rest[0]], rest[1..]);
      assert base + [rest[0]] + rest[1..] == base + rest;
    }
  }

  /** A shared prefix of both paths (the root they are combined with) does not change the relative path. */
  lemma {:induction false} RelativeSegmentsDropPrefix(prefix: seq<string>, from: seq<string>, to: seq<string>)
    ensures RelativeSegments(prefix + from, prefix + to) == RelativeSegments(from, to)
    decreases |prefix|
  {
    if |prefix| > 0 {
      assert (prefix + from)[1..] == prefix[1..] + from;
      assert (prefix + to)[1..] == prefix[1..] + to;
      RelativeSegmentsDropPrefix(prefix[1..], from, to);
      var c := CommonPrefixLength(prefix[1..] + from, prefix[1..] + to);
      assert (prefix + from)[0] == (prefix + to)[0];
      assert CommonPrefixLength(prefix + from, prefix + to) == 1 + c;
      assert (prefix + to)[1 + c..] == (prefix[1..] + to)[c..];
      assert |prefix + from| - (1 + c) == |prefix[1..] + from| - c;
      calc {
        RelativeSegments(prefix + from, prefix + to);
        Ups(|prefix + from| - (1 + c)) + (prefix + to)[1 + c..];
        Ups(|prefix[1..] + from| - c) + (prefix[1..] + to)[c..];
        RelativeSegments(prefix[1..] + from, prefix[1..] + to);
      }
    } else {
      assert prefix + from == from && prefix + to == to;
    }
  }

  /** Splitting distributes over a separator: the segments of `a/b` are those of `a` followed by those of `b`. */
  lemma {:induction false} SegmentsOfJoined(a: string, b: string)
    ensures Segments(a + [Separator] + b) == Segments(a) + Segments(b)
    decreases |a|
  {
    var s := a + [Separator] + b;
    var k := IndexOf(a, Separator);
    if k < 0 {
      IndexOfAfterPrefix(a, Separator, [Separator] + b);
      assert s == a + ([Separator] + b);
      assert s[..|a|] == a;
      assert s[|a| + 1..] == b;
    } else {
      IndexOfExtend(a, Separator, [Separator] + b);
      assert s == a + ([Separator] + b);
      assert s[..k] == a[..k];
      assert s[k + 1..] == a[k + 1..] + [Separator] + b;
      SegmentsOfJoined(a[k + 1..], b);
    }
  }

  lemma {:induction false} IndexOfExtend(a: string, c: char, t: string)
    requires IndexOf(a, c) >= 0
    ensures IndexOf(a + t, c) == IndexOf(a, c)
    decreases |a|
  {
    if a[0] != c {
      assert (a + t)[1..] == a[1..] + t;
      IndexOfExtend(a[1..], c, t);
    }
  }

  /**
   * The reference path as the services compute it: from the directory of the current
   * project file to the target file, both combined with the root.
   */
  function ReferencePath(root: string, current: string, target: string, sep: char): string {
    RelativePath(DirectorySegments(Combine(root, current)), Segments(Combine(root, target)), sep)
  }

  /**
   * For relative project paths, the root cancels out: the reference path depends only
   * on the root-relative paths of the two projects.
   */
  lemma ReferencePathIgnoresRoot(root: string, current: string, target: string, sep: char)
    requires |root| > 0 && |current| > 0 && |target| > 0
    requires !IsRooted(current) && !IsRooted(target)
    ensures ReferencePath(root, current, target, sep)
         == RelativePath(DirectorySegments(current), Segments(target), sep)
  {
    var q := RootStem(root);
    CombineRelative(root, current);
    CombineRelative(root, target);
    SegmentsOfJoined(q, current);
    SegmentsOfJoined(q, target);
    var cs := Segments(current);
    assert DirectorySegments(Combine(root, current)) == Segments(q) + cs[..|cs| - 1] by {
      var all := Segments(q) + cs;
      assert all[..|all| - 1] == Segments(q) + cs[..|cs| - 1];
    }
    RelativeSegmentsDropPrefix(Segments(q), cs[..|cs| - 1], Segments(target));
  }

  /** The root without a trailing separator. */
  function RootStem(root: string): string {
    if EndsWith(root, [Separator]) then root[..|root| - 1] else root
  }

  lemma CombineRelative(root: string, x: string)
    requires |root| > 0 && |x| > 0 && !IsRooted(x)
    ensures Combine(root, x) == RootStem(root) + [Separator] + x
  {
    if EndsWith(root, [Separator]) {
      assert root == RootStem(root) + [Separator];
    }
  }

  /**
   * The generate service rewrites '\' to '/' after computing the path: on a platform
   * whose separator is '\', this gives the '/'-joined path, so the result does not
   * depend on the platform as long as no segment itself holds a '\'.
   */
  lemma {:induction false} BackslashNormalisation(segs: seq<string>)
    requires forall i :: 0 <= i < |segs| ==> '\\' !in segs[i]
    ensures ReplaceAll(Join(segs, '\\'), "\\", "/") == Join(segs, '/')
    decreases |segs|
  {
    if |segs| == 1 {
      SegmentKeptByNormalisation(segs[0]);
    } else if |segs| > 1 {
      BackslashNormalisation(segs[1..]);
      JoinCons(segs, '\\');
      JoinCons(segs, '/');
      NormalisedJoinStep(segs[0], Join(segs[1..], '\\'), Join(segs[1..], '/'));
    }
  }

  lemma JoinCons(segs: seq<string>, sep: char)
    requires |segs| > 1
    ensures Join(segs, sep) == segs[0] + ([sep] + Join(segs[1..], sep))
  {
  }

  /** One segment in front of a '\\'-joined rest whose normalisation is known. */
  lemma NormalisedJoinStep(head: string, rest: string, restOut: string)
    requires '\\' !in head && ReplaceAll(rest, "\\", "/") == restOut
    ensures ReplaceAll(head + ("\\" + rest), "\\", "/") == head + ("/" + restOut)
  {
    SegmentKeptByNormalisation(head);
    ReplaceAllAppend(head, "\\" + rest, "\\", "/");
    LeadingBackslashNormalised(rest);
  }

  lemma SegmentKeptByNormalisation(seg: string)
    requires '\\' !in seg
    ensures ReplaceAll(seg, "\\", "/") == seg
  {
    NoCharNotContains(seg, '\\');
    ReplaceAllAbsent(seg, "\\", "/");
  }

  lemma LeadingBackslashNormalised(rest: string)
    ensures ReplaceAll("\\" + rest, "\\", "/") == "/" + ReplaceAll(rest, "\\", "/")
  {
    var t := "\\" + rest;
    assert StartsWith(t, "\\");
    assert t[1..] == rest;
  }

  lemma {:induction false} NoCharNotContains(s: string, c: char)
    requires c !in s
    ensures !Contains(s, [c])
    decreases |s|
  {
    if |s| > 0 {
      assert s[0] != c;
      NoCharNotContains(s[1..], c);
    }
  }
}
