/**
 * Lease path globs: `*` within a segment, a lone `**` across segments. The recursive matchers
 * against a declarative reading: one run of the subject for each item of the pattern.
 */
module Glob {
  import opened Wrappers
  import opened Text

  // ---- the matchers, as written ---------------------------------------------------------

  /** One segment, matched by suffixes: `pat` and `seg` are what lies at and after the two indices. */
  predicate SegmentMatches(pat: string, seg: string)
    decreases |pat| + |seg|
  {
    if pat == [] then seg == []
    else if pat[0] == '*' then SegmentMatches(pat[1..], seg) || (seg != [] && SegmentMatches(pat, seg[1..]))
    else seg != [] && pat[0] == seg[0] && SegmentMatches(pat[1..], seg[1..])
  }

  predicate SegmentsMatch(pattern: seq<string>, path: seq<string>) {
    if pattern == [] then path == []
    else if pattern[0] == "**" then exists i :: 0 <= i <= |path| && SegmentsMatch(pattern[1..], path[i..])
    else path != [] && SegmentMatches(pattern[0], path[0]) && SegmentsMatch(pattern[1..], path[1..])
  }

  predicate GlobMatch(pattern: string, path: string) {
    SegmentsMatch(Split(pattern, '/'), Split(path, '/'))
  }

  // ---- the declarative language ---------------------------------------------------------

  /** `runs[i]` is the part of the segment that the i-th pattern character stands for. */
  ghost predicate SpellsSegment(pat: string, runs: seq<string>) {
    |runs| == |pat| && forall i :: 0 <= i < |pat| && pat[i] != '*' ==> runs[i] == [pat[i]]
  }

  ghost predicate InSegmentLanguage(pat: string, seg: string) {
    exists runs :: SpellsSegment(pat, runs) && Flatten(runs) == seg
  }

  /** `runs[i]` is the run of path segments that the i-th pattern segment stands for. */
  ghost predicate SpellsPath(pattern: seq<string>, runs: seq<seq<string>>) {
    |runs| == |pattern| && forall i :: 0 <= i < |pattern| && pattern[i] != "**" ==>
      |runs[i]| == 1 && InSegmentLanguage(pattern[i], runs[i][0])
  }

  ghost predicate InPathLanguage(pattern: seq<string>, path: seq<string>) {
    exists runs :: SpellsPath(pattern, runs) && Flatten(runs) == path
  }

  lemma {:induction false} SegmentSound(pat: string, seg: string) returns (runs: seq<string>)
    requires SegmentMatches(pat, seg)
    ensures SpellsSegment(pat, runs) && Flatten(runs) == seg
    decreases |pat| + |seg|
  {
    if pat == [] {
      runs := [];
    } else if pat[0] == '*' && SegmentMatches(pat[1..], seg) {
      var rest := SegmentSound(pat[1..], seg);
      runs := [""] + rest;
    } else if pat[0] == '*' {
      var longer := SegmentSound(pat, seg[1..]);
      runs := longer[0 := [seg[0]] + longer[0]];
      assert runs[1..] == longer[1..];
      assert seg == [seg[0]] + seg[1..];
    } else {
      var rest := SegmentSound(pat[1..], seg[1..]);
      runs := [[seg[0]]] + rest;
      assert seg == [seg[0]] + seg[1..];
    }
  }

  lemma {:induction false} SegmentComplete(pat: string, runs: seq<string>)
    requires SpellsSegment(pat, runs)
    ensures SegmentMatches(pat, Flatten(runs))
    decreases |pat|, if pat == [] then 0 else |runs[0]|
  {
    if pat != [] {
      SegmentComplete(pat[1..], runs[1..]);
      if pat[0] == '*' && runs[0] != [] {
        var shorter := runs[0 := runs[0][1..]];
        SegmentComplete(pat, shorter);
        assert shorter[1..] == runs[1..];
        assert Flatten(runs)[1..] == Flatten(shorter);
      } else if pat[0] == '*' {
        assert Flatten(runs) == Flatten(runs[1..]);
      } else {
        assert Flatten(runs)[1..] == Flatten(runs[1..]);
      }
    }
  }

  lemma SegmentMatcherIsLanguage(pat: string, seg: string)
    ensures SegmentMatches(pat, seg) <==> InSegmentLanguage(pat, seg)
  {
    if SegmentMatches(pat, seg) {
      var runs := SegmentSound(pat, seg);
    }
    forall runs | SpellsSegment(pat, runs) && Flatten(runs) == seg ensures SegmentMatches(pat, seg) {
      SegmentComplete(pat, runs);
    }
  }

  lemma {:induction false} PathSound(pattern: seq<string>, path: seq<string>) returns (runs: seq<seq<string>>)
    requires SegmentsMatch(pattern, path)
    ensures SpellsPath(pattern, runs) && Flatten(runs) == path
    decreases |pattern|
  {
    if pattern == [] {
      runs := [];
    } else if pattern[0] == "**" {
      var i :| 0 <= i <= |path| && SegmentsMatch(pattern[1..], path[i..]);
      var rest := PathSound(pattern[1..], path[i..]);
      runs := [path[..i]] + rest;
      assert path == path[..i] + path[i..];
    } else {
      SegmentMatcherIsLanguage(pattern[0], path[0]);
      var rest := PathSound(pattern[1..], path[1..]);
      runs := [[path[0]]] + rest;
      assert path == [path[0]] + path[1..];
    }
  }

  lemma {:induction false} PathComplete(pattern: seq<string>, runs: seq<seq<string>>)
    requires SpellsPath(pattern, runs)
    ensures SegmentsMatch(pattern, Flatten(runs))
    decreases |pattern|
  {
    if pattern != [] {
      PathComplete(pattern[1..], runs[1..]);
      var path := Flatten(runs);
      assert path[|runs[0]|..] == Flatten(runs[1..]);
      if pattern[0] != "**" {
        SegmentMatcherIsLanguage(pattern[0], runs[0][0]);
        assert path[0] == runs[0][0];
      }
    }
  }

  /** A glob accepts exactly the paths that its pattern spells. */
  lemma GlobIsLanguage(pattern: string, path: string)
    ensures GlobMatch(pattern, path) <==> InPathLanguage(Split(pattern, '/'), Split(path, '/'))
  {
    if GlobMatch(pattern, path) {
      var runs := PathSound(Split(pattern, '/'), Split(path, '/'));
    }
    forall runs | SpellsPath(Split(pattern, '/'), runs) && Flatten(runs) == Split(path, '/') ensures GlobMatch(pattern, path) {
      PathComplete(Split(pattern, '/'), runs);
    }
  }

  // ---- concatenation --------------------------------------------------------------------

  lemma SpellsPathAppend(p: seq<string>, q: seq<string>, a: seq<seq<string>>, b: seq<seq<string>>)
    requires |a| == |p|
    ensures SpellsPath(p + q, a + b) <==> SpellsPath(p, a) && SpellsPath(q, b)
  {
    hide InSegmentLanguage;
    if SpellsPath(p + q, a + b) {
      forall i | 0 <= i < |p| && p[i] != "**" ensures |a[i]| == 1 && InSegmentLanguage(p[i], a[i][0]) {
        assert (p + q)[i] == p[i] && (a + b)[i] == a[i];
      }
      forall i | 0 <= i < |q| && q[i] != "**" ensures |b[i]| == 1 && InSegmentLanguage(q[i], b[i][0]) {
        assert (p + q)[|p| + i] == q[i] && (a + b)[|p| + i] == b[i];
      }
    }
  }

  lemma SplitMatch(p: seq<string>, q: seq<string>, path: seq<string>) returns (k: nat)
    requires SegmentsMatch(p + q, path)
    ensures k <= |path| && SegmentsMatch(p, path[..k]) && SegmentsMatch(q, path[k..])
  {
    hide SegmentsMatch, SpellsPath, Flatten;
    var runs := PathSound(p + q, path);
    assert |runs| == |p + q| by {
      SpellsPathLength(p + q, runs);
    }
    var a, b := runs[..|p|], runs[|p|..];
    assert runs == a + b;
    FlattenAppend(a, b);
    SpellsPathAppend(p, q, a, b);
    PathComplete(p, a);
    PathComplete(q, b);
    k := |Flatten(a)|;
    assert path[..k] == Flatten(a) && path[k..] == Flatten(b);
  }

  lemma SpellsPathLength(pattern: seq<string>, runs: seq<seq<string>>)
    requires SpellsPath(pattern, runs)
    ensures |runs| == |pattern|
  {
  }

  lemma JoinMatch(p: seq<string>, q: seq<string>, path: seq<string>, k: nat)
    requires k <= |path| && SegmentsMatch(p, path[..k]) && SegmentsMatch(q, path[k..])
    ensures SegmentsMatch(p + q, path)
  {
    hide SegmentsMatch, SpellsPath, Flatten;
    var a := PathSound(p, path[..k]);
    var b := PathSound(q, path[k..]);
    SpellsPathLength(p, a);
    FlattenAppend(a, b);
    assert path == path[..k] + path[k..];
    SpellsPathAppend(p, q, a, b);
    PathComplete(p + q, a + b);
  }

  /** Matching a concatenated pattern is splitting the path somewhere. */
  lemma ConcatenationSplitsPath(p: seq<string>, q: seq<string>, path: seq<string>)
    ensures SegmentsMatch(p + q, path) <==>
      exists k :: 0 <= k <= |path| && SegmentsMatch(p, path[..k]) && SegmentsMatch(q, path[k..])
  {
    hide SegmentsMatch;
    if SegmentsMatch(p + q, path) {
      var k := SplitMatch(p, q, path);
    }
    forall k | 0 <= k <= |path| && SegmentsMatch(p, path[..k]) && SegmentsMatch(q, path[k..])
      ensures SegmentsMatch(p + q, path)
    {
      JoinMatch(p, q, path, k);
    }
  }

  // ---- star-free patterns ---------------------------------------------------------------

  lemma {:induction false} LiteralSegment(pat: string, seg: string)
    requires '*' !in pat
    ensures SegmentMatches(pat, seg) <==> pat == seg
    decreases |pat|
  {
    if pat != [] {
      assert pat[0] in pat;
      if seg != [] {
        LiteralSegment(pat[1..], seg[1..]);
        assert pat == [pat[0]] + pat[1..] && seg == [seg[0]] + seg[1..];
      }
    }
  }

  predicate StarFree(pattern: seq<string>) {
    forall i :: 0 <= i < |pattern| ==> '*' !in pattern[i]
  }

  lemma {:induction false} LiteralSegments(pattern: seq<string>, path: seq<string>)
    requires StarFree(pattern)
    ensures SegmentsMatch(pattern, path) <==> pattern == path
    decreases |pattern|
  {
    if pattern != [] {
      assert pattern[0] != "**" by {
        assert '*' in "**";
      }
      if path != [] {
        LiteralSegment(pattern[0], path[0]);
        LiteralSegments(pattern[1..], path[1..]);
        assert pattern == [pattern[0]] + pattern[1..] && path == [path[0]] + path[1..];
      }
    }
  }

  lemma {:induction false} SplitStarFree(s: string)
    requires '*' !in s
    ensures StarFree(Split(s, '/'))
  {
    if s != [] {
      assert forall c :: c in s[1..] ==> c in s;
      SplitStarFree(s[1..]);
    }
  }

  lemma LiteralGlob(pattern: string, path: string)
    requires '*' !in pattern
    ensures GlobMatch(pattern, path) <==> pattern == path
  {
    SplitStarFree(pattern);
    LiteralSegments(Split(pattern, '/'), Split(path, '/'));
    JoinSplit(pattern, '/');
    JoinSplit(path, '/');
  }

  lemma DoubleStarMatchesAnything(path: seq<string>)
    ensures SegmentsMatch(["**"], path)
  {
    assert SegmentsMatch(["**"][1..], path[|path|..]);
  }

  lemma SplitDoubleStar()
    ensures Split("**", '/') == ["**"]
  {
    assert "*"[1..] == "" && "**"[1..] == "*";
    assert ['*'] + "" == "*" && ['*'] + "*" == "**";
    assert Split("*", '/') == Grow('*', '/', [""]) == ["*"];
  }

  lemma BelowDirectory(dir: string, path: string, k: nat)
    requires k <= |Split(path, '/')| && Split(path, '/')[..k] == Split(dir, '/')
    ensures path == dir || dir + "/" <= path
  {
    hide Split, Join;
    var s := Split(path, '/');
    JoinSplit(dir, '/');
    JoinSplit(path, '/');
    if k < |s| {
      assert s == s[..k] + s[k..];
      JoinAppend(s[..k], s[k..], '/');
    } else {
      assert s[..k] == s;
    }
  }

  // `dir/**` covers the directory itself and everything below it, and nothing else.
  lemma DirectoryGlob(dir: string, path: string)
    requires '*' !in dir
    ensures GlobMatch(dir + "/**", path) <==> path == dir || dir + "/" <= path
  {
    hide Split, SegmentsMatch;
    assert dir + "/**" == dir + "/" + "**";
    SplitStarFree(dir);
    SplitAt(dir, '/', "**");
    SplitDoubleStar();
    var d, s := Split(dir, '/'), Split(path, '/');
    if GlobMatch(dir + "/**", path) {
      var k := SplitMatch(d, ["**"], s);
      LiteralSegments(d, s[..k]);
      BelowDirectory(dir, path, k);
    }
    LiteralSegments(d, d);
    if path == dir {
      assert s[..|s|] == s;
      DoubleStarMatchesAnything(s[|s|..]);
      JoinMatch(d, ["**"], s, |s|);
    } else if dir + "/" <= path {
      var below := path[|dir| + 1..];
      assert path == dir + "/" + below;
      SplitAt(dir, '/', below);
      assert s[..|d|] == d && s[|d|..] == Split(below, '/');
      DoubleStarMatchesAnything(Split(below, '/'));
      JoinMatch(d, ["**"], s, |d|);
    }
  }

  // ---- one star in the last segment -----------------------------------------------------

  lemma {:induction false} StarSuffix(b: string, seg: string)
    requires '*' !in b
    ensures SegmentMatches("*" + b, seg) <==> EndsWith(seg, b)
    decreases |seg|
  {
    var pat := "*" + b;
    assert pat[1..] == b;
    LiteralSegment(b, seg);
    if seg == [] {
      assert SegmentMatches(pat, seg) <==> b == [];
    } else {
      StarSuffix(b, seg[1..]);
      assert |b| < |seg| ==> seg[1..][|seg[1..]| - |b|..] == seg[|seg| - |b|..];
      assert |b| == |seg| ==> seg[0..] == seg;
    }
  }

  lemma {:induction false} LiteralPrefix(a: string, rest: string, seg: string)
    requires '*' !in a
    ensures SegmentMatches(a + rest, seg) <==> a <= seg && SegmentMatches(rest, seg[|a|..])
    decreases |a|
  {
    if a == [] {
      assert a + rest == rest && seg[0..] == seg;
    } else {
      assert a[0] in a && (a + rest)[1..] == a[1..] + rest;
      if seg != [] && a[0] == seg[0] {
        LiteralPrefix(a[1..], rest, seg[1..]);
        assert a[1..] <= seg[1..] <==> a <= seg;
        assert a <= seg ==> seg[1..][|a| - 1..] == seg[|a|..];
      }
    }
  }

  lemma OneStarSegment(a: string, b: string, seg: string)
    requires '*' !in a && '*' !in b
    ensures SegmentMatches(a + "*" + b, seg) <==> (exists mid :: seg == a + mid + b)
  {
    hide SegmentMatches;
    assert a + "*" + b == a + ("*" + b);
    LiteralPrefix(a, "*" + b, seg);
    if a <= seg {
      StarSuffix(b, seg[|a|..]);
      if EndsWith(seg[|a|..], b) {
        assert seg == a + seg[|a|..|seg| - |b|] + b;
      }
    }
    if mid :| seg == a + mid + b {
      assert seg[|a|..] == mid + b;
      assert EndsWith(mid + b, b);
    }
  }

  /** The star stands for any run within the last segment. */
  lemma OneStarGlob(dir: string, a: string, b: string, path: string)
    requires '*' !in dir && '*' !in a && '*' !in b && '/' !in a && '/' !in b
    ensures GlobMatch(dir + "/" + (a + "*" + b), path) <==>
            (exists mid :: '/' !in mid && path == dir + "/" + (a + mid + b))
  {
    hide Split, SegmentsMatch, SegmentMatches, Join;
    var pat, d, s := a + "*" + b, Split(dir, '/'), Split(path, '/');
    assert pat != "**" by {
      if |a| == 1 {
        assert pat[0] == a[0] && a[0] in a;
      } else if |b| == 1 && |a| == 0 {
        assert pat[1] == b[0] && b[0] in b;
      }
    }
    NoSeparatorNoSplit(pat, '/');
    SplitAt(dir, '/', pat);
    SplitStarFree(dir);
    if GlobMatch(dir + "/" + pat, path) {
      var k := SplitMatch(d, [pat], s);
      LiteralSegments(d, s[..k]);
      LastSegment(pat, s[k..]);
      var seg := s[k];
      OneStarSegment(a, b, seg);
      var mid :| seg == a + mid + b;
      SplitHasNoSeparator(path, '/');
      assert seg in s;
      assert s == d + [seg];
      JoinSplit(path, '/');
      JoinSplit(dir, '/');
      JoinAppend(d, [seg], '/');
      JoinSingle(seg);
      assert '/' !in mid && path == dir + "/" + (a + mid + b);
    }
    forall mid | '/' !in mid && path == dir + "/" + (a + mid + b)
      ensures GlobMatch(dir + "/" + pat, path)
    {
      var seg := a + mid + b;
      NoSeparatorNoSplit(seg, '/');
      SplitAt(dir, '/', seg);
      OneStarSegment(a, b, seg);
      LiteralSegments(d, d);
      LastSegment(pat, [seg]);
      assert s[..|d|] == d && s[|d|..] == [seg];
      JoinMatch(d, [pat], s, |d|);
    }
  }

  lemma JoinSingle(seg: string)
    ensures Join([seg], '/') == seg
  {
  }

  lemma LastSegment(pat: string, path: seq<string>)
    requires pat != "**"
    ensures SegmentsMatch([pat], path) <==> |path| == 1 && SegmentMatches(pat, path[0])
  {
    assert [pat][1..] == [];
  }

  // ---- the lease check ------------------------------------------------------------------

  predicate MatchesPath(allowed: seq<string>, forbidden: seq<string>, path: string) {
    && path != ""
    && !(exists i :: 0 <= i < |forbidden| && GlobMatch(forbidden[i], path))
    && exists i :: 0 <= i < |allowed| && GlobMatch(allowed[i], path)
  }

  /** Forbidding wins: forbidding a directory closes exactly that subtree, whatever else is allowed. */
  lemma ForbiddingADirectory(allowed: seq<string>, forbidden: seq<string>, dir: string, path: string)
    requires '*' !in dir
    ensures MatchesPath(allowed, forbidden + [dir + "/**"], path) <==>
      MatchesPath(allowed, forbidden, path) && path != dir && !(dir + "/" <= path)
  {
    DirectoryGlob(dir, path);
    var wider := forbidden + [dir + "/**"];
    assert wider[|forbidden|] == dir + "/**";
    assert forall i :: 0 <= i < |forbidden| ==> wider[i] == forbidden[i];
  }

  /** A path is permitted exactly when some allowed pattern reads it and no forbidden one does. */
  lemma PermittedPaths(allowed: seq<string>, forbidden: seq<string>, path: string)
    ensures MatchesPath(allowed, forbidden, path) <==>
            && path != ""
            && (exists i :: 0 <= i < |allowed| && InPathLanguage(Split(allowed[i], '/'), Split(path, '/')))
            && (forall i :: 0 <= i < |forbidden| ==> !InPathLanguage(Split(forbidden[i], '/'), Split(path, '/')))
  {
    hide Split, InPathLanguage, SegmentsMatch;
    forall i | 0 <= i < |allowed|
      ensures GlobMatch(allowed[i], path) <==> InPathLanguage(Split(allowed[i], '/'), Split(path, '/'))
    {
      GlobIsLanguage(allowed[i], path);
    }
    forall i | 0 <= i < |forbidden|
      ensures GlobMatch(forbidden[i], path) <==> InPathLanguage(Split(forbidden[i], '/'), Split(path, '/'))
    {
      GlobIsLanguage(forbidden[i], path);
    }
  }

  /** A lease on a directory less a subdirectory is just that; a lease that allows nothing permits nothing. */
  lemma DirectoryLease(dir: string, sub: string, path: string)
    requires '*' !in dir && '*' !in sub
    ensures MatchesPath([dir + "/**"], [sub + "/**"], path) <==>
            path != "" && (path == dir || dir + "/" <= path) && path != sub && !(sub + "/" <= path)
    ensures forall forbidden :: !MatchesPath([], forbidden, path)
  {
    DirectoryGlob(dir, path);
    DirectoryGlob(sub, path);
    hide GlobMatch;
    var allowed, forbidden := [dir + "/**"], [sub + "/**"];
    assert allowed[0] == dir + "/**" && forbidden[0] == sub + "/**";
  }
}
