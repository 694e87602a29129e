/**
 Globs and their matcher on texts: the definitions and steps behind `Glob`.

 `Matches` is the declarative meaning the header of `common/manifest_match.rs` documents:
 `*` stands for any run of characters other than `/`, `?` for one such character,
 everything else for itself.

 `Walk` is what the iterative matcher computes: one pass with a single backtracking
 point, kept in `Star`.

 The lemmas are about one step of either, about globs without a star in them, and about
 matching two texts in a row.
 */
module GlobText {
  /** What one glob character other than `*` accepts. */
  predicate AcceptsChar(g: char, c: char) {
    g == c || (g == '?' && c != '/')
  }

  predicate Matches(path: string, glob: string)
    decreases |path| + |glob|
  {
    if glob == "" then path == ""
    else if glob[0] == '*' then
      || Matches(path, glob[1..])
      || (path != "" && path[0] != '/' && Matches(path[1..], glob))
    else path != "" && AcceptsChar(glob[0], path[0]) && Matches(path[1..], glob[1..])
  }

  /** The matcher's backtracking point: glob position of the latest `*`, and the path
      position where the text given to it ends. */
  datatype Star = NoStar | StarAt(g: nat, p: nat)

  predicate AllStars(s: string) {
    forall k :: 0 <= k < |s| ==> s[k] == '*'
  }

  predicate InBounds(path: string, glob: string, pi: nat, gi: nat, star: Star) {
    && pi <= |path|
    && gi <= |glob|
    && (star.StarAt? ==> star.g < gi && star.p <= pi)
  }

  /** The matcher from cursor positions `pi` and `gi` on. */
  predicate Walk(path: string, glob: string, pi: nat, gi: nat, star: Star)
    requires InBounds(path, glob, pi, gi, star)
    decreases |glob| - (if star.StarAt? then star.g + 1 else 0),
              |path| - (if star.StarAt? then star.p else 0),
              |glob| - gi
  {
    if pi == |path| then AllStars(glob[gi..])
    else if gi < |glob| && AcceptsChar(glob[gi], path[pi]) then
      Walk(path, glob, pi + 1, gi + 1, star)
    else if gi < |glob| && glob[gi] == '*' then
      Walk(path, glob, pi, gi + 1, StarAt(gi, pi))
    else if star.StarAt? && path[star.p] != '/' then
      Walk(path, glob, star.p + 1, star.g + 1, StarAt(star.g, star.p + 1))
    else false
  }

  // ---------------------------------------------------------------------------
  // Literal matches and the latest star
  // ---------------------------------------------------------------------------

  /** Star-free glob text matched character by character. */
  predicate Literally(text: string, lit: string) {
    |text| == |lit| && forall k :: 0 <= k < |lit| ==> lit[k] != '*' && AcceptsChar(lit[k], text[k])
  }

  predicate NoSlash(s: string) {
    forall k :: 0 <= k < |s| ==> s[k] != '/'
  }

  /** The glob still matches if the latest star takes at least one more character. */
  predicate CanExtend(path: string, glob: string, star: Star)
    requires star.StarAt? ==> star.p <= |path| && star.g < |glob|
  {
    star.StarAt? && star.p < |path| && path[star.p] != '/' && Matches(path[star.p + 1..], glob[star.g..])
  }

  predicate HasSuffix(s: string, suffix: string) {
    |suffix| <= |s| && s[|s| - |suffix|..] == suffix
  }

  predicate IsUnder(path: string, dir: string) {
    |dir| < |path| && path[..|dir|] == dir && path[|dir|] == '/'
  }

  // ---------------------------------------------------------------------------
  // Matching text in parts
  // ---------------------------------------------------------------------------

  lemma {:induction false} MatchesSplitsAtStar(path: string, lit: string, rest: string) returns (q: nat)
    requires forall k :: 0 <= k < |lit| ==> lit[k] != '*'
    requires Matches(path, "*" + lit + rest)
    ensures q + |lit| <= |path| && NoSlash(path[..q])
    ensures Literally(path[q..q + |lit|], lit) && Matches(path[q + |lit|..], rest)
    decreases |path|
  {
    var glob := "*" + lit + rest;
    assert glob[1..] == lit + rest;
    if Matches(path, glob[1..]) {
      q := 0;
      MatchesLiteralPrefix(path, lit, rest);
    } else {
      var q' := MatchesSplitsAtStar(path[1..], lit, rest);
      q := q' + 1;
      assert path[1..][..q'] == path[1..q];
      assert path[1..][q'..q' + |lit|] == path[q..q + |lit|];
      assert path[1..][q' + |lit|..] == path[q + |lit|..];
      forall k | 0 <= k < q ensures path[..q][k] != '/' {
        if k > 0 { assert path[1..][..q'][k - 1] == path[k]; }
      }
    }
  }

  lemma {:induction false} MatchesLiteralPrefix(path: string, lit: string, rest: string)
    requires forall k :: 0 <= k < |lit| ==> lit[k] != '*'
    requires Matches(path, lit + rest)
    ensures |lit| <= |path| && Literally(path[..|lit|], lit) && Matches(path[|lit|..], rest)
    decreases |lit|
  {
    if lit == "" {
      assert lit + rest == rest && path[0..] == path;
    } else {
      assert (lit + rest)[1..] == lit[1..] + rest;
      MatchesLiteralPrefix(path[1..], lit[1..], rest);
      assert path[1..][|lit| - 1..] == path[|lit|..];
      forall k | 0 <= k < |lit| ensures lit[k] != '*' && AcceptsChar(lit[k], path[..|lit|][k]) {
        if k > 0 { assert path[1..][..|lit| - 1][k - 1] == path[k] && lit[1..][k - 1] == lit[k]; }
      }
    }
  }

  /** Shifting a literal match to the right inside a slash-free stretch meets no slash. */
  lemma {:induction false} ShiftedLiteralNoSlash(path: string, lit: string, from: nat, q: nat, x: nat)
    requires from < q && q + |lit| <= |path|
    requires NoSlash(path[from..q])
    requires Literally(path[from..from + |lit|], lit) && Literally(path[q..q + |lit|], lit)
    requires from <= x < q + |lit|
    ensures path[x] != '/'
    decreases x
  {
    if x < q {
      assert path[from..q][x - from] == path[x];
    } else {
      var k := x - q;
      assert path[q..q + |lit|][k] == path[x];
      assert path[from..from + |lit|][k] == path[from + k];
      ShiftedLiteralNoSlash(path, lit, from, q, from + k);
    }
  }

  lemma {:induction false} StarAbsorbs(path: string, n: nat, glob: string)
    requires n <= |path| && NoSlash(path[..n])
    requires glob != "" && glob[0] == '*' && Matches(path[n..], glob)
    ensures Matches(path, glob)
    decreases n
  {
    if n == 0 {
      assert path[0..] == path;
    } else {
      assert path[..n][0] == path[0];
      assert path[1..][n - 1..] == path[n..];
      assert path[1..][..n - 1] == path[..n][1..];
      StarAbsorbs(path[1..], n - 1, glob);
    }
  }

  // ---------------------------------------------------------------------------
  // Steps of the matcher
  // ---------------------------------------------------------------------------

  lemma {:induction false} OnlyStarsMatchNothing(glob: string)
    ensures Matches("", glob) <==> AllStars(glob)
  {
    if glob != "" {
      OnlyStarsMatchNothing(glob[1..]);
      if AllStars(glob) {
        forall k | 0 <= k < |glob| - 1 ensures glob[1..][k] == '*' { assert glob[k + 1] == '*'; }
      } else if glob[0] == '*' {
        var k :| 0 <= k < |glob| && glob[k] != '*';
        assert glob[1..][k - 1] == glob[k];
      }
    }
  }

  lemma LiterallyExtends(path: string, glob: string, pi: nat, gi: nat, star: Star)
    requires '*' !in path && InBounds(path, glob, pi, gi, star) && star.StarAt? && pi < |path| && gi < |glob|
    requires Literally(path[star.p..pi], glob[star.g + 1..gi]) && AcceptsChar(glob[gi], path[pi])
    ensures Literally(path[star.p..pi + 1], glob[star.g + 1..gi + 1])
  {
    assert glob[star.g + 1..gi + 1] == glob[star.g + 1..gi] + [glob[gi]];
    assert path[star.p..pi + 1] == path[star.p..pi] + [path[pi]];
  }

  lemma {:induction false} WalkAtEnd(path: string, glob: string, pi: nat, gi: nat, star: Star)
    requires '*' !in path
    requires InBounds(path, glob, pi, gi, star) && pi == |path|
    requires star.StarAt? ==> glob[star.g] == '*' && Literally(path[star.p..pi], glob[star.g + 1..gi])
    ensures AllStars(glob[gi..]) <==> Matches(path[pi..], glob[gi..]) || CanExtend(path, glob, star)
  {
    assert path[pi..] == "";
    OnlyStarsMatchNothing(glob[gi..]);
    if CanExtend(path, glob, star) {
      // The text after a longer star is too short for the literals already consumed.
      var lit, rest := glob[star.g + 1..gi], glob[gi..];
      assert glob[star.g..] == "*" + lit + rest;
      var q := MatchesSplitsAtStar(path[star.p + 1..], lit, rest);
      assert false;
    }
  }

  /** `text` read as a glob matches itself, whatever comes after. */
  lemma {:induction false} TextMatchesItself(text: string, path: string, glob: string)
    requires Matches(path, glob)
    ensures Matches(text + path, text + glob)
  {
    if text == "" {
      assert text + path == path && text + glob == glob;
    } else {
      TextMatchesItself(text[1..], path, glob);
      assert (text + path)[1..] == text[1..] + path && (text + glob)[1..] == text[1..] + glob;
      if text[0] == '*' {
        // the star takes the one character that stands for it
        var p, g := text[1..] + path, text + glob;
        assert Matches(p, g[1..]);
        assert Matches(p, g);
      }
    }
  }

  lemma {:induction false} WalkThroughEqualText(path: string, glob: string, n: nat)
    requires n <= |path| && n <= |glob| && path[..n] == glob[..n]
    ensures Walk(path, glob, 0, 0, NoStar) == Walk(path, glob, n, n, NoStar)
  {
    if n > 0 {
      assert path[..n - 1] == path[..n][..n - 1] && glob[..n - 1] == glob[..n][..n - 1];
      assert path[..n][n - 1] == path[n - 1] && glob[..n][n - 1] == glob[n - 1];
      WalkThroughEqualText(path, glob, n - 1);
    }
  }

  lemma {:induction false} WalkFailsWhenGlobIsLonger(path: string, glob: string, pi: nat, gi: nat)
    requires pi <= |path| && gi <= |glob| && |path| - pi < |glob| - gi
    requires '*' !in glob[gi..]
    ensures !Walk(path, glob, pi, gi, NoStar)
    decreases |glob| - gi
  {
    assert glob[gi..][0] == glob[gi];
    if pi < |path| {
      assert glob[gi + 1..] == glob[gi..][1..];
      WalkFailsWhenGlobIsLonger(path, glob, pi + 1, gi + 1);
    }
  }

  lemma {:induction false} LastStar(path: string) returns (i: nat)
    requires '*' in path
    ensures i < |path| && path[i] == '*' && '*' !in path[i + 1..]
  {
    var n := |path| - 1;
    if path[n] == '*' {
      i := n;
    } else {
      assert path == path[..n] + [path[n]];
      i := LastStar(path[..n]);
      assert path[i + 1..] == path[..n][i + 1..] + [path[n]];
    }
  }

  lemma {:induction false} StarMeansNoSlash(path: string)
    ensures Matches(path, "*") <==> '/' !in path
  {
    assert "*"[1..] == "";
    if path != "" {
      StarMeansNoSlash(path[1..]);
      assert path == [path[0]] + path[1..];
    }
  }

  lemma {:induction false} SplitMatch(path: string, a: string, b: string) returns (i: nat)
    requires Matches(path, a + b)
    ensures i <= |path| && Matches(path[..i], a) && Matches(path[i..], b)
    decreases |path| + |a|
  {
    if a == "" {
      assert a + b == b && path[0..] == path;
      i := 0;
    } else {
      assert (a + b)[1..] == a[1..] + b;
      if a[0] == '*' && Matches(path, (a + b)[1..]) {
        i := SplitMatch(path, a[1..], b);
      } else {
        var j := SplitMatch(path[1..], if a[0] == '*' then a else a[1..], b);
        i := j + 1;
        assert path[..i][1..] == path[1..][..j] && path[i..] == path[1..][j..];
      }
    }
  }

  lemma {:induction false} JoinMatches(p: string, q: string, a: string, b: string)
    requires Matches(p, a) && Matches(q, b)
    ensures Matches(p + q, a + b)
    decreases |p| + |a|
  {
    if a == "" {
      assert p + q == q && a + b == b;
    } else {
      assert (a + b)[1..] == a[1..] + b;
      if p != "" { assert (p + q)[1..] == p[1..] + q; }
      if a[0] == '*' && Matches(p, a[1..]) {
        JoinMatches(p, q, a[1..], b);
      } else {
        JoinMatches(p[1..], q, if a[0] == '*' then a else a[1..], b);
      }
    }
  }
}
