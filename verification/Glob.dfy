/** Path-versus-glob matching (`common/manifest_match.rs`). */
module Glob {
  import opened GlobText

  /** The loop of `wildcard_match`, on two cursors and the optional star pair. */
  method WildcardMatch(path: string, glob: string) returns (matched: bool)
    ensures matched == Walk(path, glob, 0, 0, NoStar)
    ensures '*' !in path ==> matched == Matches(path, glob)
  {
    if '*' !in path {
      WalkDecidesMatches(path, glob);
    }
    var pi: nat, gi: nat := 0, 0;
    var star := NoStar;
    while pi < |path|
      invariant InBounds(path, glob, pi, gi, star)
      invariant Walk(path, glob, 0, 0, NoStar) == Walk(path, glob, pi, gi, star)
      decreases |glob| - (if star.StarAt? then star.g + 1 else 0),
                |path| - (if star.StarAt? then star.p else 0),
                |glob| - gi
    {
      if gi < |glob| && (glob[gi] == path[pi] || (glob[gi] == '?' && path[pi] != '/')) {
        pi, gi := pi + 1, gi + 1;
      } else if gi < |glob| && glob[gi] == '*' {
        star := StarAt(gi, pi);
        gi := gi + 1;
      } else if star.StarAt? {
        if path[star.p] == '/' {
          return false;
        }
        gi, pi := star.g + 1, star.p + 1;
        star := StarAt(star.g, star.p + 1);
      } else {
        return false;
      }
    }
    ghost var tail := gi;
    while gi < |glob| && glob[gi] == '*'
      invariant tail <= gi <= |glob|
      invariant AllStars(glob[tail..gi])
    {
      assert glob[tail..gi + 1] == glob[tail..gi] + ['*'];
      gi := gi + 1;
    }
    matched := gi == |glob|;
    if matched {
      assert glob[tail..] == glob[tail..gi];
    } else {
      assert glob[tail..][gi - tail] == glob[gi];
    }
  }

  // ---------------------------------------------------------------------------
  // Keeping only the latest star loses nothing
  // ---------------------------------------------------------------------------

  /** Once a second star is reached, any match that extends the first star is also a
      match that extends the second one. */
  lemma {:induction false} LatestStarSuffices(path: string, glob: string, pi: nat, gi: nat, star: Star)
    requires InBounds(path, glob, pi, gi, star) && star.StarAt?
    requires gi < |glob| && glob[gi] == '*' && glob[star.g] == '*'
    requires Literally(path[star.p..pi], glob[star.g + 1..gi])
    requires CanExtend(path, glob, star)
    ensures Matches(path[pi..], glob[gi..])
  {
    var lit, rest := glob[star.g + 1..gi], glob[gi..];
    assert glob[star.g..] == "*" + lit + rest;
    var q0 := MatchesSplitsAtStar(path[star.p + 1..], lit, rest);
    var q := star.p + 1 + q0;
    assert path[star.p + 1..][q0..q0 + |lit|] == path[q..q + |lit|];
    assert path[star.p + 1..][q0 + |lit|..] == path[q + |lit|..];
    forall k | 0 <= k < q - star.p ensures path[star.p..q][k] != '/' {
      if k > 0 { assert path[star.p + 1..][..q0][k - 1] == path[star.p + k]; }
    }
    assert pi == star.p + |lit|;
    var n := q - star.p;
    forall k | 0 <= k < n ensures path[pi..][..n][k] != '/' {
      ShiftedLiteralNoSlash(path, lit, star.p, q, pi + k);
    }
    assert path[pi..][n..] == path[q + |lit|..];
    StarAbsorbs(path[pi..], n, rest);
  }

  // ---------------------------------------------------------------------------
  // The matcher decides the declarative meaning on star-free paths
  // ---------------------------------------------------------------------------

  lemma {:induction false} WalkInvariant(path: string, glob: string, pi: nat, gi: nat, star: Star)
    requires '*' !in path
    requires InBounds(path, glob, pi, gi, star)
    requires star.StarAt? ==> glob[star.g] == '*' && Literally(path[star.p..pi], glob[star.g + 1..gi])
    ensures Walk(path, glob, pi, gi, star)
       <==> Matches(path[pi..], glob[gi..]) || CanExtend(path, glob, star)
    decreases |glob| - (if star.StarAt? then star.g + 1 else 0),
              |path| - (if star.StarAt? then star.p else 0),
              |glob| - gi
  {
    if pi == |path| {
      WalkAtEnd(path, glob, pi, gi, star);
    } else if gi < |glob| && AcceptsChar(glob[gi], path[pi]) {
      assert path[pi..][1..] == path[pi + 1..] && glob[gi..][1..] == glob[gi + 1..];
      if star.StarAt? {
        LiterallyExtends(path, glob, pi, gi, star);
      }
      WalkInvariant(path, glob, pi + 1, gi + 1, star);
    } else if gi < |glob| && glob[gi] == '*' {
      WalkInvariant(path, glob, pi, gi + 1, StarAt(gi, pi));
      assert glob[gi..][1..] == glob[gi + 1..] && path[pi..][1..] == path[pi + 1..];
      if CanExtend(path, glob, star) {
        LatestStarSuffices(path, glob, pi, gi, star);
      }
    } else if star.StarAt? && path[star.p] != '/' {
      var next := StarAt(star.g, star.p + 1);
      WalkInvariant(path, glob, star.p + 1, star.g + 1, next);
      assert glob[star.g..][1..] == glob[star.g + 1..];
      assert star.p + 1 < |path| ==> path[star.p + 1..][1..] == path[star.p + 2..];
    }
  }

  lemma WalkDecidesMatches(path: string, glob: string)
    requires '*' !in path
    ensures Walk(path, glob, 0, 0, NoStar) <==> Matches(path, glob)
  {
    WalkInvariant(path, glob, 0, 0, NoStar);
    assert path[0..] == path && glob[0..] == glob;
  }

  // ---------------------------------------------------------------------------
  // ... and on no other paths
  // ---------------------------------------------------------------------------

  /** A path holding a `*` is misjudged by some glob: the matcher takes the glob's
      `*` for that very character and never for an empty run. */
  lemma StarInPathIsMisjudged(path: string) returns (glob: string)
    requires '*' in path
    ensures Matches(path, glob) && !Walk(path, glob, 0, 0, NoStar)
    ensures !HasSuffix(glob, "/**") && !PathMatchesGlob(path, glob)
  {
    var i := LastStar(path);
    var before, after := path[..i], path[i + 1..];
    glob := before + ("*?" + after);
    assert path == before + ("*" + after);
    TextMatchesItself(after, "", "");
    assert after + "" == after;
    assert ("?" + after)[1..] == after && ("*" + after)[1..] == after;
    assert Matches("*" + after, "?" + after);
    assert ("*?" + after)[1..] == "?" + after;
    TextMatchesItself(before, "*" + after, "*?" + after);
    var n := |before| + 1;
    assert path[..n] == before + "*" == glob[..n];
    WalkThroughEqualText(path, glob, n);
    assert glob[n..] == "?" + after;
    WalkFailsWhenGlobIsLonger(path, glob, n, n);
    assert |glob| == |path| + 1 && glob[|before|] == '*';
    assert glob[|glob| - 1] == ("?" + after)[|after|] != '*';
  }

  /** The matcher, and `path_matches_glob` on globs without a trailing double star, is exact
      for a path precisely when the path holds no `*`. */
  lemma ExactIffNoStarInPath(path: string)
    ensures (forall glob :: Walk(path, glob, 0, 0, NoStar) == Matches(path, glob)) <==> '*' !in path
    ensures (forall glob :: !HasSuffix(glob, "/**") ==> PathMatchesGlob(path, glob) == Matches(path, glob)) <==> '*' !in path
  {
    if '*' in path {
      var glob := StarInPathIsMisjudged(path);
      assert Walk(path, glob, 0, 0, NoStar) != Matches(path, glob);
      assert PathMatchesGlob(path, glob) != Matches(path, glob);
    } else {
      forall glob
        ensures Walk(path, glob, 0, 0, NoStar) == Matches(path, glob)
        ensures !HasSuffix(glob, "/**") ==> PathMatchesGlob(path, glob) == Matches(path, glob)
      {
        WalkDecidesMatches(path, glob);
        PathMatchesGlobMeaning(path, glob);
      }
    }
  }

  // ---------------------------------------------------------------------------
  // path_matches_glob
  // ---------------------------------------------------------------------------

  predicate PathMatchesGlob(path: string, glob: string) {
    if path == glob then true
    else if HasSuffix(glob, "/**") then
      var prefix := glob[..|glob| - 3];
      prefix + "/" <= path || path == prefix
    else if '*' in glob || '?' in glob then Walk(path, glob, 0, 0, NoStar)
    else false
  }

  /** Below a trailing double star everything under the directory matches, at any depth and
      only there; without it the match stays inside the glob's own segments. */
  lemma PathMatchesGlobMeaning(path: string, glob: string)
    ensures HasSuffix(glob, "/**") ==>
              (PathMatchesGlob(path, glob) <==>
               path == glob[..|glob| - 3] || IsUnder(path, glob[..|glob| - 3]))
    ensures !HasSuffix(glob, "/**") && '*' !in path ==> (PathMatchesGlob(path, glob) <==> Matches(path, glob))
  {
    if HasSuffix(glob, "/**") {
      var prefix := glob[..|glob| - 3];
      assert glob == prefix + "/**";
      if path == glob {
        assert path[..|prefix|] == prefix;
      }
      if prefix + "/" <= path {
        assert path[..|prefix| + 1] == prefix + "/";
        assert path[..|prefix|] == path[..|prefix| + 1][..|prefix|];
      }
    } else if '*' !in path {
      WalkDecidesMatches(path, glob);
      if path == glob {
        TextMatchesItself(path, "", "");
        assert path + "" == path;
      } else if '*' !in glob && '?' !in glob {
        if Matches(path, glob) {
          assert glob + "" == glob;
          MatchesLiteralPrefix(path, glob, "");
          assert false;
        }
      }
    }
  }

  // ---------------------------------------------------------------------------
  // The meaning of a glob is that of its parts
  // ---------------------------------------------------------------------------

  /** The empty glob and the globs of one character. */
  lemma MeaningOfOneCharacter(path: string, g: char)
    ensures Matches(path, "") <==> path == ""
    ensures Matches(path, "*") <==> '/' !in path
    ensures Matches(path, "?") <==> |path| == 1 && path[0] != '/'
    ensures g != '*' && g != '?' ==> (Matches(path, [g]) <==> path == [g])
  {
    StarMeansNoSlash(path);
    assert "?"[1..] == "" && [g][1..] == "";
    if path != "" { assert path == [path[0]] + path[1..]; }
  }

  /** A path matches two globs in a row exactly when it is a match of the first followed by
      a match of the second. */
  lemma {:induction false} MeaningOfTwoParts(path: string, a: string, b: string)
    ensures Matches(path, a + b) <==> exists i :: 0 <= i <= |path| && Matches(path[..i], a) && Matches(path[i..], b)
    decreases |path| + |a|
  {
    if Matches(path, a + b) {
      var i := SplitMatch(path, a, b);
    }
    if i :| 0 <= i <= |path| && Matches(path[..i], a) && Matches(path[i..], b) {
      JoinMatches(path[..i], path[i..], a, b);
      assert path == path[..i] + path[i..];
    }
  }

  lemma {:induction false} TextMeansItself(path: string, text: string)
    requires '*' !in text && '?' !in text
    ensures Matches(path, text) <==> path == text
  {
    if Matches(path, text) {
      assert text + "" == text;
      MatchesLiteralPrefix(path, text, "");
    }
    if path == text {
      TextMatchesItself(text, "", "");
      assert text + "" == text;
    }
  }
}
