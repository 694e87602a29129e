/** Plan-versus-diff drift check (`cross_boundary_scope.rs`). */
module ScopeDrift {
  import opened Glob
  import opened GlobText
  import opened ScopeLists

  // `CheckScope` runs the source's loops; `Report` is their result as one expression over
  // the inputs.  What a report means is stated through `Covers`, which mentions neither the
  // expansion of globs nor the sorting, and through the declarative meaning of globs alone.

  // ---------------------------------------------------------------------------
  // Sorting and removing duplicates
  // ---------------------------------------------------------------------------

  /** `Less` is the lexicographic order: the shorter of two strings, one of which starts with
      the other, or the smaller character at the first difference. */
  lemma {:induction false} LessIsLexicographic(a: string, b: string)
    ensures Less(a, b) <==>
            || (|a| < |b| && a == b[..|a|])
            || exists i :: 0 <= i < |a| && i < |b| && a[..i] == b[..i] && a[i] < b[i]
  {
    if a != "" && b != "" && a[0] == b[0] {
      var p, q := a[1..], b[1..];
      assert a == [a[0]] + p && b == [b[0]] + q;
      LessIsLexicographic(p, q);
      assert |a| < |b| ==> b[..|a|] == [b[0]] + q[..|p|];
      forall i | 0 <= i < |p| && i < |q|
        ensures p[..i] == q[..i] && p[i] < q[i] <==> a[..i + 1] == b[..i + 1] && a[i + 1] < b[i + 1]
      {
        assert a[..i + 1] == [a[0]] + p[..i] && b[..i + 1] == [b[0]] + q[..i];
        assert a[..i + 1][1..] == p[..i] && b[..i + 1][1..] == q[..i];
      }
      assert forall i :: 0 < i < |a| && i < |b| ==> a[i] == p[i - 1] && b[i] == q[i - 1];
    }
  }

  /** `sort` followed by `dedup`. */
  function SortDedup(s: seq<string>): (r: seq<string>)
    ensures Ascending(r)
    ensures forall y :: y in r <==> y in s
  {
    if s == [] then [] else Insert(s[|s| - 1], SortDedup(s[..|s| - 1]))
  }

  /** Ascending order and the set of members determine the list. */
  lemma {:induction false} AscendingIsUnique(a: seq<string>, b: seq<string>)
    requires Ascending(a) && Ascending(b)
    requires forall x :: x in a <==> x in b
    ensures a == b
  {
    assert a != [] ==> a[0] in b;
    assert b != [] ==> b[0] in a;
    if a != [] {
      assert a[0] in b;
      assert b[0] in a;
      LessTotal(a[0], b[0]);
      assert a[0] == b[0];
      forall x ensures x in a[1..] <==> x in b[1..] {
        TailMembers(a, x);
        TailMembers(b, x);
      }
      AscendingIsUnique(a[1..], b[1..]);
      assert a == [a[0]] + a[1..] && b == [b[0]] + b[1..];
    }
  }

  // ---------------------------------------------------------------------------
  // The check
  // ---------------------------------------------------------------------------

  function Report(changed: seq<string>, plan: seq<string>, exempt: set<string>): seq<Finding> {
    var diff := Kept(changed, exempt);
    var expanded := SortDedup(ExpandAll(plan, diff, exempt));
    Inbound(diff, expanded) + Untouched(expanded, diff)
  }

  method CheckScope(changed: seq<string>, plan: seq<string>, exempt: set<string>)
    returns (findings: seq<Finding>)
    ensures findings == Report(changed, plan, exempt)
    ensures StarFree(changed) ==> forall f :: f in findings <==> IsDrift(f, changed, plan, exempt)
  {
    var diff := [];
    for i := 0 to |changed|
      invariant diff == Kept(changed[..i], exempt)
    {
      assert changed[..i + 1][..i] == changed[..i];
      if changed[i] !in exempt { diff := diff + [changed[i]]; }
    }
    assert changed[..|changed|] == changed;
    var expanded := ExpandPlan(diff, plan, exempt);
    expanded := SortDedup(expanded);
    findings := Compare(diff, expanded);
    if StarFree(changed) {
      forall f ensures f in findings <==> IsDrift(f, changed, plan, exempt) {
        ReportByGlobs(changed, plan, exempt, f);
      }
    }
  }

  method ExpandPlan(diff: seq<string>, plan: seq<string>, exempt: set<string>) returns (expanded: seq<string>)
    ensures expanded == ExpandAll(plan, diff, exempt)
  {
    expanded := [];
    for i := 0 to |plan|
      invariant expanded == ExpandAll(plan[..i], diff, exempt)
    {
      assert plan[..i + 1][..i] == plan[..i];
      var entry := plan[i];
      if entry in exempt { continue; }
      if '*' in entry || '?' in entry || '[' in entry {
        var matched := MatchedBy(entry, diff);
        if matched == [] { expanded := expanded + [entry]; } else { expanded := expanded + matched; }
      } else {
        expanded := expanded + [entry];
      }
    }
    assert plan[..|plan|] == plan;
  }

  method Compare(diff: seq<string>, expanded: seq<string>) returns (findings: seq<Finding>)
    ensures findings == Inbound(diff, expanded) + Untouched(expanded, diff)
  {
    findings := [];
    for i := 0 to |diff|
      invariant findings == Inbound(diff[..i], expanded)
    {
      assert diff[..i + 1][..i] == diff[..i];
      if diff[i] !in expanded { findings := findings + [InboundDrift(diff[i])]; }
    }
    assert diff[..|diff|] == diff;
    for i := 0 to |expanded|
      invariant findings == Inbound(diff, expanded) + Untouched(expanded[..i], diff)
    {
      assert expanded[..i + 1][..i] == expanded[..i];
      if expanded[i] !in diff { findings := findings + [PlannedUntouched(expanded[i])]; }
    }
    assert expanded[..|expanded|] == expanded;
  }

  // ---------------------------------------------------------------------------
  // What a report means
  // ---------------------------------------------------------------------------

  /** Plan entry `entry` accounts for changed path `d`. */
  predicate Covers(entry: string, d: string) {
    if HasGlobChar(entry) then PathMatchesGlob(d, entry) else d == entry
  }

  predicate Accounted(d: string, plan: seq<string>, exempt: set<string>) {
    exists e :: e in plan && e !in exempt && Covers(e, d)
  }

  predicate Touched(entry: string, changed: seq<string>, exempt: set<string>) {
    exists d :: d in changed && d !in exempt && Covers(entry, d)
  }

  /** An entry expands to the changed paths it covers, or to itself when it covers none. */
  lemma ExpandMembers(entry: string, changed: seq<string>, exempt: set<string>, x: string)
    ensures x in Expand(entry, Kept(changed, exempt)) <==>
            || (x in changed && x !in exempt && Covers(entry, x))
            || (x == entry && !Touched(entry, changed, exempt))
  {
    var diff := Kept(changed, exempt);
    KeptMembers(changed, exempt, x);
    MatchedByMembers(entry, diff, x);
    if HasGlobChar(entry) {
      if MatchedBy(entry, diff) != [] {
        var m := MatchedBy(entry, diff)[0];
        KeptMembers(changed, exempt, m);
        MatchedByMembers(entry, diff, m);
      } else {
        forall d | d in changed && d !in exempt ensures !Covers(entry, d) {
          KeptMembers(changed, exempt, d);
          MatchedByMembers(entry, diff, d);
        }
      }
    }
  }

  lemma ReportMembers(changed: seq<string>, plan: seq<string>, exempt: set<string>, f: Finding)
    ensures f in Report(changed, plan, exempt) <==>
            match f
            case InboundDrift(d) => d in changed && d !in exempt && !Accounted(d, plan, exempt)
            case PlannedUntouched(e) => e in plan && e !in exempt && !Touched(e, changed, exempt)
  {
    var diff := Kept(changed, exempt);
    var expanded := SortDedup(ExpandAll(plan, diff, exempt));
    InboundMembers(diff, expanded, f);
    UntouchedMembers(expanded, diff, f);
    KeptMembers(changed, exempt, f.path);
    ExpandAllMembers(plan, diff, exempt, f.path);
    forall e ensures f.path in Expand(e, diff) <==>
            || (f.path in changed && f.path !in exempt && Covers(e, f.path))
            || (f.path == e && !Touched(e, changed, exempt))
    {
      ExpandMembers(e, changed, exempt, f.path);
    }
  }

  predicate StarFree(paths: seq<string>) {
    forall d :: d in paths ==> '*' !in d
  }

  /** Plan entry `entry` accounts for changed path `d`: a trailing double star takes the
      directory and all below it, any other entry is a glob. */
  predicate AccountsFor(entry: string, d: string) {
    var n := |entry| - 3;
    if n >= 0 && entry[n..] == "/**" then d == entry[..n] || IsUnder(d, entry[..n]) else Matches(d, entry)
  }

  /** What a finding claims about plan and diff. */
  predicate IsDrift(f: Finding, changed: seq<string>, plan: seq<string>, exempt: set<string>) {
    f.path !in exempt
    && match f
       case InboundDrift(d) => d in changed && forall e :: e in plan && e !in exempt ==> !AccountsFor(e, d)
       case PlannedUntouched(e) => e in plan && forall d :: d in changed && d !in exempt ==> !AccountsFor(e, d)
  }

  /** Testing for glob characters first makes no difference on paths without a star. */
  lemma CoversIffAccountsFor(entry: string, d: string)
    requires HasSuffix(entry, "/**") || '*' !in d
    ensures Covers(entry, d) <==> AccountsFor(entry, d)
  {
    PathMatchesGlobMeaning(d, entry);
    if HasSuffix(entry, "/**") {
      assert entry[|entry| - 3..][1] == entry[|entry| - 2] == '*';
    } else if !HasGlobChar(entry) {
      TextMeansItself(d, entry);
    }
  }

  /** On paths without a star the report is exactly the drift between plan and diff. */
  lemma ReportByGlobs(changed: seq<string>, plan: seq<string>, exempt: set<string>, f: Finding)
    requires StarFree(changed)
    ensures f in Report(changed, plan, exempt) <==> IsDrift(f, changed, plan, exempt)
  {
    ReportMembers(changed, plan, exempt, f);
    forall e, d | d in changed ensures Covers(e, d) <==> AccountsFor(e, d) {
      CoversIffAccountsFor(e, d);
    }
  }

  /** An inbound path is reported as often as it occurs in the diff, an untouched entry once. */
  lemma ReportCounts(changed: seq<string>, plan: seq<string>, exempt: set<string>, path: string)
    ensures InboundDrift(path) in Report(changed, plan, exempt) ==>
              multiset(Report(changed, plan, exempt))[InboundDrift(path)] == multiset(changed)[path]
    ensures multiset(Report(changed, plan, exempt))[PlannedUntouched(path)] <= 1
  {
    var diff := Kept(changed, exempt);
    FindingCounts(diff, SortDedup(ExpandAll(plan, diff, exempt)), path);
    if InboundDrift(path) in Report(changed, plan, exempt) {
      ReportMembers(changed, plan, exempt, InboundDrift(path));
      KeptCounts(changed, exempt, path);
    }
  }

  /** No drift exactly when plan and diff account for each other. */
  lemma EmptyReportIffMutualCover(changed: seq<string>, plan: seq<string>, exempt: set<string>)
    ensures Report(changed, plan, exempt) == [] <==>
            && (forall d :: d in changed && d !in exempt ==> Accounted(d, plan, exempt))
            && (forall e :: e in plan && e !in exempt ==> Touched(e, changed, exempt))
  {
    var r := Report(changed, plan, exempt);
    if r == [] {
      forall d | d in changed && d !in exempt ensures Accounted(d, plan, exempt) {
        ReportMembers(changed, plan, exempt, InboundDrift(d));
      }
      forall e | e in plan && e !in exempt ensures Touched(e, changed, exempt) {
        ReportMembers(changed, plan, exempt, PlannedUntouched(e));
      }
    } else {
      ReportMembers(changed, plan, exempt, r[0]);
    }
  }

  /** A report lists the inbound paths in the order of the diff, then the untouched entries
      ascending. */
  lemma ReportOrder(changed: seq<string>, plan: seq<string>, exempt: set<string>, i: nat, j: nat)
    requires i < j < |Report(changed, plan, exempt)|
    ensures var f, g := Report(changed, plan, exempt)[i], Report(changed, plan, exempt)[j];
            && (f.PlannedUntouched? ==> g.PlannedUntouched? && Less(f.path, g.path))
            && (g.InboundDrift? ==> f.InboundDrift? && Before(changed, f.path, g.path))
  {
    var diff := Kept(changed, exempt);
    var expanded := SortDedup(ExpandAll(plan, diff, exempt));
    FindingsOrder(diff, expanded, i, j);
    var f, g := Report(changed, plan, exempt)[i], Report(changed, plan, exempt)[j];
    if g.InboundDrift? {
      var p, q :| 0 <= p < q < |diff| && diff[p] == f.path && diff[q] == g.path;
      KeptInOrder(changed, exempt, p, q);
    }
  }

  // ---------------------------------------------------------------------------
  // Acting on a report removes all drift
  // ---------------------------------------------------------------------------

  function Repaired(changed: seq<string>, plan: seq<string>, exempt: set<string>): seq<string> {
    var r := Report(changed, plan, exempt);
    DropUntouched(plan, r) + InboundPaths(r)
  }

  lemma RepairedPlanHasNoDrift(changed: seq<string>, plan: seq<string>, exempt: set<string>)
    ensures Report(changed, Repaired(changed, plan, exempt), exempt) == []
  {
    var r := Report(changed, plan, exempt);
    var fixed := Repaired(changed, plan, exempt);
    forall d | d in changed && d !in exempt ensures Accounted(d, fixed, exempt) {
      ReportMembers(changed, plan, exempt, InboundDrift(d));
      if Accounted(d, plan, exempt) {
        var e :| e in plan && e !in exempt && Covers(e, d);
        ReportMembers(changed, plan, exempt, PlannedUntouched(e));
        DropUntouchedMembers(plan, r, e);
        assert e in fixed;
      } else {
        InboundPathsMembers(r, d);
        assert d in fixed;
      }
    }
    forall e | e in fixed && e !in exempt ensures Touched(e, changed, exempt) {
      DropUntouchedMembers(plan, r, e);
      InboundPathsMembers(r, e);
      ReportMembers(changed, plan, exempt, PlannedUntouched(e));
      ReportMembers(changed, plan, exempt, InboundDrift(e));
    }
    EmptyReportIffMutualCover(changed, fixed, exempt);
  }

  // ---------------------------------------------------------------------------
  // Symmetric exclusions
  // ---------------------------------------------------------------------------

  predicate IsUserStoryPath(path: string) {
    var dir := "docs/user-stories/";
    dir <= path && HasSuffix(path, ".md") && '/' !in path[|dir|..]
  }

  predicate IsSymmetricExclusion(mainMd: string, path: string) {
    || path == mainMd
    || path == "docs/TODO.md"
    || PathMatchesGlob(path, "docs/specialist-knowledge/*/INDEX.md")
    || IsUserStoryPath(path)
  }

  function NotExcluded(paths: seq<string>, mainMd: string): seq<string> {
    if paths == [] then []
    else
      var last := paths[|paths| - 1];
      NotExcluded(paths[..|paths| - 1], mainMd) + (if IsSymmetricExclusion(mainMd, last) then [] else [last])
  }

  function FilterDiffPaths(diff: seq<string>, mainMd: string): seq<string> {
    SortDedup(NotExcluded(diff, mainMd))
  }

  lemma {:induction false} NotExcludedMembers(paths: seq<string>, mainMd: string, x: string)
    ensures x in NotExcluded(paths, mainMd) <==> x in paths && !IsSymmetricExclusion(mainMd, x)
  {
    if paths != [] {
      NotExcludedMembers(paths[..|paths| - 1], mainMd, x);
      assert paths == paths[..|paths| - 1] + [paths[|paths| - 1]];
    }
  }

  /** The text between a prefix and a suffix, if it is free of slashes. */
  ghost predicate IsBetween(path: string, prefix: string, suffix: string) {
    exists name :: '/' !in name && path == prefix + name + suffix
  }

  /** What is excluded, without globs: the active main.md, the TODO list, the index of a
      specialist, and a user story. */
  lemma ExclusionMeaning(mainMd: string, path: string)
    requires '*' !in path
    ensures IsSymmetricExclusion(mainMd, path) <==>
            || path == mainMd
            || path == "docs/TODO.md"
            || IsBetween(path, "docs/specialist-knowledge/", "/INDEX.md")
            || IsBetween(path, "docs/user-stories/", ".md")
  {
    IndexMeaning(path);
    UserStoryMeaning(path);
  }

  lemma IndexMeaning(path: string)
    requires '*' !in path
    ensures PathMatchesGlob(path, "docs/specialist-knowledge/*/INDEX.md")
       <==> IsBetween(path, "docs/specialist-knowledge/", "/INDEX.md")
  {
    assert "docs/specialist-knowledge/*/INDEX.md" == "docs/specialist-knowledge/" + ("*" + "/INDEX.md");
    OneStarMeaning(path, "docs/specialist-knowledge/", "/INDEX.md");
  }

  lemma OneStarMeaning(path: string, prefix: string, suffix: string)
    requires '*' !in path && IsWord(prefix) && IsWord(suffix) && suffix != ""
    ensures PathMatchesGlob(path, prefix + ("*" + suffix)) <==> IsBetween(path, prefix, suffix)
  {
    var glob := prefix + ("*" + suffix);
    assert glob[|glob| - 1] == suffix[|suffix| - 1];
    if |glob| >= 3 { assert glob[|glob| - 3..][2] == glob[|glob| - 1]; }
    PathMatchesGlobMeaning(path, glob);
    if Matches(path, glob) { StarLeavesBetween(path, prefix, suffix); }
    if IsBetween(path, prefix, suffix) { BetweenMatchesStar(path, prefix, suffix); }
  }

  predicate IsWord(s: string) {
    '*' !in s && '?' !in s
  }

  lemma StarLeavesBetween(path: string, prefix: string, suffix: string)
    requires IsWord(prefix) && IsWord(suffix) && Matches(path, prefix + ("*" + suffix))
    ensures IsBetween(path, prefix, suffix)
  {
    var i := SplitMatch(path, prefix, "*" + suffix);
    TextMeansItself(path[..i], prefix);
    StarThenWord(path[i..], suffix);
    var name :| '/' !in name && path[i..] == name + suffix;
    assert path == prefix + (name + suffix) == prefix + name + suffix;
  }

  lemma StarThenWord(rest: string, suffix: string)
    requires IsWord(suffix) && Matches(rest, "*" + suffix)
    ensures exists name :: '/' !in name && rest == name + suffix
  {
    var j := SplitMatch(rest, "*", suffix);
    TextMeansItself(rest[j..], suffix);
    MeaningOfOneCharacter(rest[..j], 'c');
    assert rest == rest[..j] + suffix;
  }

  lemma BetweenMatchesStar(path: string, prefix: string, suffix: string)
    requires IsWord(prefix) && IsWord(suffix) && IsBetween(path, prefix, suffix)
    ensures Matches(path, prefix + ("*" + suffix))
  {
    var name :| '/' !in name && path == prefix + name + suffix;
    TextMeansItself(prefix, prefix);
    TextMeansItself(suffix, suffix);
    MeaningOfOneCharacter(name, 'c');
    JoinMatches(name, suffix, "*", suffix);
    JoinMatches(prefix, name + suffix, prefix, "*" + suffix);
    assert path == prefix + (name + suffix);
  }

  lemma UserStoryMeaning(path: string)
    ensures IsUserStoryPath(path) <==> IsBetween(path, "docs/user-stories/", ".md")
  {
    var dir, suffix := "docs/user-stories/", ".md";
    if IsUserStoryPath(path) {
      NoOverlap(path);
      BetweenIff(path, dir, suffix);
    }
    if IsBetween(path, dir, suffix) { BetweenIff(path, dir, suffix); }
  }

  /** The prefix ends in a slash, so the suffix lies behind it. */
  lemma NoOverlap(path: string)
    requires "docs/user-stories/" <= path && HasSuffix(path, ".md")
    ensures |path| >= 18 + 3
  {
    assert path[16] == 's' && path[17] == '/';
    assert path[|path| - 3..][0] == '.' && path[|path| - 3..][1] == 'm' && path[|path| - 3..][2] == 'd';
  }

  lemma BetweenIff(path: string, prefix: string, suffix: string)
    requires '/' !in suffix
    ensures IsBetween(path, prefix, suffix) <==>
            && |path| >= |prefix| + |suffix| && prefix <= path && HasSuffix(path, suffix)
            && '/' !in path[|prefix|..]
  {
    if |path| >= |prefix| + |suffix| && prefix <= path && HasSuffix(path, suffix) && '/' !in path[|prefix|..] {
      var rest := path[|prefix|..];
      var name := rest[..|rest| - |suffix|];
      assert forall c :: c in name ==> c in rest;
      assert path == prefix + rest && rest == name + rest[|rest| - |suffix|..];
      assert path == prefix + name + suffix;
    }
    if name :| '/' !in name && path == prefix + name + suffix {
      assert path[|prefix|..] == name + suffix && path[|path| - |suffix|..] == suffix;
    }
  }

  /** Neither side of the filtered comparison can name an excluded path, and the verdict
      depends on the set of changed paths only. */
  lemma FilteredReport(diff: seq<string>, diff': seq<string>, plan: seq<string>, exempt: set<string>, mainMd: string)
    requires forall e :: e in plan ==> !IsSymmetricExclusion(mainMd, e)
    requires forall x :: x in diff <==> x in diff'
    ensures forall x :: x in FilterDiffPaths(diff, mainMd) <==> x in diff && !IsSymmetricExclusion(mainMd, x)
    ensures forall f :: f in Report(FilterDiffPaths(diff, mainMd), plan, exempt) ==>
              !IsSymmetricExclusion(mainMd, f.path)
    ensures Report(FilterDiffPaths(diff, mainMd), plan, exempt)
         == Report(FilterDiffPaths(diff', mainMd), plan, exempt)
  {
    var changed := FilterDiffPaths(diff, mainMd);
    forall x ensures x in changed <==> x in diff && !IsSymmetricExclusion(mainMd, x) {
      NotExcludedMembers(diff, mainMd, x);
    }
    forall f | f in Report(changed, plan, exempt) ensures !IsSymmetricExclusion(mainMd, f.path) {
      ReportMembers(changed, plan, exempt, f);
      NotExcludedMembers(diff, mainMd, f.path);
    }
    forall x ensures x in changed <==> x in FilterDiffPaths(diff', mainMd) {
      NotExcludedMembers(diff, mainMd, x);
      NotExcludedMembers(diff', mainMd, x);
    }
    AscendingIsUnique(changed, FilterDiffPaths(diff', mainMd));
  }
}
