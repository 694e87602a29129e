/**
 The lists of the drift check and what is in them: the definitions and steps behind
 `ScopeDrift`.

 The source filters the diff (`Kept`), replaces plan entries with glob characters by the
 changed paths they match (`ExpandAll`), sorts, and compares the two lists (`Inbound`,
 `Untouched`).  Each list is a function of its inputs here.

 For each of them there is a lemma about its members, one about how often a member occurs
 where that matters, and one about their order.

 `Less` is the order of the sort.
 */
module ScopeLists {
  import opened Glob

  datatype Finding = InboundDrift(path: string) | PlannedUntouched(path: string)

  // ---------------------------------------------------------------------------
  // The order of the sort
  // ---------------------------------------------------------------------------

  predicate Less(a: string, b: string) {
    b != "" && (a == "" || a[0] < b[0] || (a[0] == b[0] && Less(a[1..], b[1..])))
  }

  lemma {:induction false} LessTotal(a: string, b: string)
    ensures Less(a, b) || a == b || Less(b, a)
    ensures !(Less(a, b) && Less(b, a)) && !Less(a, a)
  {
    if a != "" && b != "" {
      LessTotal(a[1..], b[1..]);
      assert a == [a[0]] + a[1..] && b == [b[0]] + b[1..];
    }
    if a != "" { LessTotal(a[1..], a[1..]); }
  }

  lemma {:induction false} LessTransitive(a: string, b: string, c: string)
    requires Less(a, b) && Less(b, c)
    ensures Less(a, c)
  {
    if a != "" && a[0] == b[0] == c[0] {
      LessTransitive(a[1..], b[1..], c[1..]);
    }
  }

  predicate Ascending(s: seq<string>) {
    forall i, j :: 0 <= i < j < |s| ==> Less(s[i], s[j])
  }

  function Insert(x: string, s: seq<string>): (r: seq<string>)
    requires Ascending(s)
    ensures Ascending(r)
    ensures forall y :: y in r <==> y == x || y in s
  {
    if s == [] then [x]
    else if x == s[0] then s
    else if Less(x, s[0]) then
      assert Ascending([x] + s) by {
        forall j | 0 <= j < |s| ensures Less(x, s[j]) {
          if j > 0 { LessTransitive(x, s[0], s[j]); }
        }
      }
      [x] + s
    else
      LessTotal(x, s[0]);
      var rest := Insert(x, s[1..]);
      assert forall y :: y in rest ==> Less(s[0], y);
      [s[0]] + rest
  }

  lemma TailMembers(s: seq<string>, x: string)
    requires s != [] && Ascending(s)
    ensures x in s[1..] <==> x in s && x != s[0]
  {
    if x in s[1..] {
      var i :| 0 <= i < |s| - 1 && s[1..][i] == x;
      LessTotal(s[0], s[i + 1]);
    }
  }

  // ---------------------------------------------------------------------------
  // The lists
  // ---------------------------------------------------------------------------

  predicate HasGlobChar(entry: string) {
    '*' in entry || '?' in entry || '[' in entry
  }

  function Kept(paths: seq<string>, exempt: set<string>): seq<string> {
    if paths == [] then []
    else
      var last := paths[|paths| - 1];
      Kept(paths[..|paths| - 1], exempt) + (if last in exempt then [] else [last])
  }

  function MatchedBy(entry: string, diff: seq<string>): seq<string> {
    if diff == [] then []
    else
      var last := diff[|diff| - 1];
      MatchedBy(entry, diff[..|diff| - 1]) + (if PathMatchesGlob(last, entry) then [last] else [])
  }

  function Expand(entry: string, diff: seq<string>): seq<string> {
    if HasGlobChar(entry) && MatchedBy(entry, diff) != [] then MatchedBy(entry, diff) else [entry]
  }

  function ExpandAll(plan: seq<string>, diff: seq<string>, exempt: set<string>): seq<string> {
    if plan == [] then []
    else
      var last := plan[|plan| - 1];
      ExpandAll(plan[..|plan| - 1], diff, exempt) + (if last in exempt then [] else Expand(last, diff))
  }

  function Inbound(diff: seq<string>, expanded: seq<string>): seq<Finding> {
    if diff == [] then []
    else
      var last := diff[|diff| - 1];
      Inbound(diff[..|diff| - 1], expanded) + (if last in expanded then [] else [InboundDrift(last)])
  }

  function Untouched(expanded: seq<string>, diff: seq<string>): seq<Finding> {
    if expanded == [] then []
    else
      var last := expanded[|expanded| - 1];
      Untouched(expanded[..|expanded| - 1], diff) + (if last in diff then [] else [PlannedUntouched(last)])
  }

  // ---------------------------------------------------------------------------
  // Members
  // ---------------------------------------------------------------------------

  lemma {:induction false} KeptMembers(paths: seq<string>, exempt: set<string>, x: string)
    ensures x in Kept(paths, exempt) <==> x in paths && x !in exempt
  {
    if paths != [] {
      KeptMembers(paths[..|paths| - 1], exempt, x);
      assert paths == paths[..|paths| - 1] + [paths[|paths| - 1]];
    }
  }

  lemma {:induction false} MatchedByMembers(entry: string, diff: seq<string>, x: string)
    ensures x in MatchedBy(entry, diff) <==> x in diff && PathMatchesGlob(x, entry)
  {
    if diff != [] {
      MatchedByMembers(entry, diff[..|diff| - 1], x);
      assert diff == diff[..|diff| - 1] + [diff[|diff| - 1]];
    }
  }

  lemma {:induction false} ExpandAllMembers(plan: seq<string>, diff: seq<string>, exempt: set<string>, x: string)
    ensures x in ExpandAll(plan, diff, exempt) <==> exists e :: e in plan && e !in exempt && x in Expand(e, diff)
  {
    if plan != [] {
      var init, last := plan[..|plan| - 1], plan[|plan| - 1];
      ExpandAllMembers(init, diff, exempt, x);
      assert plan == init + [last];
    }
  }

  lemma {:induction false} InboundMembers(diff: seq<string>, expanded: seq<string>, f: Finding)
    ensures f in Inbound(diff, expanded) <==> f.InboundDrift? && f.path in diff && f.path !in expanded
  {
    if diff != [] {
      InboundMembers(diff[..|diff| - 1], expanded, f);
      assert diff == diff[..|diff| - 1] + [diff[|diff| - 1]];
    }
  }

  lemma {:induction false} UntouchedMembers(expanded: seq<string>, diff: seq<string>, f: Finding)
    ensures f in Untouched(expanded, diff) <==> f.PlannedUntouched? && f.path in expanded && f.path !in diff
  {
    if expanded != [] {
      UntouchedMembers(expanded[..|expanded| - 1], diff, f);
      assert expanded == expanded[..|expanded| - 1] + [expanded[|expanded| - 1]];
    }
  }

  // ---------------------------------------------------------------------------
  // Multiplicities
  // ---------------------------------------------------------------------------

  lemma FindingCounts(diff: seq<string>, expanded: seq<string>, path: string)
    requires Ascending(expanded)
    ensures var r := Inbound(diff, expanded) + Untouched(expanded, diff);
            && (InboundDrift(path) in r ==> multiset(r)[InboundDrift(path)] == multiset(diff)[path])
            && multiset(r)[PlannedUntouched(path)] <= 1
  {
    var a, b := Inbound(diff, expanded), Untouched(expanded, diff);
    assert multiset(a + b) == multiset(a) + multiset(b);
    InboundMembers(diff, expanded, InboundDrift(path));
    UntouchedMembers(expanded, diff, InboundDrift(path));
    InboundMembers(diff, expanded, PlannedUntouched(path));
    if path !in expanded { InboundCounts(diff, expanded, path); }
    UntouchedOnce(expanded, diff, path);
  }

  lemma {:induction false} KeptCounts(paths: seq<string>, exempt: set<string>, x: string)
    requires x !in exempt
    ensures multiset(Kept(paths, exempt))[x] == multiset(paths)[x]
  {
    if paths != [] {
      KeptCounts(paths[..|paths| - 1], exempt, x);
      assert paths == paths[..|paths| - 1] + [paths[|paths| - 1]];
    }
  }

  lemma {:induction false} InboundCounts(diff: seq<string>, expanded: seq<string>, x: string)
    requires x !in expanded
    ensures multiset(Inbound(diff, expanded))[InboundDrift(x)] == multiset(diff)[x]
  {
    if diff != [] {
      InboundCounts(diff[..|diff| - 1], expanded, x);
      assert diff == diff[..|diff| - 1] + [diff[|diff| - 1]];
    }
  }

  lemma {:induction false} UntouchedOnce(expanded: seq<string>, diff: seq<string>, x: string)
    requires Ascending(expanded)
    ensures multiset(Untouched(expanded, diff))[PlannedUntouched(x)] <= if x in expanded then 1 else 0
  {
    if expanded != [] {
      var n := |expanded| - 1;
      UntouchedOnce(expanded[..n], diff, x);
      assert expanded == expanded[..n] + [expanded[n]];
      LastIsNew(expanded);
    }
  }

  lemma LastIsNew(s: seq<string>)
    requires Ascending(s) && s != []
    ensures s[|s| - 1] !in s[..|s| - 1]
  {
    forall k | 0 <= k < |s| - 1 ensures s[k] != s[|s| - 1] {
      LessTotal(s[k], s[|s| - 1]);
    }
  }

  // ---------------------------------------------------------------------------
  // Order
  // ---------------------------------------------------------------------------

  /** `x` occurs in the list before some occurrence of `y`. */
  ghost predicate Before(s: seq<string>, x: string, y: string) {
    exists p, q :: 0 <= p < q < |s| && s[p] == x && s[q] == y
  }

  lemma BeforeLast(init: seq<string>, last: string, x: string)
    requires x in init
    ensures Before(init + [last], x, last)
  {
    var p :| 0 <= p < |init| && init[p] == x;
    assert (init + [last])[p] == x && (init + [last])[|init|] == last;
  }

  lemma BeforeMore(init: seq<string>, last: string, x: string, y: string)
    requires Before(init, x, y)
    ensures Before(init + [last], x, y)
  {
    var p, q :| 0 <= p < q < |init| && init[p] == x && init[q] == y;
    assert (init + [last])[p] == x && (init + [last])[q] == y;
  }

  lemma {:induction false} KeptInOrder(paths: seq<string>, exempt: set<string>, i: nat, j: nat)
    requires i < j < |Kept(paths, exempt)|
    ensures Before(paths, Kept(paths, exempt)[i], Kept(paths, exempt)[j])
  {
    var init, last := paths[..|paths| - 1], paths[|paths| - 1];
    var kept := Kept(init, exempt);
    assert paths == init + [last];
    if j < |kept| {
      KeptInOrder(init, exempt, i, j);
      BeforeMore(init, last, kept[i], kept[j]);
    } else {
      KeptMembers(init, exempt, kept[i]);
      BeforeLast(init, last, kept[i]);
    }
  }

  lemma {:induction false} InboundInOrder(diff: seq<string>, expanded: seq<string>, i: nat, j: nat)
    requires i < j < |Inbound(diff, expanded)|
    ensures Before(diff, Inbound(diff, expanded)[i].path, Inbound(diff, expanded)[j].path)
  {
    var init, last := diff[..|diff| - 1], diff[|diff| - 1];
    var found := Inbound(init, expanded);
    assert diff == init + [last];
    if j < |found| {
      InboundInOrder(init, expanded, i, j);
      BeforeMore(init, last, found[i].path, found[j].path);
    } else {
      InboundMembers(init, expanded, found[i]);
      BeforeLast(init, last, found[i].path);
    }
  }

  lemma FindingsOrder(diff: seq<string>, expanded: seq<string>, i: nat, j: nat)
    requires Ascending(expanded) && i < j < |Inbound(diff, expanded) + Untouched(expanded, diff)|
    ensures var r := Inbound(diff, expanded) + Untouched(expanded, diff);
            && (r[i].PlannedUntouched? ==> r[j].PlannedUntouched? && Less(r[i].path, r[j].path))
            && (r[j].InboundDrift? ==> r[i].InboundDrift? && Before(diff, r[i].path, r[j].path))
  {
    var a, b := Inbound(diff, expanded), Untouched(expanded, diff);
    if i < |a| { InboundMembers(diff, expanded, a[i]); }
    if j < |a| {
      InboundMembers(diff, expanded, a[j]);
      InboundInOrder(diff, expanded, i, j);
    } else {
      UntouchedMembers(expanded, diff, b[j - |a|]);
      if i >= |a| { UntouchedAscending(expanded, diff, i - |a|, j - |a|); }
    }
  }

  lemma {:induction false} UntouchedAscending(expanded: seq<string>, diff: seq<string>, i: nat, j: nat)
    requires Ascending(expanded) && i < j < |Untouched(expanded, diff)|
    ensures Less(Untouched(expanded, diff)[i].path, Untouched(expanded, diff)[j].path)
  {
    var n := |expanded| - 1;
    var init, last := expanded[..n], expanded[n];
    var u := Untouched(init, diff);
    if j < |u| {
      UntouchedAscending(init, diff, i, j);
    } else {
      UntouchedMembers(init, diff, u[i]);
      var k :| 0 <= k < n && init[k] == u[i].path;
      assert expanded[k] == init[k];
    }
  }

  // ---------------------------------------------------------------------------
  // Acting on a report
  // ---------------------------------------------------------------------------

  function InboundPaths(report: seq<Finding>): seq<string> {
    if report == [] then []
    else
      InboundPaths(report[..|report| - 1]) +
      (var f := report[|report| - 1]; if f.InboundDrift? then [f.path] else [])
  }

  function DropUntouched(plan: seq<string>, report: seq<Finding>): seq<string> {
    if plan == [] then []
    else
      var last := plan[|plan| - 1];
      DropUntouched(plan[..|plan| - 1], report) +
      (if PlannedUntouched(last) in report then [] else [last])
  }

  lemma {:induction false} InboundPathsMembers(report: seq<Finding>, x: string)
    ensures x in InboundPaths(report) <==> InboundDrift(x) in report
  {
    if report != [] {
      InboundPathsMembers(report[..|report| - 1], x);
      assert report == report[..|report| - 1] + [report[|report| - 1]];
    }
  }

  lemma {:induction false} DropUntouchedMembers(plan: seq<string>, report: seq<Finding>, x: string)
    ensures x in DropUntouched(plan, report) <==> x in plan && PlannedUntouched(x) !in report
  {
    if plan != [] {
      DropUntouchedMembers(plan[..|plan| - 1], report, x);
      assert plan == plan[..|plan| - 1] + [plan[|plan| - 1]];
    }
  }
}
