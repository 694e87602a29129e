/**
 Rewriting of the API server URLs in a kubeconfig (`rewrite_kubeconfig_server` in
 `commands.rs`).
 */
module Kubeconfig {
  import opened Prelude
  import opened KubeconfigText

  method RewriteKubeconfigServer(kubeconfig: string, host: string, port: nat) returns (r: Option<string>)
    ensures r.None? <==> Occurrences(kubeconfig) == 0
    ensures r.None? <==> forall i :: 0 <= i <= |kubeconfig| ==> !("server: https://" <= kubeconfig[i..])
    ensures r.Some? ==> r.value == Rewrite(kubeconfig, Target(host, port))
  {
    FindsIffOccurs(kubeconfig);
    if Find(kubeconfig).None? {
      return None;
    }
    var result, remaining := "", kubeconfig;
    var pos := Find(remaining);
    while pos.Some?
      invariant pos == Find(remaining)
      invariant result + Rewrite(remaining, Target(host, port)) == Rewrite(kubeconfig, Target(host, port))
      decreases |remaining|
    {
      RewriteSkips(remaining, pos.value, Target(host, port));
      assert remaining[pos.value..][|PATTERN|..] == remaining[pos.value + |PATTERN|..];
      ghost var before, here := result, remaining;
      result := result + remaining[..pos.value];
      var after := remaining[pos.value + |PATTERN|..];
      var end := TokenEnd(after);
      result := result + ("server: https://" + host + ":" + Decimal(port));
      remaining := after[end..];
      Regroup(before, here[..pos.value], host, port, Rewrite(remaining, Target(host, port)));
      pos := Find(remaining);
    }
    RewriteSkips(remaining, |remaining|, Target(host, port));
    result := result + remaining;
    r := Some(result);
  }

  lemma Regroup(a: string, b: string, host: string, port: nat, tail: string)
    ensures a + (b + (PATTERN + Target(host, port) + tail))
         == a + b + ("server: https://" + host + ":" + Decimal(port)) + tail
  {
    assert PATTERN + Target(host, port) == "server: https://" + host + ":" + Decimal(port);
  }

  /** Text without the pattern is left alone; otherwise the text before its first occurrence
      is kept, the token behind is replaced, and what follows is rewritten alike. */
  lemma FirstUrlRewritten(s: string, target: string, at: nat, end: nat)
    requires at + |PATTERN| <= end <= |s| && OccursAt(s, at) && forall k :: 0 <= k < at ==> !OccursAt(s, k)
    requires IsToken(s[at + |PATTERN|..end]) && EndsToken(s[end..])
    ensures Rewrite(s, target) == s[..at] + (PATTERN + target + Rewrite(s[end..], target))
  {
    RewriteSkipsTo(s, target, at);
    BehindPattern(s, at, |PATTERN|, end);
    UrlRewritten(s[at..], s[at + |PATTERN|..end], s[end..], target);
  }

  lemma RewriteSkipsTo(s: string, target: string, at: nat)
    requires at <= |s| && forall k :: 0 <= k < at ==> !OccursAt(s, k)
    ensures Rewrite(s, target) == s[..at] + Rewrite(s[at..], target)
  {
    forall k | 0 <= k < at ensures !(PATTERN <= s[k..]) { assert !OccursAt(s, k); }
    RewriteSkips(s, at, target);
  }

  lemma BehindPattern(s: string, at: nat, n: nat, end: nat)
    requires at + n <= end <= |s|
    ensures s[at..][n..] == s[at + n..end] + s[end..]
  {
  }

  lemma UrlRewritten(url: string, token: string, rest: string, target: string)
    requires PATTERN <= url && url[|PATTERN|..] == token + rest && IsToken(token) && EndsToken(rest)
    ensures Rewrite(url, target) == PATTERN + target + Rewrite(rest, target)
  {
    TokenEndAt(token, rest);
    assert (token + rest)[|token|..] == rest;
  }

  predicate IsToken(t: string) {
    forall k :: 0 <= k < |t| ==> !IsWhitespace(t[k])
  }

  lemma NothingToRewrite(s: string, target: string)
    requires forall k :: 0 <= k <= |s| ==> !OccursAt(s, k)
    ensures Rewrite(s, target) == s
  {
    RewriteSkipsTo(s, target, |s|);
    assert s[..|s|] == s;
  }

  lemma TargetIsTarget(host: string, port: nat)
    requires forall k :: 0 <= k < |host| ==> !IsWhitespace(host[k])
    ensures IsTarget(Target(host, port))
  {
    var t := Target(host, port);
    assert t == (host + ":") + Decimal(port);
    assert t[|t| - 1] == Decimal(port)[|Decimal(port)| - 1];
  }

  /** Rewriting again depends on the latest target alone.  With the same target it changes
      nothing; with the empty one it shows that all text outside the tokens is kept. */
  lemma {:induction false} LastTargetWins(s: string, first: string, last: string)
    requires IsTarget(first)
    ensures Rewrite(Rewrite(s, first), last) == Rewrite(s, last)
    decreases |s|
  {
    if s == "" {
    } else if PATTERN <= s {
      var after := s[|PATTERN|..];
      var rest := after[TokenEnd(after)..];
      LastTargetWins(rest, first, last);
      RewriteTarget(first, Rewrite(rest, first), last);
    } else {
      LastTargetWins(s[1..], first, last);
      NoNewOccurrence(s, first);
    }
  }

  /** In the result the target follows every occurrence of the pattern. */
  lemma {:induction false} EveryOccurrenceRetargeted(s: string, target: string, i: nat)
    requires IsTarget(target) && OccursAt(Rewrite(s, target), i)
    ensures RetargetedAt(Rewrite(s, target), target, i)
    decreases |s|
  {
    if s == "" {
    } else if PATTERN <= s {
      var after := s[|PATTERN|..];
      var rest := after[TokenEnd(after)..];
      var tail := Rewrite(rest, target);
      assert Rewrite(s, target) == PATTERN + target + tail;
      RewriteEndsToken(rest, target);
      if i >= |PATTERN| + |target| && OccursAt(tail, i - |PATTERN| - |target|) {
        EveryOccurrenceRetargeted(rest, target, i - |PATTERN| - |target|);
      }
      RetargetedInTwo(target, tail, i);
    } else {
      var tail := Rewrite(s[1..], target);
      assert Rewrite(s, target) == [s[0]] + tail;
      NoNewOccurrence(s, target);
      OccursBehind([s[0]], tail, i);
      EveryOccurrenceRetargeted(s[1..], target, i - 1);
      RetargetedBehind([s[0]], tail, target, i - 1);
    }
  }

  /** The result has one occurrence less for every occurrence inside a discarded token. */
  lemma {:induction false} OccurrenceBalance(s: string, target: string)
    requires IsTarget(target)
    ensures Occurrences(Rewrite(s, target)) + Swallowed(s) == Occurrences(s)
    decreases |s|
  {
    if s == "" {
    } else if PATTERN <= s {
      var after := s[|PATTERN|..];
      var end := TokenEnd(after);
      var rest := after[end..];
      OccurrenceBalance(rest, target);
      assert s == PATTERN + after;
      MatchCounts(after);
      SplitOccurrences(after, end);
      var tail := Rewrite(rest, target);
      MatchCounts(target + tail);
      assert PATTERN + target + tail == PATTERN + (target + tail);
      NoneInTarget(target, tail);
    } else {
      OccurrenceBalance(s[1..], target);
      NoNewOccurrence(s, target);
      assert Rewrite(s, target)[1..] == Rewrite(s[1..], target);
    }
  }

  /** An occurrence is swallowed exactly when some occurrence follows another one without
      white space in between. */
  lemma {:induction false} NothingSwallowedIffSeparated(s: string)
    ensures Swallowed(s) == 0 <==> Separated(s)
    decreases |s|
  {
    if s == "" {
    } else if PATTERN <= s {
      var n := |PATTERN| + TokenEnd(s[|PATTERN|..]);
      NothingSwallowedIffSeparated(s[n..]);
      SwallowedAtUrl(s, n);
      SeparatedAtUrl(s, n);
    } else {
      NothingSwallowedIffSeparated(s[1..]);
      SeparatedBehind(s);
    }
  }

  /** The number of server URLs is kept exactly when every URL is followed by white space
      before the next one. */
  lemma CountKeptIff(s: string, host: string, port: nat)
    requires forall k :: 0 <= k < |host| ==> !IsWhitespace(host[k])
    ensures Occurrences(Rewrite(s, Target(host, port))) == Occurrences(s) <==> Separated(s)
    ensures Occurrences(Rewrite(s, Target(host, port))) == Occurrences(s) <==> Swallowed(s) == 0
  {
    TargetIsTarget(host, port);
    OccurrenceBalance(s, Target(host, port));
    NothingSwallowedIffSeparated(s);
  }

  /** An old token that ends in `server:` hides the URL behind it. */
  lemma DoubledUrlIsSwallowed(host: string)
    ensures Swallowed(PATTERN + (PATTERN + host)) > 0
  {
    var after := PATTERN + host;
    var s := PATTERN + after;
    assert s[|PATTERN|..] == after;
    assert after == "server:" + (" https://" + host);
    TokenEndAt("server:", " https://" + host);
  }
}
