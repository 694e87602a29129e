/**
 Texts with server URLs in them, and what rewriting does to them piece by piece: the
 definitions and steps behind `Kubeconfig`.

 The source copies the text up to each occurrence of the pattern, writes the pattern with
 the new host and port, and skips the old token up to the next white space.  `Rewrite` is
 that as a function of the whole text.

 An old token can itself contain the start of another URL, which is then lost; `Swallowed`
 counts these, and `Separated` says of the text alone when there are none.
 */
module KubeconfigText {
  import opened Prelude

  const PATTERN: string := "server: https://"

  /** The Unicode White_Space property, as `char::is_whitespace` has it. */
  predicate IsWhitespace(c: char) {
    var n := c as int;
    || 9 <= n <= 13 || n == 32 || n == 0x85 || n == 0xA0 || n == 0x1680 || 0x2000 <= n <= 0x200A
    || n == 0x2028 || n == 0x2029 || n == 0x202F || n == 0x205F || n == 0x3000
  }

  /** First occurrence of the pattern. */
  function Find(s: string): (pos: Option<nat>)
    ensures pos.Some? ==> pos.value <= |s| && PATTERN <= s[pos.value..]
    ensures pos.Some? ==> forall k :: 0 <= k < pos.value ==> !(PATTERN <= s[k..])
    ensures pos.None? ==> forall k :: 0 <= k <= |s| ==> !(PATTERN <= s[k..])
  {
    if PATTERN <= s then Some(0)
    else if s == "" then None
    else
      var rest := Find(s[1..]);
      assert forall k :: 0 < k <= |s| ==> s[k..] == s[1..][k - 1..];
      if rest.Some? then Some(rest.value + 1) else None
  }

  /** Length of the run of characters before the first white space. */
  function TokenEnd(s: string): (n: nat)
    ensures n <= |s|
    ensures n < |s| ==> IsWhitespace(s[n])
    ensures forall k :: 0 <= k < n ==> !IsWhitespace(s[k])
  {
    if s == "" || IsWhitespace(s[0]) then 0 else 1 + TokenEnd(s[1..])
  }

  /** `s` with every `host:port` after the pattern, up to white space, replaced. */
  function Rewrite(s: string, target: string): string {
    if s == "" then ""
    else if PATTERN <= s then
      var after := s[|PATTERN|..];
      PATTERN + target + Rewrite(after[TokenEnd(after)..], target)
    else [s[0]] + Rewrite(s[1..], target)
  }

  function Target(host: string, port: nat): string {
    host + ":" + Decimal(port)
  }

  lemma {:induction false} RewriteSkips(s: string, n: nat, target: string)
    requires n <= |s| && forall k :: 0 <= k < n ==> !(PATTERN <= s[k..])
    ensures Rewrite(s, target) == s[..n] + Rewrite(s[n..], target)
  {
    assert s[0..] == s;
    if n == 0 {
    } else {
      var rest := s[1..];
      forall k | 0 <= k < n - 1 ensures !(PATTERN <= rest[k..]) {
        assert rest[k..] == s[k + 1..];
      }
      RewriteSkips(rest, n - 1, target);
      assert s == [s[0]] + rest;
      assert rest[n - 1..] == s[n..];
    }
  }

  // ---------------------------------------------------------------------------
  // Counting occurrences
  // ---------------------------------------------------------------------------

  /** Positions at which the pattern starts. */
  function Occurrences(s: string): nat {
    if s == "" then 0 else (if PATTERN <= s then 1 else 0) + Occurrences(s[1..])
  }

  /** Those among the first `n` positions. */
  function OccurrencesBefore(s: string, n: nat): nat
    requires n <= |s|
  {
    if n == 0 then 0 else (if PATTERN <= s then 1 else 0) + OccurrencesBefore(s[1..], n - 1)
  }

  /** Occurrences that start inside a `host:port` text which the rewriting discards. */
  function Swallowed(s: string): nat {
    if s == "" then 0
    else if PATTERN <= s then
      var after := s[|PATTERN|..];
      var end := TokenEnd(after);
      OccurrencesBefore(after, end) + Swallowed(after[end..])
    else Swallowed(s[1..])
  }

  lemma {:induction false} FindsIffOccurs(s: string)
    ensures Find(s).Some? <==> Occurrences(s) > 0
  {
    if s != "" { FindsIffOccurs(s[1..]); }
  }

  lemma {:induction false} SplitOccurrences(s: string, n: nat)
    requires n <= |s|
    ensures Occurrences(s) == OccurrencesBefore(s, n) + Occurrences(s[n..])
  {
    if n == 0 {
      assert s[0..] == s;
    } else {
      SplitOccurrences(s[1..], n - 1);
      assert s[1..][n - 1..] == s[n..];
    }
  }

  /** The pattern does not overlap itself: its first letter returns once, before a colon. */
  lemma NotWithinPattern(rest: string, j: nat)
    requires 0 < j < |PATTERN|
    ensures !(PATTERN <= PATTERN[j..] + rest)
  {
    var s := PATTERN[j..] + rest;
    assert s[0] == PATTERN[j];
    if j == 12 {
      assert s[1] == PATTERN[13] == ':';
      assert PATTERN[1] == 'e';
    } else {
      assert PATTERN[0] == 's';
      assert PATTERN[1..12] == "erver: http" && PATTERN[13..] == "://";
      assert j < 12 ==> PATTERN[j] == "erver: http"[j - 1];
      assert j > 12 ==> PATTERN[j] == "://"[j - 13];
    }
  }

  lemma {:induction false} NoOverlap(rest: string, j: nat)
    requires 0 < j <= |PATTERN|
    ensures Occurrences(PATTERN[j..] + rest) == Occurrences(rest)
    decreases |PATTERN| - j
  {
    var s := PATTERN[j..] + rest;
    if j == |PATTERN| {
      assert s == rest;
    } else {
      NoOverlap(rest, j + 1);
      assert s[1..] == PATTERN[j + 1..] + rest;
      NotWithinPattern(rest, j);
    }
  }

  /** What can replace a token without forming new occurrences: no white space inside,
      a digit at the end. */
  predicate IsTarget(t: string) {
    && t != "" && IsDigit(t[|t| - 1])
    && forall k :: 0 <= k < |t| ==> !IsWhitespace(t[k])
  }

  /** The rest of a text after a complete token. */
  predicate EndsToken(rest: string) {
    rest == "" || IsWhitespace(rest[0])
  }

  lemma {:induction false} NoneInTarget(t: string, rest: string)
    requires t == "" || IsTarget(t)
    requires EndsToken(rest)
    ensures Occurrences(t + rest) == Occurrences(rest)
  {
    if t == "" {
      assert t + rest == rest;
    } else {
      NoneInTarget(t[1..], rest);
      var s := t + rest;
      assert s[1..] == t[1..] + rest;
      NotAtTarget(t, rest);
    }
  }

  lemma NotAtTarget(t: string, rest: string)
    requires IsTarget(t) && EndsToken(rest)
    ensures !(PATTERN <= t + rest)
  {
    var s := t + rest;
    if |t| >= 8 {
      assert s[7] == t[7] && PATTERN[7] == ' ';
    } else {
      assert s[|t| - 1] == t[|t| - 1];
      assert !IsDigit(PATTERN[|t| - 1]);
    }
  }

  // ---------------------------------------------------------------------------
  // Rewriting creates no occurrence
  // ---------------------------------------------------------------------------

  lemma {:induction false} RewriteKeepsPrefix(s: string, target: string, n: nat)
    requires n <= |s| && n <= |PATTERN|
    ensures n <= |Rewrite(s, target)| && Rewrite(s, target)[..n] == s[..n]
  {
    if n == 0 {
    } else if PATTERN <= s {
      assert PATTERN <= Rewrite(s, target);
      assert s[..n] == PATTERN[..n] && Rewrite(s, target)[..n] == PATTERN[..n];
    } else {
      RewriteKeepsPrefix(s[1..], target, n - 1);
      assert Rewrite(s, target) == [s[0]] + Rewrite(s[1..], target);
      var tail := Rewrite(s[1..], target);
      assert ([s[0]] + s[1..])[..n] == [s[0]] + s[1..][..n - 1];
      assert ([s[0]] + tail)[..n] == [s[0]] + tail[..n - 1];
      assert s == [s[0]] + s[1..];
    }
  }

  lemma {:induction false} RewriteKeepsShort(s: string, target: string)
    requires |s| < |PATTERN|
    ensures Rewrite(s, target) == s
  {
    if s != "" { RewriteKeepsShort(s[1..], target); }
  }

  lemma NoNewOccurrence(s: string, target: string)
    requires s != "" && !(PATTERN <= s)
    ensures !(PATTERN <= [s[0]] + Rewrite(s[1..], target))
  {
    var r := [s[0]] + Rewrite(s[1..], target);
    assert r == Rewrite(s, target);
    if |s| < |PATTERN| {
      RewriteKeepsShort(s, target);
    } else {
      RewriteKeepsPrefix(s, target, |PATTERN|);
      assert s[..|PATTERN|] != PATTERN;
    }
  }

  lemma RewriteEndsToken(rest: string, target: string)
    requires EndsToken(rest)
    ensures EndsToken(Rewrite(rest, target))
  {
    if rest != "" { assert rest[0] != PATTERN[0]; }
  }

  // ---------------------------------------------------------------------------
  // Where the pattern occurs
  // ---------------------------------------------------------------------------

  /** At `i` the pattern is followed by the target, as a whole token. */
  predicate RetargetedAt(r: string, target: string, i: nat) {
    && i + |PATTERN| <= |r|
    && var after := r[i + |PATTERN|..]; after[..TokenEnd(after)] == target
  }

  predicate OccursAt(r: string, i: nat) {
    i <= |r| && PATTERN <= r[i..]
  }

  // ---------------------------------------------------------------------------
  // Separated URLs
  // ---------------------------------------------------------------------------

  ghost predicate HasSpace(s: string, from: nat, to: nat) {
    exists w :: from <= w < to && w < |s| && IsWhitespace(s[w])
  }

  /** Between the end of an occurrence and any later one there is white space. */
  ghost predicate Separated(s: string) {
    forall i: nat, j: nat :: i < j && OccursAt(s, i) && OccursAt(s, j) ==> HasSpace(s, i + |PATTERN|, j)
  }

  // ---------------------------------------------------------------------------
  // Tokens and occurrences in a rewritten text
  // ---------------------------------------------------------------------------

  lemma {:induction false} TokenEndAt(t: string, rest: string)
    requires EndsToken(rest) && forall k :: 0 <= k < |t| ==> !IsWhitespace(t[k])
    ensures TokenEnd(t + rest) == |t|
  {
    if t == "" {
      assert t + rest == rest;
    } else {
      TokenEndAt(t[1..], rest);
      assert (t + rest)[1..] == t[1..] + rest;
    }
  }

  lemma MatchCounts(rest: string)
    ensures Occurrences(PATTERN + rest) == 1 + Occurrences(rest)
  {
    var s := PATTERN + rest;
    assert s[1..] == PATTERN[1..] + rest;
    NoOverlap(rest, 1);
  }

  lemma RewriteTarget(first: string, tail: string, last: string)
    requires IsTarget(first) && EndsToken(tail)
    ensures Rewrite(PATTERN + first + tail, last) == PATTERN + last + Rewrite(tail, last)
  {
    var s := PATTERN + first + tail;
    assert s[|PATTERN|..] == first + tail;
    TokenEndAt(first, tail);
    assert (first + tail)[|first|..] == tail;
  }

  lemma RetargetedHere(target: string, tail: string)
    requires IsTarget(target) && EndsToken(tail)
    ensures RetargetedAt(PATTERN + target + tail, target, 0)
  {
    assert (PATTERN + target + tail)[0 + |PATTERN|..] == target + tail;
    TokenEndAt(target, tail);
  }

  lemma RetargetedBehind(front: string, r: string, target: string, i: nat)
    requires RetargetedAt(r, target, i)
    ensures RetargetedAt(front + r, target, |front| + i)
  {
    assert (front + r)[|front| + i + |PATTERN|..] == r[i + |PATTERN|..];
  }

  lemma RetargetedInTwo(target: string, tail: string, i: nat)
    requires IsTarget(target) && EndsToken(tail) && OccursAt(PATTERN + target + tail, i)
    requires i >= |PATTERN| + |target| && OccursAt(tail, i - |PATTERN| - |target|) ==>
               RetargetedAt(tail, target, i - |PATTERN| - |target|)
    ensures RetargetedAt(PATTERN + target + tail, target, i)
  {
    if i == 0 {
      RetargetedHere(target, tail);
    } else {
      OccursBehindToken(target, tail, i);
      RetargetedBehind(PATTERN + target, tail, target, i - |PATTERN| - |target|);
    }
  }

  lemma OccursBehind(front: string, tail: string, i: nat)
    requires OccursAt(front + tail, i)
    ensures i == 0 ==> PATTERN <= front + tail
    ensures i >= |front| ==> OccursAt(tail, i - |front|)
  {
    assert (front + tail)[0..] == front + tail;
    if i >= |front| { assert (front + tail)[i..] == tail[i - |front|..]; }
  }

  lemma OccursBehindToken(target: string, tail: string, i: nat)
    requires IsTarget(target) && EndsToken(tail) && i > 0 && OccursAt(PATTERN + target + tail, i)
    ensures i >= |PATTERN + target| && OccursAt(tail, i - |PATTERN + target|)
  {
    var front := PATTERN + target;
    if i < |front| {
      assert (front + tail)[i..] == front[i..] + tail;
      NowhereInside(target, tail, i);
    }
    OccursBehind(front, tail, i);
  }

  lemma NowhereInside(target: string, tail: string, i: nat)
    requires IsTarget(target) && EndsToken(tail) && 0 < i < |PATTERN| + |target|
    ensures !(PATTERN <= (PATTERN + target)[i..] + tail)
  {
    var s := (PATTERN + target)[i..] + tail;
    if i < |PATTERN| {
      NotWithinPattern(target + tail, i);
      assert s == PATTERN[i..] + (target + tail);
    } else {
      var t := target[i - |PATTERN|..];
      assert s == t + tail;
      NotAtTarget(t, tail);
    }
  }

  // ---------------------------------------------------------------------------
  // White space between occurrences
  // ---------------------------------------------------------------------------

  lemma Shift(s: string, n: nat, i: nat)
    requires n <= |s|
    ensures OccursAt(s, n + i) <==> OccursAt(s[n..], i)
  {
    if n + i <= |s| { assert s[n..][i..] == s[n + i..]; }
  }

  lemma TailSeparated(s: string, n: nat)
    requires n <= |s| && Separated(s)
    ensures Separated(s[n..])
  {
    forall i: nat, j: nat | i < j && OccursAt(s[n..], i) && OccursAt(s[n..], j)
      ensures HasSpace(s[n..], i + |PATTERN|, j)
    {
      Shift(s, n, i);
      Shift(s, n, j);
      assert HasSpace(s, n + i + |PATTERN|, n + j);
    }
  }

  lemma SeparatedInTail(s: string, n: nat, i: nat, j: nat)
    requires n <= i < j && n <= |s| && Separated(s[n..]) && OccursAt(s, i) && OccursAt(s, j)
    ensures HasSpace(s, i + |PATTERN|, j)
  {
    Shift(s, n, i - n);
    Shift(s, n, j - n);
  }

  ghost predicate NoneBetween(s: string, from: nat, to: nat) {
    forall i :: from <= i < to ==> !OccursAt(s, i)
  }

  lemma NoneShift(s: string, n: nat, from: nat, to: nat)
    requires n <= |s|
    ensures NoneBetween(s, n + from, n + to) <==> NoneBetween(s[n..], from, to)
  {
    forall i | from <= i < to ensures OccursAt(s, n + i) <==> OccursAt(s[n..], i) { Shift(s, n, i); }
    if NoneBetween(s[n..], from, to) {
      forall i | n + from <= i < n + to ensures !OccursAt(s, i) { assert !OccursAt(s[n..], i - n); }
    }
  }

  lemma {:induction false} CountedOccurs(s: string, n: nat) returns (k: nat)
    requires n <= |s| && OccurrencesBefore(s, n) > 0
    ensures k < n && OccursAt(s, k)
  {
    if PATTERN <= s {
      k := 0;
      assert s[0..] == s;
    } else {
      var j := CountedOccurs(s[1..], n - 1);
      k := j + 1;
      Shift(s, 1, j);
    }
  }

  lemma {:induction false} OccursCounted(s: string, n: nat, k: nat)
    requires k < n <= |s| && OccursAt(s, k)
    ensures OccurrencesBefore(s, n) > 0
  {
    if k == 0 {
      assert s[0..] == s;
    } else {
      Shift(s, 1, k - 1);
      OccursCounted(s[1..], n - 1, k - 1);
    }
  }

  lemma NoneBefore(s: string, n: nat)
    requires n <= |s|
    ensures OccurrencesBefore(s, n) == 0 <==> NoneBetween(s, 0, n)
  {
    if OccurrencesBefore(s, n) > 0 {
      var k := CountedOccurs(s, n);
    } else {
      forall k: nat | k < n ensures !OccursAt(s, k) {
        if OccursAt(s, k) { OccursCounted(s, n, k); }
      }
    }
  }

  /** No occurrence starts strictly inside the pattern at the head of the text. */
  lemma NotInsideHead(s: string, i: nat)
    requires PATTERN <= s && 0 < i < |PATTERN|
    ensures !OccursAt(s, i)
  {
    var rest := s[|PATTERN|..];
    assert s == PATTERN + rest;
    assert s[i..] == PATTERN[i..] + rest;
    NotWithinPattern(rest, i);
  }

  /** A URL at the head: its token ends at `n`. */
  lemma SeparatedAtUrl(s: string, n: nat)
    requires PATTERN <= s && n == |PATTERN| + TokenEnd(s[|PATTERN|..])
    ensures Separated(s) <==> NoneBetween(s, |PATTERN|, n) && Separated(s[n..])
  {
    assert s[0..] == s;
    if Separated(s) {
      TailSeparated(s, n);
      forall i: nat | |PATTERN| <= i < n ensures !OccursAt(s, i) {
        assert OccursAt(s, 0) && !HasSpace(s, 0 + |PATTERN|, i);
      }
    }
    if NoneBetween(s, |PATTERN|, n) && Separated(s[n..]) {
      forall i: nat, j: nat | i < j && OccursAt(s, i) && OccursAt(s, j) ensures HasSpace(s, i + |PATTERN|, j) {
        UrlIsHeadOrBehind(s, n, i);
        UrlIsHeadOrBehind(s, n, j);
        if i > 0 { SeparatedInTail(s, n, i, j); }
      }
    }
  }

  lemma UrlIsHeadOrBehind(s: string, n: nat, i: nat)
    requires PATTERN <= s && NoneBetween(s, |PATTERN|, n) && OccursAt(s, i)
    ensures i == 0 || i >= n
  {
    if 0 < i < |PATTERN| { NotInsideHead(s, i); }
  }

  lemma SeparatedBehind(s: string)
    requires s != "" && !(PATTERN <= s)
    ensures Separated(s) <==> Separated(s[1..])
  {
    assert s[0..] == s;
    if Separated(s) {
      TailSeparated(s, 1);
    } else if Separated(s[1..]) {
      var i: nat, j: nat :| i < j && OccursAt(s, i) && OccursAt(s, j) && !HasSpace(s, i + |PATTERN|, j);
      SeparatedInTail(s, 1, i, j);
    }
  }

  lemma SwallowedAtUrl(s: string, n: nat)
    requires PATTERN <= s && n == |PATTERN| + TokenEnd(s[|PATTERN|..])
    ensures Swallowed(s) == 0 <==> NoneBetween(s, |PATTERN|, n) && Swallowed(s[n..]) == 0
  {
    var after := s[|PATTERN|..];
    var end := TokenEnd(after);
    NoneBefore(after, end);
    NoneShift(s, |PATTERN|, 0, end);
    assert after[end..] == s[n..];
    assert Swallowed(s) == OccurrencesBefore(after, end) + Swallowed(after[end..]);
  }
}
