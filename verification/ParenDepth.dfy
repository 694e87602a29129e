/**
 Parenthesis depth and balanced text: the definitions and steps behind `ParenWalk`.

 The walkers count depth: up at an opening parenthesis, down at a closing one.  A closing
 parenthesis matches an opening one when the depth returns to zero there for the first
 time.

 `Balanced` says the same by a grammar, B ::= empty | c B | ( B ) B.  The lemmas lead from
 one to the other: balanced text has depth zero and never goes below it, and text with
 these two properties is balanced.

 Both directions split the text at the close of its first parenthesis.
 */
module ParenDepth {
  import opened Prelude

  const OPEN: byte := 40

  const CLOSE: byte := 41

  function Delta(b: byte): int {
    if b == OPEN then 1 else if b == CLOSE then -1 else 0
  }

  function Depth(s: bytes): int {
    if s == [] then 0 else Depth(s[..|s| - 1]) + Delta(s[|s| - 1])
  }

  /** `close` is where the call opened at `open` ends. */
  predicate IsMatchingClose(s: bytes, open: nat, close: nat) {
    && open < close < |s|
    && s[open] == OPEN && s[close] == CLOSE
    && Depth(s[open..close + 1]) == 0
    && forall k :: open < k <= close ==> Depth(s[open..k]) > 0
  }

  ghost predicate Closed(s: bytes, open: nat) {
    exists close :: IsMatchingClose(s, open, close)
  }

  lemma DepthStep(s: bytes, open: nat, i: nat)
    requires open <= i < |s|
    ensures Depth(s[open..i + 1]) == Depth(s[open..i]) + Delta(s[i])
  {
    assert s[open..i + 1][..i - open] == s[open..i];
  }

  // ---------------------------------------------------------------------------
  // The grammar  B ::= empty | c B | ( B ) B
  // ---------------------------------------------------------------------------

  predicate Balanced(t: bytes)
    decreases |t|
  {
    || t == []
    || (t[0] != OPEN && t[0] != CLOSE && Balanced(t[1..]))
    || (t[0] == OPEN && exists k :: 0 < k < |t| && t[k] == CLOSE && Balanced(t[1..k]) && Balanced(t[k + 1..]))
  }

  lemma {:induction false} DepthConcat(a: bytes, b: bytes)
    ensures Depth(a + b) == Depth(a) + Depth(b)
    decreases |b|
  {
    if b == [] {
      assert a + b == a;
    } else {
      DepthConcat(a, b[..|b| - 1]);
      assert (a + b)[..|a + b| - 1] == a + b[..|b| - 1];
    }
  }

  predicate NeverBelowZero(t: bytes) {
    forall k :: 0 <= k <= |t| ==> Depth(t[..k]) >= 0
  }

  lemma {:induction false} BalancedDepth(t: bytes)
    requires Balanced(t)
    ensures Depth(t) == 0 && NeverBelowZero(t)
    decreases |t|
  {
    if t == [] {
    } else if t[0] != OPEN {
      BalancedDepth(t[1..]);
      PlainDepth(t[0]);
      SplitDepth([t[0]], t[1..], t);
    } else {
      var k :| 0 < k < |t| && t[k] == CLOSE && Balanced(t[1..k]) && Balanced(t[k + 1..]);
      BalancedDepth(t[1..k]);
      BalancedDepth(t[k + 1..]);
      CallThenRest(t, k);
    }
  }

  lemma PlainDepth(b: byte)
    requires Delta(b) == 0
    ensures Depth([b]) == 0 && NeverBelowZero([b])
  {
    assert Depth([b]) == Depth([b][..0]) + Delta(b);
    assert [b][..1] == [b];
  }

  lemma CallThenRest(t: bytes, k: nat)
    requires 0 < k < |t| && t[0] == OPEN && t[k] == CLOSE
    requires Depth(t[1..k]) == 0 && NeverBelowZero(t[1..k]) && Depth(t[k + 1..]) == 0 && NeverBelowZero(t[k + 1..])
    ensures Depth(t) == 0 && NeverBelowZero(t)
  {
    CallDepth(t[1..k]);
    assert t == ([OPEN] + t[1..k] + [CLOSE]) + t[k + 1..];
    SplitDepth([OPEN] + t[1..k] + [CLOSE], t[k + 1..], t);
  }

  lemma SplitDepth(a: bytes, b: bytes, t: bytes)
    requires t == a + b && Depth(a) == 0 && NeverBelowZero(a) && Depth(b) == 0 && NeverBelowZero(b)
    ensures Depth(t) == 0 && NeverBelowZero(t)
  {
    DepthConcat(a, b);
    forall k | 0 <= k <= |t| ensures Depth(t[..k]) >= 0 {
      if k <= |a| {
        assert t[..k] == a[..k];
      } else {
        assert t[..k] == a + b[..k - |a|];
        DepthConcat(a, b[..k - |a|]);
      }
    }
  }

  lemma CallDepth(body: bytes)
    requires Depth(body) == 0 && NeverBelowZero(body)
    ensures var call := [OPEN] + body + [CLOSE];
            && Depth(call) == 0 && NeverBelowZero(call)
            && forall k :: 0 < k < |call| ==> Depth(call[..k]) > 0
  {
    var call := [OPEN] + body + [CLOSE];
    assert Depth([OPEN]) == 1;
    forall k | 0 < k < |call| ensures Depth(call[..k]) > 0 {
      assert call[..k] == [OPEN] + body[..k - 1];
      DepthConcat([OPEN], body[..k - 1]);
    }
    assert call[..|call| - 1] == [OPEN] + body && body[..|body|] == body;
    DepthConcat([OPEN], body);
    assert call[..|call|] == call;
  }

  lemma {:induction false} DepthBalanced(t: bytes)
    requires Depth(t) == 0 && NeverBelowZero(t)
    ensures Balanced(t)
    decreases |t|
  {
    if t == [] {
    } else {
      assert t[..1] == [t[0]] && t[..|t|] == t;
      DepthOne(t[0]);
      assert t[0] != CLOSE;
      if t[0] != OPEN {
        DepthAfter(t, 1);
        DepthBalanced(t[1..]);
      } else {
        var k := FirstReturn(t, |t|);
        DepthAfter(t, k + 1);
        DepthWithin(t, k);
        DepthBalanced(t[1..k]);
        DepthBalanced(t[k + 1..]);
      }
    }
  }

  lemma DepthOne(b: byte)
    ensures Depth([b]) == Delta(b)
  {
    assert Depth([b]) == Depth([b][..0]) + Delta(b);
  }

  /** After a prefix of depth zero. */
  lemma DepthAfter(t: bytes, n: nat)
    requires n <= |t| && Depth(t) == 0 && NeverBelowZero(t) && Depth(t[..n]) == 0
    ensures Depth(t[n..]) == 0 && NeverBelowZero(t[n..])
  {
    var rest := t[n..];
    assert t == t[..n] + rest;
    DepthConcat(t[..n], rest);
    forall j | 0 <= j <= |rest| ensures Depth(rest[..j]) >= 0 {
      assert t[..n + j] == t[..n] + rest[..j];
      DepthConcat(t[..n], rest[..j]);
    }
  }

  /** Between a first parenthesis and the first return to depth zero. */
  lemma DepthWithin(t: bytes, k: nat)
    requires 0 < k < |t| && t[0] == OPEN && t[k] == CLOSE && Depth(t[..k + 1]) == 0
    requires forall j :: 0 < j <= k ==> Depth(t[..j]) > 0
    ensures Depth(t[1..k]) == 0 && NeverBelowZero(t[1..k])
  {
    var body := t[1..k];
    DepthOne(OPEN);
    forall j | 0 <= j <= |body| ensures Depth(body[..j]) == Depth(t[..j + 1]) - 1 {
      assert t[..j + 1] == [OPEN] + body[..j];
      DepthConcat([OPEN], body[..j]);
    }
    assert body[..|body|] == body;
    assert t[..k + 1][..k] == t[..k];
  }

  /** Where the depth of a text that starts with `(` first returns to zero. */
  lemma {:induction false} FirstReturn(t: bytes, n: nat) returns (k: nat)
    requires 0 < n <= |t| && t[0] == OPEN && Depth(t[..n]) == 0 && NeverBelowZero(t)
    ensures 0 < k < |t| && t[k] == CLOSE && Depth(t[..k + 1]) == 0
    ensures forall j :: 0 < j <= k ==> Depth(t[..j]) > 0
    decreases n
  {
    assert t[..1] == [OPEN] && Depth([OPEN]) == 1;
    if m :| 0 < m < n && Depth(t[..m]) == 0 {
      k := FirstReturn(t, m);
    } else {
      k := n - 1;
      assert t[..n][..k] == t[..k];
      assert Depth(t[..k]) >= 0;
    }
  }

  lemma DepthOfBody(s: bytes, open: nat, close: nat)
    requires IsMatchingClose(s, open, close)
    ensures Depth(s[open + 1..close]) == 0 && NeverBelowZero(s[open + 1..close])
  {
    var body := s[open + 1..close];
    assert Depth([OPEN]) == 1;
    forall j | 0 <= j <= |body| ensures Depth(body[..j]) == Depth(s[open..open + 1 + j]) - 1 {
      assert s[open..open + 1 + j] == [OPEN] + body[..j];
      DepthConcat([OPEN], body[..j]);
    }
    assert body[..|body|] == body;
    DepthStep(s, open, close);
  }
}
