/** The two balanced-parenthesis walkers over PromQL (`alert_rules.rs`, `dashboard_panels.rs`). */
module ParenWalk {
  import opened Prelude
  import opened Utf8
  import opened ParenDepth

  // Positions of function calls and the words and ranges inside a span come from regular
  // expressions; here they are parameters.

  lemma MatchingCloseIsUnique(s: bytes, open: nat, c: nat, d: nat)
    requires IsMatchingClose(s, open, c) && IsMatchingClose(s, open, d)
    ensures c == d
  {
  }

  // ---------------------------------------------------------------------------
  // The matching close in terms of the grammar  B ::= empty | c B | ( B ) B
  // ---------------------------------------------------------------------------

  lemma MatchingCloseIffBalancedBody(s: bytes, open: nat, close: nat)
    ensures IsMatchingClose(s, open, close) <==>
            open < close < |s| && s[open] == OPEN && s[close] == CLOSE && Balanced(s[open + 1..close])
  {
    if open < close < |s| && s[open] == OPEN && s[close] == CLOSE {
      var body := s[open + 1..close];
      var call := [OPEN] + body + [CLOSE];
      assert s[open..close + 1] == call;
      if Balanced(body) {
        BalancedDepth(body);
        CallDepth(body);
        forall k | open < k <= close ensures Depth(s[open..k]) > 0 {
          assert s[open..k] == call[..k - open];
        }
      } else if IsMatchingClose(s, open, close) {
        DepthOfBody(s, open, close);
        DepthBalanced(body);
        assert false;
      }
    }
  }

  // ---------------------------------------------------------------------------
  // alert_rules.rs: walk from the parenthesis, stop at depth zero
  // ---------------------------------------------------------------------------

  method FindClose(expr: bytes, open: nat) returns (end: Option<nat>)
    requires open < |expr| && expr[open] == OPEN
    ensures end.Some? ==> IsMatchingClose(expr, open, end.value)
    ensures end.None? ==> !Closed(expr, open)
  {
    var depth := 0;
    end := None;
    var i := open;
    while i < |expr|
      invariant open <= i <= |expr|
      invariant depth == Depth(expr[open..i])
      invariant forall k :: open < k <= i ==> Depth(expr[open..k]) > 0
    {
      DepthStep(expr, open, i);
      if expr[i] == OPEN {
        depth := depth + 1;
      } else if expr[i] == CLOSE {
        depth := depth - 1;
        if depth == 0 {
          return Some(i);
        }
      }
      i := i + 1;
    }
    forall close: nat ensures !IsMatchingClose(expr, open, close) {
      if open < close < |expr| { assert Depth(expr[open..close + 1]) > 0; }
    }
  }

  const MIN_EXPR_WINDOW_SECONDS: nat := 30

  /** The call opened at `open` is closed and holds a range selector of `secs` seconds. */
  ghost predicate HasRange(expr: bytes, open: nat, ranges: bytes -> seq<Option<nat>>, secs: nat) {
    exists close: nat :: IsMatchingClose(expr, open, close) && Some(secs) in ranges(expr[open + 1..close])
  }

  /** Some call holds a range selector of `secs` seconds, and that is long enough. */
  ghost predicate Qualifies(expr: bytes, calls: seq<nat>, ranges: bytes -> seq<Option<nat>>, secs: nat) {
    secs >= 30 && exists i :: 0 <= i < |calls| && HasRange(expr, calls[i], ranges, secs)
  }

  /** `calls` are the positions of the parentheses that end the function-name matches,
      `ranges` the range selectors of a text with the seconds they parse to. */
  method FindQualifyingExprWindow(expr: bytes, calls: seq<nat>, ranges: bytes -> seq<Option<nat>>)
    returns (best: Option<nat>)
    requires forall i :: 0 <= i < |calls| ==> calls[i] < |expr| && expr[calls[i]] == OPEN
    ensures best.Some? ==> Qualifies(expr, calls, ranges, best.value)
    ensures best.Some? ==> forall secs: nat :: Qualifies(expr, calls, ranges, secs) ==> secs <= best.value
    ensures best.None? ==> forall secs: nat :: !Qualifies(expr, calls, ranges, secs)
  {
    best := None;
    for i := 0 to |calls|
      invariant best.Some? ==> Qualifies(expr, calls, ranges, best.value)
      invariant forall k, secs: nat ::
                  0 <= k < i && HasRange(expr, calls[k], ranges, secs) && secs >= MIN_EXPR_WINDOW_SECONDS ==>
                  best.Some? && secs <= best.value
    {
      var end := FindClose(expr, calls[i]);
      if end.Some? {
        var found := ranges(expr[calls[i] + 1..end.value]);
        forall secs: nat ensures HasRange(expr, calls[i], ranges, secs) <==> Some(secs) in found { }
        best := MaxRange(found, best);
      }
    }
  }

  method MaxRange(found: seq<Option<nat>>, initial: Option<nat>) returns (best: Option<nat>)
    ensures best == initial || (best.Some? && best in found && best.value >= MIN_EXPR_WINDOW_SECONDS)
    ensures initial.Some? ==> best.Some? && initial.value <= best.value
    ensures forall secs: nat :: Some(secs) in found && secs >= MIN_EXPR_WINDOW_SECONDS ==>
              best.Some? && secs <= best.value
  {
    best := initial;
    for j := 0 to |found|
      invariant best == initial || (best.Some? && best in found && best.value >= MIN_EXPR_WINDOW_SECONDS)
      invariant initial.Some? ==> best.Some? && initial.value <= best.value
      invariant forall k :: 0 <= k < j && found[k].Some? && found[k].value >= MIN_EXPR_WINDOW_SECONDS ==>
                  best.Some? && found[k].value <= best.value
    {
      if found[j].Some? && found[j].value >= MIN_EXPR_WINDOW_SECONDS {
        var secs := found[j].value;
        best := Some(if best.Some? && best.value > secs then best.value else secs);
      }
    }
  }

  // ---------------------------------------------------------------------------
  // dashboard_panels.rs: walk from after the parenthesis, then cut one byte
  // ---------------------------------------------------------------------------

  method WalkCall(expr: bytes, open: nat) returns (i: nat)
    requires open < |expr| && expr[open] == OPEN
    ensures open < i <= |expr|
    ensures Closed(expr, open) ==> IsMatchingClose(expr, open, i - 1)
    ensures !Closed(expr, open) ==> i == |expr|
  {
    var depth := 1;
    i := open + 1;
    assert expr[open..i] == [OPEN];
    assert Depth([OPEN]) == 1;
    while i < |expr| && depth > 0
      invariant open < i <= |expr|
      invariant depth == Depth(expr[open..i]) >= 0
      invariant forall k :: open < k < i ==> Depth(expr[open..k]) > 0
      invariant depth == 0 ==> IsMatchingClose(expr, open, i - 1)
    {
      DepthStep(expr, open, i);
      if expr[i] == OPEN {
        depth := depth + 1;
      } else if expr[i] == CLOSE {
        depth := depth - 1;
      }
      i := i + 1;
    }
    if depth > 0 {
      forall close: nat ensures !IsMatchingClose(expr, open, close) {
        if open < close < |expr| { assert Depth(expr[open..close + 1]) > 0; }
      }
    } else if Closed(expr, open) {
      var close :| IsMatchingClose(expr, open, close);
      MatchingCloseIsUnique(expr, open, close, i - 1);
    }
  }

  /** `&expr[from..to]`: a panic unless both ends are character boundaries in order. */
  predicate Sliceable(expr: bytes, from: nat, to: nat) {
    from <= to <= |expr| && IsBoundary(expr, from) && IsBoundary(expr, to)
  }

  /** Where the span of a call ends in `metric_inside_fn`. */
  ghost predicate IsSpanEnd(expr: bytes, open: nat, end: nat) {
    if Closed(expr, open) then IsMatchingClose(expr, open, end) else end + 1 == |expr|
  }

  /** On a closed call both walkers take the same text, and it can be sliced. */
  lemma WalkersAgreeOnClosedCalls(expr: bytes, open: nat, close: nat, end: nat)
    requires IsText(expr) && IsMatchingClose(expr, open, close) && IsSpanEnd(expr, open, end)
    ensures end == close && Sliceable(expr, open + 1, end) && Balanced(expr[open + 1..end])
  {
    MatchingCloseIsUnique(expr, open, close, end);
    MatchingCloseIffBalancedBody(expr, open, close);
    BoundaryAfterAscii(expr, open);
  }

  /** An unclosed call with nothing after its parenthesis, or in an expression that ends
      in a multi-byte character. */
  ghost predicate DangerousCall(expr: bytes, open: nat) {
    expr != [] && !Closed(expr, open) && (open + 1 == |expr| || IsContinuation(expr[|expr| - 1]))
  }

  /** Slicing the span panics on exactly those calls. */
  lemma SpanPanicsIff(expr: bytes, open: nat, end: nat)
    requires IsText(expr) && open < |expr| && expr[open] == OPEN && IsSpanEnd(expr, open, end)
    ensures !Sliceable(expr, open + 1, end) <==> DangerousCall(expr, open)
  {
    BoundaryAfterAscii(expr, open);
    if Closed(expr, open) {
      WalkersAgreeOnClosedCalls(expr, open, end, end);
    }
  }

  datatype Lookup = Answer(found: bool) | Panic

  /** The call is walked, sliced and does not mention the metric. */
  ghost predicate PassedOver(expr: bytes, open: nat, words: bytes -> seq<bytes>, metric: bytes) {
    exists end: nat :: IsSpanEnd(expr, open, end) && Sliceable(expr, open + 1, end)
                  && metric !in words(expr[open + 1..end])
  }

  ghost predicate Mentions(expr: bytes, open: nat, words: bytes -> seq<bytes>, metric: bytes) {
    exists end: nat :: IsSpanEnd(expr, open, end) && Sliceable(expr, open + 1, end)
                  && metric in words(expr[open + 1..end])
  }

  /** `calls` are the parentheses of the calls to the functions asked for, `words` the
      word atoms of a text. */
  method MetricInsideFn(expr: bytes, calls: seq<nat>, words: bytes -> seq<bytes>, metric: bytes)
    returns (r: Lookup)
    requires IsText(expr)
    requires forall i :: 0 <= i < |calls| ==> calls[i] < |expr| && expr[calls[i]] == OPEN
    ensures r == Answer(false) ==> forall i :: 0 <= i < |calls| ==> PassedOver(expr, calls[i], words, metric)
    ensures r != Answer(false) ==>
              exists i :: && 0 <= i < |calls|
                          && (forall k :: 0 <= k < i ==> PassedOver(expr, calls[k], words, metric))
                          && if r.Panic? then DangerousCall(expr, calls[i]) else Mentions(expr, calls[i], words, metric)
    ensures (forall i :: 0 <= i < |calls| ==> Closed(expr, calls[i])) ==>
              r == Answer(exists i :: 0 <= i < |calls| && Mentions(expr, calls[i], words, metric))
  {
    for i := 0 to |calls|
      invariant forall k :: 0 <= k < i ==> PassedOver(expr, calls[k], words, metric)
    {
      var open := calls[i];
      var stop := WalkCall(expr, open);
      var end := stop - 1;
      assert IsSpanEnd(expr, open, end);
      if !Sliceable(expr, open + 1, end) {
        SpanPanicsIff(expr, open, end);
        return Panic;
      }
      if metric in words(expr[open + 1..end]) {
        assert Mentions(expr, open, words, metric);
        return Answer(true);
      }
      assert PassedOver(expr, open, words, metric);
    }
    r := Answer(false);
    forall i | 0 <= i < |calls| ensures !Mentions(expr, calls[i], words, metric) {
      PassedOverMeansNoMention(expr, calls[i], words, metric);
    }
  }

  lemma PassedOverMeansNoMention(expr: bytes, open: nat, words: bytes -> seq<bytes>, metric: bytes)
    requires PassedOver(expr, open, words, metric)
    ensures !Mentions(expr, open, words, metric)
  {
    forall a: nat, b: nat | IsSpanEnd(expr, open, a) && IsSpanEnd(expr, open, b) ensures a == b {
      if Closed(expr, open) { MatchingCloseIsUnique(expr, open, a, b); }
    }
  }

  /** A dangerous call is neither passed over nor found to mention a metric: with it first,
      the lookup can only panic. */
  lemma DangerousCallPanics(expr: bytes, open: nat, words: bytes -> seq<bytes>, metric: bytes)
    requires IsText(expr) && open < |expr| && expr[open] == OPEN && DangerousCall(expr, open)
    ensures !PassedOver(expr, open, words, metric) && !Mentions(expr, open, words, metric)
  {
    forall end: nat | IsSpanEnd(expr, open, end) ensures !Sliceable(expr, open + 1, end) {
      SpanPanicsIff(expr, open, end);
    }
  }

  /** "rate(" */
  const NOTHING_AFTER: bytes := [114, 97, 116, 101, 40]

  /** "rate(" and a letter of two bytes */
  const ACCENT_AFTER: bytes := [114, 97, 116, 101, 40, 0xC3, 0xA9]

  /** "f(x)(y" has a closed call and an unclosed one. */
  lemma SampleCalls()
    ensures var expr: bytes := [102, 40, 120, 41, 40, 121];
            IsMatchingClose(expr, 1, 3) && !Closed(expr, 4)
  {
    var expr: bytes := [102, 40, 120, 41, 40, 121];
    assert expr[2..3] == [120];
    assert Balanced([120]) by { assert [120 as byte][1..] == []; }
    MatchingCloseIffBalancedBody(expr, 1, 3);
  }

  lemma NothingAfterPanics(words: bytes -> seq<bytes>, metric: bytes)
    ensures IsText(NOTHING_AFTER) && NOTHING_AFTER[4] == OPEN && DangerousCall(NOTHING_AFTER, 4)
    ensures !PassedOver(NOTHING_AFTER, 4, words, metric) && !Mentions(NOTHING_AFTER, 4, words, metric)
  {
    AsciiIsText(NOTHING_AFTER);
    DangerousCallPanics(NOTHING_AFTER, 4, words, metric);
  }

  lemma AccentAfterPanics(words: bytes -> seq<bytes>, metric: bytes)
    ensures IsText(ACCENT_AFTER) && ACCENT_AFTER[4] == OPEN && DangerousCall(ACCENT_AFTER, 4)
    ensures !PassedOver(ACCENT_AFTER, 4, words, metric) && !Mentions(ACCENT_AFTER, 4, words, metric)
  {
    AsciiIsText(NOTHING_AFTER);
    CharThenText([0xC3, 0xA9], []);
    assert [0xC3, 0xA9] + [] == [0xC3 as byte, 0xA9];
    ConcatText(NOTHING_AFTER, [0xC3, 0xA9]);
    assert ACCENT_AFTER == NOTHING_AFTER + [0xC3, 0xA9];
    DangerousCallPanics(ACCENT_AFTER, 4, words, metric);
  }
}
