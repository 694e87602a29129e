/**
 Byte strings that are UTF-8 text, as Rust's `str` guarantees them, and the line
 truncation of the streaming protocol (`protocol.rs`).
 */
module Utf8 {
  import opened Prelude

  predicate IsContinuation(b: byte) {
    0x80 <= b < 0xC0
  }

  /** Number of bytes of the character that `lead` starts; 0 if it starts none. */
  function CharLen(lead: byte): (n: nat)
    ensures n <= 4
  {
    if lead < 0x80 then 1
    else if 0xC2 <= lead < 0xE0 then 2
    else if 0xE0 <= lead < 0xF0 then 3
    else if 0xF0 <= lead < 0xF5 then 4
    else 0
  }

  /** The second bytes that exclude overlong forms, surrogates and values above 10FFFF
      (section 4 of RFC 3629). */
  predicate AllowedSecond(lead: byte, second: byte) {
    if lead == 0xE0 then 0xA0 <= second < 0xC0
    else if lead == 0xED then 0x80 <= second < 0xA0
    else if lead == 0xF0 then 0x90 <= second < 0xC0
    else if lead == 0xF4 then 0x80 <= second < 0x90
    else IsContinuation(second)
  }

  /** `s` starts with one whole character. */
  predicate StartsWithChar(s: bytes) {
    && s != []
    && 0 < CharLen(s[0]) <= |s|
    && (forall k :: 1 <= k < CharLen(s[0]) ==> IsContinuation(s[k]))
    && (CharLen(s[0]) > 1 ==> AllowedSecond(s[0], s[1]))
  }

  predicate IsText(s: bytes) {
    s == [] || (StartsWithChar(s) && IsText(s[CharLen(s[0])..]))
  }

  /** Rust's `is_char_boundary`. */
  predicate IsBoundary(s: bytes, i: nat) {
    i == 0 || i == |s| || (i < |s| && !IsContinuation(s[i]))
  }

  predicate IsChar(c: bytes) {
    StartsWithChar(c) && |c| == CharLen(c[0])
  }

  lemma FirstChar(s: bytes) returns (c: bytes, rest: bytes)
    requires IsText(s) && s != []
    ensures s == c + rest && IsChar(c) && IsText(rest)
  {
    c, rest := s[..CharLen(s[0])], s[CharLen(s[0])..];
    assert c[0] == s[0];
  }

  lemma CharThenText(c: bytes, rest: bytes)
    requires IsChar(c) && IsText(rest)
    ensures IsText(c + rest)
  {
    assert (c + rest)[|c|..] == rest;
    assert forall k :: 0 <= k < |c| ==> (c + rest)[k] == c[k];
  }

  /** Cutting text at a character boundary leaves text on both sides. */
  lemma {:induction false} CutAtBoundary(s: bytes, i: nat)
    requires IsText(s) && i <= |s| && IsBoundary(s, i)
    ensures IsText(s[..i]) && IsText(s[i..])
    decreases |s|
  {
    if i == 0 {
      assert s[..0] == [] && s[0..] == s;
    } else {
      var c, rest := FirstChar(s);
      CutAtBoundary(rest, i - |c|);
      CharThenText(c, rest[..i - |c|]);
      assert (c + rest)[..i] == c + rest[..i - |c|];
      assert (c + rest)[i..] == rest[i - |c|..];
    }
  }

  lemma {:induction false} ConcatText(a: bytes, b: bytes)
    requires IsText(a) && IsText(b)
    ensures IsText(a + b)
    decreases |a|
  {
    if a == [] {
      assert a + b == b;
    } else {
      var c, rest := FirstChar(a);
      ConcatText(rest, b);
      ConcatBehindChar(c, rest, b);
    }
  }

  lemma ConcatBehindChar(c: bytes, rest: bytes, b: bytes)
    requires IsChar(c) && IsText(rest + b)
    ensures IsText(c + rest + b)
  {
    CharThenText(c, rest + b);
    assert c + rest + b == c + (rest + b);
  }

  /** No character is longer than four bytes. */
  lemma {:induction false} BoundaryNearby(s: bytes, i: nat) returns (j: nat)
    requires IsText(s) && i <= |s|
    ensures j <= i < j + 4 && IsBoundary(s, j)
    decreases |s|
  {
    if s == [] || i < CharLen(s[0]) {
      j := 0;
    } else {
      var n := CharLen(s[0]);
      var k := BoundaryNearby(s[n..], i - n);
      j := k + n;
      if k == 0 && j < |s| {
        assert StartsWithChar(s[n..]);
        assert s[n..][0] == s[n];
      } else if k < |s[n..]| {
        assert s[n..][k] == s[j];
      }
    }
  }

  /** What follows an ASCII byte is the start of a character. */
  lemma {:induction false} BoundaryAfterAscii(s: bytes, i: nat)
    requires IsText(s) && i < |s| && s[i] < 0x80
    ensures IsBoundary(s, i + 1)
    decreases |s|
  {
    var n := CharLen(s[0]);
    if i == 0 {
      if 1 < |s| {
        assert StartsWithChar(s[1..]);
        assert s[1..][0] == s[1];
      }
    } else {
      assert n <= i;
      BoundaryAfterAscii(s[n..], i - n);
      if i + 1 < |s| { assert s[n..][i + 1 - n] == s[i + 1]; }
    }
  }

  // ---------------------------------------------------------------------------
  // truncate_line
  // ---------------------------------------------------------------------------

  /** " [truncated]" */
  const MARKER: bytes := [32, 91, 116, 114, 117, 110, 99, 97, 116, 101, 100, 93]

  const MAX_LINE_LEN: nat := 65_536

  /** The last character boundary at or before `i`. */
  function FloorBoundary(s: bytes, i: nat): (j: nat)
    requires i <= |s|
    ensures j <= i && IsBoundary(s, j)
    ensures forall k :: j < k <= i ==> !IsBoundary(s, k)
  {
    if IsBoundary(s, i) then i else FloorBoundary(s, i - 1)
  }

  function Truncate(line: bytes, maxLen: nat): bytes {
    if |line| <= maxLen then line else line[..FloorBoundary(line, maxLen)] + MARKER
  }

  method TruncateLine(line: bytes, maxLen: nat) returns (r: bytes)
    ensures r == Truncate(line, maxLen)
  {
    if |line| <= maxLen {
      return line;
    }
    var end := maxLen;
    while end > 0 && !IsBoundary(line, end)
      invariant 0 <= end <= maxLen
      invariant FloorBoundary(line, end) == FloorBoundary(line, maxLen)
    {
      end := end - 1;
    }
    r := line[..end];
    r := r + MARKER;
  }

  /** `kept` is the last boundary of a character at or before `maxLen`. */
  predicate IsLastBoundary(line: bytes, maxLen: nat, kept: nat)
    requires kept <= maxLen <= |line|
  {
    IsBoundary(line, kept) && forall k :: kept < k <= maxLen ==> !IsBoundary(line, k)
  }

  /** Truncated text is text; it keeps all but at most three of the bytes allowed. */
  lemma TruncateKeepsText(line: bytes, maxLen: nat)
    requires IsText(line)
    ensures var r := Truncate(line, maxLen);
            && IsText(r)
            && |r| <= maxLen + 12
            && (|line| <= maxLen ==> r == line)
            && (|line| > maxLen ==>
                exists kept :: && 0 <= kept <= maxLen < kept + 4
                               && IsLastBoundary(line, maxLen, kept)
                               && r == line[..kept] + [32, 91, 116, 114, 117, 110, 99, 97, 116, 101, 100, 93])
  {
    if |line| > maxLen {
      var kept := FloorBoundary(line, maxLen);
      CutAtBoundary(line, kept);
      AsciiIsText(MARKER);
      ConcatText(line[..kept], MARKER);
      var near := BoundaryNearby(line, maxLen);
      assert near <= kept;
    }
  }

  lemma {:induction false} AsciiIsText(s: bytes)
    requires forall k :: 0 <= k < |s| ==> s[k] < 0x80
    ensures IsText(s)
  {
    if s != [] { AsciiIsText(s[1..]); }
  }
}
