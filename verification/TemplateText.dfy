/**
 Texts with `${VAR}` placeholders in them: the definitions and steps behind `Template`.

 The source replaces one key at a time, in the unspecified iteration order of a hash map.
 `Simultaneous` reads the template once, replacing every known placeholder it meets and
 leaving everything else alone.  `NoNesting` excludes templates in which one placeholder
 starts inside another; one replacement then neither creates nor destroys other
 placeholders, unless its value is empty.
 */
module TemplateText {

  /** Neither placeholder syntax nor part of it. */
  predicate Plain(s: string) {
    forall k :: 0 <= k < |s| ==> s[k] != '$' && s[k] != '{' && s[k] != '}'
  }

  function Placeholder(key: string): string {
    "${" + key + "}"
  }

  /** Rust's `str::replace`: non-overlapping matches from the left. */
  function Replace(s: string, pat: string, value: string): string
    requires pat != ""
  {
    if s == "" then ""
    else if pat <= s then value + Replace(s[|pat|..], pat, value)
    else [s[0]] + Replace(s[1..], pat, value)
  }

  /** One replacement per key, in the given order. */
  function Sequential(s: string, order: seq<string>, vars: map<string, string>): string
    requires forall k :: k in order ==> k in vars
    decreases |order|
  {
    if order == [] then s
    else Sequential(Replace(s, Placeholder(order[0]), vars[order[0]]), order[1..], vars)
  }

  /** Position of the first `}`, or the length if there is none. */
  function BraceAt(s: string): (n: nat)
    ensures n <= |s|
    ensures n < |s| ==> s[n] == '}'
    ensures forall k :: 0 <= k < n ==> s[k] != '}'
  {
    if s == "" || s[0] == '}' then 0 else 1 + BraceAt(s[1..])
  }

  /** The name of the placeholder that `s` starts with, if it starts with one in `vars`. */
  predicate StartsWithKnown(s: string, vars: map<string, string>) {
    "${" <= s && var n := BraceAt(s[2..]); n + 2 < |s| && s[2..n + 2] in vars
  }

  function LeadingName(s: string, vars: map<string, string>): (name: string)
    requires StartsWithKnown(s, vars)
    ensures name in vars && |name| + 3 <= |s|
  {
    s[2..BraceAt(s[2..]) + 2]
  }

  function Simultaneous(s: string, vars: map<string, string>): string {
    if s == "" then ""
    else if StartsWithKnown(s, vars) then
      var name := LeadingName(s, vars);
      vars[name] + Simultaneous(s[|name| + 3..], vars)
    else [s[0]] + Simultaneous(s[1..], vars)
  }

  /** No `${` occurs between another `${` and the next `}`; `open` tells whether such a
      placeholder start is pending at the beginning of `s`. */
  predicate NoNesting(s: string, open: bool) {
    if s == "" then true
    else if "${" <= s then !open && NoNesting(s[2..], true)
    else NoNesting(s[1..], if s[0] == '}' then false else open)
  }

  ghost predicate PlainVars(vars: map<string, string>) {
    forall k :: k in vars ==> Plain(k) && Plain(vars[k])
  }

  ghost predicate NoEmptyValue(vars: map<string, string>) {
    forall k :: k in vars ==> vars[k] != ""
  }

  // ---------------------------------------------------------------------------
  // The loop in SubstituteTemplate
  // ---------------------------------------------------------------------------

  predicate Distinct(order: seq<string>) {
    forall i, j :: 0 <= i < j < |order| ==> order[i] != order[j]
  }

  lemma {:induction false} SequentialSnoc(s: string, order: seq<string>, key: string, vars: map<string, string>)
    requires key in vars && forall k :: k in order ==> k in vars
    ensures Sequential(s, order + [key], vars)
         == Replace(Sequential(s, order, vars), Placeholder(key), vars[key])
    decreases |order|
  {
    if order == [] {
      assert order + [key] == [key];
    } else {
      assert (order + [key])[1..] == order[1..] + [key];
      SequentialSnoc(Replace(s, Placeholder(order[0]), vars[order[0]]), order[1..], key, vars);
    }
  }

  // ---------------------------------------------------------------------------
  // Placeholders and plain text
  // ---------------------------------------------------------------------------

  lemma {:induction false} BraceAtPlain(key: string, rest: string)
    requires Plain(key)
    ensures BraceAt(key + "}" + rest) == |key|
  {
    var s := key + "}" + rest;
    assert s[|key|] == '}';
    assert forall k :: 0 <= k < |key| ==> s[k] == key[k];
  }

  lemma StartsOpen(s: string)
    ensures "${" <= s <==> |s| >= 2 && s[0] == '$' && s[1] == '{'
  {
  }

  /** For plain keys, starting with a known placeholder is a matter of prefixes. */
  lemma KnownIffPrefix(s: string, vars: map<string, string>, key: string)
    requires PlainVars(vars) && key in vars
    ensures Placeholder(key) <= s <==> StartsWithKnown(s, vars) && LeadingName(s, vars) == key
  {
    var ph := Placeholder(key);
    if ph <= s {
      var rest := s[|ph|..];
      assert s == ph + rest;
      assert s[2..] == key + "}" + rest;
      BraceAtPlain(key, rest);
      assert s[2..|key| + 2] == key;
    }
  }

  lemma {:induction false} ReplaceCopiesPlain(text: string, rest: string, pat: string, value: string)
    requires pat != "" && pat[0] == '$'
    requires forall k :: 0 <= k < |text| ==> text[k] != '$'
    ensures Replace(text + rest, pat, value) == text + Replace(rest, pat, value)
  {
    if text == "" {
      assert text + rest == rest;
    } else {
      ReplaceCopiesPlain(text[1..], rest, pat, value);
      assert (text + rest)[1..] == text[1..] + rest;
      assert text == [text[0]] + text[1..];
    }
  }

  lemma Regroup(text: string, rest: string)
    requires text != ""
    ensures [text[0]] + (text[1..] + rest) == text + rest
  {
    assert text == [text[0]] + text[1..];
  }

  lemma {:induction false} SimultaneousCopiesPlain(text: string, rest: string, vars: map<string, string>)
    requires forall k :: 0 <= k < |text| ==> text[k] != '$'
    ensures Simultaneous(text + rest, vars) == text + Simultaneous(rest, vars)
  {
    if text == "" {
      assert text + rest == rest;
    } else {
      SimultaneousCopiesPlain(text[1..], rest, vars);
      Regroup(text, rest);
      Regroup(text, Simultaneous(rest, vars));
    }
  }

  lemma {:induction false} NoNestingSkipsPlain(text: string, rest: string, open: bool)
    requires Plain(text)
    ensures NoNesting(text + rest, open) == NoNesting(rest, open)
  {
    if text == "" {
      assert text + rest == rest;
    } else {
      NoNestingSkipsPlain(text[1..], rest, open);
      assert (text + rest)[1..] == text[1..] + rest;
      assert (text + rest)[0] == text[0];
      StartsOpen(text + rest);
    }
  }

  lemma NoNestingAfterPlaceholder(key: string, rest: string, open: bool)
    requires Plain(key) && NoNesting(Placeholder(key) + rest, open)
    ensures !open && NoNesting(rest, false)
  {
    var s := Placeholder(key) + rest;
    assert s[2..] == key + ("}" + rest);
    NoNestingSkipsPlain(key, "}" + rest, true);
    assert ("}" + rest)[1..] == rest;
    StartsOpen("}" + rest);
  }

  // ---------------------------------------------------------------------------
  // One replacement neither creates nor destroys other placeholders
  // ---------------------------------------------------------------------------

  /** Text before the first `$` survives replacement, and what follows it decides the rest. */
  lemma {:induction false} ReplaceKeepsNesting(s: string, key: string, value: string, open: bool)
    requires Plain(key) && Plain(value) && value != ""
    requires NoNesting(s, open)
    ensures NoNesting(Replace(s, Placeholder(key), value), open)
    decreases |s|
  {
    var pat := Placeholder(key);
    if s == "" {
    } else if pat <= s {
      var rest := s[|pat|..];
      assert s == pat + rest;
      NoNestingAfterPlaceholder(key, rest, open);
      ReplaceKeepsNesting(rest, key, value, false);
      NoNestingSkipsPlain(value, Replace(rest, pat, value), open);
    } else if "${" <= s {
      ReplaceKeepsNesting(s[2..], key, value, true);
      ReplacePassesOpen(s, pat, value);
      assert ("${" + Replace(s[2..], pat, value))[2..] == Replace(s[2..], pat, value);
    } else {
      var tail := Replace(s[1..], pat, value);
      ReplaceKeepsNesting(s[1..], key, value, if s[0] == '}' then false else open);
      var r := [s[0]] + tail;
      assert r[1..] == tail;
      StartsOpen(r);
      StartsOpen(s);
    }
  }

  lemma ReplacePassesOpen(s: string, pat: string, value: string)
    requires "${" <= s && pat != "" && pat[0] == '$' && !(pat <= s)
    ensures Replace(s, pat, value) == "${" + Replace(s[2..], pat, value)
  {
    ReplaceCopiesPlain("{", s[2..], pat, value);
    assert s[1..] == "{" + s[2..];
    assert Replace(s, pat, value) == [s[0]] + Replace(s[1..], pat, value);
  }

  /** Replacing `key` leaves a text starting with another placeholder as it was there. */
  lemma OtherPlaceholderSurvives(s: string, other: string, key: string, value: string)
    requires Plain(other) && Plain(key) && other != key && Placeholder(other) <= s
    ensures !(Placeholder(key) <= s)
    ensures Replace(s, Placeholder(key), value)
         == Placeholder(other) + Replace(s[|other| + 3..], Placeholder(key), value)
  {
    var pat, ph := Placeholder(key), Placeholder(other);
    var rest := s[|ph|..];
    assert s == ph + rest;
    if pat <= s {
      DistinctPlaceholders(s, other, key);
    }
    ReplacePassesPlaceholder(other, rest, pat, value);
  }

  lemma ReplacePassesPlaceholder(other: string, rest: string, pat: string, value: string)
    requires Plain(other) && pat != "" && pat[0] == '$' && !(pat <= Placeholder(other) + rest)
    ensures Replace(Placeholder(other) + rest, pat, value) == Placeholder(other) + Replace(rest, pat, value)
  {
    var s, name := Placeholder(other) + rest, "{" + other + "}";
    assert s[1..] == name + rest;
    ReplaceCopiesPlain(name, rest, pat, value);
    assert Replace(s, pat, value) == [s[0]] + Replace(s[1..], pat, value);
    assert [s[0]] + name == Placeholder(other);
  }

  lemma DistinctPlaceholders(s: string, a: string, b: string)
    requires Plain(a) && Plain(b) && Placeholder(a) <= s && Placeholder(b) <= s
    ensures a == b
  {
    assert s == Placeholder(a) + s[|a| + 3..] && s == Placeholder(b) + s[|b| + 3..];
    assert s[2..] == a + "}" + s[|a| + 3..] && s[2..] == b + "}" + s[|b| + 3..];
    BraceAtPlain(a, s[|a| + 3..]);
    BraceAtPlain(b, s[|b| + 3..]);
    assert s[2..][..|a|] == a && s[2..][..|b|] == b;
  }

  /** If the text after replacing `key` starts with placeholder tail `tail`, so did the text. */
  lemma {:induction false} NoNewTail(s: string, tail: string, key: string, value: string)
    requires Plain(key) && Plain(value) && NoNesting(s, true)
    requires forall k :: 0 <= k < |tail| - 1 ==> tail[k] != '}' && tail[k] != '$'
    requires tail != "" && tail[|tail| - 1] == '}'
    requires tail <= Replace(s, Placeholder(key), value)
    ensures tail <= s
    decreases |s|
  {
    var pat := Placeholder(key);
    assert s != "";
    StartsOpen(s);
    assert !(pat <= s);
    var r := Replace(s, pat, value);
    assert r == [s[0]] + Replace(s[1..], pat, value);
    assert r[..|tail|] == tail;
    assert tail[0] == s[0];
    assert s == [s[0]] + s[1..] && tail == [tail[0]] + tail[1..];
    if |tail| > 1 {
      assert r[1..][..|tail| - 1] == tail[1..];
      NoNewTail(s[1..], tail[1..], key, value);
    }
  }

  lemma NoNewPlaceholder(s: string, other: string, key: string, value: string, open: bool)
    requires Plain(other) && Plain(key) && Plain(value) && value != ""
    requires s != "" && !(Placeholder(key) <= s) && NoNesting(s, open)
    requires Placeholder(other) <= Replace(s, Placeholder(key), value)
    ensures Placeholder(other) <= s
  {
    var pat, ph := Placeholder(key), Placeholder(other);
    var r := Replace(s, pat, value);
    assert r == [s[0]] + Replace(s[1..], pat, value);
    assert r[0] == ph[0] == '$' && r[1] == ph[1] == '{';
    assert r[1] == Replace(s[1..], pat, value)[0];
    StartsOpen(s);
    ReplacePassesOpen(s, pat, value);
    assert ph == "${" + (other + "}") && s == "${" + s[2..];
    PrefixBehind("${", other + "}", Replace(s[2..], pat, value));
    NoNewTail(s[2..], other + "}", key, value);
    PrefixBehind("${", other + "}", s[2..]);
  }

  lemma PrefixBehind(front: string, a: string, b: string)
    ensures front + a <= front + b <==> a <= b
  {
    assert (front + a)[|front|..] == a && (front + b)[|front|..] == b;
    if front + a <= front + b {
      assert (front + b)[..|front + a|] == front + a;
      assert b[..|a|] == (front + b)[|front|..|front + a|];
    }
  }

  // ---------------------------------------------------------------------------
  // One key more, one key less
  // ---------------------------------------------------------------------------

  lemma {:induction false} NothingToSubstitute(s: string)
    ensures Simultaneous(s, map[]) == s
  {
    if s != "" { NothingToSubstitute(s[1..]); }
  }

  lemma {:induction false} SequentialIgnoresOthers(s: string, order: seq<string>,
                                                   vars: map<string, string>, more: map<string, string>)
    requires forall k :: k in order ==> k in vars
    requires forall k :: k in vars ==> k in more && more[k] == vars[k]
    ensures Sequential(s, order, vars) == Sequential(s, order, more)
    decreases |order|
  {
    if order != [] {
      SequentialIgnoresOthers(Replace(s, Placeholder(order[0]), vars[order[0]]), order[1..], vars, more);
    }
  }

  // ---------------------------------------------------------------------------
  // An empty value breaks it, whatever the other value is
  // ---------------------------------------------------------------------------

  /** `order` is an iteration order of the map. */
  ghost predicate Enumerates(order: seq<string>, vars: map<string, string>) {
    Distinct(order) && forall k :: k in order <==> k in vars
  }

  /** On templates without nesting any two iteration orders give the same text. */
  ghost predicate OrderIndependent(vars: map<string, string>) {
    forall s, a, b ::
      NoNesting(s, false) && Enumerates(a, vars) && Enumerates(b, vars) ==>
      Sequential(s, a, vars) == Sequential(s, b, vars)
  }

  /** On templates without nesting every iteration order reads the template at once. */
  ghost predicate EveryOrderIsSimultaneous(vars: map<string, string>) {
    forall s, order ::
      NoNesting(s, false) && Enumerates(order, vars) ==> Sequential(s, order, vars) == Simultaneous(s, vars)
  }

  /** `$${empty}{other}` */
  function Trap(empty: string, other: string): string {
    "$" + (Placeholder(empty) + ("{" + other + "}"))
  }

  lemma TrapHasNoNesting(empty: string, other: string)
    requires Plain(empty) && Plain(other)
    ensures NoNesting(Trap(empty, other), false)
  {
    var s, tail := Trap(empty, other), "{" + other + "}";
    assert s[1..] == Placeholder(empty) + tail;
    StartsOpen(s);
    assert s[1..][2..] == empty + ("}" + tail);
    NoNestingSkipsPlain(empty, "}" + tail, true);
    assert ("}" + tail)[1..] == tail;
    StartsOpen("}" + tail);
    assert tail[1..] == other + "}";
    StartsOpen(tail);
    NoNestingSkipsPlain(other, "}", false);
  }

  lemma ReplaceAtMatch(pat: string, rest: string, value: string)
    requires pat != ""
    ensures Replace(pat + rest, pat, value) == value + Replace(rest, pat, value)
  {
    assert (pat + rest)[|pat|..] == rest;
  }

  lemma KnownAtStart(key: string, rest: string, vars: map<string, string>)
    requires PlainVars(vars) && key in vars
    ensures Simultaneous(Placeholder(key) + rest, vars) == vars[key] + Simultaneous(rest, vars)
  {
    var s := Placeholder(key) + rest;
    KnownIffPrefix(s, vars, key);
    assert s[|key| + 3..] == rest;
  }

  lemma DollarReplaced(pat: string, tail: string)
    requires "${" <= pat && forall k :: 0 <= k < |tail| ==> tail[k] != '$'
    ensures Replace("$" + (pat + tail), pat, "") == "$" + tail
  {
    StartsOpen(pat);
    assert (pat + tail)[0] == '$';
    var s := "$" + (pat + tail);
    assert s[1..] == (pat + tail) && s[1] == (pat + tail)[0];
    StartsOpen(s);
    StartsOpen(pat);
    assert Replace(pat + tail, pat, "") == tail by {
      ReplaceAtMatch(pat, tail, "");
      assert tail + "" == tail;
      ReplaceCopiesPlain(tail, "", pat, "");
      assert "" + tail == tail;
    }
  }

  lemma DollarRead(key: string, tail: string, vars: map<string, string>)
    requires PlainVars(vars) && key in vars && vars[key] == ""
    requires forall k :: 0 <= k < |tail| ==> tail[k] != '$'
    ensures Simultaneous("$" + (Placeholder(key) + tail), vars) == "$" + tail
  {
    var t := Placeholder(key) + tail;
    assert t[0] == '$';
    assert Simultaneous(t, vars) == tail by {
      KnownAtStart(key, tail, vars);
      assert tail + "" == tail;
      SimultaneousCopiesPlain(tail, "", vars);
      assert "" + tail == tail;
    }
  }

  /** Replacing `empty` by nothing assembles a placeholder for `other`; read at once the
      text keeps its parts. */
  lemma TrapSprings(vars: map<string, string>, empty: string, other: string)
    requires PlainVars(vars) && empty in vars && Plain(other) && vars[empty] == ""
    ensures Replace(Trap(empty, other), Placeholder(empty), "") == Placeholder(other)
    ensures Simultaneous(Trap(empty, other), vars) == Placeholder(other)
  {
    var tail := "{" + other + "}";
    assert forall k :: 0 <= k < |tail| ==> tail[k] != '$';
    assert Trap(empty, other) == "$" + (Placeholder(empty) + tail);
    DollarReplaced(Placeholder(empty), tail);
    DollarRead(empty, tail, vars);
    assert "$" + tail == Placeholder(other);
  }

  lemma {:induction false} Enumerate(keys: set<string>) returns (order: seq<string>)
    ensures Distinct(order) && forall k :: k in order <==> k in keys
  {
    if keys == {} {
      order := [];
    } else {
      var k :| k in keys;
      var rest := Enumerate(keys - {k});
      order := [k] + rest;
    }
  }

  lemma {:induction false} PlainIsStable(s: string, order: seq<string>, vars: map<string, string>)
    requires Plain(s) && forall k :: k in order ==> k in vars
    ensures Sequential(s, order, vars) == s
    decreases |order|
  {
    if order != [] {
      assert s + "" == s;
      ReplaceCopiesPlain(s, "", Placeholder(order[0]), vars[order[0]]);
      PlainIsStable(s, order[1..], vars);
    }
  }

  /** Replacing `empty` first and `other` next turns the trap into the value of `other`. */
  lemma TrapReplaced(vars: map<string, string>, empty: string, other: string, rest: seq<string>)
    requires empty in vars && other in vars && PlainVars(vars) && vars[empty] == ""
    requires forall k :: k in rest ==> k in vars
    ensures Sequential(Trap(empty, other), [empty] + ([other] + rest), vars) == vars[other]
  {
    TrapSprings(vars, empty, other);
    assert ([empty] + ([other] + rest))[1..] == [other] + rest;
    OnePlaceholder(vars, other, rest);
  }

  lemma OnePlaceholder(vars: map<string, string>, other: string, rest: seq<string>)
    requires other in vars && PlainVars(vars) && forall k :: k in rest ==> k in vars
    ensures Sequential(Placeholder(other), [other] + rest, vars) == vars[other]
  {
    var once := Placeholder(other);
    assert once + "" == once && vars[other] + "" == vars[other];
    ReplaceAtMatch(once, "", vars[other]);
    assert ([other] + rest)[1..] == rest;
    PlainIsStable(vars[other], rest, vars);
  }

  /** Replacing `other` first leaves the trap alone; `empty` then assembles a placeholder that
      no later key touches. */
  lemma TrapLeft(vars: map<string, string>, empty: string, other: string, rest: seq<string>)
    requires empty in vars && other in vars && empty != other && PlainVars(vars) && vars[empty] == ""
    requires forall k :: k in rest ==> k in vars && k != other
    ensures Sequential(Trap(empty, other), [other] + ([empty] + rest), vars) == Placeholder(other)
  {
    TrapWithoutOther(empty, other, vars[other]);
    TrapSprings(vars, empty, other);
    assert ([other] + ([empty] + rest))[1..] == [empty] + rest && ([empty] + rest)[1..] == rest;
    PlaceholderStays(other, rest, vars);
  }

  lemma TrapWithoutOther(empty: string, other: string, value: string)
    requires Plain(empty) && Plain(other) && empty != other
    ensures Replace(Trap(empty, other), Placeholder(other), value) == Trap(empty, other)
  {
    var pat, tail := Placeholder(other), "{" + other + "}";
    var t := Placeholder(empty) + tail;
    if pat <= t { DistinctPlaceholders(t, empty, other); }
    ReplacePassesPlaceholder(empty, tail, pat, value);
    Untouched(tail, pat, value);
    var s := "$" + t;
    assert s[1..] == t && s[1] == t[0] == '$';
    StartsOpen(s);
    StartsOpen(pat);
  }

  lemma Untouched(s: string, pat: string, value: string)
    requires pat != "" && pat[0] == '$' && forall k :: 0 <= k < |s| ==> s[k] != '$'
    ensures Replace(s, pat, value) == s
  {
    assert s + "" == s;
    ReplaceCopiesPlain(s, "", pat, value);
  }

  lemma {:induction false} PlaceholderStays(other: string, order: seq<string>, vars: map<string, string>)
    requires PlainVars(vars) && Plain(other) && forall k :: k in order ==> k in vars && k != other
    ensures Sequential(Placeholder(other), order, vars) == Placeholder(other)
    decreases |order|
  {
    if order != [] {
      var key, once := order[0], Placeholder(other);
      OtherPlaceholderSurvives(once, other, key, vars[key]);
      assert once[|other| + 3..] == "" && once + "" == once;
      PlaceholderStays(other, order[1..], vars);
    }
  }

  lemma {:induction false} SubsetSize(a: set<string>, b: set<string>)
    requires a <= b
    ensures |a| <= |b|
  {
    assert b == a + (b - a);
  }
}
