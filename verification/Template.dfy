/**
 `${VAR}` substitution (`substitute_template` in `ports.rs`), as `cmd_setup` applies it
 to the Kind configuration.
 */
module Template {
  import opened TemplateText

  method SubstituteTemplate(template: string, vars: map<string, string>)
    returns (result: string, ghost order: seq<string>)
    ensures forall k :: k in order <==> k in vars
    ensures Distinct(order)
    ensures result == Sequential(template, order, vars)
    ensures NoNesting(template, false) && PlainVars(vars) && NoEmptyValue(vars) ==>
              result == Simultaneous(template, vars)
  {
    result := template;
    order := [];
    var remaining := vars.Keys;
    while remaining != {}
      invariant remaining <= vars.Keys
      invariant forall k :: k in order <==> k in vars && k !in remaining
      invariant Distinct(order)
      invariant result == Sequential(template, order, vars)
      decreases remaining
    {
      var key :| key in remaining;
      SequentialSnoc(template, order, key, vars);
      result := Replace(result, "${" + key + "}", vars[key]);
      order := order + [key];
      remaining := remaining - {key};
    }
    if NoNesting(template, false) && PlainVars(vars) && NoEmptyValue(vars) {
      AnyOrderIsSimultaneous(template, order, vars);
    }
  }

  /** Replacing one key first and substituting the others at once is substituting all at once. */
  lemma {:induction false} ReplaceThenSimultaneous(s: string, key: string, value: string,
                                                   vars: map<string, string>, open: bool)
    requires PlainVars(vars) && key !in vars && Plain(key) && Plain(value) && value != ""
    requires NoNesting(s, open)
    ensures Simultaneous(Replace(s, Placeholder(key), value), vars) == Simultaneous(s, vars[key := value])
    decreases |s|
  {
    var pat, all := Placeholder(key), vars[key := value];
    var r := Replace(s, pat, value);
    if s == "" {
    } else if pat <= s {
      var rest := s[|pat|..];
      assert s == pat + rest;
      NoNestingAfterPlaceholder(key, rest, open);
      ReplaceThenSimultaneous(rest, key, value, vars, false);
      SimultaneousCopiesPlain(value, Replace(rest, pat, value), vars);
      KnownIffPrefix(s, all, key);
    } else if StartsWithKnown(s, all) {
      var other := LeadingName(s, all);
      KnownIffPrefix(s, all, other);
      OtherPlaceholderSurvives(s, other, key, value);
      var rest := s[|other| + 3..];
      assert s == Placeholder(other) + rest;
      NoNestingAfterPlaceholder(other, rest, open);
      ReplaceThenSimultaneous(rest, key, value, vars, false);
      KnownIffPrefix(r, vars, other);
      assert r[|other| + 3..] == Replace(rest, pat, value);
    } else {
      if StartsWithKnown(r, vars) {
        var other := LeadingName(r, vars);
        KnownIffPrefix(r, vars, other);
        NoNewPlaceholder(s, other, key, value, open);
        KnownIffPrefix(s, all, other);
        assert false;
      }
      assert r[1..] == Replace(s[1..], pat, value);
      if "${" <= s {
        assert s[1..][1..] == s[2..] && s[1..][0] == '{';
      }
      ReplaceThenSimultaneous(s[1..], key, value, vars,
                              if "${" <= s then true else if s[0] == '}' then false else open);
    }
  }

  lemma {:induction false} AnyOrderIsSimultaneous(s: string, order: seq<string>, vars: map<string, string>)
    requires PlainVars(vars) && NoEmptyValue(vars) && NoNesting(s, false)
    requires Distinct(order) && forall k :: k in order <==> k in vars
    ensures Sequential(s, order, vars) == Simultaneous(s, vars)
    decreases |order|
  {
    if order == [] {
      assert vars == map[];
      NothingToSubstitute(s);
    } else {
      var key, rest := order[0], order[1..];
      var fewer := map k | k in vars && k != key :: vars[k];
      assert vars == fewer[key := vars[key]];
      forall k ensures k in rest <==> k in fewer {
        assert order == [key] + rest;
        if k in rest { var i :| 0 <= i < |rest| && rest[i] == k; assert order[i + 1] == k != order[0]; }
      }
      var s' := Replace(s, Placeholder(key), vars[key]);
      ReplaceKeepsNesting(s, key, vars[key], false);
      AnyOrderIsSimultaneous(s', rest, fewer);
      SequentialIgnoresOthers(s', rest, fewer, vars);
      ReplaceThenSimultaneous(s, key, vars[key], fewer, false);
    }
  }

  /** On `$${empty}{other}` two iteration orders give different texts: replacing `empty` first
      lets `other` be replaced as well, replacing `other` first does not. */
  lemma EmptyValueBreaks(vars: map<string, string>, empty: string, other: string)
    returns (a: seq<string>, b: seq<string>)
    requires empty in vars && other in vars && empty != other && PlainVars(vars) && vars[empty] == ""
    ensures NoNesting(Trap(empty, other), false) && Enumerates(a, vars) && Enumerates(b, vars)
    ensures Sequential(Trap(empty, other), a, vars) == vars[other]
    ensures Sequential(Trap(empty, other), b, vars) == Simultaneous(Trap(empty, other), vars) == Placeholder(other)
    ensures vars[other] != Placeholder(other)
  {
    var rest := Enumerate(vars.Keys - {empty, other});
    a, b := [empty] + ([other] + rest), [other] + ([empty] + rest);
    TrapHasNoNesting(empty, other);
    TrapReplaced(vars, empty, other, rest);
    TrapLeft(vars, empty, other, rest);
    TrapSprings(vars, empty, other);
    assert Placeholder(other)[0] == '$';
  }

  lemma {:induction false} SingleKey(s: string, key: string, vars: map<string, string>)
    requires PlainVars(vars) && vars.Keys == {key}
    ensures Replace(s, Placeholder(key), vars[key]) == Simultaneous(s, vars)
    decreases |s|
  {
    if s == "" {
    } else if StartsWithKnown(s, vars) {
      KnownIffPrefix(s, vars, key);
      assert LeadingName(s, vars) == key;
      var rest := s[|key| + 3..];
      SingleKey(rest, key, vars);
      assert Replace(s, Placeholder(key), vars[key]) == vars[key] + Replace(rest, Placeholder(key), vars[key]);
    } else {
      KnownIffPrefix(s, vars, key);
      SingleKey(s[1..], key, vars);
      assert Simultaneous(s, vars) == [s[0]] + Simultaneous(s[1..], vars);
    }
  }

  lemma OneKeyIsSimultaneous(vars: map<string, string>, key: string)
    requires PlainVars(vars) && vars.Keys == {key}
    ensures EveryOrderIsSimultaneous(vars)
  {
    forall s, order | NoNesting(s, false) && Enumerates(order, vars)
      ensures Sequential(s, order, vars) == Simultaneous(s, vars)
    {
      assert key in order;
      forall i | 0 <= i < |order| ensures order[i] == key {
        assert order[i] in order;
      }
      assert order[0] == order[|order| - 1];
      assert order[1..] == [];
      SingleKey(s, key, vars);
    }
  }

  lemma OneReadingIsOneText(vars: map<string, string>)
    ensures EveryOrderIsSimultaneous(vars) ==> OrderIndependent(vars)
  {
  }

  lemma TwoKeysBreak(vars: map<string, string>, empty: string)
    requires PlainVars(vars) && empty in vars && vars[empty] == "" && |vars| > 1
    ensures !OrderIndependent(vars)
  {
    assert vars.Keys - {empty} != {} by {
      if vars.Keys <= {empty} { SubsetSize(vars.Keys, {empty}); }
    }
    var other :| other in vars.Keys - {empty};
    var a, b := EmptyValueBreaks(vars, empty, other);
    assert Sequential(Trap(empty, other), a, vars) != Sequential(Trap(empty, other), b, vars);
  }

  lemma OneKeyOrNoEmptyValue(vars: map<string, string>)
    requires PlainVars(vars) && (NoEmptyValue(vars) || |vars| <= 1)
    ensures EveryOrderIsSimultaneous(vars)
  {
    if NoEmptyValue(vars) {
      forall s, order | NoNesting(s, false) && Enumerates(order, vars)
        ensures Sequential(s, order, vars) == Simultaneous(s, vars)
      {
        AnyOrderIsSimultaneous(s, order, vars);
      }
    } else {
      var key :| key in vars.Keys;
      assert vars.Keys == {key} by {
        if other :| other in vars.Keys && other != key { SubsetSize({key, other}, vars.Keys); }
      }
      OneKeyIsSimultaneous(vars, key);
    }
  }

  /** Any two iteration orders give the same text, on every template without nesting, exactly
      when no value is empty or there is at most one key; then it is the simultaneous
      substitution. */
  lemma OrderIndependentIff(vars: map<string, string>)
    requires PlainVars(vars)
    ensures OrderIndependent(vars) <==> NoEmptyValue(vars) || |vars| <= 1
    ensures EveryOrderIsSimultaneous(vars) <==> NoEmptyValue(vars) || |vars| <= 1
  {
    OneReadingIsOneText(vars);
    if NoEmptyValue(vars) || |vars| <= 1 {
      OneKeyOrNoEmptyValue(vars);
    } else {
      var empty :| empty in vars && vars[empty] == "";
      TwoKeysBreak(vars, empty);
    }
  }
}
