/** What the extract-then-replace loop of references.rs means: one simultaneous,
    left-to-right substitution, as long as names carry no braces and values no
    placeholders or halves of one. */
module Substitution {
  import opened Text
  import opened References

  predicate NoBrace(s: string) {
    '{' !in s && '}' !in s
  }

  predicate PlainNames(s: string) {
    forall p | p in Extract(s) :: NoBrace(p)
  }

  /** Every `{` is followed, inside the text, by something else. */
  predicate Quiet(w: string) {
    forall i | 0 <= i < |w| && w[i] == '{' :: i + 1 < |w| && w[i + 1] != '{'
  }

  /** Scanned for placeholders, the value shows empty pairs at most, and leaves no `{`
      open behind itself. Printed JSON mostly does, for all its braces. */
  predicate Harmless(value: string)
    decreases |value|
  {
    match FirstToken(value)
    case None => Quiet(value)
    case Some(t) => t.name == "" && Harmless(t.rest)
  }

  predicate PlainValues(look: Lookup, ps: seq<string>) {
    forall p | p in ps && look(p).Some? :: Harmless(look(p).value)
  }

  function Filled(name: string, look: Lookup): string {
    if name != "" && look(name).Some? then look(name).value else Pattern(name)
  }

  /** Simultaneous substitution: every token is read from the original text. */
  function Subst(s: string, look: Lookup): string
    decreases |s|
  {
    match FirstToken(s)
    case None => s
    case Some(t) => t.before + Filled(t.name, look) + Subst(t.rest, look)
  }

  function Unresolved(ps: seq<string>, look: Lookup): seq<string> {
    if ps == [] then []
    else (if look(ps[0]).None? then [ps[0]] else []) + Unresolved(ps[1..], look)
  }

  // ─── Where tokens start ───────────────────────────────────────────

  lemma PairAt(s: string, pat: string, k: nat)
    requires |pat| == 2
    ensures At(s, pat, k) <==> k + 1 < |s| && s[k] == pat[0] && s[k + 1] == pat[1]
  {
    if k + 1 < |s| {
      assert s[k..k + 2] == [s[k], s[k + 1]];
      assert pat == [pat[0], pat[1]];
    }
  }

  /** The text before the first opening pair is quiet. */
  lemma BeforeIsQuiet(s: string)
    requires SplitOnce(s, "{{").Some?
    ensures Quiet(SplitOnce(s, "{{").value.0)
  {
    FindFirst(s, "{{");
    var o := Find(s, "{{").value;
    PairAt(s, "{{", o);
    forall i | 0 <= i < o && s[i] == '{' ensures i + 1 < o && s[i + 1] != '{' {
      PairAt(s, "{{", i);
    }
  }

  lemma QuietPrefixSplits(w: string, t: string)
    requires Quiet(w)
    ensures SplitOnce(w + t, "{{") ==
            match SplitOnce(t, "{{") case None => None case Some((b, i)) => Some((w + b, i))
  {
    forall k: nat | k < |w| ensures !At(w + t, "{{", k) { PairAt(w + t, "{{", k); }
    FindShift(w, t, "{{");
  }

  lemma OpenSplits(rest: string)
    ensures SplitOnce("{{" + rest, "{{") == Some(("", rest))
  {
    PairAt("{{" + rest, "{{", 0);
    FindIs("{{" + rest, "{{", 0);
    assert ("{{" + rest)[2..] == rest;
  }

  lemma CloseSplits(name: string, rest: string)
    requires NoBrace(name)
    ensures SplitOnce(name + "}}" + rest, "}}") == Some((name, rest))
  {
    var s := name + "}}" + rest;
    forall k: nat | k <= |name| ensures At(s, "}}", k) <==> k == |name| {
      PairAt(s, "}}", k);
    }
    FindIs(s, "}}", |name|);
    assert s[..|name|] == name && s[|name| + 2..] == rest;
  }

  lemma FirstTokenIs(before: string, name: string, rest: string)
    requires Quiet(before) && NoBrace(name)
    ensures FirstToken(before + Pattern(name) + rest) == Some(Token(before, name, rest))
  {
    var inside := name + "}}" + rest;
    assert before + Pattern(name) + rest == before + ("{{" + inside);
    OpenSplits(inside);
    QuietPrefixSplits(before, "{{" + inside);
    CloseSplits(name, rest);
    assert before + "" == before;
  }

  lemma QuietPrefixToken(w: string, t: string)
    requires Quiet(w)
    ensures FirstToken(w + t) ==
            match FirstToken(t) case None => None case Some(k) => Some(Token(w + k.before, k.name, k.rest))
  {
    QuietPrefixSplits(w, t);
  }

  lemma HarmlessBehind(w: string, v: string)
    requires Quiet(w) && Harmless(v)
    ensures Harmless(w + v)
  {
    QuietPrefixToken(w, v);
  }

  lemma TokenShape(s: string)
    requires FirstToken(s).Some? && PlainNames(s)
    ensures var t := FirstToken(s).value;
            && Quiet(t.before) && NoBrace(t.name) && PlainNames(t.rest)
            && s == t.before + Pattern(t.name) + t.rest
  {
    var t := FirstToken(s).value;
    BeforeIsQuiet(s);
    TokenCuts(s);
    if t.name != "" { assert t.name in Extract(s); }
    assert forall p | p in Extract(t.rest) :: p in Extract(s);
  }

  // ─── The result of a substitution, read again ─────────────────────

  lemma {:induction false} SubstReads(s: string, f: Lookup, g: Lookup)
    requires forall p | p in Extract(s) :: f(p) == g(p)
    ensures Subst(s, f) == Subst(s, g)
    decreases |s|
  {
    if FirstToken(s).Some? {
      var t := FirstToken(s).value;
      assert forall p | p in Extract(t.rest) :: p in Extract(s);
      if t.name != "" { assert t.name in Extract(s); }
      SubstReads(t.rest, f, g);
    }
  }

  /** First `f`, then `g` on what `f` left. */
  function Then(f: Lookup, g: Lookup): Lookup {
    p => if f(p).Some? then f(p) else g(p)
  }

  /** Filling in harmless values leaves exactly the unresolved placeholders,
      in their order, and two substitutions compose into one. */
  lemma {:induction false} SubstAgain(s: string, f: Lookup, g: Lookup)
    requires PlainNames(s) && PlainValues(f, Extract(s))
    ensures Extract(Subst(s, f)) == Unresolved(Extract(s), f)
    ensures Subst(Subst(s, f), g) == Subst(s, Then(f, g))
    decreases |s|
  {
    if FirstToken(s).Some? {
      var t := FirstToken(s).value;
      TokenShape(s);
      assert forall p | p in Extract(t.rest) :: p in Extract(s);
      SubstAgain(t.rest, f, g);
      var tail := Subst(t.rest, f);
      if t.name != "" && f(t.name).Some? {
        assert t.name in Extract(s);
        FilledToken(t.before, f(t.name).value, tail, g);
        assert Unresolved(Extract(s), f) == Unresolved(Extract(t.rest), f);
      } else {
        FirstTokenIs(t.before, t.name, tail);
        UnresolvedHead(t.name, Extract(t.rest), f);
      }
    } else {
      SubstNoToken(s, f);
      assert Extract(s) == [];
    }
  }

  lemma SubstNoToken(s: string, f: Lookup)
    requires FirstToken(s).None?
    ensures Subst(s, f) == s && Extract(s) == []
  {
  }

  lemma QuietPrefix(w: string, tail: string, g: Lookup)
    requires Quiet(w)
    ensures Extract(w + tail) == Extract(tail)
    ensures Subst(w + tail, g) == w + Subst(tail, g)
  {
    QuietPrefixToken(w, tail);
    if FirstToken(tail).Some? {
      var t := FirstToken(tail).value;
      AppendAssoc3(w, t.before, Filled(t.name, g), Subst(t.rest, g));
    }
  }

  lemma {:induction false} FilledPrefix(w: string, tail: string, g: Lookup)
    requires Harmless(w)
    ensures Extract(w + tail) == Extract(tail)
    ensures Subst(w + tail, g) == w + Subst(tail, g)
    decreases |w|
  {
    if FirstToken(w).None? {
      QuietPrefix(w, tail, g);
    } else {
      var t := FirstToken(w).value;
      TokenCuts(w);
      BeforeIsQuiet(w);
      FilledPrefix(t.rest, tail, g);
      FirstTokenIs(t.before, t.name, t.rest + tail);
      AppendAssoc(t.before + Pattern(t.name), t.rest, tail);
      AppendAssoc(t.before + Pattern(t.name), t.rest, Subst(tail, g));
    }
  }

  lemma FilledToken(before: string, value: string, tail: string, g: Lookup)
    requires Quiet(before) && Harmless(value)
    ensures Extract(before + value + tail) == Extract(tail)
    ensures Subst(before + value + tail, g) == before + value + Subst(tail, g)
  {
    HarmlessBehind(before, value);
    FilledPrefix(before + value, tail, g);
  }

  lemma UnresolvedHead(name: string, ps: seq<string>, f: Lookup)
    requires name == "" || f(name).None?
    ensures Unresolved((if name == "" then [] else [name]) + ps, f) == (if name == "" then [] else [name]) + Unresolved(ps, f)
  {
    if name == "" {
      assert [] + ps == ps;
    } else {
      assert ([name] + ps)[1..] == ps;
    }
  }

  // ─── One replacement ──────────────────────────────────────────────

  function Only(name: string, value: string): Lookup {
    p => if p == name then Some(value) else None
  }

  lemma PatternAt(s: string, name: string, k: nat)
    requires NoBrace(name) && name != "" && At(s, Pattern(name), k)
    ensures At(s, "{{", k) && At(s[k + 2..], name + "}}", 0) && !(s[k + 2] in "{}")
    ensures At(s[k + 2..], "}}", |name|)
  {
    var cut := s[k..k + |Pattern(name)|];
    assert forall i | 0 <= i < |cut| :: cut[i] == s[k + i];
    assert cut == "{{" + (name + "}}");
    assert cut[..2] == "{{" && cut[2..] == name + "}}" && cut[2] == name[0];
    assert s[k..k + 2] == cut[..2];
    assert s[k + 2..][..|name| + 2] == cut[2..];
    assert s[k + 2..][|name|..|name| + 2] == cut[2..][|name|..] == "}}";
  }

  /** Up to the end of the first token, a name's pattern stands nowhere but at the
      token itself, and there only under the token's own name. */
  lemma PatternPlaces(s: string, name: string, k: nat)
    requires NoBrace(name) && name != "" && PlainNames(s) && FirstToken(s).Some?
    requires At(s, Pattern(name), k)
    ensures var t := FirstToken(s).value;
            k < |t.before + Pattern(t.name)| ==> k == |t.before| && name == t.name
  {
    var t := FirstToken(s).value;
    TokenShape(s);
    PatternAt(s, name, k);
    PairAt(s, "{{", k);
    var o := |t.before|;
    var inside := t.name + "}}" + t.rest;
    if k < |t.before + Pattern(t.name)| { OpenPairPlace(t.before, t.name, t.rest, k); }
    if k == o {
      DropPrefix(t.before + "{{", inside);
      Regroup(t.before, "{{", t.name, "}}", t.rest);
      SameName(t.name, t.rest, name, inside);
    }
  }

  lemma DropPrefix(a: string, b: string)
    ensures (a + b)[|a|..] == b
  {
  }

  lemma OpenPairPlace(before: string, name: string, rest: string, k: nat)
    requires Quiet(before) && NoBrace(name)
    requires At(before + Pattern(name) + rest, "{{", k) && k < |before + Pattern(name)|
    ensures k == |before|
  {
    PairAt(before + Pattern(name) + rest, "{{", k);
    var token, whole, o := Pattern(name), before + Pattern(name) + rest, |before|;
    assert forall j | 2 <= j < |token| :: token[j] != '{';
    assert forall i | 0 <= i < o :: whole[i] == before[i];
    assert forall i | o <= i < o + |token| :: whole[i] == token[i - o];
  }

  lemma SameName(a: string, rest: string, b: string, inside: string)
    requires NoBrace(a) && NoBrace(b)
    requires inside == a + "}}" + rest && At(inside, b + "}}", 0)
    ensures a == b
  {
    CloseSplits(a, rest);
    AtCuts(inside, b + "}}", 0);
    var after := inside[|b| + 2..];
    assert inside == b + "}}" + after;
    CloseSplits(b, after);
  }

  lemma NoTokenNoPattern(s: string, name: string)
    requires NoBrace(name) && name != "" && FirstToken(s).None?
    ensures Find(s, Pattern(name)).None?
  {
    FindFirst(s, Pattern(name));
    if Find(s, Pattern(name)).Some? {
      var k := Find(s, Pattern(name)).value;
      PatternAt(s, name, k);
      FindFirst(s, "{{");
      var o := Find(s, "{{").value;
      FindFirst(s[o + 2..], "}}");
      PairAt(s[k + 2..], "}}", |name|);
      PairAt(s[o + 2..], "}}", k - o + |name|);
    }
  }

  lemma FindHere(before: string, pat: string, rest: string)
    requires pat != "" && forall k: nat | k < |before| :: !At(before + pat + rest, pat, k)
    ensures Find(before + pat + rest, pat) == Some(|before|)
    ensures (before + pat + rest)[..|before|] == before && (before + pat + rest)[|before| + |pat|..] == rest
  {
    FindIs(before + pat + rest, pat, |before|);
  }

  lemma ReplaceAfter(head: string, rest: string, pat: string, value: string)
    requires pat != "" && forall k: nat | k < |head| :: !At(head + rest, pat, k)
    ensures Replace(head + rest, pat, value) == head + Replace(rest, pat, value)
  {
    FindShift(head, rest, pat);
    if SplitOnce(rest, pat).Some? {
      var (b, r) := SplitOnce(rest, pat).value;
      AppendAssoc3(head, b, value, Replace(r, pat, value));
    }
  }

  /** On brace-free names, replacing one pattern is substituting one name. */
  lemma {:induction false} ReplaceIsSubst(s: string, name: string, value: string)
    requires NoBrace(name) && name != "" && PlainNames(s)
    ensures Replace(s, Pattern(name), value) == Subst(s, Only(name, value))
    decreases |s|
  {
    var pat := Pattern(name);
    if FirstToken(s).None? {
      NoTokenNoPattern(s, name);
    } else {
      var t := FirstToken(s).value;
      TokenShape(s);
      ReplaceIsSubst(t.rest, name, value);
      forall k: nat | At(s, pat, k) && k < |t.before + Pattern(t.name)| ensures k == |t.before| && name == t.name {
        PatternPlaces(s, name, k);
      }
      if t.name == name {
        FindHere(t.before, pat, t.rest);
      } else {
        ReplaceAfter(t.before + Pattern(t.name), t.rest, pat, value);
      }
    }
  }

  // ─── The loop is one simultaneous substitution ────────────────────

  /** The names in `ps`, looked up; every other name stays. */
  function Within(ps: seq<string>, look: Lookup): Lookup {
    p => if p in ps then look(p) else None
  }

  /** Whatever list of names the loop goes through, in whatever order. */
  lemma {:induction false} LoopIsSubst(s: string, ps: seq<string>, look: Lookup)
    requires PlainNames(s) && PlainValues(look, ps)
    requires forall p | p in ps :: NoBrace(p) && p != ""
    ensures ReplaceEach(s, ps, look) == Subst(s, Within(ps, look))
    decreases |ps|
  {
    if ps == [] {
      SubstNothing(s, Within(ps, look));
    } else {
      var p := ps[0];
      assert p in ps && forall q | q in ps[1..] :: q in ps;
      if look(p).None? {
        LoopIsSubst(s, ps[1..], look);
        SubstReads(s, Within(ps, look), Within(ps[1..], look));
      } else {
        var one := Only(p, look(p).value);
        ReplaceIsSubst(s, p, look(p).value);
        var next := Subst(s, one);
        SubstAgain(s, one, Within(ps[1..], look));
        UnresolvedSubset(Extract(s), one);
        LoopIsSubst(next, ps[1..], look);
        SubstReads(s, Then(one, Within(ps[1..], look)), Within(ps, look));
      }
    }
  }

  lemma {:induction false} UnresolvedSubset(ps: seq<string>, look: Lookup)
    ensures forall p :: p in Unresolved(ps, look) <==> p in ps && look(p).None?
  {
    if ps != [] {
      UnresolvedSubset(ps[1..], look);
      assert forall p :: p in ps <==> p == ps[0] || p in ps[1..];
    }
  }

  lemma {:induction false} SubstNothing(s: string, look: Lookup)
    requires forall p | p in Extract(s) :: look(p).None?
    ensures Subst(s, look) == s
    decreases |s|
  {
    if FirstToken(s).Some? {
      var t := FirstToken(s).value;
      TokenCuts(s);
      if t.name != "" { assert t.name in Extract(s); }
      assert forall p | p in Extract(t.rest) :: p in Extract(s);
      SubstNothing(t.rest, look);
    }
  }

  lemma {:induction false} NamesNotEmpty(s: string)
    ensures "" !in Extract(s)
    decreases |s|
  {
    if FirstToken(s).Some? { NamesNotEmpty(FirstToken(s).value.rest); }
  }

  /** MAIN: resolving a text is one left-to-right substitution of the original. */
  lemma ResolveIsSubst(s: string, look: Lookup)
    requires PlainNames(s) && PlainValues(look, Extract(s))
    ensures ResolveText(s, look) == Subst(s, look)
  {
    NamesNotEmpty(s);
    LoopIsSubst(s, Extract(s), look);
    SubstReads(s, Within(Extract(s), look), look);
  }

  /** MAIN: any other order, or repetition, of the same names gives the same text. */
  lemma ResolveInAnyOrder(s: string, ps: seq<string>, look: Lookup)
    requires PlainNames(s) && PlainValues(look, Extract(s))
    requires forall p :: p in ps <==> p in Extract(s)
    ensures ReplaceEach(s, ps, look) == ResolveText(s, look)
  {
    NamesNotEmpty(s);
    LoopIsSubst(s, ps, look);
    SubstReads(s, Within(ps, look), look);
    ResolveIsSubst(s, look);
  }

  /** MAIN: what is left to resolve is exactly what the lookup did not know, and
      resolving again with the same lookup changes nothing. */
  lemma ResolveLeavesUnresolved(s: string, look: Lookup)
    requires PlainNames(s) && PlainValues(look, Extract(s))
    ensures Extract(ResolveText(s, look)) == Unresolved(Extract(s), look)
    ensures ResolveText(ResolveText(s, look), look) == ResolveText(s, look)
  {
    var r := ResolveText(s, look);
    ResolveIsSubst(s, look);
    SubstAgain(s, look, look);
    UnresolvedSubset(Extract(s), look);
    ResolveIsSubst(r, look);
    SubstNothing(r, look);
  }

  lemma OneToken(a: string, rest: string, look: Lookup)
    requires NoBrace(a) && a != ""
    ensures Extract(Pattern(a) + rest) == [a] + Extract(rest)
    ensures Subst(Pattern(a) + rest, look) == Filled(a, look) + Subst(rest, look)
  {
    FirstTokenIs("", a, rest);
    assert "" + Pattern(a) + rest == Pattern(a) + rest;
    assert "" + Filled(a, look) == Filled(a, look);
  }

  lemma TwoTokens(a: string, b: string, look: Lookup)
    requires NoBrace(a) && NoBrace(b) && a != "" && b != ""
    ensures Extract(Pattern(a) + Pattern(b)) == [a, b]
    ensures Subst(Pattern(a) + Pattern(b), look) == Filled(a, look) + Filled(b, look)
  {
    OneToken(b, "", look);
    SubstNoToken("", look);
    assert Pattern(b) + "" == Pattern(b) && Filled(b, look) + "" == Filled(b, look);
    OneToken(a, Pattern(b), look);
  }

  lemma ReplaceTwo(s: string, a: string, b: string, look: Lookup)
    requires look(a).Some? && look(b).Some?
    ensures ReplaceEach(s, [a, b], look) == Replace(Replace(s, Pattern(a), look(a).value), Pattern(b), look(b).value)
  {
    var t := Replace(s, Pattern(a), look(a).value);
    assert [a, b][1..] == [b] && [b][1..] == [];
    assert ReplaceEach(t, [b], look) == Replace(t, Pattern(b), look(b).value);
  }

  lemma ReplaceInPair(a: string, b: string, name: string, v: string)
    requires NoBrace(a) && NoBrace(b) && NoBrace(name) && a != "" && b != "" && name != ""
    ensures Replace(Pattern(a) + Pattern(b), Pattern(name), v) ==
            (if a == name then v else Pattern(a)) + (if b == name then v else Pattern(b))
  {
    TwoTokens(a, b, Only(name, v));
    ReplaceIsSubst(Pattern(a) + Pattern(b), name, v);
  }

  /** Without the hypothesis on values the reading fails: a value that spells a
      later placeholder is itself replaced. */
  lemma ValueWithBracesIsRescanned(a: string, b: string, x: string, look: Lookup)
    requires NoBrace(a) && NoBrace(b) && a != "" && b != "" && a != b && NoBrace(x)
    requires look(a) == Some(Pattern(b)) && look(b) == Some(x)
    ensures ResolveText(Pattern(a) + Pattern(b), look) == x + x
    ensures Subst(Pattern(a) + Pattern(b), look) == Pattern(b) + x
    ensures x + x != Pattern(b) + x
  {
    var s := Pattern(a) + Pattern(b);
    TwoTokens(a, b, look);
    ReplaceInPair(a, b, a, Pattern(b));
    ReplaceInPair(b, b, b, x);
    ReplaceTwo(s, a, b, look);
    assert (Pattern(b) + x)[0] == '{';
    assert x != "" ==> (x + x)[0] == x[0];
  }

  // ─── Exactly which values are harmless ────────────────────────────

  /** A value that is not harmless, and the text behind it that completes what it leaves. */
  lemma {:induction false} HarmfulShows(v: string) returns (suffix: string)
    requires !Harmless(v)
    ensures (suffix == "" || suffix == "x}}" || suffix == "{x}}") && Extract(v + suffix) != []
    decreases |v|
  {
    if FirstToken(v).Some? {
      var t := FirstToken(v).value;
      if t.name != "" {
        suffix := "";
        assert v + suffix == v;
      } else {
        suffix := HarmfulShows(t.rest);
        TokenCuts(v);
        BeforeIsQuiet(v);
        FirstTokenIs(t.before, t.name, t.rest + suffix);
        AppendAssoc(t.before + Pattern(t.name), t.rest, suffix);
      }
    } else if SplitOnce(v, "{{").Some? {
      suffix := "x}}";
      OpenPairShows(v, "x", suffix);
    } else {
      suffix := "{x}}";
      OpenBraceShows(v, "x", suffix);
    }
  }

  /** Behind a pair that nothing closes, a name and a closing pair make a placeholder. */
  lemma OpenPairShows(v: string, x: string, suffix: string)
    requires FirstToken(v).None? && SplitOnce(v, "{{").Some? && x == "x" && suffix == x + "}}"
    ensures Extract(v + suffix) != []
  {
    var (before, inside) := SplitOnce(v, "{{").value;
    SplitOnceCuts(v, "{{");
    BeforeIsQuiet(v);
    OpenedToken(before, inside, "{{", suffix);
    ClosesLater(inside, x, suffix);
  }

  lemma EmptyBehind(s: string)
    ensures s + "" == s
  {
  }

  lemma OpenedToken(before: string, inside: string, pair: string, suffix: string)
    requires Quiet(before) && pair == "{{"
    ensures SplitOnce(before + pair + inside + suffix, "{{") == Some((before, inside + suffix))
  {
    OpenSplits(inside + suffix);
    AppendAssoc3(before, pair, inside, suffix);
    AppendAssoc(pair, inside, suffix);
    QuietPrefixSplits(before, pair + inside + suffix);
    EmptyBehind(before);
  }

  lemma ClosesLater(inside: string, x: string, suffix: string)
    requires SplitOnce(inside, "}}").None? && x == "x" && suffix == x + "}}"
    ensures SplitOnce(inside + suffix, "}}") == Some((inside + x, ""))
  {
    var s := inside + suffix;
    FindFirst(inside, "}}");
    forall k: nat | k <= |inside| + 1 ensures At(s, "}}", k) <==> k == |inside| + 1 {
      PairAt(s, "}}", k);
      PairAt(inside, "}}", k);
    }
    FindIs(s, "}}", |inside| + 1);
    assert s[..|inside| + 1] == inside + x && s[|inside| + 3..] == "";
  }

  lemma NoPairAt(v: string, i: nat)
    requires SplitOnce(v, "{{").None? && i + 1 < |v| && v[i] == '{'
    ensures v[i + 1] != '{'
  {
    FindFirst(v, "{{");
    PairAt(v, "{{", i);
  }

  /** Without an opening pair, only a last brace can be open. */
  lemma LastBrace(v: string) returns (w: string)
    requires SplitOnce(v, "{{").None? && !Quiet(v)
    ensures v == w + "{" && Quiet(w)
  {
    var i :| 0 <= i < |v| && v[i] == '{' && !(i + 1 < |v| && v[i + 1] != '{');
    if i + 1 < |v| { NoPairAt(v, i); }
    w := v[..i];
    forall j | 0 <= j < i && w[j] == '{' ensures j + 1 < i && w[j + 1] != '{' { NoPairAt(v, j); }
  }

  /** Behind a last brace, so do another brace, a name and a closing pair. */
  lemma OpenBraceShows(v: string, x: string, suffix: string)
    requires SplitOnce(v, "{{").None? && !Quiet(v) && x == "x" && suffix == "{" + x + "}}"
    ensures Extract(v + suffix) != []
  {
    var w := LastBrace(v);
    FirstTokenIs(w, x, "");
    assert v + suffix == w + Pattern(x) + "";
  }

  lemma SuffixIsPlain(p: string, suffix: string)
    requires NoBrace(p) && p != "" && (suffix == "" || suffix == "x}}" || suffix == "{x}}")
    ensures Extract(Pattern(p) + suffix) == [p]
  {
    forall k: nat ensures !At(suffix, "{{", k) { PairAt(suffix, "{{", k); }
    FindNone(suffix, "{{");
    OneToken(p, suffix, Only(p, ""));
  }

  /** In a text of one placeholder and a suffix, the placeholder becomes its value. */
  lemma ResolveOne(p: string, v: string, suffix: string, look: Lookup)
    requires NoBrace(p) && p != "" && look(p) == Some(v) && Extract(Pattern(p) + suffix) == [p]
    ensures ResolveText(Pattern(p) + suffix, look) == v + suffix
  {
    var s := Pattern(p) + suffix;
    OneToken(p, suffix, Only(p, v));
    assert Extract(suffix) == [] by { assert [p] + Extract(suffix) == [p]; }
    ReplaceIsSubst(s, p, v);
    SubstNothing(suffix, Only(p, v));
    assert [p][1..] == [];
    assert ReplaceEach(Replace(s, Pattern(p), v), [], look) == Replace(s, Pattern(p), v);
  }

  /** Every text in which only `p` is a placeholder is resolved completely. */
  ghost predicate NeverLeaks(p: string, look: Lookup) {
    forall s: string | Extract(s) == [p] :: Extract(ResolveText(s, look)) == []
  }

  /** MAIN: the boundary. A value can be filled in everywhere without making a
      placeholder the text did not have if and only if it is harmless. */
  lemma HarmlessIff(p: string, v: string, look: Lookup)
    requires NoBrace(p) && p != "" && look(p) == Some(v)
    ensures Harmless(v) <==> NeverLeaks(p, look)
  {
    if Harmless(v) {
      forall s: string | Extract(s) == [p] ensures Extract(ResolveText(s, look)) == [] {
        ResolveLeavesUnresolved(s, look);
      }
    } else {
      var suffix := HarmfulShows(v);
      SuffixIsPlain(p, suffix);
      ResolveOne(p, v, suffix, look);
      assert Extract(Pattern(p) + suffix) == [p] && Extract(ResolveText(Pattern(p) + suffix, look)) != [];
    }
  }
}
