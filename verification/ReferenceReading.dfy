/** What a placeholder in a note means: which block it runs, and which text takes its place. */
module ReferenceReading {
  import opened Text
  import opened Json
  import opened Blocks
  import opened References
  import opened Substitution
  import opened Runner
  import opened RunnerTheorems
  import opened RunnerExactness

  // ─── Alias and path ───────────────────────────────────────────────

  /** The alias ends at the first dot. */
  lemma AliasEndsAtFirstDot(p: string)
    requires '.' in p
    ensures var a := ExtractAlias(p); '.' !in a && StartsWith(p, a + ".")
  {
    var a := ExtractAlias(p);
    assert p[..|a| + 1] == a + ".";
  }

  /** `alias.path`, the path neither empty nor starting with another dot. */
  predicate PathText(path: string) {
    path != "" && path[0] != '.'
  }

  lemma AliasOfReference(a: string, path: string)
    requires '.' !in a
    ensures var p := a + "." + path; IsBlockReference(p) && ExtractAlias(p) == a && p[|a|..] == "." + path
  {
    var p := a + "." + path;
    FindCharIs(a, '.', path);
    assert p == a + ['.'] + path && p[|a|] == '.' && p[..|a|] == a;
  }

  lemma DotIsDropped(behind: string, dot: string, path: string)
    requires dot == "." && behind == dot + path && PathText(path)
    ensures TrimStartDots(behind) == path
  {
    assert behind[1..] == path;
  }

  lemma ReferenceSplits(a: string, path: string)
    requires '.' !in a && PathText(path)
    ensures var p := a + "." + path;
            IsBlockReference(p) && ExtractAlias(p) == a && PathParts(p) == Split(path, '.')
  {
    AliasOfReference(a, path);
    DotIsDropped((a + "." + path)[|a|..], ".", path);
  }

  // ─── Navigation, step by step ─────────────────────────────────────

  predicate PlainKey(key: string) {
    key != "" && key != "__proto__" && key != "constructor" && key != "prototype" && ParseU64(key).None?
  }

  /** An object is entered by key. */
  lemma NavigateKey(fields: map<string, Value>, key: string, rest: seq<string>)
    requires PlainKey(key)
    ensures Navigate(Object(fields), [key] + rest) == if key in fields then Navigate(fields[key], rest) else None
  {
    assert ([key] + rest)[1..] == rest;
  }

  /** An array is entered by position, counted from zero, a plus sign in front or not; an
      object never is. */
  lemma NavigateIndex(items: seq<Value>, fields: map<string, Value>, sign: string, i: nat, rest: seq<string>)
    requires i < 0x1_0000_0000_0000_0000 && (sign == "" || sign == "+")
    ensures Navigate(Array(items), [sign + Decimal(i)] + rest) == if i < |items| then Navigate(items[i], rest) else None
    ensures Navigate(Object(fields), [sign + Decimal(i)] + rest) == None
  {
    var key := sign + Decimal(i);
    ParseDecimal(i);
    SignIsPassed(sign, Decimal(i));
    assert ([key] + rest)[1..] == rest;
    NumbersAreNotRefused(key);
  }

  lemma SignIsPassed(sign: string, digits: string)
    requires (sign == "" || sign == "+") && digits != "" && AllDigits(digits)
    ensures ParseU64(sign + digits) == ParseU64(digits)
  {
    assert IsDigit(digits[0]);
    assert sign == "" ==> sign + digits == digits;
    assert sign == "+" ==> (sign + digits)[1..] == digits;
  }

  /** A number that 64 bits cannot hold is a key like any other. */
  lemma HugeNumberIsKey(items: seq<Value>, fields: map<string, Value>, i: nat, rest: seq<string>)
    requires i >= 0x1_0000_0000_0000_0000
    ensures var key := Decimal(i);
            && Navigate(Object(fields), [key] + rest) == (if key in fields then Navigate(fields[key], rest) else None)
            && Navigate(Array(items), [key] + rest) == None
  {
    var key := Decimal(i);
    ParseDecimal(i);
    assert ([key] + rest)[1..] == rest;
    NumbersAreNotRefused(key);
  }

  lemma NumbersAreNotRefused(key: string)
    requires key != "" && (IsDigit(key[0]) || key[0] == '+')
    ensures key !in DANGEROUS_KEYS
  {
  }

  /** Empty parts are passed over; three names are refused, whatever the value. */
  lemma NavigateOther(v: Value, name: string, rest: seq<string>)
    ensures name == "" ==> Navigate(v, [name] + rest) == Navigate(v, rest)
    ensures name == "__proto__" || name == "constructor" || name == "prototype" ==> Navigate(v, [name] + rest) == None
  {
    assert ([name] + rest)[1..] == rest;
  }

  // ─── The text that takes its place ────────────────────────────────

  /** What is filled in for a value: a text itself, nothing for null, others printed. */
  predicate FillsIn(found: Option<Value>, text: Option<string>, render: Value -> string) {
    match found
    case None => text == None
    case Some(Str(s)) => text == Some(s)
    case Some(Null) => text == Some("")
    case Some(v) => text == Some(render(v))
  }

  /** MAIN: a reference is replaced by what its path leads to in the result of its alias. */
  lemma ReferenceReads(a: string, path: string, results: map<string, Value>, vars: map<string, string>, render: Value -> string)
    requires '.' !in a && PathText(path)
    ensures var text := Replacement(a + "." + path, results, vars, render);
            if a in results then FillsIn(Navigate(results[a], Split(path, '.')), text, render) else text == None
  {
    ReferenceSplits(a, path);
  }

  /** A name without a dot is a variable of the environment. */
  lemma VariableReads(name: string, results: map<string, Value>, vars: map<string, string>, render: Value -> string)
    requires '.' !in name
    ensures Replacement(name, results, vars, render) == if name in vars then Some(vars[name]) else None
  {
  }

  /** One placeholder in a text without other braces gives way to its value, whatever
      the value holds. */
  lemma OnePlaceholderIsFilled(before: string, p: string, after: string, look: Lookup)
    requires NoBrace(before) && NoBrace(p) && NoBrace(after) && p != ""
    ensures var s := before + Pattern(p) + after;
            Extract(s) == [p] && ResolveText(s, look) == if look(p).Some? then before + look(p).value + after else s
  {
    var s, found := before + Pattern(p) + after, look(p);
    PlainIsOneName(before, p, after);
    if found.Some? { ReplaceOne(before, Pattern(p), after, found.value); }
    ReplaceEachOne(s, p, look);
  }

  lemma PlainIsOneName(before: string, p: string, after: string)
    requires NoBrace(before) && NoBrace(p) && NoBrace(after) && p != ""
    ensures Extract(before + Pattern(p) + after) == [p]
  {
    PlainHasNoToken(after);
    FirstTokenIs(before, p, after);
    assert [p] + Extract(after) == [p];
  }

  lemma ReplaceEachOne(s: string, p: string, look: Lookup)
    ensures ReplaceEach(s, [p], look) == if look(p).Some? then Replace(s, Pattern(p), look(p).value) else s
  {
    assert [p][1..] == [];
  }

  lemma PlainHasNoToken(s: string)
    requires NoBrace(s)
    ensures Extract(s) == []
  {
    forall k: nat ensures !At(s, "{{", k) { PairAt(s, "{{", k); }
    FindNone(s, "{{");
  }

  /** A pattern is not found where its first character is not. */
  lemma NotAtOther(s: string, pat: string, j: nat)
    requires pat != "" && (j < |s| ==> s[j] != pat[0])
    ensures !At(s, pat, j)
  {
    if j + |pat| <= |s| { assert s[j..j + |pat|][0] == s[j]; }
  }

  lemma ReplaceOne(before: string, pat: string, after: string, value: string)
    requires NoBrace(before) && NoBrace(after) && pat != "" && pat[0] == '{'
    ensures Replace(before + pat + after, pat, value) == before + value + after
  {
    var s := before + pat + after;
    forall j: nat | j < |before| ensures !At(s, pat, j) { NotAtOther(s, pat, j); }
    assert s[|before|..|before| + |pat|] == pat;
    FindIs(s, pat, |before|);
    assert s[..|before|] == before && s[|before| + |pat|..] == after;
    forall j: nat ensures !At(after, pat, j) { NotAtOther(after, pat, j); }
    FindNone(after, pat);
  }

  // ─── Texts inside JSON values ─────────────────────────────────────

  /** One step into a JSON value. */
  datatype Step = Field(key: string) | Position(index: nat)

  /** What a way leads to. */
  function Inside(v: Value, way: seq<Step>): Option<Value>
    decreases |way|
  {
    if way == [] then Some(v)
    else
      match (way[0], v)
      case (Field(k), Object(fields)) => if k in fields then Inside(fields[k], way[1..]) else None
      case (Position(i), Array(items)) => if i < |items| then Inside(items[i], way[1..]) else None
      case _ => None
  }

  /** A text gives way to its resolved form; everything else is of the same shape. */
  predicate OnlyTextsChange(before: Option<Value>, after: Option<Value>, look: Lookup) {
    match (before, after)
    case (Some(Str(s)), Some(v)) => v == Str(ResolveText(s, look))
    case (Some(Array(items)), Some(v)) => v.Array? && |v.items| == |items|
    case (Some(Object(fields)), Some(v)) => v.Object? && v.fields.Keys == fields.Keys
    case _ => before == after
  }

  /** MAIN: wherever a way leads in a value, resolving changes the text it finds there, and
      nothing that is not a text. */
  lemma {:induction false} ResolveShape(v: Value, look: Lookup, way: seq<Step>)
    ensures OnlyTextsChange(Inside(v, way), Inside(ResolveValue(v, look), way), look)
    decreases |way|
  {
    if way != [] {
      match (way[0], v)
      case (Field(k), Object(fields)) => if k in fields { ResolveShape(fields[k], look, way[1..]); }
      case (Position(i), Array(items)) => if i < |items| { ResolveShape(items[i], look, way[1..]); }
      case _ =>
    }
  }

  lemma ItemIsSearched(items: seq<Value>, i: nat)
    requires i < |items|
    ensures Placeholders(items[i]) <= Placeholders(Array(items))
  {
    forall p | p in Placeholders(items[i]) ensures p in Placeholders(Array(items)) {
      assert 0 <= i < |items| && p in Placeholders(items[i]);
    }
  }

  lemma FieldIsSearched(fields: map<string, Value>, k: string)
    requires k in fields
    ensures Placeholders(fields[k]) <= Placeholders(Object(fields))
  {
    forall p | p in Placeholders(fields[k]) ensures p in Placeholders(Object(fields)) {
      assert k in fields && p in Placeholders(fields[k]);
    }
  }

  /** The placeholders of every text of a value are found. */
  lemma {:induction false} TextIsSearched(v: Value, way: seq<Step>)
    ensures var found := Inside(v, way);
            found.Some? && found.value.Str? ==> forall p | p in Extract(found.value.text) :: p in Placeholders(v)
    decreases |way|
  {
    if way != [] {
      match (way[0], v)
      case (Field(k), Object(fields)) => if k in fields { TextIsSearched(fields[k], way[1..]); FieldIsSearched(fields, k); }
      case (Position(i), Array(items)) => if i < |items| { TextIsSearched(items[i], way[1..]); ItemIsSearched(items, i); }
      case _ =>
    }
  }

  /** The text a placeholder of a value stands in. */
  lemma {:induction false} PlaceholderHasText(v: Value, p: string) returns (way: seq<Step>)
    requires p in Placeholders(v)
    ensures var found := Inside(v, way); found.Some? && found.value.Str? && p in Extract(found.value.text)
  {
    match v
    case Str(_) => way := [];
    case Array(items) =>
      var i :| 0 <= i < |items| && p in Placeholders(items[i]);
      var rest := PlaceholderHasText(items[i], p);
      way := [Position(i)] + rest;
      assert way[1..] == rest;
    case Object(fields) =>
      var k :| k in fields && p in Placeholders(fields[k]);
      var rest := PlaceholderHasText(fields[k], p);
      way := [Field(k)] + rest;
      assert way[1..] == rest;
  }

  // ─── The block it runs ────────────────────────────────────────────

  lemma {:induction false} ReferenceIsDep(blocks: seq<ParsedBlock>, i: nat, ps: seq<string>, p: string)
    requires i < |blocks| && p in ps && IsDependency(blocks, i, p)
    ensures ExtractAlias(p) in DepsOf(blocks, i, ps)
  {
    if ps[0] != p { ReferenceIsDep(blocks, i, ps[1..], p); }
  }

  /** A block's reference to the alias of a block above it is one of its dependencies. */
  lemma ReferenceAboveIsDep(blocks: seq<ParsedBlock>, i: nat, j: nat, a: string, path: string)
    requires Ordered(blocks) && j < i < |blocks| && blocks[j].alias == Some(a)
    requires '.' !in a && PathText(path) && a + "." + path in Placeholders(blocks[i].params)
    ensures a in Deps(blocks, i)
  {
    var p := a + "." + path;
    ReferenceSplits(a, path);
    SortedElementsAre(Placeholders(blocks[i].params));
    BlocksAboveAre(blocks, blocks[i].lineStart);
    assert blocks[j] in BlocksAbove(blocks, blocks[i].lineStart);
    ReferenceIsDep(blocks, i, ExtractPlaceholders(blocks[i].params), p);
  }

  /** The last block of a successful run: its dependencies are in front of it, and it was
      called with what they gave. */
  lemma LastCall(blocks: seq<ParsedBlock>, host: Host, target: string, i: nat)
    requires Ordered(blocks) && FindBlockByAlias(blocks, target) == Some(i) && Run(blocks, host, target).1.Ok?
    ensures var st := Run(blocks, host, target).0;
            var k := |st.trace| - 1;
            && k >= 0 && st.trace[k] == target && target in st.executed && (forall a | a in Deps(blocks, i) :: a in st.trace[..k])
            && (forall a | a in st.trace :: a in st.executed)
            && host.execute(Canonicalize(host.registry, blocks[i].blockType), Resolved(blocks[i], host, Earlier(st.executed, st.trace, k)))
               == Ok(st.executed[target])
  {
    var st := Run(blocks, host, target).0;
    var k := |st.trace| - 1;
    RunOrder(blocks, host, target);
    RunStores(blocks, host, target);
    assert StoredAt(blocks, host, st.executed, st.trace, k);
  }

  /** MAIN: a successful run of a block has run the block above it that a reference names,
      and before it; its own request was resolved with that block's result. */
  lemma ReferredBlockRunsFirst(blocks: seq<ParsedBlock>, host: Host, target: string, i: nat, j: nat, a: string, path: string)
    requires Ordered(blocks) && FindBlockByAlias(blocks, target) == Some(i)
    requires j < i && blocks[j].alias == Some(a) && '.' !in a && PathText(path)
    requires a + "." + path in Placeholders(blocks[i].params) && Run(blocks, host, target).1.Ok?
    ensures var st := Run(blocks, host, target).0;
            var k := |st.trace| - 1;
            && k >= 0 && st.trace[k] == target && a in st.trace[..k] && a in st.executed && target in st.executed
            && host.execute(Canonicalize(host.registry, blocks[i].blockType), Resolved(blocks[i], host, Earlier(st.executed, st.trace, k)))
               == Ok(st.executed[target])
  {
    ReferenceAboveIsDep(blocks, i, j, a, path);
    LastCall(blocks, host, target, i);
    var st := Run(blocks, host, target).0;
    assert a in st.trace[..|st.trace| - 1] ==> a in st.trace;
  }

  lemma QueryResolves(block: ParsedBlock, query: string, look: Lookup)
    requires block.params == Object(map["query" := Str(query)])
    ensures ResolveValue(block.params, look) == Object(map["query" := Str(ResolveText(query, look))])
  {
    var fields, done := map["query" := Str(query)], map["query" := Str(ResolveText(query, look))];
    assert forall k :: k in fields <==> k in done;
  }

  /** MAIN: the query a run sends for `before {{a.path}} after` has, in place of the
      placeholder, what the path leads to in the result of the block above. */
  lemma QueryIsFilled(blocks: seq<ParsedBlock>, host: Host, target: string, i: nat, j: nat, a: string, path: string, before: string, after: string)
    returns (sent: string)
    requires Ordered(blocks) && FindBlockByAlias(blocks, target) == Some(i)
    requires j < i && blocks[j].alias == Some(a) && '.' !in a && PathText(path) && NoBrace(a) && NoBrace(path)
    requires NoBrace(before) && NoBrace(after)
    requires blocks[i].params == Object(map["query" := Str(before + Pattern(a + "." + path) + after)])
    requires Run(blocks, host, target).1.Ok?
    ensures var executed := Run(blocks, host, target).0.executed;
            && a in executed && target in executed
            && host.execute(Canonicalize(host.registry, blocks[i].blockType), Object(map["query" := Str(sent)])) == Ok(executed[target])
            && Sent(before, after, Navigate(executed[a], Split(path, '.')), a + "." + path, host.render, sent)
  {
    var st, p := Run(blocks, host, target).0, a + "." + path;
    var s := before + Pattern(p) + after;
    QueryHolds(before, p, after, map["query" := Str(s)]);
    ReferredBlockRunsFirst(blocks, host, target, i, j, a, path);
    var earlier := Earlier(st.executed, st.trace, |st.trace| - 1);
    sent := ResolveText(s, LookupIn(earlier, host.vars, host.render));
    QueryResolves(blocks[i], s, LookupIn(earlier, host.vars, host.render));
    TextIsSent(before, after, a, path, earlier, host.vars, host.render);
  }

  lemma TextIsSent(before: string, after: string, a: string, path: string, results: map<string, Value>, vars: map<string, string>, render: Value -> string)
    requires '.' !in a && PathText(path) && NoBrace(a) && NoBrace(path) && NoBrace(before) && NoBrace(after) && a in results
    ensures var p := a + "." + path;
            Sent(before, after, Navigate(results[a], Split(path, '.')), p, render, ResolveText(before + Pattern(p) + after, LookupIn(results, vars, render)))
  {
    ReferenceReads(a, path, results, vars, render);
    OnePlaceholderIsFilled(before, a + "." + path, after, LookupIn(results, vars, render));
  }

  lemma QueryHolds(before: string, p: string, after: string, fields: map<string, Value>)
    requires NoBrace(before) && NoBrace(p) && NoBrace(after) && p != "" && fields == map["query" := Str(before + Pattern(p) + after)]
    ensures p in Placeholders(Object(fields))
  {
    OnePlaceholderIsFilled(before, p, after, q => None);
    assert p in Placeholders(fields["query"]);
  }

  /** The text that is sent: the value in place, or the placeholder when there is none. */
  predicate Sent(before: string, after: string, found: Option<Value>, p: string, render: Value -> string, sent: string) {
    match found
    case None => sent == before + Pattern(p) + after
    case Some(Str(s)) => sent == before + s + after
    case Some(Null) => sent == before + "" + after
    case Some(v) => sent == before + render(v) + after
  }
}
