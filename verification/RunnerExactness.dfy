/** The hypothesis of the runner's value theorem is tight: a downward read that it
    excludes is seen by some executor. */
module RunnerExactness {
  import opened Text
  import opened Json
  import opened Blocks
  import opened References
  import opened Substitution
  import opened Runner
  import opened RunnerTheorems

  // ─── What a run stores ────────────────────────────────────────────

  /** The results of the first `k` aliases of the trace. */
  function Earlier(executed: map<string, Value>, trace: seq<string>, k: nat): map<string, Value>
    requires k <= |trace|
  {
    map y | y in trace[..k] && y in executed :: executed[y]
  }

  /** The alias at place `k` holds what its block gave on the results before it. */
  predicate StoredAt(blocks: seq<ParsedBlock>, host: Host, executed: map<string, Value>, trace: seq<string>, k: nat)
    requires k < |trace|
  {
    match FindBlockByAlias(blocks, trace[k])
    case None => false
    case Some(i) =>
      && !blocks[i].params.Null? && trace[k] in executed
      && host.execute(Canonicalize(host.registry, blocks[i].blockType), Resolved(blocks[i], host, Earlier(executed, trace, k)))
         == Ok(executed[trace[k]])
  }

  predicate Stored(blocks: seq<ParsedBlock>, host: Host, st: State) {
    forall k {:trigger StoredAt(blocks, host, st.executed, st.trace, k)} | 0 <= k < |st.trace| ::
      StoredAt(blocks, host, st.executed, st.trace, k)
  }

  lemma EarlierStays(executed: map<string, Value>, trace: seq<string>, alias: string, v: Value, k: nat)
    requires k <= |trace| && alias !in executed && forall y | y in trace :: y in executed
    ensures Earlier(executed[alias := v], trace + [alias], k) == Earlier(executed, trace, k)
    ensures (forall y | y in executed :: y in trace) ==> Earlier(executed, trace, |trace|) == executed
  {
    assert (trace + [alias])[..k] == trace[..k];
    assert forall y | y in trace[..k] :: y in trace;
    assert trace[..|trace|] == trace;
  }

  lemma StoredStays(blocks: seq<ParsedBlock>, host: Host, executed: map<string, Value>, trace: seq<string>, alias: string, v: Value, k: nat)
    requires k < |trace| && StoredAt(blocks, host, executed, trace, k)
    requires alias !in executed && forall y | y in trace :: y in executed
    ensures StoredAt(blocks, host, executed[alias := v], trace + [alias], k)
  {
    EarlierStays(executed, trace, alias, v, k);
    assert (trace + [alias])[k] == trace[k];
  }

  lemma StoredLast(blocks: seq<ParsedBlock>, host: Host, executed: map<string, Value>, trace: seq<string>, alias: string, v: Value, i: nat)
    requires FindBlockByAlias(blocks, alias) == Some(i) && !blocks[i].params.Null? && alias !in executed
    requires forall y :: y in trace <==> y in executed
    requires host.execute(Canonicalize(host.registry, blocks[i].blockType), Resolved(blocks[i], host, executed)) == Ok(v)
    ensures StoredAt(blocks, host, executed[alias := v], trace + [alias], |trace|)
  {
    EarlierStays(executed, trace, alias, v, |trace|);
  }

  lemma FinishStores(blocks: seq<ParsedBlock>, host: Host, st: State, alias: string, i: nat)
    requires FindBlockByAlias(blocks, alias) == Some(i) && !blocks[i].params.Null?
    requires Inv(blocks, st) && alias !in st.executed && Stored(blocks, host, st)
    ensures var (st', r) := Finish(blocks[i], host, st, alias); r.Ok? ==> Stored(blocks, host, st')
  {
    var (st', r) := Finish(blocks[i], host, st, alias);
    match r {
      case Err(_) =>
      case Ok(v) =>
        forall k | 0 <= k < |st'.trace| ensures StoredAt(blocks, host, st'.executed, st'.trace, k) {
          if k < |st.trace| {
            assert StoredAt(blocks, host, st.executed, st.trace, k);
            StoredStays(blocks, host, st.executed, st.trace, alias, v, k);
          } else {
            StoredLast(blocks, host, st.executed, st.trace, alias, v, i);
          }
        }
    }
  }

  lemma {:induction false} RunBlockStores(blocks: seq<ParsedBlock>, host: Host, u: set<string>, st: State, alias: string, depth: nat)
    requires Ordered(blocks) && Inv(blocks, st) && ClosedUnderDeps(blocks, u) && alias in u
    requires InProgressFrom(blocks, st, Rank(blocks, alias) + 1) && Stored(blocks, host, st)
    ensures var (st', r) := RunBlock(blocks, host, st, alias, depth); r.Ok? ==> Stored(blocks, host, st')
    decreases MAX_DEPENDENCY_DEPTH + 1 - depth, 1, 0
  {
    if depth <= MAX_DEPENDENCY_DEPTH && alias !in st.executed && FindBlockByAlias(blocks, alias).Some? {
      var i := FindBlockByAlias(blocks, alias).value;
      if !blocks[i].params.Null? {
        var ps, st1 := ExtractPlaceholders(blocks[i].params), st.(inProgress := st.inProgress + {alias});
        RunDependenciesStore(blocks, host, u, st1, i, ps, depth);
        var st2, failed := RunDependenciesKeep(blocks, host, u, st1, i, ps, depth);
        if failed.None? { FinishStores(blocks, host, st2, alias, i); }
      }
    }
  }

  lemma {:induction false} RunDependenciesStore(blocks: seq<ParsedBlock>, host: Host, u: set<string>, st: State, i: nat, ps: seq<string>, depth: nat)
    requires Ordered(blocks) && Inv(blocks, st) && i < |blocks| && depth <= MAX_DEPENDENCY_DEPTH
    requires ClosedUnderDeps(blocks, u) && DepsOf(blocks, i, ps) <= u
    requires InProgressFrom(blocks, st, i) && Stored(blocks, host, st)
    ensures var (st', failed) := RunDependencies(blocks, host, st, i, ps, depth); failed.None? ==> Stored(blocks, host, st')
    decreases MAX_DEPENDENCY_DEPTH + 1 - depth, 0, |ps|
  {
    if ps != [] {
      var alias, st1 := ExtractAlias(ps[0]), st;
      if IsDependency(blocks, i, ps[0]) && alias !in st.executed {
        DependencyIsEarlier(blocks, i, ps[0]);
        RunBlockStores(blocks, host, u, st, alias, depth + 1);
        var r;
        st1, r := RunBlockKeeps(blocks, host, u, st, alias, depth + 1);
        if r.Err? { return; }
      }
      RunDependenciesStore(blocks, host, u, st1, i, ps[1..], depth);
    }
  }

  /** MAIN: a successful run stores for every alias what its block gave on exactly the
      results of the aliases before it in the order. */
  lemma RunStores(blocks: seq<ParsedBlock>, host: Host, target: string)
    requires Ordered(blocks) && Run(blocks, host, target).1.Ok?
    ensures var st := Run(blocks, host, target).0; st.trace == VisitOrder(blocks, target) && Stored(blocks, host, st)
  {
    ClosureIsClosed(blocks, target);
    RunVisits(blocks, host, target);
    RunBlockStores(blocks, host, Closure(blocks, target), START, target, 0);
  }

  // ─── Success does not depend on the executor's answers ────────────

  predicate Alike(s: State, t: State) {
    s.executed.Keys == t.executed.Keys && s.inProgress == t.inProgress && s.trace == t.trace
  }

  /** What runs under one executor runs under one that never fails. */
  lemma {:induction false} RunBlockAlike(blocks: seq<ParsedBlock>, h: Host, g: Host, s: State, t: State, alias: string, depth: nat)
    requires AlwaysSucceeds(g) && Alike(s, t)
    ensures var a, b := RunBlock(blocks, h, s, alias, depth), RunBlock(blocks, g, t, alias, depth); a.1.Ok? ==> b.1.Ok? && Alike(a.0, b.0)
    decreases MAX_DEPENDENCY_DEPTH + 1 - depth, 1, 0
  {
    if depth <= MAX_DEPENDENCY_DEPTH && alias !in s.executed && alias !in s.inProgress && FindBlockByAlias(blocks, alias).Some? {
      var i := FindBlockByAlias(blocks, alias).value;
      if !blocks[i].params.Null? {
        var ps := ExtractPlaceholders(blocks[i].params);
        var s1, t1 := s.(inProgress := s.inProgress + {alias}), t.(inProgress := t.inProgress + {alias});
        RunDependenciesAlike(blocks, h, g, s1, t1, i, ps, depth);
      }
    }
  }

  lemma {:induction false} RunDependenciesAlike(blocks: seq<ParsedBlock>, h: Host, g: Host, s: State, t: State, i: nat, ps: seq<string>, depth: nat)
    requires AlwaysSucceeds(g) && Alike(s, t) && i < |blocks| && depth <= MAX_DEPENDENCY_DEPTH
    ensures var a, b := RunDependencies(blocks, h, s, i, ps, depth), RunDependencies(blocks, g, t, i, ps, depth);
            a.1.None? ==> b.1.None? && Alike(a.0, b.0)
    decreases MAX_DEPENDENCY_DEPTH + 1 - depth, 0, |ps|
  {
    if ps != [] {
      var alias := ExtractAlias(ps[0]);
      if IsDependency(blocks, i, ps[0]) && alias !in s.executed {
        RunBlockAlike(blocks, h, g, s, t, alias, depth + 1);
        var a, b := RunBlock(blocks, h, s, alias, depth + 1), RunBlock(blocks, g, t, alias, depth + 1);
        if a.1.Ok? { RunDependenciesAlike(blocks, h, g, a.0, b.0, i, ps[1..], depth); }
      } else {
        RunDependenciesAlike(blocks, h, g, s, t, i, ps[1..], depth);
      }
    }
  }

  /** The target can run: nothing but the executor can make it fail. */
  predicate CanRun(blocks: seq<ParsedBlock>, target: string) {
    Run(blocks, Host((_: string, _: Value) => Ok(Null), (_: Value) => "", map[], map[]), target).1.Ok?
  }

  lemma CanRunIff(blocks: seq<ParsedBlock>, host: Host, target: string)
    ensures Run(blocks, host, target).1.Ok? ==> CanRun(blocks, target)
    ensures AlwaysSucceeds(host) ==> (Run(blocks, host, target).1.Ok? <==> CanRun(blocks, target))
  {
    var mute := Host((_: string, _: Value) => Ok(Null), (_: Value) => "", map[], map[]);
    RunBlockAlike(blocks, host, mute, START, START, target, 0);
    if AlwaysSucceeds(host) { RunBlockAlike(blocks, mute, host, START, START, target, 0); }
  }

  // ─── A result that answers one path ───────────────────────────────

  function Repeat(n: nat, v: Value): (r: seq<Value>)
    ensures |r| == n && forall k | 0 <= k < n :: r[k] == v
  {
    if n == 0 then [] else Repeat(n - 1, v) + [v]
  }

  /** A value with `leaf` at the end of the path. */
  function Nest(parts: seq<string>, leaf: Value): Value {
    if parts == [] then leaf
    else if parts[0] == "" then Nest(parts[1..], leaf)
    else
      match ParseU64(parts[0])
      case Some(index) => Array(Repeat(index + 1, Nest(parts[1..], leaf)))
      case None => Object(map[parts[0] := Nest(parts[1..], leaf)])
  }

  lemma {:induction false} NestAnswers(parts: seq<string>, leaf: Value)
    requires forall part | part in parts :: part !in DANGEROUS_KEYS
    ensures Navigate(Nest(parts, leaf), parts) == Some(leaf)
  {
    if parts != [] {
      assert parts[0] in parts && forall part | part in parts[1..] :: part in parts;
      NestAnswers(parts[1..], leaf);
    }
  }

  // ─── What is left of a value's placeholders ───────────────────────

  predicate PlainParams(v: Value) {
    forall p | p in Placeholders(v) :: NoBrace(p)
  }

  predicate HarmlessAnswers(look: Lookup, names: set<string>) {
    forall p | p in names && look(p).Some? :: Harmless(look(p).value)
  }

  function Left(names: set<string>, look: Lookup): set<string> {
    set p | p in names && look(p).None?
  }

  /** Resolving a value leaves exactly the placeholders the lookup does not know. */
  lemma {:induction false} ResolveLeaves(v: Value, look: Lookup)
    requires PlainParams(v) && HarmlessAnswers(look, Placeholders(v))
    ensures Placeholders(ResolveValue(v, look)) == Left(Placeholders(v), look)
  {
    match v
    case Str(s) =>
      assert forall p | p in Extract(s) :: p in Placeholders(v);
      ResolveLeavesUnresolved(s, look);
      UnresolvedSubset(Extract(s), look);
    case Array(items) =>
      var r := ResolveValue(v, look);
      forall i | 0 <= i < |items| ensures Placeholders(r.items[i]) == Left(Placeholders(items[i]), look) {
        assert Placeholders(items[i]) <= Placeholders(v);
        ResolveLeaves(items[i], look);
      }
      assert forall p :: p in Placeholders(r) <==> exists i | 0 <= i < |items| :: p in Placeholders(r.items[i]);
    case Object(fields) =>
      var r := ResolveValue(v, look);
      forall k | k in fields ensures Placeholders(r.fields[k]) == Left(Placeholders(fields[k]), look) {
        assert Placeholders(fields[k]) <= Placeholders(v);
        ResolveLeaves(fields[k], look);
      }
      assert forall p :: p in Placeholders(r) <==> exists k | k in fields :: p in Placeholders(r.fields[k]);
    case _ =>
  }

  // ─── Printed results hold no placeholder ──────────────────────────

  /** No brace in any of the value's texts. */
  predicate PlainTexts(v: Value) {
    match v
    case Str(s) => NoBrace(s)
    case Number(t) => NoBrace(t)
    case Array(items) => forall i | 0 <= i < |items| :: PlainTexts(items[i])
    case Object(fields) => forall k | k in fields :: NoBrace(k) && PlainTexts(fields[k])
    case _ => true
  }

  /** The environment fills in harmless values, and values without braces in their texts
      are printed harmlessly, whatever braces the printer adds. */
  ghost predicate FillsHarmlessly(host: Host) {
    && (forall k | k in host.vars :: Harmless(host.vars[k]))
    && (forall v | PlainTexts(v) :: Harmless(host.render(v)))
  }

  lemma {:induction false} NestIsPlain(parts: seq<string>, leaf: Value)
    requires PlainTexts(leaf) && forall part | part in parts :: NoBrace(part)
    ensures PlainTexts(Nest(parts, leaf))
  {
    if parts != [] {
      assert parts[0] in parts && forall part | part in parts[1..] :: part in parts;
      NestIsPlain(parts[1..], leaf);
    }
  }

  lemma {:induction false} NavigateIsPlain(v: Value, path: seq<string>)
    requires PlainTexts(v) && Navigate(v, path).Some?
    ensures PlainTexts(Navigate(v, path).value)
    decreases |path|
  {
    if path != [] {
      if path[0] == "" {
        NavigateIsPlain(v, path[1..]);
      } else {
        var index := ParseU64(path[0]);
        var next := if index.Some? then v.Item(index.value) else v.Get(path[0]);
        NavigateIsPlain(next.value, path[1..]);
      }
    }
  }

  lemma {:induction false} TrimStartDotsWithin(s: string)
    ensures CharsOf(TrimStartDots(s), s)
  {
    if s != "" && s[0] == '.' { TrimStartDotsWithin(s[1..]); }
  }

  lemma PathIsPlain(p: string)
    requires NoBrace(p)
    ensures forall part | part in PathParts(p) :: NoBrace(part)
  {
    var behind := p[|ExtractAlias(p)|..];
    var rest := TrimStartDots(behind);
    TrimStartDotsWithin(behind);
    SplitWithin(rest, '.');
  }

  lemma PlainIsHarmless(s: string)
    requires NoBrace(s)
    ensures Harmless(s)
  {
    forall k: nat ensures !At(s, "{{", k) { PairAt(s, "{{", k); }
    FindNone(s, "{{");
  }

  // ─── The executor that sees a downward read ───────────────────────

  /** Either answer to the reference `p`: a text at the end of its path. */
  function Answer(p: string, unfilled: bool): Value {
    Nest(PathParts(p), Str(if unfilled then "1" else "0"))
  }

  /** It tells whether the request still holds the placeholder `p`. */
  function Telltale(p: string): (string, Value) -> Result<Value, string> {
    (t: string, v: Value) => Ok(Answer(p, p in Placeholders(v)))
  }

  predicate AllAnswers(p: string, results: map<string, Value>) {
    forall y | y in results :: results[y] == Answer(p, false) || results[y] == Answer(p, true)
  }

  lemma AnswerShape(p: string, unfilled: bool)
    requires Live(p) && NoBrace(p)
    ensures PlainTexts(Answer(p, unfilled))
    ensures Navigate(Answer(p, unfilled), PathParts(p)) == Some(Str(if unfilled then "1" else "0"))
  {
    PathIsPlain(p);
    NestIsPlain(PathParts(p), Str(if unfilled then "1" else "0"));
    NestAnswers(PathParts(p), Str(if unfilled then "1" else "0"));
  }

  lemma AnswersDiffer(p: string)
    requires Live(p) && NoBrace(p)
    ensures Answer(p, false) != Answer(p, true)
  {
    AnswerShape(p, false);
    AnswerShape(p, true);
    assert "0" != "1";
  }

  lemma AnswersFillHarmlessly(p: string, host: Host, results: map<string, Value>, q: string)
    requires Live(p) && NoBrace(p) && FillsHarmlessly(host) && AllAnswers(p, results)
    ensures var look := LookupIn(results, host.vars, host.render); look(q).Some? ==> Harmless(look(q).value)
  {
    var alias := ExtractAlias(q);
    if IsBlockReference(q) && alias in results && Navigate(results[alias], PathParts(q)).Some? {
      AnswerShape(p, results[alias] == Answer(p, true));
      NavigateIsPlain(results[alias], PathParts(q));
      var v := Navigate(results[alias], PathParts(q)).value;
      match v {
        case Str(s) => PlainIsHarmless(s);
        case Null => PlainIsHarmless("");
        case _ =>
      }
    }
  }

  /** The request keeps `p` exactly when its alias has no result. */
  lemma RequestKeeps(p: string, host: Host, block: ParsedBlock, results: map<string, Value>)
    requires Live(p) && FillsHarmlessly(host) && AllAnswers(p, results)
    requires PlainParams(block.params) && p in Placeholders(block.params)
    ensures p in Placeholders(Resolved(block, host, results)) <==> ExtractAlias(p) !in results
  {
    var look := LookupIn(results, host.vars, host.render);
    forall q | q in Placeholders(block.params) && look(q).Some? ensures Harmless(look(q).value) {
      AnswersFillHarmlessly(p, host, results, q);
    }
    ResolveLeaves(block.params, look);
    var alias := ExtractAlias(p);
    if alias in results { AnswerShape(p, results[alias] == Answer(p, true)); }
  }

  ghost predicate TellsOf(host: Host, p: string) {
    forall t, v :: host.execute(t, v) == Ok(Answer(p, p in Placeholders(v)))
  }

  lemma {:induction false} EvalAnswers(blocks: seq<ParsedBlock>, host: Host, p: string, trace: seq<string>, alias: string)
    requires Ordered(blocks) && TellsOf(host, p) && Topological(blocks, trace) && alias in trace
    requires forall y | y in trace :: !blocks[Rank(blocks, y)].params.Null?
    ensures Eval(blocks, host, alias) == Ok(Answer(p, false)) || Eval(blocks, host, alias) == Ok(Answer(p, true))
    decreases Rank(blocks, alias), 1, 0
  {
    var k :| 0 <= k < |trace| && trace[k] == alias;
    var i := FindBlockByAlias(blocks, alias).value;
    assert forall a | a in Deps(blocks, i) :: a in trace[..k] && a in trace;
    EvalDependenciesAnswer(blocks, host, p, trace, i, ExtractPlaceholders(blocks[i].params));
  }

  lemma {:induction false} EvalDependenciesAnswer(blocks: seq<ParsedBlock>, host: Host, p: string, trace: seq<string>, i: nat, ps: seq<string>)
    requires Ordered(blocks) && TellsOf(host, p) && Topological(blocks, trace) && i < |blocks|
    requires (forall y | y in trace :: !blocks[Rank(blocks, y)].params.Null?) && forall a | a in DepsOf(blocks, i, ps) :: a in trace
    ensures EvalDependencies(blocks, host, i, ps).Ok? && AllAnswers(p, EvalDependencies(blocks, host, i, ps).value)
    decreases i, 0, |ps|
  {
    if ps != [] {
      if IsDependency(blocks, i, ps[0]) {
        DependencyIsEarlier(blocks, i, ps[0]);
        EvalAnswers(blocks, host, p, trace, ExtractAlias(ps[0]));
      }
      EvalDependenciesAnswer(blocks, host, p, trace, i, ps[1..]);
    }
  }

  /** What a run holds for the alias at place `k`, whose block asks for the earlier alias of `p`. */
  lemma RunAnswerIs(blocks: seq<ParsedBlock>, host: Host, p: string, st: State, k: nat, i: nat)
    requires TellsOf(host, p) && FillsHarmlessly(host) && Stored(blocks, host, st)
    requires k < |st.trace| && FindBlockByAlias(blocks, st.trace[k]) == Some(i)
    requires PlainParams(blocks[i].params) && p in Placeholders(blocks[i].params) && Live(p) && ExtractAlias(p) in st.trace[..k]
    ensures st.trace[k] in st.executed && st.executed[st.trace[k]] == Answer(p, false)
  {
    var earlier := Earlier(st.executed, st.trace, k);
    assert StoredAt(blocks, host, st.executed, st.trace, k);
    forall y | y in st.trace[..k] ensures y in st.executed && (st.executed[y] == Answer(p, false) || st.executed[y] == Answer(p, true)) {
      var j :| 0 <= j < k && st.trace[j] == y;
      assert StoredAt(blocks, host, st.executed, st.trace, j);
    }
    RequestKeeps(p, host, blocks[i], earlier);
  }

  /** What the plain recursion gives for it, `p` being none of its dependencies. */
  lemma EvalAnswerIs(blocks: seq<ParsedBlock>, host: Host, p: string, trace: seq<string>, alias: string, i: nat)
    requires Ordered(blocks) && TellsOf(host, p) && FillsHarmlessly(host)
    requires Topological(blocks, trace) && alias in trace && FindBlockByAlias(blocks, alias) == Some(i)
    requires forall y | y in trace :: !blocks[Rank(blocks, y)].params.Null?
    requires PlainParams(blocks[i].params) && p in Placeholders(blocks[i].params) && Live(p) && ExtractAlias(p) !in Deps(blocks, i)
    ensures Eval(blocks, host, alias) == Ok(Answer(p, true))
  {
    var k :| 0 <= k < |trace| && trace[k] == alias;
    var ps := ExtractPlaceholders(blocks[i].params);
    assert forall a | a in Deps(blocks, i) :: a in trace[..k] && a in trace;
    EvalDependenciesAnswer(blocks, host, p, trace, i, ps);
    EvalDependenciesHolds(blocks, host, i, ps);
    RequestKeeps(p, host, blocks[i], EvalDependencies(blocks, host, i, ps).value);
  }

  /** The run agrees with the plain recursion wherever it succeeds. */
  ghost predicate AgreesWithEval(blocks: seq<ParsedBlock>, host: Host, target: string)
    requires Ordered(blocks)
  {
    var (st, r) := Run(blocks, host, target);
    r.Ok? ==> CachesEval(blocks, host, st.executed)
  }

  lemma StoredParams(blocks: seq<ParsedBlock>, host: Host, st: State)
    requires Stored(blocks, host, st)
    ensures forall y | y in st.trace :: FindBlockByAlias(blocks, y).Some? && !blocks[Rank(blocks, y)].params.Null?
  {
    forall y | y in st.trace ensures FindBlockByAlias(blocks, y).Some? && !blocks[Rank(blocks, y)].params.Null? {
      var j :| 0 <= j < |st.trace| && st.trace[j] == y;
      assert StoredAt(blocks, host, st.executed, st.trace, j);
    }
  }

  /** The executor that tells a downward read of the block at place `k` from none. */
  lemma DownwardReadIsSeen(blocks: seq<ParsedBlock>, host: Host, target: string, k: nat, i: nat, p: string)
    requires Ordered(blocks) && TellsOf(host, p) && FillsHarmlessly(host) && CanRun(blocks, target)
    requires var order := VisitOrder(blocks, target);
             && k < |order| && FindBlockByAlias(blocks, order[k]) == Some(i) && PlainParams(blocks[i].params)
             && p in Placeholders(blocks[i].params) && Live(p) && ExtractAlias(p) in order[..k] && ExtractAlias(p) !in Deps(blocks, i)
    ensures !AgreesWithEval(blocks, host, target)
  {
    CanRunIff(blocks, host, target);
    RunStores(blocks, host, target);
    RunOrder(blocks, host, target);
    var st := Run(blocks, host, target).0;
    StoredParams(blocks, host, st);
    RunAnswerIs(blocks, host, p, st, k, i);
    EvalAnswerIs(blocks, host, p, st.trace, st.trace[k], i);
    AnswersDiffer(p);
  }

  /** MAIN: with its own JSON printer and environment, the memoised run of a target stores
      the plain recursion's values under every executor if and only if the target cannot
      run at all, or no block reads downwards to one that runs before it. */
  lemma RunIsEvalIff(blocks: seq<ParsedBlock>, host: Host, target: string)
    requires Ordered(blocks) && forall b | b in blocks :: PlainParams(b.params)
    requires FillsHarmlessly(host)
    ensures (CanRun(blocks, target) ==> ReadsUpwards(blocks, VisitOrder(blocks, target)))
       <==> forall execute: (string, Value) -> Result<Value, string> :: AgreesWithEval(blocks, host.(execute := execute), target)
  {
    var order := VisitOrder(blocks, target);
    if CanRun(blocks, target) && !ReadsUpwards(blocks, order) {
      var k :| 0 <= k < |order| && !ReadsUpwardsAt(blocks, order, k);
      var i := FindBlockByAlias(blocks, order[k]).value;
      var p :| p in Placeholders(blocks[i].params) && Live(p) && ExtractAlias(p) in order[..k] && ExtractAlias(p) !in Deps(blocks, i);
      DownwardReadIsSeen(blocks, host.(execute := Telltale(p)), target, k, i, p);
    } else {
      forall execute: (string, Value) -> Result<Value, string> ensures AgreesWithEval(blocks, host.(execute := execute), target) {
        CanRunIff(blocks, host.(execute := execute), target);
        if CanRun(blocks, target) { RunIsEval(blocks, host.(execute := execute), target); }
      }
    }
  }
}
