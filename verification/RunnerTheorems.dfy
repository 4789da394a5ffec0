/** What a run keeps and what it computes. */
module RunnerTheorems {
  import opened Text
  import opened Json
  import opened Blocks
  import opened References
  import opened Runner

  ghost predicate AlwaysSucceeds(host: Host) {
    forall t, v :: host.execute(t, v).Ok?
  }

  // ─── The dependency graph of a note ───────────────────────────────

  /** Aliases that these placeholders make block `i` run before itself. */
  function DepsOf(blocks: seq<ParsedBlock>, i: nat, ps: seq<string>): set<string>
    requires i < |blocks|
  {
    if ps == [] then {}
    else (if IsDependency(blocks, i, ps[0]) then {ExtractAlias(ps[0])} else {}) + DepsOf(blocks, i, ps[1..])
  }

  function Deps(blocks: seq<ParsedBlock>, i: nat): set<string>
    requires i < |blocks|
  {
    DepsOf(blocks, i, ExtractPlaceholders(blocks[i].params))
  }

  function Rank(blocks: seq<ParsedBlock>, alias: string): nat {
    match FindBlockByAlias(blocks, alias) case None => |blocks| case Some(i) => i
  }

  lemma StartsGrow(blocks: seq<ParsedBlock>, i: nat, j: nat)
    requires Ordered(blocks) && i < |blocks| && j < |blocks|
    ensures blocks[j].lineStart < blocks[i].lineStart ==> j < i
  {
  }

  /** A dependency's first block stands strictly before the block that refers to it. */
  lemma DependencyIsEarlier(blocks: seq<ParsedBlock>, i: nat, p: string)
    requires Ordered(blocks) && i < |blocks| && IsDependency(blocks, i, p)
    ensures FindBlockByAlias(blocks, ExtractAlias(p)).Some? && Rank(blocks, ExtractAlias(p)) < i
  {
    BlocksAboveAre(blocks, blocks[i].lineStart);
    var b :| b in BlocksAbove(blocks, blocks[i].lineStart) && b.alias == Some(ExtractAlias(p));
    var j :| 0 <= j < |blocks| && blocks[j] == b;
    FindBlockFirst(blocks, ExtractAlias(p), j);
    StartsGrow(blocks, i, j);
  }

  lemma {:induction false} DepsOfAreEarlier(blocks: seq<ParsedBlock>, i: nat, ps: seq<string>)
    requires Ordered(blocks) && i < |blocks|
    ensures forall a | a in DepsOf(blocks, i, ps) :: FindBlockByAlias(blocks, a).Some? && Rank(blocks, a) < i
  {
    if ps != [] {
      if IsDependency(blocks, i, ps[0]) { DependencyIsEarlier(blocks, i, ps[0]); }
      DepsOfAreEarlier(blocks, i, ps[1..]);
    }
  }

  lemma DepsAreEarlier(blocks: seq<ParsedBlock>, i: nat)
    requires Ordered(blocks) && i < |blocks|
    ensures forall a | a in Deps(blocks, i) :: FindBlockByAlias(blocks, a).Some? && Rank(blocks, a) < i
  {
    DepsOfAreEarlier(blocks, i, ExtractPlaceholders(blocks[i].params));
  }

  /** The target and everything it reaches through above-dependencies. */
  function Closure(blocks: seq<ParsedBlock>, alias: string): set<string>
    requires Ordered(blocks)
    decreases Rank(blocks, alias)
  {
    match FindBlockByAlias(blocks, alias)
    case None => {alias}
    case Some(i) =>
      DepsAreEarlier(blocks, i);
      {alias} + set a, x | a in Deps(blocks, i) && x in Closure(blocks, a) :: x
  }

  /** With a block, the set holds every dependency of the block. */
  predicate ClosedUnderDeps(blocks: seq<ParsedBlock>, u: set<string>) {
    forall x | x in u && FindBlockByAlias(blocks, x).Some? :: Deps(blocks, FindBlockByAlias(blocks, x).value) <= u
  }

  lemma {:induction false} ClosureIsClosed(blocks: seq<ParsedBlock>, target: string)
    requires Ordered(blocks)
    ensures target in Closure(blocks, target) && ClosedUnderDeps(blocks, Closure(blocks, target))
    decreases Rank(blocks, target)
  {
    if FindBlockByAlias(blocks, target).Some? {
      var i := FindBlockByAlias(blocks, target).value;
      DepsAreEarlier(blocks, i);
      forall a | a in Deps(blocks, i)
        ensures a in Closure(blocks, a) && Closure(blocks, a) <= Closure(blocks, target) && ClosedUnderDeps(blocks, Closure(blocks, a))
      {
        ClosureIsClosed(blocks, a);
      }
    }
  }

  // ─── What every call keeps ────────────────────────────────────────

  /** No repetition, and every block's dependencies run before it. */
  predicate Topological(blocks: seq<ParsedBlock>, trace: seq<string>) {
    forall k | 0 <= k < |trace| ::
      && trace[k] !in trace[..k]
      && FindBlockByAlias(blocks, trace[k]).Some?
      && forall a | a in Deps(blocks, FindBlockByAlias(blocks, trace[k]).value) :: a in trace[..k]
  }

  lemma TopologicalAppend(blocks: seq<ParsedBlock>, trace: seq<string>, alias: string)
    requires Topological(blocks, trace) && alias !in trace
    requires FindBlockByAlias(blocks, alias).Some?
    requires forall a | a in Deps(blocks, FindBlockByAlias(blocks, alias).value) :: a in trace
    ensures Topological(blocks, trace + [alias])
  {
    var t := trace + [alias];
    forall k | 0 <= k < |t|
      ensures t[k] !in t[..k] && FindBlockByAlias(blocks, t[k]).Some?
      ensures forall a | a in Deps(blocks, FindBlockByAlias(blocks, t[k]).value) :: a in t[..k]
    {
      if k < |trace| {
        assert t[k] == trace[k] && t[..k] == trace[..k];
      } else {
        assert t[..k] == trace;
      }
    }
  }

  ghost predicate Inv(blocks: seq<ParsedBlock>, st: State) {
    && Topological(blocks, st.trace)
    && (forall x :: x in st.trace <==> x in st.executed)
    && st.inProgress !! st.executed.Keys
  }

  /** Only blocks below `bound` in the note are in progress. */
  predicate InProgressFrom(blocks: seq<ParsedBlock>, st: State, bound: nat) {
    forall x | x in st.inProgress :: bound <= Rank(blocks, x) < |blocks|
  }

  /** `u` bounds what may have been executed on the way. */
  predicate Grows(st: State, st': State, u: set<string>) {
    && st'.inProgress == st.inProgress
    && st.executed.Keys <= st'.executed.Keys <= st.executed.Keys + u
  }

  /** Errors that can come out of block `rank` at this depth. */
  predicate PossibleError(e: RunnerError, rank: nat, depth: nat) {
    && !e.Root().CyclicDependency?
    && (e.Root().DepthExceeded? ==> depth + rank > MAX_DEPENDENCY_DEPTH)
  }

  ghost predicate GoodCall(blocks: seq<ParsedBlock>, u: set<string>, st: State, alias: string, depth: nat, st': State, r: Result<Value, RunnerError>) {
    match r
    case Ok(v) =>
      && Inv(blocks, st') && Grows(st, st', u)
      && alias in st'.executed && st'.executed[alias] == v
      && (alias !in st.executed ==> st'.trace != [] && st'.trace[|st'.trace| - 1] == alias)
    case Err(e) => PossibleError(e, Rank(blocks, alias), depth)
  }

  ghost predicate GoodDependencies(blocks: seq<ParsedBlock>, u: set<string>, st: State, i: nat, ps: seq<string>, depth: nat, st': State, failed: Option<RunnerError>)
    requires i < |blocks|
  {
    match failed
    case None => Inv(blocks, st') && Grows(st, st', u) && DepsOf(blocks, i, ps) <= st'.executed.Keys
    case Some(e) => PossibleError(e, i, depth)
  }

  lemma {:induction false} RunBlockKeeps(blocks: seq<ParsedBlock>, host: Host, u: set<string>, st: State, alias: string, depth: nat)
    returns (st': State, r: Result<Value, RunnerError>)
    requires Ordered(blocks) && Inv(blocks, st) && ClosedUnderDeps(blocks, u) && alias in u
    requires InProgressFrom(blocks, st, Rank(blocks, alias) + 1)
    ensures (st', r) == RunBlock(blocks, host, st, alias, depth)
    ensures GoodCall(blocks, u, st, alias, depth, st', r)
    decreases MAX_DEPENDENCY_DEPTH + 1 - depth, 1, 0
  {
    var result := RunBlock(blocks, host, st, alias, depth);
    st', r := result.0, result.1;
    if depth <= MAX_DEPENDENCY_DEPTH && alias !in st.executed && FindBlockByAlias(blocks, alias).Some? {
      var i := FindBlockByAlias(blocks, alias).value;
      if !blocks[i].params.Null? {
        var st1 := st.(inProgress := st.inProgress + {alias});
        var st2, failed := RunDependenciesKeep(blocks, host, u, st1, i, ExtractPlaceholders(blocks[i].params), depth);
        if failed.None? { FinishKeeps(blocks, host, u, st, st2, alias, i); }
      }
    }
  }

  lemma FinishKeeps(blocks: seq<ParsedBlock>, host: Host, u: set<string>, st: State, st2: State, alias: string, i: nat)
    requires FindBlockByAlias(blocks, alias) == Some(i) && alias in u
    requires alias !in st.executed && alias !in st.inProgress
    requires Inv(blocks, st2) && Grows(st.(inProgress := st.inProgress + {alias}), st2, u)
    requires Deps(blocks, i) <= st2.executed.Keys
    ensures var (st', r) := Finish(blocks[i], host, st2, alias);
            if r.Ok? then GoodCall(blocks, u, st, alias, 0, st', r) else r.error.ExecutionFailed?
  {
    TopologicalAppend(blocks, st2.trace, alias);
  }

  lemma ThenTheRest(blocks: seq<ParsedBlock>, u: set<string>, st: State, i: nat, ps: seq<string>, depth: nat, st1: State, st2: State, failed: Option<RunnerError>)
    requires i < |blocks| && ps != [] && Grows(st, st1, u)
    requires IsDependency(blocks, i, ps[0]) ==> ExtractAlias(ps[0]) in st1.executed
    requires GoodDependencies(blocks, u, st1, i, ps[1..], depth, st2, failed)
    ensures GoodDependencies(blocks, u, st, i, ps, depth, st2, failed)
  {
    if failed.None? {
      assert st2.executed.Keys <= st.executed.Keys + u;
    }
  }

  lemma {:induction false} RunDependenciesKeep(blocks: seq<ParsedBlock>, host: Host, u: set<string>, st: State, i: nat, ps: seq<string>, depth: nat)
    returns (st': State, failed: Option<RunnerError>)
    requires Ordered(blocks) && Inv(blocks, st) && i < |blocks| && depth <= MAX_DEPENDENCY_DEPTH
    requires ClosedUnderDeps(blocks, u) && DepsOf(blocks, i, ps) <= u
    requires InProgressFrom(blocks, st, i)
    ensures (st', failed) == RunDependencies(blocks, host, st, i, ps, depth)
    ensures GoodDependencies(blocks, u, st, i, ps, depth, st', failed)
    decreases MAX_DEPENDENCY_DEPTH + 1 - depth, 0, |ps|
  {
    if ps == [] {
      return st, None;
    }
    var alias, st1 := ExtractAlias(ps[0]), st;
    if IsDependency(blocks, i, ps[0]) && alias !in st.executed {
      DependencyIsEarlier(blocks, i, ps[0]);
      var r;
      st1, r := RunBlockKeeps(blocks, host, u, st, alias, depth + 1);
      if r.Err? {
        return st1, Some(DependencyFailed(alias, r.error));
      }
    }
    st', failed := RunDependenciesKeep(blocks, host, u, st1, i, ps[1..], depth);
    ThenTheRest(blocks, u, st, i, ps, depth, st1, st', failed);
  }

  // ─── Order: what runs, and when ───────────────────────────────────

  lemma {:induction false} TraceHoldsClosure(blocks: seq<ParsedBlock>, trace: seq<string>, x: string)
    requires Ordered(blocks) && Topological(blocks, trace) && x in trace
    ensures forall y | y in Closure(blocks, x) :: y in trace
    decreases Rank(blocks, x)
  {
    var k :| 0 <= k < |trace| && trace[k] == x;
    var i := FindBlockByAlias(blocks, x).value;
    DepsAreEarlier(blocks, i);
    forall a | a in Deps(blocks, i) ensures forall y | y in Closure(blocks, a) :: y in trace {
      assert a in trace[..k];
      TraceHoldsClosure(blocks, trace, a);
    }
  }

  /** A successful run: nothing left in progress, and exactly the target's dependencies
      called, each once and behind its own, the target last. */
  ghost predicate RanInOrder(blocks: seq<ParsedBlock>, target: string, st: State, v: Value)
    requires Ordered(blocks)
  {
    && st.inProgress == {}
    && Topological(blocks, st.trace) && st.trace != [] && st.trace[|st.trace| - 1] == target
    && (forall x :: x in st.trace <==> x in Closure(blocks, target))
    && st.executed.Keys == Closure(blocks, target) && st.executed[target] == v
  }

  lemma OkRunInOrder(blocks: seq<ParsedBlock>, target: string, st: State, v: Value)
    requires Ordered(blocks) && GoodCall(blocks, Closure(blocks, target), START, target, 0, st, Ok(v))
    ensures RanInOrder(blocks, target, st, v)
  {
    TraceHoldsClosure(blocks, st.trace, target);
  }

  lemma FailedRun(blocks: seq<ParsedBlock>, host: Host, target: string, e: RunnerError)
    requires Run(blocks, host, target).1 == Err(e) && PossibleError(e, Rank(blocks, target), 0)
    ensures e.Root().DepthExceeded? ==> |blocks| >= MAX_DEPENDENCY_DEPTH + 2
  {
    if FindBlockByAlias(blocks, target).None? {
      assert e == BlockNotFound(target);
    }
  }

  /** MAIN: a run never meets a cycle, whatever the note refers to; its depth limit
      takes 52 blocks; and when it succeeds it has called the executor exactly once
      for each block the target reaches, dependencies first and the target last. */
  lemma RunOrder(blocks: seq<ParsedBlock>, host: Host, target: string)
    requires Ordered(blocks)
    ensures var (st, r) := Run(blocks, host, target);
            match r
            case Ok(v) => RanInOrder(blocks, target, st, v)
            case Err(e) => !e.Root().CyclicDependency? && (e.Root().DepthExceeded? ==> |blocks| >= MAX_DEPENDENCY_DEPTH + 2)
  {
    ClosureIsClosed(blocks, target);
    var st, r := RunBlockKeeps(blocks, host, Closure(blocks, target), START, target, 0);
    match r {
      case Ok(v) => OkRunInOrder(blocks, target, st, v);
      case Err(e) => FailedRun(blocks, host, target, e);
    }
  }

  // ─── The order is known beforehand ────────────────────────────────

  /** The aliases run so far, `seen`, and those that running one more adds. */
  function Visit(blocks: seq<ParsedBlock>, seen: seq<string>, alias: string): seq<string>
    requires Ordered(blocks)
    decreases Rank(blocks, alias), 1, 0
  {
    if alias in seen then seen
    else
      match FindBlockByAlias(blocks, alias)
      case None => seen
      case Some(i) => VisitDeps(blocks, seen, i, ExtractPlaceholders(blocks[i].params)) + [alias]
  }

  function VisitDeps(blocks: seq<ParsedBlock>, seen: seq<string>, i: nat, ps: seq<string>): seq<string>
    requires Ordered(blocks) && i < |blocks|
    decreases i, 0, |ps|
  {
    if ps == [] then seen
    else if IsDependency(blocks, i, ps[0]) then
      DependencyIsEarlier(blocks, i, ps[0]);
      VisitDeps(blocks, Visit(blocks, seen, ExtractAlias(ps[0])), i, ps[1..])
    else VisitDeps(blocks, seen, i, ps[1..])
  }

  function VisitOrder(blocks: seq<ParsedBlock>, target: string): seq<string>
    requires Ordered(blocks)
  {
    Visit(blocks, [], target)
  }

  lemma {:induction false} VisitGrows(blocks: seq<ParsedBlock>, seen: seq<string>, alias: string)
    requires Ordered(blocks)
    ensures seen <= Visit(blocks, seen, alias)
    decreases Rank(blocks, alias), 1, 0
  {
    if alias !in seen && FindBlockByAlias(blocks, alias).Some? {
      var i := FindBlockByAlias(blocks, alias).value;
      VisitDepsGrow(blocks, seen, i, ExtractPlaceholders(blocks[i].params));
    }
  }

  lemma {:induction false} VisitDepsGrow(blocks: seq<ParsedBlock>, seen: seq<string>, i: nat, ps: seq<string>)
    requires Ordered(blocks) && i < |blocks|
    ensures seen <= VisitDeps(blocks, seen, i, ps)
    decreases i, 0, |ps|
  {
    if ps != [] {
      var next := seen;
      if IsDependency(blocks, i, ps[0]) {
        DependencyIsEarlier(blocks, i, ps[0]);
        VisitGrows(blocks, seen, ExtractAlias(ps[0]));
        next := Visit(blocks, seen, ExtractAlias(ps[0]));
      }
      VisitDepsGrow(blocks, next, i, ps[1..]);
    }
  }

  /** What a call has run: the visits, or the first of them when it failed. */
  predicate Visited(trace: seq<string>, visits: seq<string>, done: bool) {
    trace <= visits && (done ==> trace == visits)
  }

  lemma {:induction false} RunBlockVisits(blocks: seq<ParsedBlock>, host: Host, u: set<string>, st: State, alias: string, depth: nat)
    requires Ordered(blocks) && Inv(blocks, st) && ClosedUnderDeps(blocks, u) && alias in u
    requires InProgressFrom(blocks, st, Rank(blocks, alias) + 1)
    ensures var (st', r) := RunBlock(blocks, host, st, alias, depth); Visited(st'.trace, Visit(blocks, st.trace, alias), r.Ok?)
    decreases MAX_DEPENDENCY_DEPTH + 1 - depth, 1, 0
  {
    VisitGrows(blocks, st.trace, alias);
    if depth <= MAX_DEPENDENCY_DEPTH && alias !in st.executed && FindBlockByAlias(blocks, alias).Some? {
      var i := FindBlockByAlias(blocks, alias).value;
      if !blocks[i].params.Null? {
        var st1 := st.(inProgress := st.inProgress + {alias});
        RunDependenciesVisit(blocks, host, u, st1, i, ExtractPlaceholders(blocks[i].params), depth);
      }
    }
  }

  lemma {:induction false} RunDependenciesVisit(blocks: seq<ParsedBlock>, host: Host, u: set<string>, st: State, i: nat, ps: seq<string>, depth: nat)
    requires Ordered(blocks) && Inv(blocks, st) && i < |blocks| && depth <= MAX_DEPENDENCY_DEPTH
    requires ClosedUnderDeps(blocks, u) && DepsOf(blocks, i, ps) <= u
    requires InProgressFrom(blocks, st, i)
    ensures var (st', failed) := RunDependencies(blocks, host, st, i, ps, depth); Visited(st'.trace, VisitDeps(blocks, st.trace, i, ps), failed.None?)
    decreases MAX_DEPENDENCY_DEPTH + 1 - depth, 0, |ps|
  {
    if ps != [] {
      var alias, st1 := ExtractAlias(ps[0]), st;
      if IsDependency(blocks, i, ps[0]) {
        DependencyIsEarlier(blocks, i, ps[0]);
        if alias !in st.executed {
          RunBlockVisits(blocks, host, u, st, alias, depth + 1);
          var r;
          st1, r := RunBlockKeeps(blocks, host, u, st, alias, depth + 1);
          if r.Err? {
            VisitDepsGrow(blocks, Visit(blocks, st.trace, alias), i, ps[1..]);
            return;
          }
        }
      }
      RunDependenciesVisit(blocks, host, u, st1, i, ps[1..], depth);
    }
  }

  /** MAIN: the note alone decides the order. A successful run calls exactly the visits,
      whatever the executor answers; a failed one stops somewhere on the way. */
  lemma RunVisits(blocks: seq<ParsedBlock>, host: Host, target: string)
    requires Ordered(blocks)
    ensures var (st, r) := Run(blocks, host, target); Visited(st.trace, VisitOrder(blocks, target), r.Ok?)
  {
    ClosureIsClosed(blocks, target);
    RunBlockVisits(blocks, host, Closure(blocks, target), START, target, 0);
  }

  // ─── Values: the memoised run against the plain recursion ─────────

  /** Evaluate a block from its own above-dependencies alone, sharing nothing. */
  function Eval(blocks: seq<ParsedBlock>, host: Host, alias: string): Result<Value, RunnerError>
    requires Ordered(blocks)
    decreases Rank(blocks, alias), 1, 0
  {
    match FindBlockByAlias(blocks, alias)
    case None => Err(BlockNotFound(alias))
    case Some(i) =>
      if blocks[i].params.Null? then Err(InvalidParams)
      else
        match EvalDependencies(blocks, host, i, ExtractPlaceholders(blocks[i].params))
        case Err(e) => Err(e)
        case Ok(results) =>
          match host.execute(Canonicalize(host.registry, blocks[i].blockType), Resolved(blocks[i], host, results))
          case Err(m) => Err(ExecutionFailed(m))
          case Ok(v) => Ok(v)
  }

  function EvalDependencies(blocks: seq<ParsedBlock>, host: Host, i: nat, ps: seq<string>): Result<map<string, Value>, RunnerError>
    requires Ordered(blocks) && i < |blocks|
    decreases i, 0, |ps|
  {
    if ps == [] then Ok(map[])
    else if IsDependency(blocks, i, ps[0]) then
      DependencyIsEarlier(blocks, i, ps[0]);
      match Eval(blocks, host, ExtractAlias(ps[0]))
      case Err(e) => Err(DependencyFailed(ExtractAlias(ps[0]), e))
      case Ok(v) =>
        match EvalDependencies(blocks, host, i, ps[1..])
        case Err(e) => Err(e)
        case Ok(results) => Ok(results[ExtractAlias(ps[0]) := v])
    else EvalDependencies(blocks, host, i, ps[1..])
  }

  /** A reference that some result could answer: no part of its path is refused. */
  predicate Live(p: string) {
    IsBlockReference(p) && forall part | part in PathParts(p) :: part !in DANGEROUS_KEYS
  }

  lemma {:induction false} RefusedPath(value: Value, parts: seq<string>)
    requires exists part | part in parts :: part in DANGEROUS_KEYS
    ensures Navigate(value, parts) == None
    decreases |parts|
  {
    if parts[0] !in DANGEROUS_KEYS {
      var part :| part in parts && part in DANGEROUS_KEYS;
      assert part in parts[1..];
      if parts[0] == "" {
        RefusedPath(value, parts[1..]);
      } else {
        var index := ParseU64(parts[0]);
        var next := if index.Some? then value.Item(index.value) else value.Get(parts[0]);
        if next.Some? { RefusedPath(next.value, parts[1..]); }
      }
    }
  }

  lemma DeadReference(p: string, results: map<string, Value>, vars: map<string, string>, render: Value -> string)
    requires IsBlockReference(p) && !Live(p)
    ensures Replacement(p, results, vars, render) == None
  {
    var alias := ExtractAlias(p);
    if alias in results { RefusedPath(results[alias], PathParts(p)); }
  }

  /** The block at place `k` of the order reads no block earlier in the order but those
      it depends on: no reference of its own leads downwards to one of them. */
  predicate ReadsUpwardsAt(blocks: seq<ParsedBlock>, order: seq<string>, k: nat)
    requires k < |order|
  {
    var i := FindBlockByAlias(blocks, order[k]);
    i.Some? ==> forall p | p in Placeholders(blocks[i.value].params) && Live(p) && ExtractAlias(p) in order[..k] ::
      ExtractAlias(p) in Deps(blocks, i.value)
  }

  predicate ReadsUpwards(blocks: seq<ParsedBlock>, order: seq<string>) {
    forall k {:trigger ReadsUpwardsAt(blocks, order, k)} | 0 <= k < |order| :: ReadsUpwardsAt(blocks, order, k)
  }

  /** Every cached value is the value of the plain recursion. */
  predicate CachesEval(blocks: seq<ParsedBlock>, host: Host, executed: map<string, Value>)
    requires Ordered(blocks)
  {
    forall x | x in executed :: Eval(blocks, host, x) == Ok(executed[x])
  }

  lemma {:induction false} EvalDependenciesHolds(blocks: seq<ParsedBlock>, host: Host, i: nat, ps: seq<string>)
    requires Ordered(blocks) && i < |blocks| && EvalDependencies(blocks, host, i, ps).Ok?
    ensures var results := EvalDependencies(blocks, host, i, ps).value;
            results.Keys == DepsOf(blocks, i, ps) && CachesEval(blocks, host, results)
    decreases |ps|
  {
    if ps != [] {
      if IsDependency(blocks, i, ps[0]) { DependencyIsEarlier(blocks, i, ps[0]); }
      EvalDependenciesHolds(blocks, host, i, ps[1..]);
    }
  }

  /** The whole cache and the block's own dependencies resolve it alike. */
  lemma SameResolution(blocks: seq<ParsedBlock>, host: Host, i: nat, executed: map<string, Value>, results: map<string, Value>)
    requires Ordered(blocks) && i < |blocks|
    requires forall p | p in Placeholders(blocks[i].params) && Live(p) && ExtractAlias(p) in executed :: ExtractAlias(p) in Deps(blocks, i)
    requires CachesEval(blocks, host, executed) && CachesEval(blocks, host, results)
    requires Deps(blocks, i) == results.Keys <= executed.Keys
    ensures Resolved(blocks[i], host, executed) == Resolved(blocks[i], host, results)
  {
    var f, g := LookupIn(executed, host.vars, host.render), LookupIn(results, host.vars, host.render);
    forall p | p in Placeholders(blocks[i].params) ensures f(p) == g(p) {
      var a := ExtractAlias(p);
      if IsBlockReference(p) && !Live(p) {
        DeadReference(p, executed, host.vars, host.render);
        DeadReference(p, results, host.vars, host.render);
      } else {
        if IsBlockReference(p) && a in executed {
          assert a in results && Ok(results[a]) == Eval(blocks, host, a) == Ok(executed[a]);
        }
        ReplacementReadsAlias(p, executed, results, host.vars, host.render);
      }
    }
    ResolveReadsPlaceholdersOnly(blocks[i].params, f, g);
  }

  predicate SameCall(blocks: seq<ParsedBlock>, host: Host, alias: string, r: Result<Value, RunnerError>)
    requires Ordered(blocks)
  {
    r == Eval(blocks, host, alias) || (r.Err? && r.error.Root().DepthExceeded?)
  }

  predicate SameDependencies(blocks: seq<ParsedBlock>, host: Host, i: nat, ps: seq<string>, failed: Option<RunnerError>)
    requires Ordered(blocks) && i < |blocks|
  {
    match failed
    case None => EvalDependencies(blocks, host, i, ps).Ok?
    case Some(e) => EvalDependencies(blocks, host, i, ps) == Err(e) || e.Root().DepthExceeded?
  }

  /** `order` begins with what running the block adds to the trace. */
  lemma {:induction false} RunBlockIsEval(blocks: seq<ParsedBlock>, host: Host, u: set<string>, order: seq<string>, st: State, alias: string, depth: nat)
    requires Ordered(blocks) && Inv(blocks, st) && ClosedUnderDeps(blocks, u) && alias in u
    requires InProgressFrom(blocks, st, Rank(blocks, alias) + 1)
    requires ReadsUpwards(blocks, order) && Visit(blocks, st.trace, alias) <= order && CachesEval(blocks, host, st.executed)
    ensures var (st', r) := RunBlock(blocks, host, st, alias, depth);
            SameCall(blocks, host, alias, r) && (r.Ok? ==> CachesEval(blocks, host, st'.executed))
    decreases MAX_DEPENDENCY_DEPTH + 1 - depth, 1, 0
  {
    if depth <= MAX_DEPENDENCY_DEPTH && alias !in st.executed && FindBlockByAlias(blocks, alias).Some? {
      var i := FindBlockByAlias(blocks, alias).value;
      var ps := ExtractPlaceholders(blocks[i].params);
      var st1 := st.(inProgress := st.inProgress + {alias});
      if !blocks[i].params.Null? {
        RunDependenciesAreEval(blocks, host, u, order, st1, i, ps, depth);
        var st2, failed := RunDependenciesKeep(blocks, host, u, st1, i, ps, depth);
        if failed.None? {
          RunDependenciesVisit(blocks, host, u, st1, i, ps, depth);
          EvalDependenciesHolds(blocks, host, i, ps);
          PlaceInOrder(blocks, order, st2, alias, i);
          SameResolution(blocks, host, i, st2.executed, EvalDependencies(blocks, host, i, ps).value);
        }
      }
    }
  }

  /** The block about to run stands in the order right behind what has run. */
  lemma PlaceInOrder(blocks: seq<ParsedBlock>, order: seq<string>, st: State, alias: string, i: nat)
    requires FindBlockByAlias(blocks, alias) == Some(i) && Inv(blocks, st)
    requires ReadsUpwards(blocks, order) && st.trace + [alias] <= order
    ensures forall p | p in Placeholders(blocks[i].params) && Live(p) && ExtractAlias(p) in st.executed :: ExtractAlias(p) in Deps(blocks, i)
  {
    var k := |st.trace|;
    assert order[k] == (st.trace + [alias])[k] == alias && order[..k] == st.trace;
    assert ReadsUpwardsAt(blocks, order, k);
  }

  lemma {:induction false} RunDependenciesAreEval(blocks: seq<ParsedBlock>, host: Host, u: set<string>, order: seq<string>, st: State, i: nat, ps: seq<string>, depth: nat)
    requires Ordered(blocks) && Inv(blocks, st) && i < |blocks| && depth <= MAX_DEPENDENCY_DEPTH
    requires ClosedUnderDeps(blocks, u) && DepsOf(blocks, i, ps) <= u
    requires InProgressFrom(blocks, st, i)
    requires ReadsUpwards(blocks, order) && VisitDeps(blocks, st.trace, i, ps) <= order && CachesEval(blocks, host, st.executed)
    ensures var (st', failed) := RunDependencies(blocks, host, st, i, ps, depth);
            SameDependencies(blocks, host, i, ps, failed) && (failed.None? ==> CachesEval(blocks, host, st'.executed))
    decreases MAX_DEPENDENCY_DEPTH + 1 - depth, 0, |ps|
  {
    if ps != [] {
      var alias := ExtractAlias(ps[0]);
      if IsDependency(blocks, i, ps[0]) && alias !in st.executed {
        DependencyIsEarlier(blocks, i, ps[0]);
        VisitDepsGrow(blocks, Visit(blocks, st.trace, alias), i, ps[1..]);
        RunBlockIsEval(blocks, host, u, order, st, alias, depth + 1);
        RunBlockVisits(blocks, host, u, st, alias, depth + 1);
        var st1, r := RunBlockKeeps(blocks, host, u, st, alias, depth + 1);
        if r.Ok? { RunDependenciesAreEval(blocks, host, u, order, st1, i, ps[1..], depth); }
      } else {
        RunDependenciesAreEval(blocks, host, u, order, st, i, ps[1..], depth);
      }
    }
  }

  /** MAIN: when no block reads downwards to one that runs before it, the memoised run is
      the plain recursion: same result, same errors, and for every executed alias exactly
      its value. Only the depth limit can come between. */
  lemma RunIsEval(blocks: seq<ParsedBlock>, host: Host, target: string)
    requires Ordered(blocks) && ReadsUpwards(blocks, VisitOrder(blocks, target))
    ensures var (st, r) := Run(blocks, host, target);
            && SameCall(blocks, host, target, r)
            && (|blocks| <= MAX_DEPENDENCY_DEPTH + 1 ==> r == Eval(blocks, host, target))
            && (r.Ok? ==> CachesEval(blocks, host, st.executed))
  {
    RunOrder(blocks, host, target);
    ClosureIsClosed(blocks, target);
    RunBlockIsEval(blocks, host, Closure(blocks, target), VisitOrder(blocks, target), START, target, 0);
  }
}
