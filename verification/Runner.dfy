/** The block runner (httui-core/src/runner.rs): memoised, depth-first execution of
    a block and of the blocks above it that it refers to. */
module Runner {
  import opened Text
  import opened Json
  import opened Blocks
  import opened References

  const MAX_DEPENDENCY_DEPTH: nat := 50

  /** `DepthExceeded` is the source's `DependencyFailed` with its fixed depth message;
      a failed dependency keeps the error it wraps instead of its printed form. */
  datatype RunnerError =
    | BlockNotFound(alias: string)
    | InvalidParams
    | CyclicDependency(alias: string)
    | DepthExceeded
    | DependencyFailed(alias: string, cause: RunnerError)
    | ExecutionFailed(message: string)
  {
    /** The error underneath the chain of failed dependencies. */
    function Root(): RunnerError {
      if DependencyFailed? then cause.Root() else this
    }
  }

  /** What the runner calls and cannot see into. */
  datatype Host = Host(
    execute: (string, Value) -> Result<Value, string>,
    render: Value -> string,
    registry: map<string, string>,
    vars: map<string, string>)

  datatype State = State(executed: map<string, Value>, inProgress: set<string>, trace: seq<string>)

  // ─── The run as a function of its state ───────────────────────────

  function Resolved(block: ParsedBlock, host: Host, results: map<string, Value>): Value {
    ResolveValue(block.params, LookupIn(results, host.vars, host.render))
  }

  function RunBlock(blocks: seq<ParsedBlock>, host: Host, st: State, alias: string, depth: nat)
    : (State, Result<Value, RunnerError>)
    decreases MAX_DEPENDENCY_DEPTH + 1 - depth, 1, 0
  {
    if depth > MAX_DEPENDENCY_DEPTH then (st, Err(DepthExceeded))
    else if alias in st.executed then (st, Ok(st.executed[alias]))
    else if alias in st.inProgress then (st, Err(CyclicDependency(alias)))
    else
      var st1 := st.(inProgress := st.inProgress + {alias});
      match FindBlockByAlias(blocks, alias)
      case None => (st1, Err(BlockNotFound(alias)))
      case Some(i) =>
        if blocks[i].params.Null? then (st1, Err(InvalidParams))
        else
          var (st2, failed) := RunDependencies(blocks, host, st1, i, ExtractPlaceholders(blocks[i].params), depth);
          match failed
          case Some(e) => (st2, Err(e))
          case None => Finish(blocks[i], host, st2, alias)
  }

  /** Resolve, execute, and on success cache. */
  function Finish(block: ParsedBlock, host: Host, st: State, alias: string): (State, Result<Value, RunnerError>) {
    var called := st.(trace := st.trace + [alias]);
    match host.execute(Canonicalize(host.registry, block.blockType), Resolved(block, host, st.executed))
    case Err(m) => (called, Err(ExecutionFailed(m)))
    case Ok(v) => (called.(executed := st.executed[alias := v], inProgress := st.inProgress - {alias}), Ok(v))
  }

  /** The placeholder makes block `i` run a block above it. */
  predicate IsDependency(blocks: seq<ParsedBlock>, i: nat, placeholder: string)
    requires i < |blocks|
  {
    IsBlockReference(placeholder) && AliasAbove(blocks, blocks[i].lineStart, ExtractAlias(placeholder))
  }

  function RunDependencies(blocks: seq<ParsedBlock>, host: Host, st: State, i: nat, ps: seq<string>, depth: nat)
    : (State, Option<RunnerError>)
    requires i < |blocks| && depth <= MAX_DEPENDENCY_DEPTH
    decreases MAX_DEPENDENCY_DEPTH + 1 - depth, 0, |ps|
  {
    if ps == [] then (st, None)
    else
      var alias := ExtractAlias(ps[0]);
      if IsDependency(blocks, i, ps[0]) && alias !in st.executed then
        var (st1, r) := RunBlock(blocks, host, st, alias, depth + 1);
        if r.Err? then (st1, Some(DependencyFailed(alias, r.error)))
        else RunDependencies(blocks, host, st1, i, ps[1..], depth)
      else RunDependencies(blocks, host, st, i, ps[1..], depth)
  }

  const START := State(map[], {}, [])

  function Run(blocks: seq<ParsedBlock>, host: Host, target: string): (State, Result<Value, RunnerError>) {
    RunBlock(blocks, host, START, target, 0)
  }

  // ─── The run as the source performs it ────────────────────────────

  class BlockRun {
    const blocks: seq<ParsedBlock>
    const host: Host
    var executed: map<string, Value>
    var inProgress: set<string>
    ghost var trace: seq<string>

    ghost function Now(): State
      reads this
    {
      State(executed, inProgress, trace)
    }

    constructor (blocks: seq<ParsedBlock>, host: Host)
      ensures this.blocks == blocks && this.host == host && Now() == START
    {
      this.blocks, this.host := blocks, host;
      executed, inProgress, trace := map[], {}, [];
    }

    method ExecuteBlockRecursive(alias: string, depth: nat) returns (r: Result<Value, RunnerError>)
      modifies this
      ensures (Now(), r) == RunBlock(blocks, host, old(Now()), alias, depth)
      decreases MAX_DEPENDENCY_DEPTH + 1 - depth
    {
      if depth > MAX_DEPENDENCY_DEPTH { return Err(DepthExceeded); }
      if alias in executed { return Ok(executed[alias]); }
      if alias in inProgress { return Err(CyclicDependency(alias)); }
      inProgress := inProgress + {alias};

      var found := FindBlockByAlias(blocks, alias);
      if found.None? { return Err(BlockNotFound(alias)); }
      var block := blocks[found.value];
      if block.params.Null? { return Err(InvalidParams); }

      var above := BlocksAbove(blocks, block.lineStart);
      var placeholders := ExtractPlaceholders(block.params);
      ghost var all := RunDependencies(blocks, host, Now(), found.value, placeholders, depth);
      for k := 0 to |placeholders|
        invariant RunDependencies(blocks, host, Now(), found.value, placeholders[k..], depth) == all
      {
        var placeholder := placeholders[k];
        assert placeholders[k..][1..] == placeholders[k + 1..];
        if IsBlockReference(placeholder) {
          var depAlias := ExtractAlias(placeholder);
          if (exists b | b in above :: b.alias == Some(depAlias)) && depAlias !in executed {
            var dep := ExecuteBlockRecursive(depAlias, depth + 1);
            if dep.Err? { return Err(DependencyFailed(depAlias, dep.error)); }
          }
        }
      }

      var resolvedParams := ResolveValue(block.params, LookupIn(executed, host.vars, host.render));
      var blockType := Canonicalize(host.registry, block.blockType);
      trace := trace + [alias];
      var result := host.execute(blockType, resolvedParams);
      if result.Err? { return Err(ExecutionFailed(result.error)); }
      executed := executed[alias := result.value];
      inProgress := inProgress - {alias};
      return Ok(result.value);
    }
  }
}
