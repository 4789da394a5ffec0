/** Blocks that show the hypotheses and the limit of the runner's theorems are tight. */
module RunnerWitnesses {
  import opened Text
  import opened Json
  import opened Blocks
  import opened References
  import opened Substitution
  import opened Runner
  import opened RunnerTheorems

  // ─── The depth limit is reached at exactly 52 blocks ──────────────

  /** Block `i` has one placeholder, which refers to block `i - 1`; aliases differ. */
  predicate IsChain(blocks: seq<ParsedBlock>) {
    && Ordered(blocks)
    && (forall i | 0 <= i < |blocks| :: blocks[i].alias.Some? && !blocks[i].params.Null?)
    && (forall i {:trigger LinkTo(blocks, i)} | 0 <= i < |blocks| :: LinkTo(blocks, i))
    && (forall i, j | 0 <= i < j < |blocks| :: blocks[i].alias != blocks[j].alias)
  }

  predicate LinkTo(blocks: seq<ParsedBlock>, i: nat)
    requires i < |blocks|
  {
    var ps := ExtractPlaceholders(blocks[i].params);
    if i == 0 then ps == []
    else |ps| == 1 && IsBlockReference(ps[0]) && Some(ExtractAlias(ps[0])) == blocks[i - 1].alias
  }

  lemma ChainLinks(blocks: seq<ParsedBlock>, i: nat)
    requires IsChain(blocks) && i < |blocks|
    ensures FindBlockByAlias(blocks, blocks[i].alias.value) == Some(i)
    ensures LinkTo(blocks, i) && (i > 0 ==> IsDependency(blocks, i, ExtractPlaceholders(blocks[i].params)[0]))
  {
    FindBlockFirst(blocks, blocks[i].alias.value, i);
    BlocksAboveAre(blocks, blocks[i].lineStart);
    if i > 0 {
      StartsGrow(blocks, i, i - 1);
      assert blocks[i - 1] in BlocksAbove(blocks, blocks[i].lineStart);
    }
  }

  lemma OneDependency(blocks: seq<ParsedBlock>, host: Host, st: State, i: nat, p: string, a: string, depth: nat, st1: State, r: Result<Value, RunnerError>)
    requires i < |blocks| && depth <= MAX_DEPENDENCY_DEPTH
    requires IsDependency(blocks, i, p) && ExtractAlias(p) == a && a !in st.executed
    requires RunBlock(blocks, host, st, a, depth + 1) == (st1, r)
    ensures RunDependencies(blocks, host, st, i, [p], depth) == (st1, if r.Err? then Some(DependencyFailed(a, r.error)) else None)
  {
    assert [p][1..] == [];
  }

  /** A call that gets to its dependencies. */
  lemma CallIs(blocks: seq<ParsedBlock>, host: Host, st: State, alias: string, i: nat, depth: nat, st2: State, failed: Option<RunnerError>)
    requires depth <= MAX_DEPENDENCY_DEPTH && alias !in st.executed && alias !in st.inProgress
    requires FindBlockByAlias(blocks, alias) == Some(i) && !blocks[i].params.Null?
    requires RunDependencies(blocks, host, st.(inProgress := st.inProgress + {alias}), i, ExtractPlaceholders(blocks[i].params), depth) == (st2, failed)
    ensures RunBlock(blocks, host, st, alias, depth) ==
            if failed.Some? then (st2, Err(failed.value)) else Finish(blocks[i], host, st2, alias)
  {
  }

  predicate ChainOutcome(r: Result<Value, RunnerError>, distance: nat) {
    if distance <= MAX_DEPENDENCY_DEPTH then r.Ok? else r.Err? && r.error.Root().DepthExceeded?
  }

  lemma {:induction false} ChainCall(blocks: seq<ParsedBlock>, host: Host, st: State, i: nat, depth: nat)
    returns (st': State, r: Result<Value, RunnerError>)
    requires IsChain(blocks) && AlwaysSucceeds(host) && i < |blocks|
    requires st.executed == map[] && InProgressFrom(blocks, st, i + 1)
    ensures (st', r) == RunBlock(blocks, host, st, blocks[i].alias.value, depth)
    ensures ChainOutcome(r, depth + i)
    decreases i, 1
  {
    if depth > MAX_DEPENDENCY_DEPTH {
      return st, Err(DepthExceeded);
    }
    ChainLinks(blocks, i);
    var st2, failed := ChainDependencies(blocks, host, st.(inProgress := st.inProgress + {blocks[i].alias.value}), i, depth);
    CallIs(blocks, host, st, blocks[i].alias.value, i, depth, st2, failed);
    var end := Finish(blocks[i], host, st2, blocks[i].alias.value);
    st', r := if failed.Some? then st2 else end.0, if failed.Some? then Err(failed.value) else end.1;
  }

  lemma {:induction false} ChainDependencies(blocks: seq<ParsedBlock>, host: Host, st: State, i: nat, depth: nat)
    returns (st2: State, failed: Option<RunnerError>)
    requires IsChain(blocks) && AlwaysSucceeds(host) && i < |blocks| && depth <= MAX_DEPENDENCY_DEPTH
    requires st.executed == map[] && InProgressFrom(blocks, st, i)
    ensures (st2, failed) == RunDependencies(blocks, host, st, i, ExtractPlaceholders(blocks[i].params), depth)
    ensures if depth + i <= MAX_DEPENDENCY_DEPTH then failed.None? else failed.Some? && failed.value.Root().DepthExceeded?
    decreases i, 0
  {
    assert LinkTo(blocks, i);
    if i == 0 {
      return st, None;
    }
    ChainLinks(blocks, i);
    var ps, alias := ExtractPlaceholders(blocks[i].params), blocks[i - 1].alias.value;
    var below;
    st2, below := ChainCall(blocks, host, st, i - 1, depth + 1);
    OneDependency(blocks, host, st, i, ps[0], alias, depth, st2, below);
    assert ps == [ps[0]];
    failed := if below.Err? then Some(DependencyFailed(alias, below.error)) else None;
  }

  /** In a chain, the last block runs if and only if there are at most 51 blocks. */
  lemma ChainDepthIsExact(blocks: seq<ParsedBlock>, host: Host)
    requires IsChain(blocks) && AlwaysSucceeds(host) && blocks != []
    ensures ChainOutcome(Run(blocks, host, blocks[|blocks| - 1].alias.value).1, |blocks| - 1)
  {
    var _, _ := ChainCall(blocks, host, START, |blocks| - 1, 0);
  }

  // ─── A reference downwards makes the value depend on who asks ─────

  /** An executor that answers a block with the text of its query. */
  ghost predicate AnswersQuery(host: Host) {
    forall t, v: Value :: host.execute(t, v) == Ok(match v.Get("query") case Some(q) => q case None => Null)
  }

  function QueryBlock(alias: string, query: string, line: nat): ParsedBlock {
    ParsedBlock("db", Some(alias), None, Object(map["query" := Str(query)]), line, line + 2)
  }

  /** The placeholder reads the whole result of `alias`. */
  predicate Whole(p: string, alias: string) {
    IsBlockReference(p) && ExtractAlias(p) == alias && TrimStartDots(p[|alias|..]) == "" && NoBrace(p) && p != ""
  }

  /** Such a placeholder: the alias and a dot. */
  lemma AliasOf(alias: string)
    requires '.' !in alias && NoBrace(alias)
    ensures Whole(alias + ".", alias)
  {
    FindCharIs(alias, '.', "");
    assert alias + ['.'] + "" == alias + ".";
    assert (alias + ".")[|alias|..] == ".";
  }

  /** Three aliases, the query of the middle block, and placeholders for two of them. */
  datatype Names = Names(z: string, a: string, t: string, text: string, pz: string, pa: string)

  predicate Usable(n: Names) {
    && Whole(n.pz, n.z) && Whole(n.pa, n.a) && NoBrace(n.text)
    && n.z != n.a && n.t != n.a && n.t != n.z && n.pa != n.pz
    && !StringLe(n.pz, n.pa)
  }

  /** `z` stands first and refers down to `a`; `t` refers to both. */
  function DownwardNote(n: Names): seq<ParsedBlock> {
    [QueryBlock(n.z, Pattern(n.pa), 0),
     QueryBlock(n.a, n.text, 3),
     QueryBlock(n.t, Pattern(n.pa) + Pattern(n.pz), 6)]
  }

  lemma QueryPlaceholders(alias: string, query: string, line: nat, look: Lookup)
    ensures var b := QueryBlock(alias, query, line);
            && Placeholders(b.params) == (set p | p in Extract(query))
            && ResolveValue(b.params, look).Get("query") == Some(Str(ResolveText(query, look)))
  {
    var b := QueryBlock(alias, query, line);
    var fields := map["query" := Str(query)];
    assert forall p :: p in Placeholders(b.params) <==> p in Placeholders(fields["query"]);
  }

  lemma SortedOne(p: string)
    ensures SortedElements({p}) == [p]
  {
    assert {p} - {p} == {};
  }

  lemma SortedTwo(p: string, q: string)
    requires p != q && !StringLe(q, p)
    ensures SortedElements({p, q}) == [p, q]
  {
    assert Least({p, q}) == p;
    assert {p, q} - {p} == {q};
    SortedOne(q);
  }

  /** A query block none of whose placeholders is a dependency just runs. */
  lemma LoneBlock(blocks: seq<ParsedBlock>, host: Host, st: State, alias: string, i: nat, query: string, line: nat, depth: nat)
    requires AnswersQuery(host) && depth <= MAX_DEPENDENCY_DEPTH
    requires alias !in st.executed && alias !in st.inProgress
    requires FindBlockByAlias(blocks, alias) == Some(i) && blocks[i] == QueryBlock(alias, query, line)
    requires Deps(blocks, i) == {}
    ensures var answer := Str(ResolveText(query, LookupIn(st.executed, host.vars, host.render)));
            RunBlock(blocks, host, st, alias, depth) ==
            (State(st.executed[alias := answer], st.inProgress, st.trace + [alias]), Ok(answer))
  {
    var st1 := st.(inProgress := st.inProgress + {alias});
    NoDependencies(blocks, host, st1, i, ExtractPlaceholders(blocks[i].params), depth);
    QueryPlaceholders(alias, query, line, LookupIn(st.executed, host.vars, host.render));
    assert st1.inProgress - {alias} == st.inProgress;
  }

  lemma {:induction false} NoDependencies(blocks: seq<ParsedBlock>, host: Host, st: State, i: nat, ps: seq<string>, depth: nat)
    requires i < |blocks| && depth <= MAX_DEPENDENCY_DEPTH && DepsOf(blocks, i, ps) == {}
    ensures RunDependencies(blocks, host, st, i, ps, depth) == (st, None)
    decreases |ps|
  {
    if ps != [] {
      assert !IsDependency(blocks, i, ps[0]);
      NoDependencies(blocks, host, st, i, ps[1..], depth);
    }
  }

  lemma DownwardNoteFinds(n: Names)
    requires Usable(n)
    ensures var d := DownwardNote(n);
            && Ordered(d)
            && FindBlockByAlias(d, n.z) == Some(0) && FindBlockByAlias(d, n.a) == Some(1) && FindBlockByAlias(d, n.t) == Some(2)
  {
    var d := DownwardNote(n);
    FindBlockFirst(d, n.z, 0);
    FindBlockFirst(d, n.a, 1);
    FindBlockFirst(d, n.t, 2);
  }

  lemma DownwardNoteLeaves(n: Names)
    requires Usable(n)
    ensures var d := DownwardNote(n); Deps(d, 0) == {} && Deps(d, 1) == {}
  {
    var d := DownwardNote(n);
    DownwardNoteFinds(n);
    DepsAreEarlier(d, 0);
    QueryPlaceholders(n.a, n.text, 3, p => None);
    PlainText(n.text, p => None);
    assert ExtractPlaceholders(d[1].params) == [];
  }

  lemma PlainText(text: string, look: Lookup)
    requires NoBrace(text)
    ensures Extract(text) == [] && ResolveText(text, look) == text
  {
    forall k: nat ensures !At(text, "{{", k) { PairAt(text, "{{", k); }
    FindNone(text, "{{");
  }

  lemma DownwardNoteTarget(n: Names)
    requires Usable(n)
    ensures var d := DownwardNote(n);
            && ExtractPlaceholders(d[2].params) == [n.pa, n.pz]
            && IsDependency(d, 2, n.pa) && IsDependency(d, 2, n.pz)
  {
    var d := DownwardNote(n);
    PairPlaceholders(n.t, n.pa, n.pz, 6);
    AboveInNote(d, 2, 1, n.a);
    AboveInNote(d, 2, 0, n.z);
  }

  lemma PairPlaceholders(alias: string, p: string, q: string, line: nat)
    requires NoBrace(p) && NoBrace(q) && p != "" && q != "" && p != q && !StringLe(q, p)
    ensures ExtractPlaceholders(QueryBlock(alias, Pattern(p) + Pattern(q), line).params) == [p, q]
  {
    TwoTokens(p, q, x => None);
    QueryPlaceholders(alias, Pattern(p) + Pattern(q), line, x => None);
    SortedTwo(p, q);
    assert Placeholders(QueryBlock(alias, Pattern(p) + Pattern(q), line).params) == {p, q};
  }

  lemma AboveInNote(blocks: seq<ParsedBlock>, i: nat, j: nat, alias: string)
    requires i < |blocks| && j < |blocks| && blocks[j].alias == Some(alias) && blocks[j].lineStart < blocks[i].lineStart
    ensures AliasAbove(blocks, blocks[i].lineStart, alias)
  {
    BlocksAboveAre(blocks, blocks[i].lineStart);
    assert blocks[j] in blocks;
  }

  lemma LoneEval(blocks: seq<ParsedBlock>, host: Host, alias: string, i: nat, query: string, line: nat)
    requires Ordered(blocks) && AnswersQuery(host)
    requires FindBlockByAlias(blocks, alias) == Some(i) && blocks[i] == QueryBlock(alias, query, line)
    requires Deps(blocks, i) == {}
    ensures Eval(blocks, host, alias) == Ok(Str(ResolveText(query, LookupIn(map[], host.vars, host.render))))
  {
    var ps := ExtractPlaceholders(blocks[i].params);
    NoEvalDependencies(blocks, host, i, ps);
    QueryPlaceholders(alias, query, line, LookupIn(map[], host.vars, host.render));
  }

  lemma {:induction false} NoEvalDependencies(blocks: seq<ParsedBlock>, host: Host, i: nat, ps: seq<string>)
    requires Ordered(blocks) && i < |blocks| && DepsOf(blocks, i, ps) == {}
    ensures EvalDependencies(blocks, host, i, ps) == Ok(map[])
    decreases |ps|
  {
    if ps != [] {
      assert !IsDependency(blocks, i, ps[0]);
      NoEvalDependencies(blocks, host, i, ps[1..]);
    }
  }

  /** A whole-result placeholder becomes the result, or stays when there is none. */
  lemma WholeResult(p: string, a: string, results: map<string, Value>, host: Host)
    requires Whole(p, a) && (a in results ==> results[a].Str?)
    ensures ResolveText(Pattern(p), LookupIn(results, host.vars, host.render)) ==
            if a in results then results[a].text else Pattern(p)
  {
    var look := LookupIn(results, host.vars, host.render);
    LonePattern(p, look);
    if a in results { assert look(p) == Some(results[a].text); }
  }

  /** A text that is one placeholder. */
  lemma LonePattern(p: string, look: Lookup)
    requires NoBrace(p) && p != ""
    ensures ResolveText(Pattern(p), look) == if look(p).Some? then look(p).value else Pattern(p)
  {
    var text := Pattern(p);
    OneToken(p, "", look);
    assert text + "" == text;
    assert Extract(text) == [p];
    LoopOnce(text, p, look);
    if look(p).Some? { ReplaceWhole(text, look(p).value); }
  }

  lemma ReplaceWhole(text: string, v: string)
    requires text != ""
    ensures Replace(text, text, v) == v
  {
    assert text[..|text|] == text;
    assert Find(text, text) == Some(0);
    assert Replace(text[|text|..], text, v) == "";
  }

  lemma LoopOnce(text: string, p: string, look: Lookup)
    ensures ReplaceEach(text, [p], look) == if look(p).Some? then Replace(text, Pattern(p), look(p).value) else text
  {
    assert [p][1..] == [];
  }

  lemma TwoDependencies(blocks: seq<ParsedBlock>, host: Host, i: nat, p: string, a: string, q: string, b: string, depth: nat, st: State, st1: State, st2: State, v1: Value, v2: Value)
    requires ExtractAlias(p) == a && ExtractAlias(q) == b
    requires i < |blocks| && depth <= MAX_DEPENDENCY_DEPTH && IsDependency(blocks, i, p) && IsDependency(blocks, i, q)
    requires a !in st.executed && RunBlock(blocks, host, st, a, depth + 1) == (st1, Ok(v1))
    requires b !in st1.executed && RunBlock(blocks, host, st1, b, depth + 1) == (st2, Ok(v2))
    ensures RunDependencies(blocks, host, st, i, [p, q], depth) == (st2, None)
  {
    assert [p, q][1..] == [q];
    OneDependency(blocks, host, st1, i, q, b, depth, st2, Ok(v2));
  }

  /** What the run of `t` needs to know of the note. */
  predicate DownwardFacts(d: seq<ParsedBlock>, n: Names) {
    && |d| == 3
    && FindBlockByAlias(d, n.z) == Some(0) && FindBlockByAlias(d, n.a) == Some(1) && FindBlockByAlias(d, n.t) == Some(2)
    && d[0] == QueryBlock(n.z, Pattern(n.pa), 0) && d[1] == QueryBlock(n.a, n.text, 3) && d[2].params.Object?
    && Deps(d, 0) == {} && Deps(d, 1) == {}
    && ExtractPlaceholders(d[2].params) == [n.pa, n.pz] && IsDependency(d, 2, n.pa) && IsDependency(d, 2, n.pz)
  }

  function Answered(st: State, alias: string, answer: Value): State {
    State(st.executed[alias := answer], st.inProgress, st.trace + [alias])
  }

  lemma AnswersText(d: seq<ParsedBlock>, host: Host, n: Names, st: State, depth: nat)
    requires AnswersQuery(host) && Usable(n) && DownwardFacts(d, n) && depth <= MAX_DEPENDENCY_DEPTH
    requires n.a !in st.executed && n.a !in st.inProgress
    ensures RunBlock(d, host, st, n.a, depth) == (Answered(st, n.a, Str(n.text)), Ok(Str(n.text)))
  {
    LoneBlock(d, host, st, n.a, 1, n.text, 3, depth);
    PlainText(n.text, LookupIn(st.executed, host.vars, host.render));
  }

  lemma AnswersLeak(d: seq<ParsedBlock>, host: Host, n: Names, st: State, depth: nat)
    requires AnswersQuery(host) && Usable(n) && DownwardFacts(d, n) && depth <= MAX_DEPENDENCY_DEPTH
    requires n.z !in st.executed && n.z !in st.inProgress && n.a in st.executed && st.executed[n.a] == Str(n.text)
    ensures RunBlock(d, host, st, n.z, depth) == (Answered(st, n.z, Str(n.text)), Ok(Str(n.text)))
  {
    LoneBlock(d, host, st, n.z, 0, Pattern(n.pa), 0, depth);
    WholeResult(n.pa, n.a, st.executed, host);
  }

  lemma LeakedCalls(d: seq<ParsedBlock>, host: Host, n: Names, st0: State, depth: nat) returns (st1: State, st2: State)
    requires AnswersQuery(host) && Usable(n) && DownwardFacts(d, n) && depth <= MAX_DEPENDENCY_DEPTH
    requires st0.executed == map[] && st0.inProgress == {n.t}
    ensures n.a !in st0.executed && RunBlock(d, host, st0, n.a, depth) == (st1, Ok(Str(n.text)))
    ensures n.z !in st1.executed && RunBlock(d, host, st1, n.z, depth) == (st2, Ok(Str(n.text)))
    ensures n.z in st2.executed && st2.executed[n.z] == Str(n.text)
  {
    st1 := Answered(st0, n.a, Str(n.text));
    AnswersText(d, host, n, st0, depth);
    st2 := Answered(st1, n.z, Str(n.text));
    AnswersLeak(d, host, n, st1, depth);
  }

  lemma LeakedDependencies(d: seq<ParsedBlock>, host: Host, n: Names, st0: State, ps: seq<string>, depth: nat) returns (st2: State)
    requires AnswersQuery(host) && Usable(n) && DownwardFacts(d, n) && depth < MAX_DEPENDENCY_DEPTH
    requires st0.executed == map[] && st0.inProgress == {n.t} && ps == ExtractPlaceholders(d[2].params)
    ensures (st2, None) == RunDependencies(d, host, st0, 2, ps, depth)
    ensures n.z in st2.executed && st2.executed[n.z] == Str(n.text)
  {
    var st1;
    st1, st2 := LeakedCalls(d, host, n, st0, depth + 1);
    TwoDependencies(d, host, 2, n.pa, n.a, n.pz, n.z, depth, st0, st1, st2, Str(n.text), Str(n.text));
  }

  lemma LeakedRun(d: seq<ParsedBlock>, host: Host, n: Names) returns (st: State, r: Result<Value, RunnerError>)
    requires AnswersQuery(host) && Usable(n) && DownwardFacts(d, n)
    ensures (st, r) == Run(d, host, n.t)
    ensures r.Ok? && n.z in st.executed && st.executed[n.z] == Str(n.text)
  {
    var st0 := START.(inProgress := START.inProgress + {n.t});
    var st2 := LeakedDependencies(d, host, n, st0, ExtractPlaceholders(d[2].params), 0);
    CallIs(d, host, START, n.t, 2, 0, st2, None);
    var end := Finish(d[2], host, st2, n.t);
    st, r := end.0, end.1;
  }

  /** A run of `t` caches another value for `z` than a run of `z` itself, which is
      the plain recursion's: `z` picks up the block below it that ran first. */
  lemma DownwardNoteLeaks(host: Host, n: Names)
    requires AnswersQuery(host) && Usable(n)
    ensures var d := DownwardNote(n);
            && Ordered(d)
            && var (st, r) := Run(d, host, n.t);
            && r.Ok? && n.z in st.executed && st.executed[n.z] == Str(n.text)
            && Run(d, host, n.z).1 == Eval(d, host, n.z) == Ok(Str(Pattern(n.pa)))
            && n.text != Pattern(n.pa)
  {
    var d := DownwardNote(n);
    DownwardNoteFinds(n);
    DownwardNoteLeaves(n);
    DownwardNoteTarget(n);
    var _, _ := LeakedRun(d, host, n);
    WholeResult(n.pa, n.a, map[], host);
    LoneBlock(d, host, START, n.z, 0, Pattern(n.pa), 0, 0);
    LoneEval(d, host, n.z, 0, Pattern(n.pa), 0);
    assert Pattern(n.pa)[0] == '{';
  }

  // ─── The hypotheses can be met ────────────────────────────────────

  function ChainAlias(i: nat): string {
    "b" + Decimal(i)
  }

  function ChainQuery(i: nat): string {
    if i == 0 then "" else Pattern(ChainAlias(i - 1) + ".")
  }

  /** `n` query blocks, each asking for the whole result of the one above. */
  function ChainOf(n: nat): (blocks: seq<ParsedBlock>)
    ensures |blocks| == n
    ensures forall i | 0 <= i < n :: blocks[i] == QueryBlock(ChainAlias(i), ChainQuery(i), 3 * i)
  {
    if n == 0 then [] else ChainOf(n - 1) + [QueryBlock(ChainAlias(n - 1), ChainQuery(n - 1), 3 * (n - 1))]
  }

  lemma ChainAliasIsPlain(i: nat)
    ensures var a := ChainAlias(i); '.' !in a && NoBrace(a)
  {
    var digits := Decimal(i);
    assert forall c | c in digits :: IsDigit(c);
  }

  lemma ChainAliasesDiffer(i: nat, j: nat)
    requires i != j
    ensures ChainAlias(i) != ChainAlias(j)
  {
    DecimalValue(i);
    DecimalValue(j);
    assert ChainAlias(i)[1..] == Decimal(i) && ChainAlias(j)[1..] == Decimal(j);
  }

  lemma LoneName(p: string)
    requires NoBrace(p) && p != ""
    ensures Extract(Pattern(p)) == [p]
  {
    OneToken(p, "", q => None);
    SubstNoToken("", q => None);
    assert Pattern(p) + "" == Pattern(p);
  }

  lemma QueryNames(alias: string, query: string, line: nat)
    ensures Extract(query) == [] ==> ExtractPlaceholders(QueryBlock(alias, query, line).params) == []
    ensures |Extract(query)| == 1 ==> ExtractPlaceholders(QueryBlock(alias, query, line).params) == Extract(query)
  {
    QueryPlaceholders(alias, query, line, q => None);
    var names := set q | q in Extract(query);
    if Extract(query) == [] {
      assert names == {};
    } else if |Extract(query)| == 1 {
      assert names == {Extract(query)[0]};
      SortedOne(Extract(query)[0]);
    }
  }

  lemma ChainLinksUp(n: nat, i: nat)
    requires i < n
    ensures LinkTo(ChainOf(n), i)
  {
    QueryNames(ChainAlias(i), ChainQuery(i), 3 * i);
    if i == 0 {
      SubstNoToken(ChainQuery(i), q => None);
    } else {
      ChainAliasIsPlain(i - 1);
      AliasOf(ChainAlias(i - 1));
      LoneName(ChainAlias(i - 1) + ".");
    }
  }

  /** There are chains of every length. */
  lemma ChainsExist(n: nat)
    ensures IsChain(ChainOf(n))
  {
    var blocks := ChainOf(n);
    assert Ordered(blocks);
    forall i | 0 <= i < |blocks| ensures LinkTo(blocks, i) { ChainLinksUp(n, i); }
    forall i, j | 0 <= i < j < |blocks| ensures blocks[i].alias != blocks[j].alias { ChainAliasesDiffer(i, j); }
  }

  /** Of 52 blocks in a chain the last cannot run; without it, the one before can. */
  lemma ChainLimit(host: Host, n: nat)
    requires AlwaysSucceeds(host) && n == MAX_DEPENDENCY_DEPTH + 2
    ensures var run := Run(ChainOf(n), host, ChainAlias(n - 1)).1; run.Err? && run.error.Root().DepthExceeded?
    ensures Run(ChainOf(n - 1), host, ChainAlias(n - 2)).1.Ok?
  {
    ChainsExist(n);
    ChainsExist(n - 1);
    ChainDepthIsExact(ChainOf(n), host);
    ChainDepthIsExact(ChainOf(n - 1), host);
  }
}
