/** How the db executor hands a flat list of binds to the statements of a query
    (httui-core/src/executor/db/mod.rs), and why the pool's guards accept each
    statement (httui-core/src/db/pool.rs). */
module BindSlicing {
  import opened Text
  import opened SqlScanner
  import opened SqlScannerTheorems

  function Min(a: nat, b: nat): nat {
    if a <= b then a else b
  }

  /** How many binds each statement asks for. */
  function Counts(statements: seq<string>): (counts: seq<nat>)
    ensures |counts| == |statements| && forall i | 0 <= i < |counts| :: counts[i] == Count(statements[i], Code)
  {
    if statements == [] then [] else [Count(statements[0], Code)] + Counts(statements[1..])
  }

  /** The loop's slices, from a cursor on. */
  function Slices<T>(counts: seq<nat>, binds: seq<T>, cursor: nat): seq<seq<T>>
    requires cursor <= |binds|
  {
    if counts == [] then []
    else
      var end := Min(cursor + counts[0], |binds|);
      [binds[cursor..end]] + Slices(counts[1..], binds, end)
  }

  method SliceBinds<T>(statements: seq<string>, binds: seq<T>) returns (perStatement: seq<seq<T>>)
    ensures perStatement == Slices(Counts(statements), binds, 0)
  {
    ghost var counts := Counts(statements);
    var cursor := 0;
    perStatement := [];
    for i := 0 to |statements|
      invariant cursor <= |binds|
      invariant perStatement + Slices(counts[i..], binds, cursor) == Slices(counts, binds, 0)
    {
      var n := CountPlaceholders(statements[i]);
      var end := Min(cursor + n, |binds|);
      assert counts[i..][1..] == counts[i + 1..] && counts[i..][0] == n;
      AppendAssoc(perStatement, [binds[cursor..end]], Slices(counts[i + 1..], binds, end));
      perStatement := perStatement + [binds[cursor..end]];
      cursor := end;
    }
  }

  function Flatten<T>(xs: seq<seq<T>>): seq<T> {
    if xs == [] then [] else xs[0] + Flatten(xs[1..])
  }

  function Sum(counts: seq<nat>): nat {
    if counts == [] then 0 else counts[0] + Sum(counts[1..])
  }

  lemma {:induction false} SumOfCounts(statements: seq<string>)
    ensures Sum(Counts(statements)) == SumCounts(statements)
  {
    if statements != [] {
      SumOfCounts(statements[1..]);
      assert Counts(statements)[1..] == Counts(statements[1..]);
    }
  }

  /** Every slice has as many binds as are asked for. */
  predicate AllFit<T>(counts: seq<nat>, slices: seq<seq<T>>) {
    |slices| == |counts| && forall i | 0 <= i < |slices| :: |slices[i]| == counts[i]
  }

  /** The slices are the first binds, in order, up to as many as there are placeholders. */
  lemma {:induction false} SlicesTake<T>(counts: seq<nat>, binds: seq<T>, cursor: nat)
    requires cursor <= |binds|
    ensures |Slices(counts, binds, cursor)| == |counts|
    ensures Flatten(Slices(counts, binds, cursor)) == binds[cursor..Min(cursor + Sum(counts), |binds|)]
  {
    if counts != [] {
      var end := Min(cursor + counts[0], |binds|);
      SlicesTake(counts[1..], binds, end);
      SliceOn(binds, cursor, end, Min(end + Sum(counts[1..]), |binds|));
    }
  }

  lemma SliceOn<T>(binds: seq<T>, from: nat, mid: nat, to: nat)
    requires from <= mid <= to <= |binds|
    ensures binds[from..mid] + binds[mid..to] == binds[from..to]
  {
  }

  /** They all fit if and only if there are as many binds. */
  lemma {:induction false} SlicesFit<T>(counts: seq<nat>, binds: seq<T>, cursor: nat)
    requires cursor <= |binds|
    ensures AllFit(counts, Slices(counts, binds, cursor)) <==> cursor + Sum(counts) <= |binds|
  {
    if counts != [] {
      var end := Min(cursor + counts[0], |binds|);
      SlicesFit(counts[1..], binds, end);
      SlicesTake(counts[1..], binds, end);
      FitCons(counts, binds[cursor..end], Slices(counts[1..], binds, end));
    }
  }

  lemma FitCons<T>(counts: seq<nat>, first: seq<T>, rest: seq<seq<T>>)
    requires counts != [] && |rest| == |counts| - 1
    ensures AllFit(counts, [first] + rest) <==> |first| == counts[0] && AllFit(counts[1..], rest)
  {
    var all := [first] + rest;
    if AllFit(counts, all) {
      forall i | 0 <= i < |rest| ensures |rest[i]| == counts[1..][i] {
        assert rest[i] == all[i + 1];
      }
      assert all[0] == first;
    }
  }

  /** MAIN: every statement of a query passes the pool's guards (one statement; as many
      binds as placeholders) if and only if there are at least as many binds as the
      query has placeholders; the slices are the first binds, in order, each used once,
      and a surplus is dropped without a word. */
  lemma StatementsPassTheGuardsIff<T>(sql: string, binds: seq<T>)
    ensures var statements := Statements(sql);
            var slices, n := Slices(Counts(statements), binds, 0), Count(sql, Code);
            && (forall i | 0 <= i < |statements| :: !Multiple(statements[i]))
            && (AllFit(Counts(statements), slices) <==> n <= |binds|)
            && Flatten(slices) == binds[..Min(n, |binds|)]
  {
    var statements := Statements(sql);
    SplitConservesPlaceholders(sql);
    SumOfCounts(statements);
    SlicesTake(Counts(statements), binds, 0);
    SlicesFit(Counts(statements), binds, 0);
    forall i | 0 <= i < |statements| ensures !Multiple(statements[i]) {
      PieceRescansToItself(sql, statements[i]);
    }
  }
}
