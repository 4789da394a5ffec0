/** Fuzzy file search (httui-core/src/search.rs): greedy subsequence matching with bonuses. */
module FuzzyScore {
  import opened Text

  predicate IsSeparator(c: char) {
    c == '-' || c == '_' || c == ' ' || c == '/'
  }

  /** What a match at position `ti` adds. */
  function Bonus(target: string, ti: nat, previous: bool): nat
    requires ti < |target|
  {
    (if previous then 5 else 0) + (if ti == 0 then 10 else 0) + (if ti > 0 && IsSeparator(target[ti - 1]) then 8 else 0) + 1
  }

  datatype Progress = Progress(matched: nat, score: nat, previous: bool)

  /** The state behind the first `ti` characters of the target. */
  function After(target: string, query: string, ti: nat): (p: Progress)
    requires ti <= |target|
    ensures p.matched <= |query|
  {
    if ti == 0 then Progress(0, 0, false)
    else
      var p := After(target, query, ti - 1);
      if p.matched < |query| && target[ti - 1] == query[p.matched]
      then Progress(p.matched + 1, p.score + Bonus(target, ti - 1, p.previous), true)
      else p.(previous := false)
  }

  function Score(target: string, query: string): Option<nat> {
    var p := After(target, query, |target|);
    if p.matched == |query| then Some(p.score) else None
  }

  method FuzzyScore(target: string, query: string) returns (r: Option<nat>)
    ensures r == Score(target, query)
  {
    var qi, score, prevMatch := 0, 0, false;
    for ti := 0 to |target|
      invariant Progress(qi, score, prevMatch) == After(target, query, ti)
    {
      if qi < |query| && target[ti] == query[qi] {
        qi := qi + 1;
        if prevMatch { score := score + 5; }
        if ti == 0 { score := score + 10; }
        if ti > 0 && IsSeparator(target[ti - 1]) { score := score + 8; }
        score := score + 1;
        prevMatch := true;
      } else {
        prevMatch := false;
      }
    }
    return if qi == |query| then Some(score) else None;
  }

  // ─── Embeddings ───────────────────────────────────────────────────

  /** `at` sends each query character to an equal target character, in order. */
  predicate Embeds(target: string, query: string, at: seq<nat>) {
    && |at| == |query|
    && (forall i | 0 <= i < |at| :: at[i] < |target| && target[at[i]] == query[i])
    && (forall i, j | 0 <= i < j < |at| :: at[i] < at[j])
  }

  /** The positions the scan matched, in the first `ti` characters. */
  lemma {:induction false} MatchedEmbeds(target: string, query: string, ti: nat) returns (at: seq<nat>)
    requires ti <= |target|
    ensures var n := After(target, query, ti).matched; Embeds(target, query[..n], at) && forall i | 0 <= i < |at| :: at[i] < ti
  {
    if ti == 0 {
      at := [];
    } else {
      var p := After(target, query, ti - 1);
      at := MatchedEmbeds(target, query, ti - 1);
      if p.matched < |query| && target[ti - 1] == query[p.matched] {
        at := at + [ti - 1];
      }
    }
  }

  /** Greedy matching is never behind: it has matched at least as much as any embedding
      places before `ti`. */
  lemma {:induction false} GreedyIsAhead(target: string, query: string, at: seq<nat>, ti: nat, n: nat)
    requires ti <= |target| && n <= |query| && Embeds(target, query, at)
    requires forall i | 0 <= i < n :: at[i] < ti
    ensures n <= After(target, query, ti).matched
    decreases ti
  {
    if n > 0 {
      assert at[n - 1] < ti;
      if at[n - 1] < ti - 1 {
        GreedyIsAhead(target, query, at, ti - 1, n);
      } else {
        GreedyIsAhead(target, query, at, ti - 1, n - 1);
      }
    }
  }

  lemma {:induction false} ScoreBounds(target: string, query: string, ti: nat)
    requires ti <= |target|
    ensures var p := After(target, query, ti); p.matched <= p.score <= 14 * p.matched
    ensures ti == 0 ==> !After(target, query, ti).previous
  {
    if ti > 0 { ScoreBounds(target, query, ti - 1); }
  }

  /** MAIN: a score is given if and only if the query embeds in the target in order, and
      it lies between the query's length and 14 times that length. */
  lemma ScoreIffEmbeds(target: string, query: string)
    ensures Score(target, query).Some? <==> exists at :: Embeds(target, query, at)
    ensures Score(target, query).Some? ==> |query| <= Score(target, query).value <= 14 * |query|
  {
    ScoreBounds(target, query, |target|);
    if Score(target, query).Some? {
      var at := MatchedEmbeds(target, query, |target|);
      assert query[..|query|] == query;
    } else if at :| Embeds(target, query, at) {
      GreedyIsAhead(target, query, at, |target|, |query|);
    }
  }

  /** A query short enough that no step of the loop leaves 32 signed bits. */
  lemma ScoreFitsI32(target: string, query: string, ti: nat)
    requires ti <= |target| && |query| <= 153_391_689
    ensures After(target, query, ti).score < 0x8000_0000
  {
    ScoreBounds(target, query, ti);
  }

  // ─── What a score is made of ──────────────────────────────────────

  /** What the match of the `i`th query character is worth: 1, and 10 more at the very
      start, 8 more behind a separator, 5 more right behind the match before it. */
  function Worth(target: string, at: seq<nat>, i: nat): nat
    requires i < |at| && at[i] < |target|
  {
    1 + (if at[i] == 0 then 10 else if target[at[i] - 1] in "-_ /" then 8 else 0)
      + (if i > 0 && at[i] == at[i - 1] + 1 then 5 else 0)
  }

  function TotalWorth(target: string, at: seq<nat>): nat
    requires forall i | 0 <= i < |at| :: at[i] < |target|
  {
    if at == [] then 0 else TotalWorth(target, at[..|at| - 1]) + Worth(target, at, |at| - 1)
  }

  /** Where the search for the next character starts. */
  function From(at: seq<nat>): nat {
    if at == [] then 0 else at[|at| - 1] + 1
  }

  /** Each character is matched at the first place it has behind the one before it. */
  predicate Leftmost(target: string, query: string, at: seq<nat>)
    requires |at| <= |query|
  {
    at == [] ||
    (var init, last := at[..|at| - 1], at[|at| - 1];
     Leftmost(target, query, init) && From(init) <= last < |target| && query[|init|] !in target[From(init)..last])
  }

  /** The scan's progress is that of a leftmost match, and the next character is not
      between that match and `ti`. */
  predicate Follows(target: string, query: string, ti: nat, p: Progress, at: seq<nat>) {
    && |at| == p.matched <= |query| && From(at) <= ti <= |target|
    && (forall i | 0 <= i < |at| :: at[i] < |target|)
    && Leftmost(target, query, at) && p.score == TotalWorth(target, at)
    && (p.previous <==> at != [] && From(at) == ti)
    && (p.matched < |query| ==> query[p.matched] !in target[From(at)..ti])
  }

  lemma Matched(target: string, query: string, ti: nat, p: Progress, at: seq<nat>)
    requires Follows(target, query, ti, p, at) && ti < |target| && p.matched < |query| && target[ti] == query[p.matched]
    ensures Follows(target, query, ti + 1, Progress(p.matched + 1, p.score + Bonus(target, ti, p.previous), true), at + [ti])
  {
    var more := at + [ti];
    assert more[..|at|] == at;
    assert Worth(target, more, |at|) == Bonus(target, ti, p.previous);
  }

  lemma Missed(target: string, query: string, ti: nat, p: Progress, at: seq<nat>)
    requires Follows(target, query, ti, p, at) && ti < |target| && (p.matched < |query| ==> target[ti] != query[p.matched])
    ensures Follows(target, query, ti + 1, p.(previous := false), at)
  {
    assert target[From(at)..ti + 1] == target[From(at)..ti] + [target[ti]];
  }

  lemma FollowsNext(target: string, query: string, ti: nat, p: Progress, at: seq<nat>) returns (more: seq<nat>)
    requires ti < |target| && p == After(target, query, ti) && Follows(target, query, ti, p, at)
    ensures Follows(target, query, ti + 1, After(target, query, ti + 1), more)
  {
    if p.matched < |query| && target[ti] == query[p.matched] {
      Matched(target, query, ti, p, at);
      more := at + [ti];
    } else {
      Missed(target, query, ti, p, at);
      more := at;
    }
  }

  lemma FollowsStart(target: string, query: string)
    ensures Follows(target, query, 0, Progress(0, 0, false), [])
  {
  }

  lemma {:induction false} GreedyMatch(target: string, query: string, ti: nat) returns (at: seq<nat>)
    requires ti <= |target|
    ensures Follows(target, query, ti, After(target, query, ti), at)
  {
    if ti == 0 {
      at := [];
      FollowsStart(target, query);
    } else {
      at := GreedyMatch(target, query, ti - 1);
      at := FollowsNext(target, query, ti - 1, After(target, query, ti - 1), at);
    }
  }

  /** MAIN: the score is what the leftmost match is worth, character by character. */
  lemma ScoreIsWorth(target: string, query: string) returns (at: seq<nat>)
    requires Score(target, query).Some?
    ensures |at| == |query| && (forall i | 0 <= i < |at| :: at[i] < |target|)
    ensures Leftmost(target, query, at) && Score(target, query) == Some(TotalWorth(target, at))
  {
    at := GreedyMatch(target, query, |target|);
  }
}
