/** The sliding-window limit on block executions (httui-mcp/src/server.rs). A clock
    reading is a number of nanoseconds and a parameter; the lock makes calls sequential. */
module RateLimiter {

  const EXECUTE_RATE_LIMIT: nat := 30
  const EXECUTE_RATE_WINDOW: nat := 60_000_000_000

  /** `Instant::duration_since`, which saturates at zero. */
  function Since(now: nat, t: nat): nat {
    if t <= now then now - t else 0
  }

  // ─── The limiter as a function of its deque ───────────────────────

  function Evict(q: seq<nat>, now: nat): seq<nat> {
    if q != [] && Since(now, q[0]) > EXECUTE_RATE_WINDOW then Evict(q[1..], now) else q
  }

  /** The deque after a call, and whether the call is accepted. */
  function Call(q: seq<nat>, now: nat): (seq<nat>, bool) {
    var kept := Evict(q, now);
    if |kept| >= EXECUTE_RATE_LIMIT then (kept, false) else (kept + [now], true)
  }

  /** The decisions of a run. */
  function Decisions(q: seq<nat>, readings: seq<nat>): seq<bool>
    decreases |readings|
  {
    if readings == [] then []
    else
      var (q', ok) := Call(q, readings[0]);
      [ok] + Decisions(q', readings[1..])
  }

  /** The times a run accepts, behind those accepted before. */
  function Accepted(q: seq<nat>, accepted: seq<nat>, readings: seq<nat>): seq<nat>
    decreases |readings|
  {
    if readings == [] then accepted
    else
      var (q', ok) := Call(q, readings[0]);
      Accepted(q', if ok then accepted + [readings[0]] else accepted, readings[1..])
  }

  class Limiter {
    var timestamps: seq<nat>

    constructor ()
      ensures timestamps == []
    {
      timestamps := [];
    }

    method CheckExecuteRateLimit(now: nat) returns (ok: bool)
      modifies this
      ensures (timestamps, ok) == Call(old(timestamps), now)
    {
      while timestamps != [] && Since(now, timestamps[0]) > EXECUTE_RATE_WINDOW
        invariant Evict(timestamps, now) == Evict(old(timestamps), now)
        decreases |timestamps|
      {
        timestamps := timestamps[1..];
      }
      if |timestamps| >= EXECUTE_RATE_LIMIT {
        return false;
      }
      timestamps := timestamps + [now];
      return true;
    }
  }

  // ─── The limit itself, over everything accepted so far ────────────

  /** How many of the times lie in the closed interval. */
  function Count(times: seq<nat>, from: int, to: int): nat {
    if times == [] then 0
    else
      var t := times[|times| - 1];
      Count(times[..|times| - 1], from, to) + (if from <= t <= to then 1 else 0)
  }

  /** Fewer than 30 accepted calls are at most 60 seconds old. */
  predicate MayCall(accepted: seq<nat>, now: nat) {
    Count(accepted, now - 60_000_000_000, now) < 30
  }

  function AcceptedAfter(accepted: seq<nat>, readings: seq<nat>): seq<nat>
    decreases |readings|
  {
    if readings == [] then accepted
    else AcceptedAfter(if MayCall(accepted, readings[0]) then accepted + [readings[0]] else accepted, readings[1..])
  }

  /** The decisions of a limiter that keeps every accepted time. */
  function NaiveDecisions(accepted: seq<nat>, readings: seq<nat>): seq<bool>
    decreases |readings|
  {
    if readings == [] then []
    else
      var ok := MayCall(accepted, readings[0]);
      [ok] + NaiveDecisions(if ok then accepted + [readings[0]] else accepted, readings[1..])
  }

  predicate Sorted(s: seq<nat>) {
    forall i, j | 0 <= i <= j < |s| :: s[i] <= s[j]
  }

  predicate AtMost(s: seq<nat>, limit: int) {
    forall i | 0 <= i < |s| :: s[i] <= limit
  }

  predicate AtLeast(s: seq<nat>, limit: int) {
    forall i | 0 <= i < |s| :: limit <= s[i]
  }

  // ─── The deque holds exactly the calls that count ─────────────────

  lemma {:induction false} CountNone(times: seq<nat>, from: int, to: int)
    requires AtMost(times, from - 1)
    ensures Count(times, from, to) == 0
  {
    if times != [] { CountNone(times[..|times| - 1], from, to); }
  }

  lemma {:induction false} CountAll(times: seq<nat>, from: int, to: int)
    requires AtLeast(times, from) && AtMost(times, to)
    ensures Count(times, from, to) == |times|
  {
    if times != [] { CountAll(times[..|times| - 1], from, to); }
  }

  lemma {:induction false} CountAppend(a: seq<nat>, b: seq<nat>, from: int, to: int)
    ensures Count(a + b, from, to) == Count(a, from, to) + Count(b, from, to)
  {
    if b == [] {
      assert a + b == a;
    } else {
      CountAppend(a, b[..|b| - 1], from, to);
      assert (a + b)[..|a + b| - 1] == a + b[..|b| - 1];
    }
  }

  /** The deque is the rest of the accepted calls, behind calls too old to count. */
  predicate Tracks(accepted: seq<nat>, q: seq<nat>, gone: seq<nat>, clock: nat) {
    && accepted == gone + q && Sorted(accepted) && |q| <= EXECUTE_RATE_LIMIT
    && AtMost(accepted, clock) && AtMost(gone, clock - EXECUTE_RATE_WINDOW - 1)
  }

  lemma SuffixKeeps(gone: seq<nat>, q: seq<nat>, limit: int)
    requires Sorted(gone + q) && AtMost(gone + q, limit)
    ensures Sorted(q) && AtMost(q, limit)
  {
    var all := gone + q;
    forall i, j | 0 <= i <= j < |q| ensures q[i] <= q[j] <= limit {
      assert q[i] == all[|gone| + i] && q[j] == all[|gone| + j];
    }
  }

  /** What is evicted is too old to count … */
  lemma {:induction false} EvictCuts(q: seq<nat>, now: nat) returns (cut: seq<nat>)
    ensures q == cut + Evict(q, now) && AtMost(cut, now - EXECUTE_RATE_WINDOW - 1)
  {
    if q != [] && Since(now, q[0]) > EXECUTE_RATE_WINDOW {
      var c := EvictCuts(q[1..], now);
      cut := [q[0]] + c;
    } else {
      cut := [];
    }
  }

  /** … and what is kept is not. */
  lemma {:induction false} EvictKeepsRecent(q: seq<nat>, now: nat)
    requires Sorted(q)
    ensures AtLeast(Evict(q, now), now - EXECUTE_RATE_WINDOW)
  {
    if q != [] && Since(now, q[0]) > EXECUTE_RATE_WINDOW { EvictKeepsRecent(q[1..], now); }
  }

  /** Of the accepted calls, those that count are the ones still in the deque. */
  lemma KeptCounts(accepted: seq<nat>, gone: seq<nat>, kept: seq<nat>, now: nat)
    requires accepted == gone + kept && AtMost(kept, now)
    requires AtMost(gone, now - EXECUTE_RATE_WINDOW - 1) && AtLeast(kept, now - EXECUTE_RATE_WINDOW)
    ensures Count(accepted, now - EXECUTE_RATE_WINDOW, now) == |kept|
  {
    CountAppend(gone, kept, now - EXECUTE_RATE_WINDOW, now);
    CountNone(gone, now - EXECUTE_RATE_WINDOW, now);
    CountAll(kept, now - EXECUTE_RATE_WINDOW, now);
  }

  /** One call: the decision is the limit's, and the deque keeps tracking. */
  lemma CallTracks(accepted: seq<nat>, q: seq<nat>, gone: seq<nat>, clock: nat, now: nat) returns (gone': seq<nat>)
    requires Tracks(accepted, q, gone, clock) && clock <= now
    ensures var (q', ok) := Call(q, now);
            && (ok <==> MayCall(accepted, now))
            && Tracks(if ok then accepted + [now] else accepted, q', gone', now)
  {
    SuffixKeeps(gone, q, now);
    var cut := EvictCuts(q, now);
    EvictKeepsRecent(q, now);
    var kept := Evict(q, now);
    EvictShrinks(q, now);
    gone' := gone + cut;
    AppendThree(gone, cut, kept, now);
    SuffixKeeps(gone', kept, now);
    KeptCounts(accepted, gone', kept, now);
  }

  lemma AppendThree(a: seq<nat>, b: seq<nat>, c: seq<nat>, x: nat)
    ensures a + (b + c) == (a + b) + c && a + (b + c) + [x] == (a + b) + (c + [x])
  {
  }

  lemma {:induction false} RunTracks(accepted: seq<nat>, q: seq<nat>, gone: seq<nat>, clock: nat, readings: seq<nat>)
    requires Tracks(accepted, q, gone, clock) && Sorted(readings) && AtLeast(readings, clock)
    ensures Decisions(q, readings) == NaiveDecisions(accepted, readings)
    decreases |readings|
  {
    if readings != [] {
      var now := readings[0];
      var gone' := CallTracks(accepted, q, gone, clock, now);
      var (q', ok) := Call(q, now);
      RunTracks(if ok then accepted + [now] else accepted, q', gone', now, readings[1..]);
    }
  }

  lemma {:induction false} AcceptedTracks(accepted: seq<nat>, q: seq<nat>, gone: seq<nat>, clock: nat, readings: seq<nat>)
    requires Tracks(accepted, q, gone, clock) && Sorted(readings) && AtLeast(readings, clock)
    ensures Accepted(q, accepted, readings) == AcceptedAfter(accepted, readings)
    decreases |readings|
  {
    if readings != [] {
      var now := readings[0];
      var gone' := CallTracks(accepted, q, gone, clock, now);
      var (q', ok) := Call(q, now);
      AcceptedTracks(if ok then accepted + [now] else accepted, q', gone', now, readings[1..]);
    }
  }

  /** MAIN: over every run with a clock that does not go back, the evicting deque
      decides like the limiter that keeps every accepted call. */
  lemma DequeIsExact(readings: seq<nat>)
    requires Sorted(readings)
    ensures Decisions([], readings) == NaiveDecisions([], readings)
    ensures Accepted([], [], readings) == AcceptedAfter([], readings)
  {
    RunTracks([], [], [], 0, readings);
    AcceptedTracks([], [], [], 0, readings);
  }

  // ─── No 60 seconds hold more than 30 calls ────────────────────────

  function InWindow(times: seq<nat>, from: int): nat {
    Count(times, from, from + EXECUTE_RATE_WINDOW)
  }

  ghost predicate Limited(accepted: seq<nat>) {
    forall from: int :: InWindow(accepted, from) <= EXECUTE_RATE_LIMIT
  }

  /** Of times up to `now`, an interval that starts later sees no more. */
  lemma {:induction false} CountShrinks(times: seq<nat>, from: int, to: int, from': int, to': int)
    requires from' <= from && AtMost(times, to')
    ensures Count(times, from, to) <= Count(times, from', to')
  {
    if times != [] { CountShrinks(times[..|times| - 1], from, to, from', to'); }
  }

  lemma AcceptKeepsLimit(accepted: seq<nat>, now: nat)
    requires Limited(accepted) && MayCall(accepted, now) && AtMost(accepted, now)
    ensures Limited(accepted + [now])
  {
    forall from: int ensures InWindow(accepted + [now], from) <= EXECUTE_RATE_LIMIT {
      assert (accepted + [now])[..|accepted|] == accepted;
      assert InWindow(accepted, from) <= EXECUTE_RATE_LIMIT;
      if from <= now <= from + EXECUTE_RATE_WINDOW {
        CountShrinks(accepted, from, from + EXECUTE_RATE_WINDOW, now - EXECUTE_RATE_WINDOW, now);
      }
    }
  }

  lemma {:induction false} RunIsLimited(accepted: seq<nat>, readings: seq<nat>)
    requires Limited(accepted) && Sorted(readings) && (readings != [] ==> AtMost(accepted, readings[0]))
    ensures Limited(AcceptedAfter(accepted, readings))
    decreases |readings|
  {
    if readings != [] {
      var now := readings[0];
      var next := if MayCall(accepted, now) then accepted + [now] else accepted;
      if MayCall(accepted, now) { AcceptKeepsLimit(accepted, now); }
      RunIsLimited(next, readings[1..]);
    }
  }

  /** MAIN: over every run, any closed interval of 60 seconds holds at most 30 of the
      calls the deque accepts. */
  lemma EveryWindowIsLimited(readings: seq<nat>, from: int)
    requires Sorted(readings)
    ensures Count(Accepted([], [], readings), from, from + 60_000_000_000) <= 30
  {
    DequeIsExact(readings);
    RunIsLimited([], readings);
    assert InWindow(AcceptedAfter([], readings), from) <= EXECUTE_RATE_LIMIT;
  }

  /** MAIN: the deque never holds more than 30 entries, in any run. */
  lemma {:induction false} DequeIsBounded(q: seq<nat>, readings: seq<nat>) returns (q': seq<nat>)
    requires |q| <= EXECUTE_RATE_LIMIT
    ensures q' == DequeAfter(q, readings) && |q'| <= EXECUTE_RATE_LIMIT
    decreases |readings|
  {
    if readings == [] {
      q' := q;
    } else {
      EvictShrinks(q, readings[0]);
      q' := DequeIsBounded(Call(q, readings[0]).0, readings[1..]);
    }
  }

  function DequeAfter(q: seq<nat>, readings: seq<nat>): seq<nat>
    decreases |readings|
  {
    if readings == [] then q else DequeAfter(Call(q, readings[0]).0, readings[1..])
  }

  lemma EvictShrinks(q: seq<nat>, now: nat)
    ensures |Evict(q, now)| <= |q|
  {
  }
}
