/** The string operations the repository takes from Rust's standard library,
    over sequences of Unicode scalar values. */
module Text {

  datatype Option<+T> = None | Some(value: T)

  datatype Result<+T, +E> = Ok(value: T) | Err(error: E)

  // ─── Concatenation ────────────────────────────────────────────────

  lemma AppendAssoc<T>(a: seq<T>, b: seq<T>, c: seq<T>)
    ensures a + b + c == a + (b + c)
  {
  }

  lemma AppendMiddle<T>(w: seq<T>, a: seq<T>, b: seq<T>, c: seq<T>)
    ensures w + (a + b) + c == w + a + (b + c)
    ensures w + (a + b) + c == (w + a) + b + c
  {
  }

  lemma AppendAssoc3<T>(w: seq<T>, a: seq<T>, b: seq<T>, c: seq<T>)
    ensures w + a + b + c == w + (a + b + c)
  {
  }

  // ─── Whitespace ───────────────────────────────────────────────────

  /** `char::is_whitespace`: the Unicode White_Space property. */
  predicate IsWhitespace(c: char) {
    || '\t' <= c <= '\r'
    || c == ' '
    || c == '\U{85}'
    || c == '\U{A0}'
    || c == '\U{1680}'
    || '\U{2000}' <= c <= '\U{200A}'
    || c == '\U{2028}'
    || c == '\U{2029}'
    || c == '\U{202F}'
    || c == '\U{205F}'
    || c == '\U{3000}'
  }

  predicate Blank(s: string) {
    forall i | 0 <= i < |s| :: IsWhitespace(s[i])
  }

  predicate NoWhitespace(s: string) {
    forall i | 0 <= i < |s| :: !IsWhitespace(s[i])
  }

  /** No whitespace at either end. */
  predicate Trimmed(s: string) {
    s == "" || (!IsWhitespace(s[0]) && !IsWhitespace(s[|s| - 1]))
  }

  function TrimStart(s: string): (r: string)
    ensures r == "" || !IsWhitespace(r[0])
  {
    if s != "" && IsWhitespace(s[0]) then TrimStart(s[1..]) else s
  }

  function TrimEnd(s: string): (r: string)
    ensures r == "" || !IsWhitespace(r[|r| - 1])
  {
    if s != "" && IsWhitespace(s[|s| - 1]) then TrimEnd(s[..|s| - 1]) else s
  }

  function Trim(s: string): string {
    TrimEnd(TrimStart(s))
  }

  lemma {:induction false} TrimStartCuts(s: string) returns (before: string)
    ensures s == before + TrimStart(s) && Blank(before)
  {
    if s != "" && IsWhitespace(s[0]) {
      var b := TrimStartCuts(s[1..]);
      before := [s[0]] + b;
      assert s == [s[0]] + s[1..];
    } else {
      before := "";
    }
  }

  lemma {:induction false} TrimEndCuts(s: string) returns (after: string)
    ensures s == TrimEnd(s) + after && Blank(after)
  {
    if s != "" && IsWhitespace(s[|s| - 1]) {
      var a := TrimEndCuts(s[..|s| - 1]);
      after := a + [s[|s| - 1]];
      assert s == s[..|s| - 1] + [s[|s| - 1]];
    } else {
      after := "";
    }
  }

  /** Trimming cuts a blank prefix and a blank suffix. */
  lemma TrimCuts(s: string) returns (before: string, after: string)
    ensures s == before + Trim(s) + after && Blank(before) && Blank(after) && Trimmed(Trim(s))
  {
    before := TrimStartCuts(s);
    after := TrimEndCuts(TrimStart(s));
    AppendAssoc(before, Trim(s), after);
    if Trim(s) != "" { assert TrimStart(s)[0] == Trim(s)[0]; }
  }

  lemma {:induction false} TrimStartSkips(before: string, rest: string)
    requires Blank(before) && (rest == "" || !IsWhitespace(rest[0]))
    ensures TrimStart(before + rest) == rest
  {
    if before == "" {
      assert before + rest == rest;
    } else {
      TrimStartSkips(before[1..], rest);
      assert (before + rest)[1..] == before[1..] + rest;
    }
  }

  lemma {:induction false} TrimEndSkips(rest: string, after: string)
    requires Blank(after) && (rest == "" || !IsWhitespace(rest[|rest| - 1]))
    ensures TrimEnd(rest + after) == rest
  {
    if after == "" {
      assert rest + after == rest;
    } else {
      TrimEndSkips(rest, after[..|after| - 1]);
      assert (rest + after)[..|rest + after| - 1] == rest + after[..|after| - 1];
    }
  }

  /** The cut is the only one: whatever is blank around a trimmed text goes. */
  lemma TrimIs(before: string, core: string, after: string)
    requires Blank(before) && Blank(after) && Trimmed(core)
    ensures Trim(before + core + after) == core
  {
    assert before + core + after == before + (core + after);
    if core == "" {
      assert before + core + after == (before + after) + "";
      TrimStartSkips(before + after, "");
    } else {
      TrimStartSkips(before, core + after);
      TrimEndSkips(core, after);
    }
  }

  lemma TrimTail(core: string, after: string)
    requires Blank(after) && Trimmed(core)
    ensures Trim(core + after) == core
  {
    TrimIs("", core, after);
    assert "" + core + after == core + after;
  }

  lemma TrimHead(before: string, core: string)
    requires Blank(before) && Trimmed(core)
    ensures Trim(before + core) == core
  {
    TrimIs(before, core, "");
    assert before + core + "" == before + core;
  }

  lemma TrimTrimmed(s: string)
    requires Trimmed(s)
    ensures Trim(s) == s
  {
    TrimIs("", s, "");
    assert "" + s + "" == s;
  }

  lemma TrimBlank(s: string)
    ensures Trim(s) == "" <==> Blank(s)
  {
    var b, a := TrimCuts(s);
    if Trim(s) == "" {
      assert s == b + a;
    } else {
      assert s[|b|] == Trim(s)[0];
    }
  }

  // ─── Searching ────────────────────────────────────────────────────

  predicate At(s: string, pat: string, k: nat) {
    k + |pat| <= |s| && s[k..k + |pat|] == pat
  }

  /** `str::find`: the first occurrence of a non-empty pattern. */
  function Find(s: string, pat: string): (r: Option<nat>)
    requires pat != ""
    ensures r.Some? ==> r.value + |pat| <= |s|
  {
    if |s| < |pat| then None
    else if s[..|pat|] == pat then Some(0)
    else
      match Find(s[1..], pat)
      case None => None
      case Some(i) => Some(i + 1)
  }

  lemma {:induction false} FindFirst(s: string, pat: string)
    requires pat != ""
    ensures var r := Find(s, pat);
            && (r.Some? ==> At(s, pat, r.value))
            && forall k: nat | r.None? || k < r.value :: !At(s, pat, k)
  {
    if |pat| <= |s| && s[..|pat|] != pat {
      FindFirst(s[1..], pat);
      forall k: nat ensures At(s, pat, k + 1) == At(s[1..], pat, k) {
        if k + 1 + |pat| <= |s| { assert s[k + 1..k + 1 + |pat|] == s[1..][k..k + |pat|]; }
      }
      forall k: nat | Find(s, pat).None? || k < Find(s, pat).value ensures !At(s, pat, k) {
        if k > 0 { assert At(s, pat, (k - 1) + 1) == At(s[1..], pat, k - 1); }
      }
    }
  }

  lemma FindIs(s: string, pat: string, k: nat)
    requires pat != "" && At(s, pat, k)
    requires forall j: nat | j < k :: !At(s, pat, j)
    ensures Find(s, pat) == Some(k)
  {
    FindFirst(s, pat);
  }

  lemma FindNone(s: string, pat: string)
    requires pat != "" && forall j: nat :: !At(s, pat, j)
    ensures Find(s, pat) == None
  {
    FindFirst(s, pat);
  }

  lemma AtCuts(s: string, pat: string, k: nat)
    requires At(s, pat, k)
    ensures s == s[..k] + pat + s[k + |pat|..]
  {
    assert s == s[..k] + s[k..k + |pat|] + s[k + |pat|..];
  }

  /** What was read, behind one more character. */
  function Prefixed(c: char, r: Option<(string, string)>): Option<(string, string)> {
    match r case None => None case Some((read, rest)) => Some(([c] + read, rest))
  }

  /** `str::split_once`. */
  function SplitOnce(s: string, pat: string): (r: Option<(string, string)>)
    requires pat != ""
    ensures r.Some? ==> |r.value.0| + |pat| + |r.value.1| == |s|
  {
    match Find(s, pat)
    case None => None
    case Some(k) => Some((s[..k], s[k + |pat|..]))
  }

  lemma SplitOnceCuts(s: string, pat: string)
    requires pat != "" && SplitOnce(s, pat).Some?
    ensures s == SplitOnce(s, pat).value.0 + pat + SplitOnce(s, pat).value.1
  {
    FindFirst(s, pat);
    AtCuts(s, pat, Find(s, pat).value);
  }

  lemma Regroup(a: string, b: string, c: string, d: string, e: string)
    ensures a + b + (c + d + e) == a + (b + c + d) + e
  {
  }

  /** `str::find` for a character. */
  function FindChar(s: string, c: char): (r: Option<nat>)
    ensures r.Some? ==> r.value < |s| && s[r.value] == c && c !in s[..r.value]
    ensures r.None? <==> c !in s
  {
    if s == "" then None
    else if s[0] == c then Some(0)
    else
      match FindChar(s[1..], c)
      case None => None
      case Some(i) => assert s[..i + 1] == [s[0]] + s[1..][..i]; Some(i + 1)
  }

  lemma {:induction false} FindCharIs(before: string, c: char, after: string)
    requires c !in before
    ensures FindChar(before + [c] + after, c) == Some(|before|)
  {
    if before != "" {
      FindCharIs(before[1..], c, after);
      assert (before + [c] + after)[1..] == before[1..] + [c] + after;
      assert (before + [c] + after)[0] == before[0];
    }
  }

  /** `str::split_once` on a character. */
  function SplitOnceChar(s: string, c: char): Option<(string, string)> {
    match FindChar(s, c)
    case None => None
    case Some(k) => Some((s[..k], s[k + 1..]))
  }

  lemma SplitOnceCharIs(before: string, c: char, after: string)
    requires c !in before
    ensures SplitOnceChar(before + [c] + after, c) == Some((before, after))
  {
    FindCharIs(before, c, after);
    var s := before + [c] + after;
    assert s[..|before|] == before && s[|before| + 1..] == after;
  }

  /** `str::replace`: every occurrence, left to right, without overlap. */
  function Replace(s: string, pat: string, value: string): string
    requires pat != ""
    decreases |s|
  {
    match Find(s, pat)
    case None => s
    case Some(k) => s[..k] + value + Replace(s[k + |pat|..], pat, value)
  }

  /** `str::replace` of one character. */
  function ReplaceChar(s: string, c: char, value: string): string {
    if s == "" then "" else (if s[0] == c then value else [s[0]]) + ReplaceChar(s[1..], c, value)
  }

  lemma ReplaceCons(s: string, c: char, value: string, tail: string)
    requires s != ""
    ensures ReplaceChar(s, c, value) + tail == (if s[0] == c then value else [s[0]]) + (ReplaceChar(s[1..], c, value) + tail)
  {
    AppendAssoc(if s[0] == c then value else [s[0]], ReplaceChar(s[1..], c, value), tail);
  }

  lemma {:induction false} ReplaceLonger(s: string, c: char, value: string)
    requires value != ""
    ensures |ReplaceChar(s, c, value)| >= |s|
  {
    if s != "" { ReplaceLonger(s[1..], c, value); }
  }

  predicate StartsWith(s: string, prefix: string) {
    |prefix| <= |s| && s[..|prefix|] == prefix
  }

  lemma AtShift(before: string, rest: string, pat: string, k: nat)
    ensures At(before + rest, pat, |before| + k) <==> At(rest, pat, k)
  {
    if k + |pat| <= |rest| {
      var a, b := (before + rest)[|before| + k..|before| + k + |pat|], rest[k..k + |pat|];
      assert forall i | 0 <= i < |pat| :: a[i] == b[i];
      assert a == b;
    }
  }

  /** A prefix in which no occurrence starts only moves the first occurrence. */
  lemma FindBehind(before: string, rest: string, pat: string, k: nat)
    requires pat != "" && Find(rest, pat) == Some(k) && forall j: nat | j < |before| :: !At(before + rest, pat, j)
    ensures Find(before + rest, pat) == Some(|before| + k)
  {
    FindFirst(rest, pat);
    forall j: nat | j < |before| + k ensures !At(before + rest, pat, j) { AtBehind(before, rest, pat, j); }
    AtShift(before, rest, pat, k);
    FindIs(before + rest, pat, |before| + k);
  }

  lemma FindShift(before: string, rest: string, pat: string)
    requires pat != "" && forall k: nat | k < |before| :: !At(before + rest, pat, k)
    ensures SplitOnce(before + rest, pat) ==
            match SplitOnce(rest, pat) case None => None case Some((b, r)) => Some((before + b, r))
  {
    FindFirst(rest, pat);
    match Find(rest, pat) {
      case None =>
        forall j: nat ensures !At(before + rest, pat, j) { AtBehind(before, rest, pat, j); }
        FindNone(before + rest, pat);
      case Some(k) =>
        FindBehind(before, rest, pat, k);
        DropAcross(before, rest, k, |pat|);
    }
  }

  lemma AtBehind(before: string, rest: string, pat: string, j: nat)
    ensures |before| <= j ==> (At(before + rest, pat, j) <==> At(rest, pat, j - |before|))
  {
    if |before| <= j { AtShift(before, rest, pat, j - |before|); }
  }

  lemma DropAcross(a: string, b: string, k: nat, n: nat)
    requires k + n <= |b|
    ensures (a + b)[..|a| + k] == a + b[..k] && (a + b)[|a| + k + n..] == b[k + n..]
  {
  }

  // ─── Splitting and joining ────────────────────────────────────────

  /** `str::split` on one character: never empty. */
  function Split(s: string, sep: char): (parts: seq<string>)
    ensures |parts| > 0
    ensures forall p | p in parts :: sep !in p
  {
    if s == "" then [""]
    else
      var rest := Split(s[1..], sep);
      if s[0] == sep then [""] + rest else [[s[0]] + rest[0]] + rest[1..]
  }

  /** `[String]::join`. */
  function Join(parts: seq<string>, sep: string): string {
    if parts == [] then ""
    else if |parts| == 1 then parts[0]
    else parts[0] + sep + Join(parts[1..], sep)
  }

  lemma JoinCons(head: string, rest: seq<string>, sep: string)
    requires rest != []
    ensures Join([head] + rest, sep) == head + sep + Join(rest, sep)
  {
    assert ([head] + rest)[1..] == rest;
  }

  lemma {:induction false} SplitPrefix(head: string, sep: char, tail: string)
    requires sep !in head
    ensures Split(head + [sep] + tail, sep) == [head] + Split(tail, sep)
  {
    var s := head + [sep] + tail;
    if head == "" {
      assert s[1..] == tail;
    } else {
      SplitPrefix(head[1..], sep, tail);
      assert s[1..] == head[1..] + [sep] + tail;
      assert [s[0]] + head[1..] == head;
    }
  }

  lemma {:induction false} SplitWhole(s: string, sep: char)
    requires sep !in s
    ensures Split(s, sep) == [s]
  {
    if s != "" {
      SplitWhole(s[1..], sep);
      assert [s[0]] + s[1..] == s;
    }
  }

  lemma {:induction false} SplitJoin(parts: seq<string>, sep: char)
    requires |parts| > 0 && forall p | p in parts :: sep !in p
    ensures Split(Join(parts, [sep]), sep) == parts
  {
    if |parts| == 1 {
      SplitWhole(parts[0], sep);
    } else {
      SplitPrefix(parts[0], sep, Join(parts[1..], [sep]));
      SplitJoin(parts[1..], sep);
    }
  }

  lemma {:induction false} JoinSplit(s: string, sep: char)
    ensures Join(Split(s, sep), [sep]) == s
  {
    if s != "" {
      JoinSplit(s[1..], sep);
      var rest := Split(s[1..], sep);
      var parts := Split(s, sep);
      if s[0] == sep {
        assert parts[1..] == rest;
      } else if |rest| > 1 {
        assert parts[1..] == rest[1..];
      }
    }
  }

  predicate CharsOf(part: string, whole: string) {
    forall c | c in part :: c in whole
  }

  lemma {:induction false} SplitWithin(s: string, sep: char)
    ensures forall p | p in Split(s, sep) :: CharsOf(p, s)
    decreases |s|
  {
    if s != "" {
      SplitWithin(s[1..], sep);
      var rest := Split(s[1..], sep);
      forall p | p in Split(s, sep) ensures CharsOf(p, s) {
        assert p == "" || p in rest || p == [s[0]] + rest[0];
        assert forall c | c in s[1..] :: c in s;
        assert rest[0] in rest;
      }
    }
  }

  lemma {:induction false} JoinAppend(parts: seq<string>, last: string, sep: string)
    requires parts != []
    ensures Join(parts + [last], sep) == Join(parts, sep) + sep + last
  {
    if |parts| > 1 {
      JoinAppend(parts[1..], last, sep);
      assert (parts + [last])[1..] == parts[1..] + [last];
    } else {
      assert (parts + [last])[1..] == [last];
    }
  }

  // ─── Numbers ──────────────────────────────────────────────────────

  const U64_LIMIT: nat := 0x1_0000_0000_0000_0000

  predicate IsDigit(c: char) { '0' <= c <= '9' }

  predicate AllDigits(s: string) {
    forall i | 0 <= i < |s| :: IsDigit(s[i])
  }

  /** `to_string` of an unsigned integer. */
  function Decimal(n: nat): (s: string)
    ensures s != "" && AllDigits(s)
  {
    if n < 10 then ['0' + n as char] else Decimal(n / 10) + ['0' + (n % 10) as char]
  }

  function DigitsValue(s: string): nat
    requires AllDigits(s)
  {
    if s == "" then 0 else 10 * DigitsValue(s[..|s| - 1]) + (s[|s| - 1] - '0') as nat
  }

  /** `parse::<u64>`: one optional `+`, at least one digit, in range. */
  function ParseU64(s: string): Option<nat> {
    var digits := if s != "" && s[0] == '+' then s[1..] else s;
    if digits == "" || !AllDigits(digits) || DigitsValue(digits) >= U64_LIMIT then None
    else Some(DigitsValue(digits))
  }

  lemma {:induction false} DecimalValue(n: nat)
    ensures DigitsValue(Decimal(n)) == n
  {
    if n >= 10 {
      DecimalValue(n / 10);
      assert Decimal(n)[..|Decimal(n)| - 1] == Decimal(n / 10);
    }
  }

  lemma ParseDecimal(n: nat)
    ensures ParseU64(Decimal(n)) == if n < U64_LIMIT then Some(n) else None
  {
    DecimalValue(n);
    assert IsDigit(Decimal(n)[0]);
  }
}
