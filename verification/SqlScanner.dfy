/** The SQL-aware scanner and the four loops it drives (httui-core/src/db/sql_scanner.rs). */
module SqlScanner {
  import opened Text

  // ─── The scanner as a function ────────────────────────────────────

  /** Where the cursor is. `Escaped` is inside a quoted string, after a backslash. */
  datatype Mode = Code | Quoted | Escaped | LineComment | BlockComment

  /** The next mode and how many characters were consumed. */
  function Step(m: Mode, ch: char, next: Option<char>): (r: (Mode, nat))
    ensures 1 <= r.1 <= 2 && (r.1 == 2 ==> next.Some?)
  {
    match m
    case Escaped => (Quoted, 1)
    case LineComment => (if ch == '\n' then Code else LineComment, 1)
    case BlockComment => if ch == '*' && next == Some('/') then (Code, 2) else (BlockComment, 1)
    case Quoted => (if ch == '\\' then Escaped else if ch == '\'' then Code else Quoted, 1)
    case Code =>
      if ch == '-' && next == Some('-') then (LineComment, 1)
      else if ch == '/' && next == Some('*') then (BlockComment, 2)
      else (if ch == '\'' then Quoted else Code, 1)
  }

  function Second(s: string): Option<char> {
    if |s| > 1 then Some(s[1]) else None
  }

  /** The mode at the end of the text. */
  function After(s: string, m: Mode): Mode
    decreases |s|
  {
    if s == "" then m
    else
      var (m', k) := Step(m, s[0], Second(s));
      After(s[k..], m')
  }

  /** The position of the first `mark` in code, or the length. */
  function FirstCut(s: string, m: Mode, mark: char): (c: nat)
    ensures c <= |s|
    decreases |s|
  {
    if s == "" then 0
    else
      var (m', k) := Step(m, s[0], Second(s));
      if s[0] == mark && m == Code then 0 else k + FirstCut(s[k..], m', mark)
  }

  /** The text cut at every `mark` in code. */
  function Cuts(s: string, mark: char): (r: seq<string>)
    ensures r != []
    decreases |s|
  {
    var c := FirstCut(s, Code, mark);
    if c == |s| then [s] else [s[..c]] + Cuts(s[c + 1..], mark)
  }

  function Segments(s: string): seq<string> {
    Cuts(s, ';')
  }

  /** Trimmed, without the blank ones. */
  function Pieces(segments: seq<string>): seq<string> {
    if segments == [] then [] else Emit(segments[0]) + Pieces(segments[1..])
  }

  function Emit(segment: string): seq<string> {
    if Trim(segment) == "" then [] else [Trim(segment)]
  }

  function Statements(s: string): seq<string> {
    Pieces(Segments(s))
  }

  /** Something other than whitespace follows the first `;` in code. */
  predicate Multiple(s: string) {
    var c := FirstCut(s, Code, ';');
    c < |s| && Trim(s[c + 1..]) != ""
  }

  function Count(s: string, m: Mode): nat
    decreases |s|
  {
    if s == "" then 0
    else
      var (m', k) := Step(m, s[0], Second(s));
      (if s[0] == '?' && m == Code then 1 else 0) + Count(s[k..], m')
  }

  const U32_LIMIT: nat := 0x1_0000_0000

  function Label(k: nat): string {
    "$" + Decimal(k)
  }

  /** `$k` for each `?` in code; the counter is a `u32`. */
  function Normalize(s: string, m: Mode, counter: nat): string
    decreases |s|
  {
    if s == "" then ""
    else
      var (m', k) := Step(m, s[0], Second(s));
      if s[0] == '?' && m == Code then
        Label((counter + 1) % U32_LIMIT) + Normalize(s[k..], m', (counter + 1) % U32_LIMIT)
      else s[..k] + Normalize(s[k..], m', counter)
  }

  // ─── The scanner as the source writes it ──────────────────────────

  class Scanner {
    var inSingleQuote: bool
    var inBlockComment: bool
    var inLineComment: bool
    var escapeNext: bool

    /** At most one region is open, and escapes happen in strings only. */
    predicate Valid()
      reads this
    {
      && !(inSingleQuote && inBlockComment) && !(inSingleQuote && inLineComment) && !(inBlockComment && inLineComment)
      && (escapeNext ==> inSingleQuote)
    }

    function Where(): Mode
      reads this
    {
      if escapeNext then Escaped
      else if inLineComment then LineComment
      else if inBlockComment then BlockComment
      else if inSingleQuote then Quoted
      else Code
    }

    constructor ()
      ensures Valid() && Where() == Code
    {
      inSingleQuote, inBlockComment, inLineComment, escapeNext := false, false, false, false;
    }

    predicate IsCode()
      requires Valid()
      reads this
      ensures IsCode() <==> Where() == Code
    {
      !inSingleQuote && !inBlockComment && !inLineComment
    }

    method Advance(ch: char, next: Option<char>) returns (consumed: nat)
      requires Valid()
      modifies this
      ensures Valid() && (Where(), consumed) == Step(old(Where()), ch, next)
    {
      if escapeNext {
        escapeNext := false;
        return 1;
      }
      if inLineComment {
        if ch == '\n' { inLineComment := false; }
        return 1;
      }
      if inBlockComment {
        if ch == '*' && next == Some('/') {
          inBlockComment := false;
          return 2;
        }
        return 1;
      }
      if ch == '\\' && inSingleQuote {
        escapeNext := true;
        return 1;
      }
      if ch == '-' && next == Some('-') && !inSingleQuote {
        inLineComment := true;
        return 1;
      }
      if ch == '/' && next == Some('*') && !inSingleQuote {
        inBlockComment := true;
        return 2;
      }
      if ch == '\'' { inSingleQuote := !inSingleQuote; }
      return 1;
    }
  }

  /** One step of the search for the next boundary, by positions in the text. */
  lemma CutStep(sql: string, i: nat, m: Mode)
    requires i < |sql|
    ensures var (m', k) := Step(m, sql[i], if i + 1 < |sql| then Some(sql[i + 1]) else None);
            && i + k <= |sql|
            && FirstCut(sql[i..], m, ';') == if sql[i] == ';' && m == Code then 0 else k + FirstCut(sql[i + k..], m', ';')
  {
    var tail := sql[i..];
    var (m', k) := Step(m, tail[0], Second(tail));
    assert tail[k..] == sql[i + k..];
  }

  method ContainsMultipleStatements(sql: string) returns (r: bool)
    ensures r <==> Multiple(sql)
  {
    var scanner := new Scanner();
    var i := 0;
    assert sql[i..] == sql;
    while i < |sql|
      invariant i <= |sql| && scanner.Valid()
      invariant FirstCut(sql, Code, ';') == i + FirstCut(sql[i..], scanner.Where(), ';')
    {
      var ch := sql[i];
      var next := if i + 1 < |sql| then Some(sql[i + 1]) else None;
      CutStep(sql, i, scanner.Where());
      var wasCode := scanner.IsCode();
      var consumed := scanner.Advance(ch, next);
      if ch == ';' && wasCode && scanner.IsCode() {
        return Trim(sql[i + 1..]) != "";
      }
      i := i + consumed;
    }
    return false;
  }

  /** Copy the consumed characters behind a buffer. */
  method PushConsumed(buffer: string, sql: string, i: nat, consumed: nat) returns (r: string)
    requires i + consumed <= |sql|
    ensures r == buffer + sql[i..][..consumed]
  {
    r := buffer;
    ghost var rest := sql[i..];
    for j := 0 to consumed
      invariant r == buffer + rest[..j]
    {
      if i + j < |sql| { r := r + [sql[i + j]]; }
    }
  }

  method SplitStatements(sql: string) returns (statements: seq<string>)
    ensures statements == Statements(sql)
  {
    var scanner := new Scanner();
    var i := 0;
    var current := "";
    statements := [];
    StartsSplitting(sql);
    ghost var rest, mode := sql, Code;
    while i < |sql|
      invariant i <= |sql| && rest == sql[i..]
      invariant scanner.Valid() && scanner.Where() == mode
      invariant Loop(statements, current, rest, mode) == Statements(sql)
    {
      var ch := sql[i];
      var next := if i + 1 < |sql| then Some(sql[i + 1]) else None;
      assert ch == rest[0] && next == Second(rest);
      var wasCode := scanner.IsCode();
      var consumed := scanner.Advance(ch, next);
      SuffixCut(sql, i, consumed);
      mode := Step(mode, ch, next).0;
      if ch == ';' && wasCode && scanner.IsCode() {
        var trimmed := Trim(current);
        if trimmed != "" { statements := statements + [trimmed]; }
        current := "";
      } else {
        current := PushConsumed(current, sql, i, consumed);
      }
      i := i + consumed;
      rest := rest[consumed..];
    }
    var trailing := Trim(current);
    if trailing != "" { statements := statements + [trailing]; }
  }

  function Pushed(statements: seq<string>, segment: string): seq<string> {
    if Trim(segment) != "" then statements + [Trim(segment)] else statements
  }

  /** The loop as a tail recursion on its variables. */
  function Loop(statements: seq<string>, current: string, rest: string, m: Mode): seq<string>
    decreases |rest|
  {
    if rest == "" then Pushed(statements, current)
    else
      var (m', k) := Step(m, rest[0], Second(rest));
      if rest[0] == ';' && m == Code then Loop(Pushed(statements, current), "", rest[k..], m')
      else Loop(statements, current + rest[..k], rest[k..], m')
  }

  /** The buffer runs up to the cursor with no boundary inside. */
  lemma {:induction false} LoopSplits(statements: seq<string>, current: string, rest: string, m: Mode)
    requires FirstCut(current + rest, Code, ';') == |current| + FirstCut(rest, m, ';')
    ensures Loop(statements, current, rest, m) == statements + Statements(current + rest)
    decreases |rest|
  {
    if rest == "" {
      assert current + rest == current;
      LastPiece(current);
      PushedIs(statements, current);
    } else {
      var (m', k) := Step(m, rest[0], Second(rest));
      if rest[0] == ';' && m == Code {
        assert "" + rest[1..] == rest[1..];
        LoopSplits(Pushed(statements, current), "", rest[1..], m');
        CutOff(current, rest);
        PushedIs(statements, current);
        AppendAssoc(statements, Emit(current), Statements(rest[1..]));
      } else {
        MoveAcross(current, rest, k);
        LoopSplits(statements, current + rest[..k], rest[k..], m');
      }
    }
  }

  lemma StartsSplitting(sql: string)
    ensures Loop([], "", sql, Code) == Statements(sql)
  {
    assert "" + sql == sql;
    LoopSplits([], "", sql, Code);
    assert [] + Statements(sql) == Statements(sql);
  }

  lemma PushedIs(statements: seq<string>, segment: string)
    ensures Pushed(statements, segment) == statements + Emit(segment)
  {
  }

  lemma SuffixCut(s: string, i: nat, k: nat)
    requires i + k <= |s|
    ensures s[i..][..k] == s[i..i + k] && s[i..][k..] == s[i + k..]
  {
  }

  lemma MoveAcross(a: string, b: string, k: nat)
    requires k <= |b|
    ensures a + b[..k] + b[k..] == a + b
  {
  }

  lemma CutOff(current: string, rest: string)
    requires rest != "" && FirstCut(current + rest, Code, ';') == |current|
    ensures Statements(current + rest) == Emit(current) + Statements(rest[1..])
  {
    var whole := current + rest;
    assert whole[..|current|] == current && whole[|current| + 1..] == rest[1..];
    PiecesCons(current, Segments(rest[1..]));
  }

  lemma PiecesCons(segment: string, rest: seq<string>)
    ensures Pieces([segment] + rest) == Emit(segment) + Pieces(rest)
  {
    assert ([segment] + rest)[1..] == rest;
  }

  lemma LastPiece(rest: string)
    requires FirstCut(rest, Code, ';') == |rest|
    ensures Statements(rest) == Emit(rest)
  {
    PiecesCons(rest, []);
    assert [rest] + [] == [rest] && Emit(rest) + [] == Emit(rest);
  }

  method NormalizePlaceholdersToPg(sql: string) returns (result: string)
    ensures result == Normalize(sql, Code, 0)
  {
    var scanner := new Scanner();
    var i, counter: nat := 0, 0;
    result := "";
    while i < |sql|
      invariant i <= |sql| && scanner.Valid()
      invariant result + Normalize(sql[i..], scanner.Where(), counter) == Normalize(sql, Code, 0)
    {
      ghost var tail := sql[i..];
      var ch := sql[i];
      var next := if i + 1 < |sql| then Some(sql[i + 1]) else None;
      var isCode := scanner.IsCode();
      var consumed := scanner.Advance(ch, next);
      assert tail[consumed..] == sql[i + consumed..];
      if ch == '?' && isCode {
        counter := (counter + 1) % U32_LIMIT;
        ghost var rest := Normalize(sql[i + consumed..], scanner.Where(), counter);
        AppendAssoc(result, Label(counter), rest);
        AppendAssoc(result, "$", Decimal(counter));
        result := result + "$";
        result := result + Decimal(counter);
      } else {
        AppendAssoc(result, tail[..consumed], Normalize(sql[i + consumed..], scanner.Where(), counter));
        result := PushConsumed(result, sql, i, consumed);
      }
      i := i + consumed;
    }
  }

  method CountPlaceholders(sql: string) returns (count: nat)
    ensures count == Count(sql, Code)
  {
    var scanner := new Scanner();
    var i := 0;
    count := 0;
    while i < |sql|
      invariant i <= |sql| && scanner.Valid()
      invariant count + Count(sql[i..], scanner.Where()) == Count(sql, Code)
    {
      ghost var tail := sql[i..];
      var ch := sql[i];
      var next := if i + 1 < |sql| then Some(sql[i + 1]) else None;
      var isCode := scanner.IsCode();
      var consumed := scanner.Advance(ch, next);
      if ch == '?' && isCode { count := count + 1; }
      assert tail[consumed..] == sql[i + consumed..];
      i := i + consumed;
    }
  }
}
