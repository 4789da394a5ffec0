/** The INSERT printer against the SQL scanner: what `to_inserts` writes, the
    scanner splits back into one statement per row, with no placeholder in code. */
module InsertsScan {
  import opened Text
  import opened Json
  import opened SqlScanner
  import opened SqlScannerTheorems
  import opened DbExport

  /** Scanned from code, the text ends in code and holds no boundary and no
      placeholder, whatever follows it. */
  ghost predicate Inert(a: string) {
    forall b: string {:trigger a + b} :: InertBefore(a, b)
  }

  predicate InertBefore(a: string, b: string) {
    && After(a + b, Code) == After(b, Code)
    && Count(a + b, Code) == Count(b, Code)
    && FirstCut(a + b, Code, ';') == |a| + FirstCut(b, Code, ';')
  }

  lemma InertConcat(a: string, b: string)
    requires Inert(a) && Inert(b)
    ensures Inert(a + b)
  {
    forall c: string ensures InertBefore(a + b, c) {
      AppendAssoc(a, b, c);
      assert InertBefore(a, b + c) && InertBefore(b, c);
    }
  }

  lemma NeutralIsInert(a: string)
    requires forall i | 0 <= i < |a| :: Neutral(a[i])
    ensures Inert(a)
  {
    forall b: string ensures InertBefore(a, b) {
      NeutralRun(a, b);
      assert Mark(';');
    }
  }

  // ─── Cells ────────────────────────────────────────────────────────

  /** A printed JSON number: a sign is always in front of a digit. */
  predicate NumberText(t: string) {
    t == "" || (NumberText(t[1..]) && if t[0] == '-' then |t| > 1 && IsDigit(t[1]) else (IsDigit(t[0]) || t[0] in "+.eE"))
  }

  lemma {:induction false} NumberRun(t: string, b: string)
    requires NumberText(t)
    ensures InertBefore(t, b)
    decreases |t|
  {
    if t == "" {
      assert t + b == b;
    } else {
      assert (t + b)[1..] == t[1..] + b;
      NumberRun(t[1..], b);
    }
  }

  /** The scanner reads a backslash in a string as an escape: it must not eat a
      quote the printer doubled, nor the closing one. */
  predicate EscapeSafe(s: string, escaped: bool) {
    if s == "" then !escaped
    else if escaped then s[0] != '\'' && EscapeSafe(s[1..], false)
    else EscapeSafe(s[1..], s[0] == '\\')
  }

  function InString(escaped: bool): Mode {
    if escaped then Escaped else Quoted
  }

  lemma {:induction false} LiteralRun(s: string, escaped: bool, b: string)
    requires EscapeSafe(s, escaped)
    ensures var m, t := InString(escaped), ReplaceChar(s, '\'', "''") + ("'" + b);
            && After(t, m) == After(b, Code) && Count(t, m) == Count(b, Code)
            && FirstCut(t, m, ';') == |t| - |b| + FirstCut(b, Code, ';')
    decreases |s|
  {
    var close := "'" + b;
    if s == "" {
      assert ReplaceChar(s, '\'', "''") + close == close && close[1..] == b;
    } else {
      var rest := ReplaceChar(s[1..], '\'', "''") + close;
      LiteralRun(s[1..], !escaped && s[0] == '\\', b);
      ReplaceCons(s, '\'', "''", close);
      if s[0] == '\'' { TwoQuotes(rest); } else { OtherInString(s[0], escaped, rest); }
    }
  }

  lemma OtherInString(c: char, escaped: bool, rest: string)
    requires c != '\''
    ensures var t, m, m' := [c] + rest, InString(escaped), InString(!escaped && c == '\\');
            && After(t, m) == After(rest, m') && Count(t, m) == Count(rest, m')
            && FirstCut(t, m, ';') == 1 + FirstCut(rest, m', ';')
  {
    assert ([c] + rest)[1..] == rest;
  }

  lemma TwoQuotes(rest: string)
    ensures After("''" + rest, Quoted) == After(rest, Quoted) && Count("''" + rest, Quoted) == Count(rest, Quoted)
    ensures FirstCut("''" + rest, Quoted, ';') == 2 + FirstCut(rest, Quoted, ';')
  {
    var t := "''" + rest;
    assert t[1..] == "'" + rest && ("'" + rest)[1..] == rest;
  }

  /** The opening quote takes the scanner from code into the string. */
  lemma OpensString(quote: string, inner: string)
    requires quote == "'"
    ensures After(quote + inner, Code) == After(inner, Quoted) && Count(quote + inner, Code) == Count(inner, Quoted)
    ensures FirstCut(quote + inner, Code, ';') == 1 + FirstCut(inner, Quoted, ';')
  {
    assert (quote + inner)[1..] == inner;
  }

  lemma QuoteParts(s: string, quote: string, b: string)
    requires quote == "'"
    ensures Quote(s) + b == quote + (ReplaceChar(s, '\'', "''") + (quote + b))
  {
  }

  lemma QuoteIsInert(s: string)
    requires EscapeSafe(s, false)
    ensures Inert(Quote(s))
  {
    var quote := "'";
    forall b: string ensures InertBefore(Quote(s), b) {
      var inner := ReplaceChar(s, '\'', "''") + (quote + b);
      LiteralRun(s, false, b);
      QuoteParts(s, quote, b);
      OpensString(quote, inner);
    }
  }

  // ─── A literal that does not close ────────────────────────────────

  predicate Outside(m: Mode) {
    m == Code || m == LineComment || m == BlockComment
  }

  /** In a string, or in a comment: nowhere the scanner would see a boundary. */
  predicate Lost(m: Mode) {
    m == Quoted || m == LineComment || m == BlockComment
  }

  /** Doubled quotes leave the scanner outside strings where they find it there; the
      closing quote then opens one, unless a comment hides it. */
  lemma {:induction false} ClosingQuoteOpens(r: string, m: Mode)
    requires Outside(m)
    ensures Lost(After(ReplaceChar(r, '\'', "''") + "'", m))
    decreases |r|
  {
    var close := "'";
    if r == "" {
      assert ReplaceChar(r, '\'', "''") + close == close && close[1..] == "";
    } else {
      var rest := ReplaceChar(r[1..], '\'', "''") + close;
      ReplaceCons(r, '\'', "''", close);
      if r[0] == '\'' {
        PairOfQuotes(rest, m);
        ClosingQuoteOpens(r[1..], m);
      } else {
        var t := [r[0]] + rest;
        var (m', k) := Step(m, t[0], Second(t));
        assert t[1..] == rest;
        if k == 2 {
          assert rest[0] == t[1] && (t[1] == '*' || t[1] == '/') && r[1..] != "";
          ReplaceCons(r[1..], '\'', "''", close);
          assert t[2..] == rest[1..] == ReplaceChar(r[2..], '\'', "''") + close;
          ClosingQuoteOpens(r[2..], m');
        } else {
          ClosingQuoteOpens(r[1..], m');
        }
      }
    }
  }

  lemma PairOfQuotes(rest: string, m: Mode)
    requires Outside(m)
    ensures After("''" + rest, m) == After(rest, m)
  {
    var t := "''" + rest;
    assert t[1..] == "'" + rest && ("'" + rest)[1..] == rest;
  }

  lemma {:induction false} UnsafeRun(s: string, escaped: bool)
    requires !EscapeSafe(s, escaped)
    ensures Lost(After(ReplaceChar(s, '\'', "''") + "'", InString(escaped)))
    decreases |s|
  {
    var close := "'";
    if s == "" {
      assert ReplaceChar(s, '\'', "''") + close == close && close[1..] == "";
    } else {
      var rest := ReplaceChar(s[1..], '\'', "''") + close;
      ReplaceCons(s, '\'', "''", close);
      if s[0] != '\'' {
        OtherInString(s[0], escaped, rest);
        UnsafeRun(s[1..], !escaped && s[0] == '\\');
      } else if escaped {
        EscapedQuote(rest);
        ClosingQuoteOpens(s[1..], Code);
      } else {
        TwoQuotes(rest);
        UnsafeRun(s[1..], false);
      }
    }
  }

  lemma EscapedQuote(rest: string)
    ensures After("''" + rest, Escaped) == After(rest, Code)
  {
    var t := "''" + rest;
    assert t[1..] == "'" + rest && ("'" + rest)[1..] == rest;
  }

  lemma AfterQuote(s: string, m: Mode)
    requires m == Code || Lost(m)
    ensures After(Quote(s), m) ==
            After(ReplaceChar(s, '\'', "''") + "'", if m == Code then Quoted else if m == Quoted then Code else m)
  {
    var inner := ReplaceChar(s, '\'', "''") + "'";
    assert Quote(s) == "'" + inner && ("'" + inner)[1..] == inner;
  }

  /** A quoted literal keeps the scanner in code if and only if its backslashes are
      harmless; from a place that is not code it never leads back to code. */
  lemma QuoteRun(s: string, m: Mode)
    requires m == Code || Lost(m)
    ensures var m' := After(Quote(s), m); (m' == Code || Lost(m')) && (m' == Code <==> m == Code && EscapeSafe(s, false))
  {
    AfterQuote(s, m);
    if m != Code {
      ClosingQuoteOpens(s, if m == Quoted then Code else m);
    } else if EscapeSafe(s, false) {
      LiteralRun(s, false, "");
      assert "'" + "" == "'";
    } else {
      UnsafeRun(s, false);
    }
  }

  /** The backslash condition is exact, for every string. */
  lemma EscapeSafeIsExact(s: string)
    ensures After(Quote(s), Code) == Code <==> EscapeSafe(s, false)
  {
    QuoteRun(s, Code);
  }

  predicate SafeCell(cell: Option<Value>, render: Render) {
    match cell
    case Some(Number(n)) => NumberText(n)
    case Some(Str(s)) => EscapeSafe(s, false)
    case Some(Array(_)) => EscapeSafe(render(cell.value), false)
    case Some(Object(_)) => EscapeSafe(render(cell.value), false)
    case _ => true
  }

  lemma LiteralIsInert(cell: Option<Value>, render: Render)
    requires SafeCell(cell, render)
    ensures Inert(SqlLiteral(cell, render))
  {
    match cell
    case Some(Number(n)) =>
      forall b: string ensures InertBefore(n, b) { NumberRun(n, b); }
    case Some(Str(s)) => QuoteIsInert(s);
    case Some(Array(_)) => QuoteIsInert(render(cell.value));
    case Some(Object(_)) => QuoteIsInert(render(cell.value));
    case _ => NeutralIsInert(SqlLiteral(cell, render));
  }

  // ─── Statements ───────────────────────────────────────────────────

  /** The text, scanned from code, ends in code and shows no boundary. */
  predicate Shut(s: string) {
    After(s, Code) == Code && FirstCut(s, Code, ';') == |s|
  }

  /** And no placeholder either. */
  predicate ScansClean(s: string) {
    Shut(s) && Count(s, Code) == 0
  }

  /** Such a text is inert before whatever does not complete a comment mark with it. */
  lemma CleanIsInert(s: string)
    requires ScansClean(s) && (s != "" ==> s[|s| - 1] != '-' && s[|s| - 1] != '/' && s[|s| - 1] != '*')
    ensures Inert(s)
  {
    forall b: string ensures InertBefore(s, b) {
      ScanConcat(s, b, Code);
      CutConcat(s, b, Code, ';');
    }
  }

  lemma CleanThen(s: string, next: string)
    requires ScansClean(s) && ScansClean(next) && next != "" && (next[0] == ' ' || next[0] == '"')
    ensures ScansClean(s + next)
  {
    ScanConcat(s, next, Code);
    CutConcat(s, next, Code, ';');
  }

  /** Plain identifiers, and all names without the scanner's own characters, are clean. */
  lemma NeutralIsClean(s: string)
    requires forall i | 0 <= i < |s| :: Neutral(s[i])
    ensures ScansClean(s)
  {
    NeutralRun(s, "");
    assert s + "" == s && Mark(';');
  }

  lemma {:induction false} JoinIsInert(parts: seq<string>)
    requires forall p | p in parts :: Inert(p)
    ensures Inert(Join(parts, ", "))
  {
    if parts == [] {
      NeutralIsInert("");
    } else {
      assert parts[0] in parts && forall p | p in parts[1..] :: p in parts;
      if |parts| > 1 {
        JoinIsInert(parts[1..]);
        NeutralIsInert(", ");
        InertConcat(parts[0], ", ");
        InertConcat(parts[0] + ", ", Join(parts[1..], ", "));
      }
    }
  }

  lemma {:induction false} NamesAreInert(columns: seq<string>)
    requires forall c | c in columns :: ScansClean(IdentOrQuote(c))
    ensures forall p | p in Names(columns) :: Inert(p)
  {
    if columns != [] {
      assert columns[0] in columns && forall c | c in columns[1..] :: c in columns;
      CleanIsInert(IdentOrQuote(columns[0]));
      NamesAreInert(columns[1..]);
    }
  }

  lemma {:induction false} LiteralsAreInert(columns: seq<string>, row: Value, render: Render)
    requires forall c | c in columns :: SafeCell(row.Get(c), render)
    ensures forall p | p in Literals(columns, row, render) :: Inert(p)
  {
    if columns != [] {
      assert columns[0] in columns && forall c | c in columns[1..] :: c in columns;
      LiteralIsInert(row.Get(columns[0]), render);
      LiteralsAreInert(columns[1..], row, render);
    }
  }

  predicate SafeRow(columns: seq<string>, row: Value, render: Render) {
    forall c | c in columns :: SafeCell(row.Get(c), render)
  }

  /** The statement up to its first value. */
  function Prefix(columns: seq<string>, tableName: string): string {
    "INSERT INTO " + SafeTable(tableName) + " (" + Join(Names(columns), ", ") + ") VALUES ("
  }

  /** Names that, each as it is printed, are not SQL of their own. */
  predicate CleanNames(columns: seq<string>, tableName: string) {
    ScansClean(SafeTable(tableName)) && forall c | c in columns :: ScansClean(IdentOrQuote(c))
  }

  lemma PrefixIsInert(columns: seq<string>, tableName: string)
    requires CleanNames(columns, tableName)
    ensures Inert(Prefix(columns, tableName))
  {
    var table, cols, open := SafeTable(tableName), Join(Names(columns), ", "), " (";
    NamesAreInert(columns);
    JoinIsInert(Names(columns));
    NeutralIsClean(open);
    CleanThen(table, open);
    CleanIsInert(table + open);
    NeutralIsInert("INSERT INTO ");
    NeutralIsInert(") VALUES (");
    InertConcat("INSERT INTO ", table + open);
    AppendAssoc("INSERT INTO ", table, open);
    InertConcat("INSERT INTO " + table + open, cols);
    InertConcat("INSERT INTO " + table + open + cols, ") VALUES (");
  }

  /** Clean names make a clean head. */
  lemma CleanNamesMakeCleanHeads(columns: seq<string>, tableName: string)
    requires CleanNames(columns, tableName)
    ensures ScansClean(Prefix(columns, tableName))
  {
    var prefix := Prefix(columns, tableName);
    PrefixIsInert(columns, tableName);
    assert InertBefore(prefix, "") && prefix + "" == prefix;
  }

  /** So do names that are printed without quotes. */
  lemma PlainNamesMakeCleanHeads(columns: seq<string>, tableName: string)
    requires IsPlainName(tableName) && forall c | c in columns :: IsPlainName(c)
    ensures ScansClean(Prefix(columns, tableName))
  {
    NeutralIsClean(tableName);
    forall c | c in columns ensures ScansClean(IdentOrQuote(c)) { NeutralIsClean(c); }
    CleanNamesMakeCleanHeads(columns, tableName);
  }

  function RowStatements(columns: seq<string>, rows: seq<Value>, tableName: string, render: Render): seq<string> {
    if rows == [] then []
    else [InsertStatement(columns, rows[0], tableName, render)] + RowStatements(columns, rows[1..], tableName, render)
  }

  lemma StatementEnds(columns: seq<string>, row: Value, tableName: string, render: Render)
    ensures var s := InsertStatement(columns, row, tableName, render); s != "" && s[0] == 'I' && s[|s| - 1] == ')' && Trimmed(s)
  {
    var s := InsertStatement(columns, row, tableName, render);
    assert s[0] == 'I' && s[|s| - 1] == ')';
  }

  lemma Terminator(statement: string, rest: string)
    ensures statement + (";\n" + rest) == statement + (";" + ("\n" + rest))
  {
    assert ";\n" + rest == ";" + ("\n" + rest);
  }

  // ─── When a row's terminator is seen ──────────────────────────────

  /** Text that leaves every place that is not code as it finds it. */
  predicate Dull(s: string) {
    forall i | 0 <= i < |s| :: s[i] != '\'' && s[i] != '\\' && s[i] != '\n' && s[i] != '*'
  }

  lemma {:induction false} DullRun(s: string, m: Mode)
    requires Dull(s) && Lost(m)
    ensures After(s, m) == m
    decreases |s|
  {
    if s != "" { DullRun(s[1..], m); }
  }

  lemma {:induction false} NumberIsDull(t: string)
    requires NumberText(t)
    ensures Dull(t)
  {
    if t != "" { NumberIsDull(t[1..]); }
  }

  /** A JSON number prints as a number. */
  predicate PrintedNumbers(columns: seq<string>, row: Value) {
    forall c | c in columns :: row.Get(c).Some? && row.Get(c).value.Number? ==> NumberText(row.Get(c).value.text)
  }

  predicate StaysLost(s: string, m: Mode, safe: bool) {
    var m' := After(s, m);
    (m' == Code || Lost(m')) && (m' == Code <==> m == Code && safe)
  }

  /** A cell keeps the scanner in code if and only if it is safe. */
  lemma CellRun(cell: Option<Value>, render: Render, m: Mode)
    requires m == Code || Lost(m)
    requires cell.Some? && cell.value.Number? ==> NumberText(cell.value.text)
    ensures StaysLost(SqlLiteral(cell, render), m, SafeCell(cell, render))
  {
    match cell
    case Some(Str(s)) => QuoteRun(s, m);
    case Some(Array(_)) => QuoteRun(render(cell.value), m);
    case Some(Object(_)) => QuoteRun(render(cell.value), m);
    case Some(Number(n)) =>
      NumberIsDull(n);
      PlainRun(cell, render, m);
    case _ => PlainRun(cell, render, m);
  }

  lemma PlainRun(cell: Option<Value>, render: Render, m: Mode)
    requires SafeCell(cell, render) && Dull(SqlLiteral(cell, render)) && (m == Code || Lost(m))
    ensures After(SqlLiteral(cell, render), m) == m
  {
    var text := SqlLiteral(cell, render);
    if m == Code {
      LiteralIsInert(cell, render);
      assert InertBefore(text, "") && text + "" == text;
    } else {
      DullRun(text, m);
    }
  }

  lemma CommaRun(comma: string, m: Mode)
    requires comma == ", " && (m == Code || Lost(m))
    ensures After(comma, m) == m
  {
    if m == Code {
      NeutralIsInert(comma);
      assert InertBefore(comma, "") && comma + "" == comma;
    } else {
      DullRun(comma, m);
    }
  }

  lemma SeparatorRun(first: string, others: string, m: Mode)
    requires After(first, m) == Code || Lost(After(first, m))
    ensures After(first + ", " + others, m) == After(others, After(first, m))
  {
    var comma := ", ";
    AppendAssoc(first, comma, others);
    ScanConcat(first, comma + others, m);
    ScanConcat(comma, others, After(first, m));
    CommaRun(comma, After(first, m));
  }

  lemma {:induction false} ValuesRun(columns: seq<string>, row: Value, render: Render, m: Mode)
    requires PrintedNumbers(columns, row) && (m == Code || Lost(m))
    ensures StaysLost(Join(Literals(columns, row, render), ", "), m, SafeRow(columns, row, render))
  {
    if columns != [] {
      assert columns[0] in columns && forall c | c in columns[1..] :: c in columns;
      assert forall c | c in columns :: c == columns[0] || c in columns[1..];
      var first := SqlLiteral(row.Get(columns[0]), render);
      CellRun(row.Get(columns[0]), render, m);
      var rest := Literals(columns[1..], row, render);
      if rest == [] {
        assert [first] + rest == [first];
      } else {
        ValuesRun(columns[1..], row, render, After(first, m));
        JoinCons(first, rest, ", ");
        SeparatorRun(first, Join(rest, ", "), m);
      }
    }
  }

  /** A text that does not end in a backslash does not end behind one. */
  lemma NotEscaped(init: string, last: string, m: Mode)
    requires last == "("
    ensures var m' := After(init + last, m); m' == Code || Lost(m')
  {
    ScanConcat(init, last, m);
  }

  lemma PrefixEnds(columns: seq<string>, tableName: string)
    ensures var prefix := Prefix(columns, tableName);
            && prefix != "" && prefix[|prefix| - 1] == '('
            && (After(prefix, Code) == Code || Lost(After(prefix, Code)))
  {
    var open := "(";
    var init := "INSERT INTO " + SafeTable(tableName) + " (" + Join(Names(columns), ", ") + ") VALUES ";
    NotEscaped(init, open, Code);
    assert Prefix(columns, tableName) == init + open;
  }

  function ValueList(columns: seq<string>, row: Value, render: Render): string {
    Join(Literals(columns, row, render), ", ")
  }

  lemma StatementParts(columns: seq<string>, row: Value, tableName: string, render: Render, close: string)
    requires close == ")"
    ensures InsertStatement(columns, row, tableName, render) == Prefix(columns, tableName) + (ValueList(columns, row, render) + close)
  {
    AppendAssoc(Prefix(columns, tableName), ValueList(columns, row, render), close);
  }

  /** The scanner is in code behind a statement, where its terminator stands, if and only
      if it is in code behind the statement's head and every cell of the row is safe. */
  lemma TerminatorIsSeenIff(columns: seq<string>, row: Value, tableName: string, render: Render)
    requires PrintedNumbers(columns, row)
    ensures After(InsertStatement(columns, row, tableName, render), Code) == Code
       <==> After(Prefix(columns, tableName), Code) == Code && SafeRow(columns, row, render)
  {
    var prefix, values, close := Prefix(columns, tableName), ValueList(columns, row, render), ")";
    var m := After(prefix, Code);
    PrefixEnds(columns, tableName);
    StatementParts(columns, row, tableName, render, close);
    ScanConcat(prefix, values + close, Code);
    ValuesRun(columns, row, render, m);
    ScanConcat(values, close, m);
    if After(values, m) != Code { DullRun(close, After(values, m)); }
  }

  lemma SafeValuesScanClean(columns: seq<string>, row: Value, render: Render, close: string)
    requires SafeRow(columns, row, render) && close == ")"
    ensures ScansClean(ValueList(columns, row, render) + close)
  {
    var values := ValueList(columns, row, render);
    LiteralsAreInert(columns, row, render);
    JoinIsInert(Literals(columns, row, render));
    NeutralIsClean(close);
    assert InertBefore(values, close);
  }

  /** A statement shows no boundary before its terminator if and only if its head shows
      none and its cells are safe; its placeholders are then those of its head. */
  lemma StatementIsShutIff(columns: seq<string>, row: Value, tableName: string, render: Render)
    requires PrintedNumbers(columns, row)
    ensures var s, prefix := InsertStatement(columns, row, tableName, render), Prefix(columns, tableName);
            && (Shut(s) <==> Shut(prefix) && SafeRow(columns, row, render))
            && (Shut(s) ==> Count(s, Code) == Count(prefix, Code))
  {
    var prefix, close := Prefix(columns, tableName), ")";
    var rest := ValueList(columns, row, render) + close;
    PrefixEnds(columns, tableName);
    StatementParts(columns, row, tableName, render, close);
    TerminatorIsSeenIff(columns, row, tableName, render);
    ScanConcat(prefix, rest, Code);
    CutConcat(prefix, rest, Code, ';');
    if SafeRow(columns, row, render) { SafeValuesScanClean(columns, row, render, close); }
  }

  // ─── Where the export is cut ──────────────────────────────────────

  lemma StatementSplitsAt(blank: string, statement: string, tail: string)
    requires Blank(blank) && Shut(statement) && Trimmed(statement) && statement != "" && statement[|statement| - 1] == ')'
    requires tail != "" && tail[0] == ';'
    ensures Statements(blank + (statement + tail)) == [statement] + Statements(tail[1..])
    ensures Count(blank + (statement + tail), Code) == Count(statement, Code) + Count(tail[1..], Code)
  {
    var current := blank + statement;
    BlankScan(blank, Code);
    ScanConcat(blank, statement + tail, Code);
    ScanConcat(statement, tail, Code);
    CutConcat(blank, statement + tail, Code, ';');
    CutConcat(statement, tail, Code, ';');
    AppendAssoc(blank, statement, tail);
    CutOff(current, tail);
    TrimHead(blank, statement);
  }

  /** One shut statement, a boundary, and what follows. */
  lemma StatementSplits(blank: string, statement: string, rest: string)
    requires Blank(blank) && Shut(statement) && Trimmed(statement) && statement != "" && statement[|statement| - 1] == ')'
    ensures Statements(blank + (statement + (";" + rest))) == [statement] + Statements(rest)
    ensures Count(blank + (statement + (";" + rest)), Code) == Count(statement, Code) + Count(rest, Code)
  {
    var tail := ";" + rest;
    assert tail[1..] == rest;
    StatementSplitsAt(blank, statement, tail);
  }

  lemma FirstRowSplits(blank: string, lf: string, columns: seq<string>, rows: seq<Value>, tableName: string, render: Render)
    requires Blank(blank) && lf == "\n" && rows != [] && PrintedNumbers(columns, rows[0])
    requires Shut(Prefix(columns, tableName)) && SafeRow(columns, rows[0], render)
    ensures var text, rest := blank + Inserts(columns, rows, tableName, render), lf + Inserts(columns, rows[1..], tableName, render);
            && Statements(text) == [InsertStatement(columns, rows[0], tableName, render)] + Statements(rest)
            && Count(text, Code) == Count(Prefix(columns, tableName), Code) + Count(rest, Code)
  {
    var s, rest := InsertStatement(columns, rows[0], tableName, render), Inserts(columns, rows[1..], tableName, render);
    StatementIsShutIff(columns, rows[0], tableName, render);
    StatementEnds(columns, rows[0], tableName, render);
    StatementSplits(blank, s, lf + rest);
    Terminator(s, rest);
  }

  function Times(n: nat, c: nat): nat {
    if n == 0 then 0 else c + Times(n - 1, c)
  }

  lemma {:induction false} TimesIs(n: nat, c: nat)
    ensures Times(n, c) == n * c
  {
    if n > 0 { TimesIs(n - 1, c); }
  }

  /** The export as it is cut when every statement is shut. */
  lemma {:induction false} InsertsSplitFrom(blank: string, columns: seq<string>, rows: seq<Value>, tableName: string, render: Render)
    requires Blank(blank) && forall row | row in rows :: PrintedNumbers(columns, row) && SafeRow(columns, row, render)
    requires rows != [] ==> Shut(Prefix(columns, tableName))
    ensures var text := blank + Inserts(columns, rows, tableName, render);
            && Statements(text) == RowStatements(columns, rows, tableName, render)
            && Count(text, Code) == Times(|rows|, Count(Prefix(columns, tableName), Code))
    decreases |rows|
  {
    if rows == [] {
      assert blank + "" == blank;
      BlankPieces(blank);
      BlankScan(blank, Code);
    } else {
      assert rows[0] in rows && forall row | row in rows[1..] :: row in rows;
      var lf := "\n";
      InsertsSplitFrom(lf, columns, rows[1..], tableName, render);
      FirstRowSplits(blank, lf, columns, rows, tableName, render);
    }
  }

  /** A piece that is the statement ends where the statement does. */
  lemma PieceEnds(blank: string, statement: string, tail: string, g: string, after: string)
    requires g + after == blank + (statement + tail) && Blank(blank) && tail != "" && tail[0] == ';'
    requires statement != "" && !IsWhitespace(statement[0]) && Trim(g) == statement
    ensures g == blank + statement
  {
    var text := blank + (statement + tail);
    var before, behind := TrimCuts(g);
    Places(before, statement, behind);
    AppendAssoc(blank, statement, tail);
    Places(blank, statement, tail);
    assert forall i | 0 <= i < |g| :: text[i] == g[i];
    assert g[|before|] == statement[0] && text[|blank|] == statement[0];
    assert |before| == |blank|;
    assert behind == "";
    assert g == text[..|g|] == blank + statement;
  }

  lemma Places(a: string, b: string, c: string)
    ensures forall i | 0 <= i < |a| :: (a + b + c)[i] == a[i]
    ensures forall i | 0 <= i < |b| :: (a + b + c)[|a| + i] == b[i]
    ensures forall i | 0 <= i < |c| :: (a + b + c)[|a| + |b| + i] == c[i]
  {
  }

  /** A statement that leaves the code, or shows a boundary of its own, hides its
      terminator: the first piece is not the statement. */
  lemma HiddenTerminator(blank: string, statement: string, rest: string)
    requires Blank(blank) && statement != "" && !IsWhitespace(statement[0]) && statement[0] != ';'
    requires !Shut(statement)
    ensures var r := Statements(blank + (statement + (";" + rest))); r != [] && r[0] != statement
  {
    var tail := ";" + rest;
    var text := blank + (statement + tail);
    assert text[|blank|] == statement[0];
    if FirstCut(text, Code, ';') == |text| {
      LastPiece(text);
      TrimBlank(text);
      assert text + "" == text;
      if Trim(text) == statement { PieceEnds(blank, statement, tail, text, ""); }
    } else {
      var g, more := CutShape(text, Code, ';');
      CutOff(g, ";" + more);
      assert (";" + more)[1..] == more;
      FirstPieceShows(blank, statement, tail, g, more);
      if Trim(g) == statement {
        PieceEnds(blank, statement, tail, g, ";" + more);
        BlankScan(blank, Code);
        ScanConcat(blank, statement, Code);
        CutConcat(blank, statement, Code, ';');
      }
    }
  }

  lemma FirstPieceShows(blank: string, statement: string, tail: string, g: string, more: string)
    requires g + (";" + more) == blank + (statement + tail) && Blank(blank)
    requires statement != "" && !IsWhitespace(statement[0]) && statement[0] != ';'
    ensures Trim(g) != ""
  {
    var text := blank + (statement + tail);
    TrimBlank(g);
    assert text[|g|] == ';' && text[|blank|] == statement[0];
    assert forall i | 0 <= i < |blank| :: text[i] == blank[i];
    assert |g| > |blank| && g[|blank|] == text[|blank|];
  }

  /** MAIN: the export of any rows splits into exactly one statement per row, each that
      row's INSERT without its terminator, if and only if there are no rows, or the
      statements' common head scans back into code without a boundary and every cell's
      backslashes are harmless. The placeholders in code are then those of the heads. */
  lemma InsertsSplitPerRowIff(columns: seq<string>, rows: seq<Value>, tableName: string, render: Render)
    requires forall row | row in rows :: PrintedNumbers(columns, row)
    ensures var text, head := Inserts(columns, rows, tableName, render), Prefix(columns, tableName);
            var safe := rows == [] || (Shut(head) && forall row | row in rows :: SafeRow(columns, row, render));
            && (Statements(text) == RowStatements(columns, rows, tableName, render) <==> safe)
            && (safe ==> Count(text, Code) == |rows| * Count(head, Code))
  {
    var text := Inserts(columns, rows, tableName, render);
    assert "" + text == text;
    if rows == [] || (Shut(Prefix(columns, tableName)) && forall row | row in rows :: SafeRow(columns, row, render)) {
      InsertsSplitFrom("", columns, rows, tableName, render);
      TimesIs(|rows|, Count(Prefix(columns, tableName), Code));
    } else {
      UnsafeRowsSplitWrong("", columns, rows, tableName, render);
    }
  }

  lemma {:induction false} UnsafeRowsSplitWrong(blank: string, columns: seq<string>, rows: seq<Value>, tableName: string, render: Render)
    requires Blank(blank) && rows != [] && forall row | row in rows :: PrintedNumbers(columns, row)
    requires !Shut(Prefix(columns, tableName)) || exists row | row in rows :: !SafeRow(columns, row, render)
    ensures Statements(blank + Inserts(columns, rows, tableName, render)) != RowStatements(columns, rows, tableName, render)
    decreases |rows|
  {
    assert rows[0] in rows && forall row | row in rows :: row == rows[0] || row in rows[1..];
    var s, rest := InsertStatement(columns, rows[0], tableName, render), Inserts(columns, rows[1..], tableName, render);
    var lf := "\n";
    StatementEnds(columns, rows[0], tableName, render);
    StatementIsShutIff(columns, rows[0], tableName, render);
    Terminator(s, rest);
    if Shut(s) {
      UnsafeRowsSplitWrong(lf, columns, rows[1..], tableName, render);
      StatementSplits(blank, s, lf + rest);
      SameRest(s, Statements(lf + rest), RowStatements(columns, rows[1..], tableName, render));
    } else {
      HiddenTerminator(blank, s, lf + rest);
    }
  }

  lemma SameRest<T>(first: T, a: seq<T>, b: seq<T>)
    ensures [first] + a == [first] + b ==> a == b
  {
    assert ([first] + a)[1..] == a && ([first] + b)[1..] == b;
  }
}
