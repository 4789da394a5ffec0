/** A reader of the INSERT statements an export is made of, written without the printer:
    names in double quotes or bare, and standard SQL literals. What it reads is what the
    rows held. */
module InsertsReading {
  import opened Text
  import opened Json
  import opened DbExport

  // ─── The reader ───────────────────────────────────────────────────

  datatype Sql = SqlNull | SqlBool(flag: bool) | SqlNumber(digits: string) | SqlText(text: string)

  /** Text up to its closing quote, behind the opening one; a doubled quote stands for one. */
  function ReadQuoted(s: string, quote: char): (r: Option<(string, string)>)
    ensures r.Some? ==> |r.value.1| < |s|
    decreases |s|
  {
    if s == "" then None
    else if s[0] == quote then
      if |s| > 1 && s[1] == quote then
        match ReadQuoted(s[2..], quote)
        case None => None
        case Some((t, rest)) => Some(([quote] + t, rest))
      else Some(("", s[1..]))
    else
      match ReadQuoted(s[1..], quote)
      case None => None
      case Some((t, rest)) => Some(([s[0]] + t, rest))
  }

  predicate NumberChar(c: char) {
    IsDigit(c) || c == '+' || c == '-' || c == '.' || c == 'e' || c == 'E'
  }

  predicate NameChar(c: char) {
    'a' <= c <= 'z' || 'A' <= c <= 'Z' || '0' <= c <= '9' || c == '_'
  }

  /** The longest stretch of such characters, and the rest. */
  function ReadWhile(s: string, allowed: char -> bool): (r: (string, string))
    ensures |r.0| + |r.1| == |s|
  {
    if s != "" && allowed(s[0]) then
      var (t, rest) := ReadWhile(s[1..], allowed);
      ([s[0]] + t, rest)
    else ("", s)
  }

  function Skip(s: string, word: string): Option<string> {
    if StartsWith(s, word) then Some(s[|word|..]) else None
  }

  function ReadLiteral(s: string): Option<(Sql, string)> {
    if StartsWith(s, "NULL") then Some((SqlNull, s[4..]))
    else if StartsWith(s, "TRUE") then Some((SqlBool(true), s[4..]))
    else if StartsWith(s, "FALSE") then Some((SqlBool(false), s[5..]))
    else if StartsWith(s, "'") then
      match ReadQuoted(s[1..], '\'')
      case None => None
      case Some((t, rest)) => Some((SqlText(t), rest))
    else
      var (t, rest) := ReadWhile(s, NumberChar);
      if t == "" then None else Some((SqlNumber(t), rest))
  }

  function ReadName(s: string): Option<(string, string)> {
    if StartsWith(s, "\"") then ReadQuoted(s[1..], '"')
    else
      var (t, rest) := ReadWhile(s, NameChar);
      if t == "" then None else Some((t, rest))
  }

  /** Items between commas, as many as are asked for, and what stands behind them. */
  function ReadItems<T>(s: string, item: string -> Option<(T, string)>, n: nat): Option<(seq<T>, string)>
    decreases n
  {
    if n == 0 then Some(([], s))
    else
      match item(s)
      case None => None
      case Some((v, rest)) =>
        if n == 1 then Some(([v], rest))
        else
          match Skip(rest, ", ")
          case None => None
          case Some(more) =>
            match ReadItems(more, item, n - 1)
            case None => None
            case Some((vs, end)) => Some(([v] + vs, end))
  }

  /** One statement with its terminator: the columns and the values, `n` of each. */
  function ReadInsert(s: string, table: string, n: nat): Option<((seq<string>, seq<Sql>), string)> {
    match Skip(s, "INSERT INTO " + table + " (")
    case None => None
    case Some(names) =>
      match ReadItems(names, ReadName, n)
      case None => None
      case Some((columns, behind)) =>
        match Skip(behind, ") VALUES (")
        case None => None
        case Some(list) =>
          match ReadItems(list, ReadLiteral, n)
          case None => None
          case Some((values, end)) =>
            match Skip(end, ");\n")
            case None => None
            case Some(rest) => Some(((columns, values), rest))
  }

  // ─── What should be read ──────────────────────────────────────────

  /** What a cell of a row means in SQL. */
  function Meaning(cell: Option<Value>, render: Render): Sql {
    match cell
    case None => SqlNull
    case Some(Null) => SqlNull
    case Some(Bool(b)) => SqlBool(b)
    case Some(Number(t)) => SqlNumber(t)
    case Some(Str(t)) => SqlText(t)
    case Some(other) => SqlText(render(other))
  }

  function Meanings(columns: seq<string>, row: Value, render: Render): (r: seq<Sql>)
    ensures |r| == |columns|
  {
    if columns == [] then [] else [Meaning(row.Get(columns[0]), render)] + Meanings(columns[1..], row, render)
  }

  /** A JSON number's text. */
  predicate NumberToken(t: string) {
    t != "" && forall i | 0 <= i < |t| :: NumberChar(t[i])
  }

  predicate NumbersAreTokens(columns: seq<string>, row: Value) {
    forall c | c in columns :: row.Get(c).Some? && row.Get(c).value.Number? ==> NumberToken(row.Get(c).value.text)
  }

  // ─── One item ─────────────────────────────────────────────────────

  /** What stands behind an item. */
  predicate ItemEnd(rest: string) {
    rest != "" && (rest[0] == ',' || rest[0] == ')')
  }

  lemma DoubledStep(quote: char, more: string)
    ensures ReadQuoted([quote, quote] + more, quote) == Prefixed(quote, ReadQuoted(more, quote))
  {
    assert ([quote, quote] + more)[2..] == more;
  }

  lemma OtherStep(c: char, quote: char, more: string)
    requires c != quote
    ensures ReadQuoted([c] + more, quote) == Prefixed(c, ReadQuoted(more, quote))
  {
    assert ([c] + more)[1..] == more;
  }

  lemma {:induction false} QuotedReads(t: string, quote: char, rest: string)
    requires rest == "" || rest[0] != quote
    ensures ReadQuoted(ReplaceChar(t, quote, [quote, quote]) + ([quote] + rest), quote) == Some((t, rest))
  {
    var tail := [quote] + rest;
    if t == "" {
      assert ReplaceChar(t, quote, [quote, quote]) + tail == tail && tail[1..] == rest;
    } else {
      var more := ReplaceChar(t[1..], quote, [quote, quote]) + tail;
      QuotedReads(t[1..], quote, rest);
      ReplaceCons(t, quote, [quote, quote], tail);
      assert [t[0]] + t[1..] == t;
      if t[0] == quote { DoubledStep(quote, more); } else { OtherStep(t[0], quote, more); }
    }
  }

  lemma {:induction false} WhileReads(t: string, allowed: char -> bool, rest: string)
    requires (forall i | 0 <= i < |t| :: allowed(t[i])) && (rest == "" || !allowed(rest[0]))
    ensures ReadWhile(t + rest, allowed) == (t, rest)
  {
    if t == "" {
      assert t + rest == rest;
    } else {
      WhileReads(t[1..], allowed, rest);
      assert (t + rest)[1..] == t[1..] + rest && [t[0]] + t[1..] == t;
    }
  }

  lemma WordReads(word: string, rest: string)
    ensures Skip(word + rest, word) == Some(rest)
  {
    assert (word + rest)[..|word|] == word && (word + rest)[|word|..] == rest;
  }

  lemma QuotedForm(t: string, quote: string, rest: string)
    requires |quote| == 1
    ensures var q := quote[0];
            var s := quote + ReplaceChar(t, q, quote + quote) + quote + rest;
            s[0] == q && s[1..] == ReplaceChar(t, q, [q, q]) + ([q] + rest)
  {
    assert quote + quote == [quote[0], quote[0]];
  }

  lemma TextReads(t: string, rest: string)
    requires ItemEnd(rest)
    ensures ReadLiteral(Quote(t) + rest) == Some((SqlText(t), rest))
  {
    var quote := "'";
    var s := Quote(t) + rest;
    assert quote + quote == "''" && Quote(t) == quote + ReplaceChar(t, '\'', quote + quote) + quote;
    QuotedForm(t, quote, rest);
    QuotedReads(t, '\'', rest);
    FirstDecides(s);
    assert s[..1] == quote;
  }

  /** A text that starts with a quote is none of the words. */
  lemma FirstDecides(s: string)
    requires s != "" && s[0] != 'N' && s[0] != 'T' && s[0] != 'F'
    ensures !StartsWith(s, "NULL") && !StartsWith(s, "TRUE") && !StartsWith(s, "FALSE")
  {
    if |s| >= 4 { assert s[..4][0] == s[0]; }
    if |s| >= 5 { assert s[..5][0] == s[0]; }
  }

  lemma NumberReads(t: string, rest: string)
    requires NumberToken(t) && ItemEnd(rest)
    ensures ReadLiteral(t + rest) == Some((SqlNumber(t), rest))
  {
    var s := t + rest;
    assert NumberChar(t[0]) && s[0] == t[0];
    FirstDecides(s);
    assert s[..1] == [s[0]];
    WhileReads(t, NumberChar, rest);
  }

  lemma TrueReads(word: string, rest: string)
    requires word == "TRUE"
    ensures ReadLiteral(word + rest) == Some((SqlBool(true), rest))
  {
    var s := word + rest;
    WordReads(word, rest);
    assert s[..4][0] == 'T';
  }

  lemma FalseReads(word: string, rest: string)
    requires word == "FALSE"
    ensures ReadLiteral(word + rest) == Some((SqlBool(false), rest))
  {
    var s := word + rest;
    WordReads(word, rest);
    assert s[..4][0] == 'F';
  }

  lemma NullReads(word: string, rest: string)
    requires word == "NULL"
    ensures ReadLiteral(word + rest) == Some((SqlNull, rest))
  {
    WordReads(word, rest);
  }

  /** MAIN: every printed cell is read as what it means. */
  lemma LiteralReads(cell: Option<Value>, render: Render, rest: string)
    requires ItemEnd(rest) && (cell.Some? && cell.value.Number? ==> NumberToken(cell.value.text))
    ensures ReadLiteral(SqlLiteral(cell, render) + rest) == Some((Meaning(cell, render), rest))
  {
    var none, yes, no := "NULL", "TRUE", "FALSE";
    match cell
    case None => NullReads(none, rest);
    case Some(Null) => NullReads(none, rest);
    case Some(Bool(b)) => if b { TrueReads(yes, rest); } else { FalseReads(no, rest); }
    case Some(Number(t)) => NumberReads(t, rest);
    case Some(Str(t)) => TextReads(t, rest);
    case Some(other) => TextReads(render(other), rest);
  }

  /** MAIN: every printed name is read as the name. */
  lemma NameReads(name: string, rest: string)
    requires ItemEnd(rest)
    ensures ReadName(IdentOrQuote(name) + rest) == Some((name, rest))
  {
    var s, quote := IdentOrQuote(name) + rest, "\"";
    if IsPlainName(name) {
      assert NameChar(name[0]) && s[0] == name[0];
      assert s[..1] == [s[0]];
      WhileReads(name, NameChar, rest);
    } else {
      assert quote + quote == "\"\"" && IdentOrQuote(name) == quote + ReplaceChar(name, '"', quote + quote) + quote;
      QuotedForm(name, quote, rest);
      QuotedReads(name, '"', rest);
      assert s[..1] == quote;
    }
  }

  /** A name is quoted exactly when it is no word of letters, digits and underscores that
      starts with no digit. */
  lemma NameIsBareIff(name: string)
    ensures IdentOrQuote(name) == name <==>
            name != "" && !('0' <= name[0] <= '9') && forall i | 0 <= i < |name| :: NameChar(name[i])
  {
    if IsPlainName(name) {
      assert NameChar(name[0]);
    } else {
      ReplaceLonger(name, '"', "\"\"");
      if name != "" && NameChar(name[0]) && !('0' <= name[0] <= '9') {
        assert !forall i | 0 <= i < |name| :: NameChar(name[i]);
      }
    }
  }

  // ─── Lists ────────────────────────────────────────────────────────

  /** Each printed item is read back, whatever ends it. */
  ghost predicate AllRead<T(!new)>(texts: seq<string>, items: seq<T>, item: string -> Option<(T, string)>) {
    && |texts| == |items|
    && forall i, rest | 0 <= i < |texts| && ItemEnd(rest) :: item(texts[i] + rest) == Some((items[i], rest))
  }

  lemma {:induction false} ItemsRead<T(!new)>(texts: seq<string>, items: seq<T>, item: string -> Option<(T, string)>, end: string)
    requires AllRead(texts, items, item) && end != "" && end[0] == ')'
    ensures ReadItems(Join(texts, ", ") + end, item, |items|) == Some((items, end))
    decreases |texts|
  {
    var comma := ", ";
    if texts == [] {
      assert "" + end == end;
    } else if |texts| == 1 {
      assert ItemEnd(end) && item(texts[0] + end) == Some((items[0], end));
      assert items == [items[0]];
    } else {
      var rest := Join(texts[1..], comma) + end;
      assert AllRead(texts[1..], items[1..], item) by {
        forall i, r | 0 <= i < |texts| - 1 && ItemEnd(r) ensures item(texts[1..][i] + r) == Some((items[1..][i], r)) {
          assert item(texts[i + 1] + r) == Some((items[i + 1], r));
        }
      }
      ItemsRead(texts[1..], items[1..], item, end);
      assert Join(texts, comma) + end == texts[0] + (comma + rest);
      assert ItemEnd(comma + rest) && item(texts[0] + (comma + rest)) == Some((items[0], comma + rest));
      WordReads(comma, rest);
      assert items == [items[0]] + items[1..];
    }
  }

  lemma {:induction false} NamesRead(columns: seq<string>)
    ensures AllRead(Names(columns), columns, ReadName)
  {
    if columns != [] {
      NamesRead(columns[1..]);
      forall i, rest | 0 <= i < |columns| && ItemEnd(rest) ensures ReadName(Names(columns)[i] + rest) == Some((columns[i], rest)) {
        if i == 0 { NameReads(columns[0], rest); } else { assert Names(columns)[i] == Names(columns[1..])[i - 1]; }
      }
    }
  }

  lemma {:induction false} LiteralsRead(columns: seq<string>, row: Value, render: Render)
    requires NumbersAreTokens(columns, row)
    ensures AllRead(Literals(columns, row, render), Meanings(columns, row, render), ReadLiteral)
  {
    if columns != [] {
      assert columns[0] in columns && forall c | c in columns[1..] :: c in columns;
      LiteralsRead(columns[1..], row, render);
      var texts, items := Literals(columns, row, render), Meanings(columns, row, render);
      forall i, rest | 0 <= i < |texts| && ItemEnd(rest) ensures ReadLiteral(texts[i] + rest) == Some((items[i], rest)) {
        if i == 0 {
          LiteralReads(row.Get(columns[0]), render, rest);
        } else {
          assert texts[i] == Literals(columns[1..], row, render)[i - 1] && items[i] == Meanings(columns[1..], row, render)[i - 1];
        }
      }
    }
  }

  // ─── Statements and exports ───────────────────────────────────────

  /** The table an export names. */
  function TableRead(tableName: string): string {
    if tableName == "" then "<table>" else tableName
  }

  lemma StatementForm(open: string, names: string, middle: string, literals: string, rest: string)
    requires middle == ") VALUES ("
    ensures (open + names + middle + literals + ")") + (";\n" + rest) == open + (names + (middle + (literals + (");\n" + rest))))
  {
    assert ")" + (";\n" + rest) == ");\n" + rest;
  }

  /** MAIN: a printed statement is read as its columns and, for each in order, what the
      row has for it. */
  lemma InsertReads(columns: seq<string>, row: Value, tableName: string, render: Render, rest: string)
    requires NumbersAreTokens(columns, row)
    ensures ReadInsert(InsertStatement(columns, row, tableName, render) + (";\n" + rest), TableRead(tableName), |columns|)
         == Some(((columns, Meanings(columns, row, render)), rest))
  {
    var open, middle, end := "INSERT INTO " + TableRead(tableName) + " (", ") VALUES (", ");\n";
    var names, literals := Join(Names(columns), ", "), Join(Literals(columns, row, render), ", ");
    var values := Meanings(columns, row, render);
    StatementForm(open, names, middle, literals, rest);
    WordReads(open, names + (middle + (literals + (end + rest))));
    NamesRead(columns);
    ItemsRead(Names(columns), columns, ReadName, middle + (literals + (end + rest)));
    WordReads(middle, literals + (end + rest));
    LiteralsRead(columns, row, render);
    ItemsRead(Literals(columns, row, render), values, ReadLiteral, end + rest);
    WordReads(end, rest);
    InsertSteps(InsertStatement(columns, row, tableName, render) + (";\n" + rest), TableRead(tableName), columns, values,
                names + (middle + (literals + (end + rest))), middle + (literals + (end + rest)), literals + (end + rest), end + rest, rest);
  }

  lemma InsertSteps(s: string, table: string, columns: seq<string>, values: seq<Sql>, a: string, b: string, c: string, d: string, rest: string)
    requires |values| == |columns|
    requires Skip(s, "INSERT INTO " + table + " (") == Some(a) && ReadItems(a, ReadName, |columns|) == Some((columns, b))
    requires Skip(b, ") VALUES (") == Some(c) && ReadItems(c, ReadLiteral, |values|) == Some((values, d)) && Skip(d, ");\n") == Some(rest)
    ensures ReadInsert(s, table, |columns|) == Some(((columns, values), rest))
  {
  }

  /** Statements one behind the other, to the end of the text. */
  function ReadInserts(s: string, table: string, n: nat): Option<seq<(seq<string>, seq<Sql>)>>
    decreases |s|
  {
    if s == "" then Some([])
    else
      match ReadInsert(s, table, n)
      case None => None
      case Some((first, rest)) =>
        if |rest| >= |s| then None
        else
          match ReadInserts(rest, table, n)
          case None => None
          case Some(more) => Some([first] + more)
  }

  function RowMeanings(columns: seq<string>, rows: seq<Value>, render: Render): seq<(seq<string>, seq<Sql>)> {
    if rows == [] then [] else [(columns, Meanings(columns, rows[0], render))] + RowMeanings(columns, rows[1..], render)
  }

  /** MAIN: an export is read as its rows, in order. */
  lemma {:induction false} ExportReads(columns: seq<string>, rows: seq<Value>, tableName: string, render: Render)
    requires forall row | row in rows :: NumbersAreTokens(columns, row)
    ensures ReadInserts(Inserts(columns, rows, tableName, render), TableRead(tableName), |columns|)
         == Some(RowMeanings(columns, rows, render))
  {
    if rows != [] {
      assert rows[0] in rows && forall row | row in rows[1..] :: row in rows;
      var rest := Inserts(columns, rows[1..], tableName, render);
      ExportReads(columns, rows[1..], tableName, render);
      InsertReads(columns, rows[0], tableName, render, rest);
      LongerBy(InsertStatement(columns, rows[0], tableName, render), ";\n", rest);
    }
  }

  lemma LongerBy(a: string, b: string, rest: string)
    requires b != ""
    ensures |a + (b + rest)| > |rest|
  {
  }
}
