/** A decoder for the CSV grammar of RFC 4180, section 2, with LF record ends, and
    the proof that it reads back exactly what `to_csv` wrote. */
module CsvRoundTrip {
  import opened Text
  import opened Json
  import opened DbExport

  /** TEXTDATA: what an unquoted field may contain. */
  predicate TextData(c: char) {
    c != ',' && c != '"' && c != '\r' && c != '\n'
  }

  /** The longest unquoted field, and the rest. */
  function PlainField(s: string): (r: (string, string))
    ensures |r.1| <= |s|
  {
    if s != "" && TextData(s[0]) then
      var (f, rest) := PlainField(s[1..]);
      ([s[0]] + f, rest)
    else ("", s)
  }

  /** A quoted field, behind its opening quote: a doubled quote stands for one. */
  function QuotedField(s: string): (r: Option<(string, string)>)
    ensures r.Some? ==> |r.value.1| < |s|
    decreases |s|
  {
    if s == "" then None
    else if s[0] == '"' then
      if |s| > 1 && s[1] == '"' then
        match QuotedField(s[2..])
        case None => None
        case Some((f, rest)) => Some(("\"" + f, rest))
      else Some(("", s[1..]))
    else
      match QuotedField(s[1..])
      case None => None
      case Some((f, rest)) => Some(([s[0]] + f, rest))
  }

  function Field(s: string): (r: Option<(string, string)>)
    ensures r.Some? ==> |r.value.1| <= |s|
  {
    if s != "" && s[0] == '"' then QuotedField(s[1..]) else Some(PlainField(s))
  }

  /** One record: fields between commas, ended by a line feed. */
  function Record(s: string): (r: Option<(seq<string>, string)>)
    ensures r.Some? ==> |r.value.1| < |s|
    decreases |s|
  {
    match Field(s)
    case None => None
    case Some((f, rest)) =>
      if rest == "" then None
      else if rest[0] == '\n' then Some(([f], rest[1..]))
      else if rest[0] == ',' then
        match Record(rest[1..])
        case None => None
        case Some((fs, rest')) => Some(([f] + fs, rest'))
      else None
  }

  function Decode(s: string): Option<seq<seq<string>>>
    decreases |s|
  {
    if s == "" then Some([])
    else
      match Record(s)
      case None => None
      case Some((r, rest)) =>
        match Decode(rest)
        case None => None
        case Some(rs) => Some([r] + rs)
  }

  /** What follows a field: a comma or a line feed. */
  predicate FieldEnd(s: string) {
    s != "" && (s[0] == ',' || s[0] == '\n')
  }

  lemma {:induction false} PlainReads(v: string, rest: string)
    requires FieldEnd(rest) && forall i | 0 <= i < |v| :: TextData(v[i])
    ensures PlainField(v + rest) == (v, rest)
  {
    if v == "" {
      assert v + rest == rest;
    } else {
      assert TextData(v[0]) && (v + rest)[1..] == v[1..] + rest;
      PlainReads(v[1..], rest);
      assert [v[0]] + v[1..] == v;
    }
  }

  lemma DoubledStep(quote: string, more: string)
    requires quote == "\""
    ensures QuotedField(quote + quote + more) == Prefixed('"', QuotedField(more))
  {
    assert (quote + quote + more)[2..] == more;
  }

  lemma OtherStep(c: char, more: string)
    requires c != '"'
    ensures QuotedField([c] + more) == Prefixed(c, QuotedField(more))
  {
    assert ([c] + more)[1..] == more;
  }

  lemma {:induction false} QuotedReads(v: string, quote: string, rest: string)
    requires FieldEnd(rest) && quote == "\""
    ensures QuotedField(ReplaceChar(v, '"', quote + quote) + (quote + rest)) == Some((v, rest))
  {
    var tail := quote + rest;
    if v == "" {
      assert ReplaceChar(v, '"', quote + quote) + tail == tail && tail[1..] == rest;
    } else {
      var written := ReplaceChar(v[1..], '"', quote + quote) + tail;
      QuotedReads(v[1..], quote, rest);
      ReplaceCons(v, '"', quote + quote, tail);
      assert [v[0]] + v[1..] == v;
      if v[0] == '"' { DoubledStep(quote, written); } else { OtherStep(v[0], written); }
    }
  }

  lemma FieldReads(v: string, rest: string)
    requires FieldEnd(rest)
    ensures Field(CsvEscape(v) + rest) == Some((v, rest))
  {
    if ',' in v || '"' in v || '\r' in v || '\n' in v {
      var quote := "\"";
      assert quote + quote == "\"\"";
      QuotedReads(v, quote, rest);
      var inner := ReplaceChar(v, '"', quote + quote);
      assert CsvEscape(v) + rest == quote + (inner + (quote + rest));
      assert (CsvEscape(v) + rest)[1..] == inner + (quote + rest);
    } else {
      assert forall i | 0 <= i < |v| :: TextData(v[i]) by {
        assert forall i | 0 <= i < |v| :: v[i] in v;
      }
      PlainReads(v, rest);
      if v == "" { assert v + rest == rest; }
    }
  }

  /** A line is its first escaped cell, then either its end or the other cells. */
  lemma LineSplits(cells: seq<string>, rest: string)
    requires cells != []
    ensures CsvLine(cells) + rest ==
            CsvEscape(cells[0]) + if |cells| == 1 then "\n" + rest else "," + (CsvLine(cells[1..]) + rest)
  {
    var first := CsvEscape(cells[0]);
    if |cells| == 1 {
      assert EscapeAll(cells) == [first];
      AppendAssoc(first, "\n", rest);
    } else {
      var others := Join(EscapeAll(cells[1..]), ",");
      JoinCons(first, EscapeAll(cells[1..]), ",");
      MoreCells(first, ",", others, "\n", rest);
    }
  }

  lemma MoreCells(first: string, comma: string, others: string, end: string, rest: string)
    ensures (first + comma + others) + end + rest == first + (comma + (others + end + rest))
  {
  }

  lemma {:induction false} RecordReads(cells: seq<string>, rest: string)
    requires cells != []
    ensures Record(CsvLine(cells) + rest) == Some((cells, rest))
  {
    LineSplits(cells, rest);
    if |cells| == 1 {
      FieldReads(cells[0], "\n" + rest);
      assert [cells[0]] == cells;
    } else {
      var tail := CsvLine(cells[1..]) + rest;
      RecordReads(cells[1..], rest);
      FieldReads(cells[0], "," + tail);
      assert [cells[0]] + cells[1..] == cells;
    }
  }

  lemma {:induction false} LinesDecode(table: seq<seq<string>>)
    requires forall r | r in table :: r != []
    ensures Decode(CsvLines(table)) == Some(table)
  {
    if table != [] {
      assert table[0] in table && forall r | r in table[1..] :: r in table;
      RecordReads(table[0], CsvLines(table[1..]));
      LinesDecode(table[1..]);
      assert [table[0]] + table[1..] == table;
      assert CsvLines(table) != "";
    }
  }

  lemma {:induction false} RowsHaveColumns(columns: seq<string>, rows: seq<Value>, render: Render)
    requires columns != []
    ensures forall r | r in CsvRows(columns, rows, render) :: r != []
  {
    if rows != [] { RowsHaveColumns(columns, rows[1..], render); }
  }

  /** MAIN: the export decodes to the header and every formatted cell, whatever the
      texts contain, if and only if there is a column at all. */
  lemma CsvDecodes(columns: seq<string>, rows: seq<Value>, render: Render)
    ensures Decode(CsvLines(CsvTable(columns, rows, render))) == Some(CsvTable(columns, rows, render)) <==> columns != []
  {
    var table := CsvTable(columns, rows, render);
    if columns != [] {
      RowsHaveColumns(columns, rows, render);
      LinesDecode(table);
    } else {
      var rest := CsvLines(table[1..]);
      assert CsvLines(table) == "\n" + rest;
      assert ("\n" + rest)[1..] == rest;
      assert Record("\n" + rest) == Some(([""], rest));
    }
  }

  /** A cell is quoted exactly when it holds a character that an unquoted field may not. */
  lemma QuotedIff(value: string)
    ensures CsvEscape(value) == value <==> forall i | 0 <= i < |value| :: TextData(value[i])
  {
    if ',' in value || '"' in value || '\r' in value || '\n' in value {
      ReplaceLonger(value, '"', "\"\"");
    }
  }
}
