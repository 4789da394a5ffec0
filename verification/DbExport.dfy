/** CSV and INSERT export of a result set (httui-core/src/blocks/db_export.rs).
    `render` prints JSON arrays and objects. */
module DbExport {
  import opened Text
  import opened Json

  type Render = Value -> string

  // ─── CSV ──────────────────────────────────────────────────────────

  function CsvEscape(value: string): string {
    if ',' in value || '"' in value || '\r' in value || '\n' in value
    then "\"" + ReplaceChar(value, '"', "\"\"") + "\"" else value
  }

  function BoolText(b: bool): string {
    if b then "true" else "false"
  }

  function FormatCellCsv(value: Option<Value>, render: Render): string {
    match value
    case None => ""
    case Some(Null) => ""
    case Some(Str(s)) => s
    case Some(Number(n)) => n
    case Some(Bool(b)) => BoolText(b)
    case Some(v) => render(v)
  }

  /** The cells of a row, in column order. */
  function CsvCells(columns: seq<string>, row: Value, render: Render): (cells: seq<string>)
    ensures |cells| == |columns|
  {
    if columns == [] then []
    else [FormatCellCsv(row.Get(columns[0]), render)] + CsvCells(columns[1..], row, render)
  }

  function EscapeAll(cells: seq<string>): (r: seq<string>)
    ensures |r| == |cells|
  {
    if cells == [] then [] else [CsvEscape(cells[0])] + EscapeAll(cells[1..])
  }

  function CsvLine(cells: seq<string>): string {
    Join(EscapeAll(cells), ",") + "\n"
  }

  function CsvLines(table: seq<seq<string>>): string {
    if table == [] then "" else CsvLine(table[0]) + CsvLines(table[1..])
  }

  /** The header and the formatted rows. */
  function CsvTable(columns: seq<string>, rows: seq<Value>, render: Render): seq<seq<string>> {
    [columns] + CsvRows(columns, rows, render)
  }

  function CsvRows(columns: seq<string>, rows: seq<Value>, render: Render): seq<seq<string>> {
    if rows == [] then [] else [CsvCells(columns, rows[0], render)] + CsvRows(columns, rows[1..], render)
  }

  method ToCsv(columns: seq<string>, rows: seq<Value>, render: Render) returns (out: string)
    ensures out == CsvLines(CsvTable(columns, rows, render))
  {
    out := Join(EscapeAll(columns), ",");
    out := out + "\n";
    for i := 0 to |rows|
      invariant out + CsvLines(CsvRows(columns, rows[i..], render)) == CsvLines(CsvTable(columns, rows, render))
    {
      assert rows[i..][1..] == rows[i + 1..];
      var cells := CsvCells(columns, rows[i], render);
      var line := Join(EscapeAll(cells), ",");
      AppendAssoc(out, line + "\n", CsvLines(CsvRows(columns, rows[i + 1..], render)));
      AppendAssoc(out, line, "\n");
      out := out + line;
      out := out + "\n";
    }
  }

  // ─── INSERT statements ────────────────────────────────────────────

  predicate IsAsciiAlphabetic(c: char) {
    'a' <= c <= 'z' || 'A' <= c <= 'Z'
  }

  /** An identifier that needs no quotes. */
  predicate IsPlainName(name: string) {
    && name != "" && (IsAsciiAlphabetic(name[0]) || name[0] == '_')
    && forall i | 0 <= i < |name| :: IsAsciiAlphabetic(name[i]) || IsDigit(name[i]) || name[i] == '_'
  }

  function IdentOrQuote(name: string): string {
    if IsPlainName(name) then name else "\"" + ReplaceChar(name, '"', "\"\"") + "\""
  }

  function Quote(s: string): string {
    "'" + ReplaceChar(s, '\'', "''") + "'"
  }

  function SqlLiteral(value: Option<Value>, render: Render): string {
    match value
    case None => "NULL"
    case Some(Null) => "NULL"
    case Some(Number(n)) => n
    case Some(Bool(b)) => if b then "TRUE" else "FALSE"
    case Some(Str(s)) => Quote(s)
    case Some(v) => Quote(render(v))
  }

  function Names(columns: seq<string>): seq<string> {
    if columns == [] then [] else [IdentOrQuote(columns[0])] + Names(columns[1..])
  }

  function Literals(columns: seq<string>, row: Value, render: Render): seq<string> {
    if columns == [] then [] else [SqlLiteral(row.Get(columns[0]), render)] + Literals(columns[1..], row, render)
  }

  function SafeTable(tableName: string): string {
    if tableName == "" then "<table>" else tableName
  }

  /** One row's statement, without its terminator. */
  function InsertStatement(columns: seq<string>, row: Value, tableName: string, render: Render): string {
    "INSERT INTO " + SafeTable(tableName) + " (" + Join(Names(columns), ", ") + ") VALUES (" +
    Join(Literals(columns, row, render), ", ") + ")"
  }

  function Inserts(columns: seq<string>, rows: seq<Value>, tableName: string, render: Render): string {
    if rows == [] then ""
    else InsertStatement(columns, rows[0], tableName, render) + (";\n" + Inserts(columns, rows[1..], tableName, render))
  }

  method ToInserts(columns: seq<string>, rows: seq<Value>, tableName: string, render: Render) returns (out: string)
    ensures out == Inserts(columns, rows, tableName, render)
  {
    var safeTable := if tableName == "" then "<table>" else tableName;
    var cols := Join(Names(columns), ", ");
    out := "";
    for i := 0 to |rows|
      invariant out + Inserts(columns, rows[i..], tableName, render) == Inserts(columns, rows, tableName, render)
    {
      assert rows[i..][1..] == rows[i + 1..];
      var values := Join(Literals(columns, rows[i], render), ", ");
      var statement := "INSERT INTO " + safeTable + " (" + cols + ") VALUES (" + values + ")";
      ghost var rest := Inserts(columns, rows[i + 1..], tableName, render);
      AppendAssoc(statement, ";\n", rest);
      AppendAssoc(out, statement + ";\n", rest);
      out := out + (statement + ";\n");
    }
  }
}
