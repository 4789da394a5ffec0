/** Blocks back to fenced markdown (httui-core/src/blocks/serializer.rs). */
module BlockSerializer {
  import opened Text
  import opened Json
  import opened Blocks
  import opened BlockParser

  // ─── What the serializer reads ────────────────────────────────────

  function StrField(v: Value, key: string): string {
    match v.Get(key)
    case None => ""
    case Some(x) => if x.Str? then x.text else ""
  }

  /** `Value::as_u64`. */
  function AsU64(v: Option<Value>): Option<nat> {
    if v.Some? && v.value.Number? && v.value.text != "" && AllDigits(v.value.text) && DigitsValue(v.value.text) < U64_LIMIT
    then Some(DigitsValue(v.value.text))
    else None
  }

  function Items(v: Value, key: string): seq<Value> {
    match v.Get(key)
    case None => []
    case Some(x) => if x.Array? then x.items else []
  }

  function ReadPairs(items: seq<Value>): seq<Pair> {
    if items == [] then [] else [Pair(StrField(items[0], "key"), StrField(items[0], "value"))] + ReadPairs(items[1..])
  }

  /** The fields of a db block: `connection` is preferred over `connection_id`. */
  function ReadDb(params: Value): DbParams {
    var conn := if params.Get("connection").Some? then params.Get("connection") else params.Get("connection_id");
    DbParams(
      StrField(params, "query"),
      if conn.Some? && conn.value.Str? && conn.value.text != "" then Some(conn.value.text) else None,
      AsU64(params.Get("limit")),
      AsU64(params.Get("timeout_ms")))
  }

  /** The fields of an http block; its timeout is never read. */
  function ReadHttp(params: Value): HttpParams {
    var m := params.Get("method");
    HttpParams(
      Uppercase(if m.Some? && m.value.Str? then m.value.text else "GET"),
      StrField(params, "url"),
      ReadPairs(Items(params, "params")),
      ReadPairs(Items(params, "headers")),
      StrField(params, "body"),
      None)
  }

  /** `to_uppercase` on ASCII letters; other characters stay. */
  function Uppercase(s: string): string {
    if s == "" then "" else [if 'a' <= s[0] <= 'z' then s[0] - 'a' + 'A' else s[0]] + Uppercase(s[1..])
  }

  // ─── Info strings ─────────────────────────────────────────────────

  /** One optional `key=value` word of an info string. */
  datatype Field = Field(key: string, value: Option<string>)

  function FieldText(f: Field): string {
    if f.value.Some? then " " + f.key + "=" + f.value.value else ""
  }

  function FieldsText(fields: seq<Field>): string {
    if fields == [] then "" else FieldsText(fields[..|fields| - 1]) + FieldText(fields[|fields| - 1])
  }

  function OptDecimal(n: Option<nat>): Option<string> {
    if n.Some? then Some(Decimal(n.value)) else None
  }

  function DbInfoFields(b: ParsedBlock, p: DbParams): seq<Field> {
    [ Field("alias", NonEmpty(b.alias)),
      Field("connection", NonEmpty(p.connection)),
      Field("limit", OptDecimal(p.limit)),
      Field("timeout", OptDecimal(p.timeoutMs)),
      Field("display", NonEmpty(b.displayMode)) ]
  }

  function HttpInfoFields(b: ParsedBlock): seq<Field> {
    [ Field("alias", NonEmpty(b.alias)), Field("displayMode", NonEmpty(b.displayMode)) ]
  }

  method InfoText(blockType: string, fields: seq<Field>) returns (info: string)
    ensures info == blockType + FieldsText(fields)
  {
    info := blockType;
    assert info + FieldsText([]) == info;
    for i := 0 to |fields|
      invariant info == blockType + FieldsText(fields[..i])
    {
      assert fields[..i + 1] == fields[..i] + [fields[i]];
      AppendAssoc(blockType, FieldsText(fields[..i]), FieldText(fields[i]));
      if fields[i].value.Some? {
        info := info + (" " + fields[i].key + "=" + fields[i].value.value);
      }
    }
    assert fields[..|fields|] == fields;
  }

  // ─── Fenced text ──────────────────────────────────────────────────

  function Fenced(info: string, body: string): string {
    "```" + info + "\n" + body + "\n```"
  }

  function DbText(b: ParsedBlock): string {
    var p := ReadDb(b.params);
    Fenced(b.blockType + FieldsText(DbInfoFields(b, p)), p.query)
  }

  method SerializeDbBlock(b: ParsedBlock) returns (text: string)
    ensures text == DbText(b)
  {
    var p := ReadDb(b.params);
    var info := InfoText(b.blockType, DbInfoFields(b, p));
    text := Fenced(info, p.query);
  }

  function QueryParts(params: seq<Pair>): seq<string> {
    if params == [] then []
    else
      var p, rest := params[0], QueryParts(params[1..]);
      if p.key == "" then rest else [if p.value == "" then p.key else p.key + "=" + p.value] + rest
  }

  method BuildQueryString(params: seq<Pair>) returns (query: string)
    ensures query == Join(QueryParts(params), "&")
  {
    var parts: seq<string> := [];
    for i := 0 to |params|
      invariant parts + QueryParts(params[i..]) == QueryParts(params)
    {
      var p := params[i];
      assert params[i..][1..] == params[i + 1..];
      if p.key != "" {
        var part := if p.value == "" then p.key else p.key + "=" + p.value;
        AppendAssoc(parts, [part], QueryParts(params[i + 1..]));
        parts := parts + [part];
      }
    }
    assert parts + [] == parts;
    query := Join(parts, "&");
  }

  /** The request target with its parameters re-attached. */
  function Target(url: string, params: seq<Pair>): string {
    var query := Join(QueryParts(params), "&");
    if query == "" then url else url + (if '?' in url then "&" else "?") + query
  }

  function HeaderText(headers: seq<Pair>): string {
    if headers == [] then ""
    else
      var h, rest := headers[0], HeaderText(headers[1..]);
      if h.key == "" then rest else "\n" + h.key + ": " + h.value + rest
  }

  method HeaderLines(headers: seq<Pair>) returns (lines: string)
    ensures lines == HeaderText(headers)
  {
    lines := "";
    for i := 0 to |headers|
      invariant lines + HeaderText(headers[i..]) == HeaderText(headers)
    {
      var h := headers[i];
      assert headers[i..][1..] == headers[i + 1..];
      if h.key != "" {
        var line := "\n" + h.key + ": " + h.value;
        AppendAssoc(lines, line, HeaderText(headers[i + 1..]));
        lines := lines + line;
      }
    }
    assert lines + "" == lines;
  }

  /** `trim_end_matches('\n')`. */
  function TrimEndNewlines(s: string): string {
    if s != "" && s[|s| - 1] == '\n' then TrimEndNewlines(s[..|s| - 1]) else s
  }

  function BodyText(body: string): string {
    var trimmed := TrimEndNewlines(body);
    if trimmed == "" then "" else "\n\n" + trimmed
  }

  function HttpMessageText(p: HttpParams): string {
    p.verb + " " + Target(p.url, p.params) + HeaderText(p.headers) + BodyText(p.body)
  }

  function HttpText(b: ParsedBlock): string {
    Fenced(b.blockType + FieldsText(HttpInfoFields(b)), HttpMessageText(ReadHttp(b.params)))
  }

  method SerializeHttpBlock(b: ParsedBlock) returns (text: string)
    ensures text == HttpText(b)
  {
    var p := ReadHttp(b.params);
    var info := InfoText(b.blockType, HttpInfoFields(b));
    var request := p.verb + " " + p.url;
    var query := BuildQueryString(p.params);
    if query != "" {
      var sep := if '?' in p.url then "&" else "?";
      AppendAssoc3(p.verb + " ", p.url, sep, query);
      request := request + sep + query;
    }
    var headers := HeaderLines(p.headers);
    var body := TrimEndNewlines(p.body);
    var bodyBlock := if body == "" then "" else "\n\n" + body;
    text := Fenced(info, request + headers + bodyBlock);
  }

  /** The block's fenced form; `print` renders the JSON body of other block types. */
  function BlockText(jsonText: Value -> string, b: ParsedBlock): string {
    if IsDbBlock(b.blockType) then DbText(b)
    else if b.blockType == "http" then HttpText(b)
    else Fenced(b.blockType + FieldsText(HttpInfoFields(b)), jsonText(b.params))
  }

  method SerializeBlock(jsonText: Value -> string, b: ParsedBlock) returns (text: string)
    ensures text == BlockText(jsonText, b)
  {
    if IsDbBlock(b.blockType) {
      text := SerializeDbBlock(b);
    } else if b.blockType == "http" {
      text := SerializeHttpBlock(b);
    } else {
      var info := InfoText(b.blockType, HttpInfoFields(b));
      text := Fenced(info, jsonText(b.params));
    }
  }
}
