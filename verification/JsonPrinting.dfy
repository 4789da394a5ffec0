/** JSON printed compactly (`Value::to_string`): what the runner fills in for a result
    that is no text. Object keys come in increasing order. */
module JsonPrinting {
  import opened Text
  import opened Json
  import opened Blocks
  import opened Substitution
  import opened Runner
  import opened RunnerTheorems
  import opened RunnerExactness
  import DbExport
  import References

  // ─── The printer ──────────────────────────────────────────────────

  function HexDigit(n: nat): char
    requires n < 16
  {
    "0123456789abcdef"[n]
  }

  /** The escapes of section 7 of RFC 8259 that a printer must write. */
  function EscapeChar(c: char): string {
    if c == '"' then "\\\""
    else if c == '\\' then "\\\\"
    else if c == '\n' then "\\n"
    else if c == '\r' then "\\r"
    else if c == '\t' then "\\t"
    else if c as int == 8 then "\\b"
    else if c as int == 12 then "\\f"
    else if c as int < 32 then "\\u00" + [HexDigit(c as int / 16), HexDigit(c as int % 16)]
    else [c]
  }

  function EscapeText(s: string): string {
    if s == "" then "" else EscapeChar(s[0]) + EscapeText(s[1..])
  }

  function QuotedText(s: string): string {
    "\"" + EscapeText(s) + "\""
  }

  function Compact(v: Value): string {
    match v
    case Null => "null"
    case Bool(flag) => if flag then "true" else "false"
    case Number(text) => text
    case Str(text) => QuotedText(text)
    case Array(items) => "[" + Join(seq(|items|, i requires 0 <= i < |items| => Compact(items[i])), ",") + "]"
    case Object(fields) =>
      SortedElementsAre(fields.Keys);
      var keys := SortedElements(fields.Keys);
      "{" + Join(seq(|keys|, i requires 0 <= i < |keys| => QuotedText(keys[i]) + ":" + Compact(fields[keys[i]])), ",") + "}"
  }

  // ─── It prints harmlessly ─────────────────────────────────────────

  lemma QuietConcat(a: string, b: string)
    requires Quiet(a) && Quiet(b)
    ensures Quiet(a + b)
  {
    var s := a + b;
    forall i | 0 <= i < |s| && s[i] == '{' ensures i + 1 < |s| && s[i + 1] != '{' {
      if i < |a| { assert a[i] == '{'; } else { assert b[i - |a|] == '{'; }
    }
  }

  lemma PlainIsQuiet(s: string)
    requires NoBrace(s)
    ensures Quiet(s)
  {
  }

  lemma {:induction false} QuietJoin(parts: seq<string>, sep: string)
    requires (forall p | p in parts :: Quiet(p)) && NoBrace(sep)
    ensures Quiet(Join(parts, sep))
  {
    if |parts| > 1 {
      assert parts[0] in parts && forall p | p in parts[1..] :: p in parts;
      QuietJoin(parts[1..], sep);
      PlainIsQuiet(sep);
      QuietConcat(parts[0], sep);
      QuietConcat(parts[0] + sep, Join(parts[1..], sep));
    } else if |parts| == 1 {
      assert parts[0] in parts;
    }
  }

  lemma {:induction false} EscapeTextIsPlain(s: string)
    requires NoBrace(s)
    ensures NoBrace(EscapeText(s))
  {
    if s != "" {
      EscapeTextIsPlain(s[1..]);
      assert NoBrace(EscapeChar(s[0]));
    }
  }

  lemma QuotedTextIsPlain(s: string)
    requires NoBrace(s)
    ensures NoBrace(QuotedText(s))
  {
    EscapeTextIsPlain(s);
  }

  lemma JoinStarts(parts: seq<string>, sep: string)
    requires parts != [] && parts[0] != ""
    ensures Join(parts, sep) != "" && Join(parts, sep)[0] == parts[0][0]
  {
  }

  /** Braces around a body that starts with none. */
  lemma QuietBraces(body: string)
    requires Quiet(body) && (body != "" ==> body[0] != '{')
    ensures Quiet("{" + body + "}")
  {
    var open, close := "{", "}";
    PlainClose(close);
    QuietConcat(body, close);
    var s := open + body + close;
    assert s == open + (body + close);
    forall i | 0 <= i < |s| && s[i] == '{' ensures i + 1 < |s| && s[i + 1] != '{' {
      if i > 0 { assert (body + close)[i - 1] == '{'; }
    }
  }

  lemma PlainClose(close: string)
    requires close == "}"
    ensures Quiet(close)
  {
  }

  /** Printed JSON without braces in its texts never shows two opening braces in a row. */
  lemma {:induction false} CompactIsQuiet(v: Value)
    requires PlainTexts(v)
    ensures Quiet(Compact(v))
  {
    match v
    case Null => PlainIsQuiet("null");
    case Bool(flag) => PlainIsQuiet(Compact(v));
    case Number(text) => PlainIsQuiet(text);
    case Str(text) =>
      QuotedTextIsPlain(text);
      PlainIsQuiet(QuotedText(text));
    case Array(items) =>
      var parts := seq(|items|, i requires 0 <= i < |items| => Compact(items[i]));
      forall p | p in parts ensures Quiet(p) {
        var i :| 0 <= i < |parts| && parts[i] == p;
        CompactIsQuiet(items[i]);
      }
      QuietJoin(parts, ",");
      PlainIsQuiet("[");
      PlainIsQuiet("]");
      QuietConcat("[", Join(parts, ","));
      QuietConcat("[" + Join(parts, ","), "]");
    case Object(fields) =>
      SortedElementsAre(fields.Keys);
      var keys := SortedElements(fields.Keys);
      var parts := seq(|keys|, i requires 0 <= i < |keys| => QuotedText(keys[i]) + ":" + Compact(fields[keys[i]]));
      forall p | p in parts ensures Quiet(p) && p != "" && p[0] == '"' {
        var i :| 0 <= i < |parts| && parts[i] == p;
        assert keys[i] in fields;
        CompactIsQuiet(fields[keys[i]]);
        MemberIsQuiet(keys[i], Compact(fields[keys[i]]));
      }
      QuietJoin(parts, ",");
      if parts != [] {
        assert parts[0] in parts;
        JoinStarts(parts, ",");
      }
      QuietBraces(Join(parts, ","));
  }

  lemma MemberIsQuiet(key: string, text: string)
    requires NoBrace(key) && Quiet(text)
    ensures var p := QuotedText(key) + ":" + text; Quiet(p) && p != "" && p[0] == '"'
  {
    QuotedTextIsPlain(key);
    PlainIsQuiet(QuotedText(key) + ":");
    QuietConcat(QuotedText(key) + ":", text);
  }

  lemma QuietIsHarmless(s: string)
    requires Quiet(s)
    ensures Harmless(s)
  {
    forall k: nat ensures !At(s, "{{", k) { PairAt(s, "{{", k); }
    FindNone(s, "{{");
  }

  /** MAIN: printed compactly, JSON without braces in its texts is harmless. */
  lemma CompactIsHarmless(v: Value)
    requires PlainTexts(v)
    ensures Harmless(Compact(v))
  {
    CompactIsQuiet(v);
    QuietIsHarmless(Compact(v));
  }

  /** MAIN: with results printed compactly and harmless environment values, the memoised
      run stores the plain recursion's values under every executor if and only if the
      target cannot run at all, or no block reads downwards to one that runs before it. */
  lemma CompactRunIsEvalIff(blocks: seq<ParsedBlock>, registry: map<string, string>, vars: map<string, string>, target: string)
    requires Ordered(blocks) && forall b | b in blocks :: PlainParams(b.params)
    requires forall k | k in vars :: Harmless(vars[k])
    ensures (CanRun(blocks, target) ==> ReadsUpwards(blocks, VisitOrder(blocks, target)))
       <==> forall execute: (string, Value) -> Result<Value, string> :: AgreesWithEval(blocks, Host(execute, Compact, registry, vars), target)
  {
    var host := Host((_: string, _: Value) => Ok(Null), Compact, registry, vars);
    forall v | PlainTexts(v) ensures Harmless(host.render(v)) { CompactIsHarmless(v); }
    RunIsEvalIff(blocks, host, target);
    forall execute: (string, Value) -> Result<Value, string>
      ensures AgreesWithEval(blocks, host.(execute := execute), target) <==> AgreesWithEval(blocks, Host(execute, Compact, registry, vars), target)
    {
      assert host.(execute := execute) == Host(execute, Compact, registry, vars);
    }
  }

  // ─── The same texts elsewhere ─────────────────────────────────────

  /** MAIN: a CSV cell is the text a reference to the same value is replaced by; a missing
      cell is empty. */
  lemma CsvCellIsReplacement(v: Value)
    ensures DbExport.FormatCellCsv(Some(v), Compact) == References.ValueToString(v, Compact)
    ensures DbExport.FormatCellCsv(None, Compact) == ""
  {
  }
}
