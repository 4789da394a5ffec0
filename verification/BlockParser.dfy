/** Executable blocks in a markdown note (httui-core/src/blocks/parser.rs). The JSON
    text parser is a parameter: `json(text)` is `serde_json::from_str`. */
module BlockParser {
  import opened Text
  import opened Lines
  import opened Json
  import opened Blocks

  predicate Executable(blockType: string) {
    || blockType == "http"
    || blockType == "db"
    || blockType == "db-postgres"
    || blockType == "db-mysql"
    || blockType == "db-sqlite"
  }

  type Attributes = map<string, string>

  function Lookup(attrs: Attributes, key: string): Option<string> {
    if key in attrs then Some(attrs[key]) else None
  }

  function U64Attribute(attrs: Attributes, key: string): Option<nat> {
    if key in attrs then ParseU64(attrs[key]) else None
  }

  predicate IsDbBlock(blockType: string) {
    blockType == "db" || StartsWith(blockType, "db-")
  }

  // ─── Fences ───────────────────────────────────────────────────────

  function StripFenceOpen(line: string): Option<string> {
    if (StartsWith(line, "```") || StartsWith(line, "~~~")) && |line| > 3 then Some(Trim(line[3..])) else None
  }

  predicate ClosesFence(line: string) {
    var l := Trim(line);
    l == "```" || (StartsWith(l, "```") && forall i | 3 <= i < |l| :: l[i] == '`')
  }

  /** `key=value` words, the last of equal keys winning. */
  function AttributesOf(words: seq<string>): Attributes {
    if words == [] then map[]
    else
      var earlier := AttributesOf(words[..|words| - 1]);
      match SplitOnceChar(words[|words| - 1], '=')
      case None => earlier
      case Some((key, value)) => earlier[key := value]
  }

  function InfoString(info: string): (string, Attributes) {
    var words := SplitWhitespace(info);
    if words == [] then ("", map[]) else (words[0], AttributesOf(words[1..]))
  }

  method ParseInfoString(info: string) returns (blockType: string, attrs: Attributes)
    ensures (blockType, attrs) == InfoString(info)
  {
    var words := SplitWhitespace(info);
    attrs := map[];
    if words == [] { return "", attrs; }
    blockType, words := words[0], words[1..];
    for i := 0 to |words|
      invariant attrs == AttributesOf(words[..i])
    {
      assert words[..i + 1][..i] == words[..i];
      var cut := SplitOnceChar(words[i], '=');
      if cut.Some? {
        attrs := attrs[cut.value.0 := cut.value.1];
      }
    }
    assert words[..|words|] == words;
  }

  datatype Opening = NoOpening | Opening(blockType: string, attrs: Attributes)

  /** Whether a line opens an executable block, with its type and attributes. */
  function OpensBlock(line: string): Opening {
    match StripFenceOpen(Trim(line))
    case None => NoOpening
    case Some(info) =>
      var (blockType, attrs) := InfoString(info);
      if Executable(blockType) then Opening(blockType, attrs) else NoOpening
  }

  // ─── Database bodies ──────────────────────────────────────────────

  function LegacyDbBody(json: string -> Option<Value>, body: string): Option<Value> {
    var trimmed := TrimStart(body);
    if trimmed == "" || trimmed[0] != '{' then None
    else
      match json(trimmed)
      case None => None
      case Some(value) => if value.Get("query").Some? && value.Get("query").value.Str? then Some(value) else None
  }

  datatype DbParams = DbParams(query: string, connection: Option<string>, limit: Option<nat>, timeoutMs: Option<nat>)
  {
    /** The parameters as the parser hands them on: absent ones have no key. */
    function ToValue(): Value {
      var o0 := map["query" := Str(query)];
      var o1 := if connection.Some? then o0["connection_id" := Str(connection.value)] else o0;
      var o2 := if limit.Some? then o1["limit" := Number(Decimal(limit.value))] else o1;
      var o3 := if timeoutMs.Some? then o2["timeout_ms" := Number(Decimal(timeoutMs.value))] else o2;
      Object(o3)
    }
  }

  function NonEmpty(field: Option<string>): Option<string> {
    if field == Some("") then None else field
  }

  function DbBody(json: string -> Option<Value>, body: string, attrs: Attributes): Value {
    match LegacyDbBody(json, body)
    case Some(legacy) => legacy
    case None =>
      DbParams(body, NonEmpty(Lookup(attrs, "connection")), U64Attribute(attrs, "limit"), U64Attribute(attrs, "timeout")).ToValue()
  }

  // ─── HTTP bodies ──────────────────────────────────────────────────

  datatype Pair = Pair(key: string, value: string)
  {
    function ToValue(): Value {
      Object(map["key" := Str(key), "value" := Str(value)])
    }
  }

  function PairValues(pairs: seq<Pair>): (r: seq<Value>)
    ensures |r| == |pairs|
  {
    if pairs == [] then [] else [pairs[0].ToValue()] + PairValues(pairs[1..])
  }

  datatype HttpParams = HttpParams(verb: string, url: string, params: seq<Pair>, headers: seq<Pair>, body: string, timeoutMs: Option<nat>)
  {
    function ToValue(): Value {
      var o := map["method" := Str(verb), "url" := Str(url), "params" := Array(PairValues(params)),
                   "headers" := Array(PairValues(headers)), "body" := Str(body)];
      Object(if timeoutMs.Some? then o["timeout_ms" := Number(Decimal(timeoutMs.value))] else o)
    }
  }

  predicate KnownMethod(m: string) {
    m == "GET" || m == "POST" || m == "PUT" || m == "PATCH" || m == "DELETE" || m == "HEAD" || m == "OPTIONS"
  }

  function QuerySegment(seg: string): Option<Pair> {
    if seg == "" then None
    else
      match FindChar(seg, '=')
      case None => Some(Pair(seg, ""))
      case Some(k) => if k == 0 then None else Some(Pair(seg[..k], seg[k + 1..]))
  }

  function QuerySegments(segs: seq<string>): seq<Pair> {
    if segs == [] then []
    else
      var rest := QuerySegments(segs[1..]);
      match QuerySegment(segs[0])
      case None => rest
      case Some(kv) => [kv] + rest
  }

  function HeaderLine(line: string): Option<Pair> {
    match FindChar(line, ':')
    case None => None
    case Some(k) => if Trim(line[..k]) == "" then None else Some(Pair(Trim(line[..k]), Trim(line[k + 1..])))
  }

  datatype Request = Request(verb: string, url: string, params: seq<Pair>)

  function RequestTarget(verb: string, rest: string): Request {
    match FindChar(rest, '?')
    case None => Request(verb, rest, [])
    case Some(k) => Request(verb, rest[..k], QuerySegments(Split(rest[k + 1..], '&')))
  }

  function FirstLine(line: string): Option<Request> {
    var n := WordLength(line);
    if n == |line| || !KnownMethod(line[..n]) then None else Some(RequestTarget(line[..n], Trim(line[n + 1..])))
  }

  method ParseHttpFirstLine(line: string) returns (r: Option<Request>)
    ensures r == FirstLine(line)
  {
    var n := WordLength(line);
    if n == |line| { return None; }
    var rest := Trim(line[n + 1..]);
    if !KnownMethod(line[..n]) { return None; }
    var mark := FindChar(rest, '?');
    if mark.None? { return Some(Request(line[..n], rest, [])); }
    var params := CollectSegments(Split(rest[mark.value + 1..], '&'));
    return Some(Request(line[..n], rest[..mark.value], params));
  }

  method CollectSegments(segs: seq<string>) returns (params: seq<Pair>)
    ensures params == QuerySegments(segs)
  {
    params := [];
    for i := 0 to |segs|
      invariant params + QuerySegments(segs[i..]) == QuerySegments(segs)
    {
      assert segs[i..][1..] == segs[i + 1..];
      if segs[i] != "" {
        var kv := QuerySegment(segs[i]);
        if kv.Some? {
          AppendAssoc(params, [kv.value], QuerySegments(segs[i + 1..]));
          params := params + [kv.value];
        }
      }
    }
    assert segs[|segs|..] == [] && params + [] == params;
  }

  /** The lines from the request line on. */
  function SkipNotes(lines: seq<string>): seq<string> {
    if lines == [] then []
    else
      var t := Trim(lines[0]);
      if t == "" || t[0] == '#' then SkipNotes(lines[1..]) else lines
  }

  datatype Head = Head(params: seq<Pair>, headers: seq<Pair>, rest: seq<string>)

  /** What one line in front of the body adds to the parameters and headers. */
  function HeadLine(trimmed: string, params: seq<Pair>, headers: seq<Pair>): (seq<Pair>, seq<Pair>)
    requires trimmed != ""
  {
    if trimmed[0] == '#' then (params, headers)
    else if headers == [] && (trimmed[0] == '?' || trimmed[0] == '&') then
      match QuerySegment(trimmed[1..])
      case None => (params, headers)
      case Some(kv) => (params + [kv], headers)
    else
      match HeaderLine(trimmed)
      case None => (params, headers)
      case Some(kv) => (params, headers + [kv])
  }

  /** Query continuations and headers, up to the first blank line. */
  function HeadOf(lines: seq<string>, params: seq<Pair>, headers: seq<Pair>): Head {
    if lines == [] then Head(params, headers, [])
    else if Trim(lines[0]) == "" then Head(params, headers, lines[1..])
    else
      var (ps, hs) := HeadLine(Trim(lines[0]), params, headers);
      HeadOf(lines[1..], ps, hs)
  }

  function DropTrailingEmpty(lines: seq<string>): seq<string> {
    if lines != [] && lines[|lines| - 1] == "" then DropTrailingEmpty(lines[..|lines| - 1]) else lines
  }

  function EmptyHttpParams(attrs: Attributes): HttpParams {
    HttpParams("GET", "", [], [], "", U64Attribute(attrs, "timeout"))
  }

  /** The message that begins with its request line. */
  function MessageFrom(lines: seq<string>, attrs: Attributes): HttpParams {
    if lines == [] then EmptyHttpParams(attrs)
    else
      match FirstLine(Trim(lines[0]))
      case None => EmptyHttpParams(attrs)
      case Some(request) =>
        var head := HeadOf(lines[1..], request.params, []);
        HttpParams(request.verb, request.url, head.params, head.headers, Join(DropTrailingEmpty(head.rest), "\n"),
                   U64Attribute(attrs, "timeout"))
  }

  function HttpMessage(body: string, attrs: Attributes): HttpParams {
    MessageFrom(SkipNotes(Split(body, '\n')), attrs)
  }

  method ParseHead(lines: seq<string>, inlineParams: seq<Pair>) returns (params: seq<Pair>, headers: seq<Pair>, rest: seq<string>)
    ensures Head(params, headers, rest) == HeadOf(lines, inlineParams, [])
  {
    params, headers := inlineParams, [];
    var i, sawHeader := 0, false;
    while i < |lines|
      invariant i <= |lines| && (sawHeader <==> headers != [])
      invariant HeadOf(lines[i..], params, headers) == HeadOf(lines, inlineParams, [])
    {
      var t := Trim(lines[i]);
      assert lines[i..][1..] == lines[i + 1..];
      i := i + 1;
      if t == "" { break; }
      ghost var (ps, hs) := HeadLine(t, params, headers);
      if t[0] == '#' { continue; }
      if !sawHeader && (t[0] == '?' || t[0] == '&') {
        var kv := QuerySegment(t[1..]);
        if kv.Some? { params := params + [kv.value]; }
        continue;
      }
      var kv := HeaderLine(t);
      if kv.Some? {
        headers := headers + [kv.value];
        sawHeader := true;
      }
    }
    rest := lines[i..];
  }

  method ParseHttpMessageBody(body: string, attrs: Attributes) returns (r: HttpParams)
    ensures r == HttpMessage(body, attrs)
  {
    var lines := Split(body, '\n');
    var i := 0;
    while i < |lines|
      invariant i <= |lines| && SkipNotes(lines[i..]) == SkipNotes(lines)
    {
      var t := Trim(lines[i]);
      assert lines[i..][1..] == lines[i + 1..];
      if t == "" || t[0] == '#' { i := i + 1; } else { break; }
    }
    if i >= |lines| { return EmptyHttpParams(attrs); }
    var from := i;
    var request := ParseHttpFirstLine(Trim(lines[i]));
    i := i + 1;
    if request.None? { return EmptyHttpParams(attrs); }
    assert lines[from..][1..] == lines[i..];

    var params, headers, bodyLines := ParseHead(lines[i..], request.value.params);
    ghost var rest := bodyLines;
    while bodyLines != [] && bodyLines[|bodyLines| - 1] == ""
      invariant DropTrailingEmpty(bodyLines) == DropTrailingEmpty(rest)
      decreases |bodyLines|
    {
      bodyLines := bodyLines[..|bodyLines| - 1];
    }
    return HttpParams(request.value.verb, request.value.url, params, headers, Join(bodyLines, "\n"), U64Attribute(attrs, "timeout"));
  }

  function LegacyHttpBody(json: string -> Option<Value>, body: string): Option<Value> {
    var trimmed := TrimStart(body);
    if trimmed == "" || trimmed[0] != '{' then None
    else
      match json(trimmed)
      case None => None
      case Some(value) =>
        if && value.Get("method").Some? && value.Get("method").value.Str?
           && value.Get("url").Some? && value.Get("url").value.Str?
        then Some(value)
        else None
  }

  function HttpBody(json: string -> Option<Value>, body: string, attrs: Attributes): Value {
    match LegacyHttpBody(json, body)
    case Some(legacy) => legacy
    case None => HttpMessage(body, attrs).ToValue()
  }

  // ─── Whole notes ──────────────────────────────────────────────────

  /** An executable block as the scan cuts it out: `at` is its opening line. */
  datatype Fence = Fence(blockType: string, attrs: Attributes, bodyLines: seq<string>, at: nat)

  function Behind(lines: seq<string>, n: nat): (rest: seq<string>)
    ensures n > 0 && lines != [] ==> |rest| < |lines|
  {
    if n <= |lines| then lines[n..] else []
  }

  /** Which lines open and close a block, and what a fence stands for. */
  datatype Grammar = Grammar(opens: string -> Opening, closes: string -> bool, build: Fence -> ParsedBlock)

  function Markdown(json: string -> Option<Value>): Grammar {
    Grammar(OpensBlock, ClosesFence, fence => BlockFrom(json, fence))
  }

  /** How many lines the body has before its closing fence, or the note's end. */
  function BodyHeight(g: Grammar, lines: seq<string>): (n: nat)
    ensures n <= |lines|
  {
    if lines == [] || g.closes(lines[0]) then 0 else 1 + BodyHeight(g, lines[1..])
  }

  /** The blocks of the lines numbered from `at` on. */
  function Fences(g: Grammar, lines: seq<string>, at: nat): seq<Fence>
    decreases |lines|
  {
    if lines == [] then []
    else
      match g.opens(lines[0])
      case NoOpening => Fences(g, lines[1..], at + 1)
      case Opening(blockType, attrs) =>
        var n := BodyHeight(g, lines[1..]);
        [Fence(blockType, attrs, lines[1..1 + n], at)] + Fences(g, Behind(lines, n + 2), at + n + 2)
  }

  function BlockFrom(json: string -> Option<Value>, fence: Fence): ParsedBlock {
    var attrs, body := fence.attrs, Join(fence.bodyLines, "\n");
    var params :=
      if IsDbBlock(fence.blockType) then DbBody(json, body, attrs)
      else if fence.blockType == "http" then HttpBody(json, body, attrs)
      else match json(body) case None => Null case Some(value) => value;
    var displayMode := if "display" in attrs then Some(attrs["display"]) else Lookup(attrs, "displayMode");
    ParsedBlock(fence.blockType, Lookup(attrs, "alias"), displayMode, params, fence.at, fence.at + 1 + |fence.bodyLines|)
  }

  function BlocksFrom(g: Grammar, fences: seq<Fence>): seq<ParsedBlock> {
    if fences == [] then [] else BlocksFrom(g, fences[..|fences| - 1]) + [g.build(fences[|fences| - 1])]
  }

  function BlocksOf(json: string -> Option<Value>, markdown: string): seq<ParsedBlock> {
    BlocksFrom(Markdown(json), Fences(Markdown(json), LinesIn(markdown), 0))
  }

  lemma FencesSkip(g: Grammar, lines: seq<string>, i: nat)
    requires i < |lines| && g.opens(lines[i]).NoOpening?
    ensures Fences(g, Behind(lines, i), i) == Fences(g, Behind(lines, i + 1), i + 1)
  {
    assert Behind(lines, i)[1..] == lines[i + 1..];
  }

  lemma BehindBehind(lines: seq<string>, i: nat, n: nat)
    requires i <= |lines|
    ensures Behind(Behind(lines, i), n) == Behind(lines, i + n)
  {
  }

  lemma FencesOpenFirst(g: Grammar, lines: seq<string>, at: nat, bodyLines: seq<string>)
    requires lines != [] && g.opens(lines[0]).Opening?
    requires |bodyLines| == BodyHeight(g, lines[1..]) && bodyLines == lines[1..1 + |bodyLines|]
    ensures var o, n := g.opens(lines[0]), |bodyLines|;
            Fences(g, lines, at) == [Fence(o.blockType, o.attrs, bodyLines, at)] + Fences(g, Behind(lines, n + 2), at + n + 2)
  {
  }

  lemma FencesOpen(g: Grammar, lines: seq<string>, i: nat, bodyLines: seq<string>, end: nat)
    requires i < |lines| && g.opens(lines[i]).Opening?
    requires end == i + 1 + BodyHeight(g, lines[i + 1..]) && bodyLines == lines[i + 1..end]
    ensures var o := g.opens(lines[i]);
            Fences(g, Behind(lines, i), i) == [Fence(o.blockType, o.attrs, bodyLines, i)] + Fences(g, Behind(lines, end + 1), end + 1)
  {
    var rest, n := Behind(lines, i), |bodyLines|;
    assert rest[1..] == lines[i + 1..];
    assert rest[1..1 + n] == bodyLines;
    FencesOpenFirst(g, rest, i, bodyLines);
    BehindBehind(lines, i, n + 2);
  }

  method CollectBody(g: Grammar, lines: seq<string>, from: nat) returns (bodyLines: seq<string>, end: nat)
    requires from <= |lines|
    ensures var n := BodyHeight(g, lines[from..]); end == from + n && bodyLines == lines[from..from + n]
  {
    bodyLines, end := [], from;
    while end < |lines|
      invariant from <= end <= |lines| && bodyLines == lines[from..end]
      invariant BodyHeight(g, lines[from..]) == |bodyLines| + BodyHeight(g, lines[end..])
    {
      if g.closes(lines[end]) { break; }
      assert lines[end..][1..] == lines[end + 1..];
      bodyLines := bodyLines + [lines[end]];
      end := end + 1;
    }
  }

  /** The fences taken so far, and those still to come from line `i` on, are all of them. */
  ghost predicate Taken(g: Grammar, lines: seq<string>, i: nat, fences: seq<Fence>, all: seq<Fence>) {
    all == fences + Fences(g, Behind(lines, i), i)
  }

  lemma TakeNone(g: Grammar, lines: seq<string>, i: nat, fences: seq<Fence>, all: seq<Fence>)
    requires i < |lines| && g.opens(lines[i]).NoOpening? && Taken(g, lines, i, fences, all)
    ensures Taken(g, lines, i + 1, fences, all)
  {
    FencesSkip(g, lines, i);
  }

  lemma TakeOne(g: Grammar, lines: seq<string>, i: nat, fence: Fence, end: nat, fences: seq<Fence>, all: seq<Fence>)
    requires i < |lines| && g.opens(lines[i]) == Opening(fence.blockType, fence.attrs) && fence.at == i
    requires end == i + 1 + BodyHeight(g, lines[i + 1..]) && fence.bodyLines == lines[i + 1..end]
    requires Taken(g, lines, i, fences, all)
    ensures Taken(g, lines, end + 1, fences + [fence], all)
  {
    FencesOpen(g, lines, i, fence.bodyLines, end);
    AppendAssoc(fences, [fence], Fences(g, Behind(lines, end + 1), end + 1));
  }

  method CutFence(g: Grammar, lines: seq<string>, i: nat, ghost fences: seq<Fence>, ghost all: seq<Fence>)
    returns (fence: Fence, end: nat)
    requires i < |lines| && g.opens(lines[i]).Opening? && Taken(g, lines, i, fences, all)
    ensures i < end <= |lines| && Taken(g, lines, end + 1, fences + [fence], all)
  {
    var bodyLines;
    bodyLines, end := CollectBody(g, lines, i + 1);
    fence := Fence(g.opens(lines[i]).blockType, g.opens(lines[i]).attrs, bodyLines, i);
    TakeOne(g, lines, i, fence, end, fences, all);
  }

  method CollectBlocks(g: Grammar, lines: seq<string>) returns (blocks: seq<ParsedBlock>)
    ensures blocks == BlocksFrom(g, Fences(g, lines, 0))
  {
    blocks := [];
    ghost var all, fences := Fences(g, lines, 0), [];
    var i := 0;
    assert Behind(lines, 0) == lines;
    while i < |lines|
      invariant i <= |lines| + 1 && blocks == BlocksFrom(g, fences) && Taken(g, lines, i, fences, all)
    {
      if g.opens(lines[i]).Opening? {
        var fence;
        fence, i := CutFence(g, lines, i, fences, all);
        blocks, fences := blocks + [g.build(fence)], fences + [fence];
      } else {
        TakeNone(g, lines, i, fences, all);
      }
      i := i + 1;
    }
    assert fences + [] == fences;
  }

  method ParseBlocks(json: string -> Option<Value>, markdown: string) returns (blocks: seq<ParsedBlock>)
    ensures blocks == BlocksOf(json, markdown)
  {
    blocks := CollectBlocks(Markdown(json), LinesIn(markdown));
  }
}
