/** Which blocks of a note keep their bytes when they are written, read and written again. */
module Rewriting {
  import opened Text
  import opened Lines
  import opened Blocks
  import opened BlockParser
  import opened BlockSerializer
  import opened BlockScan
  import opened InfoStrings
  import opened FencedText
  import opened DbRoundTrip
  import opened HttpReading
  import opened HttpShape
  import opened HttpRoundTrip
  import opened NoteRoundTrip
  import opened ParsedBlocks

  /** The text is read as one block, and that block's text is `again`. */
  predicate RewritesTo(json: Parser, jsonText: Printer, text: string, again: string) {
    var blocks := BlocksOf(json, text);
    |blocks| == 1 && BlockText(jsonText, blocks[0]) == again
  }

  // ─── A written block read as one fence ────────────────────────────

  lemma StrippedOpen(lines: seq<string>)
    requires forall l | l in lines :: !ClosesFence(l)
    ensures forall l | l in StripCrs(lines) :: !ClosesFence(l)
  {
    forall l | l in StripCrs(lines) ensures !ClosesFence(l) {
      var i :| 0 <= i < |lines| && StripCrs(lines)[i] == l;
      TrimStripCr(lines[i]);
      assert lines[i] in lines;
    }
  }

  /** A body without a closing line is cut out whole, its carriage returns stripped. */
  lemma OwnText(json: Parser, info: string, ticks: string, body: string, blockType: string, attrs: Attributes)
    requires ticks == "```" && OneLine(info) && StripCr(ticks + info) == ticks + info
    requires OpensBlock(ticks + info) == Opening(blockType, attrs)
    requires forall l | l in Split(body, '\n') :: !ClosesFence(l)
    ensures var f := Fence(blockType, attrs, StripCrs(Split(body, '\n')), 0);
            Fences(Markdown(json), LinesIn(Fenced(info, body)), 0) == [f] && BlocksOf(json, Fenced(info, body)) == [BlockFrom(json, f)]
  {
    var g, lines := Markdown(json), StripCrs(Split(body, '\n'));
    var f := Fence(blockType, attrs, lines, 0);
    LinesOfFenced(info, body, ticks);
    TicksClose(ticks);
    StrippedOpen(Split(body, '\n'));
    FenceInFront(g, ticks + info, lines, ticks, [], 0);
    AppendNothing([ticks + info] + lines + [ticks], []);
    AppendNothing([f], []);
    BuiltBlocks(g, [f]);
  }

  lemma FencedSame(info: string, a: string, b: string)
    ensures Fenced(info, a) == Fenced(info, b) <==> a == b
  {
    if Fenced(info, a) == Fenced(info, b) {
      var n := |"```" + info + "\n"|;
      assert a == Fenced(info, a)[n..n + |a|] && b == Fenced(info, b)[n..n + |b|];
    }
  }

  lemma {:induction false} StrippedSame(lines: seq<string>)
    ensures StripCrs(lines) == lines <==> NoCr(lines)
  {
    if NoCr(lines) { StripCrsNone(lines); }
    if StripCrs(lines) == lines {
      forall l | l in lines ensures StripCr(l) == l {
        var i :| 0 <= i < |lines| && lines[i] == l;
        assert StripCrs(lines)[i] == StripCr(lines[i]);
      }
    }
  }

  /** The text as its own lines are read. */
  function Stripped(body: string): string {
    Join(StripCrs(Split(body, '\n')), "\n")
  }

  /** Stripping carriage returns makes a text shorter, unless there are none. */
  lemma StrippedText(body: string)
    ensures var again := Stripped(body);
            |again| <= |body| && (|again| == |body| <==> again == body) && (again == body <==> NoCr(Split(body, '\n')))
  {
    JoinSplit(body, '\n');
    StripCrsShrinks(Split(body, '\n'), "\n");
    StrippedSame(Split(body, '\n'));
  }

  // ─── Database blocks ──────────────────────────────────────────────

  /** What a db block of a note is read back to: the same block with its query stripped. */
  lemma DbReadAgain(json: Parser, b: ParsedBlock, ticks: string)
    requires ticks == "```" && Executable(b.blockType) && IsDbBlock(b.blockType)
    requires var p := ReadDb(b.params);
             && LegacyDbBody(json, Stripped(p.query)).None?
             && Unspaced(b.alias) && Unspaced(b.displayMode) && Unspaced(p.connection) && InRange(p.limit) && InRange(p.timeoutMs)
             && p.connection != Some("") && forall l | l in Split(p.query, '\n') :: !ClosesFence(l)
    ensures var p, blocks := ReadDb(b.params), BlocksOf(json, DbText(b));
            && |blocks| == 1 && blocks[0].blockType == b.blockType
            && blocks[0].alias == NonEmpty(b.alias) && blocks[0].displayMode == NonEmpty(b.displayMode)
            && ReadDb(blocks[0].params) == p.(query := Stripped(p.query))
  {
    var p := ReadDb(b.params);
    var fields := DbInfoFields(b, p);
    var attrs := HeadOfDb(b, ticks);
    var f := Fence(b.blockType, attrs, StripCrs(Split(p.query, '\n')), 0);
    var again := p.(query := Join(f.bodyLines, "\n"));
    OwnText(json, b.blockType + FieldsText(fields), ticks, p.query, b.blockType, attrs);
    DbBuilds(json, f, again);
    ReadWritten(again);
  }

  /** Such a block's second text has the same info string and the stripped query. */
  lemma DbSecondText(b: ParsedBlock, again: ParsedBlock)
    requires var p := ReadDb(b.params);
             && again.blockType == b.blockType && again.alias == NonEmpty(b.alias) && again.displayMode == NonEmpty(b.displayMode)
             && ReadDb(again.params) == p.(query := Stripped(p.query))
    ensures DbText(again) == DbText(b) <==> NoCr(Split(ReadDb(b.params).query, '\n'))
  {
    var p := ReadDb(b.params);
    StrippedText(p.query);
    FencedSame(b.blockType + FieldsText(DbInfoFields(b, p)), p.query, Stripped(p.query));
  }

  lemma ParsedDbShape(json: Parser, f: Fence)
    requires CutOut(f) && IsDbBlock(f.blockType) && LegacyDbBody(json, Join(f.bodyLines, "\n")).None?
    ensures var b := BlockFrom(json, f);
            var p := ReadDb(b.params);
            && b.blockType == f.blockType && Unspaced(b.alias) && Unspaced(b.displayMode) && Unspaced(p.connection)
            && InRange(p.limit) && InRange(p.timeoutMs) && p.connection != Some("") && p.query == Join(f.bodyLines, "\n")
            && forall l | l in Split(p.query, '\n') :: !ClosesFence(l)
  {
    BuiltShape(json, f, BlockFrom(json, f));
    JoinedLines(f.bodyLines);
    EmptyLineOpen("");
  }

  /** MAIN: a db block read from any note keeps its bytes when its text is read and written
      again if, and unless the stripped query is legacy JSON only if, no line of its query
      ends in a carriage return. */
  lemma DbRewriteIff(json: Parser, jsonText: Printer, markdown: string, f: Fence)
    requires f in Fences(Markdown(json), LinesIn(markdown), 0)
    requires IsDbBlock(f.blockType) && LegacyDbBody(json, Join(f.bodyLines, "\n")).None?
    ensures var b := BlockFrom(json, f);
            var text, query := BlockText(jsonText, b), ReadDb(b.params).query;
            && (NoCr(Split(query, '\n')) ==> RewritesTo(json, jsonText, text, text))
            && (LegacyDbBody(json, Stripped(query)).None? ==> (RewritesTo(json, jsonText, text, text) <==> NoCr(Split(query, '\n'))))
  {
    var b := BlockFrom(json, f);
    var p := ReadDb(b.params);
    FencesAreCutOut(json, markdown);
    ParsedDbShape(json, f);
    StrippedText(p.query);
    if LegacyDbBody(json, Stripped(p.query)).None? {
      DbReadAgain(json, b, "```");
      DbSecondText(b, BlocksOf(json, DbText(b))[0]);
    }
  }

  // ─── Query strings ────────────────────────────────────────────────

  /** A query segment that is read as a parameter and printed as it was. */
  predicate PlainSegment(seg: string) {
    seg != "" && seg[0] != '=' && FindChar(seg, '=') != Some(|seg| - 1)
  }

  lemma SegmentReprints(seg: string)
    ensures var r := QuerySegment(seg);
            && (r.Some? ==> |Segment(r.value)| <= |seg|)
            && (r.Some? && |Segment(r.value)| == |seg| <==> PlainSegment(seg))
            && (PlainSegment(seg) ==> Segment(r.value) == seg)
  {
    match FindChar(seg, '=') {
      case None =>
      case Some(k) => assert seg == seg[..k] + "=" + seg[k + 1..];
    }
  }

  predicate PlainSegments(segs: seq<string>) {
    forall s | s in segs :: PlainSegment(s)
  }

  lemma QueryPartsOf(params: seq<Pair>)
    requires params != [] && params[0].key != ""
    ensures QueryParts(params) == [Segment(params[0])] + QueryParts(params[1..])
  {
  }

  /** Reading segments and printing them again shortens the text, unless all are plain. */
  lemma {:induction false} SegmentsReprint(segs: seq<string>)
    ensures var again := QueryParts(QuerySegments(segs));
            && |Join(again, "&")| <= |Join(segs, "&")|
            && (PlainSegments(segs) ==> again == segs)
            && (|Join(again, "&")| == |Join(segs, "&")| ==> PlainSegments(segs) || segs == [""])
  {
    if segs != [] {
      var seg, rest := segs[0], segs[1..];
      var again := QueryParts(QuerySegments(rest));
      SegmentsReprint(rest);
      SegmentReprints(seg);
      assert segs == [seg] + rest;
      if rest != [] { JoinCons(seg, rest, "&"); }
      var r := QuerySegment(seg);
      if r.Some? {
        assert ([r.value] + QuerySegments(rest))[1..] == QuerySegments(rest);
        QueryPartsOf([r.value] + QuerySegments(rest));
        if again != [] { JoinCons(Segment(r.value), again, "&"); }
      }
    }
  }

  /** Every `&`-segment of the written query is plain. */
  predicate PlainQuery(params: seq<Pair>) {
    params != [] ==> PlainSegments(Split(Join(QueryParts(params), "&"), '&'))
  }

  lemma TargetParts(url: string, params: seq<Pair>)
    requires '?' !in url
    ensures var query := Join(QueryParts(params), "&"); Target(url, params) == if query == "" then url else url + ['?'] + query
  {
  }

  lemma TargetSplits(m: string, url: string, query: string)
    requires '?' !in url
    ensures RequestTarget(m, url + ['?'] + query) == Request(m, url, QuerySegments(Split(query, '&')))
  {
    var s := url + ['?'] + query;
    FindCharIs(url, '?', query);
    assert s[..|url|] == url && s[|url| + 1..] == query;
  }

  /** A written request target is printed as it was exactly when its query is plain. */
  lemma TargetReprints(m: string, url: string, params: seq<Pair>)
    requires '?' !in url && forall p | p in params :: ReadParam(p)
    ensures var r := RequestTarget(m, Target(url, params)); Target(r.url, r.params) == Target(url, params) <==> PlainQuery(params)
  {
    var query := Join(QueryParts(params), "&");
    TargetParts(url, params);
    if params != [] {
      var segs := Split(query, '&');
      assert params[0] in params;
      QueryPartsOf(params);
      JoinNotEmpty(QueryParts(params), "&");
      JoinSplit(query, '&');
      TargetSplits(m, url, query);
      TargetParts(url, QuerySegments(segs));
      SegmentsReprint(segs);
    }
  }

  // ─── Bodies ───────────────────────────────────────────────────────

  /** The body that is read of a written body. */
  function BodyAgain(body: string): string {
    Join(DropTrailingEmpty(StripCrs(Split(body, '\n'))), "\n")
  }

  lemma {:induction false} DroppedIsShorter(lines: seq<string>)
    ensures |Join(DropTrailingEmpty(lines), "\n")| <= |Join(lines, "\n")|
  {
    var k := |DropTrailingEmpty(lines)|;
    DroppedShape(lines);
    if 0 < k < |lines| {
      PrefixIsShorter(lines, k, "\n");
    } else if k == |lines| {
      assert lines[..k] == lines;
    }
  }

  lemma LastLineKept(body: string)
    requires body != "" && body[|body| - 1] != '\n'
    ensures DropTrailingEmpty(Split(body, '\n')) == Split(body, '\n')
  {
    if Split(body, '\n')[|Split(body, '\n')| - 1] == "" { EndsWithEmpty(body); }
  }

  /** A body without a trailing line feed is printed shorter, unless no line ends in a
      carriage return. */
  lemma BodyReprints(body: string)
    requires body != "" ==> body[|body| - 1] != '\n'
    ensures |BodyText(BodyAgain(body))| <= |BodyText(body)|
    ensures BodyText(BodyAgain(body)) == BodyText(body) <==> NoCr(Split(body, '\n'))
  {
    var parts := Split(body, '\n');
    WholeBodyReads(body);
    StrippedText(body);
    StrippedSame(parts);
    DroppedIsShorter(StripCrs(parts));
    TrimmedEndShape(BodyAgain(body));
    if body == "" {
      EmptyLineOpen(body);
    } else {
      LastLineKept(body);
      JoinSplit(body, '\n');
    }
  }

  // ─── HTTP blocks ──────────────────────────────────────────────────

  /** The message that is read of a message's own text. */
  function MessageAgain(p: HttpParams): HttpParams {
    var target := Trim(Target(p.url, p.params));
    if target == "" then EmptyGet()
    else
      var r := RequestTarget(p.verb, target);
      HttpParams(p.verb, r.url, r.params, p.headers, BodyAgain(p.body), None)
  }

  /** The parts of a message that was read from a note. */
  predicate ReadMessage(p: HttpParams) {
    && Writable(p) && '?' !in p.url && ShapedParams(p.params) && p.timeoutMs.None?
    && (p.body != "" ==> p.body[|p.body| - 1] != '\n')
    && forall l | l in Split(p.body, '\n') :: !ClosesFence(l)
  }

  /** Exactly the messages that are printed twice as the same text: the target is trimmed,
      not empty, and its query plain, and no body line ends in a carriage return; or it is
      the bare GET. */
  predicate KeepsBytes(p: HttpParams) {
    || (&& Target(p.url, p.params) != "" && Trimmed(Target(p.url, p.params)) && PlainQuery(p.params)
        && NoCr(Split(p.body, '\n')))
    || p == EmptyGet()
  }

  lemma TextParts(before: string, t: string, headers: string, body: string, t2: string, body2: string)
    requires |t2| <= |t| && |body2| <= |body|
    ensures before + t2 + headers + body2 == before + t + headers + body <==> t2 == t && body2 == body
  {
    var a, b := before + t2 + headers + body2, before + t + headers + body;
    if a == b {
      assert |a| == |before| + |t2| + |headers| + |body2| && |b| == |before| + |t| + |headers| + |body|;
      assert t2 == a[|before|..|before| + |t2|] && t == b[|before|..|before| + |t|];
      assert body2 == a[|a| - |body2|..] && body == b[|b| - |body|..];
    }
  }

  lemma TrimmedShorter(target: string)
    ensures |Trim(target)| <= |target| && (Trim(target) == target <==> Trimmed(target))
    ensures |Trim(target)| == |target| ==> Trim(target) == target
  {
    var before, after := TrimCuts(target);
    if Trimmed(target) { TrimTrimmed(target); }
  }

  lemma TargetKept(m: string, url: string, params: seq<Pair>)
    requires '?' !in url && ShapedParams(params) && Trim(Target(url, params)) != ""
    ensures var target := Target(url, params);
            var r := RequestTarget(m, Trim(target));
            && |Target(r.url, r.params)| <= |target|
            && (Target(r.url, r.params) == target <==> Trimmed(target) && PlainQuery(params))
  {
    var target := Target(url, params);
    TrimmedShorter(target);
    TargetShape(m, Trim(target));
    TargetReprints(m, url, params);
  }

  lemma {:induction false} NoHeaderText(headers: seq<Pair>)
    requires CleanHeaders(headers)
    ensures HeaderText(headers) == "" <==> headers == []
  {
    if headers != [] { assert headers[0] in headers; }
  }

  /** What a message's text says behind its method. */
  function BehindMethod(p: HttpParams): string {
    Target(p.url, p.params) + HeaderText(p.headers) + BodyText(p.body)
  }

  lemma MethodFirst(p: HttpParams)
    ensures HttpMessageText(p) == p.verb + " " + BehindMethod(p)
  {
    AppendAssoc3(p.verb + " ", Target(p.url, p.params), HeaderText(p.headers), BodyText(p.body));
  }

  lemma NoTarget(url: string, params: seq<Pair>)
    requires '?' !in url && ShapedParams(params)
    ensures Target(url, params) == "" <==> url == "" && params == []
  {
    TargetParts(url, params);
    if params != [] {
      assert params[0] in params;
      QueryPartsOf(params);
      JoinNotEmpty(QueryParts(params), "&");
    }
  }

  lemma NothingBehind(p: HttpParams)
    requires ReadMessage(p)
    ensures BehindMethod(p) == "" <==> p == HttpParams(p.verb, "", [], [], "", None)
  {
    NoTarget(p.url, p.params);
    NoHeaderText(p.headers);
    WholeBodyReads(p.body);
  }

  lemma BareGet(get: string, p: HttpParams)
    requires get == "GET" && ReadMessage(p)
    ensures HttpMessageText(p) == get + " " <==> p == EmptyGet()
  {
    MethodFirst(p);
    NothingBehind(p);
    FirstWordSame(p.verb, BehindMethod(p), get);
  }

  lemma FirstWordSame(m: string, rest: string, get: string)
    requires KnownMethod(m) && get == "GET"
    ensures m + " " + rest == get + " " <==> m == get && rest == ""
  {
    if m + " " + rest == get + " " {
      assert |m| + 1 + |rest| == 4;
      assert (m + " " + rest)[..|m|] == m;
    }
  }

  lemma MessageReprints(p: HttpParams)
    requires ReadMessage(p)
    ensures HttpMessageText(MessageAgain(p)) == HttpMessageText(p) <==> KeepsBytes(p)
  {
    var target := Target(p.url, p.params);
    TrimmedShorter(target);
    if Trim(target) == "" {
      var get := "GET";
      BareGet(get, p);
      EmptyGetText(get, "");
    } else {
      var again := MessageAgain(p);
      TargetKept(p.verb, p.url, p.params);
      BodyReprints(p.body);
      TextParts(p.verb + " ", target, HeaderText(p.headers), BodyText(p.body), Target(again.url, again.params), BodyText(again.body));
    }
  }

  lemma PlainTextIsNotLegacy(json: Parser, text: string)
    requires text != "" && !IsWhitespace(text[0]) && text[0] != '{'
    ensures LegacyHttpBody(json, text).None?
  {
  }

  lemma JoinedFirst(lines: seq<string>, sep: string)
    requires lines != [] && lines[0] != ""
    ensures Join(lines, sep) != "" && Join(lines, sep)[0] == lines[0][0]
  {
  }

  /** The message's own lines, stripped, are read as `MessageAgain`. */
  lemma StrippedMessageReads(p: HttpParams, attrs: Attributes)
    requires ReadMessage(p) && "timeout" !in attrs
    ensures HttpMessage(Join(StripCrs(MessageLines(p)), "\n"), attrs) == MessageAgain(p)
  {
    var s, target, body := StripCrs(MessageLines(p)), Target(p.url, p.params), TrimEndNewlines(p.body);
    var tail := if body == "" then [] else [""] + StripCrs(Split(body, '\n'));
    WholeBodyReads(p.body);
    StrippedMessage(p);
    MessageIsLines(p);
    StrippedLines(MessageLines(p));
    forall l | l in s ensures '\n' !in l {}
    SplitJoin(s, '\n');
    TrimEmpty(tail);
    TrimStripCr(target);
    MessageReads(Join(s, "\n"), p.verb, StripCr(target), p.headers, tail, attrs);
    if body == "" { EmptyLineOpen(p.body); } else { assert BehindBlank(tail) == StripCrs(Split(p.body, '\n')); }
  }

  lemma MessageLinesOpen(p: HttpParams)
    requires ReadMessage(p)
    ensures forall l | l in MessageLines(p) :: !ClosesFence(l)
  {
    WholeBodyReads(p.body);
    RequestLineOpen(p.verb, Target(p.url, p.params));
    RowsKept(p.headers);
    EmptyLineOpen("");
  }

  lemma StrippedMessageIsNotLegacy(json: Parser, p: HttpParams)
    requires ReadMessage(p)
    ensures LegacyHttpBody(json, Join(StripCrs(MessageLines(p)), "\n")).None?
  {
    MethodIsWord(p.verb);
    StrippedMessage(p);
    JoinedFirst(StripCrs(MessageLines(p)), "\n");
    PlainTextIsNotLegacy(json, Join(StripCrs(MessageLines(p)), "\n"));
  }

  /** What an http block of a note is read back to. */
  lemma HttpReadAgain(json: Parser, b: ParsedBlock, ticks: string)
    requires ticks == "```" && b.blockType == "http" && Unspaced(b.alias) && Unspaced(b.displayMode) && ReadMessage(ReadHttp(b.params))
    ensures var blocks := BlocksOf(json, HttpText(b));
            && |blocks| == 1 && blocks[0].blockType == b.blockType
            && blocks[0].alias == NonEmpty(b.alias) && blocks[0].displayMode == NonEmpty(b.displayMode)
            && ReadHttp(blocks[0].params) == MessageAgain(ReadHttp(b.params))
  {
    var p := ReadHttp(b.params);
    var body := StripCrs(MessageLines(p));
    var attrs := HeadOfHttp(b, ticks);
    MessageIsLines(p);
    MessageLinesOpen(p);
    OwnText(json, b.blockType + FieldsText(HttpInfoFields(b)), ticks, HttpMessageText(p), b.blockType, attrs);
    StrippedMessageIsNotLegacy(json, p);
    HttpBuilds(json, Fence(b.blockType, attrs, body, 0), Join(body, "\n"));
    StrippedMessageReads(p, attrs);
    MessageShape(Join(body, "\n"), attrs);
    HttpReadWritten(MessageAgain(p));
  }

  lemma ParsedMessage(json: Parser, f: Fence)
    requires CutOut(f) && f.blockType == "http" && LegacyHttpBody(json, Join(f.bodyLines, "\n")).None?
    ensures ReadMessage(ReadHttp(BlockFrom(json, f).params))
  {
    var body := Join(f.bodyLines, "\n");
    var q := HttpMessage(body, f.attrs);
    ParsedParams(json, f);
    MessageShape(body, f.attrs);
    HttpReadWritten(q);
    TargetOneLine(q.url, q.params);
    JoinedLines(f.bodyLines);
    EmptyLineOpen("");
    var kept := MessageBody(body, f.attrs);
    JoinedLines(kept);
  }

  /** MAIN: an http block read from any note, its body not legacy JSON, keeps its bytes when
      its text is read and written again if and only if its request target is trimmed, not
      empty and has a plain query, and no body line ends in a carriage return; or when it
      is the bare GET. */
  lemma HttpRewriteIff(json: Parser, jsonText: Printer, markdown: string, f: Fence)
    requires f in Fences(Markdown(json), LinesIn(markdown), 0)
    requires f.blockType == "http" && LegacyHttpBody(json, Join(f.bodyLines, "\n")).None?
    ensures var b := BlockFrom(json, f);
            var text := BlockText(jsonText, b);
            RewritesTo(json, jsonText, text, text) <==> KeepsBytes(ReadHttp(b.params))
  {
    var b := BlockFrom(json, f);
    var p := ReadHttp(b.params);
    FencesAreCutOut(json, markdown);
    BuiltAttributes(json, f, b);
    ParsedMessage(json, f);
    HttpReadAgain(json, b, "```");
    MessageReprints(p);
    HttpIsNotDb(f.blockType);
    FencedSame(b.blockType + FieldsText(HttpInfoFields(b)), HttpMessageText(p), HttpMessageText(MessageAgain(p)));
  }

  lemma HttpIsNotDb(blockType: string)
    requires blockType == "http"
    ensures !IsDbBlock(blockType)
  {
    assert blockType[0] == 'h' && blockType[..3][0] == 'h';
  }

  /** A canonical block keeps its bytes, wherever it comes from. */
  lemma CanonicalKeepsBytes(json: Parser, jsonText: Printer, b: ParsedBlock)
    requires CanonicalBlock(json, b)
    ensures var text := BlockText(jsonText, b); RewritesTo(json, jsonText, text, text)
  {
    if IsDbBlock(b.blockType) { CanonicalDbRoundTrips(json, b); } else { CanonicalHttpRoundTrips(json, b); }
  }

  // ─── Notes whose text changes twice ───────────────────────────────

  lemma PlainHead(kind: string, ticks: string)
    requires ticks == "```" && Executable(kind)
    ensures OneLine(kind) && StripCr(ticks + kind) == ticks + kind && OpensBlock(ticks + kind) == Opening(kind, map[])
  {
    HeadOpens(ticks, kind, []);
    assert kind + FieldsText([]) == kind;
    ExecutableIsWord(kind);
    NoWhitespaceOneLine(kind);
  }

  lemma {:induction false} NoFields(kind: string, fields: seq<Field>)
    requires forall f | f in fields :: f.value.None?
    ensures kind + FieldsText(fields) == kind
  {
    if fields != [] {
      NoFields(kind, fields[..|fields| - 1]);
      assert fields[|fields| - 1] in fields;
    }
  }

  /** Lines that keep their ends and do not close are read as they are. */
  lemma PlainBlock(json: Parser, kind: string, ticks: string, body: string)
    requires Executable(kind) && ticks == "```" && (forall l | l in Split(body, '\n') :: !ClosesFence(l)) && NoCr(Split(body, '\n'))
    ensures BlocksOf(json, Fenced(kind, body)) == [BlockFrom(json, Fence(kind, map[], Split(body, '\n'), 0))]
  {
    PlainHead(kind, ticks);
    OwnText(json, kind, ticks, body, kind, map[]);
    StripCrsNone(Split(body, '\n'));
  }

  lemma PlainHttpText(json: Parser, jsonText: Printer, kind: string, f: Fence, p: HttpParams)
    requires kind == "http" && f.blockType == kind && f.attrs == map[] && KnownMethod(p.verb)
    requires LegacyHttpBody(json, Join(f.bodyLines, "\n")).None? && HttpMessage(Join(f.bodyLines, "\n"), map[]) == p
    ensures BlockText(jsonText, BlockFrom(json, f)) == Fenced(kind, HttpMessageText(p))
  {
    HttpBuilds(json, f, Join(f.bodyLines, "\n"));
    HttpReadWritten(p);
    NoFields(kind, HttpInfoFields(BlockFrom(json, f)));
    HttpIsNotDb(kind);
  }

  /** An http block without attributes is written as the message that is read of its lines. */
  lemma MessageRewrites(json: Parser, jsonText: Printer, kind: string, ticks: string, message: string, p: HttpParams)
    requires kind == "http" && ticks == "```" && (forall l | l in Split(message, '\n') :: !ClosesFence(l)) && NoCr(Split(message, '\n'))
    requires LegacyHttpBody(json, message).None? && HttpMessage(message, map[]) == p && KnownMethod(p.verb)
    ensures RewritesTo(json, jsonText, Fenced(kind, message), Fenced(kind, HttpMessageText(p)))
  {
    PlainBlock(json, kind, ticks, message);
    JoinSplit(message, '\n');
    PlainHttpText(json, jsonText, kind, Fence(kind, map[], Split(message, '\n'), 0), p);
  }

  /** A request line alone is one line of a block. */
  lemma RequestIsLine(json: Parser, m: string, target: string)
    requires KnownMethod(m) && OneLine(target)
    ensures var first := m + " " + target;
            Split(first, '\n') == [first] && !ClosesFence(first) && LegacyHttpBody(json, first).None?
  {
    var first := m + " " + target;
    MethodIsWord(m);
    NoWhitespaceOneLine(m);
    SplitWhole(first, '\n');
    RequestLineOpen(m, target);
    PlainTextIsNotLegacy(json, first);
  }

  lemma RequestReads(m: string, target: string, first: string)
    requires KnownMethod(m) && first == m + " " + target && Split(first, '\n') == [first]
    ensures HttpMessage(first, map[]) ==
            if Trim(target) == "" then EmptyGet()
            else
              var r := RequestTarget(m, Trim(target));
              HttpParams(m, r.url, r.params, [], "", None)
  {
    assert [first] + HeaderRows([]) + [] == [first];
    MessageReads(first, m, target, [], [], map[]);
  }

  lemma BareMessage(p: HttpParams)
    requires p.headers == [] && p.body == ""
    ensures HttpMessageText(p) == p.verb + " " + Target(p.url, p.params)
  {
  }

  /** A request line alone: its target is trimmed, taken apart and put together again. */
  lemma RequestRewrites(json: Parser, jsonText: Printer, kind: string, m: string, target: string, url: string, params: seq<Pair>)
    requires kind == "http" && KnownMethod(m) && OneLine(target) && StripCr(m + " " + target) == m + " " + target
    requires Trim(target) != "" && RequestTarget(m, Trim(target)) == Request(m, url, params)
    ensures RewritesTo(json, jsonText, Fenced(kind, m + " " + target), Fenced(kind, m + " " + Target(url, params)))
  {
    var first, p := m + " " + target, HttpParams(m, url, params, [], "", None);
    RequestIsLine(json, m, target);
    RequestReads(m, target, first);
    BareMessage(p);
    MessageRewrites(json, jsonText, kind, "```", first, p);
  }

  /** Without a target it is the empty GET that is written. */
  lemma BlankRewrites(json: Parser, jsonText: Printer, kind: string, m: string, target: string, get: string)
    requires kind == "http" && KnownMethod(m) && target == "" && get == "GET"
    ensures RewritesTo(json, jsonText, Fenced(kind, m + " " + target), Fenced(kind, get + " " + target))
  {
    var first := m + " " + target;
    RequestIsLine(json, m, target);
    TrimTrimmed(target);
    RequestReads(m, target, first);
    EmptyGetText(get, target);
    MessageRewrites(json, jsonText, kind, "```", first, EmptyGet());
  }

  lemma EmptyGetText(get: string, none: string)
    requires get == "GET" && none == ""
    ensures HttpMessageText(EmptyGet()) == get + " " + none
  {
    BareMessage(EmptyGet());
  }

  /** The same for a trimmed target that comes out as another one. */
  lemma TargetRewrites(json: Parser, jsonText: Printer, kind: string, m: string, target: string, url: string, params: seq<Pair>)
    requires kind == "http" && KnownMethod(m) && OneLine(target) && Trim(target) == target && target != ""
    requires RequestTarget(m, target) == Request(m, url, params)
    ensures RewritesTo(json, jsonText, Fenced(kind, m + " " + target), Fenced(kind, m + " " + Target(url, params)))
  {
    var before, after := TrimCuts(target);
    RequestRewrites(json, jsonText, kind, m, target, url, params);
  }

  lemma BareTarget(m: string, x: string)
    requires '?' !in x
    ensures RequestTarget(m, x) == Request(m, x, []) && Target(x, []) == x
  {
  }

  lemma NoSegments(query: string)
    requires query == ""
    ensures QuerySegments(Split(query, '&')) == []
  {
    assert Split(query, '&') == [""] && QuerySegments([""][1..]) == [];
  }

  /** A question mark behind an address is no part of it. */
  lemma MarkedTarget(m: string, url: string, mark: string)
    requires mark == "?" && '?' !in url
    ensures RequestTarget(m, url + mark) == Request(m, url, []) && Target(url, []) == url
  {
    var none := "";
    NoSegments(none);
    TargetSplits(m, url, none);
    assert url + mark == url + ['?'] + none;
  }

  /** A request without a target is written, and then read as the empty GET. */
  lemma EmptyTargetIsNotKept(json: Parser, jsonText: Printer, kind: string, m: string, mark: string, none: string, get: string)
    requires kind == "http" && mark == "?" && none == "" && get == "GET" && KnownMethod(m) && m != get
    ensures RewritesTo(json, jsonText, Fenced(kind, m + " " + mark), Fenced(kind, m + " " + none))
    ensures RewritesTo(json, jsonText, Fenced(kind, m + " " + none), Fenced(kind, get + " " + none))
    ensures Fenced(kind, m + " " + none) != Fenced(kind, get + " " + none)
  {
    TrimTrimmed(mark);
    MarkedTarget(m, none, mark);
    assert none + mark == mark;
    TargetRewrites(json, jsonText, kind, m, mark, none, []);
    BlankRewrites(json, jsonText, kind, m, none, get);
    FirstWordSame(m, none, get);
    assert get + " " + none == get + " ";
    FencedSame(kind, m + " " + none, get + " " + none);
  }

  /** An address with a blank behind it is read trimmed. */
  lemma BlankIsLost(json: Parser, jsonText: Printer, kind: string, m: string, x: string, blank: string)
    requires kind == "http" && KnownMethod(m) && Word(x) && '?' !in x && blank == " "
    ensures RewritesTo(json, jsonText, Fenced(kind, m + " " + (x + blank)), Fenced(kind, m + " " + x))
  {
    NoWhitespaceOneLine(x);
    TrimTail(x, blank);
    BareTarget(m, x);
    RequestRewrites(json, jsonText, kind, m, x + blank, x, []);
  }

  /** A blank in front of an empty query is written, and lost the next time. */
  lemma BlankInTargetIsNotKept(json: Parser, jsonText: Printer, kind: string, m: string, x: string, blank: string, mark: string)
    requires kind == "http" && blank == " " && mark == "?" && KnownMethod(m) && Word(x) && '?' !in x
    ensures RewritesTo(json, jsonText, Fenced(kind, m + " " + (x + blank + mark)), Fenced(kind, m + " " + (x + blank)))
    ensures RewritesTo(json, jsonText, Fenced(kind, m + " " + (x + blank)), Fenced(kind, m + " " + x))
    ensures Fenced(kind, m + " " + (x + blank)) != Fenced(kind, m + " " + x)
  {
    NoWhitespaceOneLine(x);
    TrimTrimmed(x + blank + mark);
    MarkedTarget(m, x + blank, mark);
    TargetRewrites(json, jsonText, kind, m, x + blank + mark, x + blank, []);
    BlankIsLost(json, jsonText, kind, m, x, blank);
    FencedSame(kind, m + " " + (x + blank), m + " " + x);
  }

  lemma RowIsLine(k: string, row: string, seg: string)
    requires Word(k) && row == "&" + seg && seg == k + "=&"
    ensures row != "" && row[0] == '&' && Trim(row) == row && OneLine(row) && !ClosesFence(row) && StripCr(row) == row
  {
    NoWhitespaceOneLine(k);
    TrimTrimmed(row);
  }

  lemma RowIsSegment(k: string, row: string, value: string)
    requires k != "" && '=' !in k && row == "&" + (k + "=" + value)
    ensures HeadLine(row, [], []) == ([Pair(k, value)], [])
  {
    var seg := k + ['='] + value;
    FindCharIs(k, '=', value);
    assert row[1..] == seg && seg[..|k|] == k && seg[|k| + 1..] == value;
    assert [] + [Pair(k, value)] == [Pair(k, value)];
  }

  lemma OneRowHead(row: string, p: Pair)
    requires row != "" && Trim(row) == row && HeadLine(row, [], []) == ([p], [])
    ensures HeadOf([row], [], []) == Head([p], [], [])
  {
    assert [row][1..] == [];
  }

  lemma TwoLines(first: string, row: string, p: Pair, m: string, x: string)
    requires FirstLine(Trim(first)) == Some(Request(m, x, [])) && Trim(first) != "" && Trim(first)[0] != '#'
    requires HeadOf([row], [], []) == Head([p], [], [])
    ensures MessageFrom(SkipNotes([first, row]), map[]) == HttpParams(m, x, [p], [], "", None)
  {
    NotesEnd([first, row]);
    assert [first, row][1..] == [row];
  }

  lemma RequestFirst(m: string, x: string)
    requires KnownMethod(m) && Word(x) && '?' !in x
    ensures var first := m + " " + x;
            && FirstLine(Trim(first)) == Some(Request(m, x, [])) && Trim(first) != "" && Trim(first)[0] != '#'
            && OneLine(first) && !ClosesFence(first) && StripCr(first) == first
            && first != "" && !IsWhitespace(first[0]) && first[0] != '{'
  {
    MethodIsWord(m);
    NoWhitespaceOneLine(m);
    NoWhitespaceOneLine(x);
    RequestLineReads(m, x);
    RequestLineOpen(m, x);
    TrimTrimmed(x);
    BareTarget(m, x);
  }

  lemma OneParam(x: string, p: Pair)
    requires '?' !in x && p.key != ""
    ensures QueryParts([p]) == [Segment(p)] && Target(x, [p]) == x + ['?'] + Segment(p)
  {
    QueryPartsOf([p]);
    assert [p][1..] == [] && [Segment(p)] + [] == [Segment(p)];
    TargetParts(x, [p]);
  }

  /** The value's `&` ends the segment when the target is read again. */
  lemma AmpersandSplits(k: string, amp: string)
    requires k != "" && '=' !in k && '&' !in k && amp == "&"
    ensures QuerySegments(Split(k + "=" + amp, '&')) == [Pair(k, "")]
  {
    var query, seg := k + "=" + amp, k + "=";
    SplitPrefix(seg, '&', "");
    assert query == seg + ['&'] + "";
    FindCharIs(k, '=', "");
    assert k + ['='] + "" == seg && seg[..|k|] == k && seg[|k| + 1..] == "";
    assert [seg, ""][1..] == [""] && [""][1..] == [];
  }

  lemma AmpersandTarget(m: string, x: string, k: string, amp: string)
    requires '?' !in x && k != "" && '=' !in k && '&' !in k && amp == "&"
    ensures Target(x, [Pair(k, amp)]) == x + ['?'] + (k + "=" + amp) && Target(x, [Pair(k, "")]) == x + ['?'] + k
    ensures RequestTarget(m, x + ['?'] + (k + "=" + amp)) == Request(m, x, [Pair(k, "")])
  {
    OneParam(x, Pair(k, amp));
    OneParam(x, Pair(k, ""));
    AmpersandSplits(k, amp);
    TargetSplits(m, x, k + "=" + amp);
  }

  lemma TwoLinesSplit(first: string, row: string)
    requires OneLine(first) && OneLine(row)
    ensures Split(first + "\n" + row, '\n') == [first, row]
  {
    SplitPrefix(first, '\n', row);
    SplitWhole(row, '\n');
    assert first + ['\n'] + row == first + "\n" + row;
  }

  lemma TwoLinesRewrite(json: Parser, jsonText: Printer, kind: string, first: string, row: string, p: HttpParams)
    requires kind == "http" && OneLine(first) && OneLine(row) && !ClosesFence(first) && !ClosesFence(row)
    requires StripCr(first) == first && StripCr(row) == row && first != "" && !IsWhitespace(first[0]) && first[0] != '{'
    requires MessageFrom(SkipNotes([first, row]), map[]) == p && KnownMethod(p.verb)
    ensures RewritesTo(json, jsonText, Fenced(kind, first + "\n" + row), Fenced(kind, HttpMessageText(p)))
  {
    TwoLinesSplit(first, row);
    PlainTextIsNotLegacy(json, first + "\n" + row);
    MessageRewrites(json, jsonText, kind, "```", first + "\n" + row, p);
  }

  /** A request line and a continuation line, written as one target. */
  lemma AmpersandIsRead(json: Parser, jsonText: Printer, kind: string, m: string, x: string, k: string, amp: string, row: string)
    requires kind == "http" && KnownMethod(m) && Word(x) && '?' !in x && Word(k) && '=' !in k && amp == "&" && row == "&" + (k + "=" + amp)
    ensures RewritesTo(json, jsonText, Fenced(kind, m + " " + x + "\n" + row), Fenced(kind, m + " " + Target(x, [Pair(k, amp)])))
  {
    var first, p := m + " " + x, Pair(k, amp);
    RequestFirst(m, x);
    RowIsLine(k, row, k + "=" + amp);
    RowIsSegment(k, row, amp);
    OneRowHead(row, p);
    TwoLines(first, row, p, m, x);
    TwoLinesRewrite(json, jsonText, kind, first, row, HttpParams(m, x, [p], [], "", None));
    BareMessage(HttpParams(m, x, [p], [], "", None));
  }

  lemma QueryTargetIsLine(x: string, query: string)
    requires Word(x) && OneLine(query) && query != "" && query[|query| - 1] == '&'
    ensures var target := x + ['?'] + query; OneLine(target) && Trim(target) == target && target != ""
  {
    NoWhitespaceOneLine(x);
    TrimTrimmed(x + ['?'] + query);
  }

  lemma AmpersandIsLost(json: Parser, jsonText: Printer, kind: string, m: string, x: string, k: string, amp: string, query: string)
    requires kind == "http" && KnownMethod(m) && Word(x) && '?' !in x && Word(k) && '=' !in k && '&' !in k && amp == "&"
    requires query == k + "=" + amp
    ensures RewritesTo(json, jsonText, Fenced(kind, m + " " + (x + ['?'] + query)), Fenced(kind, m + " " + (x + ['?'] + k)))
  {
    AmpersandTarget(m, x, k, amp);
    NoWhitespaceOneLine(k);
    QueryTargetIsLine(x, query);
    TargetRewrites(json, jsonText, kind, m, x + ['?'] + query, x, [Pair(k, "")]);
  }

  /** An `&` that came in on a continuation line is written, and lost the next time. */
  lemma AmpersandIsNotKept(json: Parser, jsonText: Printer, kind: string, m: string, x: string, k: string, amp: string, query: string)
    requires kind == "http" && KnownMethod(m) && Word(x) && '?' !in x && Word(k) && '=' !in k && '&' !in k && amp == "&"
    requires query == k + "=" + amp
    ensures RewritesTo(json, jsonText, Fenced(kind, m + " " + x + "\n" + ("&" + query)), Fenced(kind, m + " " + (x + ['?'] + query)))
    ensures RewritesTo(json, jsonText, Fenced(kind, m + " " + (x + ['?'] + query)), Fenced(kind, m + " " + (x + ['?'] + k)))
    ensures Fenced(kind, m + " " + (x + ['?'] + query)) != Fenced(kind, m + " " + (x + ['?'] + k))
  {
    AmpersandTarget(m, x, k, amp);
    AmpersandIsRead(json, jsonText, kind, m, x, k, amp, "&" + query);
    AmpersandIsLost(json, jsonText, kind, m, x, k, amp, query);
    FencedSame(kind, m + " " + (x + ['?'] + query), m + " " + (x + ['?'] + k));
  }

  // ─── The same for queries ─────────────────────────────────────────

  lemma QueryRewrites(json: Parser, jsonText: Printer, kind: string, ticks: string, query: string)
    requires IsDbBlock(kind) && Executable(kind) && ticks == "```" && OneLine(query) && !ClosesFence(query)
    requires LegacyDbBody(json, StripCr(query)).None?
    ensures RewritesTo(json, jsonText, Fenced(kind, query), Fenced(kind, StripCr(query)))
  {
    var f, p := Fence(kind, map[], [StripCr(query)], 0), DbParams(StripCr(query), None, None, None);
    PlainHead(kind, ticks);
    SplitWhole(query, '\n');
    OwnText(json, kind, ticks, query, kind, map[]);
    assert StripCrs([query]) == [StripCr(query)];
    DbBuilds(json, f, p);
    ReadWritten(p);
    NoFields(kind, DbInfoFields(BlockFrom(json, f), p));
  }

  /** A second carriage return at the end of a query is written, and lost the next time. */
  lemma CarriageReturnIsNotKept(json: Parser, jsonText: Printer, kind: string, query: string, cr: string)
    requires IsDbBlock(kind) && Executable(kind) && Word(query) && query[0] != '{' && query[0] != '`' && cr == "\r"
    ensures RewritesTo(json, jsonText, Fenced(kind, query + cr + cr), Fenced(kind, query + cr))
    ensures RewritesTo(json, jsonText, Fenced(kind, query + cr), Fenced(kind, query))
    ensures Fenced(kind, query + cr) != Fenced(kind, query)
  {
    NoWhitespaceOneLine(query);
    TrimTail(query, cr);
    TrimTail(query, cr + cr);
    AppendAssoc(query, cr, cr);
    QueryRewrites(json, jsonText, kind, "```", query + cr + cr);
    QueryRewrites(json, jsonText, kind, "```", query + cr);
    FencedSame(kind, query + cr, query);
  }
}
