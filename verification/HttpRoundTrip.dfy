/** HTTP blocks survive being written and read back exactly when they are canonical. */
module HttpRoundTrip {
  import opened Text
  import opened Lines
  import opened Json
  import opened Blocks
  import opened BlockParser
  import opened BlockSerializer
  import opened BlockScan
  import opened InfoStrings
  import opened FencedText
  import opened HttpReading
  import opened HttpShape

  // ─── The canonical form ───────────────────────────────────────────

  /** The request target, as one trimmed line, comes apart into the same pieces. */
  predicate CleanTarget(url: string, params: seq<Pair>) {
    && '?' !in url && CleanParams(params)
    && OneLine(Target(url, params)) && Trimmed(Target(url, params)) && Target(url, params) != ""
  }

  predicate CleanBody(body: string) {
    CleanLines(Split(body, '\n')) && (body != "" ==> body[|body| - 1] != '\n')
  }

  predicate CleanMessage(p: HttpParams) {
    KnownMethod(p.verb) && CleanTarget(p.url, p.params) && CleanHeaders(p.headers) && CleanBody(p.body)
  }

  /** What the parser makes of a message without a readable request line. */
  function EmptyGet(): HttpParams {
    HttpParams("GET", "", [], [], "", None)
  }

  /** Attributes that survive the info string, exactly the parser's keys without
      `timeout_ms`, and a message whose parts come apart again. */
  predicate CanonicalHttp(b: ParsedBlock) {
    var p := ReadHttp(b.params);
    && b.blockType == "http" && WordIfAny(b.alias) && WordIfAny(b.displayMode)
    && b.params == p.ToValue() && (CleanMessage(p) || p == EmptyGet())
  }

  // ─── The parameters ───────────────────────────────────────────────

  lemma {:induction false} PairsRead(pairs: seq<Pair>)
    ensures ReadPairs(PairValues(pairs)) == pairs
  {
    if pairs != [] {
      PairsRead(pairs[1..]);
      PairReads(pairs[0]);
      assert pairs == [pairs[0]] + pairs[1..];
      assert PairValues(pairs)[1..] == PairValues(pairs[1..]);
    }
  }

  lemma PairReads(p: Pair)
    ensures StrField(p.ToValue(), "key") == p.key && StrField(p.ToValue(), "value") == p.value
  {
  }

  /** What the parser builds, the serializer reads, but for the timeout. */
  lemma HttpReadWritten(p: HttpParams)
    requires KnownMethod(p.verb)
    ensures ReadHttp(p.ToValue()) == p.(timeoutMs := None)
  {
    PairsRead(p.params);
    PairsRead(p.headers);
    MethodIsWord(p.verb);
    var v := p.ToValue();
    assert v.Get("url") == Some(Str(p.url)) && v.Get("body") == Some(Str(p.body)) && v.Get("method") == Some(Str(p.verb));
    assert v.Get("params") == Some(Array(PairValues(p.params))) && v.Get("headers") == Some(Array(PairValues(p.headers)));
  }

  // ─── The info string ──────────────────────────────────────────────

  /** What the head line of a block with one-word attributes is read back to. */
  lemma HeadOfHttp(b: ParsedBlock, ticks: string) returns (attrs: Attributes)
    requires ticks == "```" && b.blockType == "http" && Unspaced(b.alias) && Unspaced(b.displayMode)
    ensures var info := b.blockType + FieldsText(HttpInfoFields(b));
            && OneLine(info) && OneLine(ticks + info) && StripCr(ticks + info) == ticks + info
            && OpensBlock(ticks + info) == Opening(b.blockType, attrs)
            && Lookup(attrs, "alias") == NonEmpty(b.alias) && Lookup(attrs, "displayMode") == NonEmpty(b.displayMode)
            && "display" !in attrs && "timeout" !in attrs
  {
    var fields := HttpInfoFields(b);
    attrs := AttributesOf(FieldWords(fields));
    assert fields[0].key == "alias" && fields[1].key == "displayMode";
    assert "alias"[0] == 'a' && "displayMode"[0] == 'd' && |"display"| != |"displayMode"| && "timeout"[0] == 't';
    assert CleanFields(fields);
    FieldsAreFound(fields);
    HeadOpens(ticks, b.blockType, fields);
    var info := b.blockType + FieldsText(fields);
    forall c | c in info ensures c != '\n' { assert c in ticks + info; }
  }

  // ─── The message's lines ──────────────────────────────────────────

  function BodyRows(body: string): seq<string> {
    var trimmed := TrimEndNewlines(body);
    if trimmed == "" then [] else [""] + Split(trimmed, '\n')
  }

  function MessageLines(p: HttpParams): seq<string> {
    [p.verb + " " + Target(p.url, p.params)] + HeaderRows(p.headers) + BodyRows(p.body)
  }

  lemma {:induction false} HeaderTextJoins(first: string, headers: seq<Pair>)
    ensures first + HeaderText(headers) == Join([first] + HeaderRows(headers), "\n")
    decreases |headers|
  {
    if headers == [] {
      assert [first] + [] == [first] && first + "" == first;
    } else if headers[0].key == "" {
      HeaderTextJoins(first, headers[1..]);
      assert [] + HeaderRows(headers[1..]) == HeaderRows(headers[1..]);
    } else {
      var row := HeaderRow(headers[0]);
      HeaderTextJoins(row, headers[1..]);
      JoinCons(first, [row] + HeaderRows(headers[1..]), "\n");
      assert first + ("\n" + headers[0].key + ": " + headers[0].value + HeaderText(headers[1..]))
          == first + "\n" + (row + HeaderText(headers[1..]));
    }
  }

  lemma BodyJoins(rows: seq<string>, body: string)
    requires rows != []
    ensures Join(rows, "\n") + BodyText(body) == Join(rows + BodyRows(body), "\n")
  {
    var trimmed := TrimEndNewlines(body);
    var head := Join(rows, "\n");
    if trimmed == "" {
      assert rows + [] == rows && head + "" == head;
    } else {
      JoinSplit(trimmed, '\n');
      JoinCons("", Split(trimmed, '\n'), "\n");
      JoinLines(rows, BodyRows(body), "\n");
      BlankLine(head, "\n", trimmed);
    }
  }

  lemma BlankLine(head: string, sep: string, trimmed: string)
    requires sep == "\n"
    ensures head + sep + ("" + sep + trimmed) == head + ("\n\n" + trimmed)
  {
  }

  lemma MessageJoins(p: HttpParams)
    ensures HttpMessageText(p) == Join(MessageLines(p), "\n")
  {
    var first := p.verb + " " + Target(p.url, p.params);
    HeaderTextJoins(first, p.headers);
    BodyJoins([first] + HeaderRows(p.headers), p.body);
  }

  // ─── Lines that neither break nor close ───────────────────────────

  /** What is known of the parts before anything is read back. */
  predicate Writable(p: HttpParams) {
    KnownMethod(p.verb) && OneLine(Target(p.url, p.params)) && CleanHeaders(p.headers)
  }

  lemma OtherCharKeepsOpen(line: string, i: nat)
    requires i < |Trim(line)| && Trim(line)[i] != '`'
    ensures !ClosesFence(line)
  {
  }

  lemma RowKept(h: Pair)
    requires CleanHeader(h)
    ensures !ClosesFence(HeaderRow(h)) && StripCr(HeaderRow(h)) == HeaderRow(h) && OneLine(HeaderRow(h))
  {
    var rest := RowTrims(h);
    OtherCharKeepsOpen(HeaderRow(h), |h.key|);
  }

  lemma {:induction false} RowsKept(headers: seq<Pair>)
    requires forall h | h in headers :: CleanHeader(h)
    ensures |HeaderRows(headers)| == |headers| && CleanLines(HeaderRows(headers)) && AllLines(HeaderRows(headers))
  {
    if headers != [] {
      assert headers[0] in headers;
      RowsKept(headers[1..]);
      RowKept(headers[0]);
    }
  }

  lemma RequestLineOpen(m: string, target: string)
    requires KnownMethod(m)
    ensures !ClosesFence(m + " " + target)
  {
    MethodIsWord(m);
    WordAndRest(m, ' ', target);
    assert Trim(m + " " + target)[0] == m[0];
    OtherCharKeepsOpen(m + " " + target, 0);
  }

  lemma EmptyLineOpen(line: string)
    requires line == ""
    ensures !ClosesFence(line) && StripCr(line) == line
  {
  }

  lemma MessageIsLines(p: HttpParams)
    requires Writable(p)
    ensures AllLines(MessageLines(p)) && Split(HttpMessageText(p), '\n') == MessageLines(p)
  {
    MethodIsWord(p.verb);
    NoWhitespaceOneLine(p.verb);
    RowsKept(p.headers);
    MessageJoins(p);
    SplitJoin(MessageLines(p), '\n');
  }

  // ─── The body ─────────────────────────────────────────────────────

  lemma EndsWithEmpty(body: string)
    requires body != "" && Split(body, '\n')[|Split(body, '\n')| - 1] == ""
    ensures body[|body| - 1] == '\n'
  {
    var parts := Split(body, '\n');
    JoinSplit(body, '\n');
    if |parts| > 1 {
      var init := parts[..|parts| - 1];
      JoinAppend(init, "", "\n");
      assert parts == init + [""];
    }
  }

  /** A body without trailing line feeds is written and read as it is. */
  lemma WholeBodyReads(body: string)
    requires body != "" ==> body[|body| - 1] != '\n'
    ensures TrimEndNewlines(body) == body
    ensures Join(DropTrailingEmpty(BehindBlank(BodyRows(body))), "\n") == body
  {
    if body != "" {
      var parts := Split(body, '\n');
      if parts[|parts| - 1] == "" { EndsWithEmpty(body); }
      JoinSplit(body, '\n');
      assert BehindBlank(BodyRows(body)) == parts;
    }
  }

  // ─── Canonical blocks come back ───────────────────────────────────

  lemma CleanMessageReads(p: HttpParams, attrs: Attributes)
    requires CleanMessage(p)
    ensures HttpMessage(HttpMessageText(p), attrs) == p.(timeoutMs := U64Attribute(attrs, "timeout"))
  {
    var target := Target(p.url, p.params);
    MessageIsLines(p);
    TrimTrimmed(target);
    TrimEmpty(BodyRows(p.body));
    MessageReads(HttpMessageText(p), p.verb, target, p.headers, BodyRows(p.body), attrs);
    TargetReads(p.verb, p.url, p.params);
    WholeBodyReads(p.body);
  }

  lemma EmptyGetReads(p: HttpParams, attrs: Attributes)
    requires p == EmptyGet()
    ensures Writable(p) && CleanLines(MessageLines(p))
    ensures HttpMessage(HttpMessageText(p), attrs) == p.(timeoutMs := U64Attribute(attrs, "timeout"))
  {
    assert Target(p.url, p.params) == "";
    MessageIsLines(p);
    RequestLineOpen(p.verb, p.url);
    TrimTrimmed(p.url);
    MessageReads(HttpMessageText(p), p.verb, p.url, p.headers, [], attrs);
  }

  lemma TrimEmpty(tail: seq<string>)
    ensures tail != [] && tail[0] == "" ==> Trim(tail[0]) == ""
  {
  }

  lemma CleanMessageLines(p: HttpParams)
    requires CleanMessage(p)
    ensures CleanLines(MessageLines(p))
  {
    var target := Target(p.url, p.params);
    RowsKept(p.headers);
    RequestLineOpen(p.verb, target);
    WholeBodyReads(p.body);
    EmptyLineOpen("");
  }

  lemma MessageIsNotLegacy(json: Parser, p: HttpParams)
    requires KnownMethod(p.verb)
    ensures LegacyHttpBody(json, HttpMessageText(p)).None?
  {
    MethodIsWord(p.verb);
    assert HttpMessageText(p)[0] == p.verb[0];
  }

  /** What the attributes and some body lines make of an http block. */
  lemma HttpBuilds(json: Parser, fence: Fence, body: string)
    requires fence.blockType == "http" && body == Join(fence.bodyLines, "\n") && LegacyHttpBody(json, body).None?
    requires "display" !in fence.attrs
    ensures var b := BlockFrom(json, fence);
            && b.blockType == fence.blockType && b.alias == Lookup(fence.attrs, "alias") && b.displayMode == Lookup(fence.attrs, "displayMode")
            && b.params == HttpMessage(body, fence.attrs).ToValue()
            && b.lineStart == fence.at && b.lineEnd == fence.at + 1 + |fence.bodyLines|
  {
    assert fence.blockType[0] == 'h' && fence.blockType[..3][0] == 'h';
    assert !IsDbBlock(fence.blockType);
  }

  lemma CanonicalHttpBuilds(json: Parser, b: ParsedBlock, attrs: Attributes, at: nat)
    requires CanonicalHttp(b) && "display" !in attrs && "timeout" !in attrs
    requires Lookup(attrs, "alias") == NonEmpty(b.alias) && Lookup(attrs, "displayMode") == NonEmpty(b.displayMode)
    ensures var body := MessageLines(ReadHttp(b.params));
            BlockFrom(json, Fence(b.blockType, attrs, body, at)) == Placed(b, |body|, at)
  {
    var p := ReadHttp(b.params);
    if p == EmptyGet() { EmptyGetReads(p, attrs); } else { CleanMessageReads(p, attrs); }
    MessageJoins(p);
    MessageIsNotLegacy(json, p);
    HttpBuilds(json, Fence(b.blockType, attrs, MessageLines(p), at), HttpMessageText(p));
  }

  lemma CanonicalHttpReadsBack(json: Parser, b: ParsedBlock, ticks: string) returns (head: string, body: seq<string>)
    requires ticks == "```" && CanonicalHttp(b)
    ensures ReadsBack(Markdown(json), b, HttpText(b), head, body, ticks) && body == MessageLines(ReadHttp(b.params))
  {
    var p, g := ReadHttp(b.params), Markdown(json);
    var info := b.blockType + FieldsText(HttpInfoFields(b));
    head, body := ticks + info, MessageLines(p);
    var attrs := HeadOfHttp(b, ticks);
    TicksClose(ticks);
    FencedIsJoin(info, HttpMessageText(p), ticks);
    MessageIsLines(p);
    if p == EmptyGet() { EmptyGetReads(p, attrs); } else { CleanMessageLines(p); }
    forall at: nat ensures g.build(Fence(g.opens(head).blockType, g.opens(head).attrs, body, at)) == Placed(b, |body|, at) {
      CanonicalHttpBuilds(json, b, attrs, at);
    }
  }

  // ─── Nothing else comes back ──────────────────────────────────────

  lemma {:induction false} DroppedShape(lines: seq<string>)
    ensures var kept := DropTrailingEmpty(lines); |kept| <= |lines| && kept == lines[..|kept|]
  {
    if lines != [] && lines[|lines| - 1] == "" { DroppedShape(lines[..|lines| - 1]); }
  }

  lemma {:induction false} TrimmedEndShape(body: string)
    ensures var r := TrimEndNewlines(body);
            && |r| <= |body| && (|r| == |body| ==> r == body)
            && (r != "" ==> r[|r| - 1] != '\n')
  {
    if body != "" && body[|body| - 1] == '\n' { TrimmedEndShape(body[..|body| - 1]); }
  }

  /** The body that is read is at most as long as the lines it is cut from. */
  lemma NothingDropped(s: seq<string>, k: nat, body: string)
    requires k <= |s| && Join(s[..k], "\n") == body && body != "" && |Join(s, "\n")| <= |body|
    ensures k == |s| && Join(s, "\n") == body
  {
    if 0 < k < |s| {
      PrefixIsShorter(s, k, "\n");
    } else if k == |s| {
      assert s[..k] == s;
    }
  }

  /** A body equal to what is read of its own written lines lost nothing. */
  lemma BodyComesBack(body: string, m: nat)
    requires TrimEndNewlines(body) != "" && m <= |Split(TrimEndNewlines(body), '\n')|
    requires var s := StripCrs(Split(TrimEndNewlines(body), '\n'));
             Join(DropTrailingEmpty(s[..m]), "\n") == body && forall l | l in s[..m] :: !ClosesFence(l)
    ensures CleanBody(body)
  {
    var trimmed := TrimEndNewlines(body);
    var parts := Split(trimmed, '\n');
    var s := StripCrs(parts);
    var k := |DropTrailingEmpty(s[..m])|;
    DroppedShape(s[..m]);
    assert s[..m][..k] == s[..k];
    TrimmedEndShape(body);
    JoinSplit(trimmed, '\n');
    StripCrsShrinks(parts, "\n");
    NothingDropped(s, k, body);
    assert s[..m] == parts;
  }

  /** The lines a parser sees of a message: its request line and rows, and a stripped body. */
  lemma StrippedMessage(p: HttpParams)
    requires Writable(p)
    ensures var body := TrimEndNewlines(p.body);
            StripCrs(MessageLines(p)) ==
            [p.verb + " " + StripCr(Target(p.url, p.params))] + HeaderRows(p.headers) +
            (if body == "" then [] else [""] + StripCrs(Split(body, '\n')))
  {
    var first, rows := p.verb + " " + Target(p.url, p.params), HeaderRows(p.headers);
    RowsKept(p.headers);
    StripRequest(p.verb + " ", Target(p.url, p.params));
    StripCrsNone(rows);
    StripCrsAppend([first] + rows, BodyRows(p.body));
    StripCrsAppend([first], rows);
    EmptyLineOpen("");
    StripCrsAppend([""], Split(TrimEndNewlines(p.body), '\n'));
  }

  /** The first lines of a message, however many: the head survives, the body is cut. */
  lemma CutMessage(p: HttpParams, n: nat) returns (tail: seq<string>, m: nat)
    requires Writable(p)
    requires var s := StripCrs(MessageLines(p)); n <= |s| && (n < |s| ==> ClosesFence(s[n]))
    ensures var body := TrimEndNewlines(p.body);
            && StripCrs(MessageLines(p))[..n] == [p.verb + " " + StripCr(Target(p.url, p.params))] + HeaderRows(p.headers) + tail
            && m <= |Split(body, '\n')|
            && tail == (if body == "" then [] else [""] + StripCrs(Split(body, '\n'))[..m])
  {
    var target, body := StripCr(Target(p.url, p.params)), TrimEndNewlines(p.body);
    var head, parts := [p.verb + " " + target] + HeaderRows(p.headers), StripCrs(Split(body, '\n'));
    StrippedMessage(p);
    RowsKept(p.headers);
    RequestLineOpen(p.verb, target);
    if body == "" {
      tail, m := [], 0;
      HeadKept(head, [], n);
    } else {
      EmptyLineOpen("");
      AppendAssoc(head, [""], parts);
      HeadKept(head + [""], parts, n);
      m := n - |head| - 1;
      tail := [""] + parts[..m];
      AppendAssoc(head, [""], parts[..m]);
    }
  }

  lemma StripRequest(before: string, target: string)
    requires before != "" && before[|before| - 1] == ' '
    ensures StripCr(before + target) == before + StripCr(target)
  {
  }

  /** A cut at a line that closes lies behind lines that do not. */
  lemma HeadKept(head: seq<string>, rest: seq<string>, n: nat)
    requires forall l | l in head :: !ClosesFence(l)
    requires n <= |head + rest| && (n < |head + rest| ==> ClosesFence((head + rest)[n]))
    ensures n >= |head| && (head + rest)[..n] == head + rest[..n - |head|]
  {
    assert forall i | 0 <= i < |head| :: (head + rest)[i] == head[i] && head[i] in head;
  }

  /** What is read of a message's first lines. */
  lemma CutMessageReads(p: HttpParams, n: nat, attrs: Attributes) returns (tail: seq<string>, m: nat)
    requires Writable(p)
    requires var s := StripCrs(MessageLines(p)); n <= |s| && (n < |s| ==> ClosesFence(s[n]))
    ensures var s, body := StripCrs(MessageLines(p)), TrimEndNewlines(p.body);
            && m <= |Split(body, '\n')| && tail == (if body == "" then [] else [""] + StripCrs(Split(body, '\n'))[..m])
            && (forall l | l in tail :: l in s[..n])
            && var target := Trim(Target(p.url, p.params));
               HttpMessage(Join(s[..n], "\n"), attrs) ==
               if target == "" then EmptyHttpParams(attrs)
               else
                 var r := RequestTarget(p.verb, target);
                 HttpParams(p.verb, r.url, r.params, p.headers, Join(DropTrailingEmpty(BehindBlank(tail)), "\n"), U64Attribute(attrs, "timeout"))
  {
    var s, target := StripCrs(MessageLines(p)), Target(p.url, p.params);
    tail, m := CutMessage(p, n);
    MessageIsLines(p);
    StrippedLines(MessageLines(p));
    PrefixSplits(s, n);
    TrimEmpty(tail);
    MessageReads(Join(s[..n], "\n"), p.verb, StripCr(target), p.headers, tail, attrs);
    TrimStripCr(target);
  }

  /** A target equal to the one its own trimmed text is read to was trimmed and clean. */
  lemma TargetComesBack(m: string, url: string, params: seq<Pair>)
    requires OneLine(Target(url, params)) && Trim(Target(url, params)) != ""
    requires RequestTarget(m, Trim(Target(url, params))) == Request(m, url, params)
    ensures CleanTarget(url, params)
  {
    var target := Target(url, params);
    TargetShape(m, Trim(target));
    var before, after := TrimCuts(target);
    assert target == Trim(target);
  }

  lemma PartsComeBack(p: HttpParams, target: string, tail: seq<string>, m: nat)
    requires Writable(p) && target == Trim(Target(p.url, p.params)) && target != ""
    requires RequestTarget(p.verb, target) == Request(p.verb, p.url, p.params)
    requires var body := TrimEndNewlines(p.body);
             m <= |Split(body, '\n')| && tail == (if body == "" then [] else [""] + StripCrs(Split(body, '\n'))[..m])
    requires forall l | l in tail :: !ClosesFence(l)
    requires p.body == Join(DropTrailingEmpty(BehindBlank(tail)), "\n")
    ensures CleanMessage(p)
  {
    TargetComesBack(p.verb, p.url, p.params);
    CutBodyComesBack(p, tail, m);
  }

  lemma SameRequest(m: string, target: string, url: string, params: seq<Pair>)
    requires RequestTarget(m, target).url == url && RequestTarget(m, target).params == params
    ensures RequestTarget(m, target) == Request(m, url, params)
  {
  }

  /** A message equal to what is read of its own first lines was clean. */
  lemma MessageComesBack(p: HttpParams, n: nat, attrs: Attributes)
    requires Writable(p) && p.timeoutMs.None?
    requires var s := StripCrs(MessageLines(p));
             && n <= |s| && (n < |s| ==> ClosesFence(s[n])) && (forall l | l in s[..n] :: !ClosesFence(l))
             && HttpMessage(Join(s[..n], "\n"), attrs) == p
    ensures CleanMessage(p) || p == EmptyGet()
  {
    var tail, m := CutMessageReads(p, n, attrs);
    var target := Trim(Target(p.url, p.params));
    if target != "" {
      SameRequest(p.verb, target, p.url, p.params);
      PartsComeBack(p, target, tail, m);
    }
  }

  lemma PrefixSplits(lines: seq<string>, n: nat)
    requires AllLines(lines) && 0 < n <= |lines|
    ensures Split(Join(lines[..n], "\n"), '\n') == lines[..n]
  {
    forall l | l in lines[..n] ensures '\n' !in l { assert l in lines; }
    SplitJoin(lines[..n], '\n');
  }

  lemma StrippedLines(lines: seq<string>)
    requires AllLines(lines)
    ensures AllLines(StripCrs(lines))
  {
    forall l | l in StripCrs(lines) ensures OneLine(l) {
      var i :| 0 <= i < |StripCrs(lines)| && StripCrs(lines)[i] == l;
      assert lines[i] in lines;
    }
  }

  lemma CutBodyComesBack(p: HttpParams, tail: seq<string>, m: nat)
    requires var body := TrimEndNewlines(p.body);
             m <= |Split(body, '\n')| && tail == (if body == "" then [] else [""] + StripCrs(Split(body, '\n'))[..m])
    requires forall l | l in tail :: !ClosesFence(l)
    requires p.body == Join(DropTrailingEmpty(BehindBlank(tail)), "\n")
    ensures CleanBody(p.body)
  {
    var body := TrimEndNewlines(p.body);
    if body == "" {
      EmptyLineOpen(p.body);
    } else {
      assert BehindBlank(tail) == StripCrs(Split(body, '\n'))[..m];
      BodyComesBack(p.body, m);
    }
  }

  /** Nothing in the text is taken for a legacy JSON body. */
  ghost predicate NothingLegacyHttp(json: Parser, text: string) {
    forall f | f in Fences(Markdown(json), LinesIn(text), 0) :: LegacyHttpBody(json, Join(f.bodyLines, "\n")).None?
  }

  /** A block built from a fence has the parser's keys, and its parts are shaped like
      everything the parser returns. */
  lemma BuiltHttpShape(json: Parser, f: Fence, b: ParsedBlock)
    requires BlockFrom(json, f) == b && f.blockType == "http" && CleanAttributes(f.attrs) && "display" !in f.attrs && "timeout" !in f.attrs
    requires LegacyHttpBody(json, Join(f.bodyLines, "\n")).None?
    ensures var p := ReadHttp(b.params);
            && b.params == p.ToValue() && p == HttpMessage(Join(f.bodyLines, "\n"), f.attrs)
            && Writable(p) && p.timeoutMs.None?
  {
    var q := HttpMessage(Join(f.bodyLines, "\n"), f.attrs);
    HttpBuilds(json, f, Join(f.bodyLines, "\n"));
    MessageShape(Join(f.bodyLines, "\n"), f.attrs);
    HttpReadWritten(q);
    TargetOneLine(q.url, q.params);
  }

  lemma BuiltAttributes(json: Parser, f: Fence, b: ParsedBlock)
    requires BlockFrom(json, f) == b && CleanAttributes(f.attrs)
    ensures Unspaced(b.alias) && Unspaced(b.displayMode) && b.blockType == f.blockType
    ensures b.alias == Lookup(f.attrs, "alias")
    ensures "display" !in f.attrs ==> b.displayMode == Lookup(f.attrs, "displayMode")
  {
  }

  /** The fence cut out of a block's own text: its attributes and its first lines. */
  lemma OwnFence(json: Parser, b: ParsedBlock, ticks: string) returns (attrs: Attributes, n: nat)
    requires ticks == "```" && b.blockType == "http" && Unspaced(b.alias) && Unspaced(b.displayMode)
    ensures Lookup(attrs, "alias") == NonEmpty(b.alias) && Lookup(attrs, "displayMode") == NonEmpty(b.displayMode)
    ensures "display" !in attrs && "timeout" !in attrs
    ensures var s := StripCrs(Split(HttpMessageText(ReadHttp(b.params)), '\n'));
            var fences := Fences(Markdown(json), LinesIn(HttpText(b)), 0);
            && n <= |s| && (n < |s| ==> ClosesFence(s[n]))
            && fences != [] && fences[0] == Fence("http", attrs, s[..n], 0)
  {
    var info, message := b.blockType + FieldsText(HttpInfoFields(b)), HttpMessageText(ReadHttp(b.params));
    attrs := HeadOfHttp(b, ticks);
    LinesOfFenced(info, message, ticks);
    TicksClose(ticks);
    n := FirstFence(Markdown(json), ticks + info, StripCrs(Split(message, '\n')), ticks);
  }

  /** A block equal to what its own fence builds is canonical. */
  lemma OwnFenceBuilds(json: Parser, b: ParsedBlock, placed: ParsedBlock, attrs: Attributes, n: nat)
    requires b.blockType == "http" && Unspaced(b.alias) && Unspaced(b.displayMode) && CleanAttributes(attrs)
    requires b.alias == placed.alias && b.displayMode == placed.displayMode && b.params == placed.params
    requires Lookup(attrs, "alias") == NonEmpty(b.alias) && Lookup(attrs, "displayMode") == NonEmpty(b.displayMode)
    requires "display" !in attrs && "timeout" !in attrs
    requires var s := StripCrs(Split(HttpMessageText(ReadHttp(b.params)), '\n'));
             && n <= |s| && (n < |s| ==> ClosesFence(s[n])) && (forall l | l in s[..n] :: !ClosesFence(l))
             && BlockFrom(json, Fence("http", attrs, s[..n], 0)) == placed && LegacyHttpBody(json, Join(s[..n], "\n")).None?
    ensures CanonicalHttp(b)
  {
    var p := ReadHttp(b.params);
    var f := Fence("http", attrs, StripCrs(Split(HttpMessageText(p), '\n'))[..n], 0);
    BuiltAttributes(json, f, placed);
    BuiltHttpShape(json, f, placed);
    MessageIsLines(p);
    MessageComesBack(p, n, attrs);
  }

  predicate HttpRoundTrips(json: Parser, b: ParsedBlock) {
    BlocksOf(json, HttpText(b)) == [Placed(b, |MessageLines(ReadHttp(b.params))|, 0)]
  }

  lemma OnlyCanonicalHttpReadsBack(json: Parser, b: ParsedBlock, ticks: string)
    requires ticks == "```" && b.blockType == "http" && NothingLegacyHttp(json, HttpText(b))
    ensures HttpRoundTrips(json, b) ==> CanonicalHttp(b)
  {
    if HttpRoundTrips(json, b) {
      var placed := Placed(b, |MessageLines(ReadHttp(b.params))|, 0);
      var f := SoleFence(json, HttpText(b), placed);
      BuiltAttributes(json, f, placed);
      var attrs, n := OwnFence(json, b, ticks);
      OwnFenceBuilds(json, b, placed, attrs, n);
    }
  }

  lemma CanonicalHttpRoundTrips(json: Parser, b: ParsedBlock)
    requires CanonicalHttp(b)
    ensures HttpRoundTrips(json, b)
  {
    var ticks := "```";
    var head, body := CanonicalHttpReadsBack(json, b, ticks);
    ReadsBackAlone(json, b, HttpText(b), head, body, ticks);
  }

  /** MAIN: an http block that is not read as legacy JSON survives being written and read
      back, alone in a note, if and only if it is canonical. */
  lemma HttpRoundTripIff(json: Parser, b: ParsedBlock)
    requires b.blockType == "http" && NothingLegacyHttp(json, HttpText(b))
    ensures HttpRoundTrips(json, b) <==> CanonicalHttp(b)
  {
    OnlyCanonicalHttpReadsBack(json, b, "```");
    if CanonicalHttp(b) { CanonicalHttpRoundTrips(json, b); }
  }
}
