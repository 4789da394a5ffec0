/** HTTP messages as the serializer writes them, read line by line. */
module HttpReading {
  import opened Text
  import opened Lines
  import opened BlockParser
  import opened BlockSerializer

  // ─── Query strings ────────────────────────────────────────────────

  /** A parameter that one `&` segment can carry. */
  predicate CleanParam(p: Pair) {
    p.key != "" && '=' !in p.key && '&' !in p.key && '&' !in p.value
  }

  predicate CleanParams(params: seq<Pair>) {
    forall p | p in params :: CleanParam(p)
  }

  function Segment(p: Pair): string {
    if p.value == "" then p.key else p.key + "=" + p.value
  }

  lemma SegmentReads(p: Pair)
    requires p.key != "" && '=' !in p.key
    ensures QuerySegment(Segment(p)) == Some(p)
  {
    if p.value != "" {
      FindCharIs(p.key, '=', p.value);
      assert Segment(p) == p.key + ['='] + p.value;
      assert Segment(p)[..|p.key|] == p.key && Segment(p)[|p.key| + 1..] == p.value;
    }
  }

  lemma {:induction false} PartsRead(params: seq<Pair>)
    requires CleanParams(params)
    ensures var parts := QueryParts(params);
            && |parts| == |params| && QuerySegments(parts) == params
            && forall s | s in parts :: '&' !in s && s != ""
  {
    if params != [] {
      assert params[0] in params;
      PartsRead(params[1..]);
      SegmentReads(params[0]);
      assert params == [params[0]] + params[1..];
      assert QueryParts(params)[0] == Segment(params[0]) && QueryParts(params)[1..] == QueryParts(params[1..]);
    }
  }

  lemma JoinNotEmpty(parts: seq<string>, sep: string)
    requires parts != [] && parts[0] != ""
    ensures Join(parts, sep) != ""
  {
  }

  /** A written request target is read back to its address and parameters. */
  lemma TargetReads(m: string, url: string, params: seq<Pair>)
    requires '?' !in url && CleanParams(params)
    ensures RequestTarget(m, Target(url, params)) == Request(m, url, params)
  {
    var parts := QueryParts(params);
    PartsRead(params);
    if params != [] {
      var query := Join(parts, "&");
      assert parts[0] in parts;
      JoinNotEmpty(parts, "&");
      var s := url + ['?'] + query;
      assert Target(url, params) == s;
      FindCharIs(url, '?', query);
      assert s[..|url|] == url && s[|url| + 1..] == query;
      SplitJoin(parts, '&');
    }
  }

  // ─── What reading a target guarantees ─────────────────────────────

  predicate ReadParam(p: Pair) {
    p.key != "" && '=' !in p.key
  }

  lemma SegmentShape(seg: string)
    ensures var r := QuerySegment(seg);
            r.Some? ==> ReadParam(r.value) && |Segment(r.value)| <= |seg| && forall c | c in r.value.key || c in r.value.value :: c in seg
  {
  }

  lemma {:induction false} SegmentsShape(segs: seq<string>)
    ensures forall p | p in QuerySegments(segs) :: ReadParam(p)
    ensures (forall s | s in segs :: '&' !in s) ==> CleanParams(QuerySegments(segs))
    ensures |Join(QueryParts(QuerySegments(segs)), "&")| <= |Join(segs, "&")|
  {
    if segs != [] {
      SegmentsShape(segs[1..]);
      SegmentShape(segs[0]);
      var rest := QuerySegments(segs[1..]);
      var r := QuerySegment(segs[0]);
      if r.Some? {
        assert ([r.value] + rest)[1..] == rest;
        assert QueryParts(QuerySegments(segs)) == [Segment(r.value)] + QueryParts(rest);
        if QueryParts(rest) != [] { JoinCons(Segment(r.value), QueryParts(rest), "&"); }
        if |segs| == 1 { assert QueryParts(rest) == []; }
      }
    }
  }

  /** Reading a target and writing it again never makes it longer. */
  lemma TargetShape(m: string, x: string)
    ensures var r := RequestTarget(m, x);
            && '?' !in r.url && CleanParams(r.params) && r.verb == m
            && |Target(r.url, r.params)| <= |x|
  {
    match FindChar(x, '?') {
      case None =>
      case Some(k) =>
        var segs := Split(x[k + 1..], '&');
        SegmentsShape(segs);
        JoinSplit(x[k + 1..], '&');
    }
  }

  // ─── The request line ─────────────────────────────────────────────

  lemma MethodIsWord(m: string)
    requires KnownMethod(m)
    ensures Word(m) && m[0] != '#' && m[0] != '`' && m[0] != '{' && Uppercase(m) == m
  {
    assert forall i | 0 <= i < |m| :: 'A' <= m[i] <= 'Z';
    UppercaseIs(m);
  }

  lemma {:induction false} UppercaseIs(s: string)
    requires forall i | 0 <= i < |s| :: 'A' <= s[i] <= 'Z'
    ensures Uppercase(s) == s
  {
    if s != "" {
      UppercaseIs(s[1..]);
      assert s == [s[0]] + s[1..];
    }
  }

  predicate FirstWordIs(line: string, m: string, rest: string) {
    var n := WordLength(line);
    && line != "" && line[..n] == m && n == |m|
    && (n == |line| <==> rest == "")
    && (n < |line| ==> Trim(line[n + 1..]) == rest)
  }

  lemma WordAlone(m: string, blank: string)
    requires Word(m) && Blank(blank)
    ensures Trim(m + blank) == m && FirstWordIs(m, m, "")
  {
    TrimTail(m, blank);
    WordLengthIs(m, "");
    assert m + "" == m;
  }

  lemma WordAndCore(m: string, space: char, before: string, core: string, after: string)
    requires Word(m) && IsWhitespace(space) && Blank(before) && Blank(after) && Trimmed(core) && core != ""
    ensures var line := m + ([space] + (before + core)); Trim(line + after) == line && FirstWordIs(line, m, core)
  {
    var rest := before + core;
    var tail := [space] + rest;
    var line := m + tail;
    TrimTail(line, after);
    WordLengthIs(m, tail);
    assert line[..|m|] == m && line[|m| + 1..] == rest;
    TrimHead(before, core);
  }

  /** One word, one space and a rest, trimmed and split at the first whitespace. */
  lemma WordAndRest(m: string, space: char, target: string)
    requires Word(m) && IsWhitespace(space)
    ensures FirstWordIs(Trim(m + [space] + target), m, Trim(target))
  {
    var before, after := TrimCuts(target);
    var core := Trim(target);
    if core == "" {
      TrimBlank(target);
      WordAlone(m, [space] + target);
      AppendAssoc(m, [space], target);
    } else {
      WordAndCore(m, space, before, core, after);
      assert m + [space] + target == m + ([space] + (before + core)) + after;
    }
  }

  /** Method, one space and a target: the target is read trimmed. */
  lemma RequestLineReads(m: string, target: string)
    requires KnownMethod(m)
    ensures var line := Trim(m + " " + target);
            && FirstWordIs(line, m, Trim(target))
            && FirstLine(line) == if Trim(target) == "" then None else Some(RequestTarget(m, Trim(target)))
  {
    MethodIsWord(m);
    WordAndRest(m, ' ', target);
  }

  // ─── Header rows ──────────────────────────────────────────────────

  /** A header that its own row gives back. */
  predicate CleanHeader(h: Pair) {
    && h.key != "" && Trimmed(h.key) && Trimmed(h.value)
    && ':' !in h.key && h.key[0] != '#' && OneLine(h.key) && OneLine(h.value)
  }

  /** The first header must not look like one more query segment. */
  predicate LeadsHeaders(h: Pair) {
    h.key != "" && h.key[0] != '?' && h.key[0] != '&'
  }

  predicate CleanHeaders(headers: seq<Pair>) {
    (forall h | h in headers :: CleanHeader(h)) && (headers != [] ==> LeadsHeaders(headers[0]))
  }

  function HeaderRow(h: Pair): string {
    h.key + ": " + h.value
  }

  function HeaderRows(headers: seq<Pair>): seq<string> {
    if headers == [] then []
    else (if headers[0].key == "" then [] else [HeaderRow(headers[0])]) + HeaderRows(headers[1..])
  }

  lemma RowTrims(h: Pair) returns (rest: string)
    requires CleanHeader(h)
    ensures Trim(HeaderRow(h)) == h.key + [':'] + rest && Trim(rest) == h.value
  {
    if h.value == "" {
      rest := "";
      TrimTail(h.key + [':'], " ");
      assert h.key + [':'] + " " == HeaderRow(h);
      assert h.key + [':'] + "" == h.key + [':'];
    } else {
      rest := " " + h.value;
      TrimTrimmed(HeaderRow(h));
      assert h.key + [':'] + rest == HeaderRow(h);
      TrimHead(" ", h.value);
    }
  }

  lemma RowSplits(t: string, h: Pair, rest: string)
    requires CleanHeader(h) && t == h.key + [':'] + rest && Trim(rest) == h.value
    ensures HeaderLine(t) == Some(h) && t[0] == h.key[0]
  {
    FindCharIs(h.key, ':', rest);
    assert t[..|h.key|] == h.key && t[|h.key| + 1..] == rest;
    TrimTrimmed(h.key);
  }

  lemma RowReads(h: Pair, params: seq<Pair>, headers: seq<Pair>)
    requires CleanHeader(h) && (headers == [] ==> LeadsHeaders(h))
    ensures Trim(HeaderRow(h)) != "" && HeadLine(Trim(HeaderRow(h)), params, headers) == (params, headers + [h])
  {
    var rest := RowTrims(h);
    RowSplits(Trim(HeaderRow(h)), h, rest);
  }

  lemma RowsCons(todo: seq<Pair>, tail: seq<string>)
    requires todo != [] && todo[0].key != ""
    ensures HeaderRows(todo) + tail == [HeaderRow(todo[0])] + (HeaderRows(todo[1..]) + tail)
  {
    AppendAssoc([HeaderRow(todo[0])], HeaderRows(todo[1..]), tail);
  }

  lemma HeadStep(row: string, rest: seq<string>, params: seq<Pair>, headers: seq<Pair>, h: Pair)
    requires Trim(row) != "" && HeadLine(Trim(row), params, headers) == (params, headers + [h])
    ensures HeadOf([row] + rest, params, headers) == HeadOf(rest, params, headers + [h])
  {
    assert ([row] + rest)[1..] == rest;
  }

  /** The rest of the head, from the blank line on. */
  function BehindBlank(tail: seq<string>): seq<string> {
    if tail == [] then [] else tail[1..]
  }

  lemma RowsEnd(tail: seq<string>, params: seq<Pair>, headers: seq<Pair>)
    requires tail == [] || Trim(tail[0]) == ""
    ensures HeadOf(tail, params, headers) == Head(params, headers, BehindBlank(tail))
  {
  }

  lemma AppendNone<T, U>(tail: seq<T>, before: seq<U>, none: seq<U>)
    requires none == []
    ensures [] + tail == tail && before + none == before
  {
  }

  lemma AppendFirst<T>(before: seq<T>, s: seq<T>)
    requires s != []
    ensures before + [s[0]] + s[1..] == before + s
  {
  }

  lemma {:induction false} RowsRead(todo: seq<Pair>, tail: seq<string>, params: seq<Pair>, headers: seq<Pair>)
    requires (forall h | h in todo :: CleanHeader(h)) && (tail == [] || Trim(tail[0]) == "")
    requires headers == [] && todo != [] ==> LeadsHeaders(todo[0])
    ensures HeadOf(HeaderRows(todo) + tail, params, headers) == Head(params, headers + todo, BehindBlank(tail))
  {
    if todo == [] {
      RowsEnd(tail, params, headers);
      AppendNone(tail, headers, todo);
    } else {
      var h, rest := todo[0], HeaderRows(todo[1..]) + tail;
      RowReads(h, params, headers);
      HeadStep(HeaderRow(h), rest, params, headers, h);
      RowsCons(todo, tail);
      RowsRead(todo[1..], tail, params, headers + [h]);
      AppendFirst(headers, todo);
    }
  }

  // ─── The whole message ────────────────────────────────────────────

  lemma NotesEnd(lines: seq<string>)
    requires lines != [] && Trim(lines[0]) != "" && Trim(lines[0])[0] != '#'
    ensures SkipNotes(lines) == lines
  {
  }

  lemma MessageFromReads(first: string, m: string, target: string, headers: seq<Pair>, tail: seq<string>, attrs: Attributes)
    requires FirstLine(Trim(first)) == if target == "" then None else Some(RequestTarget(m, target))
    requires CleanHeaders(headers) && (tail == [] || Trim(tail[0]) == "")
    ensures MessageFrom([first] + (HeaderRows(headers) + tail), attrs) ==
            if target == "" then EmptyHttpParams(attrs)
            else
              var r := RequestTarget(m, target);
              HttpParams(m, r.url, r.params, headers, Join(DropTrailingEmpty(BehindBlank(tail)), "\n"), U64Attribute(attrs, "timeout"))
  {
    var rows := HeaderRows(headers) + tail;
    assert ([first] + rows)[1..] == rows;
    if target != "" {
      RowsRead(headers, tail, RequestTarget(m, target).params, []);
      AppendNone(headers, headers, []);
    }
  }

  /** A request line, header rows and a tail read back, the target trimmed. */
  lemma MessageReads(body: string, m: string, target: string, headers: seq<Pair>, tail: seq<string>, attrs: Attributes)
    requires Split(body, '\n') == [m + " " + target] + HeaderRows(headers) + tail
    requires KnownMethod(m) && CleanHeaders(headers) && (tail == [] || Trim(tail[0]) == "")
    ensures HttpMessage(body, attrs) ==
            if Trim(target) == "" then EmptyHttpParams(attrs)
            else
              var r := RequestTarget(m, Trim(target));
              HttpParams(m, r.url, r.params, headers, Join(DropTrailingEmpty(BehindBlank(tail)), "\n"), U64Attribute(attrs, "timeout"))
  {
    var first := m + " " + target;
    RequestLineReads(m, target);
    MethodIsWord(m);
    assert Trim(first)[0] == m[0];
    AppendAssoc([first], HeaderRows(headers), tail);
    NotesEnd(Split(body, '\n'));
    MessageFromReads(first, m, Trim(target), headers, tail, attrs);
  }
}
