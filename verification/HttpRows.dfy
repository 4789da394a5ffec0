/** Rows of an HTTP message that the serializer does not write: query continuations,
    comments, and rows that say nothing. */
module HttpRows {
  import opened Text
  import opened Lines
  import opened BlockParser
  import opened BlockSerializer
  import opened HttpReading

  // ─── One row ──────────────────────────────────────────────────────

  predicate IsMark(mark: string) {
    mark == "?" || mark == "&"
  }

  /** A parameter that stands alone on a row behind its mark. */
  predicate RowParam(p: Pair) {
    p.key != "" && '=' !in p.key && OneLine(Segment(p)) && !IsWhitespace(Segment(p)[|Segment(p)| - 1])
  }

  lemma MarkedRowTrims(before: string, mark: string, p: Pair, after: string)
    requires IsMark(mark) && RowParam(p) && Blank(before) && Blank(after)
    ensures Trim(before + (mark + Segment(p)) + after) == mark + Segment(p)
  {
    TrimIs(before, mark + Segment(p), after);
  }

  /** One row read, whatever comes behind it. */
  lemma HeadGoesOn(row: string, rest: seq<string>, params: seq<Pair>, headers: seq<Pair>, params': seq<Pair>, headers': seq<Pair>)
    requires Trim(row) != "" && HeadLine(Trim(row), params, headers) == (params', headers')
    ensures HeadOf([row] + rest, params, headers) == HeadOf(rest, params', headers')
  {
    assert ([row] + rest)[1..] == rest;
  }

  lemma MarkedLine(t: string, mark: string, seg: string, params: seq<Pair>)
    requires IsMark(mark) && t == mark + seg
    ensures t != "" && HeadLine(t, params, []) == (match QuerySegment(seg) case None => (params, []) case Some(p) => (params + [p], []))
  {
    assert t[1..] == seg;
  }

  /** MAIN: while no header has been read, a row of a mark and a parameter adds exactly
      that parameter behind those so far. */
  lemma ContinuationAdds(row: string, mark: string, p: Pair, rest: seq<string>, params: seq<Pair>)
    requires IsMark(mark) && p.key != "" && '=' !in p.key && Trim(row) == mark + Segment(p)
    ensures HeadOf([row] + rest, params, []) == HeadOf(rest, params + [p], [])
  {
    SegmentReads(p);
    MarkedLine(Trim(row), mark, Segment(p), params);
    HeadGoesOn(row, rest, params, [], params + [p], []);
  }

  /** A continuation without a key adds nothing. */
  lemma KeylessContinuationIsDropped(row: string, mark: string, seg: string, rest: seq<string>, params: seq<Pair>)
    requires IsMark(mark) && (seg == "" || seg[0] == '=') && Trim(row) == mark + seg
    ensures HeadOf([row] + rest, params, []) == HeadOf(rest, params, [])
  {
    MarkedLine(Trim(row), mark, seg, params);
    HeadGoesOn(row, rest, params, [], params, []);
  }

  /** A comment adds nothing, wherever it stands in the head. */
  lemma CommentIsDropped(row: string, rest: seq<string>, params: seq<Pair>, headers: seq<Pair>)
    requires Trim(row) != "" && Trim(row)[0] == '#'
    ensures HeadOf([row] + rest, params, headers) == HeadOf(rest, params, headers)
  {
    HeadGoesOn(row, rest, params, headers, params, headers);
  }

  /** So does a row that is neither marked nor has a colon. */
  lemma ColonlessRowIsDropped(row: string, rest: seq<string>, params: seq<Pair>, headers: seq<Pair>)
    requires var t := Trim(row); t != "" && ':' !in t && (headers == [] ==> t[0] != '?' && t[0] != '&')
    ensures HeadOf([row] + rest, params, headers) == HeadOf(rest, params, headers)
  {
    HeadGoesOn(row, rest, params, headers, params, headers);
  }

  /** Behind a header, every row is read as a header, a marked one too. */
  lemma MarkedHeaderIsHeader(h: Pair, rest: seq<string>, params: seq<Pair>, headers: seq<Pair>)
    requires CleanHeader(h) && headers != []
    ensures HeadOf([HeaderRow(h)] + rest, params, headers) == HeadOf(rest, params, headers + [h])
  {
    RowReads(h, params, headers);
    HeadStep(HeaderRow(h), rest, params, headers, h);
  }

  // ─── Whole messages ───────────────────────────────────────────────

  /** Parameters, each behind its own mark. */
  type Marked = (string, Pair)

  predicate CleanMarked(rows: seq<Marked>) {
    forall r | r in rows :: IsMark(r.0) && RowParam(r.1)
  }

  function MarkedRows(rows: seq<Marked>): seq<string> {
    if rows == [] then [] else [rows[0].0 + Segment(rows[0].1)] + MarkedRows(rows[1..])
  }

  function ParamsOf(rows: seq<Marked>): seq<Pair> {
    if rows == [] then [] else [rows[0].1] + ParamsOf(rows[1..])
  }

  lemma MarkedRowFirst(r: Marked, rest: seq<string>, params: seq<Pair>)
    requires IsMark(r.0) && RowParam(r.1)
    ensures HeadOf([r.0 + Segment(r.1)] + rest, params, []) == HeadOf(rest, params + [r.1], [])
  {
    var row := r.0 + Segment(r.1);
    MarkedRowTrims("", r.0, r.1, "");
    assert "" + row + "" == row;
    ContinuationAdds(row, r.0, r.1, rest, params);
  }

  lemma {:induction false} MarkedRowsRead(rows: seq<Marked>, rest: seq<string>, params: seq<Pair>)
    requires CleanMarked(rows)
    ensures HeadOf(MarkedRows(rows) + rest, params, []) == HeadOf(rest, params + ParamsOf(rows), [])
    decreases |rows|
  {
    if rows == [] {
      AppendNone(rest, params, ParamsOf(rows));
    } else {
      assert rows[0] in rows && forall r | r in rows[1..] :: r in rows;
      MarkedRowFirst(rows[0], MarkedRows(rows[1..]) + rest, params);
      AppendAssoc([rows[0].0 + Segment(rows[0].1)], MarkedRows(rows[1..]), rest);
      MarkedRowsRead(rows[1..], rest, params + [rows[0].1]);
      AppendAssoc(params, [rows[0].1], ParamsOf(rows[1..]));
    }
  }

  /** The lines of a message behind its notes, some parameters on rows of their own. */
  function ContinuedLines(m: string, url: string, inline: seq<Pair>, rows: seq<Marked>, headers: seq<Pair>, tail: seq<string>): seq<string> {
    [m + " " + Target(url, inline)] + (MarkedRows(rows) + (HeaderRows(headers) + tail))
  }

  predicate CleanRequest(m: string, url: string, inline: seq<Pair>) {
    KnownMethod(m) && '?' !in url && CleanParams(inline) && Trimmed(Target(url, inline)) && Target(url, inline) != ""
  }

  /** MAIN: a message whose parameters stand partly in the request line and partly on
      continuation rows, any notes in front of it, is read with all of them in order. */
  lemma ContinuedMessageReads(body: string, notes: seq<string>, m: string, url: string, inline: seq<Pair>, rows: seq<Marked>,
                              headers: seq<Pair>, tail: seq<string>, attrs: Attributes)
    requires Split(body, '\n') == notes + ContinuedLines(m, url, inline, rows, headers, tail)
    requires IsNotes(notes) && CleanRequest(m, url, inline) && CleanMarked(rows) && CleanHeaders(headers) && (tail == [] || Trim(tail[0]) == "")
    ensures HttpMessage(body, attrs) ==
            HttpParams(m, url, inline + ParamsOf(rows), headers, Join(DropTrailingEmpty(BehindBlank(tail)), "\n"), U64Attribute(attrs, "timeout"))
  {
    var first, rest := m + " " + Target(url, inline), MarkedRows(rows) + (HeaderRows(headers) + tail);
    RequestLineReads(m, Target(url, inline));
    TrimTrimmed(Target(url, inline));
    TargetReads(m, url, inline);
    MethodIsWord(m);
    assert Trim(first)[0] == m[0];
    NotesAreSkipped(notes, [first] + rest);
    NotesEnd([first] + rest);
    assert ([first] + rest)[1..] == rest;
    MarkedRowsRead(rows, HeaderRows(headers) + tail, inline);
    RowsRead(headers, tail, inline + ParamsOf(rows), []);
    AppendNone(headers, headers, []);
  }

  /** MAIN: with the same parameters all in the request line it is read the same. */
  lemma ContinuationsAreInline(body: string, inlined: string, m: string, url: string, inline: seq<Pair>, rows: seq<Marked>,
                               headers: seq<Pair>, tail: seq<string>, attrs: Attributes)
    requires Split(body, '\n') == ContinuedLines(m, url, inline, rows, headers, tail)
    requires Split(inlined, '\n') == ContinuedLines(m, url, inline + ParamsOf(rows), [], headers, tail)
    requires CleanRequest(m, url, inline) && CleanRequest(m, url, inline + ParamsOf(rows))
    requires CleanMarked(rows) && CleanHeaders(headers) && (tail == [] || Trim(tail[0]) == "")
    ensures HttpMessage(body, attrs) == HttpMessage(inlined, attrs)
  {
    var all := inline + ParamsOf(rows);
    AppendNone(Split(body, '\n'), all, ParamsOf([]));
    AppendNone(Split(inlined, '\n'), all, ParamsOf([]));
    ContinuedMessageReads(body, [], m, url, inline, rows, headers, tail, attrs);
    ContinuedMessageReads(inlined, [], m, url, all, [], headers, tail, attrs);
  }

  // ─── In front of the message ──────────────────────────────────────

  /** Blank lines and comments. */
  predicate IsNotes(notes: seq<string>) {
    forall n | n in notes :: Trim(n) == "" || Trim(n)[0] == '#'
  }

  lemma {:induction false} NotesAreSkipped(notes: seq<string>, lines: seq<string>)
    requires IsNotes(notes)
    ensures SkipNotes(notes + lines) == SkipNotes(lines)
  {
    if notes == [] {
      assert notes + lines == lines;
    } else {
      assert notes[0] in notes && forall n | n in notes[1..] :: n in notes;
      assert (notes + lines)[1..] == notes[1..] + lines;
      NotesAreSkipped(notes[1..], lines);
    }
  }

  // ─── Request lines that are none ──────────────────────────────────

  /** A first word that is none of the seven methods gives the empty GET, whatever follows. */
  lemma OtherMethodIsEmptyGet(word: string, target: string, rest: seq<string>, attrs: Attributes)
    requires Word(word) && word[0] != '#'
    requires word !in ["GET", "POST", "PUT", "PATCH", "DELETE", "HEAD", "OPTIONS"]
    ensures MessageFrom([word + " " + target] + rest, attrs) == HttpParams("GET", "", [], [], "", U64Attribute(attrs, "timeout"))
  {
    WordAndRest(word, ' ', target);
  }

  lemma SevenMethods(m: string)
    requires m in ["GET", "POST", "PUT", "PATCH", "DELETE", "HEAD", "OPTIONS"]
    ensures KnownMethod(m)
  {
  }
}
