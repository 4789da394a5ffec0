/** Which of the blocks a note actually yields survive being saved and opened again. */
module ParsedBlocks {
  import opened Text
  import opened Lines
  import opened BlockParser
  import opened BlockSerializer
  import opened BlockScan
  import opened FencedText
  import opened DbRoundTrip
  import opened HttpReading
  import opened HttpShape
  import opened HttpRoundTrip

  // ─── Lines put together and taken apart ───────────────────────────

  lemma JoinedLines(lines: seq<string>)
    requires AllLines(lines)
    ensures Split(Join(lines, "\n"), '\n') == if lines == [] then [""] else lines
  {
    if lines != [] {
      forall l | l in lines ensures '\n' !in l {}
      SplitJoin(lines, '\n');
    }
  }

  /** Lines that do not close and keep their ends are clean once joined. */
  lemma CleanJoined(lines: seq<string>)
    requires AllLines(lines) && forall l | l in lines :: !ClosesFence(l)
    ensures CleanLines(Split(Join(lines, "\n"), '\n')) <==> NoCr(Split(Join(lines, "\n"), '\n'))
  {
    JoinedLines(lines);
    EmptyLineOpen("");
  }

  /** What every block body cut out of a note is like. */
  predicate CutOut(f: Fence) {
    && Executable(f.blockType) && CleanAttributes(f.attrs)
    && AllLines(f.bodyLines) && forall l | l in f.bodyLines :: !ClosesFence(l)
  }

  lemma FencesAreCutOut(json: Parser, markdown: string)
    ensures forall f | f in Fences(Markdown(json), LinesIn(markdown), 0) :: CutOut(f)
  {
    LinesInAreLines(markdown);
    forall f | f in Fences(Markdown(json), LinesIn(markdown), 0) ensures CutOut(f) {
      FenceShape(json, LinesIn(markdown), 0, f);
    }
  }

  // ─── Database blocks ──────────────────────────────────────────────

  /** MAIN: a db block read from any note, its body not legacy JSON, is canonical exactly
      when no attribute of its info string is empty and no query line ends in a carriage
      return; the connection, the numbers and the fence inside the query are never at fault. */
  lemma ParsedDbIsCanonicalIff(json: Parser, markdown: string, f: Fence)
    requires f in Fences(Markdown(json), LinesIn(markdown), 0)
    requires IsDbBlock(f.blockType) && LegacyDbBody(json, Join(f.bodyLines, "\n")).None?
    ensures var b := BlockFrom(json, f);
            CanonicalDb(json, b) <==>
            b.alias != Some("") && b.displayMode != Some("") && NoCr(Split(ReadDb(b.params).query, '\n'))
  {
    var b := BlockFrom(json, f);
    FencesAreCutOut(json, markdown);
    BuiltShape(json, f, b);
    CleanJoined(f.bodyLines);
  }

  // ─── HTTP blocks ──────────────────────────────────────────────────

  lemma {:induction false} HeadRestIsSuffix(lines: seq<string>, params: seq<Pair>, headers: seq<Pair>)
    ensures forall l | l in HeadOf(lines, params, headers).rest :: l in lines
    decreases |lines|
  {
    if lines != [] && Trim(lines[0]) != "" {
      var (ps, hs) := HeadLine(Trim(lines[0]), params, headers);
      HeadRestIsSuffix(lines[1..], ps, hs);
    }
  }

  lemma {:induction false} DroppedEnd(lines: seq<string>)
    ensures var kept := DropTrailingEmpty(lines);
            (forall l | l in kept :: l in lines) && (kept != [] ==> kept[|kept| - 1] != "")
  {
    if lines != [] && lines[|lines| - 1] == "" { DroppedEnd(lines[..|lines| - 1]); }
  }

  lemma {:induction false} JoinEnd(lines: seq<string>, sep: string)
    requires lines != [] && lines[|lines| - 1] != ""
    ensures var s, last := Join(lines, sep), lines[|lines| - 1]; s != "" && s[|s| - 1] == last[|last| - 1]
  {
    if |lines| > 1 { JoinEnd(lines[1..], sep); }
  }

  /** The body a message is read with is some of its lines, without a trailing line feed. */
  lemma MessageBody(body: string, attrs: Attributes) returns (kept: seq<string>)
    ensures var p := HttpMessage(body, attrs);
            && p.body == Join(kept, "\n") && AllLines(kept) && (forall l | l in kept :: l in Split(body, '\n'))
            && (p.body != "" ==> p.body[|p.body| - 1] != '\n')
  {
    var lines := SkipNotes(Split(body, '\n'));
    SkipNotesIsSuffix(Split(body, '\n'));
    SplitLines(body);
    kept := [];
    if lines != [] && FirstLine(Trim(lines[0])).Some? {
      var params := FirstLine(Trim(lines[0])).value.params;
      HeadRestIsSuffix(lines[1..], params, []);
      kept := DropTrailingEmpty(HeadOf(lines[1..], params, []).rest);
      DroppedEnd(HeadOf(lines[1..], params, []).rest);
      if kept != [] {
        JoinEnd(kept, "\n");
        assert kept[|kept| - 1] in kept;
      }
    }
  }

  lemma ParsedBodyIsClean(f: Fence)
    requires CutOut(f)
    ensures var p := HttpMessage(Join(f.bodyLines, "\n"), f.attrs); CleanBody(p.body) <==> NoCr(Split(p.body, '\n'))
  {
    JoinedLines(f.bodyLines);
    EmptyLineOpen("");
    var kept := MessageBody(Join(f.bodyLines, "\n"), f.attrs);
    CleanJoined(kept);
  }

  /** What can still go wrong with a message that was read from a note. */
  predicate SurvivingMessage(p: HttpParams) {
    || (&& CleanParams(p.params) && Target(p.url, p.params) != "" && Trimmed(Target(p.url, p.params))
        && NoCr(Split(p.body, '\n')))
    || p == EmptyGet()
  }

  lemma TimeoutIsLost(q: HttpParams)
    requires KnownMethod(q.verb)
    ensures q.ToValue() == ReadHttp(q.ToValue()).ToValue() <==> q.timeoutMs.None?
  {
    HttpReadWritten(q);
    var without := q.(timeoutMs := None);
    assert without.ToValue().Get("timeout_ms").None?;
    if q.timeoutMs.Some? { assert q.ToValue().Get("timeout_ms").Some?; }
  }

  /** MAIN: an http block read from any note, its body not legacy JSON, is canonical
      exactly when it sets no timeout, no attribute of its info string is empty, no
      parameter holds an `&`, its request target is trimmed and not empty, and no body
      line ends in a carriage return; or when it is the parser's empty GET. */
  lemma ParsedHttpIsCanonicalIff(json: Parser, markdown: string, f: Fence)
    requires f in Fences(Markdown(json), LinesIn(markdown), 0)
    requires f.blockType == "http" && LegacyHttpBody(json, Join(f.bodyLines, "\n")).None?
    ensures var b := BlockFrom(json, f);
            CanonicalHttp(b) <==>
            && b.alias != Some("") && b.displayMode != Some("") && U64Attribute(f.attrs, "timeout").None?
            && SurvivingMessage(ReadHttp(b.params))
  {
    var b, body := BlockFrom(json, f), Join(f.bodyLines, "\n");
    var q := HttpMessage(body, f.attrs);
    FencesAreCutOut(json, markdown);
    BuiltAttributes(json, f, b);
    ParsedParams(json, f);
    MessageShape(body, f.attrs);
    TargetOneLine(q.url, q.params);
    ParsedBodyIsClean(f);
    HttpReadWritten(q);
    TimeoutIsLost(q);
  }

  lemma ParsedParams(json: Parser, f: Fence)
    requires f.blockType == "http" && LegacyHttpBody(json, Join(f.bodyLines, "\n")).None?
    ensures BlockFrom(json, f).params == HttpMessage(Join(f.bodyLines, "\n"), f.attrs).ToValue()
  {
    assert f.blockType[0] == 'h' && f.blockType[..3][0] == 'h';
    assert !IsDbBlock(f.blockType);
  }
}
