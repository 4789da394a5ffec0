/** What holds of every HTTP message the parser returns. */
module HttpShape {
  import opened Text
  import opened Lines
  import opened BlockParser
  import opened BlockSerializer
  import opened HttpReading

  /** A read parameter: its key is not empty and holds no `=`, and all of it came off one line. */
  predicate ShapedParam(p: Pair) {
    ReadParam(p) && OneLine(p.key) && OneLine(p.value)
  }

  predicate ShapedParams(params: seq<Pair>) {
    forall p | p in params :: ShapedParam(p)
  }

  lemma TrimWithin(s: string)
    ensures CharsOf(Trim(s), s)
  {
    var before, after := TrimCuts(s);
  }

  lemma SliceWithin(s: string, i: nat, j: nat)
    requires i <= j <= |s|
    ensures CharsOf(s[i..j], s)
  {
  }

  lemma {:induction false} SegmentsWithin(segs: seq<string>, whole: string)
    requires OneLine(whole) && forall s | s in segs :: CharsOf(s, whole)
    ensures ShapedParams(QuerySegments(segs))
  {
    if segs != [] {
      assert segs[0] in segs;
      SegmentsWithin(segs[1..], whole);
      SegmentShape(segs[0]);
    }
  }

  lemma TargetWithin(m: string, x: string)
    requires OneLine(x)
    ensures var r := RequestTarget(m, x); OneLine(r.url) && ShapedParams(r.params)
  {
    var mark := FindChar(x, '?');
    if mark.Some? {
      var query := x[mark.value + 1..];
      SliceWithin(x, mark.value + 1, |x|);
      SplitWithin(query, '&');
      SegmentsWithin(Split(query, '&'), x);
    }
  }

  lemma FirstLineShape(line: string)
    requires OneLine(line)
    ensures match FirstLine(line)
            case None => true
            case Some(r) => KnownMethod(r.verb) && '?' !in r.url && OneLine(r.url) && ShapedParams(r.params)
  {
    var n := WordLength(line);
    if n < |line| {
      var rest := line[n + 1..];
      TrimWithin(rest);
      TargetShape(line[..n], Trim(rest));
      TargetWithin(line[..n], Trim(rest));
    }
  }

  lemma TrimKeepsFirst(s: string)
    requires s != "" && !IsWhitespace(s[0])
    ensures Trim(s) != "" && Trim(s)[0] == s[0]
  {
    TrimBlank(s);
    var after := TrimEndCuts(s);
  }

  /** A row read as a header is a clean one. */
  lemma HeaderShape(t: string)
    requires t != "" && Trimmed(t) && OneLine(t) && t[0] != '#'
    ensures match HeaderLine(t) case None => true case Some(h) => CleanHeader(h) && h.key[0] == t[0]
  {
    var mark := FindChar(t, ':');
    if mark.Some? {
      var key, value := t[..mark.value], t[mark.value + 1..];
      var b, a := TrimCuts(key);
      b, a := TrimCuts(value);
      TrimWithin(key);
      TrimWithin(value);
      if key != "" { TrimKeepsFirst(key); }
    }
  }

  lemma HeadLineShape(t: string, params: seq<Pair>, headers: seq<Pair>)
    requires t != "" && Trimmed(t) && OneLine(t) && ShapedParams(params) && CleanHeaders(headers)
    ensures var (ps, hs) := HeadLine(t, params, headers); ShapedParams(ps) && CleanHeaders(hs)
  {
    if t[0] != '#' {
      SegmentShape(t[1..]);
      HeaderShape(t);
    }
  }

  lemma {:induction false} HeadShape(lines: seq<string>, params: seq<Pair>, headers: seq<Pair>)
    requires AllLines(lines) && ShapedParams(params) && CleanHeaders(headers)
    ensures var head := HeadOf(lines, params, headers); ShapedParams(head.params) && CleanHeaders(head.headers)
    decreases |lines|
  {
    if lines != [] && Trim(lines[0]) != "" {
      var t := Trim(lines[0]);
      assert lines[0] in lines;
      TrimWithin(lines[0]);
      var b, a := TrimCuts(lines[0]);
      HeadLineShape(t, params, headers);
      var (ps, hs) := HeadLine(t, params, headers);
      HeadShape(lines[1..], ps, hs);
    }
  }

  lemma {:induction false} SkipNotesIsSuffix(lines: seq<string>)
    ensures forall l | l in SkipNotes(lines) :: l in lines
  {
    if lines != [] { SkipNotesIsSuffix(lines[1..]); }
  }

  /** Whatever the body says, the message read from it has these parts. */
  lemma MessageShape(body: string, attrs: Attributes)
    ensures var p := HttpMessage(body, attrs);
            && KnownMethod(p.verb) && '?' !in p.url && OneLine(p.url)
            && ShapedParams(p.params) && CleanHeaders(p.headers) && p.timeoutMs == U64Attribute(attrs, "timeout")
  {
    var lines := SkipNotes(Split(body, '\n'));
    SkipNotesIsSuffix(Split(body, '\n'));
    if lines != [] {
      assert lines[0] in lines;
      TrimWithin(lines[0]);
      FirstLineShape(Trim(lines[0]));
      var r := FirstLine(Trim(lines[0]));
      if r.Some? { HeadShape(lines[1..], r.value.params, []); }
    }
  }

  lemma {:induction false} PartsOneLine(params: seq<Pair>)
    requires ShapedParams(params)
    ensures OneLine(Join(QueryParts(params), "&"))
  {
    if params != [] {
      assert params[0] in params;
      PartsOneLine(params[1..]);
      if QueryParts(params[1..]) != [] { JoinCons(Segment(params[0]), QueryParts(params[1..]), "&"); }
    }
  }

  lemma TargetOneLine(url: string, params: seq<Pair>)
    requires OneLine(url) && ShapedParams(params)
    ensures OneLine(Target(url, params))
  {
    PartsOneLine(params);
  }
}
