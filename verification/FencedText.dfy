/** Fenced text read back line by line. */
module FencedText {
  import opened Text
  import opened Lines
  import opened Json
  import opened Blocks
  import opened BlockParser
  import opened BlockSerializer
  import opened BlockScan

  // ─── The lines of a fenced text ───────────────────────────────────

  lemma {:induction false} JoinLines(a: seq<string>, b: seq<string>, sep: string)
    requires a != [] && b != []
    ensures Join(a + b, sep) == Join(a, sep) + sep + Join(b, sep)
  {
    if |a| == 1 {
      assert a + b == [a[0]] + b;
      JoinCons(a[0], b, sep);
    } else {
      assert a + b == [a[0]] + (a[1..] + b);
      JoinCons(a[0], a[1..] + b, sep);
      JoinLines(a[1..], b, sep);
      assert (a[0] + sep) + (Join(a[1..], sep) + sep + Join(b, sep)) == (a[0] + sep + Join(a[1..], sep)) + sep + Join(b, sep);
    }
  }

  /** Head line, body lines and closing fence. */
  function FencedLines(head: string, body: string, close: string): seq<string> {
    [head] + Split(body, '\n') + [close]
  }

  lemma FencedIsJoin(info: string, body: string, ticks: string)
    requires ticks == "```"
    ensures Fenced(info, body) == Join(FencedLines(ticks + info, body, ticks), "\n")
  {
    var head, parts := ticks + info, Split(body, '\n');
    JoinSplit(body, '\n');
    JoinLines([head], parts, "\n");
    JoinAppend([head] + parts, ticks, "\n");
  }

  lemma SplitLines(body: string)
    ensures AllLines(Split(body, '\n'))
  {
  }

  predicate Closes(ticks: string) {
    ticks == "```" && ClosesFence(ticks)
  }

  lemma TicksClose(ticks: string)
    requires ticks == "```"
    ensures Closes(ticks) && OneLine(ticks) && StripCr(ticks) == ticks
  {
    TrimTrimmed(ticks);
  }

  lemma LinesOfFenced(info: string, body: string, ticks: string)
    requires ticks == "```" && OneLine(info) && StripCr(ticks + info) == ticks + info
    ensures LinesIn(Fenced(info, body)) == [ticks + info] + StripCrs(Split(body, '\n')) + [ticks]
  {
    var head, parts := ticks + info, Split(body, '\n');
    FencedIsJoin(info, body, ticks);
    SplitLines(body);
    LinesInText([head] + parts, ticks);
    StripCrsAppend([head], parts);
  }

  // ─── One block in front of other lines ────────────────────────────

  lemma {:induction false} HeightIs(g: Grammar, body: seq<string>, close: string, rest: seq<string>)
    requires (forall l | l in body :: !g.closes(l)) && g.closes(close)
    ensures BodyHeight(g, body + [close] + rest) == |body|
  {
    var all := body + [close] + rest;
    if body == [] {
      assert all[0] == close;
    } else {
      HeightIs(g, body[1..], close, rest);
      assert all[1..] == body[1..] + [close] + rest;
    }
  }

  lemma FenceInFront(g: Grammar, head: string, body: seq<string>, close: string, rest: seq<string>, at: nat)
    requires g.opens(head).Opening? && (forall l | l in body :: !g.closes(l)) && g.closes(close)
    ensures Fences(g, [head] + body + [close] + rest, at) ==
            [Fence(g.opens(head).blockType, g.opens(head).attrs, body, at)] + Fences(g, rest, at + |body| + 2)
  {
    var all, tail := [head] + body + [close] + rest, body + [close] + rest;
    assert all[1..] == tail;
    HeightIs(g, body, close, rest);
    assert all[1..1 + |body|] == body;
    assert Behind(all, |body| + 2) == rest;
  }

  // ─── A body that comes back whole ─────────────────────────────────

  /** No line closes the fence or loses a carriage return. */
  predicate CleanLines(lines: seq<string>) {
    forall l | l in lines :: !ClosesFence(l) && StripCr(l) == l
  }

  lemma {:induction false} StripCrsShrinks(lines: seq<string>, sep: string)
    ensures |Join(StripCrs(lines), sep)| <= |Join(lines, sep)|
    ensures |Join(StripCrs(lines), sep)| == |Join(lines, sep)| ==> StripCrs(lines) == lines
  {
    if |lines| > 1 {
      StripCrsShrinks(lines[1..], sep);
      JoinCons(StripCr(lines[0]), StripCrs(lines[1..]), sep);
      JoinCons(lines[0], lines[1..], sep);
      assert lines == [lines[0]] + lines[1..];
    } else if |lines| == 1 {
      assert StripCrs(lines) == [StripCr(lines[0])];
    }
  }

  lemma PrefixIsShorter(lines: seq<string>, n: nat, sep: string)
    requires 0 < n < |lines| && sep != ""
    ensures |Join(lines[..n], sep)| < |Join(lines, sep)|
  {
    JoinLines(lines[..n], lines[n..], sep);
    assert lines == lines[..n] + lines[n..];
  }

  /** A body equal to the first `n` of its own stripped lines lost nothing. */
  lemma WholeBody(body: string, n: nat)
    requires var s := StripCrs(Split(body, '\n')); n <= |s| && Join(s[..n], "\n") == body && (n < |s| ==> ClosesFence(s[n]))
    ensures StripCrs(Split(body, '\n')) == Split(body, '\n') && n == |Split(body, '\n')|
  {
    var parts := Split(body, '\n');
    var s := StripCrs(parts);
    JoinSplit(body, '\n');
    StripCrsShrinks(parts, "\n");
    if 0 < n < |s| {
      PrefixIsShorter(s, n, "\n");
    } else if n == 0 {
      EmptyDoesNotClose(s[0]);
    } else {
      assert s[..n] == s;
    }
  }

  lemma EmptyDoesNotClose(line: string)
    ensures ClosesFence(line) ==> line != ""
  {
  }

  // ─── A block that comes back whole ────────────────────────────────

  type Parser = string -> Option<Value>

  predicate WordIfAny(field: Option<string>) {
    field.Some? ==> Word(field.value)
  }

  /** The block as the parser reports it at line `at`, with `height` body lines. */
  function Placed(b: ParsedBlock, height: nat, at: nat): ParsedBlock {
    b.(lineStart := at, lineEnd := at + 1 + height)
  }

  /** The text is a head line, body lines and a closing fence, and reads back as the
      block wherever it stands. */
  ghost predicate ReadsBack(g: Grammar, b: ParsedBlock, text: string, head: string, body: seq<string>, close: string) {
    && text == Join([head] + body + [close], "\n")
    && OneLine(head) && AllLines(body) && OneLine(close) && NoCr([head] + body + [close])
    && g.opens(head).Opening? && (forall l | l in body :: !g.closes(l)) && g.closes(close) && close != ""
    && forall at: nat :: g.build(Fence(g.opens(head).blockType, g.opens(head).attrs, body, at)) == Placed(b, |body|, at)
  }

  lemma BuiltCons(g: Grammar, f: Fence, fs: seq<Fence>)
    ensures BlocksFrom(g, [f] + fs) == [g.build(f)] + BlocksFrom(g, fs)
  {
    BuiltBlocks(g, [f] + fs);
    BuiltBlocks(g, fs);
  }

  lemma ReadsBackLines(g: Grammar, b: ParsedBlock, text: string, head: string, body: seq<string>, close: string)
    requires ReadsBack(g, b, text, head, body, close)
    ensures Split(text, '\n') == [head] + body + [close] && StripCrs(Split(text, '\n')) == Split(text, '\n')
  {
    SplitJoin([head] + body + [close], '\n');
    StripCrsNone([head] + body + [close]);
  }

  /** Its lines in front of any others give that block and whatever the others give. */
  lemma ReadsBackInFront(g: Grammar, b: ParsedBlock, text: string, head: string, body: seq<string>, close: string, rest: seq<string>, at: nat)
    requires ReadsBack(g, b, text, head, body, close)
    ensures BlocksFrom(g, Fences(g, [head] + body + [close] + rest, at)) ==
            [Placed(b, |body|, at)] + BlocksFrom(g, Fences(g, rest, at + |body| + 2))
  {
    var fence, others := Fence(g.opens(head).blockType, g.opens(head).attrs, body, at), Fences(g, rest, at + |body| + 2);
    FenceInFront(g, head, body, close, rest, at);
    BuiltCons(g, fence, others);
  }

  /** A written block read back on its own. */
  lemma ReadsBackAlone(json: Parser, b: ParsedBlock, text: string, head: string, body: seq<string>, ticks: string)
    requires ticks == "```" && ReadsBack(Markdown(json), b, text, head, body, ticks)
    ensures BlocksOf(json, text) == [Placed(b, |body|, 0)]
  {
    var g, lines := Markdown(json), [head] + body + [ticks];
    ReadsBackLines(g, b, text, head, body, ticks);
    StripCrsNone([head] + body);
    LinesOfText([head] + body, ticks);
    ReadsBackInFront(g, b, text, head, body, ticks, [], 0);
    assert lines + [] == lines;
  }

  /** The first fence of a fenced text whose info string is made of clean fields:
      its body runs to the first line that closes it. */
  lemma FirstFence(g: Grammar, head: string, lines: seq<string>, close: string) returns (n: nat)
    requires g.opens(head).Opening? && g.closes(close)
    ensures n <= |lines| && (n < |lines| ==> g.closes(lines[n]))
    ensures var fences := Fences(g, [head] + lines + [close], 0);
            fences != [] && fences[0] == Fence(g.opens(head).blockType, g.opens(head).attrs, lines[..n], 0)
  {
    var all, tail := [head] + lines + [close], lines + [close];
    assert all[1..] == tail;
    n := BodyHeight(g, tail);
    BodyHeightStops(g, tail);
    assert tail[|lines|] == close;
    assert all[1..1 + n] == tail[..n] == lines[..n];
  }

  lemma OnlyFence(g: Grammar, fences: seq<Fence>, b: ParsedBlock)
    requires BlocksFrom(g, fences) == [b]
    ensures |fences| == 1 && g.build(fences[0]) == b
  {
    BuiltBlocks(g, fences);
  }

  /** The fence behind a text's only block. */
  lemma SoleFence(json: Parser, text: string, b: ParsedBlock) returns (f: Fence)
    requires BlocksOf(json, text) == [b]
    ensures Fences(Markdown(json), LinesIn(text), 0) == [f] && BlockFrom(json, f) == b
    ensures Executable(f.blockType) && CleanAttributes(f.attrs) && forall l | l in f.bodyLines :: !ClosesFence(l)
  {
    var g := Markdown(json);
    var fences := Fences(g, LinesIn(text), 0);
    OnlyFence(g, fences, b);
    f := fences[0];
    FenceShape(json, LinesIn(text), 0, f);
  }
}
