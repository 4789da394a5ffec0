/** YAML frontmatter cut off a runbook and put back (httui-core/src/frontmatter/parser.rs). */
module Frontmatter {
  import opened Text

  datatype Split = Split(rawYaml: string, body: string)

  // ─── Cutting ──────────────────────────────────────────────────────

  /** The length of the first line, its line feed included. */
  function LineEnd(s: string): (n: nat)
    ensures n <= |s| && (s != "" ==> n > 0)
  {
    match FindChar(s, '\n')
    case None => |s|
    case Some(i) => i + 1
  }

  /** `trim_end_matches(['\n', '\r'])`. */
  function TrimNewlines(s: string): string {
    if s != "" && (s[|s| - 1] == '\n' || s[|s| - 1] == '\r') then TrimNewlines(s[..|s| - 1]) else s
  }

  predicate IsFence(line: string) {
    TrimNewlines(line) == "---"
  }

  /** From behind the opening fence on, with the lines kept so far. */
  function SplitFrom(rest: string, rawYaml: string): Option<Split>
    decreases |rest|
  {
    var n := LineEnd(rest);
    if IsFence(rest[..n]) then Some(Split(rawYaml, rest[n..]))
    else if rest[n..] == "" then None
    else SplitFrom(rest[n..], rawYaml + rest[..n])
  }

  function StripPrefix(s: string, prefix: string): Option<string> {
    if StartsWith(s, prefix) then Some(s[|prefix|..]) else None
  }

  function SplitOf(content: string): Option<Split> {
    var trimmed := if StripPrefix(content, "\U{FEFF}").Some? then StripPrefix(content, "\U{FEFF}").value else content;
    var unix, dos := StripPrefix(trimmed, "---\n"), StripPrefix(trimmed, "---\r\n");
    if unix.Some? then SplitFrom(unix.value, "")
    else if dos.Some? then SplitFrom(dos.value, "")
    else None
  }

  method SplitFrontmatter(content: string) returns (r: Option<Split>)
    ensures r == SplitOf(content)
  {
    var bom := StripPrefix(content, "\U{FEFF}");
    var trimmed := if bom.Some? then bom.value else content;
    var opener := StripPrefix(trimmed, "---\n");
    if opener.None? {
      opener := StripPrefix(trimmed, "---\r\n");
      if opener.None? { return None; }
    }
    var rest, rawYaml := opener.value, "";
    while true
      invariant SplitFrom(rest, rawYaml) == SplitFrom(opener.value, "")
      decreases |rest|
    {
      var n := LineEnd(rest);
      var line, after := rest[..n], rest[n..];
      if IsFence(line) { return Some(Split(rawYaml, after)); }
      rawYaml := rawYaml + line;
      rest := after;
      if rest == "" { return None; }
    }
  }

  function Assemble(rawYaml: string, body: string): string {
    "---\n" + rawYaml + "---\n" + body
  }

  // ─── Cutting what was put together ────────────────────────────────

  /** Whole lines, none of which is a fence. */
  predicate CleanRaw(raw: string)
    decreases |raw|
  {
    raw == "" || (var n := LineEnd(raw); raw[n - 1] == '\n' && !IsFence(raw[..n]) && CleanRaw(raw[n..]))
  }

  lemma FirstLineOf(line: string, rest: string)
    requires line != "" && line[|line| - 1] == '\n' && '\n' !in line[..|line| - 1]
    ensures LineEnd(line + rest) == |line| && (line + rest)[..|line|] == line && (line + rest)[|line|..] == rest
  {
    var core := line[..|line| - 1];
    FindCharIs(core, '\n', rest);
    assert core + ['\n'] + rest == line + rest;
  }

  lemma LineShape(s: string)
    requires s != "" && s[LineEnd(s) - 1] == '\n'
    ensures var line := s[..LineEnd(s)]; s == line + s[LineEnd(s)..] && '\n' !in line[..|line| - 1] && line[|line| - 1] == '\n'
  {
    var line := s[..LineEnd(s)];
    assert s[LineEnd(s) - 1] in s;
    assert line[..|line| - 1] == s[..FindChar(s, '\n').value];
  }

  lemma FenceLine(fence: string, rest: string)
    requires fence == "---\n"
    ensures IsFence(fence) && LineEnd(fence + rest) == 4 && (fence + rest)[..4] == fence && (fence + rest)[4..] == rest
  {
    assert fence[..3] == "---";
    FirstLineOf(fence, rest);
  }

  lemma SplitPast(line: string, rest: string, kept: string)
    requires line != "" && line[|line| - 1] == '\n' && '\n' !in line[..|line| - 1] && !IsFence(line) && rest != ""
    ensures SplitFrom(line + rest, kept) == SplitFrom(rest, kept + line)
  {
    FirstLineOf(line, rest);
  }

  /** The scan passes clean lines and stops at the fence behind them. */
  lemma {:induction false} ScanStopsBehind(raw: string, fence: string, body: string, kept: string)
    requires CleanRaw(raw) && fence == "---\n"
    ensures SplitFrom(raw + (fence + body), kept) == Some(Split(kept + raw, body))
    decreases |raw|
  {
    var tail := fence + body;
    if raw == "" {
      FenceLine(fence, body);
      assert raw + tail == tail && kept + raw == kept;
    } else {
      var n := LineEnd(raw);
      var line, more := raw[..n], raw[n..];
      LineShape(raw);
      SplitPast(line, more + tail, kept);
      AppendAssoc(line, more, tail);
      ScanStopsBehind(more, fence, body, kept + line);
      AppendAssoc(kept, line, more);
    }
  }

  lemma CleanLine(line: string, more: string)
    requires line != "" && line[|line| - 1] == '\n' && '\n' !in line[..|line| - 1] && !IsFence(line) && CleanRaw(more)
    ensures CleanRaw(line + more)
  {
    FirstLineOf(line, more);
  }

  lemma SplitStep(rest: string, kept: string, line: string, after: string)
    requires line == rest[..LineEnd(rest)] && after == rest[LineEnd(rest)..] && SplitFrom(rest, kept).Some? && !IsFence(line)
    ensures after != "" && SplitFrom(rest, kept) == SplitFrom(after, kept + line)
    ensures rest == line + after && line != "" && line[|line| - 1] == '\n' && '\n' !in line[..|line| - 1]
  {
    LineShape(rest);
  }

  /** Whatever the scan keeps is clean. */
  lemma {:induction false} ScanKeepsClean(rest: string, kept: string) returns (raw: string, close: string)
    requires SplitFrom(rest, kept).Some?
    ensures var r := SplitFrom(rest, kept).value;
            && r.rawYaml == kept + raw && CleanRaw(raw) && rest == raw + close + r.body && IsFence(close)
    decreases |rest|
  {
    var n := LineEnd(rest);
    var line, after := rest[..n], rest[n..];
    if IsFence(line) {
      raw, close := "", line;
      assert kept + "" == kept && "" + close + after == rest;
    } else {
      SplitStep(rest, kept, line, after);
      var more;
      more, close := ScanKeepsClean(after, kept + line);
      raw := line + more;
      CleanLine(line, more);
      Regrouped(kept, line, more, close, SplitFrom(rest, kept).value.body);
    }
  }

  lemma Regrouped(kept: string, line: string, more: string, close: string, body: string)
    ensures kept + line + more == kept + (line + more) && line + (more + close + body) == line + more + close + body
  {
  }

  lemma NoBom(content: string, fence: string, rest: string)
    requires fence == "---\n" && content == fence + rest
    ensures SplitOf(content) == SplitFrom(rest, "")
  {
    OpensAt("", fence, rest);
    assert "" + (fence + rest) == content;
  }

  /** MAIN: cutting what was put together gives the parts back if and only if the raw
      region consists of whole lines that are no fences. */
  lemma SplitAssembleIff(raw: string, body: string)
    ensures SplitOf(Assemble(raw, body)) == Some(Split(raw, body)) <==> CleanRaw(raw)
  {
    var fence := "---\n";
    var rest := raw + (fence + body);
    assert Assemble(raw, body) == fence + rest;
    NoBom(Assemble(raw, body), fence, rest);
    if CleanRaw(raw) {
      ScanStopsBehind(raw, fence, body, "");
      assert "" + raw == raw;
    }
    if SplitFrom(rest, "") == Some(Split(raw, body)) {
      var r, close := ScanKeepsClean(rest, "");
      assert "" + r == r;
    }
  }

  // ─── Putting together what was cut ────────────────────────────────

  /** The document around its parts: byte-order mark, opening fence, and the rest. */
  lemma Opened(content: string) returns (bom: string, opening: string, rest: string)
    requires SplitOf(content).Some?
    ensures content == bom + opening + rest && SplitOf(content) == SplitFrom(rest, "")
    ensures (bom == "" || bom == "\U{FEFF}") && (opening == "---\n" || opening == "---\r\n")
  {
    var mark, unix, dos := "\U{FEFF}", "---\n", "---\r\n";
    bom := if StartsWith(content, mark) then mark else "";
    var trimmed := content[|bom|..];
    assert content == bom + trimmed;
    opening := if StartsWith(trimmed, unix) then unix else dos;
    rest := trimmed[|opening|..];
    assert trimmed == opening + rest;
    AppendAssoc(bom, opening, rest);
  }

  lemma StartOf(a: string, b: string)
    ensures forall i | 0 <= i < |a| :: (a + b)[i] == a[i]
  {
  }

  /** A text that starts with the plain fence starts with no mark and no other fence. */
  lemma PlainStart(bom: string, opening: string, rest: string, fence: string, other: string)
    requires fence == "---\n" && bom + opening + rest == fence + other
    requires (bom == "" || bom == "\U{FEFF}") && (opening == "---\n" || opening == "---\r\n")
    ensures bom == "" && opening == fence && rest == other
  {
    var content := fence + other;
    assert content[0] == '-' && content[3] == '\n';
    StartOf(bom + opening, rest);
    StartOf(bom, opening);
    assert bom == "" ==> bom + opening + rest == opening + rest && (opening + rest)[3] == opening[3];
    assert rest == content[4..] == other;
  }

  lemma SameMiddle(a: string, x: string, y: string, b: string)
    requires a + x + b == a + y + b
    ensures x == y
  {
    assert |x| == |y|;
    assert x == (a + x + b)[|a|..|a| + |x|] && y == (a + y + b)[|a|..|a| + |y|];
  }

  /** MAIN: the documented contract, that assembling the split gives the document back,
      holds if and only if the document has no byte-order mark and both of its fences
      are exactly three dashes and a line feed. */
  lemma AssembleSplitIff(content: string) returns (bom: string, opening: string, close: string)
    requires SplitOf(content).Some?
    ensures var r := SplitOf(content).value;
            && content == bom + opening + (r.rawYaml + close + r.body) && IsFence(close) && CleanRaw(r.rawYaml)
            && (bom == "" || bom == "\U{FEFF}") && (opening == "---\n" || opening == "---\r\n")
            && (Assemble(r.rawYaml, r.body) == content <==> bom == "" && opening == "---\n" && close == "---\n")
  {
    var rest, raw;
    bom, opening, rest := Opened(content);
    raw, close := ScanKeepsClean(rest, "");
    assert "" + raw == raw;
    CompareParts(bom, opening, raw, close, SplitOf(content).value.body, "---\n");
  }

  lemma CompareParts(bom: string, opening: string, raw: string, close: string, body: string, fence: string)
    requires fence == "---\n" && (bom == "" || bom == "\U{FEFF}") && (opening == "---\n" || opening == "---\r\n")
    ensures Assemble(raw, body) == bom + opening + (raw + close + body) <==> bom == "" && opening == fence && close == fence
  {
    var other := raw + fence + body;
    assert Assemble(raw, body) == fence + other;
    if fence + other == bom + opening + (raw + close + body) {
      PlainStart(bom, opening, raw + close + body, fence, other);
      SameMiddle(raw, fence, close, body);
    }
  }

  // ─── Which documents are cut ──────────────────────────────────────

  /** Three dashes, carriage returns, and the line's end; at the document's end it may miss. */
  predicate ClosingLine(crs: string, lf: string, body: string) {
    (forall c | c in crs :: c == '\r') && (lf == "\n" || (lf == "" && body == ""))
  }

  lemma {:induction false} CrsAreTrimmed(dashes: string, crs: string)
    requires dashes == "---" && forall c | c in crs :: c == '\r'
    ensures TrimNewlines(dashes + crs) == dashes
    decreases |crs|
  {
    if crs == "" {
      assert dashes + crs == dashes;
    } else {
      var init := crs[..|crs| - 1];
      assert crs[|crs| - 1] in crs && forall c | c in init :: c in crs;
      assert (dashes + crs)[..|dashes + crs| - 1] == dashes + init;
      CrsAreTrimmed(dashes, init);
    }
  }

  lemma ClosingIsFence(dashes: string, crs: string, lf: string, body: string)
    requires dashes == "---" && ClosingLine(crs, lf, body)
    ensures var line := dashes + crs + lf;
            IsFence(line) && LineEnd(line + body) == |line| && (line + body)[..|line|] == line && (line + body)[|line|..] == body
  {
    var line := dashes + crs + lf;
    CrsAreTrimmed(dashes, crs);
    if lf == "" {
      assert line == dashes + crs && line + body == line;
      assert '\n' !in line;
    } else {
      assert line[..|line| - 1] == dashes + crs && '\n' !in dashes + crs;
      FirstLineOf(line, body);
    }
  }

  /** The scan passes clean lines and stops at any closing line. */
  lemma {:induction false} ScanStopsAt(raw: string, tail: string, close: string, body: string, kept: string)
    requires CleanRaw(raw) && tail == close + body && close != "" && IsFence(close)
    requires LineEnd(tail) == |close| && tail[..|close|] == close && tail[|close|..] == body
    ensures SplitFrom(raw + tail, kept) == Some(Split(kept + raw, body))
    decreases |raw|
  {
    if raw == "" {
      assert raw + tail == tail && kept + raw == kept;
    } else {
      var n := LineEnd(raw);
      var line, more := raw[..n], raw[n..];
      LineShape(raw);
      SplitPast(line, more + tail, kept);
      AppendAssoc(line, more, tail);
      ScanStopsAt(more, tail, close, body, kept + line);
      AppendAssoc(kept, line, more);
    }
  }

  predicate Opener(bom: string, opening: string) {
    (bom == "" || bom == "\U{FEFF}") && (opening == "---\n" || opening == "---\r\n")
  }

  lemma OpensAt(bom: string, opening: string, rest: string)
    requires Opener(bom, opening)
    ensures SplitOf(bom + (opening + rest)) == SplitFrom(rest, "")
  {
    var mark, unix, dos := "\U{FEFF}", "---\n", "---\r\n";
    var trimmed := opening + rest;
    assert trimmed[0] == '-' && trimmed[..|opening|] == opening && trimmed[|opening|..] == rest;
    if bom == "" {
      assert bom + trimmed == trimmed && trimmed[..1][0] == '-';
    } else {
      assert (bom + trimmed)[..1] == mark && (bom + trimmed)[1..] == trimmed;
    }
    if opening == dos { assert trimmed[3] == '\r' && trimmed[..4][3] == '\r'; }
  }

  /** MAIN: a document is cut at its fences whatever their line ends, and behind a
      byte-order mark: the lines in between are kept, and what follows is the body. */
  lemma DocumentIsCut(bom: string, opening: string, raw: string, dashes: string, crs: string, lf: string, body: string)
    requires Opener(bom, opening) && CleanRaw(raw) && dashes == "---" && ClosingLine(crs, lf, body)
    ensures SplitOf(bom + (opening + (raw + (dashes + crs + lf + body)))) == Some(Split(raw, body))
  {
    var close := dashes + crs + lf;
    ClosingIsFence(dashes, crs, lf, body);
    OpensAt(bom, opening, raw + (close + body));
    ScanStopsAt(raw, close + body, close, body, "");
    assert "" + raw == raw;
  }

  /** MAIN: a fence is three dashes, and nothing behind them but the line's end. */
  lemma {:induction false} FenceIff(line: string)
    ensures IsFence(line) <==> |line| >= 3 && line[..3] == "---" && forall i | 3 <= i < |line| :: line[i] == '\n' || line[i] == '\r'
    decreases |line|
  {
    if line != "" && (line[|line| - 1] == '\n' || line[|line| - 1] == '\r') {
      var init := line[..|line| - 1];
      FenceIff(init);
      if |init| >= 3 { assert line[..3] == init[..3]; }
    } else if |line| >= 3 {
      assert line[..3] == "---" && |line| == 3 ==> line == "---";
    }
  }

  /** No line of the text, its last included, is a fence. */
  predicate Fenceless(s: string)
    decreases |s|
  {
    s == "" || (!IsFence(s[..LineEnd(s)]) && Fenceless(s[LineEnd(s)..]))
  }

  lemma {:induction false} FencelessIsNotCut(s: string, kept: string)
    ensures SplitFrom(s, kept).None? <==> Fenceless(s)
    decreases |s|
  {
    if s == "" {
      assert s[..0] == "";
    } else if s[LineEnd(s)..] != "" {
      FencelessIsNotCut(s[LineEnd(s)..], kept + s[..LineEnd(s)]);
    }
  }

  /** MAIN: every other document is left whole: no opening fence, or no closing one. */
  lemma NotCutIff(content: string)
    ensures SplitOf(content).None? <==> forall bom, opening, rest | Opener(bom, opening) && content == bom + (opening + rest) :: Fenceless(rest)
  {
    if SplitOf(content).None? {
      forall bom, opening, rest | Opener(bom, opening) && content == bom + (opening + rest) ensures Fenceless(rest) {
        OpensAt(bom, opening, rest);
        FencelessIsNotCut(rest, "");
      }
    } else {
      var bom, opening, rest := Opened(content);
      AppendAssoc(bom, opening, rest);
      FencelessIsNotCut(rest, "");
      assert Opener(bom, opening) && content == bom + (opening + rest);
    }
  }
}
