/** `str::lines`, `str::split_whitespace` and their inverses. */
module Lines {
  import opened Text

  // ─── Lines ────────────────────────────────────────────────────────

  /** A line loses one carriage return in front of its line feed. */
  function StripCr(line: string): string {
    if line != "" && line[|line| - 1] == '\r' then line[..|line| - 1] else line
  }

  function LinesOf(parts: seq<string>): seq<string>
    requires parts != []
  {
    if |parts| == 1 then (if parts[0] == "" then [] else parts) else [StripCr(parts[0])] + LinesOf(parts[1..])
  }

  /** `str::lines`: an empty last line is dropped. */
  function LinesIn(s: string): seq<string> {
    LinesOf(Split(s, '\n'))
  }

  predicate OneLine(s: string) {
    '\n' !in s
  }

  predicate AllLines(lines: seq<string>) {
    forall l | l in lines :: OneLine(l)
  }

  /** No line that a parser would shorten. */
  predicate NoCr(lines: seq<string>) {
    forall l | l in lines :: StripCr(l) == l
  }

  function StripCrs(lines: seq<string>): (r: seq<string>)
    ensures |r| == |lines| && forall i | 0 <= i < |r| :: r[i] == StripCr(lines[i])
  {
    if lines == [] then [] else [StripCr(lines[0])] + StripCrs(lines[1..])
  }

  lemma StripCrsAppend(a: seq<string>, b: seq<string>)
    ensures StripCrs(a + b) == StripCrs(a) + StripCrs(b)
  {
  }

  lemma StripCrsNone(lines: seq<string>)
    requires NoCr(lines)
    ensures StripCrs(lines) == lines
  {
  }

  /** The lines of a text whose last line is not empty. */
  lemma {:induction false} LinesOfText(lines: seq<string>, last: string)
    requires last != ""
    ensures LinesOf(lines + [last]) == StripCrs(lines) + [last]
  {
    if lines != [] {
      LinesOfText(lines[1..], last);
      assert (lines + [last])[1..] == lines[1..] + [last];
    } else {
      assert lines + [last] == [last];
    }
  }

  lemma LinesInText(lines: seq<string>, last: string)
    requires AllLines(lines) && OneLine(last) && last != ""
    ensures LinesIn(Join(lines + [last], "\n")) == StripCrs(lines) + [last]
  {
    SplitJoin(lines + [last], '\n');
    LinesOfText(lines, last);
  }

  lemma {:induction false} LinesOfFed(lines: seq<string>)
    ensures LinesOf(lines + [""]) == StripCrs(lines)
  {
    if lines == [] {
      assert lines + [""] == [""];
    } else {
      LinesOfFed(lines[1..]);
      assert (lines + [""])[1..] == lines[1..] + [""];
    }
  }

  lemma {:induction false} LinesOfAreLines(parts: seq<string>)
    requires parts != [] && AllLines(parts)
    ensures AllLines(LinesOf(parts))
  {
    if |parts| > 1 {
      LinesOfAreLines(parts[1..]);
      assert OneLine(parts[0]);
    }
  }

  lemma LinesInAreLines(s: string)
    ensures AllLines(LinesIn(s))
  {
    LinesOfAreLines(Split(s, '\n'));
  }

  lemma TrimBehind(s: string, blank: string)
    requires Blank(blank)
    ensures Trim(s + blank) == Trim(s)
  {
    var before, after := TrimCuts(s);
    AppendAssoc(before + Trim(s), after, blank);
    TrimIs(before, Trim(s), after + blank);
  }

  /** Trimming does not see the carriage return. */
  lemma TrimStripCr(line: string)
    ensures Trim(StripCr(line)) == Trim(line)
  {
    if StripCr(line) != line {
      var cut, end := StripCr(line), line[|line| - 1..];
      assert Blank(end) && line == cut + end;
      TrimBehind(cut, end);
    }
  }

  // ─── Words ────────────────────────────────────────────────────────

  function WordLength(s: string): (n: nat)
    ensures n <= |s| && NoWhitespace(s[..n])
    ensures n < |s| ==> IsWhitespace(s[n])
  {
    if s == "" || IsWhitespace(s[0]) then 0 else WordLength(s[1..]) + 1
  }

  lemma TrimStartShrinks(s: string)
    ensures |TrimStart(s)| <= |s|
  {
  }

  /** `str::split_whitespace`. */
  function SplitWhitespace(s: string): seq<string>
    decreases |s|
  {
    TrimStartShrinks(s);
    var t := TrimStart(s);
    var n := WordLength(t);
    if t == "" then [] else [t[..n]] + SplitWhitespace(t[n..])
  }

  predicate Word(s: string) {
    s != "" && NoWhitespace(s)
  }

  predicate Words(ws: seq<string>) {
    forall w | w in ws :: Word(w)
  }

  lemma {:induction false} SplitWhitespaceWords(s: string)
    ensures Words(SplitWhitespace(s))
    decreases |s|
  {
    TrimStartShrinks(s);
    var t := TrimStart(s);
    if t != "" { SplitWhitespaceWords(t[WordLength(t)..]); }
  }

  lemma {:induction false} WordLengthIs(w: string, rest: string)
    requires NoWhitespace(w) && (rest == "" || IsWhitespace(rest[0]))
    ensures WordLength(w + rest) == |w|
  {
    if w == "" {
      assert w + rest == rest;
    } else {
      WordLengthIs(w[1..], rest);
      assert (w + rest)[1..] == w[1..] + rest;
    }
  }

  lemma SplitWhitespaceCons(w: string, rest: string)
    requires Word(w) && (rest == "" || IsWhitespace(rest[0]))
    ensures SplitWhitespace(w + rest) == [w] + SplitWhitespace(rest)
  {
    var s := w + rest;
    assert TrimStart(s) == s;
    WordLengthIs(w, rest);
    assert s[..|w|] == w && s[|w|..] == rest;
  }

  lemma SplitWhitespaceSkips(c: char, rest: string)
    requires IsWhitespace(c)
    ensures SplitWhitespace([c] + rest) == SplitWhitespace(rest)
  {
    assert ([c] + rest)[1..] == rest;
  }

  /** Words after `head`, each behind one space. */
  function Spaced(words: seq<string>): string {
    if words == [] then "" else " " + words[0] + Spaced(words[1..])
  }

  lemma {:induction false} SplitSpaced(words: seq<string>)
    requires Words(words)
    ensures SplitWhitespace(Spaced(words)) == words
  {
    if words != [] {
      SplitSpaced(words[1..]);
      SplitWhitespaceSkips(' ', words[0] + Spaced(words[1..]));
      assert Spaced(words) == [' '] + (words[0] + Spaced(words[1..]));
      SplitWhitespaceCons(words[0], Spaced(words[1..]));
    }
  }

  lemma {:induction false} SpacedAppend(a: seq<string>, b: seq<string>)
    ensures Spaced(a + b) == Spaced(a) + Spaced(b)
  {
    if a == [] {
      assert a + b == b;
    } else {
      SpacedAppend(a[1..], b);
      assert (a + b)[1..] == a[1..] + b;
    }
  }

  lemma {:induction false} SpacedEnd(words: seq<string>)
    requires Words(words) && words != []
    ensures var s := Spaced(words); s != "" && !IsWhitespace(s[|s| - 1]) && OneLine(s)
  {
    if |words| > 1 { SpacedEnd(words[1..]); }
    assert words[0] in words;
    NoWhitespaceOneLine(words[0]);
  }

  lemma NoWhitespaceOneLine(s: string)
    requires NoWhitespace(s)
    ensures OneLine(s)
  {
    forall c | c in s ensures c != '\n' {
      var i :| 0 <= i < |s| && s[i] == c;
    }
  }
}
