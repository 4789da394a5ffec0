/** The scanner's four loops agree with each other and survive re-scanning. */
module SqlScannerTheorems {
  import opened Text
  import opened SqlScanner

  // ─── Scanning is a homomorphism at safe cuts ──────────────────────

  predicate Pair(x: char, y: char) {
    (x == '-' && y == '-') || (x == '/' && y == '*') || (x == '*' && y == '/')
  }

  /** No two-character token straddles the cut. */
  predicate SafeCut(a: string, b: string) {
    a == "" || b == "" || !Pair(a[|a| - 1], b[0])
  }

  /** The characters the loops look for in code. */
  predicate Mark(c: char) {
    c == ';' || c == '?'
  }

  lemma StepAcross(a: string, b: string, m: Mode) returns (m': Mode, k: nat)
    requires a != "" && SafeCut(a, b)
    ensures (m', k) == Step(m, a[0], Second(a)) == Step(m, a[0], Second(a + b))
    ensures k <= |a| && (a + b)[k..] == a[k..] + b && SafeCut(a[k..], b)
  {
    var r := Step(m, a[0], Second(a));
    m', k := r.0, r.1;
  }

  lemma {:induction false} ScanConcat(a: string, b: string, m: Mode)
    requires SafeCut(a, b)
    ensures After(a + b, m) == After(b, After(a, m))
    ensures Count(a + b, m) == Count(a, m) + Count(b, After(a, m))
    decreases |a|
  {
    if a == "" {
      assert a + b == b;
    } else {
      var m', k := StepAcross(a, b, m);
      ScanConcat(a[k..], b, m');
    }
  }

  lemma {:induction false} CutConcat(a: string, b: string, m: Mode, mark: char)
    requires SafeCut(a, b)
    ensures FirstCut(a + b, m, mark) ==
            if FirstCut(a, m, mark) < |a| then FirstCut(a, m, mark) else |a| + FirstCut(b, After(a, m), mark)
    decreases |a|
  {
    if a == "" {
      assert a + b == b;
    } else {
      var m', k := StepAcross(a, b, m);
      CutConcat(a[k..], b, m', mark);
    }
  }

  // ─── Cuts ─────────────────────────────────────────────────────────

  /** No `mark` in code. */
  predicate Free(s: string, mark: char) {
    FirstCut(s, Code, mark) == |s|
  }

  lemma {:induction false} CutIsMark(s: string, m: Mode, mark: char)
    requires FirstCut(s, m, mark) < |s|
    ensures s[FirstCut(s, m, mark)] == mark
    decreases |s|
  {
    var (m', k) := Step(m, s[0], Second(s));
    if !(s[0] == mark && m == Code) { CutIsMark(s[k..], m', mark); }
  }

  /** What a scan finds at its first cut: a mark, reached in code, with none before it. */
  lemma CutShape(s: string, m: Mode, mark: char) returns (g: string, rest: string)
    requires Mark(mark) && FirstCut(s, m, mark) < |s|
    ensures g == s[..FirstCut(s, m, mark)] && rest == s[FirstCut(s, m, mark) + 1..] && s == g + ([mark] + rest)
    ensures After(g, m) == Code && FirstCut(g, m, mark) == |g|
  {
    var c := FirstCut(s, m, mark);
    g, rest := s[..c], s[c + 1..];
    CutIsMark(s, m, mark);
    assert s == g + ([mark] + rest);
    CutConcat(g, [mark] + rest, m, mark);
  }

  /** The cuts, joined by the mark, are the text. */
  lemma {:induction false} CutsJoin(s: string, mark: char)
    requires Mark(mark)
    ensures Join(Cuts(s, mark), [mark]) == s
    decreases |s|
  {
    if !Free(s, mark) {
      var g, rest := CutShape(s, Code, mark);
      CutsJoin(rest, mark);
      JoinCons(g, Cuts(rest, mark), [mark]);
      AppendAssoc(g, [mark], rest);
    }
  }

  /** The cuts are exactly at the marks in code: inside a part there is none, and
      every part but the last ends in code. */
  lemma {:induction false} CutsShape(s: string, mark: char)
    requires Mark(mark)
    ensures var parts := Cuts(s, mark);
            forall i | 0 <= i < |parts| :: Free(parts[i], mark) && (i + 1 < |parts| ==> After(parts[i], Code) == Code)
    decreases |s|
  {
    if !Free(s, mark) {
      var g, rest := CutShape(s, Code, mark);
      CutsShape(rest, mark);
      var parts := Cuts(s, mark);
      forall i | 0 <= i < |parts|
        ensures Free(parts[i], mark) && (i + 1 < |parts| ==> After(parts[i], Code) == Code)
      {
        if i > 0 { assert parts[i] == Cuts(rest, mark)[i - 1]; }
      }
    }
  }

  /** MAIN: the segments, joined by `;`, are the text: the pieces are its disjoint
      substrings, in order, and nothing but `;` and blanks is lost between them. */
  lemma SegmentsJoin(s: string)
    ensures Join(Segments(s), ";") == s
    ensures forall g | g in Segments(s) :: Free(g, ';')
  {
    CutsJoin(s, ';');
    CutsShape(s, ';');
  }

  // ─── Pieces ───────────────────────────────────────────────────────

  lemma {:induction false} BlankScan(s: string, m: Mode)
    requires Blank(s)
    ensures Count(s, m) == 0 && FirstCut(s, m, ';') == |s| && (m == Code ==> After(s, m) == Code)
    decreases |s|
  {
    if s != "" {
      assert IsWhitespace(s[0]);
      var (m', k) := Step(m, s[0], Second(s));
      assert k == 1 by {
        assert m == BlockComment ==> s[0] != '*';
      }
      BlankScan(s[1..], m');
    }
  }

  /** Around a trimmed text, blanks change neither the cuts nor the counts. */
  lemma TrimKeepsScan(s: string)
    ensures Free(s, ';') ==> Free(Trim(s), ';')
    ensures Count(Trim(s), Code) == Count(s, Code)
  {
    var before, after := TrimCuts(s);
    var core := Trim(s);
    BlankScan(before, Code);
    BlankScan(after, After(core, Code));
    AppendAssoc(before, core, after);
    ScanConcat(before, core + after, Code);
    ScanConcat(core, after, Code);
    CutConcat(before, core + after, Code, ';');
    CutConcat(core, after, Code, ';');
  }

  lemma {:induction false} PieceIsSegment(segments: seq<string>, p: string)
    requires p in Pieces(segments)
    ensures p != "" && exists g | g in segments :: p == Trim(g)
  {
    if p in Pieces(segments[1..]) {
      PieceIsSegment(segments[1..], p);
    } else {
      assert p == Trim(segments[0]);
    }
  }

  /** MAIN: every emitted statement, scanned again, is itself one statement. */
  lemma PieceRescansToItself(s: string, p: string)
    requires p in Statements(s)
    ensures Statements(p) == [p] && !Multiple(p) && Trim(p) == p
  {
    PieceIsSegment(Segments(s), p);
    SegmentsJoin(s);
    var g :| g in Segments(s) && p == Trim(g);
    TrimKeepsScan(g);
    var before, after := TrimCuts(g);
    TrimTrimmed(p);
    LastPiece(p);
  }

  function SumCounts(statements: seq<string>): nat {
    if statements == [] then 0 else Count(statements[0], Code) + SumCounts(statements[1..])
  }

  lemma EmitCounts(g: string, rest: seq<string>)
    ensures SumCounts(Emit(g) + rest) == Count(g, Code) + SumCounts(rest)
  {
    TrimKeepsScan(g);
    if Trim(g) == "" {
      assert Emit(g) + rest == rest;
    } else {
      assert (Emit(g) + rest)[1..] == rest;
    }
  }

  lemma MarkCounts(g: string, mark: char, rest: string)
    requires Mark(mark) && After(g, Code) == Code
    ensures Count(g + ([mark] + rest), Code) == Count(g, Code) + (if mark == '?' then 1 else 0) + Count(rest, Code)
  {
    ScanConcat(g, [mark] + rest, Code);
    assert ([mark] + rest)[1..] == rest;
  }

  /** MAIN: no placeholder is lost or invented by splitting. */
  lemma {:induction false} SplitConservesPlaceholders(s: string)
    ensures SumCounts(Statements(s)) == Count(s, Code)
    decreases |s|
  {
    if Free(s, ';') {
      LastPiece(s);
      EmitCounts(s, []);
      assert Emit(s) + [] == Emit(s);
    } else {
      var g, rest := CutShape(s, Code, ';');
      SplitConservesPlaceholders(rest);
      PiecesCons(g, Segments(rest));
      EmitCounts(g, Statements(rest));
      MarkCounts(g, ';', rest);
    }
  }

  lemma BlankPieces(s: string)
    requires Blank(s)
    ensures Statements(s) == []
  {
    BlankScan(s, Code);
    LastPiece(s);
    TrimBlank(s);
  }

  /** MAIN: the multi-statement test says yes exactly when something is left behind
      the first boundary; in particular it says yes to two or more pieces. */
  lemma MultipleIff(s: string)
    ensures Multiple(s) <==> |Segments(s)| > 1 && !Blank(Join(Segments(s)[1..], ";"))
    ensures |Statements(s)| > 1 ==> Multiple(s)
  {
    if Free(s, ';') {
      LastPiece(s);
    } else {
      var g, rest := CutShape(s, Code, ';');
      SegmentsJoin(rest);
      TrimBlank(rest);
      assert Segments(s)[1..] == Segments(rest);
      PiecesCons(g, Segments(rest));
      if Blank(rest) { BlankPieces(rest); }
    }
  }

  // ─── Placeholders ─────────────────────────────────────────────────

  /** Parts joined by `$first`, `$first+1`, … */
  function Numbered(parts: seq<string>, first: nat): string
    requires parts != []
  {
    if |parts| == 1 then parts[0] else parts[0] + (("$" + Decimal(first)) + Numbered(parts[1..], first + 1))
  }

  lemma NumberedCons(g: string, rest: seq<string>, first: nat)
    requires rest != []
    ensures Numbered([g] + rest, first) == g + (Label(first) + Numbered(rest, first + 1))
  {
    assert ([g] + rest)[1..] == rest;
  }

  /** A stretch without placeholders is copied. */
  lemma {:induction false} NormalizePast(g: string, m: Mode, rest: string, n: nat)
    requires FirstCut(g, m, '?') == |g| && SafeCut(g, rest)
    ensures Normalize(g + rest, m, n) == g + Normalize(rest, After(g, m), n)
    decreases |g|
  {
    if g == "" {
      assert g + rest == rest;
    } else {
      var m', k := StepAcross(g, rest, m);
      NormalizePast(g[k..], m', rest, n);
      CopyAcross(g, k, rest, Normalize(rest, After(g, m), n));
    }
  }

  lemma CopyAcross(g: string, k: nat, rest: string, tail: string)
    requires k <= |g|
    ensures (g + rest)[..k] + (g[k..] + tail) == g + tail
  {
  }

  lemma {:induction false} FreeCounts(s: string, m: Mode)
    ensures Count(s, m) == 0 <==> FirstCut(s, m, '?') == |s|
    decreases |s|
  {
    if s != "" {
      var (m', k) := Step(m, s[0], Second(s));
      FreeCounts(s[k..], m');
    }
  }

  /** The first placeholder of a text, and what normalizing makes of it. */
  lemma FirstPlaceholder(s: string, n: nat) returns (g: string, rest: string)
    requires n + 1 < U32_LIMIT && Count(s, Code) > 0
    ensures s == g + ("?" + rest) && Free(g, '?') && After(g, Code) == Code
    ensures Cuts(s, '?') == [g] + Cuts(rest, '?') && Count(s, Code) == 1 + Count(rest, Code) && |rest| < |s|
    ensures Normalize(s, Code, n) == g + (Label(n + 1) + Normalize(rest, Code, n + 1))
  {
    FreeCounts(s, Code);
    g, rest := CutShape(s, Code, '?');
    NormalizeFirst(g, rest, n);
    FirstCounts(g, rest);
  }

  lemma FirstCounts(g: string, rest: string)
    requires Free(g, '?') && After(g, Code) == Code
    ensures Count(g + ("?" + rest), Code) == 1 + Count(rest, Code)
  {
    FreeCounts(g, Code);
    MarkCounts(g, '?', rest);
  }

  lemma NormalizeFirst(g: string, rest: string, n: nat)
    requires n + 1 < U32_LIMIT && Free(g, '?') && After(g, Code) == Code
    ensures Normalize(g + ("?" + rest), Code, n) == g + (Label(n + 1) + Normalize(rest, Code, n + 1))
  {
    NormalizePast(g, Code, "?" + rest, n);
    NormalizeMark(rest, n);
  }

  lemma NormalizeMark(rest: string, n: nat)
    requires n + 1 < U32_LIMIT
    ensures Normalize("?" + rest, Code, n) == Label(n + 1) + Normalize(rest, Code, n + 1)
  {
    assert ("?" + rest)[1..] == rest;
    assert (n + 1) % U32_LIMIT == n + 1;
  }

  lemma NoPlaceholder(s: string, n: nat)
    requires Count(s, Code) == 0
    ensures Normalize(s, Code, n) == s && Cuts(s, '?') == [s]
  {
    FreeCounts(s, Code);
    NormalizePast(s, Code, "", n);
    assert s + "" == s;
  }

  lemma {:induction false} NormalizeFrom(s: string, n: nat)
    requires n + Count(s, Code) < U32_LIMIT
    ensures |Cuts(s, '?')| == Count(s, Code) + 1 && Normalize(s, Code, n) == Numbered(Cuts(s, '?'), n + 1)
    decreases |s|
  {
    if Count(s, Code) == 0 {
      NoPlaceholder(s, n);
    } else {
      var g, rest := FirstPlaceholder(s, n);
      NormalizeFrom(rest, n + 1);
      NumberedCons(g, Cuts(rest, '?'), n + 1);
    }
  }

  /** MAIN: the text cut at its code-position `?`s, one part more than there are
      placeholders; normalizing joins the same parts by `$1`, `$2`, … instead. */
  lemma NormalizeReplacesExactly(s: string)
    requires Count(s, Code) < 0x1_0000_0000
    ensures var parts := Cuts(s, '?');
            && |parts| == Count(s, Code) + 1
            && s == Join(parts, "?") && Normalize(s, Code, 0) == Numbered(parts, 1)
            && (forall i | 0 <= i < |parts| :: Count(parts[i], Code) == 0 && (i + 1 < |parts| ==> After(parts[i], Code) == Code))
  {
    CutsJoin(s, '?');
    CutsShape(s, '?');
    NormalizeFrom(s, 0);
    forall i | 0 <= i < |Cuts(s, '?')| ensures Count(Cuts(s, '?')[i], Code) == 0 {
      FreeCounts(Cuts(s, '?')[i], Code);
    }
  }

  // ─── The normalized text, scanned again ───────────────────────────

  predicate Neutral(c: char) {
    c != '\'' && c != '-' && c != '/' && c != ';' && c != '?'
  }

  /** In code, neutral characters pass one by one, whatever follows. */
  lemma {:induction false} NeutralRun(a: string, b: string)
    requires forall i | 0 <= i < |a| :: Neutral(a[i])
    ensures After(a + b, Code) == After(b, Code)
    ensures Count(a + b, Code) == Count(b, Code)
    ensures forall mark | Mark(mark) :: FirstCut(a + b, Code, mark) == |a| + FirstCut(b, Code, mark)
    decreases |a|
  {
    if a == "" {
      assert a + b == b;
    } else {
      assert Neutral(a[0]) && (a + b)[1..] == a[1..] + b;
      NeutralRun(a[1..], b);
    }
  }

  /** Text before which nothing is pending and in which no statement ends. */
  lemma MultipleBehind(a: string, b: string)
    requires FirstCut(a + b, Code, ';') == |a| + FirstCut(b, Code, ';')
    ensures Multiple(a + b) <==> Multiple(b)
  {
    var c := FirstCut(b, Code, ';');
    if c < |b| { assert (a + b)[|a| + c + 1..] == b[c + 1..]; }
  }

  lemma MultipleBefore(a: string, b: string, i: nat)
    requires FirstCut(a, Code, ';') < |a| && SafeCut(a, b) && i < |b| && !IsWhitespace(b[i])
    ensures Multiple(a + b)
  {
    CutConcat(a, b, Code, ';');
    var c := FirstCut(a, Code, ';');
    var rest := (a + b)[c + 1..];
    TrimBlank(rest);
    assert rest[|a| - c - 1 + i] == b[i];
  }

  lemma DigitsAreNeutral(k: nat)
    ensures forall i | 0 <= i < |Label(k)| :: Neutral(Label(k)[i]) && !Pair(Label(k)[i], '-')
    ensures !IsWhitespace(Label(k)[0])
  {
    assert forall i | 0 < i < |Label(k)| :: IsDigit(Label(k)[i]);
  }

  /** MAIN: normalizing leaves no placeholder in code and changes nothing else the
      scanner looks at; in particular a second normalization changes nothing. */
  lemma {:induction false} NormalizedScan(s: string, n: nat)
    requires n + Count(s, Code) < U32_LIMIT
    ensures var t := Normalize(s, Code, n);
            Count(t, Code) == 0 && After(t, Code) == After(s, Code) && (Multiple(t) <==> Multiple(s))
    decreases |s|
  {
    if Count(s, Code) == 0 {
      NoPlaceholder(s, n);
    } else {
      var g, rest := FirstPlaceholder(s, n);
      NormalizedScan(rest, n + 1);
      var t := Normalize(rest, Code, n + 1);
      DigitsAreNeutral(n + 1);
      NeutralRun(Label(n + 1), t);
      FreeCounts(g, Code);
      assert ("?" + rest)[1..] == rest;
      ScanConcat(g, Label(n + 1) + t, Code);
      ScanConcat(g, "?" + rest, Code);
      if Free(g, ';') {
        CutConcat(g, Label(n + 1) + t, Code, ';');
        CutConcat(g, "?" + rest, Code, ';');
        MultipleBehind(g, Label(n + 1) + t);
        MultipleBehind(Label(n + 1), t);
        MultipleBehind(g, "?" + rest);
        MultipleBehind("?", rest);
      } else {
        MultipleBefore(g, Label(n + 1) + t, 0);
        MultipleBefore(g, "?" + rest, 0);
      }
    }
  }

  lemma NormalizeIdempotent(s: string)
    requires Count(s, Code) < 0x1_0000_0000
    ensures Normalize(Normalize(s, Code, 0), Code, 0) == Normalize(s, Code, 0)
  {
    NormalizedScan(s, 0);
    NoPlaceholder(Normalize(s, Code, 0), 0);
  }
}
