/** The words of SQL that the scanner tells apart, cut out without it: line comments,
    block comments, quoted strings, and single characters of code. The scanner's four
    loops see exactly the characters of code. */
module SqlLexis {
  import opened Text
  import opened SqlScanner
  import opened SqlScannerTheorems

  // ─── The lexical grammar ──────────────────────────────────────────

  /** Everything but `Plain` is hidden from the loops; `closed` when it has its end. */
  datatype Lexeme = Plain(c: char) | Hidden(text: string, closed: bool)
  {
    function Text(): string {
      match this
      case Plain(c) => [c]
      case Hidden(text, _) => text
    }
  }

  /** Behind an opening quote: how far the string goes, its closing quote included, and
      whether it has one. A backslash takes the next character with it. */
  function StringEnd(s: string): (r: (nat, bool))
    ensures r.0 <= |s| && (!r.1 ==> r.0 == |s|)
    decreases |s|
  {
    if s == "" then (0, false)
    else if s[0] == '\'' then (1, true)
    else
      var k := if s[0] == '\\' && |s| > 1 then 2 else 1;
      var r := StringEnd(s[k..]);
      (k + r.0, r.1)
  }

  /** How far a line comment goes, its line feed included. */
  function LineEnd(s: string): (r: (nat, bool))
    ensures r.0 <= |s| && (!r.1 ==> r.0 == |s|)
  {
    match FindChar(s, '\n') case None => (|s|, false) case Some(i) => (i + 1, true)
  }

  /** Behind its opening mark: how far a block comment goes, its closing mark included. */
  function BlockEnd(s: string): (r: (nat, bool))
    ensures r.0 <= |s| && (!r.1 ==> r.0 == |s|)
  {
    match Find(s, "*/") case None => (|s|, false) case Some(i) => (i + 2, true)
  }

  predicate Opens(s: string, mark: string) {
    |s| >= 2 && |mark| == 2 && s[0] == mark[0] && s[1] == mark[1]
  }

  function First(s: string): (l: Lexeme)
    requires s != ""
    ensures 0 < |l.Text()| <= |s| && l.Text() == s[..|l.Text()|]
  {
    if Opens(s, "--") then Hidden(s[..2 + LineEnd(s[2..]).0], LineEnd(s[2..]).1)
    else if Opens(s, "/*") then Hidden(s[..2 + BlockEnd(s[2..]).0], BlockEnd(s[2..]).1)
    else if s[0] == '\'' then Hidden(s[..1 + StringEnd(s[1..]).0], StringEnd(s[1..]).1)
    else Plain(s[0])
  }

  function Lexemes(s: string): seq<Lexeme>
    decreases |s|
  {
    if s == "" then []
    else
      var l := First(s);
      [l] + Lexemes(s[|l.Text()|..])
  }

  function TextsOf(ls: seq<Lexeme>): string {
    if ls == [] then "" else ls[0].Text() + TextsOf(ls[1..])
  }

  lemma LexemesCons(s: string, l: Lexeme, rest: string)
    requires s != "" && l == First(s) && rest == s[|l.Text()|..]
    ensures Lexemes(s) == [l] + Lexemes(rest) && s == l.Text() + rest
  {
    TakeAndRest(s, l.Text(), rest);
  }

  lemma TakeAndRest(s: string, text: string, rest: string)
    requires |text| <= |s| && text == s[..|text|] && rest == s[|text|..]
    ensures s == text + rest
  {
  }

  lemma TextsCons(l: Lexeme, ls: seq<Lexeme>)
    ensures TextsOf([l] + ls) == l.Text() + TextsOf(ls)
  {
    assert ([l] + ls)[1..] == ls;
  }

  /** The lexemes are the text, cut up. */
  lemma {:induction false} LexemesAreTheText(s: string)
    ensures TextsOf(Lexemes(s)) == s
    decreases |s|
  {
    if s != "" {
      var l := First(s);
      var rest := s[|l.Text()|..];
      LexemesCons(s, l, rest);
      LexemesAreTheText(rest);
      TextsCons(l, Lexemes(rest));
    }
  }

  // ─── What the loops should see ────────────────────────────────────

  /** How often a character stands in code. */
  function InCode(ls: seq<Lexeme>, c: char): nat {
    if ls == [] then 0 else (if ls[0] == Plain(c) then 1 else 0) + InCode(ls[1..], c)
  }

  /** The text cut at every such character in code. */
  function CutInCode(ls: seq<Lexeme>, c: char): (parts: seq<string>)
    ensures parts != []
  {
    if ls == [] then [""]
    else
      var rest := CutInCode(ls[1..], c);
      if ls[0] == Plain(c) then [""] + rest else [ls[0].Text() + rest[0]] + rest[1..]
  }

  /** Only the last lexeme of a text can be open. */
  predicate AllClosed(ls: seq<Lexeme>) {
    ls == [] || ((ls[0].Plain? || ls[0].closed) && AllClosed(ls[1..]))
  }

  // ─── The scanner inside a hidden lexeme ───────────────────────────

  /** From mode `m` the scanner passes the first `n` characters without a mark, and is
      then back in code, or the text ends there outside of code. */
  predicate Passes(s: string, m: Mode, n: nat, closed: bool) {
    && n <= |s| && (if closed then After(s, m) == After(s[n..], Code) else n == |s| && After(s, m) != Code)
    && Count(s, m) == Count(s[n..], Code)
    && forall mark | Mark(mark) :: FirstCut(s, m, mark) == n + FirstCut(s[n..], Code, mark)
  }

  lemma PassesStep(s: string, m: Mode, n: nat, closed: bool, k: nat)
    requires s != "" && Step(m, s[0], Second(s)).1 == k && k <= n <= |s| && (m == Code ==> !Mark(s[0]))
    requires Passes(s[k..], Step(m, s[0], Second(s)).0, n - k, closed)
    ensures Passes(s, m, n, closed)
  {
    assert s[k..][n - k..] == s[n..];
  }

  lemma EndPasses(s: string)
    ensures Passes(s, Code, 0, true)
  {
    assert s[0..] == s;
  }

  lemma OpenPasses(s: string, m: Mode)
    requires s == "" && m != Code
    ensures Passes(s, m, 0, false)
  {
    assert s[0..] == s;
  }

  lemma {:induction false} StringPasses(s: string)
    ensures Passes(s, Quoted, StringEnd(s).0, StringEnd(s).1)
    decreases |s|
  {
    var (n, closed) := StringEnd(s);
    if s == "" {
      OpenPasses(s, Quoted);
    } else if s[0] == '\'' {
      EndPasses(s[1..]);
      PassesStep(s, Quoted, n, closed, 1);
    } else if s[0] == '\\' && |s| > 1 {
      StringPasses(s[2..]);
      assert s[1..][1..] == s[2..];
      PassesStep(s[1..], Escaped, n - 1, closed, 1);
      PassesStep(s, Quoted, n, closed, 1);
    } else if s[0] == '\\' {
      assert s[1..] == "" && StringEnd(s[1..]) == (0, false);
      OpenPasses(s[1..], Escaped);
      PassesStep(s, Quoted, n, closed, 1);
    } else {
      StringPasses(s[1..]);
      PassesStep(s, Quoted, n, closed, 1);
    }
  }

  lemma {:induction false} LinePasses(s: string)
    ensures Passes(s, LineComment, LineEnd(s).0, LineEnd(s).1)
    decreases |s|
  {
    var (n, closed) := LineEnd(s);
    if s == "" {
      OpenPasses(s, LineComment);
    } else if s[0] == '\n' {
      EndPasses(s[1..]);
      PassesStep(s, LineComment, n, closed, 1);
    } else {
      LinePasses(s[1..]);
      PassesStep(s, LineComment, n, closed, 1);
    }
  }

  lemma TwoCharacters(s: string, mark: string)
    requires |s| >= 2 && |mark| == 2
    ensures s[..2] == mark <==> Opens(s, mark)
  {
    assert s[..2] == [s[0], s[1]] && mark == [mark[0], mark[1]];
  }

  lemma {:induction false} BlockPasses(s: string)
    ensures Passes(s, BlockComment, BlockEnd(s).0, BlockEnd(s).1)
    decreases |s|
  {
    var close, n, closed := "*/", BlockEnd(s).0, BlockEnd(s).1;
    if s == "" {
      OpenPasses(s, BlockComment);
    } else if Opens(s, close) {
      TwoCharacters(s, close);
      EndPasses(s[2..]);
      PassesStep(s, BlockComment, n, closed, 2);
    } else if |s| == 1 {
      OpenPasses(s[1..], BlockComment);
      PassesStep(s, BlockComment, n, closed, 1);
    } else {
      BlockPasses(s[1..]);
      TwoCharacters(s, close);
      PassesStep(s, BlockComment, n, closed, 1);
    }
  }

  lemma LineOpens(s: string)
    requires Opens(s, "--")
    ensures Passes(s, Code, 2 + LineEnd(s[2..]).0, LineEnd(s[2..]).1)
  {
    LinePasses(s[2..]);
    assert s[1..][1..] == s[2..];
    PassesStep(s[1..], LineComment, 1 + LineEnd(s[2..]).0, LineEnd(s[2..]).1, 1);
    PassesStep(s, Code, 2 + LineEnd(s[2..]).0, LineEnd(s[2..]).1, 1);
  }

  lemma BlockOpens(s: string)
    requires Opens(s, "/*")
    ensures Passes(s, Code, 2 + BlockEnd(s[2..]).0, BlockEnd(s[2..]).1)
  {
    BlockPasses(s[2..]);
    PassesStep(s, Code, 2 + BlockEnd(s[2..]).0, BlockEnd(s[2..]).1, 2);
  }

  lemma StringOpens(s: string)
    requires s != "" && s[0] == '\''
    ensures Passes(s, Code, 1 + StringEnd(s[1..]).0, StringEnd(s[1..]).1)
  {
    StringPasses(s[1..]);
    PassesStep(s, Code, 1 + StringEnd(s[1..]).0, StringEnd(s[1..]).1, 1);
  }

  // ─── The scanner refines the grammar ──────────────────────────────

  lemma FirstPasses(s: string, l: Lexeme)
    requires s != "" && l == First(s) && l.Hidden?
    ensures Passes(s, Code, |l.text|, l.closed)
  {
    if Opens(s, "--") { LineOpens(s); }
    else if Opens(s, "/*") { BlockOpens(s); }
    else { StringOpens(s); }
  }

  lemma PlainSteps(s: string, l: Lexeme)
    requires s != "" && l == First(s) && l.Plain?
    ensures l.c == s[0] && Step(Code, s[0], Second(s)) == (Code, 1)
  {
  }

  /** MAIN: the scanner counts the question marks of code, and ends in code exactly when
      every string and comment has its end. */
  lemma {:induction false} ScannerCountsCode(s: string)
    ensures Count(s, Code) == InCode(Lexemes(s), '?')
    ensures After(s, Code) == Code <==> AllClosed(Lexemes(s))
    decreases |s|
  {
    if s != "" {
      var l := First(s);
      var rest := s[|l.Text()|..];
      LexemesCons(s, l, rest);
      assert ([l] + Lexemes(rest))[1..] == Lexemes(rest);
      ScannerCountsCode(rest);
      if l.Plain? { PlainSteps(s, l); } else { FirstPasses(s, l); }
    }
  }

  /** MAIN: the scanner cuts the text at the marks of code and nowhere else. */
  lemma {:induction false} ScannerCutsCode(s: string, mark: char)
    requires Mark(mark)
    ensures Cuts(s, mark) == CutInCode(Lexemes(s), mark)
    decreases |s|
  {
    if s == "" {
    } else {
      var l := First(s);
      var text, rest := l.Text(), s[|l.Text()|..];
      LexemesCons(s, l, rest);
      assert ([l] + Lexemes(rest))[1..] == Lexemes(rest);
      ScannerCutsCode(rest, mark);
      if l == Plain(mark) {
        PlainSteps(s, l);
      } else {
        if l.Plain? { PlainSteps(s, l); } else { FirstPasses(s, l); }
        CutsBehind(s, text, rest, mark);
      }
    }
  }

  /** A stretch without a cut stands in front of the first part. */
  lemma CutsBehind(s: string, text: string, rest: string, mark: char)
    requires s == text + rest && text != "" && FirstCut(s, Code, mark) == |text| + FirstCut(rest, Code, mark)
    ensures Cuts(s, mark) == [text + Cuts(rest, mark)[0]] + Cuts(rest, mark)[1..]
  {
    if FirstCut(rest, Code, mark) == |rest| {
      WholePart(rest, mark);
      WholePart(s, mark);
      Glue(text, rest, [], Cuts(rest, mark), Cuts(s, mark));
    } else {
      CutBehind(s, text, rest, FirstCut(rest, Code, mark), mark);
    }
  }

  lemma CutBehind(s: string, text: string, rest: string, c: nat, mark: char)
    requires s == text + rest && FirstCut(rest, Code, mark) == c < |rest| && FirstCut(s, Code, mark) == |text| + c
    ensures Cuts(s, mark) == [text + Cuts(rest, mark)[0]] + Cuts(rest, mark)[1..]
  {
    var left, right := rest[..c], rest[c + 1..];
    TextSlices(s, text, rest, c);
    CutPart(rest, c, mark, left, right);
    CutPart(s, |text| + c, mark, text + left, right);
    Glue(text, left, Cuts(right, mark), Cuts(rest, mark), Cuts(s, mark));
  }

  lemma Glue(text: string, first: string, more: seq<string>, parts: seq<string>, all: seq<string>)
    requires parts == [first] + more && all == [text + first] + more
    ensures all == [text + parts[0]] + parts[1..]
  {
  }

  lemma TextSlices(s: string, text: string, rest: string, c: nat)
    requires s == text + rest && c < |rest|
    ensures s[..|text| + c] == text + rest[..c] && s[|text| + c + 1..] == rest[c + 1..]
  {
  }

  lemma WholePart(s: string, mark: char)
    requires FirstCut(s, Code, mark) == |s|
    ensures Cuts(s, mark) == [s] + []
  {
  }

  lemma CutPart(s: string, c: nat, mark: char, left: string, right: string)
    requires c == FirstCut(s, Code, mark) < |s| && left == s[..c] && right == s[c + 1..]
    ensures Cuts(s, mark) == [left] + Cuts(right, mark)
  {
  }

  // ─── In words ─────────────────────────────────────────────────────

  /** MAIN: a line comment is passed over, whatever it says. */
  lemma LineCommentIsPassed(c: string, b: string, dashes: string)
    requires '\n' !in c && dashes == "--"
    ensures Passes(dashes + c + "\n" + b, Code, 2 + |c| + 1, true) && (dashes + c + "\n" + b)[2 + |c| + 1..] == b
  {
    var s := dashes + c + "\n" + b;
    FindCharIs(c, '\n', b);
    assert s[2..] == c + ['\n'] + b;
    LineOpens(s);
  }

  /** MAIN: so is a block comment, up to its first closing mark. */
  lemma BlockCommentIsPassed(c: string, b: string, open: string, close: string)
    requires open == "/*" && close == "*/" && (forall k: nat | k < |c| :: !At(c + close, close, k))
    ensures Passes(open + c + close + b, Code, 2 + |c| + 2, true) && (open + c + close + b)[2 + |c| + 2..] == b
  {
    var s := open + c + close + b;
    assert s[2..] == c + close + b;
    forall j: nat | j < |c| ensures !At(c + close + b, close, j) {
      assert (c + close)[j..j + 2] == (c + close + b)[j..j + 2];
      assert !At(c + close, close, j);
    }
    assert (c + close + b)[|c|..|c| + 2] == close;
    FindIs(c + close + b, close, |c|);
    BlockOpens(s);
  }

  /** The inside of a string: characters other than quote and backslash, and escapes. */
  predicate StringInside(c: string)
    decreases |c|
  {
    c == "" || (if c[0] == '\\' then |c| > 1 && StringInside(c[2..]) else c[0] != '\'' && StringInside(c[1..]))
  }

  lemma {:induction false} InsideEnds(c: string, b: string, quote: string)
    requires StringInside(c) && quote == "'"
    ensures StringEnd(c + quote + b) == (|c| + 1, true)
    decreases |c|
  {
    var s := c + quote + b;
    if c == "" {
      assert s[0] == '\'';
    } else if c[0] == '\\' {
      InsideEnds(c[2..], b, quote);
      assert s[2..] == c[2..] + quote + b;
    } else {
      InsideEnds(c[1..], b, quote);
      assert s[1..] == c[1..] + quote + b;
    }
  }

  /** MAIN: so is a quoted string, a quote behind a backslash being part of it. */
  lemma StringIsPassed(c: string, b: string, quote: string)
    requires StringInside(c) && quote == "'"
    ensures Passes(quote + c + quote + b, Code, 1 + |c| + 1, true) && (quote + c + quote + b)[1 + |c| + 1..] == b
  {
    var inner := c + quote + b;
    InsideEnds(c, b, quote);
    QuoteInFront(quote, c, b, inner);
    StringOpens(quote + inner);
  }

  lemma QuoteInFront(quote: string, c: string, b: string, inner: string)
    requires quote == "'" && inner == c + quote + b
    ensures quote + c + quote + b == quote + inner && (quote + inner)[0] == '\'' && (quote + inner)[1..] == inner
    ensures (quote + c + quote + b)[1 + |c| + 1..] == b
  {
  }
}
