/** cURL snippets of http blocks (httui-core/src/blocks/http_codegen.rs) and the POSIX
    shell's reading of them. Percent-encoding is a parameter. */
module HttpCodegen {
  import opened Text
  import opened Json

  // ─── The snippet ──────────────────────────────────────────────────

  predicate MethodHasBody(m: string, body: string) {
    (m == "POST" || m == "PUT" || m == "PATCH" || m == "DELETE") && body != ""
  }

  function TextOf(v: Option<Value>, missing: string): string {
    if v.Some? && v.value.Str? then v.value.text else missing
  }

  /** The rows with a key, in order. */
  function EnabledPairs(items: seq<Value>): seq<(string, string)> {
    if items == [] then []
    else
      var key, value := TextOf(items[0].Get("key"), ""), TextOf(items[0].Get("value"), "");
      (if items[0].Object? && key != "" then [(key, value)] else []) + EnabledPairs(items[1..])
  }

  function PairsOf(params: Value, field: string): seq<(string, string)> {
    match params.Get(field)
    case None => []
    case Some(v) => if v.Array? then EnabledPairs(v.items) else []
  }

  function EncodedParts(encode: string -> string, kv: seq<(string, string)>): seq<string> {
    if kv == [] then [] else [encode(kv[0].0) + "=" + encode(kv[0].1)] + EncodedParts(encode, kv[1..])
  }

  function UrlWithQuery(encode: string -> string, params: Value): string {
    var url := TextOf(params.Get("url"), "");
    var query := Join(EncodedParts(encode, PairsOf(params, "params")), "&");
    if query == "" then url else url + (if '?' in url then "&" else "?") + query
  }

  function ShellSingleQuote(s: string): string {
    "'" + ReplaceChar(s, '\'', "'\\''") + "'"
  }

  function HeaderLines(headers: seq<(string, string)>): seq<string> {
    if headers == [] then []
    else ["  -H " + ShellSingleQuote(headers[0].0 + ": " + headers[0].1)] + HeaderLines(headers[1..])
  }

  function BodyLines(m: string, body: string): seq<string> {
    if MethodHasBody(m, body) then ["  --data-raw " + ShellSingleQuote(body)] else []
  }

  function CurlLines(encode: string -> string, params: Value): seq<string> {
    var m := TextOf(params.Get("method"), "GET");
    ["curl -X " + m + " " + ShellSingleQuote(UrlWithQuery(encode, params))]
      + HeaderLines(PairsOf(params, "headers")) + BodyLines(m, TextOf(params.Get("body"), ""))
  }

  method ToCurl(encode: string -> string, params: Value) returns (snippet: string)
    ensures snippet == Join(CurlLines(encode, params), " \\\n")
  {
    var m, url, body := TextOf(params.Get("method"), "GET"), UrlWithQuery(encode, params), TextOf(params.Get("body"), "");
    var headers := PairsOf(params, "headers");
    var first := "curl -X " + m + " " + ShellSingleQuote(url);
    var lines := [first];
    for i := 0 to |headers|
      invariant lines + HeaderLines(headers[i..]) == [first] + HeaderLines(headers)
    {
      var line := "  -H " + ShellSingleQuote(headers[i].0 + ": " + headers[i].1);
      assert headers[i..][1..] == headers[i + 1..];
      AppendAssoc(lines, [line], HeaderLines(headers[i + 1..]));
      lines := lines + [line];
    }
    assert headers[|headers|..] == [] && lines + [] == lines;
    if MethodHasBody(m, body) {
      lines := lines + ["  --data-raw " + ShellSingleQuote(body)];
    } else {
      assert lines + [] == lines;
    }
    snippet := Join(lines, " \\\n");
  }

  // ─── The shell's reading ──────────────────────────────────────────

  datatype Mode =
    | Between
    | InWord(word: string)
    | InQuotes(word: string)
    | Escaping(partial: Option<string>)

  /** Words read so far and what the shell is in the middle of; `Refused` for anything
      that is not plain words of one simple command. */
  datatype Shell = Shell(words: seq<string>, mode: Mode) | Refused

  /** Characters that stand for themselves inside a word: not those that section 2.2 has
      quoted, nor those that start a pattern. */
  predicate Ordinary(c: char) {
    && c != '|' && c != '&' && c != ';' && c != '<' && c != '>' && c != '(' && c != ')' && c != '$' && c != '`'
    && c != '\\' && c != '"' && c != '\'' && c != ' ' && c != '\t' && c != '\n'
    && c != '*' && c != '?' && c != '['
  }

  predicate AllOrdinary(s: string) {
    forall i | 0 <= i < |s| :: Ordinary(s[i])
  }

  /** Comments and home directories begin at the start of a word only. */
  predicate StartsWord(c: char) {
    Ordinary(c) && c != '#' && c != '~'
  }

  /** A word that needs no quotes. */
  predicate PlainWord(s: string) {
    s != "" && StartsWord(s[0]) && AllOrdinary(s)
  }

  /** One character, by the quoting rules of section 2.2 and the token recognition rules
      of section 2.3 of the POSIX Shell Command Language. */
  function Step(st: Shell, c: char): Shell {
    match st
    case Refused => Refused
    case Shell(words, Between) =>
      if c == ' ' || c == '\t' then st
      else if c == '\'' then Shell(words, InQuotes(""))
      else if c == '\\' then Shell(words, Escaping(None))
      else if StartsWord(c) then Shell(words, InWord([c]))
      else Refused
    case Shell(words, InWord(w)) =>
      if c == ' ' || c == '\t' then Shell(words + [w], Between)
      else if c == '\'' then Shell(words, InQuotes(w))
      else if c == '\\' then Shell(words, Escaping(Some(w)))
      else if Ordinary(c) then Shell(words, InWord(w + [c]))
      else Refused
    case Shell(words, InQuotes(w)) =>
      if c == '\'' then Shell(words, InWord(w)) else Shell(words, InQuotes(w + [c]))
    case Shell(words, Escaping(w)) =>
      if c == '\n' then Shell(words, if w.None? then Between else InWord(w.value))
      else Shell(words, InWord((if w.None? then "" else w.value) + [c]))
  }

  function Read(st: Shell, s: string): Shell
    decreases |s|
  {
    if s == "" then st else Read(Step(st, s[0]), s[1..])
  }

  /** The words of a text that is one simple command. */
  function Words(s: string): Option<seq<string>> {
    Finished(Read(Shell([], Between), s))
  }

  function Finished(st: Shell): Option<seq<string>> {
    match st
    case Shell(words, Between) => Some(words)
    case Shell(words, InWord(w)) => Some(words + [w])
    case _ => None
  }

  lemma {:induction false} ReadAppend(st: Shell, a: string, b: string)
    ensures Read(st, a + b) == Read(Read(st, a), b)
    decreases |a|
  {
    if a == "" {
      assert a + b == b;
    } else {
      ReadAppend(Step(st, a[0]), a[1..], b);
      assert (a + b)[1..] == a[1..] + b;
    }
  }

  lemma {:induction false} ReadOrdinary(words: seq<string>, w: string, s: string)
    requires AllOrdinary(s)
    ensures Read(Shell(words, InWord(w)), s) == Shell(words, InWord(w + s))
    decreases |s|
  {
    if s == "" {
      assert w + s == w;
    } else {
      ReadOrdinary(words, w + [s[0]], s[1..]);
      assert w + [s[0]] + s[1..] == w + s;
    }
  }

  /** A plain word and the space behind it. */
  lemma ReadWord(words: seq<string>, w: string, space: char)
    requires PlainWord(w) && space == ' '
    ensures Read(Shell(words, Between), w + [space]) == Shell(words + [w], Between)
  {
    ReadOrdinary(words, [w[0]], w[1..]);
    assert [w[0]] + w[1..] == w;
    ReadAppend(Shell(words, Between), w, [space]);
    assert [space][1..] == "";
  }

  lemma ReadCons(st: Shell, c: char, rest: string)
    ensures Read(st, [c] + rest) == Read(Step(st, c), rest)
  {
    assert ([c] + rest)[1..] == rest;
  }

  lemma ReadThree(st: Shell, a: char, b: char, c: char)
    ensures Read(st, [a, b, c]) == Step(Step(Step(st, a), b), c)
  {
    assert [a, b, c] == [a] + ([b] + ([c] + ""));
    ReadCons(st, a, [b] + ([c] + ""));
    ReadCons(Step(st, a), b, [c] + "");
    ReadCons(Step(Step(st, a), b), c, "");
  }

  lemma ReadEscapedQuote(words: seq<string>, w: string, quote: string)
    requires quote == "'\\''"
    ensures Read(Shell(words, InQuotes(w)), quote) == Shell(words, InQuotes(w + ['\'']))
  {
    var st := Shell(words, InQuotes(w));
    assert quote == ['\''] + ['\\', '\'', '\''];
    ReadCons(st, '\'', ['\\', '\'', '\'']);
    ReadThree(Step(st, '\''), '\\', '\'', '\'');
  }

  lemma {:induction false} ReadQuoted(words: seq<string>, w: string, s: string, quote: string)
    requires quote == "'\\''"
    ensures Read(Shell(words, InQuotes(w)), ReplaceChar(s, '\'', quote)) == Shell(words, InQuotes(w + s))
    decreases |s|
  {
    if s == "" {
      assert w + s == w;
    } else {
      var head := if s[0] == '\'' then quote else [s[0]];
      var st := Shell(words, InQuotes(w));
      ReadAppend(st, head, ReplaceChar(s[1..], '\'', quote));
      if s[0] == '\'' { ReadEscapedQuote(words, w, quote); } else { assert [s[0]][1..] == ""; }
      ReadQuoted(words, w + [s[0]], s[1..], quote);
      assert w + [s[0]] + s[1..] == w + s;
    }
  }

  /** A quoted string is one word, whatever it holds. */
  lemma ReadSingleQuoted(words: seq<string>, s: string)
    ensures Read(Shell(words, Between), ShellSingleQuote(s)) == Shell(words, InWord(s))
  {
    var quote, inner := "'", ReplaceChar(s, '\'', "'\\''");
    var st := Shell(words, Between);
    assert quote[1..] == "";
    ReadAppend(st, quote + inner, quote);
    ReadAppend(st, quote, inner);
    ReadQuoted(words, "", s, "'\\''");
    assert "" + s == s;
  }

  /** A line's end and continuation closes the word and stays in the command. */
  lemma ReadContinuation(words: seq<string>, w: string, sep: string)
    requires sep == " \\\n"
    ensures Read(Shell(words, InWord(w)), sep) == Shell(words + [w], Between)
  {
    assert sep == [' ', '\\', '\n'];
    ReadThree(Shell(words, InWord(w)), ' ', '\\', '\n');
  }

  // ─── The snippet, read ────────────────────────────────────────────

  /** A flag and its quoted value, indented. */
  lemma ReadFlag(words: seq<string>, indent: string, flag: string, value: string)
    requires (forall i | 0 <= i < |indent| :: indent[i] == ' ') && PlainWord(flag)
    ensures Read(Shell(words, Between), indent + flag + " " + ShellSingleQuote(value)) == Shell(words + [flag], InWord(value))
  {
    var st := Shell(words, Between);
    ReadIndent(words, indent);
    ReadAppend(st, indent, flag + [' '] + ShellSingleQuote(value));
    ReadAppend(st, flag + [' '], ShellSingleQuote(value));
    ReadWord(words, flag, ' ');
    ReadSingleQuoted(words + [flag], value);
    assert indent + flag + " " + ShellSingleQuote(value) == indent + (flag + [' '] + ShellSingleQuote(value));
  }

  lemma {:induction false} ReadIndent(words: seq<string>, indent: string)
    requires forall i | 0 <= i < |indent| :: indent[i] == ' '
    ensures Read(Shell(words, Between), indent) == Shell(words, Between)
    decreases |indent|
  {
    if indent != "" { ReadIndent(words, indent[1..]); }
  }

  /** The words one header row, and the body, stand for. */
  function HeaderWords(headers: seq<(string, string)>): seq<string> {
    if headers == [] then [] else ["-H", headers[0].0 + ": " + headers[0].1] + HeaderWords(headers[1..])
  }

  function Argv(encode: string -> string, params: Value): seq<string> {
    var m, body := TextOf(params.Get("method"), "GET"), TextOf(params.Get("body"), "");
    ["curl", "-X", m, UrlWithQuery(encode, params)]
      + HeaderWords(PairsOf(params, "headers"))
      + (if MethodHasBody(m, body) then ["--data-raw", body] else [])
  }

  /** A text that leaves the shell at the end of `last`, behind `words`. */
  predicate Reads(text: string, words: seq<string>, last: string) {
    Read(Shell([], Between), text) == Shell(words, InWord(last))
  }

  lemma ReadsAnother(text: string, words: seq<string>, last: string, sep: string, indent: string, flag: string, value: string)
    requires Reads(text, words, last) && sep == " \\\n"
    requires (forall i | 0 <= i < |indent| :: indent[i] == ' ') && PlainWord(flag)
    ensures Reads(text + sep + (indent + flag + " " + ShellSingleQuote(value)), words + [last] + [flag], value)
  {
    var st, line := Shell([], Between), indent + flag + " " + ShellSingleQuote(value);
    ReadAppend(st, text + sep, line);
    ReadAppend(st, text, sep);
    ReadContinuation(words, last, sep);
    ReadFlag(words + [last], indent, flag, value);
  }

  lemma {:induction false} HeadersRead(lines: seq<string>, headers: seq<(string, string)>, words: seq<string>, last: string, sep: string)
    returns (words': seq<string>, last': string)
    requires sep == " \\\n" && lines != [] && Reads(Join(lines, sep), words, last)
    ensures Reads(Join(lines + HeaderLines(headers), sep), words', last')
    ensures words' + [last'] == words + [last] + HeaderWords(headers)
    decreases |headers|
  {
    if headers == [] {
      words', last' := words, last;
      assert lines + [] == lines;
    } else {
      var indent, flag, value := "  ", "-H", headers[0].0 + ": " + headers[0].1;
      var line := "  -H " + ShellSingleQuote(value);
      assert indent + flag + " " + ShellSingleQuote(value) == line;
      ReadsAnother(Join(lines, sep), words, last, sep, indent, flag, value);
      JoinAppend(lines, line, sep);
      words', last' := HeadersRead(lines + [line], headers[1..], words + [last] + [flag], value, sep);
      AppendAssoc(lines, [line], HeaderLines(headers[1..]));
      RegroupWords(words + [last], flag, value, HeaderWords(headers[1..]));
    }
  }

  lemma RegroupWords(words: seq<string>, flag: string, value: string, rest: seq<string>)
    ensures words + [flag] + [value] + rest == words + ([flag, value] + rest)
  {
  }

  lemma BodyRead(lines: seq<string>, m: string, body: string, words: seq<string>, last: string, sep: string)
    returns (words': seq<string>, last': string)
    requires sep == " \\\n" && lines != [] && Reads(Join(lines, sep), words, last)
    ensures Reads(Join(lines + BodyLines(m, body), sep), words', last')
    ensures words' + [last'] == words + [last] + (if MethodHasBody(m, body) then ["--data-raw", body] else [])
  {
    if MethodHasBody(m, body) {
      var indent, flag := "  ", "--data-raw";
      var line := "  --data-raw " + ShellSingleQuote(body);
      assert indent + flag + " " + ShellSingleQuote(body) == line;
      ReadsAnother(Join(lines, sep), words, last, sep, indent, flag, body);
      JoinAppend(lines, line, sep);
      words', last' := words + [last] + [flag], body;
    } else {
      words', last' := words, last;
      assert lines + [] == lines;
    }
  }

  lemma ReadPrefix(curl: string, flag: string, rest: string)
    requires curl == "curl" && flag == "-X"
    ensures Read(Shell([], Between), curl + [' '] + (flag + [' '] + rest)) == Read(Shell([curl, flag], Between), rest)
  {
    ReadAppend(Shell([], Between), curl + [' '], flag + [' '] + rest);
    ReadWord([], curl, ' ');
    assert [] + [curl] == [curl];
    ReadAppend(Shell([curl], Between), flag + [' '], rest);
    ReadWord([curl], flag, ' ');
    assert [curl] + [flag] == [curl, flag];
  }

  // ─── What an unquoted text can turn into ──────────────────────────

  lemma {:induction false} ReadRefused(s: string)
    ensures Read(Refused, s) == Refused
    decreases |s|
  {
    if s != "" { ReadRefused(s[1..]); }
  }

  function Total(words: seq<string>): nat {
    if words == [] then 0 else Total(words[..|words| - 1]) + |words[|words| - 1]|
  }

  /** The word the shell is in the middle of. */
  function Open(mode: Mode): string {
    match mode
    case Between => ""
    case InWord(w) => w
    case InQuotes(w) => w
    case Escaping(w) => if w.None? then "" else w.value
  }

  /** Reading `s` behind `words` gave at most as many characters as `s` has, and all of
      them only when `s` is one plain word. */
  predicate Gained(st: Shell, words: seq<string>, added: seq<string>, s: string) {
    || st == Refused
    || (&& st.words == words + added && Total(added) + |Open(st.mode)| <= |s|
        && (Total(added) + |Open(st.mode)| == |s| ==>
              if s == "" then added == [] && st.mode == Between else added == [] && st.mode == InWord(s) && PlainWord(s)))
  }

  /** A step closes the open word, or adds at most its own character to it. */
  lemma StepOpens(words: seq<string>, mode: Mode, c: char)
    ensures match Step(Shell(words, mode), c)
            case Refused => true
            case Shell(words', mode') =>
              || (mode.InWord? && words' == words + [mode.word] && mode' == Between)
              || (words' == words && |Open(mode')| <= |Open(mode)| + 1)
  {
  }

  lemma StepKeepsAll(words: seq<string>, mode: Mode, c: char)
    requires mode == Between || (mode.InWord? && PlainWord(mode.word))
    ensures match Step(Shell(words, mode), c)
            case Refused => true
            case Shell(words', mode') =>
              words' == words && |Open(mode')| == |Open(mode)| + 1 ==> mode' == InWord(Open(mode) + [c]) && PlainWord(Open(mode) + [c])
  {
  }

  lemma GainOne(words: seq<string>, mode: Mode, start: seq<string>, added: seq<string>, s: string, c: char) returns (more: seq<string>)
    requires Gained(Shell(words, mode), start, added, s)
    ensures Gained(Step(Shell(words, mode), c), start, more, s + [c])
  {
    StepOpens(words, mode, c);
    if mode == Between || (mode.InWord? && PlainWord(mode.word)) { StepKeepsAll(words, mode, c); }
    if mode.InWord? && (c == ' ' || c == '\t') {
      more := added + [mode.word];
      assert more[..|added|] == added;
      AppendAssoc(start, added, [mode.word]);
    } else {
      more := added;
    }
  }

  lemma ReadLast(st: Shell, s: string, c: char)
    ensures Read(st, s + [c]) == Step(Read(st, s), c)
  {
    ReadAppend(st, s, [c]);
    ReadCons(Read(st, s), c, "");
    assert [c] + "" == [c];
  }

  lemma {:induction false} Gains(words: seq<string>, s: string) returns (added: seq<string>)
    ensures Gained(Read(Shell(words, Between), s), words, added, s)
  {
    if s == "" {
      added := [];
      assert words + [] == words;
    } else {
      var init, c := s[..|s| - 1], s[|s| - 1];
      var earlier := Gains(words, init);
      ReadLast(Shell(words, Between), init, c);
      assert init + [c] == s;
      match Read(Shell(words, Between), init) {
        case Refused => added := earlier;
        case Shell(now, mode) => added := GainOne(now, mode, words, earlier, init, c);
      }
    }
  }

  // ─── Words stay words ─────────────────────────────────────────────

  /** `earlier` can only go on to `later`: its words are kept, and an open word that is
      more than a start of an escape grows or is kept. */
  predicate GoesOn(earlier: Shell, later: Shell) {
    || later == Refused
    || (&& earlier != Refused && earlier.words <= later.words
        && (Begun(earlier.mode) ==>
              if |later.words| > |earlier.words| then Open(earlier.mode) <= later.words[|earlier.words|]
              else Begun(later.mode) && Open(earlier.mode) <= Open(later.mode)))
  }

  predicate Begun(mode: Mode) {
    mode.InWord? || mode.InQuotes? || (mode.Escaping? && mode.partial.Some?)
  }

  lemma GoesOnOnce(st: Shell, c: char)
    ensures GoesOn(st, Step(st, c))
  {
  }

  lemma GoesOnAgain(a: Shell, b: Shell, c: Shell)
    requires GoesOn(a, b) && GoesOn(b, c)
    ensures GoesOn(a, c)
  {
  }

  lemma {:induction false} ReadGoesOn(st: Shell, s: string)
    ensures GoesOn(st, Read(st, s))
    decreases |s|
  {
    if s != "" {
      GoesOnOnce(st, s[0]);
      ReadGoesOn(Step(st, s[0]), s[1..]);
      GoesOnAgain(st, Step(st, s[0]), Read(st, s));
    }
  }

  // ─── The snippet behind its method ────────────────────────────────

  /** The words behind the address. */
  function Arguments(params: Value): seq<string> {
    var m, body := TextOf(params.Get("method"), "GET"), TextOf(params.Get("body"), "");
    HeaderWords(PairsOf(params, "headers")) + (if MethodHasBody(m, body) then ["--data-raw", body] else [])
  }

  /** The first line of the snippet. */
  function FirstOf(m: string, url: string): string {
    "curl -X " + m + " " + ShellSingleQuote(url)
  }

  /** The whole snippet, given how its unquoted start is read. */
  lemma SnippetReads(encode: string -> string, params: Value, words: seq<string>, last: string)
    requires Reads(FirstOf(TextOf(params.Get("method"), "GET"), UrlWithQuery(encode, params)), words, last)
    ensures Words(Join(CurlLines(encode, params), " \\\n")) == Some(words + [last] + Arguments(params))
  {
    var sep, m, url := " \\\n", TextOf(params.Get("method"), "GET"), UrlWithQuery(encode, params);
    var headers, body := PairsOf(params, "headers"), TextOf(params.Get("body"), "");
    var words', last' := HeadersRead([FirstOf(m, url)], headers, words, last, sep);
    words', last' := BodyRead([FirstOf(m, url)] + HeaderLines(headers), m, body, words', last', sep);
    AppendAssoc(words + [last], HeaderWords(headers), if MethodHasBody(m, body) then ["--data-raw", body] else []);
  }

  /** How the snippet goes on behind its first line. */
  lemma SnippetGoesOn(encode: string -> string, params: Value, first: string) returns (rest: string)
    requires CurlLines(encode, params)[0] == first
    ensures Join(CurlLines(encode, params), " \\\n") == first + rest
  {
    var lines, sep := CurlLines(encode, params), " \\\n";
    rest := if |lines| == 1 then "" else sep + Join(lines[1..], sep);
  }

  lemma ReadInWord(words: seq<string>, w: string, s: string)
    ensures Read(Shell(words, InWord(w)), ShellSingleQuote(s)) == Shell(words, InWord(w + s))
  {
    var quote, inner := "'", ReplaceChar(s, '\'', "'\\''");
    assert quote[1..] == "";
    ReadAppend(Shell(words, InWord(w)), quote + inner, quote);
    ReadAppend(Shell(words, InWord(w)), quote, inner);
    ReadQuoted(words, w, s, "'\\''");
  }

  /** The first line, read up to the method and its space. */
  lemma FirstIs(m: string, url: string, space: char)
    requires space == ' '
    ensures Read(Shell([], Between), FirstOf(m, url)) ==
            Read(Step(Read(Shell(["curl", "-X"], Between), m), space), ShellSingleQuote(url))
  {
    var curl, flag := "curl", "-X";
    var rest := m + [space] + ShellSingleQuote(url);
    var st := Shell([curl, flag], Between);
    ReadPrefix(curl, flag, rest);
    ReadAppend(st, m + [space], ShellSingleQuote(url));
    ReadLast(st, m, space);
    assert FirstOf(m, url) == curl + [' '] + (flag + [' '] + rest);
  }

  // ─── Which methods are read back ──────────────────────────────────

  /** Read behind `curl -X`, the method leaves a quote open. */
  predicate LeavesQuote(m: string) {
    var st := Read(Shell(["curl", "-X"], Between), m);
    st != Refused && st.mode.InQuotes?
  }

  /** It starts with what the shell skips: a blank, or an escaped line feed. */
  predicate StartsSkipped(m: string) {
    m != "" && (m[0] == ' ' || m[0] == '\t' || (|m| > 1 && m[0] == '\\' && m[1] == '\n'))
  }

  lemma TotalOne(added: seq<string>)
    requires |added| == 1
    ensures Total(added) == |added[0]|
  {
    assert added[..0] == [];
  }

  lemma {:induction false} TotalFirst(added: seq<string>)
    requires added != []
    ensures Total(added) >= |added[0]|
  {
    if |added| > 1 { TotalFirst(added[..|added| - 1]); }
  }

  /** A method that closes its quotes, and is not refused: its words, and which they are. */
  lemma ClosedMethodReads(start: seq<string>, m: string, space: char) returns (added: seq<string>)
    requires space == ' '
    requires var st := Read(Shell(start, Between), m); st != Refused && (st.mode.Between? || st.mode.InWord?)
    ensures Step(Read(Shell(start, Between), m), space) == Shell(start + added, Between)
    ensures added == [m] <==> PlainWord(m)
  {
    var st := Read(Shell(start, Between), m);
    added := Gains(start, m);
    if st.mode.InWord? {
      AppendAssoc(start, added, [st.mode.word]);
      var before := added;
      added := added + [st.mode.word];
      assert added[..|before|] == before;
    }
    if added == [m] {
      TotalOne(added);
    }
    if PlainWord(m) { PlainWordReads(start, m); }
  }

  lemma PlainWordReads(words: seq<string>, m: string)
    requires PlainWord(m)
    ensures Read(Shell(words, Between), m) == Shell(words, InWord(m))
  {
    ReadOrdinary(words, [m[0]], m[1..]);
    assert [m[0]] + m[1..] == m;
  }

  lemma RefusedSnippet(encode: string -> string, params: Value)
    requires var m := TextOf(params.Get("method"), "GET"); Read(Shell(["curl", "-X"], Between), m) == Refused
    ensures Words(Join(CurlLines(encode, params), " \\\n")) == None
  {
    var m, url := TextOf(params.Get("method"), "GET"), UrlWithQuery(encode, params);
    var rest := SnippetGoesOn(encode, params, FirstOf(m, url));
    FirstIs(m, url, ' ');
    ReadRefused(ShellSingleQuote(url));
    ReadAppend(Shell([], Between), FirstOf(m, url), rest);
    ReadRefused(rest);
  }

  /** The words of the snippet when the method closes its quotes. */
  lemma ClosedSnippet(encode: string -> string, params: Value)
    requires var st := Read(Shell(["curl", "-X"], Between), TextOf(params.Get("method"), "GET"));
             st != Refused && (st.mode.Between? || st.mode.InWord?)
    ensures Words(Join(CurlLines(encode, params), " \\\n")) == Some(Argv(encode, params)) <==> PlainWord(TextOf(params.Get("method"), "GET"))
  {
    var start, m, url := ["curl", "-X"], TextOf(params.Get("method"), "GET"), UrlWithQuery(encode, params);
    var added := ClosedMethodReads(start, m, ' ');
    FirstIs(m, url, ' ');
    ReadSingleQuoted(start + added, url);
    SnippetReads(encode, params, start + added, url);
    ArgvStarts(encode, params);
    SameWords(start, added, [m], [url] + Arguments(params));
    AppendAssoc(start + added, [url], Arguments(params));
  }

  /** A method that ends in a backslash takes the address into its own word. */
  lemma EscapingSnippet(encode: string -> string, params: Value)
    requires var st := Read(Shell(["curl", "-X"], Between), TextOf(params.Get("method"), "GET")); st != Refused && st.mode.Escaping?
    ensures Words(Join(CurlLines(encode, params), " \\\n")) != Some(Argv(encode, params))
    ensures !PlainWord(TextOf(params.Get("method"), "GET"))
  {
    var start, m, url := ["curl", "-X"], TextOf(params.Get("method"), "GET"), UrlWithQuery(encode, params);
    var st := Read(Shell(start, Between), m);
    var added := Gains(start, m);
    var last := Open(st.mode) + [' '] + url;
    if PlainWord(m) { PlainWordReads(start, m); }
    FirstIs(m, url, ' ');
    ReadInWord(start + added, Open(st.mode) + [' '], url);
    SnippetReads(encode, params, start + added, last);
    ArgvStarts(encode, params);
    AppendAssoc(start + added, [last], Arguments(params));
    AppendAssoc(start, added, [last]);
    AppendAssoc(start, [m], [url]);
    AppendAssoc(start + [m], [url], Arguments(params));
    SameWords(start, added + [last], [m] + [url], Arguments(params));
    TooShort(added, last, m, url);
  }

  lemma TooShort(added: seq<string>, last: string, m: string, url: string)
    requires Total(added) < |m|
    ensures added + [last] != [m] + [url]
  {
    if |added| == 1 {
      TotalOne(added);
      assert (added + [last])[0] == added[0] && ([m] + [url])[0] == m;
    }
  }

  lemma SameWords(start: seq<string>, a: seq<string>, b: seq<string>, end: seq<string>)
    ensures start + a + end == start + b + end <==> a == b
  {
    if start + a + end == start + b + end {
      assert |a| == |b|;
      assert (start + a + end)[|start|..|start| + |a|] == a && (start + b + end)[|start|..|start| + |b|] == b;
    }
  }

  lemma ArgvStarts(encode: string -> string, params: Value)
    ensures Argv(encode, params) == ["curl", "-X"] + [TextOf(params.Get("method"), "GET")] + ([UrlWithQuery(encode, params)] + Arguments(params))
  {
  }

  // ─── Methods that leave a quote open ──────────────────────────────

  lemma BegunStays(words: seq<string>, s: string)
    requires s != "" && !StartsSkipped(s)
    ensures Read(Shell(words, Between), s) != Shell(words, Between)
  {
    var one := Step(Shell(words, Between), s[0]);
    if one == Shell(words, Escaping(None)) && |s| > 1 {
      var two := Step(one, s[1]);
      ReadGoesOn(two, s[2..]);
      assert s[1..][1..] == s[2..];
    } else {
      ReadGoesOn(one, s[1..]);
    }
  }

  /** Where the open word's first blank stands: the method has one before it. */
  lemma EarlierBlank(words: seq<string>, m: string, k: nat, open: string, space: char)
    requires space == ' ' && k < |m| && m[k] == space && !StartsSkipped(m)
    requires Read(Shell(words, Between), m) == Shell(words, InQuotes(open)) && open <= m
    ensures space in m[..k]
  {
    var before := Read(Shell(words, Between), m[..k]);
    var next := Step(before, space);
    assert m == m[..k] + ([space] + m[k + 1..]);
    ReadAppend(Shell(words, Between), m[..k], [space] + m[k + 1..]);
    ReadCons(before, space, m[k + 1..]);
    ReadGoesOn(before, [space] + m[k + 1..]);
    ReadGoesOn(next, m[k + 1..]);
    ReadGoesOn(Shell(words, Between), m[..k]);
    var added := Gains(words, m[..k]);
    assert before.words == words;
    if before.mode.Between? {
      if k > 0 { BegunStays(words, m[..k]); }
    } else {
      assert Open(next.mode) == Open(before.mode) + [space];
      assert open[|Open(before.mode)|] == space;
      assert m[..k][|Open(before.mode)|] == space;
    }
  }

  /** The word that an open quote leads to is not the method. */
  lemma OpenQuoteIsNotKept(words: seq<string>, m: string, open: string, space: char)
    requires space == ' ' && !StartsSkipped(m) && Read(Shell(words, Between), m) == Shell(words, InQuotes(open))
    ensures !(open + [space] <= m)
  {
    if open + [space] <= m {
      assert m[|open|] == space;
      var k := FindChar(m, space).value;
      EarlierBlank(words, m, k, open, space);
    }
  }

  /** The snippet is read on from the space behind its method. */
  lemma MethodGoesOn(encode: string -> string, params: Value, m: string, space: char)
    requires m == TextOf(params.Get("method"), "GET") && space == ' '
    ensures GoesOn(Step(Read(Shell(["curl", "-X"], Between), m), space), Read(Shell([], Between), Join(CurlLines(encode, params), " \\\n")))
  {
    var url := UrlWithQuery(encode, params);
    var next := Step(Read(Shell(["curl", "-X"], Between), m), space);
    var rest := SnippetGoesOn(encode, params, FirstOf(m, url));
    FirstIs(m, url, space);
    ReadAppend(Shell([], Between), FirstOf(m, url), rest);
    ReadAppend(next, ShellSingleQuote(url), rest);
    ReadGoesOn(next, ShellSingleQuote(url) + rest);
  }

  lemma OpenSnippet(encode: string -> string, params: Value, m: string)
    requires m == TextOf(params.Get("method"), "GET") && LeavesQuote(m) && !StartsSkipped(m)
    ensures Words(Join(CurlLines(encode, params), " \\\n")) != Some(Argv(encode, params)) && !PlainWord(m)
  {
    if PlainWord(m) { PlainWordReads(["curl", "-X"], m); }
    MethodGoesOn(encode, params, m, ' ');
    OpenMethodIsLost(m, Read(Shell([], Between), Join(CurlLines(encode, params), " \\\n")));
    assert Argv(encode, params)[2] == m;
  }

  /** Whatever the open quote leads to, the third word is not the method. */
  lemma OpenMethodIsLost(m: string, end: Shell)
    requires LeavesQuote(m) && !StartsSkipped(m)
    requires GoesOn(Step(Read(Shell(["curl", "-X"], Between), m), ' '), end)
    ensures match Finished(end) case None => true case Some(words) => |words| > 2 && words[2] != m
  {
    var start := ["curl", "-X"];
    var st := Read(Shell(start, Between), m);
    var added := Gains(start, m);
    if Finished(end).Some? {
      OpenWordShows(Step(st, ' '), end, start, added, Finished(end).value);
      if added == [] {
        assert start + [] == start;
        OpenQuoteIsNotKept(start, m, Open(st.mode), ' ');
      } else {
        TotalFirst(added);
      }
    }
  }

  /** The words of a shell that was in the middle of one. */
  lemma OpenWordShows(open: Shell, end: Shell, start: seq<string>, added: seq<string>, words: seq<string>)
    requires open != Refused && open.mode.InQuotes? && open.words == start + added && GoesOn(open, end)
    requires end != Refused && ((end.mode.Between? && words == end.words) || (end.mode.InWord? && words == end.words + [end.mode.word]))
    ensures |words| > |start| + |added| && words[..|start| + |added|] == start + added
    ensures Open(open.mode) <= words[|start| + |added|]
    ensures added != [] ==> words[|start|] == added[0]
  {
    assert open.words <= words;
    assert words[..|start| + |added|] == start + added;
    if added != [] { assert (start + added)[|start|] == added[0]; }
  }

  // ─── The snippet, read back ───────────────────────────────────────

  /** MAIN: for every url, header and body, a POSIX shell reads the snippet as one simple
      command whose words are exactly curl's arguments, if and only if the method, which
      alone is not quoted, is a plain word. */
  lemma CurlReadsAsArgvIff(encode: string -> string, params: Value)
    requires var m := TextOf(params.Get("method"), "GET"); !(StartsSkipped(m) && LeavesQuote(m))
    ensures Words(Join(CurlLines(encode, params), " \\\n")) == Some(Argv(encode, params)) <==> PlainWord(TextOf(params.Get("method"), "GET"))
  {
    var m := TextOf(params.Get("method"), "GET");
    var st := Read(Shell(["curl", "-X"], Between), m);
    if st == Refused {
      RefusedSnippet(encode, params);
      if PlainWord(m) { PlainWordReads(["curl", "-X"], m); }
    } else {
      match st.mode {
        case InQuotes(_) => OpenSnippet(encode, params, m);
        case Escaping(_) => EscapingSnippet(encode, params);
        case _ => ClosedSnippet(encode, params);
      }
    }
  }

  /** What an empty method does: it vanishes, and nothing else changes. */
  lemma EmptyMethodVanishes(encode: string -> string, params: Value)
    requires TextOf(params.Get("method"), "GET") == ""
    ensures Words(Join(CurlLines(encode, params), " \\\n")) ==
            Some(["curl", "-X"] + [UrlWithQuery(encode, params)] + HeaderWords(PairsOf(params, "headers")))
  {
    var start, m, url := ["curl", "-X"], "", UrlWithQuery(encode, params);
    FirstIs(m, url, ' ');
    ReadSingleQuoted(start, url);
    SnippetReads(encode, params, start, url);
    assert !MethodHasBody(m, TextOf(params.Get("body"), ""));
    assert HeaderWords(PairsOf(params, "headers")) + [] == HeaderWords(PairsOf(params, "headers"));
  }
}
