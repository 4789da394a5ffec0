/** Forms of a note that the serializer does not write: other fences, notes that end inside
    a block, bodies that are JSON. */
module NoteForms {
  import opened Text
  import opened Lines
  import opened Json
  import opened Blocks
  import opened BlockParser
  import opened InfoStrings
  import opened FencedText

  // ─── Opening lines ────────────────────────────────────────────────

  predicate IsFenceMark(mark: string) {
    mark == "```" || mark == "~~~"
  }

  lemma FenceStrips(before: string, mark: string, info: string, after: string)
    requires Blank(before) && Blank(after) && IsFenceMark(mark) && info != "" && Trimmed(info)
    ensures StripFenceOpen(Trim(before + (mark + info) + after)) == Some(info)
  {
    var line := mark + info;
    assert line[0] == mark[0] && line[|line| - 1] == info[|info| - 1];
    TrimIs(before, line, after);
    assert line[..3] == mark && line[3..] == info;
    TrimTrimmed(info);
  }

  /** A fence opens what the first word of its info string says. */
  lemma FenceSays(before: string, mark: string, word: string, words: seq<string>, after: string)
    requires Blank(before) && Blank(after) && IsFenceMark(mark) && Word(word) && Words(words)
    ensures OpensBlock(before + (mark + (word + Spaced(words))) + after) ==
            if Executable(word) then Opening(word, AttributesOf(words)) else NoOpening
  {
    InfoTextEnds(word, words);
    InfoStringIs(word, words);
    FenceStrips(before, mark, word + Spaced(words), after);
  }

  /** MAIN: three backticks or tildes, indented or not, open a block of one of the five
      types, with the attributes behind it; any other word opens nothing. */
  lemma FenceOpensIff(before: string, mark: string, word: string, words: seq<string>, after: string)
    requires Blank(before) && Blank(after) && IsFenceMark(mark) && Word(word) && Words(words)
    ensures OpensBlock(before + (mark + (word + Spaced(words))) + after) ==
            if word in ["http", "db", "db-postgres", "db-mysql", "db-sqlite"] then Opening(word, AttributesOf(words)) else NoOpening
  {
    FenceSays(before, mark, word, words, after);
    assert Executable(word) <==> word in ["http", "db", "db-postgres", "db-mysql", "db-sqlite"];
  }

  /** So does a line whose first mark is no fence. */
  lemma OtherStartOpensNothing(line: string)
    requires Trim(line) == "" || (Trim(line)[0] != '`' && Trim(line)[0] != '~')
    ensures OpensBlock(line).NoOpening?
  {
    var t := Trim(line);
    if |t| >= 3 { assert t[..3][0] == t[0]; }
  }

  // ─── Closing lines ────────────────────────────────────────────────

  /** MAIN: a block is closed by three or more backticks alone on their line. */
  lemma ClosesIff(line: string)
    ensures ClosesFence(line) <==> |Trim(line)| >= 3 && forall i | 0 <= i < |Trim(line)| :: Trim(line)[i] == '`'
  {
    var t, ticks := Trim(line), "```";
    if |t| >= 3 { assert t[..3] == [t[0], t[1], t[2]]; }
  }

  /** A note that ends inside a block gives the block all its last lines. */
  lemma UnclosedBlock(g: Grammar, head: string, lines: seq<string>, at: nat)
    requires g.opens(head).Opening? && forall l | l in lines :: !g.closes(l)
    ensures Fences(g, [head] + lines, at) == [Fence(g.opens(head).blockType, g.opens(head).attrs, lines, at)]
  {
    var all := [head] + lines;
    assert all[1..] == lines;
    NothingCloses(g, lines);
    assert all[1..1 + |lines|] == lines && Behind(all, |lines| + 2) == [];
  }

  lemma {:induction false} NothingCloses(g: Grammar, lines: seq<string>)
    requires forall l | l in lines :: !g.closes(l)
    ensures BodyHeight(g, lines) == |lines|
  {
    if lines != [] {
      assert lines[0] in lines && forall l | l in lines[1..] :: l in lines;
      NothingCloses(g, lines[1..]);
    }
  }

  /** A line feed at the end of a note begins no line, and a note of nothing has none. */
  lemma NoteLines(lines: seq<string>)
    requires AllLines(lines)
    ensures LinesIn(Join(lines + [""], "\n")) == StripCrs(lines)
  {
    SplitJoin(lines + [""], '\n');
    LinesOfFed(lines);
  }

  // ─── Attributes ───────────────────────────────────────────────────

  /** `display` is preferred over `displayMode`. */
  lemma DisplayIsPreferred(json: Parser, f: Fence)
    ensures var shown := BlockFrom(json, f).displayMode;
            && ("display" in f.attrs ==> shown == Some(f.attrs["display"]))
            && ("display" !in f.attrs && "displayMode" in f.attrs ==> shown == Some(f.attrs["displayMode"]))
            && ("display" !in f.attrs && "displayMode" !in f.attrs ==> shown == None)
  {
  }

  /** The later of two equal keys wins, and a word without `=` says nothing. */
  lemma LaterKeyWins(words: seq<string>, key: string, first: string, second: string, word: string)
    requires '=' !in key && '=' !in word
    ensures AttributesOf(words + [key + "=" + first] + [key + "=" + second] + [word]) == AttributesOf(words)[key := second]
  {
    var one := words + [key + "=" + first];
    var two := one + [key + "=" + second];
    AttributesOfPush(words, key, first);
    AttributesOfPush(one, key, second);
    assert (two + [word])[..|two|] == two;
  }

  // ─── Legacy bodies ────────────────────────────────────────────────

  lemma BodyStarts(before: string, text: string)
    requires Blank(before) && text != "" && text[0] == '{'
    ensures TrimStart(before + text) == text
  {
    TrimStartSkips(before, text);
  }

  /** MAIN: a db body that is a JSON object with a query text is that object, whatever the
      info string says. */
  lemma LegacyDbIsItsJson(json: Parser, f: Fence, before: string, text: string, fields: map<string, Value>)
    requires IsDbBlock(f.blockType) && Blank(before) && text != "" && text[0] == '{' && Join(f.bodyLines, "\n") == before + text
    requires json(text) == Some(Object(fields)) && "query" in fields && fields["query"].Str?
    ensures BlockFrom(json, f).params == Object(fields)
  {
    BodyStarts(before, text);
  }

  /** MAIN: an http body that is a JSON object with method and url texts is that object. */
  lemma LegacyHttpIsItsJson(json: Parser, f: Fence, before: string, text: string, fields: map<string, Value>)
    requires f.blockType == "http" && Blank(before) && text != "" && text[0] == '{' && Join(f.bodyLines, "\n") == before + text
    requires json(text) == Some(Object(fields))
    requires "method" in fields && fields["method"].Str? && "url" in fields && fields["url"].Str?
    ensures BlockFrom(json, f).params == Object(fields)
  {
    assert f.blockType[0] == 'h' && f.blockType[..3][0] == 'h';
    BodyStarts(before, text);
  }

  predicate HasText(v: Value, key: string) {
    v.Object? && key in v.fields && v.fields[key].Str?
  }

  /** The body behind its blanks is a JSON text with such fields. */
  predicate IsJson(json: Parser, body: string, keys: seq<string>) {
    var t := TrimStart(body);
    t != "" && t[0] == '{' && json(t).Some? && forall k | k in keys :: HasText(json(t).value, k)
  }

  /** Any other db body is the query. */
  lemma OtherDbBodyIsQuery(json: Parser, f: Fence, key: string)
    requires IsDbBlock(f.blockType) && key == "query" && !IsJson(json, Join(f.bodyLines, "\n"), [key])
    ensures BlockFrom(json, f).params.Get(key) == Some(Str(Join(f.bodyLines, "\n")))
  {
  }

  function TextUnlessEmpty(attrs: Attributes, key: string): Option<Value> {
    if key in attrs && attrs[key] != "" then Some(Str(attrs[key])) else None
  }

  function NumberIfAny(attrs: Attributes, key: string): Option<Value> {
    if key in attrs && ParseU64(attrs[key]).Some? then Some(Number(Decimal(ParseU64(attrs[key]).value))) else None
  }

  /** MAIN: what the attributes of any other db block say: the connection unless it is
      empty, row limit and timeout if they are numbers, and no other field. */
  lemma DbFieldsAre(json: Parser, f: Fence, key: string)
    requires IsDbBlock(f.blockType) && key == "query" && !IsJson(json, Join(f.bodyLines, "\n"), [key])
    ensures var params := BlockFrom(json, f).params;
            && params.Get("connection_id") == TextUnlessEmpty(f.attrs, "connection")
            && params.Get("limit") == NumberIfAny(f.attrs, "limit")
            && params.Get("timeout_ms") == NumberIfAny(f.attrs, "timeout")
            && params.Object? && params.fields.Keys <= {"query", "connection_id", "limit", "timeout_ms"}
  {
  }

  lemma NoLegacyHttp(json: Parser, body: string, keys: seq<string>)
    requires keys == ["method", "url"] && !IsJson(json, body, keys)
    ensures LegacyHttpBody(json, body).None?
  {
    var t := TrimStart(body);
    if t != "" && t[0] == '{' && json(t).Some? {
      var k :| k in keys && !HasText(json(t).value, k);
      assert k == keys[0] || k == keys[1];
    }
  }

  lemma HttpParamsAre(json: Parser, f: Fence)
    requires f.blockType == "http"
    ensures BlockFrom(json, f).params == HttpBody(json, Join(f.bodyLines, "\n"), f.attrs)
  {
    assert f.blockType[0] == 'h' && f.blockType[..3][0] == 'h';
  }

  /** Any other http body is a message. */
  lemma OtherHttpBodyIsMessage(json: Parser, f: Fence, keys: seq<string>)
    requires f.blockType == "http" && keys == ["method", "url"] && !IsJson(json, Join(f.bodyLines, "\n"), keys)
    ensures BlockFrom(json, f).params == HttpMessage(Join(f.bodyLines, "\n"), f.attrs).ToValue()
  {
    NoLegacyHttp(json, Join(f.bodyLines, "\n"), keys);
    HttpParamsAre(json, f);
  }

  /** An http block keeps no attribute but its timeout, if that is a number. */
  lemma HttpTimeoutIs(json: Parser, f: Fence, keys: seq<string>)
    requires f.blockType == "http" && keys == ["method", "url"] && !IsJson(json, Join(f.bodyLines, "\n"), keys)
    ensures var params := BlockFrom(json, f).params;
            && params.Get("timeout_ms") == NumberIfAny(f.attrs, "timeout")
            && params.Object? && params.fields.Keys <= {"method", "url", "params", "headers", "body", "timeout_ms"}
  {
    OtherHttpBodyIsMessage(json, f, keys);
    TimeoutIsKept(Join(f.bodyLines, "\n"), f.attrs);
  }

  lemma TimeoutIsKept(body: string, attrs: Attributes)
    ensures HttpMessage(body, attrs).timeoutMs == U64Attribute(attrs, "timeout")
  {
  }

  /** The body of a block of any other type would be JSON, or nothing. */
  lemma OtherTypeIsJson(json: Parser, f: Fence)
    requires !IsDbBlock(f.blockType) && f.blockType != "http"
    ensures BlockFrom(json, f).params == match json(Join(f.bodyLines, "\n")) case Some(v) => v case None => Null
  {
  }

  // ─── Which executor a type is for ─────────────────────────────────

  /** MAIN: the registry the runner starts with knows exactly the five types a note can
      hold, and sends each to its family's executor; any other name stands for itself. */
  lemma DefaultsCoverTheTypes(blockType: string)
    ensures blockType in DEFAULT_REGISTRY <==> Executable(blockType)
    ensures Canonicalize(DEFAULT_REGISTRY, blockType) ==
            if !Executable(blockType) then blockType else if IsDbBlock(blockType) then "db" else "http"
  {
    if blockType == "http" { assert blockType[0] == 'h' && blockType[..3][0] == 'h'; }
  }
}
