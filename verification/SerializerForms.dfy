/** What the serializer writes for blocks that no note yields. */
module SerializerForms {
  import opened Text
  import opened Json
  import opened Blocks
  import opened BlockParser
  import opened BlockSerializer
  import opened FencedText
  import opened HttpReading

  // ─── What is read of odd parameters ───────────────────────────────

  /** The text of a field; nothing when it is missing or no text. */
  function TextIn(v: Value, key: string): string {
    if v.Object? && key in v.fields && v.fields[key].Str? then v.fields[key].text else ""
  }

  predicate IsList(fields: map<string, Value>, key: string) {
    key in fields && fields[key].Array?
  }

  /** A row of a list is its key and its value, each empty when it is no text. */
  lemma {:induction false} RowsAreRead(items: seq<Value>)
    ensures |ReadPairs(items)| == |items|
    ensures forall i | 0 <= i < |items| :: ReadPairs(items)[i] == Pair(TextIn(items[i], "key"), TextIn(items[i], "value"))
  {
    if items != [] { RowsAreRead(items[1..]); }
  }

  /** MAIN: a message is written from whatever parameters there are: a missing method is
      GET, a missing text empty, a missing list without rows. */
  lemma MessageIsRead(fields: map<string, Value>, get: string)
    requires get == "GET"
    ensures var p, v := ReadHttp(Object(fields)), Object(fields);
            && p.verb == Uppercase(if "method" in fields && fields["method"].Str? then fields["method"].text else get)
            && Uppercase(get) == get
            && p.url == TextIn(v, "url") && p.body == TextIn(v, "body")
            && p.params == (if IsList(fields, "params") then ReadPairs(fields["params"].items) else [])
            && p.headers == (if IsList(fields, "headers") then ReadPairs(fields["headers"].items) else [])
  {
    assert get == ['G'] + ['E'] + ['T'] && get[1..] == ['E'] + ['T'] && get[2..] == ['T'] && get[3..] == "";
    assert get[1..][1..] == get[2..] && get[2..][1..] == get[3..];
    assert Uppercase(get[2..]) == ['T'];
    assert Uppercase(get[1..]) == ['E'] + ['T'];
  }

  // ─── Rows without a key ───────────────────────────────────────────

  function Keyed(pairs: seq<Pair>): seq<Pair> {
    if pairs == [] then [] else (if pairs[0].key == "" then [] else [pairs[0]]) + Keyed(pairs[1..])
  }

  /** MAIN: parameters and headers without a key are written as if they were not there. */
  lemma {:induction false} KeylessIsDropped(pairs: seq<Pair>)
    ensures QueryParts(pairs) == QueryParts(Keyed(pairs)) && HeaderText(pairs) == HeaderText(Keyed(pairs))
  {
    if pairs != [] {
      KeylessIsDropped(pairs[1..]);
      if pairs[0].key != "" { assert Keyed(pairs)[0] == pairs[0] && Keyed(pairs)[1..] == Keyed(pairs[1..]); }
      else { assert Keyed(pairs) == Keyed(pairs[1..]); }
    }
  }

  // ─── Addresses with a query of their own ──────────────────────────

  /** MAIN: a url that already has a query is written with the parameters behind it, and
      read back as one parameter list. */
  lemma OwnQueryIsExtended(m: string, url: string, own: seq<Pair>, params: seq<Pair>)
    requires '?' !in url && CleanParams(own) && CleanParams(params) && own != []
    ensures RequestTarget(m, Target(Target(url, own), params)) == Request(m, url, own + params)
  {
    var first := Join(QueryParts(own), "&");
    PartsRead(own);
    PartsRead(params);
    PartsRead(own + params);
    assert QueryParts(own)[0] in QueryParts(own);
    JoinNotEmpty(QueryParts(own), "&");
    assert Target(url, own) == url + "?" + first && Target(url, own)[|url|] == '?';
    PartsAppend(own, params);
    if params == [] {
      assert own + params == own;
    } else {
      assert QueryParts(params)[0] in QueryParts(params);
      JoinNotEmpty(QueryParts(params), "&");
      JoinLines(QueryParts(own), QueryParts(params), "&");
      assert (own + params)[0] == own[0];
      TargetIs(url, own + params);
      TwoQueries(url, first, Join(QueryParts(params), "&"));
    }
    TargetReads(m, url, own + params);
  }

  lemma TwoQueries(url: string, first: string, second: string)
    ensures url + "?" + first + "&" + second == url + "?" + (first + "&" + second)
  {
  }

  lemma TargetIs(url: string, params: seq<Pair>)
    requires '?' !in url && CleanParams(params) && params != []
    ensures Target(url, params) == url + "?" + Join(QueryParts(params), "&")
  {
    PartsRead(params);
    assert QueryParts(params)[0] in QueryParts(params);
    JoinNotEmpty(QueryParts(params), "&");
  }

  function OwnPart(p: Pair): seq<string> {
    if p.key == "" then [] else [Segment(p)]
  }

  lemma PartsCons(p: Pair, rest: seq<Pair>)
    ensures QueryParts([p] + rest) == OwnPart(p) + QueryParts(rest)
  {
    assert ([p] + rest)[1..] == rest;
  }

  lemma {:induction false} PartsAppend(a: seq<Pair>, b: seq<Pair>)
    ensures QueryParts(a + b) == QueryParts(a) + QueryParts(b)
  {
    if a == [] {
      assert a + b == b;
    } else {
      PartsAppend(a[1..], b);
      assert a + b == [a[0]] + (a[1..] + b) && a == [a[0]] + a[1..];
      PartsCons(a[0], a[1..] + b);
      PartsCons(a[0], a[1..]);
      AppendAssoc(OwnPart(a[0]), QueryParts(a[1..]), QueryParts(b));
    }
  }

  // ─── Connections, methods, bodies ─────────────────────────────────

  /** MAIN: `connection` is preferred over `connection_id`, whatever it holds. */
  lemma ConnectionIsPreferred(fields: map<string, Value>)
    ensures "connection" in fields && fields["connection"].Str? && fields["connection"].text != "" ==>
            ReadDb(Object(fields)).connection == Some(fields["connection"].text)
    ensures "connection" !in fields && "connection_id" in fields && fields["connection_id"].Str? && fields["connection_id"].text != "" ==>
            ReadDb(Object(fields)).connection == Some(fields["connection_id"].text)
    ensures "connection" in fields && !fields["connection"].Str? ==> ReadDb(Object(fields)).connection == None
    ensures "connection" !in fields && "connection_id" !in fields ==> ReadDb(Object(fields)).connection == None
  {
  }

  // ─── Whole blocks ─────────────────────────────────────────────────

  /** A word of an info string, when there is anything to say. */
  function Said(key: string, text: Option<string>): string {
    if text.None? || text.value == "" then "" else " " + key + "=" + text.value
  }

  /** The words of an info string behind the type, in order. */
  function AllSaid(rows: seq<(string, Option<string>)>): string {
    if rows == [] then "" else AllSaid(rows[..|rows| - 1]) + Said(rows[|rows| - 1].0, rows[|rows| - 1].1)
  }

  lemma {:induction false} FieldsSay(fields: seq<Field>, rows: seq<(string, Option<string>)>)
    requires |fields| == |rows| && forall i | 0 <= i < |rows| :: fields[i] == Field(rows[i].0, NonEmpty(rows[i].1))
    ensures FieldsText(fields) == AllSaid(rows)
  {
    if fields != [] { FieldsSay(fields[..|fields| - 1], rows[..|rows| - 1]); }
  }

  /** MAIN: a database block is written with these fields in this order, each left out when
      there is nothing to say. */
  lemma DbTextIs(b: ParsedBlock, p: DbParams)
    requires p == ReadDb(b.params)
    ensures DbText(b) ==
            Fenced(b.blockType + AllSaid([("alias", b.alias), ("connection", p.connection), ("limit", OptDecimal(p.limit)),
                                          ("timeout", OptDecimal(p.timeoutMs)), ("display", b.displayMode)]), p.query)
  {
    FieldsSay(DbInfoFields(b, p), [("alias", b.alias), ("connection", p.connection), ("limit", OptDecimal(p.limit)),
                                   ("timeout", OptDecimal(p.timeoutMs)), ("display", b.displayMode)]);
  }

  /** MAIN: an http block is written with two fields, its request line, its headers, and its
      body. */
  lemma HttpTextIs(b: ParsedBlock, p: HttpParams)
    requires p == ReadHttp(b.params)
    ensures HttpText(b) == Fenced(b.blockType + AllSaid([("alias", b.alias), ("displayMode", b.displayMode)]), HttpMessageText(p))
  {
    FieldsSay(HttpInfoFields(b), [("alias", b.alias), ("displayMode", b.displayMode)]);
  }

  predicate SameButCase(a: char, b: char) {
    a == b || ('a' <= a <= 'z' && b as int == a as int - 32)
  }

  /** A method is written in upper case, each letter by its own. */
  lemma {:induction false} UppercaseShape(s: string)
    ensures var r := Uppercase(s);
            |r| == |s| && forall i | 0 <= i < |s| :: SameButCase(s[i], r[i]) && !('a' <= r[i] <= 'z')
  {
    if s != "" { UppercaseShape(s[1..]); }
  }

  lemma {:induction false} FeedsAreTrimmed(body: string, feeds: string)
    requires (forall c | c in feeds :: c == '\n') && (body == "" || body[|body| - 1] != '\n')
    ensures TrimEndNewlines(body + feeds) == body
    decreases |feeds|
  {
    if feeds == "" {
      assert body + feeds == body;
    } else {
      var init := feeds[..|feeds| - 1];
      assert feeds[|feeds| - 1] in feeds && forall c | c in init :: c in feeds;
      assert (body + feeds)[..|body + feeds| - 1] == body + init;
      FeedsAreTrimmed(body, init);
    }
  }

  /** MAIN: line feeds behind a body are not written, and a body of nothing else is no body. */
  lemma TrailingFeedsAreDropped(body: string, feeds: string)
    requires (forall c | c in feeds :: c == '\n') && (body == "" || body[|body| - 1] != '\n')
    ensures BodyText(body + feeds) == if body == "" then "" else "\n\n" + body
  {
    FeedsAreTrimmed(body, feeds);
  }
}
