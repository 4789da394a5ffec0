/** What a shell passes to curl for the snippet of a parsed message. */
module CurlMessages {
  import opened Text
  import opened Json
  import BlockParser
  import opened HttpCodegen

  type Rows = seq<(string, string)>

  /** The rows with a key, in order. */
  function Keyed(pairs: seq<BlockParser.Pair>): Rows {
    if pairs == [] then []
    else (if pairs[0].key == "" then [] else [(pairs[0].key, pairs[0].value)]) + Keyed(pairs[1..])
  }

  lemma {:induction false} EnabledAreKeyed(pairs: seq<BlockParser.Pair>)
    ensures EnabledPairs(BlockParser.PairValues(pairs)) == Keyed(pairs)
  {
    if pairs != [] {
      EnabledAreKeyed(pairs[1..]);
      var v := pairs[0].ToValue();
      assert BlockParser.PairValues(pairs)[0] == v && BlockParser.PairValues(pairs)[1..] == BlockParser.PairValues(pairs[1..]);
      assert TextOf(v.Get("key"), "") == pairs[0].key && TextOf(v.Get("value"), "") == pairs[0].value;
    }
  }

  /** Rows that are no objects, or have no key, are left out. */
  lemma OtherRowsAreDropped(item: Value, rest: seq<Value>)
    requires !item.Object? || TextOf(item.Get("key"), "") == ""
    ensures EnabledPairs([item] + rest) == EnabledPairs(rest)
  {
    assert ([item] + rest)[1..] == rest;
  }

  // ─── The address ──────────────────────────────────────────────────

  /** The encoder leaves no separator of a query string. */
  ghost predicate Encodes(encode: string -> string) {
    forall s :: '&' !in encode(s) && '=' !in encode(s)
  }

  /** The query text gives back every encoded key and value, in order. */
  predicate Carries(query: string, encode: string -> string, rows: Rows) {
    var parts := Split(query, '&');
    && |parts| == |rows|
    && forall i | 0 <= i < |rows| :: SplitOnceChar(parts[i], '=') == Some((encode(rows[i].0), encode(rows[i].1)))
  }

  lemma {:induction false} PartsCarry(encode: string -> string, rows: Rows)
    requires Encodes(encode)
    ensures var parts := EncodedParts(encode, rows);
            && |parts| == |rows| && (forall p | p in parts :: '&' !in p && p != "")
            && forall i | 0 <= i < |rows| :: SplitOnceChar(parts[i], '=') == Some((encode(rows[i].0), encode(rows[i].1)))
  {
    if rows != [] {
      PartsCarry(encode, rows[1..]);
      SplitOnceCharIs(encode(rows[0].0), '=', encode(rows[0].1));
      assert encode(rows[0].0) + ['='] + encode(rows[0].1) == EncodedParts(encode, rows)[0];
      assert EncodedParts(encode, rows)[1..] == EncodedParts(encode, rows[1..]);
    }
  }

  /** MAIN: the address carries the parameters behind a `?`, or behind an `&` when it has
      a query already; without parameters it is the url itself. */
  lemma AddressCarries(encode: string -> string, params: Value, rows: Rows) returns (query: string)
    requires Encodes(encode) && rows == PairsOf(params, "params")
    ensures var url, address := TextOf(params.Get("url"), ""), UrlWithQuery(encode, params);
            if rows == [] then address == url
            else address == url + (if '?' in url then "&" else "?") + query && Carries(query, encode, rows)
  {
    query := Join(EncodedParts(encode, rows), "&");
    PartsCarry(encode, rows);
    if rows != [] {
      var parts := EncodedParts(encode, rows);
      assert parts[0] in parts;
      SplitJoin(parts, '&');
    }
  }

  // ─── The arguments ────────────────────────────────────────────────

  function Flags(flag: string, rows: Rows): seq<string> {
    if rows == [] then [] else [flag, rows[0].0 + ": " + rows[0].1] + Flags(flag, rows[1..])
  }

  lemma {:induction false} HeadersAreFlags(rows: Rows, flag: string)
    requires flag == "-H"
    ensures HeaderWords(rows) == Flags(flag, rows)
  {
    if rows != [] { HeadersAreFlags(rows[1..], flag); }
  }

  lemma MessageFields(p: BlockParser.HttpParams)
    ensures var v := p.ToValue();
            && TextOf(v.Get("method"), "GET") == p.verb && TextOf(v.Get("url"), "") == p.url && TextOf(v.Get("body"), "") == p.body
            && PairsOf(v, "headers") == Keyed(p.headers) && PairsOf(v, "params") == Keyed(p.params)
  {
    var v := p.ToValue();
    EnabledAreKeyed(p.headers);
    EnabledAreKeyed(p.params);
    assert v.Get("method") == Some(Str(p.verb)) && v.Get("url") == Some(Str(p.url)) && v.Get("body") == Some(Str(p.body));
    assert v.Get("headers") == Some(Array(BlockParser.PairValues(p.headers))) && v.Get("params") == Some(Array(BlockParser.PairValues(p.params)));
  }

  lemma CapitalsArePlain(m: string)
    requires m != "" && forall i | 0 <= i < |m| :: 'A' <= m[i] <= 'Z'
    ensures PlainWord(m) && !StartsSkipped(m)
  {
  }

  lemma KnownMethodIsPlain(m: string)
    requires BlockParser.KnownMethod(m)
    ensures PlainWord(m) && !StartsSkipped(m)
  {
    assert forall i | 0 <= i < |m| :: 'A' <= m[i] <= 'Z';
    CapitalsArePlain(m);
  }

  /** MAIN: for a message the parser gives, the shell passes curl its method, its address,
      a header flag for each header with a key, and its body if the method is one of the
      four that send one and the body is not empty. */
  lemma CurlSendsTheMessage(encode: string -> string, p: BlockParser.HttpParams)
    requires BlockParser.KnownMethod(p.verb)
    ensures Words(Join(CurlLines(encode, p.ToValue()), " \\\n")) ==
            Some(["curl", "-X", p.verb, UrlWithQuery(encode, p.ToValue())] + Flags("-H", Keyed(p.headers))
                 + (if p.verb in ["POST", "PUT", "PATCH", "DELETE"] && p.body != "" then ["--data-raw", p.body] else []))
  {
    MessageFields(p);
    KnownMethodIsPlain(p.verb);
    CurlReadsAsArgvIff(encode, p.ToValue());
    HeadersAreFlags(Keyed(p.headers), "-H");
  }

  /** Missing fields give a GET of nothing. */
  lemma NoFieldsIsBareGet(encode: string -> string, params: Value, get: string)
    requires params == Object(map[]) && get == "GET"
    ensures Words(Join(CurlLines(encode, params), " \\\n")) == Some(["curl", "-X", get, ""])
  {
    assert params.Get("method") == None && params.Get("url") == None && params.Get("body") == None;
    assert params.Get("headers") == None && params.Get("params") == None;
    GetIsPlain(get);
    CurlReadsAsArgvIff(encode, params);
    var words := ["curl", "-X", get, ""];
    assert Argv(encode, params) == words + [] + [] && words + [] + [] == words;
  }

  lemma GetIsPlain(get: string)
    requires get == "GET"
    ensures PlainWord(get) && !StartsSkipped(get)
  {
  }
}
