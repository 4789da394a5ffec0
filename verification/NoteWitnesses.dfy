/** Markdown notes whose blocks are the runner's witnesses. */
module NoteWitnesses {
  import opened Text
  import opened Lines
  import opened Json
  import opened Blocks
  import opened BlockParser
  import opened BlockSerializer
  import opened FencedText
  import opened DbRoundTrip
  import opened NoteRoundTrip
  import opened Runner
  import opened RunnerTheorems
  import opened RunnerWitnesses
  import References
  import Substitution

  // ─── Notes of queries ─────────────────────────────────────────────

  /** An alias, and the one line its block asks. */
  type Query = (string, string)

  /** The blocks of a note of queries: each takes three lines. */
  function Queries(qs: seq<Query>, line: nat): (blocks: seq<ParsedBlock>)
    ensures |blocks| == |qs|
    ensures forall i | 0 <= i < |qs| :: blocks[i] == QueryBlock(qs[i].0, qs[i].1, line + 3 * i)
  {
    if qs == [] then [] else [QueryBlock(qs[0].0, qs[0].1, line)] + Queries(qs[1..], line + 3)
  }

  function QueryItems(qs: seq<Query>): (items: seq<Item>)
    ensures |items| == |qs|
    ensures forall i | 0 <= i < |qs| :: items[i] == Written(QueryBlock(qs[i].0, qs[i].1, 0))
  {
    if qs == [] then [] else [Written(QueryBlock(qs[0].0, qs[0].1, 0))] + QueryItems(qs[1..])
  }

  predicate Askable(json: Parser, q: Query) {
    Word(q.0) && OneLine(q.1) && !ClosesFence(q.1) && StripCr(q.1) == q.1 && LegacyDbBody(json, q.1).None?
  }

  lemma QueryIsCanonical(json: Parser, q: Query)
    requires Askable(json, q)
    ensures CanonicalDb(json, QueryBlock(q.0, q.1, 0))
  {
    var p := DbParams(q.1, None, None, None);
    ReadWritten(p);
    SplitWhole(q.1, '\n');
  }

  lemma CanonicalHeight(json: Parser, b: ParsedBlock, body: seq<string>, ticks: string)
    requires CanonicalDb(json, b) && body == Split(ReadDb(b.params).query, '\n') && ticks == "```"
    ensures |Split(DbText(b), '\n')| == |body| + 2
  {
    var head, lines := CanonicalDbReadsBack(json, b, ticks);
    ReadsBackLines(Markdown(json), b, DbText(b), head, lines, ticks);
  }

  lemma QueryHeight(json: Parser, q: Query, ticks: string)
    requires Askable(json, q) && ticks == "```"
    ensures |Split(DbText(QueryBlock(q.0, q.1, 0)), '\n')| == 3
  {
    QueryIsCanonical(json, q);
    SplitWhole(q.1, '\n');
    CanonicalHeight(json, QueryBlock(q.0, q.1, 0), [q.1], ticks);
  }

  lemma ExpectedCons(text: string, texts: seq<string>, item: Item, items: seq<Item>, height: nat, at: nat)
    requires |texts| == |items| && height == |Split(text, '\n')|
    ensures Expected([text] + texts, [item] + items, at) == Own(item, height, at) + Expected(texts, items, at + height)
  {
    assert ([text] + texts)[1..] == texts && ([item] + items)[1..] == items;
  }

  lemma OwnQuery(q: Query, height: nat, line: nat)
    requires height == 3
    ensures Own(Written(QueryBlock(q.0, q.1, 0)), height, line) == [QueryBlock(q.0, q.1, line)]
  {
  }

  lemma {:induction false} QueriesExpected(json: Parser, jsonText: Printer, qs: seq<Query>, line: nat)
    requires forall q | q in qs :: Askable(json, q)
    ensures Expected(ItemTexts(jsonText, QueryItems(qs)), QueryItems(qs), line) == Queries(qs, line)
  {
    if qs != [] {
      var item, items, height := Written(QueryBlock(qs[0].0, qs[0].1, 0)), QueryItems(qs[1..]), 3;
      var text, texts := ItemText(jsonText, item), ItemTexts(jsonText, items);
      assert qs[0] in qs && forall q | q in qs[1..] :: q in qs;
      QueriesExpected(json, jsonText, qs[1..], line + height);
      QueryHeight(json, qs[0], "```");
      OwnQuery(qs[0], height, line);
      ExpectedCons(text, texts, item, items, height, line);
      TextsCons(jsonText, item, items);
    }
  }

  lemma TextsCons(jsonText: Printer, item: Item, items: seq<Item>)
    ensures ItemTexts(jsonText, [item] + items) == [ItemText(jsonText, item)] + ItemTexts(jsonText, items)
  {
    assert ([item] + items)[1..] == items;
  }

  /** MAIN: the note that asks the queries one behind the other has exactly their blocks. */
  lemma QueriesAreNotes(json: Parser, jsonText: Printer, qs: seq<Query>)
    requires forall q | q in qs :: Askable(json, q)
    ensures BlocksOf(json, NoteText(jsonText, QueryItems(qs))) == Queries(qs, 0)
  {
    forall i | i in QueryItems(qs) ensures CanonicalItem(json, i) {
      var k :| 0 <= k < |qs| && QueryItems(qs)[k] == i;
      assert qs[k] in qs;
      QueryIsCanonical(json, qs[k]);
    }
    NoteRoundTrips(json, jsonText, QueryItems(qs));
    QueriesExpected(json, jsonText, qs, 0);
  }

  // ─── Queries that are placeholders ────────────────────────────────

  /** What a JSON parser does with a text in which an object starts with an object. */
  ghost predicate RefusesDoubleBrace(json: Parser) {
    forall s | StartsWith(s, "{{") :: json(s).None?
  }

  /** A line in double braces is a query, not a legacy body. */
  lemma BracesAreAskable(json: Parser, alias: string, query: string)
    requires RefusesDoubleBrace(json) && Word(alias) && OneLine(query)
    requires StartsWith(query, "{{") && query[|query| - 1] == '}'
    ensures Askable(json, (alias, query))
  {
    assert query[..2][0] == '{';
    TrimTrimmed(query);
    assert TrimStart(query) == query;
  }

  lemma PlainIsAskable(json: Parser, alias: string, text: string)
    requires Word(alias) && OneLine(text) && !ClosesFence(text) && StripCr(text) == text && Substitution.NoBrace(text)
    ensures Askable(json, (alias, text))
  {
    var before := TrimStartCuts(text);
    var trimmed := TrimStart(text);
    assert trimmed != "" ==> text[|before|] == trimmed[0];
  }

  // ─── Too many blocks ──────────────────────────────────────────────

  function ChainQueries(n: nat): (qs: seq<Query>)
    ensures |qs| == n && forall i | 0 <= i < n :: qs[i] == (ChainAlias(i), ChainQuery(i))
  {
    if n == 0 then [] else ChainQueries(n - 1) + [(ChainAlias(n - 1), ChainQuery(n - 1))]
  }

  lemma ChainIsAskable(json: Parser, i: nat)
    requires RefusesDoubleBrace(json)
    ensures Askable(json, (ChainAlias(i), ChainQuery(i)))
  {
    ChainAliasIsWord(i);
    if i == 0 {
      EmptyDoesNotClose(ChainQuery(i));
      PlainIsAskable(json, ChainAlias(i), ChainQuery(i));
    } else {
      ChainAliasIsWord(i - 1);
      NoWhitespaceOneLine(ChainAlias(i - 1));
      BracesAreAskable(json, ChainAlias(i), ChainQuery(i));
    }
  }

  lemma ChainAliasIsWord(i: nat)
    ensures Word(ChainAlias(i))
  {
    var digits := Decimal(i);
    forall k | 0 <= k < |ChainAlias(i)| ensures !IsWhitespace(ChainAlias(i)[k]) {
      if k > 0 { assert ChainAlias(i)[k] == digits[k - 1] && IsDigit(digits[k - 1]); }
    }
  }

  /** The note of a chain. */
  function ChainNote(jsonText: Printer, n: nat): string {
    NoteText(jsonText, QueryItems(ChainQueries(n)))
  }

  lemma ChainBlocksAre(n: nat)
    ensures Queries(ChainQueries(n), 0) == ChainOf(n)
  {
    var blocks := Queries(ChainQueries(n), 0);
    assert forall i | 0 <= i < n :: blocks[i] == ChainOf(n)[i];
  }

  lemma ChainNoteIsRead(json: Parser, jsonText: Printer, n: nat)
    requires RefusesDoubleBrace(json)
    ensures BlocksOf(json, ChainNote(jsonText, n)) == ChainOf(n)
  {
    ChainIsAskableAll(json, n);
    QueriesAreNotes(json, jsonText, ChainQueries(n));
    ChainBlocksAre(n);
  }

  lemma ChainIsAskableAll(json: Parser, n: nat)
    requires RefusesDoubleBrace(json)
    ensures forall q | q in ChainQueries(n) :: Askable(json, q)
  {
    forall q | q in ChainQueries(n) ensures Askable(json, q) {
      var i :| 0 <= i < n && ChainQueries(n)[i] == q;
      ChainIsAskable(json, i);
    }
  }

  /** MAIN: a note of 52 blocks whose last block cannot run, and which runs without its last. */
  lemma FiftyTwoBlocksAreTooMany(json: Parser, jsonText: Printer, host: Host, n: nat)
    requires RefusesDoubleBrace(json) && AlwaysSucceeds(host) && n == 52
    ensures var run := Run(BlocksOf(json, ChainNote(jsonText, n)), host, ChainAlias(n - 1)).1; run.Err? && run.error.Root().DepthExceeded?
    ensures Run(BlocksOf(json, ChainNote(jsonText, n - 1)), host, ChainAlias(n - 2)).1.Ok?
  {
    ChainNoteIsRead(json, jsonText, n);
    ChainNoteIsRead(json, jsonText, n - 1);
    ChainLimit(host, n);
  }

  // ─── A reference downwards ────────────────────────────────────────

  /** Names that can stand in a note. */
  predicate Writable(n: Names) {
    && Word(n.z) && Word(n.a) && Word(n.t) && OneLine(n.pz) && OneLine(n.pa)
    && OneLine(n.text) && !ClosesFence(n.text) && StripCr(n.text) == n.text
  }

  function DownwardQueries(n: Names): seq<Query> {
    [(n.z, References.Pattern(n.pa)), (n.a, n.text), (n.t, References.Pattern(n.pa) + References.Pattern(n.pz))]
  }

  function DownwardText(jsonText: Printer, n: Names): string {
    NoteText(jsonText, QueryItems(DownwardQueries(n)))
  }

  lemma DownwardNoteIsRead(json: Parser, jsonText: Printer, n: Names)
    requires RefusesDoubleBrace(json) && Usable(n) && Writable(n)
    ensures BlocksOf(json, DownwardText(jsonText, n)) == DownwardNote(n)
  {
    var qs := DownwardQueries(n);
    BracesAreAskable(json, n.z, qs[0].1);
    PlainIsAskable(json, n.a, n.text);
    BracesAreAskable(json, n.t, qs[2].1);
    forall q | q in qs ensures Askable(json, q) { assert q == qs[0] || q == qs[1] || q == qs[2]; }
    QueriesAreNotes(json, jsonText, qs);
  }

  /** MAIN: in a note whose first block refers down to its second, a run of the third caches
      another value for the first than a run of the first itself, which is the plain
      recursion's. */
  lemma DownwardReferenceLeaks(json: Parser, jsonText: Printer, host: Host, n: Names)
    requires RefusesDoubleBrace(json) && AnswersQuery(host) && Usable(n) && Writable(n)
    ensures var d := BlocksOf(json, DownwardText(jsonText, n));
            && Ordered(d)
            && var (st, r) := Run(d, host, n.t);
            && r.Ok? && n.z in st.executed && st.executed[n.z] == Str(n.text)
            && Run(d, host, n.z).1 == Eval(d, host, n.z) == Ok(Str(References.Pattern(n.pa)))
            && n.text != References.Pattern(n.pa)
  {
    DownwardNoteIsRead(json, jsonText, n);
    DownwardNoteLeaks(host, n);
  }

  lemma WordIsWritable(text: string)
    requires Word(text) && text[0] != '`'
    ensures OneLine(text) && !ClosesFence(text) && StripCr(text) == text
  {
    NoWhitespaceOneLine(text);
    TrimTrimmed(text);
  }

  /** Any three words without a brace or dot are names for such a note, if the first comes
      behind the second. */
  lemma WordsAreNames(z: string, a: string, t: string, text: string)
    requires Word(z) && Word(a) && Word(t) && Word(text) && text[0] != '`' && Substitution.NoBrace(text)
    requires '.' !in z && '.' !in a && Substitution.NoBrace(z) && Substitution.NoBrace(a)
    requires t != z && t != a && a[0] < z[0]
    ensures var n := Names(z, a, t, text, z + ".", a + "."); Usable(n) && Writable(n)
  {
    AliasOf(z);
    AliasOf(a);
    NoWhitespaceOneLine(z);
    NoWhitespaceOneLine(a);
    WordIsWritable(text);
    assert (z + ".")[0] == z[0] && (a + ".")[0] == a[0];
  }
}
