/** Database blocks survive being written and read back exactly when they are canonical. */
module DbRoundTrip {
  import opened Text
  import opened Lines
  import opened Json
  import opened Blocks
  import opened BlockParser
  import opened BlockSerializer
  import opened BlockScan
  import opened InfoStrings
  import opened FencedText

  /** Attributes that survive the info string, exactly the parser's keys, and a query
      whose lines are left alone and which does not read as legacy JSON. */
  predicate CanonicalDb(json: Parser, b: ParsedBlock) {
    var p := ReadDb(b.params);
    && Executable(b.blockType) && IsDbBlock(b.blockType)
    && WordIfAny(b.alias) && WordIfAny(b.displayMode)
    && WordIfAny(p.connection) && b.params == p.ToValue()
    && CleanLines(Split(p.query, '\n')) && LegacyDbBody(json, p.query).None?
  }

  // ─── The parameters ───────────────────────────────────────────────

  predicate InRange(n: Option<nat>) {
    n.Some? ==> n.value < U64_LIMIT
  }

  lemma ReadNumber(n: nat)
    requires n < U64_LIMIT
    ensures AsU64(Some(Number(Decimal(n)))) == Some(n)
  {
    DecimalValue(n);
  }

  function NumberValue(n: Option<nat>): Option<Value> {
    if n.Some? then Some(Number(Decimal(n.value))) else None
  }

  lemma WrittenKeys(p: DbParams)
    ensures var v := p.ToValue();
            && v.Get("query") == Some(Str(p.query)) && v.Get("connection") == None
            && v.Get("connection_id") == (if p.connection.Some? then Some(Str(p.connection.value)) else None)
            && v.Get("limit") == NumberValue(p.limit) && v.Get("timeout_ms") == NumberValue(p.timeoutMs)
  {
    assert "query"[0] == 'q' && "connection_id"[0] == 'c' && "limit"[0] == 'l' && "timeout_ms"[0] == 't' && "connection"[0] == 'c';
    assert |"connection_id"| != |"connection"|;
  }

  lemma ReadNumberValue(n: Option<nat>)
    requires InRange(n)
    ensures AsU64(NumberValue(n)) == n
  {
    if n.Some? { ReadNumber(n.value); }
  }

  /** What the parser builds, the serializer reads. */
  lemma ReadWritten(p: DbParams)
    requires p.connection != Some("") && InRange(p.limit) && InRange(p.timeoutMs)
    ensures ReadDb(p.ToValue()) == p
  {
    WrittenKeys(p);
    ReadNumberValue(p.limit);
    ReadNumberValue(p.timeoutMs);
  }

  // ─── The info string ──────────────────────────────────────────────

  lemma DbFieldsClean(b: ParsedBlock, p: DbParams)
    requires Unspaced(b.alias) && Unspaced(b.displayMode) && Unspaced(p.connection)
    ensures CleanFields(DbInfoFields(b, p))
  {
    var fs := DbInfoFields(b, p);
    CleanFront(fs[0], fs[1], fs[2]);
    CleanBack([fs[0], fs[1], fs[2]], fs[3], fs[4]);
    assert fs == [fs[0], fs[1], fs[2]] + [fs[3]] + [fs[4]];
  }

  lemma CleanFront(alias: Field, connection: Field, limit: Field)
    requires alias.key == "alias" && connection.key == "connection" && limit.key == "limit"
    requires Unspaced(alias.value) && Unspaced(connection.value) && Unspaced(limit.value)
    ensures CleanFields([alias, connection, limit])
  {
    assert alias.key[0] == 'a' && connection.key[0] == 'c' && limit.key[0] == 'l';
  }

  lemma CleanBack(front: seq<Field>, timeout: Field, display: Field)
    requires CleanFields(front) && |front| == 3 && front[0].key == "alias" && front[1].key == "connection" && front[2].key == "limit"
    requires timeout.key == "timeout" && display.key == "display" && Unspaced(timeout.value) && Unspaced(display.value)
    ensures CleanFields(front + [timeout] + [display])
  {
    assert front[0].key[0] == 'a' && front[1].key[0] == 'c' && front[2].key[0] == 'l';
    assert timeout.key[0] == 't' && display.key[0] == 'd';
    CleanPush(front, timeout);
    CleanPush(front + [timeout], display);
  }

  lemma DbLookups(b: ParsedBlock, p: DbParams)
    requires Unspaced(b.alias) && Unspaced(b.displayMode) && Unspaced(p.connection) && InRange(p.limit) && InRange(p.timeoutMs)
    ensures var attrs := AttributesOf(FieldWords(DbInfoFields(b, p)));
            && Lookup(attrs, "alias") == NonEmpty(b.alias)
            && Lookup(attrs, "connection") == NonEmpty(p.connection)
            && U64Attribute(attrs, "limit") == p.limit
            && U64Attribute(attrs, "timeout") == p.timeoutMs
            && Lookup(attrs, "display") == NonEmpty(b.displayMode)
            && Lookup(attrs, "displayMode") == None
  {
    var fields := DbInfoFields(b, p);
    var attrs := AttributesOf(FieldWords(fields));
    DbFieldsClean(b, p);
    FieldsAreFound(fields);
    assert "alias"[0] == 'a' && "connection"[0] == 'c' && "limit"[0] == 'l' && "timeout"[0] == 't';
    assert "display"[0] == 'd' && "displayMode"[0] == 'd' && |"display"| != |"displayMode"|;
    assert fields[0].key == "alias" && fields[1].key == "connection" && fields[2].key == "limit";
    assert fields[3].key == "timeout" && fields[4].key == "display";
    if p.limit.Some? { ParseDecimal(p.limit.value); }
    if p.timeoutMs.Some? { ParseDecimal(p.timeoutMs.value); }
    assert "displayMode" !in attrs;
  }

  lemma DbBodyIs(json: Parser, body: string, attrs: Attributes, p: DbParams)
    requires LegacyDbBody(json, body).None?
    requires p == DbParams(body, NonEmpty(Lookup(attrs, "connection")), U64Attribute(attrs, "limit"), U64Attribute(attrs, "timeout"))
    ensures DbBody(json, body, attrs) == p.ToValue()
  {
  }

  /** What the attributes and some body lines make of the block. */
  lemma DbBuilds(json: Parser, fence: Fence, p: DbParams)
    requires IsDbBlock(fence.blockType) && LegacyDbBody(json, p.query).None? && p.query == Join(fence.bodyLines, "\n")
    requires NonEmpty(Lookup(fence.attrs, "connection")) == p.connection
    requires U64Attribute(fence.attrs, "limit") == p.limit && U64Attribute(fence.attrs, "timeout") == p.timeoutMs
    requires "displayMode" !in fence.attrs
    ensures var b := BlockFrom(json, fence);
            && b.blockType == fence.blockType && b.alias == Lookup(fence.attrs, "alias") && b.displayMode == Lookup(fence.attrs, "display")
            && b.params == p.ToValue() && b.lineStart == fence.at && b.lineEnd == fence.at + 1 + |fence.bodyLines|
  {
    DbBodyIs(json, p.query, fence.attrs, p);
  }

  // ─── Round trip ───────────────────────────────────────────────────

  lemma CanonicalDbBuilds(json: Parser, b: ParsedBlock, at: nat)
    requires CanonicalDb(json, b)
    ensures var p := ReadDb(b.params);
            var body := Split(p.query, '\n');
            BlockFrom(json, Fence(b.blockType, AttributesOf(FieldWords(DbInfoFields(b, p))), body, at)) == Placed(b, |body|, at)
  {
    var p := ReadDb(b.params);
    var attrs := AttributesOf(FieldWords(DbInfoFields(b, p)));
    JoinSplit(p.query, '\n');
    DbLookups(b, p);
    DbBuilds(json, Fence(b.blockType, attrs, Split(p.query, '\n'), at), p);
  }

  lemma CanonicalDbReadsBack(json: Parser, b: ParsedBlock, ticks: string) returns (head: string, body: seq<string>)
    requires ticks == "```" && CanonicalDb(json, b)
    ensures ReadsBack(Markdown(json), b, DbText(b), head, body, ticks) && body == Split(ReadDb(b.params).query, '\n')
  {
    var p, g := ReadDb(b.params), Markdown(json);
    var fields := DbInfoFields(b, p);
    var info := b.blockType + FieldsText(fields);
    head, body := ticks + info, Split(p.query, '\n');
    DbFieldsClean(b, p);
    HeadOpens(ticks, b.blockType, fields);
    TicksClose(ticks);
    FencedIsJoin(info, p.query, ticks);
    SplitLines(p.query);
    forall at: nat ensures g.build(Fence(g.opens(head).blockType, g.opens(head).attrs, body, at)) == Placed(b, |body|, at) {
      CanonicalDbBuilds(json, b, at);
    }
  }

  // ─── Nothing else comes back ──────────────────────────────────────

  /** Nothing in the text is taken for a legacy JSON body. */
  ghost predicate NothingLegacy(json: Parser, text: string) {
    forall f | f in Fences(Markdown(json), LinesIn(text), 0) :: LegacyDbBody(json, Join(f.bodyLines, "\n")).None?
  }

  /** A block built from a fence has the parser's keys, and one-word attributes. */
  lemma BuiltShape(json: Parser, f: Fence, b: ParsedBlock)
    requires BlockFrom(json, f) == b && IsDbBlock(f.blockType) && CleanAttributes(f.attrs)
    requires LegacyDbBody(json, Join(f.bodyLines, "\n")).None?
    ensures var p := ReadDb(b.params);
            && b.params == p.ToValue() && p.query == Join(f.bodyLines, "\n")
            && p.connection == NonEmpty(Lookup(f.attrs, "connection"))
            && InRange(p.limit) && InRange(p.timeoutMs)
            && Unspaced(b.alias) && Unspaced(b.displayMode) && Unspaced(p.connection)
  {
    var q := DbParams(Join(f.bodyLines, "\n"), NonEmpty(Lookup(f.attrs, "connection")), U64Attribute(f.attrs, "limit"), U64Attribute(f.attrs, "timeout"));
    DbBodyIs(json, q.query, f.attrs, q);
    ReadWritten(q);
  }

  /** What the head line of a block with one-word attributes is read back to. */
  lemma HeadOfDb(b: ParsedBlock, ticks: string) returns (attrs: Attributes)
    requires ticks == "```" && Executable(b.blockType)
    requires var p := ReadDb(b.params); Unspaced(b.alias) && Unspaced(b.displayMode) && Unspaced(p.connection) && InRange(p.limit) && InRange(p.timeoutMs)
    ensures var p := ReadDb(b.params);
            var info := b.blockType + FieldsText(DbInfoFields(b, p));
            && OneLine(info) && StripCr(ticks + info) == ticks + info
            && OpensBlock(ticks + info) == Opening(b.blockType, attrs)
            && Lookup(attrs, "alias") == NonEmpty(b.alias) && Lookup(attrs, "display") == NonEmpty(b.displayMode)
            && Lookup(attrs, "connection") == NonEmpty(p.connection)
            && U64Attribute(attrs, "limit") == p.limit && U64Attribute(attrs, "timeout") == p.timeoutMs
            && Lookup(attrs, "displayMode") == None
  {
    var p := ReadDb(b.params);
    var fields := DbInfoFields(b, p);
    attrs := AttributesOf(FieldWords(fields));
    DbFieldsClean(b, p);
    DbLookups(b, p);
    HeadOpens(ticks, b.blockType, fields);
    var info := b.blockType + FieldsText(fields);
    forall c | c in info ensures c != '\n' { assert c in ticks + info; }
  }

  predicate DbRoundTrips(json: Parser, b: ParsedBlock) {
    BlocksOf(json, DbText(b)) == [Placed(b, |Split(ReadDb(b.params).query, '\n')|, 0)]
  }

  lemma OnlyCanonicalReadsBack(json: Parser, b: ParsedBlock, ticks: string)
    requires ticks == "```" && IsDbBlock(b.blockType) && NothingLegacy(json, DbText(b))
    ensures DbRoundTrips(json, b) ==> CanonicalDb(json, b)
  {
    if DbRoundTrips(json, b) {
      var p := ReadDb(b.params);
      var placed := Placed(b, |Split(p.query, '\n')|, 0);
      var f := SoleFence(json, DbText(b), placed);
      BuiltShape(json, f, placed);
      var n := OwnDbFence(json, b, ticks, f);
      WholeBody(p.query, n);
    }
  }

  /** The fence cut out of a block's own text: its attributes and its first lines. */
  lemma OwnDbFence(json: Parser, b: ParsedBlock, ticks: string, f: Fence) returns (n: nat)
    requires ticks == "```" && Executable(b.blockType) && IsDbBlock(b.blockType)
    requires var p := ReadDb(b.params); Unspaced(b.alias) && Unspaced(b.displayMode) && Unspaced(p.connection) && InRange(p.limit) && InRange(p.timeoutMs)
    ensures Fences(Markdown(json), LinesIn(DbText(b)), 0) == [f] ==>
            var s := StripCrs(Split(ReadDb(b.params).query, '\n'));
            && n <= |s| && (n < |s| ==> ClosesFence(s[n])) && f.blockType == b.blockType && f.bodyLines == s[..n]
            && Lookup(f.attrs, "alias") == NonEmpty(b.alias) && Lookup(f.attrs, "display") == NonEmpty(b.displayMode)
            && Lookup(f.attrs, "displayMode") == None
  {
    var p := ReadDb(b.params);
    var info := b.blockType + FieldsText(DbInfoFields(b, p));
    var attrs := HeadOfDb(b, ticks);
    LinesOfFenced(info, p.query, ticks);
    TicksClose(ticks);
    n := FirstFence(Markdown(json), ticks + info, StripCrs(Split(p.query, '\n')), ticks);
  }

  lemma CanonicalDbRoundTrips(json: Parser, b: ParsedBlock)
    requires CanonicalDb(json, b)
    ensures DbRoundTrips(json, b)
  {
    var ticks := "```";
    var head, body := CanonicalDbReadsBack(json, b, ticks);
    ReadsBackAlone(json, b, DbText(b), head, body, ticks);
  }

  /** MAIN: a db block that is not read as legacy JSON survives being written and read
      back, alone in a note, if and only if it is canonical. */
  lemma DbRoundTripIff(json: Parser, b: ParsedBlock)
    requires IsDbBlock(b.blockType) && NothingLegacy(json, DbText(b))
    ensures DbRoundTrips(json, b) <==> CanonicalDb(json, b)
  {
    OnlyCanonicalReadsBack(json, b, "```");
    if CanonicalDb(json, b) { CanonicalDbRoundTrips(json, b); }
  }
}
