/** Whole notes: canonical blocks between prose lines are read back as they were written. */
module NoteRoundTrip {
  import opened Text
  import opened Lines
  import opened Json
  import opened Blocks
  import opened BlockParser
  import opened BlockSerializer
  import opened FencedText
  import opened DbRoundTrip
  import opened HttpRoundTrip

  /** One prose line, or one block in its fenced form. */
  datatype Item = Prose(line: string) | Written(block: ParsedBlock)

  type Printer = Value -> string

  function ItemText(jsonText: Printer, item: Item): string {
    match item
    case Prose(line) => line
    case Written(b) => BlockText(jsonText, b)
  }

  function ItemTexts(jsonText: Printer, items: seq<Item>): (texts: seq<string>)
    ensures |texts| == |items|
  {
    if items == [] then [] else [ItemText(jsonText, items[0])] + ItemTexts(jsonText, items[1..])
  }

  function NoteText(jsonText: Printer, items: seq<Item>): string {
    Join(ItemTexts(jsonText, items), "\n")
  }

  predicate CanonicalBlock(json: Parser, b: ParsedBlock) {
    if IsDbBlock(b.blockType) then CanonicalDb(json, b) else CanonicalHttp(b)
  }

  predicate CanonicalItem(json: Parser, item: Item) {
    match item
    case Prose(line) => OneLine(line) && OpensBlock(line).NoOpening?
    case Written(b) => CanonicalBlock(json, b)
  }

  /** The blocks an item stands for when its `height` lines begin at line `at`. */
  function Own(item: Item, height: nat, at: nat): seq<ParsedBlock>
    requires height > 0
  {
    match item
    case Prose(_) => []
    case Written(b) => [b.(lineStart := at, lineEnd := at + height - 1)]
  }

  /** The written blocks, each at the lines its text takes up. */
  function Expected(texts: seq<string>, items: seq<Item>, at: nat): seq<ParsedBlock>
    requires |texts| == |items|
  {
    if items == [] then []
    else
      var height := |Split(texts[0], '\n')|;
      Own(items[0], height, at) + Expected(texts[1..], items[1..], at + height)
  }

  // ─── The note's lines ─────────────────────────────────────────────

  function LinesOfTexts(texts: seq<string>): seq<string> {
    if texts == [] then [] else Split(texts[0], '\n') + LinesOfTexts(texts[1..])
  }

  lemma {:induction false} NoteIsLines(texts: seq<string>)
    requires texts != []
    ensures var lines := LinesOfTexts(texts); lines != [] && AllLines(lines) && Join(texts, "\n") == Join(lines, "\n")
  {
    var own := Split(texts[0], '\n');
    JoinSplit(texts[0], '\n');
    SplitLines(texts[0]);
    if |texts| == 1 {
      assert texts[1..] == [] && own + [] == own;
    } else {
      NoteIsLines(texts[1..]);
      assert texts == [texts[0]] + texts[1..];
      JoinCons(texts[0], texts[1..], "\n");
      JoinLines(own, LinesOfTexts(texts[1..]), "\n");
    }
  }

  lemma {:induction false} LinesOfAppend(a: seq<string>, b: seq<string>)
    requires b != []
    ensures LinesOf(a + b) == StripCrs(a) + LinesOf(b)
  {
    if a == [] {
      assert a + b == b;
    } else {
      LinesOfAppend(a[1..], b);
      assert (a + b)[1..] == a[1..] + b;
    }
  }

  /** The lines the parser sees: all but the last text's may lose a carriage return. */
  function SeenLines(texts: seq<string>): seq<string>
    requires texts != []
  {
    var lines := Split(texts[0], '\n');
    if |texts| == 1 then LinesOf(lines) else StripCrs(lines) + SeenLines(texts[1..])
  }

  lemma {:induction false} NoteSeen(texts: seq<string>)
    requires texts != []
    ensures LinesOfTexts(texts) != [] && LinesOf(LinesOfTexts(texts)) == SeenLines(texts)
  {
    var lines, others := Split(texts[0], '\n'), LinesOfTexts(texts[1..]);
    if |texts| == 1 {
      assert lines + [] == lines;
    } else {
      NoteSeen(texts[1..]);
      LinesOfAppend(lines, others);
    }
  }

  // ─── Reading item by item ─────────────────────────────────────────

  /** A line that opens nothing, before and after it loses its carriage return. */
  predicate Plain(g: Grammar, line: string) {
    g.opens(line).NoOpening? && g.opens(StripCr(line)).NoOpening?
  }

  /** What a reader makes of lines numbered from some line on. */
  type Reader = (seq<string>, nat) -> seq<ParsedBlock>

  function ReaderOf(g: Grammar): Reader {
    (lines: seq<string>, at: nat) => BlocksFrom(g, Fences(g, lines, at))
  }

  /** In front of any lines, these are read as the item's own block. */
  predicate Leads(read: Reader, seen: seq<string>, height: nat, item: Item, rest: seq<string>, at: nat)
    requires height > 0
  {
    read(seen + rest, at) == Own(item, height, at) + read(rest, at + height)
  }

  predicate Ends(read: Reader, seen: seq<string>, height: nat, item: Item, at: nat)
    requires height > 0
  {
    read(seen, at) == Own(item, height, at)
  }

  /** The reader takes an item's lines for the item's own block, in front of any others
      and at the end of a note, where the last line keeps its carriage return. */
  ghost predicate ReadsItem(read: Reader, lines: seq<string>, item: Item) {
    && lines != []
    && (forall rest: seq<string>, at: nat :: Leads(read, StripCrs(lines), |lines|, item, rest, at))
    && (forall at: nat :: Ends(read, LinesOf(lines), |lines|, item, at))
  }

  lemma PlainInFront(g: Grammar, line: string, rest: seq<string>, at: nat)
    requires g.opens(line).NoOpening?
    ensures Fences(g, [line] + rest, at) == Fences(g, rest, at + 1)
  {
    assert ([line] + rest)[1..] == rest;
  }

  lemma ProseEnds(g: Grammar, line: string, at: nat)
    requires g.opens(line).NoOpening?
    ensures BlocksFrom(g, Fences(g, LinesOf([line]), at)) == []
  {
    PlainInFront(g, line, [], at);
    assert [line] + [] == [line];
  }

  lemma ProseReads(g: Grammar, line: string)
    requires OneLine(line) && Plain(g, line)
    ensures ReadsItem(ReaderOf(g), Split(line, '\n'), Prose(line))
  {
    var read, lines := ReaderOf(g), [line];
    SplitWhole(line, '\n');
    assert StripCrs(lines) == [StripCr(line)];
    forall rest: seq<string>, at: nat ensures Leads(read, StripCrs(lines), |lines|, Prose(line), rest, at) {
      PlainInFront(g, StripCr(line), rest, at);
    }
    forall at: nat ensures Ends(read, LinesOf(lines), |lines|, Prose(line), at) { ProseEnds(g, line, at); }
  }

  lemma WrittenLines(g: Grammar, b: ParsedBlock, text: string, head: string, body: seq<string>, close: string)
    requires ReadsBack(g, b, text, head, body, close)
    ensures var lines := [head] + body + [close]; Split(text, '\n') == lines && StripCrs(lines) == lines && LinesOf(lines) == lines
  {
    ReadsBackLines(g, b, text, head, body, close);
    LinesOfText([head] + body, close);
    StripCrsNone([head] + body);
  }

  lemma WrittenEnds(g: Grammar, b: ParsedBlock, text: string, head: string, body: seq<string>, close: string, at: nat)
    requires ReadsBack(g, b, text, head, body, close)
    ensures BlocksFrom(g, Fences(g, [head] + body + [close], at)) == [Placed(b, |body|, at)]
  {
    ReadsBackInFront(g, b, text, head, body, close, [], at);
    AppendNothing([head] + body + [close], []);
  }

  lemma WrittenBlock(b: ParsedBlock, height: nat, at: nat)
    ensures Own(Written(b), height + 2, at) == [Placed(b, height, at)]
  {
  }

  /** What a reader makes of lines, with the lines behind one block split off. */
  lemma ReaderStep(g: Grammar, all: seq<string>, rest: seq<string>, first: seq<ParsedBlock>, at: nat, next: nat)
    requires BlocksFrom(g, Fences(g, all, at)) == first + BlocksFrom(g, Fences(g, rest, next))
    ensures ReaderOf(g)(all, at) == first + ReaderOf(g)(rest, next)
  {
  }

  lemma WrittenInFront(g: Grammar, b: ParsedBlock, text: string, head: string, body: seq<string>, close: string,
                       lines: seq<string>, height: nat, rest: seq<string>, at: nat)
    requires ReadsBack(g, b, text, head, body, close) && lines == [head] + body + [close] && height == |body| + 2
    ensures Leads(ReaderOf(g), lines, height, Written(b), rest, at)
  {
    ReadsBackInFront(g, b, text, head, body, close, rest, at);
    WrittenBlock(b, |body|, at);
    ReaderStep(g, lines + rest, rest, Own(Written(b), height, at), at, at + height);
  }

  lemma WrittenAlone(g: Grammar, b: ParsedBlock, text: string, head: string, body: seq<string>, close: string,
                     lines: seq<string>, height: nat, at: nat)
    requires ReadsBack(g, b, text, head, body, close) && lines == [head] + body + [close] && height == |body| + 2
    ensures Ends(ReaderOf(g), lines, height, Written(b), at)
  {
    WrittenEnds(g, b, text, head, body, close, at);
    WrittenBlock(b, |body|, at);
  }

  lemma WrittenReads(g: Grammar, b: ParsedBlock, text: string, head: string, body: seq<string>, close: string)
    requires ReadsBack(g, b, text, head, body, close)
    ensures ReadsItem(ReaderOf(g), Split(text, '\n'), Written(b))
  {
    WrittenLines(g, b, text, head, body, close);
    WrittenLinesRead(ReaderOf(g), g, b, text, head, body, close, Split(text, '\n'));
  }

  lemma WrittenLinesRead(read: Reader, g: Grammar, b: ParsedBlock, text: string, head: string, body: seq<string>, close: string, lines: seq<string>)
    requires read == ReaderOf(g) && ReadsBack(g, b, text, head, body, close) && lines == [head] + body + [close]
    requires StripCrs(lines) == lines && LinesOf(lines) == lines
    ensures ReadsItem(read, lines, Written(b))
  {
    forall rest: seq<string>, at: nat ensures Leads(read, lines, |lines|, Written(b), rest, at) {
      WrittenInFront(g, b, text, head, body, close, lines, |lines|, rest, at);
    }
    forall at: nat ensures Ends(read, lines, |lines|, Written(b), at) {
      WrittenAlone(g, b, text, head, body, close, lines, |lines|, at);
    }
  }

  ghost predicate ItemsReadable(read: Reader, texts: seq<string>, items: seq<Item>)
    requires |texts| == |items|
  {
    forall i | 0 <= i < |items| :: ReadsItem(read, Split(texts[i], '\n'), items[i])
  }

  lemma ItemsReadableRest(read: Reader, texts: seq<string>, items: seq<Item>)
    requires items != [] && |texts| == |items| && ItemsReadable(read, texts, items)
    ensures ItemsReadable(read, texts[1..], items[1..]) && ReadsItem(read, Split(texts[0], '\n'), items[0])
  {
    forall i | 0 <= i < |items| - 1 ensures ReadsItem(read, Split(texts[1..][i], '\n'), items[1..][i]) {
      assert ReadsItem(read, Split(texts[i + 1], '\n'), items[i + 1]);
    }
  }

  lemma {:induction false} ItemsRead(read: Reader, texts: seq<string>, items: seq<Item>, at: nat)
    requires items != [] && |texts| == |items| && ItemsReadable(read, texts, items)
    ensures read(SeenLines(texts), at) == Expected(texts, items, at)
    decreases |items|
  {
    var lines := Split(texts[0], '\n');
    ItemsReadableRest(read, texts, items);
    if |items| == 1 {
      assert Ends(read, LinesOf(lines), |lines|, items[0], at);
      AppendNothing(Own(items[0], |lines|, at), Expected(texts[1..], items[1..], at + |lines|));
    } else {
      assert Leads(read, StripCrs(lines), |lines|, items[0], SeenLines(texts[1..]), at);
      ItemsRead(read, texts[1..], items[1..], at + |lines|);
    }
  }

  lemma AppendNothing<T>(s: seq<T>, none: seq<T>)
    requires none == []
    ensures s + none == s
  {
  }

  lemma CanonicalItemReads(json: Parser, jsonText: Printer, item: Item)
    requires CanonicalItem(json, item)
    ensures ReadsItem(ReaderOf(Markdown(json)), Split(ItemText(jsonText, item), '\n'), item)
  {
    match item {
      case Prose(line) =>
        TrimStripCr(line);
        ProseReads(Markdown(json), line);
      case Written(b) =>
        var ticks, head, body := "```", "", [];
        if IsDbBlock(b.blockType) {
          head, body := CanonicalDbReadsBack(json, b, ticks);
        } else {
          head, body := CanonicalHttpReadsBack(json, b, ticks);
        }
        WrittenReads(Markdown(json), b, BlockText(jsonText, b), head, body, ticks);
    }
  }

  lemma {:induction false} ItemTextsAre(jsonText: Printer, items: seq<Item>)
    ensures forall i | 0 <= i < |items| :: ItemTexts(jsonText, items)[i] == ItemText(jsonText, items[i])
  {
    if items != [] { ItemTextsAre(jsonText, items[1..]); }
  }

  /** MAIN: a note of canonical blocks and prose is read back as exactly those blocks, in
      order, each at its own lines. */
  lemma NoteRoundTrips(json: Parser, jsonText: Printer, items: seq<Item>)
    requires forall i | i in items :: CanonicalItem(json, i)
    ensures BlocksOf(json, NoteText(jsonText, items)) == Expected(ItemTexts(jsonText, items), items, 0)
  {
    var g, texts := Markdown(json), ItemTexts(jsonText, items);
    if items != [] {
      ItemTextsAre(jsonText, items);
      forall i | 0 <= i < |items| ensures ReadsItem(ReaderOf(g), Split(texts[i], '\n'), items[i]) {
        CanonicalItemReads(json, jsonText, items[i]);
      }
      NoteIsLines(texts);
      SplitJoin(LinesOfTexts(texts), '\n');
      NoteSeen(texts);
      ItemsRead(ReaderOf(g), texts, items, 0);
    }
  }
}
