/** What the scan over a note's lines guarantees, whatever the note says. */
module BlockScan {
  import opened Text
  import opened Lines
  import opened Json
  import opened Blocks
  import opened BlockParser

  // ─── Order ────────────────────────────────────────────────────────

  function EndOf(f: Fence): nat {
    f.at + 1 + |f.bodyLines|
  }

  predicate FencesInOrder(fences: seq<Fence>, at: nat) {
    && (forall i | 0 <= i < |fences| :: at <= fences[i].at)
    && (forall i, j | 0 <= i < j < |fences| :: EndOf(fences[i]) < fences[j].at)
  }

  lemma InOrderCons(f: Fence, rest: seq<Fence>, at: nat, next: nat)
    requires at <= f.at && EndOf(f) < next && FencesInOrder(rest, next)
    ensures FencesInOrder([f] + rest, at)
  {
  }

  lemma {:induction false} ScanInOrder(g: Grammar, lines: seq<string>, at: nat)
    ensures FencesInOrder(Fences(g, lines, at), at)
    decreases |lines|
  {
    if lines != [] {
      match g.opens(lines[0]) {
        case NoOpening => ScanInOrder(g, lines[1..], at + 1);
        case Opening(blockType, attrs) =>
          var n := BodyHeight(g, lines[1..]);
          ScanInOrder(g, Behind(lines, n + 2), at + n + 2);
          InOrderCons(Fence(blockType, attrs, lines[1..1 + n], at), Fences(g, Behind(lines, n + 2), at + n + 2), at, at + n + 2);
      }
    }
  }

  lemma {:induction false} BuiltBlocks(g: Grammar, fences: seq<Fence>)
    ensures |BlocksFrom(g, fences)| == |fences|
    ensures forall i | 0 <= i < |fences| :: BlocksFrom(g, fences)[i] == g.build(fences[i])
  {
    if fences != [] { BuiltBlocks(g, fences[..|fences| - 1]); }
  }

  lemma BuiltWhere(json: string -> Option<Value>, f: Fence)
    ensures var b := Markdown(json).build(f); b.lineStart == f.at && b.lineEnd == EndOf(f)
  {
  }

  /** MAIN: the blocks of any note stand one behind the other. */
  lemma BlocksAreOrdered(json: string -> Option<Value>, markdown: string)
    ensures Ordered(BlocksOf(json, markdown))
  {
    var g := Markdown(json);
    var fences := Fences(g, LinesIn(markdown), 0);
    ScanInOrder(g, LinesIn(markdown), 0);
    BuiltBlocks(g, fences);
    var blocks := BlocksFrom(g, fences);
    forall i | 0 <= i < |fences| ensures blocks[i].lineStart == fences[i].at && blocks[i].lineEnd == EndOf(fences[i]) {
      BuiltWhere(json, fences[i]);
    }
  }

  // ─── Where a block's parts come from ──────────────────────────────

  /** Attribute values are stretches of words. */
  predicate CleanAttributes(attrs: Attributes) {
    forall k | k in attrs :: NoWhitespace(attrs[k])
  }

  predicate FromGrammar(g: Grammar, lines: seq<string>, f: Fence) {
    && (exists l | l in lines :: g.opens(l) == Opening(f.blockType, f.attrs))
    && (forall l | l in f.bodyLines :: l in lines && !g.closes(l))
  }

  lemma {:induction false} BodyHeightStops(g: Grammar, lines: seq<string>)
    ensures var n := BodyHeight(g, lines);
            && (forall i | 0 <= i < n :: !g.closes(lines[i]))
            && (n < |lines| ==> g.closes(lines[n]))
  {
    if lines != [] && !g.closes(lines[0]) { BodyHeightStops(g, lines[1..]); }
  }

  lemma {:induction false} FencesFromGrammar(g: Grammar, lines: seq<string>, at: nat)
    ensures forall f | f in Fences(g, lines, at) :: FromGrammar(g, lines, f)
    decreases |lines|
  {
    if lines != [] {
      match g.opens(lines[0]) {
        case NoOpening =>
          FencesFromGrammar(g, lines[1..], at + 1);
          forall f | f in Fences(g, lines, at) ensures FromGrammar(g, lines, f) {
            Wider(g, lines[1..], lines, f);
          }
        case Opening(blockType, attrs) =>
          var n := BodyHeight(g, lines[1..]);
          BodyHeightStops(g, lines[1..]);
          var head, rest := Fence(blockType, attrs, lines[1..1 + n], at), Behind(lines, n + 2);
          FencesFromGrammar(g, rest, at + n + 2);
          forall f | f in Fences(g, lines, at) ensures FromGrammar(g, lines, f) {
            if f == head {
              assert lines[0] in lines;
            } else {
              assert f in Fences(g, rest, at + n + 2);
              Wider(g, rest, lines, f);
            }
          }
      }
    }
  }

  lemma Wider(g: Grammar, some: seq<string>, lines: seq<string>, f: Fence)
    requires FromGrammar(g, some, f) && forall l | l in some :: l in lines
    ensures FromGrammar(g, lines, f)
  {
  }

  lemma {:induction false} AttributesAreClean(words: seq<string>)
    requires Words(words)
    ensures CleanAttributes(AttributesOf(words))
  {
    if words != [] {
      var w := words[|words| - 1];
      AttributesAreClean(words[..|words| - 1]);
      assert w in words;
    }
  }

  /** An opening line names an executable type, and its attribute values hold no whitespace. */
  lemma OpeningShape(line: string)
    ensures match OpensBlock(line) case NoOpening => true case Opening(t, attrs) => Executable(t) && CleanAttributes(attrs)
  {
    var info := StripFenceOpen(Trim(line));
    if info.Some? {
      var words := SplitWhitespace(info.value);
      SplitWhitespaceWords(info.value);
      if words != [] { AttributesAreClean(words[1..]); }
    }
  }

  lemma FenceShape(json: string -> Option<Value>, lines: seq<string>, at: nat, f: Fence)
    requires f in Fences(Markdown(json), lines, at)
    ensures Executable(f.blockType) && CleanAttributes(f.attrs)
    ensures forall l | l in f.bodyLines :: l in lines && !ClosesFence(l)
  {
    FencesFromGrammar(Markdown(json), lines, at);
    var l :| l in lines && Markdown(json).opens(l) == Opening(f.blockType, f.attrs);
    OpeningShape(l);
  }

  lemma BuiltHasParams(json: string -> Option<Value>, f: Fence)
    requires Executable(f.blockType)
    ensures !Markdown(json).build(f).params.Null?
  {
  }

  /** The runner's check for unparsable parameters never fires on a parsed note. */
  lemma BlocksHaveParams(json: string -> Option<Value>, markdown: string)
    ensures forall b | b in BlocksOf(json, markdown) :: !b.params.Null?
  {
    var g := Markdown(json);
    var fences := Fences(g, LinesIn(markdown), 0);
    BuiltBlocks(g, fences);
    forall b | b in BlocksOf(json, markdown) ensures !b.params.Null? {
      var i :| 0 <= i < |fences| && BlocksFrom(g, fences)[i] == b;
      FenceShape(json, LinesIn(markdown), 0, fences[i]);
      BuiltHasParams(json, fences[i]);
    }
  }
}
