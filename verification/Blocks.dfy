/** Parsed blocks and the lookups the runner makes in them
    (httui-core/src/blocks/parser.rs, httui-core/src/blocks/registry.rs). */
module Blocks {
  import opened Text
  import opened Json

  datatype ParsedBlock = ParsedBlock(
    blockType: string,
    alias: Option<string>,
    displayMode: Option<string>,
    params: Value,
    lineStart: nat,
    lineEnd: nat)

  /** The position of the first block with this alias. */
  function FindBlockByAlias(blocks: seq<ParsedBlock>, alias: string): (r: Option<nat>)
    ensures r.Some? ==> r.value < |blocks| && blocks[r.value].alias == Some(alias)
  {
    if blocks == [] then None
    else if blocks[0].alias == Some(alias) then Some(0)
    else
      match FindBlockByAlias(blocks[1..], alias)
      case None => None
      case Some(i) => Some(i + 1)
  }

  /** The search stops at the first match, and only fails when there is none. */
  lemma {:induction false} FindBlockFirst(blocks: seq<ParsedBlock>, alias: string, j: nat)
    requires j < |blocks| && blocks[j].alias == Some(alias)
    ensures FindBlockByAlias(blocks, alias).Some? && FindBlockByAlias(blocks, alias).value <= j
  {
    if j > 0 && blocks[0].alias != Some(alias) { FindBlockFirst(blocks[1..], alias, j - 1); }
  }

  function BlocksAbove(blocks: seq<ParsedBlock>, line: nat): (above: seq<ParsedBlock>)
  {
    if blocks == [] then []
    else (if blocks[0].lineStart < line then [blocks[0]] else []) + BlocksAbove(blocks[1..], line)
  }

  lemma {:induction false} BlocksAboveAre(blocks: seq<ParsedBlock>, line: nat)
    ensures forall b :: b in BlocksAbove(blocks, line) <==> b in blocks && b.lineStart < line
  {
    if blocks != [] {
      BlocksAboveAre(blocks[1..], line);
      assert blocks == [blocks[0]] + blocks[1..];
    }
  }

  /** Some block above `line` carries the alias. */
  predicate AliasAbove(blocks: seq<ParsedBlock>, line: nat, alias: string) {
    exists b | b in BlocksAbove(blocks, line) :: b.alias == Some(alias)
  }

  /** Blocks stand in the note one after the other. */
  predicate Ordered(blocks: seq<ParsedBlock>) {
    && (forall i | 0 <= i < |blocks| :: blocks[i].lineStart < blocks[i].lineEnd)
    && (forall i, j | 0 <= i < j < |blocks| :: blocks[i].lineEnd < blocks[j].lineStart)
  }

  /** `BlockTypeRegistry::with_defaults`. */
  const DEFAULT_REGISTRY: map<string, string> :=
    map["http" := "http", "db" := "db", "db-postgres" := "db", "db-mysql" := "db", "db-sqlite" := "db"]

  /** The executor a block type is dispatched to. */
  function Canonicalize(registry: map<string, string>, blockType: string): string {
    if blockType in registry then registry[blockType] else blockType
  }
}
