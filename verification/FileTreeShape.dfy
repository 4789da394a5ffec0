/** Which rows the sidebar shows, and what collapsing and refreshing do outside of the
    parent search. */
module FileTreeShape {
  import opened Text
  import opened FileTree

  // ─── Which rows are shown ─────────────────────────────────────────

  /** A row for an entry of the listing, or for one below an expanded directory of it, one
      level deeper. */
  ghost predicate Shows(entries: seq<FileEntry>, depth: nat, expanded: set<string>, row: TreeNode)
    decreases entries
  {
    exists i: nat | i < |entries| ::
      var e := entries[i];
      || (row.name == e.name && row.path == e.path && row.isDir == e.isDir && row.depth == depth)
      || (e.isDir && e.path in expanded && e.children.Listed? && Shows(e.children.entries, depth + 1, expanded, row))
  }

  lemma ShowsCons(e: FileEntry, rest: seq<FileEntry>, depth: nat, expanded: set<string>, row: TreeNode)
    ensures Shows([e] + rest, depth, expanded, row) <==>
            || (row.name == e.name && row.path == e.path && row.isDir == e.isDir && row.depth == depth)
            || (e.isDir && e.path in expanded && e.children.Listed? && Shows(e.children.entries, depth + 1, expanded, row))
            || Shows(rest, depth, expanded, row)
  {
    var all := [e] + rest;
    assert all[0] == e && forall i: nat | i < |rest| :: all[i + 1] == rest[i];
    assert forall i: nat | 0 < i < |all| :: all[i] == rest[i - 1];
  }

  /** MAIN: exactly the visible entries have a row. */
  lemma {:induction false} FlatShows(entries: seq<FileEntry>, depth: nat, expanded: set<string>, row: TreeNode)
    ensures row in Flat(entries, depth, expanded) <==> Shows(entries, depth, expanded, row)
    decreases entries
  {
    if entries != [] {
      var e, rest := entries[0], entries[1..];
      assert entries == [e] + rest;
      FlatShows(rest, depth, expanded, row);
      if e.isDir && e.path in expanded && e.children.Listed? { FlatShows(e.children.entries, depth + 1, expanded, row); }
      ShowsCons(e, rest, depth, expanded, row);
    }
  }

  /** The rows of one level, in order. */
  function AtDepth(rows: seq<TreeNode>, depth: nat): seq<TreeNode> {
    if rows == [] then [] else (if rows[0].depth == depth then [rows[0]] else []) + AtDepth(rows[1..], depth)
  }

  function RowsOf(entries: seq<FileEntry>, depth: nat): seq<TreeNode> {
    if entries == [] then []
    else [TreeNode(entries[0].name, entries[0].path, entries[0].isDir, depth)] + RowsOf(entries[1..], depth)
  }

  function OwnRow(row: TreeNode, depth: nat): seq<TreeNode> {
    if row.depth == depth then [row] else []
  }

  lemma AtDepthCons(row: TreeNode, rest: seq<TreeNode>, depth: nat)
    ensures AtDepth([row] + rest, depth) == OwnRow(row, depth) + AtDepth(rest, depth)
  {
    assert ([row] + rest)[1..] == rest;
  }

  lemma {:induction false} AtDepthAppend(a: seq<TreeNode>, b: seq<TreeNode>, depth: nat)
    ensures AtDepth(a + b, depth) == AtDepth(a, depth) + AtDepth(b, depth)
  {
    if a == [] {
      assert a + b == b;
    } else {
      AtDepthAppend(a[1..], b, depth);
      assert a + b == [a[0]] + (a[1..] + b);
      AtDepthCons(a[0], a[1..] + b, depth);
      AppendAssoc(OwnRow(a[0], depth), AtDepth(a[1..], depth), AtDepth(b, depth));
    }
  }

  /** One level of a flattening: the first entry's row, what is below it, the others. */
  lemma LevelOfFlat(entries: seq<FileEntry>, depth: nat, expanded: set<string>, level: nat)
    requires entries != []
    ensures AtDepth(Flat(entries, depth, expanded), level) ==
            OwnRow(Row(entries[0], depth), level) + AtDepth(Below(entries[0], depth, expanded), level) + AtDepth(Flat(entries[1..], depth, expanded), level)
  {
    var row, below := Row(entries[0], depth), Below(entries[0], depth, expanded);
    AtDepthAppend([row] + below, Flat(entries[1..], depth, expanded), level);
    AtDepthCons(row, below, level);
  }

  lemma {:induction false} DeeperRows(entries: seq<FileEntry>, depth: nat, expanded: set<string>, level: nat)
    requires level < depth
    ensures AtDepth(Flat(entries, depth, expanded), level) == []
    decreases entries
  {
    if entries != [] {
      var e := entries[0];
      DeeperRows(entries[1..], depth, expanded, level);
      if e.isDir && e.path in expanded && e.children.Listed? { DeeperRows(e.children.entries, depth + 1, expanded, level); }
      LevelOfFlat(entries, depth, expanded, level);
    }
  }

  /** MAIN: the rows of the listing's own level are its entries, in its order. */
  lemma {:induction false} LevelIsTheListing(entries: seq<FileEntry>, depth: nat, expanded: set<string>)
    ensures AtDepth(Flat(entries, depth, expanded), depth) == RowsOf(entries, depth)
  {
    if entries != [] {
      var e := entries[0];
      LevelIsTheListing(entries[1..], depth, expanded);
      if e.isDir && e.path in expanded && e.children.Listed? { DeeperRows(e.children.entries, depth + 1, expanded, depth); }
      LevelOfFlat(entries, depth, expanded, depth);
      assert OwnRow(Row(e, depth), depth) + [] == OwnRow(Row(e, depth), depth);
    }
  }

  // ─── Toggling ─────────────────────────────────────────────────────

  /** A toggle changes something only on a directory, and there only whether it is open. */
  lemma ToggleShape(t: Tree, path: string)
    ensures var (t', changed) := ToggleTree(t);
            && t'.entries == t.entries && t'.selected == t.selected
            && (changed <==> t.selected < |t.entries| && t.entries[t.selected].isDir)
            && ((path in t'.expanded) != (path in t.expanded) <==> changed && path == t.entries[t.selected].path)
  {
  }

  // ─── Collapsing ───────────────────────────────────────────────────

  /** MAIN: on an expanded directory, collapsing folds its own stretch away and stays on it. */
  lemma CollapseOwnThenRefresh(t: Tree, listing: seq<FileEntry>)
    returns (before: seq<TreeNode>, below: seq<TreeNode>, after: seq<TreeNode>)
    requires Synced(t, listing) && UniquePaths(listing)
    requires t.entries[t.selected].isDir && t.entries[t.selected].path in t.expanded
    ensures var (collapsed, changed) := CollapseTree(t);
            var row, t' := t.entries[t.selected], RefreshTree(collapsed, listing);
            && changed && Synced(t', listing) && t'.selected == t.selected && row.path !in t'.expanded
            && |before| == t.selected && Bounded(below, after, row.depth)
            && t.entries == before + [row] + below + after && t'.entries == before + [row] + after
  {
    var row := t.entries[t.selected];
    before, below, after := FlipThenRefresh(t, listing, t.selected, t.expanded - {row.path});
    assert before + [row] + [] == before + [row];
  }

  /** The backward search stops at the nearest directory of its level. */
  lemma {:induction false} ScanBackIs(rows: seq<TreeNode>, i: nat, depth: nat)
    requires i <= |rows|
    ensures match ScanBack(rows, i, depth)
            case None => forall k | 0 <= k < i :: !(rows[k].depth == depth && rows[k].isDir)
            case Some(p) => rows[p].depth == depth && rows[p].isDir && forall k | p < k < i :: !(rows[k].depth == depth && rows[k].isDir)
  {
    if i > 0 { ScanBackIs(rows, i - 1, depth); }
  }

  /** MAIN: on the top level there is no parent: collapsing goes to the nearest directory of
      that level above, and folds it; without one it changes nothing. */
  lemma CollapseOnTop(t: Tree)
    requires t.selected < |t.entries| && t.entries[t.selected].depth == 0
    requires !(t.entries[t.selected].isDir && t.entries[t.selected].path in t.expanded)
    ensures var (t', changed) := CollapseTree(t);
            && t'.entries == t.entries
            && (if changed then
                  && t'.selected < t.selected && t.entries[t'.selected].depth == 0 && t.entries[t'.selected].isDir
                  && t'.expanded == t.expanded - {t.entries[t'.selected].path}
                  && forall k | t'.selected < k < t.selected :: !(t.entries[k].depth == 0 && t.entries[k].isDir)
                else t' == t && forall k | 0 <= k < t.selected :: !(t.entries[k].depth == 0 && t.entries[k].isDir))
  {
    ScanBackIs(t.entries, t.selected, 0);
  }

  // ─── Refreshing ───────────────────────────────────────────────────

  /** MAIN: a refresh keeps the selection if it can, and otherwise takes the last row. */
  lemma RefreshKeepsSelection(t: Tree, listing: seq<FileEntry>)
    ensures var t' := RefreshTree(t, listing);
            && t'.expanded == t.expanded && t'.entries == Flat(listing, 0, t.expanded)
            && (t.selected < |t'.entries| ==> t'.selected == t.selected)
            && (t.selected >= |t'.entries| > 0 ==> t'.selected == |t'.entries| - 1)
            && (t'.entries == [] ==> t'.selected == 0)
  {
  }
}
