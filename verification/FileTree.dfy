/** The sidebar's flattened file tree (httui-tui/src/tree.rs). The directory listing
    is a parameter of `Refresh`; prompts and visibility are not modelled. */
module FileTree {
  import opened Text

  datatype FileEntry = FileEntry(name: string, path: string, isDir: bool, children: Listing)

  /** The optional listing of an entry. */
  datatype Listing = Unlisted | Listed(entries: seq<FileEntry>)

  datatype TreeNode = TreeNode(name: string, path: string, isDir: bool, depth: nat)

  function Row(e: FileEntry, depth: nat): TreeNode {
    TreeNode(e.name, e.path, e.isDir, depth)
  }

  /** The rows below an entry: its children's, when it is an expanded directory. */
  function Below(e: FileEntry, depth: nat, expanded: set<string>): seq<TreeNode>
    decreases e, 1
  {
    if e.isDir && e.path in expanded && e.children.Listed? then Flat(e.children.entries, depth + 1, expanded) else []
  }

  function Flat(entries: seq<FileEntry>, depth: nat, expanded: set<string>): seq<TreeNode>
    decreases entries
  {
    if entries == [] then []
    else [Row(entries[0], depth)] + Below(entries[0], depth, expanded) + Flat(entries[1..], depth, expanded)
  }

  method Flatten(entries: seq<FileEntry>, depth: nat, expanded: set<string>, out: seq<TreeNode>) returns (out': seq<TreeNode>)
    ensures out' == out + Flat(entries, depth, expanded)
    decreases entries
  {
    out' := out;
    for i := 0 to |entries|
      invariant out' + Flat(entries[i..], depth, expanded) == out + Flat(entries, depth, expanded)
    {
      var e := entries[i];
      ghost var rest := Flat(entries[i + 1..], depth, expanded);
      assert entries[i..][1..] == entries[i + 1..];
      AppendAssoc(out', [Row(e, depth)] + Below(e, depth, expanded), rest);
      AppendAssoc(out', [Row(e, depth)], Below(e, depth, expanded));
      out' := out' + [TreeNode(e.name, e.path, e.isDir, depth)];
      assert Below(e, depth, expanded) == [] ==> out' + [] == out';
      if e.isDir && e.path in expanded {
        if e.children.Listed? {
          out' := Flatten(e.children.entries, depth + 1, expanded, out');
        }
      }
    }
  }

  // ─── Tree operations on values ────────────────────────────────────

  datatype Tree = Tree(entries: seq<TreeNode>, selected: nat, expanded: set<string>)

  function RefreshTree(t: Tree, listing: seq<FileEntry>): Tree {
    var rows := Flat(listing, 0, t.expanded);
    Tree(rows, if t.selected >= |rows| then (if rows == [] then 0 else |rows| - 1) else t.selected, t.expanded)
  }

  function ToggleTree(t: Tree): (Tree, bool) {
    if t.selected >= |t.entries| || !t.entries[t.selected].isDir then (t, false)
    else
      var path := t.entries[t.selected].path;
      (t.(expanded := if path in t.expanded then t.expanded - {path} else t.expanded + {path}), true)
  }

  /** The nearest directory row above `i` at the given depth. */
  function ScanBack(rows: seq<TreeNode>, i: nat, depth: nat): (r: Option<nat>)
    requires i <= |rows|
    ensures r.Some? ==> r.value < i
  {
    if i == 0 then None
    else if rows[i - 1].depth == depth && rows[i - 1].isDir then Some(i - 1)
    else ScanBack(rows, i - 1, depth)
  }

  function CollapseTree(t: Tree): (Tree, bool) {
    if t.selected >= |t.entries| then (t, false)
    else
      var current := t.entries[t.selected];
      if current.isDir && current.path in t.expanded then (t.(expanded := t.expanded - {current.path}), true)
      else
        match ScanBack(t.entries, t.selected, if current.depth == 0 then 0 else current.depth - 1)
        case None => (t, false)
        case Some(idx) => (Tree(t.entries, idx, t.expanded - {t.entries[idx].path}), true)
  }

  // ─── The tree as the source keeps it ──────────────────────────────

  class FileTreeState {
    var entries: seq<TreeNode>
    var selected: nat
    var expanded: set<string>

    ghost function Now(): Tree
      reads this
    {
      Tree(entries, selected, expanded)
    }

    constructor ()
      ensures Now() == Tree([], 0, {})
    {
      entries, selected, expanded := [], 0, {};
    }

    method Refresh(listing: seq<FileEntry>)
      modifies this
      ensures Now() == RefreshTree(old(Now()), listing)
    {
      entries := [];
      entries := Flatten(listing, 0, expanded, entries);
      assert [] + Flat(listing, 0, expanded) == Flat(listing, 0, expanded);
      if selected >= |entries| {
        selected := if |entries| == 0 then 0 else |entries| - 1;
      }
    }

    method ToggleExpand() returns (changed: bool)
      modifies this
      ensures (Now(), changed) == ToggleTree(old(Now()))
    {
      if selected >= |entries| { return false; }
      var node := entries[selected];
      if !node.isDir { return false; }
      if node.path in expanded {
        expanded := expanded - {node.path};
      } else {
        expanded := expanded + {node.path};
      }
      return true;
    }

    method CollapseParent() returns (changed: bool)
      modifies this
      ensures (Now(), changed) == CollapseTree(old(Now()))
    {
      if selected >= |entries| { return false; }
      var current := entries[selected];
      if current.isDir && current.path in expanded {
        expanded := expanded - {current.path};
        return true;
      }
      var targetDepth := if current.depth == 0 then 0 else current.depth - 1;
      var parentIdx: Option<nat> := None;
      var i: nat := selected;
      while i > 0
        invariant i <= selected && parentIdx.None? && Now() == old(Now())
        invariant ScanBack(entries, i, targetDepth) == ScanBack(entries, selected, targetDepth)
      {
        i := i - 1;
        if entries[i].depth == targetDepth && entries[i].isDir {
          parentIdx := Some(i);
          break;
        }
      }
      if parentIdx.None? { return false; }
      expanded := expanded - {entries[parentIdx.value].path};
      selected := parentIdx.value;
      return true;
    }
  }

  // ─── The forest behind the rows ───────────────────────────────────

  function Paths(entries: seq<FileEntry>): set<string>
    decreases entries
  {
    if entries == [] then {} else {entries[0].path} + PathsBelow(entries[0]) + Paths(entries[1..])
  }

  function PathsBelow(e: FileEntry): set<string>
    decreases e, 1
  {
    if e.children.Listed? then Paths(e.children.entries) else {}
  }

  /** No path occurs twice anywhere in the forest. */
  predicate UniquePaths(entries: seq<FileEntry>)
    decreases entries
  {
    entries == [] ||
    (var e := entries[0];
     && e.path !in PathsBelow(e) && e.path !in Paths(entries[1..]) && PathsBelow(e) !! Paths(entries[1..])
     && (e.children.Listed? ==> UniquePaths(e.children.entries))
     && UniquePaths(entries[1..]))
  }

  /** Somewhere in the forest, an entry at `child` is listed directly under `parent`. */
  predicate IsChild(entries: seq<FileEntry>, parent: string, child: string)
    decreases entries
  {
    entries != [] &&
    (var e := entries[0];
     || (e.children.Listed? &&
         ((e.path == parent && exists c | c in e.children.entries :: c.path == child) ||
          IsChild(e.children.entries, parent, child)))
     || IsChild(entries[1..], parent, child))
  }

  predicate Agree(e1: set<string>, e2: set<string>, ps: set<string>) {
    forall p | p in ps :: p in e1 <==> p in e2
  }

  /** Rows read the expansion set at the forest's own paths only. */
  lemma {:induction false} FlatReads(entries: seq<FileEntry>, depth: nat, e1: set<string>, e2: set<string>)
    requires Agree(e1, e2, Paths(entries))
    ensures Flat(entries, depth, e1) == Flat(entries, depth, e2)
    decreases entries
  {
    if entries != [] {
      var e := entries[0];
      assert e.path in Paths(entries);
      if e.children.Listed? { FlatReads(e.children.entries, depth + 1, e1, e2); }
      FlatReads(entries[1..], depth, e1, e2);
    }
  }

  lemma {:induction false} RowPaths(entries: seq<FileEntry>, depth: nat, expanded: set<string>)
    ensures forall r | r in Flat(entries, depth, expanded) :: r.path in Paths(entries) && r.depth >= depth
    decreases entries
  {
    if entries != [] {
      if entries[0].children.Listed? { RowPaths(entries[0].children.entries, depth + 1, expanded); }
      RowPaths(entries[1..], depth, expanded);
    }
  }

  // ─── The structural parent of a row ───────────────────────────────

  /** The row of the directory that row `i` is listed under, by the forest's shape. */
  function ParentRow(entries: seq<FileEntry>, expanded: set<string>, i: nat): (r: Option<nat>)
    ensures r.Some? ==> r.value < i
    decreases entries
  {
    if entries == [] || i == 0 then None
    else
      var e, below := entries[0], |Below(entries[0], 0, expanded)|;
      if i <= below then
        match (if e.children.Listed? then ParentRow(e.children.entries, expanded, i - 1) else None)
        case None => Some(0)
        case Some(j) => Some(j + 1)
      else
        match ParentRow(entries[1..], expanded, i - 1 - below)
        case None => None
        case Some(j) => Some(j + 1 + below)
  }

  lemma {:induction false} FlatLength(entries: seq<FileEntry>, d1: nat, d2: nat, expanded: set<string>)
    ensures |Flat(entries, d1, expanded)| == |Flat(entries, d2, expanded)|
    decreases entries
  {
    if entries != [] {
      BelowLength(entries[0], d1, d2, expanded);
      FlatLength(entries[1..], d1, d2, expanded);
    }
  }

  lemma {:induction false} BelowLength(e: FileEntry, d1: nat, d2: nat, expanded: set<string>)
    ensures |Below(e, d1, expanded)| == |Below(e, d2, expanded)|
    decreases e, 1
  {
    if e.children.Listed? { FlatLength(e.children.entries, d1 + 1, d2 + 1, expanded); }
  }

  /** The parent's row: an expanded directory one level up, with only deeper rows
      or siblings in between, under which the forest lists the row's entry. */
  predicate ParentFits(entries: seq<FileEntry>, rows: seq<TreeNode>, expanded: set<string>, j: nat, i: nat)
    requires j < i < |rows|
  {
    && rows[j].isDir && rows[j].path in expanded && rows[j].depth + 1 == rows[i].depth
    && IsChild(entries, rows[j].path, rows[i].path)
    && forall k | j < k < i :: rows[k].depth >= rows[i].depth
  }

  /** A fit inside a stretch of rows is a fit in the whole. */
  lemma FitShifts(pre: seq<TreeNode>, inner: seq<TreeNode>, post: seq<TreeNode>, sub: seq<FileEntry>, entries: seq<FileEntry>, expanded: set<string>, j: nat, i: nat)
    requires j < i < |inner| && ParentFits(sub, inner, expanded, j, i)
    requires IsChild(sub, inner[j].path, inner[i].path) ==> IsChild(entries, inner[j].path, inner[i].path)
    ensures ParentFits(entries, pre + inner + post, expanded, |pre| + j, |pre| + i)
  {
    var rows := pre + inner + post;
    assert forall k | |pre| <= k < |pre| + |inner| :: rows[k] == inner[k - |pre|];
  }

  /** The rows listed right under an entry are its children. */
  lemma HeadFits(e: FileEntry, rest: seq<FileEntry>, depth: nat, expanded: set<string>, i: nat, post: seq<TreeNode>)
    requires 0 < i <= |Below(e, depth, expanded)| && e.children.Listed?
    requires var r := Below(e, depth, expanded)[i - 1]; r.depth == depth + 1 && exists c | c in e.children.entries :: c.path == r.path
    ensures ParentFits([e] + rest, [Row(e, depth)] + Below(e, depth, expanded) + post, expanded, 0, i)
  {
    var below := Below(e, depth, expanded);
    var rows := [Row(e, depth)] + below + post;
    RowPaths(e.children.entries, depth + 1, expanded);
    assert forall k | 0 < k <= |below| :: rows[k] == below[k - 1];
  }

  /** What `ParentRow` promises about row `i`. */
  predicate ParentRowIsRight(entries: seq<FileEntry>, depth: nat, rows: seq<TreeNode>, expanded: set<string>, i: nat)
    requires i < |rows|
  {
    match ParentRow(entries, expanded, i)
    case None => rows[i].depth == depth && exists e | e in entries :: e.path == rows[i].path
    case Some(j) => ParentFits(entries, rows, expanded, j, i)
  }

  lemma {:induction false} ParentRowFits(entries: seq<FileEntry>, depth: nat, expanded: set<string>, i: nat)
    requires i < |Flat(entries, depth, expanded)|
    ensures ParentRowIsRight(entries, depth, Flat(entries, depth, expanded), expanded, i)
    decreases entries, 1
  {
    var e, rest := entries[0], entries[1..];
    var below := Below(e, depth, expanded);
    BelowLength(e, depth, 0, expanded);
    assert entries == [e] + rest;
    if i == 0 {
      assert e in entries;
    } else if i <= |below| {
      ParentRowInside(e, rest, depth, expanded, i);
    } else {
      ParentRowBehind(e, rest, depth, expanded, i);
    }
  }

  lemma ParentRowInside(e: FileEntry, rest: seq<FileEntry>, depth: nat, expanded: set<string>, i: nat)
    requires 0 < i <= |Below(e, depth, expanded)|
    ensures ParentRowIsRight([e] + rest, depth, Flat([e] + rest, depth, expanded), expanded, i)
    decreases [e] + rest, 0
  {
    var entries := [e] + rest;
    var below, after := Below(e, depth, expanded), Flat(rest, depth, expanded);
    BelowLength(e, depth, 0, expanded);
    assert entries[0] == e && entries[1..] == rest;
    ParentRowFits(e.children.entries, depth + 1, expanded, i - 1);
    assert Flat(entries, depth, expanded) == [Row(e, depth)] + below + after;
    match ParentRow(e.children.entries, expanded, i - 1) {
      case None => HeadFits(e, rest, depth, expanded, i, after);
      case Some(j) => FitShifts([Row(e, depth)], below, after, e.children.entries, entries, expanded, j, i - 1);
    }
  }

  lemma ParentRowBehind(e: FileEntry, rest: seq<FileEntry>, depth: nat, expanded: set<string>, i: nat)
    requires |Below(e, depth, expanded)| < i < |Flat([e] + rest, depth, expanded)|
    ensures ParentRowIsRight([e] + rest, depth, Flat([e] + rest, depth, expanded), expanded, i)
    decreases [e] + rest, 0
  {
    var entries := [e] + rest;
    var head, after := [Row(e, depth)] + Below(e, depth, expanded), Flat(rest, depth, expanded);
    var k := i - |head|;
    BelowLength(e, depth, 0, expanded);
    assert entries[1..] == rest;
    var rows := Flat(entries, depth, expanded);
    assert rows == head + after && rows[i] == after[k];
    ParentRowFits(rest, depth, expanded, k);
    match ParentRow(rest, expanded, k) {
      case None =>
      case Some(j) =>
        FitShifts(head, after, [], rest, entries, expanded, j, k);
        assert head + after + [] == rows;
    }
  }

  lemma {:induction false} ScanStops(rows: seq<TreeNode>, i: nat, j: nat, depth: nat)
    requires j < i <= |rows| && rows[j].depth == depth && rows[j].isDir
    requires forall k | j < k < i :: rows[k].depth != depth
    ensures ScanBack(rows, i, depth) == Some(j)
  {
    if j < i - 1 { ScanStops(rows, i - 1, j, depth); }
  }

  /** MAIN: below the top level, the backward scan finds the true parent. */
  lemma ScanFindsParent(entries: seq<FileEntry>, expanded: set<string>, i: nat)
    requires i < |Flat(entries, 0, expanded)| && Flat(entries, 0, expanded)[i].depth > 0
    ensures var rows := Flat(entries, 0, expanded);
            var j := ParentRow(entries, expanded, i);
            j.Some? && ParentFits(entries, rows, expanded, j.value, i) && ScanBack(rows, i, rows[i].depth - 1) == j
  {
    var rows := Flat(entries, 0, expanded);
    ParentRowFits(entries, 0, expanded, i);
    ScanStops(rows, i, ParentRow(entries, expanded, i).value, rows[i].depth - 1);
  }

  // ─── Expanding and collapsing one directory ───────────────────────

  /** Two flattenings that differ in whether row `i` shows its stretch. */
  predicate Stretch(rows: seq<TreeNode>, flippedRows: seq<TreeNode>, i: nat, shown: bool, shownFlipped: bool,
                    before: seq<TreeNode>, below: seq<TreeNode>, after: seq<TreeNode>)
    requires i < |rows|
  {
    && |before| == i
    && rows == before + [rows[i]] + (if shown then below else []) + after
    && flippedRows == before + [rows[i]] + (if shownFlipped then below else []) + after
  }

  /** `below` ends where the rows stop being deeper than the directory. */
  predicate Bounded(below: seq<TreeNode>, after: seq<TreeNode>, depth: nat) {
    (forall r | r in below :: r.depth > depth) && (after == [] || after[0].depth <= depth)
  }

  lemma Embed<T>(pre: seq<T>, before: seq<T>, mid: seq<T>, x: seq<T>, after: seq<T>, post: seq<T>)
    ensures pre + (before + mid + x + after) + post == (pre + before) + mid + x + (after + post)
  {
  }

  lemma StretchInside(pre: seq<TreeNode>, rows: seq<TreeNode>, flippedRows: seq<TreeNode>, post: seq<TreeNode>, i: nat,
                      shown: bool, shownFlipped: bool, before: seq<TreeNode>, below: seq<TreeNode>, after: seq<TreeNode>)
    requires i < |rows| && Stretch(rows, flippedRows, i, shown, shownFlipped, before, below, after)
    ensures (pre + rows + post)[|pre| + i] == rows[i]
    ensures Stretch(pre + rows + post, pre + flippedRows + post, |pre| + i, shown, shownFlipped, pre + before, below, after + post)
  {
    Embed(pre, before, [rows[i]], if shown then below else [], after, post);
    Embed(pre, before, [rows[i]], if shownFlipped then below else [], after, post);
  }

  lemma FirstDepth(entries: seq<FileEntry>, depth: nat, expanded: set<string>)
    ensures var rows := Flat(entries, depth, expanded); rows == [] || rows[0].depth == depth
  {
  }

  lemma BelowReads(e: FileEntry, depth: nat, e1: set<string>, e2: set<string>)
    requires Agree(e1, e2, {e.path} + PathsBelow(e))
    ensures Below(e, depth, e1) == Below(e, depth, e2)
  {
    if e.children.Listed? { FlatReads(e.children.entries, depth + 1, e1, e2); }
  }

  /** The first row's own stretch. */
  lemma HeadStretch(e: FileEntry, depth: nat, expanded: set<string>, flipped: set<string>, after: seq<TreeNode>)
    returns (below: seq<TreeNode>)
    requires e.isDir && e.path !in PathsBelow(e) && Agree(expanded, flipped, PathsBelow(e))
    requires after == [] || after[0].depth == depth
    ensures Stretch([Row(e, depth)] + Below(e, depth, expanded) + after, [Row(e, depth)] + Below(e, depth, flipped) + after,
                    0, e.path in expanded, e.path in flipped, [], below, after)
    ensures Bounded(below, after, depth)
  {
    below := [];
    if e.children.Listed? {
      below := Flat(e.children.entries, depth + 1, expanded);
      FlatReads(e.children.entries, depth + 1, expanded, flipped);
      RowPaths(e.children.entries, depth + 1, expanded);
    }
    var row := Row(e, depth);
    assert [] + [row] == [row];
  }

  /** The rows of a directory, wherever it stands: flipping its own entry in the
      expansion set takes out, or puts back, its stretch and nothing else. */
  lemma {:induction false} DirectoryStretch(entries: seq<FileEntry>, depth: nat, expanded: set<string>, i: nat, flipped: set<string>)
    returns (before: seq<TreeNode>, below: seq<TreeNode>, after: seq<TreeNode>)
    requires UniquePaths(entries) && i < |Flat(entries, depth, expanded)|
    requires var r := Flat(entries, depth, expanded)[i]; r.isDir && Agree(expanded, flipped, Paths(entries) - {r.path})
    ensures var rows := Flat(entries, depth, expanded);
            && Stretch(rows, Flat(entries, depth, flipped), i, rows[i].path in expanded, rows[i].path in flipped, before, below, after)
            && Bounded(below, after, rows[i].depth)
    decreases entries, 1
  {
    var e, rest := entries[0], entries[1..];
    assert entries == [e] + rest;
    var head, kids, others := [Row(e, depth)], Below(e, depth, expanded), Flat(rest, depth, expanded);
    var rows := Flat(entries, depth, expanded);
    assert rows == head + kids + others;
    FirstDepth(rest, depth, expanded);
    if i == 0 {
      FlatReads(rest, depth, expanded, flipped);
      below := HeadStretch(e, depth, expanded, flipped, others);
      before, after := [], others;
    } else if i <= |kids| {
      before, below, after := InnerStretch(e, rest, depth, expanded, i - 1, flipped);
    } else {
      before, below, after := OuterStretch(e, rest, depth, expanded, i - 1 - |kids|, flipped);
    }
  }

  lemma InnerStretch(e: FileEntry, rest: seq<FileEntry>, depth: nat, expanded: set<string>, j: nat, flipped: set<string>)
    returns (before: seq<TreeNode>, below: seq<TreeNode>, after: seq<TreeNode>)
    requires UniquePaths([e] + rest) && j < |Below(e, depth, expanded)|
    requires var r := Below(e, depth, expanded)[j]; r.isDir && Agree(expanded, flipped, Paths([e] + rest) - {r.path})
    ensures var r := Below(e, depth, expanded)[j];
            && r == ([Row(e, depth)] + Below(e, depth, expanded) + Flat(rest, depth, expanded))[1 + j]
            && Stretch([Row(e, depth)] + Below(e, depth, expanded) + Flat(rest, depth, expanded),
                       Flat([e] + rest, depth, flipped), 1 + j, r.path in expanded, r.path in flipped, before, below, after)
            && Bounded(below, after, r.depth)
    decreases [e] + rest, 0
  {
    var entries, head, kids, others := [e] + rest, [Row(e, depth)], Below(e, depth, expanded), Flat(rest, depth, expanded);
    var r := kids[j];
    assert entries[1..] == rest;
    RowPaths(e.children.entries, depth + 1, expanded);
    FlatReads(rest, depth, expanded, flipped);
    FirstDepth(rest, depth, expanded);
    var b, a;
    b, below, a := DirectoryStretch(e.children.entries, depth + 1, expanded, j, flipped);
    StretchInside(head, kids, Below(e, depth, flipped), others, j, r.path in expanded, r.path in flipped, b, below, a);
    before, after := head + b, a + others;
  }

  lemma OuterStretch(e: FileEntry, rest: seq<FileEntry>, depth: nat, expanded: set<string>, j: nat, flipped: set<string>)
    returns (before: seq<TreeNode>, below: seq<TreeNode>, after: seq<TreeNode>)
    requires UniquePaths([e] + rest) && j < |Flat(rest, depth, expanded)|
    requires var r := Flat(rest, depth, expanded)[j]; r.isDir && Agree(expanded, flipped, Paths([e] + rest) - {r.path})
    ensures var r, n := Flat(rest, depth, expanded)[j], 1 + |Below(e, depth, expanded)|;
            && r == ([Row(e, depth)] + Below(e, depth, expanded) + Flat(rest, depth, expanded))[n + j]
            && Stretch([Row(e, depth)] + Below(e, depth, expanded) + Flat(rest, depth, expanded),
                       Flat([e] + rest, depth, flipped), n + j, r.path in expanded, r.path in flipped, before, below, after)
            && Bounded(below, after, r.depth)
    decreases [e] + rest, 0
  {
    var entries, head, others := [e] + rest, [Row(e, depth)] + Below(e, depth, expanded), Flat(rest, depth, expanded);
    var r := others[j];
    assert entries[1..] == rest;
    RowPaths(rest, depth, expanded);
    BelowReads(e, depth, expanded, flipped);
    var b, a;
    b, below, a := DirectoryStretch(rest, depth, expanded, j, flipped);
    StretchInside(head, others, Flat(rest, depth, flipped), [], j, r.path in expanded, r.path in flipped, b, below, a);
    before, after := head + b, a;
    assert head + others + [] == head + others && a + [] == a;
    assert head + Flat(rest, depth, flipped) + [] == head + Flat(rest, depth, flipped);
  }

  // ─── What the user sees ───────────────────────────────────────────

  /** The rows show this listing, and the selection is on one of them. */
  predicate Synced(t: Tree, listing: seq<FileEntry>) {
    t.entries == Flat(listing, 0, t.expanded) && t.selected < |t.entries|
  }

  lemma FlippedRows<T>(before: seq<T>, row: T, shown: seq<T>, shownFlipped: seq<T>, after: seq<T>)
    ensures var n := |before| + 1;
            (before + [row] + shown + after)[..n] == (before + [row] + shownFlipped + after)[..n] == before + [row]
  {
    AppendAssoc(before + [row], shown, after);
    AppendAssoc(before + [row], shownFlipped, after);
  }

  /** Flipping one directory and refreshing keeps every row up to that directory. */
  lemma FlipThenRefresh(t: Tree, listing: seq<FileEntry>, i: nat, flipped: set<string>)
    returns (before: seq<TreeNode>, below: seq<TreeNode>, after: seq<TreeNode>)
    requires Synced(t, listing) && UniquePaths(listing) && i <= t.selected && t.entries[i].isDir
    requires flipped == t.expanded - {t.entries[i].path} || flipped == t.expanded + {t.entries[i].path}
    ensures var path, t' := t.entries[i].path, RefreshTree(Tree(t.entries, i, flipped), listing);
            && t'.selected == i && Synced(t', listing) && t'.entries[..i + 1] == t.entries[..i + 1]
            && Stretch(t.entries, t'.entries, i, path in t.expanded, path in flipped, before, below, after)
            && Bounded(below, after, t.entries[i].depth)
  {
    before, below, after := DirectoryStretch(listing, 0, t.expanded, i, flipped);
    var row := t.entries[i];
    FlippedRows(before, row, if row.path in t.expanded then below else [], if row.path in flipped then below else [], after);
  }

  /** The rows between a parent and its child lie in the parent's stretch. */
  lemma ChildInStretch(entries: seq<FileEntry>, rows: seq<TreeNode>, expanded: set<string>, p: nat, i: nat,
                       before: seq<TreeNode>, below: seq<TreeNode>, after: seq<TreeNode>)
    requires p < i < |rows| && ParentFits(entries, rows, expanded, p, i)
    requires |before| == p && rows == before + [rows[p]] + below + after && Bounded(below, after, rows[p].depth)
    ensures i <= p + |below|
  {
    assert |rows| == p + 1 + |below| + |after|;
    assert after != [] ==> rows[p + 1 + |below|] == after[0];
  }

  /** Collapsing folded exactly the stretch of the parent of the row it started on. */
  predicate Folded(listing: seq<FileEntry>, t: Tree, t': Tree, before: seq<TreeNode>, below: seq<TreeNode>, after: seq<TreeNode>)
    requires t'.selected < t.selected < |t.entries|
  {
    var parent, current := t.entries[t'.selected], t.entries[t.selected];
    && IsChild(listing, parent.path, current.path) && parent.isDir && parent.depth + 1 == current.depth
    && t'.expanded == t.expanded - {parent.path}
    && t.entries == before + [parent] + below + after && t'.entries == before + [parent] + after
    && |before| == t'.selected && t.selected <= |before| + |below| && Bounded(below, after, parent.depth)
  }

  lemma CollapseTakesParent(t: Tree, listing: seq<FileEntry>) returns (p: nat)
    requires Synced(t, listing) && t.entries[t.selected].depth > 0
    requires !(t.entries[t.selected].isDir && t.entries[t.selected].path in t.expanded)
    ensures p < t.selected && CollapseTree(t) == (Tree(t.entries, p, t.expanded - {t.entries[p].path}), true)
    ensures ParentFits(listing, t.entries, t.expanded, p, t.selected)
  {
    ScanFindsParent(listing, t.expanded, t.selected);
    p := ParentRow(listing, t.expanded, t.selected).value;
  }

  /** MAIN: `h` below the top level selects the parent, folds exactly its stretch away
      (the row it started on included), and leaves every row up to the parent alone. */
  lemma CollapseParentThenRefresh(t: Tree, listing: seq<FileEntry>)
    returns (before: seq<TreeNode>, below: seq<TreeNode>, after: seq<TreeNode>)
    requires Synced(t, listing) && UniquePaths(listing) && t.entries[t.selected].depth > 0
    requires !(t.entries[t.selected].isDir && t.entries[t.selected].path in t.expanded)
    ensures var (collapsed, changed) := CollapseTree(t);
            var t' := RefreshTree(collapsed, listing);
            && changed && t'.selected < t.selected && Synced(t', listing)
            && t'.entries[..t'.selected + 1] == t.entries[..t'.selected + 1]
            && Folded(listing, t, t', before, below, after)
  {
    var p := CollapseTakesParent(t, listing);
    before, below, after := FlipThenRefresh(t, listing, p, t.expanded - {t.entries[p].path});
    var parent := t.entries[p];
    assert before + [parent] + [] == before + [parent];
    ChildInStretch(listing, t.entries, t.expanded, p, t.selected, before, below, after);
  }

  /** MAIN: toggling a directory twice, refreshing each time, restores the tree. */
  lemma ToggleTwiceRestores(t: Tree, listing: seq<FileEntry>)
    requires Synced(t, listing) && UniquePaths(listing) && t.entries[t.selected].isDir
    ensures var (once, changed) := ToggleTree(t);
            var t1 := RefreshTree(once, listing);
            var (twice, changed') := ToggleTree(t1);
            && changed && changed' && Synced(t1, listing) && t1.selected == t.selected
            && t1.entries[..t.selected + 1] == t.entries[..t.selected + 1]
            && RefreshTree(twice, listing) == t
  {
    var (once, _) := ToggleTree(t);
    var before, below, after := FlipThenRefresh(t, listing, t.selected, once.expanded);
    var t1 := RefreshTree(once, listing);
    assert t1.entries[t.selected] == t1.entries[..t.selected + 1][t.selected] == t.entries[t.selected];
    var path := t.entries[t.selected].path;
    var (twice, _) := ToggleTree(t1);
    assert twice.expanded == t.expanded;
  }
}
