/** What tab operations keep, in any order, and what each does to the row of leaves. */
module PaneTheorems {
  import opened Text
  import opened Pane

  // ─── The row of leaves ────────────────────────────────────────────

  /** What the leaves carry, in depth-first order. */
  function Leaves<P>(node: PaneNode<P>): (r: seq<P>)
    ensures |r| == LeafCount(node)
  {
    if node.Leaf? then [node.pane] else Leaves(node.first) + Leaves(node.second)
  }

  /** How many leaves come before the subtree at `path`. */
  function Before<P>(node: PaneNode<P>, path: Path): nat
    decreases |path|
  {
    if path == [] || node.Leaf? then 0
    else if path[0] == 0 then Before(node.first, path[1..])
    else LeafCount(node.first) + Before(node.second, path[1..])
  }

  lemma {:induction false} BeforeAppend<P>(node: PaneNode<P>, a: Path, b: Path)
    requires NodeAt(node, a).Some?
    ensures Before(node, a + b) == Before(node, a) + Before(NodeAt(node, a).value, b)
    decreases |a|
  {
    if a == [] {
      assert a + b == b;
    } else {
      BeforeAppend(Child(node, a[0]), a[1..], b);
      assert (a + b)[1..] == a[1..] + b;
    }
  }

  lemma {:induction false} BeforeFits<P>(node: PaneNode<P>, path: Path)
    requires NodeAt(node, path).Some?
    ensures Before(node, path) + LeafCount(NodeAt(node, path).value) <= LeafCount(node)
    decreases |path|
  {
    if path != [] { BeforeFits(Child(node, path[0]), path[1..]); }
  }

  lemma {:induction false} FirstLeafIsFirst<P>(node: PaneNode<P>)
    ensures LeafPath(node, FirstLeaf(node)) && Before(node, FirstLeaf(node)) == 0
  {
    if node.Split? {
      FirstLeafIsFirst(node.first);
      assert FirstLeaf(node)[1..] == FirstLeaf(node.first);
    }
  }

  lemma {:induction false} LeafPathAppend<P>(node: PaneNode<P>, a: Path, b: Path)
    requires NodeAt(node, a).Some? && LeafPath(NodeAt(node, a).value, b) && forall i | 0 <= i < |a| :: a[i] <= 1
    ensures LeafPath(node, a + b)
    decreases |a|
  {
    if a == [] {
      assert a + b == b;
    } else {
      assert a[0] <= 1 && forall i | 0 <= i < |a[1..]| :: a[1..][i] <= 1;
      LeafPathAppend(Child(node, a[0]), a[1..], b);
      assert (a + b)[1..] == a[1..] + b;
    }
  }

  /** The row around a subtree: replacing the subtree replaces its stretch only. */
  lemma {:induction false} RowAround<P>(node: PaneNode<P>, path: Path, sub: PaneNode<P>) returns (before: seq<P>, after: seq<P>)
    requires NodeAt(node, path).Some?
    ensures Leaves(node) == before + Leaves(NodeAt(node, path).value) + after && |before| == Before(node, path)
    ensures Leaves(ReplaceAt(node, path, sub)) == before + Leaves(sub) + after
    decreases |path|
  {
    if path == [] {
      return [], [];
    }
    var b, a := RowAround(Child(node, path[0]), path[1..], sub);
    var here := Leaves(NodeAt(node, path).value);
    if path[0] == 0 {
      before, after := b, a + Leaves(node.second);
      AppendAssoc(b + here, a, Leaves(node.second));
      AppendAssoc(b + Leaves(sub), a, Leaves(node.second));
    } else {
      before, after := Leaves(node.first) + b, a;
      AppendAssoc3(Leaves(node.first), b, here, a);
      AppendAssoc3(Leaves(node.first), b, Leaves(sub), a);
    }
  }

  /** A row cut around one of its elements. */
  lemma RowSlices<T>(before: seq<T>, x: T, after: seq<T>)
    ensures var row, i := before + [x] + after, |before|; row[..i] == before && row[..i + 1] == before + [x] && row[i + 1..] == after && row[i] == x
  {
  }

  lemma {:induction false} LeafAtIndex<P>(node: PaneNode<P>, path: Path)
    requires LeafPath(node, path)
    ensures Before(node, path) < LeafCount(node) && NodeAt(node, path) == Some(Leaf(Leaves(node)[Before(node, path)]))
    decreases |path|
  {
    if path != [] { LeafAtIndex(Child(node, path[0]), path[1..]); }
  }

  // ─── Splitting and closing ────────────────────────────────────────

  lemma ChildAt<P>(node: PaneNode<P>, path: Path, step: nat)
    requires NodeAt(node, path).Some? && NodeAt(node, path).value.Split?
    ensures NodeAt(node, path + [step]) == Some(Child(NodeAt(node, path).value, step))
    ensures Before(node, path + [step]) == Before(node, path) + if step == 0 then 0 else LeafCount(NodeAt(node, path).value.first)
  {
    NodeAtAppend(node, path, [step]);
    BeforeAppend(node, path, [step]);
    assert [step][1..] == [];
  }

  lemma {:induction false} BeforeReplaceAt<P>(node: PaneNode<P>, path: Path, sub: PaneNode<P>)
    requires NodeAt(node, path).Some?
    ensures Before(ReplaceAt(node, path, sub), path) == Before(node, path)
    decreases |path|
  {
    if path != [] { BeforeReplaceAt(Child(node, path[0]), path[1..], sub); }
  }

  /** MAIN: splitting puts the new pane right behind the focused one, and focuses it. */
  lemma SplitInsertsBehindFocus<P>(t: Tab<P>, direction: SplitDir, newPane: P)
    requires Focused(t)
    ensures var t', i := SplitTab(t, direction, newPane), Before(t.root, t.focused);
            && Focused(t') && i < LeafCount(t.root)
            && Leaves(t'.root) == Leaves(t.root)[..i + 1] + [newPane] + Leaves(t.root)[i + 1..]
            && Before(t'.root, t'.focused) == i + 1
  {
    LeafPathEnds(t.root, t.focused);
    var leaf := NodeAt(t.root, t.focused).value;
    var sub := Split(direction, 0.5, leaf, Leaf(newPane));
    var t' := SplitTab(t, direction, newPane);
    var before, after := RowAround(t.root, t.focused, sub);
    RowSlices(before, leaf.pane, after);
    assert Leaves(sub) == [leaf.pane] + [newPane];
    AppendAssoc(before, [leaf.pane], [newPane]);
    ReplaceAtThere(t.root, t.focused, sub);
    BeforeReplaceAt(t.root, t.focused, sub);
    ChildAt(t'.root, t.focused, 1);
    LeafPathAppend(t'.root, t.focused, [1]);
  }

  lemma ParentOfFocus<P>(t: Tab<P>) returns (parent: PaneNode<P>, last: nat)
    requires Focused(t) && t.focused != []
    ensures t.focused == Parent(t.focused) + [last] && last <= 1
    ensures NodeAt(t.root, Parent(t.focused)) == Some(parent) && parent.Split? && Child(parent, last).Leaf?
    ensures forall i | 0 <= i < |Parent(t.focused)| :: Parent(t.focused)[i] <= 1
  {
    LeafPathEnds(t.root, t.focused);
    last := t.focused[|t.focused| - 1];
    parent := NodeAt(t.root, t.focused[..|t.focused| - 1]).value;
    assert t.focused == Parent(t.focused) + [last];
    ChildAt(t.root, Parent(t.focused), last);
  }

  /** MAIN: closing removes exactly the focused pane from the row and focuses the
      first leaf of the promoted sibling; a lone leaf is left alone. */
  lemma CloseRemovesFocus<P>(t: Tab<P>)
    requires Focused(t)
    ensures var (t', r) := CloseTab(t);
            && Focused(t') && (r == LastLeaf <==> LeafCount(t.root) == 1)
            && (r == LastLeaf ==> t' == t)
            && var i := Before(t.root, t.focused);
            && i < LeafCount(t.root)
            && (r == Closed ==> Leaves(t'.root) == Leaves(t.root)[..i] + Leaves(t.root)[i + 1..])
            && (r == Closed ==> Before(t'.root, t'.focused) <= i)
  {
    LeafAtIndex(t.root, t.focused);
    if t.focused != [] {
      var parent, last := ParentOfFocus(t);
      CloseIs(t, parent, last);
      BeforeFits(t.root, Parent(t.focused));
      PromotedFocus(t.root, Parent(t.focused), Child(parent, 1 - last));
    }
  }

  /** The tab after closing, and the row of its leaves. */
  lemma CloseIs<P>(t: Tab<P>, parent: PaneNode<P>, last: nat)
    requires t.focused != [] && t.focused == Parent(t.focused) + [last] && last <= 1
    requires NodeAt(t.root, Parent(t.focused)) == Some(parent) && parent.Split? && Child(parent, last).Leaf?
    ensures var path, sibling, i := Parent(t.focused), Child(parent, 1 - last), Before(t.root, t.focused);
            && CloseTab(t) == (Tab(ReplaceAt(t.root, path, sibling), path + FirstLeaf(sibling)), Closed)
            && Before(t.root, path) <= i < LeafCount(t.root)
            && Leaves(ReplaceAt(t.root, path, sibling)) == Leaves(t.root)[..i] + Leaves(t.root)[i + 1..]
  {
    ChildAt(t.root, Parent(t.focused), last);
    CloseRow(t.root, Parent(t.focused), parent, last);
  }

  /** Promoting a subtree and focusing its first leaf. */
  lemma PromotedFocus<P>(root: PaneNode<P>, path: Path, sibling: PaneNode<P>)
    requires NodeAt(root, path).Some? && forall i | 0 <= i < |path| :: path[i] <= 1
    ensures var t := Tab(ReplaceAt(root, path, sibling), path + FirstLeaf(sibling));
            Focused(t) && Before(t.root, t.focused) == Before(root, path)
  {
    ReplaceAtThere(root, path, sibling);
    BeforeReplaceAt(root, path, sibling);
    FirstLeafIsFirst(sibling);
    LeafPathAppend(ReplaceAt(root, path, sibling), path, FirstLeaf(sibling));
    BeforeAppend(ReplaceAt(root, path, sibling), path, FirstLeaf(sibling));
  }

  /** Promoting the sibling of a leaf takes the leaf out of the row. */
  lemma CloseRow<P>(root: PaneNode<P>, path: Path, parent: PaneNode<P>, last: nat)
    requires NodeAt(root, path) == Some(parent) && parent.Split? && last <= 1 && Child(parent, last).Leaf?
    ensures var i := Before(root, path) + if last == 0 then 0 else LeafCount(parent.first);
            i < LeafCount(root)
            && Leaves(ReplaceAt(root, path, Child(parent, 1 - last))) == Leaves(root)[..i] + Leaves(root)[i + 1..]
  {
    var sibling, closed := Leaves(Child(parent, 1 - last)), Child(parent, last).pane;
    var before, after := RowAround(root, path, Child(parent, 1 - last));
    if last == 0 {
      AppendMiddle(before, [closed], sibling, after);
      RowSlices(before, closed, sibling + after);
      AppendAssoc(before, sibling, after);
    } else {
      AppendMiddle(before, sibling, [closed], after);
      RowSlices(before + sibling, closed, after);
    }
  }

  lemma {:induction false} ReplaceTwice<P>(node: PaneNode<P>, path: Path, sub: PaneNode<P>)
    requires NodeAt(node, path).Some?
    ensures ReplaceAt(ReplaceAt(node, path, sub), path, NodeAt(node, path).value) == node
    decreases |path|
  {
    if path != [] { ReplaceTwice(Child(node, path[0]), path[1..], sub); }
  }

  /** MAIN: closing right after splitting restores tree and focus. */
  lemma CloseUndoesSplit<P>(t: Tab<P>, direction: SplitDir, newPane: P)
    requires Focused(t)
    ensures CloseTab(SplitTab(t, direction, newPane)) == (t, Closed)
  {
    LeafPathEnds(t.root, t.focused);
    var leaf := NodeAt(t.root, t.focused).value;
    var sub := Split(direction, 0.5, leaf, Leaf(newPane));
    var t' := SplitTab(t, direction, newPane);
    ReplaceAtThere(t.root, t.focused, sub);
    ReplaceTwice(t.root, t.focused, sub);
    assert Parent(t'.focused) == t.focused;
    assert t.focused + [] == t.focused;
  }

  // ─── The order of leaf paths ──────────────────────────────────────

  /** Depth-first order of paths: the first step that differs decides. */
  predicate PathLess(p: Path, q: Path) {
    q != [] && p != [] && (p[0] < q[0] || (p[0] == q[0] && PathLess(p[1..], q[1..])))
  }

  lemma {:induction false} PathLessUnderPrefix(prefix: Path, p: Path, q: Path)
    ensures PathLess(prefix + p, prefix + q) <==> PathLess(p, q)
  {
    if prefix == [] {
      assert prefix + p == p && prefix + q == q;
    } else {
      PathLessUnderPrefix(prefix[1..], p, q);
      assert (prefix + p)[1..] == prefix[1..] + p && (prefix + q)[1..] == prefix[1..] + q;
    }
  }

  /** The `k`-th collected path is the path of the `k`-th leaf. */
  lemma {:induction false} LeafPathsAt<P>(node: PaneNode<P>, prefix: Path, k: nat) returns (p: Path)
    requires k < LeafCount(node)
    ensures LeafPaths(node, prefix)[k] == prefix + p && LeafPath(node, p) && Before(node, p) == k
  {
    if node.Leaf? {
      p := [];
    } else if k < LeafCount(node.first) {
      var q := LeafPathsAt(node.first, prefix + [0], k);
      p := [0] + q;
      AppendAssoc(prefix, [0], q);
    } else {
      var q := LeafPathsAt(node.second, prefix + [1], k - LeafCount(node.first));
      p := [1] + q;
      AppendAssoc(prefix, [1], q);
    }
  }

  /** A leaf's path is determined by its place in the row, and ordered like it. */
  lemma {:induction false} LeafOrder<P>(node: PaneNode<P>, p: Path, q: Path)
    requires LeafPath(node, p) && LeafPath(node, q)
    ensures Before(node, p) == Before(node, q) ==> p == q
    ensures Before(node, p) < Before(node, q) <==> PathLess(p, q)
    decreases |p|
  {
    if node.Split? {
      LeafAtIndex(Child(node, p[0]), p[1..]);
      LeafAtIndex(Child(node, q[0]), q[1..]);
      if p[0] == q[0] {
        LeafOrder(Child(node, p[0]), p[1..], q[1..]);
        assert p == [p[0]] + p[1..] && q == [q[0]] + q[1..];
      }
    }
  }

  /** MAIN: the collected paths are all leaf paths, each once, in depth-first order. */
  lemma LeafPathsAreTheLeaves<P>(node: PaneNode<P>)
    ensures var paths := LeafPaths(node, []);
            && (forall p :: p in paths <==> LeafPath(node, p))
            && (forall i, j | 0 <= i < j < |paths| :: PathLess(paths[i], paths[j]))
            && (forall i | 0 <= i < |paths| :: Before(node, paths[i]) == i)
  {
    var paths := LeafPaths(node, []);
    forall i | 0 <= i < |paths| ensures LeafPath(node, paths[i]) && Before(node, paths[i]) == i {
      var p := LeafPathsAt(node, [], i);
      assert [] + p == p;
    }
    forall p | LeafPath(node, p) ensures p in paths {
      LeafAtIndex(node, p);
      LeafOrder(node, p, paths[Before(node, p)]);
    }
    forall i, j | 0 <= i < j < |paths| ensures PathLess(paths[i], paths[j]) {
      LeafOrder(node, paths[i], paths[j]);
    }
  }

  // ─── Cycling ──────────────────────────────────────────────────────

  lemma {:induction false} PositionIs(paths: seq<Path>, k: nat)
    requires k < |paths| && forall i | 0 <= i < |paths| && i != k :: paths[i] != paths[k]
    ensures PositionOf(paths, paths[k]) == Some(k)
  {
    if k > 0 { PositionIs(paths[1..], k - 1); }
  }

  /** The place after `i` in a ring of `n`. */
  function Next(i: nat, n: nat): nat {
    if i + 1 < n then i + 1 else 0
  }

  lemma NextIsMod(i: nat, n: nat)
    requires i < n
    ensures (i + 1) % n == Next(i, n)
  {
  }

  lemma CycleMovesOn<P>(t: Tab<P>)
    requires Focused(t)
    ensures var (t', moved) := CycleTab(t);
            && t'.root == t.root && Focused(t') && (moved <==> LeafCount(t.root) > 1)
            && Before(t.root, t'.focused) == Next(Before(t.root, t.focused), LeafCount(t.root))
  {
    var paths, i := LeafPaths(t.root, []), Before(t.root, t.focused);
    LeafPathsAreTheLeaves(t.root);
    LeafAtIndex(t.root, t.focused);
    LeafOrder(t.root, t.focused, paths[i]);
    PositionIs(paths, i);
    NextIsMod(i, |paths|);
    assert paths[Next(i, |paths|)] in paths;
  }

  function CycleTimes<P>(t: Tab<P>, k: nat): Tab<P> {
    if k == 0 then t else CycleTab(CycleTimes(t, k - 1)).0
  }

  function Place(i: nat, k: nat, n: nat): nat
    requires i < n && k <= n
  {
    if i + k < n then i + k else i + k - n
  }

  lemma {:induction false} CycleTimesAt<P>(t: Tab<P>, k: nat) returns (p: Path)
    requires Focused(t) && k <= LeafCount(t.root)
    ensures CycleTimes(t, k) == t.(focused := p) && LeafPath(t.root, p)
    ensures Before(t.root, t.focused) < LeafCount(t.root)
    ensures Before(t.root, p) == Place(Before(t.root, t.focused), k, LeafCount(t.root))
  {
    LeafAtIndex(t.root, t.focused);
    if k == 0 {
      p := t.focused;
    } else {
      var q := CycleTimesAt(t, k - 1);
      CycleMovesOn(t.(focused := q));
      p := CycleTab(t.(focused := q)).0.focused;
    }
  }

  /** MAIN: as many cycles as there are leaves come back to the start. */
  lemma CycleReturns<P>(t: Tab<P>)
    requires Focused(t)
    ensures CycleTimes(t, LeafCount(t.root)) == t
  {
    var last := CycleTimesAt(t, LeafCount(t.root));
    LeafOrder(t.root, last, t.focused);
  }

  /** MAIN: on the way every leaf is focused … */
  lemma CycleReaches<P>(t: Tab<P>, p: Path) returns (k: nat)
    requires Focused(t) && LeafPath(t.root, p)
    ensures k < LeafCount(t.root) && CycleTimes(t, k).focused == p
  {
    LeafAtIndex(t.root, t.focused);
    LeafAtIndex(t.root, p);
    var i, j := Before(t.root, t.focused), Before(t.root, p);
    k := if i <= j then j - i else j - i + LeafCount(t.root);
    var q := CycleTimesAt(t, k);
    LeafOrder(t.root, q, p);
  }

  /** … and none of them twice. */
  lemma CycleDoesNotRepeat<P>(t: Tab<P>, j: nat, k: nat)
    requires Focused(t) && j < k < LeafCount(t.root)
    ensures CycleTimes(t, j).focused != CycleTimes(t, k).focused
  {
    var p := CycleTimesAt(t, j);
    var q := CycleTimesAt(t, k);
  }

  // ─── Directional focus ────────────────────────────────────────────

  predicate Backwards(dir: FocusDir) {
    dir == Left || dir == Up
  }

  /** The crossing the upward search stops at, and the leaf it lands on. */
  lemma {:induction false} CrossingIs<P>(root: PaneNode<P>, path: Path, depth: nat, dir: FocusDir)
    requires depth <= |path| && CrossingBelow(root, path, depth, dir).Some?
    ensures Crosses(root, path, CrossingBelow(root, path, depth, dir).value, dir)
  {
    if !Crosses(root, path, depth - 1, dir) { CrossingIs(root, path, depth - 1, dir); }
  }

  /** Where a motion goes: across the separator, onto the first leaf of the other side. */
  lemma LandingIs<P>(t: Tab<P>, dir: FocusDir) returns (base: Path, parent: PaneNode<P>, rest: Path)
    requires Focused(t) && FocusTab(t, dir).1
    ensures NodeAt(t.root, base) == Some(parent) && parent.Split? && parent.direction == Wanted(dir).0
    ensures t.focused == base + ([Wanted(dir).1] + rest)
    ensures var sibling := 1 - Wanted(dir).1;
            FocusTab(t, dir).0 == t.(focused := base + ([sibling] + FirstLeaf(Child(parent, sibling))))
    ensures forall i | 0 <= i < |base| :: base[i] <= 1
    ensures LeafPath(Child(parent, Wanted(dir).1), rest)
  {
    var depth := CrossingBelow(t.root, t.focused, |t.focused|, dir).value;
    CrossingIs(t.root, t.focused, |t.focused|, dir);
    LeafPathEnds(t.root, t.focused);
    base, rest := t.focused[..depth], t.focused[depth + 1..];
    parent := NodeAt(t.root, base).value;
    var side := Wanted(dir).1;
    CutAt(t.focused, depth);
    ChildAt(t.root, base, 1 - side);
    AppendAssoc(base, [1 - side], FirstLeaf(Child(parent, 1 - side)));
    LeafPathTail(t.root, base, [side] + rest);
    assert ([side] + rest)[1..] == rest;
  }

  lemma CutAt<T>(s: seq<T>, i: nat)
    requires i < |s|
    ensures s == s[..i] + ([s[i]] + s[i + 1..])
  {
  }

  lemma {:induction false} LeafPathTail<P>(node: PaneNode<P>, a: Path, b: Path)
    requires LeafPath(node, a + b) && NodeAt(node, a).Some?
    ensures LeafPath(NodeAt(node, a).value, b)
    decreases |a|
  {
    if a == [] {
      assert a + b == b;
    } else {
      assert (a + b)[1..] == a[1..] + b;
      LeafPathTail(Child(node, a[0]), a[1..], b);
    }
  }

  /** MAIN: a move to the left or up lands on an earlier leaf, one to the right or
      down on a later one; focus stays on a leaf. */
  lemma FocusMovesOneWay<P>(t: Tab<P>, dir: FocusDir)
    requires Focused(t)
    ensures var (t', moved) := FocusTab(t, dir);
            && t'.root == t.root && Focused(t') && (!moved ==> t' == t)
            && (moved ==> if Backwards(dir) then Before(t.root, t'.focused) < Before(t.root, t.focused)
                          else Before(t.root, t.focused) < Before(t.root, t'.focused))
  {
    var (t', moved) := FocusTab(t, dir);
    if moved {
      var base, parent, rest := LandingIs(t, dir);
      var side := Wanted(dir).1;
      SideOfSplit(t.root, base, parent, side, rest);
      FirstLeafIsFirst(Child(parent, 1 - side));
      SideOfSplit(t.root, base, parent, 1 - side, FirstLeaf(Child(parent, 1 - side)));
    }
  }

  /** A leaf on one side of a split, seen from the root. */
  lemma SideOfSplit<P>(root: PaneNode<P>, base: Path, parent: PaneNode<P>, side: nat, rest: Path)
    requires NodeAt(root, base) == Some(parent) && parent.Split? && side <= 1
    requires LeafPath(Child(parent, side), rest) && forall i | 0 <= i < |base| :: base[i] <= 1
    ensures LeafPath(root, base + ([side] + rest))
    ensures var k := Before(root, base + ([side] + rest)) - Before(root, base);
            if side == 0 then k < LeafCount(parent.first) else k == LeafCount(parent.first) + Before(parent.second, rest)
  {
    assert ([side] + rest)[1..] == rest;
    BeforeAppend(root, base, [side] + rest);
    LeafPathAppend(root, base, [side] + rest);
    LeafAtIndex(Child(parent, side), rest);
  }

  /** The tab after `k` moves in one direction, while they succeed. */
  function MoveTimes<P>(t: Tab<P>, dir: FocusDir, k: nat): Option<Tab<P>> {
    if k == 0 then Some(t)
    else
      match MoveTimes(t, dir, k - 1)
      case None => None
      case Some(u) => if FocusTab(u, dir).1 then Some(FocusTab(u, dir).0) else None
  }

  lemma {:induction false} MovesProgress<P>(t: Tab<P>, dir: FocusDir, k: nat)
    requires Focused(t) && MoveTimes(t, dir, k).Some?
    ensures var u := MoveTimes(t, dir, k).value;
            && u.root == t.root && Focused(u)
            && if Backwards(dir) then Before(t.root, u.focused) + k <= Before(t.root, t.focused)
               else Before(t.root, t.focused) + k <= Before(t.root, u.focused)
  {
    if k > 0 {
      MovesProgress(t, dir, k - 1);
      FocusMovesOneWay(MoveTimes(t, dir, k - 1).value, dir);
    }
  }

  /** MAIN: moving in one direction stops within one step less than there are leaves. */
  lemma MovesStop<P>(t: Tab<P>, dir: FocusDir, k: nat)
    requires Focused(t) && MoveTimes(t, dir, k).Some?
    ensures k < LeafCount(t.root)
  {
    MovesProgress(t, dir, k);
    LeafAtIndex(t.root, t.focused);
    LeafAtIndex(t.root, MoveTimes(t, dir, k).value.focused);
  }

  // ─── Runs ─────────────────────────────────────────────────────────

  datatype Command<P> =
    | DoSplit(direction: SplitDir, newPane: P)
    | DoClose
    | DoCycle
    | DoMove(dir: FocusDir)
    | DoEqualize

  function Apply<P>(t: Tab<P>, c: Command<P>): Tab<P> {
    match c
    case DoSplit(direction, newPane) => SplitTab(t, direction, newPane)
    case DoClose => CloseTab(t).0
    case DoCycle => CycleTab(t).0
    case DoMove(dir) => FocusTab(t, dir).0
    case DoEqualize => EqualizeTab(t)
  }

  function RunAll<P>(t: Tab<P>, commands: seq<Command<P>>): Tab<P>
    decreases |commands|
  {
    if commands == [] then t else RunAll(Apply(t, commands[0]), commands[1..])
  }

  lemma {:induction false} EqualizeKeepsLeaves<P>(node: PaneNode<P>, path: Path)
    ensures LeafPath(EqualizeNode(node), path) <==> LeafPath(node, path)
    ensures Leaves(EqualizeNode(node)) == Leaves(node) && EqualizeNode(EqualizeNode(node)) == EqualizeNode(node)
    decreases node
  {
    if node.Split? {
      EqualizeKeepsLeaves(node.first, if path == [] then [] else path[1..]);
      EqualizeKeepsLeaves(node.second, if path == [] then [] else path[1..]);
    }
  }

  /** MAIN: whatever is done to a tab, in whatever order, the focus path stays a 0/1
      path to a leaf, so that none of the source's panics can be reached. */
  lemma {:induction false} EveryRunKeepsFocus<P>(t: Tab<P>, commands: seq<Command<P>>)
    requires Focused(t)
    ensures Focused(RunAll(t, commands))
    decreases |commands|
  {
    if commands != [] {
      match commands[0] {
        case DoSplit(direction, newPane) => SplitInsertsBehindFocus(t, direction, newPane);
        case DoClose => CloseRemovesFocus(t);
        case DoCycle => CycleMovesOn(t);
        case DoMove(dir) => FocusMovesOneWay(t, dir);
        case DoEqualize => EqualizeKeepsLeaves(t.root, t.focused);
      }
      EveryRunKeepsFocus(Apply(t, commands[0]), commands[1..]);
    }
  }
}
