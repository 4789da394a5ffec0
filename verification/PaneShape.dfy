/** What the pane operations leave of the tree, node by node, and how a split is drawn. */
module PaneShape {
  import opened Text
  import opened Pane
  import opened PaneTheorems
  import opened PaneLayout

  predicate ZeroOne(path: Path) {
    forall i | 0 <= i < |path| :: path[i] <= 1
  }

  /** The same leaf, or separators with the same direction and ratio, or both nothing. */
  ghost predicate SameFrame<P>(a: Option<PaneNode<P>>, b: Option<PaneNode<P>>) {
    match (a, b)
    case (None, None) => true
    case (Some(Leaf(p)), Some(Leaf(q))) => p == q
    case (Some(Split(d, r, _, _)), Some(Split(d', r', _, _))) => d == d' && r == r'
    case _ => false
  }

  /** Replacing a subtree changes nothing at paths that do not lead into it. */
  lemma {:induction false} ReplaceAtElsewhere<P>(node: PaneNode<P>, path: Path, sub: PaneNode<P>, q: Path)
    requires NodeAt(node, path).Some? && ZeroOne(path) && ZeroOne(q) && !(path <= q)
    ensures SameFrame(NodeAt(node, q), NodeAt(ReplaceAt(node, path, sub), q))
    decreases |path|
  {
    if q != [] {
      if q[0] == path[0] {
        assert path == [path[0]] + path[1..] && q == [q[0]] + q[1..];
        ReplaceAtElsewhere(Child(node, path[0]), path[1..], sub, q[1..]);
      } else {
        FrameIsItself(NodeAt(Child(node, q[0]), q[1..]));
      }
    }
  }

  lemma FrameIsItself<P>(a: Option<PaneNode<P>>)
    ensures SameFrame(a, a)
  {
  }

  // ─── Splitting ────────────────────────────────────────────────────

  /** MAIN: where the focused leaf was stands a separator of the asked-for direction, half
      and half, the old leaf in front and the new one behind and in focus; every other
      separator and leaf is as it was. */
  lemma SplitShape<P>(t: Tab<P>, direction: SplitDir, newPane: P, q: Path)
    requires Focused(t) && ZeroOne(q)
    ensures var t' := SplitTab(t, direction, newPane);
            && NodeAt(t.root, t.focused).Some? && NodeAt(t.root, t.focused).value.Leaf?
            && NodeAt(t'.root, t.focused) == Some(Split(direction, 0.5, NodeAt(t.root, t.focused).value, Leaf(newPane)))
            && t'.focused == t.focused + [1] && NodeAt(t'.root, t'.focused) == Some(Leaf(newPane))
            && (!(t.focused <= q) ==> SameFrame(NodeAt(t.root, q), NodeAt(t'.root, q)))
  {
    LeafPathEnds(t.root, t.focused);
    var sub := Split(direction, 0.5, NodeAt(t.root, t.focused).value, Leaf(newPane));
    ReplaceAtThere(t.root, t.focused, sub);
    NodeAtAppend(SplitTab(t, direction, newPane).root, t.focused, [1]);
    if !(t.focused <= q) { ReplaceAtElsewhere(t.root, t.focused, sub, q); }
  }

  /** The motion that leads from the new pane of a split to the old one. */
  function BackFrom(direction: SplitDir): FocusDir {
    match direction case Vertical => Left case Horizontal => Up
  }

  /** MAIN: from the new pane, left or up leads back to the old one. */
  lemma SplitThenBack<P>(t: Tab<P>, direction: SplitDir, newPane: P)
    requires Focused(t)
    ensures var t' := SplitTab(t, direction, newPane);
            && FocusTab(t', BackFrom(direction)) == (t'.(focused := t.focused + [0]), true)
            && NodeAt(t'.root, t.focused + [0]) == NodeAt(t.root, t.focused)
  {
    var t', f := SplitTab(t, direction, newPane), t.focused;
    SplitShape(t, direction, newPane, []);
    NodeAtAppend(t'.root, f, [0]);
    assert t'.focused[..|f|] == f && t'.focused[|f|] == 1;
    assert Crosses(t'.root, t'.focused, |f|, BackFrom(direction));
    assert f + [0] + [] == f + [0];
  }

  function OtherSide(step: nat): nat {
    if step == 0 then 1 else 0
  }

  // ─── Closing ──────────────────────────────────────────────────────

  /** MAIN: the sibling moves up one step with all its subtree, the focus goes to its first
      leaf, and every other separator and leaf is as it was. */
  lemma CloseShape<P>(t: Tab<P>, q: Path)
    requires Focused(t) && t.focused != [] && ZeroOne(q)
    ensures var (t', r) := CloseTab(t);
            var up, other := Parent(t.focused), OtherSide(t.focused[|t.focused| - 1]);
            && r == Closed
            && NodeAt(t'.root, up + q) == NodeAt(t.root, up + [other] + q)
            && (!(up <= q) ==> SameFrame(NodeAt(t.root, q), NodeAt(t'.root, q)))
            && NodeAt(t'.root, up).Some? && up <= t'.focused
            && Before(NodeAt(t'.root, up).value, t'.focused[|up|..]) == 0
  {
    LeafPathEnds(t.root, t.focused);
    var up, last := Parent(t.focused), t.focused[|t.focused| - 1];
    var node := NodeAt(t.root, up).value;
    var sibling := if last == 0 then node.second else node.first;
    var t' := CloseTab(t).0;
    NodeAtAppend(t.root, up, [OtherSide(last)]);
    NodeAtAppend(t.root, up + [OtherSide(last)], q);
    ReplaceAtThere(t.root, up, sibling);
    NodeAtAppend(t'.root, up, q);
    if !(up <= q) { ReplaceAtElsewhere(t.root, up, sibling, q); }
    FirstLeafIsFirst(sibling);
    assert t'.focused[|up|..] == FirstLeaf(sibling);
  }

  /** The only pane of a tab is not closed. */
  lemma OnlyPaneStays<P>(t: Tab<P>)
    requires Focused(t)
    ensures CloseTab(t).1 == LastLeaf <==> t.root.Leaf?
    ensures t.root.Leaf? ==> CloseTab(t).0 == t
  {
    if t.focused != [] {
      LeafPathEnds(t.root, t.focused);
      assert t.focused[..0] == [];
      assert NodeAt(t.root, Parent(t.focused)).Some?;
    }
  }

  // ─── Equalizing ───────────────────────────────────────────────────

  /** MAIN: every separator keeps its place and direction and stands in the middle; every
      leaf is where it was. */
  lemma {:induction false} EqualizeShape<P>(node: PaneNode<P>, q: Path)
    ensures match (NodeAt(node, q), NodeAt(EqualizeNode(node), q))
            case (None, None) => true
            case (Some(Leaf(a)), Some(Leaf(b))) => a == b
            case (Some(Split(d, _, _, _)), Some(Split(d', r, _, _))) => d == d' && r == 0.5
            case _ => false
    decreases |q|
  {
    if q != [] && node.Split? { EqualizeShape(Child(node, q[0]), q[1..]); }
  }

  // ─── Moving ───────────────────────────────────────────────────────

  /** The separator and the side of it that a motion starts from. */
  predicate StartsFrom(dir: FocusDir, direction: SplitDir, step: nat) {
    || (dir == Left && direction == Vertical && step == 1)
    || (dir == Right && direction == Vertical && step == 0)
    || (dir == Up && direction == Horizontal && step == 1)
    || (dir == Down && direction == Horizontal && step == 0)
  }

  /** The focus lies on the starting side of the separator at `depth`. */
  ghost predicate CanCross<P>(t: Tab<P>, depth: nat, dir: FocusDir)
    requires depth < |t.focused|
  {
    match NodeAt(t.root, t.focused[..depth])
    case Some(Split(direction, _, _, _)) => StartsFrom(dir, direction, t.focused[depth])
    case _ => false
  }

  lemma {:induction false} DeepestCrossing<P>(t: Tab<P>, depth: nat, dir: FocusDir)
    requires depth <= |t.focused|
    ensures match CrossingBelow(t.root, t.focused, depth, dir)
            case None => forall k: nat | k < depth :: !CanCross(t, k, dir)
            case Some(d) => CanCross(t, d, dir) && forall k: nat | d < k < depth :: !CanCross(t, k, dir)
  {
    if depth > 0 { DeepestCrossing(t, depth - 1, dir); }
  }

  /** MAIN: a move crosses the nearest separator it can and goes to the first leaf behind
      it; it is refused, and changes nothing, exactly when there is none. */
  lemma MoveShape<P>(t: Tab<P>, dir: FocusDir)
    requires Focused(t)
    ensures var (t', moved) := FocusTab(t, dir);
            && t'.root == t.root
            && (if moved then
                  exists d: nat | d < |t.focused| ::
                    && CanCross(t, d, dir) && (forall k: nat | d < k < |t.focused| :: !CanCross(t, k, dir))
                    && LandsBehind(t, t', d)
                else t' == t && forall k: nat | k < |t.focused| :: !CanCross(t, k, dir))
  {
    DeepestCrossing(t, |t.focused|, dir);
    match CrossingBelow(t.root, t.focused, |t.focused|, dir) {
      case None =>
      case Some(d) =>
        LeafPathEnds(t.root, t.focused);
        var over := t.focused[..d] + [1 - t.focused[d]];
        NodeAtAppend(t.root, t.focused[..d], [1 - t.focused[d]]);
        FirstLeafIsFirst(NodeAt(t.root, over).value);
        var t' := FocusTab(t, dir).0;
        assert t'.focused == over + FirstLeaf(NodeAt(t.root, over).value);
        assert t'.focused[|over|..] == FirstLeaf(NodeAt(t.root, over).value);
        assert LandsBehind(t, t', d);
    }
  }

  /** The new focus is the first leaf on the other side of the separator at `d`. */
  ghost predicate LandsBehind<P>(t: Tab<P>, t': Tab<P>, d: nat)
    requires d < |t.focused|
  {
    var over := t.focused[..d] + [OtherSide(t.focused[d])];
    && NodeAt(t.root, over).Some? && over <= t'.focused
    && Before(NodeAt(t.root, over).value, t'.focused[|over|..]) == 0
  }

  // ─── Drawing ──────────────────────────────────────────────────────

  /** The separator's cell, when there is room for three. */
  function Gap(total: nat): nat {
    if total < 3 then 0 else 1
  }

  /** Two areas side by side, or one above the other, with a gap, fill a third. */
  predicate Fill(a: Rect, b: Rect, whole: Rect, dir: SplitDir) {
    match dir
    case Vertical =>
      && a.x == whole.x && b.x == a.x + a.width + Gap(whole.width) && a.width + Gap(whole.width) + b.width == whole.width
      && a.y == b.y == whole.y && a.height == b.height == whole.height
    case Horizontal =>
      && a.y == whole.y && b.y == a.y + a.height + Gap(whole.height) && a.height + Gap(whole.height) + b.height == whole.height
      && a.x == b.x == whole.x && a.width == b.width == whole.width
  }

  lemma ChildrenFill(area: Rect, dir: SplitDir, ratio: real, share: Share)
    requires OnScreen(area) && !Empty(area)
    ensures Fill(ChildRect(area, dir, ratio, share, 0), ChildRect(area, dir, ratio, share, 1), area, dir)
  {
    ExtentsFill(area.width, ratio, share);
    ExtentsFill(area.height, ratio, share);
  }

  /** A share that leaves room for both sides is taken as it is. */
  lemma ShareIsTaken(area: Rect, ratio: real, share: Share)
    requires area.width >= 4 && area.height >= 4
    ensures 1 <= share(area.width - 1, ratio) <= area.width - 2 ==> ChildRect(area, Vertical, ratio, share, 0).width == share(area.width - 1, ratio)
    ensures 1 <= share(area.height - 1, ratio) <= area.height - 2 ==> ChildRect(area, Horizontal, ratio, share, 0).height == share(area.height - 1, ratio)
  {
  }

  /** MAIN: the two panes of a split fill the area of the old one, the new pane right of
      it, or below. */
  lemma SplitIsDrawn<P>(t: Tab<P>, direction: SplitDir, newPane: P, area: Rect, share: Share)
    requires Focused(t) && OnScreen(area) && DrawnAt(t.root, area, t.focused, share).Some?
    ensures var t' := SplitTab(t, direction, newPane);
            var r, first, second := DrawnAt(t.root, area, t.focused, share).value,
                DrawnAt(t'.root, area, t.focused + [0], share), DrawnAt(t'.root, area, t'.focused, share);
            && (first.Some? && second.Some? ==> Fill(first.value, second.value, r, direction))
            && ((if direction == Vertical then r.width else r.height) >= 2 ==> first.Some? && second.Some?)
  {
    var t' := SplitTab(t, direction, newPane);
    LeafPathEnds(t.root, t.focused);
    SplitShape(t, direction, newPane, []);
    DrawnInside(t.root, area, t.focused, share);
    SameAreaAt(t.root, area, t.focused, NodeAt(t'.root, t.focused).value, share);
    DrawnAppend(t'.root, area, t.focused, [0], share);
    DrawnAppend(t'.root, area, t.focused, [1], share);
    ChildrenFill(DrawnAt(t.root, area, t.focused, share).value, direction, 0.5, share);
    ExtentsFill(DrawnAt(t.root, area, t.focused, share).value.width, 0.5, share);
    ExtentsFill(DrawnAt(t.root, area, t.focused, share).value.height, 0.5, share);
  }

  /** A replaced subtree is drawn where the old one was. */
  lemma {:induction false} SameAreaAt<P>(node: PaneNode<P>, area: Rect, path: Path, sub: PaneNode<P>, share: Share)
    requires NodeAt(node, path).Some?
    ensures DrawnAt(ReplaceAt(node, path, sub), area, path, share) == DrawnAt(node, area, path, share)
    decreases |path|
  {
    if path != [] && !Empty(area) {
      SameAreaAt(Child(node, path[0]), ChildRect(area, node.direction, node.ratio, share, path[0]), path[1..], sub, share);
    }
  }
}
