/** Where panes are drawn (httui-tui/src/ui/mod.rs), and that moving focus left,
    right, up or down (httui-tui/src/pane.rs) goes there on the screen. */
module PaneLayout {
  import opened Text
  import opened Pane
  import opened PaneTheorems

  const U16_MAX: nat := 65535

  datatype Rect = Rect(x: nat, y: nat, width: nat, height: nat)

  /** Rounds a share of the usable cells; the source does it in `f32`. */
  type Share = (nat, real) -> nat

  function SaturatingAdd(a: nat, b: nat): nat {
    if a + b > U16_MAX then U16_MAX else a + b
  }

  function Clamp(n: nat, lo: nat, hi: nat): nat {
    if n < lo then lo else if n > hi then hi else n
  }

  function SeparatorWidth(total: nat): nat {
    if total >= 3 then 1 else 0
  }

  /** The first child's extent: at least one cell, leaving one for the second if it can. */
  function FirstExtent(total: nat, ratio: real, share: Share): nat {
    var usable := if total < SeparatorWidth(total) then 0 else total - SeparatorWidth(total);
    Clamp(share(usable, ratio), 1, if usable > 2 then usable - 1 else 1)
  }

  function SecondExtent(total: nat, ratio: real, share: Share): nat {
    var usable, first := total - SeparatorWidth(total), FirstExtent(total, ratio, share);
    if first > usable then 0 else usable - first
  }

  function ChildRect(area: Rect, dir: SplitDir, ratio: real, share: Share, step: nat): Rect {
    match dir
    case Vertical =>
      var first, sep := FirstExtent(area.width, ratio, share), SeparatorWidth(area.width);
      if step == 0 then area.(width := first)
      else area.(x := SaturatingAdd(area.x, first + sep), width := SecondExtent(area.width, ratio, share))
    case Horizontal =>
      var first, sep := FirstExtent(area.height, ratio, share), SeparatorWidth(area.height);
      if step == 0 then area.(height := first)
      else area.(y := SaturatingAdd(area.y, first + sep), height := SecondExtent(area.height, ratio, share))
  }

  predicate Empty(area: Rect) {
    area.width == 0 || area.height == 0
  }

  /** The area a subtree is drawn into; an empty area is not drawn. */
  function DrawnAt<P>(node: PaneNode<P>, area: Rect, path: Path, share: Share): Option<Rect>
    decreases |path|
  {
    if Empty(area) then None
    else if path == [] then Some(area)
    else if node.Leaf? then None
    else DrawnAt(Child(node, path[0]), ChildRect(area, node.direction, node.ratio, share, path[0]), path[1..], share)
  }

  // ─── One split ────────────────────────────────────────────────────

  /** The area lies on the screen. */
  predicate OnScreen(a: Rect) {
    a.x + a.width <= U16_MAX && a.y + a.height <= U16_MAX
  }

  predicate Inside(a: Rect, b: Rect) {
    b.x <= a.x && a.x + a.width <= b.x + b.width && b.y <= a.y && a.y + a.height <= b.y + b.height
  }

  /** `a` ends before `b` begins, along the separator's axis. */
  predicate Precedes(a: Rect, b: Rect, dir: SplitDir) {
    match dir
    case Vertical => a.x + a.width <= b.x
    case Horizontal => a.y + a.height <= b.y
  }

  lemma ExtentsFill(total: nat, ratio: real, share: Share)
    requires total > 0
    ensures FirstExtent(total, ratio, share) + SeparatorWidth(total) + SecondExtent(total, ratio, share) == total
    ensures FirstExtent(total, ratio, share) >= 1 && (total >= 2 ==> SecondExtent(total, ratio, share) >= 1)
  {
  }

  lemma SplitFits(area: Rect, dir: SplitDir, ratio: real, share: Share)
    requires OnScreen(area) && !Empty(area)
    ensures var a, b := ChildRect(area, dir, ratio, share, 0), ChildRect(area, dir, ratio, share, 1);
            Inside(a, area) && Inside(b, area) && OnScreen(a) && OnScreen(b) && Precedes(a, b, dir)
  {
    ExtentsFill(area.width, ratio, share);
    ExtentsFill(area.height, ratio, share);
  }

  // ─── The whole tree ───────────────────────────────────────────────

  lemma {:induction false} DrawnInside<P>(node: PaneNode<P>, area: Rect, path: Path, share: Share)
    requires OnScreen(area) && DrawnAt(node, area, path, share).Some? && forall i | 0 <= i < |path| :: path[i] <= 1
    ensures var r := DrawnAt(node, area, path, share).value; Inside(r, area) && OnScreen(r) && !Empty(r)
    decreases |path|
  {
    if path != [] {
      SplitFits(area, node.direction, node.ratio, share);
      assert path[0] <= 1;
      DrawnInside(Child(node, path[0]), ChildRect(area, node.direction, node.ratio, share, path[0]), path[1..], share);
    }
  }

  lemma {:induction false} DrawnAppend<P>(node: PaneNode<P>, area: Rect, a: Path, b: Path, share: Share)
    requires NodeAt(node, a).Some?
    ensures DrawnAt(node, area, a + b, share) ==
            match DrawnAt(node, area, a, share) case None => None case Some(r) => DrawnAt(NodeAt(node, a).value, r, b, share)
    decreases |a|
  {
    if a == [] {
      assert a + b == b;
    } else if !Empty(area) {
      DrawnAppend(Child(node, a[0]), ChildRect(area, node.direction, node.ratio, share, a[0]), a[1..], b, share);
      assert (a + b)[1..] == a[1..] + b;
    }
  }

  /** Anything drawn in the first child precedes anything drawn in the second. */
  lemma SidesPrecede<P>(root: PaneNode<P>, area: Rect, base: Path, parent: PaneNode<P>, p: Path, q: Path, share: Share)
    requires OnScreen(area) && NodeAt(root, base) == Some(parent) && parent.Split?
    requires LeafPath(root, base + ([0] + p)) && LeafPath(root, base + ([1] + q))
    requires DrawnAt(root, area, base + ([0] + p), share).Some? && DrawnAt(root, area, base + ([1] + q), share).Some?
    ensures Precedes(DrawnAt(root, area, base + ([0] + p), share).value, DrawnAt(root, area, base + ([1] + q), share).value, parent.direction)
  {
    LeafPathEnds(root, base + ([0] + p));
    LeafPathEnds(root, base + ([1] + q));
    DrawnAppend(root, area, base, [0] + p, share);
    DrawnAppend(root, area, base, [1] + q, share);
    assert forall i | 0 <= i < |base| :: base[i] == (base + ([0] + p))[i];
    DrawnInside(root, area, base, share);
    var r := DrawnAt(root, area, base, share).value;
    SplitFits(r, parent.direction, parent.ratio, share);
    assert ([0] + p)[1..] == p && ([1] + q)[1..] == q;
    assert forall i | 0 <= i < |p| :: p[i] == (base + ([0] + p))[|base| + 1 + i];
    assert forall i | 0 <= i < |q| :: q[i] == (base + ([1] + q))[|base| + 1 + i];
    DrawnInside(parent.first, ChildRect(r, parent.direction, parent.ratio, share, 0), p, share);
    DrawnInside(parent.second, ChildRect(r, parent.direction, parent.ratio, share, 1), q, share);
  }

  /** MAIN: on the screen, the pane a move lands on lies wholly on the asked-for side
      of the pane it leaves. */
  lemma MoveGoesThatWay<P>(t: Tab<P>, dir: FocusDir, area: Rect, share: Share)
    requires Focused(t) && FocusTab(t, dir).1 && OnScreen(area)
    requires DrawnAt(t.root, area, t.focused, share).Some?
    requires DrawnAt(t.root, area, FocusTab(t, dir).0.focused, share).Some?
    ensures var left, reached := DrawnAt(t.root, area, t.focused, share).value, DrawnAt(t.root, area, FocusTab(t, dir).0.focused, share).value;
            match dir
            case Left => reached.x + reached.width <= left.x
            case Right => left.x + left.width <= reached.x
            case Up => reached.y + reached.height <= left.y
            case Down => left.y + left.height <= reached.y
  {
    var base, parent, rest := LandingIs(t, dir);
    FocusMovesOneWay(t, dir);
    if Backwards(dir) {
      SidesPrecede(t.root, area, base, parent, FirstLeaf(parent.first), rest, share);
    } else {
      SidesPrecede(t.root, area, base, parent, rest, FirstLeaf(parent.second), share);
    }
  }

  predicate Disjoint(a: Rect, b: Rect) {
    Precedes(a, b, Vertical) || Precedes(b, a, Vertical) || Precedes(a, b, Horizontal) || Precedes(b, a, Horizontal)
  }

  /** MAIN: no two panes are drawn over one another. */
  lemma {:induction false} PanesDoNotOverlap<P>(node: PaneNode<P>, area: Rect, p: Path, q: Path, share: Share)
    requires OnScreen(area) && LeafPath(node, p) && LeafPath(node, q) && p != q
    requires DrawnAt(node, area, p, share).Some? && DrawnAt(node, area, q, share).Some?
    ensures Disjoint(DrawnAt(node, area, p, share).value, DrawnAt(node, area, q, share).value)
    decreases |p|
  {
    SplitFits(area, node.direction, node.ratio, share);
    if p[0] == q[0] {
      assert p == [p[0]] + p[1..] && q == [q[0]] + q[1..];
      PanesDoNotOverlap(Child(node, p[0]), ChildRect(area, node.direction, node.ratio, share, p[0]), p[1..], q[1..], share);
    } else {
      var a, b := if p[0] == 0 then p else q, if p[0] == 0 then q else p;
      assert a == [] + ([0] + a[1..]) && b == [] + ([1] + b[1..]);
      SidesPrecede(node, area, [], node, a[1..], b[1..], share);
    }
  }
}
