/** The tab as the source keeps it (httui-tui/src/pane.rs): a class whose methods
    rewrite tree and focus, and keep the focus on a leaf. */
module PaneState {
  import opened Text
  import opened Pane
  import opened PaneTheorems

  lemma MoveKeepsFocus<P>(t: Tab<P>, dir: FocusDir)
    requires Focused(t)
    ensures Focused(FocusTab(t, dir).0)
  {
    FocusMovesOneWay(t, dir);
  }

  class TabState<P> {
    var root: PaneNode<P>
    var focused: Path

    ghost function Now(): Tab<P>
      reads this
    {
      Tab(root, focused)
    }

    /** The focus path leads to a leaf: what every `expect` and `panic!` rests on. */
    ghost predicate Valid()
      reads this
    {
      Focused(Now())
    }

    constructor (pane: P)
      ensures Valid() && Now() == Tab(Leaf(pane), [])
    {
      root, focused := Leaf(pane), [];
    }

    method ActiveLeaf() returns (p: P)
      requires Valid()
      ensures NodeAt(root, focused) == Some(Leaf(p))
    {
      LeafPathEnds(root, focused);
      var node := Walk(root, focused);
      match node {
        case Some(Leaf(pane)) => p := pane;
        case _ => assert false;
      }
    }

    method Split(direction: SplitDir, newPane: P)
      requires Valid()
      modifies this
      ensures Valid() && Now() == SplitTab(old(Now()), direction, newPane)
    {
      SplitInsertsBehindFocus(Now(), direction, newPane);
      LeafPathEnds(root, focused);
      var existing := Walk(root, focused);
      root := ReplaceAt(root, focused, PaneNode.Split(direction, 0.5, existing.value, Leaf(newPane)));
      focused := focused + [1];
    }

    method CloseFocused() returns (r: CloseResult)
      requires Valid()
      modifies this
      ensures Valid() && (Now(), r) == CloseTab(old(Now()))
    {
      CloseRemovesFocus(Now());
      if focused == [] { return LastLeaf; }
      LeafPathEnds(root, focused);
      var path, last := focused[..|focused| - 1], focused[|focused| - 1];
      var parent := Walk(root, path);
      var sibling := if last == 0 then parent.value.second else parent.value.first;
      ReplaceAtThere(root, path, sibling);
      root := ReplaceAt(root, path, sibling);
      var promoted := Walk(root, path);
      focused := DescendFirst(promoted.value, path);
      return Closed;
    }

    method CycleFocus() returns (moved: bool)
      requires Valid()
      modifies `focused
      ensures Valid() && (Now(), moved) == CycleTab(old(Now()))
    {
      CycleMovesOn(Now());
      var leaves := CollectLeafPaths(root);
      if |leaves| <= 1 { return false; }
      var position := PositionOf(leaves, focused);
      var pos := if position.Some? then position.value else 0;
      var next := (pos + 1) % |leaves|;
      focused := leaves[next];
      return true;
    }

    method MoveFocus(dir: FocusDir) returns (moved: bool)
      requires Valid()
      modifies `focused
      ensures Valid() && (Now(), moved) == FocusTab(old(Now()), dir)
    {
      MoveKeepsFocus(Now(), dir);
      var wanted := Wanted(dir);
      LeafPathEnds(root, focused);
      var depth: nat := |focused|;
      while depth > 0
        invariant depth <= |focused| && focused == old(focused)
        invariant CrossingBelow(root, focused, depth, dir) == CrossingBelow(root, focused, |focused|, dir)
      {
        depth := depth - 1;
        var lastStep := focused[depth];
        if lastStep != wanted.1 { continue; }
        var parent := Walk(root, focused[..depth]);
        if parent.value.Leaf? || parent.value.direction != wanted.0 { continue; }
        var newFocused := focused[..depth] + [1 - lastStep];
        NodeAtAppend(root, focused[..depth], [1 - lastStep]);
        var target := Walk(root, newFocused);
        focused := DescendFirst(target.value, newFocused);
        return true;
      }
      return false;
    }

    method Equalize()
      requires Valid()
      modifies `root
      ensures Valid() && Now() == EqualizeTab(old(Now()))
    {
      EqualizeKeepsLeaves(root, focused);
      root := EqualizeNode(root);
    }
  }
}
