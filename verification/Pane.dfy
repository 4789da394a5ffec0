/** The pane tree of a tab and its focus path (httui-tui/src/pane.rs). */
module Pane {
  import opened Text

  datatype SplitDir = Vertical | Horizontal

  datatype FocusDir = Left | Right | Up | Down

  datatype CloseResult = Closed | LastLeaf

  /** `P` is what a leaf carries. */
  datatype PaneNode<P> =
    | Leaf(pane: P)
    | Split(direction: SplitDir, ratio: real, first: PaneNode<P>, second: PaneNode<P>)

  type Path = seq<nat>

  // ─── Paths ────────────────────────────────────────────────────────

  function Child<P>(node: PaneNode<P>, step: nat): PaneNode<P>
    requires node.Split?
  {
    if step == 0 then node.first else node.second
  }

  function NodeAt<P>(node: PaneNode<P>, path: Path): Option<PaneNode<P>>
    decreases |path|
  {
    if path == [] then Some(node)
    else if node.Leaf? then None
    else NodeAt(Child(node, path[0]), path[1..])
  }

  method Walk<P>(root: PaneNode<P>, path: Path) returns (r: Option<PaneNode<P>>)
    ensures r == NodeAt(root, path)
  {
    var node := root;
    for i := 0 to |path|
      invariant NodeAt(node, path[i..]) == NodeAt(root, path)
    {
      if node.Leaf? { return None; }
      assert path[i..][1..] == path[i + 1..];
      node := if path[i] == 0 then node.first else node.second;
    }
    return Some(node);
  }

  /** A 0/1 path that ends in a leaf. */
  predicate LeafPath<P>(node: PaneNode<P>, path: Path)
    decreases |path|
  {
    if path == [] then node.Leaf?
    else node.Split? && path[0] <= 1 && LeafPath(Child(node, path[0]), path[1..])
  }

  function ReplaceAt<P>(node: PaneNode<P>, path: Path, sub: PaneNode<P>): PaneNode<P>
    decreases |path|
  {
    if path == [] || node.Leaf? then sub
    else if path[0] == 0 then node.(first := ReplaceAt(node.first, path[1..], sub))
    else node.(second := ReplaceAt(node.second, path[1..], sub))
  }

  /** The path of the leftmost leaf. */
  function FirstLeaf<P>(node: PaneNode<P>): Path {
    if node.Leaf? then [] else [0] + FirstLeaf(node.first)
  }

  method DescendFirst<P>(root: PaneNode<P>, path: Path) returns (r: Path)
    ensures r == path + FirstLeaf(root)
  {
    var node := root;
    r := path;
    while node.Split?
      invariant r + FirstLeaf(node) == path + FirstLeaf(root)
      decreases node
    {
      AppendAssoc(r, [0], FirstLeaf(node.first));
      r := r + [0];
      node := node.first;
    }
    assert r + [] == r;
  }

  function LeafCount<P>(node: PaneNode<P>): (n: nat)
    ensures n >= 1
  {
    if node.Leaf? then 1 else LeafCount(node.first) + LeafCount(node.second)
  }

  /** Leaf paths in depth-first order, behind a common prefix. */
  function LeafPaths<P>(node: PaneNode<P>, prefix: Path): (paths: seq<Path>)
    ensures |paths| == LeafCount(node)
  {
    if node.Leaf? then [prefix]
    else LeafPaths(node.first, prefix + [0]) + LeafPaths(node.second, prefix + [1])
  }

  method WalkLeaves<P>(node: PaneNode<P>, path: Path, out: seq<Path>) returns (path': Path, out': seq<Path>)
    ensures path' == path && out' == out + LeafPaths(node, path)
    decreases node
  {
    path', out' := path, out;
    if node.Leaf? {
      out' := out' + [path'];
    } else {
      path' := path' + [0];
      path', out' := WalkLeaves(node.first, path', out');
      path' := path'[..|path'| - 1];
      path' := path' + [1];
      path', out' := WalkLeaves(node.second, path', out');
      path' := path'[..|path'| - 1];
      AppendAssoc(out, LeafPaths(node.first, path + [0]), LeafPaths(node.second, path + [1]));
    }
  }

  method CollectLeafPaths<P>(node: PaneNode<P>) returns (out: seq<Path>)
    ensures out == LeafPaths(node, [])
  {
    var path;
    path, out := WalkLeaves(node, [], []);
  }

  function PositionOf(paths: seq<Path>, path: Path): Option<nat> {
    if paths == [] then None
    else if paths[0] == path then Some(0)
    else match PositionOf(paths[1..], path) case None => None case Some(i) => Some(i + 1)
  }

  function EqualizeNode<P>(node: PaneNode<P>): PaneNode<P> {
    if node.Leaf? then node
    else Split(node.direction, 0.5, EqualizeNode(node.first), EqualizeNode(node.second))
  }

  // ─── Tab operations on values ─────────────────────────────────────

  datatype Tab<P> = Tab(root: PaneNode<P>, focused: Path)

  predicate Focused<P>(t: Tab<P>) {
    LeafPath(t.root, t.focused)
  }

  function SplitTab<P>(t: Tab<P>, direction: SplitDir, newPane: P): Tab<P> {
    match NodeAt(t.root, t.focused)
    case Some(leaf) => Tab(ReplaceAt(t.root, t.focused, Split(direction, 0.5, leaf, Leaf(newPane))), t.focused + [1])
    case None => t
  }

  function Parent(path: Path): Path
    requires path != []
  {
    path[..|path| - 1]
  }

  function CloseTab<P>(t: Tab<P>): (Tab<P>, CloseResult) {
    if t.focused == [] then (t, LastLeaf)
    else
      match NodeAt(t.root, Parent(t.focused))
      case Some(Split(_, _, first, second)) =>
        var sibling := if t.focused[|t.focused| - 1] == 0 then second else first;
        (Tab(ReplaceAt(t.root, Parent(t.focused), sibling), Parent(t.focused) + FirstLeaf(sibling)), Closed)
      case _ => (t, Closed)
  }

  function CycleTab<P>(t: Tab<P>): (Tab<P>, bool) {
    var leaves := LeafPaths(t.root, []);
    if |leaves| <= 1 then (t, false)
    else
      var pos := match PositionOf(leaves, t.focused) case None => 0 case Some(i) => i;
      (t.(focused := leaves[(pos + 1) % |leaves|]), true)
  }

  /** The separator a motion crosses and the side it must start from. */
  function Wanted(dir: FocusDir): (SplitDir, nat) {
    match dir
    case Left => (Vertical, 1)
    case Right => (Vertical, 0)
    case Up => (Horizontal, 1)
    case Down => (Horizontal, 0)
  }

  /** The motion crosses the separator above `path[depth]`. */
  predicate Crosses<P>(root: PaneNode<P>, path: Path, depth: nat, dir: FocusDir)
    requires depth < |path|
  {
    && path[depth] == Wanted(dir).1
    && var parent := NodeAt(root, path[..depth]);
       parent.Some? && parent.value.Split? && parent.value.direction == Wanted(dir).0
  }

  /** The deepest separator below `depth` that the motion crosses. */
  function CrossingBelow<P>(root: PaneNode<P>, path: Path, depth: nat, dir: FocusDir): (r: Option<nat>)
    requires depth <= |path|
    ensures r.Some? ==> r.value < depth
  {
    if depth == 0 then None
    else if Crosses(root, path, depth - 1, dir) then Some(depth - 1)
    else CrossingBelow(root, path, depth - 1, dir)
  }

  /** The leaf a motion lands on after crossing at `depth`. */
  function Landing<P>(root: PaneNode<P>, path: Path, depth: nat, dir: FocusDir): Path
    requires depth < |path|
  {
    var base := path[..depth] + [1 - Wanted(dir).1];
    match NodeAt(root, base)
    case None => base
    case Some(target) => base + FirstLeaf(target)
  }

  function FocusTab<P>(t: Tab<P>, dir: FocusDir): (Tab<P>, bool) {
    match CrossingBelow(t.root, t.focused, |t.focused|, dir)
    case None => (t, false)
    case Some(depth) => (t.(focused := Landing(t.root, t.focused, depth, dir)), true)
  }

  function EqualizeTab<P>(t: Tab<P>): Tab<P> {
    t.(root := EqualizeNode(t.root))
  }

  // ─── Facts the methods rely on ────────────────────────────────────

  lemma {:induction false} NodeAtAppend<P>(node: PaneNode<P>, a: Path, b: Path)
    ensures NodeAt(node, a + b) == match NodeAt(node, a) case None => None case Some(n) => NodeAt(n, b)
    decreases |a|
  {
    if a == [] {
      assert a + b == b;
    } else if node.Split? {
      NodeAtAppend(Child(node, a[0]), a[1..], b);
      assert (a + b)[1..] == a[1..] + b;
    }
  }

  lemma {:induction false} LeafPathEnds<P>(node: PaneNode<P>, path: Path)
    requires LeafPath(node, path)
    ensures NodeAt(node, path).Some? && NodeAt(node, path).value.Leaf?
    ensures forall i | 0 <= i < |path| :: path[i] <= 1
    ensures forall i | 0 <= i < |path| :: NodeAt(node, path[..i]).Some? && NodeAt(node, path[..i]).value.Split?
    decreases |path|
  {
    if path != [] {
      LeafPathEnds(Child(node, path[0]), path[1..]);
      forall i | 0 <= i < |path| ensures NodeAt(node, path[..i]).Some? && NodeAt(node, path[..i]).value.Split? {
        if i > 0 { assert path[..i][1..] == path[1..][..i - 1]; }
      }
    }
  }

  lemma {:induction false} ReplaceAtThere<P>(node: PaneNode<P>, path: Path, sub: PaneNode<P>)
    requires NodeAt(node, path).Some?
    ensures NodeAt(ReplaceAt(node, path, sub), path) == Some(sub)
    decreases |path|
  {
    if path != [] { ReplaceAtThere(Child(node, path[0]), path[1..], sub); }
  }
}
