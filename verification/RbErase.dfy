module RbErase {
  import opened TreeHeap
  import opened ThreadedTrees
  import opened RbShape
  import opened TreeSteps
  import opened RbTrees

  ghost predicate BlackChildren(t: Tree) {
    t.Node? && Black(t.left) && Black(t.right)
  }

  /** The hole of a subtree that is one black node short has a sibling. */
  lemma {:induction false} ShortHasSibling(path: Path, t: Tree)
    requires ShortInHole(path, t) && !path.Top?
    ensures Sibling(path).Node?
    ensures Sibling(path).mark == RB_RED ==>
      && Sibling(path).left.Node? && Sibling(path).right.Node?
      && Black(Sibling(path).left) && Black(Sibling(path).right) && path.mark != RB_RED
  {
  }

  lemma {:induction false} SeeChildren(tree: ThreadedTree, path: Path, t: Tree)
    requires tree.Holds(Plug(path, t)) && t.Node?
    ensures t.node.left == Root(t.left) && t.node.right == Root(t.right)
    ensures t.left.Node? ==> t.left.node in tree.nodes && t.left.node.mark == t.left.mark
    ensures t.right.Node? ==> t.right.node in tree.nodes && t.right.node.mark == t.right.mark
  {
    See(tree, path, t);
    See(tree, InLeft(path, t.node, t.key, t.mark, t.right), t.left);
    See(tree, InRight(path, t.node, t.key, t.mark, t.left), t.right);
  }

  // ---- a red sibling is lifted above the parent

  /** The parent turns red and sinks to the left; its right child turns black and rises. */
  ghost function RisenLeft(P: Tree): Tree
    requires P.Node? && P.right.Node?
  {
    RotatedLeft(Paint(P.(right := Paint(P.right, RB_BLACK)), RB_RED))
  }

  method RiseLeft(tree: ThreadedTree, parent: TreeNode, other: TreeNode, ghost up: Path, ghost P: Tree)
    requires P.Node? && P.right.Node? && tree.Holds(Plug(up, P))
    requires P.node == parent && P.right.node == other
    modifies tree`root, tree.nodes`left, tree.nodes`right, tree.nodes`parent, tree.nodes`mark
    ensures tree.Holds(Plug(up, RisenLeft(P)))
  {
    ghost var hole := InRight(up, P.node, P.key, P.mark, P.left);
    assert Plug(hole, P.right) == Plug(up, P);
    PaintAt(tree, other, RB_BLACK, hole, P.right);
    ghost var P1 := P.(right := Paint(P.right, RB_BLACK));
    assert Plug(hole, Paint(P.right, RB_BLACK)) == Plug(up, P1);
    PaintAt(tree, parent, RB_RED, up, P1);
    RotateLeftAt(tree, parent, up, Paint(P1, RB_RED));
  }

  ghost function RisenLeftPath(path: Path): Path
    requires path.InLeft? && path.right.Node?
  {
    InLeft(InLeft(path.up, path.right.node, path.right.key, RB_BLACK, path.right.right),
           path.node, path.key, RB_RED, path.right.left)
  }

  lemma {:induction false} RisenLeftKeeps(path: Path, t: Tree)
    requires ShortInHole(path, t) && Black(t) && path.InLeft? && path.right.Node? && path.right.mark == RB_RED
    ensures ShortInHole(RisenLeftPath(path), t) && Black(path.right.left)
    ensures Plug(RisenLeftPath(path), t) == Plug(path.up, RisenLeft(Fill(path, t)))
    ensures Entries(RisenLeft(Fill(path, t))) == Entries(Fill(path, t))
  {
    ShortHasSibling(path, t);
    assert NoRedRedAround(path.up) && BalancedAround(path.up, BlackHeight(t) + 2);
    assert NoRedRed(path.right.left) && NoRedRed(path.right.right);
    assert Balanced(path.right.left) && Balanced(path.right.right);
  }

  // ---- a black sibling with black children turns red, and the shortage moves up

  lemma {:induction false} DrainKeepsLeft(path: Path, t: Tree)
    requires ShortInHole(path, t) && Black(t) && path.InLeft?
    requires Black(path.right) && BlackChildren(path.right)
    ensures ShortInHole(path.up, Fill(path.(right := Paint(path.right, RB_RED)), t))
    ensures Entries(Fill(path.(right := Paint(path.right, RB_RED)), t)) == Entries(Fill(path, t))
  {
    assert NoRedRedAround(path.up);
    assert NoRedRed(path.right.left) && NoRedRed(path.right.right);
    assert Balanced(path.right.left) && Balanced(path.right.right);
  }

  // ---- the near nephew is red: turn the sibling so that the far one is

  ghost function TurnedRight(S: Tree): Tree
    requires S.Node? && S.left.Node?
  {
    RotatedRight(Paint(S.(left := Paint(S.left, RB_BLACK)), RB_RED))
  }

  method TurnRight(tree: ThreadedTree, other: TreeNode, nephew: TreeNode, ghost hole: Path, ghost S: Tree)
    requires S.Node? && S.left.Node? && tree.Holds(Plug(hole, S))
    requires S.node == other && S.left.node == nephew
    modifies tree`root, tree.nodes`left, tree.nodes`right, tree.nodes`parent, tree.nodes`mark
    ensures tree.Holds(Plug(hole, TurnedRight(S)))
  {
    ghost var inner := InLeft(hole, S.node, S.key, S.mark, S.right);
    assert Plug(inner, S.left) == Plug(hole, S);
    PaintAt(tree, nephew, RB_BLACK, inner, S.left);
    ghost var S1 := S.(left := Paint(S.left, RB_BLACK));
    assert Plug(inner, Paint(S.left, RB_BLACK)) == Plug(hole, S1);
    PaintAt(tree, other, RB_RED, hole, S1);
    RotateRightAt(tree, other, hole, Paint(S1, RB_RED));
  }

  lemma {:induction false} TurnedRightKeeps(path: Path, t: Tree)
    requires ShortInHole(path, t) && path.InLeft?
    requires path.right.Node? && Black(path.right) && Black(path.right.right)
    requires path.right.left.Node? && path.right.left.mark == RB_RED
    ensures ShortInHole(path.(right := TurnedRight(path.right)), t)
    ensures TurnedRight(path.right).right.Node? && TurnedRight(path.right).right.mark == RB_RED
    ensures Black(TurnedRight(path.right))
    ensures Entries(TurnedRight(path.right)) == Entries(path.right)
  {
    var S := path.right;
    assert NoRedRedAround(path.up);
    assert NoRedRed(S.left) && NoRedRed(S.right) && NoRedRed(S.left.left) && NoRedRed(S.left.right);
    assert Balanced(S.left) && Balanced(S.right) && Balanced(S.left.left) && Balanced(S.left.right);
  }

  // ---- the far nephew is red: one rotation repays the shortage

  /** The sibling rises with the parent's colour; parent and far nephew turn black. */
  ghost function RepaidLeft(P: Tree): Tree
    requires P.Node? && P.right.Node?
  {
    RotatedLeft(Paint(P.(right := Paint(P.right, P.mark).(right := Paint(P.right.right, RB_BLACK))), RB_BLACK))
  }

  method RepayLeft(tree: ThreadedTree, parent: TreeNode, other: TreeNode, nephew: TreeNode, ghost up: Path, ghost P: Tree)
    requires P.Node? && P.right.Node? && P.right.right.Node? && tree.Holds(Plug(up, P))
    requires P.node == parent && P.right.node == other && P.right.right.node == nephew && parent.mark == P.mark
    modifies tree`root, tree.nodes`left, tree.nodes`right, tree.nodes`parent, tree.nodes`mark
    ensures tree.Holds(Plug(up, RepaidLeft(P)))
  {
    ghost var S, m := P.right, P.mark;
    ghost var hole := InRight(up, P.node, P.key, m, P.left);
    assert Plug(hole, S) == Plug(up, P);
    See(tree, up, P);
    PaintAt(tree, other, parent.mark, hole, S);
    ghost var S1 := Paint(S, m);
    ghost var P1 := P.(right := S1);
    assert Plug(hole, S1) == Plug(up, P1);
    PaintAt(tree, parent, RB_BLACK, up, P1);
    ghost var inner := InRight(InRight(up, P.node, P.key, RB_BLACK, P.left), S.node, S.key, m, S.left);
    assert Fill(inner, S.right) == S1;
    assert Plug(inner, S.right) == Plug(up, Paint(P1, RB_BLACK));
    PaintAt(tree, nephew, RB_BLACK, inner, S.right);
    ghost var P2 := Paint(P.(right := S1.(right := Paint(S.right, RB_BLACK))), RB_BLACK);
    assert Fill(inner, Paint(S.right, RB_BLACK)) == S1.(right := Paint(S.right, RB_BLACK));
    assert Plug(inner, Paint(S.right, RB_BLACK)) == Plug(up, P2);
    RotateLeftAt(tree, parent, up, P2);
  }

  lemma {:induction false} RepaidLeftKeeps(path: Path, t: Tree)
    requires ShortInHole(path, t) && Black(t) && path.InLeft?
    requires path.right.Node? && Black(path.right)
    requires path.right.right.Node? && path.right.right.mark == RB_RED
    ensures RedBlack(Plug(path.up, RepaidLeft(Fill(path, t))))
    ensures Entries(RepaidLeft(Fill(path, t))) == Entries(Fill(path, t))
  {
    var S := path.right;
    assert NoRedRedAround(path.up);
    assert NoRedRed(S.left) && NoRedRed(S.right) && NoRedRed(S.right.left) && NoRedRed(S.right.right);
    assert Balanced(S.left) && Balanced(S.right) && Balanced(S.right.left) && Balanced(S.right.right);
    var l, r := Node(t, path.node, path.key, RB_BLACK, S.left), Paint(S.right, RB_BLACK);
    assert RepaidLeft(Fill(path, t)) == Node(l, S.node, S.key, path.mark, r);
    assert Balanced(l) && Balanced(r) && BlackHeight(l) == BlackHeight(r) == BlackHeight(t) + 1;
    assert NoRedRed(l) && NoRedRed(r);
    assert Entries(r) == Entries(S.right);
    RedBlackPlug(path.up, Node(l, S.node, S.key, path.mark, r));
  }

  // ---- the same, mirrored

  /** The parent turns red and sinks to the right; its left child turns black and rises. */
  ghost function RisenRight(P: Tree): Tree
    requires P.Node? && P.left.Node?
  {
    RotatedRight(Paint(P.(left := Paint(P.left, RB_BLACK)), RB_RED))
  }

  method RiseRight(tree: ThreadedTree, parent: TreeNode, other: TreeNode, ghost up: Path, ghost P: Tree)
    requires P.Node? && P.left.Node? && tree.Holds(Plug(up, P))
    requires P.node == parent && P.left.node == other
    modifies tree`root, tree.nodes`right, tree.nodes`left, tree.nodes`parent, tree.nodes`mark
    ensures tree.Holds(Plug(up, RisenRight(P)))
  {
    ghost var hole := InLeft(up, P.node, P.key, P.mark, P.right);
    assert Plug(hole, P.left) == Plug(up, P);
    PaintAt(tree, other, RB_BLACK, hole, P.left);
    ghost var P1 := P.(left := Paint(P.left, RB_BLACK));
    assert Plug(hole, Paint(P.left, RB_BLACK)) == Plug(up, P1);
    PaintAt(tree, parent, RB_RED, up, P1);
    RotateRightAt(tree, parent, up, Paint(P1, RB_RED));
  }

  ghost function RisenRightPath(path: Path): Path
    requires path.InRight? && path.left.Node?
  {
    InRight(InRight(path.up, path.left.node, path.left.key, RB_BLACK, path.left.left),
           path.node, path.key, RB_RED, path.left.right)
  }

  lemma {:induction false} RisenRightKeeps(path: Path, t: Tree)
    requires ShortInHole(path, t) && Black(t) && path.InRight? && path.left.Node? && path.left.mark == RB_RED
    ensures ShortInHole(RisenRightPath(path), t) && Black(path.left.right)
    ensures Plug(RisenRightPath(path), t) == Plug(path.up, RisenRight(Fill(path, t)))
    ensures Entries(RisenRight(Fill(path, t))) == Entries(Fill(path, t))
  {
    ShortHasSibling(path, t);
    assert NoRedRedAround(path.up) && BalancedAround(path.up, BlackHeight(t) + 2);
    assert NoRedRed(path.left.right) && NoRedRed(path.left.left);
    assert Balanced(path.left.right) && Balanced(path.left.left);
  }

  lemma {:induction false} DrainKeepsRight(path: Path, t: Tree)
    requires ShortInHole(path, t) && Black(t) && path.InRight?
    requires Black(path.left) && BlackChildren(path.left)
    ensures ShortInHole(path.up, Fill(path.(left := Paint(path.left, RB_RED)), t))
    ensures Entries(Fill(path.(left := Paint(path.left, RB_RED)), t)) == Entries(Fill(path, t))
  {
    assert NoRedRedAround(path.up);
    assert NoRedRed(path.left.right) && NoRedRed(path.left.left);
    assert Balanced(path.left.right) && Balanced(path.left.left);
  }

  ghost function TurnedLeft(S: Tree): Tree
    requires S.Node? && S.right.Node?
  {
    RotatedLeft(Paint(S.(right := Paint(S.right, RB_BLACK)), RB_RED))
  }

  method TurnLeft(tree: ThreadedTree, other: TreeNode, nephew: TreeNode, ghost hole: Path, ghost S: Tree)
    requires S.Node? && S.right.Node? && tree.Holds(Plug(hole, S))
    requires S.node == other && S.right.node == nephew
    modifies tree`root, tree.nodes`right, tree.nodes`left, tree.nodes`parent, tree.nodes`mark
    ensures tree.Holds(Plug(hole, TurnedLeft(S)))
  {
    ghost var inner := InRight(hole, S.node, S.key, S.mark, S.left);
    assert Plug(inner, S.right) == Plug(hole, S);
    PaintAt(tree, nephew, RB_BLACK, inner, S.right);
    ghost var S1 := S.(right := Paint(S.right, RB_BLACK));
    assert Plug(inner, Paint(S.right, RB_BLACK)) == Plug(hole, S1);
    PaintAt(tree, other, RB_RED, hole, S1);
    RotateLeftAt(tree, other, hole, Paint(S1, RB_RED));
  }

  lemma {:induction false} TurnedLeftKeeps(path: Path, t: Tree)
    requires ShortInHole(path, t) && path.InRight?
    requires path.left.Node? && Black(path.left) && Black(path.left.left)
    requires path.left.right.Node? && path.left.right.mark == RB_RED
    ensures ShortInHole(path.(left := TurnedLeft(path.left)), t)
    ensures TurnedLeft(path.left).left.Node? && TurnedLeft(path.left).left.mark == RB_RED
    ensures Black(TurnedLeft(path.left))
    ensures Entries(TurnedLeft(path.left)) == Entries(path.left)
  {
    var S := path.left;
    assert NoRedRedAround(path.up);
    assert NoRedRed(S.right) && NoRedRed(S.left) && NoRedRed(S.right.right) && NoRedRed(S.right.left);
    assert Balanced(S.right) && Balanced(S.left) && Balanced(S.right.right) && Balanced(S.right.left);
  }

  /** The sibling rises with the parent's colour; parent and far nephew turn black. */
  ghost function RepaidRight(P: Tree): Tree
    requires P.Node? && P.left.Node?
  {
    RotatedRight(Paint(P.(left := Paint(P.left, P.mark).(left := Paint(P.left.left, RB_BLACK))), RB_BLACK))
  }

  method RepayRight(tree: ThreadedTree, parent: TreeNode, other: TreeNode, nephew: TreeNode, ghost up: Path, ghost P: Tree)
    requires P.Node? && P.left.Node? && P.left.left.Node? && tree.Holds(Plug(up, P))
    requires P.node == parent && P.left.node == other && P.left.left.node == nephew && parent.mark == P.mark
    modifies tree`root, tree.nodes`right, tree.nodes`left, tree.nodes`parent, tree.nodes`mark
    ensures tree.Holds(Plug(up, RepaidRight(P)))
  {
    ghost var S, m := P.left, P.mark;
    ghost var hole := InLeft(up, P.node, P.key, m, P.right);
    assert Plug(hole, S) == Plug(up, P);
    See(tree, up, P);
    PaintAt(tree, other, parent.mark, hole, S);
    ghost var S1 := Paint(S, m);
    ghost var P1 := P.(left := S1);
    assert Plug(hole, S1) == Plug(up, P1);
    PaintAt(tree, parent, RB_BLACK, up, P1);
    ghost var inner := InLeft(InLeft(up, P.node, P.key, RB_BLACK, P.right), S.node, S.key, m, S.right);
    assert Fill(inner, S.left) == S1;
    assert Plug(inner, S.left) == Plug(up, Paint(P1, RB_BLACK));
    PaintAt(tree, nephew, RB_BLACK, inner, S.left);
    ghost var P2 := Paint(P.(left := S1.(left := Paint(S.left, RB_BLACK))), RB_BLACK);
    assert Fill(inner, Paint(S.left, RB_BLACK)) == S1.(left := Paint(S.left, RB_BLACK));
    assert Plug(inner, Paint(S.left, RB_BLACK)) == Plug(up, P2);
    RotateRightAt(tree, parent, up, P2);
  }

  lemma {:induction false} RepaidRightKeeps(path: Path, t: Tree)
    requires ShortInHole(path, t) && Black(t) && path.InRight?
    requires path.left.Node? && Black(path.left)
    requires path.left.left.Node? && path.left.left.mark == RB_RED
    ensures RedBlack(Plug(path.up, RepaidRight(Fill(path, t))))
    ensures Entries(RepaidRight(Fill(path, t))) == Entries(Fill(path, t))
  {
    var S := path.left;
    assert NoRedRedAround(path.up);
    assert NoRedRed(S.right) && NoRedRed(S.left) && NoRedRed(S.left.right) && NoRedRed(S.left.left);
    assert Balanced(S.right) && Balanced(S.left) && Balanced(S.left.right) && Balanced(S.left.left);
    var l, r := Paint(S.left, RB_BLACK), Node(S.right, path.node, path.key, RB_BLACK, t);
    assert RepaidRight(Fill(path, t)) == Node(l, S.node, S.key, path.mark, r);
    assert Balanced(l) && Balanced(r) && BlackHeight(l) == BlackHeight(r) == BlackHeight(t) + 1;
    assert NoRedRed(l) && NoRedRed(r);
    assert Entries(l) == Entries(S.left);
    RedBlackPlug(path.up, Node(l, S.node, S.key, path.mark, r));
  }

  // ---- the loop

  /** Rounds left: a red node in the hole ends the loop. */
  ghost function Rounds(path: Path, t: Tree): nat {
    if Black(t) then Depth(path) + 1 else 0
  }

  /** The part of a round of `_rb_erase_balance`, below a left child, that finds the sibling black. */
  method EraseBlackSiblingLeft(tree: ThreadedTree, parent: TreeNode, sibling: TreeNode, ghost path: Path, ghost t: Tree)
    returns (done: bool, node': TreeNode?, parent': TreeNode?, ghost path': Path, ghost t': Tree)
    requires tree.Holds(Plug(path, t)) && ShortInHole(path, t) && Black(t)
    requires path.InLeft? && path.node == parent && path.right.Node? && Black(path.right) && path.right.node == sibling
    modifies tree`root, tree.nodes`left, tree.nodes`right, tree.nodes`parent, tree.nodes`mark
    ensures tree.Holds(Plug(path', t')) && Entries(Plug(path', t')) == Entries(Plug(path, t))
    ensures done ==> RedBlack(Plug(path', t'))
    ensures !done ==>
      && ShortInHole(path', t') && node' == Root(t') && parent' == Above(path')
      && path' == path.up && t'.Node? && t'.mark == path.mark
  {
    var other := sibling;
    ghost var up, P, S := path.up, Fill(path, t), path.right;
    ghost var hole := InRight(up, path.node, path.key, path.mark, t);
    assert Plug(path, t) == Plug(up, P) == Plug(hole, S);
    See(tree, up, P);
    SeeChildren(tree, hole, S);
    if (other.left == null || other.left.mark != RB_RED) && (other.right == null || other.right.mark != RB_RED) {
      PaintAt(tree, other, RB_RED, hole, S);
      DrainKeepsLeft(path, t);
      path', t' := up, Fill(path.(right := Paint(S, RB_RED)), t);
      assert Plug(hole, Paint(S, RB_RED)) == Plug(up, t');
      SameEntries(up, P, t');
      node' := parent;
      See(tree, up, t');
      parent' := node'.parent;
      done := false;
    } else {
      ghost var path1 := path;
      if other.right == null || other.right.mark != RB_RED {
        TurnRight(tree, other, other.left, hole, S);
        TurnedRightKeeps(path, t);
        path1 := path.(right := TurnedRight(S));
        assert Plug(hole, TurnedRight(S)) == Plug(up, Fill(path1, t));
        SameEntries(up, P, Fill(path1, t));
        P, S := Fill(path1, t), TurnedRight(S);
        See(tree, up, P);
        other := parent.right;
        SeeChildren(tree, hole, S);
      }
      RepayLeft(tree, parent, other, other.right, up, P);
      RepaidLeftKeeps(path1, t);
      SameEntries(up, P, RepaidLeft(P));
      done, node', parent', path', t' := true, null, null, up, RepaidLeft(P);
    }
  }

  /** One round of `_rb_erase_balance` below a left child. */
  method EraseStepLeft(tree: ThreadedTree, parent: TreeNode, ghost path: Path, ghost t: Tree)
    returns (done: bool, node': TreeNode?, parent': TreeNode?, ghost path': Path, ghost t': Tree)
    requires tree.Holds(Plug(path, t)) && ShortInHole(path, t) && Black(t)
    requires path.InLeft? && path.node == parent
    modifies tree`root, tree.nodes`left, tree.nodes`right, tree.nodes`parent, tree.nodes`mark
    ensures tree.Holds(Plug(path', t')) && Entries(Plug(path', t')) == Entries(Plug(path, t))
    ensures done ==> RedBlack(Plug(path', t'))
    ensures !done ==>
      && ShortInHole(path', t') && node' == Root(t') && parent' == Above(path')
      && Rounds(path', t') < Rounds(path, t)
  {
    ghost var up, P := path.up, Fill(path, t);
    ghost var path1 := path;
    assert Plug(path, t) == Plug(up, P);
    See(tree, up, P);
    ShortHasSibling(path, t);
    SeeChildren(tree, up, P);
    var other := parent.right;
    if other.mark == RB_RED {
      RiseLeft(tree, parent, other, up, P);
      RisenLeftKeeps(path, t);
      SameEntries(up, P, RisenLeft(P));
      path1 := RisenLeftPath(path);
      See(tree, path1.up, Fill(path1, t));
      other := parent.right;
    }
    ShortHasSibling(path1, t);
    done, node', parent', path', t' := EraseBlackSiblingLeft(tree, parent, other, path1, t);
  }
  /** The part of a round of `_rb_erase_balance`, below a right child, that finds the sibling black. */
  method EraseBlackSiblingRight(tree: ThreadedTree, parent: TreeNode, sibling: TreeNode, ghost path: Path, ghost t: Tree)
    returns (done: bool, node': TreeNode?, parent': TreeNode?, ghost path': Path, ghost t': Tree)
    requires tree.Holds(Plug(path, t)) && ShortInHole(path, t) && Black(t)
    requires path.InRight? && path.node == parent && path.left.Node? && Black(path.left) && path.left.node == sibling
    modifies tree`root, tree.nodes`right, tree.nodes`left, tree.nodes`parent, tree.nodes`mark
    ensures tree.Holds(Plug(path', t')) && Entries(Plug(path', t')) == Entries(Plug(path, t))
    ensures done ==> RedBlack(Plug(path', t'))
    ensures !done ==>
      && ShortInHole(path', t') && node' == Root(t') && parent' == Above(path')
      && path' == path.up && t'.Node? && t'.mark == path.mark
  {
    var other := sibling;
    ghost var up, P, S := path.up, Fill(path, t), path.left;
    ghost var hole := InLeft(up, path.node, path.key, path.mark, t);
    assert Plug(path, t) == Plug(up, P) == Plug(hole, S);
    See(tree, up, P);
    SeeChildren(tree, hole, S);
    if (other.right == null || other.right.mark != RB_RED) && (other.left == null || other.left.mark != RB_RED) {
      PaintAt(tree, other, RB_RED, hole, S);
      DrainKeepsRight(path, t);
      path', t' := up, Fill(path.(left := Paint(S, RB_RED)), t);
      assert Plug(hole, Paint(S, RB_RED)) == Plug(up, t');
      SameEntries(up, P, t');
      node' := parent;
      See(tree, up, t');
      parent' := node'.parent;
      done := false;
    } else {
      ghost var path1 := path;
      if other.left == null || other.left.mark != RB_RED {
        TurnLeft(tree, other, other.right, hole, S);
        TurnedLeftKeeps(path, t);
        path1 := path.(left := TurnedLeft(S));
        assert Plug(hole, TurnedLeft(S)) == Plug(up, Fill(path1, t));
        SameEntries(up, P, Fill(path1, t));
        P, S := Fill(path1, t), TurnedLeft(S);
        See(tree, up, P);
        other := parent.left;
        SeeChildren(tree, hole, S);
      }
      RepayRight(tree, parent, other, other.left, up, P);
      RepaidRightKeeps(path1, t);
      SameEntries(up, P, RepaidRight(P));
      done, node', parent', path', t' := true, null, null, up, RepaidRight(P);
    }
  }

  /** One round of `_rb_erase_balance` below a right child. */
  method EraseStepRight(tree: ThreadedTree, parent: TreeNode, ghost path: Path, ghost t: Tree)
    returns (done: bool, node': TreeNode?, parent': TreeNode?, ghost path': Path, ghost t': Tree)
    requires tree.Holds(Plug(path, t)) && ShortInHole(path, t) && Black(t)
    requires path.InRight? && path.node == parent
    modifies tree`root, tree.nodes`right, tree.nodes`left, tree.nodes`parent, tree.nodes`mark
    ensures tree.Holds(Plug(path', t')) && Entries(Plug(path', t')) == Entries(Plug(path, t))
    ensures done ==> RedBlack(Plug(path', t'))
    ensures !done ==>
      && ShortInHole(path', t') && node' == Root(t') && parent' == Above(path')
      && Rounds(path', t') < Rounds(path, t)
  {
    ghost var up, P := path.up, Fill(path, t);
    ghost var path1 := path;
    assert Plug(path, t) == Plug(up, P);
    See(tree, up, P);
    ShortHasSibling(path, t);
    SeeChildren(tree, up, P);
    var other := parent.left;
    if other.mark == RB_RED {
      RiseRight(tree, parent, other, up, P);
      RisenRightKeeps(path, t);
      SameEntries(up, P, RisenRight(P));
      path1 := RisenRightPath(path);
      See(tree, path1.up, Fill(path1, t));
      other := parent.left;
    }
    ShortHasSibling(path1, t);
    done, node', parent', path', t' := EraseBlackSiblingRight(tree, parent, other, path1, t);
  }

  lemma {:induction false} EraseEnds(path: Path, t: Tree)
    requires ShortInHole(path, t) && (path.Top? || !Black(t))
    ensures RedBlack(Plug(path, Paint(t, RB_BLACK)))
  {
    assert t.Node? ==> Balanced(t.left) && Balanced(t.right);
    RedBlackPlug(path, Paint(t, RB_BLACK));
  }

  lemma PaintedRedBlack(t: Tree)
    requires RedBlack(t)
    ensures RedBlack(Paint(t, RB_BLACK)) && Entries(Paint(t, RB_BLACK)) == Entries(t)
  {
  }

  /** What the loop condition reads. */
  lemma {:induction false} SeeHole(tree: ThreadedTree, path: Path, t: Tree)
    requires tree.Holds(Plug(path, t))
    ensures Root(t) == tree.root <==> path.Top?
    ensures t.Node? ==> t.node in tree.nodes && t.node.mark == t.mark
  {
    See(tree, path, t);
    RootPlug(path, t, t);
    DistinctPlug(path, t);
  }

  /** Where the walk stands, until a rotation has repaid the shortage. */
  ghost predicate Walking(tree: ThreadedTree, done: bool, node: TreeNode?, parent: TreeNode?, path: Path, t: Tree)
    reads tree`root, Elem(node)`mark
  {
    if done then RedBlack(Plug(path, t)) else
      && ShortInHole(path, t) && node == Root(t) && parent == Above(path)
      && (node == tree.root <==> path.Top?)
      && (node != null ==> node.mark == t.mark)
  }

  ghost function Elem(node: TreeNode?): set<TreeNode> {
    if node == null then {} else {node}
  }

  /** One round of the loop of `_rb_erase_balance`. */
  method EraseStep(tree: ThreadedTree, node: TreeNode?, parent: TreeNode?, ghost path: Path, ghost t: Tree)
    returns (done: bool, node': TreeNode?, parent': TreeNode?, ghost path': Path, ghost t': Tree)
    requires tree.Holds(Plug(path, t)) && Walking(tree, false, node, parent, path, t)
    requires (node == null || node.mark != RB_RED) && node != tree.root
    modifies tree`root, tree.nodes`left, tree.nodes`right, tree.nodes`parent, tree.nodes`mark
    ensures tree.Holds(Plug(path', t')) && Entries(Plug(path', t')) == Entries(Plug(path, t))
    ensures Walking(tree, done, node', parent', path', t')
    ensures !done ==> Rounds(path', t') < Rounds(path, t)
  {
    ShortHasSibling(path, t);
    DistinctPlug(path, t);
    See(tree, path.up, Fill(path, t));
    if parent.left == node {
      done, node', parent', path', t' := EraseStepLeft(tree, parent, path, t);
    } else {
      done, node', parent', path', t' := EraseStepRight(tree, parent, path, t);
    }
    SeeHole(tree, path', t');
  }

  /** `_rb_erase_balance`. */
  method EraseBalance(tree: ThreadedTree, node: TreeNode?, parent: TreeNode?, ghost path: Path, ghost t: Tree)
    returns (ghost final: Tree)
    requires tree.Holds(Plug(path, t)) && ShortInHole(path, t)
    requires Root(t) == node && Above(path) == parent
    modifies tree`root, tree.nodes`left, tree.nodes`right, tree.nodes`parent, tree.nodes`mark
    ensures tree.Holds(final) && RedBlack(final)
    ensures Entries(final) == Entries(Plug(path, t))
  {
    var node', parent', done := node, parent, false;
    ghost var path', t' := path, t;
    SeeHole(tree, path', t');
    while !done && (node' == null || node'.mark != RB_RED) && node' != tree.root
      invariant tree.Holds(Plug(path', t')) && Entries(Plug(path', t')) == Entries(Plug(path, t))
      invariant Walking(tree, done, node', parent', path', t')
      decreases !done, Rounds(path', t')
    {
      done, node', parent', path', t' := EraseStep(tree, node', parent', path', t');
    }
    final := EraseFinish(tree, done, node', parent', path', t');
  }

  /** What follows the loop; leaving it by `break` has made the node the root. */
  method EraseFinish(tree: ThreadedTree, done: bool, node: TreeNode?, ghost parent: TreeNode?, ghost path: Path, ghost t: Tree)
    returns (ghost final: Tree)
    requires tree.Holds(Plug(path, t)) && Walking(tree, done, node, parent, path, t)
    requires done || (node != null && node.mark == RB_RED) || node == tree.root
    modifies tree.nodes`mark
    ensures tree.Holds(final) && RedBlack(final)
    ensures Entries(final) == Entries(Plug(path, t))
  {
    if done {
      final := Plug(path, t);
      PaintedRedBlack(final);
      if tree.root != null {
        PaintRoot(tree, final);
        final := Paint(final, RB_BLACK);
      }
    } else {
      EraseEnds(path, t);
      SameEntries(path, t, Paint(t, RB_BLACK));
      final := Plug(path, Paint(t, RB_BLACK));
      if node != null {
        PaintAt(tree, node, RB_BLACK, path, t);
      }
    }
  }
}
