module RbTrees {
  import opened TreeHeap
  import opened ThreadedTrees
  import opened RbShape
  import opened TreeSteps

  /** `_rb_rotate_left`, as what it does to each field of each node. */
  method RotateLeft(tree: ThreadedTree, node: TreeNode)
    requires Liftable(tree.nodes, node, node.right)
    modifies tree`root, tree.nodes`left, tree.nodes`right, tree.nodes`parent
    ensures tree.root == if old(node.parent) == null then old(node.right) else old(tree.root)
    ensures forall n :: n in tree.nodes ==>
      n.left == (
        if n == old(node.right) then node
        else if n == old(node.parent) && old(n.left) == node then old(node.right) else old(n.left))
    ensures forall n :: n in tree.nodes ==>
      n.right == (
        if n == node then old(node.right.left)
        else if n == old(node.parent) && old(n.left) != node then old(node.right) else old(n.right))
    ensures forall n :: n in tree.nodes ==>
      n.parent == (
        if n == node then old(node.right)
        else if n == old(node.right) then old(node.parent)
        else if n == old(node.right.left) then node else old(n.parent))
  {
    var right := node.right;
    var parent := node.parent;
    node.right := right.left;
    if node.right != null {
      right.left.parent := node;
    }
    right.left := node;
    right.parent := parent;
    if parent != null {
      if node == parent.left {
        parent.left := right;
      } else {
        parent.right := right;
      }
    } else {
      tree.root := right;
    }
    node.parent := right;
  }

  /** `_rb_rotate_right`, as what it does to each field of each node. */
  method RotateRight(tree: ThreadedTree, node: TreeNode)
    requires Liftable(tree.nodes, node, node.left)
    modifies tree`root, tree.nodes`left, tree.nodes`right, tree.nodes`parent
    ensures tree.root == if old(node.parent) == null then old(node.left) else old(tree.root)
    ensures forall n :: n in tree.nodes ==>
      n.right == (
        if n == old(node.left) then node
        else if n == old(node.parent) && old(n.right) == node then old(node.left) else old(n.right))
    ensures forall n :: n in tree.nodes ==>
      n.left == (
        if n == node then old(node.left.right)
        else if n == old(node.parent) && old(n.right) != node then old(node.left) else old(n.left))
    ensures forall n :: n in tree.nodes ==>
      n.parent == (
        if n == node then old(node.left)
        else if n == old(node.left) then old(node.parent)
        else if n == old(node.left.right) then node else old(n.parent))
  {
    var left := node.left;
    var parent := node.parent;
    node.left := left.right;
    if node.left != null {
      left.right.parent := node;
    }
    left.right := node;
    left.parent := parent;
    if parent != null {
      if node == parent.right {
        parent.right := left;
      } else {
        parent.left := left;
      }
    } else {
      tree.root := left;
    }
    node.parent := left;
  }

  /** The rotation, as a step from one table to another. */
  method RotateLeftCells(tree: ThreadedTree, node: TreeNode, ghost m: CellTable, ghost m': CellTable)
    requires Spells(tree.nodes, m) && m'.Keys == m.Keys
    requires Liftable(tree.nodes, node, node.right)
    requires forall n :: n in m ==>
      RotatedLeftCell(n, m[n], m'[n], node, node.right, node.right.left, node.parent)
    modifies tree`root, tree.nodes`left, tree.nodes`right, tree.nodes`parent
    ensures Spells(tree.nodes, m')
    ensures tree.root == if old(node.parent) == null then old(node.right) else old(tree.root)
  {
    RotateLeft(tree, node);
  }

  /** The rotation, as a step from one tree to another. */
  method RotateLeftAt(tree: ThreadedTree, node: TreeNode, ghost path: Path, ghost t: Tree)
    requires t.Node? && t.right.Node? && t.node == node && tree.Holds(Plug(path, t))
    modifies tree`root, tree.nodes`left, tree.nodes`right, tree.nodes`parent
    ensures tree.Holds(Plug(path, RotatedLeft(t)))
  {
    RotateLeftTable(path, t);
    RootPlug(path, t, RotatedLeft(t));
    RightLiftable(tree, path, t);
    RotateLeftCells(tree, node, Table(Plug(path, t)), Table(Plug(path, RotatedLeft(t))));
  }

  /** The rotation, as a step from one table to another. */
  method RotateRightCells(tree: ThreadedTree, node: TreeNode, ghost m: CellTable, ghost m': CellTable)
    requires Spells(tree.nodes, m) && m'.Keys == m.Keys
    requires Liftable(tree.nodes, node, node.left)
    requires forall n :: n in m ==>
      RotatedRightCell(n, m[n], m'[n], node, node.left, node.left.right, node.parent)
    modifies tree`root, tree.nodes`left, tree.nodes`right, tree.nodes`parent
    ensures Spells(tree.nodes, m')
    ensures tree.root == if old(node.parent) == null then old(node.left) else old(tree.root)
  {
    RotateRight(tree, node);
  }

  /** The rotation, as a step from one tree to another. */
  method RotateRightAt(tree: ThreadedTree, node: TreeNode, ghost path: Path, ghost t: Tree)
    requires t.Node? && t.left.Node? && t.node == node && tree.Holds(Plug(path, t))
    modifies tree`root, tree.nodes`left, tree.nodes`right, tree.nodes`parent
    ensures tree.Holds(Plug(path, RotatedRight(t)))
  {
    RotateRightTable(path, t);
    RootPlug(path, t, RotatedRight(t));
    LeftLiftable(tree, path, t);
    RotateRightCells(tree, node, Table(Plug(path, t)), Table(Plug(path, RotatedRight(t))));
  }

  // --- insertion

  ghost function Recolored(G: Tree): Tree
    requires G.Node?
  {
    Node(Paint(G.left, RB_BLACK), G.node, G.key, RB_RED, Paint(G.right, RB_BLACK))
  }

  method Recolor(tree: ThreadedTree, uncle: TreeNode, parent: TreeNode, gparent: TreeNode, onLeft: bool,
                 ghost up: Path, ghost G: Tree)
    requires G.Node? && G.left.Node? && G.right.Node? && tree.Holds(Plug(up, G)) && G.node == gparent
    requires if onLeft then G.left.node == parent && G.right.node == uncle else G.right.node == parent && G.left.node == uncle
    modifies tree.nodes`mark
    ensures tree.Holds(Plug(up, Recolored(G)))
  {
    ghost var l, r := G.left, G.right;
    ghost var hole := InLeft(up, G.node, G.key, G.mark, r);
    if onLeft {
      ghost var hole' := InRight(up, G.node, G.key, G.mark, l);
      assert Plug(hole', r) == Plug(up, G);
      PaintAt(tree, uncle, RB_BLACK, hole', r);
      r := Paint(r, RB_BLACK);
      hole := InLeft(up, G.node, G.key, G.mark, r);
      assert Plug(hole', r) == Plug(hole, l);
      PaintAt(tree, parent, RB_BLACK, hole, l);
      l := Paint(l, RB_BLACK);
    } else {
      assert Plug(hole, l) == Plug(up, G);
      PaintAt(tree, uncle, RB_BLACK, hole, l);
      l := Paint(l, RB_BLACK);
      ghost var hole' := InRight(up, G.node, G.key, G.mark, l);
      assert Plug(hole, l) == Plug(hole', r);
      PaintAt(tree, parent, RB_BLACK, hole', r);
      r := Paint(r, RB_BLACK);
      hole := InLeft(up, G.node, G.key, G.mark, r);
    }
    assert Plug(hole, l) == Plug(up, Node(l, G.node, G.key, G.mark, r));
    PaintAt(tree, gparent, RB_RED, up, Node(l, G.node, G.key, G.mark, r));
  }

  lemma {:induction false} RecolorKeeps(path: Path, t: Tree)
    requires RedInHole(path, t) && !path.Top? && path.mark == RB_RED && !path.up.Top?
    requires Sibling(path.up).Node? && Sibling(path.up).mark == RB_RED
    ensures RedInHole(path.up.up, Recolored(Fill(path.up, Fill(path, t))))
    ensures Entries(Recolored(Fill(path.up, Fill(path, t)))) == Entries(Fill(path.up, Fill(path, t)))
  {
    var up := path.up;
    assert BalancedAround(up, BlackHeight(t)) && NoRedRedAround(up) && !NeedsBlack(up);
    assert BalancedAround(up.up, BlackHeight(t) + 1) && NoRedRedAround(up.up);
    assert NoRedRed(Sibling(up)) && Balanced(Sibling(up)) && NoRedRed(Sibling(path)) && Balanced(Sibling(path));
    assert NoRedRed(Sibling(up).left) && NoRedRed(Sibling(up).right);
    assert Balanced(Sibling(up).left) && Balanced(Sibling(up).right);
  }

  /** The grandparent turns red and sinks below its left child, which turns black. */
  ghost function LiftedLeft(G: Tree): Tree
    requires G.Node? && G.left.Node?
  {
    RotatedRight(Paint(G.(left := Paint(G.left, RB_BLACK)), RB_RED))
  }

  method LiftLeft(tree: ThreadedTree, parent: TreeNode, gparent: TreeNode, ghost up: Path, ghost G: Tree)
    requires G.Node? && G.left.Node? && tree.Holds(Plug(up, G))
    requires G.node == gparent && G.left.node == parent
    modifies tree`root, tree.nodes`left, tree.nodes`right, tree.nodes`parent, tree.nodes`mark
    ensures tree.Holds(Plug(up, LiftedLeft(G)))
  {
    ghost var hole := InLeft(up, G.node, G.key, G.mark, G.right);
    assert Plug(hole, G.left) == Plug(up, G);
    PaintAt(tree, parent, RB_BLACK, hole, G.left);
    ghost var G1 := G.(left := Paint(G.left, RB_BLACK));
    assert Plug(hole, Paint(G.left, RB_BLACK)) == Plug(up, G1);
    PaintAt(tree, gparent, RB_RED, up, G1);
    RotateRightAt(tree, gparent, up, Paint(G1, RB_RED));
  }

  lemma {:induction false} LiftLeftKeeps(path: Path, t: Tree)
    requires RedInHole(path, t) && !path.Top? && path.mark == RB_RED && path.up.InLeft?
    requires path.InLeft? && Black(path.up.right)
    ensures var L := LiftedLeft(Fill(path.up, Fill(path, t)));
      && L.Node? && L.left == t
      && RedInHole(InLeft(path.up.up, L.node, L.key, L.mark, L.right), t)
      && Plug(path.up.up, L) == Plug(InLeft(path.up.up, L.node, L.key, L.mark, L.right), t)
      && Entries(L) == Entries(Fill(path.up, Fill(path, t)))
  {
    var up := path.up;
    assert BalancedAround(up, BlackHeight(t)) && NoRedRedAround(up) && !NeedsBlack(up);
    assert BalancedAround(up.up, BlackHeight(t) + 1) && NoRedRedAround(up.up);
    assert NoRedRed(up.right) && Balanced(up.right) && NoRedRed(path.right) && Balanced(path.right);
  }

  lemma {:induction false} TurnLeftKeeps(path: Path, t: Tree)
    requires RedInHole(path, t) && !path.Top? && path.mark == RB_RED && path.InRight?
    ensures var P := RotatedLeft(Fill(path, t));
      && RedInHole(InLeft(path.up, P.node, P.key, P.mark, P.right), P.left)
      && P == Fill(InLeft(path.up, P.node, P.key, P.mark, P.right), P.left)
      && P.mark == RB_RED && P.left.node == path.node && P.node == t.node
      && Entries(P) == Entries(Fill(path, t))
  {
  }

  /** One round of `_rb_insert_balance` below a left child of the grandparent. */
  method InsertStepLeft(tree: ThreadedTree, node: TreeNode, parent: TreeNode, gparent: TreeNode, ghost path: Path, ghost t: Tree)
    returns (node': TreeNode, ghost path': Path, ghost t': Tree)
    requires tree.Holds(Plug(path, t)) && RedInHole(path, t)
    requires !path.Top? && path.mark == RB_RED && path.up.InLeft?
    requires t.node == node && path.node == parent && path.up.node == gparent
    modifies tree`root, tree.nodes`left, tree.nodes`right, tree.nodes`parent, tree.nodes`mark
    ensures tree.Holds(Plug(path', t')) && RedInHole(path', t') && t'.node == node'
    ensures Depth(path') < Depth(path)
    ensures Entries(Plug(path', t')) == Entries(Plug(path, t))
  {
    ghost var up, P := path.up.up, Fill(path, t);
    ghost var G := Fill(path.up, P);
    assert Plug(path, t) == Plug(path.up, P) == Plug(up, G);
    See(tree, up, G);
    See(tree, InRight(up, gparent, path.up.key, path.up.mark, P), path.up.right);
    SeeAbove(tree, path, t);
    var uncle := gparent.right;
    if uncle != null && uncle.mark == RB_RED {
      Recolor(tree, uncle, parent, gparent, true, up, G);
      RecolorKeeps(path, t);
      SameEntries(up, G, Recolored(G));
      node', path', t' := gparent, up, Recolored(G);
    } else {
      var parent' := parent;
      node', path', t' := node, path, t;
      if parent.right == node {
        RotateLeftAt(tree, parent, path.up, P);
        TurnLeftKeeps(path, t);
        parent', node' := node, parent;
        SameEntries(path.up, P, RotatedLeft(P));
        P := RotatedLeft(P);
        path', t' := InLeft(path.up, P.node, P.key, P.mark, P.right), P.left;
        G := Fill(path.up, P);
      }
      LiftLeft(tree, parent', gparent, up, G);
      LiftLeftKeeps(path', t');
      SameEntries(up, G, LiftedLeft(G));
      ghost var L := LiftedLeft(G);
      path' := InLeft(up, L.node, L.key, L.mark, L.right);
    }
  }

  /** The grandparent turns red and sinks below its right child, which turns black. */
  ghost function LiftedRight(G: Tree): Tree
    requires G.Node? && G.right.Node?
  {
    RotatedLeft(Paint(G.(right := Paint(G.right, RB_BLACK)), RB_RED))
  }

  method LiftRight(tree: ThreadedTree, parent: TreeNode, gparent: TreeNode, ghost up: Path, ghost G: Tree)
    requires G.Node? && G.right.Node? && tree.Holds(Plug(up, G))
    requires G.node == gparent && G.right.node == parent
    modifies tree`root, tree.nodes`right, tree.nodes`left, tree.nodes`parent, tree.nodes`mark
    ensures tree.Holds(Plug(up, LiftedRight(G)))
  {
    ghost var hole := InRight(up, G.node, G.key, G.mark, G.left);
    assert Plug(hole, G.right) == Plug(up, G);
    PaintAt(tree, parent, RB_BLACK, hole, G.right);
    ghost var G1 := G.(right := Paint(G.right, RB_BLACK));
    assert Plug(hole, Paint(G.right, RB_BLACK)) == Plug(up, G1);
    PaintAt(tree, gparent, RB_RED, up, G1);
    RotateLeftAt(tree, gparent, up, Paint(G1, RB_RED));
  }

  lemma {:induction false} LiftRightKeeps(path: Path, t: Tree)
    requires RedInHole(path, t) && !path.Top? && path.mark == RB_RED && path.up.InRight?
    requires path.InRight? && Black(path.up.left)
    ensures var L := LiftedRight(Fill(path.up, Fill(path, t)));
      && L.Node? && L.right == t
      && RedInHole(InRight(path.up.up, L.node, L.key, L.mark, L.left), t)
      && Plug(path.up.up, L) == Plug(InRight(path.up.up, L.node, L.key, L.mark, L.left), t)
      && Entries(L) == Entries(Fill(path.up, Fill(path, t)))
  {
    var up := path.up;
    assert BalancedAround(up, BlackHeight(t)) && NoRedRedAround(up) && !NeedsBlack(up);
    assert BalancedAround(up.up, BlackHeight(t) + 1) && NoRedRedAround(up.up);
    assert NoRedRed(up.left) && Balanced(up.left) && NoRedRed(path.left) && Balanced(path.left);
  }

  lemma {:induction false} TurnRightKeeps(path: Path, t: Tree)
    requires RedInHole(path, t) && !path.Top? && path.mark == RB_RED && path.InLeft?
    ensures var P := RotatedRight(Fill(path, t));
      && RedInHole(InRight(path.up, P.node, P.key, P.mark, P.left), P.right)
      && P == Fill(InRight(path.up, P.node, P.key, P.mark, P.left), P.right)
      && P.mark == RB_RED && P.right.node == path.node && P.node == t.node
      && Entries(P) == Entries(Fill(path, t))
  {
  }

  /** One round of `_rb_insert_balance` below a right child of the grandparent. */
  method InsertStepRight(tree: ThreadedTree, node: TreeNode, parent: TreeNode, gparent: TreeNode, ghost path: Path, ghost t: Tree)
    returns (node': TreeNode, ghost path': Path, ghost t': Tree)
    requires tree.Holds(Plug(path, t)) && RedInHole(path, t)
    requires !path.Top? && path.mark == RB_RED && path.up.InRight?
    requires t.node == node && path.node == parent && path.up.node == gparent
    modifies tree`root, tree.nodes`right, tree.nodes`left, tree.nodes`parent, tree.nodes`mark
    ensures tree.Holds(Plug(path', t')) && RedInHole(path', t') && t'.node == node'
    ensures Depth(path') < Depth(path)
    ensures Entries(Plug(path', t')) == Entries(Plug(path, t))
  {
    ghost var up, P := path.up.up, Fill(path, t);
    ghost var G := Fill(path.up, P);
    assert Plug(path, t) == Plug(path.up, P) == Plug(up, G);
    See(tree, up, G);
    See(tree, InLeft(up, gparent, path.up.key, path.up.mark, P), path.up.left);
    SeeAbove(tree, path, t);
    var uncle := gparent.left;
    if uncle != null && uncle.mark == RB_RED {
      Recolor(tree, uncle, parent, gparent, false, up, G);
      RecolorKeeps(path, t);
      SameEntries(up, G, Recolored(G));
      node', path', t' := gparent, up, Recolored(G);
    } else {
      var parent' := parent;
      node', path', t' := node, path, t;
      if parent.left == node {
        RotateRightAt(tree, parent, path.up, P);
        TurnRightKeeps(path, t);
        parent', node' := node, parent;
        SameEntries(path.up, P, RotatedRight(P));
        P := RotatedRight(P);
        path', t' := InRight(path.up, P.node, P.key, P.mark, P.left), P.right;
        G := Fill(path.up, P);
      }
      LiftRight(tree, parent', gparent, up, G);
      LiftRightKeeps(path', t');
      SameEntries(up, G, LiftedRight(G));
      ghost var L := LiftedRight(G);
      path' := InRight(up, L.node, L.key, L.mark, L.left);
    }
  }

  lemma {:induction false} InsertEnds(path: Path, t: Tree)
    requires RedInHole(path, t) && (path.Top? || path.mark != RB_RED)
    ensures RedBlack(Paint(Plug(path, t), RB_BLACK))
  {
    RedBlackPlug(path, t);
  }

  /** One round of the loop of `_rb_insert_balance`. */
  method InsertStep(tree: ThreadedTree, node: TreeNode, ghost path: Path, ghost t: Tree)
    returns (node': TreeNode, ghost path': Path, ghost t': Tree)
    requires tree.Holds(Plug(path, t)) && RedInHole(path, t) && t.node == node
    requires !path.Top? && path.mark == RB_RED
    modifies tree`root, tree.nodes`left, tree.nodes`right, tree.nodes`parent, tree.nodes`mark
    ensures tree.Holds(Plug(path', t')) && RedInHole(path', t') && t'.node == node'
    ensures Depth(path') < Depth(path)
    ensures Entries(Plug(path', t')) == Entries(Plug(path, t))
  {
    See(tree, path, t);
    SeeAbove(tree, path, t);
    SeeAbove(tree, path.up, Fill(path, t));
    var parent := node.parent;
    var gparent := parent.parent;
    if parent == gparent.left {
      node', path', t' := InsertStepLeft(tree, node, parent, gparent, path, t);
    } else {
      node', path', t' := InsertStepRight(tree, node, parent, gparent, path, t);
    }
  }

  method PaintRoot(tree: ThreadedTree, ghost t: Tree)
    requires t.Node? && tree.Holds(t)
    modifies tree.nodes`mark
    ensures tree.Holds(Paint(t, RB_BLACK))
  {
    assert Plug(Top, t) == t;
    PaintAt(tree, tree.root, RB_BLACK, Top, t);
  }

  /** What the loop condition reads. */
  lemma {:induction false} SeeMark(tree: ThreadedTree, path: Path, t: Tree)
    requires tree.Holds(Plug(path, t)) && t.Node?
    ensures t.node.parent == Above(path) && Plug(path, t).Node?
    ensures !path.Top? ==> path.node in tree.nodes && path.node.mark == path.mark
  {
    See(tree, path, t);
    RootPlug(path, t, t);
    if !path.Top? {
      SeeAbove(tree, path, t);
    }
  }

  /** `_rb_insert_balance`. */
  method InsertBalance(tree: ThreadedTree, node: TreeNode, ghost path: Path, ghost t: Tree)
    returns (ghost final: Tree)
    requires tree.Holds(Plug(path, t)) && RedInHole(path, t) && t.node == node
    modifies tree`root, tree.nodes`left, tree.nodes`right, tree.nodes`parent, tree.nodes`mark
    ensures tree.Holds(final) && RedBlack(final)
    ensures Entries(final) == Entries(Plug(path, t))
  {
    var node' := node;
    ghost var path', t' := path, t;
    SeeMark(tree, path', t');
    while node'.parent != null && node'.parent.mark == RB_RED
      invariant tree.Holds(Plug(path', t')) && RedInHole(path', t') && t'.node == node'
      invariant Entries(Plug(path', t')) == Entries(Plug(path, t))
      invariant node'.parent == Above(path') && Plug(path', t').Node?
      invariant !path'.Top? ==> path'.node.mark == path'.mark
      decreases Depth(path')
    {
      node', path', t' := InsertStep(tree, node', path', t');
      SeeMark(tree, path', t');
    }
    InsertEnds(path', t');
    final := Plug(path', t');
    PaintRoot(tree, final);
    final := Paint(final, RB_BLACK);
  }

  /** The invariant every public operation keeps. */
  ghost predicate Valid(tree: ThreadedTree)
    reads tree
    reads tree.nodes`left, tree.nodes`right, tree.nodes`parent, tree.nodes`key, tree.nodes`mark
    reads tree.nodes`prev, tree.nodes`next
  {
    tree.Linked() && RedBlack(tree.shape)
  }

  /** `rb_tree_find_integer`. */
  method FindInteger(tree: ThreadedTree, key: int) returns (node: TreeNode?)
    requires Valid(tree)
    ensures node == Lookup(Entries(tree.shape), key)
  {
    var cur, parent, isLeft, path := Seek(tree, key);
    node := cur;
  }

  lemma {:induction false} NewRedNode(path: Path, node: TreeNode, key: int)
    requires RedBlack(Plug(path, Leaf))
    ensures RedInHole(path, Node(Leaf, node, key, RB_RED, Leaf))
  {
    RedBlackPlug(path, Leaf);
  }

  /** Balancing moves tree links only, so the list stays what it was. */
  method InsertBalanceListed(tree: ThreadedTree, node: TreeNode, ghost path: Path, ghost t: Tree, ghost s: seq<Entry>)
    returns (ghost final: Tree)
    requires tree.Holds(Plug(path, t)) && RedInHole(path, t) && t.node == node
    requires Entries(Plug(path, t)) == s && Threads(tree.nodes, s, tree.head, tree.tail)
    modifies tree`root, tree.nodes`left, tree.nodes`right, tree.nodes`parent, tree.nodes`mark
    ensures tree.Holds(final) && RedBlack(final) && Entries(final) == s
    ensures Threads(tree.nodes, s, tree.head, tree.tail)
  {
    hide Entries, Plug, RedInHole, RedBlack, Sorted;
    final := InsertBalance(tree, node, path, t);
  }

  ghost method Settle(tree: ThreadedTree, t: Tree, s: seq<Entry>)
    requires tree.Holds(t) && RedBlack(t) && Entries(t) == s
    requires Threads(tree.nodes, s, tree.head, tree.tail) && tree.size == |s| && Sorted(s)
    modifies tree`shape
    ensures Valid(tree) && Entries(tree.shape) == s
  {
    tree.shape := t;
  }

  /** Hanging a red node and balancing, when the result is known to be the list `s`. */
  method LinkAndBalance(tree: ThreadedTree, node: TreeNode, parent: TreeNode?, isLeft: bool,
                        ghost path: Path, ghost t: Tree, ghost a: seq<Entry>, ghost b: seq<Entry>, ghost s: seq<Entry>)
    requires tree.Holds(Plug(path, Leaf)) && node !in tree.nodes
    requires parent == Above(path) && (path.InLeft? <==> isLeft)
    requires Threads(tree.nodes, a + b, tree.head, tree.tail) && DistinctNodes(a + b)
    requires parent == null ==> a + b == []
    requires parent != null ==> parent == if isLeft then FirstNode(b) else LastNode(a)
    requires t == Node(Leaf, node, node.key, RB_RED, Leaf) && RedInHole(path, t)
    requires s == Entries(Plug(path, t)) == a + [Entry(node, node.key)] + b
    requires Sorted(s) && |s| == tree.size + 1
    modifies tree, node`mark, node`parent, node`left, node`right, node`prev, node`next
    modifies tree.nodes`left, tree.nodes`right, tree.nodes`parent, tree.nodes`mark, tree.nodes`prev, tree.nodes`next
    ensures Valid(tree) && tree.nodes == old(tree.nodes) + {node} && Entries(tree.shape) == s
  {
    hide Entries, Plug, Threads, Sorted, DistinctNodes, FirstNode, LastNode, RedInHole, RedBlack;
    LinkNode(tree, node, parent, isLeft, RB_RED, path, a, b);
    ghost var final := InsertBalanceListed(tree, node, path, t, s);
    Settle(tree, final, s);
  }

  /** The part of the insert functions after the descent found an empty place. */
  method InsertNew(tree: ThreadedTree, node: TreeNode, parent: TreeNode?, isLeft: bool, ghost path: Path)
    requires Valid(tree) && node !in tree.nodes
    requires Plug(path, Leaf) == tree.shape && Brackets(path, node.key)
    requires parent == Above(path) && (path.InLeft? <==> isLeft)
    modifies tree, node`mark, node`parent, node`left, node`right, node`prev, node`next
    modifies tree.nodes`left, tree.nodes`right, tree.nodes`parent, tree.nodes`mark, tree.nodes`prev, tree.nodes`next
    ensures Valid(tree) && tree.nodes == old(tree.nodes) + {node}
    ensures Entries(tree.shape) == Inserted(old(Entries(tree.shape)), Entry(node, node.key))
  {
    ghost var e := Entry(node, node.key);
    HoleInList(path);
    InsertedAtHole(path, e, RB_RED);
    NewRedNode(path, node, node.key);
    LinkAndBalance(tree, node, parent, isLeft, path, Node(Leaf, node, node.key, RB_RED, Leaf),
                   Before(path), After(path), Inserted(Entries(tree.shape), e));
  }

  /** Allocating the node and putting it in. */
  method AddNode(tree: ThreadedTree, key: int, value: int, parent: TreeNode?, isLeft: bool, ghost path: Path)
    returns (node: TreeNode)
    requires Valid(tree)
    requires Plug(path, Leaf) == tree.shape && Brackets(path, key)
    requires parent == Above(path) && (path.InLeft? <==> isLeft)
    modifies tree
    modifies tree.nodes`left, tree.nodes`right, tree.nodes`parent, tree.nodes`mark, tree.nodes`prev, tree.nodes`next
    ensures Valid(tree) && fresh(node) && tree.nodes == old(tree.nodes) + {node}
    ensures node.key == key && node.value == value
    ensures Entries(tree.shape) == Inserted(old(Entries(tree.shape)), Entry(node, key))
  {
    node := new TreeNode(key, value);
    InsertNew(tree, node, parent, isLeft, path);
  }

  /** `rb_tree_insert_integer`: an existing node under the key only gets the new value. */
  method InsertInteger(tree: ThreadedTree, key: int, value: int) returns (node: TreeNode)
    requires Valid(tree)
    modifies tree
    modifies tree.nodes`left, tree.nodes`right, tree.nodes`parent, tree.nodes`mark, tree.nodes`prev, tree.nodes`next
    modifies tree.nodes`value
    ensures Valid(tree)
    ensures node.key == key && node.value == value
    ensures old(Lookup(Entries(tree.shape), key)) != null ==>
      && node == old(Lookup(Entries(tree.shape), key))
      && tree.nodes == old(tree.nodes) && Entries(tree.shape) == old(Entries(tree.shape))
    ensures old(Lookup(Entries(tree.shape), key)) == null ==>
      && fresh(node) && tree.nodes == old(tree.nodes) + {node}
      && Entries(tree.shape) == Inserted(old(Entries(tree.shape)), Entry(node, key))
    ensures forall n :: n in old(tree.nodes) && n != node ==> n.value == old(n.value)
  {
    var cur, parent, isLeft, path := Seek(tree, key);
    if cur != null {
      cur.value := value;
      node := cur;
    } else {
      node := AddNode(tree, key, value, parent, isLeft, path);
    }
  }

  /** `rb_tree_try_insert_integer`: an existing node under the key is left alone. */
  method TryInsertInteger(tree: ThreadedTree, key: int, value: int) returns (inserted: bool, node: TreeNode)
    requires Valid(tree)
    modifies tree
    modifies tree.nodes`left, tree.nodes`right, tree.nodes`parent, tree.nodes`mark, tree.nodes`prev, tree.nodes`next
    ensures Valid(tree)
    ensures inserted <==> old(Lookup(Entries(tree.shape), key)) == null
    ensures !inserted ==>
      && node == old(Lookup(Entries(tree.shape), key))
      && tree.nodes == old(tree.nodes) && Entries(tree.shape) == old(Entries(tree.shape))
    ensures inserted ==>
      && fresh(node) && node.key == key && node.value == value && tree.nodes == old(tree.nodes) + {node}
      && Entries(tree.shape) == Inserted(old(Entries(tree.shape)), Entry(node, key))
  {
    var cur, parent, isLeft, path := Seek(tree, key);
    if cur != null {
      return false, cur;
    }
    node := AddNode(tree, key, value, parent, isLeft, path);
    inserted := true;
  }
}
