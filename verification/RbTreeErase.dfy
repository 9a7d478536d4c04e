module RbTreeErase {
  import opened TreeHeap
  import opened ThreadedTrees
  import opened Splicing
  import opened RbShape
  import opened RbTrees
  import opened RbErase

  /** What the successor's move reads is there, and is all different nodes. */
  ghost predicate Movable(nodes: set<TreeNode>, gone: TreeNode, y: TreeNode)
    requires gone in nodes && y in nodes
    reads nodes
  {
    var l, r, q := gone.left, gone.right, gone.parent;
    && gone != y && l in nodes && r in nodes && y.parent in nodes
    && (y.right != null ==> y.right in nodes) && (q != null ==> q in nodes)
    && l != gone && l != y && l != r && l != y.right && l != y.parent
    && r != gone && r != y.right
    && y.right != y && y.right != gone && y.right != y.parent && y.parent != y
    && q != gone && q != y && q != y.parent && q != l && q != r && (q != null ==> q != y.right)
    && (y.parent == gone <==> r == y)
  }

  ghost function Fields(n: TreeNode): Cell
    reads n
  {
    Cell(n.left, n.right, n.parent, n.key, n.mark)
  }

  /** The pointers of `n` after the move of `y` to the place of `gone`, whose fields were `m` and `g`. */
  ghost function LeftAfter(n: TreeNode, left: TreeNode?, gone: TreeNode, y: TreeNode, g: Cell, m: Cell): TreeNode? {
    if n == y then g.left
    else if n == g.parent && left == gone then y
    else if n == m.parent then m.right else left
  }

  ghost function RightAfter(n: TreeNode, left: TreeNode?, right: TreeNode?, gone: TreeNode, y: TreeNode, g: Cell, m: Cell)
    : TreeNode?
  {
    if n == y then (if m.parent == gone then m.right else g.right)
    else if n == g.parent && left != gone then y else right
  }

  ghost function ParentAfter(n: TreeNode, parent: TreeNode?, gone: TreeNode, y: TreeNode, g: Cell, m: Cell): TreeNode? {
    if n == y then g.parent
    else if n == g.left then y
    else if m.parent == gone then parent
    else if n == g.right then y
    else if n == m.right then m.parent else parent
  }

  /** The successor takes the place of a node with two children, as in the corresponding branch of
      `rb_tree_erase`. */
  method MoveSuccessor(tree: ThreadedTree, gone: TreeNode, node: TreeNode)
    returns (child: TreeNode?, parent: TreeNode, color: int)
    requires gone in tree.nodes && node in tree.nodes && Movable(tree.nodes, gone, node)
    modifies tree`root, tree.nodes`left, tree.nodes`right, tree.nodes`parent, tree.nodes`mark
    ensures child == old(node.right) && color == old(node.mark)
    ensures parent == if old(node.parent) == gone then node else old(node.parent)
    ensures tree.root == if old(gone.parent) == null then node else old(tree.root)
    ensures forall n :: n in tree.nodes && n != gone ==>
      n.left == (
        if n == node then old(gone.left)
        else if n == old(gone.parent) && old(n.left) == gone then node
        else if n == old(node.parent) then old(node.right) else old(n.left))
    ensures forall n :: n in tree.nodes && n != gone ==>
      n.right == (
        if n == node then (if old(node.parent) == gone then old(node.right) else old(gone.right))
        else if n == old(gone.parent) && old(n.left) != gone then node else old(n.right))
    ensures forall n :: n in tree.nodes && n != gone ==>
      n.parent == (
        if n == node then old(gone.parent)
        else if n == old(gone.left) then node
        else if old(node.parent) == gone then old(n.parent)
        else if n == old(gone.right) then node
        else if n == old(node.right) then old(node.parent) else old(n.parent))
    ensures forall n :: n in tree.nodes ==> n.mark == if n == node then old(gone.mark) else old(n.mark)
  {
    if gone.parent != null {
      if gone.parent.left == gone {
        gone.parent.left := node;
      } else {
        gone.parent.right := node;
      }
    } else {
      tree.root := node;
    }
    child := node.right;
    parent := node.parent;
    color := node.mark;
    if parent == gone {
      parent := node;
    } else {
      if child != null {
        child.parent := parent;
      }
      parent.left := child;
      node.right := gone.right;
      gone.right.parent := node;
    }
    node.parent := gone.parent;
    node.mark := gone.mark;
    node.left := gone.left;
    gone.left.parent := node;
  }

  /** The fields of `n` after the move, from the fields before. */
  ghost predicate Moved(n: TreeNode, c: Cell, c': Cell, m: CellTable, gone: TreeNode, y: TreeNode)
    requires gone in m && y in m
  {
    && c'.left == LeftAfter(n, c.left, gone, y, m[gone], m[y])
    && c'.right == RightAfter(n, c.left, c.right, gone, y, m[gone], m[y])
    && c'.parent == ParentAfter(n, c.parent, gone, y, m[gone], m[y])
    && c'.mark == (if n == y then m[gone].mark else c.mark) && c'.key == c.key
  }

  ghost predicate Apart(m: CellTable, gone: TreeNode, y: TreeNode)
    requires gone in m && y in m
  {
    var l, r, q, c, p := m[gone].left, m[gone].right, m[gone].parent, m[y].right, m[y].parent;
    && gone != y && l in m && r in m && p in m && (c != null ==> c in m) && (q != null ==> q in m)
    && l != gone && l != y && l != r && l != c && l != p
    && r != gone && r != c
    && c != y && c != gone && c != p && p != y
    && q != gone && q != y && q != p && q != l && q != r && (q != null ==> q != c)
    && (p == gone <==> r == y)
    && m[y].left == null && (m[p].left == y || p == gone) && (c != null ==> m[c].parent == y)
  }

  lemma {:induction false} MovedCells(m: CellTable, m1: CellTable, m2: CellTable, gone: TreeNode, y: TreeNode)
    requires gone in m && y in m && Apart(m, gone, y)
    requires Spliced(m, m1, y, m[y].right, m[y].parent)
    requires Renamed(m1, m2, gone, y, m[y].key, m[gone].mark)
    ensures m2.Keys == m.Keys - {gone}
    ensures forall n :: n in m2 ==> Moved(n, m[n], m2[n], m, gone, y)
  {
    forall n | n in m2
      ensures Moved(n, m[n], m2[n], m, gone, y)
    {
      if n == y {
      } else if n == m[gone].left || n == m[gone].parent {
      } else if n == m[gone].right || n == m[y].right || n == m[y].parent {
      } else {
      }
    }
  }

  /** The move, as a step from one table to another. */
  method MoveFields(tree: ThreadedTree, gone: TreeNode, node: TreeNode)
    returns (child: TreeNode?, parent: TreeNode, color: int)
    requires gone in tree.nodes && node in tree.nodes && Movable(tree.nodes, gone, node)
    modifies tree`root, tree.nodes`left, tree.nodes`right, tree.nodes`parent, tree.nodes`mark
    ensures child == old(node.right) && color == old(node.mark)
    ensures parent == if old(node.parent) == gone then node else old(node.parent)
    ensures tree.root == if old(gone.parent) == null then node else old(tree.root)
    ensures var was, moved := old(Fields(gone)), old(Fields(node));
      && (forall n :: n in tree.nodes && n != gone ==> n.left == LeftAfter(n, old(n.left), gone, node, was, moved))
      && (forall n :: n in tree.nodes && n != gone ==>
            n.right == RightAfter(n, old(n.left), old(n.right), gone, node, was, moved))
      && (forall n :: n in tree.nodes && n != gone ==> n.parent == ParentAfter(n, old(n.parent), gone, node, was, moved))
    ensures forall n :: n in tree.nodes ==> n.mark == if n == node then old(gone.mark) else old(n.mark)
  {
    hide Movable;
    child, parent, color := MoveSuccessor(tree, gone, node);
  }

  method MoveCells(tree: ThreadedTree, gone: TreeNode, node: TreeNode, ghost m: CellTable, ghost m': CellTable)
    returns (child: TreeNode?, parent: TreeNode, color: int)
    requires Spells(tree.nodes, m) && gone in m && node in m && Apart(m, gone, node)
    requires m'.Keys == m.Keys - {gone}
    requires forall n :: n in m' ==> Moved(n, m[n], m'[n], m, gone, node)
    modifies tree`root, tree`nodes
    modifies tree.nodes`left, tree.nodes`right, tree.nodes`parent, tree.nodes`mark
    ensures child == m[node].right && color == m[node].mark
    ensures parent == if m[node].parent == gone then node else m[node].parent
    ensures tree.nodes == old(tree.nodes) - {gone}
    ensures tree.root == if m[gone].parent == null then node else old(tree.root)
    ensures Spells(tree.nodes, m')
  {
    ApartMovable(tree.nodes, m, gone, node);
    hide Apart, Movable, LeftAfter, RightAfter, ParentAfter;
    child, parent, color := MoveFields(tree, gone, node);
    tree.nodes := tree.nodes - {gone};
  }

  lemma ApartMovable(nodes: set<TreeNode>, m: CellTable, gone: TreeNode, y: TreeNode)
    requires Spells(nodes, m) && gone in m && y in m && Apart(m, gone, y)
    ensures Movable(nodes, gone, y)
    ensures m[gone].left in nodes && m[gone].right in nodes && m[y].parent in nodes
  {
  }

  lemma {:induction false} SuccessorApart(path: Path, t: Tree, spine: Path, s: Tree)
    requires HasSuccessor(t, spine, s) && Distinct(Plug(path, t))
    ensures var m := Table(Plug(path, t)); t.node in m && s.node in m && Apart(m, t.node, s.node)
  {
    SuccessorCells(path, t, spine, s);
    DistinctPlug(path, t);
    DistinctPlug(spine, s);
    PlugNodes(spine, s);
    RootPlug(spine, s, s);
  }

  /** The move turns the table of the one tree into that of the other. */
  lemma {:induction false} SuccessorTable(path: Path, t: Tree, spine: Path, s: Tree)
    requires HasSuccessor(t, spine, s) && Distinct(Plug(path, t))
    ensures var m, m' := Table(Plug(path, t)), Table(Plug(path, Succeeded(t, spine, s, t.mark)));
      && t.node in m && s.node in m
      && m'.Keys == m.Keys - {t.node}
      && forall n :: n in m' ==> Moved(n, m[n], m'[n], m, t.node, s.node)
    ensures Distinct(Plug(path, Succeeded(t, spine, s, t.mark)))
  {
    var a := InRight(path, t.node, t.key, t.mark, t.left);
    var hole := Append(spine, a);
    var t1 := t.(right := Plug(spine, s.right));
    PlugAppend(spine, a, s);
    PlugAppend(spine, a, s.right);
    AppendAbove(spine, a);
    SuccessorCells(path, t, spine, s);
    SuccessorApart(path, t, spine, s);
    SpliceTable(hole, s, s.right);
    RenameTable(path, t1, s.node, s.key, t.mark);
    MovedCells(Table(Plug(path, t)), Table(Plug(path, t1)), Table(Plug(path, Succeeded(t, spine, s, t.mark))), t.node, s.node);
  }

  // --- what is left to balance

  /** Without a node that has a child missing, a red-black tree is short by the node's own blackness. */
  lemma {:induction false} RemovedOne(path: Path, t: Tree, c: Tree)
    requires OnlyChild(t, c)
    requires Balanced(t) && BalancedAround(path, BlackHeight(t)) && NoRedRed(t) && NoRedRedAround(path)
    ensures t.mark != RB_RED ==> ShortInHole(path, c)
    ensures t.mark == RB_RED ==> RedBlack(Plug(path, c))
  {
    if t.mark == RB_RED {
      assert c.Leaf?;
      RedBlackPlug(path, c);
    }
  }

  lemma {:induction false} RenamedAround(spine: Path, a: Path, b: Path, h: int)
    requires !a.Top? && !b.Top? && a.up == b.up && a.mark == b.mark && Sibling(a) == Sibling(b)
    ensures BalancedAround(Append(spine, a), h) == BalancedAround(Append(spine, b), h)
    ensures NoRedRedAround(Append(spine, a)) == NoRedRedAround(Append(spine, b))
    ensures NeedsBlack(Append(spine, a)) == NeedsBlack(Append(spine, b))
  {
    if !spine.Top? {
      RenamedAround(spine.up, a, b, h + Blackness(spine.mark));
    }
  }

  lemma {:induction false} RemovedSuccessor(path: Path, t: Tree, spine: Path, s: Tree)
    requires HasSuccessor(t, spine, s) && RedBlack(Plug(path, t))
    ensures var hole := SuccessorHole(path, t.(node := s.node, key := s.key), spine);
      && Plug(hole, s.right) == Plug(path, Succeeded(t, spine, s, t.mark))
      && (s.mark != RB_RED ==> ShortInHole(hole, s.right))
      && (s.mark == RB_RED ==> RedBlack(Plug(hole, s.right)))
  {
    var a := InRight(path, t.node, t.key, t.mark, t.left);
    var b := InRight(path, s.node, s.key, t.mark, t.left);
    PlugAppend(spine, a, s);
    PlugAppend(spine, b, s.right);
    RedBlackPlug(Append(spine, a), s);
    RenamedAround(spine, a, b, BlackHeight(s));
    RemovedOne(Append(spine, b), s, s.right);
  }

  // --- erase

  /** What taking `node` out leaves: the hole, the tree `c` in it, and what to do about colours. */
  ghost predicate Detached(tree: ThreadedTree, node: TreeNode, key: int, s: seq<Entry>, child: TreeNode?, parent: TreeNode?,
                           color: int, a: seq<Entry>, b: seq<Entry>, hole: Path, c: Tree)
    reads tree`root, tree`nodes
    reads tree.nodes`left, tree.nodes`right, tree.nodes`parent, tree.nodes`key, tree.nodes`mark
  {
    && tree.Holds(Plug(hole, c)) && child == Root(c) && parent == Above(hole)
    && IsColour(color)
    && (color == RB_BLACK ==> ShortInHole(hole, c))
    && (color != RB_BLACK ==> RedBlack(Plug(hole, c)))
    && s == a + [Entry(node, key)] + b && Entries(Plug(hole, c)) == a + b
  }

  method SpliceCells(tree: ThreadedTree, node: TreeNode, child: TreeNode?, parent: TreeNode?,
                     ghost m: CellTable, ghost m': CellTable)
    requires Spells(tree.nodes, m) && Spliced(m, m', node, child, parent) && parent != node && child != node
    modifies tree`root, tree`nodes, tree.nodes`left, tree.nodes`right, tree.nodes`parent
    ensures tree.nodes == old(tree.nodes) - {node} && Spells(tree.nodes, m')
    ensures tree.root == if parent == null then child else old(tree.root)
  {
    if child != null {
      child.parent := parent;
    }
    if parent != null {
      if parent.left == node {
        parent.left := child;
      } else {
        parent.right := child;
      }
    } else {
      tree.root := child;
    }
    tree.nodes := tree.nodes - {node};
  }

  /** The branches of `rb_tree_erase` for a node with a child missing. */
  method DetachSimple(tree: ThreadedTree, node: TreeNode, child: TreeNode?, ghost path: Path, ghost t: Tree, ghost c: Tree)
    returns (parent: TreeNode?, color: int, ghost a: seq<Entry>, ghost b: seq<Entry>)
    requires OnlyChild(t, c) && t.node == node && Root(c) == child
    requires tree.Holds(Plug(path, t)) && RedBlack(Plug(path, t))
    modifies tree`root, tree`nodes, tree.nodes`left, tree.nodes`right, tree.nodes`parent
    ensures tree.nodes == old(tree.nodes) - {node}
    ensures Detached(tree, node, t.key, Entries(Plug(path, t)), child, parent, color, a, b, path, c)
  {
    See(tree, path, t);
    parent := node.parent;
    color := node.mark;
    a, b := Before(path) + Entries(t.left), Entries(t.right) + After(path);
    SplicedEntries(path, t, c);
    RedBlackPlug(path, t);
    RemovedOne(path, t, c);
    SpliceTable(path, t, c);
    RootPlug(path, t, c);
    SpliceCells(tree, node, child, parent, Table(Plug(path, t)), Table(Plug(path, c)));
  }

  /** The descent to the leftmost node of the right subtree. */
  method FindSuccessor(tree: ThreadedTree, gone: TreeNode, ghost path: Path, ghost t: Tree)
    returns (node: TreeNode, ghost spine: Path, ghost s: Tree)
    requires tree.Holds(Plug(path, t)) && t.Node? && t.left.Node? && t.right.Node? && t.node == gone
    ensures HasSuccessor(t, spine, s) && s.node == node
  {
    See(tree, path, t);
    ghost var a := InRight(path, t.node, t.key, t.mark, t.left);
    node, spine, s := gone.right, Top, t.right;
    See(tree, a, s);
    var left := node.left;
    while left != null
      invariant tree.Holds(Plug(path, t)) && s.Node? && s.node == node && left == Root(s.left)
      invariant t.right == Plug(spine, s) && LeftSpine(spine)
      decreases s
    {
      node := left;
      spine, s := InLeft(spine, s.node, s.key, s.mark, s.right), s.left;
      PlugAppend(spine, a, s);
      See(tree, Append(spine, a), s);
      left := node.left;
    }
  }

  /** The branch of `rb_tree_erase` for a node with two children. */
  method DetachInner(tree: ThreadedTree, gone: TreeNode, ghost path: Path, ghost t: Tree)
    returns (child: TreeNode?, parent: TreeNode, color: int, ghost a: seq<Entry>, ghost b: seq<Entry>, ghost hole: Path, ghost c: Tree)
    requires tree.Holds(Plug(path, t)) && RedBlack(Plug(path, t))
    requires t.Node? && t.left.Node? && t.right.Node? && t.node == gone
    modifies tree`root, tree`nodes, tree.nodes`left, tree.nodes`right, tree.nodes`parent, tree.nodes`mark
    ensures tree.nodes == old(tree.nodes) - {gone}
    ensures Detached(tree, gone, t.key, Entries(Plug(path, t)), child, parent, color, a, b, hole, c)
  {
    var node, spine, s := FindSuccessor(tree, gone, path, t);
    a, b := Before(path) + Entries(t.left), Entries(t.right) + After(path);
    hole, c := SuccessorHole(path, t.(node := s.node, key := s.key), spine), s.right;
    SucceededEntries(path, t, spine, s, t.mark);
    RemovedSuccessor(path, t, spine, s);
    SuccessorColour(path, t, spine, s);
    SuccessorCells(path, t, spine, s);
    SuccessorApart(path, t, spine, s);
    SuccessorTable(path, t, spine, s);
    AppendAbove(spine, InRight(path, s.node, s.key, t.mark, t.left));
    RootPlug(path, t, Succeeded(t, spine, s, t.mark));
    child, parent, color := MoveCells(tree, gone, node, Table(Plug(path, t)), Table(Plug(path, Succeeded(t, spine, s, t.mark))));
  }

  lemma {:induction false} SuccessorColour(path: Path, t: Tree, spine: Path, s: Tree)
    requires HasSuccessor(t, spine, s) && RedBlack(Plug(path, t))
    ensures IsColour(s.mark)
  {
    var a := InRight(path, t.node, t.key, t.mark, t.left);
    PlugAppend(spine, a, s);
    RedBlackPlug(Append(spine, a), s);
  }

  method EraseBalanceListed(tree: ThreadedTree, node: TreeNode?, parent: TreeNode?, ghost path: Path, ghost t: Tree,
                            ghost nodes: set<TreeNode>, ghost s: seq<Entry>)
    returns (ghost final: Tree)
    requires tree.Holds(Plug(path, t)) && ShortInHole(path, t)
    requires Root(t) == node && Above(path) == parent
    requires Threads(nodes, s, tree.head, tree.tail)
    modifies tree`root, tree.nodes`left, tree.nodes`right, tree.nodes`parent, tree.nodes`mark
    ensures tree.Holds(final) && RedBlack(final) && Entries(final) == Entries(Plug(path, t))
    ensures Threads(nodes, s, tree.head, tree.tail)
  {
    final := EraseBalance(tree, node, parent, path, t);
  }

  method UnthreadAndSettle(tree: ThreadedTree, node: TreeNode, ghost key: int, ghost a: seq<Entry>, ghost b: seq<Entry>,
                           ghost final: Tree, ghost nodes: set<TreeNode>)
    requires tree.Holds(final) && RedBlack(final) && Entries(final) == a + b && Sorted(a + b)
    requires Threads(nodes, a + [Entry(node, key)] + b, tree.head, tree.tail) && DistinctNodes(a + [Entry(node, key)] + b)
    requires tree.nodes == nodes - {node} && tree.size == |a| + 1 + |b|
    modifies tree`head, tree`tail, tree`size, tree`shape, nodes`prev, nodes`next
    ensures Valid(tree) && tree.nodes == nodes - {node} && Entries(tree.shape) == a + b
  {
    Unthread(tree, node, a, key, b, nodes);
    Settle(tree, final, a + b);
  }

  /** The end of `rb_tree_erase`. */
  method Rebalance(tree: ThreadedTree, node: TreeNode, child: TreeNode?, parent: TreeNode?, color: int, ghost key: int,
                   ghost s: seq<Entry>, ghost a: seq<Entry>, ghost b: seq<Entry>, ghost hole: Path, ghost c: Tree,
                   ghost nodes: set<TreeNode>)
    requires Detached(tree, node, key, s, child, parent, color, a, b, hole, c)
    requires Threads(nodes, s, tree.head, tree.tail) && DistinctNodes(s) && Sorted(s) && tree.size == |s|
    requires tree.nodes == nodes - {node}
    modifies tree, nodes`left, nodes`right, nodes`parent, nodes`mark, nodes`prev, nodes`next
    ensures Valid(tree) && tree.nodes == nodes - {node} && Entries(tree.shape) == a + b
  {
    SortedAround(s, a, Entry(node, key), b);
    ghost var final := Plug(hole, c);
    if color == RB_BLACK {
      final := EraseBalanceListed(tree, child, parent, hole, c, nodes, s);
    }
    UnthreadAndSettle(tree, node, key, a, b, final, nodes);
  }

  /** The case distinction of `rb_tree_erase`. */
  method Detach(tree: ThreadedTree, node: TreeNode, ghost path: Path, ghost t: Tree)
    returns (child: TreeNode?, parent: TreeNode?, color: int, ghost a: seq<Entry>, ghost b: seq<Entry>, ghost hole: Path, ghost c: Tree)
    requires tree.Holds(Plug(path, t)) && RedBlack(Plug(path, t)) && t.Node? && t.node == node
    modifies tree`root, tree`nodes, tree.nodes`left, tree.nodes`right, tree.nodes`parent, tree.nodes`mark
    ensures tree.nodes == old(tree.nodes) - {node}
    ensures Detached(tree, node, t.key, Entries(Plug(path, t)), child, parent, color, a, b, hole, c)
  {
    See(tree, path, t);
    if node.left == null {
      hole, c := path, t.right;
      child := node.right;
      parent, color, a, b := DetachSimple(tree, node, child, path, t, c);
    } else if node.right == null {
      hole, c := path, t.left;
      child := node.left;
      parent, color, a, b := DetachSimple(tree, node, child, path, t, c);
    } else {
      child, parent, color, a, b, hole, c := DetachInner(tree, node, path, t);
    }
  }

  /** `rb_tree_erase`; a null node is ignored. */
  method Erase(tree: ThreadedTree, node: TreeNode?)
    requires Valid(tree) && (node != null ==> node in tree.nodes)
    modifies tree
    modifies tree.nodes`left, tree.nodes`right, tree.nodes`parent, tree.nodes`mark, tree.nodes`prev, tree.nodes`next
    ensures Valid(tree)
    ensures node != null ==>
      && tree.nodes == old(tree.nodes) - {node}
      && Entries(tree.shape) == Without(old(Entries(tree.shape)), node)
    ensures node == null ==> tree.nodes == old(tree.nodes) && tree.shape == old(tree.shape)
  {
    if node != null {
      ghost var path, t := Focus(tree.shape, node);
      EntriesDistinct(tree.shape);
      ghost var s, nodes := Entries(tree.shape), tree.nodes;
      var child, parent, color, a, b, hole, c := Detach(tree, node, path, t);
      WithoutBetween(a, Entry(node, t.key), b);
      Rebalance(tree, node, child, parent, color, t.key, s, a, b, hole, c, nodes);
    }
  }
}
