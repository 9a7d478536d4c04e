/** `avl_tree_erase`: the successor is found through the list, spliced out of the tree, and put in
    the place of the erased node, whose other neighbours keep their nodes, keys and values. */
module AvlErase {
  import opened TreeHeap
  import opened ThreadedTrees
  import opened Splicing
  import opened AvlShape
  import opened AvlTrees

  // --- the list finds the successor

  lemma {:induction false} Leftmost(t: Tree) returns (spine: Path, s: Tree)
    requires t.Node?
    ensures LeftSpine(spine) && s.Node? && s.left.Leaf? && Plug(spine, s) == t
  {
    spine, s := Top, t;
    while s.left.Node?
      invariant LeftSpine(spine) && s.Node? && Plug(spine, s) == t
      decreases s
    {
      spine, s := InLeft(spine, s.node, s.key, s.mark, s.right), s.left;
    }
  }

  /** The list neighbour after a node with a right subtree is the leftmost node of that subtree. */
  lemma {:induction false} NextIsSuccessor(tree: ThreadedTree, nodes: set<TreeNode>, path: Path, t: Tree, spine: Path, s: Tree)
    requires HasSuccessor(t, spine, s)
    requires Threads(nodes, Entries(Plug(path, t)), tree.head, tree.tail)
    ensures t.node.next == s.node
  {
    SucceededEntries(path, t, spine, s, 0);
    SpineEntries(spine, s);
    var a, e, b := Before(path) + Entries(t.left), Entry(t.node, t.key), Entries(t.right) + After(path);
    assert b[0] == Entry(s.node, s.key);
    ThreadsSplit(nodes, a + [e], b, tree.head, tree.tail);
    assert (a + [e])[|a|] == e;
  }

  // --- splicing out

  /** The pointer assignments of `_avl_splice_out`. */
  method BridgeOver(tree: ThreadedTree, node: TreeNode)
    requires node in tree.nodes && node.parent != node
    requires node.parent != null ==> node.parent in tree.nodes
    requires var child := if node.right != null then node.right else node.left;
      child != node && (child != null ==> child in tree.nodes)
    modifies tree`root, tree.nodes`left, tree.nodes`right, tree.nodes`parent
    ensures var child := if old(node.right) != null then old(node.right) else old(node.left);
      && tree.root == (if old(node.parent) != null then old(tree.root) else child)
      && (forall n :: n in tree.nodes ==>
            n.left == if n == old(node.parent) && old(n.right) != node then child else old(n.left))
      && (forall n :: n in tree.nodes ==>
            n.right == if n == old(node.parent) && old(n.right) == node then child else old(n.right))
      && (forall n :: n in tree.nodes ==> n.parent == if n == child then old(node.parent) else old(n.parent))
  {
    var parent := node.parent;
    var child := if node.right != null then node.right else node.left;
    if child != null {
      child.parent := parent;
    }
    if parent != null {
      if node == parent.right {
        parent.right := child;
      } else {
        parent.left := child;
      }
    } else {
      tree.root := child;
    }
  }

  /** `_avl_splice_out`. */
  method SpliceOut(tree: ThreadedTree, node: TreeNode, ghost m: CellTable, ghost m': CellTable)
    requires Spells(tree.nodes, m) && node in m && (m[node].left == null || m[node].right == null)
    requires Spliced(m, m', node, if m[node].right != null then m[node].right else m[node].left, m[node].parent)
    requires m[node].parent != node && m[node].left != node && m[node].right != node
    requires m[node].parent != null ==>
      var q := m[node].parent; m[q].left == node <==> m[q].right != node
    modifies tree`root, tree`nodes, tree.nodes`left, tree.nodes`right, tree.nodes`parent
    ensures tree.nodes == old(tree.nodes) - {node} && Spells(tree.nodes, m')
    ensures tree.root == if m[node].parent != null then old(tree.root)
                         else if m[node].right != null then m[node].right else m[node].left
    ensures forall n :: n in old(tree.nodes) && n == node ==> n.left == old(n.left) && n.right == old(n.right) && n.parent == old(n.parent)
  {
    BridgeOver(tree, node);
    tree.nodes := tree.nodes - {node};
  }

  method SpliceOutAt(tree: ThreadedTree, node: TreeNode, ghost path: Path, ghost t: Tree, ghost c: Tree)
    requires tree.Holds(Plug(path, t)) && OnlyChild(t, c) && t.node == node
    modifies tree`root, tree`nodes, tree.nodes`left, tree.nodes`right, tree.nodes`parent
    ensures tree.nodes == old(tree.nodes) - {node}
    ensures tree.Holds(Plug(path, c))
  {
    SpliceTable(path, t, c);
    RootPlug(path, t, c);
    HoleCell(path, t);
    DistinctPlug(path, t);
    OneSide(path, t);
    SpliceOut(tree, node, Table(Plug(path, t)), Table(Plug(path, c)));
  }

  lemma {:induction false} OneSide(path: Path, t: Tree)
    requires Distinct(Plug(path, t)) && t.Node?
    ensures !path.Top? ==> path.node in Table(Plug(path, t))
    ensures !path.Top? ==>
      (Table(Plug(path, t))[path.node].left == t.node <==> Table(Plug(path, t))[path.node].right != t.node)
  {
    if !path.Top? {
      HoleCell(path.up, Fill(path, t));
      DistinctPlug(path, t);
    }
  }

  // --- taking the place

  /** The statements that put the successor, by then out of the tree, in the place of `node`. */
  method TakePlace(tree: ThreadedTree, node: TreeNode, successor: TreeNode)
    requires node in tree.nodes && successor !in tree.nodes
    requires node.left != null ==> node.left in tree.nodes
    requires node.right != null ==> node.right in tree.nodes
    requires node.parent != null ==> node.parent in tree.nodes && node.parent != node
    modifies tree`root, tree`nodes, successor`left, successor`right, successor`parent
    modifies tree.nodes`left, tree.nodes`right, tree.nodes`parent
    ensures tree.nodes == old(tree.nodes) - {node} + {successor}
    ensures tree.root == if old(node.parent) == null then successor else old(tree.root)
    ensures forall n :: n in tree.nodes ==>
      n.left == (
        if n == successor then old(node.left)
        else if n == old(node.parent) && old(n.right) != node then successor else old(n.left))
    ensures forall n :: n in tree.nodes ==>
      n.right == (
        if n == successor then old(node.right)
        else if n == old(node.parent) && old(n.right) == node then successor else old(n.right))
    ensures forall n :: n in tree.nodes ==>
      n.parent == (
        if n == successor then old(node.parent)
        else if n == old(node.left) || n == old(node.right) then successor else old(n.parent))
  {
    var parent := node.parent;
    successor.parent := parent;
    successor.left := node.left;
    successor.right := node.right;
    if successor.left != null {
      successor.left.parent := successor;
    }
    if successor.right != null {
      successor.right.parent := successor;
    }
    if parent != null {
      if node == parent.right {
        parent.right := successor;
      } else {
        parent.left := successor;
      }
    } else {
      tree.root := successor;
    }
    tree.nodes := tree.nodes - {node} + {successor};
  }

  method TakePlaceCells(tree: ThreadedTree, node: TreeNode, successor: TreeNode, ghost m: CellTable, ghost m': CellTable)
    requires Spells(tree.nodes, m) && Renamed(m, m', node, successor, successor.key, successor.mark)
    requires m[node].parent != null ==>
      var q := m[node].parent; m[q].left == node <==> m[q].right != node
    modifies tree`root, tree`nodes, successor`left, successor`right, successor`parent
    modifies tree.nodes`left, tree.nodes`right, tree.nodes`parent
    ensures tree.nodes == old(tree.nodes) - {node} + {successor} && Spells(tree.nodes, m')
    ensures tree.root == if m[node].parent == null then successor else old(tree.root)
  {
    TakePlace(tree, node, successor);
  }

  method TakePlaceAt(tree: ThreadedTree, node: TreeNode, successor: TreeNode, ghost path: Path, ghost t: Tree, ghost t': Tree)
    requires tree.Holds(Plug(path, t)) && t.Node? && t.node == node && successor !in tree.nodes
    requires t' == t.(node := successor, key := successor.key, mark := successor.mark)
    modifies tree`root, tree`nodes, successor`left, successor`right, successor`parent
    modifies tree.nodes`left, tree.nodes`right, tree.nodes`parent
    ensures tree.nodes == old(tree.nodes) - {node} + {successor}
    ensures tree.Holds(Plug(path, t'))
  {
    PlugNodes(path, t);
    RenameTable(path, t, successor, successor.key, successor.mark);
    RootPlug(path, t, t');
    HoleCell(path, t);
    OneSide(path, t);
    TakePlaceCells(tree, node, successor, Table(Plug(path, t)), Table(Plug(path, t')));
  }

  // --- where the climb starts

  lemma {:induction false} RenamedBalance(spine: Path, a: Path, b: Path, h: int)
    requires !a.Top? && !b.Top? && a.up == b.up && Sibling(a) == Sibling(b)
    ensures BalancedFor(Append(spine, a), h) == BalancedFor(Append(spine, b), h)
  {
    hide Height, Near;
    if !spine.Top? {
      BalanceOfAppended(spine, a, h);
      BalanceOfAppended(spine, b, h);
      RenamedBalance(spine.up, a, b, 1 + Max(h, Height(Sibling(spine))));
    }
  }

  lemma BalanceOfAppended(spine: Path, a: Path, h: int)
    requires !spine.Top?
    ensures BalancedFor(Append(spine, a), h) ==
      (Avl(Sibling(spine)) && Near(h, Height(Sibling(spine)), 1) &&
       BalancedFor(Append(spine.up, a), 1 + Max(h, Height(Sibling(spine)))))
  {
  }

  /** The walk that starts above a hole whose contents lost one level. */
  ghost function ClimbPath(hole: Path): Path {
    if hole.Top? then hole else hole.up
  }

  ghost function ClimbTree(hole: Path, c: Tree): Tree {
    if hole.Top? then c else Fill(hole, c)
  }

  ghost function ClimbHeight(hole: Path, h: int): int {
    if hole.Top? then h else 1 + Max(h, Height(Sibling(hole)))
  }

  lemma {:induction false} ClimbStart(hole: Path, t: Tree, c: Tree)
    requires OnlyChild(t, c) && Avl(t) && BalancedFor(hole, Height(t))
    ensures OnClimb(Above(hole), ClimbPath(hole), ClimbTree(hole, c), ClimbHeight(hole, Height(t)))
    ensures Plug(ClimbPath(hole), ClimbTree(hole, c)) == Plug(hole, c)
  {
    assert Avl(c) && Near(Height(c), Height(t), 1);
    if !hole.Top? {
      ClimbOn(hole, c, Height(t));
    }
  }

  /** What erasing has to leave for the list and the final settlement. */
  ghost predicate Erased(tree: ThreadedTree, final: Tree, node: TreeNode, key: int, s: seq<Entry>, a: seq<Entry>, b: seq<Entry>)
    reads tree`root, tree`nodes
    reads tree.nodes`left, tree.nodes`right, tree.nodes`parent, tree.nodes`key, tree.nodes`mark
  {
    tree.Holds(final) && Avl(final) && s == a + [Entry(node, key)] + b && Entries(final) == a + b
  }

  /** The branch for a node with a child missing. */
  method EraseSimple(tree: ThreadedTree, node: TreeNode, ghost path: Path, ghost t: Tree, ghost c: Tree)
    returns (ghost final: Tree, ghost a: seq<Entry>, ghost b: seq<Entry>)
    requires tree.Holds(Plug(path, t)) && Avl(Plug(path, t)) && OnlyChild(t, c) && t.node == node
    modifies tree`root, tree`nodes, tree.nodes`left, tree.nodes`right, tree.nodes`parent, tree.nodes`mark
    ensures tree.nodes == old(tree.nodes) - {node}
    ensures Erased(tree, final, node, t.key, Entries(Plug(path, t)), a, b)
  {
    See(tree, path, t);
    var parent := node.parent;
    a, b := Before(path) + Entries(t.left), Entries(t.right) + After(path);
    SplicedEntries(path, t, c);
    AvlPlug(path, t);
    ClimbStart(path, t, c);
    SpliceOutAt(tree, node, path, t, c);
    final := Balance(tree, parent, ClimbPath(path), ClimbTree(path, c), ClimbHeight(path, Height(t)));
  }

  lemma {:induction false} InnerClimb(path: Path, t: Tree, spine: Path, s: Tree)
    requires HasSuccessor(t, spine, s) && Avl(Plug(path, t))
    ensures var hole := SuccessorHole(path, t.(node := s.node, key := s.key, mark := s.mark), spine);
      && Above(hole) == (if spine.Top? then s.node else spine.node)
      && OnClimb(Above(hole), ClimbPath(hole), ClimbTree(hole, s.right), ClimbHeight(hole, Height(s)))
      && Plug(ClimbPath(hole), ClimbTree(hole, s.right)) == Plug(path, Succeeded(t, spine, s, s.mark))
  {
    var a := InRight(path, t.node, t.key, t.mark, t.left);
    var b := InRight(path, s.node, s.key, s.mark, t.left);
    PlugAppend(spine, a, s);
    PlugAppend(spine, b, s.right);
    AvlPlug(Append(spine, a), s);
    RenamedBalance(spine, a, b, Height(s));
    ClimbStart(Append(spine, b), s, s.right);
    AppendAbove(spine, b);
  }

  lemma {:induction false} MoveTrees(path: Path, t: Tree, spine: Path, s: Tree)
    requires HasSuccessor(t, spine, s) && Distinct(Plug(path, t))
    ensures Plug(SuccessorHole(path, t, spine), s) == Plug(path, t)
    ensures Plug(SuccessorHole(path, t, spine), s.right) == Plug(path, t.(right := Plug(spine, s.right)))
    ensures t.node != s.node && OnlyChild(s, s.right)
  {
    var a := InRight(path, t.node, t.key, t.mark, t.left);
    PlugAppend(spine, a, s);
    PlugAppend(spine, a, s.right);
    DistinctPlug(path, t);
    PlugNodes(spine, s);
  }

  /** The first half of the branch for a node with two children: the successor leaves its place and
      takes that of the node. */
  method MoveSuccessor(tree: ThreadedTree, node: TreeNode, successor: TreeNode, ghost path: Path, ghost t: Tree,
                       ghost hole: Path, ghost s: Tree, ghost t1: Tree, ghost t2: Tree)
    requires tree.Holds(Plug(path, t)) && t.Node? && t.node == node && node != successor
    requires s.Node? && Plug(hole, s) == Plug(path, t) && OnlyChild(s, s.right) && s.node == successor
    requires s.key == successor.key && s.mark == successor.mark && successor in tree.nodes
    requires Plug(hole, s.right) == Plug(path, t1) && t1.Node? && t1.node == node
    requires t2 == t1.(node := s.node, key := s.key, mark := s.mark)
    modifies tree`root, tree`nodes, tree.nodes`left, tree.nodes`right, tree.nodes`parent
    ensures tree.nodes == old(tree.nodes) - {node}
    ensures tree.Holds(Plug(path, t2))
  {
    SpliceOutAt(tree, successor, hole, s, s.right);
    TakePlaceAt(tree, node, successor, path, t1, t2);
  }

  /** The branch for a node with two children. */
  method EraseInner(tree: ThreadedTree, node: TreeNode, ghost path: Path, ghost t: Tree, ghost nodes: set<TreeNode>)
    returns (ghost final: Tree, ghost a: seq<Entry>, ghost b: seq<Entry>)
    requires tree.Holds(Plug(path, t)) && Avl(Plug(path, t)) && t.Node? && t.node == node
    requires t.left.Node? && t.right.Node?
    requires Threads(nodes, Entries(Plug(path, t)), tree.head, tree.tail)
    modifies tree`root, tree`nodes, tree.nodes`left, tree.nodes`right, tree.nodes`parent, tree.nodes`mark
    ensures tree.nodes == old(tree.nodes) - {node}
    ensures Erased(tree, final, node, t.key, Entries(Plug(path, t)), a, b)
  {
    ghost var spine, s := Leftmost(t.right);
    NextIsSuccessor(tree, nodes, path, t, spine, s);
    SuccessorCells(path, t, spine, s);
    See(tree, path, t);
    var successor := node.next;
    var successorParent := successor.parent;
    a, b := Before(path) + Entries(t.left), Entries(t.right) + After(path);
    SucceededEntries(path, t, spine, s, s.mark);
    InnerClimb(path, t, spine, s);
    SpineNode(spine, s, t, path);
    MoveTrees(path, t, spine, s);
    ghost var t1 := t.(right := Plug(spine, s.right));
    See(tree, SuccessorHole(path, t, spine), s);
    MoveSuccessor(tree, node, successor, path, t, SuccessorHole(path, t, spine), s, t1, Succeeded(t, spine, s, s.mark));
    ghost var hole := SuccessorHole(path, t.(node := s.node, key := s.key, mark := s.mark), spine);
    final := Balance(tree, if node == successorParent then successor else successorParent,
                     ClimbPath(hole), ClimbTree(hole, s.right), ClimbHeight(hole, Height(s)));
  }

  lemma {:induction false} SpineNode(spine: Path, s: Tree, t: Tree, path: Path)
    requires HasSuccessor(t, spine, s) && Distinct(Plug(path, t))
    ensures !spine.Top? ==> spine.node != t.node
  {
    DistinctPlug(path, t);
    PlugNodes(spine, s);
  }

  /** The case distinction of `avl_tree_erase`; the list is not touched yet. */
  method EraseFromTree(tree: ThreadedTree, node: TreeNode, ghost path: Path, ghost t: Tree, ghost s: seq<Entry>, ghost nodes: set<TreeNode>)
    returns (ghost final: Tree, ghost a: seq<Entry>, ghost b: seq<Entry>)
    requires tree.Holds(Plug(path, t)) && Avl(Plug(path, t)) && t.Node? && t.node == node && Entries(Plug(path, t)) == s
    requires Threads(nodes, s, tree.head, tree.tail)
    modifies tree`root, tree`nodes, tree.nodes`left, tree.nodes`right, tree.nodes`parent, tree.nodes`mark
    ensures tree.nodes == old(tree.nodes) - {node}
    ensures Erased(tree, final, node, t.key, s, a, b)
    ensures Threads(nodes, s, tree.head, tree.tail)
  {
    See(tree, path, t);
    if node.left == null || node.right == null {
      final, a, b := EraseSimple(tree, node, path, t, if t.left.Leaf? then t.right else t.left);
    } else {
      final, a, b := EraseInner(tree, node, path, t, nodes);
    }
  }

  method UnthreadAndSettle(tree: ThreadedTree, node: TreeNode, ghost key: int, ghost a: seq<Entry>, ghost b: seq<Entry>,
                           ghost final: Tree, ghost nodes: set<TreeNode>)
    requires tree.Holds(final) && Avl(final) && Entries(final) == a + b && Sorted(a + b)
    requires Threads(nodes, a + [Entry(node, key)] + b, tree.head, tree.tail) && DistinctNodes(a + [Entry(node, key)] + b)
    requires tree.nodes == nodes - {node} && tree.size == |a| + 1 + |b|
    modifies tree`head, tree`tail, tree`size, tree`shape, nodes`prev, nodes`next
    ensures Valid(tree) && tree.nodes == nodes - {node} && Entries(tree.shape) == a + b
  {
    Unthread(tree, node, a, key, b, nodes);
    Settle(tree, final, a + b);
  }

  /** `avl_tree_erase`; a null node is ignored. */
  method Erase(tree: ThreadedTree, node: TreeNode?)
    requires Valid(tree) && (node != null ==> node in tree.nodes)
    modifies tree
    modifies tree.nodes`left, tree.nodes`right, tree.nodes`parent, tree.nodes`mark, tree.nodes`prev, tree.nodes`next
    ensures Valid(tree)
    ensures node != null ==>
      && tree.nodes == old(tree.nodes) - {node}
      && Entries(tree.shape) == Without(old(Entries(tree.shape)), node)
    ensures node == null ==> tree.nodes == old(tree.nodes) && tree.shape == old(tree.shape)
  {
    if node != null {
      ghost var path, t := Focus(tree.shape, node);
      EntriesDistinct(tree.shape);
      ghost var s, nodes := Entries(tree.shape), tree.nodes;
      ghost var final, a, b := EraseFromTree(tree, node, path, t, s, nodes);
      WithoutBetween(a, Entry(node, t.key), b);
      SortedAround(s, a, Entry(node, t.key), b);
      UnthreadAndSettle(tree, node, t.key, a, b, final, nodes);
    }
  }
}
