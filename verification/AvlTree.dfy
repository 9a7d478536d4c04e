/** src/avl_tree.c: the climb that restores heights and balance, insert and erase. */
module AvlTrees {
  import opened TreeHeap
  import opened ThreadedTrees
  import opened TreeSteps
  import opened AvlShape

  function NodeHeight(node: TreeNode?): int
    reads if node == null then {} else {node}
  {
    if node == null then 0 else node.mark
  }

  lemma {:induction false} SeeHeights(tree: ThreadedTree, path: Path, t: Tree)
    requires t.Node? && tree.Holds(Plug(path, t)) && HeightStored(t.left) && HeightStored(t.right)
    ensures t.node in tree.nodes
    ensures t.node.left != null ==> t.node.left in tree.nodes
    ensures t.node.right != null ==> t.node.right in tree.nodes
    ensures NodeHeight(t.node.left) == Height(t.left) && NodeHeight(t.node.right) == Height(t.right)
  {
    See(tree, path, t);
    See(tree, InLeft(path, t.node, t.key, t.mark, t.right), t.left);
    See(tree, InRight(path, t.node, t.key, t.mark, t.left), t.right);
  }

  /** `avl_height` of the node is recomputed from the heights its children store. */
  method Remeasure(tree: ThreadedTree, node: TreeNode, ghost path: Path, ghost t: Tree)
    requires t.Node? && t.node == node && tree.Holds(Plug(path, t)) && HeightStored(t.left) && HeightStored(t.right)
    modifies tree.nodes`mark
    ensures tree.Holds(Plug(path, Restored(t)))
  {
    hide Plug, Entries, Distinct;
    SeeHeights(tree, path, t);
    var h0 := NodeHeight(node.left);
    var h1 := NodeHeight(node.right);
    var h;
    if h0 > h1 {
      h := 1 + h0;
    } else {
      h := 1 + h1;
    }
    PaintAt(tree, node, h, path, t);
  }

  /** The pointer assignments of `_avl_roate` for a left child. */
  method RaiseLeftChild(tree: ThreadedTree, node: TreeNode)
    requires node in tree.nodes && node.parent in tree.nodes && Liftable(tree.nodes, node.parent, node)
    requires node.parent.left == node
    modifies tree`root, tree.nodes`left, tree.nodes`right, tree.nodes`parent
    ensures tree.root == if old(node.parent.parent) == null then node else old(tree.root)
    ensures forall n :: n in tree.nodes ==>
      n.right == (
        if n == node then old(node.parent)
        else if n == old(node.parent.parent) && old(n.left) != old(node.parent) then node else old(n.right))
    ensures forall n :: n in tree.nodes ==>
      n.left == (
        if n == old(node.parent) then old(node.right)
        else if n == old(node.parent.parent) && old(n.left) == old(node.parent) then node else old(n.left))
    ensures forall n :: n in tree.nodes ==>
      n.parent == (
        if n == old(node.parent) then node
        else if n == node then old(node.parent.parent)
        else if n == old(node.right) then old(node.parent) else old(n.parent))
  {
    var child := node.right;
    var parent := node.parent;
    node.parent := parent.parent;
    node.right := parent;
    parent.left := child;
    if child != null {
      child.parent := parent;
    }
    if parent.parent != null {
      if parent == parent.parent.left {
        parent.parent.left := node;
      } else {
        parent.parent.right := node;
      }
    } else {
      tree.root := node;
    }
    parent.parent := node;
  }

  method RaiseLeftCells(tree: ThreadedTree, node: TreeNode, ghost m: CellTable, ghost m': CellTable)
    requires Spells(tree.nodes, m) && m'.Keys == m.Keys
    requires node in m && node.parent in m && node.parent.left == node && Liftable(tree.nodes, node.parent, node)
    requires node.parent.parent != null ==> (node.parent.parent.left == node.parent <==> node.parent.parent.right != node.parent)
    requires forall n :: n in m ==>
      RotatedRightCell(n, m[n], m'[n], node.parent, node, node.right, node.parent.parent)
    modifies tree`root, tree.nodes`left, tree.nodes`right, tree.nodes`parent
    ensures Spells(tree.nodes, m')
    ensures tree.root == if old(node.parent.parent) == null then node else old(tree.root)
  {
    RaiseLeftChild(tree, node);
  }

  method RaiseLeftAt(tree: ThreadedTree, node: TreeNode, ghost path: Path, ghost t: Tree)
    requires t.Node? && t.left.Node? && t.left.node == node && tree.Holds(Plug(path, t))
    modifies tree`root, tree.nodes`left, tree.nodes`right, tree.nodes`parent
    ensures tree.Holds(Plug(path, RotatedRight(t)))
  {
    RotateRightTable(path, t);
    RootPlug(path, t, RotatedRight(t));
    LeftLiftable(tree, path, t);
    See(tree, InLeft(path, t.node, t.key, t.mark, t.right), t.left);
    if path != Top {
      SeeAbove(tree, path, t);
    }
    RaiseLeftCells(tree, node, Table(Plug(path, t)), Table(Plug(path, RotatedRight(t))));
  }

  /** `_avl_roate` for a left child. */
  method RoateLeftChild(tree: ThreadedTree, node: TreeNode, ghost path: Path, ghost t: Tree)
    requires t.Node? && t.left.Node? && t.left.node == node && tree.Holds(Plug(path, t))
    requires HeightStored(t.right) && HeightStored(t.left.left) && HeightStored(t.left.right)
    modifies tree`root, tree.nodes`left, tree.nodes`right, tree.nodes`parent, tree.nodes`mark
    ensures tree.Holds(Plug(path, RaisedLeft(t)))
  {
    ghost var u := RotatedRight(t);
    See(tree, InLeft(path, t.node, t.key, t.mark, t.right), t.left);
    var parent := node.parent;
    RaiseLeftAt(tree, node, path, t);
    ghost var hole := InRight(path, u.node, u.key, u.mark, u.left);
    assert Plug(hole, u.right) == Plug(path, u);
    Remeasure(tree, parent, hole, u.right);
    assert Plug(hole, Restored(u.right)) == Plug(path, u.(right := Restored(u.right)));
    Remeasure(tree, node, path, u.(right := Restored(u.right)));
  }

  /** The pointer assignments of `_avl_roate` for a right child. */
  method RaiseRightChild(tree: ThreadedTree, node: TreeNode)
    requires node in tree.nodes && node.parent in tree.nodes && Liftable(tree.nodes, node.parent, node)
    requires node.parent.right == node
    modifies tree`root, tree.nodes`right, tree.nodes`left, tree.nodes`parent
    ensures tree.root == if old(node.parent.parent) == null then node else old(tree.root)
    ensures forall n :: n in tree.nodes ==>
      n.left == (
        if n == node then old(node.parent)
        else if n == old(node.parent.parent) && old(n.right) != old(node.parent) then node else old(n.left))
    ensures forall n :: n in tree.nodes ==>
      n.right == (
        if n == old(node.parent) then old(node.left)
        else if n == old(node.parent.parent) && old(n.right) == old(node.parent) then node else old(n.right))
    ensures forall n :: n in tree.nodes ==>
      n.parent == (
        if n == old(node.parent) then node
        else if n == node then old(node.parent.parent)
        else if n == old(node.left) then old(node.parent) else old(n.parent))
  {
    var child := node.left;
    var parent := node.parent;
    node.parent := parent.parent;
    node.left := parent;
    parent.right := child;
    if child != null {
      child.parent := parent;
    }
    if parent.parent != null {
      if parent == parent.parent.right {
        parent.parent.right := node;
      } else {
        parent.parent.left := node;
      }
    } else {
      tree.root := node;
    }
    parent.parent := node;
  }

  method RaiseRightCells(tree: ThreadedTree, node: TreeNode, ghost m: CellTable, ghost m': CellTable)
    requires Spells(tree.nodes, m) && m'.Keys == m.Keys
    requires node in m && node.parent in m && node.parent.right == node && Liftable(tree.nodes, node.parent, node)
    requires node.parent.parent != null ==> (node.parent.parent.right == node.parent <==> node.parent.parent.left != node.parent)
    requires forall n :: n in m ==>
      RotatedLeftCell(n, m[n], m'[n], node.parent, node, node.left, node.parent.parent)
    modifies tree`root, tree.nodes`right, tree.nodes`left, tree.nodes`parent
    ensures Spells(tree.nodes, m')
    ensures tree.root == if old(node.parent.parent) == null then node else old(tree.root)
  {
    RaiseRightChild(tree, node);
  }

  method RaiseRightAt(tree: ThreadedTree, node: TreeNode, ghost path: Path, ghost t: Tree)
    requires t.Node? && t.right.Node? && t.right.node == node && tree.Holds(Plug(path, t))
    modifies tree`root, tree.nodes`right, tree.nodes`left, tree.nodes`parent
    ensures tree.Holds(Plug(path, RotatedLeft(t)))
  {
    RotateLeftTable(path, t);
    RootPlug(path, t, RotatedLeft(t));
    RightLiftable(tree, path, t);
    See(tree, InRight(path, t.node, t.key, t.mark, t.left), t.right);
    if path != Top {
      SeeAbove(tree, path, t);
    }
    RaiseRightCells(tree, node, Table(Plug(path, t)), Table(Plug(path, RotatedLeft(t))));
  }

  /** `_avl_roate` for a right child. */
  method RoateRightChild(tree: ThreadedTree, node: TreeNode, ghost path: Path, ghost t: Tree)
    requires t.Node? && t.right.Node? && t.right.node == node && tree.Holds(Plug(path, t))
    requires HeightStored(t.left) && HeightStored(t.right.right) && HeightStored(t.right.left)
    modifies tree`root, tree.nodes`right, tree.nodes`left, tree.nodes`parent, tree.nodes`mark
    ensures tree.Holds(Plug(path, RaisedRight(t)))
  {
    ghost var u := RotatedLeft(t);
    See(tree, InRight(path, t.node, t.key, t.mark, t.left), t.right);
    var parent := node.parent;
    RaiseRightAt(tree, node, path, t);
    ghost var hole := InLeft(path, u.node, u.key, u.mark, u.right);
    assert Plug(hole, u.left) == Plug(path, u);
    Remeasure(tree, parent, hole, u.left);
    assert Plug(hole, Restored(u.left)) == Plug(path, u.(left := Restored(u.left)));
    Remeasure(tree, node, path, u.(left := Restored(u.left)));
  }

  /** The branch of `_avl_balance` for a left subtree two taller than the right one. */
  method LowerLeft(tree: ThreadedTree, node: TreeNode, ghost path: Path, ghost t: Tree)
    returns (top: TreeNode, ghost u: Tree)
    requires t.Node? && t.node == node && tree.Holds(Plug(path, t))
    requires Avl(t.left) && Avl(t.right) && Height(t.left) == Height(t.right) + 2
    modifies tree`root, tree.nodes`left, tree.nodes`right, tree.nodes`parent, tree.nodes`mark
    ensures u.Node? && u.node == top && tree.Holds(Plug(path, u)) && Avl(u) && Entries(u) == Entries(t)
    ensures Height(u) == Height(t.left) || Height(u) == Height(t.left) + 1
  {
    ghost var hole, l := InLeft(path, t.node, t.key, t.mark, t.right), t.left;
    assert Avl(l.left) && Avl(l.right) && Plug(hole, l) == Plug(path, t);
    See(tree, path, t);
    SeeHeights(tree, hole, l);
    See(tree, hole, l);
    var tallChild := node.left;
    var childBalance := NodeHeight(tallChild.left) - NodeHeight(tallChild.right);
    if childBalance >= 0 {
      RoateLeftChild(tree, tallChild, path, t);
      RaisedLeftBalances(t);
      top, u := tallChild, RaisedLeft(t);
    } else {
      var tallGrandChild := tallChild.right;
      assert Avl(l.right.left) && Avl(l.right.right);
      RoateRightChild(tree, tallGrandChild, hole, l);
      ghost var t1 := t.(left := RaisedRight(l));
      assert Plug(hole, RaisedRight(l)) == Plug(path, t1);
      TwiceRaisedLeftBalances(t);
      TwicePartsLeft(t);
      RoateLeftChild(tree, tallGrandChild, path, t1);
      top, u := tallGrandChild, TwiceRaisedLeft(t);
    }
  }

  /** The branch of `_avl_balance` for a right subtree two taller than the left one. */
  method LowerRight(tree: ThreadedTree, node: TreeNode, ghost path: Path, ghost t: Tree)
    returns (top: TreeNode, ghost u: Tree)
    requires t.Node? && t.node == node && tree.Holds(Plug(path, t))
    requires Avl(t.right) && Avl(t.left) && Height(t.right) == Height(t.left) + 2
    modifies tree`root, tree.nodes`right, tree.nodes`left, tree.nodes`parent, tree.nodes`mark
    ensures u.Node? && u.node == top && tree.Holds(Plug(path, u)) && Avl(u) && Entries(u) == Entries(t)
    ensures Height(u) == Height(t.right) || Height(u) == Height(t.right) + 1
  {
    ghost var hole, l := InRight(path, t.node, t.key, t.mark, t.left), t.right;
    assert Avl(l.right) && Avl(l.left) && Plug(hole, l) == Plug(path, t);
    See(tree, path, t);
    SeeHeights(tree, hole, l);
    See(tree, hole, l);
    var tallChild := node.right;
    var childBalance := NodeHeight(tallChild.right) - NodeHeight(tallChild.left);
    if childBalance >= 0 {
      RoateRightChild(tree, tallChild, path, t);
      RaisedRightBalances(t);
      top, u := tallChild, RaisedRight(t);
    } else {
      var tallGrandChild := tallChild.left;
      assert Avl(l.left.right) && Avl(l.left.left);
      RoateLeftChild(tree, tallGrandChild, hole, l);
      ghost var t1 := t.(right := RaisedLeft(l));
      assert Plug(hole, RaisedLeft(l)) == Plug(path, t1);
      TwiceRaisedRightBalances(t);
      TwicePartsRight(t);
      RoateRightChild(tree, tallGrandChild, path, t1);
      top, u := tallGrandChild, TwiceRaisedRight(t);
    }
  }

  /** One round of the loop of `_avl_balance`; the balance it computes lies between -2 and 2, so the
      two values it tests for are the only bad ones. */
  method ClimbStep(tree: ThreadedTree, node: TreeNode, ghost path: Path, ghost t: Tree, ghost h: int)
    returns (next: TreeNode?, balance: int, ghost u: Tree)
    requires tree.Holds(Plug(path, t)) && Climbing(path, t, h) && t.node == node
    modifies tree`root, tree.nodes`left, tree.nodes`right, tree.nodes`parent, tree.nodes`mark
    ensures u.Node? && tree.Holds(Plug(path, u)) && Avl(u) && Entries(u) == Entries(t)
    ensures Near(Height(u), h, 1)
    ensures next == Above(path)
    ensures balance == Height(t.left) - Height(t.right) && -2 <= balance <= 2
  {
    SeeHeights(tree, path, t);
    var h0 := NodeHeight(node.left);
    var h1 := NodeHeight(node.right);
    Remeasure(tree, node, path, t);
    u := Restored(t);
    var top := node;
    balance := h0 - h1;
    if balance == 2 {
      top, u := LowerLeft(tree, node, path, u);
    } else if balance == -2 {
      top, u := LowerRight(tree, node, path, u);
    }
    See(tree, path, u);
    next := top.parent;
  }

  /** Where the walk is: at a node whose subtrees are in order, or past the root. */
  ghost predicate OnClimb(node: TreeNode?, path: Path, t: Tree, h: int) {
    if node == null then path.Top? && Avl(t) else Climbing(path, t, h) && t.node == node
  }

  /** `_avl_balance`. */
  method Balance(tree: ThreadedTree, node: TreeNode?, ghost path: Path, ghost t: Tree, ghost h: int)
    returns (ghost final: Tree)
    requires tree.Holds(Plug(path, t)) && OnClimb(node, path, t, h)
    modifies tree`root, tree.nodes`left, tree.nodes`right, tree.nodes`parent, tree.nodes`mark
    ensures tree.Holds(final) && Avl(final) && Entries(final) == Entries(Plug(path, t))
  {
    var node' := node;
    ghost var path', t', h' := path, t, h;
    while node' != null
      invariant tree.Holds(Plug(path', t')) && OnClimb(node', path', t', h')
      invariant Entries(Plug(path', t')) == Entries(Plug(path, t))
      decreases if node' == null then 0 else Depth(path') + 1
    {
      var balance;
      ghost var u;
      node', balance, u := ClimbStep(tree, node', path', t', h');
      SameEntries(path', t', u);
      if path'.Top? {
        t' := u;
      } else {
        ClimbOn(path', u, h');
        path', t', h' := path'.up, Fill(path', u), 1 + Max(h', Height(Sibling(path')));
      }
    }
    final := t';
  }

  /** The invariant every public operation keeps. */
  ghost predicate Valid(tree: ThreadedTree)
    reads tree
    reads tree.nodes`left, tree.nodes`right, tree.nodes`parent, tree.nodes`key, tree.nodes`mark
    reads tree.nodes`prev, tree.nodes`next
  {
    tree.Linked() && Avl(tree.shape)
  }

  /** `avl_tree_find_integer`. */
  method FindInteger(tree: ThreadedTree, key: int) returns (node: TreeNode?)
    requires Valid(tree)
    ensures node == Lookup(Entries(tree.shape), key)
  {
    var cur, parent, isLeft, path := Seek(tree, key);
    node := cur;
  }

  lemma {:induction false} NewLowNode(path: Path, node: TreeNode, key: int)
    requires Avl(Plug(path, Leaf))
    ensures Climbing(path, Node(Leaf, node, key, 1, Leaf), 0)
  {
    AvlPlug(path, Leaf);
  }

  /** Balancing moves tree links only, so the list stays what it was. */
  method BalanceListed(tree: ThreadedTree, node: TreeNode, ghost path: Path, ghost t: Tree, ghost s: seq<Entry>)
    returns (ghost final: Tree)
    requires tree.Holds(Plug(path, t)) && Climbing(path, t, 0) && t.node == node
    requires Entries(Plug(path, t)) == s && Threads(tree.nodes, s, tree.head, tree.tail)
    modifies tree`root, tree.nodes`left, tree.nodes`right, tree.nodes`parent, tree.nodes`mark
    ensures tree.Holds(final) && Avl(final) && Entries(final) == s
    ensures Threads(tree.nodes, s, tree.head, tree.tail)
  {
    final := Balance(tree, node, path, t, 0);
  }

  ghost method Settle(tree: ThreadedTree, t: Tree, s: seq<Entry>)
    requires tree.Holds(t) && Avl(t) && Entries(t) == s
    requires Threads(tree.nodes, s, tree.head, tree.tail) && tree.size == |s| && Sorted(s)
    modifies tree`shape
    ensures Valid(tree) && Entries(tree.shape) == s
  {
    tree.shape := t;
  }

  /** Hanging a node of height 1 and balancing, when the result is known to be the list `s`. */
  method LinkAndBalance(tree: ThreadedTree, node: TreeNode, parent: TreeNode?, isLeft: bool,
                        ghost path: Path, ghost t: Tree, ghost a: seq<Entry>, ghost b: seq<Entry>, ghost s: seq<Entry>)
    requires tree.Holds(Plug(path, Leaf)) && node !in tree.nodes
    requires parent == Above(path) && (path.InLeft? <==> isLeft)
    requires Threads(tree.nodes, a + b, tree.head, tree.tail) && DistinctNodes(a + b)
    requires parent == null ==> a + b == []
    requires parent != null ==> parent == if isLeft then FirstNode(b) else LastNode(a)
    requires t == Node(Leaf, node, node.key, 1, Leaf) && Climbing(path, t, 0)
    requires s == Entries(Plug(path, t)) == a + [Entry(node, node.key)] + b
    requires Sorted(s) && |s| == tree.size + 1
    modifies tree, node`mark, node`parent, node`left, node`right, node`prev, node`next
    modifies tree.nodes`left, tree.nodes`right, tree.nodes`parent, tree.nodes`mark, tree.nodes`prev, tree.nodes`next
    ensures Valid(tree) && tree.nodes == old(tree.nodes) + {node} && Entries(tree.shape) == s
  {
    hide Entries, Plug, Threads, Sorted, DistinctNodes, FirstNode, LastNode, Climbing, Avl;
    LinkNode(tree, node, parent, isLeft, 1, path, a, b);
    ghost var final := BalanceListed(tree, node, path, t, s);
    Settle(tree, final, s);
  }

  /** The part of the insert functions after the descent found an empty place. */
  method InsertNew(tree: ThreadedTree, node: TreeNode, parent: TreeNode?, isLeft: bool, ghost path: Path)
    requires Valid(tree) && node !in tree.nodes
    requires Plug(path, Leaf) == tree.shape && Brackets(path, node.key)
    requires parent == Above(path) && (path.InLeft? <==> isLeft)
    modifies tree, node`mark, node`parent, node`left, node`right, node`prev, node`next
    modifies tree.nodes`left, tree.nodes`right, tree.nodes`parent, tree.nodes`mark, tree.nodes`prev, tree.nodes`next
    ensures Valid(tree) && tree.nodes == old(tree.nodes) + {node}
    ensures Entries(tree.shape) == Inserted(old(Entries(tree.shape)), Entry(node, node.key))
  {
    ghost var e := Entry(node, node.key);
    HoleInList(path);
    InsertedAtHole(path, e, 1);
    NewLowNode(path, node, node.key);
    LinkAndBalance(tree, node, parent, isLeft, path, Node(Leaf, node, node.key, 1, Leaf),
                   Before(path), After(path), Inserted(Entries(tree.shape), e));
  }

  /** Allocating the node and putting it in. */
  method AddNode(tree: ThreadedTree, key: int, value: int, parent: TreeNode?, isLeft: bool, ghost path: Path)
    returns (node: TreeNode)
    requires Valid(tree)
    requires Plug(path, Leaf) == tree.shape && Brackets(path, key)
    requires parent == Above(path) && (path.InLeft? <==> isLeft)
    modifies tree
    modifies tree.nodes`left, tree.nodes`right, tree.nodes`parent, tree.nodes`mark, tree.nodes`prev, tree.nodes`next
    ensures Valid(tree) && fresh(node) && tree.nodes == old(tree.nodes) + {node}
    ensures node.key == key && node.value == value
    ensures Entries(tree.shape) == Inserted(old(Entries(tree.shape)), Entry(node, key))
  {
    node := new TreeNode(key, value);
    InsertNew(tree, node, parent, isLeft, path);
  }

  /** `avl_tree_insert_integer`: an existing node under the key only gets the new value. */
  method InsertInteger(tree: ThreadedTree, key: int, value: int) returns (node: TreeNode)
    requires Valid(tree)
    modifies tree
    modifies tree.nodes`left, tree.nodes`right, tree.nodes`parent, tree.nodes`mark, tree.nodes`prev, tree.nodes`next
    modifies tree.nodes`value
    ensures Valid(tree)
    ensures node.key == key && node.value == value
    ensures old(Lookup(Entries(tree.shape), key)) != null ==>
      && node == old(Lookup(Entries(tree.shape), key))
      && tree.nodes == old(tree.nodes) && Entries(tree.shape) == old(Entries(tree.shape))
    ensures old(Lookup(Entries(tree.shape), key)) == null ==>
      && fresh(node) && tree.nodes == old(tree.nodes) + {node}
      && Entries(tree.shape) == Inserted(old(Entries(tree.shape)), Entry(node, key))
    ensures forall n :: n in old(tree.nodes) && n != node ==> n.value == old(n.value)
  {
    var cur, parent, isLeft, path := Seek(tree, key);
    if cur != null {
      cur.value := value;
      node := cur;
    } else {
      node := AddNode(tree, key, value, parent, isLeft, path);
    }
  }

  /** `avl_tree_try_insert_integer`: an existing node under the key is left alone. */
  method TryInsertInteger(tree: ThreadedTree, key: int, value: int) returns (inserted: bool, node: TreeNode)
    requires Valid(tree)
    modifies tree
    modifies tree.nodes`left, tree.nodes`right, tree.nodes`parent, tree.nodes`mark, tree.nodes`prev, tree.nodes`next
    ensures Valid(tree)
    ensures inserted <==> old(Lookup(Entries(tree.shape), key)) == null
    ensures !inserted ==>
      && node == old(Lookup(Entries(tree.shape), key))
      && tree.nodes == old(tree.nodes) && Entries(tree.shape) == old(Entries(tree.shape))
    ensures inserted ==>
      && fresh(node) && node.key == key && node.value == value && tree.nodes == old(tree.nodes) + {node}
      && Entries(tree.shape) == Inserted(old(Entries(tree.shape)), Entry(node, key))
  {
    var cur, parent, isLeft, path := Seek(tree, key);
    if cur != null {
      return false, cur;
    }
    node := AddNode(tree, key, value, parent, isLeft, path);
    inserted := true;
  }
}
