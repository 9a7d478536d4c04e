/** The tree record, and the two operations on it whose code src/rb_tree.c and src/avl_tree.c have
    in common: hanging a new node under a leaf position and taking a node off the list. */
module ThreadedTrees {
  import opened TreeHeap

  class ThreadedTree {
    var root: TreeNode?
    var head: TreeNode?
    var tail: TreeNode?
    var size: nat
    ghost var shape: Tree
    ghost var nodes: set<TreeNode>

    constructor ()
      ensures root == head == tail == null && size == 0 && shape == Leaf
      ensures Linked()
    {
      root, head, tail, size, shape, nodes := null, null, null, 0, Leaf, {};
    }

    /** The pointers spell out `shape`, the list is its in-order traversal, and it is a search
        tree. */
    ghost predicate Linked()
      reads this
      reads nodes`left, nodes`right, nodes`parent, nodes`key, nodes`mark, nodes`prev, nodes`next
    {
      && Holds(shape)
      && Threads(nodes, Entries(shape), head, tail)
      && size == |Entries(shape)|
      && Sorted(Entries(shape))
    }

    ghost predicate Holds(t: Tree)
      reads this`root, this`nodes, nodes`left, nodes`right, nodes`parent, nodes`key, nodes`mark
    {
      Distinct(t) && root == Root(t) && Spells(nodes, Table(t))
    }
  }

  /** What a walk reads in the node it stands on. */
  lemma {:induction false} See(tree: ThreadedTree, path: Path, t: Tree)
    requires tree.Holds(Plug(path, t))
    ensures path.Top? ==> tree.root == Root(t)
    ensures t.Node? ==>
      && t.node in tree.nodes
      && t.node.left == Root(t.left) && t.node.right == Root(t.right) && t.node.parent == Above(path)
      && t.node.key == t.key && t.node.mark == t.mark
  {
    if t.Node? {
      HoleCell(path, t);
    }
  }

  /** What a walk reads in the node above it. */
  lemma {:induction false} SeeAbove(tree: ThreadedTree, path: Path, t: Tree)
    requires tree.Holds(Plug(path, t)) && t.Node? && !path.Top?
    ensures path.node in tree.nodes && path.node.mark == path.mark && path.node.parent == Above(path.up)
    ensures path.InLeft? <==> path.node.left == t.node
    ensures path.InRight? <==> path.node.right == t.node
    ensures path.InLeft? ==> path.node.right == Root(path.right)
    ensures path.InRight? ==> path.node.left == Root(path.left)
  {
    See(tree, path.up, Fill(path, t));
    DistinctPlug(path, t);
  }

  ghost predicate DistinctNodes(s: seq<Entry>) {
    forall i, j :: 0 <= i < j < |s| ==> s[i].node != s[j].node
  }

  lemma {:induction false} EntriesDistinct(t: Tree)
    requires Distinct(t)
    ensures DistinctNodes(Entries(t))
  {
    if t.Node? {
      EntriesDistinct(t.left);
      EntriesDistinct(t.right);
      EntriesInNodes(t.left);
      EntriesInNodes(t.right);
    }
  }

  ghost predicate AllBelow(s: seq<Entry>, key: int) {
    forall e :: e in s ==> e.key < key
  }

  ghost predicate AllAbove(s: seq<Entry>, key: int) {
    forall e :: e in s ==> key < e.key
  }

  /** Keys strictly below `key` on the left of the hole, strictly above it on the right. */
  ghost predicate Brackets(path: Path, key: int) {
    AllBelow(Before(path), key) && AllAbove(After(path), key)
  }

  lemma Regroup<T>(u: seq<T>, l: seq<T>, e: seq<T>, r: seq<T>, v: seq<T>)
    ensures u + (l + e + r) + v == (u + l) + e + (r + v)
    ensures u + (l + r) + v == (u + l) + (r + v)
  {
  }

  lemma {:induction false} SortedAround(s: seq<Entry>, a: seq<Entry>, e: Entry, b: seq<Entry>)
    requires Sorted(s) && s == a + [e] + b
    ensures forall x :: x in a ==> x.key < e.key
    ensures forall x :: x in b ==> e.key < x.key
    ensures Sorted(a + b)
  {
    assert s[|a|] == e;
    forall x | x in a
      ensures x.key < e.key
    {
      var i :| 0 <= i < |a| && a[i] == x;
      assert s[i] == x;
    }
    forall x | x in b
      ensures e.key < x.key
    {
      var i :| 0 <= i < |b| && b[i] == x;
      assert s[|a| + 1 + i] == x;
    }
    forall i, j | 0 <= i < j < |a + b|
      ensures (a + b)[i].key < (a + b)[j].key
    {
      var i', j' := if i < |a| then i else i + 1, if j < |a| then j else j + 1;
      assert s[i'] == (a + b)[i] && s[j'] == (a + b)[j];
    }
  }

  lemma {:induction false} AroundHole(path: Path, t: Tree)
    requires t.Node? && Sorted(Entries(Plug(path, t)))
    ensures AllBelow(Before(path) + Entries(t.left), t.key)
    ensures AllAbove(Entries(t.right) + After(path), t.key)
  {
    var e, l, r := Entry(t.node, t.key), Entries(t.left), Entries(t.right);
    var a, b := Before(path), After(path);
    EntriesPlug(path, t);
    Regroup(a, l, [e], r, b);
    SortedAround((a + l) + [e] + (r + b), a + l, e, r + b);
  }

  lemma {:induction false} StepKeepsBrackets(path: Path, t: Tree, key: int)
    requires t.Node? && Brackets(path, key) && Sorted(Entries(Plug(path, t)))
    ensures key < t.key ==> Brackets(InLeft(path, t.node, t.key, t.mark, t.right), key)
    ensures t.key < key ==> Brackets(InRight(path, t.node, t.key, t.mark, t.left), key)
  {
    AroundHole(path, t);
    var e, l, r := Entry(t.node, t.key), Entries(t.left), Entries(t.right);
    var a, b := Before(path), After(path);
    assert forall x :: x in [e] + r + b ==> x == e || x in r + b;
    assert forall x :: x in a + l + [e] ==> x in a + l || x == e;
  }

  /** The descent that every find and insert starts with: it stops at the node with the key, or at
      the empty place where the key belongs. */
  method Descend(tree: ThreadedTree, key: int)
    returns (cur: TreeNode?, parent: TreeNode?, isLeft: bool, ghost path: Path, ghost t: Tree)
    requires tree.Linked()
    ensures Plug(path, t) == tree.shape && cur == Root(t) && parent == Above(path)
    ensures Brackets(path, key)
    ensures t.Node? ==> t.key == key
    ensures path.InLeft? <==> isLeft
  {
    cur, parent, isLeft, path, t := tree.root, null, false, Top, tree.shape;
    while cur != null
      invariant tree.Holds(tree.shape) && Sorted(Entries(tree.shape))
      invariant Plug(path, t) == tree.shape && cur == Root(t) && parent == Above(path)
      invariant Brackets(path, key)
      invariant path.InLeft? <==> isLeft
      decreases t
    {
      HoleCell(path, t);
      StepKeepsBrackets(path, t, key);
      if key < cur.key {
        parent, cur, isLeft := cur, cur.left, true;
        path, t := InLeft(path, t.node, t.key, t.mark, t.right), t.left;
      } else if key > cur.key {
        parent, cur, isLeft := cur, cur.right, false;
        path, t := InRight(path, t.node, t.key, t.mark, t.left), t.right;
      } else {
        return;
      }
    }
  }

  /** Hanging a new node below `parent` takes the table `m` to `m'`. */
  ghost predicate Hung(m: CellTable, m': CellTable, node: TreeNode, parent: TreeNode?, isLeft: bool, mark: int, key: int) {
    && m'.Keys == m.Keys + {node} && m'[node] == Cell(null, null, parent, key, mark)
    && (forall n :: n in m && n != parent ==> m'[n] == m[n])
    && (parent in m ==> m'[parent] == if isLeft then m[parent].(left := node) else m[parent].(right := node))
  }

  lemma {:induction false} HungTable(path: Path, node: TreeNode, key: int, mark: int)
    requires Distinct(Plug(path, Leaf)) && node !in PathNodes(path)
    ensures Distinct(Plug(path, Node(Leaf, node, key, mark, Leaf)))
    ensures Hung(Table(Plug(path, Leaf)), Table(Plug(path, Node(Leaf, node, key, mark, Leaf))),
                 node, Above(path), path.InLeft?, mark, key)
  {
    var t := Node(Leaf, node, key, mark, Leaf);
    DistinctPlug(path, Leaf);
    DistinctPlug(path, t);
    TableAround(path, Leaf, t);
    HoleCell(path, t);
  }

  /** The pointer assignments of hanging a node. */
  method HangPointers(tree: ThreadedTree, node: TreeNode, parent: TreeNode?, isLeft: bool, mark: int)
    requires node !in tree.nodes && (parent != null ==> parent in tree.nodes)
    modifies tree`root, node`mark, node`parent, node`left, node`right
    modifies tree.nodes`left, tree.nodes`right
    ensures node.mark == mark && node.parent == parent && node.left == node.right == null
    ensures tree.root == if parent == null then node else old(tree.root)
    ensures forall n :: n in tree.nodes ==> n.left == if n == parent && isLeft then node else old(n.left)
    ensures forall n :: n in tree.nodes ==> n.right == if n == parent && !isLeft then node else old(n.right)
  {
    node.mark := mark;
    node.parent := parent;
    node.left := null;
    node.right := null;
    if parent == null {
      tree.root := node;
    } else if isLeft {
      parent.left := node;
    } else {
      parent.right := node;
    }
  }

  method HangCells(tree: ThreadedTree, node: TreeNode, parent: TreeNode?, isLeft: bool, mark: int,
                   ghost m: CellTable, ghost m': CellTable)
    requires Spells(tree.nodes, m) && node !in m && (parent != null ==> parent in m)
    requires Hung(m, m', node, parent, isLeft, mark, node.key)
    modifies tree`root, tree`nodes, node`mark, node`parent, node`left, node`right
    modifies tree.nodes`left, tree.nodes`right
    ensures tree.nodes == old(tree.nodes) + {node}
    ensures Spells(tree.nodes, m')
    ensures tree.root == if parent == null then node else old(tree.root)
  {
    HangPointers(tree, node, parent, isLeft, mark);
    tree.nodes := tree.nodes + {node};
  }

  /** The tree half of `_rb_link_node` and `_avl_link_node`. */
  method HangNode(tree: ThreadedTree, node: TreeNode, parent: TreeNode?, isLeft: bool, mark: int, ghost path: Path)
    requires tree.Holds(Plug(path, Leaf)) && node !in tree.nodes
    requires path.InLeft? <==> isLeft
    requires parent == Above(path)
    modifies tree`root, tree`nodes, node`mark, node`parent, node`left, node`right
    modifies tree.nodes`left, tree.nodes`right
    ensures tree.nodes == old(tree.nodes) + {node}
    ensures tree.Holds(Plug(path, Node(Leaf, node, node.key, mark, Leaf)))
  {
    PlugNodes(path, Leaf);
    HungTable(path, node, node.key, mark);
    RootPlug(path, Leaf, Node(Leaf, node, node.key, mark, Leaf));
    HangCells(tree, node, parent, isLeft, mark,
              Table(Plug(path, Leaf)), Table(Plug(path, Node(Leaf, node, node.key, mark, Leaf))));
  }

  ghost function LastNode(s: seq<Entry>): TreeNode? {
    if s == [] then null else s[|s| - 1].node
  }

  ghost function FirstNode(s: seq<Entry>): TreeNode? {
    if s == [] then null else s[0].node
  }

  lemma {:induction false} InteriorSplit(nodes: set<TreeNode>, a: seq<Entry>, b: seq<Entry>)
    requires InNodes(nodes, a + b) && Interior(nodes, a + b)
    ensures InNodes(nodes, a) && InNodes(nodes, b)
    ensures Interior(nodes, a) && Interior(nodes, b)
  {
    var s := a + b;
    assert forall k :: 0 <= k < |a| ==> a[k] == s[k];
    assert forall k :: 0 <= k < |b| ==> b[k] == s[k + |a|];
  }

  lemma {:induction false} ThreadsSplit(nodes: set<TreeNode>, a: seq<Entry>, b: seq<Entry>, h: TreeNode?, t: TreeNode?)
    requires Threads(nodes, a + b, h, t)
    ensures InNodes(nodes, a) && InNodes(nodes, b)
    ensures Interior(nodes, a) && Interior(nodes, b)
    ensures a != [] ==> h == a[0].node && a[0].node.prev == null && LastNode(a).next == FirstNode(b)
    ensures b != [] ==> t == LastNode(b) && LastNode(b).next == null && b[0].node.prev == LastNode(a)
    ensures a == [] ==> h == FirstNode(b)
    ensures b == [] ==> t == LastNode(a)
  {
    InteriorSplit(nodes, a, b);
    var s, i := a + b, |a|;
    assert a != [] ==> s[0] == a[0] && s[i - 1] == a[i - 1];
    assert b != [] ==> s[|s| - 1] == b[|b| - 1] && s[i] == b[0];
  }

  lemma {:induction false} ThreadsJoin(nodes: set<TreeNode>, a: seq<Entry>, b: seq<Entry>, h: TreeNode?, t: TreeNode?)
    requires InNodes(nodes, a) && InNodes(nodes, b)
    requires Interior(nodes, a) && Interior(nodes, b)
    requires a != [] ==> h == a[0].node && a[0].node.prev == null && LastNode(a).next == FirstNode(b)
    requires b != [] ==> t == LastNode(b) && LastNode(b).next == null && b[0].node.prev == LastNode(a)
    requires a == [] ==> h == FirstNode(b)
    requires b == [] ==> t == LastNode(a)
    ensures Threads(nodes, a + b, h, t)
  {
    var s, i := a + b, |a|;
    assert forall k :: 0 <= k < i ==> s[k] == a[k];
    assert forall k :: i <= k < |s| ==> s[k] == b[k - i];
  }

  /** What it takes to put `e` into a list between `a` and `b`. */
  lemma {:induction false} ThreadsInserted(nodes: set<TreeNode>, a: seq<Entry>, e: Entry, b: seq<Entry>, h: TreeNode?, t: TreeNode?)
    requires InNodes(nodes, a) && InNodes(nodes, b) && e.node in nodes
    requires Interior(nodes, a) && Interior(nodes, b)
    requires e.node.prev == LastNode(a) && e.node.next == FirstNode(b)
    requires a != [] ==> h == a[0].node && a[0].node.prev == null && LastNode(a).next == e.node
    requires b != [] ==> t == LastNode(b) && LastNode(b).next == null && b[0].node.prev == e.node
    requires a == [] ==> h == e.node
    requires b == [] ==> t == e.node
    ensures Threads(nodes, a + [e] + b, h, t)
  {
    assert Interior(nodes, a + [e]);
    ThreadsJoin(nodes, a + [e], b, h, t);
  }

  lemma {:induction false} SplitNodes(a: seq<Entry>, b: seq<Entry>)
    requires DistinctNodes(a + b)
    ensures DistinctNodes(a) && DistinctNodes(b)
    ensures forall i, j :: 0 <= i < |a| && 0 <= j < |b| ==> a[i].node != b[j].node
  {
    var s := a + b;
    assert forall k :: 0 <= k < |a| ==> s[k] == a[k];
    assert forall k :: 0 <= k < |b| ==> s[|a| + k] == b[k];
  }

  /** The list half of the link functions for a left child: the node goes before its parent. */
  method ThreadBefore(tree: ThreadedTree, node: TreeNode, parent: TreeNode,
                      ghost a: seq<Entry>, ghost b: seq<Entry>, ghost nodes: set<TreeNode>)
    requires Threads(nodes, a + b, tree.head, tree.tail) && DistinctNodes(a + b)
    requires node !in nodes && FirstNode(b) == parent
    modifies tree`head, node`prev, node`next, nodes`prev, nodes`next
    ensures Threads(nodes + {node}, a + [Entry(node, node.key)] + b, tree.head, tree.tail)
  {
    ThreadsSplit(nodes, a, b, tree.head, tree.tail);
    SplitNodes(a, b);
    if tree.head == parent {
      node.next := parent;
      node.prev := null;
      parent.prev := node;
      tree.head := node;
    } else {
      node.next := parent;
      node.prev := parent.prev;
      parent.prev.next := node;
      parent.prev := node;
    }
    ThreadsInserted(nodes + {node}, a, Entry(node, node.key), b, tree.head, tree.tail);
  }

  /** The list half of the link functions for a right child: the node goes after its parent. */
  method ThreadAfter(tree: ThreadedTree, node: TreeNode, parent: TreeNode,
                     ghost a: seq<Entry>, ghost b: seq<Entry>, ghost nodes: set<TreeNode>)
    requires Threads(nodes, a + b, tree.head, tree.tail) && DistinctNodes(a + b)
    requires node !in nodes && LastNode(a) == parent
    modifies tree`tail, node`prev, node`next, nodes`prev, nodes`next
    ensures Threads(nodes + {node}, a + [Entry(node, node.key)] + b, tree.head, tree.tail)
  {
    ThreadsSplit(nodes, a, b, tree.head, tree.tail);
    SplitNodes(a, b);
    if tree.tail == parent {
      node.next := null;
      node.prev := parent;
      parent.next := node;
      tree.tail := node;
    } else {
      node.next := parent.next;
      node.prev := parent;
      parent.next.prev := node;
      parent.next := node;
    }
    ThreadsInserted(nodes + {node}, a, Entry(node, node.key), b, tree.head, tree.tail);
  }

  /** The list half of `_rb_link_node` and `_avl_link_node`. */
  method ThreadNode(tree: ThreadedTree, node: TreeNode, parent: TreeNode?, isLeft: bool,
                    ghost a: seq<Entry>, ghost b: seq<Entry>, ghost nodes: set<TreeNode>)
    requires Threads(nodes, a + b, tree.head, tree.tail) && DistinctNodes(a + b) && node !in nodes
    requires parent == null ==> a + b == []
    requires parent != null ==> parent == if isLeft then FirstNode(b) else LastNode(a)
    modifies tree`head, tree`tail, tree`size, node`prev, node`next, nodes`prev, nodes`next
    ensures Threads(nodes + {node}, a + [Entry(node, node.key)] + b, tree.head, tree.tail)
    ensures tree.size == old(tree.size) + 1
  {
    if parent != null {
      if isLeft {
        ThreadBefore(tree, node, parent, a, b, nodes);
      } else {
        ThreadAfter(tree, node, parent, a, b, nodes);
      }
    } else {
      tree.head := node;
      tree.tail := node;
      node.next := null;
      node.prev := null;
    }
    tree.size := tree.size + 1;
  }

  /** The list around a hole of the tree: the neighbour on the side it hangs from is the node
      above it. */
  lemma {:induction false} HoleInList(path: Path)
    requires Distinct(Plug(path, Leaf))
    ensures Entries(Plug(path, Leaf)) == Before(path) + After(path)
    ensures DistinctNodes(Before(path) + After(path))
    ensures path.InLeft? ==> FirstNode(After(path)) == Above(path)
    ensures path.InRight? ==> LastNode(Before(path)) == Above(path)
  {
    EntriesPlug(path, Leaf);
    assert Before(path) + [] + After(path) == Before(path) + After(path);
    EntriesDistinct(Plug(path, Leaf));
  }

  /** `_rb_link_node` and `_avl_link_node`. */
  method LinkNode(tree: ThreadedTree, node: TreeNode, parent: TreeNode?, isLeft: bool, mark: int,
                  ghost path: Path, ghost a: seq<Entry>, ghost b: seq<Entry>)
    requires tree.Holds(Plug(path, Leaf)) && node !in tree.nodes
    requires parent == Above(path) && (path.InLeft? <==> isLeft)
    requires Threads(tree.nodes, a + b, tree.head, tree.tail) && DistinctNodes(a + b)
    requires parent == null ==> a + b == []
    requires parent != null ==> parent == if isLeft then FirstNode(b) else LastNode(a)
    modifies tree`root, tree`head, tree`tail, tree`size, tree`nodes
    modifies node`mark, node`parent, node`left, node`right, node`prev, node`next
    modifies tree.nodes`left, tree.nodes`right, tree.nodes`prev, tree.nodes`next
    ensures tree.nodes == old(tree.nodes) + {node}
    ensures tree.Holds(Plug(path, Node(Leaf, node, node.key, mark, Leaf)))
    ensures Threads(tree.nodes, a + [Entry(node, node.key)] + b, tree.head, tree.tail)
    ensures tree.size == old(tree.size) + 1
  {
    ghost var nodes := tree.nodes;
    HangNode(tree, node, parent, isLeft, mark, path);
    ThreadHeld(tree, node, parent, isLeft, a, b, nodes, Plug(path, Node(Leaf, node, node.key, mark, Leaf)));
  }

  /** Threading sets list links only, so the tree stays what it was. */
  method ThreadHeld(tree: ThreadedTree, node: TreeNode, parent: TreeNode?, isLeft: bool,
                    ghost a: seq<Entry>, ghost b: seq<Entry>, ghost nodes: set<TreeNode>, ghost t: Tree)
    requires Threads(nodes, a + b, tree.head, tree.tail) && DistinctNodes(a + b) && node !in nodes
    requires parent == null ==> a + b == []
    requires parent != null ==> parent == if isLeft then FirstNode(b) else LastNode(a)
    requires tree.Holds(t)
    modifies tree`head, tree`tail, tree`size, node`prev, node`next, nodes`prev, nodes`next
    ensures Threads(nodes + {node}, a + [Entry(node, node.key)] + b, tree.head, tree.tail)
    ensures tree.size == old(tree.size) + 1
    ensures tree.Holds(t)
  {
    ThreadNode(tree, node, parent, isLeft, a, b, nodes);
  }

  /** `_rb_erase_list`, and the same statements in `avl_tree_erase`. */
  method Unthread(tree: ThreadedTree, node: TreeNode, ghost a: seq<Entry>, ghost key: int, ghost b: seq<Entry>,
                  ghost nodes: set<TreeNode>)
    requires Threads(nodes, a + [Entry(node, key)] + b, tree.head, tree.tail)
    requires DistinctNodes(a + [Entry(node, key)] + b)
    requires tree.size > 0
    modifies tree`head, tree`tail, tree`size, nodes`prev, nodes`next
    ensures Threads(nodes - {node}, a + b, tree.head, tree.tail)
    ensures tree.size == old(tree.size) - 1
  {
    ghost var e := Entry(node, key);
    ThreadsSplit(nodes, a + [e], b, tree.head, tree.tail);
    SplitNodes(a + [e], b);
    SplitNodes(a, [e]);
    InteriorLast(nodes, a, e);
    if node.prev != null {
      node.prev.next := node.next;
    } else {
      tree.head := node.next;
    }
    if node.next != null {
      node.next.prev := node.prev;
    } else {
      tree.tail := node.prev;
    }
    tree.size := tree.size - 1;
    ThreadsJoin(nodes - {node}, a, b, tree.head, tree.tail);
  }

  lemma {:induction false} InteriorLast(nodes: set<TreeNode>, a: seq<Entry>, e: Entry)
    requires InNodes(nodes, a + [e]) && Interior(nodes, a + [e])
    ensures InNodes(nodes, a) && e.node in nodes
    ensures Interior(nodes, a)
    ensures a != [] ==> LastNode(a).next == e.node && e.node.prev == LastNode(a)
    ensures (a + [e])[|a|].node == e.node
    ensures forall k :: 0 <= k < |a| ==> (a + [e])[k] == a[k]
  {
    var s := a + [e];
    assert forall k :: 0 <= k < |a| ==> s[k] == a[k];
    assert s[|a|] == e;
    if a != [] {
      assert s[|a| - 1].node.next == s[|a|].node;
    }
  }

  // --- the map the tree stands for

  /** The node stored under a key, looking through the list from its head. */
  ghost function Lookup(s: seq<Entry>, key: int): TreeNode? {
    if s == [] then null else if s[0].key == key then s[0].node else Lookup(s[1..], key)
  }

  /** A sorted list with one more entry. */
  ghost function Inserted(s: seq<Entry>, e: Entry): seq<Entry> {
    if s == [] || e.key < s[0].key then [e] + s else [s[0]] + Inserted(s[1..], e)
  }

  /** A list without the entry of one node. */
  ghost function Without(s: seq<Entry>, x: TreeNode): seq<Entry> {
    if s == [] then [] else if s[0].node == x then Without(s[1..], x) else [s[0]] + Without(s[1..], x)
  }

  lemma {:induction false} SortedBetween(a: seq<Entry>, e: Entry, b: seq<Entry>)
    requires Sorted(a + b) && AllBelow(a, e.key) && AllAbove(b, e.key)
    ensures Sorted(a + [e] + b)
  {
    var s, n := a + b, a + [e] + b;
    forall i, j | 0 <= i < j < |n|
      ensures n[i].key < n[j].key
    {
      if i < |a| && j > |a| {
        assert s[i] == n[i] && s[j - 1] == n[j];
      } else if j < |a| {
        assert s[i] == n[i] && s[j] == n[j];
      } else if i > |a| {
        assert s[i - 1] == n[i] && s[j - 1] == n[j];
      } else if i == |a| {
        assert n[j] == b[j - |a| - 1];
      } else {
        assert n[i] == a[i];
      }
    }
  }

  lemma {:induction false} InsertedBetween(a: seq<Entry>, e: Entry, b: seq<Entry>)
    requires AllBelow(a, e.key) && AllAbove(b, e.key)
    ensures Inserted(a + b, e) == a + [e] + b
  {
    if a == [] {
      assert a + b == b && a + [e] + b == [e] + b;
      assert b != [] ==> b[0] in b;
    } else {
      assert (a + b)[1..] == a[1..] + b && (a + b)[0] == a[0] && a[0] in a;
      InsertedBetween(a[1..], e, b);
      assert a + [e] + b == [a[0]] + (a[1..] + [e] + b);
    }
  }

  /** Filling an empty place of the tree is inserting into the list. */
  lemma {:induction false} InsertedAtHole(path: Path, e: Entry, mark: int)
    requires Sorted(Entries(Plug(path, Leaf))) && Brackets(path, e.key)
    ensures var s := Entries(Plug(path, Node(Leaf, e.node, e.key, mark, Leaf)));
      && s == Before(path) + [e] + After(path)
      && s == Inserted(Entries(Plug(path, Leaf)), e)
      && Sorted(s) && |s| == |Entries(Plug(path, Leaf))| + 1
  {
    EntriesPlug(path, Node(Leaf, e.node, e.key, mark, Leaf));
    EntriesPlug(path, Leaf);
    assert [] + [e] + [] == [e];
    assert Before(path) + [] + After(path) == Before(path) + After(path);
    InsertedBetween(Before(path), e, After(path));
    SortedBetween(Before(path), e, After(path));
  }

  lemma {:induction false} NotFound(s: seq<Entry>, key: int)
    requires forall e :: e in s ==> e.key != key
    ensures Lookup(s, key) == null
  {
    if s != [] {
      NotFound(s[1..], key);
    }
  }

  lemma {:induction false} FoundBetween(a: seq<Entry>, e: Entry, b: seq<Entry>)
    requires AllBelow(a, e.key)
    ensures Lookup(a + [e] + b, e.key) == e.node
  {
    var s := a + [e] + b;
    if a == [] {
      assert s[0] == e;
    } else {
      assert s[0] == a[0] && s[1..] == a[1..] + [e] + b;
      FoundBetween(a[1..], e, b);
    }
  }

  lemma {:induction false} WithoutBetween(a: seq<Entry>, e: Entry, b: seq<Entry>)
    requires DistinctNodes(a + [e] + b)
    ensures Without(a + [e] + b, e.node) == a + b
  {
    var s := a + [e] + b;
    if a == [] {
      assert s[0] == e && s[1..] == b && a + b == b;
      assert forall k :: 0 <= k < |b| ==> b[k] == s[k + 1];
      WithoutAbsent(b, e.node);
    } else {
      assert s[0] == a[0] && s[|a|] == e && s[1..] == a[1..] + [e] + b;
      assert forall k :: 0 <= k < |s[1..]| ==> s[1..][k] == s[k + 1];
      WithoutBetween(a[1..], e, b);
      assert a + b == [a[0]] + (a[1..] + b);
    }
  }

  lemma {:induction false} WithoutAbsent(s: seq<Entry>, x: TreeNode)
    requires forall k :: 0 <= k < |s| ==> s[k].node != x
    ensures Without(s, x) == s
  {
    if s != [] {
      WithoutAbsent(s[1..], x);
    }
  }

  /** The descent ends at the node the list holds under the key, if any. */
  lemma {:induction false} DescentFinds(path: Path, t: Tree, key: int)
    requires Brackets(path, key) && (t.Node? ==> t.key == key)
    requires Sorted(Entries(Plug(path, t)))
    ensures Lookup(Entries(Plug(path, t)), key) == Root(t)
  {
    EntriesPlug(path, t);
    var a, b := Before(path), After(path);
    if t.Leaf? {
      assert a + [] + b == a + b;
      NotFound(a + b, key);
    } else {
      AroundHole(path, t);
      var e, l, r := Entry(t.node, t.key), Entries(t.left), Entries(t.right);
      Regroup(a, l, [e], r, b);
      FoundBetween(a + l, e, r + b);
    }
  }

  /** The descent, with what it finds said in terms of the list. */
  method Seek(tree: ThreadedTree, key: int)
    returns (cur: TreeNode?, parent: TreeNode?, isLeft: bool, ghost path: Path)
    requires tree.Linked()
    ensures cur == Lookup(Entries(tree.shape), key)
    ensures cur != null ==> cur in tree.nodes && cur.key == key
    ensures cur == null ==>
      && Plug(path, Leaf) == tree.shape && Brackets(path, key)
      && parent == Above(path) && (path.InLeft? <==> isLeft)
  {
    ghost var t;
    cur, parent, isLeft, path, t := Descend(tree, key);
    DescentFinds(path, t, key);
    See(tree, path, t);
  }
}
