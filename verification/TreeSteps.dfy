/** Steps both trees are made of, as steps from one tree value to another: the two rotations and the
    assignment of a mark. */
module TreeSteps {
  import opened TreeHeap
  import opened ThreadedTrees

  // --- rotations

  ghost function RotatedLeft(t: Tree): Tree
    requires t.Node? && t.right.Node?
  {
    var Node(a, x, xk, xm, Node(b, y, yk, ym, c)) := t;
    Node(Node(a, x, xk, xm, b), y, yk, ym, c)
  }

  ghost function RotatedRight(t: Tree): Tree
    requires t.Node? && t.left.Node?
  {
    var Node(Node(a, x, xk, xm, b), y, yk, ym, c) := t;
    Node(a, x, xk, xm, Node(b, y, yk, ym, c))
  }

  /** `x` has a child `y` for a rotation to lift above it. */
  ghost predicate Liftable(nodes: set<TreeNode>, x: TreeNode, y: TreeNode?)
    reads nodes
  {
    && x in nodes && y in nodes && x != y
    && y.left != x && y.right != x && y.left != y && y.right != y
    && x.parent != x && x.parent != y
    && (x.parent != null ==> x.parent in nodes)
    && (y == x.left && y.right != null ==> y.right in nodes)
    && (y == x.right && y.left != null ==> y.left in nodes)
  }

  lemma {:induction false} RotateLeftHole(t: Tree, q: TreeNode?)
    requires t.Node? && t.right.Node? && Distinct(t)
    ensures Distinct(RotatedLeft(t)) && Nodes(RotatedLeft(t)) == Nodes(t)
    ensures var m, m', x, y, b := Cells(t, q), Cells(RotatedLeft(t), q), t.node, t.right.node, Root(t.right.left);
      && (forall n :: n in m && n != x && n != y && n != b ==> m'[n] == m[n])
      && x != y && m[x].right == y && m[x].parent == q && m'[x] == m[x].(right := b, parent := y)
      && m[y].left == b && m'[y] == m[y].(left := x, parent := q)
      && (b != null ==> b in m && b != x && b != y && m'[b] == m[b].(parent := x))
  {
    Reparent(t.right.left, t.right.node, t.node);
  }

  /** What a rotation at `x`, which lifts `y` above it and moves `b` across, does to the fields of
      the node `n`. */
  ghost predicate RotatedLeftCell(n: TreeNode, c: Cell, c': Cell, x: TreeNode, y: TreeNode, b: TreeNode?, q: TreeNode?) {
    && c'.left == (if n == y then x else if n == q && c.left == x then y else c.left)
    && c'.right == (if n == x then b else if n == q && c.left != x then y else c.right)
    && c'.parent == (if n == x then y else if n == y then q else if n == b then x else c.parent)
    && c'.key == c.key && c'.mark == c.mark
  }

  lemma {:induction false} RotateLeftTable(path: Path, t: Tree)
    requires t.Node? && t.right.Node? && Distinct(Plug(path, t))
    ensures Distinct(Plug(path, RotatedLeft(t)))
    ensures Table(Plug(path, RotatedLeft(t))).Keys == Table(Plug(path, t)).Keys
    ensures forall n :: n in Table(Plug(path, t)) ==>
      RotatedLeftCell(n, Table(Plug(path, t))[n], Table(Plug(path, RotatedLeft(t)))[n],
                      t.node, t.right.node, Root(t.right.left), Above(path))
  {
    var t' := RotatedLeft(t);
    DistinctPlug(path, t);
    RotateLeftHole(t, Above(path));
    DistinctPlug(path, t');
    TableAround(path, t, t');
    TablePlug(path, t);
    TablePlug(path, t');
    var m, m' := Table(Plug(path, t)), Table(Plug(path, t'));
    forall n | n in m
      ensures RotatedLeftCell(n, m[n], m'[n], t.node, t.right.node, Root(t.right.left), Above(path))
    {
      if n in Nodes(t) {
        assert m[n] == Cells(t, Above(path))[n] && m'[n] == Cells(t', Above(path))[n];
      } else {
        assert n in PathNodes(path);
      }
    }
  }

  lemma {:induction false} RightLiftable(tree: ThreadedTree, path: Path, t: Tree)
    requires t.Node? && t.right.Node? && tree.Holds(Plug(path, t))
    ensures t.node.right == t.right.node && t.right.node.left == Root(t.right.left) && t.node.parent == Above(path)
    ensures Liftable(tree.nodes, t.node, t.node.right)
  {
    var x, y, m := t.node, t.right, Table(Plug(path, t));
    var path' := InRight(path, t.node, t.key, t.mark, t.left);
    HoleCell(path, t);
    HoleCell(path', y);
    DistinctPlug(path', y);
    PlugNodes(path', y);
    assert x in m && y.node in m;
    assert m[x] == Cell(Root(t.left), Root(t.right), Above(path), t.key, t.mark);
    assert m[y.node] == Cell(Root(y.left), Root(y.right), x, y.key, y.mark);
  }

  lemma {:induction false} RotateRightHole(t: Tree, q: TreeNode?)
    requires t.Node? && t.left.Node? && Distinct(t)
    ensures Distinct(RotatedRight(t)) && Nodes(RotatedRight(t)) == Nodes(t)
    ensures var m, m', x, y, b := Cells(t, q), Cells(RotatedRight(t), q), t.node, t.left.node, Root(t.left.right);
      && (forall n :: n in m && n != x && n != y && n != b ==> m'[n] == m[n])
      && x != y && m[x].left == y && m[x].parent == q && m'[x] == m[x].(left := b, parent := y)
      && m[y].right == b && m'[y] == m[y].(right := x, parent := q)
      && (b != null ==> b in m && b != x && b != y && m'[b] == m[b].(parent := x))
  {
    Reparent(t.left.right, t.left.node, t.node);
  }

  /** What a rotation at `x`, which lifts `y` above it and moves `b` across, does to the fields of
      the node `n`. */
  ghost predicate RotatedRightCell(n: TreeNode, c: Cell, c': Cell, x: TreeNode, y: TreeNode, b: TreeNode?, q: TreeNode?) {
    && c'.right == (if n == y then x else if n == q && c.right == x then y else c.right)
    && c'.left == (if n == x then b else if n == q && c.right != x then y else c.left)
    && c'.parent == (if n == x then y else if n == y then q else if n == b then x else c.parent)
    && c'.key == c.key && c'.mark == c.mark
  }

  lemma {:induction false} RotateRightTable(path: Path, t: Tree)
    requires t.Node? && t.left.Node? && Distinct(Plug(path, t))
    ensures Distinct(Plug(path, RotatedRight(t)))
    ensures Table(Plug(path, RotatedRight(t))).Keys == Table(Plug(path, t)).Keys
    ensures forall n :: n in Table(Plug(path, t)) ==>
      RotatedRightCell(n, Table(Plug(path, t))[n], Table(Plug(path, RotatedRight(t)))[n],
                      t.node, t.left.node, Root(t.left.right), Above(path))
  {
    var t' := RotatedRight(t);
    DistinctPlug(path, t);
    RotateRightHole(t, Above(path));
    DistinctPlug(path, t');
    TableAround(path, t, t');
    TablePlug(path, t);
    TablePlug(path, t');
    var m, m' := Table(Plug(path, t)), Table(Plug(path, t'));
    forall n | n in m
      ensures RotatedRightCell(n, m[n], m'[n], t.node, t.left.node, Root(t.left.right), Above(path))
    {
      if n in Nodes(t) {
        assert m[n] == Cells(t, Above(path))[n] && m'[n] == Cells(t', Above(path))[n];
      } else {
        assert n in PathNodes(path);
      }
    }
  }

  lemma {:induction false} LeftLiftable(tree: ThreadedTree, path: Path, t: Tree)
    requires t.Node? && t.left.Node? && tree.Holds(Plug(path, t))
    ensures t.node.left == t.left.node && t.left.node.right == Root(t.left.right) && t.node.parent == Above(path)
    ensures Liftable(tree.nodes, t.node, t.node.left)
  {
    var x, y, m := t.node, t.left, Table(Plug(path, t));
    var path' := InLeft(path, t.node, t.key, t.mark, t.right);
    HoleCell(path, t);
    HoleCell(path', y);
    DistinctPlug(path', y);
    PlugNodes(path', y);
    assert x in m && y.node in m;
    assert m[x] == Cell(Root(t.left), Root(t.right), Above(path), t.key, t.mark);
    assert m[y.node] == Cell(Root(y.left), Root(y.right), x, y.key, y.mark);
  }

  // --- one mark

  ghost function Paint(t: Tree, mark: int): Tree {
    if t.Leaf? then Leaf else t.(mark := mark)
  }

  lemma {:induction false} PaintTable(path: Path, t: Tree, mark: int)
    requires t.Node? && Distinct(Plug(path, t))
    ensures Distinct(Plug(path, Paint(t, mark)))
    ensures Table(Plug(path, Paint(t, mark))).Keys == Table(Plug(path, t)).Keys
    ensures forall n :: n in Table(Plug(path, t)) && n != t.node ==>
              Table(Plug(path, Paint(t, mark)))[n] == Table(Plug(path, t))[n]
    ensures t.node in Table(Plug(path, t))
    ensures Table(Plug(path, Paint(t, mark)))[t.node] == Table(Plug(path, t))[t.node].(mark := mark)
  {
    var t' := Paint(t, mark);
    DistinctPlug(path, t);
    DistinctPlug(path, t');
    TableAround(path, t, t');
    TablePlug(path, t);
    TablePlug(path, t');
    var m, m' := Table(Plug(path, t)), Table(Plug(path, t'));
    assert forall n :: n in Nodes(t) ==> m[n] == Cells(t, Above(path))[n] && m'[n] == Cells(t', Above(path))[n];
  }

  method PaintCells(tree: ThreadedTree, node: TreeNode, mark: int, ghost m: CellTable, ghost m': CellTable)
    requires Spells(tree.nodes, m) && m'.Keys == m.Keys && node in m
    requires m'[node] == m[node].(mark := mark)
    requires forall n :: n in m && n != node ==> m'[n] == m[n]
    modifies tree.nodes`mark
    ensures Spells(tree.nodes, m')
  {
    node.mark := mark;
  }

  /** The assignment of a colour or a height, as a step from one tree to another. */
  method PaintAt(tree: ThreadedTree, node: TreeNode, mark: int, ghost path: Path, ghost t: Tree)
    requires t.Node? && t.node == node && tree.Holds(Plug(path, t))
    modifies tree.nodes`mark
    ensures tree.Holds(Plug(path, Paint(t, mark)))
  {
    PaintTable(path, t, mark);
    RootPlug(path, t, Paint(t, mark));
    PaintCells(tree, node, mark, Table(Plug(path, t)), Table(Plug(path, Paint(t, mark))));
  }

  lemma {:induction false} SameEntries(path: Path, t: Tree, t': Tree)
    requires Entries(t) == Entries(t')
    ensures Entries(Plug(path, t)) == Entries(Plug(path, t'))
  {
    EntriesPlug(path, t);
    EntriesPlug(path, t');
  }
}
