/** The node and tree records that src/rb_tree.c and src/avl_tree.c share field for field, and the
    two link structures laid over the same nodes: a binary tree with parent pointers and a doubly
    linked list.

    The shape of the tree is kept as a ghost value.  `Tree` is a whole (sub)tree; `Path` is a tree
    with one hole, read from the hole up to the root, which is how every loop of the two files
    walks.  `Cells` lists the fields every node must have for the heap to hold a given value; each
    method that rewires nodes is proved to turn one such table into another, and lemmas say which
    values the two tables stand for. */
module TreeHeap {

  class TreeNode {
    var left: TreeNode?
    var right: TreeNode?
    var parent: TreeNode?
    var mark: int        // rb_color, or avl_height
    var prev: TreeNode?
    var next: TreeNode?
    var key: int
    var value: int

    constructor (key: int, value: int)
      ensures this.key == key && this.value == value
    {
      this.key, this.value := key, value;
      left, right, parent, prev, next, mark := null, null, null, null, null, 0;
    }
  }

  datatype Tree =
    | Leaf
    | Node(left: Tree, node: TreeNode, key: int, mark: int, right: Tree)

  datatype Path =
    | Top
    | InLeft(up: Path, node: TreeNode, key: int, mark: int, right: Tree)
    | InRight(up: Path, node: TreeNode, key: int, mark: int, left: Tree)

  datatype Entry = Entry(node: TreeNode, key: int)

  // --- values

  ghost function Nodes(t: Tree): set<TreeNode> {
    match t
    case Leaf => {}
    case Node(l, n, _, _, r) => Nodes(l) + {n} + Nodes(r)
  }

  ghost function PathNodes(path: Path): set<TreeNode> {
    match path
    case Top => {}
    case InLeft(up, n, _, _, r) => PathNodes(up) + {n} + Nodes(r)
    case InRight(up, n, _, _, l) => PathNodes(up) + {n} + Nodes(l)
  }

  ghost function Plug(path: Path, t: Tree): Tree {
    match path
    case Top => t
    case InLeft(up, n, k, m, r) => Plug(up, Node(t, n, k, m, r))
    case InRight(up, n, k, m, l) => Plug(up, Node(l, n, k, m, t))
  }

  /** The tree with the last frame of the path closed. */
  ghost function Fill(path: Path, t: Tree): Tree
    requires !path.Top?
  {
    match path
    case InLeft(_, n, k, m, r) => Node(t, n, k, m, r)
    case InRight(_, n, k, m, l) => Node(l, n, k, m, t)
  }

  /** The frames of `inner`, continued by those of `outer`. */
  ghost function Append(inner: Path, outer: Path): Path {
    match inner
    case Top => outer
    case InLeft(up, n, k, m, r) => InLeft(Append(up, outer), n, k, m, r)
    case InRight(up, n, k, m, l) => InRight(Append(up, outer), n, k, m, l)
  }

  ghost function Depth(path: Path): nat {
    if path.Top? then 0 else 1 + Depth(path.up)
  }

  /** The in-order traversal. */
  ghost function Entries(t: Tree): seq<Entry> {
    match t
    case Leaf => []
    case Node(l, n, k, _, r) => Entries(l) + [Entry(n, k)] + Entries(r)
  }

  /** What the traversal visits before the hole, and after it. */
  ghost function Before(path: Path): seq<Entry> {
    match path
    case Top => []
    case InLeft(up, _, _, _, _) => Before(up)
    case InRight(up, n, k, _, l) => Before(up) + Entries(l) + [Entry(n, k)]
  }

  ghost function After(path: Path): seq<Entry> {
    match path
    case Top => []
    case InLeft(up, n, k, _, r) => [Entry(n, k)] + Entries(r) + After(up)
    case InRight(up, _, _, _, _) => After(up)
  }

  ghost predicate Sorted(s: seq<Entry>) {
    forall i, j :: 0 <= i < j < |s| ==> s[i].key < s[j].key
  }

  lemma {:induction false} EntriesPlug(path: Path, t: Tree)
    ensures Entries(Plug(path, t)) == Before(path) + Entries(t) + After(path)
  {
    match path
    case Top =>
    case InLeft(up, n, k, m, r) =>
      EntriesPlug(up, Node(t, n, k, m, r));
    case InRight(up, n, k, m, l) =>
      EntriesPlug(up, Node(l, n, k, m, t));
  }

  lemma {:induction false} PlugAppend(inner: Path, outer: Path, t: Tree)
    ensures Plug(Append(inner, outer), t) == Plug(outer, Plug(inner, t))
    ensures PathNodes(Append(inner, outer)) == PathNodes(inner) + PathNodes(outer)
  {
    match inner
    case Top =>
    case InLeft(up, n, k, m, r) => PlugAppend(up, outer, Node(t, n, k, m, r));
    case InRight(up, n, k, m, l) => PlugAppend(up, outer, Node(l, n, k, m, t));
  }

  lemma {:induction false} PlugNodes(path: Path, t: Tree)
    ensures Nodes(Plug(path, t)) == Nodes(t) + PathNodes(path)
  {
    match path
    case Top =>
    case InLeft(up, n, k, m, r) => PlugNodes(up, Node(t, n, k, m, r));
    case InRight(up, n, k, m, l) => PlugNodes(up, Node(l, n, k, m, t));
  }

  ghost predicate Distinct(t: Tree) {
    t.Node? ==>
      && t.node !in Nodes(t.left) && t.node !in Nodes(t.right) && Nodes(t.left) !! Nodes(t.right)
      && Distinct(t.left) && Distinct(t.right)
  }

  ghost predicate DistinctPath(path: Path) {
    !path.Top? ==>
      && path.node !in PathNodes(path.up) && path.node !in Nodes(Sibling(path))
      && Nodes(Sibling(path)) !! PathNodes(path.up)
      && Distinct(Sibling(path)) && DistinctPath(path.up)
  }

  ghost function Sibling(path: Path): Tree
    requires !path.Top?
  {
    if path.InLeft? then path.right else path.left
  }

  lemma {:induction false} DistinctPlug(path: Path, t: Tree)
    ensures Distinct(Plug(path, t)) <==> Distinct(t) && DistinctPath(path) && Nodes(t) !! PathNodes(path)
  {
    match path
    case Top =>
    case InLeft(up, n, k, m, r) => DistinctPlug(up, Node(t, n, k, m, r));
    case InRight(up, n, k, m, l) => DistinctPlug(up, Node(l, n, k, m, t));
  }

  // --- values in the heap

  datatype Cell = Cell(left: TreeNode?, right: TreeNode?, parent: TreeNode?, key: int, mark: int)

  type CellTable = map<TreeNode, Cell>

  ghost function Root(t: Tree): TreeNode? {
    if t.Leaf? then null else t.node
  }

  ghost function Above(path: Path): TreeNode? {
    if path.Top? then null else path.node
  }

  /** The fields the nodes of `t` must have, when it hangs below `q`. */
  ghost function Cells(t: Tree, q: TreeNode?): (m: CellTable)
    ensures m.Keys == Nodes(t)
  {
    if t.Leaf? then map[] else
      (Cells(t.left, t.node) + Cells(t.right, t.node))
      [t.node := Cell(Root(t.left), Root(t.right), q, t.key, t.mark)]
  }

  /** The fields the nodes around a hole must have, when `p` hangs in it. */
  ghost function PathCells(path: Path, p: TreeNode?): (m: CellTable)
    ensures m.Keys == PathNodes(path)
  {
    match path
    case Top => map[]
    case InLeft(up, n, k, m, r) =>
      (PathCells(up, n) + Cells(r, n))[n := Cell(p, Root(r), Above(up), k, m)]
    case InRight(up, n, k, m, l) =>
      (PathCells(up, n) + Cells(l, n))[n := Cell(Root(l), p, Above(up), k, m)]
  }

  ghost function Table(t: Tree): CellTable {
    Cells(t, null)
  }

  ghost predicate Agree(m: CellTable, part: CellTable) {
    forall n :: n in part ==> n in m && m[n] == part[n]
  }

  lemma {:induction false} TablePlug(path: Path, t: Tree)
    requires Distinct(Plug(path, t))
    ensures Agree(Table(Plug(path, t)), PathCells(path, Root(t)))
    ensures Agree(Table(Plug(path, t)), Cells(t, Above(path)))
  {
    DistinctPlug(path, t);
    match path
    case Top =>
    case InLeft(up, n, k, m, r) => TablePlug(up, Node(t, n, k, m, r));
    case InRight(up, n, k, m, l) => TablePlug(up, Node(l, n, k, m, t));
  }

  /** The cell of the node in a hole. */
  lemma {:induction false} HoleCell(path: Path, t: Tree)
    requires Distinct(Plug(path, t)) && t.Node?
    ensures t.node in Table(Plug(path, t))
    ensures Table(Plug(path, t))[t.node] == Cell(Root(t.left), Root(t.right), Above(path), t.key, t.mark)
  {
    TablePlug(path, t);
    assert t.node in Cells(t, Above(path));
  }

  /** Pointing the hole of a path elsewhere changes one field of the node above it. */
  lemma {:induction false} RepointPath(path: Path, p: TreeNode?, p': TreeNode?)
    ensures forall n :: n in PathNodes(path) && n != Above(path) ==> PathCells(path, p')[n] == PathCells(path, p)[n]
    ensures path.InLeft? ==> PathCells(path, p')[path.node] == PathCells(path, p)[path.node].(left := p')
    ensures path.InRight? ==> PathCells(path, p')[path.node] == PathCells(path, p)[path.node].(right := p')
  {
  }

  lemma {:induction false} RootPlug(path: Path, t: Tree, t': Tree)
    ensures !path.Top? ==> Root(Plug(path, t)) == Root(Plug(path, t'))
    ensures !path.Top? ==> Root(Plug(path, t)) in PathNodes(path)
  {
    match path
    case Top =>
    case InLeft(up, n, k, m, r) => RootPlug(up, Node(t, n, k, m, r), Node(t', n, k, m, r));
    case InRight(up, n, k, m, l) => RootPlug(up, Node(l, n, k, m, t), Node(l, n, k, m, t'));
  }

  lemma {:induction false} Reparent(t: Tree, q: TreeNode?, q': TreeNode?)
    ensures forall n :: n in Nodes(t) && n != Root(t) ==> Cells(t, q')[n] == Cells(t, q)[n]
    ensures t.Node? ==> Cells(t, q')[t.node] == Cells(t, q)[t.node].(parent := q')
  {
  }

  /** Hanging another tree in the hole changes, outside the hole, one field of the node above. */
  lemma {:induction false} TableAround(path: Path, t: Tree, t': Tree)
    requires Distinct(Plug(path, t)) && Distinct(Plug(path, t'))
    ensures Table(Plug(path, t)).Keys == PathNodes(path) + Nodes(t)
    ensures Table(Plug(path, t')).Keys == PathNodes(path) + Nodes(t')
    ensures forall n :: n in PathNodes(path) && n != Above(path) ==>
              Table(Plug(path, t'))[n] == Table(Plug(path, t))[n]
    ensures path.InLeft? ==>
              Table(Plug(path, t'))[path.node] == Table(Plug(path, t))[path.node].(left := Root(t'))
    ensures path.InRight? ==>
              Table(Plug(path, t'))[path.node] == Table(Plug(path, t))[path.node].(right := Root(t'))
    ensures !path.Top? ==> path.node in PathNodes(path) && path.node !in Nodes(t) && path.node !in Nodes(t')
    ensures PathNodes(path) !! Nodes(t) && PathNodes(path) !! Nodes(t')
  {
    PlugNodes(path, t);
    PlugNodes(path, t');
    DistinctPlug(path, t);
    DistinctPlug(path, t');
    TablePlug(path, t);
    TablePlug(path, t');
    RepointPath(path, Root(t), Root(t'));
  }

  /** The heap holds, in the nodes `nodes`, exactly the fields the table lists. */
  ghost predicate Spells(nodes: set<TreeNode>, m: CellTable)
    reads nodes`left, nodes`right, nodes`parent, nodes`key, nodes`mark
  {
    && m.Keys == nodes
    && (forall n :: n in nodes ==>
          && n.left == m[n].left && n.right == m[n].right && n.parent == m[n].parent
          && n.key == m[n].key && n.mark == m[n].mark)
  }

  /** A node of a tree has a place in it. */
  lemma {:induction false} Focus(t: Tree, x: TreeNode) returns (path: Path, s: Tree)
    requires x in Nodes(t)
    ensures s.Node? && s.node == x && Plug(path, s) == t
  {
    if t.node == x {
      path, s := Top, t;
    } else if x in Nodes(t.left) {
      path, s := Focus(t.left, x);
      PlugAppend(path, InLeft(Top, t.node, t.key, t.mark, t.right), s);
      path := Append(path, InLeft(Top, t.node, t.key, t.mark, t.right));
    } else {
      path, s := Focus(t.right, x);
      PlugAppend(path, InRight(Top, t.node, t.key, t.mark, t.left), s);
      path := Append(path, InRight(Top, t.node, t.key, t.mark, t.left));
    }
  }

  // --- the list

  /** The list that runs from `head` to `tail` visits exactly the entries of `s`, all in `nodes`. */
  ghost predicate Threads(nodes: set<TreeNode>, s: seq<Entry>, head: TreeNode?, tail: TreeNode?)
    reads nodes`prev, nodes`next
  {
    && InNodes(nodes, s)
    && (s == [] ==> head == null && tail == null)
    && (s != [] ==>
          && head == s[0].node && tail == s[|s| - 1].node
          && s[0].node.prev == null && s[|s| - 1].node.next == null)
    && Interior(nodes, s)
  }

  ghost predicate InNodes(nodes: set<TreeNode>, s: seq<Entry>) {
    forall i :: 0 <= i < |s| ==> s[i].node in nodes
  }

  /** Neighbours in `s` point to each other. */
  ghost predicate Interior(nodes: set<TreeNode>, s: seq<Entry>)
    requires InNodes(nodes, s)
    reads nodes`prev, nodes`next
  {
    forall i, j :: 0 <= i < |s| && 0 <= j < |s| && j == i + 1 ==>
      s[i].node.next == s[j].node && s[j].node.prev == s[i].node
  }

  lemma {:induction false} EntriesInNodes(t: Tree)
    ensures InNodes(Nodes(t), Entries(t))
  {
    if t.Node? {
      EntriesInNodes(t.left);
      EntriesInNodes(t.right);
    }
  }
}
