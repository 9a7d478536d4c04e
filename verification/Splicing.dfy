/** Taking a node with at most one child out of a tree, and putting a node in the place of another,
    as steps from one table of fields to another.  Both erase functions are made of these. */
module Splicing {
  import opened TreeHeap
  import opened ThreadedTrees

  /** `c` is what remains of `t` without its root, which has a child missing. */
  ghost predicate OnlyChild(t: Tree, c: Tree) {
    t.Node? && ((t.left.Leaf? && c == t.right) || (t.right.Leaf? && c == t.left))
  }

  /** The child pointer of `n` that holds `x` is made to hold `y`. */
  ghost function Relinked(n: TreeNode, c: Cell, x: TreeNode, y: TreeNode?): Cell {
    if c.left == x then c.(left := y) else c.(right := y)
  }

  ghost predicate Spliced(m: CellTable, m': CellTable, x: TreeNode, child: TreeNode?, q: TreeNode?) {
    && x in m && m'.Keys == m.Keys - {x}
    && (forall n :: n in m' && n != q && n != child ==> m'[n] == m[n])
    && (q != null ==> q in m' && q != child && m'[q] == Relinked(q, m[q], x, child))
    && (child != null ==> child in m' && m'[child] == m[child].(parent := q))
  }

  lemma {:induction false} SpliceHole(t: Tree, c: Tree, q: TreeNode?)
    requires OnlyChild(t, c) && Distinct(t)
    ensures Distinct(c)
    ensures var m, m', x := Cells(t, q), Cells(c, q), t.node;
      && x in m && m'.Keys == m.Keys - {x}
      && (forall n :: n in m' && n != Root(c) ==> m'[n] == m[n])
      && (c.Node? ==> c.node in m' && m'[c.node] == m[c.node].(parent := q))
  {
    Reparent(c, t.node, q);
  }

  lemma {:induction false} SpliceTable(path: Path, t: Tree, c: Tree)
    requires OnlyChild(t, c) && Distinct(Plug(path, t))
    ensures Distinct(Plug(path, c))
    ensures Spliced(Table(Plug(path, t)), Table(Plug(path, c)), t.node, Root(c), Above(path))
  {
    DistinctPlug(path, t);
    SpliceHole(t, c, Above(path));
    DistinctPlug(path, c);
    TableAround(path, t, c);
    TablePlug(path, t);
    TablePlug(path, c);
    var m, m', a, a' := Table(Plug(path, t)), Table(Plug(path, c)), Cells(t, Above(path)), Cells(c, Above(path));
    assert forall n :: n in a ==> m[n] == a[n];
    assert forall n :: n in a' ==> m'[n] == a'[n];
    assert path.InRight? ==> m[path.node].left != t.node;
    SplicedFrom(m, m', a, a', PathNodes(path), t.node, Root(c), Above(path));
  }

  /** A splice inside the hole, with the one link above it, is a splice. */
  lemma {:induction false} SplicedFrom(m: CellTable, m': CellTable, a: CellTable, a': CellTable, around: set<TreeNode>,
                                       x: TreeNode, child: TreeNode?, q: TreeNode?)
    requires m.Keys == around + a.Keys && m'.Keys == around + a'.Keys && around !! a.Keys && around !! a'.Keys
    requires forall n :: n in a ==> m[n] == a[n]
    requires forall n :: n in a' ==> m'[n] == a'[n]
    requires x in a && a'.Keys == a.Keys - {x}
    requires forall n :: n in a' && n != child ==> a'[n] == a[n]
    requires child != null ==> child in a' && a'[child] == a[child].(parent := q)
    requires forall n :: n in around && n != q ==> m'[n] == m[n]
    requires q != null ==> q in around && m'[q] == Relinked(q, m[q], x, child)
    ensures Spliced(m, m', x, child, q)
  {
  }

  ghost predicate Renamed(m: CellTable, m': CellTable, x: TreeNode, y: TreeNode, yk: int, ym: int) {
    && x in m && y !in m && m'.Keys == m.Keys - {x} + {y}
    && m'[y] == m[x].(key := yk, mark := ym)
    && var l, r, q := m[x].left, m[x].right, m[x].parent;
    && (forall n :: n in m && n != x && n != l && n != r && n != q ==> m'[n] == m[n])
    && (l != null ==> l in m && l != x && l != q && m'[l] == m[l].(parent := y))
    && (r != null ==> r in m && r != x && r != q && r != l && m'[r] == m[r].(parent := y))
    && (q != null ==> q in m && q != x && m'[q] == Relinked(q, m[q], x, y))
  }

  lemma {:induction false} RenameOthers(t: Tree, q: TreeNode?, y: TreeNode, yk: int, ym: int)
    requires t.Node? && Distinct(t) && y !in Nodes(t)
    ensures var m, m' := Cells(t, q), Cells(t.(node := y, key := yk, mark := ym), q);
      && m'.Keys == m.Keys - {t.node} + {y}
      && forall n :: n in m && n != t.node && n != Root(t.left) && n != Root(t.right) ==> m'[n] == m[n]
  {
    Reparent(t.left, t.node, y);
    Reparent(t.right, t.node, y);
  }

  lemma {:induction false} RenameHole(t: Tree, q: TreeNode?, y: TreeNode, yk: int, ym: int)
    requires t.Node? && Distinct(t) && y !in Nodes(t)
    ensures Distinct(t.(node := y, key := yk, mark := ym))
    ensures var m, m', l, r := Cells(t, q), Cells(t.(node := y, key := yk, mark := ym), q), Root(t.left), Root(t.right);
      && m.Keys == Nodes(t) && m'.Keys == Nodes(t) - {t.node} + {y}
      && m[t.node] == Cell(l, r, q, t.key, t.mark) && m'[y] == Cell(l, r, q, yk, ym)
      && (forall n :: n in m && n != t.node && n != l && n != r ==> m'[n] == m[n])
      && (l != null ==> l in m && l != t.node && m'[l] == m[l].(parent := y))
      && (r != null ==> r in m && r != t.node && r != l && m'[r] == m[r].(parent := y))
  {
    RenameOthers(t, q, y, yk, ym);
    Reparent(t.left, t.node, y);
    Reparent(t.right, t.node, y);
  }

  lemma {:induction false} RenameTable(path: Path, t: Tree, y: TreeNode, yk: int, ym: int)
    requires t.Node? && Distinct(Plug(path, t)) && y !in Nodes(Plug(path, t))
    ensures Distinct(Plug(path, t.(node := y, key := yk, mark := ym)))
    ensures Renamed(Table(Plug(path, t)), Table(Plug(path, t.(node := y, key := yk, mark := ym))), t.node, y, yk, ym)
  {
    var t' := t.(node := y, key := yk, mark := ym);
    PlugNodes(path, t);
    DistinctPlug(path, t);
    RenameHole(t, Above(path), y, yk, ym);
    DistinctPlug(path, t');
    TableAround(path, t, t');
    TablePlug(path, t);
    TablePlug(path, t');
    var m, m', a, a' := Table(Plug(path, t)), Table(Plug(path, t')), Cells(t, Above(path)), Cells(t', Above(path));
    assert forall n :: n in a ==> m[n] == a[n];
    assert forall n :: n in a' ==> m'[n] == a'[n];
    assert path.InRight? ==> m[path.node].left != t.node;
    RenamedFrom(m, m', a, a', PathNodes(path), t.node, y, yk, ym, Above(path));
  }

  /** A renaming inside the hole, with the one link above it, is a renaming. */
  lemma {:induction false} RenamedFrom(m: CellTable, m': CellTable, a: CellTable, a': CellTable, around: set<TreeNode>,
                                       x: TreeNode, y: TreeNode, yk: int, ym: int, q: TreeNode?)
    requires m.Keys == around + a.Keys && m'.Keys == around + a'.Keys && around !! a.Keys && around !! a'.Keys
    requires forall n :: n in a ==> m[n] == a[n]
    requires forall n :: n in a' ==> m'[n] == a'[n]
    requires x in a && y !in m && a'.Keys == a.Keys - {x} + {y}
    requires a'[y] == a[x].(key := yk, mark := ym) && a[x].parent == q
    requires forall n :: n in a && n != x && n != a[x].left && n != a[x].right ==> a'[n] == a[n]
    requires a[x].left != null ==> a[x].left in a && a[x].left != x && a'[a[x].left] == a[a[x].left].(parent := y)
    requires a[x].right != null ==>
      a[x].right in a && a[x].right != x && a[x].right != a[x].left && a'[a[x].right] == a[a[x].right].(parent := y)
    requires forall n :: n in around && n != q ==> m'[n] == m[n]
    requires q != null ==> q in around && m'[q] == Relinked(q, m[q], x, y)
    ensures Renamed(m, m', x, y, yk, ym)
  {
  }

  // --- the successor

  ghost predicate LeftSpine(path: Path) {
    path.Top? || (path.InLeft? && LeftSpine(path.up))
  }

  /** A node `t` with two children, and in its right subtree, down the left spine `spine`, the
      successor `s`. */
  ghost predicate HasSuccessor(t: Tree, spine: Path, s: Tree) {
    && t.Node? && t.left.Node? && t.right == Plug(spine, s)
    && LeftSpine(spine) && s.Node? && s.left.Leaf?
  }

  /** The hole the successor leaves; `above` is the node that holds the place of `t`. */
  ghost function SuccessorHole(path: Path, t: Tree, spine: Path): Path
    requires t.Node?
  {
    Append(spine, InRight(path, t.node, t.key, t.mark, t.left))
  }

  /** The tree with the successor in the place of `t`. */
  ghost function Succeeded(t: Tree, spine: Path, s: Tree, mark: int): Tree
    requires HasSuccessor(t, spine, s)
  {
    Node(t.left, s.node, s.key, mark, Plug(spine, s.right))
  }

  lemma {:induction false} AppendAbove(inner: Path, outer: Path)
    ensures Above(Append(inner, outer)) == if inner.Top? then Above(outer) else inner.node
  {
  }

  lemma {:induction false} SuccessorCells(path: Path, t: Tree, spine: Path, s: Tree)
    requires HasSuccessor(t, spine, s) && Distinct(Plug(path, t))
    ensures var m, gone, y := Table(Plug(path, t)), t.node, s.node;
      && gone in m && y in m
      && m[gone] == Cell(t.left.node, Root(t.right), Above(path), t.key, t.mark)
      && m[y] == Cell(null, Root(s.right), if spine.Top? then gone else spine.node, s.key, s.mark)
      && m[gone].left in m && m[gone].right in m && m[y].parent in m
      && (s.right.Node? ==> s.right.node in m && m[s.right.node].parent == y)
      && (!spine.Top? ==> spine.node in m && m[spine.node].left == y)
      && (!path.Top? ==> path.node in m)
  {
    var a := InRight(path, t.node, t.key, t.mark, t.left);
    var hole := Append(spine, a);
    PlugAppend(spine, a, s);
    AppendAbove(spine, a);
    HoleCell(path, t);
    HoleCell(hole, s);
    HoleCell(InLeft(path, t.node, t.key, t.mark, t.right), t.left);
    RootPlug(spine, s, s);
    HoleCell(a, t.right);
    PlugNodes(path, t);
    if s.right.Node? {
      HoleCell(InRight(hole, s.node, s.key, s.mark, s.left), s.right);
    }
    if !spine.Top? {
      HoleCell(hole.up, Fill(hole, s));
    }
  }

  lemma {:induction false} SpineEntries(spine: Path, s: Tree)
    requires LeftSpine(spine)
    ensures Before(spine) == []
    ensures Entries(Plug(spine, s)) == Entries(s) + After(spine)
  {
    if !spine.Top? {
      SpineEntries(spine.up, Fill(spine, s));
    }
  }

  lemma {:induction false} SuccessorFirst(t: Tree, spine: Path, s: Tree, mark: int)
    requires HasSuccessor(t, spine, s)
    ensures Entries(Succeeded(t, spine, s, mark)) == Entries(t.left) + Entries(t.right)
  {
    SpineEntries(spine, s);
    SpineEntries(spine, s.right);
    var e, c, z := [Entry(s.node, s.key)], Entries(s.right), After(spine);
    assert Entries(s) == e + c;
    Regroup(Entries(t.left), [], e, c, z);
  }

  /** The traversal loses the entry of the erased node and nothing else. */
  lemma {:induction false} SucceededEntries(path: Path, t: Tree, spine: Path, s: Tree, mark: int)
    requires HasSuccessor(t, spine, s)
    ensures var a, b := Before(path) + Entries(t.left), Entries(t.right) + After(path);
      && Entries(Plug(path, t)) == a + [Entry(t.node, t.key)] + b
      && Entries(Plug(path, Succeeded(t, spine, s, mark))) == a + b
  {
    var l, e, r, u, v := Entries(t.left), [Entry(t.node, t.key)], Entries(t.right), Before(path), After(path);
    EntriesPlug(path, t);
    EntriesPlug(path, Succeeded(t, spine, s, mark));
    SuccessorFirst(t, spine, s, mark);
    Regroup(u, l, e, r, v);
  }

  lemma {:induction false} SplicedEntries(path: Path, t: Tree, c: Tree)
    requires OnlyChild(t, c)
    ensures var a, b := Before(path) + Entries(t.left), Entries(t.right) + After(path);
      && Entries(Plug(path, t)) == a + [Entry(t.node, t.key)] + b
      && Entries(Plug(path, c)) == a + b
  {
    var l, e, r, u, v := Entries(t.left), [Entry(t.node, t.key)], Entries(t.right), Before(path), After(path);
    EntriesPlug(path, t);
    EntriesPlug(path, c);
    assert Entries(c) == l + r;
    Regroup(u, l, e, r, v);
  }
}
