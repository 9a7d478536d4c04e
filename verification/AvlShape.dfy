/** What makes a tree value an AVL tree with exact stored heights, said of whole trees and of a tree
    with a hole whose contents may have grown or shrunk by one. */
module AvlShape {
  import opened TreeHeap
  import opened TreeSteps

  ghost function Max(a: int, b: int): int {
    if a > b then a else b
  }

  ghost function Height(t: Tree): nat {
    if t.Leaf? then 0 else 1 + Max(Height(t.left), Height(t.right))
  }

  ghost predicate Near(a: int, b: int, slack: int) {
    -slack <= a - b <= slack
  }

  ghost predicate HeightStored(t: Tree) {
    t.Node? ==> t.mark == Height(t)
  }

  /** Stored heights are the real ones, and the two subtrees of every node differ by at most one. */
  ghost predicate Avl(t: Tree) {
    t.Node? ==>
      && t.mark == Height(t) && Near(Height(t.left), Height(t.right), 1)
      && Avl(t.left) && Avl(t.right)
  }

  /** The nodes around the hole were balanced when what hangs in it had height `h`; the heights they
      store may be stale. */
  ghost predicate BalancedFor(path: Path, h: int) {
    !path.Top? ==>
      && Avl(Sibling(path)) && Near(h, Height(Sibling(path)), 1)
      && BalancedFor(path.up, 1 + Max(h, Height(Sibling(path))))
  }

  /** How far a node whose subtrees have heights `hl` and `hr` may be from the height `h` it had:
      after balancing it is off by at most one. */
  ghost predicate Recoverable(hl: int, hr: int, h: int) {
    && Near(hl, hr, 2)
    && (Near(hl, hr, 1) ==> Near(1 + Max(hl, hr), h, 1))
    && (!Near(hl, hr, 1) ==> h == Max(hl, hr) || h == Max(hl, hr) + 1)
  }

  /** Where the upward walk stands: below `t` all is well, above it all was well for height `h`. */
  ghost predicate Climbing(path: Path, t: Tree, h: int) {
    && t.Node? && Avl(t.left) && Avl(t.right)
    && Recoverable(Height(t.left), Height(t.right), h)
    && BalancedFor(path, h)
  }

  lemma {:induction false} AvlPlug(path: Path, t: Tree)
    requires Avl(Plug(path, t))
    ensures Avl(t) && BalancedFor(path, Height(t))
  {
    match path
    case Top =>
    case InLeft(up, n, k, m, r) => AvlPlug(up, Node(t, n, k, m, r));
    case InRight(up, n, k, m, l) => AvlPlug(up, Node(l, n, k, m, t));
  }

  /** A balanced tree within one of the old height lets the walk go on at the parent. */
  lemma {:induction false} ClimbOn(path: Path, t: Tree, h: int)
    requires Avl(t) && Near(Height(t), h, 1) && BalancedFor(path, h) && !path.Top?
    ensures Climbing(path.up, Fill(path, t), 1 + Max(h, Height(Sibling(path))))
  {
  }

  ghost function Restored(t: Tree): Tree
    requires t.Node?
  {
    Paint(t, 1 + Max(Height(t.left), Height(t.right)))
  }

  /** The left subtree is two taller and leans left, or not at all: it is rotated up. */
  ghost function RaisedLeft(t: Tree): Tree
    requires t.Node? && t.left.Node?
  {
    var u := RotatedRight(t);
    Restored(u.(right := Restored(u.right)))
  }

  lemma {:induction false} RaisedLeftEntries(t: Tree)
    requires t.Node? && t.left.Node?
    ensures Entries(RaisedLeft(t)) == Entries(t)
  {
    var u := RotatedRight(t);
    assert Entries(Restored(u.right)) == Entries(u.right);
    assert Entries(u) == Entries(t);
  }

  lemma {:induction false} RaisedLeftBalances(t: Tree)
    requires t.Node? && Avl(t.left) && Avl(t.right) && Height(t.left) == Height(t.right) + 2
    requires Height(t.left.left) >= Height(t.left.right)
    ensures Avl(RaisedLeft(t)) && Near(Height(RaisedLeft(t)), 1 + Height(t.left), 1)
    ensures Height(RaisedLeft(t)) == Height(t.left) || Height(RaisedLeft(t)) == Height(t.left) + 1
    ensures Entries(RaisedLeft(t)) == Entries(t)
  {
    RaisedLeftEntries(t);
    var l := t.left;
    assert Avl(l.left) && Avl(l.right);
  }

  /** The left subtree is two taller and leans right: its right child is rotated up twice. */
  ghost function TwiceRaisedLeft(t: Tree): Tree
    requires t.Node? && t.left.Node? && t.left.right.Node?
  {
    RaisedLeft(t.(left := RaisedRight(t.left)))
  }

  lemma {:induction false} TwicePartsLeft(t: Tree)
    requires t.Node? && Avl(t.left) && Avl(t.right) && t.left.Node? && t.left.right.Node?
    ensures var g := RaisedRight(t.left); g.node == t.left.right.node && HeightStored(g.left) && HeightStored(g.right)
  {
    var l, g := t.left, t.left.right;
    assert Avl(l.left) && Avl(g) && Avl(g.left) && Avl(g.right);
  }

  lemma {:induction false} TwiceRaisedLeftBalances(t: Tree)
    requires t.Node? && Avl(t.left) && Avl(t.right) && Height(t.left) == Height(t.right) + 2
    requires Height(t.left.left) < Height(t.left.right)
    ensures Avl(TwiceRaisedLeft(t)) && Height(TwiceRaisedLeft(t)) == Height(t.left)
    ensures Entries(TwiceRaisedLeft(t)) == Entries(t)
  {
    var l, g := t.left, t.left.right;
    assert Avl(l.left) && Avl(g) && Avl(g.left) && Avl(g.right);
    var a, b := Restored(l.(right := g.left)), Restored(t.(left := g.right));
    assert Avl(a) && Avl(b);
    var u := TwiceRaisedLeft(t);
    assert u.left == a && u.right == b;
    RaisedRightEntries(t.left);
    RaisedLeftEntries(t.(left := RaisedRight(t.left)));
  }

  /** The right subtree is two taller and leans right, or not at all: it is rotated up. */
  ghost function RaisedRight(t: Tree): Tree
    requires t.Node? && t.right.Node?
  {
    var u := RotatedLeft(t);
    Restored(u.(left := Restored(u.left)))
  }

  lemma {:induction false} RaisedRightEntries(t: Tree)
    requires t.Node? && t.right.Node?
    ensures Entries(RaisedRight(t)) == Entries(t)
  {
    var u := RotatedLeft(t);
    assert Entries(Restored(u.left)) == Entries(u.left);
    assert Entries(u) == Entries(t);
  }

  lemma {:induction false} RaisedRightBalances(t: Tree)
    requires t.Node? && Avl(t.right) && Avl(t.left) && Height(t.right) == Height(t.left) + 2
    requires Height(t.right.right) >= Height(t.right.left)
    ensures Avl(RaisedRight(t)) && Near(Height(RaisedRight(t)), 1 + Height(t.right), 1)
    ensures Height(RaisedRight(t)) == Height(t.right) || Height(RaisedRight(t)) == Height(t.right) + 1
    ensures Entries(RaisedRight(t)) == Entries(t)
  {
    RaisedRightEntries(t);
    var l := t.right;
    assert Avl(l.right) && Avl(l.left);
  }

  /** The right subtree is two taller and leans left: its left child is rotated up twice. */
  ghost function TwiceRaisedRight(t: Tree): Tree
    requires t.Node? && t.right.Node? && t.right.left.Node?
  {
    RaisedRight(t.(right := RaisedLeft(t.right)))
  }

  lemma {:induction false} TwicePartsRight(t: Tree)
    requires t.Node? && Avl(t.right) && Avl(t.left) && t.right.Node? && t.right.left.Node?
    ensures var g := RaisedLeft(t.right); g.node == t.right.left.node && HeightStored(g.right) && HeightStored(g.left)
  {
    var l, g := t.right, t.right.left;
    assert Avl(l.right) && Avl(g) && Avl(g.right) && Avl(g.left);
  }

  lemma {:induction false} TwiceRaisedRightBalances(t: Tree)
    requires t.Node? && Avl(t.right) && Avl(t.left) && Height(t.right) == Height(t.left) + 2
    requires Height(t.right.right) < Height(t.right.left)
    ensures Avl(TwiceRaisedRight(t)) && Height(TwiceRaisedRight(t)) == Height(t.right)
    ensures Entries(TwiceRaisedRight(t)) == Entries(t)
  {
    var l, g := t.right, t.right.left;
    assert Avl(l.right) && Avl(g) && Avl(g.right) && Avl(g.left);
    var a, b := Restored(l.(left := g.right)), Restored(t.(right := g.left));
    assert Avl(a) && Avl(b);
    var u := TwiceRaisedRight(t);
    assert u.right == a && u.left == b;
    RaisedLeftEntries(t.right);
    RaisedRightEntries(t.(right := RaisedLeft(t.right)));
  }
}
