/** What makes a tree value a red-black tree, said both of whole trees and of a tree taken apart at
    a hole, so that the two balancing loops of src/rb_tree.c can be followed one frame at a time. */
module RbShape {
  import opened TreeHeap

  const RB_RED := 0
  const RB_BLACK := 1

  ghost predicate Black(t: Tree) {
    t.Leaf? || t.mark != RB_RED
  }

  ghost function Blackness(mark: int): nat {
    if mark != RB_RED then 1 else 0
  }

  /** Black nodes on the leftmost path; in a balanced tree, on every path. */
  ghost function BlackHeight(t: Tree): nat {
    if t.Leaf? then 0 else BlackHeight(t.left) + Blackness(t.mark)
  }

  ghost predicate Balanced(t: Tree) {
    t.Node? ==> BlackHeight(t.left) == BlackHeight(t.right) && Balanced(t.left) && Balanced(t.right)
  }

  ghost predicate IsColour(mark: int) {
    mark == RB_RED || mark == RB_BLACK
  }

  ghost predicate NoRedRed(t: Tree) {
    t.Node? ==>
      && IsColour(t.mark)
      && (t.mark == RB_RED ==> Black(t.left) && Black(t.right))
      && NoRedRed(t.left) && NoRedRed(t.right)
  }

  ghost predicate RedBlack(t: Tree) {
    Black(t) && NoRedRed(t) && Balanced(t)
  }

  // --- the same, around a hole


  /** What hangs in the hole must be black: there is a red node, or nothing, above it. */
  ghost predicate NeedsBlack(path: Path) {
    path.Top? || path.mark == RB_RED
  }

  /** A tree of black height `h` in the hole makes the whole tree balanced. */
  ghost predicate BalancedAround(path: Path, h: int) {
    !path.Top? ==>
      && BlackHeight(Sibling(path)) == h && Balanced(Sibling(path))
      && BalancedAround(path.up, h + Blackness(path.mark))
  }

  ghost predicate NoRedRedAround(path: Path) {
    !path.Top? ==>
      && IsColour(path.mark)
      && (path.mark == RB_RED ==> Black(Sibling(path)) && !NeedsBlack(path.up))
      && NoRedRed(Sibling(path))
      && NoRedRedAround(path.up)
  }

  lemma {:induction false} RedBlackPlug(path: Path, t: Tree)
    ensures RedBlack(Plug(path, t)) <==>
            && Balanced(t) && BalancedAround(path, BlackHeight(t))
            && NoRedRed(t) && NoRedRedAround(path)
            && (NeedsBlack(path) ==> Black(t))
  {
    match path
    case Top =>
    case InLeft(up, n, k, m, r) => RedBlackPlug(up, Node(t, n, k, m, r));
    case InRight(up, n, k, m, l) => RedBlackPlug(up, Node(l, n, k, m, t));
  }

  /** All is well except that the red node in the hole may have a red parent, or be the root. */
  ghost predicate RedInHole(path: Path, t: Tree) {
    && t.Node? && t.mark == RB_RED
    && Balanced(t) && BalancedAround(path, BlackHeight(t))
    && NoRedRed(t) && NoRedRedAround(path)
  }

  /** All is well except that the paths through the hole are one black node short, which painting a
      red root of `t` black would cure. */
  ghost predicate ShortInHole(path: Path, t: Tree) {
    && Balanced(t) && BalancedAround(path, BlackHeight(t) + 1)
    && (t.Node? ==> IsColour(t.mark) && NoRedRed(t.left) && NoRedRed(t.right)) && NoRedRedAround(path)
  }
}
