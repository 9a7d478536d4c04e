/** What the lists that the tree operations are specified by mean: a finite map from keys to nodes,
    and bounds on the height of the trees that hold it. */
module TreeLaws {
  import opened Arithmetic
  import opened TreeHeap
  import opened ThreadedTrees
  import RbShape
  import AvlShape

  // --- the map

  lemma {:induction false} LookupInserted(s: seq<Entry>, e: Entry, key: int)
    requires Lookup(s, e.key) == null
    ensures Lookup(Inserted(s, e), key) == if key == e.key then e.node else Lookup(s, key)
  {
    if s == [] || e.key < s[0].key {
      assert ([e] + s)[1..] == s;
    } else {
      LookupInserted(s[1..], e, key);
      assert ([s[0]] + Inserted(s[1..], e))[1..] == Inserted(s[1..], e);
    }
  }

  lemma {:induction false} LookupWithout(s: seq<Entry>, x: TreeNode, key: int)
    requires Sorted(s)
    ensures Lookup(Without(s, x), key) == if Lookup(s, key) == x then null else Lookup(s, key)
  {
    if s != [] {
      LookupWithout(s[1..], x, key);
      if s[0].node == x {
        if s[0].key == key {
          NotFound(s[1..], key);
        }
      } else {
        assert ([s[0]] + Without(s[1..], x))[1..] == Without(s[1..], x);
      }
    }
  }

  /** Erasing the node just inserted gives back the list there was before. */
  lemma {:induction false} EraseUndoesInsert(s: seq<Entry>, e: Entry)
    requires forall k :: 0 <= k < |s| ==> s[k].node != e.node
    ensures Without(Inserted(s, e), e.node) == s
  {
    if s == [] || e.key < s[0].key {
      assert ([e] + s)[1..] == s;
      WithoutAbsent(s, e.node);
    } else {
      EraseUndoesInsert(s[1..], e);
      assert ([s[0]] + Inserted(s[1..], e))[1..] == Inserted(s[1..], e);
    }
  }

  // --- heights

  ghost function Size(t: Tree): nat {
    if t.Leaf? then 0 else Size(t.left) + 1 + Size(t.right)
  }

  lemma {:induction false} SizeIsEntries(t: Tree)
    ensures |Entries(t)| == Size(t)
  {
    if t.Node? {
      SizeIsEntries(t.left);
      SizeIsEntries(t.right);
    }
  }

  lemma {:induction false} BlackNodes(t: Tree)
    requires RbShape.Balanced(t)
    ensures Pow2(RbShape.BlackHeight(t)) <= Size(t) + 1
  {
    if t.Node? {
      BlackNodes(t.left);
      BlackNodes(t.right);
    }
  }

  lemma {:induction false} HalfBlack(t: Tree)
    requires RbShape.Balanced(t) && RbShape.NoRedRed(t)
    ensures AvlShape.Height(t) <= 2 * RbShape.BlackHeight(t) + (if RbShape.Black(t) then 0 else 1)
  {
    if t.Node? {
      HalfBlack(t.left);
      HalfBlack(t.right);
    }
  }

  lemma SquareMonotone(p: nat, n: nat)
    requires p <= n
    ensures p * p <= n * n
  {
    assert p * p <= p * n;
    assert p * n <= n * n;
  }

  /** A red-black tree of n nodes is at most 2 log2(n + 1) high. */
  lemma {:induction false} RedBlackHeight(t: Tree)
    requires RbShape.RedBlack(t)
    ensures Pow2(AvlShape.Height(t)) <= (Size(t) + 1) * (Size(t) + 1)
  {
    var b := RbShape.BlackHeight(t);
    BlackNodes(t);
    HalfBlack(t);
    if AvlShape.Height(t) < b + b { Pow2Order(AvlShape.Height(t), b + b); }
    Pow2Sum(b, b);
    SquareMonotone(Pow2(b), Size(t) + 1);
  }

  ghost function Fib(n: nat): nat {
    if n < 2 then n else Fib(n - 1) + Fib(n - 2)
  }

  lemma {:induction false} FibMonotone(n: nat)
    ensures Fib(n) <= Fib(n + 1)
  {
    if n > 1 {
      FibMonotone(n - 1);
    }
  }

  lemma {:induction false} FibOfNear(a: nat, b: nat)
    requires AvlShape.Near(a, b, 1)
    ensures Fib(AvlShape.Max(a, b) + 3) <= Fib(a + 2) + Fib(b + 2)
  {
    var h: nat := AvlShape.Max(a, b);
    FibMonotone(h + 1);
    assert Fib(h + 3) == Fib(h + 2) + Fib(h + 1);
  }

  /** An AVL tree of height h has at least Fib(h + 2) - 1 nodes. */
  lemma {:induction false} AvlHeight(t: Tree)
    requires AvlShape.Avl(t)
    ensures Fib(AvlShape.Height(t) + 2) <= Size(t) + 1
  {
    if t.Node? {
      AvlHeight(t.left);
      AvlHeight(t.right);
      FibOfNear(AvlShape.Height(t.left), AvlShape.Height(t.right));
    }
  }
}
