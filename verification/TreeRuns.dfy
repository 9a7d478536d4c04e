/** Whole runs of inserts and erases: either tree stays balanced, and means the finite map that the
    operations describe. */
module TreeRuns {
  import Arithmetic
  import opened TreeHeap
  import opened ThreadedTrees
  import TreeLaws
  import AvlShape
  import RbTrees
  import RbTreeErase
  import AvlTrees
  import AvlErase

  datatype Op = Insert(key: int, value: int) | Erase(key: int)

  function Applied(m: map<int, int>, op: Op): map<int, int> {
    match op
    case Insert(k, v) => m[k := v]
    case Erase(k) => m - {k}
  }

  /** The map after a run of operations on an empty one. */
  function Replay(ops: seq<Op>): map<int, int> {
    if ops == [] then map[]
    else
      Applied(Replay(ops[..|ops| - 1]), ops[|ops| - 1])
  }

  ghost function Values(nodes: set<TreeNode>): map<TreeNode, int>
    reads nodes`value
  {
    map n | n in nodes :: n.value
  }

  /** The value of every node is its number in the list. */
  ghost predicate Numbered(s: seq<Entry>, values: map<TreeNode, int>) {
    forall i :: 0 <= i < |s| ==> s[i].node in values && values[s[i].node] == i
  }

  /** The keys found, and the values of their nodes, are those of the map. */
  ghost predicate Means(s: seq<Entry>, values: map<TreeNode, int>, m: map<int, int>) {
    forall k :: (k in m <==> Lookup(s, k) != null) && (k in m ==> Lookup(s, k) in values && values[Lookup(s, k)] == m[k])
  }

  lemma {:induction false} LookupInNodes(nodes: set<TreeNode>, s: seq<Entry>, key: int)
    requires InNodes(nodes, s) && Lookup(s, key) != null
    ensures Lookup(s, key) in nodes
  {
    if s[0].key != key {
      assert InNodes(nodes, s[1..]);
      LookupInNodes(nodes, s[1..], key);
    }
  }

  lemma {:induction false} LookupKey(s: seq<Entry>, key: int, other: int)
    requires Sorted(s) && Lookup(s, key) != null && Lookup(s, other) == Lookup(s, key) && DistinctNodes(s)
    ensures other == key
  {
    if s[0].key != key && s[0].key != other {
      assert forall i, j :: 0 <= i < j < |s[1..]| ==> s[1..][i].node == s[i + 1].node && s[1..][j].node == s[j + 1].node;
      LookupKey(s[1..], key, other);
    } else if s[0].key != other {
      LookupElsewhere(s, other);
    } else if s[0].key != key {
      LookupElsewhere(s, key);
    }
  }

  lemma {:induction false} LookupAt(s: seq<Entry>, key: int) returns (i: nat)
    requires Lookup(s, key) != null
    ensures i < |s| && s[i].node == Lookup(s, key) && s[i].key == key
  {
    if s[0].key == key {
      i := 0;
    } else {
      var j := LookupAt(s[1..], key);
      i := j + 1;
    }
  }

  lemma LookupElsewhere(s: seq<Entry>, key: int)
    requires s != [] && DistinctNodes(s) && Lookup(s, key) != null && s[0].key != key
    ensures Lookup(s, key) != s[0].node
  {
    var i := LookupAt(s, key);
    assert s[0].node != s[i].node;
  }

  /** What an insertion leaves in the list is what it does to the map. */
  lemma InsertMeans(s: seq<Entry>, values: map<TreeNode, int>, m: map<int, int>, key: int, value: int,
                    node: TreeNode, s': seq<Entry>)
    requires Means(s, values, m) && Sorted(s) && DistinctNodes(s)
    requires Lookup(s, key) != null ==> node == Lookup(s, key) && s' == s
    requires Lookup(s, key) == null ==> node !in values && s' == Inserted(s, Entry(node, key))
    ensures Means(s', values[node := value], m[key := value])
  {
    forall k: int
      ensures (k in m[key := value] <==> Lookup(s', k) != null)
      ensures k in m[key := value] ==>
        Lookup(s', k) in values[node := value] && values[node := value][Lookup(s', k)] == m[key := value][k]
    {
      if Lookup(s, key) == null {
        TreeLaws.LookupInserted(s, Entry(node, key), k);
      } else if Lookup(s, k) == node {
        LookupKey(s, key, k);
      }
    }
  }

  /** And so with an erasure. */
  lemma EraseMeans(s: seq<Entry>, values: map<TreeNode, int>, m: map<int, int>, key: int)
    requires Means(s, values, m) && Sorted(s) && DistinctNodes(s) && Lookup(s, key) != null
    ensures Means(Without(s, Lookup(s, key)), values - {Lookup(s, key)}, m - {key})
  {
    var x := Lookup(s, key);
    var s' := Without(s, x);
    forall k: int
      ensures (k in m - {key} <==> Lookup(s', k) != null)
      ensures k in m - {key} ==> Lookup(s', k) in values - {x} && (values - {x})[Lookup(s', k)] == (m - {key})[k]
    {
      TreeLaws.LookupWithout(s, x, k);
      if k == key {
      } else if Lookup(s, k) == x {
        LookupKey(s, key, k);
      }
    }
  }

  lemma AbsentMeans(s: seq<Entry>, values: map<TreeNode, int>, m: map<int, int>, key: int)
    requires Means(s, values, m) && Lookup(s, key) == null
    ensures m - {key} == m
  {
    assert key !in m;
  }

  /** What the list of a linked tree is made of. */
  lemma LinkedList(tree: ThreadedTree)
    requires tree.Linked()
    ensures InNodes(tree.nodes, Entries(tree.shape)) && Sorted(Entries(tree.shape)) && DistinctNodes(Entries(tree.shape))
  {
    EntriesDistinct(tree.shape);
  }

  lemma ReplayNext(ops: seq<Op>, n: nat)
    requires n < |ops|
    ensures Replay(ops[..n + 1]) ==
      Applied(Replay(ops[..n]), ops[n])
  {
    assert ops[..n + 1][..n] == ops[..n];
  }

  lemma RbList(tree: ThreadedTree)
    requires RbTrees.Valid(tree)
    ensures InNodes(tree.nodes, Entries(tree.shape)) && Sorted(Entries(tree.shape)) && DistinctNodes(Entries(tree.shape))
  {
    LinkedList(tree);
  }

  lemma AvlList(tree: ThreadedTree)
    requires AvlTrees.Valid(tree)
    ensures InNodes(tree.nodes, Entries(tree.shape)) && Sorted(Entries(tree.shape)) && DistinctNodes(Entries(tree.shape))
  {
    LinkedList(tree);
  }

  lemma RbHeight(tree: ThreadedTree)
    requires RbTrees.Valid(tree)
    ensures Arithmetic.Pow2(AvlShape.Height(tree.shape)) <= (tree.size + 1) * (tree.size + 1)
  {
    TreeLaws.RedBlackHeight(tree.shape);
    TreeLaws.SizeIsEntries(tree.shape);
  }

  lemma AvlHeight(tree: ThreadedTree)
    requires AvlTrees.Valid(tree)
    ensures TreeLaws.Fib(AvlShape.Height(tree.shape) + 2) <= tree.size + 1
  {
    TreeLaws.AvlHeight(tree.shape);
    TreeLaws.SizeIsEntries(tree.shape);
  }

  lemma NodeInList(s: seq<Entry>, node: TreeNode, key: int, nodes: set<TreeNode>, s': seq<Entry>)
    requires InNodes(nodes, s')
    requires if Lookup(s, key) != null then node == Lookup(s, key) && s' == s else s' == Inserted(s, Entry(node, key))
    ensures node in nodes
  {
    if Lookup(s, key) != null {
      LookupInNodes(nodes, s, key);
    } else {
      TreeLaws.LookupInserted(s, Entry(node, key), key);
      LookupInNodes(nodes, s', key);
    }
  }

  method RbEmpty() returns (tree: ThreadedTree)
    ensures RbTrees.Valid(tree) && fresh(tree) && fresh(tree.nodes)
    ensures Means(Entries(tree.shape), Values(tree.nodes), Replay([]))
  {
    tree := new ThreadedTree();
  }

  /** After any run of operations the tree is a red-black search tree threaded in order, and finds exactly
      what the map holds. */
  method RunRedBlack(ops: seq<Op>) returns (tree: ThreadedTree)
    ensures RbTrees.Valid(tree)
    ensures Means(Entries(tree.shape), Values(tree.nodes), Replay(ops))
    ensures Arithmetic.Pow2(AvlShape.Height(tree.shape)) <= (tree.size + 1) * (tree.size + 1)
  {
    hide Means, Replay, Values, RbTrees.Valid;
    tree := RbEmpty();
    var n: nat := 0;
    assert ops[..0] == [];
    while n < |ops|
      invariant n <= |ops| && fresh(tree) && fresh(tree.nodes) && RbTrees.Valid(tree)
      invariant Means(Entries(tree.shape), Values(tree.nodes), Replay(ops[..n]))
      decreases |ops| - n
    {
      ReplayNext(ops, n);
      RbApply(tree, ops[n], Replay(ops[..n]));
      n := n + 1;
    }
    assert ops[..n] == ops;
    RbHeight(tree);
  }

  method RbApply(tree: ThreadedTree, op: Op, ghost m: map<int, int>)
    requires RbTrees.Valid(tree) && Means(Entries(tree.shape), Values(tree.nodes), m)
    modifies tree
    modifies tree.nodes`left, tree.nodes`right, tree.nodes`parent, tree.nodes`mark, tree.nodes`prev, tree.nodes`next
    modifies tree.nodes`value
    ensures RbTrees.Valid(tree) && fresh(tree.nodes - old(tree.nodes))
    ensures Means(Entries(tree.shape), Values(tree.nodes), Applied(m, op))
  {
    hide Means, Values;
    if op.Insert? {
      RbInsert(tree, op.key, op.value, m);
    } else {
      RbEraseKey(tree, op.key, m);
    }
  }

  method RbInsert(tree: ThreadedTree, key: int, value: int, ghost m: map<int, int>)
    requires RbTrees.Valid(tree) && Means(Entries(tree.shape), Values(tree.nodes), m)
    modifies tree
    modifies tree.nodes`left, tree.nodes`right, tree.nodes`parent, tree.nodes`mark, tree.nodes`prev, tree.nodes`next
    modifies tree.nodes`value
    ensures RbTrees.Valid(tree) && fresh(tree.nodes - old(tree.nodes))
    ensures Means(Entries(tree.shape), Values(tree.nodes), m[key := value])
  {
    hide Means, RbTrees.Valid, Lookup, Inserted, Without, Sorted, DistinctNodes, InNodes;
    RbList(tree);
    ghost var s, nodes, values := Entries(tree.shape), tree.nodes, Values(tree.nodes);
    var node := RbTrees.InsertInteger(tree, key, value);
    RbList(tree);
    NodeInList(s, node, key, tree.nodes, Entries(tree.shape));
    InsertMeans(s, values, m, key, value, node, Entries(tree.shape));
    assert Values(tree.nodes) == values[node := value];
  }

  method RbEraseKey(tree: ThreadedTree, key: int, ghost m: map<int, int>)
    requires RbTrees.Valid(tree) && Means(Entries(tree.shape), Values(tree.nodes), m)
    modifies tree
    modifies tree.nodes`left, tree.nodes`right, tree.nodes`parent, tree.nodes`mark, tree.nodes`prev, tree.nodes`next
    ensures RbTrees.Valid(tree) && tree.nodes <= old(tree.nodes)
    ensures Means(Entries(tree.shape), Values(tree.nodes), m - {key})
  {
    hide Means, RbTrees.Valid, Lookup, Inserted, Without, Sorted, DistinctNodes, InNodes;
    RbList(tree);
    ghost var s, values := Entries(tree.shape), Values(tree.nodes);
    var node := RbTrees.FindInteger(tree, key);
    if node != null {
      LookupInNodes(tree.nodes, s, key);
      EraseMeans(s, values, m, key);
    } else {
      AbsentMeans(s, values, m, key);
    }
    RbTreeErase.Erase(tree, node);
    assert Values(tree.nodes) == if node != null then values - {node} else values;
  }

  method AvlEmpty() returns (tree: ThreadedTree)
    ensures AvlTrees.Valid(tree) && fresh(tree) && fresh(tree.nodes)
    ensures Means(Entries(tree.shape), Values(tree.nodes), Replay([]))
  {
    tree := new ThreadedTree();
  }

  /** After any run of operations the tree is an AVL search tree threaded in order, and finds exactly what
      the map holds. */
  method RunAvl(ops: seq<Op>) returns (tree: ThreadedTree)
    ensures AvlTrees.Valid(tree)
    ensures Means(Entries(tree.shape), Values(tree.nodes), Replay(ops))
    ensures TreeLaws.Fib(AvlShape.Height(tree.shape) + 2) <= tree.size + 1
  {
    hide Means, Replay, Values, AvlTrees.Valid;
    tree := AvlEmpty();
    var n: nat := 0;
    assert ops[..0] == [];
    while n < |ops|
      invariant n <= |ops| && fresh(tree) && fresh(tree.nodes) && AvlTrees.Valid(tree)
      invariant Means(Entries(tree.shape), Values(tree.nodes), Replay(ops[..n]))
      decreases |ops| - n
    {
      ReplayNext(ops, n);
      AvlApply(tree, ops[n], Replay(ops[..n]));
      n := n + 1;
    }
    assert ops[..n] == ops;
    AvlHeight(tree);
  }

  method AvlApply(tree: ThreadedTree, op: Op, ghost m: map<int, int>)
    requires AvlTrees.Valid(tree) && Means(Entries(tree.shape), Values(tree.nodes), m)
    modifies tree
    modifies tree.nodes`left, tree.nodes`right, tree.nodes`parent, tree.nodes`mark, tree.nodes`prev, tree.nodes`next
    modifies tree.nodes`value
    ensures AvlTrees.Valid(tree) && fresh(tree.nodes - old(tree.nodes))
    ensures Means(Entries(tree.shape), Values(tree.nodes), Applied(m, op))
  {
    hide Means, Values;
    if op.Insert? {
      AvlInsert(tree, op.key, op.value, m);
    } else {
      AvlEraseKey(tree, op.key, m);
    }
  }

  method AvlInsert(tree: ThreadedTree, key: int, value: int, ghost m: map<int, int>)
    requires AvlTrees.Valid(tree) && Means(Entries(tree.shape), Values(tree.nodes), m)
    modifies tree
    modifies tree.nodes`left, tree.nodes`right, tree.nodes`parent, tree.nodes`mark, tree.nodes`prev, tree.nodes`next
    modifies tree.nodes`value
    ensures AvlTrees.Valid(tree) && fresh(tree.nodes - old(tree.nodes))
    ensures Means(Entries(tree.shape), Values(tree.nodes), m[key := value])
  {
    hide Means, AvlTrees.Valid, Lookup, Inserted, Without, Sorted, DistinctNodes, InNodes;
    AvlList(tree);
    ghost var s, nodes, values := Entries(tree.shape), tree.nodes, Values(tree.nodes);
    var node := AvlTrees.InsertInteger(tree, key, value);
    AvlList(tree);
    NodeInList(s, node, key, tree.nodes, Entries(tree.shape));
    InsertMeans(s, values, m, key, value, node, Entries(tree.shape));
    assert Values(tree.nodes) == values[node := value];
  }

  method AvlEraseKey(tree: ThreadedTree, key: int, ghost m: map<int, int>)
    requires AvlTrees.Valid(tree) && Means(Entries(tree.shape), Values(tree.nodes), m)
    modifies tree
    modifies tree.nodes`left, tree.nodes`right, tree.nodes`parent, tree.nodes`mark, tree.nodes`prev, tree.nodes`next
    ensures AvlTrees.Valid(tree) && tree.nodes <= old(tree.nodes)
    ensures Means(Entries(tree.shape), Values(tree.nodes), m - {key})
  {
    hide Means, AvlTrees.Valid, Lookup, Inserted, Without, Sorted, DistinctNodes, InNodes;
    AvlList(tree);
    ghost var s, values := Entries(tree.shape), Values(tree.nodes);
    var node := AvlTrees.FindInteger(tree, key);
    if node != null {
      LookupInNodes(tree.nodes, s, key);
      EraseMeans(s, values, m, key);
    } else {
      AbsentMeans(s, values, m, key);
    }
    AvlErase.Erase(tree, node);
    assert Values(tree.nodes) == if node != null then values - {node} else values;
  }
}
