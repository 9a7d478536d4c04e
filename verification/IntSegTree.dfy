/** The index of src/tree_help.c from one tree to the other: it is read off the linked list of an integer-keyed
    red-black tree, and its segments stand in a red-black tree ordered by the overlap comparator. */
module IntSegTree {
  import opened TreeHeap
  import opened ThreadedTrees
  import opened TreeRuns
  import RbTrees
  import S = SegmentTree

  // --- reading the tree that is to be replaced

  /** The list of a tree with the values of its nodes; the keys are of type size_t. */
  ghost predicate Reads(s: seq<Entry>, values: map<TreeNode, int>, entries: seq<S.Entry>) {
    && |entries| == |s|
    && forall i :: 0 <= i < |s| ==>
         s[i].node in values && entries[i].key == s[i].key && entries[i].value == values[s[i].node]
  }

  /** The walk with `rb_first` and `rb_next`. */
  method ReadList(tree: ThreadedTree) returns (entries: seq<S.Entry>)
    requires tree.Linked() && forall e :: e in Entries(tree.shape) ==> e.key >= 0
    ensures Reads(Entries(tree.shape), Values(tree.nodes), entries) && S.Increasing(entries)
  {
    ghost var s := Entries(tree.shape);
    KeysInNodes(tree);
    hide Entries, Sorted, Reads;
    NoReads(s, Values(tree.nodes));
    entries := [];
    var node := tree.head;
    while node != null
      invariant |entries| <= |s| && Reads(s[..|entries|], Values(tree.nodes), entries)
      invariant node == if |entries| < |s| then s[|entries|].node else null
      decreases |s| - |entries|
    {
      ghost var k := |entries|;
      assert s[k] in s && node == s[k].node;
      OneMoreRead(s, Values(tree.nodes), entries, S.Entry(node.key, node.value));
      entries := entries + [S.Entry(node.key, node.value)];
      node := node.next;
      if k + 1 < |s| { assert s[k].node.next == s[k + 1].node; }
    }
    assert s[..|s|] == s;
    SortedReads(s, Values(tree.nodes), entries);
  }

  lemma NoReads(s: seq<Entry>, values: map<TreeNode, int>)
    ensures Reads(s[..0], values, [])
  {
  }

  lemma OneMoreRead(s: seq<Entry>, values: map<TreeNode, int>, entries: seq<S.Entry>, e: S.Entry)
    requires |entries| < |s| && Reads(s[..|entries|], values, entries)
    requires s[|entries|].node in values && e.key == s[|entries|].key && e.value == values[s[|entries|].node]
    ensures Reads(s[..|entries| + 1], values, entries + [e])
  {
    assert s[..|entries| + 1] == s[..|entries|] + [s[|entries|]];
  }

  lemma KeysInNodes(tree: ThreadedTree)
    requires tree.Linked()
    ensures forall i :: 0 <= i < |Entries(tree.shape)| ==>
      Entries(tree.shape)[i].node in tree.nodes && Entries(tree.shape)[i].node.key == Entries(tree.shape)[i].key
    ensures Sorted(Entries(tree.shape))
  {
    var s := Entries(tree.shape);
    forall i | 0 <= i < |s|
      ensures s[i].node in tree.nodes && s[i].node.key == s[i].key
    {
      EntryInTable(tree.shape, null, s[i]);
    }
  }

  lemma {:induction false} EntryInTable(t: Tree, q: TreeNode?, e: Entry)
    requires Distinct(t) && e in Entries(t)
    ensures e.node in Cells(t, q) && Cells(t, q)[e.node].key == e.key
  {
    HoleCell(Top, t);
    if e in Entries(t.left) {
      EntryInTable(t.left, t.node, e);
    } else if e in Entries(t.right) {
      EntryInTable(t.right, t.node, e);
    }
  }

  lemma SortedReads(s: seq<Entry>, values: map<TreeNode, int>, entries: seq<S.Entry>)
    requires Sorted(s) && Reads(s, values, entries)
    ensures S.Increasing(entries)
  {
    forall i, j | 0 <= i < j < |entries|
      ensures entries[i].key < entries[j].key
    {
      assert s[i].key < s[j].key;
    }
  }

  // --- the tree of segments

  /** The nodes of the tree stand for the segments, in order: each holds the number of its segment, whose beginning
      is its key. */
  ghost predicate Catalogued(s: seq<Entry>, values: map<TreeNode, int>, segs: seq<S.Segment>) {
    |s| == |segs| && Numbered(s, values) && forall i :: 0 <= i < |s| ==> s[i].key == segs[i].begin
  }

  /** All segments before the hole end before b, all after it begin after e. */
  ghost predicate Aside(path: Path, segs: seq<S.Segment>, b: nat, e: nat) {
    && |Before(path)| + |After(path)| <= |segs|
    && (forall i :: 0 <= i < |Before(path)| ==> segs[i].end < b)
    && (forall i :: |segs| - |After(path)| <= i < |segs| ==> e < segs[i].begin)
  }

  /** The number in a node is its place. */
  lemma NumberHere(tree: ThreadedTree, segs: seq<S.Segment>, path: Path, t: Tree)
    requires tree.Linked() && Catalogued(Entries(tree.shape), Values(tree.nodes), segs)
    requires Plug(path, t) == tree.shape && t.Node?
    ensures t.node in tree.nodes && t.node.value == |Before(path)| + |Entries(t.left)| < |segs|
    ensures |segs| == |Before(path)| + |Entries(t.left)| + 1 + |Entries(t.right)| + |After(path)|
  {
    See(tree, path, t);
    EntriesPlug(path, t);
    var n := |Before(path)| + |Entries(t.left)|;
    assert Entries(tree.shape)[n] == Entry(t.node, t.key);
  }

  lemma AsideLeft(path: Path, t: Tree, segs: seq<S.Segment>, b: nat, e: nat, n: nat)
    requires t.Node? && Aside(path, segs, b, e) && S.Ranged(segs)
    requires n == |Before(path)| + |Entries(t.left)| && |segs| == n + 1 + |Entries(t.right)| + |After(path)|
    ensures e < segs[n].begin ==> Aside(InLeft(path, t.node, t.key, t.mark, t.right), segs, b, e)
    ensures segs[n].end < b ==> Aside(InRight(path, t.node, t.key, t.mark, t.left), segs, b, e)
  {
    if e < segs[n].begin {
      forall i | n <= i < |segs|
        ensures e < segs[i].begin
      {
        if i > n { assert segs[n].end < segs[i].begin && segs[n].begin <= segs[n].end; }
      }
    }
    if segs[n].end < b {
      forall i | 0 <= i <= n
        ensures segs[i].end < b
      {
        if i < n { assert segs[i].end < segs[n].begin && segs[n].begin <= segs[n].end; }
      }
    }
  }

  /** The descent of the find and insert functions with a comparator, for the overlap comparator. */
  method DescendSegments(tree: ThreadedTree, segs: seq<S.Segment>, b: nat, e: nat)
    returns (cur: TreeNode?, parent: TreeNode?, isLeft: bool, ghost path: Path, ghost t: Tree)
    requires tree.Linked() && S.Ranged(segs) && Catalogued(Entries(tree.shape), Values(tree.nodes), segs)
    ensures Plug(path, t) == tree.shape && cur == Root(t) && parent == Above(path) && (path.InLeft? <==> isLeft)
    ensures Aside(path, segs, b, e) && |segs| == |Before(path)| + |Entries(t)| + |After(path)|
    ensures cur != null ==>
      cur in tree.nodes && 0 <= cur.value < |segs| &&
      S.Compare(b, e, segs[cur.value].begin, segs[cur.value].end) == 0
  {
    hide Catalogued, S.Ranged, Aside;
    cur, parent, isLeft, path, t := tree.root, null, false, Top, tree.shape;
    StartAside(tree, segs, b, e);
    while cur != null
      invariant tree.Holds(tree.shape) && Plug(path, t) == tree.shape && cur == Root(t) && parent == Above(path)
      invariant Aside(path, segs, b, e) && |segs| == |Before(path)| + |Entries(t)| + |After(path)|
      invariant path.InLeft? <==> isLeft
      decreases t
    {
      HoleCell(path, t);
      NumberHere(tree, segs, path, t);
      var n := cur.value;
      AsideLeft(path, t, segs, b, e, n);
      var c := S.Compare(b, e, segs[n].begin, segs[n].end);
      if c < 0 {
        parent, cur, isLeft := cur, cur.left, true;
        path, t := InLeft(path, t.node, t.key, t.mark, t.right), t.left;
      } else if c > 0 {
        parent, cur, isLeft := cur, cur.right, false;
        path, t := InRight(path, t.node, t.key, t.mark, t.left), t.right;
      } else {
        return;
      }
    }
  }

  lemma StartAside(tree: ThreadedTree, segs: seq<S.Segment>, b: nat, e: nat)
    requires Catalogued(Entries(tree.shape), Values(tree.nodes), segs)
    ensures Aside(Top, segs, b, e) && |segs| == |Before(Top)| + |Entries(tree.shape)| + |After(Top)|
  {
  }

  // --- inserting

  /** The segments so far, and one behind them all. */
  lemma NewSegment(s: seq<Entry>, values: map<TreeNode, int>, segs: seq<S.Segment>, path: Path, r: S.Segment)
    requires Catalogued(s, values, segs) && S.Ranged(segs + [r]) && Aside(path, segs, r.begin, r.end)
    requires s == Before(path) + After(path)
    ensures After(path) == [] && Brackets(path, r.begin) && S.Ranged(segs)
  {
    var all := segs + [r];
    assert all[|segs|] == r;
    assert forall i :: 0 <= i < |segs| ==> all[i] == segs[i];
    forall i | 0 <= i < |segs|
      ensures segs[i].begin <= segs[i].end < r.begin
    {
      assert all[i].end < all[|segs|].begin;
    }
    assert |segs| > 0 ==> segs[|segs| - 1].begin < r.begin <= r.end;
    forall x | x in Before(path)
      ensures x.key < r.begin
    {
      var i :| 0 <= i < |Before(path)| && Before(path)[i] == x;
      assert s[i] == x;
    }
  }

  lemma CataloguedMore(s: seq<Entry>, values: map<TreeNode, int>, segs: seq<S.Segment>, r: S.Segment, node: TreeNode)
    requires Catalogued(s, values, segs) && node !in values && AllBelow(s, r.begin)
    ensures Catalogued(Inserted(s, Entry(node, r.begin)), values[node := |segs|], segs + [r])
  {
    var e := Entry(node, r.begin);
    InsertedBetween(s, e, []);
    assert s + [] == s && s + [e] + [] == s + [e];
  }

  /** `rb_tree_insert_user` of a segment that lies behind all there are: its number goes to the end of the list. */
  method InsertSegment(tree: ThreadedTree, segs: seq<S.Segment>, r: S.Segment)
    requires RbTrees.Valid(tree) && S.Ranged(segs + [r])
    requires Catalogued(Entries(tree.shape), Values(tree.nodes), segs)
    modifies tree
    modifies tree.nodes`left, tree.nodes`right, tree.nodes`parent, tree.nodes`mark, tree.nodes`prev, tree.nodes`next
    ensures RbTrees.Valid(tree) && fresh(tree.nodes - old(tree.nodes))
    ensures Catalogued(Entries(tree.shape), Values(tree.nodes), segs + [r])
  {
    var parent, isLeft;
    ghost var path;
    ghost var s, values := Entries(tree.shape), Values(tree.nodes);
    parent, isLeft, path := PlaceOf(tree, segs, r);
    BelowAll(s, values, segs, r);
    hide RbTrees.Valid, Catalogued, S.Ranged, Inserted, Entries, AllBelow, Brackets, Values, Plug;
    var node := PutNumber(tree, r.begin, |segs|, parent, isLeft, path);
    CataloguedMore(s, values, segs, r, node);
  }

  method PutNumber(tree: ThreadedTree, key: int, value: int, parent: TreeNode?, isLeft: bool, ghost path: Path)
    returns (node: TreeNode)
    requires RbTrees.Valid(tree)
    requires Plug(path, Leaf) == tree.shape && Brackets(path, key)
    requires parent == Above(path) && (path.InLeft? <==> isLeft)
    modifies tree
    modifies tree.nodes`left, tree.nodes`right, tree.nodes`parent, tree.nodes`mark, tree.nodes`prev, tree.nodes`next
    ensures RbTrees.Valid(tree) && fresh(tree.nodes - old(tree.nodes)) && node !in old(Values(tree.nodes))
    ensures Entries(tree.shape) == Inserted(old(Entries(tree.shape)), Entry(node, key))
    ensures Values(tree.nodes) == old(Values(tree.nodes))[node := value]
  {
    hide RbTrees.Valid, Inserted, Entries, Brackets, Plug;
    ghost var values := Values(tree.nodes);
    node := RbTrees.AddNode(tree, key, value, parent, isLeft, path);
    assert Values(tree.nodes) == values[node := value];
  }

  lemma BelowAll(s: seq<Entry>, values: map<TreeNode, int>, segs: seq<S.Segment>, r: S.Segment)
    requires Catalogued(s, values, segs) && S.Ranged(segs + [r])
    ensures AllBelow(s, r.begin)
  {
    var all := segs + [r];
    forall x | x in s
      ensures x.key < r.begin
    {
      var i :| 0 <= i < |s| && s[i] == x;
      assert all[i] == segs[i] && all[i].end < all[|segs|].begin;
    }
  }

  method PlaceOf(tree: ThreadedTree, segs: seq<S.Segment>, r: S.Segment)
    returns (parent: TreeNode?, isLeft: bool, ghost path: Path)
    requires tree.Linked() && S.Ranged(segs + [r])
    requires Catalogued(Entries(tree.shape), Values(tree.nodes), segs)
    ensures Plug(path, Leaf) == tree.shape && Brackets(path, r.begin)
    ensures parent == Above(path) && (path.InLeft? <==> isLeft)
  {
    hide S.Ranged, Catalogued, Entries, Values, Aside, Before, After, Brackets, ThreadedTree.Linked, S.Compare;
    RangedFront(segs, r);
    var cur;
    ghost var t;
    cur, parent, isLeft, path, t := DescendSegments(tree, segs, r.begin, r.end);
    if cur != null {
      NoOverlap(segs, r, cur.value);
      assert false;
    }
    AroundLeaf(path);
    NewSegment(Entries(tree.shape), Values(tree.nodes), segs, path, r);
  }

  lemma AroundLeaf(path: Path)
    ensures Entries(Plug(path, Leaf)) == Before(path) + After(path)
  {
    EntriesPlug(path, Leaf);
    assert Before(path) + [] + After(path) == Before(path) + After(path);
  }

  lemma RangedFront(segs: seq<S.Segment>, r: S.Segment)
    requires S.Ranged(segs + [r])
    ensures S.Ranged(segs)
  {
    var all := segs + [r];
    assert forall i :: 0 <= i < |segs| ==> all[i] == segs[i];
  }

  lemma NoOverlap(segs: seq<S.Segment>, r: S.Segment, i: nat)
    requires S.Ranged(segs + [r]) && i < |segs|
    ensures S.Compare(r.begin, r.end, segs[i].begin, segs[i].end) > 0
  {
    var all := segs + [r];
    assert all[i] == segs[i] && all[|segs|] == r && all[i].end < all[|segs|].begin;
  }

  /** All segments, one after another. */
  method InsertAll(segs: seq<S.Segment>) returns (tree: ThreadedTree)
    requires S.Ranged(segs)
    ensures fresh(tree) && fresh(tree.nodes) && tree.Linked()
    ensures Catalogued(Entries(tree.shape), Values(tree.nodes), segs)
  {
    hide RbTrees.Valid, Catalogued, S.Ranged, Values, Entries;
    tree := EmptyIndex();
    var i := 0;
    assert segs[..0] == [];
    while i < |segs|
      invariant 0 <= i <= |segs| && fresh(tree) && fresh(tree.nodes) && RbTrees.Valid(tree)
      invariant Catalogued(Entries(tree.shape), Values(tree.nodes), segs[..i])
    {
      RangedPrefix(segs, i + 1);
      assert segs[..i + 1] == segs[..i] + [segs[i]];
      InsertSegment(tree, segs[..i], segs[i]);
      i := i + 1;
    }
    assert segs[..i] == segs;
    RbLinked(tree);
  }

  method EmptyIndex() returns (tree: ThreadedTree)
    ensures fresh(tree) && fresh(tree.nodes) && RbTrees.Valid(tree)
    ensures Catalogued(Entries(tree.shape), Values(tree.nodes), [])
  {
    tree := new ThreadedTree();
  }

  lemma RbLinked(tree: ThreadedTree)
    requires RbTrees.Valid(tree)
    ensures tree.Linked()
  {
  }

  lemma RangedPrefix(segs: seq<S.Segment>, i: nat)
    requires S.Ranged(segs) && i <= |segs|
    ensures S.Ranged(segs[..i])
  {
    assert forall k :: 0 <= k < i ==> segs[..i][k] == segs[k];
  }

  // --- finding

  /** `int_seg_tree_find`. */
  method Find(tree: ThreadedTree, segs: seq<S.Segment>, key: nat) returns (value: int)
    requires tree.Linked() && S.Ranged(segs) && Catalogued(Entries(tree.shape), Values(tree.nodes), segs)
    ensures S.Covered(key, segs) ==>
      exists i :: 0 <= i < |segs| && segs[i].begin <= key <= segs[i].end &&
                  |segs[i].values| > key - segs[i].begin && value == segs[i].values[key - segs[i].begin]
    ensures !S.Covered(key, segs) ==> value == 0
  {
    var cur, parent, isLeft;
    ghost var path, t;
    cur, parent, isLeft, path, t := DescendSegments(tree, segs, key, key);
    if cur != null {
      var r := segs[cur.value];
      assert segs[cur.value] == r && r.begin <= key <= r.end && |r.values| == r.end - r.begin + 1;
      value := r.values[key - r.begin];
    } else {
      NoneCovers(path, segs, key);
      value := 0;
    }
  }

  lemma NoneCovers(path: Path, segs: seq<S.Segment>, key: nat)
    requires Aside(path, segs, key, key) && |segs| == |Before(path)| + |After(path)|
    ensures !S.Covered(key, segs)
  {
  }

  /** The value of a key in the tree that is replaced, or null. */
  ghost function ValueOf(s: seq<Entry>, values: map<TreeNode, int>, key: int): int {
    var node := Lookup(s, key);
    if node == null || node !in values then 0 else values[node]
  }

  lemma {:induction false} SameLookup(s: seq<Entry>, values: map<TreeNode, int>, entries: seq<S.Entry>, key: nat)
    requires Reads(s, values, entries) && S.Increasing(entries)
    ensures S.Lookup(entries, key) == ValueOf(s, values, key)
  {
    if i :| 0 <= i < |entries| && entries[i].key == key {
      S.LookupAt(entries, i);
      FoundAt(s, entries, key, i);
    } else {
      S.LookupAbsent(entries, key);
      NotFound(s, key);
    }
  }

  lemma FoundAt(s: seq<Entry>, entries: seq<S.Entry>, key: nat, i: nat)
    requires |entries| == |s| && S.Increasing(entries) && i < |s| && entries[i].key == key
    requires forall k :: 0 <= k < |s| ==> entries[k].key == s[k].key
    ensures Lookup(s, key) == s[i].node
  {
    forall x | x in s[..i]
      ensures x.key < key
    {
      var k :| 0 <= k < i && s[k] == x;
      assert entries[k].key < entries[i].key;
    }
    FoundBetween(s[..i], s[i], s[i + 1..]);
    assert s[..i] + [s[i]] + s[i + 1..] == s;
  }

  /** From tree to tree: the index built from a tree gives for every key what that tree gives, and null for keys
      that are not there. */
  method IndexAgrees(tree: ThreadedTree, interval: nat, key: nat) returns (value: int)
    requires tree.Linked() && forall e :: e in Entries(tree.shape) ==> e.key >= 0
    ensures value == ValueOf(Entries(tree.shape), Values(tree.nodes), key)
  {
    hide Entries, Values, Reads, Catalogued, S.Ranged, ThreadedTree.Linked, ValueOf;
    var entries := ReadList(tree);
    var segs := S.CreateSegments(entries, interval);
    S.IndexRanged(segs, entries);
    var index := InsertAll(segs);
    value := Find(index, segs, key);
    SameLookup(Entries(tree.shape), Values(tree.nodes), entries, key);
    Agrees(segs, entries, key, value);
  }

  lemma Agrees(segs: seq<S.Segment>, entries: seq<S.Entry>, key: nat, value: int)
    requires S.Indexes(segs, entries)
    requires S.Covered(key, segs) ==>
      exists i :: 0 <= i < |segs| && segs[i].begin <= key <= segs[i].end &&
                  |segs[i].values| > key - segs[i].begin && value == segs[i].values[key - segs[i].begin]
    requires !S.Covered(key, segs) ==> value == 0
    ensures value == S.Lookup(entries, key)
  {
    if !S.Covered(key, segs) {
      forall i | 0 <= i < |entries|
        ensures entries[i].key != key
      {
        assert S.Covered(entries[i].key, segs);
      }
      S.LookupAbsent(entries, key);
    }
  }
}
