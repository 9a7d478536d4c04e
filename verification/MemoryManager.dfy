/** The manager of src/memory_pool.c: which pool serves a request, found in the AVL tree of pools by
    "nearby, then next". */
module MemoryManager {
  import opened Arithmetic
  import opened RoundUp
  import opened MemoryPools
  import opened TreeHeap
  import opened ThreadedTrees

  // --- the pools

  /** Pools with rising ranges of sizes: the smallest size of each, before it is rounded up, is one more
      than the largest of the pool before. */
  ghost predicate Pools(ps: seq<Pool>) {
    && (forall i :: 0 <= i < |ps| ==> PoolOk(ps[i]))
    && (ps != [] ==> ps[0].min == ps[0].align)
    && (forall i :: 0 < i < |ps| ==>
          ps[i - 1].max < ps[i].min < ps[i - 1].max + 1 + ps[i].align && ps[i - 1].max < ps[i].max)
  }

  lemma PoolsNext(ps: seq<Pool>, p: Pool)
    requires Pools(ps) && PoolOk(p)
    requires ps == [] ==> p.min == p.align
    requires ps != [] ==> ps[|ps| - 1].max < p.min < ps[|ps| - 1].max + 1 + p.align && ps[|ps| - 1].max < p.max
    ensures Pools(ps + [p])
  {
    var all := ps + [p];
    forall i | 0 < i < |all|
      ensures all[i - 1].max < all[i].min < all[i - 1].max + 1 + all[i].align && all[i - 1].max < all[i].max
    {
    }
  }

  lemma FirstMin(align: nat)
    requires align >= WORD_SIZE && align % WORD_SIZE == 0
    ensures Rounded(WORD_SIZE, align) == align
  {
    if align == WORD_SIZE { Division(WORD_SIZE, align); ZeroRemainder(1, align); }
    else { Division(WORD_SIZE, align); SameDivision(WORD_SIZE / align, 0, WORD_SIZE % align, WORD_SIZE, align); }
  }

  lemma Pow2Multiple(n: nat)
    requires Pow2(n) >= WORD_SIZE
    ensures Pow2(n) % WORD_SIZE == 0
  {
    if n >= 3 {
      Pow2Sum(3, n - 3);
      assert Pow2(3) == 2 * Pow2(2) && Pow2(2) == 2 * Pow2(1) && Pow2(1) == 2 * Pow2(0);
      EightTimes(Pow2(n - 3));
    } else {
      SmallPower(n);
    }
  }

  lemma SmallPower(n: nat)
    requires n < 3
    ensures Pow2(n) < WORD_SIZE
  {
    assert Pow2(0) == 1 && Pow2(1) == 2 * Pow2(0) && Pow2(2) == 2 * Pow2(1);
  }

  lemma EightTimes(x: nat)
    ensures 8 * x % 8 == 0
  {
  }

  lemma TimesKeepsRest(x: nat, c: nat, power: nat)
    requires c > 0 && x % c == 0 && power > 0
    ensures c * power > 0 && (x * power) % (c * power) == 0
  {
    Division(x, c);
    var q := x / c;
    assert x * power == q * (c * power);
    Multiple(power, c);
    ZeroRemainder(q, c * power);
  }

  function Times(x: nat, power: nat): nat {
    x * power
  }

  predicate Fits(align: nat, start: nat) {
    align >= WORD_SIZE && start >= align && start % align == 0
  }

  /** The next alignment and size fit as these do. */
  lemma NextFits(align: nat, start: nat, power: nat, n: nat, g: nat)
    requires align == Pow2(n) && power == Pow2(g) && g >= 1 && Fits(align, start)
    ensures Times(align, power) == Pow2(n + g) && Fits(Times(align, power), Times(start, power))
    ensures start + 1 <= Times(start, power)
  {
    AtLeastTwo(g);
    Pow2Sum(n, g);
    TimesKeepsRest(start, align, power);
    Doubled(align, power);
    Doubled(start, power);
    TimesOrder(align, start, power);
  }

  /** One pool of the manager. */
  method NextPool(align: nat, last: nat, start: nat, ghost n: nat, ghost ps: seq<Pool>) returns (p: Pool)
    requires align == Pow2(n) && Fits(align, start) && Pools(ps) && last <= start
    requires last == if ps == [] then WORD_SIZE else ps[|ps| - 1].max + 1
    ensures Pools(ps + [p]) && p.align == align && p.max == start
  {
    hide Pools, Pow2, Rounded, PoolOk;
    LastOk(ps);
    p := CreatePool(align, last, start, n);
    Pow2Multiple(n);
    if ps == [] { FirstMin(align); } else { RoundedUp(last, align); }
    PoolsNext(ps, p);
  }

  lemma LastOk(ps: seq<Pool>)
    requires Pools(ps)
    ensures ps != [] ==> ps[|ps| - 1].max >= WORD_SIZE
  {
    if ps != [] {
      var p := ps[|ps| - 1];
      StartLarge(p.max, p.align);
    }
  }

  function Power(b: nat, n: nat): nat {
    if n == 0 then 1 else b * Power(b, n - 1)
  }

  /** The pools are laid out in powers: each has `power` times the alignment and the largest size of the one
      before. */
  ghost predicate Spread(ps: seq<Pool>, align: nat, start: nat, power: nat) {
    forall i :: 0 <= i < |ps| ==> ps[i].align == align * Power(power, i) && ps[i].max == start * Power(power, i)
  }

  lemma NextPower(x: nat, power: nat, n: nat)
    ensures Times(x * Power(power, n), power) == x * Power(power, n + 1)
  {
    assert x * Power(power, n) * power == x * (power * Power(power, n));
  }

  lemma SpreadNext(ps: seq<Pool>, p: Pool, align: nat, start: nat, power: nat)
    requires Spread(ps, align, start, power)
    requires p.align == align * Power(power, |ps|) && p.max == start * Power(power, |ps|)
    ensures Spread(ps + [p], align, start, power)
  {
  }

  lemma FirstPower(x: nat, power: nat)
    ensures x == x * Power(power, 0)
  {
  }

  /** `create_memory_manager`: pools up to the largest size, each with `power` times the alignment and the
      sizes of the one before. */
  method CreatePools(align0: nat, start0: nat, max: nat, power: nat, ghost n0: nat, ghost g: nat)
    returns (ps: seq<Pool>)
    requires align0 == Pow2(n0) && align0 >= WORD_SIZE && power == Pow2(g) && g >= 1
    requires start0 > 0 && start0 % align0 == 0
    ensures Pools(ps) && (ps != [] <==> start0 <= max)
    ensures Spread(ps, align0, start0, power)
    ensures ps != [] ==> ps[|ps| - 1].max <= max < ps[|ps| - 1].max * power
  {
    var align: nat, start: nat, last: nat := align0, start0, WORD_SIZE;
    ghost var n: nat := n0;
    ps := [];
    StartLarge(start0, align0);
    FirstPower(align0, power);
    FirstPower(start0, power);
    assert Spread([], align0, start0, power);
    hide Pools, Pow2, Times, Fits, Spread, Power;
    while start <= max
      invariant Spread(ps, align0, start0, power)
      invariant align == align0 * Power(power, |ps|) && start == start0 * Power(power, |ps|)
      invariant align == Pow2(n) && Fits(align, start) && Pools(ps) && last <= start
      invariant if ps == [] then last == WORD_SIZE && start == start0
                else last == ps[|ps| - 1].max + 1 && start == Times(ps[|ps| - 1].max, power) && ps[|ps| - 1].max <= max
      invariant ps != [] ==> start0 <= max
      decreases max + 1 - start
    {
      var p := NextPool(align, last, start, n, ps);
      SpreadNext(ps, p, align0, start0, power);
      NextPower(align0, power, |ps|);
      NextPower(start0, power, |ps|);
      ps := ps + [p];
      NextFits(align, start, power, n, g);
      n := n + g;
      align := Times(align, power);
      last := start + 1;
      start := Times(start, power);
    }
    if ps != [] { TimesIs(ps[|ps| - 1].max, power); }
  }

  lemma TimesIs(x: nat, power: nat)
    ensures Times(x, power) == x * power
  {
  }

  lemma AtLeastTwo(g: nat)
    requires g >= 1
    ensures Pow2(g) >= 2
  {
  }

  lemma StartLarge(start: nat, align: nat)
    requires align > 0 && start > 0 && start % align == 0
    ensures start >= align
  {
    Division(start, align);
    if start / align >= 1 { Multiple(start / align, align); } else { NotPositive(start / align, align); }
  }

  lemma Doubled(x: nat, power: nat)
    requires power >= 2
    ensures x * power >= 2 * x
  {
  }

  lemma TimesOrder(a: nat, b: nat, power: nat)
    requires a <= b
    ensures a * power <= b * power
  {
  }

  // --- the node

  /** The first entry with a key of at least the request. */
  ghost function AtLeast(s: seq<Entry>, key: int): TreeNode? {
    if s == [] then null else if s[0].key >= key then s[0].node else AtLeast(s[1..], key)
  }

  /** What a request is given: the least key that is large enough, or else the largest there is. */
  ghost function Best(s: seq<Entry>, key: int): TreeNode? {
    if AtLeast(s, key) != null || s == [] then AtLeast(s, key) else s[|s| - 1].node
  }

  /** `avl_tree_find_integer_nearby`: the node with the key, or the last one on the way to where it would
      be. */
  method FindNearby(tree: ThreadedTree, key: int) returns (node: TreeNode?, ghost a: seq<Entry>, ghost b: seq<Entry>)
    requires tree.Linked()
    ensures Entries(tree.shape) == a + b && AllBelow(a, key) && forall e :: e in b ==> key <= e.key
    ensures a + b == [] <==> node == null
    ensures node != null ==> node in tree.nodes
    ensures node != null ==>
      (b != [] && b[0] == Entry(node, node.key)) || (a != [] && a[|a| - 1] == Entry(node, node.key))
  {
    var cur, parent, isLeft;
    ghost var path, t;
    cur, parent, isLeft, path, t := Descend(tree, key);
    node := if cur != null then cur else parent;
    if t.Node? {
      a, b := FoundSplit(tree, path, t, key);
    } else {
      a, b := HoleSplit(tree, path, key);
    }
  }

  lemma FoundSplit(tree: ThreadedTree, path: Path, t: Tree, key: int) returns (a: seq<Entry>, b: seq<Entry>)
    requires tree.Linked() && Plug(path, t) == tree.shape && t.Node? && t.key == key
    ensures Entries(tree.shape) == a + b && AllBelow(a, key) && forall e :: e in b ==> key <= e.key
    ensures b != [] && b[0] == Entry(t.node, t.key) && t.node in tree.nodes && t.node.key == t.key
  {
    EntriesPlug(path, t);
    AroundHole(path, t);
    See(tree, path, t);
    a, b := AroundFound(Before(path), Entries(t.left), Entry(t.node, t.key), Entries(t.right), After(path));
  }

  lemma AroundFound(u: seq<Entry>, l: seq<Entry>, e: Entry, r: seq<Entry>, v: seq<Entry>)
    returns (a: seq<Entry>, b: seq<Entry>)
    requires AllBelow(u + l, e.key) && AllAbove(r + v, e.key)
    ensures u + (l + [e] + r) + v == a + b && AllBelow(a, e.key) && b != [] && b[0] == e
    ensures forall x :: x in b ==> e.key <= x.key
  {
    a, b := u + l, [e] + (r + v);
    Regroup(u, l, [e], r, v);
  }

  lemma HoleSplit(tree: ThreadedTree, path: Path, key: int) returns (a: seq<Entry>, b: seq<Entry>)
    requires tree.Linked() && Plug(path, Leaf) == tree.shape && Brackets(path, key)
    ensures Entries(tree.shape) == a + b && AllBelow(a, key) && forall e :: e in b ==> key <= e.key
    ensures path.Top? ==> a + b == [] && Above(path) == null
    ensures !path.Top? ==> a + b != [] && Above(path) == path.node && path.node in tree.nodes && path.node.key == path.key
    ensures path.InLeft? ==> b != [] && b[0] == Entry(path.node, path.key)
    ensures path.InRight? ==> a != [] && a[|a| - 1] == Entry(path.node, path.key)
  {
    hide Before, After, AllBelow, Brackets;
    HoleEnds(path, key);
    EntriesPlug(path, Leaf);
    if !path.Top? { See(tree, path.up, Fill(path, Leaf)); }
    a, b := Before(path), After(path);
    assert a + [] + b == a + b;
  }

  /** The entries on both sides of a hole. */
  lemma HoleEnds(path: Path, key: int)
    requires Brackets(path, key)
    ensures AllBelow(Before(path), key) && forall e :: e in After(path) ==> key <= e.key
    ensures path.Top? ==> Before(path) == [] && After(path) == []
    ensures path.InLeft? ==> After(path) != [] && After(path)[0] == Entry(path.node, path.key)
    ensures path.InRight? ==>
      Before(path) != [] && Before(path)[|Before(path)| - 1] == Entry(path.node, path.key)
  {
  }

  lemma AtLeastSplit(a: seq<Entry>, b: seq<Entry>, key: int)
    requires AllBelow(a, key) && forall e :: e in b ==> key <= e.key
    ensures AtLeast(a + b, key) == if b == [] then null else b[0].node
    decreases |a|
  {
    if a == [] {
      assert a + b == b;
    } else {
      assert (a + b)[1..] == a[1..] + b;
      AtLeastSplit(a[1..], b, key);
    }
  }

  /** The node after the last of the smaller ones is the first of the others. */
  lemma NextOverBoundary(nodes: set<TreeNode>, a: seq<Entry>, b: seq<Entry>, head: TreeNode?, tail: TreeNode?)
    requires Threads(nodes, a + b, head, tail) && a != []
    ensures a[|a| - 1].node in nodes && a[|a| - 1].node.next == if b == [] then null else b[0].node
  {
    var s, i := a + b, |a| - 1;
    assert s[i] == a[i];
    if b != [] { assert s[i + 1] == b[0]; }
  }

  /** `memory_manager_alloc` up to its pool: nearby, then next if that is too small. */
  method PoolNode(tree: ThreadedTree, size: int) returns (node: TreeNode?)
    requires tree.Linked()
    ensures node == Best(Entries(tree.shape), size)
  {
    ghost var a, b;
    node, a, b := FindNearby(tree, size);
    AtLeastSplit(a, b, size);
    if node != null {
      if a != [] { NextOverBoundary(tree.nodes, a, b, tree.head, tree.tail); }
      BoundaryKeys(a, b, size);
      if node.key < size {
        if node.next != null {
          node := node.next;
        }
      }
    }
  }

  lemma BoundaryKeys(a: seq<Entry>, b: seq<Entry>, size: int)
    requires AllBelow(a, size) && forall e :: e in b ==> size <= e.key
    ensures a != [] ==> a[|a| - 1].key < size
    ensures b != [] ==> size <= b[0].key
    ensures b == [] && a != [] ==> (a + b)[|a + b| - 1] == a[|a| - 1]
  {
  }

  // --- the class of a request

  /** The tree's entries stand for the pools, under their largest sizes. */
  ghost predicate Keyed(s: seq<Entry>, ps: seq<Pool>) {
    |s| == |ps| && forall i :: 0 <= i < |s| ==> s[i].key == ps[i].max
  }

  /** The pool of a request: the first that is large enough, or the last. */
  function PoolOf(ps: seq<Pool>, size: nat): (i: nat)
    requires ps != []
    ensures i < |ps|
    ensures forall j :: 0 <= j < i ==> ps[j].max < size
    ensures i < |ps| - 1 ==> size <= ps[i].max
  {
    if |ps| == 1 || size <= ps[0].max then 0 else 1 + PoolOf(ps[1..], size)
  }

  lemma {:induction false} BestIsPool(s: seq<Entry>, ps: seq<Pool>, size: nat)
    requires Keyed(s, ps) && ps != []
    ensures Best(s, size) == s[PoolOf(ps, size)].node
    decreases |ps|
  {
    if |ps| == 1 {
      assert AtLeast(s[1..], size) == null;
    } else if size > ps[0].max {
      BestIsPool(s[1..], ps[1..], size);
      assert s[1..][|s| - 2] == s[|s| - 1];
    }
  }

  /** A request up to the largest size is served, from the pool the tree search finds, with the smallest
      unit of all that is large enough, and wastes less than that pool's alignment. */
  lemma SmallestClass(ps: seq<Pool>, size: nat)
    requires Pools(ps) && ps != [] && 0 < size <= ps[|ps| - 1].max
    ensures var i := PoolOf(ps, size);
            var k := UnitIndex(ps[i], size);
            && k < UnitCount(ps[i])
            && size <= UnitSize(ps[i], k) < size + ps[i].align
            && (forall j, m: nat :: 0 <= j < |ps| && m < UnitCount(ps[j]) && size <= UnitSize(ps[j], m) ==>
                  UnitSize(ps[i], k) <= UnitSize(ps[j], m))
  {
    var i := PoolOf(ps, size);
    var p, k := ps[i], UnitIndex(ps[i], size);
    PoolLarge(ps, size);
    SmallestUnit(p, size);
    LowWaste(ps, size);
    forall j, m: nat | 0 <= j < |ps| && m < UnitCount(ps[j]) && size <= UnitSize(ps[j], m)
      ensures UnitSize(p, k) <= UnitSize(ps[j], m)
    {
      UnitAtMostMax(ps[j], m);
      if j == i {
        UnitsRise(p, k, m);
      } else if j > i {
        PoolsRise(ps, i, j);
        UnitAtLeastMin(ps[j], m);
      }
    }
  }

  lemma PoolLarge(ps: seq<Pool>, size: nat)
    requires Pools(ps) && ps != [] && size <= ps[|ps| - 1].max
    ensures size <= ps[PoolOf(ps, size)].max
  {
  }

  lemma LowWaste(ps: seq<Pool>, size: nat)
    requires Pools(ps) && ps != [] && 0 < size
    ensures var p := ps[PoolOf(ps, size)]; size <= p.min ==> p.min < size + p.align
  {
    var i := PoolOf(ps, size);
    if i > 0 { assert ps[i - 1].max < size; }
  }

  lemma {:induction false} PoolsRise(ps: seq<Pool>, i: nat, j: nat)
    requires Pools(ps) && i < j < |ps|
    ensures ps[i].max < ps[j].min
    decreases j
  {
    if i < j - 1 { PoolsRise(ps, i, j - 1); }
  }

  lemma UnitsRise(p: Pool, k: nat, m: nat)
    ensures k <= m ==> UnitSize(p, k) <= UnitSize(p, m)
  {
    if k <= m { assert (m - k) * p.align >= 0; }
  }

  lemma UnitAtLeastMin(p: Pool, m: nat)
    ensures UnitSize(p, m) >= p.min
  {
  }

  lemma UnitAtMostMax(p: Pool, m: nat)
    requires PoolOk(p) && m < UnitCount(p)
    ensures UnitSize(p, m) <= p.max
  {
    var span := p.max - p.min;
    Division(span, p.align);
    TimesOrder(m, span / p.align, p.align);
  }

  /** A block finds its way back: from the size of its unit the manager finds the pool it came from, and in
      it the unit. */
  lemma RoutesBack(ps: seq<Pool>, i: nat, k: nat)
    requires Pools(ps) && i < |ps| && k < UnitCount(ps[i])
    ensures PoolOf(ps, UnitSize(ps[i], k)) == i
    ensures Shift(UnitSize(ps[i], k) - ps[i].min, ps[i].shift) == k
  {
    var size := UnitSize(ps[i], k);
    UnitAtMostMax(ps[i], k);
    UnitAtLeastMin(ps[i], k);
    IndexOfUnit(ps[i], k);
    var j := PoolOf(ps, size);
    if j < i { PoolsRise(ps, j, i); }
  }
}
