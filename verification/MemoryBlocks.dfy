/** The memory manager of src/memory_pool.c with the blocks it has handed out: where each came from, and
    what is in it.  Addresses are handles; 0 is the null pointer. */
module MemoryBlocks {
  import opened Arithmetic
  import opened Bytes
  import opened RoundUp
  import opened MemoryPools
  import opened MemoryManager
  import opened TreeHeap
  import opened ThreadedTrees
  import AvlTrees
  import opened TreeRuns

  /** The word in front of a block: the unit it came from, or the pool that asked the system for it. */
  datatype Sign = Unit(pool: nat, index: nat) | System(pool: nat)

  datatype Block = Block(sign: Sign, bytes: seq<byte>)

  /** What the system is asked for beyond the block itself. */
  const HEADER: nat := 16

  /** Every block has the size its sign promises. */
  ghost predicate Held(ps: seq<Pool>, blocks: map<nat, Block>)
    requires Pools(ps)
  {
    forall a :: a in blocks ==> a != 0 && Genuine(ps, blocks[a])
  }

  ghost predicate Genuine(ps: seq<Pool>, b: Block)
    requires Pools(ps)
  {
    match b.sign
    case Unit(i, k) => i < |ps| && k < UnitCount(ps[i]) && |b.bytes| == UnitSize(ps[i], k)
    case System(i) => i == |ps| - 1
  }

  // --- what was got from the system

  function Overall(b: Block): nat {
    if b.sign.System? then |b.bytes| + HEADER else 0
  }

  ghost function SystemBytes(blocks: map<nat, Block>): nat
    decreases |blocks|
  {
    if blocks == map[] then 0
    else
      var a :| a in blocks;
      Overall(blocks[a]) + SystemBytes(blocks - {a})
  }

  lemma {:induction false} TakeOne(blocks: map<nat, Block>, a: nat)
    requires a in blocks
    ensures SystemBytes(blocks) == Overall(blocks[a]) + SystemBytes(blocks - {a})
    decreases |blocks|
  {
    var b :| b in blocks && SystemBytes(blocks) == Overall(blocks[b]) + SystemBytes(blocks - {b});
    if a != b {
      TakeOne(blocks - {b}, a);
      TakeOne(blocks - {a}, b);
      assert blocks - {a} - {b} == blocks - {b} - {a};
    }
  }

  lemma PutOne(blocks: map<nat, Block>, a: nat, b: Block)
    requires a !in blocks
    ensures SystemBytes(blocks[a := b]) == SystemBytes(blocks) + Overall(b)
  {
    TakeOne(blocks[a := b], a);
    assert blocks[a := b] - {a} == blocks;
  }

  lemma BlockAdded(ps: seq<Pool>, blocks: map<nat, Block>, a: nat, b: Block)
    requires Pools(ps) && Held(ps, blocks) && a !in blocks && a != 0 && Genuine(ps, b)
    ensures Held(ps, blocks[a := b]) && blocks[a := b] - {a} == blocks
    ensures SystemBytes(blocks[a := b]) == SystemBytes(blocks) + Overall(b)
  {
    PutOne(blocks, a, b);
  }

  lemma BlockDropped(ps: seq<Pool>, blocks: map<nat, Block>, a: nat)
    requires Pools(ps) && Held(ps, blocks) && a in blocks
    ensures Held(ps, blocks - {a}) && Genuine(ps, blocks[a]) && ps != []
    ensures SystemBytes(blocks) == Overall(blocks[a]) + SystemBytes(blocks - {a})
  {
    TakeOne(blocks, a);
  }

  /** Another block at an address. */
  lemma BlockChanged(ps: seq<Pool>, blocks: map<nat, Block>, a: nat, b: Block)
    requires Pools(ps) && Held(ps, blocks) && a in blocks && Genuine(ps, b)
    ensures Held(ps, blocks[a := b]) && blocks[a := b] - {a} == blocks - {a}
    ensures SystemBytes(blocks[a := b]) + Overall(blocks[a]) == SystemBytes(blocks) + Overall(b)
  {
    TakeOne(blocks, a);
    TakeOne(blocks[a := b], a);
    assert blocks[a := b] - {a} == blocks - {a};
  }

  /** The unit a block came from is found again from its size: in its pool, and from the manager. */
  lemma UnitFound(ps: seq<Pool>, b: Block)
    requires Pools(ps) && Genuine(ps, b) && b.sign.Unit?
    ensures b.sign.pool < |ps| && PoolOf(ps, |b.bytes|) == b.sign.pool && |b.bytes| >= ps[b.sign.pool].min
    ensures Shift(|b.bytes| - ps[b.sign.pool].min, ps[b.sign.pool].shift) == b.sign.index
  {
    RoutesBack(ps, b.sign.pool, b.sign.index);
    UnitAtLeastMin(ps[b.sign.pool], b.sign.index);
  }

  // --- the index of the pools

  lemma KeysBelow(s: seq<Entry>, ps: seq<Pool>, i: nat)
    requires Pools(ps) && i < |ps| && Keyed(s, ps[..i])
    ensures AllBelow(s, ps[i].max)
  {
    forall e | e in s
      ensures e.key < ps[i].max
    {
      var j :| 0 <= j < |s| && s[j] == e;
      PoolsRise(ps, j, i);
      assert ps[..i][j] == ps[j] && PoolOk(ps[i]);
    }
  }

  lemma NothingLarger(s: seq<Entry>, key: int)
    requires AllBelow(s, key)
    ensures Lookup(s, key) == null
  {
    NotFound(s, key);
  }

  /** A larger key goes to the end. */
  lemma AtEnd(s: seq<Entry>, values: map<TreeNode, int>, ps: seq<Pool>, i: nat, e: Entry)
    requires i < |ps| && Keyed(s, ps[..i]) && Numbered(s, values)
    requires AllBelow(s, e.key) && e.key == ps[i].max && e.node !in values
    ensures Keyed(Inserted(s, e), ps[..i + 1]) && Numbered(Inserted(s, e), values[e.node := i])
  {
    InsertedBetween(s, e, []);
    assert s + [] == s && s + [e] + [] == s + [e];
    assert |s| == i;
    assert forall j :: 0 <= j < |s| ==> ps[..i][j] == ps[..i + 1][j];
  }

  /** A new key in the tree: what it does to the list and to the values. */
  method PutNew(tree: ThreadedTree, key: int, value: int) returns (node: TreeNode)
    requires AvlTrees.Valid(tree) && Lookup(Entries(tree.shape), key) == null
    modifies tree
    modifies tree.nodes`left, tree.nodes`right, tree.nodes`parent, tree.nodes`mark, tree.nodes`prev, tree.nodes`next
    modifies tree.nodes`value
    ensures AvlTrees.Valid(tree) && fresh(tree.nodes - old(tree.nodes)) && node !in old(Values(tree.nodes))
    ensures Entries(tree.shape) == Inserted(old(Entries(tree.shape)), Entry(node, key))
    ensures Values(tree.nodes) == old(Values(tree.nodes))[node := value]
  {
    hide AvlTrees.Valid, Lookup, Inserted, Entries;
    ghost var values := Values(tree.nodes);
    node := AvlTrees.InsertInteger(tree, key, value);
    assert Values(tree.nodes) == values[node := value];
  }

  /** One round of `create_memory_manager`: a pool is put in the tree under its largest size. */
  method AddPool(tree: ThreadedTree, p: Pool, ghost ps: seq<Pool>, i: nat)
    requires AvlTrees.Valid(tree) && Pools(ps) && i < |ps| && p == ps[i]
    requires Keyed(Entries(tree.shape), ps[..i]) && Numbered(Entries(tree.shape), Values(tree.nodes))
    modifies tree
    modifies tree.nodes`left, tree.nodes`right, tree.nodes`parent, tree.nodes`mark, tree.nodes`prev, tree.nodes`next
    modifies tree.nodes`value
    ensures AvlTrees.Valid(tree) && fresh(tree.nodes - old(tree.nodes))
    ensures Keyed(Entries(tree.shape), ps[..i + 1]) && Numbered(Entries(tree.shape), Values(tree.nodes))
  {
    ghost var s, values := Entries(tree.shape), Values(tree.nodes);
    KeysBelow(s, ps, i);
    hide AvlTrees.Valid, Values, Lookup, Inserted, Entries, Pools, AllBelow, Keyed, Numbered;
    NothingLarger(s, p.max);
    var node := PutNew(tree, p.max, i);
    AtEnd(s, values, ps, i, Entry(node, p.max));
  }

  /** The pools in an AVL tree, each with its number as value. */
  method IndexPools(ps: seq<Pool>) returns (tree: ThreadedTree)
    requires Pools(ps)
    ensures fresh(tree) && fresh(tree.nodes) && tree.Linked()
    ensures Keyed(Entries(tree.shape), ps) && Numbered(Entries(tree.shape), Values(tree.nodes))
  {
    hide Pools, AvlTrees.Valid, Keyed, Numbered, Values;
    tree := EmptyTree(ps);
    var i := 0;
    while i < |ps|
      invariant 0 <= i <= |ps|
      invariant fresh(tree) && fresh(tree.nodes) && AvlTrees.Valid(tree)
      invariant Keyed(Entries(tree.shape), ps[..i]) && Numbered(Entries(tree.shape), Values(tree.nodes))
    {
      AddPool(tree, ps[i], ps, i);
      i := i + 1;
    }
    assert ps[..i] == ps;
    AvlLinked(tree);
  }

  lemma AvlLinked(tree: ThreadedTree)
    requires AvlTrees.Valid(tree)
    ensures tree.Linked()
  {
  }

  method EmptyTree(ghost ps: seq<Pool>) returns (tree: ThreadedTree)
    ensures fresh(tree) && fresh(tree.nodes) && AvlTrees.Valid(tree)
    ensures Keyed(Entries(tree.shape), ps[..0]) && Numbered(Entries(tree.shape), Values(tree.nodes))
  {
    tree := new ThreadedTree();
  }

  // --- the manager

  /** Which pool the search in the tree leads to. */
  lemma BestNumber(s: seq<Entry>, values: map<TreeNode, int>, ps: seq<Pool>, size: nat)
    requires Keyed(s, ps) && Numbered(s, values) && ps != []
    ensures Best(s, size) in values && values[Best(s, size)] == PoolOf(ps, size)
  {
    BestIsPool(s, ps, size);
  }

  /** Of all units of all pools, none that is large enough is smaller. */
  ghost predicate Snug(ps: seq<Pool>, size: nat, got: nat)
    requires Pools(ps)
  {
    forall j, m: nat :: 0 <= j < |ps| && m < UnitCount(ps[j]) && size <= UnitSize(ps[j], m) ==> got <= UnitSize(ps[j], m)
  }

  /** What a block for a request looks like when it comes. */
  ghost predicate Serves(ps: seq<Pool>, size: nat, b: Block)
    requires Pools(ps) && ps != []
  {
    && Genuine(ps, b)
    && (if size > ps[|ps| - 1].max then b.sign == System(|ps| - 1) && |b.bytes| == size
        else b.sign.Unit? && size <= |b.bytes| < size + ps[b.sign.pool].align && Snug(ps, size, |b.bytes|))
  }

  lemma UnitServes(ps: seq<Pool>, size: nat, bytes: seq<byte>)
    requires Pools(ps) && ps != [] && 0 < size <= ps[PoolOf(ps, size)].max
    requires |bytes| == UnitSize(ps[PoolOf(ps, size)], UnitIndex(ps[PoolOf(ps, size)], size))
    ensures Serves(ps, size, Block(Unit(PoolOf(ps, size), UnitIndex(ps[PoolOf(ps, size)], size)), bytes))
  {
    var i := PoolOf(ps, size);
    if i < |ps| - 1 { PoolsRise(ps, i, |ps| - 1); }
    SmallestClass(ps, size);
  }

  /** Requests no pool is large enough for reach the last one. */
  lemma LargeIsLast(ps: seq<Pool>, size: nat)
    requires Pools(ps) && ps != []
    ensures size > ps[PoolOf(ps, size)].max <==> size > ps[|ps| - 1].max
    ensures size > ps[|ps| - 1].max ==> PoolOf(ps, size) == |ps| - 1
  {
    var i := PoolOf(ps, size);
    if i < |ps| - 1 { PoolsRise(ps, i, |ps| - 1); }
  }

  function Least(x: nat, y: nat): nat {
    if x <= y then x else y
  }

  /** What there was is kept, as far as it fits. */
  ghost predicate Kept(was: seq<byte>, size: nat, now: seq<byte>) {
    |now| >= size && now[..Least(size, |was|)] == was[..Least(size, |was|)]
  }

  /** A block with another one's bytes in front. */
  function Copied(b: Block, was: seq<byte>): (r: Block)
    requires |was| <= |b.bytes|
    ensures r.sign == b.sign && |r.bytes| == |b.bytes| && r.bytes[..|was|] == was
  {
    b.(bytes := was + b.bytes[|was|..])
  }

  /** A block of another size with the same bytes in front. */
  function Resized(b: Block, size: nat, junk: nat -> byte): (r: Block)
    ensures r.sign == b.sign && |r.bytes| == size && Kept(b.bytes, size, r.bytes)
  {
    var n := Least(size, |b.bytes|);
    b.(bytes := b.bytes[..n] + seq(size - n, junk))
  }

  lemma BlockResized(ps: seq<Pool>, blocks: map<nat, Block>, mem: nat, at: nat, b: Block)
    requires Pools(ps) && Held(ps, blocks) && mem in blocks && at != 0 && (at == mem || at !in blocks)
    requires blocks[mem].sign.System? && b.sign == blocks[mem].sign
    ensures var now := (blocks - {mem})[at := b];
            Held(ps, now) && now - {at} == blocks - {mem} &&
            SystemBytes(now) + Overall(blocks[mem]) == SystemBytes(blocks) + Overall(b)
  {
    BlockDropped(ps, blocks, mem);
    BlockAdded(ps, blocks - {mem}, at, b);
  }

  lemma CopiedServes(ps: seq<Pool>, size: nat, b: Block, was: seq<byte>)
    requires Pools(ps) && ps != [] && Serves(ps, size, b) && |was| < size
    ensures |was| <= |b.bytes| && Genuine(ps, Copied(b, was)) && Serves(ps, size, Copied(b, was))
    ensures Kept(was, size, Copied(b, was).bytes)
  {
  }

  lemma NothingHeld()
    ensures SystemBytes(map[]) == 0
  {
  }

  /** Where a new block may come to lie: a unit or malloc gives a new place; realloc may leave a block where
      it is or refuse. */
  predicate Room(blocks: map<nat, Block>, mem: nat, at: nat) {
    if mem in blocks && blocks[mem].sign.System? then at == 0 || at == mem || at !in blocks
    else at != 0 && at !in blocks
  }

  /** A block is given a new size: the system may refuse, and then nothing changes; a block of a unit stays
      if it is large enough and else moves to one that serves the size; the bytes that fit are kept, and no
      other block is touched. */
  ghost predicate Reallocated(ps: seq<Pool>, blocks: map<nat, Block>, mem: nat, size: nat, at: nat, r: nat,
                              blocks': map<nat, Block>)
    requires Pools(ps) && ps != [] && mem in blocks
  {
    if blocks[mem].sign.System? && at == 0 then r == 0 && blocks' == blocks
    else if blocks[mem].sign.Unit? && size <= |blocks[mem].bytes| then r == mem && blocks' == blocks
    else
      && r == at && at in blocks' && blocks' - {at} == blocks - {mem}
      && Kept(blocks[mem].bytes, size, blocks'[at].bytes)
      && if blocks[mem].sign.System? then blocks'[at].sign.System? && |blocks'[at].bytes| == size
         else Serves(ps, size, blocks'[at])
  }

  class Manager {
    const tree: ThreadedTree
    const pools: seq<Pool>
    var blocks: map<nat, Block>      // what callers hold
    var systemAlloc: nat             // of the last pool, the only one that asks the system for blocks
    var systemFree: nat

    ghost predicate Searchable()
      reads tree
      reads tree.nodes`left, tree.nodes`right, tree.nodes`parent, tree.nodes`key, tree.nodes`mark
      reads tree.nodes`prev, tree.nodes`next, tree.nodes`value
    {
      && tree.Linked() && Pools(pools)
      && Keyed(Entries(tree.shape), pools) && Numbered(Entries(tree.shape), Values(tree.nodes))
    }

    /** The blocks are what their signs say, and the two counters tell what the system is owed. */
    ghost predicate Balanced()
      requires Pools(pools)
      reads `blocks, `systemAlloc, `systemFree
    {
      Held(pools, blocks) && systemAlloc == systemFree + SystemBytes(blocks)
    }

    ghost predicate Valid()
      reads this, tree
      reads tree.nodes`left, tree.nodes`right, tree.nodes`parent, tree.nodes`key, tree.nodes`mark
      reads tree.nodes`prev, tree.nodes`next, tree.nodes`value
    {
      Searchable() && Balanced()
    }

    /** `create_memory_manager`. */
    constructor (align: nat, start: nat, max: nat, power: nat, ghost n: nat, ghost g: nat)
      requires align == Pow2(n) && align >= WORD_SIZE && power == Pow2(g) && g >= 1
      requires start > 0 && start % align == 0
      ensures Valid() && blocks == map[] && (pools != [] <==> start <= max)
      ensures Spread(pools, align, start, power)
    {
      hide Spread, Keyed, Numbered, Pools, Entries, Values, ThreadedTree.Linked;
      NothingHeld();
      var ps := CreatePools(align, start, max, power, n, g);
      var index := IndexPools(ps);
      pools, tree := ps, index;
      blocks, systemAlloc, systemFree := map[], 0, 0;
    }

    /** "Nearby, then next": the number of the pool. */
    method Route(size: nat) returns (i: nat)
      requires Searchable() && pools != []
      ensures i == PoolOf(pools, size)
    {
      BestNumber(Entries(tree.shape), Values(tree.nodes), pools, size);
      hide Keyed, Numbered, Pools, Best;
      var node := PoolNode(tree, size);
      i := node.value;
    }

    /** The value of the last node is the number of the last pool. */
    method LastPool() returns (i: nat)
      requires Searchable() && pools != []
      ensures i == |pools| - 1
    {
      LastNumber(tree, Entries(tree.shape), Values(tree.nodes), pools);
      hide Keyed, Numbered, Pools;
      i := tree.tail.value;
    }

    /** `memory_pool_alloc`, for the pool that is right for the size; `at` is where the new block comes to
        lie and `junk` what is in it. */
    method PoolAlloc(i: nat, size: nat, at: nat, junk: nat -> byte) returns (mem: nat)
      requires Pools(pools) && Balanced() && pools != [] && i == PoolOf(pools, size)
      requires at != 0 && at !in blocks
      modifies `blocks, `systemAlloc
      ensures Balanced() && blocks - {at} == old(blocks)
      ensures size == 0 ==> mem == 0 && blocks == old(blocks)
      ensures size > 0 ==> mem == at && at in blocks && Serves(pools, size, blocks[at])
    {
      if size == 0 {
        return 0;
      }
      LargeIsLast(pools, size);
      var block := Block(System(i), []);
      if size > pools[i].max {
        block := Block(System(i), seq(size, junk));
        systemAlloc := systemAlloc + HEADER + size;
      } else {
        var k := UnitIndex(pools[i], size);
        block := Block(Unit(i, k), seq(UnitSize(pools[i], k), junk));
        UnitServes(pools, size, block.bytes);
      }
      hide Pools, PoolOk, UnitIndex, UnitSize, UnitCount, Held, Snug, SystemBytes, PoolOf;
      BlockAdded(pools, blocks, at, block);
      blocks := blocks[at := block];
      mem := at;
    }

    /** `memory_manager_alloc`. */
    method Alloc(size: nat, at: nat, junk: nat -> byte) returns (mem: nat)
      requires Valid() && pools != []
      requires at != 0 && at !in blocks
      modifies `blocks, `systemAlloc
      ensures Valid() && blocks - {at} == old(blocks)
      ensures size == 0 ==> mem == 0 && blocks == old(blocks)
      ensures size > 0 ==> mem == at && at in blocks && Serves(pools, size, blocks[at])
    {
      hide Pools, Serves, Balanced;
      var i := Route(size);
      mem := PoolAlloc(i, size, at, junk);
    }

    /** Giving a block back to the unit with an index computed from its size: the check of both free
        functions never fails. */
    method UnitFree(i: nat, mem: nat)
      requires Pools(pools) && Balanced() && mem in blocks && blocks[mem].sign.Unit? && blocks[mem].sign.pool == i
      modifies `blocks
      ensures Balanced() && blocks == old(blocks) - {mem}
    {
      var block := blocks[mem];
      BlockDropped(pools, blocks, mem);
      UnitFound(pools, block);
      hide Pools, Held, SystemBytes, Shift;
      if block.sign != Unit(i, Shift(|block.bytes| - pools[i].min, pools[i].shift)) {
        assert false;
      }
      blocks := blocks - {mem};
    }

    /** `memory_pool_free`, for a pool the block belongs to. */
    method PoolFree(i: nat, mem: nat)
      requires Pools(pools) && Balanced() && mem in blocks && blocks[mem].sign.pool == i
      modifies `blocks, `systemFree
      ensures Balanced() && blocks == old(blocks) - {mem}
    {
      if blocks[mem].sign == System(i) {
        BlockDropped(pools, blocks, mem);
        hide Pools, Held, SystemBytes;
        systemFree := systemFree + |blocks[mem].bytes| + HEADER;
        blocks := blocks - {mem};
      } else {
        UnitFree(i, mem);
      }
    }

    /** `memory_manager_free`. */
    method Free(mem: nat)
      requires Valid() && (mem != 0 ==> mem in blocks)
      modifies `blocks, `systemFree
      ensures Valid() && blocks == old(blocks) - {mem}
    {
      hide Searchable, Balanced, Pools, Held, SystemBytes, Genuine, PoolOf;
      Facts(mem);
      if mem == 0 {
        return;
      }
      var last := LastPool();
      if blocks[mem].sign == System(last) {
        PoolFree(last, mem);
      } else {
        GiveBack(mem);
      }
    }

    lemma Facts(mem: nat)
      requires Valid()
      ensures Pools(pools) && 0 !in blocks
      ensures mem in blocks ==> pools != []
      ensures mem in blocks && blocks[mem].sign.System? ==> blocks[mem].sign.pool == |pools| - 1
      ensures mem in blocks && blocks[mem].sign.Unit? ==> PoolOf(pools, |blocks[mem].bytes|) == blocks[mem].sign.pool
    {
      if mem in blocks { BlockHome(pools, blocks, mem); }
    }

    /** The end of `memory_manager_free`: a block of a unit finds its way back from its size. */
    method GiveBack(mem: nat)
      requires Valid() && pools != [] && mem in blocks && blocks[mem].sign.Unit?
      requires PoolOf(pools, |blocks[mem].bytes|) == blocks[mem].sign.pool
      modifies `blocks
      ensures Valid() && blocks == old(blocks) - {mem}
    {
      hide Searchable, Balanced, Pools, Held, SystemBytes, Genuine, PoolOf;
      Facts(mem);
      var i := Route(|blocks[mem].bytes|);
      UnitFree(i, mem);
    }

    /** A block of a unit moves to a larger one. */
    method Move(i: nat, mem: nat, size: nat, at: nat, junk: nat -> byte) returns (r: nat)
      requires Pools(pools) && Balanced() && pools != [] && i == PoolOf(pools, size)
      requires mem in blocks && blocks[mem].sign.Unit? && |blocks[mem].bytes| < size
      requires at != 0 && at !in blocks
      modifies `blocks, `systemAlloc, `systemFree
      ensures Balanced() && r == at && at in blocks && blocks - {at} == old(blocks) - {mem}
      ensures Serves(pools, size, blocks[at]) && Kept(old(blocks[mem].bytes), size, blocks[at].bytes)
    {
      ghost var before := blocks;
      var was := blocks[mem];
      hide Held, SystemBytes, Pools, Genuine, Serves, PoolOf, Kept;
      r := PoolAlloc(i, size, at, junk);
      CopiedServes(pools, size, blocks[at], was.bytes);
      BlockChanged(pools, blocks, at, Copied(blocks[at], was.bytes));
      blocks := blocks[at := Copied(blocks[at], was.bytes)];
      assert blocks - {at} == before;
      assert blocks[mem] == was;
      PoolFree(was.sign.pool, mem);
    }

    /** The system gives the block another size, or refuses (then `at` is null). */
    method SystemRealloc(mem: nat, size: nat, at: nat, junk: nat -> byte) returns (r: nat)
      requires Pools(pools) && Balanced() && mem in blocks && blocks[mem].sign.System?
      requires at == 0 || at == mem || at !in blocks
      modifies `blocks, `systemAlloc, `systemFree
      ensures Balanced() && r == at
      ensures at == 0 ==> blocks == old(blocks)
      ensures at != 0 ==> at in blocks && blocks - {at} == old(blocks) - {mem}
      ensures at != 0 ==> blocks[at].sign.System? && |blocks[at].bytes| == size
      ensures at != 0 ==> Kept(old(blocks[mem].bytes), size, blocks[at].bytes)
    {
      if at == 0 {
        return 0;
      }
      var was := blocks[mem];
      var block := Resized(was, size, junk);
      BlockResized(pools, blocks, mem, at, block);
      hide Held, SystemBytes, Pools, Genuine, Kept;
      systemFree := systemFree + |was.bytes| + HEADER;
      systemAlloc := systemAlloc + size + HEADER;
      blocks := (blocks - {mem})[at := block];
      r := at;
    }

    /** `memory_pool_realloc`, for a block of the pool. */
    method PoolRealloc(i: nat, mem: nat, size: nat, at: nat, junk: nat -> byte) returns (r: nat)
      requires Pools(pools) && Balanced() && mem in blocks && blocks[mem].sign.pool == i
      requires pools != [] && (blocks[mem].sign.Unit? ==> i == PoolOf(pools, size))
      requires Room(blocks, mem, at)
      modifies `blocks, `systemAlloc, `systemFree
      ensures Balanced() && Reallocated(pools, old(blocks), mem, size, at, r, blocks)
    {
      var block := blocks[mem];
      hide Held, SystemBytes, Pools, Genuine, Serves, PoolOf;
      if block.sign != System(i) {
        if |block.bytes| >= size {
          return mem;
        }
        r := Move(i, mem, size, at, junk);
      } else {
        r := SystemRealloc(mem, size, at, junk);
      }
    }

    /** `memory_manager_realloc`: the bytes that fit are kept, and no other block is touched. */
    method Realloc(mem: nat, size: nat, at: nat, junk: nat -> byte) returns (r: nat)
      requires Valid() && pools != [] && (mem != 0 ==> mem in blocks)
      requires Room(blocks, mem, at)
      modifies `blocks, `systemAlloc, `systemFree
      ensures Valid()
      ensures mem == 0 ==> blocks - {at} == old(blocks) && if size == 0 then r == 0 && blocks == old(blocks)
                                                           else r == at && at in blocks && Serves(pools, size, blocks[at])
      ensures mem != 0 ==> Reallocated(pools, old(blocks), mem, size, at, r, blocks)
    {
      hide Searchable, Balanced, Held, SystemBytes, Pools, Genuine, Serves, PoolOf, Reallocated, Kept;
      Facts(mem);
      if mem == 0 {
        r := Alloc(size, at, junk);
      } else {
        r := ReallocBlock(mem, size, at, junk);
      }
    }

    /** The part for a block: one from the system goes to the last pool, one from a unit stays or grows. */
    method ReallocBlock(mem: nat, size: nat, at: nat, junk: nat -> byte) returns (r: nat)
      requires Valid() && pools != [] && mem in blocks && Room(blocks, mem, at)
      modifies `blocks, `systemAlloc, `systemFree
      ensures Valid() && Reallocated(pools, old(blocks), mem, size, at, r, blocks)
    {
      hide Searchable, Balanced, Held, SystemBytes, Pools, Genuine, Serves, PoolOf, Reallocated, Kept;
      Facts(mem);
      var last := LastPool();
      if blocks[mem].sign == System(last) {
        r := PoolRealloc(last, mem, size, at, junk);
      } else if size <= |blocks[mem].bytes| {
        Stays(pools, blocks, mem, size, at);
        r := mem;
      } else {
        var from := Route(|blocks[mem].bytes|);
        var to := Route(size);
        r := Grow(from, to, mem, size, at, junk);
      }
    }

    /** A block of a unit moves within its pool or to another. */
    method Grow(from: nat, to: nat, mem: nat, size: nat, at: nat, junk: nat -> byte) returns (r: nat)
      requires Pools(pools) && Balanced() && pools != [] && mem in blocks && at != 0 && at !in blocks
      requires blocks[mem].sign.Unit? && from == blocks[mem].sign.pool && to == PoolOf(pools, size)
      requires |blocks[mem].bytes| < size
      modifies `blocks, `systemAlloc, `systemFree
      ensures Balanced() && Reallocated(pools, old(blocks), mem, size, at, r, blocks)
    {
      hide Balanced, Pools, Genuine, Serves, PoolOf, Reallocated, Kept;
      if from == to {
        r := PoolRealloc(from, mem, size, at, junk);
      } else {
        r := Move(to, mem, size, at, junk);
        Moved(pools, old(blocks), mem, size, at, blocks);
      }
    }
  }

  lemma Stays(ps: seq<Pool>, blocks: map<nat, Block>, mem: nat, size: nat, at: nat)
    requires Pools(ps) && ps != [] && mem in blocks && blocks[mem].sign.Unit? && size <= |blocks[mem].bytes|
    ensures Reallocated(ps, blocks, mem, size, at, mem, blocks)
  {
  }

  lemma Moved(ps: seq<Pool>, blocks: map<nat, Block>, mem: nat, size: nat, at: nat, blocks': map<nat, Block>)
    requires Pools(ps) && ps != [] && mem in blocks && blocks[mem].sign.Unit? && |blocks[mem].bytes| < size
    requires at in blocks' && blocks' - {at} == blocks - {mem}
    requires Serves(ps, size, blocks'[at]) && Kept(blocks[mem].bytes, size, blocks'[at].bytes)
    ensures Reallocated(ps, blocks, mem, size, at, at, blocks')
  {
  }

  lemma BlockHome(ps: seq<Pool>, blocks: map<nat, Block>, a: nat)
    requires Pools(ps) && Held(ps, blocks) && a in blocks
    ensures ps != []
    ensures blocks[a].sign == System(|ps| - 1) ||
            (blocks[a].sign.Unit? && PoolOf(ps, |blocks[a].bytes|) == blocks[a].sign.pool)
  {
    if blocks[a].sign.Unit? { UnitFound(ps, blocks[a]); }
  }

  lemma LastNumber(tree: ThreadedTree, s: seq<Entry>, values: map<TreeNode, int>, ps: seq<Pool>)
    requires tree.Linked() && s == Entries(tree.shape) && Keyed(s, ps) && Numbered(s, values) && ps != []
    ensures tree.tail != null && tree.tail in values && values[tree.tail] == |ps| - 1
  {
  }
}
