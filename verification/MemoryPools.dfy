/** The size classes of src/memory_pool.c: pools of units of rising sizes, and the manager that keeps its
    pools in an AVL tree by their largest size. */
module MemoryPools {
  import opened Arithmetic
  import opened RoundUp

  /** A pool: its units have the sizes min, min + align, ... max; align is 1 << shift. */
  datatype Pool = Pool(align: nat, min: nat, max: nat, shift: nat)

  const WORD_SIZE: nat := 8

  /** A size rounded up to a multiple, as `create_memory_pool` does it. */
  function Rounded(size: nat, align: nat): nat
    requires align > 0
  {
    if size % align != 0 then size + align - size % align else size
  }

  /** How often an even number can be halved: the loop that computes the shift. */
  method ShiftOf(align: nat, ghost n: nat) returns (shift: nat)
    requires align == Pow2(n)
    ensures shift == n
  {
    var k := align;
    shift := 0;
    while k % 2 == 0
      invariant shift <= n && k == Pow2(n - shift)
      decreases k
    {
      k := k / 2;
      shift := shift + 1;
    }
  }

  /** Sizes and alignment fit together. */
  ghost predicate PoolOk(p: Pool) {
    && p.align == Pow2(p.shift) && p.align >= WORD_SIZE
    && 0 < p.min <= p.max && p.min % p.align == 0 && p.max % p.align == 0
  }

  lemma RoundedUp(size: nat, align: nat)
    requires align > 0
    ensures Rounded(size, align) % align == 0 && size <= Rounded(size, align) < size + align
  {
    var r := size % align;
    Division(size, align);
    if r != 0 {
      var q := size / align;
      assert size + align - r == (q + 1) * align;
      ZeroRemainder(q + 1, align);
    }
  }

  lemma ZeroRemainder(q: nat, c: nat)
    requires c > 0
    ensures (q * c) % c == 0 && (q * c) / c == q
  {
    Division(q * c, c);
    SameDivision(q * c / c, q, q * c % c, 0, c);
  }

  /** No multiple lies strictly between a size and what it is rounded up to. */
  lemma RoundedLeast(size: nat, align: nat, m: nat)
    requires align > 0 && m % align == 0 && size <= m
    ensures Rounded(size, align) <= m
  {
    RoundedUp(size, align);
    var r := Rounded(size, align);
    Division(r, align);
    Division(m, align);
    if r > m {
      var d := r / align - m / align;
      assert d * align == r - m;
      if d >= 1 { Multiple(d, align); } else { NotPositive(d, align); }
    }
  }

  lemma NotPositive(d: int, c: nat)
    requires d <= 0
    ensures d * c <= 0
  {
  }

  /** `create_memory_pool`, for an alignment that is a power of two and at least a word. */
  method CreatePool(align: nat, min: nat, max: nat, ghost n: nat) returns (p: Pool)
    requires align == Pow2(n) && align >= WORD_SIZE && max % align == 0 && min <= max && WORD_SIZE <= max
    ensures PoolOk(p) && p.align == align && p.max == max
    ensures p.min == Rounded(if min < WORD_SIZE then WORD_SIZE else min, align)
  {
    var least := if min < WORD_SIZE then WORD_SIZE else min;
    RoundedUp(least, align);
    RoundedLeast(least, align, max);
    var shift := ShiftOf(align, n);
    p := Pool(align, Rounded(least, align), Rounded(max, align), shift);
  }

  // --- the class of a request

  /** Which unit of the pool serves a request that is not too large for it. */
  function UnitIndex(p: Pool, size: nat): nat {
    if size <= p.min then 0
    else
      var over := size - p.min;
      if p.align > 0 && And(over, p.align - 1) != 0 then Shift(over, p.shift) + 1 else Shift(over, p.shift)
  }

  /** The size of the units at an index. */
  function UnitSize(p: Pool, i: nat): nat {
    p.min + i * p.align
  }

  /** The number of units a pool has. */
  function UnitCount(p: Pool): nat
    requires p.align > 0 && p.min <= p.max
  {
    (p.max - p.min) / p.align + 1
  }

  lemma {:induction false} ShiftIsQuotient(x: nat, n: nat)
    ensures Shift(x, n) == x / Pow2(n)
    decreases n
  {
    if n > 0 {
      ShiftIsQuotient(x / 2, n - 1);
      HalfQuotient(x, Pow2(n - 1));
    }
  }

  lemma HalfQuotient(x: nat, p: nat)
    requires p > 0
    ensures x / (2 * p) == x / 2 / p
  {
    var q, r := x / 2 / p, x / 2 % p;
    Division(x / 2, p);
    Division(x, 2 * p);
    assert x == q * (2 * p) + (2 * r + x % 2);
    SameDivision(x / (2 * p), q, x % (2 * p), 2 * r + x % 2, 2 * p);
  }

  /** The index by shift and mask is the quotient rounded up. */
  lemma IndexIsCeiling(p: Pool, size: nat)
    requires PoolOk(p) && p.min < size
    ensures var over := size - p.min;
            UnitIndex(p, size) == over / p.align + if over % p.align != 0 then 1 else 0
  {
    ShiftIsQuotient(size - p.min, p.shift);
    MaskIsRemainder(size - p.min, p.shift);
  }

  /** A pool serves any request up to its largest size with the smallest of its units that is large
      enough; above its smallest size it wastes less than the alignment. */
  lemma SmallestUnit(p: Pool, size: nat)
    requires PoolOk(p) && 0 < size <= p.max
    ensures UnitIndex(p, size) < UnitCount(p)
    ensures size <= UnitSize(p, UnitIndex(p, size)) <= p.max
    ensures size > p.min ==> UnitSize(p, UnitIndex(p, size)) - size < p.align
    ensures forall j: nat :: j < UnitIndex(p, size) ==> UnitSize(p, j) < size
  {
    if size <= p.min {
      CountPositive(p);
    } else {
      hide PoolOk, UnitIndex, UnitSize, UnitCount;
      UnitAbove(p, size);
    }
  }

  lemma UnitAbove(p: Pool, size: nat)
    requires PoolOk(p) && p.min < size <= p.max
    ensures UnitIndex(p, size) < UnitCount(p)
    ensures size <= UnitSize(p, UnitIndex(p, size)) <= p.max
    ensures UnitSize(p, UnitIndex(p, size)) - size < p.align
    ensures forall j: nat :: j < UnitIndex(p, size) ==> UnitSize(p, j) < size
  {
    var over, i := size - p.min, UnitIndex(p, size);
    IndexIsCeiling(p, size);
    Division(over, p.align);
    IndexInPool(p, i, over);
    hide UnitIndex, UnitCount;
    var q, r := over / p.align, over % p.align;
    CeilingTimes(q, r, p.align, i);
    forall j: nat | j < i
      ensures UnitSize(p, j) < size
    {
      SmallerUnit(j, q, over, p.align, i);
    }
  }

  lemma CeilingTimes(q: nat, r: nat, align: nat, i: nat)
    requires r < align && i == q + if r != 0 then 1 else 0
    ensures q * align + r <= i * align < q * align + r + align
  {
    assert (q + 1) * align == q * align + align;
  }

  lemma SmallerUnit(j: nat, q: nat, over: nat, align: nat, i: nat)
    requires align > 0 && over == q * align + over % align && i == q + (if over % align != 0 then 1 else 0) && j < i
    ensures j * align < over
  {
    if j == q {
    } else {
      Multiple(q - j, align);
      assert (q - j) * align == q * align - j * align;
    }
  }

  lemma CountPositive(p: Pool)
    requires PoolOk(p)
    ensures UnitCount(p) > 0
  {
    Division(p.max - p.min, p.align);
    if (p.max - p.min) / p.align < 0 { NotPositive((p.max - p.min) / p.align + 1, p.align); }
  }

  lemma IndexInPool(p: Pool, i: nat, over: nat)
    requires PoolOk(p) && 0 < over <= p.max - p.min
    requires i == over / p.align + if over % p.align != 0 then 1 else 0
    ensures i < UnitCount(p) && p.min + i * p.align <= p.max
  {
    var span := p.max - p.min;
    Division(p.max, p.align);
    Division(p.min, p.align);
    var k := p.max / p.align - p.min / p.align;
    assert k * p.align == span;
    if k < 0 { NotPositive(k, p.align); }
    ZeroRemainder(k, p.align);
    Division(over, p.align);
    var q := over / p.align;
    if i > k {
      assert (q - k) * p.align == q * p.align - span;
      if q > k { Multiple(q - k, p.align); }
    }
    assert (k - i) * p.align == span - i * p.align;
    if i < k { Multiple(k - i, p.align); }
  }

  /** Free and realloc find the unit's index again from its size. */
  lemma IndexOfUnit(p: Pool, i: nat)
    requires PoolOk(p)
    ensures Shift(UnitSize(p, i) - p.min, p.shift) == i
  {
    ShiftIsQuotient(i * p.align, p.shift);
    ZeroRemainder(i, p.align);
  }
}
