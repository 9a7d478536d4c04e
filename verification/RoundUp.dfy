/** `_roundup_power_of_2` and the mask of include/lock_free_queue.hpp, over 64-bit words written as
    numbers. */
module RoundUp {
  import opened Arithmetic

  const WORD: nat := 0x1_0000_0000_0000_0000

  predicate Bit(x: nat, k: nat) {
    if k == 0 then x % 2 == 1 else Bit(x / 2, k - 1)
  }

  /** `x >> n`. */
  function Shift(x: nat, n: nat): nat {
    if n == 0 then x else Shift(x / 2, n - 1)
  }

  /** `x | y`. */
  function Or(x: nat, y: nat): nat
    decreases x + y
  {
    if x == 0 then y else if y == 0 then x
    else 2 * Or(x / 2, y / 2) + if x % 2 == 1 || y % 2 == 1 then 1 else 0
  }

  /** `x & y`. */
  function And(x: nat, y: nat): nat
    decreases x
  {
    if x == 0 || y == 0 then 0
    else 2 * And(x / 2, y / 2) + if x % 2 == 1 && y % 2 == 1 then 1 else 0
  }

  lemma {:induction false} ZeroBit(k: nat)
    ensures !Bit(0, k)
  {
    if k > 0 { ZeroBit(k - 1); }
  }

  lemma {:induction false} OrBit(x: nat, y: nat, k: nat)
    ensures Bit(Or(x, y), k) <==> Bit(x, k) || Bit(y, k)
  {
    if x == 0 {
      ZeroBit(k);
    } else if y == 0 {
      ZeroBit(k);
    } else if k > 0 {
      OrBit(x / 2, y / 2, k - 1);
      assert Or(x, y) / 2 == Or(x / 2, y / 2);
    }
  }

  lemma {:induction false} ShiftBit(x: nat, n: nat, k: nat)
    ensures Bit(Shift(x, n), k) <==> Bit(x, k + n)
  {
    if n > 0 { ShiftBit(x / 2, n - 1, k); }
  }

  lemma {:induction false} SameBits(x: nat, y: nat)
    requires forall k: nat :: Bit(x, k) <==> Bit(y, k)
    ensures x == y
    decreases x + y
  {
    if x + y > 0 {
      assert Bit(x, 0) <==> Bit(y, 0);
      forall k: nat
        ensures Bit(x / 2, k) <==> Bit(y / 2, k)
      {
        assert Bit(x, k + 1) <==> Bit(y, k + 1);
      }
      SameBits(x / 2, y / 2);
    }
  }

  lemma {:induction false} OnesBit(n: nat, k: nat)
    ensures Bit(Pow2(n) - 1, k) <==> k < n
  {
    if n == 0 {
      ZeroBit(k);
    } else if k > 0 {
      assert (Pow2(n) - 1) / 2 == Pow2(n - 1) - 1;
      OnesBit(n - 1, k - 1);
    }
  }

  /** The highest bit of a number. */
  lemma {:induction false} TopBit(x: nat) returns (m: nat)
    requires x > 0
    ensures Pow2(m) <= x < Pow2(m + 1)
    ensures Bit(x, m) && forall j :: j > m ==> !Bit(x, j)
  {
    if x == 1 {
      m := 0;
      forall j | j > 0
        ensures !Bit(1, j)
      {
        ZeroBit(j - 1);
      }
    } else {
      var h := TopBit(x / 2);
      m := h + 1;
      forall j | j > m
        ensures !Bit(x, j)
      {
        assert !Bit(x / 2, j - 1);
      }
    }
  }

  lemma WordPow()
    ensures Pow2(64) == WORD && Pow2(63) == 0x8000_0000_0000_0000
  {
    assert Pow2(2) == 4;
    Pow2Sum(2, 2);
    Pow2Sum(4, 4);
    Pow2Sum(8, 8);
    Pow2Sum(16, 16);
    Pow2Sum(32, 32);
  }

  /** Every bit of x, smeared over the w - 1 bits below it. */
  ghost predicate Smeared(x: nat, y: nat, w: nat) {
    forall k: nat :: Bit(y, k) <==> exists j :: k <= j < k + w && Bit(x, j)
  }

  lemma SmearMore(x: nat, y: nat, w: nat)
    requires Smeared(x, y, w)
    ensures Smeared(x, Or(y, Shift(y, w)), 2 * w)
  {
    var z := Or(y, Shift(y, w));
    forall k: nat
      ensures Bit(z, k) <==> exists j :: k <= j < k + 2 * w && Bit(x, j)
    {
      OrBit(y, Shift(y, w), k);
      ShiftBit(y, w, k);
      assert Bit(y, k) <==> exists j :: k <= j < k + w && Bit(x, j);
      assert Bit(y, k + w) <==> exists j :: k + w <= j < k + w + w && Bit(x, j);
    }
  }

  /** A word smeared over its whole width is all ones below its highest bit. */
  lemma SmearedOnes(x: nat, y: nat) returns (n: nat)
    requires x < WORD && Smeared(x, y, 64)
    ensures y + 1 == Pow2(n) && n <= 64
    ensures x < Pow2(n) && (n > 0 ==> Pow2(n - 1) <= x)
  {
    if x == 0 {
      n := 0;
      forall k: nat
        ensures Bit(y, k) <==> Bit(0, k)
      {
        ZeroBit(k);
        forall j: nat ensures !Bit(0, j) { ZeroBit(j); }
      }
      SameBits(y, 0);
    } else {
      var m := TopBit(x);
      n := m + 1;
      WordPow();
      if n > 64 { Pow2Order(63, m); }
      forall k: nat
        ensures Bit(y, k) <==> Bit(Pow2(n) - 1, k)
      {
        OnesBit(n, k);
      }
      SameBits(y, Pow2(n) - 1);
    }
  }

  /** The least power of two that is at least the size asked for, for every size up to half the range of
      a word; for no size, and for any larger one, the sum wraps round to a capacity of nothing. */
  method RoundUpPowerOf2(size: nat) returns (capacity: nat)
    requires size < WORD
    ensures capacity == 0 <==> size == 0 || size > Pow2(63)
    ensures capacity != 0 ==>
      exists n: nat :: capacity == Pow2(n) && size <= Pow2(n) && (n > 0 ==> Pow2(n - 1) < size)
  {
    ghost var x: nat := if size == 0 then WORD - 1 else size - 1;
    var result: nat := if size == 0 then WORD - 1 else size - 1;
    var i := 1;
    while i <= 32
      invariant i == 1 || i == 2 || i == 4 || i == 8 || i == 16 || i == 32 || i == 64
      invariant Smeared(x, result, i)
      decreases 64 - i
    {
      SmearMore(x, result, i);
      result := Or(result, Shift(result, i));
      i := 2 * i;
    }
    ghost var n := SmearedOnes(x, result);
    WordPow();
    if n < 63 { Pow2Order(n, 63); }
    capacity := (result + 1) % WORD;
  }

  /** The slot of a ticket: masking with one less than a power of two is the remainder. */
  lemma {:induction false} MaskIsRemainder(x: nat, n: nat)
    ensures And(x, Pow2(n) - 1) == x % Pow2(n)
    decreases n
  {
    if n > 0 {
      var p := Pow2(n - 1);
      MaskIsRemainder(x / 2, n - 1);
      HalfRemainder(x, p);
      AndHalf(x, p);
    }
  }

  lemma AndHalf(x: nat, p: nat)
    requires p > 0
    ensures And(x, 2 * p - 1) == 2 * And(x / 2, p - 1) + x % 2
  {
    assert (2 * p - 1) / 2 == p - 1;
  }

  lemma HalfRemainder(x: nat, p: nat)
    requires p > 0
    ensures x % (2 * p) == 2 * (x / 2 % p) + x % 2
  {
    var q, r := x / 2 / p, x / 2 % p;
    Division(x / 2, p);
    Division(x, 2 * p);
    assert x == q * (2 * p) + (2 * r + x % 2);
    SameDivision(x / (2 * p), q, x % (2 * p), 2 * r + x % 2, 2 * p);
  }
}
