/** Bytes, and numbers written in them most significant byte first. */
module Bytes {
  import opened Arithmetic

  type byte = bv8

  const WORD32: nat := 0x1_0000_0000

  function ByteValue(b: byte): (x: nat)
    ensures x < 256
  {
    b as nat
  }

  /** The byte of a value, by counting: the solver is slow at turning numbers into bit vectors. */
  function ToByte(x: nat): (b: byte)
    requires x < 256
    ensures ByteValue(b) == x
  {
    if x == 0 then 0
    else
      Increment(ToByte(x - 1));
      ToByte(x - 1) + 1
  }

  lemma Increment(b: byte)
    requires b != 255
    ensures ByteValue(b + 1) == ByteValue(b) + 1
  {
  }

  /** The n low bytes of a number, most significant first: htons, htonll. */
  function BigEndian(v: nat, n: nat): (b: seq<byte>)
    ensures |b| == n
  {
    if n == 0 then [] else BigEndian(v / 256, n - 1) + [ToByte(v % 256)]
  }

  /** ntohs, ntohll. */
  function FromBigEndian(b: seq<byte>): nat {
    if b == [] then 0 else 256 * FromBigEndian(b[..|b| - 1]) + ByteValue(b[|b| - 1])
  }

  function Pow256(n: nat): nat {
    if n == 0 then 1 else 256 * Pow256(n - 1)
  }

  lemma BigEndianSnoc(head: seq<byte>, b: nat)
    requires b < 256
    ensures FromBigEndian(head + [ToByte(b)]) == 256 * FromBigEndian(head) + b
  {
    hide ToByte, ByteValue;
    assert (head + [ToByte(b)])[..|head|] == head;
  }

  lemma {:induction false} BigEndianRead(v: nat, n: nat)
    requires v < Pow256(n)
    ensures FromBigEndian(BigEndian(v, n)) == v
  {
    if n > 0 {
      BigEndianRead(v / 256, n - 1);
      BigEndianSnoc(BigEndian(v / 256, n - 1), v % 256);
    }
    hide FromBigEndian;
  }

  lemma PowPositive(n: nat)
    ensures Pow256(n) > 0
  {
  }

  lemma OneByteLess(v: nat, n: nat)
    ensures Pow256(n) > 0 && v / 256 / Pow256(n) == v / Pow256(n + 1)
  {
    PowPositive(n);
    PowPositive(n + 1);
    DivDiv(v, Pow256(n));
  }

  lemma DivDiv(v: nat, p: nat)
    requires p > 0
    ensures v / 256 / p == v / (256 * p)
  {
    var x := v / 256;
    Division(x, p);
    Division(v, 256 * p);
    Regroup(x / p, p);
    SameDivision(x / p, v / (256 * p), 256 * (x % p) + v % 256, v % (256 * p), 256 * p);
  }

  lemma Regroup(q: nat, p: nat)
    ensures 256 * (q * p) == q * (256 * p)
  {
  }

  /** Each byte is a digit of the number in base 256. */
  lemma {:induction false} BigEndianAt(v: nat, n: nat, i: nat)
    requires i < n
    ensures Pow256(n - 1 - i) > 0
    ensures BigEndian(v, n)[i] == ToByte(v / Pow256(n - 1 - i) % 256)
  {
    hide ToByte;
    PowPositive(n - 1 - i);
    if i == n - 1 {
      assert Pow256(0) == 1;
    } else {
      BigEndianAt(v / 256, n - 1, i);
      OneByteLess(v, n - 2 - i);
    }
  }

  lemma EightBytes()
    ensures Pow256(8) == 0x1_0000_0000_0000_0000
  {
    assert Pow256(2) == 0x1_0000;
    assert Pow256(4) == WORD32;
    assert Pow256(6) == 0x1_0000_0000_0000;
  }

  /** The pieces in one. */
  function Concat(parts: seq<seq<byte>>): seq<byte> {
    if parts == [] then [] else parts[0] + Concat(parts[1..])
  }

  lemma {:induction false} ConcatSnoc(parts: seq<seq<byte>>, part: seq<byte>)
    ensures Concat(parts + [part]) == Concat(parts) + part
  {
    if parts == [] {
      assert [part][1..] == [];
    } else {
      assert (parts + [part])[1..] == parts[1..] + [part];
      ConcatSnoc(parts[1..], part);
    }
  }

  lemma ConcatCons(part: seq<byte>, parts: seq<seq<byte>>)
    ensures Concat([part] + parts) == part + Concat(parts)
  {
    assert ([part] + parts)[1..] == parts;
  }

  lemma ConcatOne(part: seq<byte>)
    ensures Concat([part]) == part
  {
    assert [part][1..] == [] && Concat([]) == [];
  }
}
