/** src/sha_1.c: SHA-1 with a circular schedule of 16 words, fed with any stretch of bytes at a time, as
    section 8 of FIPS 180-1 allows.  The byte-order swaps of little-endian machines are folded into how
    four bytes are read as a word. */
module Sha1 {
  import opened Bytes
  import opened Sha1Spec

  /** After t steps the 16 words are the latest 16 of the schedule. */
  ghost predicate Latest(w: seq<word>, block: seq<byte>, t: nat)
    requires |block| == 64
  {
    && |w| == 16
    && forall k: nat ::
         (if t < 16 then 0 else t - 16) <= k < (if t < 16 then 16 else t) ==> w[k % 16] == W(block, k)
  }

  /** `_K`. */
  const TABLE: seq<word> := [0x5a827999, 0x6ed9eba1, 0x8f1bbcdc, 0xca62c1d6]

  /** The macros of the file: the functions of the four loops and the circular shift. */
  function F0(b: word, c: word, d: word): word { (b & c) | (!b & d) }

  function F1(b: word, c: word, d: word): word { (b ^ c) ^ d }

  function F2(b: word, c: word, d: word): word { (b & c) | (b & d) | (c & d) }

  function F3(b: word, c: word, d: word): word { (b ^ c) ^ d }

  function S(n: bv6, x: word): word
    requires n <= 32
  {
    (x << n) | (x >> (32 - n))
  }

  /** Four bytes in the order of the block, read as a word after the swap. */
  function Swapped(a: byte, b: byte, c: byte, d: byte): word {
    ((a as word) << 24) | ((b as word) << 16) | ((c as word) << 8) | (d as word)
  }

  lemma SwappedIs(a: byte, b: byte, c: byte, d: byte)
    ensures Swapped(a, b, c, d) == FromBytes(a, b, c, d)
  {
  }

  /** The value that becomes the first variable. */
  function Tmp(x: word, f: word, e: word, w: word, k: word): word {
    x + f + e + w + k
  }

  lemma TmpIs(x: word, f: word, e: word, w: word, k: word)
    ensures Tmp(x, f, e, w, k) == Temp(x, f, e, w, k)
  {
  }

  lemma ShiftIs(x: word)
    ensures S(5, x) == Left5(x) && S(30, x) == Left30(x)
  {
  }

  lemma FunctionsAre(b: word, c: word, d: word)
    ensures F0(b, c, d) == Choice(b, c, d) && F1(b, c, d) == Parity(b, c, d)
    ensures F2(b, c, d) == Majority(b, c, d) && F3(b, c, d) == Parity(b, c, d)
  {
  }

  /** One step, computed as in the loop it belongs to. */
  lemma StepIs(t: nat, a: word, b: word, c: word, d: word, e: word, w: word)
    requires t < 80
    ensures var f := if t < 20 then F0(b, c, d) else if t < 40 then F1(b, c, d)
                     else if t < 60 then F2(b, c, d) else F3(b, c, d);
      Round(t, Words(a, b, c, d, e), w) == Words(Tmp(S(5, a), f, e, w, TABLE[t / 20]), a, S(30, b), c, d)
  {
    hide S, F0, F1, F2, F3, Tmp, Temp, Left5, Left30, Choice, Parity, Majority;
    ShiftIs(a);
    ShiftIs(b);
    FunctionsAre(b, c, d);
    TmpIs(Left5(a), F(t, b, c, d), e, w, K(t));
  }

  /** The word of the schedule. */
  function Mixture(x: word, y: word, z: word, u: word): word {
    S(1, x ^ y ^ z ^ u)
  }

  lemma MixtureIs(x: word, y: word, z: word, u: word)
    ensures Mixture(x, y, z, u) == Mix(x, y, z, u)
  {
  }

  /** The bytes of a word, as they are stored after the swap. */
  function Stored(w: word): seq<byte> {
    [(w >> 24) as byte, ((w >> 16) & 0xFF) as byte, ((w >> 8) & 0xFF) as byte, (w & 0xFF) as byte]
  }

  lemma StoredIs(w: word)
    ensures Stored(w) == WordBytes(w)
  {
  }

  function Plus(h: Words, r: Words): Words {
    Words(h.a + r.a, h.b + r.b, h.c + r.c, h.d + r.d, h.e + r.e)
  }

  lemma PlusIs(h: Words, r: Words)
    ensures Plus(h, r) == Add(h, r)
  {
  }

  /** From the sixteenth step on, the word of the schedule is made where the one of 16 steps ago was. */
  method Mixed(w: array<word>, ghost block: seq<byte>, t: nat)
    requires |block| == 64 && w.Length == 16 && t >= 16 && Latest(w[..], block, t)
    modifies w
    ensures Latest(w[..], block, t + 1) && w[t % 16] == W(block, t)
  {
    hide Mix, Mixture, Word;
    var s := t % 16;
    WrapsRound(t);
    ghost var was := w[..];
    assert was[(t - 3) % 16] == W(block, t - 3) && was[(t - 8) % 16] == W(block, t - 8);
    assert was[(t - 14) % 16] == W(block, t - 14) && was[(t - 16) % 16] == W(block, t - 16);
    MixtureIs(w[(s + 13) % 16], w[(s + 8) % 16], w[(s + 2) % 16], w[s]);
    w[s] := Mixture(w[(s + 13) % 16], w[(s + 8) % 16], w[(s + 2) % 16], w[s]);
    StaysLatest(was, w[..], block, t);
  }

  lemma FirstStays(w: seq<word>, block: seq<byte>, t: nat)
    requires |block| == 64 && t < 16 && Latest(w, block, t)
    ensures Latest(w, block, t + 1) && w[t % 16] == W(block, t)
  {
  }

  lemma Wraps(t: nat, k: nat)
    requires t >= 16 && k <= 16
    ensures (t % 16 + 16 - k) % 16 == (t - k) % 16
  {
  }

  lemma WrapsRound(t: nat)
    requires t >= 16
    ensures (t % 16 + 13) % 16 == (t - 3) % 16 && (t % 16 + 8) % 16 == (t - 8) % 16
    ensures (t % 16 + 2) % 16 == (t - 14) % 16 && t % 16 == (t - 16) % 16
  {
    Wraps(t, 3);
    Wraps(t, 8);
    Wraps(t, 14);
    Wraps(t, 16);
  }

  lemma StaysLatest(was: seq<word>, now: seq<word>, block: seq<byte>, t: nat)
    requires |block| == 64 && t >= 16 && Latest(was, block, t)
    requires now == was[t % 16 := W(block, t)]
    ensures Latest(now, block, t + 1)
  {
    forall k: nat | t - 15 <= k < t + 1
      ensures now[k % 16] == W(block, k)
    {
      if k < t {
        assert was[k % 16] == W(block, k);
        OtherWord(k, t);
      }
    }
  }

  lemma OtherWord(k: nat, t: nat)
    requires t - 16 < k < t
    ensures k % 16 != t % 16
  {
  }

  /** The first twenty steps, sixteen of them with the words of the block. */
  method Loop0(w: array<word>, ghost block: seq<byte>, r: Words, ghost h: Words) returns (r': Words)
    requires |block| == 64 && w.Length == 16 && Latest(w[..], block, 0) && r == Rounds(block, h, 0)
    modifies w
    ensures Latest(w[..], block, 20) && r' == Rounds(block, h, 20)
  {
    hide Latest, Round, W, S, Tmp, F0, F1, F2, F3;
    var a, b, c, d, e := r.a, r.b, r.c, r.d, r.e;
    var t := 0;
    while t < 20
      invariant 0 <= t <= 20
      invariant Latest(w[..], block, t) && Words(a, b, c, d, e) == Rounds(block, h, t)
      decreases 20 - t
    {
      if t >= 16 {
        Mixed(w, block, t);
      } else {
        FirstStays(w[..], block, t);
      }
      StepIs(t, a, b, c, d, e, w[t % 16]);
      var tmp := Tmp(S(5, a), F0(b, c, d), e, w[t % 16], TABLE[t / 20]);
      a, b, c, d, e := tmp, a, S(30, b), c, d;
      t := t + 1;
    }
    r' := Words(a, b, c, d, e);
  }

  /** The second twenty steps. */
  method Loop1(w: array<word>, ghost block: seq<byte>, r: Words, ghost h: Words) returns (r': Words)
    requires |block| == 64 && w.Length == 16 && Latest(w[..], block, 20) && r == Rounds(block, h, 20)
    modifies w
    ensures Latest(w[..], block, 40) && r' == Rounds(block, h, 40)
  {
    hide Latest, Round, W, S, Tmp, F0, F1, F2, F3;
    var a, b, c, d, e := r.a, r.b, r.c, r.d, r.e;
    var t := 20;
    while t < 40
      invariant 20 <= t <= 40
      invariant Latest(w[..], block, t) && Words(a, b, c, d, e) == Rounds(block, h, t)
      decreases 40 - t
    {
      Mixed(w, block, t);
      StepIs(t, a, b, c, d, e, w[t % 16]);
      var tmp := Tmp(S(5, a), F1(b, c, d), e, w[t % 16], TABLE[t / 20]);
      a, b, c, d, e := tmp, a, S(30, b), c, d;
      t := t + 1;
    }
    r' := Words(a, b, c, d, e);
  }

  /** The third twenty steps. */
  method Loop2(w: array<word>, ghost block: seq<byte>, r: Words, ghost h: Words) returns (r': Words)
    requires |block| == 64 && w.Length == 16 && Latest(w[..], block, 40) && r == Rounds(block, h, 40)
    modifies w
    ensures Latest(w[..], block, 60) && r' == Rounds(block, h, 60)
  {
    hide Latest, Round, W, S, Tmp, F0, F1, F2, F3;
    var a, b, c, d, e := r.a, r.b, r.c, r.d, r.e;
    var t := 40;
    while t < 60
      invariant 40 <= t <= 60
      invariant Latest(w[..], block, t) && Words(a, b, c, d, e) == Rounds(block, h, t)
      decreases 60 - t
    {
      Mixed(w, block, t);
      StepIs(t, a, b, c, d, e, w[t % 16]);
      var tmp := Tmp(S(5, a), F2(b, c, d), e, w[t % 16], TABLE[t / 20]);
      a, b, c, d, e := tmp, a, S(30, b), c, d;
      t := t + 1;
    }
    r' := Words(a, b, c, d, e);
  }

  /** The last twenty steps. */
  method Loop3(w: array<word>, ghost block: seq<byte>, r: Words, ghost h: Words) returns (r': Words)
    requires |block| == 64 && w.Length == 16 && Latest(w[..], block, 60) && r == Rounds(block, h, 60)
    modifies w
    ensures Latest(w[..], block, 80) && r' == Rounds(block, h, 80)
  {
    hide Latest, Round, W, S, Tmp, F0, F1, F2, F3;
    var a, b, c, d, e := r.a, r.b, r.c, r.d, r.e;
    var t := 60;
    while t < 80
      invariant 60 <= t <= 80
      invariant Latest(w[..], block, t) && Words(a, b, c, d, e) == Rounds(block, h, t)
      decreases 80 - t
    {
      Mixed(w, block, t);
      StepIs(t, a, b, c, d, e, w[t % 16]);
      var tmp := Tmp(S(5, a), F3(b, c, d), e, w[t % 16], TABLE[t / 20]);
      a, b, c, d, e := tmp, a, S(30, b), c, d;
      t := t + 1;
    }
    r' := Words(a, b, c, d, e);
  }

  /** The context: the hash so far, the block being filled, and the length in bits; `fed` is all that has
      gone through the block. */
  class Context {
    var h: Words
    const m: array<byte>
    var count: nat
    var bits: nat
    ghost var fed: seq<byte>

    ghost predicate Valid()
      reads this, m
    {
      && m.Length == 64 && count == |fed| % 64 && count <= |fed|
      && m[..count] == fed[|fed| - count..]
      && h == Absorb(Initial(), fed[..|fed| - count])
    }

    constructor ()
      ensures Valid() && fresh(m) && fed == [] && bits == 0
    {
      m := new byte[64](_ => 0);
      h := Words(0x67452301, 0xefcdab89, 0x98badcfe, 0x10325476, 0xc3d2e1f0);
      count, bits, fed := 0, 0, [];
    }

    /** `sha1_step` on a full block. */
    method Step()
      requires m.Length == 64
      modifies this`h, m
      ensures h == Compress(old(h), old(m[..]))
    {
      hide Latest, Rounds, Word, W, Swapped, Plus, Add;
      ghost var block := m[..];
      var w := new word[16](i requires 0 <= i < 16 && m.Length == 64 reads m =>
        Swapped(m[4 * i], m[4 * i + 1], m[4 * i + 2], m[4 * i + 3]));
      FirstWords(w[..], block);
      NoRounds(block, h);
      var r := Loop0(w, block, h, h);
      r := Loop1(w, block, r, h);
      r := Loop2(w, block, r, h);
      r := Loop3(w, block, r, h);
      PlusIs(h, r);
      h := Plus(h, r);
      var i: nat := 0;
      while i < 64
        invariant i <= 64 && h == Compress(old(h), block)
        decreases 64 - i
      {
        m[i] := 0;
        i := i + 1;
      }
    }

    /** memcpy into the block, behind what is in it. */
    method Copy(data: seq<byte>)
      requires m.Length == 64 && count + |data| <= 64
      modifies m
      ensures m[..count + |data|] == old(m[..count]) + data
    {
      var i: nat := 0;
      while i < |data|
        invariant i <= |data|
        invariant m[..count + i] == old(m[..count]) + data[..i]
        decreases |data| - i
      {
        m[count + i] := data[i];
        i := i + 1;
        assert m[..count + i] == m[..count + i - 1] + [data[i - 1]];
        assert data[..i] == data[..i - 1] + [data[i - 1]];
      }
      assert data[..i] == data;
    }

    /** Bytes are put behind those in the block, which has room for them; a full block is hashed. */
    method Put(data: seq<byte>)
      requires Valid() && count + |data| <= 64
      modifies this`h, this`count, this`fed, m
      ensures Valid() && fed == old(fed) + data
      ensures count == if old(count) + |data| == 64 then 0 else old(count) + |data|
    {
      hide Absorb, Compress;
      Copy(data);
      Filled(fed, data, count);
      ghost var all := fed + data;
      if count + |data| == 64 {
        BlockFull(fed, data, count);
        assert m[..] == m[..64];
        Step();
        count := 0;
        assert all[..|all|] == all && all[|all|..] == [];
      } else {
        BlockNotFull(fed, data, count);
        count := count + |data|;
      }
      fed := all;
    }

    /** One round of the loop of `sha1_loop`. */
    method Feed(part: seq<byte>)
      requires Valid() && part != [] && count + |part| <= 64
      modifies this`h, this`count, this`fed, this`bits, m
      ensures Valid() && fed == old(fed) + part && bits == Longer(old(bits), |part|)
    {
      hide Absorb, Compress;
      Put(part);
      bits := (bits + 8 * |part|) % LIMIT;
    }

    /** `sha1_loop`: as much at a time as there is room for. */
    method Loop(input: seq<byte>)
      requires Valid()
      modifies this`h, this`count, this`fed, this`bits, m
      ensures Valid() && fed == old(fed) + input
      ensures bits == Longer(old(bits), |input|)
    {
      hide Absorb, Compress, Longer;
      NoLonger(bits);
      ghost var was := fed;
      var off: nat := 0;
      while off < |input|
        invariant off <= |input| && Valid()
        invariant fed == was + input[..off]
        invariant bits == Longer(old(bits), off)
        decreases |input| - off
      {
        var gap := 64 - count;
        var size := if gap < |input| - off then gap else |input| - off;
        LengthAdds(old(bits), off, size);
        Further(was, input, off, size);
        Feed(input[off..off + size]);
        off := off + size;
      }
      assert input[..off] == input;
    }

    /** `sha1_pad`. */
    method Pad()
      requires Valid()
      modifies this`h, this`count, this`fed, m
      ensures Valid() && count == 0
      ensures fed == old(fed) + [0x80] + Zeros(ZeroCount(|old(fed)|)) + BigEndian(bits, 8)
    {
      hide Absorb, Compress, BigEndian, ZeroCount;
      ghost var length := |fed|;
      Put([0x80]);
      PadRoom(length, count);
      FillZeros(length);
      PutLength();
    }

    /** The eight bytes of the length, the highest first. */
    method PutLength()
      requires Valid() && count == 56
      modifies this`h, this`count, this`fed, m
      ensures Valid() && count == 0 && fed == old(fed) + BigEndian(bits, 8)
    {
      hide Absorb, Compress, BigEndian, Pow256, ToByte, Valid;
      ghost var was := fed;
      var i: nat := 0;
      PartNone(bits, fed);
      while i < 8
        invariant i <= 8 && Valid() && count == if i < 8 then 56 + i else 0
        invariant fed == was + BigEndian(bits, 8)[..i]
        decreases 8 - i
      {
        PartNext(bits, was, i);
        Put([ToByte(bits / Pow256(7 - i) % 256)]);
        i := i + 1;
      }
      PartAll(bits);
    }

    /** Zeros up to the last eight bytes of a block. */
    method FillZeros(ghost length: nat)
      requires Valid() && ZeroCount(length) == if 64 - count < 8 then 64 - count + 56 else 64 - count - 8
      modifies this`h, this`count, this`fed, m
      ensures Valid() && count == 56 && fed == old(fed) + Zeros(ZeroCount(length))
    {
      hide Absorb, Compress, ZeroCount;
      var n := 64 - count;
      if n < 8 {
        Put(Zeros(n));
        Put(Zeros(56));
        assert Zeros(n) + Zeros(56) == Zeros(n + 56);
      } else {
        Put(Zeros(n - 8));
      }
    }
  }

  lemma PartNone(bits: nat, fed: seq<byte>)
    ensures fed == fed + BigEndian(bits, 8)[..0]
  {
  }

  lemma PartNext(bits: nat, fed: seq<byte>, i: nat)
    requires i < 8
    ensures Pow256(7 - i) > 0
    ensures (fed + BigEndian(bits, 8)[..i]) + [ToByte(bits / Pow256(7 - i) % 256)] == fed + BigEndian(bits, 8)[..i + 1]
  {
    hide BigEndian, Pow256, ToByte;
    BigEndianAt(bits, 8, i);
    var length := BigEndian(bits, 8);
    assert length[..i] + [length[i]] == length[..i + 1];
    assert (fed + length[..i]) + [length[i]] == fed + (length[..i] + [length[i]]);
  }

  lemma PartAll(bits: nat)
    ensures BigEndian(bits, 8)[..8] == BigEndian(bits, 8)
  {
  }

  const LIMIT: nat := 0x1_0000_0000_0000_0000

  lemma Further(fed: seq<byte>, input: seq<byte>, off: nat, size: nat)
    requires off + size <= |input|
    ensures (fed + input[..off]) + input[off..off + size] == fed + input[..off + size]
  {
  }

  /** The 64-bit length in bits, some bytes later. */
  function Longer(bits: nat, bytes: nat): nat {
    if bytes == 0 then bits else (bits + 8 * bytes) % LIMIT
  }

  lemma NoLonger(bits: nat)
    ensures Longer(bits, 0) == bits
  {
  }

  lemma LengthAdds(bits: nat, off: nat, size: nat)
    requires size > 0
    ensures Longer(Longer(bits, off), size) == Longer(bits, off + size)
  {
  }

  lemma BlockFull(fed: seq<byte>, data: seq<byte>, count: nat)
    requires count == |fed| % 64 && count + |data| == 64
    ensures var all := fed + data;
            && |all| % 64 == 0 && |fed| >= count
            && Absorb(Initial(), all) == Compress(Absorb(Initial(), fed[..|fed| - count]), fed[|fed| - count..] + data)
  {
    var head, block := fed[..|fed| - count], fed[|fed| - count..] + data;
    assert fed + data == head + block;
    AbsorbNext(Initial(), head, block);
  }

  lemma BlockNotFull(fed: seq<byte>, data: seq<byte>, count: nat)
    requires count == |fed| % 64 && count + |data| < 64
    ensures var all := fed + data;
            && |all| % 64 == count + |data| && |fed| >= count
            && all[|all| - (count + |data|)..] == fed[|fed| - count..] + data
            && all[..|all| - (count + |data|)] == fed[..|fed| - count]
  {
  }

  lemma Filled(fed: seq<byte>, data: seq<byte>, count: nat)
    requires count == |fed| % 64 && count + |data| <= 64
    ensures (count + |data|) % 64 == |fed + data| % 64
    ensures |fed| >= count && (fed + data)[|fed| - count..] == fed[|fed| - count..] + data
  {
  }

  /** The zeros fill up to eight bytes before the end of a block, the next one if need be. */
  lemma PadRoom(length: nat, count: nat)
    requires count == (length + 1) % 64
    ensures ZeroCount(length) == if 64 - count < 8 then 64 - count + 56 else 64 - count - 8
  {
  }

  lemma FirstWords(w: seq<word>, block: seq<byte>)
    requires |block| == 64 && |w| == 16
    requires forall i :: 0 <= i < 16 ==>
      w[i] == Swapped(block[4 * i], block[4 * i + 1], block[4 * i + 2], block[4 * i + 3])
    ensures Latest(w, block, 0)
  {
    hide Swapped, FromBytes;
    forall k: nat | k < 16
      ensures w[k % 16] == W(block, k)
    {
      SwappedIs(block[4 * k], block[4 * k + 1], block[4 * k + 2], block[4 * k + 3]);
    }
  }

  lemma NoRounds(block: seq<byte>, h: Words)
    requires |block| == 64
    ensures Rounds(block, h, 0) == h
  {
  }

  lemma StoredAre(h: Words)
    ensures Stored(h.a) + Stored(h.b) + Stored(h.c) + Stored(h.d) + Stored(h.e) == Digest(h)
  {
    hide Stored, WordBytes;
    StoredIs(h.a);
    StoredIs(h.b);
    StoredIs(h.c);
    StoredIs(h.d);
    StoredIs(h.e);
  }

  /** `sha1_format`: the digest of the standard, for every message. */
  method Format(message: seq<byte>) returns (digest: seq<byte>)
    ensures digest == Sha1(message)
  {
    hide Absorb, BigEndian, Stored;
    var c := new Context();
    c.Loop(message);
    assert [] + message == message;
    c.Pad();
    assert c.fed == Padded(message);
    assert c.fed[..|c.fed|] == c.fed;
    StoredAre(c.h);
    digest := Stored(c.h.a) + Stored(c.h.b) + Stored(c.h.c) + Stored(c.h.d) + Stored(c.h.e);
  }
}
