/** SHA-1 as FIPS 180-1 defines it: the computation of section 7, with its 80-word schedule, over the
    padded message of section 4. */
module Sha1Spec {
  import opened Bytes

  type word = bv32

  /** The five words of the hash, or of the working variables a to e. */
  datatype Words = Words(a: word, b: word, c: word, d: word, e: word)

  function Initial(): Words {
    Words(0x67452301, 0xefcdab89, 0x98badcfe, 0x10325476, 0xc3d2e1f0)
  }

  function Choice(b: word, c: word, d: word): word { (b & c) | (!b & d) }

  function Parity(b: word, c: word, d: word): word { b ^ c ^ d }

  function Majority(b: word, c: word, d: word): word { (b & c) | (b & d) | (c & d) }

  /** Section 5. */
  function F(t: nat, b: word, c: word, d: word): word {
    if t < 20 then Choice(b, c, d)
    else if t < 40 then Parity(b, c, d)
    else if t < 60 then Majority(b, c, d)
    else Parity(b, c, d)
  }

  function K(t: nat): word {
    if t < 20 then 0x5a827999 else if t < 40 then 0x6ed9eba1 else if t < 60 then 0x8f1bbcdc else 0xca62c1d6
  }

  /** The word of four bytes, most significant first. */
  function FromBytes(a: byte, b: byte, c: byte, d: byte): word {
    (((a as word) * 256 + (b as word)) * 256 + (c as word)) * 256 + (d as word)
  }

  function Word(bytes: seq<byte>, i: nat): word
    requires i + 4 <= |bytes|
  {
    FromBytes(bytes[i], bytes[i + 1], bytes[i + 2], bytes[i + 3])
  }

  function Mix(x: word, y: word, z: word, w: word): word {
    (x ^ y ^ z ^ w).RotateLeft(1)
  }

  /** Section 7b: the 80 words of the schedule of a block. */
  function W(block: seq<byte>, t: nat): word
    requires |block| == 64
  {
    if t < 16 then Word(block, 4 * t)
    else Mix(W(block, t - 3), W(block, t - 8), W(block, t - 14), W(block, t - 16))
  }

  function Left5(x: word): word { x.RotateLeft(5) }

  function Left30(x: word): word { x.RotateLeft(30) }

  function Temp(x: word, f: word, e: word, w: word, k: word): word {
    x + f + e + w + k
  }

  /** Section 7d: one step, with a word of the schedule. */
  function Round(t: nat, r: Words, w: word): Words {
    Words(Temp(Left5(r.a), F(t, r.b, r.c, r.d), r.e, w, K(t)), r.a, Left30(r.b), r.c, r.d)
  }

  function Rounds(block: seq<byte>, r: Words, n: nat): Words
    requires |block| == 64
  {
    if n == 0 then r else Round(n - 1, Rounds(block, r, n - 1), W(block, n - 1))
  }

  function Add(h: Words, r: Words): Words {
    Words(h.a + r.a, h.b + r.b, h.c + r.c, h.d + r.d, h.e + r.e)
  }

  function Compress(h: Words, block: seq<byte>): Words
    requires |block| == 64
  {
    Add(h, Rounds(block, h, 80))
  }

  /** The hash of a message of whole blocks. */
  function Absorb(h: Words, message: seq<byte>): Words
    requires |message| % 64 == 0
  {
    if message == [] then h
    else
      var n := |message| - 64;
      Compress(Absorb(h, message[..n]), message[n..])
  }

  function Zeros(n: nat): (z: seq<byte>)
    ensures |z| == n
  {
    seq(n, _ => 0)
  }

  /** How many zero bytes are needed between the one bit and the length. */
  function ZeroCount(length: nat): (z: nat)
    ensures z < 64 && (length + 1 + z + 8) % 64 == 0
  {
    (119 - length % 64) % 64
  }

  /** Eight bits for each byte, in 64-bit arithmetic. */
  function BitLength(length: nat): nat {
    8 * length % 0x1_0000_0000_0000_0000
  }

  /** Section 4: a one bit, zeros, and the length in bits. */
  function Padded(message: seq<byte>): (p: seq<byte>)
    ensures |p| % 64 == 0
  {
    message + [0x80] + Zeros(ZeroCount(|message|)) + BigEndian(BitLength(|message|), 8)
  }

  /** The bytes of a word, most significant first. */
  function WordBytes(w: word): (b: seq<byte>)
    ensures |b| == 4
  {
    [(w / 0x100_0000) as byte, (w / 0x1_0000 % 256) as byte, (w / 256 % 256) as byte, (w % 256) as byte]
  }

  function Digest(h: Words): (d: seq<byte>)
    ensures |d| == 20
  {
    WordBytes(h.a) + WordBytes(h.b) + WordBytes(h.c) + WordBytes(h.d) + WordBytes(h.e)
  }

  function Sha1(message: seq<byte>): seq<byte> {
    Digest(Absorb(Initial(), Padded(message)))
  }

  /** Whole blocks can be absorbed as they come. */
  lemma AbsorbNext(h: Words, message: seq<byte>, block: seq<byte>)
    requires |message| % 64 == 0 && |block| == 64
    ensures |message + block| % 64 == 0 && Absorb(h, message + block) == Compress(Absorb(h, message), block)
  {
    var all := message + block;
    assert all[..|all| - 64] == message && all[|all| - 64..] == block;
  }

  // --- what the definitions come to

  predicate Bit(x: word, i: bv6)
    requires i < 32
  {
    (x >> i) & 1 == 1
  }

  /** Section 5, bit by bit: in the first twenty steps b chooses between c and d, in the third twenty the
      majority of the three counts, and otherwise their parity. */
  lemma FunctionByBit(t: nat, b: word, c: word, d: word, i: bv6)
    requires t < 80 && i < 32
    ensures t < 20 ==> Bit(F(t, b, c, d), i) == if Bit(b, i) then Bit(c, i) else Bit(d, i)
    ensures 20 <= t < 40 || 60 <= t ==> Bit(F(t, b, c, d), i) == ((Bit(b, i) != Bit(c, i)) != Bit(d, i))
    ensures 40 <= t < 60 ==>
      Bit(F(t, b, c, d), i) == if Bit(b, i) == Bit(c, i) then Bit(b, i) else Bit(d, i)
  {
    hide Bit, Choice, Parity, Majority;
    ChoiceIs(b, c, d, i);
    ParityIs(b, c, d, i);
    MajorityIs(b, c, d, i);
  }

  lemma ChoiceIs(b: word, c: word, d: word, i: bv6)
    requires i < 32
    ensures Bit(Choice(b, c, d), i) == if Bit(b, i) then Bit(c, i) else Bit(d, i)
  {
    hide Bit;
    ChoiceByBit(b, c, d, i);
  }

  lemma ParityIs(b: word, c: word, d: word, i: bv6)
    requires i < 32
    ensures Bit(Parity(b, c, d), i) == ((Bit(b, i) != Bit(c, i)) != Bit(d, i))
  {
    hide Bit;
    ParityByBit(b, c, d, i);
  }

  lemma MajorityIs(b: word, c: word, d: word, i: bv6)
    requires i < 32
    ensures Bit(Majority(b, c, d), i) == if Bit(b, i) == Bit(c, i) then Bit(b, i) else Bit(d, i)
  {
    hide Bit;
    MajorityByBit(b, c, d, i);
  }

  lemma ChoiceByBit(b: word, c: word, d: word, i: bv6)
    requires i < 32
    ensures Bit((b & c) | (!b & d), i) == if Bit(b, i) then Bit(c, i) else Bit(d, i)
  {
  }

  lemma ParityByBit(b: word, c: word, d: word, i: bv6)
    requires i < 32
    ensures Bit(b ^ c ^ d, i) == ((Bit(b, i) != Bit(c, i)) != Bit(d, i))
  {
  }

  lemma MajorityByBit(b: word, c: word, d: word, i: bv6)
    requires i < 32
    ensures Bit((b & c) | (b & d) | (c & d), i) == if Bit(b, i) == Bit(c, i) then Bit(b, i) else Bit(d, i)
  {
  }

  /** Section 6 and the start of section 7. */
  lemma Constants(t: nat)
    requires t < 80
    ensures K(t) == [0x5a827999, 0x6ed9eba1, 0x8f1bbcdc, 0xca62c1d6][t / 20]
    ensures Initial() == Words(0x67452301, 0xefcdab89, 0x98badcfe, 0x10325476, 0xc3d2e1f0)
  {
  }

  /** Where the bits go in the circular shifts. */
  lemma ShiftsByBit(x: word, i: bv6)
    requires i < 32
    ensures Bit(Left5(x), i) == Bit(x, if i >= 5 then i - 5 else i + 27)
    ensures Bit(Left30(x), i) == Bit(x, if i >= 30 then i - 30 else i + 2)
  {
    hide Bit, Left5, Left30;
    Left5ByBit(x, i);
    Left30ByBit(x, i);
  }

  /** A bit of a word of the schedule is the parity of the four bits before it. */
  lemma ScheduleByBit(x: word, y: word, z: word, w: word, i: bv6)
    requires i < 32
    ensures var j := if i >= 1 then i - 1 else 31;
      Bit(Mix(x, y, z, w), i) == ((Bit(x, j) != Bit(y, j)) != (Bit(z, j) != Bit(w, j)))
  {
    hide Bit;
    LeftByBit(1, x ^ y ^ z ^ w, i);
    FourParity(x, y, z, w, if i >= 1 then i - 1 else 31);
  }

  lemma FourParity(x: word, y: word, z: word, w: word, j: bv6)
    requires j < 32
    ensures Bit(x ^ y ^ z ^ w, j) == ((Bit(x, j) != Bit(y, j)) != (Bit(z, j) != Bit(w, j)))
  {
  }

  lemma Left5ByBit(x: word, i: bv6)
    requires i < 32
    ensures Bit(Left5(x), i) == Bit(x, if i >= 5 then i - 5 else i + 27)
  {
    hide Bit;
    LeftByBit(5, x, i);
  }

  lemma Left30ByBit(x: word, i: bv6)
    requires i < 32
    ensures Bit(Left30(x), i) == Bit(x, if i >= 30 then i - 30 else i + 2)
  {
    hide Bit;
    LeftByBit(30, x, i);
  }

  lemma LeftByBit(n: nat, x: word, i: bv6)
    requires n == 1 || n == 5 || n == 30
    requires i < 32
    ensures n == 1 ==> Bit(x.RotateLeft(1), i) == Bit(x, if i >= 1 then i - 1 else 31)
    ensures n == 5 ==> Bit(x.RotateLeft(5), i) == Bit(x, if i >= 5 then i - 5 else i + 27)
    ensures n == 30 ==> Bit(x.RotateLeft(30), i) == Bit(x, if i >= 30 then i - 30 else i + 2)
  {
  }

  /** Writing a word and reading it, and the other way round. */
  lemma WordRead(w: word, bytes: seq<byte>)
    requires |bytes| == 4
    ensures Word(WordBytes(w), 0) == w && WordBytes(Word(bytes, 0)) == bytes
  {
    hide FromBytes, WordBytes;
    FourBytes(bytes[0], bytes[1], bytes[2], bytes[3]);
    OneWord(w);
  }

  lemma FourBytes(a: byte, b: byte, c: byte, d: byte)
    ensures WordBytes(FromBytes(a, b, c, d)) == [a, b, c, d]
  {
  }

  lemma OneWord(w: word)
    ensures var b := WordBytes(w); FromBytes(b[0], b[1], b[2], b[3]) == w
  {
  }

  /** Section 4: the message, a one bit, as few zeros as fill the block, and the length in 64 bits. */
  lemma PaddingTells(message: seq<byte>)
    ensures var p, n := Padded(message), |message|;
      && |p| % 64 == 0 && n + 9 <= |p| < n + 9 + 64
      && p[..n] == message && p[n] == 0x80
      && (forall i :: n < i < |p| - 8 ==> p[i] == 0)
      && FromBigEndian(p[|p| - 8..]) == 8 * n % 0x1_0000_0000_0000_0000
  {
    hide BigEndian, ZeroCount, FromBigEndian;
    var z, length := ZeroCount(|message|), BigEndian(BitLength(|message|), 8);
    EightBytes();
    BigEndianRead(BitLength(|message|), 8);
    var p := Padded(message);
    assert p[|p| - 8..] == length;
    forall i | |message| < i < |p| - 8
      ensures p[i] == 0
    {
      assert p[i] == Zeros(z)[i - |message| - 1];
    }
  }
}
