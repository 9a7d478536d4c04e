/** What well-formed UTF-8 is for: every code point but the surrogates, in its shortest encoding, as section 3 of
    RFC 3629 spreads its bits over one to four bytes. */
module Utf8Chars {
  import opened Bytes
  import opened Utf8

  predicate IsScalar(p: nat) {
    p < 0xD800 || 0xE000 <= p <= 0x10FFFF
  }

  /** A continuation byte: the bits 10, and the low six of the number. */
  function Trail(p: nat): byte {
    ToByte(0x80 + p % 64)
  }

  function Encode(p: nat): seq<byte>
    requires IsScalar(p)
  {
    if p < 0x80 then [ToByte(p)]
    else if p < 0x800 then [ToByte(0xC0 + p / 64), Trail(p)]
    else if p < 0x1_0000 then [ToByte(0xE0 + p / 4096), Trail(p / 64), Trail(p)]
    else [ToByte(0xF0 + p / 262144), Trail(p / 4096), Trail(p / 64), Trail(p)]
  }

  /** The text of some code points. */
  function EncodeAll(points: seq<nat>): seq<byte>
    requires forall i :: 0 <= i < |points| ==> IsScalar(points[i])
  {
    if points == [] then [] else Encode(points[0]) + EncodeAll(points[1..])
  }

  /** Bytes by their numbers. */
  predicate Within(b: byte, low: nat, high: nat) {
    low <= ByteValue(b) <= high
  }

  lemma Order(a: byte, b: byte)
    ensures a <= b <==> ByteValue(a) <= ByteValue(b)
  {
  }

  lemma Between(low: byte, b: byte, high: byte)
    ensures low <= b <= high <==> Within(b, ByteValue(low), ByteValue(high))
  {
    Order(low, b);
    Order(b, high);
  }

  lemma SameByte(a: byte, b: byte)
    ensures a == b <==> ByteValue(a) == ByteValue(b)
  {
    Order(a, b);
    Order(b, a);
  }

  predicate Trails(b: byte) {
    Within(b, 0x80, 0xBF)
  }

  lemma TailNumber(b: byte)
    ensures Tail(b) <==> Trails(b)
  {
    Between(0x80, b, 0xBF);
  }

  lemma OneForm(c: seq<byte>)
    requires |c| == 1
    ensures WellFormed(c) <==> ByteValue(c[0]) < 0x80
  {
    Order(c[0], 0x7F);
  }

  lemma TwoForm(c: seq<byte>)
    requires |c| == 2
    ensures WellFormed(c) <==> Within(c[0], 0xC2, 0xDF) && Trails(c[1])
  {
    Between(0xC2, c[0], 0xDF);
    TailNumber(c[1]);
  }

  /** Neither a longer encoding than needed, nor a surrogate. */
  lemma ThreeForm(c: seq<byte>)
    requires |c| == 3
    ensures WellFormed(c) <==>
      && Within(c[0], 0xE0, 0xEF) && Trails(c[1]) && Trails(c[2])
      && (ByteValue(c[0]) == 0xE0 ==> ByteValue(c[1]) >= 0xA0)
      && (ByteValue(c[0]) == 0xED ==> ByteValue(c[1]) < 0xA0)
  {
    var a := c[0];
    TailNumber(c[1]);
    TailNumber(c[2]);
    Between(0xA0, c[1], 0xBF);
    Between(0x80, c[1], 0x9F);
    Between(0xE1, a, 0xEC);
    Between(0xEE, a, 0xEF);
    SameByte(a, 0xE0);
    SameByte(a, 0xED);
  }

  lemma FourForm(c: seq<byte>)
    requires |c| == 4
    ensures WellFormed(c) <==>
      && Within(c[0], 0xF0, 0xF4) && Trails(c[1]) && Trails(c[2]) && Trails(c[3])
      && (ByteValue(c[0]) == 0xF0 ==> ByteValue(c[1]) >= 0x90)
      && (ByteValue(c[0]) == 0xF4 ==> ByteValue(c[1]) < 0x90)
  {
    var a := c[0];
    TailNumber(c[1]);
    TailNumber(c[2]);
    TailNumber(c[3]);
    Between(0x90, c[1], 0xBF);
    Between(0x80, c[1], 0x8F);
    Between(0xF1, a, 0xF3);
    SameByte(a, 0xF0);
    SameByte(a, 0xF4);
  }

  lemma TrailTrails(p: nat)
    ensures Trails(Trail(p)) && ByteValue(Trail(p)) == 0x80 + p % 64
  {
  }

  lemma TwoEncoded(p: nat)
    requires 0x80 <= p < 0x800
    ensures WellFormed(Encode(p))
  {
    hide WellFormed, ToByte, ByteValue, Trails, Trail;
    TrailTrails(p);
    TwoForm(Encode(p));
  }

  lemma ThreeEncoded(p: nat)
    requires 0x800 <= p < 0x1_0000 && IsScalar(p)
    ensures WellFormed(Encode(p))
  {
    hide WellFormed, ToByte, ByteValue, Trails, Trail;
    TrailTrails(p);
    TrailTrails(p / 64);
    ThreeForm(Encode(p));
  }

  lemma FourEncoded(p: nat)
    requires 0x1_0000 <= p && IsScalar(p)
    ensures WellFormed(Encode(p))
  {
    hide WellFormed, ToByte, ByteValue, Trails, Trail;
    TrailTrails(p);
    TrailTrails(p / 64);
    TrailTrails(p / 4096);
    FourForm(Encode(p));
  }

  lemma EncodingIsWellFormed(p: nat)
    requires IsScalar(p)
    ensures WellFormed(Encode(p))
  {
    hide WellFormed, ToByte, ByteValue;
    if p < 0x80 { OneForm(Encode(p)); }
    else if p < 0x800 { TwoEncoded(p); }
    else if p < 0x1_0000 { ThreeEncoded(p); }
    else { FourEncoded(p); }
  }

  /** The code point of a well-formed sequence. */
  lemma WellFormedIsEncoding(c: seq<byte>) returns (p: nat)
    requires WellFormed(c)
    ensures IsScalar(p) && Encode(p) == c
  {
    if |c| == 1 {
      OneForm(c);
      p := ByteValue(c[0]);
      SameByte(ToByte(p), c[0]);
    } else if |c| == 2 {
      TwoForm(c);
      p := TwoPoint(c);
    } else if |c| == 3 {
      ThreeForm(c);
      p := ThreePoint(c);
    } else {
      FourForm(c);
      p := FourPoint(c);
    }
  }

  lemma TwoPoint(c: seq<byte>) returns (p: nat)
    requires |c| == 2 && Within(c[0], 0xC2, 0xDF) && Trails(c[1])
    ensures IsScalar(p) && Encode(p) == c
  {
    hide ToByte, ByteValue;
    var a, b := ByteValue(c[0]) - 0xC0, ByteValue(c[1]) - 0x80;
    p := 64 * a + b;
    assert p / 64 == a && p % 64 == b;
    SameByte(ToByte(0xC0 + a), c[0]);
    SameByte(ToByte(0x80 + b), c[1]);
  }

  lemma ThreePoint(c: seq<byte>) returns (p: nat)
    requires |c| == 3 && Within(c[0], 0xE0, 0xEF) && Trails(c[1]) && Trails(c[2])
    requires ByteValue(c[0]) == 0xE0 ==> ByteValue(c[1]) >= 0xA0
    requires ByteValue(c[0]) == 0xED ==> ByteValue(c[1]) < 0xA0
    ensures IsScalar(p) && Encode(p) == c
  {
    hide ToByte, ByteValue;
    var a, b, d := ByteValue(c[0]) - 0xE0, ByteValue(c[1]) - 0x80, ByteValue(c[2]) - 0x80;
    p := 64 * (64 * a + b) + d;
    assert p % 64 == d && p / 64 == 64 * a + b && (p / 64) % 64 == b && p / 4096 == a;
    SameByte(ToByte(0xE0 + a), c[0]);
    SameByte(ToByte(0x80 + b), c[1]);
    SameByte(ToByte(0x80 + d), c[2]);
  }

  lemma FourDigits(p: nat, a: nat, b: nat, d: nat, e: nat)
    requires p == 64 * (64 * (64 * a + b) + d) + e && b < 64 && d < 64 && e < 64
    ensures p % 64 == e && (p / 64) % 64 == d && (p / 4096) % 64 == b && p / 262144 == a
    ensures a <= 4 && (a == 0 ==> b >= 16) && (a == 4 ==> b < 16) ==> 0x1_0000 <= p && IsScalar(p)
  {
    assert p / 64 == 64 * (64 * a + b) + d;
    assert p / 4096 == 64 * a + b;
  }

  lemma FourPoint(c: seq<byte>) returns (p: nat)
    requires |c| == 4 && Within(c[0], 0xF0, 0xF4) && Trails(c[1]) && Trails(c[2]) && Trails(c[3])
    requires ByteValue(c[0]) == 0xF0 ==> ByteValue(c[1]) >= 0x90
    requires ByteValue(c[0]) == 0xF4 ==> ByteValue(c[1]) < 0x90
    ensures IsScalar(p) && Encode(p) == c
  {
    hide ToByte, ByteValue;
    var a, b, d, e := ByteValue(c[0]) - 0xF0, ByteValue(c[1]) - 0x80, ByteValue(c[2]) - 0x80, ByteValue(c[3]) - 0x80;
    p := 64 * (64 * (64 * a + b) + d) + e;
    FourDigits(p, a, b, d, e);
    hide IsScalar;
    SameByte(ToByte(0xF0 + a), c[0]);
    SameByte(ToByte(0x80 + b), c[1]);
    SameByte(ToByte(0x80 + d), c[2]);
    SameByte(ToByte(0x80 + e), c[3]);
  }

  lemma {:induction false} PointsOf(parts: seq<seq<byte>>) returns (points: seq<nat>)
    requires forall i :: 0 <= i < |parts| ==> WellFormed(parts[i])
    ensures forall i :: 0 <= i < |points| ==> IsScalar(points[i])
    ensures EncodeAll(points) == Concat(parts)
  {
    hide WellFormed, IsScalar, Encode;
    if parts == [] {
      points := [];
    } else {
      var p := WellFormedIsEncoding(parts[0]);
      var rest := PointsOf(parts[1..]);
      points := [p] + rest;
      assert points[1..] == rest;
    }
  }

  lemma {:induction false} PartsOf(points: seq<nat>) returns (parts: seq<seq<byte>>)
    requires forall i :: 0 <= i < |points| ==> IsScalar(points[i])
    ensures forall i :: 0 <= i < |parts| ==> WellFormed(parts[i])
    ensures EncodeAll(points) == Concat(parts)
  {
    hide WellFormed, IsScalar, Encode;
    if points == [] {
      parts := [];
    } else {
      EncodingIsWellFormed(points[0]);
      var rest := PartsOf(points[1..]);
      parts := [Encode(points[0])] + rest;
      assert parts[1..] == rest;
    }
  }

  /** A text of code points. */
  ghost predicate IsText(s: seq<byte>) {
    exists points: seq<nat> ::
      (forall i :: 0 <= i < |points| ==> IsScalar(points[i])) && EncodeAll(points) == s
  }

  /** The byte strings that are sequences of well-formed sequences, which are those `is_valid_utf8` accepts, are
      the encodings of code points. */
  lemma Utf8IsText(s: seq<byte>)
    ensures IsUtf8(s) <==> IsText(s)
  {
    hide WellFormed, IsScalar, Encode;
    if IsUtf8(s) {
      var parts :| Concat(parts) == s && forall i :: 0 <= i < |parts| ==> WellFormed(parts[i]);
      var points := PointsOf(parts);
      assert EncodeAll(points) == s;
    }
    if IsText(s) {
      var points: seq<nat> :| (forall i :: 0 <= i < |points| ==> IsScalar(points[i])) && EncodeAll(points) == s;
      var parts := PartsOf(points);
      assert Concat(parts) == s;
    }
  }
}
