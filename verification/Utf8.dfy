/** `is_valid_utf8` of src/utility.cpp against the syntax of section 4 of RFC 3629. */
module Utf8 {
  import opened Bytes

  predicate Tail(b: byte) {
    0x80 <= b <= 0xBF
  }

  /** One well-formed byte sequence, as the RFC's grammar lists them. */
  predicate WellFormed(c: seq<byte>) {
    || (|c| == 1 && c[0] <= 0x7F)
    || (|c| == 2 && 0xC2 <= c[0] <= 0xDF && Tail(c[1]))
    || (|c| == 3 && Tail(c[2]) && (
        || (c[0] == 0xE0 && 0xA0 <= c[1] <= 0xBF)
        || (0xE1 <= c[0] <= 0xEC && Tail(c[1]))
        || (c[0] == 0xED && 0x80 <= c[1] <= 0x9F)
        || (0xEE <= c[0] <= 0xEF && Tail(c[1]))))
    || (|c| == 4 && Tail(c[2]) && Tail(c[3]) && (
        || (c[0] == 0xF0 && 0x90 <= c[1] <= 0xBF)
        || (0xF1 <= c[0] <= 0xF3 && Tail(c[1]))
        || (c[0] == 0xF4 && 0x80 <= c[1] <= 0x8F)))
  }

  /** A byte string is UTF-8 if it is a sequence of well-formed sequences. */
  ghost predicate IsUtf8(s: seq<byte>) {
    exists parts: seq<seq<byte>> :: Concat(parts) == s && forall i :: 0 <= i < |parts| ==> WellFormed(parts[i])
  }

  /** How long the sequence at i is; 0 if there is no well-formed one. */
  function CharLength(s: seq<byte>, i: nat): (n: nat)
    ensures n > 0 ==> i + n <= |s| && WellFormed(s[i..i + n])
  {
    if i + 1 <= |s| && WellFormed(s[i..i + 1]) then 1
    else if i + 2 <= |s| && WellFormed(s[i..i + 2]) then 2
    else if i + 3 <= |s| && WellFormed(s[i..i + 3]) then 3
    else if i + 4 <= |s| && WellFormed(s[i..i + 4]) then 4
    else 0
  }

  predicate Utf8From(s: seq<byte>, i: nat)
    decreases |s| - i
  {
    i >= |s| || (CharLength(s, i) > 0 && Utf8From(s, i + CharLength(s, i)))
  }

  /** The first byte tells the length, so a well-formed beginning is the only one. */
  lemma LengthUnique(s: seq<byte>, i: nat, n: nat)
    requires i + n <= |s| && WellFormed(s[i..i + n])
    ensures CharLength(s, i) == n
  {
    var c := s[i..i + n];
    assert c[0] == s[i];
    var k := CharLength(s, i);
    if k > 0 { assert s[i..i + k][0] == s[i]; }
  }

  lemma {:induction false} SplitsToParts(s: seq<byte>, i: nat) returns (parts: seq<seq<byte>>)
    requires i <= |s| && Utf8From(s, i)
    ensures Concat(parts) == s[i..]
    ensures forall k :: 0 <= k < |parts| ==> WellFormed(parts[k])
    decreases |s| - i
  {
    if i >= |s| {
      parts := [];
    } else {
      var n := CharLength(s, i);
      var rest := SplitsToParts(s, i + n);
      parts := [s[i..i + n]] + rest;
      assert parts[1..] == rest;
      assert s[i..] == s[i..i + n] + s[i + n..];
    }
  }

  lemma {:induction false} PartsAreRead(s: seq<byte>, i: nat, parts: seq<seq<byte>>)
    requires i <= |s| && Concat(parts) == s[i..]
    requires forall k :: 0 <= k < |parts| ==> WellFormed(parts[k])
    ensures Utf8From(s, i)
    decreases |parts|
  {
    if parts != [] {
      var n := |parts[0]|;
      assert s[i..][..n] == parts[0];
      assert s[i..i + n] == parts[0];
      LengthUnique(s, i, n);
      assert s[i + n..] == s[i..][n..];
      PartsAreRead(s, i + n, parts[1..]);
    }
  }

  lemma Utf8Reads(s: seq<byte>)
    ensures Utf8From(s, 0) <==> IsUtf8(s)
  {
    assert s[0..] == s;
    if Utf8From(s, 0) {
      var parts := SplitsToParts(s, 0);
      assert Concat(parts) == s;
    }
    if IsUtf8(s) {
      var parts :| Concat(parts) == s && forall i :: 0 <= i < |parts| ==> WellFormed(parts[i]);
      PartsAreRead(s, 0, parts);
    }
  }

  lemma Ascii(s: seq<byte>, i: nat)
    requires i < |s| && s[i] & 0x80 == 0
    ensures Utf8From(s, i) == Utf8From(s, i + 1)
  {
    assert WellFormed(s[i..i + 1]);
  }

  lemma TwoBytes(s: seq<byte>, i: nat)
    requires i < |s| && s[i] & 0x80 != 0 && s[i] & 0x60 == 0x40
    ensures var bad := i + 1 >= |s| || s[i + 1] & 0xC0 != 0x80 || s[i] & 0xFE == 0xC0;
            CharLength(s, i) == if bad then 0 else 2
  {
    if i + 2 <= |s| { assert s[i..i + 2] == [s[i], s[i + 1]]; }
  }

  lemma ThreeBytes(s: seq<byte>, i: nat)
    requires i < |s| && s[i] & 0xF0 == 0xE0
    ensures var bad := i + 2 >= |s| || s[i + 1] & 0xC0 != 0x80 || s[i + 2] & 0xC0 != 0x80 ||
                       (s[i] == 0xE0 && s[i + 1] & 0xE0 == 0x80) || (s[i] == 0xED && s[i + 1] & 0xE0 == 0xA0);
            CharLength(s, i) == if bad then 0 else 3
  {
    if i + 3 <= |s| { assert s[i..i + 3] == [s[i], s[i + 1], s[i + 2]]; }
  }

  lemma FourBytes(s: seq<byte>, i: nat)
    requires i < |s| && s[i] & 0xF8 == 0xF0
    ensures var bad := i + 3 >= |s| || s[i + 1] & 0xC0 != 0x80 || s[i + 2] & 0xC0 != 0x80 || s[i + 3] & 0xC0 != 0x80 ||
                       (s[i] == 0xF0 && s[i + 1] & 0xF0 == 0x80) || (s[i] == 0xF4 && s[i + 1] > 0x8F) || s[i] > 0xF4;
            CharLength(s, i) == if bad then 0 else 4
  {
    if i + 4 <= |s| { assert s[i..i + 4] == [s[i], s[i + 1], s[i + 2], s[i + 3]]; }
  }

  lemma NoLead(s: seq<byte>, i: nat)
    requires i < |s| && s[i] & 0x80 != 0 && s[i] & 0x60 != 0x40 && s[i] & 0xF0 != 0xE0 && s[i] & 0xF8 != 0xF0
    ensures CharLength(s, i) == 0
  {
  }

  /** The inner loop: over seven-bit bytes, one at a time. */
  method SkipAscii(s: seq<byte>, i: nat) returns (j: nat)
    requires i < |s|
    ensures i <= j <= |s| && Utf8From(s, i) == Utf8From(s, j)
    ensures j < |s| ==> s[j] & 0x80 != 0
  {
    j := i;
    while s[j] & 0x80 == 0
      invariant i <= j < |s|
      invariant Utf8From(s, i) == Utf8From(s, j)
      decreases |s| - j
    {
      Ascii(s, j);
      j := j + 1;
      if j == |s| { return; }
    }
  }

  /** True exactly for UTF-8, without looking past the end. */
  method IsValidUtf8(s: seq<byte>) returns (ok: bool)
    ensures ok <==> IsUtf8(s)
  {
    Utf8Reads(s);
    hide IsUtf8, CharLength, WellFormed;
    var i: nat := 0;
    while i != |s|
      invariant i <= |s|
      invariant Utf8From(s, 0) == Utf8From(s, i)
      decreases |s| - i
    {
      if i + 4 <= |s| && s[i] & 0x80 == 0 && s[i + 1] & 0x80 == 0 && s[i + 2] & 0x80 == 0 && s[i + 3] & 0x80 == 0 {
        Ascii(s, i);
        Ascii(s, i + 1);
        Ascii(s, i + 2);
        Ascii(s, i + 3);
        i := i + 4;
      } else {
        i := SkipAscii(s, i);
        if i == |s| { return true; }
        if s[i] & 0x60 == 0x40 {
          TwoBytes(s, i);
          if i + 1 >= |s| || s[i + 1] & 0xC0 != 0x80 || s[i] & 0xFE == 0xC0 { return false; }
          i := i + 2;
        } else if s[i] & 0xF0 == 0xE0 {
          ThreeBytes(s, i);
          if i + 2 >= |s| || s[i + 1] & 0xC0 != 0x80 || s[i + 2] & 0xC0 != 0x80 ||
             (s[i] == 0xE0 && s[i + 1] & 0xE0 == 0x80) || (s[i] == 0xED && s[i + 1] & 0xE0 == 0xA0) { return false; }
          i := i + 3;
        } else if s[i] & 0xF8 == 0xF0 {
          FourBytes(s, i);
          if i + 3 >= |s| || s[i + 1] & 0xC0 != 0x80 || s[i + 2] & 0xC0 != 0x80 || s[i + 3] & 0xC0 != 0x80 ||
             (s[i] == 0xF0 && s[i + 1] & 0xF0 == 0x80) || (s[i] == 0xF4 && s[i + 1] > 0x8F) || s[i] > 0xF4
          {
            return false;
          }
          i := i + 4;
        } else {
          NoLead(s, i);
          return false;
        }
      }
    }
    return true;
  }
}
