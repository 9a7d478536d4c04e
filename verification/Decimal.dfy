/** Numbers as text: `ulltostr` and `lltostr` of src/utility.cpp, which fill a buffer backwards and turn
    it round in place, and the library's strtoll, which reads such text back. */
module Decimal {

  const LLONG_MAX: int := 0x7FFF_FFFF_FFFF_FFFF
  const LLONG_MIN: int := -0x8000_0000_0000_0000

  function LastDigit(val: nat, radix: nat): (d: nat)
    requires radix > 0
    ensures d < radix
  {
    val % radix
  }

  function OtherDigits(val: nat, radix: nat): nat
    requires radix > 0
  {
    val / radix
  }

  function DigitChar(d: nat): (c: char)
    requires d < 36
    ensures d < 10 ==> '0' <= c <= '9' && c as int - '0' as int == d
  {
    if d > 9 then (d - 10 + 'a' as int) as char else (d + '0' as int) as char
  }

  lemma Digits(d: nat)
    requires d < 36
    ensures DigitChar(d) == "0123456789abcdefghijklmnopqrstuvwxyz"[d]
  {
  }

  /** A number in a radix, most significant digit first, without leading zeros. */
  function Numeral(val: nat, radix: nat): (s: string)
    requires 2 <= radix <= 36
    ensures |s| > 0
  {
    if val < radix then [DigitChar(val)] else Numeral(val / radix, radix) + [DigitChar(val % radix)]
  }

  function Flip(s: string): (r: string)
    ensures |r| == |s|
  {
    if s == [] then [] else Flip(s[1..]) + [s[0]]
  }

  lemma {:induction false} FlipAt(s: string, i: nat)
    requires i < |s|
    ensures Flip(s)[i] == s[|s| - 1 - i]
  {
    if i < |s| - 1 { FlipAt(s[1..], i); }
  }

  lemma Flipped(was: string, now: string)
    requires |now| == |was| && forall i :: 0 <= i < |now| ==> now[i] == was[|was| - 1 - i]
    ensures now == Flip(was)
  {
    forall i | 0 <= i < |was|
      ensures now[i] == Flip(was)[i]
    {
      FlipAt(was, i);
    }
  }

  lemma FlipTwice(s: string, r: string)
    requires r == Flip(s)
    ensures Flip(r) == s
  {
    forall i | 0 <= i < |s|
      ensures Flip(r)[i] == s[i]
    {
      FlipAt(r, i);
      FlipAt(s, |s| - 1 - i);
    }
  }

  lemma {:induction false} FlipSnoc(s: string, c: char)
    ensures Flip(s + [c]) == [c] + Flip(s)
  {
    if s != [] {
      FlipSnoc(s[1..], c);
      assert (s + [c])[1..] == s[1..] + [c];
    }
  }

  /** The digits come out of a number least significant first. */
  lemma FlippedNumeral(val: nat, radix: nat)
    requires 2 <= radix <= 36
    ensures Flip(Numeral(val, radix)) ==
      [DigitChar(LastDigit(val, radix))] +
      if OtherDigits(val, radix) > 0 then Flip(Numeral(OtherDigits(val, radix), radix)) else []
  {
    if val < radix {
      SmallQuotient(val, radix);
    } else {
      LargeQuotient(val, radix);
      FlipSnoc(Numeral(val / radix, radix), DigitChar(val % radix));
    }
  }

  lemma SmallQuotient(val: nat, radix: nat)
    requires val < radix
    ensures val / radix == 0 && val % radix == val
  {
  }

  lemma LargeQuotient(val: nat, radix: nat)
    requires 0 < radix <= val
    ensures val / radix > 0
  {
  }

  /** The first loop of `ulltostr`: digits, last one first, until they run out or the buffer is full. */
  method FillDigits(val: nat, buf: array<char>, start: nat, size: nat, radix: nat)
    returns (length: nat, ghost rest: string)
    requires 2 <= radix <= 36 && size > 0 && start + size <= buf.Length
    modifies buf
    ensures length <= size && (length < size ==> rest == [])
    ensures Flip(Numeral(val, radix)) == buf[start..start + length] + rest
    ensures buf[..start] == old(buf[..start])
  {
    hide Numeral, Flip, DigitChar, LastDigit, OtherDigits;
    var v: nat := val;
    length := 0;
    rest := Flip(Numeral(val, radix));
    ghost var got: string := [];
    var more := true;
    while more && length < size
      invariant length == |got| <= size
      invariant forall i :: 0 <= i < start ==> buf[i] == old(buf[i])
      invariant forall i :: start <= i < start + length ==> buf[i] == got[i - start]
      invariant Flip(Numeral(val, radix)) == got + rest
      invariant rest == if more then Flip(Numeral(v, radix)) else []
      decreases size - length
    {
      FlippedNumeral(v, radix);
      var digit := DigitChar(LastDigit(v, radix));
      buf[start + length] := digit;
      v := OtherDigits(v, radix);
      length := length + 1;
      more := v > 0;
      rest := if more then Flip(Numeral(v, radix)) else [];
      assert (got + [digit]) + rest == got + ([digit] + rest);
      got := got + [digit];
    }
    assert buf[start..start + length] == got;
  }

  /** The numeral with a NUL behind it, if there is room for both; an empty text otherwise. */
  method UllToStr(val: nat, buf: array<char>, start: nat, size: nat, radix: nat) returns (length: nat)
    requires 2 <= radix <= 36 && size > 0 && start + size <= buf.Length
    modifies buf
    ensures var text := Numeral(val, radix);
            if |text| < size then length == |text| && buf[start..start + length] == text && buf[start + length] == '\0'
            else length == 0 && buf[start] == '\0'
    ensures buf[..start] == old(buf[..start])
  {
    ghost var rest;
    length, rest := FillDigits(val, buf, start, size, radix);
    if length >= size {
      buf[start] := '\0';
      length := 0;
      return;
    }
    ghost var digits := buf[start..start + length];
    assert digits + [] == digits;
    buf[start + length] := '\0';
    assert buf[start..start + length] == digits;
    Reverse(buf, start, length);
    FlipTwice(Numeral(val, radix), Flip(Numeral(val, radix)));
  }

  /** What is as far from the one end of a stretch as i is from the other. */
  function Mirrored(s: string, start: nat, length: nat, i: int): char
    requires start <= i < start + length <= |s|
  {
    s[2 * start + length - 1 - i]
  }

  /** The second loop of `ulltostr`: a text is turned round in place. */
  method Reverse(buf: array<char>, start: nat, length: nat)
    requires 0 < length && start + length < buf.Length
    modifies buf
    ensures buf[start..start + length] == Flip(old(buf[start..start + length]))
    ensures buf[..start] == old(buf[..start]) && buf[start + length..] == old(buf[start + length..])
  {
    hide Flip;
    ghost var before := buf[..];
    var first: nat, last: int := start, start + length - 1;
    var going := true;
    while going
      invariant start <= first <= start + length && start - 1 <= last < start + length
      invariant first + last == 2 * start + length - 1
      invariant if going then first <= last else first >= last
      invariant forall i :: start <= i < first || last < i < start + length ==> buf[i] == Mirrored(before, start, length, i)
      invariant forall i :: 0 <= i < start || first <= i <= last || start + length <= i < buf.Length ==> buf[i] == before[i]
      decreases last - first, going
    {
      buf[first], buf[last] := buf[last], buf[first];
      last := last - 1;
      first := first + 1;
      going := first < last;
    }
    Turned(before, buf[..], start, length);
  }

  lemma Turned(before: string, buf: string, start: nat, length: nat)
    requires |buf| == |before| && start + length <= |buf|
    requires forall i :: start <= i < start + length ==> buf[i] == Mirrored(before, start, length, i)
    requires forall i :: 0 <= i < start || start + length <= i < |buf| ==> buf[i] == before[i]
    ensures buf[start..start + length] == Flip(before[start..start + length])
    ensures buf[..start] == before[..start] && buf[start + length..] == before[start + length..]
  {
    var was, now := before[start..start + length], buf[start..start + length];
    forall i | 0 <= i < |now|
      ensures now[i] == was[|was| - 1 - i]
    {
      assert now[i] == buf[start + i];
    }
    Flipped(was, now);
  }

  function IntText(n: int): string {
    if n < 0 then "-" + Numeral(-n, 10) else Numeral(n, 10)
  }

  method LlToStr(n: int, buf: array<char>) returns (length: nat)
    requires LLONG_MIN < n <= LLONG_MAX && buf.Length >= 2
    modifies buf
    ensures |IntText(n)| < buf.Length ==>
      length == |Numeral(if n < 0 then -n else n, 10)| &&
      buf[..|IntText(n)|] == IntText(n) && buf[|IntText(n)|] == '\0'
  {
    if n < 0 {
      buf[0] := '-';
      length := UllToStr(-n, buf, 1, buf.Length - 1, 10);
      if |IntText(n)| < buf.Length { SignInFront(buf[..], Numeral(-n, 10)); }
    } else {
      length := UllToStr(n, buf, 0, buf.Length, 10);
    }
  }

  lemma SignInFront(buf: string, digits: string)
    requires |digits| < |buf| && buf[..1] == "-" && buf[1..1 + |digits|] == digits
    ensures buf[..1 + |digits|] == "-" + digits
  {
    assert buf[..1 + |digits|] == buf[..1] + buf[1..1 + |digits|];
  }

  // --- reading back

  predicate IsDigit(c: char) {
    '0' <= c <= '9'
  }

  function At(s: string, i: nat): char {
    if i < |s| then s[i] else '\0'
  }

  function DigitsEnd(s: string, i: nat): (e: nat)
    ensures e >= i && (i <= |s| ==> e <= |s|)
    ensures forall k :: i <= k < e ==> IsDigit(At(s, k))
    ensures !IsDigit(At(s, e))
    decreases |s| - i
  {
    if i < |s| && IsDigit(s[i]) then DigitsEnd(s, i + 1) else i
  }

  function Value(digits: string): int {
    if digits == [] then 0
    else 10 * Value(digits[..|digits| - 1]) + (digits[|digits| - 1] as int - '0' as int)
  }

  /** strtoll in base ten, for text that does not start with white space or a plus sign. */
  function StrToLl(s: string, i: nat): int
    requires i <= |s|
  {
    var neg := At(s, i) == '-';
    var start := if neg then i + 1 else i;
    var v := Value(s[start..DigitsEnd(s, start)]);
    var n := if neg then -v else v;
    if n > LLONG_MAX then LLONG_MAX else if n < LLONG_MIN then LLONG_MIN else n
  }

  lemma {:induction false} NumeralDigits(n: nat)
    ensures forall i :: 0 <= i < |Numeral(n, 10)| ==> IsDigit(Numeral(n, 10)[i])
    ensures Value(Numeral(n, 10)) == n
  {
    if n >= 10 {
      NumeralDigits(n / 10);
      var head := Numeral(n / 10, 10);
      assert Numeral(n, 10)[..|Numeral(n, 10)| - 1] == head;
    }
  }

  /** Reading the text of a number, whatever follows it but a digit, gives the number. */
  lemma ReadsBack(s: string, i: nat, n: int, tail: string)
    requires i <= |s| && s[i..] == IntText(n) + tail
    requires tail == [] || !IsDigit(tail[0])
    requires LLONG_MIN < n <= LLONG_MAX
    ensures StrToLl(s, i) == n
  {
    hide Numeral, Value, DigitsEnd;
    var m := if n < 0 then -n else n;
    NumeralDigits(m);
    SignedDigits(s, i, Numeral(m, 10), tail, n < 0);
  }

  lemma SignedDigits(s: string, i: nat, digits: string, tail: string, neg: bool)
    requires i <= |s| && s[i..] == (if neg then "-" + digits else digits) + tail
    requires tail == [] || !IsDigit(tail[0])
    requires digits != [] && forall i :: 0 <= i < |digits| ==> IsDigit(digits[i])
    ensures var start := if neg then i + 1 else i;
      start <= |s| && (At(s, i) == '-') == neg && s[start..DigitsEnd(s, start)] == digits
  {
    hide DigitsEnd;
    Sign(s, i, digits, tail, neg);
    DigitsRead(s, if neg then i + 1 else i, digits, tail);
  }

  lemma Sign(s: string, i: nat, digits: string, tail: string, neg: bool)
    requires i <= |s| && s[i..] == (if neg then "-" + digits else digits) + tail
    requires digits != [] && IsDigit(digits[0])
    ensures (At(s, i) == '-') == neg && i < |s|
    ensures s[if neg then i + 1 else i..] == digits + tail
  {
    assert s[i..][0] == s[i];
    if neg {
      assert s[i + 1..] == s[i..][1..];
      assert (("-" + digits) + tail)[1..] == digits + tail;
    }
  }

  lemma DigitsRead(s: string, start: nat, digits: string, tail: string)
    requires start <= |s| && s[start..] == digits + tail
    requires tail == [] || !IsDigit(tail[0])
    requires forall i :: 0 <= i < |digits| ==> IsDigit(digits[i])
    ensures DigitsEnd(s, start) == start + |digits| && s[start..start + |digits|] == digits
  {
    forall k | start <= k < start + |digits|
      ensures s[k] == digits[k - start]
    {
      assert s[k] == s[start..][k - start];
    }
    if tail != [] { assert s[start..][|digits|] == tail[0]; }
    DigitRun(s, start, start + |digits|);
  }

  lemma DigitRun(s: string, start: nat, end: nat)
    requires start <= end <= |s|
    requires forall k :: start <= k < end ==> IsDigit(s[k])
    requires !IsDigit(At(s, end))
    ensures DigitsEnd(s, start) == end
    decreases end - start
  {
    if start < end { DigitRun(s, start + 1, end); }
  }

  function Pow10(k: nat): nat {
    if k == 0 then 1 else 10 * Pow10(k - 1)
  }

  lemma {:induction false} NumeralLength(n: nat, k: nat)
    requires n < Pow10(k) && k > 0
    ensures |Numeral(n, 10)| <= k
  {
    if n >= 10 { NumeralLength(n / 10, k - 1); }
  }

  /** Every long long fits the 64 bytes the serializer gives it. */
  lemma IntTextLength(n: int)
    requires LLONG_MIN < n <= LLONG_MAX
    ensures |IntText(n)| < 64
  {
    assert Pow10(4) == 10000;
    assert Pow10(8) == 10000_0000;
    assert Pow10(12) == 10000_0000_0000;
    assert Pow10(16) == 10000_0000_0000_0000;
    assert Pow10(20) == 10000_0000_0000_0000_0000;
    NumeralLength(if n < 0 then -n else n, 20);
  }
}
