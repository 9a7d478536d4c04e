/** `base64_decode` of src/base64.c, on any text: it goes by the letters of the alphabet alone, but for what the
    text ends in. */
module Base64Decode {
  import opened Base64

  function At(s: string, p: nat): char {
    if p < |s| then s[p] else '\0'
  }

  /** Whether there is no more to read: in_len is used up, or the text is over. */
  predicate Over(s: string, p: nat, left: int) {
    left == 0 || At(s, p) == '\0'
  }

  /** What there is to read: up to the NUL, or as many characters as in_len says; all if it is negative. */
  function Rest(s: string, p: nat, left: int): string
    decreases |s| - p
  {
    if Over(s, p, left) then [] else [s[p]] + Rest(s, p + 1, left - 1)
  }

  /** The URL variant's characters count as those of the alphabet. */
  function Plain(c: char): char {
    if c == '-' then '+' else if c == '_' then '/' else c
  }

  /** The six-bit values of the letters in a text; anything else is passed over. */
  function Letters(u: string): (v: seq<nat>)
    ensures |v| <= |u| && forall j :: 0 <= j < |v| ==> v[j] < 64
  {
    if u == [] then []
    else
      var k := Unletter(Plain(u[0]));
      (if k > 0 then [k - 1] else []) + Letters(u[1..])
  }

  /** What a text ends in. */
  datatype Ending = InLetter | InPadding | InOther

  function EndingOf(u: string): Ending {
    if u == [] || Unletter(Plain(u[|u| - 1])) > 0 then InLetter
    else if u[|u| - 1] == '=' then InPadding
    else InOther
  }

  /** The bytes that letters spell: three for four of them, the bits that are left over dropped. */
  function Bytes(v: seq<nat>): seq<octet>
    requires forall j :: 0 <= j < |v| ==> v[j] < 64
  {
    if |v| >= 4 then GroupBytes(v[..4], 4) + Bytes(v[4..])
    else GroupBytes(Filled(v), |v|)
  }

  /** Less than four letters, filled up. */
  function Filled(v: seq<nat>): (quad: seq<nat>)
    requires |v| < 4 && forall j :: 0 <= j < |v| ==> v[j] < 64
    ensures |quad| == 4 && forall j :: 0 <= j < 4 ==> quad[j] == if j < |v| then v[j] else 0
  {
    [if |v| > 0 then v[0] else 0, if |v| > 1 then v[1] else 0, if |v| > 2 then v[2] else 0, 0]
  }

  /** The bytes of a group of len characters. */
  function GroupBytes(quad: seq<nat>, len: int): (b: seq<octet>)
    requires |quad| == 4 && forall j :: 0 <= j < 4 ==> quad[j] < 64
    ensures |b| == if len >= 4 then 3 else if len >= 2 then len - 1 else 0
  {
    (if len >= 2 then [(quad[0] * 4 + quad[1] / 16) % 256] else []) +
    (if len >= 3 then [(quad[1] * 16 + quad[2] / 4) % 256] else []) +
    (if len >= 4 then [quad[2] * 64 % 256 + quad[3]] else [])
  }

  /** The length that is returned for so many letters. */
  function Length(letters: nat, ending: Ending): (n: int)
    ensures n >= -1
  {
    3 * (letters / 4) +
    if letters % 4 == 0 then if ending.InPadding? then -1 else 0
    else letters % 4 - 1 + if ending.InOther? then 1 else 0
  }

  // --- the loops

  lemma RestStep(s: string, p: nat, left: int)
    requires !Over(s, p, left)
    ensures Rest(s, p, left) == [s[p]] + Rest(s, p + 1, left - 1) && Rest(s, p, left) != []
  {
  }

  lemma LettersNext(u: string)
    requires u != []
    ensures var k := Unletter(Plain(u[0]));
      Letters(u) == (if k > 0 then [(k - 1) as nat] else []) + Letters(u[1..])
    ensures u[1..] != [] ==> EndingOf(u[1..]) == EndingOf(u)
    ensures u[1..] == [] ==>
      EndingOf(u) == if Unletter(Plain(u[0])) > 0 then InLetter else if u[0] == '=' then InPadding else InOther
  {
  }

  lemma NothingLeft()
    ensures Letters([]) == [] && EndingOf([]) == InLetter && Bytes([]) == [] && Length(0, InLetter) == 0
    ensures Unletter('=') == 0
  {
  }

  /** Of the text u there is w left, and what has been read is passed over, or ended in the letter c. */
  ghost predicate Read(u: string, w: string, v: nat, c: char) {
    if v > 0 then
      && Letters(u) == [(v - 1) as nat] + Letters(w) && EndingOf(w) == EndingOf(u) && c != '='
    else
      && Letters(w) == Letters(u)
      && if w != [] then EndingOf(w) == EndingOf(u)
         else u != [] ==> !EndingOf(u).InLetter? && (c == '=' <==> EndingOf(u).InPadding?)
  }

  lemma ReadOne(u: string, w: string, before: char)
    requires Read(u, w, 0, before) && w != [] && u != []
    ensures Read(u, w[1..], Unletter(Plain(w[0])), Plain(w[0]))
  {
    LettersNext(w);
    NothingLeft();
    hide Letters, EndingOf, Unletter;
  }

  /** The innermost loop: characters are read until one is of the alphabet. */
  method ReadChar(s: string, p: nat, left: int) returns (q: nat, left': int, v: nat, c: char)
    requires !Over(s, p, left)
    ensures p < q && v <= 64 && c != '\0'
    ensures Read(Rest(s, p, left), Rest(s, q, left'), v, c)
    ensures v == 0 ==> Rest(s, q, left') == []
  {
    hide Unletter, Read, Rest;
    q, left', v, c := p, left, 0, '\0';
    ghost var u := Rest(s, p, left);
    RestStep(s, p, left);
    assert Read(u, u, 0, c) by { NothingRead(u, c); }
    while !Over(s, q, left') && v == 0
      invariant p <= q && v <= 64
      invariant if q == p then left' == left && v == 0 else c != '\0'
      invariant Read(u, Rest(s, q, left'), v, c)
      decreases |s| - q, if v == 0 then 1 else 0
    {
      RestStep(s, q, left');
      ghost var w := Rest(s, q, left');
      assert w[0] == s[q] && w[1..] == Rest(s, q + 1, left' - 1);
      ReadOne(u, w, c);
      c := Plain(s[q]);
      v := Unletter(c);
      q := q + 1;
      left' := left' - 1;
    }
    RestOver(s, q, left');
  }

  lemma NothingRead(u: string, c: char)
    requires u != []
    ensures Read(u, u, 0, c)
  {
  }

  lemma RestOver(s: string, p: nat, left: int)
    ensures Over(s, p, left) <==> Rest(s, p, left) == []
    ensures !Over(s, p, left) ==> p < |s|
  {
  }

  /** The middle loop: up to four letters, or what is left. */
  method ReadGroup(s: string, p: nat, left: int, quad0: seq<nat>)
    returns (q: nat, left': int, len: nat, c: char, quad: seq<nat>)
    requires |quad0| == 4 && !Over(s, p, left) && (forall j :: 0 <= j < 4 ==> quad0[j] < 64)
    ensures p < q && 1 <= len <= 4 && |quad| == 4 && forall j :: 0 <= j < 4 ==> quad[j] < 64
    ensures var u, w, v := Rest(s, p, left), Rest(s, q, left'), Letters(Rest(s, p, left));
      && (forall j :: 0 <= j < 4 && j < |v| ==> quad[j] == v[j])
      && if |v| >= 4 then len == 4 && c != '=' && Letters(w) == v[4..] && EndingOf(w) == EndingOf(u)
         else
           && w == [] && len == |v| + (if EndingOf(u).InLetter? then 0 else 1)
           && (c == '=' <==> EndingOf(u).InPadding?)
  {
    hide Unletter, Letters, EndingOf, Rest, Over;
    q, left', len, c, quad := p, left, 0, '\0', quad0;
    ghost var u, v := Rest(s, p, left), Letters(Rest(s, p, left));
    RestOver(s, p, left);
    NothingLeft();
    var i: nat := 0;
    while i < 4 && !Over(s, q, left')
      invariant i == len <= 4 && |quad| == 4 && forall j :: 0 <= j < 4 ==> quad[j] < 64
      invariant q >= p && (i == 0 ==> q == p && left' == left) && (i > 0 ==> q > p)
      invariant forall j :: 0 <= j < i && j < |v| ==> quad[j] == v[j]
      invariant if i <= |v| then
                  Letters(Rest(s, q, left')) == v[i..] && EndingOf(Rest(s, q, left')) == EndingOf(u) && c != '='
                else
                  && i == |v| + 1 && Rest(s, q, left') == [] && !EndingOf(u).InLetter?
                  && (c == '=' <==> EndingOf(u).InPadding?)
      decreases 4 - i
    {
      RestOver(s, q, left');
      var k;
      q, left', k, c := ReadChar(s, q, left');
      len := len + 1;
      if k > 0 { quad := quad[i := k - 1]; }
      i := i + 1;
    }
    RestOver(s, q, left');
  }

  /** A text without letters that is not empty does not end in one. */
  lemma {:induction false} OtherEnding(u: string)
    requires u != [] && Letters(u) == []
    ensures !EndingOf(u).InLetter?
  {
    LettersNext(u);
    if |u| > 1 { OtherEnding(u[1..]); }
  }

  lemma LengthStep(letters: nat, ending: Ending)
    ensures letters >= 4 ==> Length(letters, ending) == 3 + Length(letters - 4, ending)
    ensures letters < 4 && (letters > 0 || !ending.InLetter?) ==>
      Length(letters, ending) >= letters + (if ending.InLetter? then 0 else 1) - 2
  {
  }

  /** Whether the last byte is made of the last letter's spare bits and what was in the buffer of four. */
  predicate OneMore(letters: nat, ending: Ending) {
    letters % 4 != 0 && ending.InOther?
  }

  lemma LastGroup(quad: seq<nat>, v: seq<nat>)
    requires |quad| == 4 && (forall j :: 0 <= j < 4 ==> quad[j] < 64) && (forall j :: 0 <= j < |v| ==> v[j] < 64)
    requires |v| < 4 && forall j :: 0 <= j < |v| ==> quad[j] == v[j]
    ensures GroupBytes(quad, |v|) == Bytes(v)
    ensures |v| > 0 ==> GroupBytes(quad, |v| + 1)[..|v| - 1] == Bytes(v) && |GroupBytes(quad, |v| + 1)| == |v|
  {
  }

  lemma FirstGroup(quad: seq<nat>, v: seq<nat>)
    requires |quad| == 4 && (forall j :: 0 <= j < 4 ==> quad[j] < 64) && (forall j :: 0 <= j < |v| ==> v[j] < 64)
    requires |v| >= 4 && forall j :: 0 <= j < 4 ==> quad[j] == v[j]
    ensures GroupBytes(quad, 4) + Bytes(v[4..]) == Bytes(v)
  {
    assert quad == v[..4];
  }

  /** What the last group adds. */
  lemma LastOut(out: seq<octet>, quad: seq<nat>, r: seq<nat>, v: seq<nat>, ending: Ending, len: int)
    requires |quad| == 4 && (forall j :: 0 <= j < 4 ==> quad[j] < 64)
    requires (forall j :: 0 <= j < |r| ==> r[j] < 64) && (forall j :: 0 <= j < |v| ==> v[j] < 64)
    requires |r| < 4 && forall j :: 0 <= j < |r| ==> quad[j] == r[j]
    requires |r| % 4 == |v| % 4 && out + Bytes(r) == Bytes(v) && (|r| == 0 ==> !ending.InLetter?)
    requires len == |r| + if ending.InOther? then 1 else 0
    ensures var all := out + GroupBytes(quad, len);
      Bytes(v) <= all && |all| == |Bytes(v)| + if OneMore(|v|, ending) then 1 else 0
    ensures len - 1 == Length(|r|, ending)
  {
    hide Bytes, GroupBytes, Length, OneMore;
    LastLength(|r|, |v|, ending);
    LastGroup(quad, r);
    if |r| > 0 && ending.InOther? {
      Longer(out, Bytes(r), GroupBytes(quad, |r| + 1));
    } else if |r| == 0 {
      NoBytes(quad, len);
      assert out + [] == out;
    }
  }

  lemma LastLength(letters: nat, all: nat, ending: Ending)
    requires letters < 4 && letters == all % 4 && (letters == 0 ==> !ending.InLetter?)
    ensures letters + (if ending.InOther? then 1 else 0) - 1 == Length(letters, ending)
    ensures OneMore(all, ending) <==> letters > 0 && ending.InOther?
  {
  }

  lemma NoBytes(quad: seq<nat>, len: int)
    requires |quad| == 4 && (forall j :: 0 <= j < 4 ==> quad[j] < 64) && len <= 1
    ensures GroupBytes(quad, len) == [] && Bytes([]) == []
  {
  }

  lemma Longer(out: seq<octet>, b: seq<octet>, g: seq<octet>)
    requires |g| == |b| + 1 && g[..|b|] == b
    ensures out + b <= out + g && |out + g| == |out + b| + 1
  {
    assert g == b + g[|b|..];
    assert out + g == (out + b) + g[|b|..];
  }

  /** Where the decoder stands in a text of these letters and this ending: w is left to read; after the last
      group nothing is. */
  ghost predicate Decoding(w: string, v: seq<nat>, ending: Ending, done: int, out: seq<octet>, last: bool)
    requires forall j :: 0 <= j < |v| ==> v[j] < 64
  {
    && done + Length(|Letters(w)|, EndingOf(w)) == Length(|v|, ending)
    && if last then
         w == [] && Bytes(v) <= out && |out| == |Bytes(v)| + if OneMore(|v|, ending) then 1 else 0
       else
         out + Bytes(Letters(w)) == Bytes(v) && EndingOf(w) == ending && |Letters(w)| % 4 == |v| % 4
  }

  lemma GroupDone(w: string, rest: string, v: seq<nat>, ending: Ending, done: int, out: seq<octet>, quad: seq<nat>)
    requires forall j :: 0 <= j < |v| ==> v[j] < 64
    requires Decoding(w, v, ending, done, out, false) && |Letters(w)| >= 4
    requires |quad| == 4 && (forall j :: 0 <= j < 4 ==> quad[j] < 64 && quad[j] == Letters(w)[j])
    requires Letters(rest) == Letters(w)[4..] && EndingOf(rest) == EndingOf(w)
    ensures Decoding(rest, v, ending, done + 3, out + GroupBytes(quad, 4), false)
    ensures done + 2 <= Length(|v|, ending)
  {
    hide GroupBytes, Bytes, Letters, EndingOf, Length;
    LengthStep(|Letters(w)|, ending);
    FirstGroup(quad, Letters(w));
  }

  lemma LastDone(w: string, v: seq<nat>, ending: Ending, done: int, out: seq<octet>, quad: seq<nat>, len: int)
    requires forall j :: 0 <= j < |v| ==> v[j] < 64
    requires Decoding(w, v, ending, done, out, false) && w != [] && |Letters(w)| < 4
    requires |quad| == 4 && (forall j :: 0 <= j < 4 ==> quad[j] < 64)
    requires forall j :: 0 <= j < |Letters(w)| ==> quad[j] == Letters(w)[j]
    requires len == |Letters(w)| + if ending.InOther? then 1 else 0
    ensures Decoding([], v, ending, done + (len - 1), out + GroupBytes(quad, len), true)
    ensures done + |Letters(w)| + (if ending.InLetter? then 0 else 1) - 1 <= Length(|v|, ending) + 1
  {
    hide GroupBytes, Bytes, Letters, EndingOf, Length, OneMore;
    NothingLeft();
    if Letters(w) == [] { OtherEnding(w); }
    LastOut(out, quad, Letters(w), v, ending, len);
  }

  lemma DoneDecoding(v: seq<nat>, ending: Ending, done: int, out: seq<octet>, last: bool)
    requires (forall j :: 0 <= j < |v| ==> v[j] < 64) && Decoding([], v, ending, done, out, last)
    ensures done == Length(|v|, ending) && Bytes(v) <= out
    ensures |out| == |Bytes(v)| + if OneMore(|v|, ending) then 1 else 0
  {
    hide GroupBytes, Bytes, Letters, EndingOf, Length;
    NothingLeft();
  }

  /** On any text: the length depends on how many letters there are and what the text ends in, it fails exactly
      if the buffer has no room for one byte more than that and the NUL, and what is written is the bytes
      that the letters spell, whatever stands between them; with one more if the text ends in something
      else in the middle of a group. */
  method Decode(s: string, inLen: int, outSize: int) returns (done: int, out: seq<octet>)
    ensures var t := Rest(s, 0, inLen);
      var v, ending := Letters(t), EndingOf(t);
      var n := Length(|v|, ending);
      && (n + 1 >= outSize ==> done == -1)
      && (n + 1 < outSize ==>
            && done == n && Bytes(v) <= out
            && |out| == |Bytes(v)| + if OneMore(|v|, ending) then 1 else 0)
  {
    hide GroupBytes, Bytes, Letters, EndingOf, Length, Rest, Over, OneMore, Decoding;
    var p: nat, left := 0, inLen;
    var quad: seq<nat> := [0, 0, 0, 0];
    done, out := 0, [];
    ghost var t := Rest(s, 0, inLen);
    ghost var v, ending := Letters(t), EndingOf(t);
    ghost var last := false;
    assert Decoding(t, v, ending, 0, [], false) by { StartDecoding(t); }
    while !Over(s, p, left)
      invariant |quad| == 4 && forall j :: 0 <= j < 4 ==> quad[j] < 64
      invariant Decoding(Rest(s, p, left), v, ending, done, out, last)
      decreases |s| - p
    {
      RestOver(s, p, left);
      ghost var w := Rest(s, p, left);
      NotLast(w, v, ending, done, out, last);
      var len: int, c;
      p, left, len, c, quad := ReadGroup(s, p, left, quad);
      RestOver(s, p, left);
      if |Letters(w)| >= 4 {
        GroupDone(w, Rest(s, p, left), v, ending, done, out, quad);
      } else {
        LastDone(w, v, ending, done, out, quad, if ending.InPadding? then len - 1 else len);
      }
      if outSize < done + len - 1 {
        return -1, out;
      }
      if Over(s, p, left) && c == '=' { len := len - 1; }
      out := out + GroupBytes(quad, len);
      done := done + (len - 1);
      last := |Letters(w)| < 4;
    }
    RestOver(s, p, left);
    DoneDecoding(v, ending, done, out, last);
    if done + 1 >= outSize {
      return -1, out;
    }
  }

  lemma StartDecoding(t: string)
    ensures Decoding(t, Letters(t), EndingOf(t), 0, [], false)
  {
    hide Letters, EndingOf, Bytes, Length;
    assert [] + Bytes(Letters(t)) == Bytes(Letters(t));
  }

  lemma NotLast(w: string, v: seq<nat>, ending: Ending, done: int, out: seq<octet>, last: bool)
    requires (forall j :: 0 <= j < |v| ==> v[j] < 64) && Decoding(w, v, ending, done, out, last) && w != []
    ensures !last && EndingOf(w) == ending
  {
    hide Letters, EndingOf, Bytes, Length;
  }

  // --- texts that were encoded

  /** The six-bit values of a group. */
  function Sextet(a: octet, b: octet, c: octet, j: nat): (k: nat)
    requires j < 4
    ensures k < 64
  {
    if j == 0 then a / 4 else if j == 1 then a % 4 * 16 + b / 16 else if j == 2 then b % 16 * 4 + c / 64 else c % 64
  }

  function Sextets(a: octet, b: octet, c: octet, len: nat): (v: seq<nat>)
    requires 1 <= len <= 3
    ensures |v| == len + 1
  {
    [Sextet(a, b, c, 0), Sextet(a, b, c, 1), Sextet(a, b, c, 2), Sextet(a, b, c, 3)][..len + 1]
  }

  lemma FirstByte(a: octet, b: octet)
    ensures (a / 4 * 4 + (a % 4 * 16 + b / 16) / 16) % 256 == a
  {
    assert (a % 4 * 16 + b / 16) / 16 == a % 4;
  }

  lemma SecondByte(a: octet, b: octet, c: octet)
    ensures ((a % 4 * 16 + b / 16) * 16 + (b % 16 * 4 + c / 64) / 4) % 256 == b
  {
    assert (b % 16 * 4 + c / 64) / 4 == b % 16;
    assert (a % 4 * 16 + b / 16) * 16 + b % 16 == a % 4 * 256 + b;
  }

  lemma ThirdByte(b: octet, c: octet)
    ensures (b % 16 * 4 + c / 64) * 64 % 256 + c % 64 == c
  {
    assert (b % 16 * 4 + c / 64) * 64 == b % 16 * 256 + c / 64 * 64;
  }

  lemma GroupBack(quad: seq<nat>, a: octet, b: octet, c: octet, len: nat)
    requires |quad| == 4 && (forall j :: 0 <= j < 4 ==> quad[j] < 64) && 1 <= len <= 3
    requires quad[..len + 1] == Sextets(a, b, c, len)
    ensures GroupBytes(quad, len + 1) == [a, b, c][..len]
  {
    FirstByte(a, b);
    SecondByte(a, b, c);
    ThirdByte(b, c);
    var v := quad[..len + 1];
    assert quad[0] == v[0] && quad[1] == v[1] && (len > 1 ==> quad[2] == v[2]) && (len > 2 ==> quad[3] == v[3]);
    hide Sextet;
    SextetsAre(a, b, c);
  }

  lemma SextetsAre(a: octet, b: octet, c: octet)
    ensures Sextet(a, b, c, 0) == a / 4 && Sextet(a, b, c, 1) == a % 4 * 16 + b / 16
    ensures Sextet(a, b, c, 2) == b % 16 * 4 + c / 64 && Sextet(a, b, c, 3) == c % 64
  {
  }

  lemma {:induction false} LettersJoin(u: string, w: string)
    ensures Letters(u + w) == Letters(u) + Letters(w)
  {
    hide Letters, Unletter, Plain;
    NothingLeft();
    if u == [] {
      assert u + w == w;
    } else {
      LettersJoin(u[1..], w);
      assert (u + w)[1..] == u[1..] + w;
      LettersNext(u);
      LettersNext(u + w);
    }
  }

  lemma EndsAs(u: string, w: string)
    requires w != []
    ensures EndingOf(u + w) == EndingOf(w)
  {
  }

  lemma LetterRead(k: nat)
    requires k < 64
    ensures Letters([Letter(k)]) == [k] && EndingOf([Letter(k)]) == InLetter
  {
    LetterBack(k);
  }

  lemma PaddingRead()
    ensures Letters(['=']) == [] && EndingOf(['=']) == InPadding
  {
  }

  lemma FourRead(p: char, q: char, r: char, s: char)
    ensures Letters([p, q, r, s]) == Letters([p]) + Letters([q]) + Letters([r]) + Letters([s])
    ensures EndingOf([p, q, r, s]) == EndingOf([s])
  {
    hide Letters, EndingOf;
    OneMoreRead([p, q, r], s);
    OneMoreRead([p, q], r);
    OneMoreRead([p], q);
    assert [p, q, r] + [s] == [p, q, r, s] && [p, q] + [r] == [p, q, r] && [p] + [q] == [p, q];
  }

  lemma OneMoreRead(u: string, c: char)
    ensures Letters(u + [c]) == Letters(u) + Letters([c]) && EndingOf(u + [c]) == EndingOf([c])
  {
    hide Letters, EndingOf;
    LettersJoin(u, [c]);
    EndsAs(u, [c]);
  }

  /** A group is read as the letters it was made of. */
  lemma GroupRead(a: octet, b: octet, c: octet, len: nat)
    requires 1 <= len <= 3
    ensures Letters(Group(a, b, c, len)) == Sextets(a, b, c, len)
    ensures EndingOf(Group(a, b, c, len)) == if len == 3 then InLetter else InPadding
  {
    hide Letters, EndingOf, Letter, Sextet;
    SextetsAre(a, b, c);
    LetterRead(a / 4);
    LetterRead(a % 4 * 16 + b / 16);
    LetterRead(b % 16 * 4 + c / 64);
    LetterRead(c % 64);
    PaddingRead();
    var g := Group(a, b, c, len);
    FourRead(g[0], g[1], g[2], g[3]);
    assert g == [g[0], g[1], g[2], g[3]];
  }

  lemma BytesOfGroup(a: octet, b: octet, c: octet, len: nat)
    requires 1 <= len <= 3
    requires forall j :: 0 <= j <= len ==> Sextets(a, b, c, len)[j] < 64
    ensures Bytes(Sextets(a, b, c, len)) == [a, b, c][..len]
  {
    hide Sextet, GroupBytes;
    var v := Sextets(a, b, c, len);
    if len == 3 {
      GroupBack(v, a, b, c, 3);
      assert v[..4] == v && v[4..] == [];
      NoBytes([0, 0, 0, 0], 0);
    } else {
      GroupBack(Filled(v), a, b, c, len);
    }
  }

  lemma BytesFour(q: seq<nat>, v: seq<nat>)
    requires |q| == 4 && (forall j :: 0 <= j < 4 ==> q[j] < 64) && (forall j :: 0 <= j < |v| ==> v[j] < 64)
    ensures Bytes(q + v) == GroupBytes(q, 4) + Bytes(v)
  {
    hide GroupBytes, Filled;
    assert (q + v)[..4] == q && (q + v)[4..] == v;
  }

  lemma SextetsFit(a: octet, b: octet, c: octet)
    ensures var q := Sextets(a, b, c, 3); |q| == 4 && forall j :: 0 <= j < 4 ==> q[j] < 64
  {
    hide Sextet;
  }

  lemma BytesGroupFirst(a: octet, b: octet, c: octet, v: seq<nat>)
    requires forall j :: 0 <= j < |v| ==> v[j] < 64
    ensures forall j :: 0 <= j < 4 + |v| ==> (Sextets(a, b, c, 3) + v)[j] < 64
    ensures Bytes(Sextets(a, b, c, 3) + v) == [a, b, c] + Bytes(v)
  {
    hide Sextets, GroupBytes, Bytes;
    var q := Sextets(a, b, c, 3);
    SextetsFit(a, b, c);
    assert q[..4] == q && [a, b, c][..3] == [a, b, c];
    GroupBack(q, a, b, c, 3);
    BytesFour(q, v);
  }

  /** The text of some bytes spells them. */
  lemma {:induction false} EncodedSpells(x: seq<octet>)
    ensures Bytes(Letters(Encoded(x))) == x && |Letters(Encoded(x))| == (4 * |x| + 2) / 3
    ensures EndingOf(Encoded(x)) == if |x| % 3 == 0 then InLetter else InPadding
    decreases |x|
  {
    hide Group, Letters, EndingOf, Bytes, Sextets;
    if |x| == 0 {
      NothingLeft();
    } else if |x| <= 2 {
      var b := if |x| == 2 then x[1] else 0;
      GroupRead(x[0], b, 0, |x|);
      BytesOfGroup(x[0], b, 0, |x|);
      assert [x[0], b, 0][..|x|] == x;
    } else {
      EncodedSpells(x[3..]);
      GroupSpells(x[0], x[1], x[2], Encoded(x[3..]), x[3..]);
      assert [x[0], x[1], x[2]] + x[3..] == x;
    }
  }

  /** One group in front of a text. */
  lemma GroupSpells(a: octet, b: octet, c: octet, u: string, x: seq<octet>)
    requires Bytes(Letters(u)) == x
    ensures var t := Group(a, b, c, 3) + u;
      && Bytes(Letters(t)) == [a, b, c] + x && |Letters(t)| == 4 + |Letters(u)| && EndingOf(t) == EndingOf(u)
  {
    hide Group, Letters, EndingOf, Bytes, Sextets;
    var g := Group(a, b, c, 3);
    GroupRead(a, b, c, 3);
    LettersJoin(g, u);
    BytesGroupFirst(a, b, c, Letters(u));
    if u == [] {
      assert g + u == g;
      NothingLeft();
    } else {
      EndsAs(g, u);
    }
  }

  /** Minus and underscore stand for plus and slash. */
  lemma UrlLetters()
    ensures Letters(['-']) == Letters(['+']) == [62] && Letters(['_']) == Letters(['/']) == [63]
  {
    hide Letters;
    LettersNext(['-']);
    LettersNext(['+']);
    LettersNext(['_']);
    LettersNext(['/']);
    NothingLeft();
  }

  /** A text with the letters of x's, whatever else stands between them and whether or not the padding is there,
      is decoded to x exactly if it ends in a letter, or in padding just when x needs some, or in something
      else just when it needs none. */
  lemma Spelled(t: string, x: seq<octet>)
    requires Letters(t) == Letters(Encoded(x))
    ensures Bytes(Letters(t)) == x
    ensures Length(|Letters(t)|, EndingOf(t)) == |x| <==>
      match EndingOf(t)
      case InLetter => true
      case InPadding => |x| % 3 != 0
      case InOther => |x| % 3 == 0
    ensures OneMore(|Letters(t)|, EndingOf(t)) <==> EndingOf(t).InOther? && |x| % 3 != 0
  {
    hide Letters, EndingOf, Bytes;
    EncodedSpells(x);
    var m, n := |Letters(t)|, |x|;
    assert m / 4 == n / 3 && m % 4 == if n % 3 == 0 then 0 else n % 3 + 1;
  }

  lemma {:induction false} NoNul(x: seq<octet>)
    ensures '\0' !in Encoded(x)
    decreases |x|
  {
    hide Letter;
    if |x| >= 3 { NoNul(x[3..]); }
  }

  lemma {:induction false} RestIsAll(s: string, p: nat, left: int)
    requires p <= |s| && '\0' !in s && (left == |s| - p || left < 0)
    ensures Rest(s, p, left) == s[p..]
    decreases |s| - p
  {
    if p < |s| { RestIsAll(s, p + 1, left - 1); }
  }

  /** Decoding what was encoded gives it back with its exact length, whether in_len says how long the text is or
      is -1, exactly if the buffer has room for two bytes more. */
  method RoundTrip(x: seq<octet>, textSize: int, outSize: int, known: bool) returns (n: int, y: seq<octet>)
    requires textSize > |Encoded(x)| + 1
    ensures n == if outSize >= |x| + 2 then |x| else -1
    ensures n >= 0 ==> y == x
  {
    hide Letters, EndingOf, Bytes, Rest, Length, Encoded;
    var m, text := Encode(x, textSize);
    NoNul(x);
    RestIsAll(text[..m], 0, if known then m else -1);
    assert text[..m] == Encoded(x) && text[..m][0..] == Encoded(x);
    EncodedSpells(x);
    Spelled(Encoded(x), x);
    n, y := Decode(text[..m], if known then m else -1, outSize);
  }

  /** A line break behind the padding makes the decoder add a byte of spare bits. */
  lemma LineBreakBehindPadding()
    ensures Encoded([102]) == "Zg=="
    ensures var t := "Zg==\n"; Length(|Letters(t)|, EndingOf(t)) == 2 && OneMore(|Letters(t)|, EndingOf(t))
  {
    hide Letters, Letter;
    assert Group(102, 0, 0, 1) == "Zg==" by { LetterNames(); }
    assert Encoded([102]) == Group(102, 0, 0, 1);
    EncodedSpells([102]);
    LettersJoin("Zg==", "\n");
    BreakRead();
    assert "Zg==" + "\n" == "Zg==\n";
    EndsAs("Zg==", "\n");
  }

  lemma LetterNames()
    ensures Letter(25) == 'Z' && Letter(32) == 'g'
  {
  }

  lemma BreakRead()
    ensures Letters("\n") == [] && EndingOf("\n") == InOther
  {
  }
}
