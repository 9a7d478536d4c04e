/** src/base64.c (section 4 of RFC 4648): the encoder, and the decoder, which skips what is not of the
    alphabet while it looks for the next character of a group. */
module Base64 {

  type octet = x: int | 0 <= x < 256

  /** The alphabet, `encode_orig`. */
  function Letter(k: nat): (c: char)
    requires k < 64
    ensures c != '=' && c != '\0' && c != '-' && c != '_'
  {
    (if k < 26 then 'A' as int + k
     else if k < 52 then 'a' as int + (k - 26)
     else if k < 62 then '0' as int + (k - 52)
     else if k == 62 then '+' as int else '/' as int) as char
  }

  /** One more than a character's place in the alphabet, or 0: the table `decode` less 61, where it has no
      dollar sign; the URL alphabet's two characters have been replaced before. */
  function Unletter(c: char): (v: nat)
    ensures v <= 64
  {
    if 'A' <= c <= 'Z' then c as int - 'A' as int + 1
    else if 'a' <= c <= 'z' then c as int - 'a' as int + 27
    else if '0' <= c <= '9' then c as int - '0' as int + 53
    else if c == '+' then 63 else if c == '/' then 64 else 0
  }

  /** Table 1 of RFC 4648, in ASCII: the capitals from 65 on, the small letters from 97, the digits from 48,
      then plus and slash. */
  lemma Alphabet(k: nat)
    requires k < 64
    ensures Letter(k) as int == if k < 26 then 65 + k else if k < 52 then 71 + k else if k < 62 then k - 4
                                else if k == 62 then 43 else 47
  {
  }

  /** What the decoder takes for a letter is one. */
  lemma OnlyLetters(c: char)
    ensures Unletter(c) > 0 ==> Letter(Unletter(c) - 1) == c
  {
  }

  lemma LetterBack(k: nat)
    requires k < 64
    ensures Unletter(Letter(k)) == k + 1
  {
  }

  // --- encoding

  /** The four characters of up to three bytes. */
  function Group(a: octet, b: octet, c: octet, len: nat): (g: string)
    ensures |g| == 4
  {
    [Letter(a / 4), Letter(a % 4 * 16 + b / 16),
     if len > 1 then Letter(b % 16 * 4 + c / 64) else '=',
     if len > 2 then Letter(c % 64) else '=']
  }

  /** The text of some bytes. */
  function Encoded(x: seq<octet>): (s: string)
    ensures |s| % 4 == 0 && |s| == (|x| + 2) / 3 * 4
  {
    if |x| == 0 then []
    else if |x| == 1 then Group(x[0], 0, 0, 1)
    else if |x| == 2 then Group(x[0], x[1], 0, 2)
    else
      GroupMore(|x|);
      Group(x[0], x[1], x[2], 3) + Encoded(x[3..])
  }

  lemma GroupMore(n: nat)
    requires n >= 3
    ensures (n + 2) / 3 * 4 == 4 + (n - 3 + 2) / 3 * 4
  {
  }

  lemma {:induction false} EncodedJoin(x: seq<octet>, y: seq<octet>)
    requires |x| % 3 == 0
    ensures Encoded(x + y) == Encoded(x) + Encoded(y)
    decreases |x|
  {
    if |x| == 0 {
      assert x + y == y;
    } else {
      assert (x + y)[3..] == x[3..] + y;
      EncodedJoin(x[3..], y);
    }
  }

  /** `base64_encode`: -1 if the text and its NUL, or any group on the way, do not leave a byte of the buffer
      to spare. */
  method Encode(x: seq<octet>, outSize: int) returns (n: int, out: string)
    ensures n == if |Encoded(x)| + 1 >= outSize then -1 else |Encoded(x)|
    ensures n >= 0 ==> out == Encoded(x) + ['\0']
  {
    var i: nat := 0;
    out := [];
    while i < |x|
      invariant i <= |x| && (i < |x| ==> i % 3 == 0)
      invariant out == Encoded(x[..i])
      invariant i > 0 ==> |out| < outSize
      decreases |x| - i
    {
      var len := if |x| - i < 3 then |x| - i else 3;
      var a: octet, b: octet, c: octet := x[i], if len > 1 then x[i + 1] else 0, if len > 2 then x[i + 2] else 0;
      OneGroup(x, i, len, a, b, c);
      if |out| + 4 >= outSize {
        LaterGroups(x, i + len);
        return -1, out;
      }
      out := out + Group(a, b, c, len);
      i := i + len;
    }
    assert x[..i] == x;
    if |out| + 1 >= outSize {
      return -1, out;
    }
    n, out := |out|, out + ['\0'];
  }

  lemma OneGroup(x: seq<octet>, i: nat, len: nat, a: octet, b: octet, c: octet)
    requires i < |x| && i % 3 == 0 && len == if |x| - i < 3 then |x| - i else 3
    requires a == x[i] && b == (if len > 1 then x[i + 1] else 0) && c == if len > 2 then x[i + 2] else 0
    ensures Encoded(x[..i + len]) == Encoded(x[..i]) + Group(a, b, c, len)
    ensures i + len < |x| ==> (i + len) % 3 == 0
  {
    hide Encoded, Group;
    var part := x[i..i + len];
    assert x[..i + len] == x[..i] + part;
    EncodedJoin(x[..i], part);
    PartText(part, a, b, c);
  }

  lemma PartText(part: seq<octet>, a: octet, b: octet, c: octet)
    requires 1 <= |part| <= 3 && a == part[0]
    requires b == (if |part| > 1 then part[1] else 0) && c == if |part| > 2 then part[2] else 0
    ensures Encoded(part) == Group(a, b, c, |part|)
  {
    hide Group;
    if |part| == 3 {
      assert part[3..] == [] && Encoded([]) == [];
      assert Group(a, b, c, 3) + [] == Group(a, b, c, 3);
    }
  }

  lemma LaterGroups(x: seq<octet>, i: nat)
    requires i <= |x|
    ensures |Encoded(x)| >= |Encoded(x[..i])|
  {
  }

  /** An example of section 10 of RFC 4648. */
  lemma Foobar()
    ensures Encoded([102, 111, 111, 98, 97, 114]) == "Zm9vYmFy"
    ensures Encoded([102, 111, 111, 98]) == "Zm9vYg=="
  {
    var x: seq<octet> := [102, 111, 111, 98, 97, 114];
    assert x[3..] == [98, 97, 114] && x[3..][3..] == [];
    var y: seq<octet> := [102, 111, 111, 98];
    assert y[3..] == [98];
    assert Encoded([98]) == "Yg==";
  }
}
