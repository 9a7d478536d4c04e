/** What src/json.c takes for JSON, as a grammar read from left to right: for every text the tree it stands
    for, or none.  A position at or past the end of a text reads as NUL. */
module JsonGrammar {
  import opened Options
  import opened Decimal
  import opened JsonText

  predicate IsSpace(c: char) {
    c == ' ' || 9 as char <= c <= 13 as char
  }

  /** The first character at or behind i that is not white space. */
  function Skip(s: string, i: nat): (j: nat)
    ensures i <= j && !IsSpace(At(s, j))
    decreases |s| - i
  {
    if IsSpace(At(s, i)) then Skip(s, i + 1) else i
  }

  // --- values that are not structs

  /** Where a number ends, and whether it has a point: digits and points, the last of which ends it if no
      digit follows. */
  function NumberTail(s: string, j: nat, point: bool): (r: (nat, bool))
    ensures j <= r.0 && (j <= |s| ==> r.0 <= |s|)
    decreases |s| - j
  {
    if IsDigit(At(s, j)) then NumberTail(s, j + 1, point)
    else if At(s, j) == '.' then
      if IsDigit(At(s, j + 1)) then NumberTail(s, j + 1, true) else (j + 1, true)
    else (j, point)
  }

  function Number(s: string, i: nat): (r: (nat, bool))
    ensures i <= r.0 && (i <= |s| ==> r.0 <= |s|)
  {
    NumberTail(s, if At(s, i) == '-' then i + 1 else i, false)
  }

  /** strncmp with a word. */
  predicate IsWord(s: string, i: nat, word: string) {
    i + |word| <= |s| && s[i..i + |word|] == word
  }

  function Scalar(s: string, i: nat): (r: Option<(Value, nat)>)
    ensures r.Some? ==> r.value.1 > i && At(s, i) != '\0'
  {
    var c := At(s, i);
    if c == '"' then
      var e := StringEnd(s, i + 1);
      Some((Text(Unescape(s, i + 1, if e < |s| then e else |s|)), e + 1))
    else if IsDigit(c) || c == '-' then
      var (j, point) := Number(s, i);
      Some((if point then Real(s[i..j]) else Integer(StrToLl(s, i)), j))
    else if IsWord(s, i, "true") then Some((True, i + 4))
    else if IsWord(s, i, "false") then Some((False, i + 5))
    else if IsWord(s, i, "null") then Some((Null, i + 4))
    else None
  }

  // --- structs

  function Left(s: string, i: nat): nat {
    if i < |s| then |s| - i else 0
  }

  /** A key, where it stands, and where the value behind its colon begins. */
  datatype Key = Key(from: nat, to: nat, value: nat)

  function KeyAt(s: string, i: nat): (r: Option<Key>)
    ensures r.Some? ==> i < r.value.from <= r.value.to < r.value.value && r.value.to < |s|
  {
    var j := Skip(s, i);
    if At(s, j) != '"' then None
    else
      var e := StringEnd(s, j + 1);
      var colon := Skip(s, e + 1);
      if At(s, colon) != ':' then None else Some(Key(j + 1, e, Skip(s, colon + 1)))
  }

  /** The array whose nodes so far are these goes on at i; the result is all its nodes and the place behind
      its closing bracket. */
  function ReadArray(s: string, i: nat, nodes: Nodes): (r: Option<(Nodes, nat)>)
    ensures r.Some? ==> r.value.1 > i
    decreases Left(s, i), 1
  {
    var c := At(s, i);
    if IsSpace(c) || c == 8 as char then ReadArray(s, i + 1, nodes)
    else if c == ']' then Some((nodes, i + 1))
    else
      match if c == '[' || c == '{' then ReadStruct(s, i) else Scalar(s, i)
      case None => None
      case Some((v, j)) => AfterElement(s, j, Append(nodes, None, v))
  }

  /** An element ends at j. */
  function AfterElement(s: string, j: nat, nodes: Nodes): (r: Option<(Nodes, nat)>)
    ensures r.Some? ==> r.value.1 > j
    decreases Left(s, j), 0
  {
    var k := Skip(s, j);
    if At(s, k) == ',' then ReadArray(s, k + 1, nodes)
    else if At(s, k) == ']' then Some((nodes, k + 1))
    else None
  }

  /** The object whose nodes so far are these goes on at i.  A key without a value in front of the closing
      bracket is left out. */
  function ReadObject(s: string, i: nat, nodes: Nodes): (r: Option<(Nodes, nat)>)
    ensures r.Some? ==> r.value.1 > i
    decreases Left(s, i), 1
  {
    match KeyAt(s, i)
    case None => None
    case Some(key) =>
      var c := At(s, key.value);
      if c == 8 as char then ReadObject(s, key.value + 1, nodes)
      else if c == '}' then Some((nodes, key.value + 1))
      else
        match if c == '[' || c == '{' then ReadStruct(s, key.value) else Scalar(s, key.value)
        case None => None
        case Some((v, j)) =>
          AfterMember(s, j, Append(nodes, Some(KeyOf(s, key.from, key.to, v)), v))
  }

  /** The key of a value with a fraction is kept as it is spelled. */
  function KeyOf(s: string, ks: nat, ke: nat, v: Value): string
    requires ks <= ke <= |s|
  {
    if v.Real? then s[ks..ke] else Unescape(s, ks, ke)
  }

  function AfterMember(s: string, j: nat, nodes: Nodes): (r: Option<(Nodes, nat)>)
    ensures r.Some? ==> r.value.1 > j
    decreases Left(s, j), 0
  {
    var k := Skip(s, j);
    if At(s, k) == ',' then ReadObject(s, k + 1, nodes)
    else if At(s, k) == '}' then Some((nodes, k + 1))
    else None
  }

  /** A struct, and the place behind it. */
  function ReadStruct(s: string, i: nat): (r: Option<(Value, nat)>)
    ensures r.Some? ==> r.value.1 > i && i < |s| && IsStruct(r.value.0)
    decreases Left(s, i), 0
  {
    if At(s, i) == '[' then
      var k := Skip(s, i + 1);
      if At(s, k) == ']' then Some((Array(End), k + 1))
      else
        match ReadArray(s, k, End)
        case None => None
        case Some((nodes, j)) => Some((Array(nodes), j))
    else if At(s, i) == '{' then
      var k := Skip(s, i + 1);
      if At(s, k) == '}' then Some((Object(End), k + 1))
      else
        match ReadObject(s, k, End)
        case None => None
        case Some((nodes, j)) => Some((Object(nodes), j))
    else None
  }

  /** A text is a struct with white space around it. */
  function ReadAll(s: string): (r: Option<Value>)
    ensures r.Some? ==> IsStruct(r.value)
  {
    match ReadStruct(s, Skip(s, 0))
    case None => None
    case Some((v, j)) => if At(s, Skip(s, j)) == '\0' then Some(v) else None
  }
}
