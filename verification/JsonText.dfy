/** JSON trees and their text, as src/json.c writes it. */
module JsonText {
  import opened Options
  import opened Decimal

  /** A value; a number with a fraction is kept as it was spelled. */
  datatype Value =
    | Null | True | False
    | Integer(number: int)
    | Real(spelling: string)
    | Text(text: string)
    | Array(nodes: Nodes)
    | Object(nodes: Nodes)

  /** The `next` chain of a struct's nodes; a node in an object has a key. */
  datatype Nodes = End | Node(key: Option<string>, value: Value, next: Nodes)

  predicate IsStruct(v: Value) {
    v.Array? || v.Object?
  }

  function Struct(isObject: bool, nodes: Nodes): Value {
    if isObject then Object(nodes) else Array(nodes)
  }

  /** `_json_struct_add_node` at the tail. */
  function Append(nodes: Nodes, key: Option<string>, value: Value): Nodes {
    match nodes
    case End => Node(key, value, End)
    case Node(k, v, next) => Node(k, v, Append(next, key, value))
  }

  function Join(nodes: Nodes, more: Nodes): Nodes {
    match nodes
    case End => more
    case Node(k, v, next) => Node(k, v, Join(next, more))
  }

  lemma {:induction false} JoinAppend(nodes: Nodes, key: Option<string>, value: Value, more: Nodes)
    ensures Join(Append(nodes, key, value), more) == Join(nodes, Node(key, value, more))
  {
    if nodes.Node? { JoinAppend(nodes.next, key, value, more); }
  }

  lemma {:induction false} JoinEnd(nodes: Nodes)
    ensures Join(nodes, End) == nodes
  {
    if nodes.Node? { JoinEnd(nodes.next); }
  }

  // --- escapes

  /** The letter a character is escaped to, if it is. */
  function EscapeLetter(c: char): Option<char> {
    if c == '\\' then Some('\\')
    else if c == '/' then Some('/')
    else if c == '"' then Some('"')
    else if c == 9 as char then Some('t')
    else if c == 12 as char then Some('f')
    else if c == 8 as char then Some('b')
    else if c == 10 as char then Some('n')
    else if c == 13 as char then Some('r')
    else None
  }

  /** The character an escape letter stands for, if it is one. */
  function Unletter(c: char): Option<char> {
    if c == '\\' then Some('\\')
    else if c == '/' then Some('/')
    else if c == '"' then Some('"')
    else if c == 't' then Some(9 as char)
    else if c == 'f' then Some(12 as char)
    else if c == 'b' then Some(8 as char)
    else if c == 'n' then Some(10 as char)
    else if c == 'r' then Some(13 as char)
    else None
  }

  const ESCAPED: string := ['\\', '/', '"', 9 as char, 12 as char, 8 as char, 10 as char, 13 as char]
  const LETTERS: string := ['\\', '/', '"', 't', 'f', 'b', 'n', 'r']

  /** The two tables: eight characters are escaped, each by its letter, and no other. */
  lemma EscapeTable(c: char, k: nat)
    requires k < 8
    ensures EscapeLetter(ESCAPED[k]) == Some(LETTERS[k]) && Unletter(LETTERS[k]) == Some(ESCAPED[k])
    ensures EscapeLetter(c).Some? <==> c in ESCAPED
    ensures Unletter(c).Some? <==> c in LETTERS
  {
    if EscapeLetter(c).Some? {
      assert c == ESCAPED[0] || c == ESCAPED[1] || c == ESCAPED[2] || c == ESCAPED[3] || c == ESCAPED[4] ||
             c == ESCAPED[5] || c == ESCAPED[6] || c == ESCAPED[7];
    }
    if Unletter(c).Some? {
      assert c == LETTERS[0] || c == LETTERS[1] || c == LETTERS[2] || c == LETTERS[3] || c == LETTERS[4] ||
             c == LETTERS[5] || c == LETTERS[6] || c == LETTERS[7];
    }
  }

  function EscapeChar(c: char): (r: string)
    ensures |r| > 0
  {
    match EscapeLetter(c)
    case Some(l) => ['\\', l]
    case None => [c]
  }

  /** `_escape_to`. */
  function Escape(s: string): string {
    if s == [] then [] else EscapeChar(s[0]) + Escape(s[1..])
  }

  lemma {:induction false} EscapeSnoc(s: string, c: char)
    ensures Escape(s + [c]) == Escape(s) + EscapeChar(c)
  {
    if s == [] {
      assert Escape([c]) == EscapeChar(c) + Escape([]);
    } else {
      EscapeSnoc(s[1..], c);
      assert (s + [c])[1..] == s[1..] + [c];
    }
  }

  /** An escaped text has no line breaks, tabs or form feeds in it. */
  lemma {:induction false} OneLine(s: string, c: char)
    requires c as int in {8, 9, 10, 12, 13}
    ensures c !in Escape(s)
  {
    if s != [] { OneLine(s[1..], c); }
  }

  /** `_escape_from`, over the part of a text from i to e; it may look at the character after. */
  function Unescape(s: string, i: nat, e: nat): string
    requires e <= |s|
    decreases e - i
  {
    if i >= e then []
    else if s[i] == '\\' && Unletter(At(s, i + 1)).Some? then
      [Unletter(At(s, i + 1)).value] + Unescape(s, i + 2, e)
    else [s[i]] + Unescape(s, i + 1, e)
  }

  /** Where `_step_string` stops: at a quote that is not escaped, or at the end. */
  function StringEnd(s: string, i: nat): (e: nat)
    ensures e >= i
    decreases |s| - i
  {
    if i >= |s| || s[i] == '"' || s[i] == '\0' then i
    else StringEnd(s, if s[i] == '\\' then i + 2 else i + 1)
  }

  function From(s: string, i: nat): string {
    if i <= |s| then s[i..] else []
  }

  lemma FromStep(s: string, i: nat, a: string, b: string)
    requires i <= |s| && From(s, i) == a + b
    ensures i + |a| <= |s| && From(s, i + |a|) == b && s[i..i + |a|] == a
    ensures forall k :: 0 <= k < |a| ==> s[i + k] == a[k]
    ensures At(s, i + |a|) == if b == [] then '\0' else b[0]
  {
    assert s[i + |a|..] == s[i..][|a|..];
    assert s[i..i + |a|] == s[i..][..|a|];
    forall k | 0 <= k < |a|
      ensures s[i + k] == a[k]
    {
      assert s[i..][k] == a[k];
    }
    if b != [] { assert s[i..][|a|] == b[0]; }
  }

  /** An escaped text ends where it should and is read back as it was. */
  lemma {:induction false} EscapeRead(s: string, i: nat, x: string, tail: string)
    requires i <= |s| && From(s, i) == Escape(x) + ("\"" + tail)
    requires '\0' !in x
    ensures i + |Escape(x)| < |s|
    ensures StringEnd(s, i) == i + |Escape(x)|
    ensures Unescape(s, i, i + |Escape(x)|) == x
    decreases |x|
  {
    hide Unescape, StringEnd, EscapeChar, From;
    if x == [] {
      assert Escape(x) + ("\"" + tail) == "\"" + tail;
      EscapeReadEnd(s, i, tail);
    } else {
      EscapeReadStep(s, i, x[0], x[1..], tail);
      EscapeRead(s, i + |EscapeChar(x[0])|, x[1..], tail);
      EscapeHead(s, i, x[0], i + |EscapeChar(x[0])| + |Escape(x[1..])|);
    }
  }

  lemma EscapeReadEnd(s: string, i: nat, tail: string)
    requires i <= |s| && From(s, i) == "\"" + tail
    ensures i < |s| && StringEnd(s, i) == i && Unescape(s, i, i) == []
  {
    assert s[i..][0] == '"';
  }

  lemma EscapeReadStep(s: string, i: nat, c: char, y: string, tail: string)
    requires i <= |s| && From(s, i) == (EscapeChar(c) + Escape(y)) + ("\"" + tail)
    ensures i + |EscapeChar(c)| + |Escape(y)| < |s|
    ensures From(s, i + |EscapeChar(c)|) == Escape(y) + ("\"" + tail)
    ensures forall k :: 0 <= k < |EscapeChar(c)| ==> s[i + k] == EscapeChar(c)[k]
  {
    hide EscapeChar, Escape;
    assert (EscapeChar(c) + Escape(y)) + ("\"" + tail) == EscapeChar(c) + (Escape(y) + ("\"" + tail));
    FromStep(s, i, EscapeChar(c), Escape(y) + ("\"" + tail));
  }

  lemma EscapeHead(s: string, i: nat, c: char, e: nat)
    requires i + |EscapeChar(c)| <= e <= |s| && c != '\0'
    requires forall k :: 0 <= k < |EscapeChar(c)| ==> s[i + k] == EscapeChar(c)[k]
    ensures StringEnd(s, i) == StringEnd(s, i + |EscapeChar(c)|)
    ensures Unescape(s, i, e) == [c] + Unescape(s, i + |EscapeChar(c)|, e)
  {
    assert s[i + 0] == EscapeChar(c)[0];
    if EscapeLetter(c).Some? {
      assert s[i + 1] == EscapeChar(c)[1];
    }
  }

  // --- the text of a tree

  function KeyText(key: Option<string>): string {
    match key
    case None => []
    case Some(k) => "\"" + Escape(k) + "\":"
  }

  function Opener(isObject: bool): string {
    if isObject then "{" else "["
  }

  function Closer(isObject: bool): string {
    if isObject then "}" else "]"
  }

  function ValueText(v: Value): string
    decreases v, 0
  {
    match v
    case Null => "null"
    case True => "true"
    case False => "false"
    case Integer(n) => IntText(n)
    case Real(spelling) => spelling
    case Text(s) => "\"" + Escape(s) + "\""
    case Array(nodes) => "[" + NodesText(nodes) + "]"
    case Object(nodes) => "{" + NodesText(nodes) + "}"
  }

  function NodesText(nodes: Nodes): string
    decreases nodes, 0
  {
    match nodes
    case End => []
    case Node(key, value, next) => KeyText(key) + ValueText(value) + MoreText(next)
  }

  /** The rest of a chain behind one of its values. */
  function MoreText(nodes: Nodes): string
    decreases nodes, 1
  {
    if nodes.End? then [] else "," + NodesText(nodes)
  }

  /** The text of an array. */
  lemma SampleArray()
    ensures ValueText(Array(Node(None, True, Node(None, False, Node(None, Null, End))))) == "[true,false,null]"
  {
    hide Escape, IntText;
    var nulls := Node(None, Null, End);
    assert NodesText(nulls) == "null";
    assert NodesText(Node(None, False, nulls)) == "false,null";
  }

  /** The text of an object. */
  lemma SampleObject()
    ensures ValueText(Object(Node(Some("/"), Text("\n"), End))) == "{\"\\/\":\"\\n\"}"
  {
    hide IntText;
    assert Escape("/") == "\\/" && Escape("\n") == "\\n";
    hide Escape;
    assert KeyText(Some("/")) == "\"\\/\":" && ValueText(Text("\n")) == "\"\\n\"";
  }

  /** The trees the round trip is promised for: keys just in objects, texts without NUL, integers above
      the least one, no fractions. */
  predicate Plain(v: Value) {
    match v
    case Integer(n) => LLONG_MIN < n <= LLONG_MAX
    case Real(_) => false
    case Text(s) => '\0' !in s
    case Array(nodes) => PlainNodes(nodes, false)
    case Object(nodes) => PlainNodes(nodes, true)
    case _ => true
  }

  predicate PlainNodes(nodes: Nodes, isObject: bool) {
    match nodes
    case End => true
    case Node(key, value, next) =>
      && key.Some? == isObject && (isObject ==> '\0' !in key.value)
      && Plain(value) && PlainNodes(next, isObject)
  }
}
