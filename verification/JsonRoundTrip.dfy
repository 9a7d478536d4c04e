/** Reading back a tree from its text, whatever white space stands between the tokens. */
module JsonRoundTrip {
  import opened Options
  import opened Decimal
  import opened JsonText
  import opened JsonGrammar
  import JsonParse
  import JsonPrint

  // --- the texts of a tree

  predicate Blank(w: string) {
    forall k :: 0 <= k < |w| ==> IsSpace(w[k])
  }

  /** How much white space stands between two tokens is told by what follows, so that any two places of a text
      may differ. */
  ghost predicate Blanks(space: string -> string) {
    forall rest :: Blank(space(rest))
  }

  function Gap(rest: string, space: string -> string): string {
    space(rest) + rest
  }

  /** The text of a value and what follows it. */
  function Spell(v: Value, tail: string, space: string -> string): string
    decreases v, 0
  {
    match v
    case Array(nodes) => "[" + Gap(SpellNodes(nodes, false, tail, space), space)
    case Object(nodes) => "{" + Gap(SpellNodes(nodes, true, tail, space), space)
    case _ => ValueText(v) + tail
  }

  /** The nodes of a struct, its closing bracket and what follows that. */
  function SpellNodes(nodes: Nodes, isObject: bool, tail: string, space: string -> string): string
    decreases nodes, 0
  {
    match nodes
    case End => Closer(isObject) + tail
    case Node(key, value, next) =>
      SpellKey(key, Spell(value, Gap(SpellMore(next, isObject, tail, space), space), space), space)
  }

  function SpellKey(key: Option<string>, tail: string, space: string -> string): string {
    match key
    case None => tail
    case Some(k) => "\"" + (Escape(k) + ("\"" + Gap(":" + Gap(tail, space), space)))
  }

  /** The rest of a struct behind one of its values. */
  function SpellMore(nodes: Nodes, isObject: bool, tail: string, space: string -> string): string
    decreases nodes, 1
  {
    if nodes.End? then Closer(isObject) + tail
    else "," + Gap(SpellNodes(nodes, isObject, tail, space), space)
  }

  function NoSpace(rest: string): string {
    ""
  }

  lemma Regroup(a: string, b: string, c: string, d: string)
    ensures (a + b + c) + d == a + (b + (c + d))
  {
  }

  /** Without white space that is the text the serializer writes. */
  lemma {:induction false} Tight(v: Value, tail: string)
    ensures Spell(v, tail, NoSpace) == ValueText(v) + tail
    decreases v, 0
  {
    if IsStruct(v) {
      hide SpellNodes, NodesText;
      TightNodes(v.nodes, v.Object?, tail);
      Regroup(Opener(v.Object?), NodesText(v.nodes), Closer(v.Object?), tail);
    }
  }

  lemma {:induction false} TightNodes(nodes: Nodes, isObject: bool, tail: string)
    ensures SpellNodes(nodes, isObject, tail, NoSpace) == NodesText(nodes) + (Closer(isObject) + tail)
    decreases nodes, 0
  {
    if nodes.Node? {
      hide ValueText, MoreText, Spell, SpellMore, SpellKey, KeyText, Closer;
      var more, end := MoreText(nodes.next), Closer(isObject) + tail;
      TightMore(nodes.next, isObject, tail);
      Tight(nodes.value, more + end);
      TightKey(nodes.key, ValueText(nodes.value) + (more + end));
      Regroup(KeyText(nodes.key), ValueText(nodes.value), more, end);
    } else {
      assert NodesText(nodes) + (Closer(isObject) + tail) == Closer(isObject) + tail;
    }
  }

  lemma TightKey(key: Option<string>, tail: string)
    ensures SpellKey(key, tail, NoSpace) == KeyText(key) + tail
  {
    hide Escape;
    if key.Some? {
      var k := Escape(key.value);
      assert ("\"" + k + "\":") + tail == "\"" + (k + ("\"" + (":" + tail)));
    }
  }

  lemma {:induction false} TightMore(nodes: Nodes, isObject: bool, tail: string)
    ensures Gap(SpellMore(nodes, isObject, tail, NoSpace), NoSpace) == MoreText(nodes) + (Closer(isObject) + tail)
    decreases nodes, 1
  {
    if nodes.Node? {
      TightNodes(nodes, isObject, tail);
      hide SpellNodes, NodesText;
      var n, end := NodesText(nodes), Closer(isObject) + tail;
      assert ("," + n) + end == "," + (n + end);
    }
  }

  // --- white space

  /** A text that does not begin with white space. */
  predicate Starts(tail: string) {
    tail == [] || !IsSpace(tail[0])
  }

  lemma FirstOff(s: string, i: nat, w: string, tail: string)
    requires i <= |s| && From(s, i) == w + tail && w != []
    ensures i < |s| && From(s, i + 1) == w[1..] + tail
  {
    hide From;
    assert w + tail == [w[0]] + (w[1..] + tail);
    FromStep(s, i, [w[0]], w[1..] + tail);
  }

  lemma {:induction false} SkipBlank(s: string, i: nat, w: string, tail: string)
    requires i <= |s| && From(s, i) == w + tail && Blank(w) && Starts(tail)
    ensures Skip(s, i) == i + |w| <= |s| && From(s, i + |w|) == tail
    ensures At(s, i + |w|) == if tail == [] then '\0' else tail[0]
    decreases |w|
  {
    hide From;
    FromStep(s, i, w, tail);
    if w != [] {
      assert s[i + 0] == w[0];
      FirstOff(s, i, w, tail);
      SkipBlank(s, i + 1, w[1..], tail);
    }
  }

  lemma SkipGap(s: string, i: nat, tail: string, space: string -> string)
    requires i <= |s| && From(s, i) == Gap(tail, space) && Blanks(space) && Starts(tail)
    ensures var j := Skip(s, i); j <= |s| && From(s, j) == tail && j == |s| - |tail|
    ensures At(s, Skip(s, i)) == if tail == [] then '\0' else tail[0]
  {
    hide Skip;
    SkipBlank(s, i, space(tail), tail);
  }

  /** What counts as white space: the blank, and tab, line feed, vertical tab, form feed and return. */
  lemma Spaces(c: char)
    ensures IsSpace(c) <==> c as int in {32, 9, 10, 11, 12, 13}
  {
  }

  lemma SpaceStep(s: string, i: nat, acc: Nodes)
    requires IsSpace(At(s, i))
    ensures ReadArray(s, i, acc) == ReadArray(s, i + 1, acc)
  {
  }

  /** The array reader passes over white space by itself. */
  lemma {:induction false} ArrayBlank(s: string, i: nat, w: string, tail: string, acc: Nodes)
    requires i <= |s| && From(s, i) == w + tail && Blank(w)
    ensures i + |w| <= |s| && From(s, i + |w|) == tail && ReadArray(s, i, acc) == ReadArray(s, i + |w|, acc)
    decreases |w|
  {
    hide From, ReadArray;
    FromStep(s, i, w, tail);
    if w != [] {
      assert s[i + 0] == w[0];
      SpaceStep(s, i, acc);
      FirstOff(s, i, w, tail);
      ArrayBlank(s, i + 1, w[1..], tail, acc);
    }
  }

  // --- values

  /** What may stand behind a number. */
  predicate Ends(tail: string) {
    tail == [] || !(IsDigit(tail[0]) || tail[0] == '.')
  }

  lemma {:induction false} TailDigits(s: string, j: nat, digits: string, tail: string, point: bool)
    requires j <= |s| && From(s, j) == digits + tail
    requires forall k :: 0 <= k < |digits| ==> IsDigit(digits[k])
    ensures j + |digits| <= |s| && From(s, j + |digits|) == tail
    ensures At(s, j + |digits|) == if tail == [] then '\0' else tail[0]
    ensures NumberTail(s, j, point) == NumberTail(s, j + |digits|, point)
    decreases |digits|
  {
    hide From;
    FromStep(s, j, digits, tail);
    if digits != [] {
      assert s[j + 0] == digits[0];
      FirstOff(s, j, digits, tail);
      TailDigits(s, j + 1, digits[1..], tail, point);
    }
  }

  /** Digits with a point in them are a number with a fraction. */
  lemma FractionReads(s: string, i: nat, whole: string, fraction: string, tail: string)
    requires i <= |s| && From(s, i) == whole + ("." + (fraction + tail)) && Ends(tail)
    requires whole != [] && forall k :: 0 <= k < |whole| ==> IsDigit(whole[k])
    requires fraction != [] && forall k :: 0 <= k < |fraction| ==> IsDigit(fraction[k])
    ensures |tail| < |s| && Scalar(s, i) == Some((Real(whole + "." + fraction), |s| - |tail|))
  {
    hide NumberTail, From, StrToLl;
    TailDigits(s, i, whole, "." + (fraction + tail), false);
    var p := i + |whole|;
    FromStep(s, i, whole, "." + (fraction + tail));
    assert s[i + 0] == whole[0];
    FromStep(s, p, ".", fraction + tail);
    PointIn(s, p);
    TailDigits(s, p + 1, fraction, tail, true);
    FromStep(s, p + 1, fraction, tail);
    NumberEnds(s, p + 1 + |fraction|, true);
    assert s[i..p + 1 + |fraction|] == whole + "." + fraction by { FractionAt(s, i, whole, fraction, tail); }
    FromLength(s, i, whole + ("." + (fraction + tail)));
  }

  lemma PointIn(s: string, p: nat)
    requires At(s, p) == '.' && IsDigit(At(s, p + 1))
    ensures NumberTail(s, p, false) == NumberTail(s, p + 1, true)
  {
  }

  lemma NumberEnds(s: string, j: nat, point: bool)
    requires !IsDigit(At(s, j)) && At(s, j) != '.'
    ensures NumberTail(s, j, point) == (j, point)
  {
  }

  lemma FractionAt(s: string, i: nat, whole: string, fraction: string, tail: string)
    requires i <= |s| && From(s, i) == whole + ("." + (fraction + tail))
    ensures i + |whole| + 1 + |fraction| <= |s|
    ensures s[i..i + |whole| + 1 + |fraction|] == whole + "." + fraction
  {
    assert whole + ("." + (fraction + tail)) == (whole + "." + fraction) + tail;
    FromStep(s, i, whole + "." + fraction, tail);
  }

  lemma FromLength(s: string, i: nat, text: string)
    requires i <= |s| && From(s, i) == text
    ensures |s| == i + |text|
  {
  }

  /** A sign and digits, or digits alone. */
  lemma NumberReads(s: string, i: nat, digits: string, tail: string, neg: bool)
    requires i <= |s| && From(s, i) == (if neg then "-" + digits else digits) + tail && Ends(tail)
    requires digits != [] && forall k :: 0 <= k < |digits| ==> IsDigit(digits[k])
    ensures (At(s, i) == '-' <==> neg) && (IsDigit(At(s, i)) <==> !neg)
    ensures Number(s, i) == (i + |digits| + if neg then 1 else 0, false)
  {
    hide NumberTail, From;
    if neg {
      assert ("-" + digits) + tail == "-" + (digits + tail);
      FromStep(s, i, "-", digits + tail);
      assert s[i + 0] == '-';
      TailDigits(s, i + 1, digits, tail, false);
      NumberEnds(s, i + 1 + |digits|, false);
    } else {
      FromStep(s, i, digits, tail);
      assert s[i + 0] == digits[0];
      TailDigits(s, i, digits, tail, false);
      NumberEnds(s, i + |digits|, false);
    }
  }

  lemma IntegerReads(s: string, i: nat, n: int, tail: string)
    requires i <= |s| && From(s, i) == IntText(n) + tail && Ends(tail) && LLONG_MIN < n <= LLONG_MAX
    ensures IsDigit(At(s, i)) || At(s, i) == '-'
    ensures Number(s, i) == (i + |IntText(n)|, false) && StrToLl(s, i) == n
    ensures i < i + |IntText(n)| == |s| - |tail| && From(s, i + |IntText(n)|) == tail
  {
    hide Numeral, StrToLl, Number;
    FromStep(s, i, IntText(n), tail);
    ReadsBack(s, i, n, tail);
    NumeralDigits(if n < 0 then -n else n);
    NumberReads(s, i, Numeral(if n < 0 then -n else n, 10), tail, n < 0);
  }

  lemma TextReads(s: string, i: nat, x: string, tail: string)
    requires i <= |s| && From(s, i) == "\"" + (Escape(x) + ("\"" + tail)) && '\0' !in x
    ensures i < |s| && s[i] == '"'
    ensures var e := i + 1 + |Escape(x)|;
      e < |s| && StringEnd(s, i + 1) == e && Unescape(s, i + 1, e) == x && From(s, e + 1) == tail
  {
    hide Escape, StringEnd, Unescape, From;
    FromStep(s, i, "\"", Escape(x) + ("\"" + tail));
    assert s[i + 0] == '"';
    EscapeRead(s, i + 1, x, tail);
    FromStep(s, i + 1, Escape(x), "\"" + tail);
    FromStep(s, i + 1 + |Escape(x)|, "\"", tail);
  }

  lemma WordReads(s: string, i: nat, word: string, tail: string)
    requires i <= |s| && From(s, i) == word + tail && word != []
    ensures IsWord(s, i, word) && From(s, i + |word|) == tail && At(s, i) == word[0]
  {
    FromStep(s, i, word, tail);
    assert s[i + 0] == word[0];
  }

  /** A value that is not a struct is read back, up to its end. */
  lemma ScalarReads(s: string, i: nat, v: Value, tail: string)
    requires Plain(v) && !IsStruct(v) && i <= |s| && From(s, i) == ValueText(v) + tail && Ends(tail)
    ensures |tail| < |s| && Scalar(s, i) == Some((v, |s| - |tail|)) && From(s, |s| - |tail|) == tail
  {
    hide Scalar, ValueText, From;
    FromLength(s, i, ValueText(v) + tail);
    match v {
      case Integer(n) => IntegerScalar(s, i, n, tail);
      case Text(x) => TextScalar(s, i, x, tail);
      case _ => WordScalar(s, i, v, tail);
    }
  }

  lemma WordScalar(s: string, i: nat, v: Value, tail: string)
    requires (v.Null? || v.True? || v.False?) && i <= |s| && From(s, i) == ValueText(v) + tail
    ensures Scalar(s, i) == Some((v, i + |ValueText(v)|)) && From(s, i + |ValueText(v)|) == tail
  {
    hide From;
    WordReads(s, i, ValueText(v), tail);
  }

  lemma IntegerScalar(s: string, i: nat, n: int, tail: string)
    requires i <= |s| && From(s, i) == ValueText(Integer(n)) + tail && Ends(tail) && LLONG_MIN < n <= LLONG_MAX
    ensures var k := |ValueText(Integer(n))|; Scalar(s, i) == Some((Integer(n), i + k)) && From(s, i + k) == tail
  {
    hide From, IntText, Number, StrToLl;
    IntegerReads(s, i, n, tail);
  }

  lemma TextScalar(s: string, i: nat, x: string, tail: string)
    requires i <= |s| && From(s, i) == ValueText(Text(x)) + tail && '\0' !in x
    ensures var k := |ValueText(Text(x))|; Scalar(s, i) == Some((Text(x), i + k)) && From(s, i + k) == tail
  {
    hide From, Escape, Unescape, StringEnd;
    InQuotes(Escape(x), tail);
    TextReads(s, i, x, tail);
  }

  lemma InQuotes(x: string, tail: string)
    ensures ("\"" + x + "\"") + tail == "\"" + (x + ("\"" + tail)) && |"\"" + x + "\""| == |x| + 2
  {
    Regroup("\"", x, "\"", tail);
  }

  /** How a value begins. */
  lemma First(v: Value, tail: string, space: string -> string)
    requires Plain(v)
    ensures Spell(v, tail, space) != []
    ensures var c := Spell(v, tail, space)[0];
      && !IsSpace(c) && c != 8 as char && c != ']' && c != '}'
      && (c == '[' <==> v.Array?) && (c == '{' <==> v.Object?)
  {
    if v.Integer? { NumeralDigits(if v.number < 0 then -v.number else v.number); }
  }

  /** What stands behind a value in a struct ends a number. */
  lemma MoreEnds(nodes: Nodes, isObject: bool, tail: string, space: string -> string)
    requires Blanks(space)
    ensures var more := SpellMore(nodes, isObject, tail, space);
      && more != [] && Starts(more) && Ends(Gap(more, space))
      && more[0] == if nodes.Node? then ',' else Closer(isObject)[0]
  {
    hide SpellNodes;
    var more := SpellMore(nodes, isObject, tail, space);
    assert Blank(space(more));
  }

  // --- structs

  /** A value of a plain tree is read back, up to its end. */
  lemma {:induction false} ValueReads(s: string, i: nat, v: Value, tail: string, space: string -> string)
    requires Plain(v) && Blanks(space) && i <= |s| && From(s, i) == Spell(v, tail, space)
    requires Ends(tail)
    ensures |tail| < |s| && From(s, |s| - |tail|) == tail
    ensures (if IsStruct(v) then ReadStruct(s, i) else Scalar(s, i)) == Some((v, |s| - |tail|))
    decreases v, 1
  {
    if IsStruct(v) {
      StructReads(s, i, v, tail, space);
    } else {
      ScalarReads(s, i, v, tail);
    }
  }

  lemma {:induction false} StructReads(s: string, i: nat, v: Value, tail: string, space: string -> string)
    requires Plain(v) && IsStruct(v) && Blanks(space) && i <= |s| && From(s, i) == Spell(v, tail, space)
    ensures |tail| < |s| && From(s, |s| - |tail|) == tail && ReadStruct(s, i) == Some((v, |s| - |tail|))
    decreases v, 0
  {
    hide Skip, ReadArray, ReadObject, From, SpellNodes;
    var nodes, isObject := v.nodes, v.Object?;
    var inner := SpellNodes(nodes, isObject, tail, space);
    FromStep(s, i, Opener(isObject), Gap(inner, space));
    assert s[i + 0] == Opener(isObject)[0];
    NodesFirst(nodes, isObject, tail, space);
    SkipGap(s, i + 1, inner, space);
    var k := Skip(s, i + 1);
    if nodes.End? {
      FromStep(s, k, Closer(isObject), tail);
    } else {
      NodesRead(s, k, nodes, isObject, tail, space, End);
    }
  }

  lemma NodesFirst(nodes: Nodes, isObject: bool, tail: string, space: string -> string)
    requires PlainNodes(nodes, isObject)
    ensures var inner := SpellNodes(nodes, isObject, tail, space);
      && inner != [] && Starts(inner) && (nodes.End? ==> inner == Closer(isObject) + tail)
      && (inner[0] == Closer(isObject)[0] <==> nodes.End?)
      && (nodes.Node? && !isObject ==>
            inner[0] != 8 as char && (inner[0] == '[' || inner[0] == '{' <==> IsStruct(nodes.value)))
  {
    hide SpellMore, Spell;
    if nodes.Node? && !isObject {
      First(nodes.value, Gap(SpellMore(nodes.next, isObject, tail, space), space), space);
    }
  }

  ghost function ReadNodes(s: string, i: nat, isObject: bool, acc: Nodes): Option<(Nodes, nat)> {
    if isObject then ReadObject(s, i, acc) else ReadArray(s, i, acc)
  }

  ghost function AfterNode(s: string, j: nat, isObject: bool, acc: Nodes): Option<(Nodes, nat)> {
    if isObject then AfterMember(s, j, acc) else AfterElement(s, j, acc)
  }

  /** The key of a member, up to its value. */
  lemma KeyReads(s: string, i: nat, key: string, tail: string, space: string -> string)
    requires i <= |s| && From(s, i) == SpellKey(Some(key), tail, space)
    requires '\0' !in key && Blanks(space) && tail != [] && Starts(tail)
    ensures |tail| <= |s| && From(s, |s| - |tail|) == tail && At(s, |s| - |tail|) == tail[0]
    ensures var e := i + 1 + |Escape(key)|;
      e <= |s| && KeyAt(s, i) == Some(Key(i + 1, e, |s| - |tail|)) && Unescape(s, i + 1, e) == key
  {
    hide Escape, StringEnd, Unescape, Skip, From;
    var colon := ":" + Gap(tail, space);
    TextReads(s, i, key, Gap(colon, space));
    assert At(s, i) == '"';
    var e := i + 1 + |Escape(key)|;
    NoSkip(s, i);
    SkipGap(s, e + 1, colon, space);
    FromStep(s, Skip(s, e + 1), ":", Gap(tail, space));
    SkipGap(s, Skip(s, e + 1) + 1, tail, space);
  }

  lemma NoSkip(s: string, i: nat)
    requires !IsSpace(At(s, i))
    ensures Skip(s, i) == i
  {
  }

  lemma SkipTwice(s: string, i: nat)
    ensures Skip(s, Skip(s, i)) == Skip(s, i)
  {
  }

  /** White space in front of a node makes no difference. */
  lemma NodesGap(s: string, i: nat, nodes: Nodes, isObject: bool, tail: string, space: string -> string, acc: Nodes)
    requires nodes.Node? && PlainNodes(nodes, isObject) && Blanks(space)
    requires i <= |s| && From(s, i) == Gap(SpellNodes(nodes, isObject, tail, space), space)
    ensures var j := Skip(s, i);
      && j <= |s| && From(s, j) == SpellNodes(nodes, isObject, tail, space)
      && ReadNodes(s, i, isObject, acc) == ReadNodes(s, j, isObject, acc)
  {
    hide Skip, SpellNodes, ReadArray;
    var inner := SpellNodes(nodes, isObject, tail, space);
    NodesFirst(nodes, isObject, tail, space);
    SkipGap(s, i, inner, space);
    if isObject {
      SkipTwice(s, i);
      assert KeyAt(s, i) == KeyAt(s, Skip(s, i));
    } else {
      ArrayBlank(s, i, space(inner), inner, acc);
      assert i + |space(inner)| == Skip(s, i);
    }
  }

  /** One node of an array. */
  lemma ElementStep(s: string, i: nat, v: Value, j: nat, acc: Nodes)
    requires !IsSpace(At(s, i)) && At(s, i) != 8 as char && At(s, i) != ']'
    requires IsStruct(v) <==> At(s, i) == '[' || At(s, i) == '{'
    requires (if IsStruct(v) then ReadStruct(s, i) else Scalar(s, i)) == Some((v, j))
    ensures ReadArray(s, i, acc) == AfterElement(s, j, Append(acc, None, v))
  {
    hide ReadStruct, Scalar, AfterElement;
  }

  /** One node of an object. */
  lemma MemberStep(s: string, i: nat, key: Key, name: string, v: Value, j: nat, acc: Nodes)
    requires KeyAt(s, i) == Some(key) && Unescape(s, key.from, key.to) == name && !v.Real?
    requires At(s, key.value) != 8 as char && At(s, key.value) != '}'
    requires IsStruct(v) <==> At(s, key.value) == '[' || At(s, key.value) == '{'
    requires (if IsStruct(v) then ReadStruct(s, key.value) else Scalar(s, key.value)) == Some((v, j))
    ensures ReadObject(s, i, acc) == AfterMember(s, j, Append(acc, Some(name), v))
  {
    hide ReadStruct, Scalar, AfterMember, KeyAt, Unescape;
  }

  /** The key of a number with a fraction keeps its escapes, which no other key does. */
  lemma FractionKey(s: string, i: nat, key: Key, spelling: string, j: nat, acc: Nodes)
    requires KeyAt(s, i) == Some(key) && Scalar(s, key.value) == Some((Real(spelling), j))
    ensures ReadObject(s, i, acc) == AfterMember(s, j, Append(acc, Some(s[key.from..key.to]), Real(spelling)))
  {
    hide AfterMember, KeyAt, Unescape, ReadStruct, Number, StrToLl, StringEnd;
  }

  /** The nodes of a struct are read in order, up to behind its closing bracket. */
  lemma {:induction false} NodesRead(s: string, i: nat, nodes: Nodes, isObject: bool, tail: string,
                                     space: string -> string, acc: Nodes)
    requires nodes.Node? && PlainNodes(nodes, isObject) && Blanks(space)
    requires i <= |s| && From(s, i) == SpellNodes(nodes, isObject, tail, space)
    ensures |tail| < |s| && From(s, |s| - |tail|) == tail
    ensures ReadNodes(s, i, isObject, acc) == Some((Join(acc, nodes), |s| - |tail|))
    decreases nodes, 1
  {
    hide Spell, SpellMore, Join, ReadArray, ReadObject, ReadStruct, Scalar, AfterElement, AfterMember, Unescape, Skip,
      KeyAt, From;
    var behind := Gap(SpellMore(nodes.next, isObject, tail, space), space);
    MoreEnds(nodes.next, isObject, tail, space);
    var text := Spell(nodes.value, behind, space);
    First(nodes.value, behind, space);
    if isObject {
      KeyReads(s, i, nodes.key.value, text, space);
      ValueReads(s, |s| - |text|, nodes.value, behind, space);
      MemberStep(s, i, KeyAt(s, i).value, nodes.key.value, nodes.value, |s| - |behind|, acc);
    } else {
      ValueReads(s, i, nodes.value, behind, space);
      FromStep(s, i, [], text);
      ElementStep(s, i, nodes.value, |s| - |behind|, acc);
    }
    MoreReads(s, |s| - |behind|, nodes.next, isObject, tail, space, Append(acc, nodes.key, nodes.value));
    JoinAppend(acc, nodes.key, nodes.value, nodes.next);
  }

  lemma {:induction false} MoreReads(s: string, j: nat, nodes: Nodes, isObject: bool, tail: string,
                                     space: string -> string, acc: Nodes)
    requires PlainNodes(nodes, isObject) && Blanks(space)
    requires j <= |s| && From(s, j) == Gap(SpellMore(nodes, isObject, tail, space), space)
    ensures |tail| < |s| && From(s, |s| - |tail|) == tail
    ensures AfterNode(s, j, isObject, acc) == Some((Join(acc, nodes), |s| - |tail|))
    decreases nodes, 2
  {
    hide SpellNodes, Join, ReadArray, ReadObject, Skip, From;
    MoreEnds(nodes, isObject, tail, space);
    SkipGap(s, j, SpellMore(nodes, isObject, tail, space), space);
    var k := Skip(s, j);
    if nodes.Node? {
      FromStep(s, k, ",", Gap(SpellNodes(nodes, isObject, tail, space), space));
      NodesGap(s, k + 1, nodes, isObject, tail, space, acc);
      NodesRead(s, Skip(s, k + 1), nodes, isObject, tail, space, acc);
    } else {
      FromStep(s, k, Closer(isObject), tail);
      JoinEnd(acc);
    }
  }

  /** A tree is read back from any of its texts: whatever white space stands between the tokens, in front of
      the tree and behind it. */
  lemma AnyLayout(t: Value, space: string -> string, front: string, back: string)
    requires IsStruct(t) && Plain(t) && Blanks(space) && Blank(front) && Blank(back)
    ensures ReadAll(front + Spell(t, back, space)) == Some(t)
  {
    hide Spell, ReadStruct, Skip;
    var text := Spell(t, back, space);
    var s := front + text;
    assert From(s, 0) == s;
    First(t, back, space);
    SkipBlank(s, 0, front, text);
    StructReads(s, |front|, t, back, space);
    assert back == back + [];
    SkipBlank(s, |s| - |back|, back, []);
  }

  /** In particular from the text the serializer writes. */
  lemma ReadsWritten(t: Value)
    requires IsStruct(t) && Plain(t)
    ensures ReadAll(ValueText(t)) == Some(t)
  {
    hide ReadAll, ValueText, Spell;
    Tight(t, []);
    AnyLayout(t, NoSpace, [], []);
    assert ValueText(t) + [] == ValueText(t) && [] + Spell(t, [], NoSpace) == Spell(t, [], NoSpace);
  }

  // --- texts the serializer never writes

  /** A comma in front of the closing bracket of an array is passed over, which section 5 of RFC 8259 does not
      allow. */
  lemma CommaInArray()
    ensures ReadAll("[null,]") == Some(Array(Node(None, Null, End)))
  {
    var s, nodes := "[null,]", Node(None, Null, End);
    assert s[1..5] == "null" && Scalar(s, 1) == Some((Null, 5));
    assert ReadArray(s, 6, nodes) == AfterElement(s, 5, nodes) == Some((nodes, 7));
    assert Skip(s, 0) == 0 && Skip(s, 1) == 1;
    assert ReadStruct(s, 0) == Some((Array(nodes), 7));
  }

  lemma EmptyKey(s: string, k: nat)
    requires k <= |s|
    ensures KeyOf(s, k, k, Null) == []
  {
  }

  /** A comma in front of the closing bracket of an object is not. */
  lemma CommaInObject()
    ensures ReadAll("{\"\":null,}") == None
  {
    var s, nodes := "{\"\":null,}", Append(End, Some(""), Null);
    assert StringEnd(s, 2) == 2 && KeyAt(s, 1) == Some(Key(2, 2, 4));
    assert s[4..8] == "null";
    assert Scalar(s, 4) == Some((Null, 8));
    EmptyKey(s, 2);
    assert KeyAt(s, 9) == None;
    assert ReadObject(s, 9, nodes) == AfterMember(s, 8, nodes) == None;
    assert ReadObject(s, 1, End) == None && ReadStruct(s, 0) == None;
  }

  /** A key without a value in front of the closing bracket is passed over too. */
  lemma KeyAlone()
    ensures ReadAll("{\"\":}") == Some(Object(End))
  {
    var s := "{\"\":}";
    assert StringEnd(s, 2) == 2 && KeyAt(s, 1) == Some(Key(2, 2, 4));
  }

  // --- what is read at all

  /** An array that is read ends in its own bracket. */
  lemma {:induction false} ArrayEnds(s: string, i: nat, acc: Nodes)
    ensures var r := ReadArray(s, i, acc); r.Some? ==> r.value.1 <= |s| && s[r.value.1 - 1] == ']'
    decreases Left(s, i), 1
  {
    hide Skip, Scalar, ReadStruct;
    var c := At(s, i);
    if IsSpace(c) || c == 8 as char {
      ArrayEnds(s, i + 1, acc);
    } else if c != ']' {
      var r := if c == '[' || c == '{' then ReadStruct(s, i) else Scalar(s, i);
      if r.Some? { ElementEnds(s, r.value.1, Append(acc, None, r.value.0)); }
    }
  }

  lemma {:induction false} ElementEnds(s: string, j: nat, acc: Nodes)
    ensures var r := AfterElement(s, j, acc); r.Some? ==> r.value.1 <= |s| && s[r.value.1 - 1] == ']'
    decreases Left(s, j), 0
  {
    hide Skip, ReadArray;
    var k := Skip(s, j);
    if At(s, k) == ',' { ArrayEnds(s, k + 1, acc); }
  }

  /** So does an object. */
  lemma {:induction false} ObjectEnds(s: string, i: nat, acc: Nodes)
    ensures var r := ReadObject(s, i, acc); r.Some? ==> r.value.1 <= |s| && s[r.value.1 - 1] == '}'
    decreases Left(s, i), 1
  {
    hide KeyAt, Scalar, ReadStruct, KeyOf;
    var key := KeyAt(s, i);
    if key.Some? {
      var v := key.value.value;
      var c := At(s, v);
      if c == 8 as char {
        ObjectEnds(s, v + 1, acc);
      } else if c != '}' {
        var r := if c == '[' || c == '{' then ReadStruct(s, v) else Scalar(s, v);
        if r.Some? {
          MemberEnds(s, r.value.1, Append(acc, Some(KeyOf(s, key.value.from, key.value.to, r.value.0)), r.value.0));
        }
      }
    }
  }

  lemma {:induction false} MemberEnds(s: string, j: nat, acc: Nodes)
    ensures var r := AfterMember(s, j, acc); r.Some? ==> r.value.1 <= |s| && s[r.value.1 - 1] == '}'
    decreases Left(s, j), 0
  {
    hide Skip, ReadObject;
    var k := Skip(s, j);
    if At(s, k) == ',' { ObjectEnds(s, k + 1, acc); }
  }

  lemma StructEnds(s: string, i: nat)
    ensures var r := ReadStruct(s, i); r.Some? ==>
      var (v, j) := r.value;
      i < j <= |s| && s[i] == Opener(v.Object?)[0] && s[j - 1] == Closer(v.Object?)[0]
  {
    hide Skip, ReadArray, ReadObject;
    var k := Skip(s, i + 1);
    ArrayEnds(s, k, End);
    ObjectEnds(s, k, End);
  }

  lemma {:induction false} SkipsBlank(s: string, i: nat)
    ensures forall k :: i <= k < Skip(s, i) ==> IsSpace(At(s, k))
    ensures i <= |s| ==> Skip(s, i) <= |s|
    decreases |s| - i
  {
    if IsSpace(At(s, i)) {
      SkipsBlank(s, i + 1);
      hide At, IsSpace;
      forall k | i <= k < Skip(s, i)
        ensures IsSpace(At(s, k))
      {
        assert k == i || i + 1 <= k;
      }
    }
  }

  /** Whatever text is read as a tree: it is one struct from its opening to its own closing bracket, with white
      space in front and behind, up to the NUL. */
  lemma Framed(s: string) returns (i: nat, j: nat)
    requires ReadAll(s).Some?
    ensures i < j <= |s| && ReadStruct(s, i) == Some((ReadAll(s).value, j))
    ensures s[i] == Opener(ReadAll(s).value.Object?)[0] && s[j - 1] == Closer(ReadAll(s).value.Object?)[0]
    ensures forall k :: 0 <= k < i ==> IsSpace(At(s, k))
    ensures exists e: nat :: j <= e <= |s| && At(s, e) == '\0' && forall k :: j <= k < e ==> IsSpace(At(s, k))
  {
    hide Skip, ReadStruct;
    i := Skip(s, 0);
    j := ReadStruct(s, i).value.1;
    SkipsBlank(s, 0);
    StructEnds(s, i);
    SkipsBlank(s, j);
    var e := Skip(s, j);
    assert j <= e <= |s| && At(s, e) == '\0' && forall k :: j <= k < e ==> IsSpace(At(s, k));
  }

  /** Reading back what was written gives the same tree: the same kinds, keys, order and nesting, and the
      same unescaped texts. */
  method RoundTrip(t: Value) returns (text: string, r: Option<Value>)
    requires IsStruct(t) && Plain(t)
    ensures text == ValueText(t)
    ensures r == Some(t)
  {
    ReadsWritten(t);
    text := JsonPrint.JsonToString(t);
    r := JsonParse.StringToJson(text);
  }
}
