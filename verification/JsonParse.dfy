/** `string_to_json` of src/json.c: the parser with its two stepping functions and its explicit stack reads
    every text as the grammar says. */
module JsonParse {
  import opened Options
  import opened Decimal
  import opened JsonText
  import opened JsonGrammar
  import opened JsonScan

  datatype Separator = Comma | Close | Bad

  /** What follows a value: white space, then a comma, which is stepped over, or a closing bracket. */
  method StepSeparator(s: string, i: nat) returns (sep: Separator, j: nat)
    ensures var k := Skip(s, i);
      if At(s, k) == ',' then sep.Comma? && j == k + 1
      else if At(s, k) == ']' || At(s, k) == '}' then sep.Close? && j == k
      else sep.Bad?
  {
    j := TrimSpace(s, i);
    if At(s, j) == ',' { sep, j := Comma, j + 1; }
    else if At(s, j) == ']' || At(s, j) == '}' { sep := Close; }
    else { sep := Bad; }
  }

  /** A struct being read: what has been added to it so far. */
  datatype Frame = Frame(isObject: bool, nodes: Nodes)

  function Closing(isObject: bool): char {
    if isObject then '}' else ']'
  }

  /** What is behind a finished value in a struct. */
  function After(isObject: bool, s: string, j: nat, nodes: Nodes): (r: Option<(Nodes, nat)>) {
    if isObject then AfterMember(s, j, nodes) else AfterElement(s, j, nodes)
  }

  /** The stepping functions stop in front of a bracket: what is still to be read of the struct there. */
  function AtBracket(s: string, i: nat, f: Frame, ks: nat, ke: nat): (r: Option<(Nodes, nat)>)
    requires f.isObject ==> ks <= ke <= |s|
  {
    if At(s, i) == '[' || At(s, i) == '{' then
      match ReadStruct(s, i)
      case None => None
      case Some((v, j)) =>
        After(f.isObject, s, j, Append(f.nodes, if f.isObject then Some(Unescape(s, ks, ke)) else None, v))
    else if At(s, i) == Closing(f.isObject) then Some((f.nodes, i + 1))
    else None
  }

  predicate IsBracket(c: char) {
    c == '[' || c == '{' || c == ']' || c == '}'
  }

  /** `_step_value`: values of an array, up to a struct or the end. */
  method StepValue(s: string, i: nat, nodes: Nodes) returns (ok: bool, j: nat, more: Nodes)
    ensures ok ==> i <= j && IsBracket(At(s, j))
    ensures ReadArray(s, i, nodes) == if ok then AtBracket(s, j, Frame(false, more), 0, 0) else None
  {
    hide Scalar, ReadStruct, Skip;
    ok, j, more := true, i, nodes;
    while true
      invariant i <= j && ReadArray(s, j, more) == ReadArray(s, i, nodes)
      decreases |s| - j
    {
      var c := At(s, j);
      if IsSpace(c) || c == 8 as char {
        j := j + 1;
      } else if c == '[' || c == '{' || c == ']' {
        return;
      } else {
        var value, k;
        ok, value, k := StepScalar(s, j);
        if !ok { return; }
        more := Append(more, None, value);
        var sep;
        sep, j := StepSeparator(s, k);
        if sep.Close? { return; }
        if sep.Bad? { ok := false; return; }
      }
    }
  }

  /** The key, its colon and the white space around them. */
  method StepKey(s: string, i: nat) returns (ok: bool, j: nat, ks: nat, ke: nat)
    ensures KeyAt(s, i) == if ok then Some(Key(ks, ke, j)) else None
  {
    hide StringEnd;
    j := TrimSpace(s, i);
    ok, ks, ke := false, 0, 0;
    if At(s, j) != '"' { return; }
    j := j + 1;
    ks := j;
    j := StepString(s, j);
    ke := j;
    j := j + 1;
    j := TrimSpace(s, j);
    if At(s, j) != ':' { return; }
    j := j + 1;
    ok := true;
    j := TrimSpace(s, j);
  }

  /** `_step_key_value`: members of an object, up to one that holds a struct or the end. */
  method StepKeyValue(s: string, i: nat, nodes: Nodes) returns (ok: bool, j: nat, more: Nodes, ks: nat, ke: nat)
    ensures ok ==> i <= j && IsBracket(At(s, j)) && ks <= ke <= |s|
    ensures ReadObject(s, i, nodes) == if ok then AtBracket(s, j, Frame(true, more), ks, ke) else None
  {
    hide Scalar, ReadStruct, Skip, KeyAt, Unescape;
    ok, j, more, ks, ke := true, i, nodes, 0, 0;
    while true
      invariant i <= j && ReadObject(s, j, more) == ReadObject(s, i, nodes)
      decreases |s| - j
    {
      ok, j, ks, ke := StepKey(s, j);
      if !ok { return; }
      var c := At(s, j);
      if c == 8 as char {
        j := j + 1;
      } else if c == '{' || c == '[' || c == '}' {
        return;
      } else {
        var value, k;
        ok, value, k := StepScalar(s, j);
        if !ok { return; }
        var key := s[ks..ke];
        if !value.Real? { key := UnescapeText(s, ks, ke); }
        more := Append(more, Some(key), value);
        var sep;
        sep, j := StepSeparator(s, k);
        if sep.Close? { return; }
        if sep.Bad? { ok := false; return; }
      }
    }
  }

  // --- the outer loop

  /** A struct another one is being read inside of, and where the key stands that one will have. */
  datatype Pending = Pending(frame: Frame, key: Option<string>)

  /** What the text comes to when a struct has been read up to j, given the structs around it. */
  ghost function Finish(s: string, j: nat, v: Value, stack: seq<Pending>): (r: Option<Value>)
    decreases |stack|
  {
    if stack == [] then
      if At(s, Skip(s, j)) == '\0' then Some(v) else None
    else
      var p := stack[0].frame;
      match After(p.isObject, s, j, Append(p.nodes, stack[0].key, v))
      case None => None
      case Some((nodes, k)) => Finish(s, k, Struct(p.isObject, nodes), stack[1..])
  }

  /** What it comes to from in front of a bracket in the struct being read. */
  ghost function Outcome(s: string, i: nat, f: Frame, stack: seq<Pending>, ks: nat, ke: nat): (r: Option<Value>)
    requires f.isObject ==> ks <= ke <= |s|
  {
    match AtBracket(s, i, f, ks, ke)
    case None => None
    case Some((nodes, k)) => Finish(s, k, Struct(f.isObject, nodes), stack)
  }

  /** What it comes to before the first bracket. */
  ghost function OutcomeOfAll(s: string, i: nat): (r: Option<Value>) {
    match ReadStruct(s, Skip(s, i))
    case None => None
    case Some((v, j)) => if At(s, Skip(s, j)) == '\0' then Some(v) else None
  }

  /** Either stepping function, on the struct being read. */
  method Step(s: string, i: nat, f: Frame) returns (ok: bool, j: nat, next: Frame, ks: nat, ke: nat)
    ensures ok ==> i <= j && IsBracket(At(s, j)) && next.isObject == f.isObject && ks <= ke <= |s|
    ensures (if f.isObject then ReadObject(s, i, f.nodes) else ReadArray(s, i, f.nodes))
         == if ok then AtBracket(s, j, next, ks, ke) else None
  {
    var nodes;
    ks, ke := 0, 0;
    if f.isObject {
      ok, j, nodes, ks, ke := StepKeyValue(s, i, f.nodes);
    } else {
      ok, j, nodes := StepValue(s, i, f.nodes);
    }
    next := Frame(f.isObject, nodes);
  }

  /** A bracket opens a struct. */
  method OpenStruct(s: string, i: nat, isObject: bool) returns (ok: bool, j: nat, f: Frame, ks: nat, ke: nat)
    requires At(s, i) == if isObject then '{' else '['
    ensures ok ==> i < j && IsBracket(At(s, j)) && f.isObject == isObject && ks <= ke <= |s|
    ensures ReadStruct(s, i) ==
      if ok then
        match AtBracket(s, j, f, ks, ke)
        case None => None
        case Some((nodes, k)) => Some((Struct(isObject, nodes), k))
      else None
  {
    hide ReadArray, ReadObject, Skip;
    f, ks, ke, ok := Frame(isObject, End), 0, 0, true;
    j := TrimSpace(s, i + 1);
    if At(s, j) != Closing(isObject) {
      ok, j, f, ks, ke := Step(s, j, f);
    }
  }

  /** A finished struct is added to the one around it, and reading goes on there. */
  method CloseStruct(s: string, i: nat, v: Value, stack: seq<Pending>)
    returns (ok: bool, j: nat, f: Frame, ks: nat, ke: nat)
    requires stack != []
    ensures ok ==> i <= j && IsBracket(At(s, j)) && ks <= ke <= |s|
    ensures Finish(s, i, v, stack) == if ok then Outcome(s, j, f, stack[1..], ks, ke) else None
  {
    hide ReadArray, ReadObject, ReadStruct, Skip;
    var p := stack[0];
    f := Frame(p.frame.isObject, Append(p.frame.nodes, p.key, v));
    ks, ke, ok := 0, 0, true;
    var sep;
    sep, j := StepSeparator(s, i);
    if sep.Comma? {
      ok, j, f, ks, ke := Step(s, j, f);
    } else if sep.Bad? {
      ok := false;
    }
  }

  /** An opening bracket inside a struct: that one waits, and the new one is read. */
  lemma Descends(s: string, i: nat, f: Frame, stack: seq<Pending>, ks: nat, ke: nat)
    requires f.isObject ==> ks <= ke <= |s|
    requires At(s, i) == '[' || At(s, i) == '{'
    ensures var key := if f.isObject then Some(Unescape(s, ks, ke)) else None;
      Outcome(s, i, f, stack, ks, ke) ==
      match ReadStruct(s, i)
      case None => None
      case Some((v, j)) => Finish(s, j, v, [Pending(f, key)] + stack)
  {
    hide ReadStruct, After, Unescape;
    var key := if f.isObject then Some(Unescape(s, ks, ke)) else None;
    assert ([Pending(f, key)] + stack)[1..] == stack;
  }

  /** A closing bracket ends the struct being read, if it is of its kind. */
  lemma Ascends(s: string, i: nat, f: Frame, stack: seq<Pending>, ks: nat, ke: nat)
    requires f.isObject ==> ks <= ke <= |s|
    requires At(s, i) == ']' || At(s, i) == '}'
    ensures Outcome(s, i, f, stack, ks, ke) ==
      if f.isObject == (At(s, i) == '}') then Finish(s, i + 1, Struct(f.isObject, f.nodes), stack) else None
  {
    hide ReadStruct, After, Unescape, Finish;
  }

  lemma LastFinish(s: string, j: nat, v: Value)
    ensures Finish(s, j, v, []) == if At(s, Skip(s, j)) == '\0' then Some(v) else None
  {
  }

  lemma Whole(s: string)
    ensures OutcomeOfAll(s, 0) == ReadAll(s)
  {
  }

  /** Before the first bracket: white space is passed over, and anything but an opening bracket is no JSON. */
  lemma FirstChar(s: string, i: nat)
    ensures IsSpace(At(s, i)) ==> OutcomeOfAll(s, i + 1) == OutcomeOfAll(s, i)
    ensures !IsSpace(At(s, i)) && At(s, i) != '[' && At(s, i) != '{' ==> OutcomeOfAll(s, i) == None
    ensures !IsSpace(At(s, i)) ==>
      OutcomeOfAll(s, i) ==
      match ReadStruct(s, i)
      case None => None
      case Some((v, j)) => Finish(s, j, v, [])
  {
  }

  /** `string_to_json` reads every text as the grammar says. */
  method StringToJson(s: string) returns (r: Option<Value>)
    ensures r == ReadAll(s)
  {
    hide ReadStruct, AtBracket, Finish, Skip, Unescape, OutcomeOfAll, ReadAll;
    Whole(s);
    var i: nat := 0;
    var cur: Option<Frame> := None;
    var stack: seq<Pending> := [];
    var ks: nat, ke: nat := 0, 0;
    while true
      invariant cur.Some? ==> IsBracket(At(s, i)) && ks <= ke <= |s|
      invariant cur.Some? ==> Outcome(s, i, cur.value, stack, ks, ke) == ReadAll(s)
      invariant cur.None? ==> stack == [] && OutcomeOfAll(s, i) == ReadAll(s)
      decreases |s| - i
    {
      var c := At(s, i);
      if IsSpace(c) {
        FirstChar(s, i);
        i := i + 1;
      } else if c == '[' || c == '{' {
        if cur.Some? {
          Descends(s, i, cur.value, stack, ks, ke);
          var key := None;
          if cur.value.isObject {
            var k := UnescapeText(s, ks, ke);
            key := Some(k);
          }
          stack := [Pending(cur.value, key)] + stack;
        } else {
          FirstChar(s, i);
        }
        var ok, next;
        ok, i, next, ks, ke := OpenStruct(s, i, c == '{');
        if !ok { return None; }
        cur := Some(next);
      } else if c == ']' || c == '}' {
        FirstChar(s, i);
        if cur.Some? { Ascends(s, i, cur.value, stack, ks, ke); }
        if cur.None? || cur.value.isObject != (c == '}') { return None; }
        var v := Struct(cur.value.isObject, cur.value.nodes);
        i := i + 1;
        if stack == [] {
          LastFinish(s, i, v);
          i := TrimSpace(s, i);
          if At(s, i) != '\0' { return None; }
          return Some(v);
        }
        var ok, next;
        ok, i, next, ks, ke := CloseStruct(s, i, v, stack);
        if !ok { return None; }
        cur, stack := Some(next), stack[1..];
      } else {
        FirstChar(s, i);
        return None;
      }
    }
  }
}
