/** `json_to_string_ex` of src/json.c: a loop with an explicit stack of the structs it is inside. */
module JsonPrint {
  import opened Options
  import opened Decimal
  import opened JsonText

  /** A struct node on the stack: its kind and what follows it. */
  datatype Open = Open(isObject: bool, next: Nodes)

  /** What is still to be written for the structs on the stack. */
  function StackText(stack: seq<Open>): string {
    if stack == [] then []
    else Closer(stack[0].isObject) + (MoreText(stack[0].next) + StackText(stack[1..]))
  }

  /** `_escape_to_json_append`. */
  method AppendEscaped(out: string, src: string) returns (r: string)
    ensures r == out + Escape(src)
  {
    r := out;
    var i: nat := 0;
    while i < |src|
      invariant i <= |src|
      invariant r == out + Escape(src[..i])
      decreases |src| - i
    {
      EscapeSnoc(src[..i], src[i]);
      assert src[..i + 1] == src[..i] + [src[i]];
      match EscapeLetter(src[i]) {
        case Some(l) => r := r + ['\\', l];
        case None => r := r + [src[i]];
      }
      i := i + 1;
    }
    assert src[..i] == src;
  }

  method AppendKey(out: string, key: Option<string>) returns (r: string)
    ensures r == out + KeyText(key)
  {
    r := out;
    if key.Some? {
      r := r + "\"";
      r := AppendEscaped(r, key.value);
      r := r + "\":";
    }
  }

  method AppendScalar(out: string, v: Value) returns (r: string)
    requires Plain(v) && !IsStruct(v)
    ensures r == out + ValueText(v)
  {
    match v {
      case Null => r := out + "null";
      case True => r := out + "true";
      case False => r := out + "false";
      case Text(s) =>
        r := out + "\"";
        r := AppendEscaped(r, s);
        r := r + "\"";
      case Integer(n) =>
        var buf := new char[64];
        IntTextLength(n);
        var length := LlToStr(n, buf);
        r := out + buf[..if n < 0 then length + 1 else length];
    }
  }

  /** Chains whose values can be written; keys are written wherever there is one. */
  predicate Printable(nodes: Nodes) {
    PlainNodes(nodes, true) || PlainNodes(nodes, false)
  }

  predicate PrintableStack(stack: seq<Open>) {
    forall i :: 0 <= i < |stack| ==> Printable(stack[i].next)
  }

  lemma Regroup(r: string, a: string, b: string)
    ensures (r + a) + b == r + (a + b)
  {
  }

  /** The inner loop: the structs that end here are closed. */
  method Unwind(out: string, stack: seq<Open>) returns (r: string, rest: seq<Open>, node: Nodes)
    requires PrintableStack(stack)
    ensures out + StackText(stack) == r + (NodesText(node) + StackText(rest))
    ensures |r| >= |out| && (node.End? ==> rest == [])
    ensures PrintableStack(rest) && Printable(node)
  {
    hide MoreText, NodesText, Closer, Printable;
    r, rest, node := out, stack, End;
    while rest != []
      invariant out + StackText(stack) == r + StackText(rest)
      invariant |r| >= |out| && PrintableStack(rest)
      decreases |rest|
    {
      var top := rest[0];
      rest := rest[1..];
      Regroup(r, Closer(top.isObject), MoreText(top.next) + StackText(rest));
      r := r + Closer(top.isObject);
      if top.next.Node? {
        MoreComma(r, top.next, StackText(rest));
        r := r + ",";
        node := top.next;
        return;
      }
      MoreNothing(top.next, StackText(rest));
    }
    EndPrints(StackText(rest));
  }

  lemma MoreComma(r: string, next: Nodes, tail: string)
    requires next.Node?
    ensures r + (MoreText(next) + tail) == (r + ",") + (NodesText(next) + tail)
  {
    hide NodesText;
    Regroup(",", NodesText(next), tail);
    Regroup(r, ",", NodesText(next) + tail);
  }

  lemma MoreNothing(next: Nodes, tail: string)
    requires next.End?
    ensures MoreText(next) + tail == tail
  {
  }

  lemma EndPrints(tail: string)
    ensures NodesText(End) + tail == tail && Printable(End)
  {
  }

  /** One node is written as far as the loop gets before it looks at the next one. */
  lemma NodePrints(out: string, node: Nodes, tail: string)
    requires node.Node?
    ensures out + (NodesText(node) + tail) ==
      (out + KeyText(node.key)) + (ValueText(node.value) + (MoreText(node.next) + tail))
  {
    hide KeyText, ValueText, MoreText;
    Regroup(KeyText(node.key) + ValueText(node.value), MoreText(node.next), tail);
    Regroup(KeyText(node.key), ValueText(node.value), MoreText(node.next) + tail);
    Regroup(out, KeyText(node.key), ValueText(node.value) + (MoreText(node.next) + tail));
  }

  lemma StructPrints(out: string, v: Value, next: Nodes, stack: seq<Open>)
    requires IsStruct(v)
    ensures out + (ValueText(v) + (MoreText(next) + StackText(stack))) ==
      (out + Opener(v.Object?)) + (NodesText(v.nodes) + StackText([Open(v.Object?, next)] + stack))
  {
    hide NodesText, MoreText;
    var inner, more := NodesText(v.nodes), MoreText(next) + StackText(stack);
    assert ([Open(v.Object?, next)] + stack)[1..] == stack;
    assert ValueText(v) == Opener(v.Object?) + inner + Closer(v.Object?);
    hide StackText, ValueText, Opener, Closer;
    Regroup(Opener(v.Object?), inner, Closer(v.Object?));
    Regroup(Opener(v.Object?), inner + Closer(v.Object?), more);
    Regroup(inner, Closer(v.Object?), more);
    Regroup(out, Opener(v.Object?), inner + (Closer(v.Object?) + more));
  }

  lemma PrintableParts(node: Nodes)
    requires Printable(node) && node.Node?
    ensures Plain(node.value) && Printable(node.next)
    ensures IsStruct(node.value) ==> Printable(node.value.nodes)
  {
  }

  /** The text of a tree is what the loop writes. */
  method JsonToString(root: Value) returns (out: string)
    requires IsStruct(root) && Plain(root)
    ensures out == ValueText(root)
  {
    hide NodesText, MoreText, KeyText, Printable, Plain;
    out := Opener(root.Object?);
    var node := root.nodes;
    var stack: seq<Open> := [];
    assert Printable(node) by { RootPrintable(root); }
    RootPrints(root);
    while node.Node?
      invariant out + (NodesText(node) + StackText(stack)) + Closer(root.Object?) == ValueText(root)
      invariant Printable(node) && PrintableStack(stack)
      invariant node.End? ==> stack == []
      decreases |ValueText(root)| - |out|
    {
      PrintableParts(node);
      NodePrints(out, node, StackText(stack));
      out := AppendKey(out, node.key);
      if IsStruct(node.value) {
        StructPrints(out, node.value, node.next, stack);
        out := out + Opener(node.value.Object?);
        stack := [Open(node.value.Object?, node.next)] + stack;
        node := node.value.nodes;
        if node.Node? {
          continue;
        }
      } else {
        Regroup(out, ValueText(node.value), MoreText(node.next) + StackText(stack));
        out := AppendScalar(out, node.value);
        ScalarLength(node.value);
        if node.next.Node? {
          MoreComma(out, node.next, StackText(stack));
          out := out + ",";
          node := node.next;
          continue;
        }
        node := node.next;
        MoreNothing(node, StackText(stack));
      }
      EndPrints(StackText(stack));
      out, stack, node := Unwind(out, stack);
    }
    EndPrints(StackText(stack));
    out := out + Closer(root.Object?);
  }

  lemma ScalarLength(v: Value)
    requires Plain(v) && !IsStruct(v)
    ensures |ValueText(v)| > 0
  {
  }

  lemma RootPrintable(root: Value)
    requires IsStruct(root) && Plain(root)
    ensures Printable(root.nodes)
  {
  }

  lemma RootPrints(root: Value)
    requires IsStruct(root)
    ensures Opener(root.Object?) + (NodesText(root.nodes) + StackText([])) + Closer(root.Object?) == ValueText(root)
  {
  }
}
