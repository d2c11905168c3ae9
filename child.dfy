/**
 * Pop\Dom\Child: one element of a markup tree. It keeps an ordered attribute
 * dictionary that its setters change in place, and renders itself and its child
 * nodes as indented markup text.
 */
module Dom {
  import opened Php

  /** Attribute names to values; a value may be `null`. */
  type Attributes = Dict<string, Option<string>>

  /**
   * A child element as a value: the subtree below a `Child` object. `indent` is the
   * node's own indentation, `null` until the first `render` fixes it.
   */
  datatype Node = Node(
    name: string,
    value: Option<string>,
    childrenFirst: bool,
    attributes: Attributes,
    indent: Option<string>,
    children: seq<Node>)

  const NoNodeNameError := Exception("Error: At least the 'nodeName' must be set within the child configuration array.")

  /** String interpolation of a value that may be `null` (which reads as ""). */
  function OrEmpty(s: Option<string>): string {
    if s.Some? then s.value else ""
  }

  /** `str_repeat('    ', depth)`. */
  function Pad(depth: nat): (r: string)
    ensures |r| == 4 * depth
    ensures forall i :: 0 <= i < |r| ==> r[i] == ' '
  {
    if depth == 0 then "" else Pad(depth - 1) + "    "
  }

  // ---------------------------------------------------------------------------
  // Attribute text

  /** `$key . "=\"" . $value . "\""`: no escaping. */
  function AttrPair(e: (string, Option<string>)): string {
    e.0 + "=\"" + OrEmpty(e.1) + "\""
  }

  /** The `$attribAry` list: one pair per attribute, in dictionary order. */
  function Pairs(attrs: Attributes): (r: seq<string>)
    ensures |r| == |attrs|
  {
    if attrs == [] then [] else Pairs(attrs[..|attrs| - 1]) + [AttrPair(attrs[|attrs| - 1])]
  }

  /** `implode($sep, $parts)`. */
  function Implode(sep: string, parts: seq<string>): string {
    if parts == [] then ""
    else if |parts| == 1 then parts[0]
    else Implode(sep, parts[..|parts| - 1]) + sep + parts[|parts| - 1]
  }

  /** `$attribs`: empty without attributes, otherwise a space and the space-separated pairs. */
  function AttributeText(attrs: Attributes): (r: string)
    ensures r == "" <==> attrs == []
    ensures attrs != [] ==> r[0] == ' '
  {
    if attrs == [] then "" else " " + Implode(" ", Pairs(attrs))
  }

  /** A new last attribute adds one space and its pair at the end of the attribute text. */
  lemma AttributeTextAppend(attrs: Attributes, e: (string, Option<string>))
    ensures AttributeText(attrs + [e]) == AttributeText(attrs) + " " + AttrPair(e)
  {
    assert (attrs + [e])[..|attrs|] == attrs;
    var ps := Pairs(attrs);
    assert Pairs(attrs + [e]) == ps + [AttrPair(e)];
    if attrs != [] {
      assert (ps + [AttrPair(e)])[..|ps|] == ps;
      assert Implode(" ", ps + [AttrPair(e)]) == Implode(" ", ps) + " " + AttrPair(e);
      AppendAssoc(" ", Implode(" ", ps) + " ", AttrPair(e));
      AppendAssoc(" ", Implode(" ", ps), " ");
    }
  }

  lemma AppendAssoc<T>(a: seq<T>, b: seq<T>, c: seq<T>)
    ensures a + (b + c) == a + b + c
  {
  }

  /** The attribute text lists the attributes in insertion order, each `name="value"`. */
  lemma {:induction false} AttributeTextInOrder(attrs: Attributes)
    ensures AttributeText(attrs) == SpacedPairs(attrs)
  {
    if attrs != [] {
      var n := |attrs| - 1;
      AttributeTextInOrder(attrs[..n]);
      AttributeTextAppend(attrs[..n], attrs[n]);
      SpacedPairsAppend(attrs[..n], attrs[n]);
      assert attrs[..n] + [attrs[n]] == attrs;
    }
  }

  /** Reference reading of the attribute text: " k1=\"v1\"" followed by " k2=\"v2\"" and so on. */
  function SpacedPairs(attrs: Attributes): string {
    if attrs == [] then "" else " " + AttrPair(attrs[0]) + SpacedPairs(attrs[1..])
  }

  lemma {:induction false} SpacedPairsAppend(attrs: Attributes, e: (string, Option<string>))
    ensures SpacedPairs(attrs + [e]) == SpacedPairs(attrs) + " " + AttrPair(e)
  {
    if attrs == [] {
      assert ([e])[1..] == [];
    } else {
      assert (attrs + [e])[1..] == attrs[1..] + [e];
      SpacedPairsAppend(attrs[1..], e);
    }
  }

  // ---------------------------------------------------------------------------
  // Rendering

  /** The node's own indentation after `render` line one: kept, or `4 * depth` spaces. */
  function OwnIndent(n: Node, depth: nat): string {
    if n.indent.Some? then n.indent.value else Pad(depth)
  }

  /** The first piece of output: `{$indent}{$this->indent}<{$this->nodeName}{$attribs}`. */
  function OpenTag(n: Node, depth: nat, indent: Option<string>): string {
    OrEmpty(indent) + OwnIndent(n, depth) + "<" + n.name + AttributeText(n.attributes)
  }

  /** A node renders as `<name ... />` exactly when this holds. */
  predicate SelfClosing(n: Node) {
    n.children == [] && n.value.None? && n.name != "textarea"
  }

  /** `"{$origIndent}</{$this->nodeName}>\n"`. */
  function CloseTag(orig: string, name: string): (r: string)
    ensures |r| > 0 && r[|r| - 1] == '\n'
  {
    orig + "</" + name + ">\n"
  }

  /** The node value on a line of its own, one level deeper than the node. */
  function ValueLine(depth: nat, inherited: string, value: string): (r: string)
    ensures |r| > 0 && r[|r| - 1] == '\n'
  {
    Pad(depth) + inherited + value + "\n"
  }

  /** `"{$this->nodeValue}</{$this->nodeName}>\n"` of a node without children. */
  function LeafClose(value: Option<string>, name: string): (r: string)
    ensures |r| > 0 && r[|r| - 1] == '\n'
  {
    OrEmpty(value) + "</" + name + ">\n"
  }

  /**
   * The `$indent` that `Child::render` passes on to the child nodes: the inherited
   * indentation, or the node's own at the top.
   */
  function Inherited(n: Node, depth: nat, indent: Option<string>): string {
    if indent.None? then OwnIndent(n, depth) else indent.value
  }

  /** `$origIndent`: the indentation of the closing tag. */
  function OrigIndent(n: Node, depth: nat, indent: Option<string>): string {
    if indent.None? then OwnIndent(n, depth) else indent.value + OwnIndent(n, depth)
  }

  /** The text of a node without children. */
  function LeafText(n: Node, depth: nat, indent: Option<string>): string {
    if n.value.Some? || n.name == "textarea"
    then OpenTag(n, depth, indent) + ">" + LeafClose(n.value, n.name)
    else OpenTag(n, depth, indent) + " />\n"
  }

  /** The text of a node with children, given the text `inner` of its children. */
  function NestedText(n: Node, depth: nat, indent: Option<string>, inner: string): string {
    var close := CloseTag(OrigIndent(n, depth, indent), n.name);
    var valueLine := if n.value.Some? then ValueLine(depth + 1, Inherited(n, depth, indent), n.value.value) else "";
    if n.childrenFirst
    then OpenTag(n, depth, indent) + ">\n" + inner + (if n.value.Some? then valueLine + close else close)
    else OpenTag(n, depth, indent) + ">\n" + valueLine + inner + close
  }

  /**
   * `render(true, depth, indent)`: the text, and the node with its own indentation
   * (and that of every descendant) fixed. Each `.=` of the source is one `+` here.
   */
  function RenderNode(n: Node, depth: nat, indent: Option<string>): (r: (string, Node))
    decreases n, 1
  {
    if n.children == [] then
      (LeafText(n, depth, indent), n.(indent := Some(OwnIndent(n, depth))))
    else
      var rc := RenderChildren(n.children, depth + 1, Some(Inherited(n, depth, indent)));
      (NestedText(n, depth, indent, rc.0), n.(indent := Some(OwnIndent(n, depth)), children := rc.1))
  }

  /** The `foreach ($this->childNodes as $child)` loop: outputs concatenated in order. */
  function RenderChildren(cs: seq<Node>, depth: nat, indent: Option<string>): (r: (string, seq<Node>))
    ensures |r.1| == |cs|
    decreases cs, 0
  {
    if cs == [] then ("", [])
    else
      var front := RenderChildren(cs[..|cs| - 1], depth, indent);
      var last := RenderNode(cs[|cs| - 1], depth, indent);
      (front.0 + last.0, front.1 + [last.1])
  }

  /** One more child: its text is appended and its rendered node added at the end. */
  lemma RenderChildrenStep(cs: seq<Node>, k: nat, depth: nat, indent: Option<string>)
    requires k < |cs|
    ensures RenderChildren(cs[..k + 1], depth, indent).0 == RenderChildren(cs[..k], depth, indent).0 + RenderNode(cs[k], depth, indent).0
    ensures RenderChildren(cs[..k + 1], depth, indent).1 == RenderChildren(cs[..k], depth, indent).1 + [RenderNode(cs[k], depth, indent).1]
  {
    assert cs[..k + 1][..k] == cs[..k];
  }

  /** The last character of `a + b` is that of `b`. */
  lemma LastOfAppend(a: string, b: string)
    requires b != []
    ensures (a + b)[|a + b| - 1] == b[|b| - 1]
  {
  }

  /** `t` is a suffix of `s`. */
  predicate EndsWith<T(==)>(s: seq<T>, t: seq<T>) {
    |t| <= |s| && s[|s| - |t|..] == t
  }

  /**
   * Output shape: it starts with the open tag and ends with a newline; right after the
   * open tag comes a space (of ` />`) exactly for self-closing nodes, `>` otherwise. A
   * leaf with a value (or a `textarea`) is `>value</name>` after the open tag; a node
   * with children goes on with `>` and a newline and ends with `</name>` and a newline.
   */
  lemma RenderShape(n: Node, depth: nat, indent: Option<string>)
    ensures var out, p := RenderNode(n, depth, indent).0, OpenTag(n, depth, indent);
      |out| > |p| && out[..|p|] == p && out[|out| - 1] == '\n' &&
      (out[|p|] == ' ' <==> SelfClosing(n)) &&
      (SelfClosing(n) ==> out == p + " />\n") &&
      (!SelfClosing(n) ==> out[|p|] == '>') &&
      (n.children == [] && !SelfClosing(n) ==> out == p + ">" + OrEmpty(n.value) + "</" + n.name + ">\n") &&
      (n.children != [] ==> |out| >= |p| + 2 && out[..|p| + 2] == p + ">\n" && EndsWith(out, "</" + n.name + ">\n"))
  {
    if n.children == [] {
      LeafShape(n, depth, indent);
    } else {
      var inner := RenderChildren(n.children, depth + 1, Some(Inherited(n, depth, indent))).0;
      NestedShape(n, depth, indent, inner);
      NestedHead(n, depth, indent, inner);
      NestedEnds(n, depth, indent, inner);
    }
  }

  lemma LeafShape(n: Node, depth: nat, indent: Option<string>)
    requires n.children == []
    ensures var out, p := LeafText(n, depth, indent), OpenTag(n, depth, indent);
      |out| > |p| && out[..|p|] == p && out[|out| - 1] == '\n' &&
      (SelfClosing(n) ==> out == p + " />\n") &&
      (!SelfClosing(n) ==> out[|p|] == '>' && out == p + ">" + OrEmpty(n.value) + "</" + n.name + ">\n")
  {
    var p := OpenTag(n, depth, indent);
    if n.value.Some? || n.name == "textarea" {
      var head := p + ">";
      PrefixOfAppend(p, p, ">");
      PrefixOfAppend(p, head, LeafClose(n.value, n.name));
      LastOfAppend(head, LeafClose(n.value, n.name));
      AppendAssoc(head, OrEmpty(n.value) + "</" + n.name, ">\n");
      AppendAssoc(head, OrEmpty(n.value) + "</", n.name);
      AppendAssoc(head, OrEmpty(n.value), "</");
    } else {
      PrefixOfAppend(p, p, " />\n");
    }
  }

  lemma NestedShape(n: Node, depth: nat, indent: Option<string>, inner: string)
    ensures var out, p := NestedText(n, depth, indent, inner), OpenTag(n, depth, indent);
      |out| > |p| && out[..|p|] == p && out[|out| - 1] == '\n' && out[|p|] == '>'
  {
    var p := OpenTag(n, depth, indent);
    var out := NestedText(n, depth, indent, inner);
    var close := CloseTag(OrigIndent(n, depth, indent), n.name);
    var valueLine := if n.value.Some? then ValueLine(depth + 1, Inherited(n, depth, indent), n.value.value) else "";
    var head := p + ">\n";
    PrefixOfAppend(p, p, ">\n");
    var front, last;
    if n.childrenFirst {
      front := head + inner;
      PrefixOfAppend(p, head, inner);
      last := if n.value.Some? then valueLine + close else close;
      if n.value.Some? {
        LastOfAppend(valueLine, close);
      }
    } else {
      PrefixOfAppend(p, head, valueLine);
      PrefixOfAppend(p, head + valueLine, inner);
      front := head + valueLine + inner;
      last := close;
    }
    assert out == front + last;
    PrefixOfAppend(p, front, last);
    LastOfAppend(front, last);
  }

  /** A node with children goes on with `>` and a newline after its open tag. */
  lemma NestedHead(n: Node, depth: nat, indent: Option<string>, inner: string)
    ensures var out, p := NestedText(n, depth, indent, inner), OpenTag(n, depth, indent);
      |out| >= |p| + 2 && out[..|p| + 2] == p + ">\n"
  {
    var head := OpenTag(n, depth, indent) + ">\n";
    var close := CloseTag(OrigIndent(n, depth, indent), n.name);
    var valueLine := if n.value.Some? then ValueLine(depth + 1, Inherited(n, depth, indent), n.value.value) else "";
    if n.childrenFirst {
      PrefixOfAppend(head, head, inner);
      PrefixOfAppend(head, head + inner, if n.value.Some? then valueLine + close else close);
    } else {
      PrefixOfAppend(head, head, valueLine);
      PrefixOfAppend(head, head + valueLine, inner);
      PrefixOfAppend(head, head + valueLine + inner, close);
    }
  }

  /** A node with children ends with its closing tag and a newline. */
  lemma NestedEnds(n: Node, depth: nat, indent: Option<string>, inner: string)
    ensures EndsWith(NestedText(n, depth, indent, inner), "</" + n.name + ">\n")
  {
    var orig := OrigIndent(n, depth, indent);
    var tag := "</" + n.name + ">\n";
    var close := CloseTag(orig, n.name);
    AppendAssoc(orig, "</" + n.name, ">\n");
    AppendAssoc(orig, "</", n.name);
    assert close == orig + tag;
    EndsWithSelf(orig, tag);
    var head := OpenTag(n, depth, indent) + ">\n";
    var valueLine := if n.value.Some? then ValueLine(depth + 1, Inherited(n, depth, indent), n.value.value) else "";
    if n.childrenFirst {
      if n.value.Some? {
        EndsWithAppend(valueLine, close, tag);
      }
      EndsWithAppend(head + inner, if n.value.Some? then valueLine + close else close, tag);
    } else {
      EndsWithAppend(head + valueLine + inner, close, tag);
    }
  }

  lemma EndsWithSelf<T>(a: seq<T>, t: seq<T>)
    ensures EndsWith(a + t, t)
  {
    assert (a + t)[|a|..] == t;
  }

  /** A suffix of `b` is a suffix of `a + b`. */
  lemma EndsWithAppend<T>(a: seq<T>, b: seq<T>, t: seq<T>)
    requires EndsWith(b, t)
    ensures EndsWith(a + b, t)
  {
    assert (a + b)[|a + b| - |t|..] == b[|b| - |t|..];
  }

  /** Appending keeps a prefix, and the characters under it. */
  lemma PrefixOfAppend<T>(pre: seq<T>, s: seq<T>, t: seq<T>)
    requires |pre| <= |s| && s[..|pre|] == pre
    ensures |pre| <= |s + t| && (s + t)[..|pre|] == pre
    ensures |pre| < |s| ==> (s + t)[|pre|] == s[|pre|]
  {
    assert (s + t)[..|pre|] == s[..|pre|];
  }

  /** `childrenFirst` only moves the value line, so it changes nothing without children or value. */
  lemma ChildrenFirstNeedsBoth(n: Node, depth: nat, indent: Option<string>)
    requires n.children == [] || n.value.None?
    ensures RenderNode(n.(childrenFirst := !n.childrenFirst), depth, indent).0 == RenderNode(n, depth, indent).0
  {
    if n.children != [] {
      var m := n.(childrenFirst := !n.childrenFirst);
      var inner := RenderChildren(n.children, depth + 1, Some(Inherited(n, depth, indent))).0;
      var head := OpenTag(n, depth, indent) + ">\n";
      assert OpenTag(m, depth, indent) == OpenTag(n, depth, indent);
      assert head + "" == head;
      assert NestedText(m, depth, indent, inner) == NestedText(n, depth, indent, inner);
    }
  }

  /** The same tree with every indentation cleared: what `render` must not change. */
  function Erase(n: Node): (r: Node)
    ensures r.indent.None? && |r.children| == |n.children|
    decreases n, 1
  {
    n.(indent := None, children := EraseAll(n.children))
  }

  function EraseAll(cs: seq<Node>): (r: seq<Node>)
    ensures |r| == |cs|
    decreases cs, 0
  {
    if cs == [] then [] else EraseAll(cs[..|cs| - 1]) + [Erase(cs[|cs| - 1])]
  }

  /**
   * `render` changes indentation only: names, values, flags, attributes and the shape of
   * the tree stay, and the node keeps `4 * depth` spaces when it had no indentation.
   */
  lemma {:induction false} RenderOnlyFixesIndent(n: Node, depth: nat, indent: Option<string>)
    ensures RenderNode(n, depth, indent).1.indent == Some(OwnIndent(n, depth))
    ensures Erase(RenderNode(n, depth, indent).1) == Erase(n)
    decreases n, 1
  {
    if n.children != [] {
      RenderChildrenOnlyFixIndent(n.children, depth + 1, Some(Inherited(n, depth, indent)));
    }
  }

  lemma {:induction false} RenderChildrenOnlyFixIndent(cs: seq<Node>, depth: nat, indent: Option<string>)
    ensures EraseAll(RenderChildren(cs, depth, indent).1) == EraseAll(cs)
    decreases cs, 0
  {
    if cs != [] {
      var k := |cs| - 1;
      RenderChildrenOnlyFixIndent(cs[..k], depth, indent);
      RenderOnlyFixesIndent(cs[k], depth, indent);
      var kids := RenderChildren(cs, depth, indent).1;
      assert kids[..k] == RenderChildren(cs[..k], depth, indent).1;
    }
  }

  /**
   * The indentation `render` fixes persists: rendering the rendered tree again, with the
   * same depth and inherited indentation, gives the same text and the same tree.
   */
  lemma {:induction false} RenderStable(n: Node, depth: nat, indent: Option<string>)
    ensures var (out, m) := RenderNode(n, depth, indent); RenderNode(m, depth, indent) == (out, m)
    decreases n, 1
  {
    var m := RenderNode(n, depth, indent).1;
    TextIgnoresChildrenAndFixedIndent(n, m, depth, indent);
    if n.children != [] {
      RenderChildrenStable(n.children, depth + 1, Some(Inherited(n, depth, indent)));
    }
  }

  /** The text pieces of a node read its name, value, flag, attributes and own indentation only. */
  lemma TextIgnoresChildrenAndFixedIndent(n: Node, m: Node, depth: nat, indent: Option<string>)
    requires m.name == n.name && m.value == n.value && m.childrenFirst == n.childrenFirst
    requires m.attributes == n.attributes && m.indent == Some(OwnIndent(n, depth))
    ensures Inherited(m, depth, indent) == Inherited(n, depth, indent)
    ensures LeafText(m, depth, indent) == LeafText(n, depth, indent)
    ensures forall inner :: NestedText(m, depth, indent, inner) == NestedText(n, depth, indent, inner)
  {
    assert OwnIndent(m, depth) == OwnIndent(n, depth);
    assert OpenTag(m, depth, indent) == OpenTag(n, depth, indent);
    assert OrigIndent(m, depth, indent) == OrigIndent(n, depth, indent);
  }

  lemma {:induction false} RenderChildrenStable(cs: seq<Node>, depth: nat, indent: Option<string>)
    ensures var (out, ks) := RenderChildren(cs, depth, indent); RenderChildren(ks, depth, indent) == (out, ks)
    decreases cs, 0
  {
    if cs != [] {
      var k := |cs| - 1;
      RenderChildrenStable(cs[..k], depth, indent);
      RenderStable(cs[k], depth, indent);
      var ks := RenderChildren(cs, depth, indent).1;
      assert ks[..k] == RenderChildren(cs[..k], depth, indent).1;
    }
  }

  /** A list with one item, rendered from depth 0 with no inherited indentation. */
  lemma RenderListExample()
    ensures RenderNode(Node("ul", None, false, [], None, [Node("li", Some("x"), false, [], None, [])]), 0, None).0
      == "<ul>\n    <li>x</li>\n</ul>\n"
  {
    var li := Node("li", Some("x"), false, [], None, []);
    var ul := Node("ul", None, false, [], None, [li]);
    ItemExample();
    assert Inherited(ul, 0, None) == "";
    assert RenderChildren([li], 1, Some("")).0 == "    <li>x</li>\n";
    ListExample();
  }

  lemma ItemExample()
    ensures LeafText(Node("li", Some("x"), false, [], None, []), 1, Some("")) == "    <li>x</li>\n"
  {
    var li := Node("li", Some("x"), false, [], None, []);
    assert Pad(0) == "" && Pad(1) == "    ";
    assert OpenTag(li, 1, Some("")) == "    <li";
    assert LeafClose(Some("x"), "li") == "x</li>\n";
  }

  lemma ListExample()
    ensures NestedText(Node("ul", None, false, [], None, [Node("li", Some("x"), false, [], None, [])]), 0, None, "    <li>x</li>\n")
      == "<ul>\n    <li>x</li>\n</ul>\n"
  {
    var ul := Node("ul", None, false, [], None, [Node("li", Some("x"), false, [], None, [])]);
    var inner := "    <li>x</li>\n";
    assert Pad(0) == "";
    assert OpenTag(ul, 0, None) == "<ul";
    assert OrigIndent(ul, 0, None) == "";
    assert NestedText(ul, 0, None, inner) == "<ul" + ">\n" + "" + inner + CloseTag("", "ul");
    assert CloseTag("", "ul") == "</ul>\n";
  }

  // ---------------------------------------------------------------------------
  // The factory configuration

  /**
   * The `$c` array of `factory`, each entry `None` when it is not `isset` (missing or
   * `null`).
   */
  datatype Config = Config(
    nodeName: Option<string>,
    nodeValue: Option<string>,
    childrenFirst: Option<bool>,
    indent: Option<string>,
    attributes: Option<Attributes>,
    childNodes: Option<seq<Node>>)

  /** `$this->attributes[$a]` is set and not `null`. */
  predicate IsSet(attrs: Attributes, a: string) {
    Get(attrs, a).Some? && Get(attrs, a).value.Some?
  }

  /** The text and nodes of the first `k` children, rendered in turn. */
  function RenderFirst(cs: seq<Node>, k: nat, depth: nat, indent: Option<string>): (r: (string, seq<Node>))
    requires k <= |cs|
    ensures |r.1| == k
  {
    if k == 0 then ("", [])
    else
      var front := RenderFirst(cs, k - 1, depth, indent);
      var last := RenderNode(cs[k - 1], depth, indent);
      (front.0 + last.0, front.1 + [last.1])
  }

  /** Rendering all children one after the other is `RenderChildren`. */
  lemma {:induction false} RenderFirstAll(cs: seq<Node>, k: nat, depth: nat, indent: Option<string>)
    requires k <= |cs|
    ensures RenderFirst(cs, k, depth, indent) == RenderChildren(cs[..k], depth, indent)
  {
    if k > 0 {
      RenderFirstAll(cs, k - 1, depth, indent);
      assert cs[..k][..k - 1] == cs[..k - 1];
    }
  }

  /** One pass of the loop below: `$this->output .= $child->render(true, $newDepth, $indent)`. */
  method RenderNext(cs: seq<Node>, k: nat, depth: nat, indent: Option<string>, out: string, done: seq<Node>)
    returns (out': string, done': seq<Node>)
    requires k < |cs|
    requires (out, done) == RenderFirst(cs, k, depth, indent)
    ensures (out', done') == RenderFirst(cs, k + 1, depth, indent)
  {
    var (o, c) := RenderNode(cs[k], depth, indent);
    out' := out + o;
    done' := done + [c];
  }

  /**
   * The `foreach ($this->childNodes as $child)` loop of `render`: each child renders in
   * turn and its text is appended.
   */
  method RenderEach(cs: seq<Node>, depth: nat, indent: Option<string>) returns (out: string, done: seq<Node>)
    ensures (out, done) == RenderFirst(cs, |cs|, depth, indent)
  {
    done := [];
    out := "";
    var k := 0;
    while k < |cs|
      invariant k <= |cs| && (out, done) == RenderFirst(cs, k, depth, indent)
    {
      out, done := RenderNext(cs, k, depth, indent, out, done);
      k := k + 1;
    }
  }

  class Child {
    var nodeName: string
    var nodeValue: Option<string>
    var childrenFirst: bool
    var attributes: Attributes
    var indent: Option<string>
    var childNodes: seq<Node>
    var output: string

    /** The object's state as a tree value. */
    function ToNode(): Node
      reads this
    {
      Node(nodeName, nodeValue, childrenFirst, attributes, indent, childNodes)
    }

    /** `new Child($name, $value, $childNode, $first, $indent)`; a given child node is added. */
    constructor (name: string, value: Option<string>, childNode: Option<Node>, first: bool, indent: Option<string>)
      ensures nodeName == name && nodeValue == value && childrenFirst == first && this.indent == indent
      ensures attributes == [] && output == ""
      ensures childNodes == if childNode.Some? then [childNode.value] else []
    {
      nodeName := name;
      nodeValue := value;
      childrenFirst := first;
      attributes := [];
      output := "";
      childNodes := if childNode.Some? then [childNode.value] else [];
      this.indent := indent;
    }

    /**
     * `Child::factory($c)`: fails without a node name; otherwise the missing entries take
     * their defaults, then the attributes and child nodes are added.
     */
    static method Factory(c: Config) returns (r: Result<Child>)
      ensures c.nodeName.None? <==> r.Failure?
      ensures r.Failure? ==> r.error == NoNodeNameError
      ensures r.Success? ==>
        var child := r.value;
        fresh(child) &&
        child.nodeName == c.nodeName.value && child.nodeValue == c.nodeValue &&
        child.childrenFirst == (c.childrenFirst.Some? && c.childrenFirst.value) &&
        child.indent == c.indent &&
        child.attributes == (if c.attributes.Some? then PutAll([], c.attributes.value) else []) &&
        child.childNodes == (if c.childNodes.Some? then c.childNodes.value else [])
    {
      if c.nodeName.None? {
        return Failure(NoNodeNameError);
      }
      var first := if c.childrenFirst.Some? then c.childrenFirst.value else false;
      var child := new Child(c.nodeName.value, c.nodeValue, None, first, c.indent);
      if c.attributes.Some? {
        child.SetAttributes(c.attributes.value);
      }
      if c.childNodes.Some? {
        child.childNodes := child.childNodes + c.childNodes.value;
      }
      return Success(child);
    }

    method SetNodeName(name: string)
      modifies this`nodeName
      ensures nodeName == name
    {
      nodeName := name;
    }

    method SetNodeValue(value: Option<string>)
      modifies this`nodeValue
      ensures nodeValue == value
    {
      nodeValue := value;
    }

    /** `$this->attributes[$a] = $v`: `a` reads `v`, every other name reads as before. */
    method SetAttribute(a: string, v: Option<string>)
      modifies this`attributes
      ensures attributes == Put(old(attributes), a, v)
      ensures Get(attributes, a) == Some(v)
      ensures forall b :: b != a ==> Get(attributes, b) == Get(old(attributes), b)
    {
      PutGet(attributes, a, v);
      attributes := Put(attributes, a, v);
    }

    /**
     * The `foreach` of `setAttributes`: a name given twice ends with its last value, a
     * name not given reads as before.
     */
    method SetAttributes(given: Attributes)
      modifies this`attributes
      ensures attributes == PutAll(old(attributes), given)
      ensures forall b :: (Get(attributes, b) ==
        if b in Keys(given) then Some(LastValue(given, b)) else Get(old(attributes), b))
    {
      var j := 0;
      while j < |given|
        invariant j <= |given|
        invariant attributes == PutAll(old(attributes), given[..j])
      {
        assert given[..j + 1][..j] == given[..j];
        attributes := Put(attributes, given[j].0, given[j].1);
        j := j + 1;
      }
      assert given[..j] == given;
      forall b ensures Get(attributes, b) ==
        if b in Keys(given) then Some(LastValue(given, b)) else Get(old(attributes), b)
      {
        PutAllGet(old(attributes), given, b);
      }
    }

    /** `getAttribute($name)`: the stored value when it is set and not `null`, else `null`. */
    function GetAttribute(name: string): (r: Option<string>)
      reads this
      ensures r.Some? <==> IsSet(attributes, name)
      ensures r.Some? ==> Get(attributes, name) == Some(r)
    {
      if IsSet(attributes, name) then Get(attributes, name).value else None
    }

    /**
     * `removeAttribute($a)`: afterwards `a` reads `null` and every other name reads as
     * before; a name stored with a `null` value is left in place.
     */
    method RemoveAttribute(a: string)
      modifies this`attributes
      ensures attributes == if IsSet(old(attributes), a) then Remove(old(attributes), a) else old(attributes)
      ensures GetAttribute(a).None?
      ensures forall b :: b != a ==> Get(attributes, b) == Get(old(attributes), b)
    {
      if IsSet(attributes, a) {
        RemoveGet(attributes, a);
        attributes := Remove(attributes, a);
      }
    }

    /** The `$attribAry` loop and `implode`. */
    method FormatAttributes() returns (attribs: string)
      ensures attribs == AttributeText(attributes)
    {
      attribs := "";
      if |attributes| > 0 {
        var parts: seq<string> := [];
        var j := 0;
        while j < |attributes|
          invariant j <= |attributes|
          invariant parts == Pairs(attributes[..j])
        {
          assert attributes[..j + 1][..j] == attributes[..j];
          parts := parts + [AttrPair(attributes[j])];
          j := j + 1;
        }
        assert attributes[..j] == attributes;
        attribs := " " + Implode(" ", parts);
      }
    }

    /** The loop rendering each child node in turn, one level deeper. */
    method RenderChildNodes(depth: nat, indent: Option<string>) returns (out: string)
      modifies this`childNodes
      ensures out == RenderChildren(old(childNodes), depth, indent).0
      ensures childNodes == RenderChildren(old(childNodes), depth, indent).1
    {
      RenderFirstAll(childNodes, |childNodes|, depth, indent);
      assert childNodes[..|childNodes|] == childNodes;
      out, childNodes := RenderEach(childNodes, depth, indent);
    }

    /**
     * `render(true, $depth, $indent)`: the text `RenderNode` gives for this node, which
     * also fixes this node's and its descendants' indentation.
     */
    method Render(depth: nat, indentArg: Option<string>) returns (r: string)
      modifies this`output, this`indent, this`childNodes
      ensures r == output
      ensures r == RenderNode(old(ToNode()), depth, indentArg).0
      ensures ToNode() == RenderNode(old(ToNode()), depth, indentArg).1
    {
      ghost var n := ToNode();
      output := "";
      indent := if indent.None? then Some(Pad(depth)) else indent;
      var own := indent.value;
      var attribs := FormatAttributes();
      output := output + (OrEmpty(indentArg) + own + "<" + nodeName + attribs);
      assert output == OpenTag(n, depth, indentArg);
      var passed, origIndent;
      if indentArg.None? {
        passed, origIndent := own, own;
      } else {
        passed, origIndent := indentArg.value, indentArg.value + own;
      }
      if |childNodes| > 0 {
        RenderNested(n, depth, indentArg, passed, origIndent);
      } else {
        RenderLeaf(n, depth, indentArg);
      }
      r := output;
    }

    /** The end of `render` for a node without children: a value (or `textarea`) closes, else ` />`. */
    method RenderLeaf(ghost n: Node, depth: nat, indentArg: Option<string>)
      requires nodeValue == n.value && nodeName == n.name
      requires output == OpenTag(n, depth, indentArg)
      modifies this`output
      ensures output == LeafText(n, depth, indentArg)
    {
      if nodeValue.Some? || nodeName == "textarea" {
        output := output + ">";
        output := output + LeafClose(nodeValue, nodeName);
      } else {
        output := output + " />\n";
      }
    }

    /** The end of `render` for a node with children: value line and children in `childrenFirst` order. */
    method RenderNested(ghost n: Node, depth: nat, indentArg: Option<string>, passed: string, origIndent: string)
      requires nodeValue == n.value && nodeName == n.name && childrenFirst == n.childrenFirst
      requires passed == Inherited(n, depth, indentArg) && origIndent == OrigIndent(n, depth, indentArg)
      requires output == OpenTag(n, depth, indentArg)
      modifies this`output, this`childNodes
      ensures var rc := RenderChildren(old(childNodes), depth + 1, Some(passed));
        output == NestedText(n, depth, indentArg, rc.0) && childNodes == rc.1
    {
      output := output + ">\n";
      var newDepth := depth + 1;
      if !childrenFirst {
        output := output + (if nodeValue.Some? then ValueLine(newDepth, passed, nodeValue.value) else "");
        var inner := RenderChildNodes(newDepth, Some(passed));
        output := output + inner;
        output := output + CloseTag(origIndent, nodeName);
      } else {
        var inner := RenderChildNodes(newDepth, Some(passed));
        output := output + inner;
        output := output +
          (if nodeValue.Some? then ValueLine(newDepth, passed, nodeValue.value) + CloseTag(origIndent, nodeName)
           else CloseTag(origIndent, nodeName));
      }
    }
  }
}
