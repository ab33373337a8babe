/** Virtual-DOM nodes (coreConcepts/VirtualDOM/Interactive/virtualdom.js): the plain
    objects `createTextElement` and `createElement` build, and `printVDOM`, the
    indented serialiser that shows them. Node ids, random in the source, are supplied. */
module VirtualDom {
  import opened Common

  /** A `props` object: property names with their string values, in key order. */
  type Props = seq<(string, string)>

  /** A node object `{type, props, children, value, id}`; `value` is absent (None)
      on nodes that are not text nodes. */
  datatype VNode = VNode(nodeType: string, props: Props, children: seq<VNode>, value: Option<string>, id: string)

  const TextElement: string := "TEXT_ELEMENT"

  /** `createTextElement`: `text` is `String(text)` of the argument. */
  function CreateTextElement(text: string, id: string): VNode
  {
    VNode(TextElement, [], [], Some(text), id)
  }

  /** One value in the argument list of an array given there: a node object, a
      primitive (by its `String` form), `null` or `undefined`. */
  datatype Leaf = Obj(node: VNode) | Prim(text: string) | Null | Undefined

  /** One argument after `type` and `props`: a single value, or an array of them. */
  datatype Item = Single(leaf: Leaf) | Array(leaves: seq<Leaf>)

  /** What one argument contributes to `children.flat()`. */
  function Spread(item: Item): seq<Leaf>
  {
    match item
    case Single(l) => [l]
    case Array(ls) => ls
  }

  /** `children.flat()`: arrays are spliced in, one level deep. */
  function Flat(items: seq<Item>): (r: seq<Leaf>)
  {
    if items == [] then [] else Spread(items[0]) + Flat(items[1..])
  }

  /** `.filter(child => child !== null && child !== undefined)`. */
  function Kept(leaves: seq<Leaf>): (r: seq<Leaf>)
    ensures forall i :: 0 <= i < |r| ==> r[i].Obj? || r[i].Prim?
    ensures |r| <= |leaves|
    ensures forall x :: x in r <==> x in leaves && (x.Obj? || x.Prim?)
  {
    if leaves == [] then []
    else
      assert forall x :: x in leaves <==> x == leaves[0] || x in leaves[1..];
      if leaves[0].Obj? || leaves[0].Prim? then [leaves[0]] + Kept(leaves[1..])
      else Kept(leaves[1..])
  }

  /** `.map(child => typeof child === "object" ? child : createTextElement(child))`;
      the text node made at position `i` takes the supplied id `ids(i)`. */
  function Wrap(leaves: seq<Leaf>, ids: nat -> string): (r: seq<VNode>)
    requires forall i :: 0 <= i < |leaves| ==> leaves[i].Obj? || leaves[i].Prim?
    ensures |r| == |leaves|
    ensures forall i :: 0 <= i < |leaves| && leaves[i].Obj? ==> r[i] == leaves[i].node
    ensures forall i :: 0 <= i < |leaves| && leaves[i].Prim? ==> r[i] == CreateTextElement(leaves[i].text, ids(i))
  {
    seq(|leaves|, i requires 0 <= i < |leaves| && (leaves[i].Obj? || leaves[i].Prim?) =>
      match leaves[i] case Obj(v) => v case Prim(t) => CreateTextElement(t, ids(i)))
  }

  /** `createElement(type, props, ...children)`: the children after flattening and
      filtering, in order, with text nodes for the primitives; the ids come from
      `ids`, the element's own one after those of its text nodes. */
  function CreateElement(nodeType: string, props: Props, children: seq<Item>, ids: nat -> string): (r: VNode)
    ensures r.nodeType == nodeType && r.props == props && r.value.None?
    ensures r.children == Wrap(Kept(Flat(children)), ids)
    ensures r.id == ids(|Kept(Flat(children))|)
  {
    var kept := Kept(Flat(children));
    VNode(nodeType, props, Wrap(kept, ids), None, ids(|kept|))
  }

  lemma {:induction false} FlatAppend(a: seq<Item>, b: seq<Item>)
    ensures Flat(a + b) == Flat(a) + Flat(b)
  {
    if a != [] {
      assert (a + b)[0] == a[0] && (a + b)[1..] == a[1..] + b;
      FlatAppend(a[1..], b);
    } else {
      assert a + b == b;
    }
  }

  lemma {:induction false} KeptAppend(a: seq<Leaf>, b: seq<Leaf>)
    ensures Kept(a + b) == Kept(a) + Kept(b)
  {
    if a != [] {
      assert (a + b)[0] == a[0] && (a + b)[1..] == a[1..] + b;
      KeptAppend(a[1..], b);
    } else {
      assert a + b == b;
    }
  }

  /** `null` and `undefined` arguments, alone or inside an array, leave no trace. */
  lemma AbsentIgnored(nodeType: string, props: Props, before: seq<Item>, after: seq<Item>, ids: nat -> string, missing: seq<Leaf>)
    requires forall i :: 0 <= i < |missing| ==> missing[i] == Null || missing[i] == Undefined
    ensures CreateElement(nodeType, props, before + [Array(missing)] + after, ids) ==
            CreateElement(nodeType, props, before + after, ids)
  {
    var b, a := Flat(before), Flat(after);
    assert Flat(before + [Array(missing)] + after) == b + missing + a by {
      FlatAppend(before + [Array(missing)], after);
      FlatAppend(before, [Array(missing)]);
      assert Flat([Array(missing)]) == missing;
    }
    assert Flat(before + after) == b + a by {
      FlatAppend(before, after);
    }
    assert Kept(b + missing + a) == Kept(b) + Kept(a) by {
      KeptAppend(b + missing, a);
      KeptAppend(b, missing);
      KeptMissing(missing);
      assert Kept(b) + [] == Kept(b);
    }
    KeptAppend(b, a);
  }

  lemma {:induction false} KeptMissing(missing: seq<Leaf>)
    requires forall i :: 0 <= i < |missing| ==> missing[i] == Null || missing[i] == Undefined
    ensures Kept(missing) == []
  {
    if missing != [] {
      KeptMissing(missing[1..]);
    }
  }

  /** The values as single arguments. */
  function Singles(leaves: seq<Leaf>): (r: seq<Item>)
    ensures |r| == |leaves| && forall i :: 0 <= i < |leaves| ==> r[i] == Single(leaves[i])
  {
    seq(|leaves|, i requires 0 <= i < |leaves| => Single(leaves[i]))
  }

  /** Values that are all nodes or primitives all survive the filter, in order. */
  lemma {:induction false} KeptAll(leaves: seq<Leaf>)
    requires forall i :: 0 <= i < |leaves| ==> leaves[i].Obj? || leaves[i].Prim?
    ensures Kept(leaves) == leaves
  {
    if leaves != [] {
      KeptAll(leaves[1..]);
    }
  }

  /** Children given one by one, none of them `null` or `undefined`: one child per
      argument, in order, a node object as it is and a primitive as a fresh text node
      with that text, no props and no children; the element's id is the one after
      those its text nodes took. */
  lemma CreateElementChildren(nodeType: string, props: Props, leaves: seq<Leaf>, ids: nat -> string)
    requires forall i :: 0 <= i < |leaves| ==> leaves[i].Obj? || leaves[i].Prim?
    ensures var r := CreateElement(nodeType, props, Singles(leaves), ids);
      |r.children| == |leaves| && r.id == ids(|leaves|) &&
      (forall i :: 0 <= i < |leaves| && leaves[i].Obj? ==> r.children[i] == leaves[i].node) &&
      (forall i :: 0 <= i < |leaves| && leaves[i].Prim? ==>
         r.children[i].nodeType == TextElement && r.children[i].value == Some(leaves[i].text) &&
         r.children[i].props == [] && r.children[i].children == [] && r.children[i].id == ids(i))
  {
    FlatSingles(leaves);
    KeptAll(leaves);
  }

  /** Flattening is one level deep: passing the children as one array is passing
      them one by one. */
  lemma {:induction false} ArrayIsSpread(nodeType: string, props: Props, leaves: seq<Leaf>, ids: nat -> string)
    ensures CreateElement(nodeType, props, [Array(leaves)], ids) == CreateElement(nodeType, props, Singles(leaves), ids)
  {
    FlatSingles(leaves);
    assert Flat([Array(leaves)]) == leaves;
  }

  lemma {:induction false} FlatSingles(leaves: seq<Leaf>)
    ensures Flat(Singles(leaves)) == leaves
  {
    if leaves != [] {
      assert Singles(leaves)[1..] == Singles(leaves[1..]);
      FlatSingles(leaves[1..]);
    }
  }

  /** `" ".repeat(indent * 2)`. */
  function Spacing(indent: nat): (s: string)
    ensures |s| == 2 * indent && forall i :: 0 <= i < |s| ==> s[i] == ' '
  {
    seq(2 * indent, _ => ' ')
  }

  /** A value as a template literal shows it: `undefined` when absent. */
  function Shown(value: Option<string>): string
  {
    if value.Some? then value.value else "undefined"
  }

  /** The attributes of a printed tag: `children` is skipped, `className` is shown
      as `class`. */
  function Attributes(props: Props): string
  {
    if props == [] then ""
    else
      var (name, v) := props[0];
      (if name == "children" then ""
       else " " + (if name == "className" then "class" else name) + "=\"" + v + "\"") +
      Attributes(props[1..])
  }

  /** `printVDOM(vNode, indent)`, with "" for a missing node. */
  function Print(v: Option<VNode>, indent: nat): string
  {
    if v.None? then "" else PrintNode(v.value, indent)
  }

  /** Every node prints as whole lines: its text starts with its indentation and ends
      with a line break. */
  function PrintNode(v: VNode, indent: nat): (r: string)
    ensures |r| > 2 * indent && r[..2 * indent] == Spacing(indent) && r[|r| - 1] == '\n'
    decreases v
  {
    var spacing := Spacing(indent);
    if v.nodeType == TextElement then spacing + "\"" + Shown(v.value) + "\"\n"
    else
      var open := spacing + "<" + v.nodeType + Attributes(v.props) + ">";
      if |v.children| > 0
      then open + "\n" + PrintChildren(v.children, indent + 1) + spacing + "</" + v.nodeType + ">\n"
      else open + "</" + v.nodeType + ">\n"
  }

  function PrintChildren(cs: seq<VNode>, indent: nat): string
    decreases cs
  {
    if cs == [] then "" else PrintNode(cs[0], indent) + PrintChildren(cs[1..], indent)
  }

  /** A text node prints as its quoted value on a line of its own. */
  lemma TextNodePrints(text: string, id: string, indent: nat)
    ensures PrintNode(CreateTextElement(text, id), indent) == Spacing(indent) + "\"" + text + "\"\n"
  {
  }

  /** The layout `printVDOM` writes: nothing for a missing node; a text node as its
      quoted value on a line of its own; an element without children as its opening
      and closing tags on one line; any other element as its opening tag on one line,
      its children one level deeper, and its closing tag on a last line. */
  lemma PrintLayout(v: Option<VNode>, indent: nat)
    ensures v.None? ==> Print(v, indent) == ""
    ensures v.Some? && v.value.nodeType == TextElement ==>
      Print(v, indent) == Spacing(indent) + "\"" + Shown(v.value.value) + "\"\n"
    ensures v.Some? && v.value.nodeType != TextElement && v.value.children == [] ==>
      Print(v, indent) == Spacing(indent) + "<" + v.value.nodeType + Attributes(v.value.props) + ">" +
                          "</" + v.value.nodeType + ">\n"
    ensures v.Some? && v.value.nodeType != TextElement && v.value.children != [] ==>
      Print(v, indent) == Spacing(indent) + "<" + v.value.nodeType + Attributes(v.value.props) + ">\n" +
                          PrintChildren(v.value.children, indent + 1) +
                          Spacing(indent) + "</" + v.value.nodeType + ">\n"
  {
  }

  /** The children print one after another, in order, each in full. */
  lemma {:induction false} PrintChildrenAppend(a: seq<VNode>, b: seq<VNode>, indent: nat)
    ensures PrintChildren(a + b, indent) == PrintChildren(a, indent) + PrintChildren(b, indent)
  {
    if a == [] {
      assert a + b == b;
    } else {
      assert (a + b)[0] == a[0] && (a + b)[1..] == a[1..] + b;
      PrintChildrenAppend(a[1..], b, indent);
    }
  }

  /** The number of line breaks in `s`. */
  function Breaks(s: string): nat
  {
    if s == [] then 0 else (if s[0] == '\n' then 1 else 0) + Breaks(s[1..])
  }

  lemma {:induction false} BreaksAppend(a: string, b: string)
    ensures Breaks(a + b) == Breaks(a) + Breaks(b)
  {
    if a == [] {
      assert a + b == b;
    } else {
      assert (a + b)[0] == a[0] && (a + b)[1..] == a[1..] + b;
      BreaksAppend(a[1..], b);
    }
  }

  lemma {:induction false} BreaksNone(s: string)
    requires '\n' !in s
    ensures Breaks(s) == 0
  {
    if s != [] {
      assert s[0] in s;
      BreaksNone(s[1..]);
    }
  }

  /** The lines a node takes up: one for a text node or an element without
      children, otherwise an opening line, the children's lines and a closing line. */
  function Lines(v: VNode): nat
    decreases v
  {
    if v.nodeType == TextElement || v.children == [] then 1 else 2 + LinesOf(v.children)
  }

  function LinesOf(cs: seq<VNode>): nat
    decreases cs
  {
    if cs == [] then 0 else Lines(cs[0]) + LinesOf(cs[1..])
  }

  /** No type, shown value, property name or property value in the tree holds a line break. */
  predicate NoBreaks(v: VNode)
    decreases v
  {
    '\n' !in v.nodeType &&
    (v.nodeType == TextElement ==> '\n' !in Shown(v.value)) &&
    (forall i :: 0 <= i < |v.props| ==> '\n' !in v.props[i].0 && '\n' !in v.props[i].1) &&
    forall i :: 0 <= i < |v.children| ==> NoBreaks(v.children[i])
  }

  lemma {:induction false} AttributesNoBreaks(props: Props)
    requires forall i :: 0 <= i < |props| ==> '\n' !in props[i].0 && '\n' !in props[i].1
    ensures '\n' !in Attributes(props)
  {
    if props != [] {
      AttributesNoBreaks(props[1..]);
    }
  }

  /** Without line breaks in the tree's strings, the printed text has exactly one
      line break per line `Lines` counts. */
  lemma {:induction false} PrintLines(v: VNode, indent: nat)
    requires NoBreaks(v)
    ensures Breaks(PrintNode(v, indent)) == Lines(v)
    decreases v, 2
  {
    if v.nodeType == TextElement {
      BreaksNone(Spacing(indent));
      BreaksNone(Shown(v.value));
      BreaksQuoted(Spacing(indent), Shown(v.value));
    } else {
      PrintElementLines(v, indent);
    }
  }

  lemma {:induction false} PrintElementLines(v: VNode, indent: nat)
    requires NoBreaks(v) && v.nodeType != TextElement
    ensures Breaks(PrintNode(v, indent)) == Lines(v)
    decreases v, 1
  {
    var spacing := Spacing(indent);
    var attributes := Attributes(v.props);
    var open := spacing + "<" + v.nodeType + attributes + ">";
    assert Breaks(spacing) == 0 && Breaks(v.nodeType) == 0 by {
      BreaksNone(spacing);
      BreaksNone(v.nodeType);
    }
    assert Breaks(open) == 0 by {
      AttributesNoBreaks(v.props);
      BreaksNone(attributes);
      BreaksOpen(spacing, v.nodeType, attributes);
    }
    if |v.children| > 0 {
      var inner := PrintChildren(v.children, indent + 1);
      assert Breaks(inner) == LinesOf(v.children) by {
        PrintChildrenLines(v.children, indent + 1);
      }
      assert PrintNode(v, indent) == open + "\n" + inner + spacing + "</" + v.nodeType + ">\n";
      BreaksParent(open, inner, spacing, v.nodeType);
    } else {
      assert PrintNode(v, indent) == open + "</" + v.nodeType + ">\n";
      BreaksLeaf(open, v.nodeType);
    }
  }

  lemma BreaksQuoted(spacing: string, value: string)
    ensures Breaks(spacing + "\"" + value + "\"\n") == Breaks(spacing) + Breaks(value) + 1
  {
    assert Breaks("\"") == 0 && Breaks("\"\n") == 1;
    BreaksAppend(spacing, "\"");
    BreaksAppend(spacing + "\"", value);
    BreaksAppend(spacing + "\"" + value, "\"\n");
  }

  lemma BreaksOpen(spacing: string, nodeType: string, attributes: string)
    ensures Breaks(spacing + "<" + nodeType + attributes + ">") == Breaks(spacing) + Breaks(nodeType) + Breaks(attributes)
  {
    assert Breaks("<") == 0 && Breaks(">") == 0;
    BreaksAppend(spacing, "<");
    BreaksAppend(spacing + "<", nodeType);
    BreaksAppend(spacing + "<" + nodeType, attributes);
    BreaksAppend(spacing + "<" + nodeType + attributes, ">");
  }

  lemma BreaksParent(open: string, inner: string, spacing: string, nodeType: string)
    ensures Breaks(open + "\n" + inner + spacing + "</" + nodeType + ">\n") ==
            Breaks(open) + Breaks(inner) + Breaks(spacing) + Breaks(nodeType) + 2
  {
    assert Breaks("\n") == 1 && Breaks("</") == 0 && Breaks(">\n") == 1;
    BreaksAppend(open, "\n");
    BreaksAppend(open + "\n", inner);
    BreaksAppend(open + "\n" + inner, spacing);
    BreaksAppend(open + "\n" + inner + spacing, "</");
    BreaksAppend(open + "\n" + inner + spacing + "</", nodeType);
    BreaksAppend(open + "\n" + inner + spacing + "</" + nodeType, ">\n");
  }

  lemma BreaksLeaf(open: string, nodeType: string)
    ensures Breaks(open + "</" + nodeType + ">\n") == Breaks(open) + Breaks(nodeType) + 1
  {
    assert Breaks("</") == 0 && Breaks(">\n") == 1;
    BreaksAppend(open, "</");
    BreaksAppend(open + "</", nodeType);
    BreaksAppend(open + "</" + nodeType, ">\n");
  }

  lemma {:induction false} PrintChildrenLines(cs: seq<VNode>, indent: nat)
    requires forall i :: 0 <= i < |cs| ==> NoBreaks(cs[i])
    ensures Breaks(PrintChildren(cs, indent)) == LinesOf(cs)
    decreases cs, 0
  {
    if cs != [] {
      PrintLines(cs[0], indent);
      PrintChildrenLines(cs[1..], indent);
      BreaksAppend(PrintNode(cs[0], indent), PrintChildren(cs[1..], indent));
    }
  }

  lemma {:induction false} AttributesAppend(a: Props, b: Props)
    ensures Attributes(a + b) == Attributes(a) + Attributes(b)
  {
    if a == [] {
      assert a + b == b;
    } else {
      assert (a + b)[0] == a[0] && (a + b)[1..] == a[1..] + b;
      AttributesAppend(a[1..], b);
    }
  }

  /** A `children` entry among the props does not show in the tag. */
  lemma ChildrenPropHidden(v: string, rest: Props)
    ensures Attributes([("children", v)] + rest) == Attributes(rest)
  {
    assert ([("children", v)] + rest)[1..] == rest;
  }

  /** A `className` entry shows as a `class` attribute. */
  lemma ClassNameShownAsClass(v: string, rest: Props)
    ensures Attributes([("className", v)] + rest) == " class=\"" + v + "\"" + Attributes(rest)
  {
    assert ([("className", v)] + rest)[1..] == rest;
    assert " " + "class" + "=\"" == " class=\"";
  }
}
