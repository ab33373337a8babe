/** The decisions `updateElement` takes when it reconciles a new virtual tree with the
    previous one (coreConcepts/VirtualDOM/Interactive/virtualdom.js), written as the
    list of DOM operations it performs, in the order it performs them. */
module VirtualDomDiff {
  import opened Common
  import opened VirtualDom

  /** A DOM position: child indexes from the container down, as `childNodes[index]`
      is taken at each level of the recursion. */
  type Path = seq<nat>

  /** One DOM operation: append a new subtree under `parent`, remove, replace or
      retext the node at `target`, or remove or set one of its attributes. */
  datatype Patch =
    | Append(parent: Path, node: VNode)
    | Remove(target: Path)
    | Replace(target: Path, node: VNode)
    | SetText(target: Path, text: Option<string>)
    | RemoveAttribute(target: Path, name: string)
    | SetAttribute(target: Path, name: string, value: string)

  /** `props[name]`: the value under the first entry with that name, if any. */
  function Lookup(props: Props, name: string): (r: Option<string>)
    ensures r.None? <==> forall i :: 0 <= i < |props| ==> props[i].0 != name
    ensures r.Some? ==> exists i :: 0 <= i < |props| && props[i].0 == name && props[i].1 == r.value
  {
    if props == [] then None
    else if props[0].0 == name then Some(props[0].1)
    else
      var r := Lookup(props[1..], name);
      assert forall i :: 1 <= i < |props| ==> props[1..][i - 1] == props[i];
      r
  }

  /** No property name occurs twice, as in any JavaScript object. */
  predicate DistinctNames(props: Props)
  {
    forall i, j :: 0 <= i < j < |props| ==> props[i].0 != props[j].0
  }

  lemma LookupDistinct(props: Props, i: nat)
    requires DistinctNames(props) && i < |props|
    ensures Lookup(props, props[i].0) == Some(props[i].1)
  {
    var r := Lookup(props, props[i].0);
    var j :| 0 <= j < |props| && props[j].0 == props[i].0 && props[j].1 == r.value;
  }

  /** JavaScript truthiness of a property value: present and not the empty string. */
  predicate Truthy(v: Option<string>)
  {
    v.Some? && v.value != ""
  }

  /** The DOM attribute a property is written to. */
  function AttributeName(name: string): string
  {
    if name == "className" then "class" else name
  }

  /** The first pass over the old props: every old property other than `children`
      whose new value is falsy is removed, in old key order. */
  function Removals(target: Path, oldProps: Props, newProps: Props): (ps: seq<Patch>)
    ensures forall p :: p in ps ==> p.RemoveAttribute? && p.target == target
    ensures forall i :: 0 <= i < |oldProps| && oldProps[i].0 != "children" && !Truthy(Lookup(newProps, oldProps[i].0)) ==>
              RemoveAttribute(target, AttributeName(oldProps[i].0)) in ps
    ensures ps == [] <==> forall i :: 0 <= i < |oldProps| && oldProps[i].0 != "children" ==> Truthy(Lookup(newProps, oldProps[i].0))
  {
    if oldProps == [] then []
    else
      var name := oldProps[0].0;
      var rest := Removals(target, oldProps[1..], newProps);
      assert forall i :: 1 <= i < |oldProps| ==> oldProps[1..][i - 1] == oldProps[i];
      (if name != "children" && !Truthy(Lookup(newProps, name)) then [RemoveAttribute(target, AttributeName(name))] else []) + rest
  }

  /** The second pass over the new props: every new property other than `children`
      whose value differs from the old one (or is new) is set, in new key order. */
  function Sets(target: Path, newProps: Props, oldProps: Props): (ps: seq<Patch>)
    ensures forall p :: p in ps ==> p.SetAttribute? && p.target == target
    ensures forall i :: 0 <= i < |newProps| && newProps[i].0 != "children" && Lookup(oldProps, newProps[i].0) != Some(newProps[i].1) ==>
              SetAttribute(target, AttributeName(newProps[i].0), newProps[i].1) in ps
    ensures ps == [] <==> forall i :: 0 <= i < |newProps| && newProps[i].0 != "children" ==> Lookup(oldProps, newProps[i].0) == Some(newProps[i].1)
  {
    if newProps == [] then []
    else
      var (name, value) := newProps[0];
      var rest := Sets(target, newProps[1..], oldProps);
      assert forall i :: 1 <= i < |newProps| ==> newProps[1..][i - 1] == newProps[i];
      (if name != "children" && Lookup(oldProps, name) != Some(value) then [SetAttribute(target, AttributeName(name), value)] else []) + rest
  }

  /** The number of nodes in a tree, which bounds the recursion. */
  function Size(v: VNode): nat
    decreases v
  {
    1 + SizeOf(v.children)
  }

  function SizeOf(cs: seq<VNode>): nat
    decreases cs
  {
    if cs == [] then 0 else Size(cs[0]) + SizeOf(cs[1..])
  }

  /** `children[i]`, undefined past the end. */
  function ChildAt(cs: seq<VNode>, i: nat): (r: Option<VNode>)
  {
    if i < |cs| then Some(cs[i]) else None
  }

  function OptSize(v: Option<VNode>): nat
  {
    if v.Some? then Size(v.value) else 0
  }

  lemma {:induction false} ChildSize(cs: seq<VNode>, i: nat)
    ensures OptSize(ChildAt(cs, i)) <= SizeOf(cs)
  {
    if i < |cs| && i > 0 {
      ChildSize(cs[1..], i - 1);
      assert cs[1..][i - 1] == cs[i];
    }
  }

  /** The DOM position a patch acts at: the parent for an append, the node itself
      otherwise. */
  function PathOf(p: Patch): Path
  {
    if p.Append? then p.parent else p.target
  }

  /** `updateElement(parent, newVNode, oldVNode, index)`: with no old node the new one
      is appended; with no new node the old one is removed; a change of type replaces
      the node without looking inside; text nodes get their text set when it changed;
      elements get the two property passes and then the same decision for every child
      position up to the longer child list. At least one of the two nodes is given. */
  function Diff(parent: Path, n: Option<VNode>, o: Option<VNode>, index: nat): (r: seq<Patch>)
    requires n.Some? || o.Some?
    ensures forall p :: p in r ==> parent <= PathOf(p)
    ensures o.Some? ==> forall p :: p in r ==> parent + [index] <= PathOf(p)
    ensures r == [] ==> n.Some? && o.Some?
    decreases OptSize(n) + OptSize(o), 0, 0
  {
    if o.None? then [Append(parent, n.value)]
    else if n.None? then [Remove(parent + [index])]
    else
      var nv, ov, target := n.value, o.value, parent + [index];
      if nv.nodeType != ov.nodeType then [Replace(target, nv)]
      else if nv.nodeType == TextElement then (if nv.value != ov.value then [SetText(target, nv.value)] else [])
      else Removals(target, ov.props, nv.props) + Sets(target, nv.props, ov.props) +
           DiffChildren(target, nv.children, ov.children, 0)
  }

  /** The patches for child positions `i` onwards; all of them act inside the element. */
  function DiffChildren(target: Path, ns: seq<VNode>, os: seq<VNode>, i: nat): (r: seq<Patch>)
    ensures forall p :: p in r ==> target <= PathOf(p)
    decreases SizeOf(ns) + SizeOf(os), 1, (if |ns| < |os| then |os| else |ns|) - i
  {
    if i >= |ns| && i >= |os| then []
    else
      ChildSize(ns, i);
      ChildSize(os, i);
      Diff(target, ChildAt(ns, i), ChildAt(os, i), i) + DiffChildren(target, ns, os, i + 1)
  }

  /** Two trees agree when they have the same shape, types, texts and properties
      (`children` entries aside), whatever their ids. */
  ghost predicate Same(n: VNode, o: VNode)
    decreases n
  {
    n.nodeType == o.nodeType &&
    (n.nodeType == TextElement ==> n.value == o.value) &&
    (n.nodeType != TextElement ==>
       SameProps(n.props, o.props) && |n.children| == |o.children| &&
       forall j :: 0 <= j < |n.children| ==> Same(n.children[j], o.children[j]))
  }

  ghost predicate SameProps(np: Props, op: Props)
  {
    forall name :: name != "children" ==> Lookup(np, name) == Lookup(op, name)
  }

  /** Property names are distinct and every value but a `children` one is non-empty,
      throughout the tree. */
  predicate Clean(v: VNode)
    decreases v
  {
    DistinctNames(v.props) &&
    (forall i :: 0 <= i < |v.props| && v.props[i].0 != "children" ==> v.props[i].1 != "") &&
    forall j :: 0 <= j < |v.children| ==> Clean(v.children[j])
  }

  /** No property patch means the properties agree. */
  lemma {:induction false} NoPropPatchesMeansSameProps(target: Path, np: Props, op: Props)
    requires Removals(target, op, np) == [] && Sets(target, np, op) == []
    ensures SameProps(np, op)
  {
    forall name | name != "children"
      ensures Lookup(np, name) == Lookup(op, name)
    {
      var r := Lookup(np, name);
      if r.Some? {
        var i :| 0 <= i < |np| && np[i].0 == name && np[i].1 == r.value;
      }
    }
  }

  /** No operation at all means the trees agree. */
  lemma {:induction false} DiffEmptyMeansSame(parent: Path, n: VNode, o: VNode, index: nat)
    requires Diff(parent, Some(n), Some(o), index) == []
    ensures Same(n, o)
    decreases Size(n) + Size(o), 0, 0
  {
    var target := parent + [index];
    if n.nodeType == o.nodeType && n.nodeType != TextElement {
      var a, b, c := Removals(target, o.props, n.props), Sets(target, n.props, o.props), DiffChildren(target, n.children, o.children, 0);
      assert Diff(parent, Some(n), Some(o), index) == a + b + c;
      assert |a| == 0 && |b| == 0 && |c| == 0;
      NoPropPatchesMeansSameProps(target, n.props, o.props);
      ChildrenEmptyMeansSame(target, n.children, o.children, 0);
    }
  }

  lemma {:induction false} ChildrenEmptyMeansSame(target: Path, ns: seq<VNode>, os: seq<VNode>, i: nat)
    requires DiffChildren(target, ns, os, i) == []
    ensures i < |ns| || i < |os| ==> |ns| == |os|
    ensures forall j :: i <= j < |ns| && j < |os| ==> Same(ns[j], os[j])
    decreases SizeOf(ns) + SizeOf(os), 1, (if |ns| < |os| then |os| else |ns|) - i
  {
    if i < |ns| && i < |os| {
      ChildSize(ns, i);
      ChildSize(os, i);
      var head := Diff(target, Some(ns[i]), Some(os[i]), i);
      assert DiffChildren(target, ns, os, i) == head + DiffChildren(target, ns, os, i + 1);
      ChildrenEmptyMeansSame(target, ns, os, i + 1);
      DiffEmptyMeansSame(target, ns[i], os[i], i);
    }
  }

  /** Agreeing properties, checked against clean new ones, give no property patch. */
  lemma SamePropsNoPatches(target: Path, np: Props, op: Props)
    requires SameProps(np, op) && DistinctNames(np)
    requires forall i :: 0 <= i < |np| && np[i].0 != "children" ==> np[i].1 != ""
    ensures Removals(target, op, np) == [] && Sets(target, np, op) == []
  {
    forall i | 0 <= i < |op| && op[i].0 != "children"
      ensures Truthy(Lookup(np, op[i].0))
    {
      var r := Lookup(op, op[i].0);
      assert r.Some?;
      var k :| 0 <= k < |np| && np[k].0 == op[i].0 && np[k].1 == r.value;
    }
    forall i | 0 <= i < |np| && np[i].0 != "children"
      ensures Lookup(op, np[i].0) == Some(np[i].1)
    {
      LookupDistinct(np, i);
    }
  }

  /** Conversely, agreeing trees give no operation when the new one is clean; so the
      diff is empty exactly when the trees agree. */
  lemma {:induction false} SameMeansDiffEmpty(parent: Path, n: VNode, o: VNode, index: nat)
    requires Same(n, o) && Clean(n)
    ensures Diff(parent, Some(n), Some(o), index) == []
    decreases Size(n) + Size(o), 0, 0
  {
    var target := parent + [index];
    if n.nodeType != TextElement {
      SamePropsNoPatches(target, n.props, o.props);
      SameChildrenNoPatches(target, n.children, o.children, 0);
    }
  }

  lemma {:induction false} SameChildrenNoPatches(target: Path, ns: seq<VNode>, os: seq<VNode>, i: nat)
    requires |ns| == |os| && i <= |ns|
    requires forall j :: 0 <= j < |ns| ==> Same(ns[j], os[j]) && Clean(ns[j])
    ensures DiffChildren(target, ns, os, i) == []
    decreases SizeOf(ns) + SizeOf(os), 1, |ns| - i
  {
    if i < |ns| {
      ChildSize(ns, i);
      ChildSize(os, i);
      SameMeansDiffEmpty(target, ns[i], os[i], i);
      SameChildrenNoPatches(target, ns, os, i + 1);
    }
  }

  /** Every tree agrees with itself, ids included or not. */
  lemma {:induction false} SameReflexive(v: VNode)
    ensures Same(v, v)
    decreases v
  {
    forall j | 0 <= j < |v.children|
      ensures Same(v.children[j], v.children[j])
    {
      SameReflexive(v.children[j]);
    }
  }

  /** The falsy test is why cleanliness is needed: an empty `className` is removed
      again on every diff, even against an identical tree. */
  lemma EmptyClassRemovedAgainstItself()
    ensures var v := VNode("div", [("className", "")], [], None, "x");
            Diff([], Some(v), Some(v), 0) == [RemoveAttribute([0], "class")]
  {
    var v := VNode("div", [("className", "")], [], None, "x");
    var target: Path := [0];
    var root: Path := [];
    assert root + [0] == target;
    assert Lookup(v.props, "className") == Some("");
    assert v.props[1..] == [];
    assert Removals(target, v.props, v.props) == [RemoveAttribute(target, "class")];
    assert Sets(target, v.props, v.props) == [];
    assert DiffChildren(target, [], [], 0) == [];
    assert Diff(root, Some(v), Some(v), 0) ==
           Removals(target, v.props, v.props) + Sets(target, v.props, v.props) + DiffChildren(target, [], [], 0);
  }

  /** What `addElement` triggers: a clean element that gains one child at the end of
      its children is patched by exactly one append of that child. */
  lemma AppendedChildIsOneAppend(parent: Path, v: VNode, child: VNode, index: nat)
    requires v.nodeType != TextElement && Clean(v)
    ensures Diff(parent, Some(v.(children := v.children + [child])), Some(v), index) ==
            [Append(parent + [index], child)]
  {
    var target := parent + [index];
    var grown := v.children + [child];
    SameReflexive(v);
    SamePropsNoPatches(target, v.props, v.props);
    AppendedChildren(target, v.children, child, 0);
  }

  lemma {:induction false} AppendedChildren(target: Path, cs: seq<VNode>, child: VNode, i: nat)
    requires i <= |cs| && forall j :: 0 <= j < |cs| ==> Clean(cs[j])
    ensures DiffChildren(target, cs + [child], cs, i) == [Append(target, child)]
    decreases |cs| - i
  {
    var grown := cs + [child];
    if i == |cs| {
      assert DiffChildren(target, grown, cs, i + 1) == [];
    } else {
      assert grown[i] == cs[i];
      SameReflexive(cs[i]);
      SameMeansDiffEmpty(target, cs[i], cs[i], i);
      AppendedChildren(target, cs, child, i + 1);
    }
  }

  /** Child positions past the end of the old list are appended in order, under the
      element. */
  lemma {:induction false} NewChildrenAppended(target: Path, ns: seq<VNode>, os: seq<VNode>, i: nat)
    requires |os| <= i <= |ns|
    ensures DiffChildren(target, ns, os, i) == seq(|ns| - i, k requires 0 <= k < |ns| - i => Append(target, ns[i + k]))
    decreases |ns| - i
  {
    if i < |ns| {
      NewChildrenAppended(target, ns, os, i + 1);
      assert DiffChildren(target, ns, os, i) == [Append(target, ns[i])] + DiffChildren(target, ns, os, i + 1);
    }
  }

  /** Child positions past the end of the new list are removed, each by its own old
      position. */
  lemma {:induction false} OldChildrenRemoved(target: Path, ns: seq<VNode>, os: seq<VNode>, i: nat)
    requires |ns| <= i <= |os|
    ensures DiffChildren(target, ns, os, i) == seq(|os| - i, k requires 0 <= k < |os| - i => Remove(target + [i + k]))
    decreases |os| - i
  {
    if i < |os| {
      OldChildrenRemoved(target, ns, os, i + 1);
      assert DiffChildren(target, ns, os, i) == [Remove(target + [i])] + DiffChildren(target, ns, os, i + 1);
    }
  }
}
