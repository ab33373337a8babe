/** The demo application of coreConcepts/VirtualDOM/Interactive/virtualdom.js: the tree
    edits behind its "update" and "remove" buttons, and the application state that
    snapshots the tree, edits it and diffs the result against the snapshot. */
module VirtualDomApp {
  import opened Common
  import opened VirtualDom
  import opened VirtualDomDiff

  /** The ids of a tree in preorder, the order in which both tree edits visit nodes. */
  function Ids(v: VNode): (r: seq<string>)
    ensures |r| > 0 && r[0] == v.id
    decreases v
  {
    [v.id] + IdsOf(v.children)
  }

  function IdsOf(cs: seq<VNode>): seq<string>
    decreases cs
  {
    if cs == [] then [] else Ids(cs[0]) + IdsOf(cs[1..])
  }

  /** `IdsOf` of a list whose first node is `c`. */
  lemma IdsOfCons(c: VNode, cs: seq<VNode>)
    ensures IdsOf([c] + cs) == Ids(c) + IdsOf(cs)
  {
    assert ([c] + cs)[0] == c && ([c] + cs)[1..] == cs;
  }

  lemma {:induction false} IdsOfAppend(a: seq<VNode>, b: seq<VNode>)
    ensures IdsOf(a + b) == IdsOf(a) + IdsOf(b)
  {
    if a == [] {
      assert a + b == b;
    } else {
      assert a + b == [a[0]] + (a[1..] + b);
      IdsOfCons(a[0], a[1..] + b);
      IdsOfAppend(a[1..], b);
    }
  }

  /** Putting a node with the same preorder ids at position `i` keeps the ids. */
  lemma {:induction false} IdsOfUpdate(cs: seq<VNode>, i: nat, x: VNode)
    requires i < |cs| && Ids(x) == Ids(cs[i])
    ensures IdsOf(cs[i := x]) == IdsOf(cs)
  {
    if i > 0 {
      IdsOfUpdate(cs[1..], i - 1, x);
      assert cs[i := x][1..] == cs[1..][i - 1 := x];
    }
  }

  /** `before` is `pre + sub + post`, where `sub` starts with the first occurrence of
      `id`, and `after` is `pre + replacement + post`: the run `sub` gave way to
      `replacement` and nothing around it moved. */
  predicate Splice(before: seq<string>, after: seq<string>, id: string,
                   pre: seq<string>, sub: seq<string>, post: seq<string>, replacement: seq<string>)
  {
    sub != [] && sub[0] == id && id !in pre &&
    before == pre + sub + post && after == pre + replacement + post
  }

  lemma SpliceWhole(before: seq<string>, replacement: seq<string>)
    requires before != []
    ensures Splice(before, replacement, before[0], [], before, [], replacement)
  {
    assert [] + before + [] == before;
    assert [] + replacement + [] == replacement;
  }

  /** A splice survives putting the same prefix, free of the id, before both sides. */
  lemma SplicePrefix(p: seq<string>, before: seq<string>, after: seq<string>, id: string,
                     pre: seq<string>, sub: seq<string>, post: seq<string>, replacement: seq<string>)
    requires Splice(before, after, id, pre, sub, post, replacement) && id !in p
    ensures Splice(p + before, p + after, id, p + pre, sub, post, replacement)
  {
    assert p + (pre + sub + post) == (p + pre) + sub + post;
    assert p + (pre + replacement + post) == (p + pre) + replacement + post;
  }

  /** A splice survives putting the same suffix after both sides. */
  lemma SpliceSuffix(q: seq<string>, before: seq<string>, after: seq<string>, id: string,
                     pre: seq<string>, sub: seq<string>, post: seq<string>, replacement: seq<string>)
    requires Splice(before, after, id, pre, sub, post, replacement)
    ensures Splice(before + q, after + q, id, pre, sub, post + q, replacement)
  {
    assert (pre + sub + post) + q == pre + sub + (post + q);
    assert (pre + replacement + post) + q == pre + replacement + (post + q);
  }

  /** The first node in preorder with the id. */
  function Find(v: VNode, id: string): (r: Option<VNode>)
    ensures r.Some? <==> id in Ids(v)
    ensures r.Some? ==> r.value.id == id
    decreases v
  {
    if v.id == id then Some(v) else FindIn(v.children, id)
  }

  function FindIn(cs: seq<VNode>, id: string): (r: Option<VNode>)
    ensures r.Some? <==> id in IdsOf(cs)
    ensures r.Some? ==> r.value.id == id
    decreases cs
  {
    if cs == [] then None
    else if Find(cs[0], id).Some? then Find(cs[0], id)
    else FindIn(cs[1..], id)
  }

  /** `children.find(c => c.type === "TEXT_ELEMENT")`, as a position. */
  function FirstText(cs: seq<VNode>): (r: Option<nat>)
    ensures r.Some? ==> r.value < |cs| && cs[r.value].nodeType == TextElement &&
                        forall j :: 0 <= j < r.value ==> cs[j].nodeType != TextElement
    ensures r.None? ==> forall j :: 0 <= j < |cs| ==> cs[j].nodeType != TextElement
  {
    if cs == [] then None
    else if cs[0].nodeType == TextElement then Some(0)
    else
      var r := FirstText(cs[1..]);
      assert forall j :: 1 <= j < |cs| ==> cs[1..][j - 1] == cs[j];
      if r.Some? then Some(r.value + 1) else None
  }

  /** A non-empty new text on an element: the first text child gets it, or, with no
      text child, a new text node with the supplied id is appended. */
  function Retexted(cs: seq<VNode>, text: string, newId: string): seq<VNode>
  {
    var first := FirstText(cs);
    if first.Some? then cs[first.value := cs[first.value].(value := Some(text))]
    else cs + [CreateTextElement(text, newId)]
  }

  /** Either way the first text child then holds the text; an existing one is the only
      child that changes, and otherwise the new node is the last child. */
  lemma RetextedFirstText(cs: seq<VNode>, text: string, newId: string)
    ensures var r := Retexted(cs, text, newId);
            FirstText(r).Some? && r[FirstText(r).value].value == Some(text) &&
            (FirstText(cs).Some? ==>
               |r| == |cs| && FirstText(r) == FirstText(cs) &&
               forall j :: 0 <= j < |cs| && j != FirstText(cs).value ==> r[j] == cs[j]) &&
            (FirstText(cs).None? ==> r == cs + [CreateTextElement(text, newId)])
  {
    var r := Retexted(cs, text, newId);
    var first := FirstText(cs);
    if first.Some? {
      var i := first.value;
      assert forall j :: 0 <= j < |cs| ==> r[j].nodeType == cs[j].nodeType;
      assert r[i].nodeType == TextElement;
    } else {
      assert forall j :: 0 <= j < |cs| ==> r[j] == cs[j];
      assert r[|cs|].nodeType == TextElement;
    }
  }

  /** `props.name = value`: an existing entry keeps its place, a new one goes last. */
  function SetProp(props: Props, name: string, value: string): Props
  {
    if props == [] then [(name, value)]
    else if props[0].0 == name then [(name, value)] + props[1..]
    else [props[0]] + SetProp(props[1..], name, value)
  }

  /** After the assignment the name reads as the value and every other name reads as
      before; names stay distinct. */
  lemma SetPropLookup(props: Props, name: string, value: string)
    ensures var r := SetProp(props, name, value);
            Lookup(r, name) == Some(value) &&
            (forall k :: k != name ==> Lookup(r, k) == Lookup(props, k)) &&
            (DistinctNames(props) ==> DistinctNames(r))
  {
    SetPropReads(props, name, value);
    forall k | k != name
      ensures Lookup(SetProp(props, name, value), k) == Lookup(props, k)
    {
      SetPropKeeps(props, name, value, k);
    }
    if DistinctNames(props) {
      SetPropDistinct(props, name, value);
    }
  }

  lemma {:induction false} SetPropReads(props: Props, name: string, value: string)
    ensures Lookup(SetProp(props, name, value), name) == Some(value)
  {
    if props != [] && props[0].0 != name {
      var rest := SetProp(props[1..], name, value);
      SetPropReads(props[1..], name, value);
      assert ([props[0]] + rest)[1..] == rest;
    }
  }

  lemma {:induction false} SetPropKeeps(props: Props, name: string, value: string, k: string)
    requires k != name
    ensures Lookup(SetProp(props, name, value), k) == Lookup(props, k)
  {
    if props == [] {
      assert [(name, value)][1..] == [];
    } else if props[0].0 == name {
      assert ([(name, value)] + props[1..])[1..] == props[1..];
    } else {
      var rest := SetProp(props[1..], name, value);
      SetPropKeeps(props[1..], name, value, k);
      assert ([props[0]] + rest)[1..] == rest;
    }
  }

  lemma {:induction false} SetPropDistinct(props: Props, name: string, value: string)
    requires DistinctNames(props)
    ensures DistinctNames(SetProp(props, name, value))
  {
    var r := SetProp(props, name, value);
    if props == [] {
    } else if props[0].0 == name {
      assert forall i :: 0 <= i < |props| ==> r[i].0 == props[i].0;
    } else {
      var rest := SetProp(props[1..], name, value);
      assert DistinctNames(props[1..]) by {
        assert forall i :: 0 <= i < |props| - 1 ==> props[1..][i] == props[i + 1];
      }
      SetPropDistinct(props[1..], name, value);
      SetPropKeeps(props[1..], name, value, props[0].0);
      assert Lookup(props[1..], props[0].0) == None by {
        assert forall i :: 0 <= i < |props| - 1 ==> props[1..][i].0 == props[i + 1].0;
      }
      assert r == [props[0]] + rest;
      assert forall j :: 0 < j < |r| ==> r[j] == rest[j - 1];
    }
  }

  /** The form fields of one "update": the selected id, the new text and class (empty
      when left blank) and the random id a created text node would get. */
  datatype Edit = Edit(selectId: string, newText: string, newClass: string, newId: string)

  /** What `findAndUpdate` does to the selected node: a text node takes the new text
      unless it is empty; an element gets the new text in a text child and the new
      class as its `className` prop, each only when non-empty. */
  function Edited(v: VNode, e: Edit): (r: VNode)
    ensures r.id == v.id && r.nodeType == v.nodeType
    ensures v.nodeType == TextElement ==>
              r == v.(value := if e.newText != "" then Some(e.newText) else v.value)
  {
    if v.nodeType == TextElement then v.(value := if e.newText != "" then Some(e.newText) else v.value)
    else
      var children := if e.newText != "" then Retexted(v.children, e.newText, e.newId) else v.children;
      var props := if e.newClass != "" then SetProp(v.props, "className", e.newClass) else v.props;
      v.(children := children, props := props)
  }

  /** On an element: a blank field leaves its part alone; a new text ends up in the
      first text child; a new class becomes the `className` prop and no other prop
      changes. */
  lemma EditedElement(v: VNode, e: Edit)
    requires v.nodeType != TextElement
    ensures var r := Edited(v, e);
            r.value == v.value &&
            (e.newText == "" ==> r.children == v.children) &&
            (e.newText != "" ==> FirstText(r.children).Some? &&
                                 r.children[FirstText(r.children).value].value == Some(e.newText)) &&
            (e.newClass == "" ==> r.props == v.props) &&
            (e.newClass != "" ==>
               Lookup(r.props, "className") == Some(e.newClass) &&
               forall k :: k != "className" ==> Lookup(r.props, k) == Lookup(v.props, k))
  {
    RetextedFirstText(v.children, e.newText, e.newId);
    SetPropLookup(v.props, "className", e.newClass);
  }

  /** The id a node's edit adds: that of a text child it had to create. */
  function AddedIds(v: VNode, e: Edit): seq<string>
  {
    if v.nodeType != TextElement && e.newText != "" && FirstText(v.children).None? then [e.newId] else []
  }

  /** The edited node keeps the ids of its subtree; only a text child that had to be
      created adds its id, last. */
  lemma EditedIds(v: VNode, e: Edit)
    ensures Ids(Edited(v, e)) == Ids(v) + AddedIds(v, e)
  {
    if v.nodeType != TextElement && e.newText != "" {
      var cs := v.children;
      var first := FirstText(cs);
      var r := Edited(v, e);
      assert r.children == Retexted(cs, e.newText, e.newId);
      RetextedFirstText(cs, e.newText, e.newId);
      if first.Some? {
        IdsOfUpdate(cs, first.value, cs[first.value].(value := Some(e.newText)));
      } else {
        var t := CreateTextElement(e.newText, e.newId);
        IdsOfAppend(cs, [t]);
        IdsOfCons(t, []);
        assert IdsOf([t]) == [e.newId];
      }
    }
  }

  /** `findAndUpdate(vNode)` on the tree: the first node in preorder with the id is
      edited; without one the tree is left as it was. Whether it was found is
      `e.selectId in Ids(v)`. */
  function Updated(v: VNode, e: Edit): (r: VNode)
    ensures e.selectId !in Ids(v) ==> r == v
    ensures r.id == v.id
    decreases v
  {
    if v.id == e.selectId then Edited(v, e) else v.(children := UpdatedIn(v.children, e))
  }

  /** The loop over the children: the first child whose subtree holds the id is
      updated and the loop stops there. */
  function UpdatedIn(cs: seq<VNode>, e: Edit): (r: seq<VNode>)
    ensures e.selectId !in IdsOf(cs) ==> r == cs
    decreases cs
  {
    if cs == [] then []
    else if e.selectId in Ids(cs[0]) then [Updated(cs[0], e)] + cs[1..]
    else
      assert cs == [cs[0]] + cs[1..];
      [cs[0]] + UpdatedIn(cs[1..], e)
  }

  /** After the update, the first node with the id is the edited first match. */
  lemma {:induction false} UpdateFindsEdited(v: VNode, e: Edit)
    requires e.selectId in Ids(v)
    ensures Find(Updated(v, e), e.selectId) == Some(Edited(Find(v, e.selectId).value, e))
    decreases v
  {
    if v.id != e.selectId {
      UpdateInFindsEdited(v.children, e);
    }
  }

  lemma {:induction false} UpdateInFindsEdited(cs: seq<VNode>, e: Edit)
    requires e.selectId in IdsOf(cs)
    ensures FindIn(UpdatedIn(cs, e), e.selectId) == Some(Edited(FindIn(cs, e.selectId).value, e))
    decreases cs
  {
    if e.selectId in Ids(cs[0]) {
      var c := Updated(cs[0], e);
      UpdateFindsEdited(cs[0], e);
      assert ([c] + cs[1..])[0] == c;
    } else {
      var rest := UpdatedIn(cs[1..], e);
      UpdateInFindsEdited(cs[1..], e);
      assert ([cs[0]] + rest)[0] == cs[0] && ([cs[0]] + rest)[1..] == rest;
    }
  }

  /** Only the first match's subtree changes: in preorder, the ids of the first node
      with the id and its subtree give way to those of the edited node, and the ids
      before them (`pre`, free of the id) and after them (`post`) stay as they were. */
  lemma {:induction false} UpdatedIds(v: VNode, e: Edit) returns (pre: seq<string>, post: seq<string>)
    requires e.selectId in Ids(v)
    ensures var m := Find(v, e.selectId).value;
            Splice(Ids(v), Ids(Updated(v, e)), e.selectId, pre, Ids(m), post, Ids(Edited(m, e)))
    decreases v, 2
  {
    if v.id == e.selectId {
      pre, post := [], [];
      SpliceWhole(Ids(v), Ids(Edited(v, e)));
    } else {
      var cs := v.children;
      var pre', post' := UpdatedInIds(cs, e);
      var m := FindIn(cs, e.selectId).value;
      assert Find(v, e.selectId).value == m;
      assert Ids(Updated(v, e)) == [v.id] + IdsOf(UpdatedIn(cs, e));
      SplicePrefix([v.id], IdsOf(cs), IdsOf(UpdatedIn(cs, e)), e.selectId, pre', Ids(m), post', Ids(Edited(m, e)));
      pre, post := [v.id] + pre', post';
    }
  }

  lemma {:induction false} UpdatedInIds(cs: seq<VNode>, e: Edit) returns (pre: seq<string>, post: seq<string>)
    requires e.selectId in IdsOf(cs)
    ensures var m := FindIn(cs, e.selectId).value;
            Splice(IdsOf(cs), IdsOf(UpdatedIn(cs, e)), e.selectId, pre, Ids(m), post, Ids(Edited(m, e)))
    decreases cs, 1
  {
    if e.selectId in Ids(cs[0]) {
      pre, post := UpdatedHeadIds(cs, e);
    } else {
      pre, post := UpdatedLaterIds(cs, e);
    }
  }

  /** The id lies in the first node's subtree. */
  lemma {:induction false} UpdatedHeadIds(cs: seq<VNode>, e: Edit) returns (pre: seq<string>, post: seq<string>)
    requires cs != [] && e.selectId in Ids(cs[0])
    ensures var m := FindIn(cs, e.selectId).value;
            Splice(IdsOf(cs), IdsOf(UpdatedIn(cs, e)), e.selectId, pre, Ids(m), post, Ids(Edited(m, e)))
    decreases cs, 0
  {
    var head, rest := Ids(cs[0]), IdsOf(cs[1..]);
    var u := Updated(cs[0], e);
    var pre', post' := UpdatedIds(cs[0], e);
    var m := FindIn(cs, e.selectId).value;
    assert Find(cs[0], e.selectId).value == m by {
      FindInHead(cs, e.selectId);
    }
    assert IdsOf(cs) == head + rest by {
      IdsOfSplit(cs);
    }
    assert IdsOf(UpdatedIn(cs, e)) == Ids(u) + rest by {
      UpdatedInHead(cs, e);
      IdsOfCons(u, cs[1..]);
    }
    SpliceSuffix(rest, head, Ids(u), e.selectId, pre', Ids(m), post', Ids(Edited(m, e)));
    pre, post := pre', post' + rest;
  }

  /** The id lies in a later node's subtree. */
  lemma {:induction false} UpdatedLaterIds(cs: seq<VNode>, e: Edit) returns (pre: seq<string>, post: seq<string>)
    requires cs != [] && e.selectId !in Ids(cs[0]) && e.selectId in IdsOf(cs)
    ensures var m := FindIn(cs, e.selectId).value;
            Splice(IdsOf(cs), IdsOf(UpdatedIn(cs, e)), e.selectId, pre, Ids(m), post, Ids(Edited(m, e)))
    decreases cs, 0
  {
    var head, rest := Ids(cs[0]), IdsOf(cs[1..]);
    assert IdsOf(cs) == head + rest by {
      IdsOfSplit(cs);
    }
    var later := UpdatedIn(cs[1..], e);
    var pre', post' := UpdatedInIds(cs[1..], e);
    var m := FindIn(cs, e.selectId).value;
    assert FindIn(cs[1..], e.selectId).value == m by {
      FindInPast(cs, e.selectId);
    }
    assert IdsOf(UpdatedIn(cs, e)) == head + IdsOf(later) by {
      UpdatedInPast(cs, e);
      IdsOfCons(cs[0], later);
    }
    SplicePrefix(head, rest, IdsOf(later), e.selectId, pre', Ids(m), post', Ids(Edited(m, e)));
    pre, post := head + pre', post';
  }

  lemma IdsOfSplit(cs: seq<VNode>)
    requires cs != []
    ensures IdsOf(cs) == Ids(cs[0]) + IdsOf(cs[1..])
  {
  }

  lemma FindInHead(cs: seq<VNode>, id: string)
    requires cs != [] && id in Ids(cs[0])
    ensures FindIn(cs, id) == Find(cs[0], id)
  {
  }

  lemma FindInPast(cs: seq<VNode>, id: string)
    requires cs != [] && id !in Ids(cs[0])
    ensures FindIn(cs, id) == FindIn(cs[1..], id)
  {
  }

  lemma UpdatedInHead(t: seq<VNode>, e: Edit)
    requires t != [] && e.selectId in Ids(t[0])
    ensures UpdatedIn(t, e) == [Updated(t[0], e)] + t[1..]
  {
  }

  /** The preorder ids of a suffix: those of its first node, then those of the rest. */
  lemma IdsOfFrom(cs: seq<VNode>, i: nat)
    requires i < |cs|
    ensures IdsOf(cs[i..]) == Ids(cs[i]) + IdsOf(cs[i + 1..])
  {
    assert cs[i..] == [cs[i]] + cs[i + 1..];
    IdsOfCons(cs[i], cs[i + 1..]);
  }

  /** The suffix from `i` starts with `cs[i]` and goes on with the suffix from `i + 1`. */
  lemma SuffixSplit(cs: seq<VNode>, i: nat)
    requires i < |cs|
    ensures cs[i..] != [] && cs[i..][0] == cs[i] && cs[i..][1..] == cs[i + 1..]
    ensures cs[..i + 1] == cs[..i] + [cs[i]]
  {
  }

  /** One round of the loop over the children that reaches the match, seen from the
      whole list. */
  lemma UpdatedAtStep(cs: seq<VNode>, i: nat, e: Edit)
    requires i < |cs| && e.selectId in Ids(cs[i])
    ensures cs[..i] + UpdatedIn(cs[i..], e) == cs[..i] + [Updated(cs[i], e)] + cs[i + 1..]
  {
    SuffixSplit(cs, i);
    assert UpdatedIn(cs[i..], e) == [Updated(cs[i], e)] + cs[i + 1..];
  }

  /** Moving a node across the seam of a concatenation. */
  lemma ConsRegroup(p: seq<VNode>, x: VNode, q: seq<VNode>)
    ensures p + ([x] + q) == (p + [x]) + q
  {
  }

  lemma UpdatedInPast(t: seq<VNode>, e: Edit)
    requires t != [] && e.selectId !in Ids(t[0])
    ensures UpdatedIn(t, e) == [t[0]] + UpdatedIn(t[1..], e)
  {
  }

  /** One round of the loop over the children that goes past a child without the id. */
  lemma UpdatedPastStep(cs: seq<VNode>, i: nat, e: Edit)
    requires i < |cs| && e.selectId !in Ids(cs[i])
    ensures cs[..i] + UpdatedIn(cs[i..], e) == cs[..i + 1] + UpdatedIn(cs[i + 1..], e)
  {
    SuffixSplit(cs, i);
    UpdatedInPast(cs[i..], e);
    ConsRegroup(cs[..i], cs[i], UpdatedIn(cs[i + 1..], e));
  }

  /** `findAndUpdate`, as the closure runs it: the node itself, then a loop over its
      children that stops at the first child whose subtree held the id. */
  method FindAndUpdate(v: VNode, e: Edit) returns (found: bool, r: VNode)
    ensures found <==> e.selectId in Ids(v)
    ensures r == Updated(v, e)
    decreases v
  {
    if v.id == e.selectId {
      return true, Edited(v, e);
    }
    var cs := v.children;
    var i := 0;
    assert cs[..0] + UpdatedIn(cs[0..], e) == UpdatedIn(cs, e);
    while i < |cs|
      invariant 0 <= i <= |cs|
      invariant e.selectId in IdsOf(cs) <==> e.selectId in IdsOf(cs[i..])
      invariant UpdatedIn(cs, e) == cs[..i] + UpdatedIn(cs[i..], e)
    {
      IdsOfFrom(cs, i);
      var childFound, child := FindAndUpdate(cs[i], e);
      if childFound {
        UpdatedAtStep(cs, i, e);
        return true, v.(children := cs[..i] + [child] + cs[i + 1..]);
      }
      UpdatedPastStep(cs, i, e);
      i := i + 1;
    }
    assert cs[..i] == cs;
    return false, v;
  }

  /** `removeNode` over a children array: the first child in order that has the id is
      spliced out, or else the first one whose subtree holds it is searched inside;
      whether it was found is `selectId in IdsOf(cs)`. */
  function RemovedIn(cs: seq<VNode>, selectId: string): (r: seq<VNode>)
    ensures selectId !in IdsOf(cs) ==> r == cs
    decreases cs
  {
    if cs == [] then []
    else if cs[0].id == selectId then cs[1..]
    else if selectId in IdsOf(cs[0].children) then
      assert selectId in Ids(cs[0]);
      [cs[0].(children := RemovedIn(cs[0].children, selectId))] + cs[1..]
    else
      assert cs == [cs[0]] + cs[1..];
      [cs[0]] + RemovedIn(cs[1..], selectId)
  }

  /** `removeNode(rootVDOM, [rootVDOM])`: a root with the id is spliced out of the
      throw-away array, so the tree stays as it was; otherwise the first match below
      it is removed. */
  function RemovedFromRoot(root: VNode, selectId: string): (r: VNode)
    ensures root.id == selectId || selectId !in Ids(root) ==> r == root
    ensures r.id == root.id && r.nodeType == root.nodeType && r.props == root.props
  {
    if root.id == selectId then root else root.(children := RemovedIn(root.children, selectId))
  }

  /** Exactly the first match's subtree goes: in preorder, the ids of the first node
      with the id and its subtree disappear, and the ids before them (`pre`, free of
      the id) and after them (`post`) stay as they were. */
  lemma {:induction false} RemovedIds(cs: seq<VNode>, selectId: string) returns (pre: seq<string>, post: seq<string>)
    requires selectId in IdsOf(cs)
    ensures var m := FindIn(cs, selectId).value;
            Splice(IdsOf(cs), IdsOf(RemovedIn(cs, selectId)), selectId, pre, Ids(m), post, [])
    decreases cs, 1
  {
    if cs[0].id == selectId {
      pre, post := RemovedHeadIds(cs, selectId);
    } else if selectId in IdsOf(cs[0].children) {
      pre, post := RemovedInsideIds(cs, selectId);
    } else {
      pre, post := RemovedLaterIds(cs, selectId);
    }
  }

  /** The first node has the id. */
  lemma RemovedHeadIds(cs: seq<VNode>, selectId: string) returns (pre: seq<string>, post: seq<string>)
    requires cs != [] && cs[0].id == selectId
    ensures var m := FindIn(cs, selectId).value;
            Splice(IdsOf(cs), IdsOf(RemovedIn(cs, selectId)), selectId, pre, Ids(m), post, [])
  {
    var head, rest := Ids(cs[0]), IdsOf(cs[1..]);
    assert FindIn(cs, selectId).value == cs[0];
    assert RemovedIn(cs, selectId) == cs[1..];
    assert IdsOf(cs) == head + rest by {
      IdsOfSplit(cs);
    }
    SpliceWhole(head, []);
    SpliceSuffix(rest, head, [], selectId, [], head, [], []);
    assert [] + rest == rest;
    pre, post := [], [] + rest;
  }

  /** The id lies strictly inside the first node's subtree. */
  lemma {:induction false} RemovedInsideIds(cs: seq<VNode>, selectId: string) returns (pre: seq<string>, post: seq<string>)
    requires cs != [] && cs[0].id != selectId && selectId in IdsOf(cs[0].children)
    ensures var m := FindIn(cs, selectId).value;
            Splice(IdsOf(cs), IdsOf(RemovedIn(cs, selectId)), selectId, pre, Ids(m), post, [])
    decreases cs, 0
  {
    var head, rest, ch := Ids(cs[0]), IdsOf(cs[1..]), IdsOf(cs[0].children);
    var c := cs[0].(children := RemovedIn(cs[0].children, selectId));
    var pre', post' := RemovedIds(cs[0].children, selectId);
    var m := FindIn(cs, selectId).value;
    assert FindIn(cs[0].children, selectId).value == m by {
      assert selectId in head;
      FindInHead(cs, selectId);
    }
    assert IdsOf(cs) == head + rest by {
      IdsOfSplit(cs);
    }
    assert IdsOf(RemovedIn(cs, selectId)) == Ids(c) + rest by {
      RemovedInInside(cs, selectId);
      IdsOfCons(c, cs[1..]);
    }
    SplicePrefix([cs[0].id], ch, IdsOf(c.children), selectId, pre', Ids(m), post', []);
    SpliceSuffix(rest, head, Ids(c), selectId, [cs[0].id] + pre', Ids(m), post', []);
    pre, post := [cs[0].id] + pre', post' + rest;
  }

  /** The id lies in a later node's subtree. */
  lemma {:induction false} RemovedLaterIds(cs: seq<VNode>, selectId: string) returns (pre: seq<string>, post: seq<string>)
    requires cs != [] && cs[0].id != selectId && selectId !in IdsOf(cs[0].children) && selectId in IdsOf(cs)
    ensures var m := FindIn(cs, selectId).value;
            Splice(IdsOf(cs), IdsOf(RemovedIn(cs, selectId)), selectId, pre, Ids(m), post, [])
    decreases cs, 0
  {
    var head, rest := Ids(cs[0]), IdsOf(cs[1..]);
    assert selectId !in head;
    assert IdsOf(cs) == head + rest by {
      IdsOfSplit(cs);
    }
    var later := RemovedIn(cs[1..], selectId);
    var pre', post' := RemovedIds(cs[1..], selectId);
    var m := FindIn(cs, selectId).value;
    assert FindIn(cs[1..], selectId).value == m by {
      FindInPast(cs, selectId);
    }
    assert IdsOf(RemovedIn(cs, selectId)) == head + IdsOf(later) by {
      RemovedInPast(cs, selectId);
      IdsOfCons(cs[0], later);
    }
    SplicePrefix(head, rest, IdsOf(later), selectId, pre', Ids(m), post', []);
    pre, post := head + pre', post';
  }

  lemma RemovedInInside(t: seq<VNode>, selectId: string)
    requires t != [] && t[0].id != selectId && selectId in IdsOf(t[0].children)
    ensures RemovedIn(t, selectId) == [t[0].(children := RemovedIn(t[0].children, selectId))] + t[1..]
  {
  }

  /** One round of the loop over a children array that reaches a child with the id. */
  lemma RemovedAtStep(cs: seq<VNode>, i: nat, selectId: string)
    requires i < |cs| && cs[i].id == selectId
    ensures cs[..i] + RemovedIn(cs[i..], selectId) == cs[..i] + cs[i + 1..]
  {
    SuffixSplit(cs, i);
    assert RemovedIn(cs[i..], selectId) == cs[i + 1..];
  }

  /** One round of the loop over a children array that finds the id inside a child. */
  lemma RemovedInsideStep(cs: seq<VNode>, i: nat, selectId: string)
    requires i < |cs| && cs[i].id != selectId && selectId in IdsOf(cs[i].children)
    ensures cs[..i] + RemovedIn(cs[i..], selectId) ==
            cs[..i] + [cs[i].(children := RemovedIn(cs[i].children, selectId))] + cs[i + 1..]
  {
    SuffixSplit(cs, i);
    assert RemovedIn(cs[i..], selectId) == [cs[i].(children := RemovedIn(cs[i].children, selectId))] + cs[i + 1..];
  }

  /** One round of the loop over a children array that goes past a child without the id. */
  lemma RemovedPastStep(cs: seq<VNode>, i: nat, selectId: string)
    requires i < |cs| && cs[i].id != selectId && selectId !in IdsOf(cs[i].children)
    ensures cs[..i] + RemovedIn(cs[i..], selectId) == cs[..i + 1] + RemovedIn(cs[i + 1..], selectId)
  {
    SuffixSplit(cs, i);
    RemovedInPast(cs[i..], selectId);
    ConsRegroup(cs[..i], cs[i], RemovedIn(cs[i + 1..], selectId));
  }

  lemma RemovedInPast(t: seq<VNode>, selectId: string)
    requires t != [] && t[0].id != selectId && selectId !in IdsOf(t[0].children)
    ensures RemovedIn(t, selectId) == [t[0]] + RemovedIn(t[1..], selectId)
  {
  }

  /** `removeNode` over a children array, as the closure runs it: a loop over the
      children that stops at the first child with the id, or the first child whose
      subtree held it. */
  method RemoveNode(cs: seq<VNode>, selectId: string) returns (found: bool, r: seq<VNode>)
    ensures found <==> selectId in IdsOf(cs)
    ensures r == RemovedIn(cs, selectId)
    decreases cs
  {
    var i := 0;
    assert cs[..0] + RemovedIn(cs[0..], selectId) == RemovedIn(cs, selectId);
    while i < |cs|
      invariant 0 <= i <= |cs|
      invariant selectId in IdsOf(cs) <==> selectId in IdsOf(cs[i..])
      invariant RemovedIn(cs, selectId) == cs[..i] + RemovedIn(cs[i..], selectId)
    {
      IdsOfFrom(cs, i);
      assert Ids(cs[i]) == [cs[i].id] + IdsOf(cs[i].children);
      if cs[i].id == selectId {
        RemovedAtStep(cs, i, selectId);
        return true, cs[..i] + cs[i + 1..];
      }
      var innerFound, inner := RemoveNode(cs[i].children, selectId);
      if innerFound {
        RemovedInsideStep(cs, i, selectId);
        return true, cs[..i] + [cs[i].(children := inner)] + cs[i + 1..];
      }
      RemovedPastStep(cs, i, selectId);
      i := i + 1;
    }
    assert cs[..i] == cs;
    return false, cs;
  }

  /** The application state: the current tree and the snapshot taken before the last
      edit. Each edit returns the DOM operations of diffing the new tree against the
      snapshot under the page's container. */
  class App {
    var rootVDOM: VNode
    var prevVDOM: Option<VNode>

    /** The root is a `div` with id `app-root` and no children; `rootId` is its random id. */
    constructor (rootId: string)
      ensures rootVDOM == VNode("div", [("id", "app-root")], [], None, rootId) && prevVDOM == None
    {
      rootVDOM := CreateElement("div", [("id", "app-root")], [], _ => rootId);
      prevVDOM := None;
    }

    /** `addElement`: a new element of `nodeType` with one text child and, when the class
        is non-empty, a `className` prop, pushed onto the root's children; `ids` supplies
        its random ids. On a clean tree the diff appends just that element. */
    method AddElement(nodeType: string, text: string, className: string, ids: nat -> string)
      returns (element: VNode, patches: seq<Patch>)
      modifies this
      ensures element == CreateElement(nodeType, if className != "" then [("className", className)] else [],
                                        [Single(Prim(text))], ids)
      ensures prevVDOM == Some(old(rootVDOM))
      ensures rootVDOM == old(rootVDOM).(children := old(rootVDOM).children + [element])
      ensures patches == Diff([], Some(rootVDOM), prevVDOM, 0)
      ensures old(rootVDOM).nodeType != TextElement && Clean(old(rootVDOM)) ==> patches == [Append([0], element)]
    {
      var props: Props := if className != "" then [("className", className)] else [];
      element := CreateElement(nodeType, props, [Single(Prim(text))], ids);
      var prev := rootVDOM;
      prevVDOM := Some(prev);
      rootVDOM := prev.(children := prev.children + [element]);
      patches := Diff([], Some(rootVDOM), prevVDOM, 0);
      if prev.nodeType != TextElement && Clean(prev) {
        AppendedChildIsOneAppend([], prev, element, 0);
        var container: Path := [];
        assert container + [0] == [0];
      }
    }

    /** `updateElement`: nothing without a selection; otherwise the first node with the
        id is edited and the tree diffed. */
    method UpdateSelected(e: Edit) returns (patches: seq<Patch>)
      modifies this
      ensures e.selectId == "" ==> rootVDOM == old(rootVDOM) && prevVDOM == old(prevVDOM) && patches == []
      ensures e.selectId != "" ==>
                prevVDOM == Some(old(rootVDOM)) &&
                rootVDOM == Updated(old(rootVDOM), e) &&
                patches == Diff([], Some(rootVDOM), prevVDOM, 0)
    {
      if e.selectId == "" {
        return [];
      }
      prevVDOM := Some(rootVDOM);
      var _, updated := FindAndUpdate(rootVDOM, e);
      rootVDOM := updated;
      patches := Diff([], Some(rootVDOM), prevVDOM, 0);
    }

    /** `removeElement`: nothing without a selection; otherwise the first node below the
        root with the id is removed and the tree diffed. The fallback pass over the
        root's children runs only when that search found nothing, and so finds
        nothing either. */
    method RemoveSelected(selectId: string) returns (patches: seq<Patch>)
      modifies this
      ensures selectId == "" ==> rootVDOM == old(rootVDOM) && prevVDOM == old(prevVDOM) && patches == []
      ensures selectId != "" ==>
                prevVDOM == Some(old(rootVDOM)) &&
                rootVDOM == RemovedFromRoot(old(rootVDOM), selectId) &&
                patches == Diff([], Some(rootVDOM), prevVDOM, 0)
    {
      if selectId == "" {
        return [];
      }
      prevVDOM := Some(rootVDOM);
      if rootVDOM.id != selectId {
        var _, children := RemoveNode(rootVDOM.children, selectId);
        rootVDOM := rootVDOM.(children := children);
      }
      patches := Diff([], Some(rootVDOM), prevVDOM, 0);
    }
  }
}
