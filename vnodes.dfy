/**
 * Virtual nodes: the `h`, `hString`, `hFragment` and `hSlot` builders, fragment
 * flattening with `extractChildren`, the node identity `areNodesEqual` used by
 * the keyed children diff, and `extractPropsAndEvents`.
 */
module VNodes {
  import opened Wrappers
  import opened Seqs
  import opened Objects
  import opened Values
  import Arrays

  /** A node of the platform's node store (a DOM node). */
  type NodeId = nat

  /**
   * A virtual node. `el`, `listeners` and `instance` are the fields mounting
   * fills in (`vdom.el`, `vdom.listeners`, `vdom.component`); a component node
   * names its component definition by number.
   */
  datatype VNode =
    | Text(value: string, el: Option<NodeId>)
    | Element(tag: string, props: Props, children: seq<VNode>, el: Option<NodeId>, listeners: Option<Obj<Value>>)
    | Fragment(children: seq<VNode>, el: Option<NodeId>)
    | Component(def: nat, props: Props, children: seq<VNode>, el: Option<NodeId>, instance: Option<nat>)
    | Slot(children: seq<VNode>)

  /** The `type` field of a virtual node. */
  datatype DomType = TextType | ElementType | FragmentType | ComponentType | SlotType

  function TypeOf(n: VNode): DomType
  {
    match n
    case Text(_, _) => TextType
    case Element(_, _, _, _, _) => ElementType
    case Fragment(_, _) => FragmentType
    case Component(_, _, _, _, _) => ComponentType
    case Slot(_) => SlotType
  }

  /** The `tag` argument of `h`: a tag name, or a component class. */
  datatype Tag = TagName(name: string) | ComponentTag(def: nat)

  /** A child as the builders accept it: a string or a virtual node. */
  datatype Child = StringChild(s: string) | NodeChild(node: VNode)

  /** `hString(str)`: a text node. */
  function HString(str: string): (n: VNode)
    ensures n.Text? && n.value == str && n.el.None?
  {
    Text(str, None)
  }

  /** `mapTextNodes`: strings become text nodes, virtual nodes are kept. */
  function MapTextNodes(nodes: seq<Child>): (r: seq<VNode>)
    ensures |r| == |nodes|
    ensures forall i :: 0 <= i < |nodes| && nodes[i].StringChild? ==> r[i] == HString(nodes[i].s)
    ensures forall i :: 0 <= i < |nodes| && nodes[i].NodeChild? ==> r[i] == nodes[i].node
  {
    if nodes == [] then []
    else [if nodes[0].StringChild? then HString(nodes[0].s) else nodes[0].node] + MapTextNodes(nodes[1..])
  }

  /**
   * `h(tag, props, children)`: an element node for a tag name and a component
   * node for a component class; `null`/`undefined` children (`None`) are dropped
   * and strings become text nodes.
   */
  function H(tag: Tag, props: Props, children: seq<Option<Child>>): (n: VNode)
    ensures n.Element? <==> tag.TagName?
    ensures n.Component? <==> tag.ComponentTag?
    ensures n.Element? ==> n.tag == tag.name && n.el.None? && n.listeners.None?
    ensures n.Component? ==> n.def == tag.def && n.el.None? && n.instance.None?
    ensures n.props == props
    ensures n.children == MapTextNodes(Arrays.WithoutNulls(children))
  {
    var kids := MapTextNodes(Arrays.WithoutNulls(children));
    match tag
    case TagName(name) => Element(name, props, kids, None, None)
    case ComponentTag(def) => Component(def, props, kids, None, None)
  }

  /** `hFragment(vNodes)`. */
  function HFragment(vNodes: seq<Option<Child>>): (n: VNode)
    ensures n.Fragment? && n.el.None?
    ensures n.children == MapTextNodes(Arrays.WithoutNulls(vNodes))
  {
    Fragment(MapTextNodes(Arrays.WithoutNulls(vNodes)), None)
  }

  /** `hSlot(children)`: the children are kept as given. */
  function HSlot(children: seq<VNode>): (n: VNode)
    ensures n.Slot? && n.children == children
  {
    Slot(children)
  }

  /** With no null children and only virtual nodes, the builders keep the children exactly. */
  lemma {:induction false} BuildersKeepNodes(children: seq<Option<Child>>, nodes: seq<VNode>)
    requires |children| == |nodes|
    requires forall i :: 0 <= i < |children| ==> children[i] == Some(NodeChild(nodes[i]))
    ensures MapTextNodes(Arrays.WithoutNulls(children)) == nodes
  {
    if children != [] {
      assert Arrays.WithoutNulls(children) == [NodeChild(nodes[0])] + Arrays.WithoutNulls(children[1..]);
      BuildersKeepNodes(children[1..], nodes[1..]);
    }
  }

  /** The builders drop exactly the null children: the rest come out in order. */
  lemma {:induction false} BuildersDropNulls(a: seq<Option<Child>>, b: seq<Option<Child>>)
    ensures MapTextNodes(Arrays.WithoutNulls(a + [None] + b)) ==
      MapTextNodes(Arrays.WithoutNulls(a)) + MapTextNodes(Arrays.WithoutNulls(b))
  {
    Arrays.WithoutNullsConcat(a + [None], b);
    Arrays.WithoutNullsConcat(a, [None]);
    var none: seq<Option<Child>> := [None];
    assert Arrays.WithoutNulls(none) == [];
    MapTextNodesConcat(Arrays.WithoutNulls(a), Arrays.WithoutNulls(b));
  }

  lemma MapTextNodesConcat(a: seq<Child>, b: seq<Child>)
    ensures MapTextNodes(a + b) == MapTextNodes(a) + MapTextNodes(b)
  {
  }

  /** No node of `s` is a fragment. */
  predicate NoFragments(s: seq<VNode>)
  {
    forall i :: 0 <= i < |s| ==> !s[i].Fragment?
  }

  /**
   * `extractChildren(vdom)`: the children of `vdom` with every fragment child
   * replaced, recursively, by its own children. A text node has no children.
   */
  function ExtractChildren(vdom: VNode): (r: seq<VNode>)
    ensures NoFragments(r)
    ensures vdom.Text? ==> r == []
    decreases vdom
  {
    if vdom.Text? then [] else ExtractSeq(vdom.children)
  }

  /** The loop of `extractChildren` over a list of children. */
  function ExtractSeq(children: seq<VNode>): (r: seq<VNode>)
    ensures NoFragments(r)
    decreases children
  {
    if children == [] then []
    else
      assert children[0] in children;
      (if children[0].Fragment? then ExtractChildren(children[0]) else [children[0]]) + ExtractSeq(children[1..])
  }

  /** Flattening a concatenation flattens each part. */
  lemma {:induction false} ExtractSeqConcat(a: seq<VNode>, b: seq<VNode>)
    ensures ExtractSeq(a + b) == ExtractSeq(a) + ExtractSeq(b)
  {
    if a != [] {
      assert (a + b)[1..] == a[1..] + b;
      assert (a + b)[0] == a[0];
      ExtractSeqConcat(a[1..], b);
    } else {
      assert a + b == b;
    }
  }

  /** Without fragment children, `extractChildren` returns the children unchanged. */
  lemma {:induction false} ExtractSeqNoFragments(children: seq<VNode>)
    requires NoFragments(children)
    ensures ExtractSeq(children) == children
  {
    if children != [] {
      ExtractSeqNoFragments(children[1..]);
    }
  }

  /** Flattening twice is flattening once. */
  lemma ExtractSeqIdempotent(children: seq<VNode>)
    ensures ExtractSeq(ExtractSeq(children)) == ExtractSeq(children)
  {
    ExtractSeqNoFragments(ExtractSeq(children));
  }

  /** A fragment child contributes its own flattened children in its place, whatever its `el`. */
  lemma ExtractSeqFragment(a: seq<VNode>, cs: seq<VNode>, el: Option<NodeId>, b: seq<VNode>)
    ensures ExtractSeq(a + [Fragment(cs, el)] + b) == ExtractSeq(a) + ExtractSeq(cs) + ExtractSeq(b)
  {
    ExtractSeqConcat(a + [Fragment(cs, el)], b);
    ExtractSeqConcat(a, [Fragment(cs, el)]);
    ExtractSeqOneFragment(cs, el);
  }

  lemma ExtractSeqOneFragment(cs: seq<VNode>, el: Option<NodeId>)
    ensures ExtractSeq([Fragment(cs, el)]) == ExtractSeq(cs)
  {
    var s := [Fragment(cs, el)];
    assert s[1..] == [];
    assert ExtractChildren(s[0]) == ExtractSeq(cs);
    assert ExtractSeq(cs) + [] == ExtractSeq(cs);
  }

  /** `props.key`, which is `undefined` when absent. */
  function Key(props: Props): Value
  {
    if "key" in props.vals then props.vals["key"] else Undefined
  }

  /**
   * `areNodesEqual`: nodes of different types differ; elements match when
   * their tags and keys match, components when their classes and keys match;
   * any other two nodes of the same type match.
   */
  function AreNodesEqual(nodeOne: VNode, nodeTwo: VNode): (r: bool)
    ensures TypeOf(nodeOne) != TypeOf(nodeTwo) ==> !r
    ensures nodeOne.Element? && nodeTwo.Element? ==>
      (r <==> nodeOne.tag == nodeTwo.tag && Key(nodeOne.props) == Key(nodeTwo.props))
    ensures nodeOne.Component? && nodeTwo.Component? ==>
      (r <==> nodeOne.def == nodeTwo.def && Key(nodeOne.props) == Key(nodeTwo.props))
    ensures TypeOf(nodeOne) == TypeOf(nodeTwo) && !nodeOne.Element? && !nodeOne.Component? ==> r
  {
    if TypeOf(nodeOne) != TypeOf(nodeTwo) then false
    else if nodeOne.Element? then nodeOne.tag == nodeTwo.tag && Key(nodeOne.props) == Key(nodeTwo.props)
    else if nodeOne.Component? then nodeOne.def == nodeTwo.def && Key(nodeOne.props) == Key(nodeTwo.props)
    else true
  }

  /** `areNodesEqual` is an equivalence relation. */
  lemma AreNodesEqualEquivalence(a: VNode, b: VNode, c: VNode)
    ensures AreNodesEqual(a, a)
    ensures AreNodesEqual(a, b) ==> AreNodesEqual(b, a)
    ensures AreNodesEqual(a, b) && AreNodesEqual(b, c) ==> AreNodesEqual(a, c)
  {
  }

  /**
   * The keyed diff of a node's flattened children, compared with
   * `areNodesEqual`: replaying it gives children that match the new ones
   * position by position, every MOVE goes forward, and unchanged children give
   * only NOOPs.
   */
  method ChildrenDiff(oldVdom: VNode, newVdom: VNode) returns (ops: seq<Arrays.Op<VNode>>)
    ensures Arrays.ReplayFits(ExtractChildren(oldVdom), ops)
    ensures |Arrays.Replay(ExtractChildren(oldVdom), ops)| == |ExtractChildren(newVdom)|
    ensures forall j :: 0 <= j < |ExtractChildren(newVdom)| ==>
      AreNodesEqual(Arrays.Replay(ExtractChildren(oldVdom), ops)[j], ExtractChildren(newVdom)[j])
    ensures forall i :: 0 <= i < |ops| && ops[i].Move? ==> ops[i].from > ops[i].index
    ensures ExtractChildren(oldVdom) == ExtractChildren(newVdom) ==> ops == Arrays.NoopSequence(ExtractChildren(oldVdom))
  {
    var oldChildren := ExtractChildren(oldVdom);
    var newChildren := ExtractChildren(newVdom);
    var eq := (a: VNode, b: VNode) => AreNodesEqual(a, b);
    forall x, y { AreNodesEqualEquivalence(x, y, y); }
    assert Arrays.ReflexiveOn(eq, oldChildren) && Arrays.ReflexiveOn(eq, newChildren);
    assert Arrays.SymmetricOn(eq, oldChildren, newChildren);
    ops := Arrays.ArraysDiffSequence(oldChildren, newChildren, eq);
    ghost var r := Arrays.Replay(oldChildren, ops);
    forall j | 0 <= j < |newChildren|
      ensures AreNodesEqual(r[j], newChildren[j])
    {
      Arrays.SameItemEquals(eq, oldChildren, newChildren, r[j], j);
    }
  }

  /** What `extractPropsAndEvents` splits `vdom.props` into. */
  datatype PropsAndEvents = PropsAndEvents(props: Props, events: Obj<Value>)

  /** `props` without its `on` and `key` entries, in the remaining key order. */
  function AttributesOf(props: Props): (r: Props)
    requires props.Valid()
    ensures r.Valid() && r.vals == props.vals - {"on"} - {"key"}
    ensures Subsequence(r.keys, props.keys)
  {
    var withoutOn := Remove(props, "on");
    var rest := Remove(withoutOn, "key");
    SubsequenceTrans(rest.keys, withoutOn.keys, props.keys);
    rest
  }

  /**
   * `extractPropsAndEvents`: `props.on` is the event-handler object (empty when
   * absent), and the remaining props are the others without `key`.
   */
  function ExtractPropsAndEvents(props: Props): (r: PropsAndEvents)
    requires props.Valid()
    ensures r.props.Valid() && r.props.vals == props.vals - {"on"} - {"key"}
    ensures Subsequence(r.props.keys, props.keys)
    ensures "on" in props.vals && props.vals["on"].Rec? ==> r.events == props.vals["on"].fields
    ensures !("on" in props.vals && props.vals["on"].Rec?) ==> r.events == Empty()
  {
    var events := if "on" in props.vals && props.vals["on"].Rec? then props.vals["on"].fields else Empty();
    PropsAndEvents(AttributesOf(props), events)
  }
}
