/**
 * The platform the runtime renders into, reduced to what mounting and
 * destroying use: nodes created by `document.createTextNode` /
 * `document.createElement` (with the attributes `setAttributes` writes), every
 * node's `childNodes`, the registered event listeners, and the calls made into
 * component instances, whose own rendering is not modelled.
 */
module NodeStore {
  import opened Wrappers
  import opened Seqs
  import opened Objects
  import opened Values
  import opened VNodes

  datatype PlatformNode = TextNode(value: string) | ElementNode(tag: string, attrs: Props)

  /** One `el.addEventListener(eventName, handler)` in force. */
  datatype Registration = Registration(node: NodeId, eventName: string, handler: Value)

  /** A call into a component instance: construction followed by `mount`, or `unmount`. */
  datatype ComponentCall =
    | MountComponent(instance: nat, def: nat, props: Props, events: Obj<Value>, host: Option<nat>, parent: NodeId, index: Option<int>)
    | UnmountComponent(instance: nat)

  /** A lifecycle job the runtime enqueues, naming the component instance it calls. */
  datatype Hook =
    | OnMounted(instance: nat)
    | OnUnmounted(instance: nat)
    | OnPropsChange(instance: nat, newProps: Props, oldProps: Props)
    | OnStateChange(instance: nat)

  /**
   * The store: created nodes, the child list of every node, the node each node
   * was last inserted into (a node removed since is no longer in that node's
   * list), the next node id, the listeners in force, the component calls made
   * and the next component instance number.
   */
  datatype Dom = Dom(
    nodes: map<NodeId, PlatformNode>,
    kids: map<NodeId, seq<NodeId>>,
    parentOf: map<NodeId, NodeId>,
    next: NodeId,
    registered: set<Registration>,
    calls: seq<ComponentCall>,
    instances: nat)
  {
    /** Every node the store mentions was allocated before `next`. */
    ghost predicate Good()
    {
      (forall x :: x in nodes ==> x < next) &&
      (forall x :: x in kids ==> x < next) &&
      (forall x, y :: x in kids && y in kids[x] ==> y < next) &&
      (forall x :: x in parentOf ==> x < next) &&
      (forall g :: g in registered ==> g.node < next)
    }
  }

  /** A new node: it gets the next id and an empty child list. */
  function CreateNode(d: Dom, n: PlatformNode): (r: Dom)
    ensures r.next == d.next + 1 && r.nodes == d.nodes[d.next := n] && r.kids == d.kids[d.next := []]
    ensures r.parentOf == d.parentOf && r.registered == d.registered && r.calls == d.calls && r.instances == d.instances
    ensures d.Good() ==> r.Good()
  {
    d.(nodes := d.nodes[d.next := n], kids := d.kids[d.next := []], next := d.next + 1)
  }

  /**
   * The child list after `insert(el, parentEl, index)`: a null index appends, a
   * negative one throws, one at or past the end appends, and any other puts the
   * node at that position, shifting the later children right.
   */
  function InsertAt(s: seq<NodeId>, x: NodeId, index: Option<int>): (r: Result<seq<NodeId>>)
    ensures r.Failure? <==> index.Some? && index.value < 0
    ensures index.None? ==> r == Success(s + [x])
    ensures index.Some? && index.value >= |s| ==> r == Success(s + [x])
    ensures index.Some? && 0 <= index.value < |s| ==>
      r.Success? && |r.value| == |s| + 1 && r.value[index.value] == x &&
      r.value[..index.value] == s[..index.value] && r.value[index.value + 1..] == s[index.value..]
  {
    match index
    case None => Success(s + [x])
    case Some(i) =>
      if i < 0 then Failure("Index must be a positive integer, got " + IntString(i))
      else if i >= |s| then Success(s + [x])
      else
        var r := s[..i] + [x] + s[i..];
        assert r[i + 1..] == s[i..];
        Success(r)
  }

  /** The decimal digits of `n`, as a template literal prints a number. */
  function NatString(n: nat): (r: string)
    ensures |r| >= 1 && forall i :: 0 <= i < |r| ==> '0' <= r[i] <= '9'
  {
    var digit := ['0' + (n % 10) as char];
    if n < 10 then digit else NatString(n / 10) + digit
  }

  function IntString(i: int): (r: string)
    ensures i < 0 ==> r == "-" + NatString(-i)
    ensures i >= 0 ==> r == NatString(i)
  {
    if i < 0 then "-" + NatString(-i) else NatString(i)
  }

  /** Where `InsertAt` puts the node. */
  function InsertPosition(s: seq<NodeId>, index: Option<int>): (i: nat)
    requires index.None? || index.value >= 0
    ensures i <= |s|
  {
    if index.None? || index.value >= |s| then |s| else index.value
  }

  lemma InsertAtShape(s: seq<NodeId>, x: NodeId, index: Option<int>)
    requires InsertAt(s, x, index).Success?
    ensures InsertAt(s, x, index).value == s[..InsertPosition(s, index)] + [x] + s[InsertPosition(s, index)..]
  {
    var r := InsertAt(s, x, index).value;
    var i := InsertPosition(s, index);
    if i == |s| {
      assert s[..i] == s && s[i..] == [];
    } else {
      assert r == r[..i] + [r[i]] + r[i + 1..];
    }
  }

  /** The test `el.remove()` applies to the child list: every node but `x`. */
  function Other(x: NodeId): NodeId -> bool
  {
    y => y != x
  }

  lemma FilterKeepsOthers(a: seq<NodeId>, x: NodeId)
    requires x !in a
    ensures Filter(a, Other(x)) == a
  {
    FilterKeepsAll(a, Other(x));
  }

  lemma FilterOutInserted(a: seq<NodeId>, x: NodeId, b: seq<NodeId>)
    requires x !in a && x !in b
    ensures Filter(a + [x] + b, Other(x)) == a + b
  {
    var p := Other(x);
    FilterKeepsOthers(a, x);
    FilterKeepsOthers(b, x);
    FilterCons(x, [], p);
    assert [x] + [] == [x];
    FilterConcat(a + [x], b, p);
    FilterConcat(a, [x], p);
    assert a + [] == a;
  }

  /** An insertion keeps the other children, in order, and adds only the new one. */
  lemma InsertAtKeeps(s: seq<NodeId>, x: NodeId, index: Option<int>)
    requires InsertAt(s, x, index).Success?
    ensures x !in s ==> Filter(InsertAt(s, x, index).value, Other(x)) == s
    ensures forall y :: y in InsertAt(s, x, index).value <==> y in s || y == x
  {
    var i := InsertPosition(s, index);
    InsertAtShape(s, x, index);
    assert s[..i] + s[i..] == s;
    if x !in s {
      FilterOutInserted(s[..i], x, s[i..]);
    }
  }

  /** `insert(el, parentEl, index)`. */
  function Insert(d: Dom, el: NodeId, parent: NodeId, index: Option<int>): (r: Result<Dom>)
    requires parent in d.kids
    ensures r.Failure? <==> InsertAt(d.kids[parent], el, index).Failure?
    ensures r.Success? ==>
      r.value == d.(kids := d.kids[parent := InsertAt(d.kids[parent], el, index).value], parentOf := d.parentOf[el := parent])
  {
    match InsertAt(d.kids[parent], el, index)
    case Failure(e) => Failure(e)
    case Success(s) => Success(d.(kids := d.kids[parent := s], parentOf := d.parentOf[el := parent]))
  }

  /** `el.remove()`: the node leaves the child list of the node it was inserted into. */
  function Remove(d: Dom, el: NodeId): (r: Dom)
    ensures r.parentOf == d.parentOf && r.kids.Keys == d.kids.Keys
    ensures el in d.parentOf && d.parentOf[el] in d.kids ==>
      r.kids == d.kids[d.parentOf[el] := Filter(d.kids[d.parentOf[el]], Other(el))]
    ensures !(el in d.parentOf && d.parentOf[el] in d.kids) ==> r.kids == d.kids
    ensures r.nodes == d.nodes && r.next == d.next && r.registered == d.registered
    ensures r.calls == d.calls && r.instances == d.instances
  {
    if el in d.parentOf && d.parentOf[el] in d.kids then
      var p := d.parentOf[el];
      d.(kids := d.kids[p := Filter(d.kids[p], Other(el))])
    else d
  }

  /** The registrations `addEventListeners(events, el)` makes: each handler registered as itself. */
  function Regs(el: NodeId, events: Obj<Value>): (r: set<Registration>)
    ensures forall g :: g in r <==> g.node == el && g.eventName in events.vals && g.handler == events.vals[g.eventName]
  {
    set k | k in events.vals :: Registration(el, k, events.vals[k])
  }
}
