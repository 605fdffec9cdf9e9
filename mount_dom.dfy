/**
 * `mountDOM`: creating the platform nodes of a virtual tree and inserting them
 * into a parent. Mounting returns the tree with its `el`, `listeners` and
 * component fields filled in, the store after the insertions, and the
 * lifecycle hooks it enqueued, in order.
 */
module MountDom {
  import opened Wrappers
  import opened Seqs
  import opened Objects
  import opened Values
  import opened VNodes
  import opened NodeStore

  /** The props of every element and component in the tree are well-formed objects. */
  ghost predicate WellFormed(v: VNode)
    decreases v
  {
    match v
    case Element(_, props, cs, _, _) => props.Valid() && forall i :: 0 <= i < |cs| ==> WellFormed(cs[i])
    case Fragment(cs, _) => forall i :: 0 <= i < |cs| ==> WellFormed(cs[i])
    case Component(_, props, _, _, _) => props.Valid()
    case _ => true
  }

  datatype Mounted = Mounted(dom: Dom, vdom: VNode, hooks: seq<Hook>)
  datatype MountedSeq = MountedSeq(dom: Dom, vdoms: seq<VNode>, hooks: seq<Hook>)

  /** The index a fragment passes to each of its children: `index ? index + 1 : null`. */
  function FragmentIndex(index: Option<int>): Option<int>
  {
    if index.None? || index.value == 0 then None else Some(index.value + 1)
  }

  /** `addEventListeners(events, el)`: every handler is registered on `el` as itself. */
  function AddListeners(d: Dom, el: NodeId, events: Obj<Value>): (r: Dom)
    ensures r == d.(registered := d.registered + Regs(el, events))
    ensures d.Good() && el < d.next ==> r.Good()
  {
    d.(registered := d.registered + Regs(el, events))
  }

  /** Mounting only adds: no child list disappears and no id is reused. */
  ghost predicate Grows(d: Dom, e: Dom)
  {
    d.kids.Keys <= e.kids.Keys && d.next <= e.next && d.instances <= e.instances
  }

  /**
   * `mountDOM(vDom, parentElement, index, hostComponent)`. A text node is
   * created and inserted; an element is created, gets its listeners and
   * attributes, mounts its children appended to itself and is then inserted; a
   * fragment mounts its children into the parent at `FragmentIndex(index)`; a
   * component is constructed and mounted by its own instance and enqueues
   * `onMounted`; a slot is an error.
   */
  function Mount(d: Dom, v: VNode, parent: NodeId, index: Option<int>, host: Option<nat>): (r: Result<Mounted>)
    requires parent in d.kids && WellFormed(v)
    ensures r.Success? ==> Grows(d, r.value.dom)
    decreases v
  {
    match v
    case Text(value, _) =>
      var d1 := CreateNode(d, TextNode(value));
      (match Insert(d1, d.next, parent, index)
       case Failure(e) => Failure(e)
       case Success(d2) => Success(Mounted(d2, Text(value, Some(d.next)), [])))
    case Element(tag, props, children, _, _) =>
      var pe := ExtractPropsAndEvents(props);
      var id := d.next;
      var d2 := AddListeners(CreateNode(d, ElementNode(tag, pe.props)), id, pe.events);
      (match MountSeq(d2, children, id, None, host)
       case Failure(e) => Failure(e)
       case Success(ms) =>
         match Insert(ms.dom, id, parent, index)
         case Failure(e) => Failure(e)
         case Success(d3) => Success(Mounted(d3, Element(tag, props, ms.vdoms, Some(id), Some(pe.events)), ms.hooks)))
    case Fragment(children, _) =>
      (match MountSeq(d, children, parent, FragmentIndex(index), host)
       case Failure(e) => Failure(e)
       case Success(ms) => Success(Mounted(ms.dom, Fragment(ms.vdoms, Some(parent)), ms.hooks)))
    case Component(def, props, children, _, _) =>
      var pe := ExtractPropsAndEvents(props);
      var inst := d.instances;
      var call := MountComponent(inst, def, pe.props, pe.events, host, parent, index);
      Success(Mounted(d.(calls := d.calls + [call], instances := inst + 1),
                      Component(def, props, children, None, Some(inst)), [OnMounted(inst)]))
    case Slot(_) => Failure("Can't mount DOM of type: slot")
  }

  /** `children.forEach(child => mountDOM(child, parent, index, hostComponent))`: in order, stopping at the first error. */
  function MountSeq(d: Dom, cs: seq<VNode>, parent: NodeId, index: Option<int>, host: Option<nat>): (r: Result<MountedSeq>)
    requires parent in d.kids && forall i :: 0 <= i < |cs| ==> WellFormed(cs[i])
    ensures r.Success? ==> Grows(d, r.value.dom) && |r.value.vdoms| == |cs|
    decreases cs
  {
    if cs == [] then Success(MountedSeq(d, [], []))
    else
      var last := cs[|cs| - 1];
      assert last in cs;
      match MountSeq(d, cs[..|cs| - 1], parent, index, host)
      case Failure(e) => Failure(e)
      case Success(ms) =>
        match Mount(ms.dom, last, parent, index, host)
        case Failure(e) => Failure(e)
        case Success(m) => Success(MountedSeq(m.dom, ms.vdoms + [m.vdom], ms.hooks + m.hooks))
  }

  /** An error while mounting one child ends the whole walk with an error. */
  lemma {:induction false} MountSeqFailurePersists(d: Dom, cs: seq<VNode>, k: nat, parent: NodeId, index: Option<int>, host: Option<nat>)
    requires parent in d.kids && forall i :: 0 <= i < |cs| ==> WellFormed(cs[i])
    requires k <= |cs| && MountSeq(d, cs[..k], parent, index, host).Failure?
    ensures MountSeq(d, cs, parent, index, host).Failure?
    decreases |cs| - k
  {
    if k < |cs| {
      assert cs[..k + 1][..k] == cs[..k];
      MountSeqFailurePersists(d, cs, k + 1, parent, index, host);
    } else {
      assert cs[..k] == cs;
    }
  }

  /** The walk over the first `k` children of `cs` ended in `ms`. */
  ghost predicate MountedPrefix(d: Dom, cs: seq<VNode>, k: nat, parent: NodeId, index: Option<int>, host: Option<nat>, ms: MountedSeq)
  {
    parent in d.kids && (forall i :: 0 <= i < |cs| ==> WellFormed(cs[i])) && k <= |cs| &&
    MountSeq(d, cs[..k], parent, index, host) == Success(ms)
  }

  lemma MountedPrefixStart(d: Dom, cs: seq<VNode>, parent: NodeId, index: Option<int>, host: Option<nat>)
    requires parent in d.kids && forall i :: 0 <= i < |cs| ==> WellFormed(cs[i])
    ensures MountedPrefix(d, cs, 0, parent, index, host, MountedSeq(d, [], []))
  {
    assert cs[..0] == [];
  }

  /** One more child: the walk over `cs[..k + 1]` is the walk over `cs[..k]` followed by mounting `cs[k]`. */
  lemma MountedPrefixStep(d: Dom, cs: seq<VNode>, k: nat, parent: NodeId, index: Option<int>, host: Option<nat>, ms: MountedSeq)
    requires MountedPrefix(d, cs, k, parent, index, host, ms) && k < |cs|
    ensures parent in ms.dom.kids && WellFormed(cs[k])
    ensures Mount(ms.dom, cs[k], parent, index, host).Failure? ==> MountSeq(d, cs, parent, index, host).Failure?
    ensures Mount(ms.dom, cs[k], parent, index, host).Success? ==>
      var m := Mount(ms.dom, cs[k], parent, index, host).value;
      MountedPrefix(d, cs, k + 1, parent, index, host, MountedSeq(m.dom, ms.vdoms + [m.vdom], ms.hooks + m.hooks))
  {
    assert cs[..k + 1][..k] == cs[..k];
    assert cs[..k + 1][k] == cs[k];
    if Mount(ms.dom, cs[k], parent, index, host).Failure? {
      MountSeqFailurePersists(d, cs, k + 1, parent, index, host);
    }
  }

  /** The next child can be mounted into the store the prefix left. */
  lemma MountedPrefixReady(d: Dom, cs: seq<VNode>, k: nat, parent: NodeId, index: Option<int>, host: Option<nat>, ms: MountedSeq)
    requires MountedPrefix(d, cs, k, parent, index, host, ms) && k < |cs|
    ensures parent in ms.dom.kids && WellFormed(cs[k])
  {
    assert cs[..k] + [] == cs[..k];
    assert cs[k] in cs;
  }

  /**
   * `MountedPrefixStep` stated for a result `x` and store `e` that agree with
   * mounting `cs[k]`: an error ends the walk, a success extends the prefix.
   */
  lemma MountedPrefixAfter(d: Dom, cs: seq<VNode>, k: nat, parent: NodeId, index: Option<int>, host: Option<nat>,
                           ms: MountedSeq, x: Result<VNode>, e: Dom)
    requires MountedPrefix(d, cs, k, parent, index, host, ms) && k < |cs|
    requires parent in ms.dom.kids && WellFormed(cs[k])
    requires x.Success? <==> Mount(ms.dom, cs[k], parent, index, host).Success?
    requires x.Success? ==>
      x.value == Mount(ms.dom, cs[k], parent, index, host).value.vdom &&
      e == Mount(ms.dom, cs[k], parent, index, host).value.dom
    ensures x.Failure? ==> MountSeq(d, cs, parent, index, host).Failure?
    ensures x.Success? ==>
      MountedPrefix(d, cs, k + 1, parent, index, host,
        MountedSeq(e, ms.vdoms + [x.value], ms.hooks + Mount(ms.dom, cs[k], parent, index, host).value.hooks))
  {
    MountedPrefixStep(d, cs, k, parent, index, host, ms);
  }

  lemma MountedPrefixEnd(d: Dom, cs: seq<VNode>, parent: NodeId, index: Option<int>, host: Option<nat>, ms: MountedSeq)
    requires MountedPrefix(d, cs, |cs|, parent, index, host, ms)
    ensures MountSeq(d, cs, parent, index, host) == Success(ms)
  {
    assert cs[..|cs|] == cs;
  }

  // ---------------------------------------------------------------------------
  // What a mounted tree occupies

  /** The platform nodes a mounted tree puts directly into its parent, in order. */
  function Tops(v: VNode): seq<NodeId>
    decreases v
  {
    match v
    case Text(_, el) => if el.Some? then [el.value] else []
    case Element(_, _, _, el, _) => if el.Some? then [el.value] else []
    case Fragment(cs, _) => TopsSeq(cs)
    case _ => []
  }

  function TopsSeq(cs: seq<VNode>): seq<NodeId>
    decreases cs
  {
    if cs == [] then []
    else
      assert cs[|cs| - 1] in cs;
      TopsSeq(cs[..|cs| - 1]) + Tops(cs[|cs| - 1])
  }

  /** The listener registrations a mounted tree holds. */
  function Registrations(v: VNode): set<Registration>
    decreases v
  {
    match v
    case Element(_, _, cs, el, ls) => (if el.Some? && ls.Some? then Regs(el.value, ls.value) else {}) + RegistrationsSeq(cs)
    case Fragment(cs, _) => RegistrationsSeq(cs)
    case _ => {}
  }

  function RegistrationsSeq(cs: seq<VNode>): set<Registration>
    decreases cs
  {
    if cs == [] then {}
    else
      assert cs[|cs| - 1] in cs;
      RegistrationsSeq(cs[..|cs| - 1]) + Registrations(cs[|cs| - 1])
  }

  lemma TopsSeqSnoc(cs: seq<VNode>, v: VNode)
    ensures TopsSeq(cs + [v]) == TopsSeq(cs) + Tops(v)
    ensures RegistrationsSeq(cs + [v]) == RegistrationsSeq(cs) + Registrations(v)
  {
    assert (cs + [v])[..|cs|] == cs;
  }

  /**
   * A mounted tree hangs where it was mounted: each text and element node was
   * last inserted into its parent (an element's children into the element,
   * which has a child list), and each component has an instance.
   */
  ghost predicate Attached(keys: set<NodeId>, po: map<NodeId, NodeId>, v: VNode, p: NodeId)
    decreases v
  {
    match v
    case Text(_, el) => el.Some? && el.value in po && po[el.value] == p
    case Element(_, _, cs, el, ls) =>
      el.Some? && ls.Some? && el.value in keys && el.value in po && po[el.value] == p &&
      forall i :: 0 <= i < |cs| ==> Attached(keys, po, cs[i], el.value)
    case Fragment(cs, _) => forall i :: 0 <= i < |cs| ==> Attached(keys, po, cs[i], p)
    case Component(_, _, _, _, inst) => inst.Some?
    case Slot(_) => false
  }

  /** Every node of a mounted tree has a larger id than the node it hangs from. */
  ghost predicate Descends(v: VNode, p: NodeId)
    decreases v
  {
    match v
    case Text(_, el) => el.Some? && p < el.value
    case Element(_, _, cs, el, _) => el.Some? && p < el.value && forall i :: 0 <= i < |cs| ==> Descends(cs[i], el.value)
    case Fragment(cs, _) => forall i :: 0 <= i < |cs| ==> Descends(cs[i], p)
    case _ => true
  }

  /** Every node of a mounted tree has an id in `[lo, hi)`. */
  ghost predicate InRange(v: VNode, lo: nat, hi: nat)
    decreases v
  {
    match v
    case Text(_, el) => el.Some? && lo <= el.value < hi
    case Element(_, _, cs, el, _) => el.Some? && lo <= el.value < hi && forall i :: 0 <= i < |cs| ==> InRange(cs[i], lo, hi)
    case Fragment(cs, _) => forall i :: 0 <= i < |cs| ==> InRange(cs[i], lo, hi)
    case _ => true
  }

  ghost predicate AttachedSeq(keys: set<NodeId>, po: map<NodeId, NodeId>, cs: seq<VNode>, p: NodeId)
  {
    forall i :: 0 <= i < |cs| ==> Attached(keys, po, cs[i], p)
  }

  ghost predicate DescendsSeq(cs: seq<VNode>, p: NodeId)
  {
    forall i :: 0 <= i < |cs| ==> Descends(cs[i], p)
  }

  ghost predicate InRangeSeq(cs: seq<VNode>, lo: nat, hi: nat)
  {
    forall i :: 0 <= i < |cs| ==> InRange(cs[i], lo, hi)
  }

  /** More child lists and a parent map that only gains entries keep a tree attached. */
  lemma {:induction false} AttachedGrows(keys: set<NodeId>, po: map<NodeId, NodeId>, keys': set<NodeId>, po': map<NodeId, NodeId>, v: VNode, p: NodeId)
    requires keys <= keys' && forall x :: x in po ==> x in po' && po'[x] == po[x]
    requires Attached(keys, po, v, p)
    ensures Attached(keys', po', v, p)
    decreases v
  {
    match v
    case Element(_, _, cs, el, _) =>
      forall i | 0 <= i < |cs| ensures Attached(keys', po', cs[i], el.value) {
        AttachedGrows(keys, po, keys', po', cs[i], el.value);
      }
    case Fragment(cs, _) =>
      forall i | 0 <= i < |cs| ensures Attached(keys', po', cs[i], p) {
        AttachedGrows(keys, po, keys', po', cs[i], p);
      }
    case _ =>
  }

  lemma {:induction false} InRangeWiden(v: VNode, lo: nat, hi: nat, lo': nat, hi': nat)
    requires lo' <= lo && hi <= hi' && InRange(v, lo, hi)
    ensures InRange(v, lo', hi')
    decreases v
  {
    match v
    case Element(_, _, cs, _, _) =>
      forall i | 0 <= i < |cs| ensures InRange(cs[i], lo', hi') {
        InRangeWiden(cs[i], lo, hi, lo', hi');
      }
    case Fragment(cs, _) =>
      forall i | 0 <= i < |cs| ensures InRange(cs[i], lo', hi') {
        InRangeWiden(cs[i], lo, hi, lo', hi');
      }
    case _ =>
  }

  /** The nodes and registrations of a tree mounted from id `lo` on are all new. */
  lemma {:induction false} InRangeFresh(v: VNode, lo: nat, hi: nat)
    requires InRange(v, lo, hi)
    ensures forall y :: y in Tops(v) ==> lo <= y
    ensures forall g :: g in Registrations(v) ==> lo <= g.node
    decreases v, 1
  {
    match v
    case Element(_, _, cs, _, _) => InRangeSeqFresh(cs, lo, hi);
    case Fragment(cs, _) => InRangeSeqFresh(cs, lo, hi);
    case _ =>
  }

  lemma {:induction false} InRangeSeqFresh(cs: seq<VNode>, lo: nat, hi: nat)
    requires InRangeSeq(cs, lo, hi)
    ensures forall y :: y in TopsSeq(cs) ==> lo <= y
    ensures forall g :: g in RegistrationsSeq(cs) ==> lo <= g.node
    decreases cs, 0
  {
    if cs != [] {
      var last := cs[|cs| - 1];
      assert last in cs;
      InRangeSeqFresh(cs[..|cs| - 1], lo, hi);
      InRangeFresh(last, lo, hi);
    }
  }

  // ---------------------------------------------------------------------------
  // The effect of mounting on the store

  /** The test that keeps the nodes that existed before id `lo` was handed out. */
  function Below(lo: nat): NodeId -> bool
  {
    y => y < lo
  }

  /**
   * Parent maps and created nodes only gain entries, the parent map's new
   * entries are new nodes, no child list disappears and no id is reused.
   */
  ghost predicate Extends(d: Dom, e: Dom)
  {
    d.kids.Keys <= e.kids.Keys && d.next <= e.next &&
    (forall x :: x in d.nodes ==> x in e.nodes && e.nodes[x] == d.nodes[x]) &&
    (forall x :: x in d.parentOf ==> x in e.parentOf && e.parentOf[x] == d.parentOf[x]) &&
    (forall x :: x in e.parentOf && x !in d.parentOf ==> d.next <= x)
  }

  /**
   * Going from `d` to `e` put the nodes `tops` (and nothing else) into `p`,
   * keeping `p`'s old children in their order, left every other old child list
   * as it was and added the registrations `regs`.
   */
  ghost predicate Effect(d: Dom, e: Dom, p: NodeId, tops: seq<NodeId>, regs: set<Registration>)
  {
    p in d.kids && p in e.kids && Extends(d, e) &&
    Filter(e.kids[p], Below(d.next)) == d.kids[p] &&
    (forall y :: y in e.kids[p] ==> y < d.next || y in tops) &&
    (forall q :: q in d.kids && q != p ==> e.kids[q] == d.kids[q]) &&
    e.registered == d.registered + regs
  }

  lemma OldChildrenBelow(d: Dom, p: NodeId)
    requires d.Good() && p in d.kids
    ensures Filter(d.kids[p], Below(d.next)) == d.kids[p]
  {
    assert forall i :: 0 <= i < |d.kids[p]| ==> d.kids[p][i] in d.kids[p];
    FilterKeepsAll(d.kids[p], Below(d.next));
  }

  lemma EffectNone(d: Dom, e: Dom, p: NodeId)
    requires d.Good() && p in d.kids
    requires e == d.(calls := e.calls, instances := e.instances)
    ensures Effect(d, e, p, [], {})
  {
    OldChildrenBelow(d, p);
  }

  lemma {:induction false} EffectTrans(d: Dom, e: Dom, f: Dom, p: NodeId, t1: seq<NodeId>, r1: set<Registration>, t2: seq<NodeId>, r2: set<Registration>)
    requires Effect(d, e, p, t1, r1) && Effect(e, f, p, t2, r2)
    ensures Effect(d, f, p, t1 + t2, r1 + r2)
  {
    FilterFilter(f.kids[p], Below(e.next), Below(d.next), Below(d.next));
    forall y | y in f.kids[p] ensures y < d.next || y in t1 + t2 {
      if y < e.next {
        var i :| 0 <= i < |f.kids[p]| && f.kids[p][i] == y;
        assert Below(e.next)(f.kids[p][i]);
        assert y in e.kids[p];
      }
    }
  }

  lemma AllBelow(s: seq<NodeId>, lo: nat)
    requires forall y :: y in s ==> y < lo
    ensures Filter(s, Below(lo)) == s
  {
    assert forall k :: 0 <= k < |s| ==> s[k] in s;
    FilterKeepsAll(s, Below(lo));
  }

  lemma FilterInsertedBelow(a: seq<NodeId>, x: NodeId, b: seq<NodeId>, lo: nat)
    requires (forall y :: y in a ==> y < lo) && (forall y :: y in b ==> y < lo) && lo <= x
    ensures Filter(a + [x] + b, Below(lo)) == a + b
  {
    AllBelow(a, lo);
    AllBelow(b, lo);
    FilterCons(x, [], Below(lo));
    assert [x] + [] == [x];
    FilterConcat(a + [x], b, Below(lo));
    FilterConcat(a, [x], Below(lo));
    assert a + [] == a;
  }

  /** Inserting a new node keeps the old children, in order, and adds only the new one. */
  lemma InsertFresh(s: seq<NodeId>, x: NodeId, index: Option<int>, lo: nat)
    requires (forall y :: y in s ==> y < lo) && lo <= x
    requires InsertAt(s, x, index).Success?
    ensures Filter(InsertAt(s, x, index).value, Below(lo)) == s
    ensures forall y :: y in InsertAt(s, x, index).value ==> y < lo || y == x
  {
    var i := InsertPosition(s, index);
    InsertAtShape(s, x, index);
    assert s[..i] + s[i..] == s;
    assert forall y :: y in s[..i] ==> y in s;
    assert forall y :: y in s[i..] ==> y in s;
    FilterInsertedBelow(s[..i], x, s[i..], lo);
  }

  /** An insertion of an allocated node into an existing child list keeps the store consistent. */
  lemma InsertGood(d: Dom, el: NodeId, p: NodeId, index: Option<int>)
    requires d.Good() && el < d.next && p in d.kids && Insert(d, el, p, index).Success?
    ensures Insert(d, el, p, index).value.Good()
  {
    var d2 := Insert(d, el, p, index).value;
    InsertAtKeeps(d.kids[p], el, index);
    forall x, y | x in d2.kids && y in d2.kids[x] ensures y < d2.next {
      if x != p {
        assert y in d.kids[x];
      }
    }
  }

  /** Inserting the new node `d.next` into `p` of a store that grew from `d`, adding `regs`, without changing `d`'s child lists. */
  lemma InsertNewNode(d: Dom, d1: Dom, p: NodeId, index: Option<int>, regs: set<Registration>)
    requires d.Good() && p in d.kids && d1.Good() && Extends(d, d1) && d.next < d1.next
    requires d.next !in d1.parentOf && d.next in d1.kids && d1.registered == d.registered + regs
    requires forall q :: q in d.kids ==> d1.kids[q] == d.kids[q]
    requires Insert(d1, d.next, p, index).Success?
    ensures var d2 := Insert(d1, d.next, p, index).value;
      d2.Good() && Effect(d, d2, p, [d.next], regs) &&
      d2.kids.Keys == d1.kids.Keys && d2.parentOf == d1.parentOf[d.next := p] && d2.next == d1.next &&
      d2.kids[p] == InsertAt(d.kids[p], d.next, index).value
  {
    assert forall y :: y in d.kids[p] ==> y < d.next;
    InsertFresh(d.kids[p], d.next, index, d.next);
    InsertGood(d1, d.next, p, index);
  }

  /**
   * `v` was mounted into `p`, taking the store from `d` to `e`: it put exactly
   * its top nodes into `p`, keeping `p`'s other children in order, touched no
   * other existing child list, registered exactly its listeners, and is
   * attached, made of new nodes.
   */
  ghost predicate Placed(d: Dom, e: Dom, v: VNode, p: NodeId)
  {
    e.Good() && Effect(d, e, p, Tops(v), Registrations(v)) &&
    Attached(e.kids.Keys, e.parentOf, v, p) && Descends(v, p) && InRange(v, d.next, e.next)
  }

  ghost predicate PlacedSeq(d: Dom, e: Dom, vs: seq<VNode>, p: NodeId)
  {
    e.Good() && Effect(d, e, p, TopsSeq(vs), RegistrationsSeq(vs)) &&
    AttachedSeq(e.kids.Keys, e.parentOf, vs, p) && DescendsSeq(vs, p) && InRangeSeq(vs, d.next, e.next)
  }

  lemma TextStep(d: Dom, value: string, p: NodeId, index: Option<int>)
    requires d.Good() && p in d.kids
    requires Insert(CreateNode(d, TextNode(value)), d.next, p, index).Success?
    ensures Placed(d, Insert(CreateNode(d, TextNode(value)), d.next, p, index).value, Text(value, Some(d.next)), p)
  {
    InsertNewNode(d, CreateNode(d, TextNode(value)), p, index, {});
  }

  lemma ExtendsTrans(a: Dom, b: Dom, c: Dom)
    requires Extends(a, b) && Extends(b, c)
    ensures Extends(a, c)
  {
  }

  lemma CreateListenersExtends(d: Dom, d2: Dom, attrs: Props, tag: string, events: Obj<Value>)
    requires d.Good()
    requires d2 == AddListeners(CreateNode(d, ElementNode(tag, attrs)), d.next, events)
    ensures Extends(d, d2) && d2.Good() && d.next !in d2.parentOf && d2.next == d.next + 1
    ensures d2.kids == d.kids[d.next := []] && d2.registered == d.registered + Regs(d.next, events)
  {
  }

  lemma ElementStore(d: Dom, d2: Dom, ms: MountedSeq, attrs: Props, tag: string, events: Obj<Value>, p: NodeId, index: Option<int>)
    requires d.Good() && p in d.kids
    requires d2 == AddListeners(CreateNode(d, ElementNode(tag, attrs)), d.next, events)
    requires ms.dom.Good() && Effect(d2, ms.dom, d.next, TopsSeq(ms.vdoms), RegistrationsSeq(ms.vdoms))
    requires Insert(ms.dom, d.next, p, index).Success?
    ensures var d3 := Insert(ms.dom, d.next, p, index).value;
      d3.Good() && Effect(d, d3, p, [d.next], Regs(d.next, events) + RegistrationsSeq(ms.vdoms)) &&
      d3.kids.Keys == ms.dom.kids.Keys && d3.parentOf == ms.dom.parentOf[d.next := p]
  {
    CreateListenersExtends(d, d2, attrs, tag, events);
    ExtendsTrans(d, d2, ms.dom);
    assert forall q :: q in d.kids ==> q != d.next && ms.dom.kids[q] == d.kids[q];
    assert d.next < ms.dom.next && d.next !in ms.dom.parentOf && d.next in ms.dom.kids;
    assert ms.dom.registered == d.registered + (Regs(d.next, events) + RegistrationsSeq(ms.vdoms));
    InsertNewNode(d, ms.dom, p, index, Regs(d.next, events) + RegistrationsSeq(ms.vdoms));
  }

  lemma ElementShape(d: Dom, d2: Dom, ms: MountedSeq, d3: Dom, tag: string, props: Props, events: Obj<Value>, p: NodeId)
    requires d2.next == d.next + 1 && p < d.next && d.next in d2.kids && Extends(d2, ms.dom) && d.next !in ms.dom.parentOf
    requires AttachedSeq(ms.dom.kids.Keys, ms.dom.parentOf, ms.vdoms, d.next) && DescendsSeq(ms.vdoms, d.next)
    requires InRangeSeq(ms.vdoms, d2.next, ms.dom.next)
    requires d3.next == ms.dom.next && d3.kids.Keys == ms.dom.kids.Keys && d3.parentOf == ms.dom.parentOf[d.next := p]
    ensures var v := Element(tag, props, ms.vdoms, Some(d.next), Some(events));
      Attached(d3.kids.Keys, d3.parentOf, v, p) && Descends(v, p) && InRange(v, d.next, d3.next)
  {
    AttachedGrows(ms.dom.kids.Keys, ms.dom.parentOf, d3.kids.Keys, d3.parentOf, Fragment(ms.vdoms, None), d.next);
    InRangeWiden(Fragment(ms.vdoms, None), d2.next, ms.dom.next, d.next, d3.next);
  }

  lemma ElementStep(d: Dom, d2: Dom, ms: MountedSeq, tag: string, props: Props, events: Obj<Value>, p: NodeId, index: Option<int>)
    requires d.Good() && p in d.kids && props.Valid()
    requires d2 == AddListeners(CreateNode(d, ElementNode(tag, ExtractPropsAndEvents(props).props)), d.next, events)
    requires PlacedSeq(d2, ms.dom, ms.vdoms, d.next)
    requires Insert(ms.dom, d.next, p, index).Success?
    ensures Placed(d, Insert(ms.dom, d.next, p, index).value, Element(tag, props, ms.vdoms, Some(d.next), Some(events)), p)
  {
    ElementStore(d, d2, ms, ExtractPropsAndEvents(props).props, tag, events, p, index);
    var d3 := Insert(ms.dom, d.next, p, index).value;
    assert d.next !in ms.dom.parentOf;
    ElementShape(d, d2, ms, d3, tag, props, events, p);
  }

  /** The element case of `MountEffect`, given the effect of mounting the children. */
  lemma ElementCase(d: Dom, v: VNode, p: NodeId, index: Option<int>, host: Option<nat>)
    requires d.Good() && p in d.kids && WellFormed(v) && v.Element? && Mount(d, v, p, index, host).Success?
    requires var d2 := AddListeners(CreateNode(d, ElementNode(v.tag, ExtractPropsAndEvents(v.props).props)), d.next, ExtractPropsAndEvents(v.props).events);
      MountSeq(d2, v.children, d.next, None, host).Success? &&
      PlacedSeq(d2, MountSeq(d2, v.children, d.next, None, host).value.dom, MountSeq(d2, v.children, d.next, None, host).value.vdoms, d.next)
    ensures Placed(d, Mount(d, v, p, index, host).value.dom, Mount(d, v, p, index, host).value.vdom, p)
  {
    var pe := ExtractPropsAndEvents(v.props);
    var d2 := AddListeners(CreateNode(d, ElementNode(v.tag, pe.props)), d.next, pe.events);
    var ms := MountSeq(d2, v.children, d.next, None, host).value;
    ElementStep(d, d2, ms, v.tag, v.props, pe.events, p, index);
  }

  /** The fragment case of `MountEffect`, given the effect of mounting the children. */
  lemma FragmentCase(d: Dom, v: VNode, p: NodeId, index: Option<int>, host: Option<nat>)
    requires d.Good() && p in d.kids && WellFormed(v) && v.Fragment? && Mount(d, v, p, index, host).Success?
    requires MountSeq(d, v.children, p, FragmentIndex(index), host).Success?
    requires var ms := MountSeq(d, v.children, p, FragmentIndex(index), host).value; PlacedSeq(d, ms.dom, ms.vdoms, p)
    ensures Placed(d, Mount(d, v, p, index, host).value.dom, Mount(d, v, p, index, host).value.vdom, p)
  {
  }

  lemma ComponentCase(d: Dom, v: VNode, p: NodeId, index: Option<int>, host: Option<nat>)
    requires d.Good() && p in d.kids && WellFormed(v) && v.Component? && Mount(d, v, p, index, host).Success?
    ensures Placed(d, Mount(d, v, p, index, host).value.dom, Mount(d, v, p, index, host).value.vdom, p)
  {
    EffectNone(d, Mount(d, v, p, index, host).value.dom, p);
  }

  lemma TextCase(d: Dom, v: VNode, p: NodeId, index: Option<int>, host: Option<nat>)
    requires d.Good() && p in d.kids && WellFormed(v) && v.Text? && Mount(d, v, p, index, host).Success?
    ensures Placed(d, Mount(d, v, p, index, host).value.dom, Mount(d, v, p, index, host).value.vdom, p)
  {
    TextStep(d, v.value, p, index);
  }

  lemma SeqShape(d: Dom, pre: MountedSeq, m: Mounted, p: NodeId)
    requires Extends(pre.dom, m.dom) && d.next <= pre.dom.next
    requires AttachedSeq(pre.dom.kids.Keys, pre.dom.parentOf, pre.vdoms, p) && DescendsSeq(pre.vdoms, p)
    requires InRangeSeq(pre.vdoms, d.next, pre.dom.next)
    requires Attached(m.dom.kids.Keys, m.dom.parentOf, m.vdom, p) && Descends(m.vdom, p) && InRange(m.vdom, pre.dom.next, m.dom.next)
    ensures var vs := pre.vdoms + [m.vdom];
      AttachedSeq(m.dom.kids.Keys, m.dom.parentOf, vs, p) && DescendsSeq(vs, p) && InRangeSeq(vs, d.next, m.dom.next)
  {
    var vs := pre.vdoms + [m.vdom];
    AttachedGrows(pre.dom.kids.Keys, pre.dom.parentOf, m.dom.kids.Keys, m.dom.parentOf, Fragment(pre.vdoms, None), p);
    InRangeWiden(Fragment(pre.vdoms, None), d.next, pre.dom.next, d.next, m.dom.next);
    InRangeWiden(m.vdom, pre.dom.next, m.dom.next, d.next, m.dom.next);
    assert forall i :: 0 <= i < |pre.vdoms| ==> vs[i] == pre.vdoms[i];
  }

  lemma SeqStep(d: Dom, pre: MountedSeq, m: Mounted, p: NodeId)
    requires PlacedSeq(d, pre.dom, pre.vdoms, p) && Placed(pre.dom, m.dom, m.vdom, p)
    ensures PlacedSeq(d, m.dom, pre.vdoms + [m.vdom], p)
  {
    EffectTrans(d, pre.dom, m.dom, p, TopsSeq(pre.vdoms), RegistrationsSeq(pre.vdoms), Tops(m.vdom), Registrations(m.vdom));
    TopsSeqSnoc(pre.vdoms, m.vdom);
    SeqShape(d, pre, m, p);
  }

  /** What mounting one tree does to the store; see `Placed`. */
  lemma {:induction false} MountEffect(d: Dom, v: VNode, p: NodeId, index: Option<int>, host: Option<nat>)
    requires d.Good() && p in d.kids && WellFormed(v) && Mount(d, v, p, index, host).Success?
    ensures Placed(d, Mount(d, v, p, index, host).value.dom, Mount(d, v, p, index, host).value.vdom, p)
    decreases v, 1
  {
    match v
    case Text(_, _) => TextCase(d, v, p, index, host);
    case Element(tag, props, children, _, _) =>
      var pe := ExtractPropsAndEvents(props);
      var d2 := AddListeners(CreateNode(d, ElementNode(tag, pe.props)), d.next, pe.events);
      MountSeqEffect(d2, children, d.next, None, host);
      ElementCase(d, v, p, index, host);
    case Fragment(children, _) =>
      MountSeqEffect(d, children, p, FragmentIndex(index), host);
      FragmentCase(d, v, p, index, host);
    case Component(_, _, _, _, _) => ComponentCase(d, v, p, index, host);
  }

  lemma {:induction false} MountSeqEffect(d: Dom, cs: seq<VNode>, p: NodeId, index: Option<int>, host: Option<nat>)
    requires d.Good() && p in d.kids && (forall i :: 0 <= i < |cs| ==> WellFormed(cs[i]))
    requires MountSeq(d, cs, p, index, host).Success?
    ensures PlacedSeq(d, MountSeq(d, cs, p, index, host).value.dom, MountSeq(d, cs, p, index, host).value.vdoms, p)
    decreases cs, 0
  {
    if cs == [] {
      EffectNone(d, d, p);
    } else {
      var last := cs[|cs| - 1];
      assert last in cs;
      var pre := MountSeq(d, cs[..|cs| - 1], p, index, host).value;
      MountSeqEffect(d, cs[..|cs| - 1], p, index, host);
      MountEffect(pre.dom, last, p, index, host);
      SeqStep(d, pre, Mount(pre.dom, last, p, index, host).value, p);
    }
  }

  // ---------------------------------------------------------------------------
  // Where the nodes land

  /** The parts of `MountSeqEffect` the placement lemmas use. */
  lemma MountSeqGood(d: Dom, cs: seq<VNode>, p: NodeId, index: Option<int>, host: Option<nat>)
    requires d.Good() && p in d.kids && (forall i :: 0 <= i < |cs| ==> WellFormed(cs[i]))
    requires MountSeq(d, cs, p, index, host).Success?
    ensures MountSeq(d, cs, p, index, host).value.dom.Good() && p in MountSeq(d, cs, p, index, host).value.dom.kids
  {
    MountSeqEffect(d, cs, p, index, host);
  }

  /** Mounting children keeps every node and registration already there, and every other child list. */
  lemma MountSeqExtends(d: Dom, cs: seq<VNode>, p: NodeId, index: Option<int>, host: Option<nat>)
    requires d.Good() && p in d.kids && (forall i :: 0 <= i < |cs| ==> WellFormed(cs[i]))
    requires MountSeq(d, cs, p, index, host).Success?
    ensures Extends(d, MountSeq(d, cs, p, index, host).value.dom)
    ensures d.registered <= MountSeq(d, cs, p, index, host).value.dom.registered
    ensures forall q :: q in d.kids && q != p ==> MountSeq(d, cs, p, index, host).value.dom.kids[q] == d.kids[q]
  {
    MountSeqEffect(d, cs, p, index, host);
  }

  lemma MountSeqOther(d: Dom, cs: seq<VNode>, p: NodeId, index: Option<int>, host: Option<nat>, q: NodeId)
    requires d.Good() && p in d.kids && (forall i :: 0 <= i < |cs| ==> WellFormed(cs[i]))
    requires MountSeq(d, cs, p, index, host).Success? && q in d.kids && q != p
    ensures MountSeq(d, cs, p, index, host).value.dom.kids[q] == d.kids[q]
  {
    MountSeqEffect(d, cs, p, index, host);
  }

  lemma ElementAppends(d: Dom, v: VNode, p: NodeId, host: Option<nat>)
    requires d.Good() && p in d.kids && WellFormed(v) && v.Element? && Mount(d, v, p, None, host).Success?
    ensures Mount(d, v, p, None, host).value.dom.kids[p] == d.kids[p] + Tops(Mount(d, v, p, None, host).value.vdom)
  {
    var pe := ExtractPropsAndEvents(v.props);
    var d2 := AddListeners(CreateNode(d, ElementNode(v.tag, pe.props)), d.next, pe.events);
    MountSeqOther(d2, v.children, d.next, None, host, p);
  }

  /** Mounted with a null index, a tree's top nodes are appended to the parent, in order. */
  lemma {:induction false} MountAppends(d: Dom, v: VNode, p: NodeId, host: Option<nat>)
    requires d.Good() && p in d.kids && WellFormed(v) && Mount(d, v, p, None, host).Success?
    ensures Mount(d, v, p, None, host).value.dom.kids[p] == d.kids[p] + Tops(Mount(d, v, p, None, host).value.vdom)
    decreases v, 1
  {
    match v
    case Text(_, _) =>
    case Element(_, _, _, _, _) => ElementAppends(d, v, p, host);
    case Fragment(children, _) =>
      MountSeqAppends(d, children, p, host);
    case Component(_, _, _, _, _) =>
      assert d.kids[p] + [] == d.kids[p];
  }

  lemma AppendStep(k0: seq<NodeId>, k1: seq<NodeId>, k2: seq<NodeId>, vs: seq<VNode>, v: VNode)
    requires k1 == k0 + TopsSeq(vs) && k2 == k1 + Tops(v)
    ensures k2 == k0 + TopsSeq(vs + [v])
  {
    TopsSeqSnoc(vs, v);
  }

  lemma {:induction false} MountSeqAppends(d: Dom, cs: seq<VNode>, p: NodeId, host: Option<nat>)
    requires d.Good() && p in d.kids && (forall i :: 0 <= i < |cs| ==> WellFormed(cs[i]))
    requires MountSeq(d, cs, p, None, host).Success?
    ensures MountSeq(d, cs, p, None, host).value.dom.kids[p] == d.kids[p] + TopsSeq(MountSeq(d, cs, p, None, host).value.vdoms)
    decreases cs, 0
  {
    if cs != [] {
      var last := cs[|cs| - 1];
      assert last in cs;
      var init := cs[..|cs| - 1];
      assert forall i :: 0 <= i < |init| ==> WellFormed(init[i]);
      var pre := MountSeq(d, init, p, None, host).value;
      MountSeqAppends(d, init, p, host);
      MountSeqGood(d, init, p, None, host);
      var m := Mount(pre.dom, last, p, None, host).value;
      assert MountSeq(d, cs, p, None, host).value == MountedSeq(m.dom, pre.vdoms + [m.vdom], pre.hooks + m.hooks);
      MountAppends(pre.dom, last, p, host);
      AppendStep(d.kids[p], pre.dom.kids[p], m.dom.kids[p], pre.vdoms, m.vdom);
    } else {
      assert d.kids[p] + [] == d.kids[p];
    }
  }

  /**
   * Mounting a text node creates exactly one node, `d.next`, holding the text;
   * `el` points to it and it is inserted into the parent by the `insert` index
   * rule.
   */
  lemma MountText(d: Dom, v: VNode, p: NodeId, index: Option<int>, host: Option<nat>)
    requires d.Good() && p in d.kids && v.Text? && Mount(d, v, p, index, host).Success?
    ensures var m := Mount(d, v, p, index, host).value;
      m.vdom == Text(v.value, Some(d.next)) && d.next !in d.kids[p] && m.dom.next == d.next + 1 &&
      m.dom.nodes == d.nodes[d.next := TextNode(v.value)] &&
      m.dom.kids[p] == InsertAt(d.kids[p], d.next, index).value
  {
    assert forall y :: y in d.kids[p] ==> y < d.next;
  }

  /**
   * Mounting an element creates the node `d.next` holding its attributes, with
   * its listeners registered; `el` and `listeners` are set; its children are
   * appended, in order, to the element itself; and the element is inserted into
   * the parent by the `insert` index rule.
   */
  lemma MountElement(d: Dom, v: VNode, p: NodeId, index: Option<int>, host: Option<nat>)
    requires d.Good() && p in d.kids && WellFormed(v) && v.Element? && Mount(d, v, p, index, host).Success?
    ensures var m := Mount(d, v, p, index, host).value;
      var pe := ExtractPropsAndEvents(v.props);
      m.vdom.el == Some(d.next) && m.vdom.listeners == Some(pe.events) && d.next !in d.kids[p] &&
      d.next in m.dom.nodes && m.dom.nodes[d.next] == ElementNode(v.tag, pe.props) &&
      m.dom.kids[d.next] == TopsSeq(m.vdom.children) &&
      m.dom.kids[p] == InsertAt(d.kids[p], d.next, index).value &&
      Regs(d.next, pe.events) <= m.dom.registered
  {
    assert forall y :: y in d.kids[p] ==> y < d.next;
    var pe := ExtractPropsAndEvents(v.props);
    var d2 := AddListeners(CreateNode(d, ElementNode(v.tag, pe.props)), d.next, pe.events);
    MountSeqGood(d2, v.children, d.next, None, host);
    MountSeqAppends(d2, v.children, d.next, host);
    var ms := MountSeq(d2, v.children, d.next, None, host).value;
    MountSeqExtends(d2, v.children, d.next, None, host);
    var d3 := Insert(ms.dom, d.next, p, index).value;
    assert Mount(d, v, p, index, host).value == Mounted(d3, Element(v.tag, v.props, ms.vdoms, Some(d.next), Some(pe.events)), ms.hooks);
    ElementNodeFacts(d, d2, ms.dom, d3, v.tag, pe.props, pe.events, TopsSeq(ms.vdoms), p, index);
  }

  /** The stores of the element case, from before the node is created to after it is inserted. */
  lemma ElementNodeFacts(d: Dom, d2: Dom, e: Dom, d3: Dom, tag: string, attrs: Props, events: Obj<Value>,
                         tops: seq<NodeId>, p: NodeId, index: Option<int>)
    requires d.Good() && p in d.kids
    requires d2 == AddListeners(CreateNode(d, ElementNode(tag, attrs)), d.next, events)
    requires Extends(d2, e) && d2.registered <= e.registered && d.next in e.kids
    requires e.kids[d.next] == d2.kids[d.next] + tops
    requires forall q :: q in d2.kids && q != d.next ==> e.kids[q] == d2.kids[q]
    requires Insert(e, d.next, p, index).Success? && d3 == Insert(e, d.next, p, index).value
    ensures d.next !in d.kids[p]
    ensures d.next in d3.nodes && d3.nodes[d.next] == ElementNode(tag, attrs)
    ensures d3.kids[d.next] == tops
    ensures d3.kids[p] == InsertAt(d.kids[p], d.next, index).value
    ensures Regs(d.next, events) <= d3.registered
  {
    assert forall y :: y in d.kids[p] ==> y < d.next;
    assert p != d.next;
    assert [] + tops == tops;
  }

  /** Mounting a slot is an error, and so is a negative index for a text node. */
  lemma MountErrors(d: Dom, v: VNode, p: NodeId, index: Option<int>, host: Option<nat>)
    requires d.Good() && p in d.kids && WellFormed(v)
    ensures v.Slot? ==> Mount(d, v, p, index, host) == Failure("Can't mount DOM of type: slot")
    ensures v.Text? && index.Some? && index.value < 0 ==>
      Mount(d, v, p, index, host) == Failure("Index must be a positive integer, got " + IntString(index.value))
  {
  }

  /**
   * A fragment puts no node of its own anywhere, and its `el` is the parent.
   * Its children all get `index + 1` when `index` is non-zero; at index 0 or a
   * null index they are appended to the parent, in order.
   */
  lemma MountFragment(d: Dom, v: VNode, p: NodeId, index: Option<int>, host: Option<nat>)
    requires d.Good() && p in d.kids && WellFormed(v) && v.Fragment?
    requires Mount(d, v, p, index, host).Success?
    ensures var m := Mount(d, v, p, index, host).value;
      m.vdom.el == Some(p) && MountSeq(d, v.children, p, FragmentIndex(index), host).Success? &&
      m.dom == MountSeq(d, v.children, p, FragmentIndex(index), host).value.dom &&
      Tops(m.vdom) == TopsSeq(m.vdom.children)
    ensures index.Some? && index.value != 0 ==> FragmentIndex(index) == Some(index.value + 1)
    ensures index.None? || index.value == 0 ==>
      Mount(d, v, p, index, host).value.dom.kids[p] == d.kids[p] + Tops(Mount(d, v, p, index, host).value.vdom)
  {
    if index.None? || index.value == 0 {
      MountSeqAppends(d, v.children, p, host);
    }
  }

  // ---------------------------------------------------------------------------
  // Lifecycle hooks

  /** The component instances of a tree, in document order. */
  function Instances(v: VNode): seq<nat>
    decreases v
  {
    match v
    case Element(_, _, cs, _, _) => InstancesSeq(cs)
    case Fragment(cs, _) => InstancesSeq(cs)
    case Component(_, _, _, _, inst) => if inst.Some? then [inst.value] else []
    case _ => []
  }

  function InstancesSeq(cs: seq<VNode>): seq<nat>
    decreases cs
  {
    if cs == [] then []
    else
      assert cs[|cs| - 1] in cs;
      InstancesSeq(cs[..|cs| - 1]) + Instances(cs[|cs| - 1])
  }

  function OnMountedAll(instances: seq<nat>): (r: seq<Hook>)
    ensures |r| == |instances| && forall i :: 0 <= i < |r| ==> r[i] == OnMounted(instances[i])
  {
    seq(|instances|, i requires 0 <= i < |instances| => OnMounted(instances[i]))
  }

  lemma OnMountedAllConcat(a: seq<nat>, b: seq<nat>)
    ensures OnMountedAll(a + b) == OnMountedAll(a) + OnMountedAll(b)
  {
  }

  /**
   * A component is not rendered here: mounting constructs an instance with the
   * node's props and events split apart and the host component, calls its
   * `mount` with the parent and index, gives it the next instance number and
   * enqueues its `onMounted`; the node gets no `el`.
   */
  lemma MountComponentCall(d: Dom, v: VNode, p: NodeId, index: Option<int>, host: Option<nat>)
    requires v.Component? && p in d.kids && WellFormed(v)
    ensures var pe := ExtractPropsAndEvents(v.props);
      Mount(d, v, p, index, host) == Success(Mounted(
        d.(calls := d.calls + [MountComponent(d.instances, v.def, pe.props, pe.events, host, p, index)], instances := d.instances + 1),
        Component(v.def, v.props, v.children, None, Some(d.instances)), [OnMounted(d.instances)]))
  {
  }

  /**
   * Mounting enqueues one `onMounted` job per component in the tree, in
   * document order, and nothing else; each component gets the next instance
   * number.
   */
  lemma {:induction false} MountHooks(d: Dom, v: VNode, p: NodeId, index: Option<int>, host: Option<nat>)
    requires p in d.kids && WellFormed(v) && Mount(d, v, p, index, host).Success?
    ensures var m := Mount(d, v, p, index, host).value;
      m.hooks == OnMountedAll(Instances(m.vdom)) &&
      Instances(m.vdom) == Range(d.instances, m.dom.instances)
    decreases v, 1
  {
    if v.Element? {
      ElementHooks(d, v, p, index, host);
    } else if v.Fragment? {
      FragmentHooks(d, v, p, index, host);
    } else {
      LeafHooks(d, v, p, index, host);
    }
  }

  /** The fragment case of `MountHooks`: the hooks are those of the children. */
  lemma {:induction false} FragmentHooks(d: Dom, v: VNode, p: NodeId, index: Option<int>, host: Option<nat>)
    requires v.Fragment? && p in d.kids && WellFormed(v) && Mount(d, v, p, index, host).Success?
    ensures var m := Mount(d, v, p, index, host).value;
      m.hooks == OnMountedAll(Instances(m.vdom)) &&
      Instances(m.vdom) == Range(d.instances, m.dom.instances)
    decreases v, 0
  {
    MountSeqHooks(d, v.children, p, FragmentIndex(index), host);
    var ms := MountSeq(d, v.children, p, FragmentIndex(index), host).value;
    assert Mount(d, v, p, index, host).value == Mounted(ms.dom, Fragment(ms.vdoms, Some(p)), ms.hooks);
  }

  /** A text node mounts no component; a component node mounts exactly one. */
  lemma LeafHooks(d: Dom, v: VNode, p: NodeId, index: Option<int>, host: Option<nat>)
    requires v.Text? || v.Component? || v.Slot?
    requires p in d.kids && WellFormed(v) && Mount(d, v, p, index, host).Success?
    ensures var m := Mount(d, v, p, index, host).value;
      m.hooks == OnMountedAll(Instances(m.vdom)) &&
      Instances(m.vdom) == Range(d.instances, m.dom.instances)
  {
    if v.Component? {
      MountComponentCall(d, v, p, index, host);
      assert Range(d.instances, d.instances + 1) == [d.instances];
    }
  }

  /** The element case of `MountHooks`: the hooks are those of the children. */
  lemma {:induction false} ElementHooks(d: Dom, v: VNode, p: NodeId, index: Option<int>, host: Option<nat>)
    requires v.Element? && p in d.kids && WellFormed(v) && Mount(d, v, p, index, host).Success?
    ensures var m := Mount(d, v, p, index, host).value;
      m.hooks == OnMountedAll(Instances(m.vdom)) &&
      Instances(m.vdom) == Range(d.instances, m.dom.instances)
    decreases v, 0
  {
    var pe := ExtractPropsAndEvents(v.props);
    var d2 := AddListeners(CreateNode(d, ElementNode(v.tag, pe.props)), d.next, pe.events);
    MountSeqHooks(d2, v.children, d.next, None, host);
    var ms := MountSeq(d2, v.children, d.next, None, host).value;
    var d3 := Insert(ms.dom, d.next, p, index).value;
    assert Mount(d, v, p, index, host).value == Mounted(d3, Element(v.tag, v.props, ms.vdoms, Some(d.next), Some(pe.events)), ms.hooks);
  }

  lemma {:induction false} MountSeqHooks(d: Dom, cs: seq<VNode>, p: NodeId, index: Option<int>, host: Option<nat>)
    requires p in d.kids && (forall i :: 0 <= i < |cs| ==> WellFormed(cs[i]))
    requires MountSeq(d, cs, p, index, host).Success?
    ensures var ms := MountSeq(d, cs, p, index, host).value;
      ms.hooks == OnMountedAll(InstancesSeq(ms.vdoms)) &&
      InstancesSeq(ms.vdoms) == Range(d.instances, ms.dom.instances)
    decreases cs, 0
  {
    if cs != [] {
      var last := cs[|cs| - 1];
      assert last in cs;
      var init := cs[..|cs| - 1];
      assert forall i :: 0 <= i < |init| ==> WellFormed(init[i]);
      var pre := MountSeq(d, init, p, index, host).value;
      MountSeqHooks(d, init, p, index, host);
      var m := Mount(pre.dom, last, p, index, host).value;
      MountHooks(pre.dom, last, p, index, host);
      assert MountSeq(d, cs, p, index, host).value == MountedSeq(m.dom, pre.vdoms + [m.vdom], pre.hooks + m.hooks);
      HooksStep(pre.vdoms, m.vdom, pre.hooks, m.hooks, d.instances, pre.dom.instances, m.dom.instances);
    }
  }

  lemma HooksStep(vs: seq<VNode>, v: VNode, h1: seq<Hook>, h2: seq<Hook>, a: nat, b: nat, c: nat)
    requires a <= b <= c
    requires h1 == OnMountedAll(InstancesSeq(vs)) && InstancesSeq(vs) == Range(a, b)
    requires h2 == OnMountedAll(Instances(v)) && Instances(v) == Range(b, c)
    ensures h1 + h2 == OnMountedAll(InstancesSeq(vs + [v])) && InstancesSeq(vs + [v]) == Range(a, c)
  {
    assert (vs + [v])[..|vs|] == vs;
    OnMountedAllConcat(InstancesSeq(vs), Instances(v));
    RangeConcat(a, b, c);
  }

  /** The numbers `lo`, `lo + 1`, ..., `hi - 1`. */
  function Range(lo: nat, hi: nat): (r: seq<nat>)
    ensures |r| == if lo <= hi then hi - lo else 0
    ensures forall i :: 0 <= i < |r| ==> r[i] == lo + i
    decreases hi - lo
  {
    if lo >= hi then [] else [lo] + Range(lo + 1, hi)
  }

  lemma RangeConcat(a: nat, b: nat, c: nat)
    requires a <= b <= c
    ensures Range(a, c) == Range(a, b) + Range(b, c)
  {
  }
}
