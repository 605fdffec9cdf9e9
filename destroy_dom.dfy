/**
 * `destroyDOM`: removing a mounted tree's platform nodes from their parents,
 * unregistering its listeners and unmounting its components. Destroying
 * returns the tree with `el` and `listeners` cleared, the store after the
 * removals, and the lifecycle hooks it enqueued, in order.
 */
module DestroyDom {
  import opened Wrappers
  import opened Seqs
  import Objects
  import opened Values
  import opened VNodes
  import opened NodeStore
  import opened MountDom

  datatype Destroyed = Destroyed(dom: Dom, vdom: VNode, hooks: seq<Hook>)
  datatype DestroyedSeq = DestroyedSeq(dom: Dom, vdoms: seq<VNode>, hooks: seq<Hook>)

  /** `removeEventListeners(listeners, el)`: every entry's handler is unregistered from `el`. */
  function RemoveListeners(d: Dom, el: NodeId, listeners: Objects.Obj<Value>): (r: Dom)
    ensures r == d.(registered := d.registered - Regs(el, listeners))
  {
    d.(registered := d.registered - Regs(el, listeners))
  }

  /** Destroying removes no node, child list or parent link from the store of created nodes. */
  ghost predicate Keeps(d: Dom, e: Dom)
  {
    e.kids.Keys == d.kids.Keys && e.parentOf == d.parentOf && e.nodes == d.nodes && e.next == d.next
  }

  /**
   * `destroyDOM(vDom)`. A text node is removed from its parent; an element is
   * removed, its children are destroyed, and its listeners (when it has any)
   * are unregistered; a fragment destroys its children; a component is
   * unmounted and enqueues `onUnmounted`. `el` is cleared in every supported
   * case, a slot is an error, and so is a missing `el` or instance.
   */
  function Destroy(d: Dom, v: VNode): (r: Result<Destroyed>)
    ensures r.Success? ==> Keeps(d, r.value.dom)
    decreases v
  {
    match v
    case Text(value, el) =>
      if el.None? then Failure("Cannot read properties of undefined (reading 'remove')")
      else Success(Destroyed(Remove(d, el.value), Text(value, None), []))
    case Element(tag, props, children, el, listeners) =>
      if el.None? then Failure("Cannot read properties of undefined (reading 'remove')")
      else
        (match DestroySeq(Remove(d, el.value), children)
         case Failure(e) => Failure(e)
         case Success(ds) =>
           var d2 := if listeners.Some? then RemoveListeners(ds.dom, el.value, listeners.value) else ds.dom;
           Success(Destroyed(d2, Element(tag, props, ds.vdoms, None, None), ds.hooks)))
    case Fragment(children, _) =>
      (match DestroySeq(d, children)
       case Failure(e) => Failure(e)
       case Success(ds) => Success(Destroyed(ds.dom, Fragment(ds.vdoms, None), ds.hooks)))
    case Component(def, props, children, _, instance) =>
      if instance.None? then Failure("Cannot read properties of undefined (reading 'unmount')")
      else
        var i := instance.value;
        Success(Destroyed(d.(calls := d.calls + [UnmountComponent(i)]), Component(def, props, children, None, instance), [OnUnmounted(i)]))
    case Slot(_) => Failure("Can't destroy DOM of type: slot")
  }

  /** `children.forEach(destroyDOM)`: in order, stopping at the first error. */
  function DestroySeq(d: Dom, cs: seq<VNode>): (r: Result<DestroyedSeq>)
    ensures r.Success? ==> Keeps(d, r.value.dom) && |r.value.vdoms| == |cs|
    decreases cs
  {
    if cs == [] then Success(DestroyedSeq(d, [], []))
    else
      var last := cs[|cs| - 1];
      assert last in cs;
      match DestroySeq(d, cs[..|cs| - 1])
      case Failure(e) => Failure(e)
      case Success(ds) =>
        match Destroy(ds.dom, last)
        case Failure(e) => Failure(e)
        case Success(x) => Success(DestroyedSeq(x.dom, ds.vdoms + [x.vdom], ds.hooks + x.hooks))
  }

  /** An error while destroying one child ends the whole walk with an error. */
  lemma {:induction false} DestroySeqFailurePersists(d: Dom, cs: seq<VNode>, k: nat)
    requires k <= |cs| && DestroySeq(d, cs[..k]).Failure?
    ensures DestroySeq(d, cs).Failure?
    decreases |cs| - k
  {
    if k < |cs| {
      assert cs[..k + 1][..k] == cs[..k];
      DestroySeqFailurePersists(d, cs, k + 1);
    } else {
      assert cs[..k] == cs;
    }
  }

  /** The walk over the first `k` children of `cs` ended in `ds`. */
  ghost predicate DestroyedPrefix(d: Dom, cs: seq<VNode>, k: nat, ds: DestroyedSeq)
  {
    k <= |cs| && DestroySeq(d, cs[..k]) == Success(ds)
  }

  lemma DestroyedPrefixStart(d: Dom, cs: seq<VNode>)
    ensures DestroyedPrefix(d, cs, 0, DestroyedSeq(d, [], []))
  {
    assert cs[..0] == [];
  }

  /** One more child: the walk over `cs[..k + 1]` is the walk over `cs[..k]` followed by destroying `cs[k]`. */
  lemma DestroyedPrefixStep(d: Dom, cs: seq<VNode>, k: nat, ds: DestroyedSeq)
    requires DestroyedPrefix(d, cs, k, ds) && k < |cs|
    ensures Destroy(ds.dom, cs[k]).Failure? ==> DestroySeq(d, cs).Failure?
    ensures Destroy(ds.dom, cs[k]).Success? ==>
      var x := Destroy(ds.dom, cs[k]).value;
      DestroyedPrefix(d, cs, k + 1, DestroyedSeq(x.dom, ds.vdoms + [x.vdom], ds.hooks + x.hooks))
  {
    assert cs[..k + 1][..k] == cs[..k];
    assert cs[..k + 1][k] == cs[k];
    if Destroy(ds.dom, cs[k]).Failure? {
      DestroySeqFailurePersists(d, cs, k + 1);
    }
  }

  lemma DestroyedPrefixEnd(d: Dom, cs: seq<VNode>, ds: DestroyedSeq)
    requires DestroyedPrefix(d, cs, |cs|, ds)
    ensures DestroySeq(d, cs) == Success(ds)
  {
    assert cs[..|cs|] == cs;
  }

  // ---------------------------------------------------------------------------
  // The effect of destroying on the store

  /** The test that keeps every node but the ones in `a`. */
  function Outside(a: seq<NodeId>): NodeId -> bool
  {
    y => y !in a
  }

  /**
   * Going from `d` to `e` took the nodes `tops` out of `p`'s child list,
   * keeping the others in order, left every other child list outside
   * `[lo, hi)` and below `p` as it was, and removed the registrations `regs`.
   */
  ghost predicate Cleared(d: Dom, e: Dom, p: NodeId, lo: nat, hi: nat, tops: seq<NodeId>, regs: set<Registration>)
  {
    p in d.kids && Keeps(d, e) &&
    e.kids[p] == Filter(d.kids[p], Outside(tops)) &&
    (forall q :: q in d.kids && q != p && (q < p || q < lo || hi <= q) ==> e.kids[q] == d.kids[q]) &&
    e.registered == d.registered - regs
  }

  lemma FilterRemoved(s: seq<NodeId>, x: NodeId)
    ensures Filter(s, Other(x)) == Filter(s, Outside([x]))
  {
    FilterAgree(s, Other(x), Outside([x]));
  }

  lemma ClearedNone(d: Dom, e: Dom, p: NodeId, lo: nat, hi: nat)
    requires p in d.kids && e == d.(calls := e.calls)
    ensures Cleared(d, e, p, lo, hi, [], {})
  {
    FilterAgree(d.kids[p], Outside([]), y => true);
    FilterKeepsAll(d.kids[p], y => true);
  }

  lemma {:induction false} ClearedTrans(d: Dom, e: Dom, f: Dom, p: NodeId, lo: nat, hi: nat, t1: seq<NodeId>, r1: set<Registration>, t2: seq<NodeId>, r2: set<Registration>)
    requires Cleared(d, e, p, lo, hi, t1, r1) && Cleared(e, f, p, lo, hi, t2, r2)
    ensures Cleared(d, f, p, lo, hi, t1 + t2, r1 + r2)
  {
    FilterFilter(d.kids[p], Outside(t1), Outside(t2), Outside(t1 + t2));
  }

  lemma TextDestroy(d: Dom, v: VNode, p: NodeId, lo: nat, hi: nat)
    requires v.Text? && p in d.kids && Attached(d.kids.Keys, d.parentOf, v, p)
    ensures Destroy(d, v).Success?
    ensures Cleared(d, Destroy(d, v).value.dom, p, lo, hi, Tops(v), Registrations(v))
  {
    FilterRemoved(d.kids[p], v.el.value);
  }

  lemma ElementDestroy(d: Dom, v: VNode, p: NodeId, lo: nat, hi: nat)
    requires v.Element? && p in d.kids && Attached(d.kids.Keys, d.parentOf, v, p) && Descends(v, p) && InRange(v, lo, hi)
    requires DestroySeq(Remove(d, v.el.value), v.children).Success?
    requires Cleared(Remove(d, v.el.value), DestroySeq(Remove(d, v.el.value), v.children).value.dom, v.el.value, lo, hi,
                     TopsSeq(v.children), RegistrationsSeq(v.children))
    ensures Destroy(d, v).Success?
    ensures Cleared(d, Destroy(d, v).value.dom, p, lo, hi, Tops(v), Registrations(v))
  {
    var e := v.el.value;
    FilterRemoved(d.kids[p], e);
    var d1 := Remove(d, e);
    assert d1.kids[p] == Filter(d.kids[p], Outside([e]));
  }

  lemma FragmentDestroy(d: Dom, v: VNode, p: NodeId, lo: nat, hi: nat)
    requires v.Fragment? && p in d.kids
    requires DestroySeq(d, v.children).Success?
    requires Cleared(d, DestroySeq(d, v.children).value.dom, p, lo, hi, TopsSeq(v.children), RegistrationsSeq(v.children))
    ensures Destroy(d, v).Success?
    ensures Cleared(d, Destroy(d, v).value.dom, p, lo, hi, Tops(v), Registrations(v))
  {
  }

  /**
   * Destroying a tree mounted into `p` takes exactly its top nodes out of
   * `p`'s child list, keeping the others in order, unregisters exactly its
   * listeners, and touches no child list outside the tree's ids other than
   * `p`'s.
   */
  lemma {:induction false} DestroyEffect(d: Dom, v: VNode, p: NodeId, lo: nat, hi: nat)
    requires p in d.kids && Attached(d.kids.Keys, d.parentOf, v, p) && Descends(v, p) && InRange(v, lo, hi)
    ensures Destroy(d, v).Success?
    ensures Cleared(d, Destroy(d, v).value.dom, p, lo, hi, Tops(v), Registrations(v))
    decreases v, 1
  {
    match v
    case Text(_, _) => TextDestroy(d, v, p, lo, hi);
    case Element(_, _, children, el, _) =>
      var d1 := Remove(d, el.value);
      DestroySeqEffect(d1, children, el.value, lo, hi);
      ElementDestroy(d, v, p, lo, hi);
    case Fragment(children, _) =>
      DestroySeqEffect(d, children, p, lo, hi);
      FragmentDestroy(d, v, p, lo, hi);
    case Component(_, _, _, _, _) =>
      ClearedNone(d, Destroy(d, v).value.dom, p, lo, hi);
  }

  lemma SeqDestroyStep(d: Dom, pre: DestroyedSeq, x: Destroyed, cs: seq<VNode>, p: NodeId, lo: nat, hi: nat)
    requires cs != []
    requires Cleared(d, pre.dom, p, lo, hi, TopsSeq(cs[..|cs| - 1]), RegistrationsSeq(cs[..|cs| - 1]))
    requires Cleared(pre.dom, x.dom, p, lo, hi, Tops(cs[|cs| - 1]), Registrations(cs[|cs| - 1]))
    ensures Cleared(d, x.dom, p, lo, hi, TopsSeq(cs), RegistrationsSeq(cs))
  {
    ClearedTrans(d, pre.dom, x.dom, p, lo, hi, TopsSeq(cs[..|cs| - 1]), RegistrationsSeq(cs[..|cs| - 1]), Tops(cs[|cs| - 1]), Registrations(cs[|cs| - 1]));
  }

  lemma {:induction false} DestroySeqEffect(d: Dom, cs: seq<VNode>, p: NodeId, lo: nat, hi: nat)
    requires p in d.kids && AttachedSeq(d.kids.Keys, d.parentOf, cs, p) && DescendsSeq(cs, p) && InRangeSeq(cs, lo, hi)
    ensures DestroySeq(d, cs).Success?
    ensures Cleared(d, DestroySeq(d, cs).value.dom, p, lo, hi, TopsSeq(cs), RegistrationsSeq(cs))
    decreases cs, 0
  {
    if cs == [] {
      ClearedNone(d, d, p, lo, hi);
    } else {
      var last := cs[|cs| - 1];
      assert last in cs;
      var init := cs[..|cs| - 1];
      assert forall i :: 0 <= i < |init| ==> init[i] == cs[i];
      DestroySeqEffect(d, init, p, lo, hi);
      var pre := DestroySeq(d, init).value;
      DestroyEffect(pre.dom, last, p, lo, hi);
      SeqDestroyStep(d, pre, Destroy(pre.dom, last).value, cs, p, lo, hi);
    }
  }

  // ---------------------------------------------------------------------------
  // Mounting then destroying

  lemma RestoredChildren(d: Dom, m: Dom, e: Dom, r: VNode, p: NodeId)
    requires Effect(d, m, p, Tops(r), Registrations(r)) && InRange(r, d.next, m.next)
    requires Cleared(m, e, p, d.next, m.next, Tops(r), Registrations(r))
    ensures e.kids[p] == d.kids[p]
  {
    InRangeFresh(r, d.next, m.next);
    var s := m.kids[p];
    forall i | 0 <= i < |s| ensures Outside(Tops(r))(s[i]) == Below(d.next)(s[i]) {
      assert s[i] in s;
    }
    FilterAgree(s, Outside(Tops(r)), Below(d.next));
  }

  lemma RestoredRegistrations(d: Dom, m: Dom, e: Dom, r: VNode, p: NodeId)
    requires d.Good() && Effect(d, m, p, Tops(r), Registrations(r)) && InRange(r, d.next, m.next)
    requires Cleared(m, e, p, d.next, m.next, Tops(r), Registrations(r))
    ensures e.registered == d.registered
  {
    InRangeFresh(r, d.next, m.next);
    assert d.registered !! Registrations(r) by {
      forall g | g in d.registered ensures g !in Registrations(r) {
        assert g.node < d.next;
      }
    }
  }

  /**
   * Destroying a tree right after mounting it succeeds and gives every child
   * list that existed before the mount, the parent's included, back its old
   * contents, in order, and leaves exactly the listeners registered that were
   * registered before.
   */
  lemma MountThenDestroy(d: Dom, v: VNode, p: NodeId, index: Option<int>, host: Option<nat>)
    requires d.Good() && p in d.kids && WellFormed(v) && Mount(d, v, p, index, host).Success?
    ensures var m := Mount(d, v, p, index, host).value;
      Destroy(m.dom, m.vdom).Success? &&
      var e := Destroy(m.dom, m.vdom).value.dom;
      (forall q :: q in d.kids ==> q in e.kids && e.kids[q] == d.kids[q]) &&
      e.registered == d.registered
  {
    var m := Mount(d, v, p, index, host).value;
    MountEffect(d, v, p, index, host);
    DestroyEffect(m.dom, m.vdom, p, d.next, m.dom.next);
    var e := Destroy(m.dom, m.vdom).value.dom;
    RestoredChildren(d, m.dom, e, m.vdom, p);
    RestoredRegistrations(d, m.dom, e, m.vdom, p);
    forall q | q in d.kids ensures q in e.kids && e.kids[q] == d.kids[q] {
      if q != p {
        assert q < d.next;
      }
    }
  }

  // ---------------------------------------------------------------------------
  // Lifecycle hooks and cleared fields

  function OnUnmountedAll(instances: seq<nat>): (r: seq<Hook>)
    ensures |r| == |instances| && forall i :: 0 <= i < |r| ==> r[i] == OnUnmounted(instances[i])
  {
    seq(|instances|, i requires 0 <= i < |instances| => OnUnmounted(instances[i]))
  }

  function UnmountAll(instances: seq<nat>): (r: seq<ComponentCall>)
    ensures |r| == |instances| && forall i :: 0 <= i < |r| ==> r[i] == UnmountComponent(instances[i])
  {
    seq(|instances|, i requires 0 <= i < |instances| => UnmountComponent(instances[i]))
  }

  /**
   * Destroying calls `unmount` on every component of the tree and enqueues
   * exactly one `onUnmounted` job for each, both in document order, and makes
   * no other component call.
   */
  lemma {:induction false} DestroyHooks(d: Dom, v: VNode)
    requires Destroy(d, v).Success?
    ensures var x := Destroy(d, v).value;
      x.hooks == OnUnmountedAll(Instances(v)) && x.dom.calls == d.calls + UnmountAll(Instances(v))
    decreases v, 1
  {
    match v
    case Element(_, _, children, el, _) =>
      DestroySeqHooks(Remove(d, el.value), children);
    case Fragment(children, _) =>
      DestroySeqHooks(d, children);
    case _ =>
  }

  lemma {:induction false} DestroySeqHooks(d: Dom, cs: seq<VNode>)
    requires DestroySeq(d, cs).Success?
    ensures var ds := DestroySeq(d, cs).value;
      ds.hooks == OnUnmountedAll(InstancesSeq(cs)) && ds.dom.calls == d.calls + UnmountAll(InstancesSeq(cs))
    decreases cs, 0
  {
    if cs != [] {
      var last := cs[|cs| - 1];
      assert last in cs;
      var init := cs[..|cs| - 1];
      var pre := DestroySeq(d, init).value;
      DestroySeqHooks(d, init);
      var x := Destroy(pre.dom, last).value;
      DestroyHooks(pre.dom, last);
      assert DestroySeq(d, cs).value == DestroyedSeq(x.dom, pre.vdoms + [x.vdom], pre.hooks + x.hooks);
      DestroyHooksStep(InstancesSeq(init), Instances(last));
    }
  }

  lemma DestroyHooksStep(a: seq<nat>, b: seq<nat>)
    ensures OnUnmountedAll(a + b) == OnUnmountedAll(a) + OnUnmountedAll(b)
    ensures UnmountAll(a + b) == UnmountAll(a) + UnmountAll(b)
  {
  }

  /** No platform node or listener map is left on the tree: what `delete vDom.el` and `delete vdom.listeners` leave. */
  ghost predicate Detached(v: VNode)
    decreases v
  {
    match v
    case Text(_, el) => el.None?
    case Element(_, _, cs, el, ls) => el.None? && ls.None? && forall i :: 0 <= i < |cs| ==> Detached(cs[i])
    case Fragment(cs, el) => el.None? && forall i :: 0 <= i < |cs| ==> Detached(cs[i])
    case Component(_, _, _, el, _) => el.None?
    case Slot(_) => false
  }

  /**
   * A destroyed tree keeps its type and its number of children and has `el`
   * and `listeners` cleared throughout; a component keeps its instance.
   */
  lemma {:induction false} DestroyDetaches(d: Dom, v: VNode)
    requires Destroy(d, v).Success?
    ensures var r := Destroy(d, v).value.vdom;
      Detached(r) && TypeOf(r) == TypeOf(v) &&
      (v.Element? || v.Fragment? ==> |r.children| == |v.children|) &&
      (v.Component? ==> r.instance == v.instance)
    decreases v, 1
  {
    match v
    case Element(_, _, children, el, _) =>
      DestroySeqDetaches(Remove(d, el.value), children);
    case Fragment(children, _) =>
      DestroySeqDetaches(d, children);
    case _ =>
  }

  lemma {:induction false} DestroySeqDetaches(d: Dom, cs: seq<VNode>)
    requires DestroySeq(d, cs).Success?
    ensures var vs := DestroySeq(d, cs).value.vdoms; forall i :: 0 <= i < |vs| ==> Detached(vs[i])
    decreases cs, 0
  {
    if cs != [] {
      var last := cs[|cs| - 1];
      assert last in cs;
      var init := cs[..|cs| - 1];
      var pre := DestroySeq(d, init).value;
      DestroySeqDetaches(d, init);
      var x := Destroy(pre.dom, last).value;
      DestroyDetaches(pre.dom, last);
      assert DestroySeq(d, cs).value.vdoms == pre.vdoms + [x.vdom];
    }
  }

  /** The error cases: a slot, a text or element node without `el`, a component without an instance. */
  lemma DestroyErrors(d: Dom, v: VNode)
    ensures v.Slot? ==> Destroy(d, v) == Failure("Can't destroy DOM of type: slot")
    ensures (v.Text? || v.Element?) && v.el.None? ==> Destroy(d, v) == Failure("Cannot read properties of undefined (reading 'remove')")
    ensures v.Component? && v.instance.None? ==> Destroy(d, v) == Failure("Cannot read properties of undefined (reading 'unmount')")
  {
  }

  /** Destroying removes a text node from its parent and changes nothing else of the store. */
  lemma DestroyText(d: Dom, v: VNode)
    requires v.Text? && v.el.Some?
    ensures Destroy(d, v) == Success(Destroyed(Remove(d, v.el.value), Text(v.value, None), []))
  {
  }

  /**
   * Destroying an element removes its node first, then destroys its children
   * in order, then unregisters exactly the listeners it recorded.
   */
  lemma DestroyElement(d: Dom, v: VNode)
    requires v.Element? && v.el.Some? && Destroy(d, v).Success?
    ensures DestroySeq(Remove(d, v.el.value), v.children).Success?
    ensures var ds := DestroySeq(Remove(d, v.el.value), v.children).value;
      var x := Destroy(d, v).value;
      x.vdom == Element(v.tag, v.props, ds.vdoms, None, None) &&
      x.dom.kids == ds.dom.kids &&
      (v.listeners.Some? ==> x.dom.registered == ds.dom.registered - Regs(v.el.value, v.listeners.value)) &&
      (v.listeners.None? ==> x.dom == ds.dom)
  {
  }

  /**
   * Mounting then destroying a tree calls `unmount` on exactly the component
   * instances the mount created, in the order they were created, and enqueues
   * one `onUnmounted` job for each.
   */
  lemma MountThenDestroyHooks(d: Dom, v: VNode, p: NodeId, index: Option<int>, host: Option<nat>)
    requires d.Good() && p in d.kids && WellFormed(v) && Mount(d, v, p, index, host).Success?
    ensures var m := Mount(d, v, p, index, host).value;
      Destroy(m.dom, m.vdom).Success? &&
      var x := Destroy(m.dom, m.vdom).value;
      x.hooks == OnUnmountedAll(Range(d.instances, m.dom.instances)) &&
      x.dom.calls == m.dom.calls + UnmountAll(Range(d.instances, m.dom.instances))
  {
    var m := Mount(d, v, p, index, host).value;
    MountThenDestroy(d, v, p, index, host);
    MountHooks(d, v, p, index, host);
    DestroyHooks(m.dom, m.vdom);
  }
}
