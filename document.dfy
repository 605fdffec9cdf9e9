/**
 * `mountDOM` and `destroyDOM` as the runtime runs them: walks that update the
 * store of platform nodes in place, one node at a time, and call `enqueueJob`
 * on the module-level job queue for every lifecycle hook. Each walk is proved
 * to end in the state the functions `Mount` and `Destroy` describe.
 */
module Renderer {
  import opened Wrappers
  import opened Values
  import opened VNodes
  import opened NodeStore
  import opened MountDom
  import opened DestroyDom
  import opened Scheduler

  /** The jobs `enqueueJob(() => ...)` queues for a run of hooks, one per hook. */
  function HookJobs(hooks: seq<Hook>): (r: seq<Job<Hook>>)
    ensures |r| == |hooks|
  {
    seq(|hooks|, i requires 0 <= i < |hooks| => Job(hooks[i], [], false))
  }

  /** The queued jobs stand for the hooks in order; none of them enqueues more or throws. */
  lemma HookJobsSafe(hooks: seq<Hook>)
    ensures Labels(HookJobs(hooks)) == hooks && SafeSeq(HookJobs(hooks))
    ensures forall i :: 0 <= i < |hooks| ==> HookJobs(hooks)[i] == Job(hooks[i], [], false)
  {
  }

  lemma HookJobsConcat(a: seq<Hook>, b: seq<Hook>)
    ensures HookJobs(a + b) == HookJobs(a) + HookJobs(b)
  {
    assert forall i :: 0 <= i < |a + b| ==> HookJobs(a + b)[i] == (HookJobs(a) + HookJobs(b))[i];
  }

  /** The platform document: the store of created nodes, updated in place. */
  class Document {
    var dom: Dom

    constructor(d: Dom)
      ensures dom == d
    {
      dom := d;
    }

    /**
     * `mountDOM(vDom, parentElement, index, hostComponent)`: returns the
     * tree with `el`, `listeners` and the component instance filled in, or
     * the error it throws. It ends in the store `Mount` computes and queues
     * exactly its hooks, in order, leaving the jobs already run untouched.
     */
    method MountDOM(v: VNode, parent: NodeId, index: Option<int>, host: Option<nat>, jobs: JobQueue<Hook>) returns (r: Result<VNode>)
      requires parent in dom.kids && WellFormed(v) && jobs.Valid()
      modifies this, jobs
      ensures jobs.Valid() && jobs.ran == old(jobs.ran) && (old(jobs.Live()) ==> jobs.Live())
      ensures r.Success? <==> old(Mount(dom, v, parent, index, host)).Success?
      ensures r.Success? ==>
        var m := old(Mount(dom, v, parent, index, host)).value;
        r.value == m.vdom && dom == m.dom && jobs.jobs == old(jobs.jobs) + HookJobs(m.hooks)
      decreases v, 2
    {
      match v
      case Text(_, _) =>
        r := CreateTextNode(v, parent, index);
      case Element(_, _, _, _, _) =>
        r := CreateElementNode(v, parent, index, host, jobs);
      case Fragment(_, _) =>
        r := CreateFragmentNode(v, parent, index, host, jobs);
      case Component(_, _, _, _, _) =>
        r := CreateComponentNode(v, parent, index, host, jobs);
      case Slot(_) =>
        r := Failure("Can't mount DOM of type: slot");
    }

    /** `createTextNode` followed by `insert`. */
    method CreateTextNode(v: VNode, parent: NodeId, index: Option<int>) returns (r: Result<VNode>)
      requires v.Text? && parent in dom.kids
      modifies this
      ensures r.Success? <==> old(Mount(dom, v, parent, index, None)).Success?
      ensures r.Success? ==>
        var m := old(Mount(dom, v, parent, index, None)).value;
        r.value == m.vdom && dom == m.dom && m.hooks == []
    {
      var id := dom.next;
      dom := CreateNode(dom, TextNode(v.value));
      var ins := Insert(dom, id, parent, index);
      if ins.Failure? {
        return Failure(ins.error);
      }
      dom := ins.value;
      r := Success(Text(v.value, Some(id)));
    }

    /** `createElementNode`: create the element, add its listeners, mount its children into it, insert it. */
    method CreateElementNode(v: VNode, parent: NodeId, index: Option<int>, host: Option<nat>, jobs: JobQueue<Hook>) returns (r: Result<VNode>)
      requires v.Element? && parent in dom.kids && WellFormed(v) && jobs.Valid()
      modifies this, jobs
      ensures jobs.Valid() && jobs.ran == old(jobs.ran) && (old(jobs.Live()) ==> jobs.Live())
      ensures r.Success? <==> old(Mount(dom, v, parent, index, host)).Success?
      ensures r.Success? ==>
        var m := old(Mount(dom, v, parent, index, host)).value;
        r.value == m.vdom && dom == m.dom && jobs.jobs == old(jobs.jobs) + HookJobs(m.hooks)
      decreases v, 1
    {
      var pe := ExtractPropsAndEvents(v.props);
      var id := dom.next;
      dom := AddListeners(CreateNode(dom, ElementNode(v.tag, pe.props)), id, pe.events);
      var ms := MountChildren(v.children, id, None, host, jobs);
      if ms.Failure? {
        return Failure(ms.error);
      }
      var ins := Insert(dom, id, parent, index);
      if ins.Failure? {
        return Failure(ins.error);
      }
      dom := ins.value;
      r := Success(Element(v.tag, v.props, ms.value, Some(id), Some(pe.events)));
    }

    /** `createFragmentNode`: the children go into the parent, each at `index ? index + 1 : null`. */
    method CreateFragmentNode(v: VNode, parent: NodeId, index: Option<int>, host: Option<nat>, jobs: JobQueue<Hook>) returns (r: Result<VNode>)
      requires v.Fragment? && parent in dom.kids && WellFormed(v) && jobs.Valid()
      modifies this, jobs
      ensures jobs.Valid() && jobs.ran == old(jobs.ran) && (old(jobs.Live()) ==> jobs.Live())
      ensures r.Success? <==> old(Mount(dom, v, parent, index, host)).Success?
      ensures r.Success? ==>
        var m := old(Mount(dom, v, parent, index, host)).value;
        r.value == m.vdom && dom == m.dom && jobs.jobs == old(jobs.jobs) + HookJobs(m.hooks)
      decreases v, 1
    {
      var ms := MountChildren(v.children, parent, FragmentIndex(index), host, jobs);
      if ms.Failure? {
        return Failure(ms.error);
      }
      r := Success(Fragment(ms.value, Some(parent)));
    }

    /** `createComponentNode` followed by `enqueueJob(() => vDom.component.onMounted())`. */
    method CreateComponentNode(v: VNode, parent: NodeId, index: Option<int>, host: Option<nat>, jobs: JobQueue<Hook>) returns (r: Result<VNode>)
      requires v.Component? && parent in dom.kids && WellFormed(v) && jobs.Valid()
      modifies this, jobs
      ensures jobs.Valid() && jobs.ran == old(jobs.ran) && (old(jobs.Live()) ==> jobs.Live())
      ensures old(Mount(dom, v, parent, index, host)).Success?
      ensures var m := old(Mount(dom, v, parent, index, host)).value;
        r == Success(m.vdom) && dom == m.dom && jobs.jobs == old(jobs.jobs) + HookJobs(m.hooks)
    {
      var pe := ExtractPropsAndEvents(v.props);
      var inst := dom.instances;
      MountComponentCall(dom, v, parent, index, host);
      dom := dom.(calls := dom.calls + [MountComponent(inst, v.def, pe.props, pe.events, host, parent, index)], instances := inst + 1);
      jobs.EnqueueJob(Job(OnMounted(inst), [], false));
      r := Success(Component(v.def, v.props, v.children, None, Some(inst)));
    }

    /** `children.forEach((child) => mountDOM(child, parent, index, hostComponent))`. */
    method MountChildren(cs: seq<VNode>, parent: NodeId, index: Option<int>, host: Option<nat>, jobs: JobQueue<Hook>) returns (r: Result<seq<VNode>>)
      requires parent in dom.kids && (forall i :: 0 <= i < |cs| ==> WellFormed(cs[i])) && jobs.Valid()
      modifies this, jobs
      ensures jobs.Valid() && jobs.ran == old(jobs.ran) && (old(jobs.Live()) ==> jobs.Live())
      ensures r.Success? <==> old(MountSeq(dom, cs, parent, index, host)).Success?
      ensures r.Success? ==>
        var ms := old(MountSeq(dom, cs, parent, index, host)).value;
        r.value == ms.vdoms && dom == ms.dom && jobs.jobs == old(jobs.jobs) + HookJobs(ms.hooks)
      decreases cs, 1
    {
      ghost var d0 := dom;
      ghost var q0 := jobs.jobs;
      var vs: seq<VNode> := [];
      ghost var hs: seq<Hook> := [];
      MountedPrefixStart(d0, cs, parent, index, host);
      var i := 0;
      while i < |cs|
        invariant i <= |cs| && MountedPrefix(d0, cs, i, parent, index, host, MountedSeq(dom, vs, hs))
        invariant jobs.Valid() && jobs.ran == old(jobs.ran) && (old(jobs.Live()) ==> jobs.Live())
        invariant jobs.jobs == q0 + HookJobs(hs)
      {
        var next;
        next, hs := MountNext(cs, i, parent, index, host, jobs, d0, q0, vs, hs);
        if next.Failure? {
          return Failure(next.error);
        }
        vs := next.value;
        i := i + 1;
      }
      MountedPrefixEnd(d0, cs, parent, index, host, MountedSeq(dom, vs, hs));
      r := Success(vs);
    }

    /** One turn of the `forEach` over the children: mount `cs[i]` after the first `i`. */
    method MountNext(cs: seq<VNode>, i: nat, parent: NodeId, index: Option<int>, host: Option<nat>, jobs: JobQueue<Hook>,
                     ghost d0: Dom, ghost q0: seq<Job<Hook>>, vs: seq<VNode>, ghost hs: seq<Hook>)
      returns (r: Result<seq<VNode>>, ghost hs': seq<Hook>)
      requires i < |cs| && MountedPrefix(d0, cs, i, parent, index, host, MountedSeq(dom, vs, hs))
      requires jobs.Valid() && jobs.jobs == q0 + HookJobs(hs)
      modifies this, jobs
      ensures jobs.Valid() && jobs.ran == old(jobs.ran) && (old(jobs.Live()) ==> jobs.Live())
      ensures r.Failure? ==> MountSeq(d0, cs, parent, index, host).Failure?
      ensures r.Success? ==>
        MountedPrefix(d0, cs, i + 1, parent, index, host, MountedSeq(dom, r.value, hs')) && jobs.jobs == q0 + HookJobs(hs')
      decreases cs, 0
    {
      MountedPrefixReady(d0, cs, i, parent, index, host, MountedSeq(dom, vs, hs));
      ghost var dom0 := dom;
      assert cs[i] in cs;
      var x := MountDOM(cs[i], parent, index, host, jobs);
      ghost var m := Mount(dom0, cs[i], parent, index, host);
      MountedPrefixAfter(d0, cs, i, parent, index, host, MountedSeq(dom0, vs, hs), x, dom);
      if x.Failure? {
        return Failure(x.error), hs;
      }
      HookJobsConcat(hs, m.value.hooks);
      assert jobs.jobs == q0 + HookJobs(hs) + HookJobs(m.value.hooks);
      assert q0 + HookJobs(hs) + HookJobs(m.value.hooks) == q0 + HookJobs(hs + m.value.hooks);
      r, hs' := Success(vs + [x.value]), hs + m.value.hooks;
    }

    /**
     * `destroyDOM(vDom)`: returns the tree with `el` and `listeners` cleared,
     * or the error it throws. It ends in the store `Destroy` computes and
     * queues exactly its `onUnmounted` hooks, in order.
     */
    method DestroyDOM(v: VNode, jobs: JobQueue<Hook>) returns (r: Result<VNode>)
      requires jobs.Valid()
      modifies this, jobs
      ensures jobs.Valid() && jobs.ran == old(jobs.ran) && (old(jobs.Live()) ==> jobs.Live())
      ensures r.Success? <==> old(Destroy(dom, v)).Success?
      ensures r.Success? ==>
        var x := old(Destroy(dom, v)).value;
        r.value == x.vdom && dom == x.dom && jobs.jobs == old(jobs.jobs) + HookJobs(x.hooks)
      decreases v, 2
    {
      match v
      case Text(value, el) =>
        r := RemoveTextNode(v);
      case Element(_, _, _, _, _) =>
        r := RemoveElementNode(v, jobs);
      case Fragment(_, _) =>
        r := RemoveFragmentNodes(v, jobs);
      case Component(def, props, children, _, instance) =>
        if instance.None? {
          return Failure("Cannot read properties of undefined (reading 'unmount')");
        }
        dom := dom.(calls := dom.calls + [UnmountComponent(instance.value)]);
        jobs.EnqueueJob(Job(OnUnmounted(instance.value), [], false));
        r := Success(Component(def, props, children, None, instance));
      case Slot(_) =>
        r := Failure("Can't destroy DOM of type: slot");
    }

    /** `removeTextNode`: `el.remove()`. */
    method RemoveTextNode(v: VNode) returns (r: Result<VNode>)
      requires v.Text?
      modifies this
      ensures r.Success? <==> old(Destroy(dom, v)).Success?
      ensures r.Success? ==> var x := old(Destroy(dom, v)).value; r.value == x.vdom && dom == x.dom && x.hooks == []
    {
      if v.el.None? {
        return Failure("Cannot read properties of undefined (reading 'remove')");
      }
      dom := Remove(dom, v.el.value);
      r := Success(Text(v.value, None));
    }

    /** `removeElementNode`: `el.remove()`, destroy the children, then unregister the listeners. */
    method RemoveElementNode(v: VNode, jobs: JobQueue<Hook>) returns (r: Result<VNode>)
      requires v.Element? && jobs.Valid()
      modifies this, jobs
      ensures jobs.Valid() && jobs.ran == old(jobs.ran) && (old(jobs.Live()) ==> jobs.Live())
      ensures r.Success? <==> old(Destroy(dom, v)).Success?
      ensures r.Success? ==>
        var x := old(Destroy(dom, v)).value;
        r.value == x.vdom && dom == x.dom && jobs.jobs == old(jobs.jobs) + HookJobs(x.hooks)
      decreases v, 1
    {
      if v.el.None? {
        return Failure("Cannot read properties of undefined (reading 'remove')");
      }
      dom := Remove(dom, v.el.value);
      var ds := DestroyChildren(v.children, jobs);
      if ds.Failure? {
        return Failure(ds.error);
      }
      if v.listeners.Some? {
        dom := RemoveListeners(dom, v.el.value, v.listeners.value);
      }
      r := Success(Element(v.tag, v.props, ds.value, None, None));
    }

    /** `removeFragmentNodes`: destroy the children; the fragment has no node of its own. */
    method RemoveFragmentNodes(v: VNode, jobs: JobQueue<Hook>) returns (r: Result<VNode>)
      requires v.Fragment? && jobs.Valid()
      modifies this, jobs
      ensures jobs.Valid() && jobs.ran == old(jobs.ran) && (old(jobs.Live()) ==> jobs.Live())
      ensures r.Success? <==> old(Destroy(dom, v)).Success?
      ensures r.Success? ==>
        var x := old(Destroy(dom, v)).value;
        r.value == x.vdom && dom == x.dom && jobs.jobs == old(jobs.jobs) + HookJobs(x.hooks)
      decreases v, 1
    {
      var ds := DestroyChildren(v.children, jobs);
      if ds.Failure? {
        return Failure(ds.error);
      }
      r := Success(Fragment(ds.value, None));
    }

    /** `children.forEach(destroyDOM)`. */
    method DestroyChildren(cs: seq<VNode>, jobs: JobQueue<Hook>) returns (r: Result<seq<VNode>>)
      requires jobs.Valid()
      modifies this, jobs
      ensures jobs.Valid() && jobs.ran == old(jobs.ran) && (old(jobs.Live()) ==> jobs.Live())
      ensures r.Success? <==> old(DestroySeq(dom, cs)).Success?
      ensures r.Success? ==>
        var ds := old(DestroySeq(dom, cs)).value;
        r.value == ds.vdoms && dom == ds.dom && jobs.jobs == old(jobs.jobs) + HookJobs(ds.hooks)
      decreases cs, 1
    {
      ghost var d0 := dom;
      ghost var q0 := jobs.jobs;
      var vs: seq<VNode> := [];
      ghost var hs: seq<Hook> := [];
      DestroyedPrefixStart(d0, cs);
      var i := 0;
      while i < |cs|
        invariant i <= |cs| && DestroyedPrefix(d0, cs, i, DestroyedSeq(dom, vs, hs))
        invariant jobs.Valid() && jobs.ran == old(jobs.ran) && (old(jobs.Live()) ==> jobs.Live())
        invariant jobs.jobs == q0 + HookJobs(hs)
      {
        var next;
        next, hs := DestroyNext(cs, i, jobs, d0, q0, vs, hs);
        if next.Failure? {
          return Failure(next.error);
        }
        vs := next.value;
        i := i + 1;
      }
      DestroyedPrefixEnd(d0, cs, DestroyedSeq(dom, vs, hs));
      r := Success(vs);
    }

    /** One turn of the `forEach` over the children: destroy `cs[i]` after the first `i`. */
    method DestroyNext(cs: seq<VNode>, i: nat, jobs: JobQueue<Hook>, ghost d0: Dom, ghost q0: seq<Job<Hook>>, vs: seq<VNode>, ghost hs: seq<Hook>)
      returns (r: Result<seq<VNode>>, ghost hs': seq<Hook>)
      requires i < |cs| && DestroyedPrefix(d0, cs, i, DestroyedSeq(dom, vs, hs))
      requires jobs.Valid() && jobs.jobs == q0 + HookJobs(hs)
      modifies this, jobs
      ensures jobs.Valid() && jobs.ran == old(jobs.ran) && (old(jobs.Live()) ==> jobs.Live())
      ensures r.Failure? ==> DestroySeq(d0, cs).Failure?
      ensures r.Success? ==> DestroyedPrefix(d0, cs, i + 1, DestroyedSeq(dom, r.value, hs')) && jobs.jobs == q0 + HookJobs(hs')
      decreases cs, 0
    {
      DestroyedPrefixStep(d0, cs, i, DestroyedSeq(dom, vs, hs));
      ghost var x := Destroy(dom, cs[i]);
      assert cs[i] in cs;
      var y := DestroyDOM(cs[i], jobs);
      if y.Failure? {
        return Failure(y.error), hs;
      }
      HookJobsConcat(hs, x.value.hooks);
      r, hs' := Success(vs + [y.value]), hs + x.value.hooks;
    }
  }
}
