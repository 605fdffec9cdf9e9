/**
 * The class `defineComponent` returns: an instance's props and state, its
 * private dispatcher and the subscriptions that wire its event handlers to
 * it, and the lifecycle guards of `mount`, `unmount`, `updateState`,
 * `updateProps` and `#patch`. Rendering and patching are functions the
 * definition supplies; mounting and destroying go through the document's
 * `MountDOM` and `DestroyDOM`.
 */
module Components {
  import opened Wrappers
  import opened Objects
  import opened Values
  import opened VNodes
  import opened NodeStore
  import opened MountDom
  import opened DestroyDom
  import opened Scheduler
  import opened Dispatching
  import opened Renderer

  class Component {
    /** The instance number hooks are tagged with. */
    const id: nat
    /** `render.call(this)`, as a function of props and state. */
    const render: (Props, Props) -> VNode
    /** The returned tree of `patchDOM(oldVdom, newVdom, hostEl, this)`; its platform effects are not modelled. */
    const patch: (VNode, VNode) -> VNode
    const doc: Document
    const jobs: JobQueue<Hook>
    const dispatcher: Dispatcher
    const eventHandlers: Obj<Value>
    const parentComponent: Option<nat>

    var props: Props
    var state: Props
    var isMounted: bool
    var vdom: Option<VNode>
    var hostEl: Option<NodeId>
    var subscriptions: seq<Canceller>
    /** Handler wrappers made so far; each `#wireEventHandler` makes a new one. */
    var wrappers: nat
    /** The first wrapper of the current wiring. */
    ghost var wiredFrom: nat

    /**
     * While mounted, the `j`-th event handler is subscribed under its name as
     * the `j`-th wrapper of the current wiring, alone, and the `j`-th
     * subscription cancels it; no other name has a handler, and nothing is
     * subscribed while unmounted.
     */
    ghost predicate Valid()
      reads this, dispatcher
    {
      props.Valid() && state.Valid() && eventHandlers.Valid() && dispatcher.Valid() &&
      dispatcher.afterHandlers == [] &&
      (forall n :: n in dispatcher.subs && !(isMounted && n in eventHandlers.vals) ==> dispatcher.subs[n] == []) &&
      (isMounted ==> vdom.Some? && hostEl.Some? && Wired(eventHandlers.keys, wiredFrom, subscriptions, dispatcher.subs)) &&
      (!isMounted ==> subscriptions == [])
    }

    /** `constructor(props, eventHandlers, parentComponent)`. */
    constructor(id: nat, props: Props, eventHandlers: Obj<Value>, parentComponent: Option<nat>, stateInit: Option<Props -> Props>,
                render: (Props, Props) -> VNode, patch: (VNode, VNode) -> VNode, doc: Document, jobs: JobQueue<Hook>)
      requires props.Valid() && eventHandlers.Valid()
      requires stateInit.Some? ==> stateInit.value(props).Valid()
      ensures Valid() && fresh(dispatcher)
      ensures this.props == props && this.state == (if stateInit.Some? then stateInit.value(props) else Empty())
      ensures this.eventHandlers == eventHandlers && this.parentComponent == parentComponent
      ensures !isMounted && vdom.None? && hostEl.None? && subscriptions == [] && dispatcher.subs == map[]
      ensures this.id == id && this.render == render && this.patch == patch && this.doc == doc && this.jobs == jobs
    {
      this.id := id;
      this.render := render;
      this.patch := patch;
      this.doc := doc;
      this.jobs := jobs;
      this.eventHandlers := eventHandlers;
      this.parentComponent := parentComponent;
      this.props := props;
      this.state := if stateInit.Some? then stateInit.value(props) else Empty();
      this.dispatcher := new Dispatcher();
      isMounted := false;
      vdom := None;
      hostEl := None;
      subscriptions := [];
      wrappers := 0;
      wiredFrom := 0;
    }

    /**
     * `mount(hostEl, index)`: an error when already mounted; otherwise the
     * rendered tree is mounted into the host with this instance as host
     * component, the event handlers are wired and the instance is mounted.
     * An error from mounting the tree is passed on with the instance still
     * unmounted.
     */
    method Mount(host: NodeId, index: Option<int>) returns (r: Outcome)
      requires Valid() && jobs.Valid() && host in doc.dom.kids && WellFormed(render(props, state))
      modifies this, doc, jobs, dispatcher
      ensures Valid() && jobs.Valid() && jobs.ran == old(jobs.ran)
      ensures old(isMounted) ==>
        r == Fail("Component is already mounted") && isMounted &&
        unchanged(this) && unchanged(doc) && unchanged(jobs) && unchanged(dispatcher)
      ensures !old(isMounted) ==>
        var m := old(MountDom.Mount(doc.dom, render(props, state), host, index, Some(id)));
        props == old(props) && state == old(state) &&
        (r.Pass? <==> m.Success?) &&
        (m.Failure? ==> r.Fail? && !isMounted && vdom == Some(old(render(props, state))) && dispatcher.subs == old(dispatcher.subs)) &&
        (m.Success? ==>
          isMounted && vdom == Some(m.value.vdom) && hostEl == Some(host) &&
          doc.dom == m.value.dom && jobs.jobs == old(jobs.jobs) + HookJobs(m.value.hooks) &&
          |subscriptions| == |eventHandlers.keys| && wiredFrom == old(wrappers) &&
          wrappers == old(wrappers) + |eventHandlers.keys|)
    {
      if isMounted {
        return Fail("Component is already mounted");
      }
      r := MountUnmounted(host, index);
    }

    /** `mount` past its guard: render, mount the tree, wire the handlers. */
    method MountUnmounted(host: NodeId, index: Option<int>) returns (r: Outcome)
      requires !isMounted && Valid() && jobs.Valid() && host in doc.dom.kids && WellFormed(render(props, state))
      modifies this, doc, jobs, dispatcher
      ensures Valid() && jobs.Valid() && jobs.ran == old(jobs.ran)
      ensures var m := old(MountDom.Mount(doc.dom, render(props, state), host, index, Some(id)));
        props == old(props) && state == old(state) &&
        (r.Pass? <==> m.Success?) &&
        (m.Failure? ==> r.Fail? && !isMounted && vdom == Some(old(render(props, state))) && dispatcher.subs == old(dispatcher.subs)) &&
        (m.Success? ==>
          isMounted && vdom == Some(m.value.vdom) && hostEl == Some(host) &&
          doc.dom == m.value.dom && jobs.jobs == old(jobs.jobs) + HookJobs(m.value.hooks) &&
          |subscriptions| == |eventHandlers.keys| && wiredFrom == old(wrappers) &&
          wrappers == old(wrappers) + |eventHandlers.keys|)
    {
      vdom := Some(render(props, state));
      var mounted := doc.MountDOM(vdom.value, host, index, Some(id), jobs);
      if mounted.Failure? {
        return Fail(mounted.error);
      }
      vdom := Some(mounted.value);
      WireAndMark(host);
      r := Pass;
    }

    /** The end of `mount`: the handlers are wired, then the host is recorded and the instance is mounted. */
    method WireAndMark(host: NodeId)
      requires !isMounted && Valid() && vdom.Some?
      modifies this, dispatcher
      ensures Valid() && isMounted && hostEl == Some(host)
      ensures props == old(props) && state == old(state) && vdom == old(vdom)
      ensures |subscriptions| == |eventHandlers.keys| && wiredFrom == old(wrappers) &&
        wrappers == old(wrappers) + |eventHandlers.keys|
    {
      WireEventHandlers();
      hostEl := Some(host);
      isMounted := true;
    }


    /**
     * `#wireEventHandlers()`: one subscription per entry of `eventHandlers`,
     * in key order, each subscribing a new wrapper under the entry's name.
     */
    method WireEventHandlers()
      requires !isMounted && Valid()
      modifies this, dispatcher
      ensures !isMounted && props == old(props) && state == old(state) && vdom == old(vdom) && hostEl == old(hostEl)
      ensures dispatcher.Valid() && dispatcher.afterHandlers == []
      ensures wiredFrom == old(wrappers) && wrappers == old(wrappers) + |eventHandlers.keys|
      ensures Wired(eventHandlers.keys, wiredFrom, subscriptions, dispatcher.subs)
      ensures forall n :: n in dispatcher.subs && n !in eventHandlers.vals ==> dispatcher.subs[n] == []
    {
      var keys := eventHandlers.keys;
      forall j | 0 <= j < |keys| ensures dispatcher.Handlers(keys[j]) == [] {
        assert keys[j] in eventHandlers.vals;
      }
      wiredFrom := wrappers;
      subscriptions := SubscribeAll(dispatcher, keys, wrappers);
      wrappers := wrappers + |keys|;
    }

    /**
     * `unmount()`: an error when not mounted; otherwise the tree is
     * destroyed, every subscription's canceller is called, and the instance
     * drops its tree and host and is no longer mounted. An error from
     * destroying the tree is passed on with the instance still mounted.
     */
    method Unmount() returns (r: Outcome)
      requires Valid() && jobs.Valid()
      modifies this, doc, jobs, dispatcher
      ensures Valid() && jobs.Valid() && jobs.ran == old(jobs.ran)
      ensures props == old(props) && state == old(state)
      ensures !old(isMounted) ==>
        r == Fail("Component is not mounted") &&
        unchanged(this) && unchanged(doc) && unchanged(jobs) && unchanged(dispatcher)
      ensures old(isMounted) ==>
        var x := old(Destroy(doc.dom, vdom.value));
        (r.Pass? <==> x.Success?) &&
        (x.Failure? ==> r.Fail? && isMounted) &&
        (x.Success? ==>
          !isMounted && subscriptions == [] && vdom.None? && hostEl.None? &&
          doc.dom == x.value.dom && jobs.jobs == old(jobs.jobs) + HookJobs(x.value.hooks) &&
          dispatcher.subs == ClearedNames(old(dispatcher.subs), eventHandlers.keys) &&
          forall n :: n in dispatcher.subs ==> dispatcher.subs[n] == [])
    {
      if !isMounted {
        return Fail("Component is not mounted");
      }
      var destroyed := doc.DestroyDOM(vdom.value, jobs);
      if destroyed.Failure? {
        return Fail(destroyed.error);
      }
      ghost var subs0 := dispatcher.subs;
      CancelAll(dispatcher, eventHandlers.keys, wiredFrom, subscriptions);
      ClearedEmpty(subs0, eventHandlers);
      subscriptions := [];
      vdom := None;
      hostEl := None;
      isMounted := false;
      r := Pass;
    }


    /** `#patch()`: an error when not mounted; otherwise the tree is patched against a fresh render. */
    method Patch() returns (r: Outcome)
      requires Valid()
      modifies this
      ensures Valid() && props == old(props) && state == old(state) && isMounted == old(isMounted)
      ensures hostEl == old(hostEl) && subscriptions == old(subscriptions)
      ensures !old(isMounted) ==> r == Fail("Component is not mounted") && vdom == old(vdom)
      ensures old(isMounted) ==> r == Pass && vdom == Some(patch(old(vdom).value, render(props, state)))
    {
      if !isMounted {
        return Fail("Component is not mounted");
      }
      vdom := Some(patch(vdom.value, render(props, state)));
      r := Pass;
    }

    /**
     * `updateState(newState)`: the state becomes the shallow merge before the
     * `#patch` guard runs, so an unmounted instance keeps the merged state and
     * throws; a mounted one is patched and enqueues `onStateChange`.
     */
    method UpdateState(newState: Props) returns (r: Outcome)
      requires Valid() && jobs.Valid() && newState.Valid()
      modifies this, jobs
      ensures Valid() && jobs.Valid() && jobs.ran == old(jobs.ran)
      ensures state == Merge(old(state), newState) && props == old(props) && isMounted == old(isMounted)
      ensures !old(isMounted) ==> r == Fail("Component is not mounted") && jobs.jobs == old(jobs.jobs)
      ensures old(isMounted) ==>
        r == Pass && vdom == Some(patch(old(vdom).value, render(props, state))) &&
        jobs.jobs == old(jobs.jobs) + [Job(OnStateChange(id), [], false)]
    {
      state := Merge(state, newState);
      r := Patch();
      if r.Fail? {
        return;
      }
      jobs.EnqueueJob(Job(OnStateChange(id), [], false));
    }

    /**
     * `updateProps(props)`: nothing happens when merging the new props in
     * leaves props deep-equal to the current ones; otherwise the props become
     * the merge before the `#patch` guard runs, and a mounted instance is
     * patched and enqueues `onPropsChange` with the new and the old props.
     */
    method UpdateProps(p: Props) returns (r: Outcome)
      requires Valid() && jobs.Valid() && p.Valid()
      modifies this, jobs
      ensures Valid() && jobs.Valid() && jobs.ran == old(jobs.ran)
      ensures state == old(state) && isMounted == old(isMounted)
      ensures DeepEqual(old(props), Merge(old(props), p)) ==> r == Pass && unchanged(this) && unchanged(jobs)
      ensures !DeepEqual(old(props), Merge(old(props), p)) ==>
        props == Merge(old(props), p) &&
        (!old(isMounted) ==> r == Fail("Component is not mounted") && jobs.jobs == old(jobs.jobs)) &&
        (old(isMounted) ==>
          r == Pass && vdom == Some(patch(old(vdom).value, render(props, state))) &&
          jobs.jobs == old(jobs.jobs) + [Job(OnPropsChange(id, props, old(props)), [], false)])
    {
      var newProps := Merge(props, p);
      if DeepEqual(props, newProps) {
        return Pass;
      }
      r := ReplaceProps(newProps);
    }

    /** `updateProps` past its deep-equality check: the props are replaced, then patched and announced. */
    method ReplaceProps(newProps: Props) returns (r: Outcome)
      requires Valid() && jobs.Valid() && newProps.Valid()
      modifies this, jobs
      ensures Valid() && jobs.Valid() && jobs.ran == old(jobs.ran)
      ensures props == newProps && state == old(state) && isMounted == old(isMounted)
      ensures !old(isMounted) ==> r == Fail("Component is not mounted") && jobs.jobs == old(jobs.jobs)
      ensures old(isMounted) ==>
        r == Pass && vdom == Some(patch(old(vdom).value, render(newProps, state))) &&
        jobs.jobs == old(jobs.jobs) + [Job(OnPropsChange(id, newProps, old(props)), [], false)]
    {
      var oldProps := props;
      props := newProps;
      r := Patch();
      if r.Fail? {
        return;
      }
      jobs.EnqueueJob(Job(OnPropsChange(id, props, oldProps), [], false));
    }

    /**
     * `emit(eventName, payload)`: the private dispatcher runs the handlers
     * wired under the name. While mounted, a name with an event handler calls
     * exactly that handler's wrapper, once, with the payload; while unmounted
     * nothing is called.
     */
    method Emit(eventName: string, payload: Value) returns (calls: seq<Invocation>, warned: bool)
      requires Valid()
      ensures !isMounted ==> calls == []
      ensures isMounted ==> forall j :: 0 <= j < |eventHandlers.keys| && eventHandlers.keys[j] == eventName ==>
        !warned && calls == [Invocation(wiredFrom + j, Some(payload))]
      ensures eventName !in dispatcher.subs ==> warned && calls == []
    {
      calls, warned := dispatcher.Dispatch(eventName, payload);
    }
  }


  /**
   * The subscriptions for the keys `keys`, with wrappers numbered from
   * `base`: the `j`-th cancels the `j`-th wrapper under the `j`-th key, which
   * is the only handler under that key.
   */
  ghost predicate Wired(keys: seq<string>, base: nat, subscriptions: seq<Canceller>, subs: map<string, seq<Handler>>)
  {
    |subscriptions| == |keys| &&
    forall j :: 0 <= j < |keys| ==>
      subscriptions[j] == Unsubscribe(keys[j], base + j) && keys[j] in subs && subs[keys[j]] == [base + j]
  }

  /** The lists after every name in `names` is emptied. */
  function ClearedNames(subs: map<string, seq<Handler>>, names: seq<string>): (r: map<string, seq<Handler>>)
    ensures r.Keys == subs.Keys
    ensures forall n :: n in r ==> r[n] == if n in names then [] else subs[n]
  {
    map n | n in subs :: if n in names then [] else subs[n]
  }

  /**
   * Subscribing the keys in order, the `j`-th with wrapper `base + j`, to a
   * dispatcher where none of them has a handler yet wires them, and leaves
   * every other name as it was.
   */
  method SubscribeAll(d: Dispatcher, keys: seq<string>, base: nat) returns (cs: seq<Canceller>)
    requires d.Valid() && Seqs.Distinct(keys)
    requires forall j :: 0 <= j < |keys| ==> d.Handlers(keys[j]) == []
    modifies d
    ensures d.Valid() && d.afterHandlers == old(d.afterHandlers)
    ensures Wired(keys, base, cs, d.subs)
    ensures forall n :: n in d.subs && n !in keys ==> n in old(d.subs) && d.subs[n] == old(d.subs)[n]
  {
    cs := [];
    var j := 0;
    while j < |keys|
      invariant 0 <= j <= |keys|
      invariant d.Valid() && d.afterHandlers == old(d.afterHandlers)
      invariant Wired(keys[..j], base, cs, d.subs)
      invariant forall n :: n in d.subs && n !in keys[..j] ==> n in old(d.subs) && d.subs[n] == old(d.subs)[n]
    {
      ghost var before := d.subs;
      assert keys[j] !in keys[..j] by {
        forall i | 0 <= i < j ensures keys[..j][i] != keys[j] {}
      }
      assert old(d.Handlers(keys[j])) == [];
      assert d.Handlers(keys[j]) == [];
      var c := d.Subscribe(keys[j], base + j);
      assert [] + [base + j] == [base + j];
      WiredStep(keys, j, base, cs, before, d.subs, c);
      cs := cs + [c];
      j := j + 1;
    }
    assert keys[..j] == keys;
  }

  lemma WiredStep(keys: seq<string>, j: nat, base: nat, cs: seq<Canceller>,
                  before: map<string, seq<Handler>>, after: map<string, seq<Handler>>, c: Canceller)
    requires j < |keys| && keys[j] !in keys[..j]
    requires Wired(keys[..j], base, cs, before)
    requires after == before[keys[j] := [base + j]] && c == Unsubscribe(keys[j], base + j)
    ensures Wired(keys[..j + 1], base, cs + [c], after)
    ensures forall n :: n in after && n !in keys[..j + 1] ==> n in before && n !in keys[..j] && after[n] == before[n]
  {
    forall i | 0 <= i < j ensures keys[..j + 1][i] == keys[..j][i] && keys[..j][i] != keys[j] {}
    assert keys[..j + 1][j] == keys[j];
    assert keys[..j + 1] == keys[..j] + [keys[j]];
  }

  /** Calling each canceller of a wiring in turn empties exactly the wired names. */
  method CancelAll(d: Dispatcher, keys: seq<string>, ghost base: nat, cs: seq<Canceller>)
    requires d.Valid() && Seqs.Distinct(keys) && Wired(keys, base, cs, d.subs)
    modifies d
    ensures d.Valid() && d.afterHandlers == old(d.afterHandlers)
    ensures d.subs == ClearedNames(old(d.subs), keys)
  {
    ghost var subs0 := d.subs;
    assert keys[..0] == [];
    assert ClearedNames(subs0, keys[..0]) == subs0;
    var k := 0;
    while k < |cs|
      invariant 0 <= k <= |cs| && |cs| == |keys|
      invariant d.Valid() && d.afterHandlers == old(d.afterHandlers)
      invariant d.subs == ClearedNames(subs0, keys[..k])
    {
      CancelStep(subs0, keys, k, base, cs);
      d.CancelAsWritten(cs[k]);
      k := k + 1;
    }
    assert keys[..k] == keys;
  }

  /** The `k`-th canceller finds its handler alone under its name, and removing it clears one more name. */
  lemma CancelStep(subs0: map<string, seq<Handler>>, keys: seq<string>, k: nat, base: nat, cs: seq<Canceller>)
    requires k < |keys| && Seqs.Distinct(keys) && Wired(keys, base, cs, subs0)
    ensures cs[k] == Unsubscribe(keys[k], base + k) && keys[k] in ClearedNames(subs0, keys[..k])
    ensures ClearedNames(subs0, keys[..k])[keys[k]] == [base + k]
    ensures SpliceOne([base + k], IndexOf([base + k], base + k)) == []
    ensures ClearedNames(subs0, keys[..k])[keys[k] := []] == ClearedNames(subs0, keys[..k + 1])
  {
    assert keys[k] !in keys[..k] by {
      forall i | 0 <= i < k ensures keys[..k][i] != keys[k] {}
    }
    assert keys[..k + 1] == keys[..k] + [keys[k]];
  }

  /** Once the wired names are cleared, a component whose other names were empty has no handler left. */
  lemma ClearedEmpty(subs0: map<string, seq<Handler>>, handlers: Obj<Value>)
    requires handlers.Valid()
    requires forall n :: n in subs0 && n !in handlers.vals ==> subs0[n] == []
    ensures forall n :: n in ClearedNames(subs0, handlers.keys) ==> ClearedNames(subs0, handlers.keys)[n] == []
  {
  }
}
