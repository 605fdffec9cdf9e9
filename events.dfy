/**
 * `patchEvents`: bringing an element's registered listeners from the old
 * event-handler object to the new one. Handlers that went away or changed are
 * unregistered, handlers that are new or changed are registered, and the
 * returned listener object maps each event name to the listener now in place.
 */
module Events {
  import opened Wrappers
  import opened Seqs
  import opened Objects
  import opened Values

  /** One `el.removeEventListener(eventName, listener)` call; the listener is `undefined` when missing. */
  datatype Removal<L> = Removal(eventName: string, listener: Option<L>)

  /** One `addEventListener(eventName, handler, el, host)` call, with the listener it installed. */
  datatype Addition<L> = Addition(eventName: string, listener: L)

  /** Removing the keys of `a` and then `x` keeps the same keys as removing the keys of `a + [x]`. */
  lemma {:induction false} FilterNotInSnoc(s: seq<string>, a: seq<string>, x: string)
    ensures Filter(Filter(s, k => k !in a), k => k != x) == Filter(s, k => k !in a + [x])
  {
    if s != [] {
      var h, t := s[0], s[1..];
      assert s == [h] + t;
      FilterNotInSnoc(t, a, x);
      FilterCons(h, t, k => k !in a);
      FilterCons(h, t, k => k !in a + [x]);
      var head := if h !in a then [h] else [];
      FilterConcat(head, Filter(t, k => k !in a), k => k != x);
      if h !in a {
        FilterCons(h, [], k => k != x);
      }
    }
  }

  /** The `removeEventListener` calls for `names`, each with the listener `listeners` holds for that name. */
  function RemovalsFor<L>(listeners: Obj<L>, names: seq<string>): (r: seq<Removal<L>>)
    ensures |r| == |names|
  {
    if names == [] then []
    else RemovalsFor(listeners, names[..|names| - 1]) + [Removal(names[|names| - 1], Get(listeners, names[|names| - 1]))]
  }

  /** The `addEventListener` calls for `names`, each binding the handler `events` holds for that name. */
  function AdditionsFor<L>(events: Obj<Value>, names: seq<string>, bind: Value -> L): (r: seq<Addition<L>>)
    requires forall j :: 0 <= j < |names| ==> names[j] in events.vals
    ensures |r| == |names|
  {
    if names == [] then []
    else AdditionsFor(events, names[..|names| - 1], bind) + [Addition(names[|names| - 1], bind(events.vals[names[|names| - 1]]))]
  }

  /** The `i`-th removal is for the `i`-th name, with the listener held for it. */
  lemma {:induction false} RemovalsForAt<L>(listeners: Obj<L>, names: seq<string>, i: nat)
    requires i < |names|
    ensures RemovalsFor(listeners, names)[i] == Removal(names[i], Get(listeners, names[i]))
  {
    if i < |names| - 1 {
      RemovalsForAt(listeners, names[..|names| - 1], i);
    }
  }

  /** The `i`-th addition binds the handler of the `i`-th name. */
  lemma {:induction false} AdditionsForAt<L>(events: Obj<Value>, names: seq<string>, bind: Value -> L, i: nat)
    requires forall j :: 0 <= j < |names| ==> names[j] in events.vals
    requires i < |names|
    ensures AdditionsFor(events, names, bind)[i] == Addition(names[i], bind(events.vals[names[i]]))
  {
    if i < |names| - 1 {
      AdditionsForAt(events, names[..|names| - 1], bind, i);
    }
  }

  /** `m` with each of `names` deleted. */
  function Without<L>(m: map<string, L>, names: seq<string>): (r: map<string, L>)
    ensures forall k :: k in r <==> k in m && k !in names
    ensures forall k :: k in r ==> r[k] == m[k]
  {
    if names == [] then m
    else Without(m, names[..|names| - 1]) - {names[|names| - 1]}
  }

  /** `m` with each of `names` set, in order, to the bound handler `events` holds for it. */
  function Bound<L>(m: map<string, L>, events: Obj<Value>, names: seq<string>, bind: Value -> L): (r: map<string, L>)
    requires forall j :: 0 <= j < |names| ==> names[j] in events.vals
    ensures forall k :: k in r <==> k in m || k in names
    ensures forall k :: k in names ==> r[k] == bind(events.vals[k])
    ensures forall k :: k in m && k !in names ==> r[k] == m[k]
  {
    if names == [] then m
    else Bound(m, events, names[..|names| - 1], bind)[names[|names| - 1] := bind(events.vals[names[|names| - 1]])]
  }

  /** State of the first loop of `patchEvents` after `i` names. */
  ghost predicate RemoveInv<L>(oldListeners: Obj<L>, dels: seq<string>, i: nat, listeners: Obj<L>, removals: seq<Removal<L>>)
  {
    i <= |dels| &&
    listeners.Valid() &&
    listeners.vals == Without(oldListeners.vals, dels[..i]) &&
    listeners.keys == Filter(oldListeners.keys, k => k !in dels[..i]) &&
    removals == RemovalsFor(oldListeners, dels[..i])
  }

  lemma RemoveStep<L>(oldListeners: Obj<L>, dels: seq<string>, i: nat, listeners: Obj<L>, removals: seq<Removal<L>>)
    requires RemoveInv(oldListeners, dels, i, listeners, removals) && i < |dels|
    ensures RemoveInv(oldListeners, dels, i + 1, Remove(listeners, dels[i]),
      removals + [Removal(dels[i], Get(oldListeners, dels[i]))])
  {
    var d := dels[..i + 1];
    assert d[..i] == dels[..i] && d[i] == dels[i];
    assert Without(oldListeners.vals, d) == Without(oldListeners.vals, dels[..i]) - {dels[i]};
    assert RemovalsFor(oldListeners, d) == removals + [Removal(dels[i], Get(oldListeners, dels[i]))];
    FilterNotInSnoc(oldListeners.keys, dels[..i], dels[i]);
    assert dels[..i] + [dels[i]] == d;
  }

  /** The first loop of `patchEvents`: unregister and delete each listed name. */
  method RemoveListeners<L>(oldListeners: Obj<L>, dels: seq<string>) returns (listeners: Obj<L>, removals: seq<Removal<L>>)
    requires oldListeners.Valid()
    ensures listeners.Valid()
    ensures listeners.vals == Without(oldListeners.vals, dels)
    ensures listeners.keys == Filter(oldListeners.keys, k => k !in dels)
    ensures removals == RemovalsFor(oldListeners, dels)
  {
    listeners := oldListeners;
    removals := [];
    FilterKeepsAll(oldListeners.keys, k => k !in dels[..0]);
    var i := 0;
    while i < |dels|
      invariant RemoveInv(oldListeners, dels, i, listeners, removals)
    {
      RemoveStep(oldListeners, dels, i, listeners, removals);
      removals := removals + [Removal(dels[i], Get(oldListeners, dels[i]))];
      listeners := Remove(listeners, dels[i]);
      i := i + 1;
    }
    assert dels[..i] == dels;
  }

  /** No name is listed twice, and none is already held. */
  predicate Unseen<L>(base: Obj<L>, adds: seq<string>)
  {
    Distinct(adds) && forall j :: 0 <= j < |adds| ==> adds[j] !in base.vals
  }

  /** State of the second loop of `patchEvents` after `i` names. */
  ghost predicate AddInv<L>(base: Obj<L>, adds: seq<string>, newEvents: Obj<Value>, bind: Value -> L,
                            i: nat, listeners: Obj<L>, additions: seq<Addition<L>>)
  {
    i <= |adds| &&
    (forall j :: 0 <= j < |adds| ==> adds[j] in newEvents.vals) &&
    listeners.Valid() &&
    listeners.vals == Bound(base.vals, newEvents, adds[..i], bind) &&
    (Unseen(base, adds) ==> listeners.keys == base.keys + adds[..i]) &&
    additions == AdditionsFor(newEvents, adds[..i], bind)
  }

  lemma BoundSnoc<L>(m: map<string, L>, events: Obj<Value>, names: seq<string>, bind: Value -> L, i: nat)
    requires forall j :: 0 <= j < |names| ==> names[j] in events.vals
    requires i < |names|
    ensures Bound(m, events, names[..i + 1], bind) == Bound(m, events, names[..i], bind)[names[i] := bind(events.vals[names[i]])]
    ensures AdditionsFor(events, names[..i + 1], bind) == AdditionsFor(events, names[..i], bind) + [Addition(names[i], bind(events.vals[names[i]]))]
  {
    assert names[..i + 1][..i] == names[..i];
  }

  lemma UnseenStep<L>(base: Obj<L>, adds: seq<string>, i: nat, listeners: Obj<L>)
    requires Unseen(base, adds) && i < |adds|
    requires forall k :: k in listeners.vals ==> k in base.vals || k in adds[..i]
    ensures adds[i] !in listeners.vals
  {
    assert forall j :: 0 <= j < i ==> adds[..i][j] != adds[i];
  }

  lemma KeysStep<L>(base: Obj<L>, adds: seq<string>, i: nat, listeners: Obj<L>, v: L)
    requires listeners.Valid() && i < |adds| && adds[i] !in listeners.vals
    requires listeners.keys == base.keys + adds[..i]
    ensures Set(listeners, adds[i], v).keys == base.keys + adds[..i + 1]
  {
    assert adds[..i + 1] == adds[..i] + [adds[i]];
  }

  lemma AddStep<L>(base: Obj<L>, adds: seq<string>, newEvents: Obj<Value>, bind: Value -> L,
                   i: nat, listeners: Obj<L>, additions: seq<Addition<L>>)
    requires base.Valid()
    requires AddInv(base, adds, newEvents, bind, i, listeners, additions) && i < |adds|
    ensures adds[i] in newEvents.vals
    ensures AddInv(base, adds, newEvents, bind, i + 1,
      Set(listeners, adds[i], bind(newEvents.vals[adds[i]])),
      additions + [Addition(adds[i], bind(newEvents.vals[adds[i]]))])
  {
    var listener := bind(newEvents.vals[adds[i]]);
    BoundSnoc(base.vals, newEvents, adds, bind, i);
    if Unseen(base, adds) {
      UnseenStep(base, adds, i, listeners);
      KeysStep(base, adds, i, listeners, listener);
    }
  }

  /** The second loop of `patchEvents`: register a listener for each listed name. */
  method AddListeners<L>(base: Obj<L>, adds: seq<string>, newEvents: Obj<Value>, bind: Value -> L)
    returns (listeners: Obj<L>, additions: seq<Addition<L>>)
    requires base.Valid()
    requires forall j :: 0 <= j < |adds| ==> adds[j] in newEvents.vals
    ensures listeners.Valid()
    ensures listeners.vals == Bound(base.vals, newEvents, adds, bind)
    ensures Unseen(base, adds) ==> listeners.keys == base.keys + adds
    ensures additions == AdditionsFor(newEvents, adds, bind)
  {
    listeners := base;
    additions := [];
    var i := 0;
    while i < |adds|
      invariant AddInv(base, adds, newEvents, bind, i, listeners, additions)
    {
      AddStep(base, adds, newEvents, bind, i, listeners, additions);
      var listener := bind(newEvents.vals[adds[i]]);
      additions := additions + [Addition(adds[i], listener)];
      listeners := Set(listeners, adds[i], listener);
      i := i + 1;
    }
    assert adds[..i] == adds;
  }

  /** The listener map `patchEvents` computes: the stale names deleted, then the new and changed names bound. */
  function Patched<L>(oldListeners: map<string, L>, oldEvents: Obj<Value>, newEvents: Obj<Value>, bind: Value -> L): map<string, L>
    requires oldEvents.Valid() && newEvents.Valid()
  {
    var d := ObjectsDiff(oldEvents, newEvents);
    Bound(Without(oldListeners, d.removed + d.updated), newEvents, d.added + d.updated, bind)
  }

  /**
   * `patchEvents(el, oldListeners, oldEvents, newEvents, hostComponent)`.
   * `bind` stands for `addEventListener`, which wraps a handler into the
   * listener it installs; the two call lists are the calls made on `el`.
   * The names that went away or changed are unregistered with the old
   * listeners and deleted; the new and changed names get fresh listeners,
   * appended in `newEvents`' key order.
   */
  method PatchEvents<L>(oldListeners: Obj<L>, oldEvents: Obj<Value>, newEvents: Obj<Value>, bind: Value -> L)
    returns (listeners: Obj<L>, removals: seq<Removal<L>>, additions: seq<Addition<L>>)
    requires oldListeners.Valid() && oldEvents.Valid() && newEvents.Valid()
    ensures listeners.Valid()
    ensures listeners.vals == Patched(oldListeners.vals, oldEvents, newEvents, bind)
    ensures var d := ObjectsDiff(oldEvents, newEvents);
      removals == RemovalsFor(oldListeners, d.removed + d.updated)
    ensures var d := ObjectsDiff(oldEvents, newEvents);
      additions == AdditionsFor(newEvents, d.added + d.updated, bind)
    ensures var d := ObjectsDiff(oldEvents, newEvents);
      oldListeners.vals.Keys == oldEvents.vals.Keys ==>
        listeners.keys == Filter(oldListeners.keys, k => k !in d.removed + d.updated) + (d.added + d.updated)
  {
    var d := ObjectsDiff(oldEvents, newEvents);
    var dels, adds := d.removed + d.updated, d.added + d.updated;
    assert forall j :: 0 <= j < |adds| ==> adds[j] in newEvents.vals;
    var base;
    base, removals := RemoveListeners(oldListeners, dels);
    if oldListeners.vals.Keys == oldEvents.vals.Keys {
      CoveredNamesUnseen(oldListeners, oldEvents, newEvents, base);
    }
    listeners, additions := AddListeners(base, adds, newEvents, bind);
  }

  /** When the listeners cover exactly the old events, the names to add are new to the cut-down listeners. */
  lemma CoveredNamesUnseen<L>(oldListeners: Obj<L>, oldEvents: Obj<Value>, newEvents: Obj<Value>, base: Obj<L>)
    requires oldListeners.Valid() && oldEvents.Valid() && newEvents.Valid()
    requires oldListeners.vals.Keys == oldEvents.vals.Keys
    requires var d := ObjectsDiff(oldEvents, newEvents);
      forall k :: k in base.vals <==> k in oldListeners.vals && k !in d.removed + d.updated
    ensures var d := ObjectsDiff(oldEvents, newEvents); Unseen(base, d.added + d.updated)
  {
    ObjectsDiffOrder(oldEvents, newEvents);
  }

  /**
   * The patched listeners hold the new or changed names with fresh listeners,
   * drop the removed names, and keep every other old listener.
   */
  lemma PatchedListeners<L>(oldListeners: map<string, L>, oldEvents: Obj<Value>, newEvents: Obj<Value>, bind: Value -> L)
    requires oldEvents.Valid() && newEvents.Valid()
    ensures var r := Patched(oldListeners, oldEvents, newEvents, bind); var d := ObjectsDiff(oldEvents, newEvents);
      forall k :: k in r <==> (k in oldListeners && k !in d.removed && k !in d.updated) || k in d.added || k in d.updated
    ensures var r := Patched(oldListeners, oldEvents, newEvents, bind);
      forall k :: k in newEvents.vals && (k !in oldEvents.vals || oldEvents.vals[k] != newEvents.vals[k]) ==>
        k in r && r[k] == bind(newEvents.vals[k])
    ensures var r := Patched(oldListeners, oldEvents, newEvents, bind);
      forall k :: k in oldListeners && k in oldEvents.vals && k in newEvents.vals && oldEvents.vals[k] == newEvents.vals[k] ==>
        k in r && r[k] == oldListeners[k]
  {
  }

  /** Listeners that cover exactly the old events cover exactly the new events after patching. */
  lemma PatchedCover<L>(oldListeners: map<string, L>, oldEvents: Obj<Value>, newEvents: Obj<Value>, bind: Value -> L)
    requires oldEvents.Valid() && newEvents.Valid()
    requires oldListeners.Keys == oldEvents.vals.Keys
    ensures Patched(oldListeners, oldEvents, newEvents, bind).Keys == newEvents.vals.Keys
  {
    PatchedListeners(oldListeners, oldEvents, newEvents, bind);
  }

  /** Patching against unchanged events changes no listener. */
  lemma PatchedSame<L>(oldListeners: map<string, L>, events: Obj<Value>, bind: Value -> L)
    requires events.Valid()
    ensures Patched(oldListeners, events, events, bind) == oldListeners
  {
    ObjectsDiffSelf(events);
  }
}
