/**
 * The command `Dispatcher`: a map from command name to the ordered list of its
 * handlers, a list of after-every-command handlers, and the cancellers that
 * `subscribe` and `afterEveryCommand` return. A handler is known by its
 * identity, a number; calling one is recorded as an invocation.
 */
module Dispatching {
  import opened Wrappers
  import opened Seqs
  import opened Values

  type Handler = nat

  /** The function a subscription returns, described by what calling it does. */
  datatype Canceller = Noop | Unsubscribe(name: string, handler: Handler) | AfterUnsubscribe(handler: Handler)

  /** One handler call made by `dispatch`: command handlers get the payload, after-handlers get nothing. */
  datatype Invocation = Invocation(handler: Handler, payload: Option<Value>)

  /** `s.indexOf(x)`. */
  function IndexOf(s: seq<Handler>, x: Handler): (r: int)
    ensures -1 <= r < |s|
    ensures r == -1 <==> x !in s
    ensures r >= 0 ==> s[r] == x && x !in s[..r]
  {
    FindIndex(s, y => y == x)
  }

  /**
   * `s.splice(start, 1)` on a copy: a negative start counts from the end (and is
   * clamped at 0), a start past the end removes nothing.
   */
  function SpliceOne(s: seq<Handler>, start: int): (r: seq<Handler>)
    ensures 0 <= start < |s| ==> r == s[..start] + s[start + 1..]
    ensures start == -1 && s != [] ==> r == s[..|s| - 1]
    ensures start >= |s| || s == [] ==> r == s
  {
    assert start == -1 && s != [] ==> s[|s| - 1 + 1..] == [];
    var actual := if start < 0 then (if |s| + start < 0 then 0 else |s| + start) else start;
    if actual < |s| then s[..actual] + s[actual + 1..] else s
  }

  /** Splicing out one entry keeps a list free of duplicates. */
  lemma SpliceOneDistinct(s: seq<Handler>, start: int)
    requires Distinct(s)
    ensures Distinct(SpliceOne(s, start))
  {
    var actual := if start < 0 then (if |s| + start < 0 then 0 else |s| + start) else start;
    if actual < |s| {
      DistinctWithout(s, actual);
    }
  }

  /** The canceller's list update with the `-1` case guarded: only a registered handler is removed. */
  function RemoveHandler(s: seq<Handler>, h: Handler): (r: seq<Handler>)
  {
    var i := IndexOf(s, h);
    if i >= 0 then SpliceOne(s, i) else s
  }

  lemma DistinctWithout(s: seq<Handler>, i: nat)
    requires Distinct(s) && i < |s|
    ensures Distinct(s[..i] + s[i + 1..])
    ensures forall y :: y in s[..i] + s[i + 1..] <==> y in s && y != s[i]
  {
    var r := s[..i] + s[i + 1..];
    forall a, b | 0 <= a < b < |r| ensures r[a] != r[b] {
      var a' := if a < i then a else a + 1;
      var b' := if b < i then b else b + 1;
      assert r[a] == s[a'] && r[b] == s[b'];
    }
    forall y ensures y in r <==> y in s && y != s[i] {
      if y in s && y != s[i] {
        var k :| 0 <= k < |s| && s[k] == y;
        if k < i { assert r[k] == y; } else { assert r[k - 1] == y; }
      }
      if y in r {
        var k :| 0 <= k < |r| && r[k] == y;
        if k < i { assert s[k] == y; } else { assert s[k + 1] == y; }
      }
    }
  }

  /**
   * Cancelling a registered handler removes exactly that handler and keeps the
   * others in order; this holds for the guarded and the unguarded update alike.
   */
  lemma CancelRemovesExactly(s: seq<Handler>, h: Handler)
    requires Distinct(s) && h in s
    ensures SpliceOne(s, IndexOf(s, h)) == RemoveHandler(s, h)
    ensures var r := RemoveHandler(s, h);
      Distinct(r) && |r| == |s| - 1 && h !in r && forall y :: y != h ==> (y in r <==> y in s)
    ensures var i := IndexOf(s, h); RemoveHandler(s, h) == s[..i] + s[i + 1..]
  {
    DistinctWithout(s, IndexOf(s, h));
  }

  /** The guarded update leaves a list without the handler unchanged, so cancelling twice is cancelling once. */
  lemma RemoveHandlerIdempotent(s: seq<Handler>, h: Handler)
    requires Distinct(s)
    ensures h !in s ==> RemoveHandler(s, h) == s
    ensures RemoveHandler(RemoveHandler(s, h), h) == RemoveHandler(s, h)
  {
    if h in s {
      CancelRemovesExactly(s, h);
    }
  }

  /** As written, cancelling a handler that is no longer registered removes the last handler instead. */
  lemma SpliceMissingRemovesLast(s: seq<Handler>, h: Handler)
    requires h !in s && s != []
    ensures SpliceOne(s, IndexOf(s, h)) == s[..|s| - 1]
  {
  }

  class Dispatcher {
    var subs: map<string, seq<Handler>>
    var afterHandlers: seq<Handler>

    /** `subscribe` never registers a handler twice under one name. */
    ghost predicate Valid()
      reads this
    {
      forall name :: name in subs ==> Distinct(subs[name])
    }

    /** The handlers registered for `name`, none when it was never subscribed. */
    function Handlers(name: string): seq<Handler>
      reads this
    {
      if name in subs then subs[name] else []
    }

    constructor()
      ensures Valid() && subs == map[] && afterHandlers == []
    {
      subs := map[];
      afterHandlers := [];
    }

    /**
     * `subscribe(commandName, handler)`: the name gets a list on first use; a
     * handler already in the list is not added again and gets a canceller that
     * does nothing; otherwise it is appended and its canceller removes it.
     */
    method Subscribe(name: string, handler: Handler) returns (cancel: Canceller)
      requires Valid()
      modifies this
      ensures Valid() && afterHandlers == old(afterHandlers)
      ensures handler in old(Handlers(name)) ==> subs == old(subs)[name := old(Handlers(name))] && cancel == Noop
      ensures handler !in old(Handlers(name)) ==>
        subs == old(subs)[name := old(Handlers(name)) + [handler]] && cancel == Unsubscribe(name, handler)
    {
      if name !in subs {
        subs := subs[name := []];
      }
      var handlers := subs[name];
      if handler in handlers {
        return Noop;
      }
      assert forall i :: 0 <= i < |handlers| ==> handlers[i] != handler;
      subs := subs[name := handlers + [handler]];
      cancel := Unsubscribe(name, handler);
    }

    /** `afterEveryCommand(handler)`: appended without a duplicate check. */
    method AfterEveryCommand(handler: Handler) returns (cancel: Canceller)
      requires Valid()
      modifies this
      ensures Valid() && subs == old(subs)
      ensures afterHandlers == old(afterHandlers) + [handler]
      ensures cancel == AfterUnsubscribe(handler)
    {
      afterHandlers := afterHandlers + [handler];
      cancel := AfterUnsubscribe(handler);
    }

    /**
     * Calling a canceller as written: `handlers.splice(handlers.indexOf(handler), 1)`,
     * which removes the last handler when `handler` is no longer in the list.
     */
    method CancelAsWritten(c: Canceller)
      requires Valid()
      modifies this
      ensures Valid()
      ensures c.Noop? ==> subs == old(subs) && afterHandlers == old(afterHandlers)
      ensures c.Unsubscribe? ==> (afterHandlers == old(afterHandlers) &&
        subs == if c.name in old(subs) then old(subs)[c.name := SpliceOne(old(subs)[c.name], IndexOf(old(subs)[c.name], c.handler))] else old(subs))
      ensures c.AfterUnsubscribe? ==> (subs == old(subs) &&
        afterHandlers == SpliceOne(old(afterHandlers), IndexOf(old(afterHandlers), c.handler)))
    {
      match c
      case Noop =>
      case Unsubscribe(name, h) =>
        if name in subs {
          SpliceOneDistinct(subs[name], IndexOf(subs[name], h));
          subs := subs[name := SpliceOne(subs[name], IndexOf(subs[name], h))];
        }
      case AfterUnsubscribe(h) =>
        afterHandlers := SpliceOne(afterHandlers, IndexOf(afterHandlers, h));
    }

    /** Calling a canceller with the `-1` case guarded: only a registered handler is removed. */
    method Cancel(c: Canceller)
      requires Valid()
      modifies this
      ensures Valid()
      ensures c.Noop? ==> subs == old(subs) && afterHandlers == old(afterHandlers)
      ensures c.Unsubscribe? ==> (afterHandlers == old(afterHandlers) &&
        subs == if c.name in old(subs) then old(subs)[c.name := RemoveHandler(old(subs)[c.name], c.handler)] else old(subs))
      ensures c.AfterUnsubscribe? ==> (subs == old(subs) &&
        afterHandlers == RemoveHandler(old(afterHandlers), c.handler))
    {
      match c
      case Noop =>
      case Unsubscribe(name, h) =>
        if name in subs {
          var handlers := subs[name];
          if h in handlers {
            CancelRemovesExactly(handlers, h);
          }
          subs := subs[name := RemoveHandler(handlers, h)];
        }
      case AfterUnsubscribe(h) =>
        afterHandlers := RemoveHandler(afterHandlers, h);
    }

    /**
     * `dispatch(commandName, payload)`: the name's handlers in subscription order
     * with the payload, or a warning when the name was never subscribed; then
     * every after-handler once, in order. Handlers that subscribe or cancel
     * while running are not modelled.
     */
    method Dispatch(name: string, payload: Value) returns (calls: seq<Invocation>, warned: bool)
      ensures warned <==> name !in subs
      ensures |calls| == |Handlers(name)| + |afterHandlers|
      ensures forall i :: 0 <= i < |Handlers(name)| ==> calls[i] == Invocation(Handlers(name)[i], Some(payload))
      ensures forall j :: 0 <= j < |afterHandlers| ==> calls[|Handlers(name)| + j] == Invocation(afterHandlers[j], None)
    {
      calls := [];
      warned := false;
      if name in subs {
        var handlers := subs[name];
        var i := 0;
        while i < |handlers|
          invariant i <= |handlers| && |calls| == i
          invariant forall k :: 0 <= k < i ==> calls[k] == Invocation(handlers[k], Some(payload))
        {
          calls := calls + [Invocation(handlers[i], Some(payload))];
          i := i + 1;
        }
      } else {
        warned := true;
      }
      ghost var n := |calls|;
      var j := 0;
      while j < |afterHandlers|
        invariant j <= |afterHandlers| && |calls| == n + j
        invariant forall k :: 0 <= k < n ==> calls[k] == Invocation(Handlers(name)[k], Some(payload))
        invariant forall k :: 0 <= k < j ==> calls[n + k] == Invocation(afterHandlers[k], None)
      {
        calls := calls + [Invocation(afterHandlers[j], None)];
        j := j + 1;
      }
    }
  }

  /**
   * Calling a canceller twice: as written, the second call removes another
   * handler that was subscribed after it; with the guard it changes nothing.
   */
  method DoubleCancel() returns (asWritten: seq<Handler>, guarded: seq<Handler>)
    ensures asWritten == [] && guarded == [2]
  {
    asWritten := DoubleCancelAsWritten();
    guarded := DoubleCancelGuarded();
  }

  /** Two handlers under one name, the first cancelled twice by the canceller as written. */
  method DoubleCancelAsWritten() returns (left: seq<Handler>)
    ensures left == []
  {
    var d := new Dispatcher();
    var c1 := d.Subscribe("save", 1);
    var c2 := d.Subscribe("save", 2);
    assert d.subs["save"] == [1, 2] && c1 == Unsubscribe("save", 1);
    assert IndexOf([1, 2], 1) == 0;
    d.CancelAsWritten(c1);
    assert d.subs["save"] == [2];
    SpliceMissingRemovesLast([2], 1);
    d.CancelAsWritten(c1);
    left := d.subs["save"];
  }

  /** The same calls with the guarded canceller. */
  method DoubleCancelGuarded() returns (left: seq<Handler>)
    ensures left == [2]
  {
    var e := new Dispatcher();
    var c1 := e.Subscribe("save", 1);
    var c2 := e.Subscribe("save", 2);
    assert e.subs["save"] == [1, 2] && c1 == Unsubscribe("save", 1);
    assert IndexOf([1, 2], 1) == 0;
    e.Cancel(c1);
    assert e.subs["save"] == [2];
    RemoveHandlerIdempotent([2], 1);
    e.Cancel(c1);
    left := e.subs["save"];
  }
}
