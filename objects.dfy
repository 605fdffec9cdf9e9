/**
 * Plain JavaScript objects as the runtime uses them: the own keys in insertion
 * order together with the key-to-value map. `Object.keys` agrees with that
 * order except that it lists integer-like keys first; the model keeps every key
 * in insertion order, and it has no inherited keys.
 */
module Objects {
  import opened Wrappers
  import opened Seqs

  datatype Obj<V> = Obj(keys: seq<string>, vals: map<string, V>)
  {
    /** Each key is listed once, and the listed keys are exactly the map's domain. */
    ghost predicate Valid()
    {
      Distinct(keys) && forall k :: k in vals <==> k in keys
    }
  }

  function Empty<V>(): (r: Obj<V>)
    ensures r.Valid() && r.keys == [] && r.vals == map[]
  {
    Obj([], map[])
  }

  /** `o[k]`, with `None` for a missing key (JavaScript's `undefined`). */
  function Get<V>(o: Obj<V>, k: string): (r: Option<V>)
    ensures r.Some? <==> k in o.vals
  {
    if k in o.vals then Some(o.vals[k]) else None
  }

  lemma DistinctConcat<T>(a: seq<T>, b: seq<T>)
    requires Distinct(a) && Distinct(b)
    requires forall i, j :: 0 <= i < |a| && 0 <= j < |b| ==> a[i] != b[j]
    ensures Distinct(a + b)
  {
    forall i, j | 0 <= i < j < |a + b|
      ensures (a + b)[i] != (a + b)[j]
    {
      if j < |a| {
      } else if i >= |a| {
        assert (a + b)[i] == b[i - |a|] && (a + b)[j] == b[j - |a|];
      } else {
        assert (a + b)[i] == a[i] && (a + b)[j] == b[j - |a|];
      }
    }
  }

  /**
   * The spread merge `{ ...a, ...b }`: keys of `b` override, the other keys of
   * `a` keep their values; `a`'s keys keep their order and `b`'s new keys follow.
   */
  function Merge<V>(a: Obj<V>, b: Obj<V>): (r: Obj<V>)
    requires a.Valid() && b.Valid()
    ensures r.Valid()
    ensures r.vals.Keys == a.vals.Keys + b.vals.Keys
    ensures forall k :: k in b.vals ==> r.vals[k] == b.vals[k]
    ensures forall k :: k in a.vals && k !in b.vals ==> r.vals[k] == a.vals[k]
    ensures |a.keys| <= |r.keys| && r.keys[..|a.keys|] == a.keys
  {
    var extra := Filter(b.keys, k => k !in a.vals);
    FilterDistinct(b.keys, k => k !in a.vals);
    DistinctConcat(a.keys, extra);
    assert (a.keys + extra)[..|a.keys|] == a.keys;
    Obj(a.keys + extra, a.vals + b.vals)
  }

  /** `delete o[k]` on a copy. */
  function Remove<V>(o: Obj<V>, k: string): (r: Obj<V>)
    requires o.Valid()
    ensures r.Valid()
    ensures r.vals == o.vals - {k}
    ensures Subsequence(r.keys, o.keys)
  {
    FilterDistinct(o.keys, x => x != k);
    FilterIsSubsequence(o.keys, x => x != k);
    Obj(Filter(o.keys, x => x != k), o.vals - {k})
  }

  /** `o[k] = v` on a copy: a new key goes last, an existing key keeps its place. */
  function Set<V>(o: Obj<V>, k: string, v: V): (r: Obj<V>)
    requires o.Valid()
    ensures r.Valid()
    ensures r.vals == o.vals[k := v]
    ensures r.keys == if k in o.vals then o.keys else o.keys + [k]
  {
    if k in o.vals then Obj(o.keys, o.vals[k := v])
    else
      assert forall i :: 0 <= i < |o.keys| ==> o.keys[i] in o.vals;
      Obj(o.keys + [k], o.vals[k := v])
  }

  /** The three key lists `objectsDiff` returns. */
  datatype Diff = Diff(added: seq<string>, removed: seq<string>, updated: seq<string>)

  /**
   * `objectsDiff(oldObj, newObj)`: the keys only `newObj` has, the keys only
   * `oldObj` has, and the shared keys whose values differ. Values are compared
   * structurally, which is `!==` on the handler ids events diff; own keys only.
   */
  function ObjectsDiff<V(==)>(oldObj: Obj<V>, newObj: Obj<V>): (d: Diff)
    requires oldObj.Valid() && newObj.Valid()
    ensures forall k :: k in d.added <==> k in newObj.vals && k !in oldObj.vals
    ensures forall k :: k in d.removed <==> k in oldObj.vals && k !in newObj.vals
    ensures forall k :: k in d.updated <==>
      k in newObj.vals && k in oldObj.vals && oldObj.vals[k] != newObj.vals[k]
  {
    Diff(
      Filter(newObj.keys, k => k !in oldObj.vals),
      Filter(oldObj.keys, k => k !in newObj.vals),
      Filter(newObj.keys, k => k in oldObj.vals && k in newObj.vals && oldObj.vals[k] != newObj.vals[k]))
  }

  /** `added` and `updated` follow `newObj`'s key order, `removed` follows `oldObj`'s. */
  lemma ObjectsDiffOrder<V>(oldObj: Obj<V>, newObj: Obj<V>)
    requires oldObj.Valid() && newObj.Valid()
    ensures Subsequence(ObjectsDiff(oldObj, newObj).added, newObj.keys)
    ensures Subsequence(ObjectsDiff(oldObj, newObj).updated, newObj.keys)
    ensures Subsequence(ObjectsDiff(oldObj, newObj).removed, oldObj.keys)
    ensures Distinct(ObjectsDiff(oldObj, newObj).added + ObjectsDiff(oldObj, newObj).updated)
  {
    var d := ObjectsDiff(oldObj, newObj);
    FilterIsSubsequence(newObj.keys, k => k !in oldObj.vals);
    FilterIsSubsequence(oldObj.keys, k => k !in newObj.vals);
    FilterIsSubsequence(newObj.keys, k => k in oldObj.vals && k in newObj.vals && oldObj.vals[k] != newObj.vals[k]);
    FilterDistinct(newObj.keys, k => k !in oldObj.vals);
    FilterDistinct(newObj.keys, k => k in oldObj.vals && k in newObj.vals && oldObj.vals[k] != newObj.vals[k]);
    DistinctConcat(d.added, d.updated);
  }

  /** Diffing an object against itself reports nothing. */
  lemma ObjectsDiffSelf<V>(o: Obj<V>)
    requires o.Valid()
    ensures ObjectsDiff(o, o) == Diff([], [], [])
  {
    FilterDropsAll(o.keys, k => k !in o.vals);
    FilterDropsAll(o.keys, k => k in o.vals && k in o.vals && o.vals[k] != o.vals[k]);
  }
}
