/** The JavaScript values that props, state and event payloads carry. */
module Values {
  import opened Objects

  /**
   * A JavaScript value. Functions are identified by a number, so two function
   * values are equal exactly when they are the same function. Numbers are
   * integers here.
   */
  datatype Value =
    | Undefined
    | Null
    | Bool(b: bool)
    | Num(n: int)
    | Str(s: string)
    | Fn(id: nat)
    | Arr(items: seq<Value>)
    | Rec(fields: Obj<Value>)

  /** Props and state objects. */
  type Props = Obj<Value>

  /**
   * `fast-deep-equal` on two values: the same value, or two arrays of the same
   * length with pairwise deep-equal items, or two plain objects with the same
   * own keys and pairwise deep-equal values. Key order does not matter at any
   * depth, since only the key sets are compared.
   */
  predicate ValueEqual(a: Value, b: Value)
    decreases a
  {
    match a
    case Arr(xs) =>
      b.Arr? && |xs| == |b.items| && forall i :: 0 <= i < |xs| ==> ValueEqual(xs[i], b.items[i])
    case Rec(o) =>
      b.Rec? && o.vals.Keys == b.fields.vals.Keys &&
      forall k :: k in o.vals ==> ValueEqual(o.vals[k], b.fields.vals[k])
    case _ => a == b
  }

  /** `fast-deep-equal` on two plain objects. */
  predicate DeepEqual(a: Props, b: Props)
  {
    a.vals.Keys == b.vals.Keys && forall k :: k in a.vals ==> ValueEqual(a.vals[k], b.vals[k])
  }

  /** Every value is deep-equal to itself. */
  lemma {:induction false} ValueEqualRefl(a: Value)
    ensures ValueEqual(a, a)
    decreases a
  {
    match a
    case Arr(xs) =>
      forall i | 0 <= i < |xs| ensures ValueEqual(xs[i], xs[i]) {
        ValueEqualRefl(xs[i]);
      }
    case Rec(o) =>
      forall k | k in o.vals ensures ValueEqual(o.vals[k], o.vals[k]) {
        ValueEqualRefl(o.vals[k]);
      }
    case _ =>
  }

  /** Deep equality is symmetric. */
  lemma {:induction false} ValueEqualSym(a: Value, b: Value)
    requires ValueEqual(a, b)
    ensures ValueEqual(b, a)
    decreases a
  {
    match a
    case Arr(xs) =>
      forall i | 0 <= i < |xs| ensures ValueEqual(b.items[i], xs[i]) {
        ValueEqualSym(xs[i], b.items[i]);
      }
    case Rec(o) =>
      forall k | k in b.fields.vals ensures ValueEqual(b.fields.vals[k], o.vals[k]) {
        ValueEqualSym(o.vals[k], b.fields.vals[k]);
      }
    case _ =>
  }

  /** Deep equality is transitive. */
  lemma {:induction false} ValueEqualTrans(a: Value, b: Value, c: Value)
    requires ValueEqual(a, b) && ValueEqual(b, c)
    ensures ValueEqual(a, c)
    decreases a
  {
    match a
    case Arr(xs) =>
      forall i | 0 <= i < |xs| ensures ValueEqual(xs[i], c.items[i]) {
        ValueEqualTrans(xs[i], b.items[i], c.items[i]);
      }
    case Rec(o) =>
      forall k | k in o.vals ensures ValueEqual(o.vals[k], c.fields.vals[k]) {
        ValueEqualTrans(o.vals[k], b.fields.vals[k], c.fields.vals[k]);
      }
    case _ =>
  }

  /**
   * Two objects holding the same entries under a different key order are
   * deep-equal, also when they sit inside another object.
   */
  lemma NestedKeyOrderIgnored(m: map<string, Value>, ks1: seq<string>, ks2: seq<string>, outer: string)
    ensures ValueEqual(Rec(Obj(ks1, m)), Rec(Obj(ks2, m)))
    ensures DeepEqual(Obj([outer], map[outer := Rec(Obj(ks1, m))]), Obj([outer], map[outer := Rec(Obj(ks2, m))]))
  {
    ValueEqualRefl(Rec(Obj(ks1, m)));
    forall k | k in m ensures ValueEqual(m[k], m[k]) {
      ValueEqualRefl(m[k]);
    }
  }

  /**
   * Merging `b` into `a` leaves a deep-equal object exactly when every entry of
   * `b` is already present in `a` with a deep-equal value.
   */
  lemma MergeDeepEqual(a: Props, b: Props)
    requires a.Valid() && b.Valid()
    ensures DeepEqual(a, Merge(a, b)) <==>
      forall k :: k in b.vals ==> k in a.vals && ValueEqual(a.vals[k], b.vals[k])
  {
    var m := Merge(a, b);
    if forall k :: k in b.vals ==> k in a.vals && ValueEqual(a.vals[k], b.vals[k]) {
      assert m.vals.Keys == a.vals.Keys;
      forall k | k in a.vals ensures ValueEqual(a.vals[k], m.vals[k]) {
        if k !in b.vals {
          ValueEqualRefl(a.vals[k]);
        }
      }
    } else {
      var k :| k in b.vals && !(k in a.vals && ValueEqual(a.vals[k], b.vals[k]));
      assert k in m.vals && m.vals[k] == b.vals[k];
    }
  }
}
