/**
 * The array utilities of the runtime: `withoutNulls`, `arraysDiff`, and the
 * keyed-list diff `arraysDiffSequence` with its working copy
 * `ArrayWithOriginalIndices`.
 */
module Arrays {
  import opened Wrappers
  import opened Seqs

  /** `arr.filter((item) => item != null)`, where `None` stands for `null` and `undefined`. */
  function WithoutNulls<T>(arr: seq<Option<T>>): (r: seq<T>)
    ensures |r| <= |arr|
    ensures forall i :: 0 <= i < |r| ==> Some(r[i]) in arr
    ensures forall i :: 0 <= i < |arr| && arr[i].Some? ==> arr[i].value in r
  {
    if arr == [] then []
    else (if arr[0].Some? then [arr[0].value] else []) + WithoutNulls(arr[1..])
  }

  /** Dropping the nulls of a concatenation drops them from each part. */
  lemma {:induction false} WithoutNullsConcat<T>(a: seq<Option<T>>, b: seq<Option<T>>)
    ensures WithoutNulls(a + b) == WithoutNulls(a) + WithoutNulls(b)
  {
    if a == [] {
      assert a + b == b;
    } else {
      assert (a + b)[1..] == a[1..] + b;
      WithoutNullsConcat(a[1..], b);
    }
  }

  /** Without nulls, every element is kept, in order. */
  lemma {:induction false} WithoutNullsNoNulls<T>(arr: seq<Option<T>>)
    requires forall i :: 0 <= i < |arr| ==> arr[i].Some?
    ensures WithoutNulls(arr) == seq(|arr|, i requires 0 <= i < |arr| => arr[i].value)
  {
    if arr != [] {
      WithoutNullsNoNulls(arr[1..]);
    }
  }

  datatype ArraysDiffResult<T> = ArraysDiffResult(added: seq<T>, removed: seq<T>)

  /**
   * `arraysDiff`: the items of `newArray` that `oldArray` does not include, and
   * the items of `oldArray` that `newArray` does not include, each in its
   * array's order (`includes` compares with `===`).
   */
  function ArraysDiff<T(==)>(oldArray: seq<T>, newArray: seq<T>): (d: ArraysDiffResult<T>)
    ensures forall i :: 0 <= i < |d.added| ==> d.added[i] in newArray && d.added[i] !in oldArray
    ensures forall i :: 0 <= i < |newArray| && newArray[i] !in oldArray ==> newArray[i] in d.added
    ensures forall i :: 0 <= i < |d.removed| ==> d.removed[i] in oldArray && d.removed[i] !in newArray
    ensures forall i :: 0 <= i < |oldArray| && oldArray[i] !in newArray ==> oldArray[i] in d.removed
  {
    ArraysDiffResult(Filter(newArray, x => x !in oldArray), Filter(oldArray, x => x !in newArray))
  }

  /** Both lists keep their array's order, and nothing is both added and removed. */
  lemma ArraysDiffOrder<T>(oldArray: seq<T>, newArray: seq<T>)
    ensures Subsequence(ArraysDiff(oldArray, newArray).added, newArray)
    ensures Subsequence(ArraysDiff(oldArray, newArray).removed, oldArray)
    ensures forall x :: x in ArraysDiff(oldArray, newArray).added ==> x !in ArraysDiff(oldArray, newArray).removed
  {
    FilterIsSubsequence(newArray, x => x !in oldArray);
    FilterIsSubsequence(oldArray, x => x !in newArray);
  }

  /** An array diffed against itself has nothing added and nothing removed. */
  lemma ArraysDiffSelf<T>(a: seq<T>)
    ensures ArraysDiff(a, a) == ArraysDiffResult([], [])
  {
    FilterDropsAll(a, x => x !in a);
  }

  /** `s.splice(i, 0, x)`: `x` lands at position `i`, or at the end when `i` is past it. */
  function Insert<T>(s: seq<T>, i: nat, x: T): (r: seq<T>)
    ensures |r| == |s| + 1
    ensures i <= |s| ==> r[i] == x && forall k :: 0 <= k < i ==> r[k] == s[k]
    ensures i <= |s| ==> forall k :: i < k < |r| ==> r[k] == s[k - 1]
    ensures i > |s| ==> r == s + [x]
  {
    if i <= |s| then s[..i] + [x] + s[i..] else s + [x]
  }

  /** `s.splice(i, 1)`: position `i` is removed and later items shift left; past the end nothing changes. */
  function Delete<T>(s: seq<T>, i: nat): (r: seq<T>)
    ensures i < |s| ==> |r| == |s| - 1
    ensures i < |s| ==> forall k :: 0 <= k < i ==> r[k] == s[k]
    ensures i < |s| ==> forall k :: i <= k < |r| ==> r[k] == s[k + 1]
    ensures i >= |s| ==> r == s
  {
    if i < |s| then s[..i] + s[i + 1..] else s
  }

  /** Deleting at the seam of a prefix and a suffix drops the suffix's first item. */
  lemma DeleteAtSplit<T>(s: seq<T>, i: nat, j: nat)
    requires i <= j < |s|
    ensures (s[..i] + s[j..])[i] == s[j]
    ensures Delete(s[..i] + s[j..], i) == s[..i] + s[j + 1..]
  {
    var t := s[..i] + s[j..];
    assert t[..i] == s[..i];
    assert t[i + 1..] == s[j + 1..];
  }

  /** The operations `arraysDiffSequence` emits. */
  datatype Op<T> =
    | Add(item: T, index: nat)
    | Remove(item: T, index: nat)
    | Move(item: T, originalIndex: int, from: nat, index: nat)
    | Noop(item: T, originalIndex: int, index: nat)

  /** The effect of one operation on a list: ADD inserts, REMOVE deletes, MOVE moves, NOOP does nothing. */
  function ApplyOp<T>(s: seq<T>, op: Op<T>): seq<T>
  {
    match op
    case Add(item, index) => Insert(s, index, item)
    case Remove(_, index) => Delete(s, index)
    case Move(_, _, from, index) => if from < |s| then Insert(Delete(s, from), index, s[from]) else s
    case Noop(_, _, _) => s
  }

  /** Replaying `ops` from left to right on `s`. */
  function Replay<T>(s: seq<T>, ops: seq<Op<T>>): seq<T>
  {
    if ops == [] then s else ApplyOp(Replay(s, ops[..|ops| - 1]), ops[|ops| - 1])
  }

  /** The operation's positions exist in `s`, and the item it names is the one found there. */
  ghost predicate OpFits<T>(s: seq<T>, op: Op<T>)
  {
    match op
    case Add(_, index) => index <= |s|
    case Remove(item, index) => index < |s| && s[index] == item
    case Move(item, _, from, index) => index <= from < |s| && s[from] == item
    case Noop(item, _, index) => index < |s| && s[index] == item
  }

  /** Every operation fits the list it is replayed on. */
  ghost predicate ReplayFits<T>(s: seq<T>, ops: seq<Op<T>>)
  {
    ops == [] || (ReplayFits(s, ops[..|ops| - 1]) && OpFits(Replay(s, ops[..|ops| - 1]), ops[|ops| - 1]))
  }

  lemma ReplaySnoc<T>(s: seq<T>, ops: seq<Op<T>>, op: Op<T>)
    ensures Replay(s, ops + [op]) == ApplyOp(Replay(s, ops), op)
    ensures ReplayFits(s, ops + [op]) <==> ReplayFits(s, ops) && OpFits(Replay(s, ops), op)
  {
    assert (ops + [op])[..|ops|] == ops;
  }

  /** Replaying two runs of operations is replaying the second on the result of the first. */
  lemma {:induction false} ReplayConcat<T>(s: seq<T>, a: seq<Op<T>>, b: seq<Op<T>>)
    ensures Replay(s, a + b) == Replay(Replay(s, a), b)
    ensures ReplayFits(s, a + b) <==> ReplayFits(s, a) && ReplayFits(Replay(s, a), b)
  {
    if b == [] {
      assert a + b == a;
    } else {
      var b' := b[..|b| - 1];
      assert (a + b)[..|a + b| - 1] == a + b';
      assert (a + b)[|a + b| - 1] == b[|b| - 1];
      ReplayConcat(s, a, b');
    }
  }

  /** `eq` holds between each item of `s` and itself. */
  ghost predicate ReflexiveOn<T>(eq: (T, T) -> bool, s: seq<T>)
  {
    forall i :: 0 <= i < |s| ==> eq(s[i], s[i])
  }

  /** Whenever `eq(newItem, oldItem)` holds, so does `eq(oldItem, newItem)`. */
  ghost predicate SymmetricOn<T>(eq: (T, T) -> bool, oldArray: seq<T>, newArray: seq<T>)
  {
    forall i, j :: 0 <= i < |oldArray| && 0 <= j < |newArray| && eq(newArray[j], oldArray[i]) ==> eq(oldArray[i], newArray[j])
  }

  lemma ReflexiveAt<T>(eq: (T, T) -> bool, s: seq<T>, i: nat)
    requires ReflexiveOn(eq, s) && i < |s|
    ensures eq(s[i], s[i])
  {
  }

  lemma SymmetricAt<T>(eq: (T, T) -> bool, oldArray: seq<T>, newArray: seq<T>, i: nat, j: nat)
    requires SymmetricOn(eq, oldArray, newArray) && i < |oldArray| && j < |newArray|
    ensures eq(newArray[j], oldArray[i]) ==> eq(oldArray[i], newArray[j])
  {
  }

  /**
   * How an item `x` of the replayed list stands for the new item `y`: it is `y`
   * itself (an ADD), `equalsFn(x, y)` held (a NOOP), or `x` is an old item with
   * `equalsFn(y, x)` (a MOVE).
   */
  ghost predicate SameItem<T>(eq: (T, T) -> bool, oldArray: seq<T>, x: T, y: T)
  {
    x == y || eq(x, y) || (x in oldArray && eq(y, x))
  }

  /** For an `equalsFn` that is reflexive and symmetric on the two arrays, the items match under `equalsFn`. */
  lemma SameItemEquals<T>(eq: (T, T) -> bool, oldArray: seq<T>, newArray: seq<T>, x: T, j: nat)
    requires ReflexiveOn(eq, newArray) && SymmetricOn(eq, oldArray, newArray)
    requires j < |newArray| && SameItem(eq, oldArray, x, newArray[j])
    ensures eq(x, newArray[j])
  {
    if x in oldArray && eq(newArray[j], x) {
      var i :| 0 <= i < |oldArray| && oldArray[i] == x;
      assert eq(oldArray[i], newArray[j]);
    }
  }

  /**
   * What an emitted operation says about the input arrays: a NOOP's or a MOVE's
   * `originalIndex` is the position of its item in `oldArray`, an ADD's item is
   * the new item at its index, and a REMOVE removes an old item.
   */
  ghost predicate OpTracks<T>(oldArray: seq<T>, newArray: seq<T>, op: Op<T>)
  {
    match op
    case Noop(item, originalIndex, _) => 0 <= originalIndex < |oldArray| && oldArray[originalIndex] == item
    case Move(item, originalIndex, _, _) => 0 <= originalIndex < |oldArray| && oldArray[originalIndex] == item
    case Add(item, index) => index < |newArray| && newArray[index] == item
    case Remove(item, _) => item in oldArray
  }

  /** Each original index is -1 (an added item) or the position in `source` of the item beside it. */
  ghost predicate Tracks<T>(source: seq<T>, items: seq<T>, originalIndices: seq<int>)
  {
    |items| == |originalIndices| &&
    forall i :: 0 <= i < |originalIndices| ==>
      originalIndices[i] == -1 ||
      (0 <= originalIndices[i] < |source| && source[originalIndices[i]] == items[i])
  }

  lemma TracksDelete<T>(source: seq<T>, items: seq<T>, originalIndices: seq<int>, i: nat)
    requires Tracks(source, items, originalIndices)
    ensures Tracks(source, Delete(items, i), Delete(originalIndices, i))
  {
  }

  lemma TracksInsert<T>(source: seq<T>, items: seq<T>, originalIndices: seq<int>, i: nat, x: T, o: int)
    requires Tracks(source, items, originalIndices)
    requires o == -1 || (0 <= o < |source| && source[o] == x)
    ensures Tracks(source, Insert(items, i, x), Insert(originalIndices, i, o))
  {
  }

  /** `array.map((_, i) => i)`. */
  function Identity(n: nat): (r: seq<int>)
    ensures |r| == n && forall i :: 0 <= i < n ==> r[i] == i
  {
    seq(n, i => i)
  }

  /** One NOOP per item, at its own position. */
  function NoopSequence<T>(s: seq<T>): (r: seq<Op<T>>)
    ensures |r| == |s| && forall i :: 0 <= i < |s| ==> r[i] == Noop(s[i], i, i)
  {
    seq(|s|, i requires 0 <= i < |s| => Noop(s[i], i, i))
  }

  /** The working copy of the old list with, beside each item, its index in the old list. */
  class ArrayWithOriginalIndices<T> {
    var items: seq<T>
    var originalIndices: seq<int>
    const equalsFn: (T, T) -> bool
    /** The list the copy was made from. */
    ghost const source: seq<T>

    ghost predicate Valid()
      reads this
    {
      Tracks(source, items, originalIndices)
    }

    constructor (arr: seq<T>, equalsFn: (T, T) -> bool)
      ensures Valid() && source == arr && this.equalsFn == equalsFn
      ensures items == arr && originalIndices == Identity(|arr|)
    {
      items := arr;
      originalIndices := Identity(|arr|);
      this.equalsFn := equalsFn;
      source := arr;
    }

    function OriginalIndexAt(index: nat): (r: int)
      reads this
      requires Valid() && index < |items|
      ensures r == -1 || (0 <= r < |source| && source[r] == items[index])
    {
      originalIndices[index]
    }

    /** The item at `index` exists and no item of `newArray` is equal to it. */
    function IsRemoval(index: nat, newArray: seq<T>): (r: bool)
      reads this
      ensures r <==> index < |items| && forall k :: 0 <= k < |newArray| ==> !equalsFn(items[index], newArray[k])
    {
      if index >= |items| then false
      else
        var item := items[index];
        var eq := equalsFn;
        FindIndex(newArray, newItem => eq(item, newItem)) == -1
    }

    method RemoveItem(index: nat) returns (op: Op<T>)
      requires Valid() && index < |items|
      modifies this
      ensures Valid()
      ensures op == Remove(old(items)[index], index)
      ensures items == Delete(old(items), index)
      ensures originalIndices == Delete(old(originalIndices), index)
    {
      op := Remove(items[index], index);
      items := Delete(items, index);
      originalIndices := Delete(originalIndices, index);
    }

    /** The copy has an item at `index` and it is equal to the new item at `index`. */
    function IsNoop(index: nat, newArray: seq<T>): (r: bool)
      reads this
      requires index < |newArray|
      ensures r <==> index < |items| && equalsFn(items[index], newArray[index])
    {
      index < |items| && equalsFn(items[index], newArray[index])
    }

    function NoopItem(index: nat): (op: Op<T>)
      reads this
      requires Valid() && index < |items|
      ensures op.Noop? && op.index == index && op.item == items[index] && op.originalIndex == originalIndices[index]
      ensures op.originalIndex == -1 || (0 <= op.originalIndex < |source| && source[op.originalIndex] == op.item)
    {
      Noop(items[index], OriginalIndexAt(index), index)
    }

    /** The first position at or after `fromIndex` whose item `item` is equal to, or -1. */
    method FindIndexFrom(item: T, fromIndex: nat) returns (r: int)
      ensures r == -1 <==> forall i :: fromIndex <= i < |items| ==> !equalsFn(item, items[i])
      ensures r != -1 ==> fromIndex <= r < |items| && equalsFn(item, items[r])
      ensures r != -1 ==> forall i :: fromIndex <= i < r ==> !equalsFn(item, items[i])
    {
      var i := fromIndex;
      while i < |items|
        invariant fromIndex <= i
        invariant forall k :: fromIndex <= k < i && k < |items| ==> !equalsFn(item, items[k])
      {
        if equalsFn(item, items[i]) {
          return i;
        }
        i := i + 1;
      }
      return -1;
    }

    method IsAddition(item: T, fromIdx: nat) returns (r: bool)
      ensures r <==> forall i :: fromIdx <= i < |items| ==> !equalsFn(item, items[i])
    {
      var i := FindIndexFrom(item, fromIdx);
      r := i == -1;
    }

    method AddItem(item: T, index: nat) returns (op: Op<T>)
      requires Valid()
      modifies this
      ensures Valid()
      ensures op == Add(item, index)
      ensures items == Insert(old(items), index, item)
      ensures originalIndices == Insert(old(originalIndices), index, -1)
    {
      op := Add(item, index);
      items := Insert(items, index, item);
      originalIndices := Insert(originalIndices, index, -1);
    }

    /** Moves the first item at or after `toIndex` that `item` is equal to, so that it sits at `toIndex`. */
    method MoveItem(item: T, toIndex: nat) returns (op: Op<T>)
      requires Valid()
      requires exists i :: toIndex <= i < |items| && equalsFn(item, items[i])
      modifies this
      ensures Valid()
      ensures op.Move? && op.index == toIndex
      ensures toIndex <= op.from < |old(items)| && equalsFn(item, old(items)[op.from])
      ensures forall i :: toIndex <= i < op.from ==> !equalsFn(item, old(items)[i])
      ensures op.item == old(items)[op.from] && op.originalIndex == old(originalIndices)[op.from]
      ensures items == Insert(Delete(old(items), op.from), toIndex, op.item)
      ensures originalIndices == Insert(Delete(old(originalIndices), op.from), toIndex, op.originalIndex)
    {
      var fromIndex := FindIndexFrom(item, toIndex);
      op := Move(items[fromIndex], OriginalIndexAt(fromIndex), fromIndex, toIndex);
      TracksDelete(source, items, originalIndices, fromIndex);
      TracksInsert(source, Delete(items, fromIndex), Delete(originalIndices, fromIndex), toIndex, op.item, op.originalIndex);
      items := Insert(Delete(items, fromIndex), toIndex, op.item);
      originalIndices := Insert(Delete(originalIndices, fromIndex), toIndex, op.originalIndex);
    }

    /** Removes, one REMOVE at `index` each, every item from `index` on. */
    method RemoveItemsAfter(index: nat) returns (ops: seq<Op<T>>)
      requires Valid()
      modifies this
      ensures Valid()
      ensures index >= |old(items)| ==> items == old(items) && originalIndices == old(originalIndices)
      ensures index < |old(items)| ==> items == old(items)[..index] && originalIndices == old(originalIndices)[..index]
      ensures TailRemoves(old(items), index, ops)
      ensures Replay(old(items), ops) == items && ReplayFits(old(items), ops)
    {
      ops := [];
      if |items| <= index {
        return;
      }
      ghost var items0, indices0 := items, originalIndices;
      RemoveTailStart(items0, indices0, index);
      while |items| > index
        invariant Valid() && RemoveTailInv(items0, indices0, index, items, originalIndices, ops)
        decreases |items|
      {
        ghost var items1, indices1 := items, originalIndices;
        var op := RemoveItem(index);
        RemoveTailStep(items0, indices0, index, items1, indices1, ops);
        ops := ops + [op];
      }
      RemoveTailDone(items0, indices0, index, items, originalIndices, ops);
    }
  }

  /**
   * The state of `removeItemsAfter(index)` after `|ops|` removals: each removed
   * the item that followed the first `index`, and the operations replay to the
   * working copy.
   */
  ghost predicate RemoveTailInv<T>(items0: seq<T>, indices0: seq<int>, index: nat,
                                   items: seq<T>, originalIndices: seq<int>, ops: seq<Op<T>>)
  {
    index <= |items| && |items0| == |indices0| &&
    |ops| == |items0| - |items| &&
    index + |ops| <= |items0| &&
    items == items0[..index] + items0[index + |ops|..] &&
    originalIndices == indices0[..index] + indices0[index + |ops|..] &&
    (forall k :: 0 <= k < |ops| ==> ops[k] == Remove(items0[index + k], index)) &&
    Replay(items0, ops) == items && ReplayFits(items0, ops)
  }

  lemma RemoveTailStart<T>(items0: seq<T>, indices0: seq<int>, index: nat)
    requires index <= |items0| == |indices0|
    ensures RemoveTailInv(items0, indices0, index, items0, indices0, [])
  {
  }

  lemma RemoveTailStep<T>(items0: seq<T>, indices0: seq<int>, index: nat,
                          items: seq<T>, originalIndices: seq<int>, ops: seq<Op<T>>)
    requires RemoveTailInv(items0, indices0, index, items, originalIndices, ops)
    requires index < |items|
    ensures RemoveTailInv(items0, indices0, index, Delete(items, index), Delete(originalIndices, index),
                          ops + [Remove(items[index], index)])
  {
    var op := Remove(items[index], index);
    DeleteAtSplit(items0, index, index + |ops|);
    DeleteAtSplit(indices0, index, index + |ops|);
    ReplaySnoc(items0, ops, op);
    var ops' := ops + [op];
    assert forall k :: 0 <= k < |ops| ==> ops'[k] == ops[k];
  }

  lemma RemoveTailDone<T>(items0: seq<T>, indices0: seq<int>, index: nat,
                          items: seq<T>, originalIndices: seq<int>, ops: seq<Op<T>>)
    requires RemoveTailInv(items0, indices0, index, items, originalIndices, ops)
    requires |items| <= index < |items0|
    ensures items == items0[..index] && originalIndices == indices0[..index]
    ensures TailRemoves(items0, index, ops)
  {
    assert items0[index + |ops|..] == [];
    assert indices0[index + |ops|..] == [];
  }

  /**
   * The state of `arraysDiffSequence` before each iteration of its main loop,
   * with `items` and `originalIndices` the working copy: the operations so far
   * replay to the working copy, positions before `index` hold the new items,
   * positions from `index` on hold old items.
   */
  ghost predicate DiffInv<T>(oldArray: seq<T>, newArray: seq<T>, eq: (T, T) -> bool,
                             items: seq<T>, originalIndices: seq<int>, sequence: seq<Op<T>>, index: nat)
  {
    Tracks(oldArray, items, originalIndices) &&
    index <= |newArray| && index <= |items| &&
    Replay(oldArray, sequence) == items && ReplayFits(oldArray, sequence) &&
    (forall j :: 0 <= j < index ==> SameItem(eq, oldArray, items[j], newArray[j])) &&
    (forall j :: index <= j < |items| ==> originalIndices[j] != -1) &&
    (forall i :: 0 <= i < |sequence| ==> OpTracks(oldArray, newArray, sequence[i]) && sequence[i].index < |newArray|) &&
    (SymmetricOn(eq, oldArray, newArray) ==>
      forall i :: 0 <= i < |sequence| && sequence[i].Move? ==> sequence[i].from > sequence[i].index) &&
    (ReflexiveOn(eq, oldArray) && oldArray == newArray ==>
      items == oldArray && originalIndices == Identity(|oldArray|) && sequence == NoopSequence(oldArray[..index]))
  }

  lemma DiffStart<T>(oldArray: seq<T>, newArray: seq<T>, eq: (T, T) -> bool)
    ensures DiffInv(oldArray, newArray, eq, oldArray, Identity(|oldArray|), [], 0)
  {
    assert NoopSequence(oldArray[..0]) == [];
  }

  /** A REMOVE of an old item that matches no new item keeps the loop state, at the same index. */
  lemma DiffStepRemove<T>(oldArray: seq<T>, newArray: seq<T>, eq: (T, T) -> bool,
                          items: seq<T>, originalIndices: seq<int>, sequence: seq<Op<T>>, index: nat)
    requires DiffInv(oldArray, newArray, eq, items, originalIndices, sequence, index)
    requires index < |newArray| && index < |items|
    requires forall k :: 0 <= k < |newArray| ==> !eq(items[index], newArray[k])
    ensures DiffInv(oldArray, newArray, eq, Delete(items, index), Delete(originalIndices, index),
                    sequence + [Remove(items[index], index)], index)
  {
    var op := Remove(items[index], index);
    ReplaySnoc(oldArray, sequence, op);
    TracksDelete(oldArray, items, originalIndices, index);
    assert oldArray[originalIndices[index]] == items[index];
    var s' := sequence + [op];
    assert forall i :: 0 <= i < |sequence| ==> s'[i] == sequence[i];
    if ReflexiveOn(eq, oldArray) && index < |oldArray| {
      ReflexiveAt(eq, oldArray, index);
    }
  }

  /** A NOOP at `index` keeps the loop state, at the next index. */
  lemma DiffStepNoop<T>(oldArray: seq<T>, newArray: seq<T>, eq: (T, T) -> bool,
                        items: seq<T>, originalIndices: seq<int>, sequence: seq<Op<T>>, index: nat)
    requires DiffInv(oldArray, newArray, eq, items, originalIndices, sequence, index)
    requires index < |newArray| && index < |items| && eq(items[index], newArray[index])
    ensures DiffInv(oldArray, newArray, eq, items, originalIndices,
                    sequence + [Noop(items[index], originalIndices[index], index)], index + 1)
  {
    var op := Noop(items[index], originalIndices[index], index);
    ReplaySnoc(oldArray, sequence, op);
    var s' := sequence + [op];
    assert oldArray[originalIndices[index]] == items[index];
    assert forall i :: 0 <= i < |s'| ==> OpTracks(oldArray, newArray, s'[i]) && s'[i].index < |newArray| by {
      forall i | 0 <= i < |s'|
        ensures OpTracks(oldArray, newArray, s'[i]) && s'[i].index < |newArray|
      {
        if i < |sequence| { assert s'[i] == sequence[i]; }
      }
    }
    assert SymmetricOn(eq, oldArray, newArray) ==>
      forall i :: 0 <= i < |s'| && s'[i].Move? ==> s'[i].from > s'[i].index by {
      if SymmetricOn(eq, oldArray, newArray) {
        forall i | 0 <= i < |s'| && s'[i].Move?
          ensures s'[i].from > s'[i].index
        {
          assert s'[i] == sequence[i];
        }
      }
    }
    if ReflexiveOn(eq, oldArray) && oldArray == newArray {
      NoopSequenceSnoc(oldArray, index);
    }
  }

  lemma NoopSequenceSnoc<T>(s: seq<T>, i: nat)
    requires i < |s|
    ensures NoopSequence(s[..i + 1]) == NoopSequence(s[..i]) + [Noop(s[i], i, i)]
  {
    var a, b := NoopSequence(s[..i + 1]), NoopSequence(s[..i]) + [Noop(s[i], i, i)];
    assert |a| == |b|;
    forall k | 0 <= k < |a| ensures a[k] == b[k] {
      if k < i { assert b[k] == NoopSequence(s[..i])[k]; }
    }
  }

  /** An ADD of a new item that no working item from `index` on matches keeps the loop state, at the next index. */
  lemma DiffStepAdd<T>(oldArray: seq<T>, newArray: seq<T>, eq: (T, T) -> bool,
                       items: seq<T>, originalIndices: seq<int>, sequence: seq<Op<T>>, index: nat)
    requires DiffInv(oldArray, newArray, eq, items, originalIndices, sequence, index)
    requires index < |newArray|
    requires index < |items| ==> !eq(items[index], newArray[index])
    ensures DiffInv(oldArray, newArray, eq, Insert(items, index, newArray[index]), Insert(originalIndices, index, -1),
                    sequence + [Add(newArray[index], index)], index + 1)
  {
    var op := Add(newArray[index], index);
    ReplaySnoc(oldArray, sequence, op);
    TracksInsert(oldArray, items, originalIndices, index, newArray[index], -1);
    var s' := sequence + [op];
    assert forall i :: 0 <= i < |sequence| ==> s'[i] == sequence[i];
    if ReflexiveOn(eq, oldArray) && index < |oldArray| {
      ReflexiveAt(eq, oldArray, index);
    }
  }

  /** A MOVE of the first matching working item from `from` to `index` keeps the loop state, at the next index. */
  lemma DiffStepMove<T>(oldArray: seq<T>, newArray: seq<T>, eq: (T, T) -> bool,
                        items: seq<T>, originalIndices: seq<int>, sequence: seq<Op<T>>, index: nat, from: nat)
    requires DiffInv(oldArray, newArray, eq, items, originalIndices, sequence, index)
    requires index < |newArray| && index <= from < |items| && eq(newArray[index], items[from])
    requires !eq(items[index], newArray[index])
    ensures DiffInv(oldArray, newArray, eq, Insert(Delete(items, from), index, items[from]),
                    Insert(Delete(originalIndices, from), index, originalIndices[from]),
                    sequence + [Move(items[from], originalIndices[from], from, index)], index + 1)
  {
    var op := Move(items[from], originalIndices[from], from, index);
    ReplaySnoc(oldArray, sequence, op);
    TracksDelete(oldArray, items, originalIndices, from);
    TracksInsert(oldArray, Delete(items, from), Delete(originalIndices, from), index, items[from], originalIndices[from]);
    assert oldArray[originalIndices[from]] == items[from];
    var s' := sequence + [op];
    assert forall i :: 0 <= i < |sequence| ==> s'[i] == sequence[i];
    if SymmetricOn(eq, oldArray, newArray) {
      SymmetricAt(eq, oldArray, newArray, originalIndices[index], index);
    }
    if ReflexiveOn(eq, oldArray) && index < |oldArray| {
      ReflexiveAt(eq, oldArray, index);
    }
  }

  /** `tail` is what `removeItemsAfter(n)` returns on `items`: one REMOVE at `n` per item from `n` on. */
  ghost predicate TailRemoves<T>(items: seq<T>, n: nat, tail: seq<Op<T>>)
  {
    (n < |items| ==> |tail| == |items| - n) &&
    (n >= |items| ==> tail == []) &&
    (forall k :: 0 <= k < |tail| ==> tail[k] == Remove(items[n + k], n))
  }

  /** After the trailing REMOVEs the replay is the working copy cut to the new list's length. */
  lemma DiffFinishReplay<T>(oldArray: seq<T>, newArray: seq<T>, eq: (T, T) -> bool,
                            items: seq<T>, originalIndices: seq<int>, sequence: seq<Op<T>>, tail: seq<Op<T>>)
    requires DiffInv(oldArray, newArray, eq, items, originalIndices, sequence, |newArray|)
    requires Replay(items, tail) == items[..|newArray|] && ReplayFits(items, tail)
    ensures ReplayFits(oldArray, sequence + tail)
    ensures |Replay(oldArray, sequence + tail)| == |newArray|
    ensures forall j :: 0 <= j < |newArray| ==>
      SameItem(eq, oldArray, Replay(oldArray, sequence + tail)[j], newArray[j])
  {
    ReplayConcat(oldArray, sequence, tail);
  }

  /** The trailing REMOVEs remove old items, all at `|newArray|`, after every other operation. */
  lemma DiffFinishOps<T>(oldArray: seq<T>, newArray: seq<T>, eq: (T, T) -> bool,
                         items: seq<T>, originalIndices: seq<int>, sequence: seq<Op<T>>, tail: seq<Op<T>>)
    requires DiffInv(oldArray, newArray, eq, items, originalIndices, sequence, |newArray|)
    requires TailRemoves(items, |newArray|, tail)
    ensures forall i :: 0 <= i < |sequence + tail| ==> OpTracks(oldArray, newArray, (sequence + tail)[i])
    ensures SymmetricOn(eq, oldArray, newArray) ==>
      forall i :: 0 <= i < |sequence + tail| && (sequence + tail)[i].Move? ==> (sequence + tail)[i].from > (sequence + tail)[i].index
    ensures forall i :: 0 <= i < |sequence + tail| ==> (sequence + tail)[i].index <= |newArray|
    ensures forall i :: 0 <= i < |sequence + tail| && (sequence + tail)[i].index == |newArray| ==> (sequence + tail)[i].Remove?
    ensures forall i, j :: 0 <= i < j < |sequence + tail| && (sequence + tail)[i].index == |newArray| ==> (sequence + tail)[j].index == |newArray|
  {
    var all := sequence + tail;
    forall i | |sequence| <= i < |all|
      ensures OpTracks(oldArray, newArray, all[i])
    {
      var k := i - |sequence|;
      assert all[i] == tail[k];
      assert originalIndices[|newArray| + k] != -1;
      assert oldArray[originalIndices[|newArray| + k]] == items[|newArray| + k];
    }
    assert forall i :: 0 <= i < |sequence| ==> all[i] == sequence[i];
    assert forall i :: |sequence| <= i < |all| ==> all[i] == tail[i - |sequence|];
  }

  /** Equal lists under a reflexive `equalsFn` leave nothing to cut. */
  lemma DiffFinishIdentity<T>(oldArray: seq<T>, newArray: seq<T>, eq: (T, T) -> bool,
                              items: seq<T>, originalIndices: seq<int>, sequence: seq<Op<T>>, tail: seq<Op<T>>)
    requires DiffInv(oldArray, newArray, eq, items, originalIndices, sequence, |newArray|)
    requires TailRemoves(items, |newArray|, tail)
    ensures ReflexiveOn(eq, oldArray) && oldArray == newArray ==> sequence + tail == NoopSequence(oldArray)
  {
    if ReflexiveOn(eq, oldArray) && oldArray == newArray {
      assert oldArray[..|newArray|] == oldArray;
      assert sequence + tail == sequence;
    }
  }

  /** The REMOVE branch: the item at `index` matches no new item. */
  method DiffRemove<T>(working: ArrayWithOriginalIndices<T>, oldArray: seq<T>, newArray: seq<T>,
                       sequence: seq<Op<T>>, index: nat)
    returns (sequence': seq<Op<T>>)
    requires working.Valid() && working.source == oldArray
    requires DiffInv(oldArray, newArray, working.equalsFn, working.items, working.originalIndices, sequence, index)
    requires index < |newArray| && working.IsRemoval(index, newArray)
    modifies working
    ensures working.Valid() && |working.items| < |old(working.items)|
    ensures DiffInv(oldArray, newArray, working.equalsFn, working.items, working.originalIndices, sequence', index)
  {
    ghost var items, originalIndices := working.items, working.originalIndices;
    var op := working.RemoveItem(index);
    DiffStepRemove(oldArray, newArray, working.equalsFn, items, originalIndices, sequence, index);
    sequence' := sequence + [op];
  }

  /** The NOOP branch: the item at `index` is equal to the new item there. */
  method DiffNoop<T>(working: ArrayWithOriginalIndices<T>, oldArray: seq<T>, newArray: seq<T>,
                     sequence: seq<Op<T>>, index: nat)
    returns (sequence': seq<Op<T>>)
    requires working.Valid() && working.source == oldArray
    requires DiffInv(oldArray, newArray, working.equalsFn, working.items, working.originalIndices, sequence, index)
    requires index < |newArray| && working.IsNoop(index, newArray)
    ensures DiffInv(oldArray, newArray, working.equalsFn, working.items, working.originalIndices, sequence', index + 1)
  {
    var op := working.NoopItem(index);
    DiffStepNoop(oldArray, newArray, working.equalsFn, working.items, working.originalIndices, sequence, index);
    sequence' := sequence + [op];
  }

  /** The ADD branch, or else the MOVE branch, for the new item at `index`. */
  method DiffAddOrMove<T>(working: ArrayWithOriginalIndices<T>, oldArray: seq<T>, newArray: seq<T>,
                          sequence: seq<Op<T>>, index: nat)
    returns (sequence': seq<Op<T>>)
    requires working.Valid() && working.source == oldArray
    requires DiffInv(oldArray, newArray, working.equalsFn, working.items, working.originalIndices, sequence, index)
    requires index < |newArray| && !working.IsNoop(index, newArray)
    modifies working
    ensures working.Valid()
    ensures DiffInv(oldArray, newArray, working.equalsFn, working.items, working.originalIndices, sequence', index + 1)
  {
    ghost var items, originalIndices := working.items, working.originalIndices;
    var item := newArray[index];
    var addition := working.IsAddition(item, index);
    if addition {
      var op := working.AddItem(item, index);
      DiffStepAdd(oldArray, newArray, working.equalsFn, items, originalIndices, sequence, index);
      sequence' := sequence + [op];
    } else {
      var op := working.MoveItem(item, index);
      DiffStepMove(oldArray, newArray, working.equalsFn, items, originalIndices, sequence, index, op.from);
      sequence' := sequence + [op];
    }
  }

  /**
   * One iteration of the main loop: REMOVE and stay at `index`, or NOOP, ADD
   * or MOVE and go on to the next index.
   */
  method DiffStep<T>(working: ArrayWithOriginalIndices<T>, oldArray: seq<T>, newArray: seq<T>,
                     sequence: seq<Op<T>>, index: nat)
    returns (sequence': seq<Op<T>>, index': nat)
    requires working.Valid() && working.source == oldArray
    requires DiffInv(oldArray, newArray, working.equalsFn, working.items, working.originalIndices, sequence, index)
    requires index < |newArray|
    modifies working
    ensures working.Valid()
    ensures index' == index + 1 || (index' == index && |working.items| < |old(working.items)|)
    ensures DiffInv(oldArray, newArray, working.equalsFn, working.items, working.originalIndices, sequence', index')
  {
    var removal := working.IsRemoval(index, newArray);
    if removal {
      sequence' := DiffRemove(working, oldArray, newArray, sequence, index);
      index' := index;
    } else {
      var noop := working.IsNoop(index, newArray);
      if noop {
        sequence' := DiffNoop(working, oldArray, newArray, sequence, index);
      } else {
        sequence' := DiffAddOrMove(working, oldArray, newArray, sequence, index);
      }
      index' := index + 1;
    }
  }

  /** The main loop of `arraysDiffSequence`, over the indices of `newArray`. */
  method DiffMainLoop<T>(working: ArrayWithOriginalIndices<T>, oldArray: seq<T>, newArray: seq<T>)
    returns (sequence: seq<Op<T>>)
    requires working.Valid() && working.source == oldArray
    requires DiffInv(oldArray, newArray, working.equalsFn, working.items, working.originalIndices, [], 0)
    modifies working
    ensures working.Valid()
    ensures DiffInv(oldArray, newArray, working.equalsFn, working.items, working.originalIndices, sequence, |newArray|)
  {
    sequence := [];
    var index := 0;
    while index < |newArray|
      invariant working.Valid()
      invariant DiffInv(oldArray, newArray, working.equalsFn, working.items, working.originalIndices, sequence, index)
      decreases |newArray| - index, |working.items| - index
    {
      sequence, index := DiffStep(working, oldArray, newArray, sequence, index);
    }
  }

  /**
   * `arraysDiffSequence(oldArray, newArray, equalsFn)`: the ADD/REMOVE/MOVE/NOOP
   * operations that turn `oldArray` into `newArray`. After a REMOVE the same
   * index is examined again.
   */
  method ArraysDiffSequence<T>(oldArray: seq<T>, newArray: seq<T>, equalsFn: (T, T) -> bool)
    returns (sequence: seq<Op<T>>)
    ensures ReplayFits(oldArray, sequence)
    ensures |Replay(oldArray, sequence)| == |newArray|
    ensures forall j :: 0 <= j < |newArray| ==> SameItem(equalsFn, oldArray, Replay(oldArray, sequence)[j], newArray[j])
    ensures forall i :: 0 <= i < |sequence| ==> OpTracks(oldArray, newArray, sequence[i])
    ensures SymmetricOn(equalsFn, oldArray, newArray) ==>
      forall i :: 0 <= i < |sequence| && sequence[i].Move? ==> sequence[i].from > sequence[i].index
    ensures forall i :: 0 <= i < |sequence| ==> sequence[i].index <= |newArray|
    ensures forall i :: 0 <= i < |sequence| && sequence[i].index == |newArray| ==> sequence[i].Remove?
    ensures forall i, j :: 0 <= i < j < |sequence| && sequence[i].index == |newArray| ==> sequence[j].index == |newArray|
    ensures ReflexiveOn(equalsFn, oldArray) && oldArray == newArray ==> sequence == NoopSequence(oldArray)
  {
    var working := new ArrayWithOriginalIndices(oldArray, equalsFn);
    DiffStart(oldArray, newArray, equalsFn);
    sequence := DiffMainLoop(working, oldArray, newArray);
    ghost var items, originalIndices := working.items, working.originalIndices;
    var tail := working.RemoveItemsAfter(|newArray|);
    DiffFinishReplay(oldArray, newArray, equalsFn, items, originalIndices, sequence, tail);
    DiffFinishOps(oldArray, newArray, equalsFn, items, originalIndices, sequence, tail);
    DiffFinishIdentity(oldArray, newArray, equalsFn, items, originalIndices, sequence, tail);
    sequence := sequence + tail;
  }

  /**
   * `arraysDiffSequence` with its default `equalsFn`, `===`: replaying the
   * operations yields exactly the new list, and a list diffed against itself
   * gives one NOOP per item.
   */
  method ArraysDiffSequenceStrict<T(==)>(oldArray: seq<T>, newArray: seq<T>) returns (sequence: seq<Op<T>>)
    ensures ReplayFits(oldArray, sequence) && Replay(oldArray, sequence) == newArray
    ensures forall i :: 0 <= i < |sequence| ==> OpTracks(oldArray, newArray, sequence[i])
    ensures forall i :: 0 <= i < |sequence| && sequence[i].Move? ==> sequence[i].from > sequence[i].index
    ensures oldArray == newArray ==> sequence == NoopSequence(oldArray)
  {
    var eq := (a: T, b: T) => a == b;
    sequence := ArraysDiffSequence(oldArray, newArray, eq);
    ghost var r := Replay(oldArray, sequence);
    forall j | 0 <= j < |newArray|
      ensures r[j] == newArray[j]
    {
      assert SameItem(eq, oldArray, r[j], newArray[j]);
    }
  }
}
