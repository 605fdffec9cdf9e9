/**
 * Slot projection: `fillSlots(vdom, externalContent)` walks a freshly rendered
 * tree depth first, without entering component nodes, and replaces each slot
 * node in its parent's child list by a fragment of the external content (or,
 * when that is empty, of the slot's default content), or drops the slot when
 * both are empty.
 *
 * The walk is `traverseDFS`, whose `forEach` over a child list keeps running
 * while `insertViewInSlot` splices that same list. Two consequences of the code
 * as written are modelled exactly: after a slot is spliced out, the sibling that
 * moves into its position is never visited; and the fragment built from default
 * content holds the default child nodes themselves, so a slot placed directly in
 * default content stays a slot (only the slot's own child list, which the
 * fragment does not share, has it replaced). `FillNode`/`FillSeq` are the
 * corrected projection that the rest of the model uses.
 */
module Slots {
  import opened Wrappers
  import opened Values
  import opened VNodes

  /** What the walk over one child list leaves: the list itself, and the final value of each original child. */
  datatype Walked = Walked(arr: seq<VNode>, finals: seq<VNode>)

  /**
   * `insertViewInSlot(node, parent, index, externalContent)` on the parent's
   * child list: a non-slot is left alone; a slot with something to show becomes a
   * fragment of `views`, and one with nothing to show is spliced out.
   */
  function InsertViewInSlot(children: seq<VNode>, index: nat, ext: seq<VNode>, defaults: seq<VNode>): (r: seq<VNode>)
    requires index < |children|
    ensures !children[index].Slot? ==> r == children
    ensures children[index].Slot? && |ext| > 0 ==> r == children[index := Fragment(ext, None)]
    ensures children[index].Slot? && |ext| == 0 && |defaults| > 0 ==> r == children[index := Fragment(defaults, None)]
    ensures children[index].Slot? && |ext| == 0 && |defaults| == 0 ==> r == children[..index] + children[index + 1..]
  {
    if !children[index].Slot? then children
    else
      var views := if |ext| > 0 then ext else defaults;
      if |views| > 0 then children[..index] + [Fragment(views, None)] + children[index + 1..]
      else children[..index] + children[index + 1..]
  }

  /**
   * The final value of a node that `traverseDFS` has visited with the slot
   * filler: a component or text node is unchanged, the child list of an element,
   * fragment or slot node has been walked.
   */
  function Final(n: VNode, ext: seq<VNode>): (r: VNode)
    ensures TypeOf(r) == TypeOf(n)
    ensures !n.Text? ==> (r.Component? <==> n.Component?) && (n.Component? ==> r == n)
    decreases n
  {
    match n
    case Text(_, _) => n
    case Component(_, _, _, _, _) => n
    case Element(tag, props, children, el, listeners) => Element(tag, props, Walk(children, ext).arr, el, listeners)
    case Fragment(children, el) => Fragment(Walk(children, ext).arr, el)
    case Slot(children) => Slot(Walk(children, ext).arr)
  }

  /**
   * The `forEach` of `traverseDFS` over the children not yet reached, starting
   * at the position the loop is about to visit. A visited slot is handled by
   * `insertViewInSlot` before its own children are walked; when it is spliced
   * out, the next child shifts into the visited position and the loop moves
   * past it without visiting it.
   */
  function Walk(rest: seq<VNode>, ext: seq<VNode>): (w: Walked)
    ensures |w.finals| == |rest|
    decreases rest
  {
    if rest == [] then Walked([], [])
    else
      var c := rest[0];
      assert c in rest;
      if c.Slot? then
        var inner := Walk(c.children, ext);
        var views := if |ext| > 0 then ext else inner.finals;
        if |ext| > 0 || |c.children| > 0 then
          var tail := Walk(rest[1..], ext);
          Walked([Fragment(views, None)] + tail.arr, [Slot(inner.arr)] + tail.finals)
        else if |rest| == 1 then Walked([], [Slot(inner.arr)])
        else
          var tail := Walk(rest[2..], ext);
          Walked([rest[1]] + tail.arr, [Slot(inner.arr), rest[1]] + tail.finals)
      else
        var f := Final(c, ext);
        var tail := Walk(rest[1..], ext);
        Walked([f] + tail.arr, [f] + tail.finals)
  }

  /**
   * At a slot, the walk is `insertViewInSlot` on the remaining list followed by
   * the loop moving on to the next position: whatever now sits at the visited
   * position stays as it is.
   */
  lemma WalkSplices(rest: seq<VNode>, ext: seq<VNode>)
    requires rest != [] && rest[0].Slot?
    ensures var spliced := InsertViewInSlot(rest, 0, ext, Walk(rest[0].children, ext).finals);
      Walk(rest, ext).arr == if spliced == [] then [] else [spliced[0]] + Walk(spliced[1..], ext).arr
  {
    var spliced := InsertViewInSlot(rest, 0, ext, Walk(rest[0].children, ext).finals);
    if |ext| > 0 || |rest[0].children| > 0 {
      assert spliced[1..] == rest[1..];
    } else if |rest| > 1 {
      assert spliced == rest[1..];
      assert spliced[1..] == rest[2..];
    }
  }

  /**
   * `fillSlots(vdom, externalContent)` as written: a component root is skipped;
   * a slot at the root has no parent list to be spliced into, which throws.
   */
  function FillSlotsAsWritten(vdom: VNode, ext: seq<VNode>): (r: Result<VNode>)
    ensures r.Failure? <==> vdom.Slot?
    ensures vdom.Component? ==> r == Success(vdom)
  {
    if vdom.Slot? then Failure("Cannot read properties of null (reading 'children')")
    else Success(Final(vdom, ext))
  }

  /** No slot node outside component nodes (components fill their own slots). */
  predicate SlotFree(n: VNode)
    decreases n
  {
    match n
    case Text(_, _) => true
    case Component(_, _, _, _, _) => true
    case Slot(_) => false
    case Element(_, _, children, _, _) => SlotFreeSeq(children)
    case Fragment(children, _) => SlotFreeSeq(children)
  }

  predicate SlotFreeSeq(s: seq<VNode>)
    decreases s
  {
    forall i :: 0 <= i < |s| ==> SlotFree(s[i])
  }

  /** The corrected projection of a node that is not itself a slot. */
  function FillNode(n: VNode, ext: seq<VNode>): (r: VNode)
    ensures TypeOf(r) == TypeOf(n)
    ensures n.Component? || n.Text? ==> r == n
    decreases n
  {
    match n
    case Element(tag, props, children, el, listeners) => Element(tag, props, FillSeq(children, ext), el, listeners)
    case Fragment(children, el) => Fragment(FillSeq(children, ext), el)
    case _ => n
  }

  /**
   * The corrected projection of a child list: every slot, at any depth outside
   * components and including slots inside default content, becomes one fragment
   * of its views or disappears when it has none, and no sibling is skipped.
   */
  function FillSeq(s: seq<VNode>, ext: seq<VNode>): (r: seq<VNode>)
    decreases s
  {
    if s == [] then []
    else
      var c := s[0];
      assert c in s;
      (if c.Slot? then
         (if |ext| > 0 then [Fragment(ext, None)]
          else if |c.children| > 0 then [Fragment(FillSeq(c.children, ext), None)]
          else [])
       else [FillNode(c, ext)]) + FillSeq(s[1..], ext)
  }

  /** `fillSlots` with the corrected walk. */
  function FillSlots(vdom: VNode, ext: seq<VNode>): (r: Result<VNode>)
    ensures r.Failure? <==> vdom.Slot?
    ensures vdom.Component? ==> r == Success(vdom)
  {
    if vdom.Slot? then Failure("Cannot read properties of null (reading 'children')")
    else Success(FillNode(vdom, ext))
  }

  lemma SlotFreeConcat(a: seq<VNode>, b: seq<VNode>)
    requires SlotFreeSeq(a) && SlotFreeSeq(b)
    ensures SlotFreeSeq(a + b)
  {
    forall i | 0 <= i < |a + b|
      ensures SlotFree((a + b)[i])
    {
      if i < |a| { assert (a + b)[i] == a[i]; } else { assert (a + b)[i] == b[i - |a|]; }
    }
  }

  /** With slot-free external content, the corrected projection leaves no slot outside components. */
  lemma {:induction false} FillNodeSlotFree(n: VNode, ext: seq<VNode>)
    requires !n.Slot? && SlotFreeSeq(ext)
    ensures SlotFree(FillNode(n, ext))
    decreases n, 1
  {
    match n
    case Element(_, _, children, _, _) => FillSeqSlotFree(children, ext);
    case Fragment(children, _) => FillSeqSlotFree(children, ext);
    case _ =>
  }

  lemma {:induction false} FillSeqSlotFree(s: seq<VNode>, ext: seq<VNode>)
    requires SlotFreeSeq(ext)
    ensures SlotFreeSeq(FillSeq(s, ext))
    decreases s, 0
  {
    if s != [] {
      var c := s[0];
      assert c in s;
      var head: seq<VNode> :=
        if c.Slot? then
          (if |ext| > 0 then [Fragment(ext, None)]
           else if |c.children| > 0 then [Fragment(FillSeq(c.children, ext), None)]
           else [])
        else [FillNode(c, ext)];
      if c.Slot? {
        if |ext| == 0 && |c.children| > 0 {
          FillSeqSlotFree(c.children, ext);
          assert SlotFree(Fragment(FillSeq(c.children, ext), None));
        } else if |ext| > 0 {
          assert SlotFree(Fragment(ext, None));
        }
      } else {
        FillNodeSlotFree(c, ext);
      }
      assert SlotFreeSeq(head);
      FillSeqSlotFree(s[1..], ext);
      SlotFreeConcat(head, FillSeq(s[1..], ext));
    }
  }

  /** The corrected `fillSlots` leaves no slot outside components when the external content has none. */
  lemma FillSlotsSlotFree(vdom: VNode, ext: seq<VNode>)
    requires !vdom.Slot? && SlotFreeSeq(ext)
    ensures FillSlots(vdom, ext).Success? && SlotFree(FillSlots(vdom, ext).value)
  {
    FillNodeSlotFree(vdom, ext);
  }

  /** A tree without slots outside components is left unchanged by the corrected projection. */
  lemma {:induction false} FillNodeIdentity(n: VNode, ext: seq<VNode>)
    requires SlotFree(n)
    ensures FillNode(n, ext) == n
    decreases n, 1
  {
    match n
    case Element(_, _, children, _, _) => FillSeqIdentity(children, ext);
    case Fragment(children, _) => FillSeqIdentity(children, ext);
    case _ =>
  }

  lemma {:induction false} FillSeqIdentity(s: seq<VNode>, ext: seq<VNode>)
    requires SlotFreeSeq(s)
    ensures FillSeq(s, ext) == s
    decreases s, 0
  {
    if s != [] {
      assert s[0] in s && SlotFree(s[0]);
      FillNodeIdentity(s[0], ext);
      assert SlotFreeSeq(s[1..]) by {
        forall i | 0 <= i < |s[1..]| ensures SlotFree(s[1..][i]) { assert s[1..][i] == s[i + 1]; }
      }
      FillSeqIdentity(s[1..], ext);
    }
  }

  /** The corrected projection works child by child: it distributes over concatenation. */
  lemma {:induction false} FillSeqConcat(a: seq<VNode>, b: seq<VNode>, ext: seq<VNode>)
    ensures FillSeq(a + b, ext) == FillSeq(a, ext) + FillSeq(b, ext)
    decreases a
  {
    if a == [] {
      assert a + b == b;
    } else {
      assert (a + b)[0] == a[0];
      assert (a + b)[1..] == a[1..] + b;
      FillSeqConcat(a[1..], b, ext);
    }
  }

  /**
   * A slot anywhere in a child list becomes, in its own place, one fragment of
   * the external content when there is some, otherwise one fragment of its
   * projected default content, and nothing when both are empty; its siblings on
   * either side are projected as if it were not there.
   */
  lemma SlotInPlace(a: seq<VNode>, d: seq<VNode>, b: seq<VNode>, ext: seq<VNode>)
    ensures FillSeq(a + [Slot(d)] + b, ext) ==
      FillSeq(a, ext) +
      (if |ext| > 0 then [Fragment(ext, None)] else if d == [] then [] else [Fragment(FillSeq(d, ext), None)]) +
      FillSeq(b, ext)
  {
    var mid := [Slot(d)];
    FillSeqConcat(a + mid, b, ext);
    FillSeqConcat(a, mid, ext);
    SlotAlone(d, ext);
  }

  lemma SlotAlone(d: seq<VNode>, ext: seq<VNode>)
    ensures FillSeq([Slot(d)], ext) ==
      if |ext| > 0 then [Fragment(ext, None)] else if d == [] then [] else [Fragment(FillSeq(d, ext), None)]
  {
    var s := [Slot(d)];
    assert s[0] == Slot(d) && s[1..] == [];
  }

  /**
   * With no external content, every slot of a list of slots shows its own
   * default content, in order, and the empty ones disappear.
   */
  lemma DefaultContentInOrder(d1: seq<VNode>, d2: seq<VNode>)
    requires SlotFreeSeq(d1) && SlotFreeSeq(d2)
    ensures FillSeq([Slot(d1), Slot(d2)], []) ==
      (if d1 == [] then [] else [Fragment(d1, None)]) + (if d2 == [] then [] else [Fragment(d2, None)])
  {
    SlotInPlace([Slot(d1)], d2, [], []);
    SlotInPlace([], d1, [], []);
    assert [Slot(d1)] + [Slot(d2)] + [] == [Slot(d1), Slot(d2)];
    assert [] + [Slot(d1)] + [] == [Slot(d1)];
    FillSeqIdentity(d1, []);
    FillSeqIdentity(d2, []);
  }

  /**
   * When external content is supplied, no slot is ever spliced out and default
   * content is never shown, so the walk as written agrees with the corrected one.
   */
  lemma {:induction false} FinalIsFillNode(n: VNode, ext: seq<VNode>)
    requires |ext| > 0 && !n.Slot?
    ensures Final(n, ext) == FillNode(n, ext)
    decreases n, 1
  {
    match n
    case Element(_, _, children, _, _) => WalkIsFillSeq(children, ext);
    case Fragment(children, _) => WalkIsFillSeq(children, ext);
    case _ =>
  }

  lemma {:induction false} WalkIsFillSeq(s: seq<VNode>, ext: seq<VNode>)
    requires |ext| > 0
    ensures Walk(s, ext).arr == FillSeq(s, ext)
    decreases s, 0
  {
    if s != [] {
      assert s[0] in s;
      if !s[0].Slot? {
        FinalIsFillNode(s[0], ext);
      }
      WalkIsFillSeq(s[1..], ext);
    }
  }

  lemma FillSlotsAgree(vdom: VNode, ext: seq<VNode>)
    requires |ext| > 0
    ensures FillSlotsAsWritten(vdom, ext) == FillSlots(vdom, ext)
  {
    if !vdom.Slot? {
      FinalIsFillNode(vdom, ext);
    }
  }

  /**
   * Two empty slots side by side with no external content: the second one is
   * never visited and survives, so the mounted tree would meet an unknown node
   * type. The corrected walk drops both.
   */
  lemma SkippedSiblingSlot(props: Props)
    ensures FillSlotsAsWritten(Element("div", props, [Slot([]), Slot([])], None, None), []) ==
      Success(Element("div", props, [Slot([])], None, None))
    ensures !SlotFree(FillSlotsAsWritten(Element("div", props, [Slot([]), Slot([])], None, None), []).value)
    ensures FillSlots(Element("div", props, [Slot([]), Slot([])], None, None), []) ==
      Success(Element("div", props, [], None, None))
  {
    var none: seq<VNode> := [];
    var one: seq<VNode> := [Slot([])];
    var s: seq<VNode> := [Slot([]), Slot([])];
    assert s[1..] == one && s[2..] == none && one[1..] == none;
    assert Walk(none, none) == Walked([], []);
    assert Walk(s, none).arr == one;
    assert !SlotFree(one[0]);
    assert FillSeq(one, none) == [];
    assert FillSeq(s, none) == [];
  }

  /**
   * A slot directly inside another slot's default content, with no external
   * content: the fragment shows the inner slot node itself, which stays a slot.
   * The corrected walk turns it into a fragment of its own default content.
   */
  lemma NestedDefaultSlot(props: Props)
    ensures FillSlotsAsWritten(Element("div", props, [Slot([Slot([Text("x", None)])])], None, None), []) ==
      Success(Element("div", props, [Fragment([Slot([Text("x", None)])], None)], None, None))
    ensures !SlotFree(FillSlotsAsWritten(Element("div", props, [Slot([Slot([Text("x", None)])])], None, None), []).value)
    ensures FillSlots(Element("div", props, [Slot([Slot([Text("x", None)])])], None, None), []) ==
      Success(Element("div", props, [Fragment([Fragment([Text("x", None)], None)], None)], None, None))
  {
    var none: seq<VNode> := [];
    var text: seq<VNode> := [Text("x", None)];
    var innerSlot: seq<VNode> := [Slot(text)];
    var outer: seq<VNode> := [Slot(innerSlot)];
    assert text[1..] == none && innerSlot[1..] == none && outer[1..] == none;
    assert Walk(none, none) == Walked([], []);
    assert Walk(text, none) == Walked(text, text);
    assert Walk(innerSlot, none) == Walked([Fragment(text, None)], [Slot(text)]);
    assert Walk(outer, none).arr == [Fragment(innerSlot, None)];
    var shown: seq<VNode> := [Fragment(innerSlot, None)];
    assert !SlotFree(innerSlot[0]);
    assert !SlotFreeSeq(innerSlot);
    assert !SlotFree(shown[0]);
    assert FillSeq(text, none) == text;
    assert FillSeq(innerSlot, none) == [Fragment(text, None)];
    assert FillSeq(outer, none) == [Fragment([Fragment(text, None)], None)];
  }
}
