# betal-fe in Dafny

A model of the core of **betal-fe**, a small virtual-DOM front-end framework,
and of the todo application that ships with it as an example, with proofs of
what the code promises.

The runtime part covers:

- the virtual-node builders `h`, `hString`, `hFragment` and `hSlot`, and fragment flattening;
- `areNodesEqual`, `objectsDiff` and `toClassList`;
- the keyed children diff `arraysDiffSequence` with its working copy `ArrayWithOriginalIndices`, and `arraysDiff`;
- `patchEvents`;
- slot projection, `fillSlots`;
- the microtask job scheduler;
- the command `Dispatcher`;
- `mountDOM` and `destroyDOM`, over an abstract store of platform nodes;
- the component class that `defineComponent` returns.

The todo part covers:

- the reducers of the todo example;
- the root component's todo operations and counts;
- the filter, search and children of the todos section.

Values are Dafny datatypes and objects are explicit key lists with maps
(`Objects.Obj`). State that the JavaScript updates in place is held in classes:

- the job queue (`Scheduler.JobQueue`);
- the dispatcher (`Dispatching.Dispatcher`);
- the platform document (`Renderer.Document`);
- a component instance (`Components.Component`);
- the diff's working copy (`Arrays.ArrayWithOriginalIndices`);
- the todo app's state (`TodoApp.App`).

Each method holding a loop or an in-place update is proved against a pure
specification function: `Mount`/`MountSeq`, `Destroy`/`DestroySeq`, `Drain`,
`Patched`, `ClearedNames`. The lemmas about those functions carry the
properties.

Some behaviour of the code is easy to misread, and the model follows the code:

- A fragment passes `index ? index + 1 : null` to every one of its children. So a fragment mounted at index 0 appends its children, the same as one mounted with no index.
- Every child of a fragment gets the same index, not increasing indices.
- `objectsDiff` compares values with `!==`, so an event handler that is the same function is not re-registered.
- `fast-deep-equal` ignores key order at every depth, so `updateProps` with the same nested entries in another order returns early.

## Model

| member | source | states |
|---|---|---|
| Objects.Merge | packages/runtime/src/component.js:37 | the spread merge `{...a, ...b}`: keys of `b` win, other keys of `a` keep their values, `a`'s key order is a prefix of the result's, and the result is a well-formed object |
| Objects.Remove | packages/runtime/dist/betal-fe.js:296-300 | `delete o[k]` on a copy removes exactly `k` and keeps the remaining keys in order |
| Objects.Set | packages/runtime/src/events.js:6-13 | `o[k] = v` on a copy: only `k` changes, a new key goes last and an existing key keeps its place |
| Objects.ObjectsDiff | packages/runtime/src/utils/objects.js:1-12 | a key is reported added iff only the new object has it, removed iff only the old one has it, and updated iff both have it with different values |
| Objects.ObjectsDiffOrder | packages/runtime/src/utils/objects.js:1-12 | added and updated keys follow the new object's key order, removed keys the old one's, and no key is both added and updated |
| Objects.ObjectsDiffSelf | packages/runtime/src/utils/objects.js:1-12 | an object diffed against itself reports nothing |
| Values.ValueEqualRefl | packages/runtime/dist/betal-fe.js:711-738 | `fast-deep-equal` holds between a value and itself, at every depth |
| Values.ValueEqualSym | packages/runtime/dist/betal-fe.js:711-738 | `fast-deep-equal` is symmetric: same key sets, same array lengths, pairwise equal items either way round |
| Values.ValueEqualTrans | packages/runtime/dist/betal-fe.js:711-738 | `fast-deep-equal` is transitive |
| Values.NestedKeyOrderIgnored | packages/runtime/dist/betal-fe.js:726-735 | objects holding the same entries in another key order are deep-equal, also nested inside another object |
| Values.MergeDeepEqual | packages/runtime/src/component.js:92-95 | merging new props in leaves deep-equal props iff every new entry is already present with a deep-equal value, which is exactly when `updateProps` returns early |
| Arrays.WithoutNulls | packages/runtime/dist/betal-fe.js:7-9 | every kept item was a non-null item of the input, and every non-null item is kept |
| Arrays.WithoutNullsConcat | packages/runtime/dist/betal-fe.js:7-9 | dropping the nulls of a concatenation drops them from each part |
| Arrays.WithoutNullsNoNulls | packages/runtime/dist/betal-fe.js:7-9 | an array without nulls is kept whole, in order |
| Arrays.ArraysDiff | packages/runtime/dist/betal-fe.js:10-15 | an item is added iff it is in the new array and not the old one, and removed iff it is in the old array and not the new one |
| Arrays.ArraysDiffOrder | packages/runtime/dist/betal-fe.js:10-15 | both lists keep their array's order and no item is both added and removed |
| Arrays.ArraysDiffSelf | packages/runtime/dist/betal-fe.js:10-15 | an array diffed against itself has nothing added or removed |
| Arrays.Insert | packages/runtime/dist/betal-fe.js:78-87 | `splice(i, 0, x)` puts `x` at `i` and shifts the later items right, or appends it past the end |
| Arrays.Delete | packages/runtime/dist/betal-fe.js:41-50 | `splice(i, 1)` removes position `i` and shifts the later items left; past the end nothing changes |
| Arrays.ArrayWithOriginalIndices.constructor | packages/runtime/dist/betal-fe.js:20-24 | the working copy starts as the old array, each item beside its own index |
| Arrays.ArrayWithOriginalIndices.OriginalIndexAt | packages/runtime/dist/betal-fe.js:28-30 | the original index is -1 or the position in the old array of the item at `index` |
| Arrays.ArrayWithOriginalIndices.IsRemoval | packages/runtime/dist/betal-fe.js:31-40 | true iff an item exists at `index` and no new item is equal to it |
| Arrays.ArrayWithOriginalIndices.RemoveItem | packages/runtime/dist/betal-fe.js:41-50 | returns the REMOVE of the item at `index` and deletes it, with its original index, from the copy |
| Arrays.ArrayWithOriginalIndices.IsNoop | packages/runtime/dist/betal-fe.js:51-58 | true iff the copy has an item at `index` and it is equal to the new item at `index` |
| Arrays.ArrayWithOriginalIndices.NoopItem | packages/runtime/dist/betal-fe.js:59-66 | the NOOP names the item at `index` and its original index, which points at that item in the old array |
| Arrays.ArrayWithOriginalIndices.FindIndexFrom | packages/runtime/dist/betal-fe.js:67-74 | the first position at or after `fromIndex` whose item is equal to `item`, or -1 iff there is none |
| Arrays.ArrayWithOriginalIndices.IsAddition | packages/runtime/dist/betal-fe.js:75-77 | true iff no item at or after `fromIdx` is equal to `item` |
| Arrays.ArrayWithOriginalIndices.AddItem | packages/runtime/dist/betal-fe.js:78-87 | returns the ADD and inserts the item at `index` with original index -1 |
| Arrays.ArrayWithOriginalIndices.MoveItem | packages/runtime/dist/betal-fe.js:88-102 | moves the first equal item at or after `toIndex` to `toIndex` with its original index, and returns that MOVE with its source position |
| Arrays.ArrayWithOriginalIndices.RemoveItemsAfter | packages/runtime/dist/betal-fe.js:103-109 | cuts the copy to `index` items and returns one REMOVE at `index` per cut item, which replays to the cut copy |
| Arrays.ArraysDiffSequence | packages/runtime/dist/betal-fe.js:111-137 | every operation fits the list it is replayed on; the replay has the new length and matches each new item; each op tracks the old array; under a symmetric `equalsFn` every MOVE goes forward; trailing REMOVEs come last; equal arrays give only NOOPs |
| Arrays.ArraysDiffSequenceStrict | packages/runtime/dist/betal-fe.js:111-137 | with the default `===` comparison, replaying the operations on the old array yields exactly the new array |
| VNodes.HString | packages/runtime/src/h.js:26-28 | a text node holding the string |
| VNodes.MapTextNodes | packages/runtime/src/h.js:20-24 | strings become text nodes and virtual nodes are kept, position by position |
| VNodes.H | packages/runtime/src/h.js:10-18 | a string tag gives an element and a component class gives a component node, with the props as given and the children without nulls, strings made text nodes |
| VNodes.HFragment | packages/runtime/src/h.js:30-35 | a fragment of the non-null children, strings made text nodes |
| VNodes.HSlot | packages/runtime/dist/betal-fe.js:175-178 | a slot node with the children as given |
| VNodes.BuildersDropNulls | packages/runtime/src/h.js:10-18 | the builders drop exactly the null children and keep the rest in order |
| VNodes.ExtractChildren | packages/runtime/src/h.js:37-50 | the flattened children contain no fragment, and a text node has none |
| VNodes.ExtractSeqConcat | packages/runtime/src/h.js:37-50 | flattening a concatenation flattens each part |
| VNodes.ExtractSeqNoFragments | packages/runtime/src/h.js:37-50 | children without fragments come back unchanged |
| VNodes.ExtractSeqIdempotent | packages/runtime/src/h.js:37-50 | flattening twice is flattening once |
| VNodes.ExtractSeqFragment | packages/runtime/src/h.js:43-44 | a fragment child is replaced in place by its own flattened children |
| VNodes.AreNodesEqual | packages/runtime/dist/betal-fe.js:745-760 | nodes of different types differ; elements match iff tag and key match; components iff class and key match; other same-type nodes match |
| VNodes.AreNodesEqualEquivalence | packages/runtime/dist/betal-fe.js:745-760 | `areNodesEqual` is reflexive, symmetric and transitive |
| VNodes.ChildrenDiff | packages/runtime/dist/betal-fe.js:898 | the keyed diff of the flattened children fits, replays to children matching the new ones position by position, moves only forward, and gives only NOOPs for unchanged children |
| VNodes.ExtractPropsAndEvents | packages/runtime/dist/betal-fe.js:296-300 | the events are `props.on`, or empty when absent; the props are the rest without `on` and `key`, in key order |
| ClassList.TrimEmpty | packages/runtime/dist/betal-fe.js:788-790 | a string trims to empty iff it is all white space |
| ClassList.SplitAlternates | packages/runtime/dist/betal-fe.js:871-875 | `split(/(\s+)/)` alternates words and non-empty white-space runs, starting and ending with a word |
| ClassList.SplitConcat | packages/runtime/dist/betal-fe.js:871-875 | the split pieces glue back into the string |
| ClassList.ToClassList | packages/runtime/dist/betal-fe.js:871-875 | every class name returned is not blank |
| ClassList.ClassNamesAreWords | packages/runtime/dist/betal-fe.js:871-875 | the class names of a string are non-empty and contain no white space |
| ClassList.ClassNamesContent | packages/runtime/dist/betal-fe.js:871-875 | the class names glued together are the string without its white space |
| ClassList.ClassListJoinRoundTrip | packages/runtime/dist/betal-fe.js:871-875 | names without white space joined by single spaces split back into the same names |
| ClassList.EmptyClassList | packages/runtime/dist/betal-fe.js:871 | the default empty class string gives no class names |
| Events.RemoveListeners | packages/runtime/dist/betal-fe.js:885-890 | the first loop of `patchEvents` unregisters each listed name with its old listener, in order, and deletes exactly those names |
| Events.AddListeners | packages/runtime/dist/betal-fe.js:891-896 | the second loop registers each listed name with a bound handler, in order, sets exactly those names, and appends them in order when none was held |
| Events.PatchEvents | packages/runtime/dist/betal-fe.js:885-897 | removed and changed names are unregistered with their old listeners; added and changed names get fresh listeners in the new object's order; the listener object is `Patched` |
| Events.PatchedListeners | packages/runtime/dist/betal-fe.js:885-897 | the patched listeners hold new or changed names with fresh listeners, drop removed names and keep every unchanged listener |
| Events.PatchedCover | packages/runtime/dist/betal-fe.js:885-897 | listeners covering exactly the old events cover exactly the new events after patching |
| Events.PatchedSame | packages/runtime/dist/betal-fe.js:885-897 | patching against unchanged events changes no listener |
| Slots.InsertViewInSlot | packages/runtime/dist/betal-fe.js:963-973 | a non-slot is left alone; a slot becomes a fragment of the external content, or else of its default content, or is spliced out when both are empty |
| Slots.Walk | packages/runtime/dist/betal-fe.js:941-955 | the `forEach` of `traverseDFS` over a child list it splices yields one final node per original child |
| Slots.WalkSplices | packages/runtime/dist/betal-fe.js:950-952 | at a slot, the walk splices the list and moves on past whatever now sits at the visited position |
| Slots.FillSlotsAsWritten | packages/runtime/dist/betal-fe.js:957-962 | `fillSlots` as written: throws iff the root is a slot, and leaves a component root untouched |
| Slots.FillSlots | packages/runtime/dist/betal-fe.js:957-976 | the corrected `fillSlots`: throws iff the root is a slot, and leaves a component root untouched |
| Slots.FillSlotsSlotFree | packages/runtime/dist/betal-fe.js:957-976 | with slot-free external content, the corrected projection leaves no slot outside components |
| Slots.FillNodeIdentity | packages/runtime/dist/betal-fe.js:957-976 | a tree without slots is left unchanged |
| Slots.FillSeqConcat | packages/runtime/dist/betal-fe.js:941-955 | the corrected projection works child by child: projecting a concatenation projects each part |
| Slots.SlotInPlace | packages/runtime/dist/betal-fe.js:963-973 | a slot anywhere in a child list becomes, in its place, a fragment of the external content, else of its projected default content, else nothing, and its siblings are projected as if it were absent |
| Slots.DefaultContentInOrder | packages/runtime/dist/betal-fe.js:957-973 | with no external content, two adjacent slots show their own default content in order, and an empty one disappears |
| Slots.FillSlotsAgree | packages/runtime/dist/betal-fe.js:957-973 | with non-empty external content the code as written and the corrected projection agree |
| Slots.SkippedSiblingSlot | packages/runtime/dist/betal-fe.js:950-952 | two adjacent empty slots with no content: as written the second survives; corrected, both are dropped |
| Slots.NestedDefaultSlot | packages/runtime/dist/betal-fe.js:966-969 | a slot directly in default content: as written it stays a slot inside the fragment; corrected, it becomes a fragment |
| Scheduler.Drain | packages/runtime/dist/betal-fe.js:274-286 | the drain as written runs the first job first, and stops with jobs left only when a job throws |
| Scheduler.DrainCatchingFifo | packages/runtime/dist/betal-fe.js:274-286 | jobs already queued run first, in queue order, before any job they enqueue |
| Scheduler.DrainSafe | packages/runtime/dist/betal-fe.js:274-287 | when no job throws, the drain as written runs every job in FIFO order and empties the queue |
| Scheduler.DrainStopsAtThrow | packages/runtime/dist/betal-fe.js:276-277 | a job that throws synchronously stops the drain with the next job still queued |
| Scheduler.JobQueue.ScheduleUpdate | packages/runtime/dist/betal-fe.js:269-273 | at most one flush is pending; a second call while one is scheduled queues nothing |
| Scheduler.JobQueue.EnqueueJob | packages/runtime/dist/betal-fe.js:265-268 | the job is appended and a flush is scheduled unless one already is |
| Scheduler.JobQueue.ProcessJobsAsWritten | packages/runtime/dist/betal-fe.js:274-287 | the jobs run and left are those of `Drain`, and `isScheduled` stays set iff a job threw |
| Scheduler.JobQueue.ProcessJobs | packages/runtime/dist/betal-fe.js:274-287 | with a thrown error caught, every job runs in catching order, the queue empties and `isScheduled` is cleared |
| Scheduler.JobQueue.FlushAsWritten | packages/runtime/dist/betal-fe.js:272 | the pending microtask runs `processJobs` as written |
| Scheduler.JobQueue.Flush | packages/runtime/dist/betal-fe.js:272 | the pending microtask empties the queue, and a live queue stays live |
| Scheduler.StuckAfterThrow | packages/runtime/dist/betal-fe.js:269-287 | after a job throws, jobs enqueued later are never flushed: the queue is not live |
| Dispatching.SpliceOne | packages/runtime/dist/betal-fe.js:435-436 | `splice(start, 1)` removes position `start`, the last item for -1, and nothing past the end |
| Dispatching.CancelRemovesExactly | packages/runtime/dist/betal-fe.js:434-437 | cancelling a registered handler removes exactly it and keeps the others in order |
| Dispatching.RemoveHandlerIdempotent | packages/runtime/dist/betal-fe.js:434-437 | with the guard, cancelling twice is cancelling once |
| Dispatching.SpliceMissingRemovesLast | packages/runtime/dist/betal-fe.js:435-436 | as written, cancelling a handler no longer registered removes the last handler |
| Dispatching.Dispatcher.constructor | packages/runtime/dist/betal-fe.js:423-424 | no subscriptions and no after-handlers |
| Dispatching.Dispatcher.Subscribe | packages/runtime/dist/betal-fe.js:425-438 | a new handler is appended under its name with a canceller that removes it; a duplicate is not added and gets a no-op canceller |
| Dispatching.Dispatcher.AfterEveryCommand | packages/runtime/dist/betal-fe.js:439-445 | the handler is appended without a duplicate check |
| Dispatching.Dispatcher.CancelAsWritten | packages/runtime/dist/betal-fe.js:434-437 | a canceller as written splices at `indexOf`, -1 included |
| Dispatching.Dispatcher.Cancel | packages/runtime/dist/betal-fe.js:434-437 | a guarded canceller removes only a registered handler |
| Dispatching.Dispatcher.Dispatch | packages/runtime/dist/betal-fe.js:446-454 | the name's handlers with the payload in subscription order, a warning iff the name was never subscribed, then every after-handler once |
| Dispatching.DoubleCancel | packages/runtime/dist/betal-fe.js:434-437 | cancelling twice as written removes a later handler; guarded, it removes nothing more |
| NodeStore.CreateNode | packages/runtime/src/mount-dom.js:34 | a new node gets the next id and an empty child list, and nothing else changes |
| NodeStore.InsertAt | packages/runtime/src/mount-dom.js:65-82 | a null or too-large index appends, a negative one throws, any other puts the node at that index |
| NodeStore.InsertAtKeeps | packages/runtime/src/mount-dom.js:65-82 | an insertion keeps the other children in order and adds only the new node |
| NodeStore.Insert | packages/runtime/src/mount-dom.js:65-82 | `insert` fails iff the index is negative and otherwise updates only the parent's child list and the node's parent |
| NodeStore.Remove | packages/runtime/src/destroy-dom.js:35 | `el.remove()` takes the node out of the list it was inserted into and changes nothing else |
| NodeStore.Regs | packages/runtime/src/events.js:6-13 | each handler of the event object is registered on the element as itself |
| MountDom.AddListeners | packages/runtime/src/mount-dom.js:59-63 | the element's event handlers are added to the registrations |
| MountDom.Mount | packages/runtime/src/mount-dom.js:7-30 | mounting only adds to the store: no child list disappears, no id is reused |
| MountDom.MountSeq | packages/runtime/src/mount-dom.js:43-45 | the children are mounted in order and one mounted node comes back per child |
| MountDom.MountSeqFailurePersists | packages/runtime/src/mount-dom.js:43-45 | an error while mounting a child ends the whole walk with an error |
| MountDom.MountEffect | packages/runtime/src/mount-dom.js:7-91 | outside component instances, a mounted tree put exactly its top nodes into the parent, kept the parent's other children in order, touched no other existing list, registered exactly its listeners, and is attached with new nodes |
| MountDom.MountAppends | packages/runtime/src/mount-dom.js:66-68 | with a null index the tree's top nodes are appended to the parent in order |
| MountDom.MountText | packages/runtime/src/mount-dom.js:32-37 | a text node creates exactly one node holding the text, sets `el` to it and inserts it by the index rule |
| MountDom.MountElement | packages/runtime/src/mount-dom.js:48-63 | an element creates one node with its attributes and listeners, sets `el` and `listeners`, appends its children to itself and is inserted by the index rule |
| MountDom.MountErrors | packages/runtime/src/mount-dom.js:26-28 | a slot cannot be mounted, and a negative index throws with its message |
| MountDom.MountFragment | packages/runtime/src/mount-dom.js:39-46 | a fragment's `el` is the parent, its children get `index + 1` for a non-zero index, and are appended otherwise |
| MountDom.MountComponentCall | packages/runtime/src/mount-dom.js:17-21 | a component is constructed with its props and events split, mounted with the parent and index, and enqueues its `onMounted` |
| MountDom.MountHooks | packages/runtime/src/mount-dom.js:17-21 | mounting enqueues one `onMounted` per component, in document order, each a fresh instance number |
| DestroyDom.RemoveListeners | packages/runtime/src/events.js:15-19 | every listener of the object is unregistered from the element |
| DestroyDom.Destroy | packages/runtime/src/destroy-dom.js:5-31 | destroying removes no created node, child list or parent link |
| DestroyDom.DestroySeq | packages/runtime/src/destroy-dom.js:41 | the children are destroyed in order, one result per child |
| DestroyDom.DestroySeqFailurePersists | packages/runtime/src/destroy-dom.js:41 | an error while destroying a child ends the whole walk with an error |
| DestroyDom.DestroyEffect | packages/runtime/src/destroy-dom.js:5-51 | outside component instances, destroying an attached tree succeeds, takes exactly its top nodes out of the parent in order, and unregisters exactly its listeners |
| DestroyDom.MountThenDestroy | packages/runtime/src/destroy-dom.js:5-51 | destroying right after mounting restores every child list that existed before and the registrations |
| DestroyDom.DestroyHooks | packages/runtime/src/destroy-dom.js:21-25 | destroying unmounts every component and enqueues one `onUnmounted` for each, in document order |
| DestroyDom.DestroyDetaches | packages/runtime/src/destroy-dom.js:30 | the destroyed tree keeps its shape and has `el` and `listeners` cleared throughout |
| DestroyDom.DestroyErrors | packages/runtime/src/destroy-dom.js:26-28 | a slot, a node without `el` and a component without an instance throw their errors |
| DestroyDom.DestroyText | packages/runtime/src/destroy-dom.js:33-36 | a text node leaves its parent and nothing else changes |
| DestroyDom.DestroyElement | packages/runtime/src/destroy-dom.js:38-46 | an element is removed, then its children are destroyed, then exactly its recorded listeners are unregistered |
| DestroyDom.MountThenDestroyHooks | packages/runtime/src/destroy-dom.js:21-25 | mounting then destroying unmounts exactly the instances the mount created, in creation order |
| Renderer.HookJobsSafe | packages/runtime/src/mount-dom.js:19 | the queued jobs stand for the hooks in order and none enqueues more or throws |
| Renderer.Document.MountDOM | packages/runtime/src/mount-dom.js:7-30 | the in-place mount succeeds iff `Mount` does, ends in its store and vdom, and appends exactly its hooks to the job queue |
| Renderer.Document.CreateTextNode | packages/runtime/src/mount-dom.js:32-37 | ends as `Mount` on the text node does |
| Renderer.Document.CreateElementNode | packages/runtime/src/mount-dom.js:48-57 | ends as `Mount` on the element does, with its hooks queued |
| Renderer.Document.CreateFragmentNode | packages/runtime/src/mount-dom.js:39-46 | ends as `Mount` on the fragment does, with its hooks queued |
| Renderer.Document.CreateComponentNode | packages/runtime/src/mount-dom.js:84-91 | never fails, ends as `Mount` on the component node does, and queues its `onMounted` |
| Renderer.Document.MountChildren | packages/runtime/src/mount-dom.js:43-45 | the loop over the children ends as `MountSeq` does, with all their hooks queued |
| Renderer.Document.DestroyDOM | packages/runtime/src/destroy-dom.js:5-31 | the in-place destroy succeeds iff `Destroy` does, ends in its store and vdom, and appends exactly its hooks |
| Renderer.Document.RemoveTextNode | packages/runtime/src/destroy-dom.js:33-36 | ends as `Destroy` on the text node does, with no hook |
| Renderer.Document.RemoveElementNode | packages/runtime/src/destroy-dom.js:38-46 | ends as `Destroy` on the element does |
| Renderer.Document.RemoveFragmentNodes | packages/runtime/src/destroy-dom.js:48-51 | ends as `Destroy` on the fragment does |
| Renderer.Document.DestroyChildren | packages/runtime/src/destroy-dom.js:41 | the loop over the children ends as `DestroySeq` does |
| Components.Component.constructor | packages/runtime/src/component.js:25-30 | props and handlers as given, state from `state(props)` or empty, unmounted, nothing subscribed |
| Components.Component.Mount | packages/runtime/src/component.js:52-61 | throws when mounted; otherwise the render is mounted into the host with its hooks queued, one subscription per event handler is wired, and an error from mounting is passed on unmounted |
| Components.Component.WireEventHandlers | packages/runtime/src/component.js:122-136 | one subscription per handler entry in key order, each a new wrapper alone under its name |
| Components.Component.Unmount | packages/runtime/src/component.js:63-73 | throws when unmounted; otherwise the tree is destroyed with its hooks queued, every wired name is emptied, and vdom, host and subscriptions are dropped |
| Components.Component.Patch | packages/runtime/src/component.js:114-120 | throws when unmounted; otherwise the vdom is the patch of the old one against a fresh render |
| Components.Component.UpdateState | packages/runtime/src/component.js:36-40 | the state is merged before the guard, so an unmounted instance keeps the merge and throws; a mounted one is patched and enqueues `onStateChange` |
| Components.Component.UpdateProps | packages/runtime/src/component.js:91-100 | deep-equal merged props change nothing; otherwise props merge before the guard, and a mounted instance is patched and enqueues `onPropsChange` with new and old props |
| Components.Component.Emit | packages/runtime/src/component.js:102-104 | while mounted, a wired name calls exactly its handler's wrapper once with the payload; an unknown name warns; unmounted, nothing is called |
| Components.ClearedNames | packages/runtime/src/component.js:68 | every listed name is emptied and every other list kept |
| Components.SubscribeAll | packages/runtime/src/component.js:123-125 | the keys are wired in order and no other name changes |
| Components.CancelAll | packages/runtime/src/component.js:68 | calling each canceller of a wiring empties exactly the wired names |
| Components.ClearedEmpty | packages/runtime/src/component.js:68-69 | after unmounting, the private dispatcher holds no handler at all |
| TodoReducers.Spread | examples/todo_app/reducers.js:10 | `[...todos]` is dense, reads the same at every index and keeps every element |
| TodoReducers.AssignAt | examples/todo_app/reducers.js:31-32 | `t[i] = v` reads `v` at `i`, grows the array past its end with holes, and changes no other index; a null index changes no element |
| TodoReducers.UpdateCurrentTodo | examples/todo_app/reducers.js:4-7 | only `currentTodo` changes |
| TodoReducers.AddTodo | examples/todo_app/reducers.js:8-12 | the current text becomes a new last todo, the others read as before, and the current text is cleared |
| TodoReducers.StartEditingTodo | examples/todo_app/reducers.js:13-20 | editing starts at `idx` with both texts the todo there, `undefined` out of range |
| TodoReducers.EditTodo | examples/todo_app/reducers.js:21-27 | only the edited text changes |
| TodoReducers.SaveEditedTodo | examples/todo_app/reducers.js:28-40 | the edited text lands at the edited index and only there, editing ends; a null index leaves a dense copy |
| TodoReducers.CancelEditingTodo | examples/todo_app/reducers.js:41-48 | editing ends and nothing else changes |
| TodoReducers.RemoveTodo | examples/todo_app/reducers.js:49-52 | the result has no holes and the other fields are kept |
| TodoReducers.WithoutIndexDense | examples/todo_app/reducers.js:51 | on a dense array, exactly position `idx` is dropped; an index outside removes nothing |
| TodoReducers.RemoveTodoPosition | examples/todo_app/reducers.js:49-52 | removing a todo at a valid index drops exactly it and shortens the list by one |
| TodoReducers.AddThenRemove | examples/todo_app/reducers.js:8-12 | removing the todo just added restores the list |
| TodoReducers.EditRoundTrip | examples/todo_app/reducers.js:13-40 | start, edit and save replace exactly the todo at the index |
| TodoReducers.SaveUneditedKeepsTodos | examples/todo_app/reducers.js:13-40 | saving an unchanged edit leaves the todos as they were |
| TodoReducers.StartThenCancel | examples/todo_app/reducers.js:13-48 | starting then cancelling an edit equals cancelling |
| TodoApp.Or | examples/todo_app/app.js:146-148 | `v \|\| fallback` is `v` when truthy and the fallback otherwise |
| TodoApp.Added | examples/todo_app/app.js:141-152 | one new last todo, not completed, with the given text, id and time and the defaults "low", "personal" and `null` for falsy fields |
| TodoApp.Removed | examples/todo_app/app.js:154-157 | the todos with other ids, in order |
| TodoApp.RemovedAt | examples/todo_app/app.js:154-157 | with distinct ids, removing the id at `k` drops exactly that position |
| TodoApp.RemovedMissing | examples/todo_app/app.js:154-157 | removing an unknown id changes nothing |
| TodoApp.Edited | examples/todo_app/app.js:159-164 | todos with the id get the four new fields and keep the rest; others unchanged; order and length kept |
| TodoApp.Toggled | examples/todo_app/app.js:166-171 | todos with the id have completion flipped and nothing else; others unchanged |
| TodoApp.ToggledTwice | examples/todo_app/app.js:166-171 | toggling the same id twice restores the todos |
| TodoApp.ClearedCompleted | examples/todo_app/app.js:173-176 | the todos not completed, in order |
| TodoApp.ClearCompletedIdempotent | examples/todo_app/app.js:173-176 | clearing twice changes nothing more |
| TodoApp.CompletionRate | examples/todo_app/app.js:98-99 | the rounded percentage is between 0 and 100, the nearest integer to `100 c / t`, 100 when all are completed and 0 when none or when the list is empty |
| TodoApp.RoundedPercent | examples/todo_app/app.js:99 | the rounding quotient is the nearest integer to `100 c / t` |
| TodoApp.StatsOf | examples/todo_app/app.js:95-99 | the total is the list length and the completed count is at most it |
| TodoApp.StatsAddUp | examples/todo_app/app.js:95-97 | the active count is the number of open todos, never negative, and active plus completed is the total |
| TodoApp.StatsAfterClear | examples/todo_app/app.js:95-99 | after clearing, nothing is completed and the total is the old active count |
| TodoApp.App.constructor | examples/todo_app/app.js:11-17 | no todos, light mode, loading |
| TodoApp.App.AddTodo | examples/todo_app/app.js:141-152 | the todos become `Added` and the other fields are kept |
| TodoApp.App.RemoveTodo | examples/todo_app/app.js:154-157 | the todos become `Removed` and the other fields are kept |
| TodoApp.App.EditTodo | examples/todo_app/app.js:159-164 | the todos become `Edited` and the other fields are kept |
| TodoApp.App.ToggleTodo | examples/todo_app/app.js:166-171 | the todos become `Toggled` and the other fields are kept |
| TodoApp.App.ClearCompleted | examples/todo_app/app.js:173-176 | the todos become `ClearedCompleted` and the other fields are kept |
| TodosSection.Lower | examples/todo_app/components/todos-section.js:31 | ASCII `toLowerCase` keeps the length and lowers exactly the upper-case letters |
| TodosSection.FilteredTodos | examples/todo_app/components/todos-section.js:20-35 | a todo is shown iff it passes both the filter tab and the search |
| TodosSection.FilteredIsSubsequence | examples/todo_app/components/todos-section.js:20-35 | the shown todos keep their order |
| TodosSection.AllUnfiltered | examples/todo_app/components/todos-section.js:21-32 | "all" with an empty search shows every todo |
| TodosSection.EmptySearch | examples/todo_app/components/todos-section.js:30-32 | an empty query imposes nothing beyond the filter tab |
| TodosSection.ActiveTab | examples/todo_app/components/todos-section.js:21-28 | "active" with no search shows exactly the open todos, as `clearCompleted` keeps them |
| TodosSection.CompletedTab | examples/todo_app/components/todos-section.js:21-28 | "completed" shows only completed todos, and every matching completed todo |
| TodosSection.OtherFilterIsAll | examples/todo_app/components/todos-section.js:21-28 | any other filter value behaves like "all" |
| TodosSection.FilterThenSearch | examples/todo_app/components/todos-section.js:20-35 | filtering by the tab then the search is filtering by both |
| TodosSection.SearchIgnoresCase | examples/todo_app/components/todos-section.js:30-32 | lower-casing the query changes nothing shown |
| TodosSection.Render | examples/todo_app/components/todos-section.js:37-119 | the filter bar, the creation form and the filtered list, in that order, followed by at most one more part |
| TodosSection.EmptyStateShown | examples/todo_app/components/todos-section.js:111-118 | the empty state is shown iff no todo is shown |

## Left out

- I/O and the platform: the real DOM, `setAttributes`, `console`, `localStorage`, `crypto.randomUUID` and `Date.now` are left out. The platform is an abstract node store. The random id and the time are parameters.
- The scheduler's microtasks and promises: `queueMicrotask` is a pending-flush counter, and a job is described by what it enqueues and whether it throws synchronously. A promise rejection is logged and has no effect on the queue, so it is not modelled. `nextTick` and `flushPromises` are left out.
- In-place vnode mutation and aliasing: mounting and destroying return the filled-in or cleared tree as a new value. Two vnodes sharing one object are not modelled.
- `patchDOM` and its helpers `patchText`, `patchElement`, `patchAttrs`, `patchClasses`, `patchStyles` and `patchComponent`: the component holds `patch` as an abstract function. Only `patchEvents`, `toClassList` and the keyed diff `patchChildren` relies on are modelled.
- Components.Component.Patch and Components.Component.Mount: both render without `fillSlots`, because the module-level `didCreateSlot` flag and `setExternalContent` are not modelled; `Slots` covers the projection itself.
- The `elements`, `firstElement` and `offset` getters, `setAppContext`/`appContext`, and the copying of extra methods onto the prototype: they are left out. A component node's `el` is therefore not set.
- Components.Component.UpdateState, Components.Component.UpdateProps and Components.Component.ReplaceProps: `patch` is a pure function here, so the queue gains exactly the one `onStateChange` or `onPropsChange` job. The real `#patch` runs `patchDOM`, which mounts and destroys child components and so enqueues their `onMounted` and `onUnmounted` jobs before that one; those jobs are not modelled.
- MountDom.Mount, MountDom.MountEffect, DestroyDom.Destroy and DestroyDom.DestroyEffect: a component node records its `component.mount(parentEl, index)` and `unmount()` calls only. The nodes an instance renders into the same parent, and the listeners it registers there, are not in the store, so "exactly its top nodes" and "exactly its listeners" speak of the tree outside component instances.
- Objects.ObjectsDiff and Objects.ObjectsDiffOrder: three JavaScript details are not modelled. `key in oldObj` also finds inherited keys, so a new key such as `constructor` or `toString` is reported as updated by the code and as added by the model. `Object.keys` lists integer-like keys first, in ascending order, while the model keeps every key in insertion order. `!==` compares objects by reference, while the model compares values structurally; the two agree on the handler ids that `patchEvents` diffs.
- VNodes.HSlot: the children are a list of virtual nodes. A string or `null` passed as the default children, which `hSlot` stores unchanged, is not modelled.
- VNodes.ExtractPropsAndEvents: an `on` entry that is present but not an object (`null`, say) gives empty events here. In the code the default `{}` applies only to `undefined`, so a `null` reaches `addEventListeners` and throws there.
- The router (`HashRouter`, `RouterLink`, `RouterOutlet`) and `createBetalApp` are not part of this model.
- The `hostComponent` binding of a listener in `addEventListener`: a handler is registered as itself.
- The parent-component `call` inside a wired handler: a wrapper is known by number only.
- Dispatching.Dispatcher.Dispatch: a handler that subscribes or cancels while it runs is not modelled.
- Components.Component.UpdateProps: the `onPropsChange` job records the props it is enqueued with. The code reads `this.props` when the job runs, so a later update before the flush would change what it sees.
- Components.Component.Mount: when mounting the tree fails, the result says only that an error is thrown, not which message. The dispatcher and store left behind by a partial mount are not stated.
- Components.Component.Unmount: when destroying the tree fails, the result says only that an error is thrown, and the partial state is not stated.
- Floating point: `Math.round(completed / total * 100)` is computed exactly, rounding halves up. A quotient that floating point puts just below a half can round differently.
- TodosSection.Lower: `toLowerCase` is modelled on ASCII letters only. The todo `text` is assumed to be a string.
- TodoReducers.StartEditingTodo and TodoReducers.RemoveTodo: the index is assumed to be an integer, and array-length limits are not modelled. With a non-number index, `i !== idx` holds for every position and `REMOVE_TODO` removes nothing; the model has no such index.
- `loadTodos`, `saveTodos`, `loadDarkMode`, `toggleDarkMode` and the root render's vnode tree are I/O or presentation, so they are left out. The loading flag is kept only as state.
- TodosSection.Render: each child is modelled as a `Part` naming the component it is, with the props the filter logic uses. The presentational props and the `updateState`/`emit` handler closures are left out.
- The todo example's presentational components (header, stats, footer, cards, forms, items) are not part of this model.

## Findings

| source | as written | input that shows it | evidently intended | confidence | as-written member | corrected member |
|---|---|---|---|---|---|---|
| packages/runtime/dist/betal-fe.js:950-952 | `traverseDFS` walks `vdom.children` with `forEach` while `insertViewInSlot` splices that same array, so the child that moves into a removed slot's place is never visited | a `div` holding two empty slots, with no external content | every slot is replaced or removed | not executed | Slots.SkippedSiblingSlot | Slots.FillSlots |
| packages/runtime/dist/betal-fe.js:966-969 | the fragment made from default content shares the default child nodes, and only the slot's own array is walked, so a slot directly inside default content stays a slot | a slot whose default content is another slot holding text, with no external content | the nested slot is projected as well | not executed | Slots.NestedDefaultSlot | Slots.FillSlots |
| packages/runtime/dist/betal-fe.js:274-287 | a job that throws synchronously ends `processJobs` before `isScheduled = false`, so no later `enqueueJob` schedules a flush | enqueue a throwing job and a plain job, flush, then enqueue another job | a failing job is logged and the queue keeps draining | not executed | Scheduler.StuckAfterThrow | Scheduler.JobQueue.Flush |
| packages/runtime/dist/betal-fe.js:434-437 | a canceller splices at `indexOf(handler)`, which is -1 after the first call, so a second call removes the last handler | subscribe handlers 1 and 2 under one name, then cancel handler 1 twice | a second cancel does nothing | not executed | Dispatching.DoubleCancel | Dispatching.Dispatcher.Cancel |
