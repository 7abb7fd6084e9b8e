# xframes-kotlin reconciliation core, in Dafny

This project models the retained-mode UI core of xframes-kotlin and proves
properties of it. It covers five parts.

- **Reconciliation.** `reconcile` compares two `ComponentNode` snapshots and
  enqueues `Update`s in a fixed order. First comes the root's props diff
  (`diffProps`). Then comes one update per child index (`diffChildren`).
  Last come the three lifecycle transitions.
- **Update queue.** A FIFO buffer with a non-reentrant `flush`, drained under
  `try`/`finally`. `applyUpdate` dispatches each variant to its handler.
- **Data model.** The seven `Update` variants with their default priorities,
  `ComponentNode` with its secondary constructor, and `ComponentLifecycle`.
- **Registries.**
  - `widgetRegistrationService` holds the id counter, the widget registry and
    the click-callback registry.
  - `WidgetNode` and its JSON adapter convert a node to a flat map and back.
  - `ComponentService` keeps its own table of click listeners.
- **Tree builders.** `Component.render` and `ButtonComponent.render`, plus
  `View` with `child`, `render` and the `view` builder.

## Structure

There is one module per modelled Kotlin file or class group, plus `Values`
for the shared types. Mutable Kotlin objects become Dafny classes:

| module | models | file |
|---|---|---|
| `Values` | `Int`, the `Any?` prop values, `Map<String, Any?>`, callbacks | `values.dfy` |
| `Lifecycles`, `Nodes` | `ComponentLifecycle.kt`, `ComponentNode.kt` | `nodes.dfy` |
| `Updates` | `Update.kt` | `updates.dfy` |
| `Queue` | `UpdateQueue.kt` | `update_queue.dfy` |
| `Reconciliation` | `Reconciliation.kt` | `reconciliation.dfy` |
| `Registry` | `widgetRegistrationService`, `WidgetNode` and `WidgetNodeAdapter` in `XFramesWrapper.kt` | `registry.dfy` |
| `Services` | `ComponentService.kt` | `services.dfy` |
| `Components` | `Component`, `ButtonComponent` in `Component.kt` | `components.dfy` |
| `Views` | `View.kt` | `views.dfy` |

### Modelling choices

**Values.**
- Kotlin's `Int` is the subset type `Int32`. `lastWidgetId++` wraps
  explicitly through `Wrap32`.
- A prop value `Any?` is a closed datatype with structural equality: null,
  booleans, `Int`s, strings and nested maps.
- `m[k]` on an absent key reads as `Null` (`Get`).

**Specification functions and methods.** Each loop of the source is a method proved
against a pure function:
- `DiffProps` against `PropsDiff`.
- `DiffChildren` against `ChildUpdates`.
- `Reconcile` against `Reconciled`.
- `UpdateQueue.Flush` against `Applications` and `FirstRejected`.
- `View.Render` against `Rendered`.

**Reference definitions.** The properties are proved about those functions.
`ChildUpdates`, the index loop, is also shown equal to `PairwiseDiff`, a
head-first recursion.

**The `apply*` handlers.** They only print in the source. Here each one
appends the call it received to the ghost log `applied`.

**The external renderer.** The `apply*` handlers as written only print
(UpdateQueue.kt:41-74): they never throw and never call `flush` again. That
is `Renderer(_ => false, _ => false)`. The model deliberately allows any
`Renderer`, which is an over-approximation covering handlers that fail or
re-enter. A handler may throw (`rejects`), or call `flush` again from inside
the handler (`flushesFromApply`). This makes the `finally` path and the
re-entrancy guard reachable. Every contract holds for the printing-only
renderer as a special case.

**Click callbacks.** They are opaque `Handler` tokens. Running one appends it
to a ghost log `invoked`.

**View content blocks.** The block given to `child`/`view` is the list of
`child(...)` calls it makes, each with its own block (`ViewDecl`).

### Behaviour worth noting

- **Lifecycle transitions.** Reconciliation.kt:21-29 has three independent
  `if`s, not an else-if chain:
  - `UpdateLifecycle` and `Unmount` can both be enqueued by one call
    (`ReconcileUpdateThenUnmount`).
  - `Mount` still excludes the other two (`ReconcileLifecycle`).
- **Widget ids.** The counter at XFramesWrapper.kt:111 is a Kotlin `Int`
  incremented with `++`, so it wraps:
  - call 2^31 + 1 returns `Int.MIN_VALUE`;
  - call 2^32 + 1 returns the first id again (`IdsWrapAround`).
  Uniqueness is proved for any window of at most 2^32 calls
  (`IdsIssuedDistinct`, `GetNextWidgetId`).

## Model

| member | source | states |
|---|---|---|
| Values.Wrap32 | app/src/main/kotlin/dev/xframes/XFramesWrapper.kt:111 | `Int` arithmetic wraps modulo 2^32 and leaves in-range values unchanged |
| Values.Fired | app/src/main/kotlin/dev/xframes/XFramesWrapper.kt:121-123 | `table[id]?.invoke()` runs at most one callback, and one exactly when `id` has an entry |
| Values.FiredAfterRegister | app/src/main/kotlin/dev/xframes/ComponentService.kt:9-11 | registering under an id replaces its callback and leaves every other id's callback unchanged |
| Lifecycles.LifecycleFlags | app/src/main/kotlin/dev/xframes/ComponentLifecycle.kt:3-6 | the default lifecycle is neither mounted nor updated; all four flag combinations exist; equality is structural over both flags |
| Nodes.NewNode | app/src/main/kotlin/dev/xframes/ComponentNode.kt:10-14 | the two-argument constructor gives null props, no children and the default lifecycle |
| Nodes.NullPropsDifferFromEmpty | app/src/main/kotlin/dev/xframes/ComponentNode.kt:6 | null props and an empty props map make different nodes |
| Updates.WithPriority | app/src/main/kotlin/dev/xframes/Update.kt:6 | every variant carries a priority, which an explicit argument sets |
| Updates.DefaultPriorities | app/src/main/kotlin/dev/xframes/Update.kt:3-49 | `Mount` defaults to HIGH and the other six variants to LOW; explicit priorities override; `ReplaceChild` keeps both nodes as given |
| Queue.Dispatch | app/src/main/kotlin/dev/xframes/UpdateQueue.kt:30-38 | each of the seven variants reaches its own handler, and only that variant reaches it |
| Queue.DispatchIgnoresOnlyPriority | app/src/main/kotlin/dev/xframes/UpdateQueue.kt:29-39 | two updates reach the same handler with the same arguments exactly when they differ at most in priority |
| Queue.ApplicationsExactlyOnce | app/src/main/kotlin/dev/xframes/UpdateQueue.kt:19-22 | draining a buffer makes one handler call per update, the i-th for the i-th: exactly once, in FIFO order |
| Queue.ApplicationsAppend | app/src/main/kotlin/dev/xframes/UpdateQueue.kt:19-22 | draining two buffers one after the other makes the calls of the first, then those of the second |
| Queue.ApplicationsIgnorePriority | app/src/main/kotlin/dev/xframes/UpdateQueue.kt:19-21 | buffers that differ only in priorities make the same calls in the same order |
| Queue.FirstRejected | app/src/main/kotlin/dev/xframes/UpdateQueue.kt:19-22 | the index of the first update whose handler throws: every earlier handler succeeds |
| Queue.UpdateQueue.constructor | app/src/main/kotlin/dev/xframes/UpdateQueue.kt:4-5 | a new queue is empty and not flushing |
| Queue.UpdateQueue.Enqueue | app/src/main/kotlin/dev/xframes/UpdateQueue.kt:8-10 | appends at the tail; earlier entries and the flushing flag are unchanged |
| Queue.UpdateQueue.Flush | app/src/main/kotlin/dev/xframes/UpdateQueue.kt:13-26 | while flushing, returns at once and changes nothing; otherwise drains front to back and applies each update once, in order; if the k-th handler throws, the first k updates have been applied, the k-th is gone and the rest stay buffered in order; `isFlushing` is false on every exit past the guard |
| Queue.UpdateQueue.ApplyUpdate | app/src/main/kotlin/dev/xframes/UpdateQueue.kt:29-39 | each variant goes to exactly one handler, the one matching its tag, with its payload; a throwing handler records nothing |
| Queue.UpdateQueue.ApplyReplace | app/src/main/kotlin/dev/xframes/UpdateQueue.kt:41-44 | records the replacement of `oldNode` by `newNode` and nothing else |
| Queue.UpdateQueue.ApplyProps | app/src/main/kotlin/dev/xframes/UpdateQueue.kt:46-49 | records the props applied and nothing else |
| Queue.UpdateQueue.ApplyAddChild | app/src/main/kotlin/dev/xframes/UpdateQueue.kt:51-54 | records the child added and nothing else |
| Queue.UpdateQueue.ApplyRemoveChild | app/src/main/kotlin/dev/xframes/UpdateQueue.kt:56-59 | records the child removed and nothing else |
| Queue.UpdateQueue.ApplyMount | app/src/main/kotlin/dev/xframes/UpdateQueue.kt:61-64 | records the node mounted and nothing else |
| Queue.UpdateQueue.ApplyUpdateLifecycle | app/src/main/kotlin/dev/xframes/UpdateQueue.kt:66-69 | records the node whose lifecycle was updated and nothing else |
| Queue.UpdateQueue.ApplyUnmount | app/src/main/kotlin/dev/xframes/UpdateQueue.kt:71-74 | records the node unmounted and nothing else |
| Reconciliation.DiffProps | app/src/main/kotlin/dev/xframes/Reconciliation.kt:33-46 | a key is in the diff iff it is an old key whose value changed (absent reads as null) or a key only the new map has; its value is the new value, null when absent |
| Reconciliation.PropsDiffSelf | app/src/main/kotlin/dev/xframes/Reconciliation.kt:33-46 | a map diffed with itself gives the empty diff |
| Reconciliation.PropsDiffPatches | app/src/main/kotlin/dev/xframes/Reconciliation.kt:33-46 | diff keys come from the two maps, and writing the diff over the old map reproduces every value of the new one |
| Reconciliation.PropsDiffExamples | app/src/main/kotlin/dev/xframes/Reconciliation.kt:35-44 | `{a:1}` vs `{a:1,b:2}` gives `{b:2}`; `{a:1,b:2}` vs `{a:1}` gives `{b:null}` |
| Reconciliation.ChildUpdate | app/src/main/kotlin/dev/xframes/Reconciliation.kt:56-75 | the `when` for one index emits at most one update |
| Reconciliation.DiffChildren | app/src/main/kotlin/dev/xframes/Reconciliation.kt:48-79 | the index loop over 0..max(\|old\|, \|new\|)-1 computes the positional diff `ChildUpdates` |
| Reconciliation.ChildUpdatesUpToShift | app/src/main/kotlin/dev/xframes/Reconciliation.kt:52-76 | the loop's updates for index 0 come first, followed by the diff of the two tails |
| Reconciliation.ChildUpdatesArePairwise | app/src/main/kotlin/dev/xframes/Reconciliation.kt:52-76 | the index loop equals the head-first recursive reference diff |
| Reconciliation.PairwiseDiffConcat | app/src/main/kotlin/dev/xframes/Reconciliation.kt:52-76 | the diff is positional: equal-length prefixes are diffed apart from the suffixes, in index order |
| Reconciliation.ChildUpdatesConcat | app/src/main/kotlin/dev/xframes/Reconciliation.kt:52-76 | the same for `diffChildren` itself |
| Reconciliation.PairwiseDiffAdds | app/src/main/kotlin/dev/xframes/Reconciliation.kt:67-70 | children only on the new side are each added, in order |
| Reconciliation.PairwiseDiffRemoves | app/src/main/kotlin/dev/xframes/Reconciliation.kt:71-74 | children only on the old side are each removed, in order |
| Reconciliation.PairwiseDiffAligned | app/src/main/kotlin/dev/xframes/Reconciliation.kt:57-65 | index-aligned children of equal type and props give no update, whatever their ids and grandchildren |
| Reconciliation.ChildUpdatesAligned | app/src/main/kotlin/dev/xframes/Reconciliation.kt:57-65 | the same for `diffChildren` |
| Reconciliation.PairwiseDiffGrow | app/src/main/kotlin/dev/xframes/Reconciliation.kt:50-74 | when the list grows: the aligned prefix diffed pair by pair, then one AddChild per extra child in order |
| Reconciliation.PairwiseDiffShrink | app/src/main/kotlin/dev/xframes/Reconciliation.kt:50-74 | when the list shrinks: the aligned prefix, then one RemoveChild per extra old child in order |
| Reconciliation.ChildUpdatesUpToBound | app/src/main/kotlin/dev/xframes/Reconciliation.kt:52-76 | at most one update per index |
| Reconciliation.ChildUpdatesUpToNoLifecycle | app/src/main/kotlin/dev/xframes/Reconciliation.kt:56-75 | the children diff never emits Mount, UpdateLifecycle or Unmount |
| Reconciliation.DiffChildrenCases | app/src/test/kotlin/dev/xframes/Reconciliation.kt:9-110 | the unit-test cases for any lists: identical lists give nothing, one extra old child one RemoveChild, one extra new child one AddChild, a type change ReplaceChild, a props change UpdateProps of the new props, or nothing when those are null |
| Reconciliation.Reconcile | app/src/main/kotlin/dev/xframes/Reconciliation.kt:3-31 | appends exactly `Reconciled(old, new)` to the queue and leaves its flushing state and applied log alone |
| Reconciliation.EnqueuePropsDiff | app/src/main/kotlin/dev/xframes/Reconciliation.kt:9-14 | enqueues `UpdateProps(diff)` only when both props are non-null and the diff is non-empty |
| Reconciliation.EnqueueAll | app/src/main/kotlin/dev/xframes/Reconciliation.kt:17-18 | enqueues the child updates in order |
| Reconciliation.EnqueueLifecycle | app/src/main/kotlin/dev/xframes/Reconciliation.kt:21-29 | enqueues the three independent lifecycle checks in source order |
| Reconciliation.RequestFlush | app/src/main/kotlin/dev/xframes/Reconciliation.kt:81-85 | is one `flush`: while a flush runs it returns at once, leaving the buffer, the applied log and the flag unchanged; otherwise it clears the flag on exit. When no handler throws, it applies every buffered update in order and empties the buffer. When the k-th handler throws, the first k updates are applied, the throwing one is dropped and the rest stay buffered |
| Reconciliation.ReconcileIdMismatch | app/src/main/kotlin/dev/xframes/Reconciliation.kt:5-6 | a changed id enqueues exactly one `ReplaceChild(old, new)` and nothing else |
| Reconciliation.ReconcileSelf | app/src/main/kotlin/dev/xframes/Reconciliation.kt:5-29 | reconciling a node with itself enqueues nothing, except one UpdateLifecycle when it is both mounted and updated |
| Reconciliation.ReconcilePropsFirst | app/src/main/kotlin/dev/xframes/Reconciliation.kt:9-14 | a root props update, when there is one, is the first update enqueued |
| Reconciliation.ReconcileLifecycle | app/src/main/kotlin/dev/xframes/Reconciliation.kt:21-29 | lifecycle updates come after all props and child updates; Mount, UpdateLifecycle and Unmount are each enqueued iff their flag condition holds; Mount excludes the other two |
| Reconciliation.ReconcileUpdateThenUnmount | app/src/main/kotlin/dev/xframes/Reconciliation.kt:24-29 | a node that unmounts while flagged updated gets UpdateLifecycle and then Unmount, last |
| Reconciliation.ReconcileTextChange | app/src/main/kotlin/dev/xframes/Reconciliation.kt:3-31 | a root whose one text child changes `text` from "hi" to "bye" reconciles to exactly one UpdateProps with the new props |
| Registry.IdsIssued | app/src/main/kotlin/dev/xframes/XFramesWrapper.kt:108-115 | n successive calls hand out n ids |
| Registry.IdsIssuedAt | app/src/main/kotlin/dev/xframes/XFramesWrapper.kt:108-115 | the i-th call returns the start value plus i, wrapped |
| Registry.IdsIssuedSnoc | app/src/main/kotlin/dev/xframes/XFramesWrapper.kt:108-115 | one more call appends exactly one more id |
| Registry.IdsIssuedDistinct | app/src/main/kotlin/dev/xframes/XFramesWrapper.kt:111 | at most 2^32 successive calls never return the same id twice |
| Registry.IdsIssuedFresh | app/src/main/kotlin/dev/xframes/XFramesWrapper.kt:111 | while fewer than 2^32 ids have been handed out, the counter's value is none of them |
| Registry.IdsFromZero | app/src/main/kotlin/dev/xframes/XFramesWrapper.kt:83-115 | from the initial counter 0, the first 2^31 calls return 0, 1, 2, ..., strictly increasing |
| Registry.IdsWrapAround | app/src/main/kotlin/dev/xframes/XFramesWrapper.kt:111 | the id after `Int.MAX_VALUE` is `Int.MIN_VALUE`, and call 2^32 + 1 repeats the first id |
| Registry.WidgetRegistrationService.constructor | app/src/main/kotlin/dev/xframes/XFramesWrapper.kt:83-90 | the counter starts at 0 and both registries are empty |
| Registry.WidgetRegistrationService.GetNextWidgetId | app/src/main/kotlin/dev/xframes/XFramesWrapper.kt:108-115 | returns the counter and increments it by one with wrap-around; until 2^32 ids have been handed out the id is new; the registries are untouched |
| Registry.WidgetRegistrationService.GetWidgetById | app/src/main/kotlin/dev/xframes/XFramesWrapper.kt:96-98 | the widget registered under the id, or null (not an error) when there is none |
| Registry.WidgetRegistrationService.RegisterWidget | app/src/main/kotlin/dev/xframes/XFramesWrapper.kt:101-105 | afterwards the id looks up the new widget, replacing any earlier one; every other id looks up what it did before |
| Registry.WidgetRegistrationService.RegisterWidgetForOnClickEvent | app/src/main/kotlin/dev/xframes/XFramesWrapper.kt:117-119 | the handler replaces any earlier one for the id; other ids keep theirs |
| Registry.WidgetRegistrationService.DispatchOnClickEvent | app/src/main/kotlin/dev/xframes/XFramesWrapper.kt:121-123 | runs the registered handler once, or nothing for an unknown id; both tables are unchanged |
| Registry.WidgetRegistrationService.NewWidgetNode | app/src/main/kotlin/dev/xframes/XFramesWrapper.kt:191-197 | a given id is kept and the counter does not move; an omitted id takes the next id from the counter |
| Registry.ToJson | app/src/main/kotlin/dev/xframes/XFramesWrapper.kt:209-215 | the props plus "id" and "type", which override props of the same name; children are not written |
| Registry.FromJson | app/src/main/kotlin/dev/xframes/XFramesWrapper.kt:200-207 | succeeds exactly when "type" is a string and "id" an `Int`, checking "type" first; the node takes every other entry as a prop and has no children |
| Registry.JsonRoundTrip | app/src/main/kotlin/dev/xframes/XFramesWrapper.kt:199-216 | reading back what `toJson` wrote restores the type and the id, and the props minus "id"/"type"; children come back empty |
| Registry.JsonRoundTripExact | app/src/main/kotlin/dev/xframes/XFramesWrapper.kt:199-216 | a childless node whose props avoid the two header keys survives the round trip unchanged |
| Registry.JsonRoundTripFromJson | app/src/main/kotlin/dev/xframes/XFramesWrapper.kt:199-216 | writing back a node `fromJson` accepted gives the same map |
| Services.ComponentService.constructor | app/src/main/kotlin/dev/xframes/ComponentService.kt:6 | no listeners at first |
| Services.ComponentService.RegisterClickListener | app/src/main/kotlin/dev/xframes/ComponentService.kt:9-11 | the listener replaces any earlier one for the component, and a later trigger of that id runs it; other components keep theirs |
| Services.ComponentService.TriggerClick | app/src/main/kotlin/dev/xframes/ComponentService.kt:14-16 | runs the component's listener once, or nothing when it has none; the listener map is unchanged |
| Components.Component.constructor | app/src/main/kotlin/dev/xframes/Component.kt:9-13 | keeps id, type and props; props default to the empty map |
| Components.Component.Render | app/src/main/kotlin/dev/xframes/Component.kt:21-23 | the node has the component's id, type and (non-null) props, no children and the default lifecycle |
| Components.ComponentRenderIsLeaf | app/src/main/kotlin/dev/xframes/Component.kt:21-23 | `render` keeps id, type and props (non-null even when defaulted), with no children and the default lifecycle |
| Components.ComponentRerender | app/src/main/kotlin/dev/xframes/Component.kt:21-23 | two renders under one id reconcile to one UpdateProps of the changed props, or to nothing |
| Components.InitialLabel | app/src/main/kotlin/dev/xframes/Component.kt:27 | the "label" prop when it is a string, otherwise (absent, null or another type) "" |
| Components.InitialLabelCases | app/src/main/kotlin/dev/xframes/Component.kt:27 | the initial label is the "label" prop when it is a string, and "" when it is absent, null or of another type |
| Components.ButtonComponent.constructor | app/src/main/kotlin/dev/xframes/Component.kt:26-27 | keeps id, type and props and sets the label from the props |
| Components.ButtonComponent.Render | app/src/main/kotlin/dev/xframes/Component.kt:32-38 | the node has the button's id and type, the single prop "label" holding the current label, no children and the default lifecycle |
| Components.ButtonLabelRoundTrip | app/src/main/kotlin/dev/xframes/Component.kt:32-38 | the rendered props are exactly {"label": label}, all other props dropped, and a button built from them has the same label |
| Components.ButtonRerender | app/src/main/kotlin/dev/xframes/Component.kt:32-38 | two buttons under one id reconcile to nothing when the labels agree, whatever their other props, and else to one UpdateProps of the new label |
| Views.RenderedAll | app/src/main/kotlin/dev/xframes/View.kt:16 | one child node per child |
| Views.RenderedAllAt | app/src/main/kotlin/dev/xframes/View.kt:16 | the i-th child node is the render of the i-th child |
| Views.RenderedAllAppend | app/src/main/kotlin/dev/xframes/View.kt:16 | rendering one more child appends one more node |
| Views.RenderedUnmounted | app/src/main/kotlin/dev/xframes/View.kt:15-18 | every node of a render, at every depth, has the default lifecycle; a view with no `child` calls has no children |
| Views.ViewRerenderUnchanged | app/src/main/kotlin/dev/xframes/View.kt:15-18 | rendering the same view twice and reconciling enqueues nothing |
| Views.ViewChildAppended | app/src/main/kotlin/dev/xframes/View.kt:8-12 | one more `child` call at the end reconciles to one AddChild of the new child's render |
| Views.View.constructor | app/src/main/kotlin/dev/xframes/View.kt:4-5 | a new view has its id, type and props and no children |
| Views.View.Child | app/src/main/kotlin/dev/xframes/View.kt:8-12 | appends exactly one child, built with its own block, at the end; earlier children are unchanged |
| Views.View.Run | app/src/main/kotlin/dev/xframes/View.kt:10 | running a block appends its `child` calls in order |
| Views.View.Render | app/src/main/kotlin/dev/xframes/View.kt:15-18 | the view's id, type and props over the renders of its children, same count and order, unmounted at every depth |
| Views.BuildView | app/src/main/kotlin/dev/xframes/View.kt:21-25 | a new view with the given id, type and props holding exactly the children its block added |

## Left out

- JNI calls into the native renderer, the Moshi adapters of the `Json*` op records and the op helpers `setData` … `setComboSelectedIndex`: these are foreign calls and a JSON library. `setXFramesWrapper` and `getStyle` only forward to the native side.
- The Compose integration (`WidgetTreeApplier`, the composables, `App`), `main`, `keepProcessRunning`, and the font and theme tables: these are framework callbacks, process bootstrap and constant data.
- The two `ReentrantLock`s of the registration service, and enqueueing from another thread during a flush: the model is sequential.
- `MyCallbackHandler`, `AllCallbacks`, `DependencyInjector`, `State` and `CounterComponent`: these are logging, interface declarations, reflection and a reactive-library wrapper, outside the core.
- The `println` output of the `apply*` handlers and of `requestFlush`: each handler call is recorded in a ghost log instead.
- What a click callback or listener does when it runs: it is an opaque token appended to the `invoked` log. A callback that itself registers or dispatches is not modelled.
- Queue.UpdateQueue.Flush: the exception escaping a throwing handler is the `Threw` outcome. What the external renderer does is a parameter (`Renderer`), not a model of the renderer.
- `WidgetNode.props` and `WidgetNode.children` are mutable in Kotlin. They are values here, so in-place mutation of a registered node and aliasing between nodes are not modelled.
- `ComponentLifecycle.mounted`/`updated` are `var`s in Kotlin but are never assigned by the code; the model makes them immutable.
- Prop values `Any?` are a closed datatype (null, boolean, `Int`, string, nested map). Other JVM types, and the boxing of JSON numbers as `Double` by a real JSON parser, are not modelled.
- Views.View.Run: a content block is modelled as the sequence of `child` calls it makes, so blocks that do anything else (add non-`View` components to `children`, read state) are not captured.
- Components.Component.ComponentDidMount and Components.Component.ComponentDidUpdate have empty bodies and no `modifies` clause; that frame is their whole contract, so they have no row above. `ButtonComponent` repeats the three fields of `Component` because Dafny classes here do not inherit; its `label` field is named `labelText` since `label` is reserved in Dafny.
- Registry.WidgetRegistrationService.GetNextWidgetId: ids are proved fresh only until 2^32 ids have been handed out, because the Kotlin `Int` counter wraps after that (see above), so "never the same value" does not hold for longer runs.
- Registry.IdsFromZero: strictly increasing ids only for the first 2^31 calls; the next call returns `Int.MIN_VALUE`.
- Reconciliation: `diffChildren` is not recursive, exactly as the code. Grandchildren are never compared: an index-matched pair of children is compared by `type` and `props` only (`PairwiseDiffAligned`), so a change below a child goes unreported.
