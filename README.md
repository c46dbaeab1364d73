# A verified model of a tiny Fiber reconciler

This project models the reconciler in `packages/react/src/index.ts`, a small
React-like UI library.

- **Descriptions.** `createElement` builds element descriptions. A child
  description (an element, an array, a string or number, or "nothing") is
  normalised into the kind, type, props and key of a *work node* (a fiber).
- **The walk.** `render` starts a walk over a new tree of work nodes. Each
  node is matched with its *alternate*, the node at the same position in the
  last committed tree. A keyed node may be matched with another sibling of its
  alternate.
- **Intents.** The walk records one intent per node: `add`, `update` or
  `remove`. Intents are chained through `nextEffect` links by
  `_scheduleEffect`.
- **Hooks.** Function components keep `useState`, `useMemo`, `useCallback`
  and `useEffect` slots in a hook array. The array is shared with the
  alternate.
- **Commit.** When the walk is over, `_commitWork` follows the intent chain.
  It inserts, patches and removes host objects, then runs the effects that are
  due: each old cleanup first, then the setup.

## How the model is organised

| file | what it holds |
|---|---|
| `values.dfy` | JavaScript values, element descriptions, `Option`, `Result` and the faults |
| `elements.dfy` | `createElement` and the description normalisers |
| `props.dfy` | `_propsEqual`, `_depsEqual`, `_toEventName` and `_diffProps`, with what a diff does to host attributes and listeners |
| `foreign.dfy` | the boundary: user code as a pure `World`, and the `Event`s the engine emits |
| `hooks.dfy` | hook objects and the slot rule of each hook, as functions |
| `fibers.dfy` | the fiber record, the intent chain, sibling walks, `_reorderSiblings`, `_beginWork`'s decision, and the host look-ups and removals, all as functions of the arena |
| `commit.dfy` | `_commitWork` as functions: one step, the loop read literally, and what that loop amounts to on a well-formed chain |
| `engine.dfy` | the class `Reconciler.Engine`, holding the module's mutable state, with one method per operation; each method is proved against the functions above |

### The state

The source links JavaScript objects. The model keeps them in arenas:

- **Fibers.** `fibers: seq<Fiber>` holds every work node ever made. Links
  (`child`, `sibling`, `return`, `nextEffect`, `alternate`) are indices into
  it.
- **Hook arrays.** `hookLists` holds the hook arrays. A fiber and its
  alternate can share one, as they share the array object in the source.
- **Host objects.** `hosts` holds the host objects made by the engine or
  handed to it.
- **The trace.** `trace` records every call the engine makes into user code
  or the host, in order: a component invoked, an initializer, updater or
  producer called, a setup or cleanup run, an insertion, a removal, a text
  update, a props patch, a container cleared, a tick requested.
- **The intent log.** The ghost field `scheduled` logs the `_scheduleEffect`
  calls since the chain was last reset. Every method that schedules states
  how the chain grew (`Fibers.Grown`): the fibers logged since were appended
  in order, and no other old `nextEffect` link changed. `Fibers.GrownKeepsChain`
  proves that a well-formed chain holding exactly the logged fibers stays one
  when the fibers logged since are new to it, distinct and linked nowhere.
- **Module variables.** `_nextUnitOfWork`, `_currentRoot`, `_wipRoot`,
  `_firstEffect`, `_lastEffect` and `_hookIndex` are fields of the engine.

### Foreign code and divergence

User code (components, initializers, updaters, memo producers, effect setups
and cleanups) is a fixed `World`:

- `call(f, args)` is what a function returns;
- `body(c, props, results)` is a component's next step after the hook results
  it has seen: another hook call, or its single returned child.

Where the source would throw `new Error('WAT')` (a hook outside a render, a
slot of the wrong kind, an unknown tag), the model returns an `Err` with the
matching fault. The source also has loops that never end: a parent search
with no host object above it, or a cycle in a sibling or intent list. There
the model returns `Err(Diverges)`. A walk longer than the arena must have met
a fiber twice (`Fibers.WalkRepeats`), so each such list walk is bounded by the
arena size.

## Model

All source cells refer to `packages/react/src/index.ts`.

| member | source | states |
|---|---|---|
| Elements.CreateElement | packages/react/src/index.ts:144-160 | the element keeps its type; its children are exactly the given children; its key is `props.key`, with a missing or `undefined` key read as `null`; its props are the given props minus `key`, `__self`, `__source` and `children`, each with its own value; `null` props count as `{}` |
| Elements.ClassesPartition | packages/react/src/index.ts:298-307 | every child description is an array, "nothing", text or an element, exactly one of them; "element" holds exactly for element descriptions |
| Elements.GetKey | packages/react/src/index.ts:309-312 | only an element has a key; every other description has key `null` |
| Elements.GetWorkTag | packages/react/src/index.ts:314-322 | gives, for each kind, exactly the descriptions that get it (both directions); no description gets the root kind |
| Elements.GetWorkType | packages/react/src/index.ts:324-329 | arrays get the fragment marker, text the text marker and "nothing" the void marker; an element keeps its own type |
| Elements.GetProps | packages/react/src/index.ts:331-336 | an array's items become the children; text becomes a single `nodeValue` prop with no children; "nothing" gets empty props; an element keeps its props |
| Elements.ElementNormalisation | packages/react/src/index.ts:309-336 | an element's kind depends on its type alone; its work node carries its own type, props and key |
| PropsDiff.PropsEqualIsAttrEquality | packages/react/src/index.ts:118-127 | on props with no `undefined` value, the shallow comparison holds exactly when the attributes are equal, whatever the children |
| PropsDiff.PropsEqualUndefinedMatchesMissing | packages/react/src/index.ts:118-127 | the comparison as written treats an explicit `undefined` as matching a missing key: `{x: undefined}` equals `{y: 1}` |
| PropsDiff.DepsEqual | packages/react/src/index.ts:129-133 | two dependency lists compare equal exactly when they are equal lists, an absent list counting as `[]` |
| PropsDiff.ToEventName | packages/react/src/index.ts:180 | the event name is two characters shorter than the prop name, has no capital letter, and is the prop name past its "on" prefix with ASCII letters lowered |
| PropsDiff.DiffProps | packages/react/src/index.ts:184-203 | `key` and `children` are never listed; a current prop is added exactly when the old one is falsy or differs, an old prop removed exactly when the new one is falsy or differs; added names are current props and removed names old ones; each list holds exactly the handlers or exactly the plain props, split by the "on" prefix |
| PropsDiff.PatchSyncsAttrs | packages/react/src/index.ts:351-384 | applying the diff to an element that holds the old plain props leaves exactly the new plain props, with the new values |
| PropsDiff.PatchSyncsListeners | packages/react/src/index.ts:351-384 | applying the diff to an element that holds the old listeners leaves exactly the new ones, provided distinct handler names give distinct event names |
| PropsDiff.SameTruthyPropsNoPatch | packages/react/src/index.ts:184-203 | re-rendering with the same props, all of them truthy, adds and removes nothing |
| PropsDiff.PropsEqual | packages/react/src/index.ts:118-127 | the shallow comparison as written: children ignored, equal key counts, every key of the old props read identically in the new ones; its meaning is stated by `PropsEqualIsAttrEquality` |
| Hooks.SetSlot | packages/react/src/index.ts:586-587 | writing a hook slot stores the hook there and leaves every other slot as it was; writing past the end pads the array with holes |
| Hooks.FoldPending | packages/react/src/index.ts:616-621 | the reduce over the state queue, one update at a time from the stored value; its order is stated by `FoldPendingSnoc` and `LastPlainUpdateWins` |
| Hooks.InitialState | packages/react/src/index.ts:586-590 | the initial state: the initializer's result when it is a function, the value itself otherwise; `UseStateSlot` states when it is used |
| Hooks.FoldEvents | packages/react/src/index.ts:616-619 | folding a state queue calls at most one function per queued update, each a queued function called with one argument |
| Hooks.FoldPendingSnoc | packages/react/src/index.ts:616-619 | the fold runs left to right: one more queued update is applied last, and its call comes last |
| Hooks.LastPlainUpdateWins | packages/react/src/index.ts:616-619 | when the last queued update is a plain value, the new state is that value |
| Hooks.UseStateSlot | packages/react/src/index.ts:586-623 | a slot of another kind fails; an empty slot starts from the initializer, calling it with no arguments only when it is a function; an existing slot folds its queue over its value; the queue ends empty |
| Hooks.Enqueue | packages/react/src/index.ts:591-592 | dispatching adds the update to the end of the queue and keeps the value |
| Hooks.DispatchThenRender | packages/react/src/index.ts:591-621 | a dispatched update is applied at the next render, after the updates already queued |
| Hooks.UseMemoSlot | packages/react/src/index.ts:633-650 | a slot of another kind fails; the value is recomputed exactly when the slot is new or its stored deps differ, calling the producer once; otherwise the stored value is kept; the deps end as given |
| Hooks.UseCallbackSlot | packages/react/src/index.ts:653-654 | a callback slot is a memo whose value is the callback itself; no user code is called, and the stored callback changes only with the deps |
| Hooks.MemoComputesOncePerChange | packages/react/src/index.ts:633-650 | over any sequence of renders, the producer runs once when the slot is made and then once per change of deps, and never otherwise |
| Hooks.MemoTestCounts | packages/react/src/index.ts:645-648 | deps `[0]`, `[1]`, `[1]`, `[2]` give 1, 2, 2 and then 3 computations in total |
| Hooks.UseEffectSlot | packages/react/src/index.ts:656-686 | a slot of another kind fails; the effect is due exactly when the slot is new, the deps are omitted, or the deps differ; setup and deps are stored and the old cleanup kept; nothing is called |
| Hooks.DueEffects | packages/react/src/index.ts:135-136 | lists exactly the slots holding due effect hooks, in array order, each once |
| Hooks.CleanupEvents | packages/react/src/index.ts:138-142 | runs only cleanups, at most one per slot |
| Hooks.CleanupEventsMeaning | packages/react/src/index.ts:138-142 | runs the cleanup of every effect hook holding one, once each and in array order (the slots `CleanupSlots` lists), and nothing else |
| Hooks.CleanupEventsInOrder | packages/react/src/index.ts:138-142 | the i-th cleanup run is that of the i-th slot holding one |
| Hooks.CleanupSlots | packages/react/src/index.ts:138-142 | lists exactly the slots holding an effect hook with a cleanup, in array order, each once |
| Hooks.RunEffect | packages/react/src/index.ts:558-561 | running an effect runs the old cleanup, if any, then the setup; the setup's result, with `null`/`undefined` meaning none, is the new cleanup |
| Hooks.EmptyDepsPassesAreSilent | packages/react/src/index.ts:656-686 | once an effect with empty deps exists, later passes call nothing and keep its cleanup |
| Hooks.EmptyDepsEffectLifecycle | packages/react/src/index.ts:656-686 | an effect with empty deps sets up once, on the first pass; the only cleanup left to run at removal is the one that setup returned |
| Hooks.NoDepsEffectRunsEveryPass | packages/react/src/index.ts:683-685 | an effect without deps runs every setup given, once each and in pass order |
| Hooks.NoDepsCleanupBeforeNextSetup | packages/react/src/index.ts:558-561 | two passes of an effect without deps log setup, then the first cleanup, then the second setup |
| Hooks.HookStep | packages/react/src/index.ts:579-686 | outside a render a hook call fails; otherwise it fails exactly when its slot holds a hook of another kind; on success it writes only its own slot, with a hook of its kind, and a state result carries the setter of that slot |
| Hooks.RenderComponent | packages/react/src/index.ts:338-345 | the component's render: hook call `j` lands on slot `j`; every result but the last asks for another hook; success returns the child the component gives; failure is the hook limit, a hook outside a render, or a slot of another kind |
| Hooks.RenderSlots | packages/react/src/index.ts:579-686 | hook identity by call order: after a render slot `j` holds a hook of the kind call `j` needs, a state result hands out slot `j`'s setter, and slots no call reached are unchanged |
| Hooks.FirstRenderFits | packages/react/src/index.ts:579-686 | a first render, on an empty hook array, never meets a slot of the wrong kind |
| Fibers.BlankFiber | packages/react/src/index.ts:162-178 | a created fiber has key `null`, empty props, index 0, is unvisited, and has no links, host object or intent |
| Fibers.ChildFiber | packages/react/src/index.ts:447-460 | a new child fiber takes kind, key, type and props from the normalisers and is linked to its parent and match; it inherits the match's hook array and host object, except when it is void or unmatched, where it gets a fresh array and no host object |
| Fibers.Removals | packages/react/src/index.ts:467-473 | marking a list for removal logs one `remove` entry per fiber of the list, in list order |
| Fibers.AppendEffect | packages/react/src/index.ts:108-116 | scheduling a fiber makes it the chain's tail and keeps the arena size |
| Fibers.AppendKeepsChain | packages/react/src/index.ts:108-116 | scheduling a fiber that is not on a well-formed chain and links nowhere keeps the chain well formed, with the fiber last |
| Fibers.ScheduleAll | packages/react/src/index.ts:108-116 | a run of `_scheduleEffect` calls, as the chain ends and the `nextEffect` links it writes: the tail is the last fiber scheduled, or the old tail when none was |
| Fibers.ScheduleAllConcat | packages/react/src/index.ts:108-116 | two runs of calls in a row write the links of both and end where the second ends |
| Fibers.ScheduleAllChain | packages/react/src/index.ts:108-116 | on distinct fibers, the run links each fiber, from the old tail on, to the next one scheduled, writes no other link, and ends at the last one |
| Fibers.LinkStep | packages/react/src/index.ts:108-116 | one more call links the old tail to the new fiber and keeps every earlier link of the run, writing no other |
| Fibers.GrownSame | packages/react/src/index.ts:108-116 | a change that schedules nothing and keeps every old `nextEffect` link is a growth by nothing |
| Fibers.GrownTrans | packages/react/src/index.ts:108-116 | growth composes: growing by the fibers logged in one step and then by those of the next is growing by all of them, in order |
| Fibers.AppendGrows | packages/react/src/index.ts:108-116 | one `_scheduleEffect` call is a growth by exactly the fiber it schedules |
| Fibers.GrownKeepsChain | packages/react/src/index.ts:108-116 | after a growth, a well-formed chain holding exactly the logged fibers still is one, when the fibers logged since are new to it, distinct and linked nowhere |
| Fibers.FreshTailFibers | packages/react/src/index.ts:108-116 | the fibers logged since a growth began lie in the arena and had no `nextEffect` link |
| Fibers.EditKeepsChain | packages/react/src/index.ts:108-116 | the links a run of calls writes extend a well-formed chain by the fibers of the run, in order |
| Fibers.FibersOfSplit | packages/react/src/index.ts:108-116 | the fibers logged since an earlier log are the tail of the fibers logged |
| Fibers.FrameThrough | packages/react/src/index.ts:396-427 | a fiber left alone by the key resolution and by the decision after it keeps its fields, apart from its links, and its intent (`OthersKept`) |
| Fibers.MarkedSoFarStep | packages/react/src/index.ts:467-473 | one turn of a removal loop marks and logs the fiber it stands on and moves to its sibling; the fibers passed stay marked and every other fiber keeps its intent |
| Fibers.ScheduleInOrder | packages/react/src/index.ts:108-116 | walking the chain after a schedule meets the old entries and then the new fiber, in call order |
| Fibers.ChainWalk | packages/react/src/index.ts:519-556 | following `nextEffect` from the head of a well-formed chain meets exactly its fibers, in order, and stops |
| Fibers.WalkRepeats | packages/react/src/index.ts:469-473 | a list walk that outlasts the arena repeats a fiber, so the source's loop goes round a cycle forever |
| Fibers.KeySearch | packages/react/src/index.ts:402 | a key search that succeeds lands on no fiber or on a fiber of the arena carrying the key |
| Fibers.KeySearchFinds | packages/react/src/index.ts:402 | the fiber found is the first one along the sibling list that carries the key |
| Fibers.KeySearchMisses | packages/react/src/index.ts:402 | finding nothing means the list ended and no fiber on it carries the key |
| Fibers.KeySearchGivesUp | packages/react/src/index.ts:402 | the search gives up only after more fibers than the arena holds, none carrying the key |
| Fibers.KeyMatchFindsUnique | packages/react/src/index.ts:399-411 | with keys unique along the alternate's sibling list, the keyed match is the one fiber of that list with the key |
| Fibers.KeyMatch | packages/react/src/index.ts:397-411 | a fiber without a key keeps its alternate; otherwise a match other than the alternate is a fiber of the arena with the fiber's key |
| Fibers.DecideVerdict | packages/react/src/index.ts:391-427 | a root gets no intent; a fiber is added exactly when it is no root and has no alternate; a decision fails only in a keyed search; a replaced fiber is in the arena |
| Fibers.VerdictTag | packages/react/src/index.ts:391-427 | the intent the decision leaves on the fiber: none keeps the old one, any other verdict sets one, the same as the first logged entry |
| Fibers.CutFromSound | packages/react/src/index.ts:281-284 | on a well-formed sibling list the cutting loop ends; it changes only sibling links, and the list becomes the head followed by the unskipped rest |
| Fibers.ReorderSound | packages/react/src/index.ts:278-289 | on a well-formed list, reordering makes the list from `start` the reordered list whenever that repeats no fiber; only sibling links change |
| Fibers.ReorderMovesStartToFront | packages/react/src/index.ts:278-289 | with unique keys, reordering moves the matched fiber to the front and keeps every other fiber, in order, without repeats |
| Fibers.Spliced | packages/react/src/index.ts:281-284 | the list the cutting loop leaves behind: a fiber with the key is cut and the one after it kept unseen; it is no longer than the list and holds only its fibers |
| Fibers.CutOnce | packages/react/src/index.ts:282 | one turn of the loop: only sibling links change, and the arena stays well linked |
| Fibers.CutFrom | packages/react/src/index.ts:281-284 | the loop for at most `fuel` turns: it keeps the arena size and stops on a fiber of it; `CutFromSound` states what it links |
| Fibers.Logged | packages/react/src/index.ts:391-427 | the decision logs nothing exactly when the fiber gets no intent; otherwise its first entry is the fiber with `update` for a props change and `add` otherwise |
| Fibers.VerdictIgnoresVisited | packages/react/src/index.ts:386-428 | setting the visited flag first does not change the decision made about the fiber |
| Fibers.Ancestors | packages/react/src/index.ts:205-210 | the return path starts at the given fiber, follows `return` links, and ends at a fiber without one |
| Fibers.NearestDom | packages/react/src/index.ts:205-215 | the host object of the nearest fiber up the return path that has one; `NearestDomNone` and `NearestDomFirst` state it |
| Fibers.NearestDomNone | packages/react/src/index.ts:205-215 | there is no parent host object exactly when no fiber on the return path has one |
| Fibers.NearestDomFirst | packages/react/src/index.ts:205-215 | the parent host object belongs to a fiber on the return path |
| Fibers.FirstDom | packages/react/src/index.ts:217-237 | a host fiber's own host object, nothing for a void fiber, the children's first one otherwise; `FirstDomIsHostDom` states it |
| Fibers.FirstDomAmong | packages/react/src/index.ts:226-232 | the first host object found along a sibling list |
| Fibers.FirstDomIsHostDom | packages/react/src/index.ts:217-237 | whatever the first-dom search finds is the host object of a host fiber in the arena |
| Fibers.SiblingDom | packages/react/src/index.ts:264-276 | the first host object after the alternate among its siblings, climbing to a parent without one; `SiblingDomIsHostDom` states it |
| Fibers.SiblingDomIsHostDom | packages/react/src/index.ts:264-276 | the insertion anchor is the host object of a host fiber in the arena |
| Fibers.RemoveEvents | packages/react/src/index.ts:239-262 | the calls a removal makes: detach a host object, or a component's cleanups followed by its children's removals; `RemoveEventsShape` states it |
| Fibers.RemoveAmong | packages/react/src/index.ts:252-256 | the removals of a whole sibling list, in order |
| Fibers.RemoveEventsShape | packages/react/src/index.ts:239-262 | removing a subtree only detaches children of the given parent and runs cleanups; it sets nothing up and touches no other parent |
| Fibers.DueRefs | packages/react/src/index.ts:135-136 | collects exactly the due effect hooks of the fiber's own array, each once, in array order |
| Fibers.RunEffects | packages/react/src/index.ts:558-561 | the effect phase keeps the number and length of the hook arrays; what it runs and stores is stated by `RunEffectsMeaning` |
| Fibers.EffectEventsOf | packages/react/src/index.ts:558-561 | for each collected effect in order, its old cleanup (if any) and then its setup, read off the hook arrays as they were |
| Fibers.AfterEffects | packages/react/src/index.ts:558-561 | a collected effect keeps its setup's result as its new cleanup; every other slot is unchanged |
| Fibers.RunEffectsMeaning | packages/react/src/index.ts:558-561 | when no hook is collected twice, the effect phase runs each collected effect's old cleanup and then its setup, in order, stores each setup's result as the new cleanup, and changes no other slot |
| Fibers.RunEffectsShape | packages/react/src/index.ts:558-561 | the effect phase runs only cleanups and setups, never host calls; the setups it runs are those of the collected effects, in order |
| Fibers.StaleChainLosesIntents | packages/react/src/index.ts:688-701 | as written, an intent scheduled onto the stale chain of the last commit is not reached from the chain's head |
| Fibers.ResetChainKeepsIntents | packages/react/src/index.ts:604-606 | on the reset chain, the same intent is reached and is the whole walk |
| Commit.ClearIntent | packages/react/src/index.ts:552-555 | clearing a fiber's intent and link changes nothing else: the host look-ups are unaffected, and one fewer fiber links onward when it had a link |
| Commit.ParentDom | packages/react/src/index.ts:205-215 | the parent host object, or `Diverges` where the source loops forever; `NearestDomNone` states when it exists |
| Commit.CommitStepStable | packages/react/src/index.ts:522-550 | a commit step reads no intent but its own fiber's |
| Commit.CommitStepShape | packages/react/src/index.ts:522-550 | a commit step makes only host calls and cleanups; removals detach children from the fiber's parent host object only |
| Commit.CommitStep | packages/react/src/index.ts:522-550 | one commit step by intent: an added fiber's element gets its props and is inserted before the sibling anchor; an update sets text or patches against the alternate; a removal detaches the subtree; all but a removal collect their due effects |
| Commit.CommitLoopUnfold | packages/react/src/index.ts:521-556 | one turn of the loop: a failing step fails the commit; otherwise the step's calls and effects come first and the loop continues from the fiber's old link |
| Commit.CommitLoop | packages/react/src/index.ts:519-556 | the loop read literally, each step reading the arena as the earlier steps left it; `CommitFollowsChain` states what it amounts to |
| Commit.CommitFollowsChain | packages/react/src/index.ts:517-556 | on a well-formed chain, the loop makes one step per chained fiber, in order, against the arena as it was; it clears exactly those fibers' intents and changes nothing else |
| Commit.CommitAll | packages/react/src/index.ts:519-556 | the steps for a list of fibers, in order, all against one arena; the reference the literal loop is proved equal to |
| Commit.ClearAllClears | packages/react/src/index.ts:552-555 | clearing a list of fibers clears exactly their intents and links; no other field and no other fiber changes |
| Commit.CommitAllShape | packages/react/src/index.ts:521-556 | the steps for a whole chain run no setup |
| Commit.CommitLoopShape | packages/react/src/index.ts:521-556 | the literal loop, whether or not the chain is well formed, runs no setup |
| Commit.CommitThenEffects | packages/react/src/index.ts:517-561 | in a whole commit no host call follows a setup, so every effect sees the finished host tree |
| Commit.SetupsAfterHostCalls | packages/react/src/index.ts:517-561 | a log of host calls and cleanups followed by a log of cleanups and setups has no host call after a setup |
| Reconciler.RootFor | packages/react/src/index.ts:688-696 | `render`'s root carries the element's key, has the element as its only child description, owns the container, is matched with the current root, and is otherwise blank |
| Reconciler.RootCopy | packages/react/src/index.ts:594-602 | the setter's root is an unvisited, childless copy of the current root, matched with it; it shares the current root's props, host object and hook array, or is blank when there is no current root |
| Reconciler.Engine.constructor | packages/react/src/index.ts:92-97 | the module starts with no walk, no roots, an empty intent chain and hook cursor -1 |
| Reconciler.Engine.NewContainer | packages/react/src/index.ts:688 | a container handed to `render` is a new host element appended to the host objects |
| Reconciler.Engine.ScheduleEffect | packages/react/src/index.ts:108-116 | the chain state becomes `AppendEffect` of the old one, and the call is logged with the fiber's intent; fibers other than the old tail are untouched; the chain grew by exactly that fiber (`GrownSince`); a new fiber joins a well-formed chain and keeps it well formed |
| Reconciler.Engine.LinkTail | packages/react/src/index.ts:109-115 | the writes of one call: an empty chain gets the fiber as head and tail, otherwise the old tail links to it and it becomes the tail (`AppendEffect`); only the old tail's fields change |
| Reconciler.Engine.Appended | packages/react/src/index.ts:108-116 | one logged call whose writes are `AppendEffect` is a growth by that fiber, and keeps a well-formed chain well formed when the fiber is new to it and links nowhere |
| Reconciler.Engine.FindKey | packages/react/src/index.ts:402 | the key loop gives what `KeySearch` specifies |
| Reconciler.Engine.MarkOne | packages/react/src/index.ts:422-426 | the fiber gets the given intent (`remove` for a dropped fiber, `update` for changed props) and is logged with it; no other fiber's intent changes, no fiber changes shape, and the chain grows by exactly that fiber (`GrownSince`) |
| Reconciler.Engine.MarkRemoved | packages/react/src/index.ts:467-473 | every fiber of the list is marked `remove` and logged, in list order, and the list is walked to its end; every fiber off the list keeps its intent; only intents change; the chain grows by exactly the fibers logged (`GrownSince`); a loop that would never end reports a repeated fiber |
| Reconciler.Engine.MarkWalk | packages/react/src/index.ts:467-473 | the loop stops at the end of the list, or after as many turns as the arena has fibers; the fibers passed are marked and logged in order (`MarkedSoFar`), and the chain grew by exactly them |
| Reconciler.Engine.MarkStep | packages/react/src/index.ts:471-473 | one turn of the removal loop: the fiber it stands on is marked `remove` and logged, the loop moves to its sibling, and the chain grew by that fiber |
| Reconciler.Engine.MarkingStarts | packages/react/src/index.ts:468 | before the first turn nothing is marked or logged and the loop stands on the start of the list |
| Reconciler.Engine.MarkedWalk | packages/react/src/index.ts:467-473 | once the walk has passed the whole list, exactly its fibers carry `remove` and every other fiber keeps its intent |
| Reconciler.Engine.CutNext | packages/react/src/index.ts:282 | the successor is cut out exactly when it carries the key, by linking past it; nothing else changes |
| Reconciler.Engine.CutKey | packages/react/src/index.ts:279-284 | the cutting loop leaves the arena `CutFrom` specifies and changes only sibling links |
| Reconciler.Engine.ReorderSiblings | packages/react/src/index.ts:278-289 | returns `start`; only sibling links change; on a well-formed list whose reordering repeats no fiber, the list from `start` is the reordered list |
| Reconciler.Engine.SpawnFiber | packages/react/src/index.ts:447-460 | the arena grows by exactly the specified child fiber; a fresh hook array is made only for a void or unmatched child |
| Reconciler.Engine.UpdateHostComponent | packages/react/src/index.ts:347-349 | a host fiber without a host object gets a new text node or element of its type; one that has a host object keeps it; no other fiber changes |
| Reconciler.Engine.UseState | packages/react/src/index.ts:579-624 | the cursor moves on one; outside a render it fails and writes nothing; otherwise it does what `UseStateSlot` says to the slot, returns the value and the setter bound to that slot, and logs the calls made |
| Reconciler.Engine.UseMemoWith | packages/react/src/index.ts:626-651 | the cursor moves on one; outside a render it fails; otherwise the slot, the result and the calls are those `UseMemoSlot` gives |
| Reconciler.Engine.UseMemo | packages/react/src/index.ts:626-651 | the memo with a user-code producer: the slot written, the result and the producer calls are those `UseMemoSlot` gives |
| Reconciler.Engine.UseCallback | packages/react/src/index.ts:653-654 | the slot written and the callback returned are those `UseCallbackSlot` gives, and no user code is called |
| Reconciler.Engine.UseEffect | packages/react/src/index.ts:656-686 | the cursor moves on one; outside a render it fails; otherwise the slot becomes what `UseEffectSlot` gives, and nothing is called |
| Reconciler.Engine.CallHook | packages/react/src/index.ts:579-686 | a hook call does what `HookStep` says to the rendering fiber's hook array at the cursor, returning its result and making its calls; a failed call writes and calls nothing |
| Reconciler.Engine.CallHooks | packages/react/src/index.ts:338-345 | the component's hook calls from the engine's side: results, hook array, calls and returned child are those of `RenderComponent` |
| Reconciler.Engine.UpdateFunctionComponent | packages/react/src/index.ts:338-345 | the component is invoked first, with the fiber's props; its hook calls, their results, the hook array they leave and the calls they make are exactly those of `RenderComponent`; on success the fiber's only child is the child it returned and nothing else of the fiber changes; on failure no fiber changes |
| Reconciler.Engine.ResolveKey | packages/react/src/index.ts:399-411 | the match is `KeyMatch`'s; a different match becomes the alternate, whose hook array and host object the fiber takes; on a well-formed list the match's list is reordered with the match in front |
| Reconciler.Engine.TakeMatch | packages/react/src/index.ts:404-407 | the fiber takes the match as alternate, with its hooks and host object; on a well-formed list the match is moved to the front |
| Reconciler.Engine.Decide | packages/react/src/index.ts:391-427 | the verdict is `DecideVerdict` of the arena as it was, and the log grows by exactly `Logged`; a replaced fiber gets a fresh hook array, no host object and a childless copy of the old alternate; the fiber carries the intent of the verdict; every other fiber but a replaced one keeps its fields apart from links, and its intent (`OthersKept`); the chain grows by exactly the fibers logged (`GrownSince`) |
| Reconciler.Engine.DecideAgainst | packages/react/src/index.ts:396-427 | the same for a fiber with an alternate, which is never added without a match, including the frame on other fibers and the chain growth |
| Reconciler.Engine.DecideResolved | packages/react/src/index.ts:413-427 | the decision once the key is resolved, stated against the arena before the resolution: verdict, log, the fiber's fields and intent, the replacement, the frame on other fibers and the chain growth |
| Reconciler.Engine.DecideWith | packages/react/src/index.ts:413-427 | a key mismatch or another type replaces; otherwise different props update; otherwise nothing changes and nothing is logged; every fiber other than the fiber and the replaced alternate keeps its shape and intent; the chain grows by exactly the fibers logged |
| Reconciler.Engine.ReplaceFiber | packages/react/src/index.ts:413-423 | logs the fiber with `add`, then the old alternate with `remove`; the fiber's own description is kept; every other fiber keeps its shape and intent; the chain grows by exactly those two fibers, in that order |
| Reconciler.Engine.AddReplacement | packages/react/src/index.ts:414-420 | the fiber is rewired to a fresh hook array and a childless copy of its old alternate and scheduled with `add`; every other old fiber keeps its shape and intent; the chain grows by exactly that fiber |
| Reconciler.Engine.Rewire | packages/react/src/index.ts:416-419 | the new hook array and the childless copy of the alternate are appended, and the fiber points to them with `add` and no host object; nothing else changes |
| Reconciler.Engine.ProcessKind | packages/react/src/index.ts:430-442 | a component is rendered as `RenderComponent` says, its only child becomes the child it returned and, when it has hooks but no intent, it is queued with no intent; a host fiber gets its host object; other kinds change nothing; no intent changes; the chain grows by exactly the fibers logged |
| Reconciler.Engine.ProcessHost | packages/react/src/index.ts:435-441 | a host or text fiber without a host object gets one; no other fiber and no other field changes, and nothing is logged |
| Reconciler.Engine.ProcessComponent | packages/react/src/index.ts:431-434 | the component is rendered as `RenderComponent` says (hook array, failure, and the returned child as its only child), then a hooked fiber without intent is queued so that its effects run at commit; the chain grows by exactly that fiber when it is queued, and by nothing otherwise |
| Reconciler.Engine.QueueHooked | packages/react/src/index.ts:433 | a fiber with hooks and no intent is logged with no intent and the chain grows by it; otherwise nothing is logged; no fiber changes shape or intent |
| Reconciler.Engine.ExpandChildren | packages/react/src/index.ts:444-475 | with children, the walk descends into a new fiber for the first one; without, every fiber of the alternate's child list is marked `remove` and logged in order, every other fiber keeps its intent, and the walk does not descend; the chain grows by exactly the fibers logged |
| Reconciler.Engine.BeginWork | packages/react/src/index.ts:386-476 | a visited fiber is left alone and nothing is called; otherwise the fiber is visited, its decision is logged, a replaced fiber has fresh hooks, the walk descends exactly when it has children, and the fiber carries the intent its decision gives unless a removal walk marked it `remove`; the chain grows by exactly the fibers logged |
| Reconciler.Engine.DecideAndProcess | packages/react/src/index.ts:389-442 | the decision is `DecideVerdict` of the arena as it was and is logged first; the fiber carries the intent that decision gives; a replaced fiber has fresh hooks and a childless new alternate; the chain grows by exactly the fibers logged |
| Reconciler.Engine.BeginFresh | packages/react/src/index.ts:389-475 | decision, kind step and child step, with the decision's log entries first and the descent as specified; the fiber carries the intent its decision gives unless a removal walk marked it `remove`, and always when the walk descends; the chain grows by exactly the fibers logged |
| Reconciler.Engine.CompleteWork | packages/react/src/index.ts:478-512 | with a next sibling description, a fiber for it is linked as sibling and visited next; otherwise every fiber of the rest of the alternate's sibling list is marked `remove` and logged in order, every other fiber keeps its intent, and the walk returns to the parent; the chain grows by exactly the fibers logged |
| Reconciler.Engine.PerformUnitOfWork | packages/react/src/index.ts:514-515 | the next unit is a fiber of the arena; the intent log only grows, and an unvisited fiber's decision entries come first; the chain grows by exactly the fibers logged |
| Reconciler.Engine.CompleteUnit | packages/react/src/index.ts:515 | the `_completeWork` half moves to a fiber of the arena, keeps the visited flag, only appends to the log, and grows the chain by exactly the fibers logged |
| Reconciler.Engine.GetParentDom | packages/react/src/index.ts:205-215 | the result is `ParentDom`, and it exists exactly when some fiber on the return path has a host object |
| Reconciler.Engine.GetFirstDom | packages/react/src/index.ts:217-237 | the result is `FirstDom` |
| Reconciler.Engine.FirstDomFrom | packages/react/src/index.ts:226-232 | the loop finds the first host object along the sibling list |
| Reconciler.Engine.GetSiblingDom | packages/react/src/index.ts:264-276 | the result is `SiblingDom` |
| Reconciler.Engine.RunCleanup | packages/react/src/index.ts:138-142 | the trace grows by exactly the fiber's cleanups |
| Reconciler.Engine.RemoveDom | packages/react/src/index.ts:239-262 | the trace grows by exactly `RemoveEvents`, and it fails exactly when those fail |
| Reconciler.Engine.RemoveFrom | packages/react/src/index.ts:252-256 | the trace grows by exactly the removals of the whole sibling list |
| Reconciler.Engine.CommitOne | packages/react/src/index.ts:522-550 | one step makes exactly the host calls of `CommitStep` and collects its effects |
| Reconciler.Engine.CommitAdd | packages/react/src/index.ts:523-531 | the `add` step: its calls and collected effects are those of `CommitStep` |
| Reconciler.Engine.InsertionOf | packages/react/src/index.ts:527-528 | an insertion into the parent host object before the sibling anchor; it exists exactly when both look-ups end |
| Reconciler.Engine.CommitRemove | packages/react/src/index.ts:543-545 | the `remove` step: its calls are those of `CommitStep`, and it collects no effects |
| Reconciler.Engine.RunAllEffects | packages/react/src/index.ts:558-561 | hook arrays and trace become what `RunEffects` gives |
| Reconciler.Engine.CommitAndClear | packages/react/src/index.ts:522-555 | the step's calls, then the fiber's intent is cleared; the loop continues from the fiber's old link |
| Reconciler.Engine.CommitTurn | packages/react/src/index.ts:521-556 | one turn leaves what the rest of `CommitLoop` gives unchanged, and removes one link |
| Reconciler.Engine.CommitChain | packages/react/src/index.ts:519-556 | the arena, the host calls and the collected effects are those `CommitLoop` gives |
| Reconciler.Engine.CommitWork | packages/react/src/index.ts:517-562 | the loop as `CommitLoop` gives it, then the effect phase over the collected effects |
| Reconciler.Engine.WorkLoop | packages/react/src/index.ts:564-577 | a finished walk is committed from `_firstEffect` and becomes the current root, with no further tick; otherwise units are performed until none is left or the budget runs out, the log only grows, and a tick is requested last |
| Reconciler.Engine.RunUnits | packages/react/src/index.ts:572-576 | units are performed until none is left or the budget runs out; the log and trace only grow, the chain grew by exactly the fibers logged (`GrownSince`), and a tick is requested last |
| Reconciler.Engine.Render | packages/react/src/index.ts:688-701 | as written: a new root for the container, where the walk starts, and a tick is requested; the intent chain is left as the last commit left it |
| Reconciler.Engine.RenderFresh | packages/react/src/index.ts:688-701 | `render` with the intent chain reset: the walk starts from an empty, well-formed chain |
| Reconciler.Engine.EnqueueAt | packages/react/src/index.ts:592 | the setter's update joins the end of its hook's queue; nothing else changes |
| Reconciler.Engine.NewRootCopy | packages/react/src/index.ts:594-602 | the arena grows by the setter's root copy |
| Reconciler.Engine.RestartFromCurrent | packages/react/src/index.ts:594-608 | the walk restarts at a copy of the current root, with an empty, well-formed intent chain, and a tick is requested |
| Reconciler.Engine.StartFromCopy | packages/react/src/index.ts:594-604 | the new work-in-progress root is a copy of the current one (a fresh hook array when there is none), appended to the arena, and the walk starts at it |
| Reconciler.Engine.Dispatch | packages/react/src/index.ts:591-609 | the update is queued on its hook; the walk restarts at a copy of the current root with an empty chain; a tick is requested |
| Reconciler.Engine.UnmountAt | packages/react/src/index.ts:703-711 | the container is cleared; every module variable is reset, so no walk, root or chain remains; no cleanup runs |

## Left out

- DOM semantics of `_updateDom` (`packages/react/src/index.ts:351-384`) are
  abstracted to a `Patched(node, diff)` event. The effect of a diff on
  attributes and listeners is modelled as sets (`PatchAttrs`,
  `PatchListeners`). Not modelled: the `className`/`class` renaming, the
  property assignment of `value` and `checked`, and attribute string
  conversion.
- The scheduler is not modelled: `requestIdleCallback`, its synchronous
  fallback and `setScheduler` (`index.ts:84-90, 713-715`).
  - A call `scheduler(_workLoop)` is the event `TickRequested`.
  - The idle deadline is a budget: the number of positive `timeRemaining()`
    answers.
- JavaScript object identity and property order are not modelled.
  - Host objects, hook objects and fibers are arena indices.
  - The arrays of prop names that `_diffProps` returns are sets, since only
    membership decides what is patched.
- Re-entrancy is not modelled: user code is a pure function of its arguments.
  A component, setup or cleanup that calls a setter, `render` or `unmountAt`
  while the engine runs, or that throws, is outside the model.
- The arena never shrinks. Orphaned fibers stay in it, as garbage would stay
  in memory until collected.
- Reconciler.Engine.UpdateFunctionComponent follows at most `hookLimit` hook
  calls per invocation (fault `HookLimit` beyond that), as does
  `Hooks.RenderComponent`.
- Reconciler.Engine.MarkRemoved, and every other walk along sibling or intent
  links, stops after as many steps as the arena has fibers and reports
  `Diverges`. On a cycle the source loops forever; `Fibers.WalkRepeats`
  proves that only a cycle gets that far.
- Reconciler.Engine.GetFirstDom, GetSiblingDom and RemoveDom take a fuel
  bound on the depth of the subtree they explore. When the bound runs out
  they report `Diverges`.
- Reconciler.Engine.GetParentDom returns `Diverges` where the source loops
  forever: no fiber above has a host object.
- Reconciler.Engine.PerformUnitOfWork states the log prefix and the
  decision's entries. It does not restate what BeginWork and CompleteWork
  leave behind, and BeginWork itself states only part of that (next line).
- Reconciler.Engine.BeginWork, Reconciler.Engine.DecideAndProcess and
  Reconciler.Engine.BeginFresh state the decision, its log entries, the
  fiber's new intent (in BeginWork and BeginFresh, for a childless fiber, as
  that intent or `remove`, since the removal walk could in principle reach
  the fiber itself), the fresh hooks of a replaced fiber and the child
  step. They do not restate the fiber's other resulting fields: the alternate,
  hook array and host object taken over from a keyed match, the props after
  rendering, and the host objects made. `Decide`, `ResolveKey`, `ProcessKind`
  and `ExpandChildren` state those one step at a time.
- Numbers are integers (`Num(int)`). NaN and non-integral numbers are not
  modelled. In the source `NaN !== NaN`, so a NaN dependency or prop always
  counts as changed in `_depsEqual`, `_diffProps` and `_propsEqual`; the
  model has no such value.
- PropsDiff.ToEventName lowers ASCII capitals only, where `toLowerCase`
  also folds capitals outside ASCII.
- Reconciler.Engine.WorkLoop states the commit branch exactly. For the work
  branch it states the budget bound, that the log and trace grow, how the
  chain grew (`GrownSince`) and the final tick. It does not state the other
  fields of the fibers each unit produced.
- Reconciler.Engine.ScheduleEffect proves the chain well formed only when
  the fiber is not already on it and links nowhere. Scheduling a fiber twice
  closes a cycle, as in the source.
- PropsDiff.PropsEqualIsAttrEquality holds only for props without
  `undefined` values. PropsDiff.PropsEqualUndefinedMatchesMissing shows why.
- PropsDiff.PatchSyncsListeners needs distinct handler names to give
  distinct event names (`onClick` and `onclick` share one).
- Reconciler.Engine.UnmountAt runs no cleanup for the effects of the
  unmounted tree. The source does not run them either (`index.ts:703-711`),
  although removing a node through the diff does.
- Hooks.CleanupOf keeps whatever non-nullish value a setup returns as its
  cleanup, and a later run of it is logged as `CleanupRan`. In the source,
  `cleanup?.()` (`index.ts:140`, `index.ts:559`) throws a `TypeError` when
  that value is not a function. The declared types of the source rule such
  setups out, and a throw from user code is outside the model (see above).
- Reconciler.Engine.Decide and Reconciler.Engine.DecideAgainst state the
  frame on other fibers without their sibling links (`OthersKept`). The
  sibling links a keyed match reorders are stated by
  Reconciler.Engine.ResolveKey (`Reordered`).
- Reconciler.Engine.ScheduleEffect and the methods that call it state how
  the chain grew (`GrownSince`). They do not restate that the chain is well
  formed; `Fibers.GrownKeepsChain` proves that once, for any growth.
- Reconciler.Engine.ProcessKind follows the code in queueing a component
  fiber that has no intent. It queues the fiber whenever its hook array is
  non-empty (`index.ts:433`), whatever the hooks are. It does not check
  that one of them is a due effect.

## Findings

| source | as written | input that shows it | evidently intended | confidence | as-written member | corrected member |
|---|---|---|---|---|---|---|
| packages/react/src/index.ts:688-701 | `render` starts a new walk but keeps `_firstEffect` and `_lastEffect` from the last commit, whose `nextEffect` links the commit cleared. The state setter resets both (`index.ts:605-606`); `render` does not. | Render a tree whose commit chains two fibers `0, 1`, then call `render` again (no `unmountAt` in between) so that fiber `2` gets an intent. `2` is linked after the stale tail `1`, while the commit walks from the stale head `0`, whose link is cleared: only `0` is visited and the intent of `2` is lost. | `render` resets the intent chain like the setter does, so that the next commit walks exactly the intents of the new pass. | medium, not executed | Reconciler.Engine.Render / Fibers.StaleChainLosesIntents | Reconciler.Engine.RenderFresh / Fibers.ResetChainKeepsIntents |
