/** The boundary of the engine: the user code it calls (component functions,
    initializers, updaters, producers, effect setups and cleanups) and the host
    calls it makes. Foreign code is a fixed pure function of its arguments; every
    call the engine makes, to user code or to the host, is an `Event` in its trace. */
module Foreign {
  import opened Values
  import opened PropsDiff

  /** A host object: created by the engine (or the container passed to `render`). */
  type DomId = nat

  /** What the engine knows of a host object: an element with its tag name, or a
      text node with the text it was created with. */
  datatype HostObj = HostElement(name: string) | HostTextNode(text: Value)

  /** A hook object: slot `slot` of hook array `list`. The setter `useState` hands
      out is bound to the hook object it was created for. */
  datatype HookRef = HookRef(list: nat, slot: nat)

  /** A hook call a component makes while it renders. */
  datatype HookCall =
    | CallUseState(initial: Value)
    | CallUseMemo(make: Value, deps: seq<Value>)
    | CallUseCallback(callback: Value, deps: seq<Value>)
    | CallUseEffect(setup: Value, effectDeps: Option<seq<Value>>)

  /** What a hook call returns to the component. */
  datatype HookResult = StateResult(value: Value, setter: HookRef) | MemoResult(value: Value) | EffectResult

  /** A component's next move, given what its earlier hook calls returned: call
      another hook, or return its single child description. */
  datatype Step = UseHook(call: HookCall) | Return(child: Node)

  /** The user code the engine runs, as pure functions.
      `call(f, args)` is the value `f(...args)` returns; `body(c, props, results)` is
      the next step of component `c` rendering `props` after hook results `results`;
      `hookLimit` is how many hook calls the model follows in one invocation. */
  datatype World = World(
    call: (Value, seq<Value>) -> Value,
    body: (Ref, Props, seq<HookResult>) -> Step,
    hookLimit: nat)

  /** One call the engine makes. */
  datatype Event =
    | Invoked(component: Ref, props: Props)          // a function component is called
    | Called(fn: Value, args: seq<Value>)            // an initializer, updater or producer is called
    | SetupRan(setup: Value)                         // an effect's setup is called
    | CleanupRan(cleanup: Value)                     // an effect's cleanup is called
    | Inserted(parent: DomId, node: DomId, before: Option<DomId>)  // `parent.insertBefore(node, before)`
    | RemovedChild(parent: DomId, node: DomId)       // `parent.removeChild(node)`
    | TextSet(node: DomId, text: Value)              // `node.nodeValue = text`
    | Patched(node: DomId, diff: Diff)               // `_updateDom(node, prev, curr)` with this diff
    | Cleared(container: DomId)                      // `container.innerHTML = ''`
    | TickRequested                                  // `scheduler(_workLoop)`

  /** Host-tree mutations, as opposed to calls into user code. */
  predicate IsHostCall(e: Event) {
    e.Inserted? || e.RemovedChild? || e.TextSet? || e.Patched? || e.Cleared?
  }
}
