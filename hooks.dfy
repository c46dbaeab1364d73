/** The hook store: the three kinds of hook object, and what one hook call does to
    the slot it lands on. The engine (module Reconciler) finds the slot by call order and
    writes the result back; everything a slot rule decides is here. */
module Hooks {
  import opened Values
  import opened PropsDiff
  import opened Foreign

  /** A hook object. A state hook's dispatcher is the `HookRef` of its own slot, so
      it is not stored. An absent `deps` or `cleanup` is `None`. */
  datatype Hook =
    | StateHook(pending: seq<Value>, value: Value)
    | MemoHook(value: Value, deps: seq<Value>)
    | EffectHook(effectDeps: Option<seq<Value>>, depsChanged: bool, setup: Value, cleanup: Option<Value>)

  /** A fiber's `hooks` array; `None` is a hole (a slot never written). */
  type HookList = seq<Option<Hook>>

  /** `hooks[i]`: out of range reads as a hole. */
  function SlotAt(hooks: HookList, i: int): Option<Hook> {
    if 0 <= i < |hooks| then hooks[i] else None
  }

  /** `hooks[i] = h`: writing past the end extends the array with holes. */
  function SetSlot(hooks: HookList, i: nat, h: Hook): (r: HookList)
    ensures |r| == if i < |hooks| then |hooks| else i + 1
    ensures r[i] == Some(h)
    ensures forall j :: 0 <= j < |r| && j != i ==> r[j] == SlotAt(hooks, j)
  {
    if i < |hooks| then hooks[i := Some(h)] else hooks + seq(i - |hooks|, _ => None) + [Some(h)]
  }

  // ---------------------------------------------------------------- useState

  /** One queued update: a function is applied to the accumulator, any other value
      replaces it. */
  function ApplyUpdate(w: World, acc: Value, u: Value): Value {
    if u.Fun? then w.call(u, [acc]) else u
  }

  /** The foreign call one queued update makes, if any. */
  function UpdateEvents(acc: Value, u: Value): seq<Event> {
    if u.Fun? then [Called(u, [acc])] else []
  }

  /** `pending.reduce(apply, value)`. */
  function FoldPending(w: World, acc: Value, pending: seq<Value>): Value
    decreases |pending|
  {
    if pending == [] then acc else FoldPending(w, ApplyUpdate(w, acc, pending[0]), pending[1..])
  }

  /** The calls the fold makes: each function update is called once, with one argument. */
  function FoldEvents(w: World, acc: Value, pending: seq<Value>): (r: seq<Event>)
    decreases |pending|
    ensures |r| <= |pending|
    ensures forall e :: e in r ==> e.Called? && |e.args| == 1 && e.fn in pending && e.fn.Fun?
  {
    if pending == [] then [] else UpdateEvents(acc, pending[0]) + FoldEvents(w, ApplyUpdate(w, acc, pending[0]), pending[1..])
  }

  /** The fold runs left to right: folding one more update applies it last. */
  lemma {:induction false} FoldPendingSnoc(w: World, acc: Value, pending: seq<Value>, u: Value)
    ensures FoldPending(w, acc, pending + [u]) == ApplyUpdate(w, FoldPending(w, acc, pending), u)
    ensures FoldEvents(w, acc, pending + [u]) == FoldEvents(w, acc, pending) + UpdateEvents(FoldPending(w, acc, pending), u)
    decreases |pending|
  {
    if pending == [] {
      assert [u][1..] == [];
    } else {
      assert (pending + [u])[1..] == pending[1..] + [u];
      FoldPendingSnoc(w, ApplyUpdate(w, acc, pending[0]), pending[1..], u);
    }
  }

  /** A plain value replaces whatever came before it: after a queue whose last entry
      is not a function, the state is that entry. */
  lemma LastPlainUpdateWins(w: World, acc: Value, pending: seq<Value>)
    requires pending != [] && !pending[|pending| - 1].Fun?
    ensures FoldPending(w, acc, pending) == pending[|pending| - 1]
  {
    var n := |pending| - 1;
    assert pending == pending[..n] + [pending[n]];
    FoldPendingSnoc(w, acc, pending[..n], pending[n]);
  }

  /** The first value of a new state slot: a function initializer is called with no
      arguments, anything else is the value. */
  function InitialState(w: World, init: Value): Value {
    if init.Fun? then w.call(init, []) else init
  }

  function InitEvents(init: Value): seq<Event> {
    if init.Fun? then [Called(init, [])] else []
  }

  /** What a `useState` call leaves in its slot and hands back. */
  datatype StateOutcome = StateOutcome(hook: Hook, value: Value, events: seq<Event>)

  /** `useState(initialValue)` on slot `slot` (lines after the no-fiber check): an
      empty slot gets a new state hook, a slot of another kind is fatal, then the
      queue is folded into the value and emptied. */
  function UseStateSlot(w: World, slot: Option<Hook>, init: Value): (r: Result<StateOutcome>)
    ensures r.Err? <==> slot.Some? && !slot.value.StateHook?
    ensures r.Err? ==> r.fault == HookKindMismatch
    ensures r.Ok? ==> r.value.hook == StateHook([], r.value.value)
    ensures r.Ok? && slot.None? ==> r.value.value == InitialState(w, init) && r.value.events == InitEvents(init)
    ensures r.Ok? && slot.Some? ==>
      r.value.value == FoldPending(w, slot.value.value, slot.value.pending)
      && r.value.events == FoldEvents(w, slot.value.value, slot.value.pending)
    // the initializer is the only call made with no arguments, and only for an empty slot
    ensures r.Ok? ==> (Called(init, []) in r.value.events <==> slot.None? && init.Fun?)
  {
    var h := if slot.None? then StateHook([], InitialState(w, init)) else slot.value;
    if !h.StateHook? then Err(HookKindMismatch)
    else
      var v := FoldPending(w, h.value, h.pending);
      Ok(StateOutcome(StateHook([], v), v, (if slot.None? then InitEvents(init) else []) + FoldEvents(w, h.value, h.pending)))
  }

  /** What the dispatcher does to its hook: the update joins the end of the queue. */
  function Enqueue(h: Hook, u: Value): (r: Hook)
    requires h.StateHook?
    ensures r.StateHook? && r.value == h.value && r.pending == h.pending + [u]
  {
    h.(pending := h.pending + [u])
  }

  /** Dispatching updates and then rendering applies them in dispatch order, on top of
      the value the hook held. */
  lemma DispatchThenRender(w: World, h: Hook, u: Value, init: Value)
    requires h.StateHook?
    ensures UseStateSlot(w, Some(Enqueue(h, u)), init).Ok?
    ensures UseStateSlot(w, Some(Enqueue(h, u)), init).value.value == ApplyUpdate(w, FoldPending(w, h.value, h.pending), u)
  {
    FoldPendingSnoc(w, h.value, h.pending, u);
  }

  // ------------------------------------------------------ useMemo / useCallback

  /** What a memo slot computes its value with: `useMemo`'s producer is foreign code;
      `useCallback` passes an engine-made `() => cb`, whose call is not foreign. */
  datatype Producer = CallProducer(fn: Value) | ConstProducer(constant: Value)

  function Produce(w: World, p: Producer): Value {
    match p
    case CallProducer(f) => w.call(f, [])
    case ConstProducer(v) => v
  }

  function ProduceEvents(p: Producer): seq<Event> {
    if p.CallProducer? then [Called(p.fn, [])] else []
  }

  datatype MemoOutcome = MemoOutcome(hook: Hook, computed: bool, events: seq<Event>)

  /** `useMemo(makeValue, deps)` on slot `slot`: a new slot is computed once (its deps
      are then the current ones, so the recompute test fails); an old one is
      recomputed exactly when its stored deps differ. */
  function UseMemoSlot(w: World, slot: Option<Hook>, make: Producer, deps: seq<Value>): (r: Result<MemoOutcome>)
    ensures r.Err? <==> slot.Some? && !slot.value.MemoHook?
    ensures r.Err? ==> r.fault == HookKindMismatch
    ensures r.Ok? ==> r.value.hook.MemoHook? && r.value.hook.deps == deps
    ensures r.Ok? ==> (r.value.computed <==> slot.None? || !DepsEqual(Some(slot.value.deps), Some(deps)))
    ensures r.Ok? ==> r.value.events == (if r.value.computed then ProduceEvents(make) else [])
    ensures r.Ok? ==> r.value.hook.value == (if r.value.computed then Produce(w, make) else slot.value.value)
  {
    var created := slot.None?;
    var h := if created then MemoHook(Produce(w, make), deps) else slot.value;
    if !h.MemoHook? then Err(HookKindMismatch)
    else if !DepsEqual(Some(h.deps), Some(deps)) then
      Ok(MemoOutcome(MemoHook(Produce(w, make), deps), true, ProduceEvents(make)))
    else
      Ok(MemoOutcome(h, created, if created then ProduceEvents(make) else []))
  }

  /** `useCallback(cb, deps)`: a memo whose producer returns `cb`; the callback itself
      is never called, and the stored one changes only when the deps do. */
  function UseCallbackSlot(w: World, slot: Option<Hook>, cb: Value, deps: seq<Value>): (r: Result<MemoOutcome>)
    ensures r == UseMemoSlot(w, slot, ConstProducer(cb), deps)
    ensures r.Ok? ==> r.value.events == []
    ensures r.Ok? ==> r.value.hook.value == (if r.value.computed then cb else slot.value.value)
  {
    UseMemoSlot(w, slot, ConstProducer(cb), deps)
  }

  /** Rendering one memo slot once per entry of `rounds` (the deps of each render):
      the slot afterwards and how often the value was computed. */
  function MemoRounds(w: World, slot: Option<Hook>, make: Producer, rounds: seq<seq<Value>>): Result<(Option<Hook>, nat)>
    decreases |rounds|
  {
    if rounds == [] then Ok((slot, 0))
    else
      var o :- UseMemoSlot(w, slot, make, rounds[0]);
      var rest :- MemoRounds(w, Some(o.hook), make, rounds[1..]);
      Ok((rest.0, rest.1 + if o.computed then 1 else 0))
  }

  /** How many renders see deps different from the previous render's (`None`: there
      was no previous render). */
  function DepsChanges(prev: Option<seq<Value>>, rounds: seq<seq<Value>>): nat
    decreases |rounds|
  {
    if rounds == [] then 0
    else (if prev.None? || prev.value != rounds[0] then 1 else 0) + DepsChanges(Some(rounds[0]), rounds[1..])
  }

  /** The memo rule over many renders: the value is computed once when the slot is
      created and then once per change of deps, never otherwise. */
  lemma {:induction false} MemoComputesOncePerChange(w: World, slot: Option<Hook>, make: Producer, rounds: seq<seq<Value>>)
    requires slot.None? || slot.value.MemoHook?
    ensures MemoRounds(w, slot, make, rounds).Ok?
    ensures MemoRounds(w, slot, make, rounds).value.1 == DepsChanges(if slot.None? then None else Some(slot.value.deps), rounds)
    decreases |rounds|
  {
    if rounds != [] {
      var o := UseMemoSlot(w, slot, make, rounds[0]).value;
      MemoComputesOncePerChange(w, Some(o.hook), make, rounds[1..]);
    }
  }

  /** The memo test: deps [0], [1], [1], [2] compute 1, 2, 2 and 3 times in total. */
  lemma MemoTestCounts()
    ensures DepsChanges(None, [[Num(0)]]) == 1
    ensures DepsChanges(None, [[Num(0)], [Num(1)]]) == 2
    ensures DepsChanges(None, [[Num(0)], [Num(1)], [Num(1)]]) == 2
    ensures DepsChanges(None, [[Num(0)], [Num(1)], [Num(1)], [Num(2)]]) == 3
  {
    assert [[Num(0)], [Num(1)], [Num(1)], [Num(2)]][1..] == [[Num(1)], [Num(1)], [Num(2)]];
    assert [[Num(1)], [Num(1)], [Num(2)]][1..] == [[Num(1)], [Num(2)]];
    assert [[Num(0)], [Num(1)], [Num(1)]][1..] == [[Num(1)], [Num(1)]];
    assert [[Num(0)], [Num(1)]][1..] == [[Num(1)]];
  }

  // --------------------------------------------------------------- useEffect

  /** `useEffect(setup, deps)` on slot `slot`: a new slot is always due; an old one is
      due when `deps` is omitted or differs from the stored deps. The setup is only
      stored: nothing is called while rendering. */
  function UseEffectSlot(slot: Option<Hook>, setup: Value, deps: Option<seq<Value>>): (r: Result<Hook>)
    ensures r.Err? <==> slot.Some? && !slot.value.EffectHook?
    ensures r.Err? ==> r.fault == HookKindMismatch
    ensures r.Ok? ==> r.value.EffectHook? && r.value.setup == setup && r.value.effectDeps == deps
    ensures r.Ok? ==> (r.value.depsChanged <==> slot.None? || deps.None? || !DepsEqual(slot.value.effectDeps, deps))
    ensures r.Ok? ==> r.value.cleanup == (if slot.None? then None else slot.value.cleanup)
  {
    if slot.None? then Ok(EffectHook(deps, true, setup, None))
    else if !slot.value.EffectHook? then Err(HookKindMismatch)
    else Ok(slot.value.(depsChanged := deps.None? || !DepsEqual(slot.value.effectDeps, deps), effectDeps := deps, setup := setup))
  }

  /** An effect hook that will run at the next commit. */
  predicate Due(h: Option<Hook>) {
    h.Some? && h.value.EffectHook? && h.value.depsChanged
  }

  /** `_getEffects`: the slots of the due effect hooks, in array order (holes skipped). */
  function DueEffects(hooks: HookList): (r: seq<nat>)
    decreases |hooks|
    ensures forall j :: j in r ==> j < |hooks| && Due(hooks[j])
    ensures forall j :: 0 <= j < |hooks| && Due(hooks[j]) ==> j in r
    ensures forall a, b :: 0 <= a < b < |r| ==> r[a] < r[b]
  {
    if hooks == [] then []
    else
      var n := |hooks| - 1;
      var prefix := DueEffects(hooks[..n]);
      assert forall j :: 0 <= j < n ==> hooks[..n][j] == hooks[j];
      assert forall i :: 0 <= i < |prefix| ==> prefix[i] in prefix;
      assert forall i :: 0 <= i < |prefix| ==> prefix[i] < n;
      assert forall j :: 0 <= j < n ==> (j in prefix <==> Due(hooks[j]));
      var r := prefix + if Due(hooks[n]) then [n] else [];
      assert forall j :: j in r <==> j in prefix || (j == n && Due(hooks[n]));
      r
  }

  /** An effect hook holding a cleanup. */
  predicate HasCleanup(h: Option<Hook>) {
    h.Some? && h.value.EffectHook? && h.value.cleanup.Some?
  }

  /** `_runCleanup`: the cleanup of every effect hook that has one, in array order. */
  function CleanupEvents(hooks: HookList): (r: seq<Event>)
    decreases |hooks|
    ensures |r| <= |hooks|
    ensures forall e :: e in r ==> e.CleanupRan?
  {
    if hooks == [] then []
    else
      var n := |hooks| - 1;
      CleanupEvents(hooks[..n]) + if HasCleanup(hooks[n]) then [CleanupRan(hooks[n].value.cleanup.value)] else []
  }

  /** The cleanups run are exactly those of the slots holding one, once each, in slot order. */
  lemma {:induction false} CleanupEventsMeaning(hooks: HookList)
    decreases |hooks|
    ensures var r, slots := CleanupEvents(hooks), CleanupSlots(hooks);
      |r| == |slots| && forall i :: 0 <= i < |r| ==> r[i] == CleanupRan(hooks[slots[i]].value.cleanup.value)
    ensures forall j :: 0 <= j < |hooks| && HasCleanup(hooks[j]) ==> CleanupRan(hooks[j].value.cleanup.value) in CleanupEvents(hooks)
  {
    CleanupEventsInOrder(hooks);
    var r, slots := CleanupEvents(hooks), CleanupSlots(hooks);
    forall j | 0 <= j < |hooks| && HasCleanup(hooks[j])
      ensures CleanupRan(hooks[j].value.cleanup.value) in r
    {
      var k :| 0 <= k < |slots| && slots[k] == j;
      assert r[k] == CleanupRan(hooks[j].value.cleanup.value);
    }
  }

  /** Slot by slot: the i-th cleanup run is that of the i-th slot holding one. */
  lemma {:induction false} CleanupEventsInOrder(hooks: HookList)
    decreases |hooks|
    ensures var r, slots := CleanupEvents(hooks), CleanupSlots(hooks);
      |r| == |slots| && forall i :: 0 <= i < |r| ==> r[i] == CleanupRan(hooks[slots[i]].value.cleanup.value)
  {
    if hooks != [] {
      var n := |hooks| - 1;
      var h := hooks[..n];
      CleanupEventsInOrder(h);
      var pr, ps := CleanupEvents(h), CleanupSlots(h);
      var tr: seq<Event> := if HasCleanup(hooks[n]) then [CleanupRan(hooks[n].value.cleanup.value)] else [];
      var ts: seq<nat> := if HasCleanup(hooks[n]) then [n] else [];
      assert CleanupEvents(hooks) == pr + tr;
      assert CleanupSlots(hooks) == ps + ts;
      forall i | 0 <= i < |pr|
        ensures (pr + tr)[i] == CleanupRan(hooks[(ps + ts)[i]].value.cleanup.value)
      {
        assert ps[i] < n && h[ps[i]] == hooks[ps[i]];
      }
    }
  }

  /** One more slot adds its cleanup, if any, at the end. */
  lemma CleanupEventsStep(hooks: HookList, i: nat)
    requires i < |hooks|
    ensures CleanupEvents(hooks[..i + 1]) == CleanupEvents(hooks[..i])
      + if HasCleanup(hooks[i]) then [CleanupRan(hooks[i].value.cleanup.value)] else []
  {
    assert hooks[..i + 1][..i] == hooks[..i];
  }

  /** The slots holding a cleanup, in array order: each cleanup runs once, slot by slot. */
  function CleanupSlots(hooks: HookList): (r: seq<nat>)
    decreases |hooks|
    ensures forall i :: 0 <= i < |r| ==> r[i] < |hooks| && HasCleanup(hooks[r[i]])
    ensures forall j :: 0 <= j < |hooks| && HasCleanup(hooks[j]) ==> j in r
    ensures forall a, b :: 0 <= a < b < |r| ==> r[a] < r[b]
  {
    if hooks == [] then []
    else
      var n := |hooks| - 1;
      var prefix := CleanupSlots(hooks[..n]);
      assert forall j :: 0 <= j < n ==> hooks[..n][j] == hooks[j];
      prefix + if HasCleanup(hooks[n]) then [n] else []
  }

  /** `effect.setup() ?? undefined`: a null or undefined result means no cleanup. */
  function CleanupOf(v: Value): Option<Value> {
    if v == Undefined || v == Null then None else Some(v)
  }

  datatype EffectRun = EffectRun(hook: Hook, events: seq<Event>)

  /** Running one collected effect at commit: the old cleanup, if any, first; then the
      setup, whose result is the new cleanup. */
  function RunEffect(w: World, h: Hook): (r: EffectRun)
    requires h.EffectHook?
    ensures r.hook == h.(cleanup := CleanupOf(w.call(h.setup, [])))
    ensures r.events == (if h.cleanup.Some? then [CleanupRan(h.cleanup.value)] else []) + [SetupRan(h.setup)]
  {
    EffectRun(h.(cleanup := CleanupOf(w.call(h.setup, []))),
              (if h.cleanup.Some? then [CleanupRan(h.cleanup.value)] else []) + [SetupRan(h.setup)])
  }

  /** One render and commit of a component whose only hook is this effect. */
  function EffectPass(w: World, slot: Option<Hook>, setup: Value, deps: Option<seq<Value>>): Result<EffectRun> {
    var h :- UseEffectSlot(slot, setup, deps);
    if Due(Some(h)) then Ok(RunEffect(w, h)) else Ok(EffectRun(h, []))
  }

  /** Consecutive passes with the same deps and the given setups, concatenating the
      calls they make. */
  function EffectPasses(w: World, slot: Option<Hook>, setups: seq<Value>, deps: Option<seq<Value>>): Result<(Option<Hook>, seq<Event>)>
    decreases |setups|
  {
    if setups == [] then Ok((slot, []))
    else
      var p :- EffectPass(w, slot, setups[0], deps);
      var rest :- EffectPasses(w, Some(p.hook), setups[1..], deps);
      Ok((rest.0, p.events + rest.1))
  }

  /** The setups called in a log, in order. */
  function SetupsIn(log: seq<Event>): seq<Value>
    decreases |log|
  {
    if log == [] then [] else (if log[0].SetupRan? then [log[0].setup] else []) + SetupsIn(log[1..])
  }

  lemma {:induction false} SetupsInAppend(a: seq<Event>, b: seq<Event>)
    ensures SetupsIn(a + b) == SetupsIn(a) + SetupsIn(b)
    decreases |a|
  {
    if a == [] {
      assert a + b == b;
    } else {
      assert (a + b)[0] == a[0];
      assert (a + b)[1..] == a[1..] + b;
      SetupsInAppend(a[1..], b);
    }
  }

  /** Passes over an existing effect with empty deps call nothing and keep its cleanup. */
  lemma {:induction false} EmptyDepsPassesAreSilent(w: World, h: Hook, setups: seq<Value>)
    requires h.EffectHook? && h.effectDeps == Some([])
    ensures EffectPasses(w, Some(h), setups, Some([])).Ok?
    ensures EffectPasses(w, Some(h), setups, Some([])).value.1 == []
    ensures EffectPasses(w, Some(h), setups, Some([])).value.0.Some?
    ensures EffectPasses(w, Some(h), setups, Some([])).value.0.value.EffectHook?
    ensures EffectPasses(w, Some(h), setups, Some([])).value.0.value.cleanup == h.cleanup
    decreases |setups|
  {
    if setups != [] {
      var p := EffectPass(w, Some(h), setups[0], Some([])).value;
      assert p.events == [] && p.hook.effectDeps == Some([]) && p.hook.cleanup == h.cleanup;
      EmptyDepsPassesAreSilent(w, p.hook, setups[1..]);
    }
  }

  /** An effect with empty deps is set up once, on the first pass, and its only
      cleanup afterwards is the one that setup returned, run when the component goes. */
  lemma EmptyDepsEffectLifecycle(w: World, setups: seq<Value>)
    requires setups != []
    ensures EffectPasses(w, None, setups, Some([])).Ok?
    ensures EffectPasses(w, None, setups, Some([])).value.1 == [SetupRan(setups[0])]
    ensures EffectPasses(w, None, setups, Some([])).value.0.Some?
    ensures CleanupEvents([EffectPasses(w, None, setups, Some([])).value.0]) ==
              if CleanupOf(w.call(setups[0], [])).Some? then [CleanupRan(w.call(setups[0], []))] else []
  {
    var first := EffectPass(w, None, setups[0], Some([])).value;
    assert first.events == [SetupRan(setups[0])];
    assert first.hook.cleanup == CleanupOf(w.call(setups[0], []));
    EmptyDepsPassesAreSilent(w, first.hook, setups[1..]);
    var last := EffectPasses(w, None, setups, Some([])).value.0;
    assert last == EffectPasses(w, Some(first.hook), setups[1..], Some([])).value.0;
    assert [last][..0] == [];
    assert HasCleanup(last) <==> CleanupOf(w.call(setups[0], [])).Some?;
  }

  /** An effect without deps runs on every pass, each setup once and in order, and
      from the second pass on the previous pass's cleanup runs before it. */
  lemma {:induction false} NoDepsEffectRunsEveryPass(w: World, slot: Option<Hook>, setups: seq<Value>)
    requires slot.None? || slot.value.EffectHook?
    ensures EffectPasses(w, slot, setups, None).Ok?
    ensures SetupsIn(EffectPasses(w, slot, setups, None).value.1) == setups
    decreases |setups|
  {
    if setups != [] {
      var p := EffectPass(w, slot, setups[0], None).value;
      NoDepsEffectRunsEveryPass(w, Some(p.hook), setups[1..]);
      var rest := EffectPasses(w, Some(p.hook), setups[1..], None).value;
      SetupsInAppend(p.events, rest.1);
      assert SetupsIn(p.events) == [setups[0]] by {
        if slot.Some? && slot.value.cleanup.Some? {
          assert p.events == [CleanupRan(slot.value.cleanup.value), SetupRan(setups[0])];
          assert p.events[1..] == [SetupRan(setups[0])];
        } else {
          assert p.events == [SetupRan(setups[0])];
        }
      }
    }
  }

  /** The no-deps test: the first two passes log setup, cleanup, setup. */
  lemma NoDepsCleanupBeforeNextSetup(w: World, s0: Value, s1: Value)
    requires CleanupOf(w.call(s0, [])).Some?
    ensures EffectPasses(w, None, [s0, s1], None).Ok?
    ensures EffectPasses(w, None, [s0, s1], None).value.1 == [SetupRan(s0), CleanupRan(w.call(s0, [])), SetupRan(s1)]
  {
    assert [s0, s1][1..] == [s1];
    assert [s1][1..] == [];
    var p0 := EffectPass(w, None, s0, None).value;
    assert p0.events == [SetupRan(s0)];
    assert p0.hook.EffectHook? && p0.hook.cleanup == CleanupOf(w.call(s0, []));
    assert EffectPass(w, Some(p0.hook), s1, None).Ok?;
    var p1 := EffectPass(w, Some(p0.hook), s1, None).value;
    assert p1.events == [CleanupRan(w.call(s0, [])), SetupRan(s1)];
    assert EffectPasses(w, Some(p1.hook), [], None) == Ok((Some(p1.hook), []));
    assert EffectPasses(w, Some(p0.hook), [s1], None) == Ok((Some(p1.hook), p1.events + []));
  }

  // ---------------------------------------------------------------- rendering

  /** What one hook call leaves in its hook array and hands back to the component. */
  datatype CallOutcome = CallOutcome(hooks: HookList, result: HookResult, events: seq<Event>)

  /** The kind of hook object a hook call needs in its slot. */
  predicate SlotFits(call: HookCall, h: Hook) {
    match call
    case CallUseState(_) => h.StateHook?
    case CallUseMemo(_, _) => h.MemoHook?
    case CallUseCallback(_, _) => h.MemoHook?
    case CallUseEffect(_, _) => h.EffectHook?
  }

  /** One hook call of a rendering component on slot `slot` (its position in the
      render) of `hooks`, the array of the fiber being rendered, which is list `l` of
      the store; `None`: no fiber is being rendered. The slot rule of the call's kind
      decides the hook, which is written back to the slot; a state hook's setter is
      bound to that slot. */
  function HookStep(w: World, hooks: HookList, l: Option<nat>, slot: nat, call: HookCall): (r: Result<CallOutcome>)
    ensures l.None? ==> r == Err(NoWorkInProgress)
    ensures l.Some? ==> (r.Err? <==> SlotAt(hooks, slot).Some? && !SlotFits(call, SlotAt(hooks, slot).value))
    ensures l.Some? && r.Err? ==> r.fault == HookKindMismatch
    ensures r.Ok? ==>
      && |r.value.hooks| == (if slot < |hooks| then |hooks| else slot + 1)
      && r.value.hooks[slot].Some? && SlotFits(call, r.value.hooks[slot].value)
      && (forall j :: 0 <= j < |r.value.hooks| && j != slot ==> r.value.hooks[j] == SlotAt(hooks, j))
    ensures r.Ok? ==> (r.value.result.StateResult? <==> call.CallUseState?)
    ensures r.Ok? && r.value.result.StateResult? ==> r.value.result.setter == HookRef(l.value, slot)
  {
    if l.None? then Err(NoWorkInProgress)
    else
      var here := SlotAt(hooks, slot);
      match call
      case CallUseState(init) =>
        var o :- UseStateSlot(w, here, init);
        Ok(CallOutcome(SetSlot(hooks, slot, o.hook), StateResult(o.value, HookRef(l.value, slot)), o.events))
      case CallUseMemo(make, deps) =>
        var o :- UseMemoSlot(w, here, CallProducer(make), deps);
        Ok(CallOutcome(SetSlot(hooks, slot, o.hook), MemoResult(o.hook.value), o.events))
      case CallUseCallback(cb, deps) =>
        var o :- UseCallbackSlot(w, here, cb, deps);
        Ok(CallOutcome(SetSlot(hooks, slot, o.hook), MemoResult(o.hook.value), o.events))
      case CallUseEffect(setup, deps) =>
        var h :- UseEffectSlot(here, setup, deps);
        Ok(CallOutcome(SetSlot(hooks, slot, h), EffectResult, []))
  }

  /** List `l` of the hook store; nothing when no fiber is being rendered. */
  function ListAt(hls: seq<HookList>, l: Option<nat>): HookList {
    if l.Some? && l.value < |hls| then hls[l.value] else []
  }

  /** The hook store with list `l` replaced by `hooks`. */
  function WithList(hls: seq<HookList>, l: Option<nat>, hooks: HookList): seq<HookList> {
    if l.Some? && l.value < |hls| then hls[l.value := hooks] else hls
  }

  /** Where a render of a function component stops: its hook array, what its hook
      calls returned, the calls it made, and its child or the fault that ended it. */
  datatype RenderRun = RenderRun(hooks: HookList, results: seq<HookResult>, events: seq<Event>, outcome: Result<Node>)

  /** The rest of a render after hook calls that returned `results`, made `events`
      and left the hook array as `hooks`: the component either returns its child or
      makes its next hook call, which lands on the next slot. */
  function RenderComponentFrom(w: World, c: Ref, props: Props, l: Option<nat>, hooks: HookList,
                      results: seq<HookResult>, events: seq<Event>): RenderRun
    requires |results| <= w.hookLimit
    decreases w.hookLimit - |results|
  {
    var step := w.body(c, props, results);
    if step.Return? then RenderRun(hooks, results, events, Ok(step.child))
    else if |results| == w.hookLimit then RenderRun(hooks, results, events, Err(HookLimit))
    else
      var o := HookStep(w, hooks, l, |results|, step.call);
      if o.Err? then RenderRun(hooks, results, events, Err(o.fault))
      else RenderComponentFrom(w, c, props, l, o.value.hooks, results + [o.value.result], events + o.value.events)
  }

  /** `_updateFunctionComponent`'s call `fiber.type(fiber.props)`, with the hook index
      reset: hook call `j` lands on slot `j` of the array `hooks` of list `l`. */
  function RenderComponent(w: World, c: Ref, props: Props, l: Option<nat>, hooks: HookList): (r: RenderRun)
    ensures |r.results| <= w.hookLimit
    ensures forall j :: 0 <= j < |r.results| ==> w.body(c, props, r.results[..j]).UseHook?
    ensures r.outcome.Ok? ==> w.body(c, props, r.results) == Return(r.outcome.value)
    ensures r.outcome.Err? ==>
      || (r.outcome.fault == HookLimit && |r.results| == w.hookLimit)
      || (r.outcome.fault == NoWorkInProgress && l.None?)
      || r.outcome.fault == HookKindMismatch
  {
    RenderFromOutcome(w, c, props, l, hooks, [], []);
    RenderComponentFrom(w, c, props, l, hooks, [], [])
  }

  lemma {:induction false} RenderFromOutcome(w: World, c: Ref, props: Props, l: Option<nat>, hooks: HookList,
                                            results: seq<HookResult>, events: seq<Event>)
    requires |results| <= w.hookLimit
    requires forall j :: 0 <= j < |results| ==> w.body(c, props, results[..j]).UseHook?
    ensures var r := RenderComponentFrom(w, c, props, l, hooks, results, events);
      && |results| <= |r.results| <= w.hookLimit && r.results[..|results|] == results
      && (forall j :: 0 <= j < |r.results| ==> w.body(c, props, r.results[..j]).UseHook?)
      && (r.outcome.Ok? ==> w.body(c, props, r.results) == Return(r.outcome.value))
      && (r.outcome.Err? ==>
            || (r.outcome.fault == HookLimit && |r.results| == w.hookLimit)
            || (r.outcome.fault == NoWorkInProgress && l.None?)
            || r.outcome.fault == HookKindMismatch)
    decreases w.hookLimit - |results|
  {
    var step := w.body(c, props, results);
    if step.UseHook? && |results| < w.hookLimit {
      var o := HookStep(w, hooks, l, |results|, step.call);
      if o.Ok? {
        var more := results + [o.value.result];
        forall j | 0 <= j < |more| ensures w.body(c, props, more[..j]).UseHook? {
          if j < |results| { assert more[..j] == results[..j]; } else { assert more[..j] == results; }
        }
        RenderFromOutcome(w, c, props, l, o.value.hooks, more, events + o.value.events);
        var r := RenderComponentFrom(w, c, props, l, o.value.hooks, more, events + o.value.events);
        assert r.results[..|results|] == r.results[..|more|][..|results|];
      }
    }
  }

  /** Hook identity by call order: after a render, slot `j` holds a hook of the kind
      hook call `j` needs, and a state result hands out the setter of slot `j`; the
      slots no call of this render reached are as they were. */
  lemma RenderSlots(w: World, c: Ref, props: Props, l: Option<nat>, hooks: HookList)
    ensures var r := RenderComponent(w, c, props, l, hooks);
      && |r.hooks| >= |hooks|
      && (forall j :: |r.results| <= j < |hooks| ==> r.hooks[j] == hooks[j])
      && (forall j :: 0 <= j < |r.results| ==>
            var call := w.body(c, props, r.results[..j]).call;
            && j < |r.hooks| && r.hooks[j].Some? && SlotFits(call, r.hooks[j].value)
            && (r.results[j].StateResult? <==> call.CallUseState?)
            && (r.results[j].StateResult? ==> l.Some? && r.results[j].setter == HookRef(l.value, j)))
  {
    RenderFromSlots(w, c, props, l, hooks, [], []);
  }

  lemma {:induction false} RenderFromSlots(w: World, c: Ref, props: Props, l: Option<nat>, hooks: HookList,
                                          results: seq<HookResult>, events: seq<Event>)
    requires |results| <= w.hookLimit
    ensures var r := RenderComponentFrom(w, c, props, l, hooks, results, events);
      && |r.hooks| >= |hooks| && |r.results| >= |results| && r.results[..|results|] == results
      && (forall j :: 0 <= j < |hooks| && !(|results| <= j < |r.results|) ==> r.hooks[j] == hooks[j])
      && (forall j :: |results| <= j < |r.results| ==>
            w.body(c, props, r.results[..j]).UseHook? &&
            var call := w.body(c, props, r.results[..j]).call;
            && j < |r.hooks| && r.hooks[j].Some? && SlotFits(call, r.hooks[j].value)
            && (r.results[j].StateResult? <==> call.CallUseState?)
            && (r.results[j].StateResult? ==> l.Some? && r.results[j].setter == HookRef(l.value, j)))
    decreases w.hookLimit - |results|
  {
    var step := w.body(c, props, results);
    if step.UseHook? && |results| < w.hookLimit {
      var o := HookStep(w, hooks, l, |results|, step.call);
      if o.Ok? {
        var more := results + [o.value.result];
        RenderFromSlots(w, c, props, l, o.value.hooks, more, events + o.value.events);
        var r := RenderComponentFrom(w, c, props, l, o.value.hooks, more, events + o.value.events);
        assert r.results[..|results|] == r.results[..|more|][..|results|];
        var n := |results|;
        assert r.results[..n] == results;
        assert r.results[n] == r.results[..|more|][n] == o.value.result;
        assert n < |o.value.hooks| && r.hooks[n] == o.value.hooks[n];
        assert r.results[..n] == results && w.body(c, props, r.results[..n]) == step;
      }
    }
  }

  /** A first render, on an empty hook array, never finds a slot of the wrong kind:
      each call lands on a hole. */
  lemma FirstRenderFits(w: World, c: Ref, props: Props, l: Option<nat>)
    ensures RenderComponent(w, c, props, l, []).outcome != Err(HookKindMismatch)
  {
    FreshSlotsFit(w, c, props, l, [], [], []);
  }

  lemma {:induction false} FreshSlotsFit(w: World, c: Ref, props: Props, l: Option<nat>, hooks: HookList,
                                        results: seq<HookResult>, events: seq<Event>)
    requires |results| <= w.hookLimit && |hooks| <= |results|
    ensures RenderComponentFrom(w, c, props, l, hooks, results, events).outcome != Err(HookKindMismatch)
    decreases w.hookLimit - |results|
  {
    var step := w.body(c, props, results);
    if step.UseHook? && |results| < w.hookLimit {
      var o := HookStep(w, hooks, l, |results|, step.call);
      if o.Ok? {
        FreshSlotsFit(w, c, props, l, o.value.hooks, results + [o.value.result], events + o.value.events);
      }
    }
  }
}
