/** `_commitWork` as functions of the state it reads: the host calls and effect
    collection of one intent, the commit loop read literally, and what the loop
    amounts to on a well-formed intent chain. */
module Commit {
  import opened Values
  import opened PropsDiff
  import opened Foreign
  import opened Hooks
  import opened Fibers

  /** Two well-formed arenas over the same hook arrays that differ at most in
      intents and intent links; the host lookups cannot tell them apart. */
  predicate SameShape(fs: seq<Fiber>, fs': seq<Fiber>, hls: seq<HookList>) {
    LinksOk(fs) && LinksOk(fs') && HooksOk(fs, hls) && HooksOk(fs', hls)
    && |fs'| == |fs| && forall i :: 0 <= i < |fs| ==> Shape(fs'[i]) == Shape(fs[i])
  }

  // ------------------------------------------------------------ stability

  lemma {:induction false} NearestDomStable(fs: seq<Fiber>, fs': seq<Fiber>, hls: seq<HookList>, p: Option<FiberId>)
    requires SameShape(fs, fs', hls) && InArena(p, |fs|)
    ensures NearestDom(fs', p) == NearestDom(fs, p)
    decreases if p.Some? then p.value + 1 else 0
  {
    if p.Some? {
      assert Shape(fs'[p.value]) == Shape(fs[p.value]);
      NearestDomStable(fs, fs', hls, fs[p.value].parent);
    }
  }

  lemma {:induction false} FirstDomStable(fs: seq<Fiber>, fs': seq<Fiber>, hls: seq<HookList>, f: FiberId, fuel: nat)
    requires SameShape(fs, fs', hls) && f < |fs|
    ensures FirstDom(fs', f, fuel) == FirstDom(fs, f, fuel)
    decreases fuel, 1
  {
    assert Shape(fs'[f]) == Shape(fs[f]);
    FirstDomAmongStable(fs, fs', hls, fs[f].child, fuel);
  }

  lemma {:induction false} FirstDomAmongStable(fs: seq<Fiber>, fs': seq<Fiber>, hls: seq<HookList>, c: Option<FiberId>, fuel: nat)
    requires SameShape(fs, fs', hls) && InArena(c, |fs|)
    ensures FirstDomAmong(fs', c, fuel) == FirstDomAmong(fs, c, fuel)
    decreases fuel, 0
  {
    if c.Some? && fuel > 0 {
      assert Shape(fs'[c.value]) == Shape(fs[c.value]);
      FirstDomStable(fs, fs', hls, c.value, fuel - 1);
      FirstDomAmongStable(fs, fs', hls, fs[c.value].sibling, fuel - 1);
    }
  }

  lemma {:induction false} SiblingDomStable(fs: seq<Fiber>, fs': seq<Fiber>, hls: seq<HookList>, f: FiberId, fuel: nat)
    requires SameShape(fs, fs', hls) && f < |fs|
    ensures SiblingDom(fs', f, fuel) == SiblingDom(fs, f, fuel)
    decreases f
  {
    assert Shape(fs'[f]) == Shape(fs[f]);
    var alt := fs[f].alternate;
    if alt.Some? {
      assert Shape(fs'[alt.value]) == Shape(fs[alt.value]);
    }
    FirstDomAmongStable(fs, fs', hls, if alt.Some? then fs[alt.value].sibling else None, fuel);
    if fs[f].parent.Some? {
      assert Shape(fs'[fs[f].parent.value]) == Shape(fs[fs[f].parent.value]);
      SiblingDomStable(fs, fs', hls, fs[f].parent.value, fuel);
    }
  }

  lemma {:induction false} RemoveEventsStable(fs: seq<Fiber>, fs': seq<Fiber>, hls: seq<HookList>, f: FiberId, parentDom: DomId, fuel: nat)
    requires SameShape(fs, fs', hls) && f < |fs|
    ensures RemoveEvents(fs', hls, f, parentDom, fuel) == RemoveEvents(fs, hls, f, parentDom, fuel)
    decreases fuel, 1
  {
    assert Shape(fs'[f]) == Shape(fs[f]);
    RemoveAmongStable(fs, fs', hls, fs[f].child, parentDom, fuel);
  }

  lemma {:induction false} RemoveAmongStable(fs: seq<Fiber>, fs': seq<Fiber>, hls: seq<HookList>, c: Option<FiberId>, parentDom: DomId, fuel: nat)
    requires SameShape(fs, fs', hls) && InArena(c, |fs|)
    ensures RemoveAmong(fs', hls, c, parentDom, fuel) == RemoveAmong(fs, hls, c, parentDom, fuel)
    decreases fuel, 0
  {
    if c.Some? && fuel > 0 {
      assert Shape(fs'[c.value]) == Shape(fs[c.value]);
      RemoveEventsStable(fs, fs', hls, c.value, parentDom, fuel - 1);
      RemoveAmongStable(fs, fs', hls, fs[c.value].sibling, parentDom, fuel - 1);
    }
  }

  // ------------------------------------------------------------ one intent

  /** `_getParentDom(f)`: the nearest dom up the return path. Where there is none the
      source's loop never ends. */
  function ParentDom(fs: seq<Fiber>, f: FiberId): Result<DomId>
    requires LinksOk(fs) && f < |fs|
  {
    var d := NearestDom(fs, fs[f].parent);
    if d.Some? then Ok(d.value) else Err(Diverges)
  }

  /** `dom instanceof HTMLElement` and `dom instanceof Text`. */
  predicate IsElementDom(hs: seq<HostObj>, d: Option<DomId>) {
    d.Some? && d.value < |hs| && hs[d.value].HostElement?
  }

  predicate IsTextDom(hs: seq<HostObj>, d: Option<DomId>) {
    d.Some? && d.value < |hs| && hs[d.value].HostTextNode?
  }

  /** The host calls of one step of the commit loop and the effect hooks it collects. */
  datatype StepOut = StepOut(events: seq<Event>, refs: seq<HookRef>)

  /** The `switch (curr.effectTag)` of `_commitWork` for fiber `x` of arena `fs`, host
      objects `hs` and hook arrays `hls`. An added fiber's element gets all its props,
      then its dom is inserted under the parent dom before the sibling dom; an updated
      fiber's text is set or its element patched against its alternate's props; a
      removed fiber's subtree leaves the parent dom; every fiber except a removed one
      contributes its due effects. */
  function CommitStep(fs: seq<Fiber>, hs: seq<HostObj>, hls: seq<HookList>, x: FiberId): Result<StepOut>
    requires LinksOk(fs) && HooksOk(fs, hls) && x < |fs|
  {
    var f := fs[x];
    match f.effectTag
    case Some(Add) =>
      var patch := if IsElementDom(hs, f.dom) then [Patched(f.dom.value, DiffProps(NoProps, f.props))] else [];
      if f.dom.None? then Ok(StepOut(patch, DueRefs(hls, f.hooks)))
      else
        var parent :- ParentDom(fs, x);
        var before :- SiblingDom(fs, x, |fs|);
        Ok(StepOut(patch + [Inserted(parent, f.dom.value, before)], DueRefs(hls, f.hooks)))
    case Some(Update) =>
      var events :=
        if IsTextDom(hs, f.dom) then [TextSet(f.dom.value, Get(f.props.attrs, "nodeValue"))]
        else if IsElementDom(hs, f.dom) then
          [Patched(f.dom.value, DiffProps(if f.alternate.Some? then fs[f.alternate.value].props else NoProps, f.props))]
        else [];
      Ok(StepOut(events, DueRefs(hls, f.hooks)))
    case Some(Remove) =>
      var parent :- ParentDom(fs, x);
      var events :- RemoveEvents(fs, hls, x, parent, |fs|);
      Ok(StepOut(events, []))
    case None => Ok(StepOut([], DueRefs(hls, f.hooks)))
  }

  /** A step reads no intent but the fiber's own. */
  lemma CommitStepStable(fs: seq<Fiber>, fs': seq<Fiber>, hs: seq<HostObj>, hls: seq<HookList>, x: FiberId)
    requires SameShape(fs, fs', hls) && x < |fs| && fs'[x].effectTag == fs[x].effectTag
    ensures CommitStep(fs', hs, hls, x) == CommitStep(fs, hs, hls, x)
  {
    assert Shape(fs'[x]) == Shape(fs[x]);
    NearestDomStable(fs, fs', hls, fs[x].parent);
    SiblingDomStable(fs, fs', hls, x, |fs|);
    if fs[x].alternate.Some? {
      assert Shape(fs'[fs[x].alternate.value]) == Shape(fs[fs[x].alternate.value]);
    }
    var p := ParentDom(fs, x);
    if p.Ok? {
      RemoveEventsStable(fs, fs', hls, x, p.value, |fs|);
    }
  }

  /** The host calls of a step are host calls or cleanups: no setup runs during the
      loop. An inserted dom goes under the nearest dom up the return path, before
      the dom of a host fiber or at the end; a removal detaches only from that same
      parent dom. */
  lemma CommitStepShape(fs: seq<Fiber>, hs: seq<HostObj>, hls: seq<HookList>, x: FiberId)
    requires LinksOk(fs) && HooksOk(fs, hls) && x < |fs|
    ensures var s := CommitStep(fs, hs, hls, x);
      s.Ok? ==> forall e :: e in s.value.events ==> IsHostCall(e) || e.CleanupRan?
    ensures var s := CommitStep(fs, hs, hls, x);
      s.Ok? ==> forall e :: e in s.value.events && (e.Inserted? || e.RemovedChild?) ==>
        Some(e.parent) == NearestDom(fs, fs[x].parent)
    ensures var s := CommitStep(fs, hs, hls, x);
      s.Ok? && fs[x].effectTag == Some(Add) && fs[x].dom.Some? ==>
        && Inserted(ParentDom(fs, x).value, fs[x].dom.value, SiblingDom(fs, x, |fs|).value) in s.value.events
        && var before := SiblingDom(fs, x, |fs|).value;
           before.Some? ==> exists y :: 0 <= y < |fs| && IsHostFiber(fs[y]) && fs[y].dom == before
  {
    if fs[x].effectTag == Some(Remove) {
      var p := ParentDom(fs, x);
      if p.Ok? {
        RemoveEventsShape(fs, hls, x, p.value, |fs|);
      }
    } else if fs[x].effectTag == Some(Add) {
      SiblingDomIsHostDom(fs, x, |fs|);
    }
  }

  // ------------------------------------------------------------ the loop

  /** `_commitWork`'s `tmp.effectTag = null; tmp.nextEffect = null`. */
  function ClearIntent(fs: seq<Fiber>, hls: seq<HookList>, x: FiberId): (r: seq<Fiber>)
    requires LinksOk(fs) && HooksOk(fs, hls) && x < |fs|
    ensures SameShape(fs, r, hls) && r[x].effectTag.None? && r[x].nextEffect.None?
    ensures forall i :: 0 <= i < |fs| && i != x ==> r[i] == fs[i]
    ensures LinkedCount(r) + (if fs[x].nextEffect.Some? then 1 else 0) == LinkedCount(fs)
  {
    var r := fs[x := fs[x].(effectTag := None, nextEffect := None)];
    LinkedCountUpdate(fs, x, r[x]);
    r
  }

  /** The arena, host calls and collected effects a commit ends with. */
  datatype Committed = Committed(fibers: seq<Fiber>, events: seq<Event>, refs: seq<HookRef>)

  /** The loop of `_commitWork` from `curr`, read literally: each step reads the next
      intent link before clearing the fiber's own. It ends because every step either
      clears a link or ends the walk; on a chain that comes back to a fiber, the
      loop stops at the second visit, whose link is already cleared. */
  function CommitLoop(fs: seq<Fiber>, hs: seq<HostObj>, hls: seq<HookList>, curr: Option<FiberId>): Result<Committed>
    requires LinksOk(fs) && HooksOk(fs, hls) && InArena(curr, |fs|)
    decreases LinkedCount(fs) + (if curr.Some? then 1 else 0)
  {
    if curr.None? then Ok(Committed(fs, [], []))
    else
      var x := curr.value;
      var step :- CommitStep(fs, hs, hls, x);
      var rest :- CommitLoop(ClearIntent(fs, hls, x), hs, hls, fs[x].nextEffect);
      Ok(Committed(rest.fibers, step.events + rest.events, step.refs + rest.refs))
  }

  /** A commit's outcome with the host calls and effects of earlier steps in front. */
  function After(events: seq<Event>, refs: seq<HookRef>, c: Result<Committed>): Result<Committed> {
    if c.Err? then c else Ok(Committed(c.value.fibers, events + c.value.events, refs + c.value.refs))
  }

  /** One turn of the loop: a failing step fails the commit; otherwise its calls and
      effects come first and the loop goes on from the fiber's old link. */
  lemma CommitLoopUnfold(fs: seq<Fiber>, hs: seq<HostObj>, hls: seq<HookList>, x: FiberId, events: seq<Event>, refs: seq<HookRef>)
    requires LinksOk(fs) && HooksOk(fs, hls) && x < |fs|
    ensures CommitStep(fs, hs, hls, x).Err? ==> CommitLoop(fs, hs, hls, Some(x)).Err?
    ensures var s := CommitStep(fs, hs, hls, x);
      s.Ok? ==>
        After(events, refs, CommitLoop(fs, hs, hls, Some(x)))
        == After(events + s.value.events, refs + s.value.refs, CommitLoop(ClearIntent(fs, hls, x), hs, hls, fs[x].nextEffect))
  {
    var s := CommitStep(fs, hs, hls, x);
    if s.Ok? {
      var rest := CommitLoop(ClearIntent(fs, hls, x), hs, hls, fs[x].nextEffect);
      if rest.Ok? {
        assert events + (s.value.events + rest.value.events) == events + s.value.events + rest.value.events;
        assert refs + (s.value.refs + rest.value.refs) == refs + s.value.refs + rest.value.refs;
      }
    }
  }

  /** Removal events with those of earlier siblings in front. */
  function AfterEvents(events: seq<Event>, e: Result<seq<Event>>): Result<seq<Event>> {
    if e.Err? then e else Ok(events + e.value)
  }

  /** One turn of `_removeDom`'s loop over children. */
  lemma RemoveAmongUnfold(fs: seq<Fiber>, hls: seq<HookList>, c: FiberId, parentDom: DomId, fuel: nat, events: seq<Event>)
    requires LinksOk(fs) && HooksOk(fs, hls) && c < |fs| && fuel > 0
    ensures RemoveEvents(fs, hls, c, parentDom, fuel - 1).Err? ==> RemoveAmong(fs, hls, Some(c), parentDom, fuel).Err?
    ensures var here := RemoveEvents(fs, hls, c, parentDom, fuel - 1);
      here.Ok? ==>
        AfterEvents(events, RemoveAmong(fs, hls, Some(c), parentDom, fuel))
        == AfterEvents(events + here.value, RemoveAmong(fs, hls, fs[c].sibling, parentDom, fuel - 1))
  {
    var here := RemoveEvents(fs, hls, c, parentDom, fuel - 1);
    if here.Ok? {
      var rest := RemoveAmong(fs, hls, fs[c].sibling, parentDom, fuel - 1);
      if rest.Ok? {
        assert events + (here.value + rest.value) == events + here.value + rest.value;
      }
    }
  }

  /** The steps for the fibers `E` in order, all reading the arena `fs`. */
  function CommitAll(fs: seq<Fiber>, hs: seq<HostObj>, hls: seq<HookList>, E: seq<FiberId>): Result<StepOut>
    requires LinksOk(fs) && HooksOk(fs, hls) && forall i :: 0 <= i < |E| ==> E[i] < |fs|
    decreases |E|
  {
    if E == [] then Ok(StepOut([], []))
    else
      var s :- CommitStep(fs, hs, hls, E[0]);
      var rest :- CommitAll(fs, hs, hls, E[1..]);
      Ok(StepOut(s.events + rest.events, s.refs + rest.refs))
  }

  /** `fs` with the intents of all of `E` cleared. */
  function ClearAll(fs: seq<Fiber>, E: seq<FiberId>): seq<Fiber>
    requires forall i :: 0 <= i < |E| ==> E[i] < |fs|
    decreases |E|
  {
    if E == [] then fs
    else ClearAll(fs[E[0] := fs[E[0]].(effectTag := None, nextEffect := None)], E[1..])
  }

  /** The fibers `E` of `fs`, in order, link to one another by `nextEffect` and the
      last to nothing, and none occurs twice. */
  predicate Listed(fs: seq<Fiber>, E: seq<FiberId>) {
    (forall i :: 0 <= i < |E| ==> E[i] < |fs|) && Distinct(E)
    && (forall i :: 0 <= i < |E| - 1 ==> fs[E[i]].nextEffect == Some(E[i + 1]))
    && (E != [] ==> fs[E[|E| - 1]].nextEffect.None?)
  }

  function Head(E: seq<FiberId>): Option<FiberId> {
    if E == [] then None else Some(E[0])
  }

  lemma {:induction false} CommitListed(fs0: seq<Fiber>, fs: seq<Fiber>, hs: seq<HostObj>, hls: seq<HookList>, E: seq<FiberId>)
    requires SameShape(fs0, fs, hls) && Listed(fs, E)
    requires forall i :: 0 <= i < |E| ==> fs[E[i]].effectTag == fs0[E[i]].effectTag
    ensures var c := CommitLoop(fs, hs, hls, Head(E)); var a := CommitAll(fs0, hs, hls, E);
      && c.Ok? == a.Ok?
      && (c.Ok? ==> c.value.events == a.value.events && c.value.refs == a.value.refs && c.value.fibers == ClearAll(fs, E))
    decreases |E|
  {
    if E != [] {
      var x := E[0];
      CommitStepStable(fs0, fs, hs, hls, x);
      var fs' := ClearIntent(fs, hls, x);
      assert fs' == fs[x := fs[x].(effectTag := None, nextEffect := None)];
      var E' := E[1..];
      forall i | 0 <= i < |E'| ensures E'[i] != x && fs'[E'[i]] == fs[E'[i]] {
        assert E'[i] == E[i + 1];
      }
      assert Listed(fs', E') by {
        forall i | 0 <= i < |E'| - 1 ensures fs'[E'[i]].nextEffect == Some(E'[i + 1]) {
          assert E'[i] == E[i + 1] && E'[i + 1] == E[i + 2];
        }
        if E' != [] {
          assert E'[|E'| - 1] == E[|E| - 1];
        }
      }
      assert SameShape(fs0, fs', hls) by {
        forall i | 0 <= i < |fs0| ensures Shape(fs'[i]) == Shape(fs0[i]) {
          assert Shape(fs[i]) == Shape(fs0[i]);
        }
      }
      assert Head(E') == fs[x].nextEffect by {
        if |E| > 1 {
          assert fs[E[0]].nextEffect == Some(E[1]);
        }
      }
      CommitListed(fs0, fs', hs, hls, E');
    }
  }

  /** On a well-formed intent chain the commit loop is one `CommitStep` per fiber of
      the chain, in chain order, each reading the arena as it was before the
      commit; the fibers of the chain end with no intent and no intent link, and
      nothing else in the arena changes. */
  lemma CommitFollowsChain(fs: seq<Fiber>, hs: seq<HostObj>, hls: seq<HookList>, first: Option<FiberId>, last: Option<FiberId>, E: seq<FiberId>)
    requires LinksOk(fs) && HooksOk(fs, hls) && ChainOk(fs, first, last, E)
    ensures var c := CommitLoop(fs, hs, hls, first); var a := CommitAll(fs, hs, hls, E);
      && c.Ok? == a.Ok?
      && (c.Ok? ==> c.value.events == a.value.events && c.value.refs == a.value.refs && c.value.fibers == ClearAll(fs, E))
  {
    assert Head(E) == first;
    CommitListed(fs, fs, hs, hls, E);
  }

  /** Clearing the intents of `E` clears exactly those fibers' intents and links. */
  lemma {:induction false} ClearAllClears(fs: seq<Fiber>, E: seq<FiberId>)
    requires forall i :: 0 <= i < |E| ==> E[i] < |fs|
    ensures |ClearAll(fs, E)| == |fs|
    ensures forall i :: 0 <= i < |fs| ==> Shape(ClearAll(fs, E)[i]) == Shape(fs[i])
    ensures forall i :: 0 <= i < |E| ==> ClearAll(fs, E)[E[i]].effectTag.None? && ClearAll(fs, E)[E[i]].nextEffect.None?
    ensures forall i :: 0 <= i < |fs| && i !in E ==> ClearAll(fs, E)[i] == fs[i]
    decreases |E|
  {
    if E != [] {
      var fs' := fs[E[0] := fs[E[0]].(effectTag := None, nextEffect := None)];
      ClearAllClears(fs', E[1..]);
      var r := ClearAll(fs, E);
      forall i | 0 <= i < |E| ensures r[E[i]].effectTag.None? && r[E[i]].nextEffect.None? {
        if i > 0 {
          assert E[i] == E[1..][i - 1];
        } else if E[0] in E[1..] {
          var j :| 0 <= j < |E[1..]| && E[1..][j] == E[0];
        }
      }
    }
  }

  /** During the loop no setup runs: every call is a host mutation or a cleanup. */
  lemma {:induction false} CommitAllShape(fs: seq<Fiber>, hs: seq<HostObj>, hls: seq<HookList>, E: seq<FiberId>)
    requires LinksOk(fs) && HooksOk(fs, hls) && forall i :: 0 <= i < |E| ==> E[i] < |fs|
    ensures CommitAll(fs, hs, hls, E).Ok? ==> forall e :: e in CommitAll(fs, hs, hls, E).value.events ==> IsHostCall(e) || e.CleanupRan?
    decreases |E|
  {
    if E != [] {
      CommitStepShape(fs, hs, hls, E[0]);
      CommitAllShape(fs, hs, hls, E[1..]);
    }
  }

  /** The same for the loop as read literally, chain well formed or not. */
  lemma {:induction false} CommitLoopShape(fs: seq<Fiber>, hs: seq<HostObj>, hls: seq<HookList>, curr: Option<FiberId>)
    requires LinksOk(fs) && HooksOk(fs, hls) && InArena(curr, |fs|)
    ensures CommitLoop(fs, hs, hls, curr).Ok? ==> forall e :: e in CommitLoop(fs, hs, hls, curr).value.events ==> IsHostCall(e) || e.CleanupRan?
    decreases LinkedCount(fs) + (if curr.Some? then 1 else 0)
  {
    if curr.Some? {
      var x := curr.value;
      CommitStepShape(fs, hs, hls, x);
      CommitLoopShape(ClearIntent(fs, hls, x), hs, hls, fs[x].nextEffect);
    }
  }

  /** The events of a whole commit: the loop's host calls, then the effect phase.
      No host mutation comes after a setup: every effect sees the finished host tree. */
  lemma CommitThenEffects(w: World, fs: seq<Fiber>, hs: seq<HostObj>, hls: seq<HookList>, first: Option<FiberId>)
    requires LinksOk(fs) && HooksOk(fs, hls) && InArena(first, |fs|)
    requires CommitLoop(fs, hs, hls, first).Ok?
    ensures var c := CommitLoop(fs, hs, hls, first).value;
      var T := c.events + RunEffects(w, hls, c.refs).events;
      && (forall i, j :: 0 <= i < j < |T| && T[i].SetupRan? ==> !IsHostCall(T[j]))
      && SetupsIn(T) == SetupsOf(hls, c.refs)
  {
    var c := CommitLoop(fs, hs, hls, first).value;
    var R := RunEffects(w, hls, c.refs).events;
    CommitLoopShape(fs, hs, hls, first);
    RunEffectsShape(w, hls, c.refs);
    SetupsAfterHostCalls(c.events, R);
    SetupsInAppend(c.events, R);
    NoSetupsIn(c.events);
  }

  /** Host calls and cleanups, then cleanups and setups: no host call follows a setup. */
  lemma SetupsAfterHostCalls(a: seq<Event>, b: seq<Event>)
    requires forall e :: e in a ==> IsHostCall(e) || e.CleanupRan?
    requires forall e :: e in b ==> e.CleanupRan? || e.SetupRan?
    ensures forall i, j :: 0 <= i < j < |a + b| && (a + b)[i].SetupRan? ==> !IsHostCall((a + b)[j])
  {
    var T := a + b;
    forall k | 0 <= k < |a| ensures !T[k].SetupRan? {
      assert T[k] == a[k] && a[k] in a;
    }
    forall i, j | 0 <= i < j < |T| && T[i].SetupRan? ensures !IsHostCall(T[j]) {
      assert T[j] == b[j - |a|] && b[j - |a|] in b;
    }
  }

  lemma {:induction false} NoSetupsIn(events: seq<Event>)
    requires forall e :: e in events ==> IsHostCall(e) || e.CleanupRan?
    ensures SetupsIn(events) == []
    decreases |events|
  {
    if events != [] {
      assert events[0] in events;
      forall e | e in events[1..] ensures IsHostCall(e) || e.CleanupRan? {
        var k :| 0 <= k < |events[1..]| && events[1..][k] == e;
        assert events[k + 1] == e;
      }
      NoSetupsIn(events[1..]);
    }
  }
}
