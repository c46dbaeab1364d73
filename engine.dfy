/** The reconciler's mutable state and its operations: the fiber arena, the hook
    arrays, the host objects and the module-level variables, updated in place as
    the source does. Every call the engine makes into user code or the host is
    appended to `trace`. */
module Reconciler {
  import opened Values
  import opened Elements
  import opened PropsDiff
  import opened Foreign
  import opened Hooks
  import opened Fibers
  import opened Commit

  predicate DomIn(d: Option<DomId>, n: nat) {
    d.None? || d.value < n
  }

  /** A function component's type is a component function. */
  predicate TypeOk(f: Fiber) {
    f.tag == FunctionComponent ==> f.ftype.ComponentType?
  }

  /** A fiber that may sit at index `i` of an arena of `n` fibers, `nh` hook arrays
      and `nd` host objects. */
  predicate Fits(f: Fiber, i: nat, n: nat, nh: nat, nd: nat) {
    InArena(f.child, n) && InArena(f.sibling, n) && InArena(f.nextEffect, n) && InArena(f.alternate, n)
    && (f.parent.Some? ==> f.parent.value < i) && f.hooks < nh && DomIn(f.dom, nd) && TypeOk(f)
  }

  /** The fiber `render(el, dom)` makes: a root for `dom` whose only child is `el`,
      matched against the current root `alt`, with the new hook array `hooks`. */
  function RootFor(el: Element, dom: DomId, alt: Option<FiberId>, hooks: nat): (g: Fiber)
    ensures g.tag == Root && g.ftype == RootType && g.key == el.key && g.props.children == [NElement(el)]
    ensures g.dom == Some(dom) && g.alternate == alt && g.hooks == hooks && !g.visited
    ensures g.child.None? && g.sibling.None? && g.parent.None? && g.effectTag.None? && g.nextEffect.None?
  {
    Fiber(el.key, Root, RootType, Props(map[], [NElement(el)]), hooks, 0, false,
          None, None, None, Some(dom), None, None, alt)
  }

  /** The work-in-progress root the state setter makes from the current root `cur`:
      a copy of it (sharing its hook array, props and dom) that is an unvisited root
      with no child and no sibling, matched against `cur`. With no current root it
      is a blank root with the new hook array `hooks`. */
  function RootCopy(fs: seq<Fiber>, cur: Option<FiberId>, hooks: nat): (g: Fiber)
    requires InArena(cur, |fs|)
    ensures g.tag == Root && g.ftype == RootType && !g.visited && g.child.None? && g.sibling.None?
    ensures g.alternate == cur
    ensures cur.Some? ==>
      g.props == fs[cur.value].props && g.dom == fs[cur.value].dom
      && g.hooks == fs[cur.value].hooks && g.key == fs[cur.value].key
    ensures cur.None? ==> g.hooks == hooks && g.dom.None? && g.props == NoProps
  {
    if cur.Some? then
      fs[cur.value].(tag := Root, ftype := RootType, visited := false, child := None, sibling := None, alternate := cur)
    else BlankFiber(Root, RootType, hooks)
  }

  class Engine {
    /** The user code the engine calls. */
    const world: World
    var fibers: seq<Fiber>
    var hookLists: seq<HookList>
    var hosts: seq<HostObj>
    var trace: seq<Event>
    var nextUnitOfWork: Option<FiberId>
    var currentRoot: Option<FiberId>
    var wipRoot: Option<FiberId>
    var firstEffect: Option<FiberId>
    var lastEffect: Option<FiberId>
    var hookIndex: int
    /** The `_scheduleEffect` calls since the intent chain was last reset, in order. */
    ghost var scheduled: seq<Intent>

    /** Every link names an arena entry, hook arrays and host objects exist, and the
        module-level variables name fibers of the arena. */
    ghost predicate Valid()
      reads this
    {
      LinksOk(fibers) && HooksOk(fibers, hookLists)
      && (forall i :: 0 <= i < |fibers| ==> DomIn(fibers[i].dom, |hosts|) && TypeOk(fibers[i]))
      && InArena(nextUnitOfWork, |fibers|) && InArena(currentRoot, |fibers|) && InArena(wipRoot, |fibers|)
      && InArena(firstEffect, |fibers|) && InArena(lastEffect, |fibers|) && hookIndex >= -1
    }

    /** Since the state with arena `fs`, chain ends `first` and `last` and log `s0`,
        the intent chain has grown by exactly the fibers logged since, in order, and
        no other old `nextEffect` link changed (`Grown`). `GrownKeepsChain` turns this
        into a well formed chain holding exactly the logged fibers, whenever the chain
        was one before and the fibers logged since are new to it, distinct and linked
        nowhere. */
    ghost predicate GrownSince(fs: seq<Fiber>, first: Option<FiberId>, last: Option<FiberId>, s0: seq<Intent>)
      reads this
    {
      Grown(fs, first, last, s0, fibers, firstEffect, lastEffect, scheduled)
    }

    /** Growth since a state, passing through the state `(F, a, b, s)`. */
    lemma Extended(fs: seq<Fiber>, first: Option<FiberId>, last: Option<FiberId>, s0: seq<Intent>,
                   F: seq<Fiber>, a: Option<FiberId>, b: Option<FiberId>, s: seq<Intent>)
      requires Grown(fs, first, last, s0, F, a, b, s)
      requires Grown(F, a, b, s, fibers, firstEffect, lastEffect, scheduled)
      ensures GrownSince(fs, first, last, s0)
    {
      GrownTrans(fs, first, last, s0, F, a, b, s, fibers, firstEffect, lastEffect, scheduled);
    }

    /** Growth up to a state with the current ends and log, followed by changes that
        leave every old `nextEffect` link alone. */
    lemma ExtendedVia(fs: seq<Fiber>, first: Option<FiberId>, last: Option<FiberId>, s0: seq<Intent>, F: seq<Fiber>)
      requires Grown(fs, first, last, s0, F, firstEffect, lastEffect, scheduled)
      requires |F| <= |fibers| && forall i :: 0 <= i < |F| ==> fibers[i].nextEffect == F[i].nextEffect
      ensures GrownSince(fs, first, last, s0)
    {
      GrownSame(F, firstEffect, lastEffect, scheduled, fibers);
      Extended(fs, first, last, s0, F, firstEffect, lastEffect, scheduled);
    }

    /** The state when the module is loaded. */
    constructor(w: World)
      ensures world == w && fibers == [] && hookLists == [] && hosts == [] && trace == []
      ensures nextUnitOfWork.None? && currentRoot.None? && wipRoot.None?
      ensures firstEffect.None? && lastEffect.None? && hookIndex == -1 && scheduled == []
      ensures Valid()
    {
      world := w;
      fibers, hookLists, hosts, trace := [], [], [], [];
      nextUnitOfWork, currentRoot, wipRoot, firstEffect, lastEffect := None, None, None, None, None;
      hookIndex := -1;
      scheduled := [];
    }

    /** A host element made by the embedding page, such as a container for `render`. */
    method NewContainer(name: string) returns (d: DomId)
      requires Valid()
      modifies this`hosts
      ensures Valid() && hosts == old(hosts) + [HostElement(name)] && d == |old(hosts)|
    {
      d := |hosts|;
      hosts := hosts + [HostElement(name)];
    }

    // ------------------------------------------------------------ arena helpers

    method SetFiber(i: FiberId, f: Fiber)
      requires Valid() && i < |fibers| && Fits(f, i, |fibers|, |hookLists|, |hosts|)
      modifies this`fibers
      ensures Valid() && fibers == old(fibers)[i := f]
    {
      fibers := fibers[i := f];
    }

    method NewFiber(f: Fiber) returns (id: FiberId)
      requires Valid() && Fits(f, |fibers|, |fibers| + 1, |hookLists|, |hosts|)
      modifies this`fibers
      ensures Valid() && id == |old(fibers)| && fibers == old(fibers) + [f]
    {
      id := |fibers|;
      fibers := fibers + [f];
    }

    /** A new, empty hook array (every `[]` of the source is a new array). */
    method NewHookList() returns (l: nat)
      requires Valid()
      modifies this`hookLists
      ensures Valid() && l == |old(hookLists)| && hookLists == old(hookLists) + [[]]
    {
      l := |hookLists|;
      hookLists := hookLists + [[]];
    }

    method NewHost(h: HostObj) returns (d: DomId)
      requires Valid()
      modifies this`hosts
      ensures Valid() && d == |old(hosts)| && hosts == old(hosts) + [h]
    {
      d := |hosts|;
      hosts := hosts + [h];
    }

    // ------------------------------------------------------------ intent chain

    /** `_scheduleEffect(f)`: the chain state becomes `AppendEffect` of the old one and
        the call is logged with `f`'s intent. A fiber not yet in a well-formed chain,
        and linking nowhere, joins its end. */
    method ScheduleEffect(f: FiberId)
      requires Valid() && f < |fibers|
      modifies this`fibers, this`firstEffect, this`lastEffect, this`scheduled
      ensures Valid()
      ensures ChainState(fibers, firstEffect, lastEffect) == AppendEffect(old(fibers), old(firstEffect), old(lastEffect), f)
      ensures scheduled == old(scheduled) + [Intent(f, old(fibers)[f].effectTag)]
      ensures |fibers| == |old(fibers)|
      ensures forall i :: 0 <= i < |fibers| ==> Shape(fibers[i]) == Shape(old(fibers)[i]) && fibers[i].effectTag == old(fibers)[i].effectTag
      ensures forall i :: 0 <= i < |fibers| && Some(i) != old(lastEffect) ==> fibers[i] == old(fibers)[i]
      ensures ChainOk(old(fibers), old(firstEffect), old(lastEffect), FibersOf(old(scheduled)))
              && f !in FibersOf(old(scheduled)) && old(fibers)[f].nextEffect.None?
              ==> ChainOk(fibers, firstEffect, lastEffect, FibersOf(scheduled))
      ensures GrownSince(old(fibers), old(firstEffect), old(lastEffect), old(scheduled))
    {
      var tag := fibers[f].effectTag;
      LinkTail(f);
      scheduled := scheduled + [Intent(f, tag)];
      Appended(old(fibers), old(firstEffect), old(lastEffect), old(scheduled), f, tag);
    }

    /** The writes of `_scheduleEffect`: the fiber becomes the head and tail of an
        empty chain, or the old tail links to it and it becomes the tail. */
    method LinkTail(f: FiberId)
      requires Valid() && f < |fibers|
      modifies this`fibers, this`firstEffect, this`lastEffect
      ensures Valid() && |fibers| == |old(fibers)|
      ensures ChainState(fibers, firstEffect, lastEffect) == AppendEffect(old(fibers), old(firstEffect), old(lastEffect), f)
      ensures forall i :: 0 <= i < |fibers| ==> Shape(fibers[i]) == Shape(old(fibers)[i]) && fibers[i].effectTag == old(fibers)[i].effectTag
      ensures forall i :: 0 <= i < |fibers| && Some(i) != old(lastEffect) ==> fibers[i] == old(fibers)[i]
    {
      if lastEffect.None? {
        firstEffect := Some(f);
        lastEffect := firstEffect;
      } else {
        SetFiber(lastEffect.value, fibers[lastEffect.value].(nextEffect := Some(f)));
        lastEffect := Some(f);
      }
    }

    /** One `_scheduleEffect` call, as a growth of the chain. */
    lemma Appended(fs: seq<Fiber>, first: Option<FiberId>, last: Option<FiberId>, s0: seq<Intent>, f: FiberId, tag: Option<EffectTag>)
      requires InArena(last, |fs|) && f < |fs| && scheduled == s0 + [Intent(f, tag)]
      requires ChainState(fibers, firstEffect, lastEffect) == AppendEffect(fs, first, last, f)
      ensures ChainOk(fs, first, last, FibersOf(s0)) && f !in FibersOf(s0) && fs[f].nextEffect.None?
              ==> ChainOk(fibers, firstEffect, lastEffect, FibersOf(scheduled))
      ensures GrownSince(fs, first, last, s0)
    {
      assert FibersOf(scheduled) == FibersOf(s0) + [f];
      if ChainOk(fs, first, last, FibersOf(s0)) && f !in FibersOf(s0) && fs[f].nextEffect.None? {
        AppendKeepsChain(fs, first, last, FibersOf(s0), f);
      }
      AppendGrows(fs, first, last, s0, f, tag);
      GrownSame(fibers, firstEffect, lastEffect, scheduled, fibers);
      Extended(fs, first, last, s0, fibers, firstEffect, lastEffect, scheduled);
    }

    // ----------------------------------------------------------- sibling lists

    /** The key search of `_beginWork`: `while (alt && alt.key !== key) alt = alt.sibling`. */
    method FindKey(start: Option<FiberId>, key: Value) returns (r: Result<Option<FiberId>>)
      requires Valid() && InArena(start, |fibers|)
      ensures r == KeySearch(fibers, start, key, |fibers|)
    {
      var alt := start;
      var k: nat := |fibers|;
      while alt.Some? && fibers[alt.value].key != key
        invariant InArena(alt, |fibers|) && k <= |fibers|
        invariant KeySearch(fibers, alt, key, k) == KeySearch(fibers, start, key, |fibers|)
        decreases k
      {
        if k == 0 {
          return Err(Diverges);
        }
        alt := fibers[alt.value].sibling;
        k := k - 1;
      }
      return Ok(alt);
    }

    /** `fiber.effectTag = tag; _scheduleEffect(fiber)`, as `_beginWork` does for an
        updated fiber (`update`) and for each fiber it drops (`remove`). */
    method MarkOne(a: FiberId, tag: EffectTag)
      requires Valid() && a < |fibers|
      modifies this`fibers, this`firstEffect, this`lastEffect, this`scheduled
      ensures Valid() && |fibers| == |old(fibers)|
      ensures forall i :: 0 <= i < |fibers| ==> Shape(fibers[i]) == Shape(old(fibers)[i])
      ensures forall i :: 0 <= i < |fibers| && i != a ==> fibers[i].effectTag == old(fibers)[i].effectTag
      ensures fibers[a].effectTag == Some(tag)
      ensures forall i :: 0 <= i < |fibers| && i != a && Some(i) != old(lastEffect) ==> fibers[i] == old(fibers)[i]
      ensures scheduled == old(scheduled) + [Intent(a, Some(tag))]
      ensures GrownSince(old(fibers), old(firstEffect), old(lastEffect), old(scheduled))
    {
      SetFiber(a, fibers[a].(effectTag := Some(tag)));
      GrownSame(old(fibers), firstEffect, lastEffect, scheduled, fibers);
      ghost var F := fibers;
      ScheduleEffect(a);
      Extended(old(fibers), old(firstEffect), old(lastEffect), old(scheduled), F, old(firstEffect), old(lastEffect), old(scheduled));
    }

    /** The loops `while (alt) { alt.effectTag = 'remove'; _scheduleEffect(alt); alt =
        alt.sibling }` of `_beginWork` and `_completeWork`: every fiber of the list from
        `start` is marked for removal and scheduled, in list order. Only intents
        change. A list that runs for more steps than the arena has fibers is a cycle,
        on which the source's loop never ends. */
    method MarkRemoved(start: Option<FiberId>) returns (r: Result<()>)
      requires Valid() && InArena(start, |fibers|)
      modifies this`fibers, this`firstEffect, this`lastEffect, this`scheduled
      ensures Valid() && |fibers| == |old(fibers)|
      ensures forall i :: 0 <= i < |fibers| ==> Shape(fibers[i]) == Shape(old(fibers)[i])
      ensures r.Ok? ==>
        var W := Walk(old(fibers), SiblingLink, start, |old(fibers)|);
        && Reach(old(fibers), SiblingLink, start, |W|).None?
        && scheduled == old(scheduled) + Removals(W)
      ensures r.Err? ==> r.fault == Diverges && !Distinct(Walk(old(fibers), SiblingLink, start, |old(fibers)| + 1))
      ensures var W := Walk(old(fibers), SiblingLink, start, |old(fibers)|);
        && (forall j :: 0 <= j < |W| ==> fibers[W[j]].effectTag == Some(Remove))
        && (forall i :: 0 <= i < |fibers| && i !in W ==> fibers[i].effectTag == old(fibers)[i].effectTag)
      ensures GrownSince(old(fibers), old(firstEffect), old(lastEffect), old(scheduled))
    {
      ghost var fs := fibers;
      var x, n := MarkWalk(start);
      if x.Some? {
        WalkSnoc(fs, SiblingLink, start, n);
        WalkRepeats(fs, SiblingLink, start);
        Extended(fs, old(firstEffect), old(lastEffect), old(scheduled), fibers, firstEffect, lastEffect, scheduled);
        MarkedWalk(fs, old(scheduled), start, n, x);
        return Err(Diverges);
      }
      WalkStops(fs, SiblingLink, start, n, |fs|);
      MarkedWalk(fs, old(scheduled), start, n, x);
      GrownSame(fibers, firstEffect, lastEffect, scheduled, fibers);
      Extended(fs, old(firstEffect), old(lastEffect), old(scheduled), fibers, firstEffect, lastEffect, scheduled);
      return Ok(());
    }

    /** The loop of `MarkRemoved`: it stops at the end of the list, or on a fiber
        once it has taken as many steps as the arena has fibers. */
    method MarkWalk(start: Option<FiberId>) returns (x: Option<FiberId>, n: nat)
      requires Valid() && InArena(start, |fibers|)
      modifies this`fibers, this`firstEffect, this`lastEffect, this`scheduled
      ensures Valid() && Marking(old(fibers), old(scheduled), start, n, x)
      ensures x.Some? ==> n == |fibers|
      ensures Grown(old(fibers), old(firstEffect), old(lastEffect), old(scheduled), fibers, firstEffect, lastEffect, scheduled)
    {
      x := start;
      n := 0;
      ghost var fs := fibers;
      GrownSame(fs, firstEffect, lastEffect, scheduled, fibers);
      MarkingStarts(start);
      while x.Some? && n < |fibers|
        invariant Valid() && Marking(fs, old(scheduled), start, n, x)
        invariant Grown(fs, old(firstEffect), old(lastEffect), old(scheduled), fibers, firstEffect, lastEffect, scheduled)
        decreases |fibers| - n
      {
        x := MarkStep(fs, old(firstEffect), old(lastEffect), old(scheduled), start, n, x.value);
        n := n + 1;
      }
    }

    /** The state of the removal loop after `n` fibers of the list from `start` in
        the arena as it was, `fs` (`MarkedSoFar`). */
    ghost predicate Marking(fs: seq<Fiber>, s0: seq<Intent>, start: Option<FiberId>, n: nat, x: Option<FiberId>)
      reads this
    {
      MarkedSoFar(fs, s0, start, n, x, fibers, scheduled)
    }

    /** Before the loop has taken a step, nothing is marked. */
    lemma MarkingStarts(start: Option<FiberId>)
      requires InArena(start, |fibers|)
      ensures Marking(fibers, scheduled, start, 0, start)
    {
      assert Walk(fibers, SiblingLink, start, 0) == [];
    }

    /** Once the loop has passed the whole list, exactly its fibers are marked. */
    lemma MarkedWalk(fs: seq<Fiber>, s0: seq<Intent>, start: Option<FiberId>, n: nat, x: Option<FiberId>)
      requires Marking(fs, s0, start, n, x) && Walk(fs, SiblingLink, start, |fs|) == Walk(fs, SiblingLink, start, n)
      ensures var W := Walk(fs, SiblingLink, start, |fs|);
        && (forall j :: 0 <= j < |W| ==> fibers[W[j]].effectTag == Some(Remove))
        && (forall i :: 0 <= i < |fibers| && i !in W ==> fibers[i].effectTag == fs[i].effectTag)
    {
    }

    /** One turn of the removal loop, on fiber `a`. */
    method MarkStep(ghost fs: seq<Fiber>, ghost first: Option<FiberId>, ghost last: Option<FiberId>, ghost s0: seq<Intent>,
                    ghost start: Option<FiberId>, ghost n: nat, a: FiberId)
      returns (x: Option<FiberId>)
      requires Valid() && Marking(fs, s0, start, n, Some(a)) && n < |fibers|
      requires Grown(fs, first, last, s0, fibers, firstEffect, lastEffect, scheduled)
      modifies this`fibers, this`firstEffect, this`lastEffect, this`scheduled
      ensures Valid() && Marking(fs, s0, start, n + 1, x)
      ensures Grown(fs, first, last, s0, fibers, firstEffect, lastEffect, scheduled)
    {
      ghost var G, a0, b0, s := fibers, firstEffect, lastEffect, scheduled;
      MarkOne(a, Remove);
      MarkedSoFarStep(fs, s0, start, n, a, G, s, fibers, scheduled);
      GrownTrans(fs, first, last, s0, G, a0, b0, s, fibers, firstEffect, lastEffect, scheduled);
      x := fibers[a].sibling;
    }

    /** `if (curr.sibling.key === key) curr.sibling = curr.sibling.sibling`. */
    method CutNext(curr: FiberId, key: Value) returns (cut: bool)
      requires Valid() && curr < |fibers| && fibers[curr].sibling.Some?
      modifies this`fibers
      ensures Valid() && |fibers| == |old(fibers)|
      ensures var s := old(fibers)[curr].sibling.value;
        && cut == (old(fibers)[s].key == key)
        && fibers == if cut then old(fibers)[curr := old(fibers)[curr].(sibling := old(fibers)[s].sibling)] else old(fibers)
      ensures forall i :: 0 <= i < |fibers| ==> Unlinked(fibers[i]) == Unlinked(old(fibers)[i])
    {
      var s := fibers[curr].sibling.value;
      cut := fibers[s].key == key;
      if cut {
        SetFiber(curr, fibers[curr].(sibling := fibers[s].sibling));
      }
    }

    /** The loop of `_reorderSiblings`: walking the sibling list from `head`, a
        successor with key `key` is cut out by linking past it. The arena becomes the
        one `CutFrom` gives, and `r` is the fiber the loop stopped on. */
    method CutKey(head: FiberId, key: Value) returns (r: Result<FiberId>)
      requires Valid() && head < |fibers|
      modifies this`fibers
      ensures Valid() && |fibers| == |old(fibers)|
      ensures forall i :: 0 <= i < |fibers| ==> Unlinked(fibers[i]) == Unlinked(old(fibers)[i])
      ensures r.Ok? <==> CutFrom(old(fibers), head, key, |old(fibers)|).Ok?
      ensures r.Ok? ==> CutFrom(old(fibers), head, key, |old(fibers)|).value == (fibers, r.value)
    {
      ghost var fs := fibers;
      var curr: FiberId := head;
      var stop := false;
      var n: nat := 0;
      while fibers[curr].sibling.Some? && !stop
        invariant Valid() && |fibers| == |fs| && curr < |fibers| && n <= |fibers|
        invariant forall x :: 0 <= x < |fibers| ==> Unlinked(fibers[x]) == Unlinked(fs[x])
        invariant !stop ==> CutFrom(fibers, curr, key, |fs| - n) == CutFrom(fs, head, key, |fs|)
        invariant stop ==> CutFrom(fs, head, key, |fs|) == Ok((fibers, curr))
        decreases |fibers| - n, if stop then 0 else 1
      {
        if n == |fibers| {
          return Err(Diverges);
        }
        var cut := CutNext(curr, key);
        if fibers[curr].sibling.None? {
          // the source's `curr` becomes null here, which ends its loop
          stop := true;
        } else {
          curr := fibers[curr].sibling.value;
          n := n + 1;
        }
      }
      return Ok(curr);
    }

    /** `_reorderSiblings(head, start)`: cut every fiber with `start`'s key out of the
        sibling list from `head`, then put `start` in front of it. When `chain` is
        that list and the result repeats no fiber, the list from `start` is then
        `Reordered`; only sibling links change. */
    method ReorderSiblings(head: FiberId, start: FiberId, ghost chain: seq<FiberId>) returns (r: Result<FiberId>)
      requires Valid() && head < |fibers| && start < |fibers|
      modifies this`fibers
      ensures Valid() && |fibers| == |old(fibers)|
      ensures forall i :: 0 <= i < |fibers| ==> Unlinked(fibers[i]) == Unlinked(old(fibers)[i])
      ensures r.Ok? ==> r.value == start
      ensures ChainIs(old(fibers), head, chain) && Distinct(Reordered(old(fibers), chain, start)) ==>
        r.Ok? && ChainIs(fibers, start, Reordered(old(fibers), chain, start))
    {
      ghost var fs := fibers;
      ghost var good := ChainIs(fs, head, chain) && Distinct(Reordered(fs, chain, start));
      if good {
        ReorderSound(fs, head, start, chain);
      }
      var cut := CutKey(head, fibers[start].key);
      if cut.Err? {
        return Err(cut.fault);
      }
      SetFiber(start, fibers[start].(sibling := Some(head)));
      return Ok(start);
    }

    // ------------------------------------------------------------ new fibers

    /** The fiber creation of `_beginWork` (first child) and `_completeWork` (next
        sibling): the arena grows by `ChildFiber` of the description, and a new empty
        hook array is made when the fiber does not take over its alternate's. */
    method SpawnFiber(c: Node, index: nat, parent: FiberId, alt: Option<FiberId>) returns (id: FiberId)
      requires Valid() && parent < |fibers| && InArena(alt, |fibers|)
      modifies this`fibers, this`hookLists
      ensures Valid() && id == |old(fibers)|
      ensures fibers == old(fibers) + [ChildFiber(old(fibers), c, index, parent, alt, |old(hookLists)|)]
      ensures hookLists == old(hookLists) + (if GetWorkTag(c) == Void || alt.None? then [[]] else [])
    {
      var hooks: nat := |hookLists|;
      if GetWorkTag(c) == Void || alt.None? {
        hooks := NewHookList();
      }
      id := NewFiber(ChildFiber(fibers, c, index, parent, alt, hooks));
    }

    /** `_updateHostComponent` with `_createDom`: a host fiber without a host object
        gets a new text node (text fibers) or element (tag-name types); other types
        get none. */
    method UpdateHostComponent(f: FiberId)
      requires Valid() && f < |fibers|
      modifies this`fibers, this`hosts
      ensures Valid() && |fibers| == |old(fibers)|
      ensures forall i :: 0 <= i < |fibers| && i != f ==> fibers[i] == old(fibers)[i]
      ensures old(fibers)[f].dom.Some? ==> fibers == old(fibers) && hosts == old(hosts)
      ensures old(fibers)[f].dom.None? ==> match old(fibers)[f].ftype
        case TextType =>
          hosts == old(hosts) + [HostTextNode(Get(old(fibers)[f].props.attrs, "nodeValue"))]
          && fibers[f] == old(fibers)[f].(dom := Some(|old(hosts)|))
        case HostType(name) =>
          hosts == old(hosts) + [HostElement(name)] && fibers[f] == old(fibers)[f].(dom := Some(|old(hosts)|))
        case _ => fibers == old(fibers) && hosts == old(hosts)
    {
      if fibers[f].dom.None? {
        var t := fibers[f].ftype;
        if t == TextType {
          var d := NewHost(HostTextNode(Get(fibers[f].props.attrs, "nodeValue")));
          SetFiber(f, fibers[f].(dom := Some(d)));
        } else if t.HostType? {
          var d := NewHost(HostElement(t.name));
          SetFiber(f, fibers[f].(dom := Some(d)));
        }
      }
    }

    // ------------------------------------------------------------------ hooks

    /** The hook array of the fiber being rendered. */
    function WorkHooks(): nat
      requires Valid() && nextUnitOfWork.Some?
      reads this
    {
      fibers[nextUnitOfWork.value].hooks
    }

    /** The hook array hook calls land on: the one of the fiber being rendered. */
    function RenderingList(): Option<nat>
      requires Valid()
      reads this
    {
      if nextUnitOfWork.Some? then Some(fibers[nextUnitOfWork.value].hooks) else None
    }

    /** How rendering function component `f` goes in the current state. */
    function RenderOf(f: FiberId): RenderRun
      requires Valid() && f < |fibers| && fibers[f].ftype.ComponentType?
      reads this
    {
      RenderComponent(world, fibers[f].ftype.component, fibers[f].props, RenderingList(), ListAt(hookLists, RenderingList()))
    }

    /** `useState(initialValue)`: the next hook index, then the slot rule of
        `UseStateSlot`; the result is the value and the setter bound to the slot.
        Without a fiber being rendered, or on a slot of another kind, it fails
        without writing the slot. */
    method UseState(init: Value) returns (r: Result<HookResult>)
      requires Valid()
      modifies this`hookIndex, this`hookLists, this`trace
      ensures Valid() && hookIndex == old(hookIndex) + 1 && |hookLists| == |old(hookLists)|
      ensures old(nextUnitOfWork).None? ==>
        r == Err(NoWorkInProgress) && hookLists == old(hookLists) && trace == old(trace)
      ensures old(nextUnitOfWork).Some? ==>
        var l := old(WorkHooks());
        var o := UseStateSlot(world, SlotAt(old(hookLists)[l], hookIndex), init);
        && (r.Ok? <==> o.Ok?)
        && (o.Err? ==> r == Err(o.fault) && hookLists == old(hookLists) && trace == old(trace))
        && (o.Ok? ==>
              && r.value == StateResult(o.value.value, HookRef(l, hookIndex))
              && hookLists == old(hookLists)[l := SetSlot(old(hookLists)[l], hookIndex, o.value.hook)]
              && trace == old(trace) + o.value.events)
    {
      hookIndex := hookIndex + 1;
      if nextUnitOfWork.None? {
        return Err(NoWorkInProgress);
      }
      var l := fibers[nextUnitOfWork.value].hooks;
      var o := UseStateSlot(world, SlotAt(hookLists[l], hookIndex), init);
      if o.Err? {
        return Err(o.fault);
      }
      hookLists := hookLists[l := SetSlot(hookLists[l], hookIndex, o.value.hook)];
      trace := trace + o.value.events;
      return Ok(StateResult(o.value.value, HookRef(l, hookIndex)));
    }

    /** The body `useMemo` and `useCallback` share: the next hook index, then the slot
        rule of `UseMemoSlot` with the given producer. */
    method UseMemoWith(make: Producer, deps: seq<Value>) returns (r: Result<HookResult>)
      requires Valid()
      modifies this`hookIndex, this`hookLists, this`trace
      ensures Valid() && hookIndex == old(hookIndex) + 1 && |hookLists| == |old(hookLists)|
      ensures old(nextUnitOfWork).None? ==>
        r == Err(NoWorkInProgress) && hookLists == old(hookLists) && trace == old(trace)
      ensures old(nextUnitOfWork).Some? ==>
        var l := old(WorkHooks());
        var o := UseMemoSlot(world, SlotAt(old(hookLists)[l], hookIndex), make, deps);
        && (r.Ok? <==> o.Ok?)
        && (o.Err? ==> r == Err(o.fault) && hookLists == old(hookLists) && trace == old(trace))
        && (o.Ok? ==>
              && r.value == MemoResult(o.value.hook.value)
              && hookLists == old(hookLists)[l := SetSlot(old(hookLists)[l], hookIndex, o.value.hook)]
              && trace == old(trace) + o.value.events)
    {
      hookIndex := hookIndex + 1;
      if nextUnitOfWork.None? {
        return Err(NoWorkInProgress);
      }
      var l := fibers[nextUnitOfWork.value].hooks;
      var o := UseMemoSlot(world, SlotAt(hookLists[l], hookIndex), make, deps);
      if o.Err? {
        return Err(o.fault);
      }
      hookLists := hookLists[l := SetSlot(hookLists[l], hookIndex, o.value.hook)];
      trace := trace + o.value.events;
      return Ok(MemoResult(o.value.hook.value));
    }

    /** `useMemo(makeValue, deps)`: the producer is user code. */
    method UseMemo(make: Value, deps: seq<Value>) returns (r: Result<HookResult>)
      requires Valid()
      modifies this`hookIndex, this`hookLists, this`trace
      ensures Valid() && hookIndex == old(hookIndex) + 1 && |hookLists| == |old(hookLists)|
      ensures old(nextUnitOfWork).None? ==> r == Err(NoWorkInProgress) && hookLists == old(hookLists) && trace == old(trace)
      ensures old(nextUnitOfWork).Some? ==>
        var l := old(WorkHooks());
        var o := UseMemoSlot(world, SlotAt(old(hookLists)[l], hookIndex), CallProducer(make), deps);
        && (r.Ok? <==> o.Ok?) && (o.Err? ==> r == Err(o.fault) && trace == old(trace) && hookLists == old(hookLists))
        && (o.Ok? ==> r.value == MemoResult(o.value.hook.value))
        && (o.Ok? ==> hookLists == old(hookLists)[l := SetSlot(old(hookLists)[l], hookIndex, o.value.hook)])
        && (o.Ok? ==> trace == old(trace) + o.value.events)
    {
      r := UseMemoWith(CallProducer(make), deps);
    }

    /** `useCallback(cb, deps)`: a memo whose producer returns `cb`, so no user code
        runs. */
    method UseCallback(cb: Value, deps: seq<Value>) returns (r: Result<HookResult>)
      requires Valid()
      modifies this`hookIndex, this`hookLists, this`trace
      ensures Valid() && hookIndex == old(hookIndex) + 1 && |hookLists| == |old(hookLists)|
      ensures trace == old(trace)
      ensures old(nextUnitOfWork).None? ==> r == Err(NoWorkInProgress) && hookLists == old(hookLists)
      ensures old(nextUnitOfWork).Some? ==>
        var l := old(WorkHooks());
        var o := UseCallbackSlot(world, SlotAt(old(hookLists)[l], hookIndex), cb, deps);
        && (r.Ok? <==> o.Ok?) && (o.Err? ==> r == Err(o.fault) && hookLists == old(hookLists))
        && (o.Ok? ==> r.value == MemoResult(o.value.hook.value)
                      && hookLists == old(hookLists)[l := SetSlot(old(hookLists)[l], hookIndex, o.value.hook)])
    {
      r := UseMemoWith(ConstProducer(cb), deps);
    }

    /** `useEffect(setup, deps)`: the next hook index, then the slot rule of
        `UseEffectSlot`. Nothing is called. */
    method UseEffect(setup: Value, deps: Option<seq<Value>>) returns (r: Result<HookResult>)
      requires Valid()
      modifies this`hookIndex, this`hookLists
      ensures Valid() && hookIndex == old(hookIndex) + 1 && |hookLists| == |old(hookLists)|
      ensures old(nextUnitOfWork).None? ==> r == Err(NoWorkInProgress) && hookLists == old(hookLists)
      ensures old(nextUnitOfWork).Some? ==>
        var l := old(WorkHooks());
        var o := UseEffectSlot(SlotAt(old(hookLists)[l], hookIndex), setup, deps);
        && (r.Ok? <==> o.Ok?)
        && (o.Err? ==> r == Err(o.fault) && hookLists == old(hookLists))
        && (o.Ok? ==>
              && r.value == EffectResult
              && hookLists == old(hookLists)[l := SetSlot(old(hookLists)[l], hookIndex, o.value)])
    {
      hookIndex := hookIndex + 1;
      if nextUnitOfWork.None? {
        return Err(NoWorkInProgress);
      }
      var l := fibers[nextUnitOfWork.value].hooks;
      var o := UseEffectSlot(SlotAt(hookLists[l], hookIndex), setup, deps);
      if o.Err? {
        return Err(o.fault);
      }
      hookLists := hookLists[l := SetSlot(hookLists[l], hookIndex, o.value)];
      return Ok(EffectResult);
    }

    /** One hook call of a rendering component. */
    method CallHook(call: HookCall) returns (r: Result<HookResult>)
      requires Valid()
      modifies this`hookIndex, this`hookLists, this`trace
      ensures Valid() && hookIndex == old(hookIndex) + 1 && |hookLists| == |old(hookLists)|
      ensures |trace| >= |old(trace)| && trace[..|old(trace)|] == old(trace)
      ensures old(nextUnitOfWork).None? ==> r == Err(NoWorkInProgress)
      ensures var l := old(RenderingList());
        var o := HookStep(world, ListAt(old(hookLists), l), l, hookIndex, call);
        && (r.Ok? <==> o.Ok?)
        && (o.Err? ==> r == Err(o.fault) && hookLists == old(hookLists) && trace == old(trace))
        && (o.Ok? ==> r.value == o.value.result && hookLists == WithList(old(hookLists), l, o.value.hooks)
                      && trace == old(trace) + o.value.events)
    {
      match call
      case CallUseState(init) => r := UseState(init);
      case CallUseMemo(make, deps) => r := UseMemo(make, deps);
      case CallUseCallback(cb, deps) => r := UseCallback(cb, deps);
      case CallUseEffect(setup, deps) => r := UseEffect(setup, deps);
    }

    /** `_updateFunctionComponent(f)`: the hook index goes back to -1, the component
        is called with the fiber's props, and each hook call it makes moves the index
        on by one; its single returned description becomes the fiber's only child.
        `results` are what the hook calls returned, in order. */
    method UpdateFunctionComponent(f: FiberId) returns (r: Result<()>, results: seq<HookResult>)
      requires Valid() && f < |fibers| && fibers[f].tag == FunctionComponent
      modifies this`fibers, this`hookIndex, this`hookLists, this`trace
      ensures Valid() && |fibers| == |old(fibers)| && |hookLists| == |old(hookLists)|
      ensures forall i :: 0 <= i < |fibers| && i != f ==> fibers[i] == old(fibers)[i]
      ensures |trace| > |old(trace)| && trace[..|old(trace)| + 1] == old(trace) + [Invoked(old(fibers)[f].ftype.component, old(fibers)[f].props)]
      ensures r.Ok? ==> hookIndex == |results| - 1
      ensures |results| <= world.hookLimit
      ensures forall j :: 0 <= j < |results| ==> world.body(old(fibers)[f].ftype.component, old(fibers)[f].props, results[..j]).UseHook?
      ensures r.Ok? ==>
        var step := world.body(old(fibers)[f].ftype.component, old(fibers)[f].props, results);
        step.Return? && fibers[f] == old(fibers)[f].(props := old(fibers)[f].props.(children := [step.child]))
      ensures r.Err? ==> fibers == old(fibers)
      ensures var run := old(RenderOf(f));
        && results == run.results && (r.Ok? <==> run.outcome.Ok?) && (r.Err? ==> r.fault == run.outcome.fault)
        && hookLists == WithList(old(hookLists), old(RenderingList()), run.hooks)
        && trace == old(trace) + [Invoked(old(fibers)[f].ftype.component, old(fibers)[f].props)] + run.events
        && (r.Ok? ==> fibers[f].props.children == [run.outcome.value])
    {
      hookIndex := -1;
      var c := fibers[f].ftype.component;
      var props := fibers[f].props;
      trace := trace + [Invoked(c, props)];
      var child;
      child, results := CallHooks(c, props);
      if child.Err? {
        return Err(child.fault), results;
      }
      SetFiber(f, fibers[f].(props := props.(children := [child.value])));
      return Ok(()), results;
    }

    /** The body of a component call from the engine's side: each hook call the
        component makes lands on the next slot of the rendering fiber's hook array,
        until the component returns its child, a hook call fails, or the model's hook
        limit is reached. */
    method CallHooks(c: Ref, props: Props) returns (child: Result<Node>, results: seq<HookResult>)
      requires Valid() && hookIndex == -1
      modifies this`hookIndex, this`hookLists, this`trace
      ensures Valid() && |hookLists| == |old(hookLists)|
      ensures var run := RenderComponent(world, c, props, RenderingList(), ListAt(old(hookLists), RenderingList()));
        && results == run.results && child == run.outcome
        && hookLists == WithList(old(hookLists), RenderingList(), run.hooks)
        && trace == old(trace) + run.events
      ensures child.Ok? ==> hookIndex == |results| - 1
    {
      ghost var L := RenderingList();
      ghost var run := RenderComponent(world, c, props, L, ListAt(hookLists, L));
      ghost var events: seq<Event> := [];
      results := [];
      var step := world.body(c, props, results);
      while step.UseHook?
        invariant Valid() && |hookLists| == |old(hookLists)|
        invariant trace == old(trace) + events
        invariant hookLists == WithList(old(hookLists), L, ListAt(hookLists, L))
        invariant hookIndex == |results| - 1 && |results| <= world.hookLimit
        invariant step == world.body(c, props, results)
        invariant RenderComponentFrom(world, c, props, L, ListAt(hookLists, L), results, events) == run
        decreases world.hookLimit - |results|
      {
        if |results| == world.hookLimit {
          return Err(HookLimit), results;
        }
        ghost var before := ListAt(hookLists, L);
        var res := CallHook(step.call);
        if res.Err? {
          return Err(res.fault), results;
        }
        ghost var o := HookStep(world, before, L, |results|, step.call).value;
        assert ListAt(hookLists, L) == o.hooks;
        AppendAssoc(old(trace), events, o.events);
        events := events + o.events;
        results := results + [res.value];
        step := world.body(c, props, results);
      }
      return Ok(step.child), results;
    }
  
    // ------------------------------------------------------------------ walk

    /** The key resolution of `_beginWork`: a fiber whose key is set and differs from
        its alternate's looks for that key along the alternate's sibling list; when
        found, `_reorderSiblings` moves the match to the front of that list and the
        match becomes the alternate, whose hook array and host object the fiber takes
        over. `r` is the match `KeyMatch` gives (`None`: the source's `keyMismatch`). */
    method ResolveKey(f: FiberId) returns (r: Result<Option<FiberId>>)
      requires Valid() && f < |fibers| && fibers[f].alternate.Some?
      modifies this`fibers
      ensures Valid() && |fibers| == |old(fibers)|
      ensures KeyMatch(old(fibers), f).Err? ==> r.Err?
      ensures r.Ok? ==> r == KeyMatch(old(fibers), f)
      ensures forall i :: 0 <= i < |fibers| && i != f ==> Unlinked(fibers[i]) == Unlinked(old(fibers)[i])
      ensures r.Err? ==> Unlinked(fibers[f]) == Unlinked(old(fibers)[f])
      ensures forall i :: 0 <= i < |fibers| ==>
        fibers[i].nextEffect == old(fibers)[i].nextEffect && fibers[i].effectTag == old(fibers)[i].effectTag
      ensures r.Ok? ==>
        var a := old(fibers)[f].alternate.value;
        Unlinked(fibers[f]) == Unlinked(
          if r.value.None? || r.value.value == a then old(fibers)[f]
          else old(fibers)[f].(alternate := r.value, hooks := old(fibers)[r.value.value].hooks,
                               dom := old(fibers)[r.value.value].dom))
      ensures r.Ok? && r.value.Some? && r.value.value != old(fibers)[f].alternate.value ==>
        var a := old(fibers)[f].alternate.value;
        var chain := Walk(old(fibers), SiblingLink, Some(a), |old(fibers)| + 1);
        ChainIs(old(fibers), a, chain) && Distinct(Reordered(old(fibers), chain, r.value.value))
        ==> ChainIs(fibers, r.value.value, Reordered(old(fibers), chain, r.value.value))
    {
      var a := fibers[f].alternate.value;
      var key := fibers[f].key;
      if key == Null || key == fibers[a].key {
        return Ok(Some(a));
      }
      var found := FindKey(Some(a), key);
      if found.Err? || found.value.None? {
        return found;
      }
      var m := found.value.value;
      var re := TakeMatch(f, m);
      if re.Err? {
        return Err(re.fault);
      }
      return Ok(Some(m));
    }

    /** The found branch of the key resolution: `_reorderSiblings` moves the match
        `m` to the front of the alternate's sibling list, then the fiber takes `m` as
        alternate, with its hook array and host object. */
    method TakeMatch(f: FiberId, m: FiberId) returns (r: Result<()>)
      requires Valid() && f < |fibers| && m < |fibers| && fibers[f].alternate.Some?
      modifies this`fibers
      ensures Valid() && |fibers| == |old(fibers)|
      ensures forall i :: 0 <= i < |fibers| && i != f ==> Unlinked(fibers[i]) == Unlinked(old(fibers)[i])
      ensures r.Err? ==> Unlinked(fibers[f]) == Unlinked(old(fibers)[f])
      ensures r.Ok? ==>
        Unlinked(fibers[f]) == Unlinked(old(fibers)[f].(alternate := Some(m), hooks := old(fibers)[m].hooks, dom := old(fibers)[m].dom))
      ensures var a := old(fibers)[f].alternate.value;
        var chain := Walk(old(fibers), SiblingLink, Some(a), |old(fibers)| + 1);
        ChainIs(old(fibers), a, chain) && Distinct(Reordered(old(fibers), chain, m))
        ==> r.Ok? && ChainIs(fibers, m, Reordered(old(fibers), chain, m))
    {
      var a := fibers[f].alternate.value;
      ghost var chain := Walk(fibers, SiblingLink, Some(a), |fibers| + 1);
      var re := ReorderSiblings(a, m, chain);
      if re.Err? {
        return Err(re.fault);
      }
      ghost var F := fibers;
      SetFiber(f, fibers[f].(alternate := Some(m), hooks := fibers[m].hooks, dom := fibers[m].dom));
      assert forall i :: 0 <= i < |F| ==> fibers[i].sibling == F[i].sibling;
      return Ok(());
    }

    /** The intent decision of `_beginWork` for a fiber it visits first: a root gets
        none; a fiber without alternate is added; after key resolution, a fiber whose
        key matched nothing or whose type differs from its match is added afresh (new
        empty hook array, no host object, and as alternate a childless copy of the old
        one) while the old one is marked for removal; a match with other props is
        updated. The verdict is `DecideVerdict` of the arena as it was, and the intent
        log grows by exactly `Logged` of it. */
    method Decide(f: FiberId) returns (r: Result<Verdict>)
      requires Valid() && f < |fibers|
      modifies this`fibers, this`hookLists, this`firstEffect, this`lastEffect, this`scheduled
      ensures Valid() && |fibers| >= |old(fibers)| && |hookLists| >= |old(hookLists)|
      ensures DecideVerdict(old(fibers), f).Err? ==> r.Err?
      ensures r.Ok? ==> r == DecideVerdict(old(fibers), f) && scheduled == old(scheduled) + Logged(f, r.value)
      ensures var g := fibers[f]; var o := old(fibers)[f];
        g.tag == o.tag && g.ftype == o.ftype && g.props == o.props && g.key == o.key
        && g.visited == o.visited && g.index == o.index && g.parent == o.parent
      ensures r.Ok? && !r.value.Replace? ==> |fibers| == |old(fibers)| && hookLists == old(hookLists)
      ensures r.Ok? && (r.value.Fresh? || r.value.Refresh?) ==> fibers[f].effectTag == Logged(f, r.value)[0].tag
      ensures r.Ok? && r.value.NoIntent? ==> fibers[f].effectTag == old(fibers)[f].effectTag
      ensures r.Ok? && r.value.Replace? ==>
        && |fibers| == |old(fibers)| + 1 && hookLists == old(hookLists) + [[]]
        && fibers[f].hooks == |old(hookLists)| && fibers[f].dom.None?
        && fibers[f].alternate == Some(|old(fibers)|)
        && Unlinked(fibers[|old(fibers)|]) == Unlinked(old(fibers)[r.value.gone].(child := None))
        && fibers[r.value.gone].effectTag == Some(Remove)
        && (r.value.gone != f ==> fibers[f].effectTag == Some(Add))
      ensures OthersKept(old(fibers), fibers, f, if r.Ok? && r.value.Replace? then Some(r.value.gone) else None)
      ensures GrownSince(old(fibers), old(firstEffect), old(lastEffect), old(scheduled))
    {
      GrownSame(fibers, firstEffect, lastEffect, scheduled, fibers);
      if fibers[f].tag == Root {
        ExtendedVia(fibers, firstEffect, lastEffect, scheduled, fibers);
        return Ok(NoIntent);
      }
      if fibers[f].alternate.None? {
        SetFiber(f, fibers[f].(effectTag := Some(Add)));
        GrownSame(old(fibers), firstEffect, lastEffect, scheduled, fibers);
        ghost var F := fibers;
        ScheduleEffect(f);
        Extended(old(fibers), old(firstEffect), old(lastEffect), old(scheduled), F, old(firstEffect), old(lastEffect), old(scheduled));
        return Ok(Fresh);
      }
      r := DecideAgainst(f);
    }

    /** `Decide` for a fiber that has an alternate. */
    method DecideAgainst(f: FiberId) returns (r: Result<Verdict>)
      requires Valid() && f < |fibers| && fibers[f].alternate.Some? && fibers[f].tag != Root
      modifies this`fibers, this`hookLists, this`firstEffect, this`lastEffect, this`scheduled
      ensures Valid() && |fibers| >= |old(fibers)| && |hookLists| >= |old(hookLists)|
      ensures DecideVerdict(old(fibers), f).Err? ==> r.Err?
      ensures r.Ok? ==> r == DecideVerdict(old(fibers), f) && scheduled == old(scheduled) + Logged(f, r.value)
      ensures var g := fibers[f]; var o := old(fibers)[f];
        g.tag == o.tag && g.ftype == o.ftype && g.props == o.props && g.key == o.key
        && g.visited == o.visited && g.index == o.index && g.parent == o.parent
      ensures r.Ok? && !r.value.Replace? ==> |fibers| == |old(fibers)| && hookLists == old(hookLists)
      ensures r.Ok? && r.value.Refresh? ==> fibers[f].effectTag == Some(Update)
      ensures r.Ok? ==> !r.value.Fresh?
      ensures r.Ok? && r.value.NoIntent? ==> fibers[f].effectTag == old(fibers)[f].effectTag
      ensures r.Ok? && r.value.Replace? ==>
        && |fibers| == |old(fibers)| + 1 && hookLists == old(hookLists) + [[]]
        && fibers[f].hooks == |old(hookLists)| && fibers[f].dom.None?
        && fibers[f].alternate == Some(|old(fibers)|)
        && Unlinked(fibers[|old(fibers)|]) == Unlinked(old(fibers)[r.value.gone].(child := None))
        && fibers[r.value.gone].effectTag == Some(Remove)
        && (r.value.gone != f ==> fibers[f].effectTag == Some(Add))
      ensures OthersKept(old(fibers), fibers, f, if r.Ok? && r.value.Replace? then Some(r.value.gone) else None)
      ensures GrownSince(old(fibers), old(firstEffect), old(lastEffect), old(scheduled))
    {
      ghost var fs := fibers;
      var m := ResolveKey(f);
      if m.Err? {
        GrownSame(fs, firstEffect, lastEffect, scheduled, fibers);
        ExtendedVia(fs, firstEffect, lastEffect, scheduled, fibers);
        return Err(m.fault);
      }
      var v := DecideResolved(f, fs, m.value);
      return Ok(v);
    }

    /** `DecideAgainst` once `ResolveKey` has turned the arena `fs` into the current
        one and found the match `m`: the contract of `DecideAgainst`, stated against
        `fs`. */
    method DecideResolved(f: FiberId, ghost fs: seq<Fiber>, m: Option<FiberId>) returns (v: Verdict)
      requires Valid() && LinksOk(fs) && f < |fibers| == |fs| && fs[f].alternate.Some? && fs[f].tag != Root
      requires KeyMatch(fs, f) == Ok(m)
      requires forall i :: 0 <= i < |fibers| && i != f ==> Unlinked(fibers[i]) == Unlinked(fs[i])
      requires forall i :: 0 <= i < |fibers| ==>
        fibers[i].nextEffect == fs[i].nextEffect && fibers[i].effectTag == fs[i].effectTag
      requires Unlinked(fibers[f]) == Unlinked(
        if m.None? || m.value == fs[f].alternate.value then fs[f]
        else fs[f].(alternate := m, hooks := fs[m.value].hooks, dom := fs[m.value].dom))
      modifies this`fibers, this`hookLists, this`firstEffect, this`lastEffect, this`scheduled
      ensures Valid() && |fibers| >= |fs| && |hookLists| >= |old(hookLists)|
      ensures DecideVerdict(fs, f) == Ok(v) && scheduled == old(scheduled) + Logged(f, v)
      ensures var g := fibers[f]; var o := fs[f];
        g.tag == o.tag && g.ftype == o.ftype && g.props == o.props && g.key == o.key
        && g.visited == o.visited && g.index == o.index && g.parent == o.parent
      ensures !v.Replace? ==> |fibers| == |fs| && hookLists == old(hookLists)
      ensures v.Refresh? ==> fibers[f].effectTag == Some(Update)
      ensures !v.Fresh?
      ensures v.NoIntent? ==> fibers[f].effectTag == fs[f].effectTag
      ensures v.Replace? ==>
        && |fibers| == |fs| + 1 && hookLists == old(hookLists) + [[]]
        && fibers[f].hooks == |old(hookLists)| && fibers[f].dom.None?
        && fibers[f].alternate == Some(|fs|)
        && Unlinked(fibers[|fs|]) == Unlinked(fs[v.gone].(child := None))
        && fibers[v.gone].effectTag == Some(Remove)
        && (v.gone != f ==> fibers[f].effectTag == Some(Add))
      ensures OthersKept(fs, fibers, f, if v.Replace? then Some(v.gone) else None)
      ensures GrownSince(fs, old(firstEffect), old(lastEffect), old(scheduled))
    {
      GrownSame(fs, firstEffect, lastEffect, scheduled, fibers);
      var alt := fibers[f].alternate.value;
      assert alt == if m.None? then fs[f].alternate.value else m.value;
      assert fibers[alt].ftype == fs[alt].ftype && fibers[alt].props == fs[alt].props by {
        if alt != f {
          assert Unlinked(fibers[alt]) == Unlinked(fs[alt]);
        }
      }
      ghost var F := fibers;
      v := DecideWith(f, m.Some?);
      Extended(fs, old(firstEffect), old(lastEffect), old(scheduled), F, old(firstEffect), old(lastEffect), old(scheduled));
      FrameThrough(fs, F, fibers, f, if v.Replace? then Some(v.gone) else None);
    }

    /** The end of the decision, once the key is resolved (`matched` is false for the
        source's `keyMismatch`): replace, update, or leave the fiber be. */
    method DecideWith(f: FiberId, matched: bool) returns (v: Verdict)
      requires Valid() && f < |fibers| && fibers[f].alternate.Some? && fibers[f].tag != Root
      modifies this`fibers, this`hookLists, this`firstEffect, this`lastEffect, this`scheduled
      ensures var o := old(fibers)[f]; var a := o.alternate.value;
        v == if !matched || o.ftype != old(fibers)[a].ftype then Replace(a)
             else if !PropsEqual(old(fibers)[a].props, o.props) then Refresh else NoIntent
      ensures Valid() && |fibers| >= |old(fibers)| && scheduled == old(scheduled) + Logged(f, v)
      ensures var g := fibers[f]; var o := old(fibers)[f];
        g.tag == o.tag && g.ftype == o.ftype && g.props == o.props && g.key == o.key
        && g.visited == o.visited && g.index == o.index && g.parent == o.parent
      ensures v.Refresh? ==> fibers[f].effectTag == Some(Update) && |fibers| == |old(fibers)| && hookLists == old(hookLists)
      ensures v.NoIntent? ==> fibers == old(fibers) && hookLists == old(hookLists)
      ensures v.Replace? ==>
        && |fibers| == |old(fibers)| + 1 && hookLists == old(hookLists) + [[]]
        && fibers[f].hooks == |old(hookLists)| && fibers[f].dom.None?
        && fibers[f].alternate == Some(|old(fibers)|)
        && Unlinked(fibers[|old(fibers)|]) == Unlinked(old(fibers)[v.gone].(child := None))
        && fibers[v.gone].effectTag == Some(Remove)
        && (v.gone != f ==> fibers[f].effectTag == Some(Add))
      ensures forall i :: 0 <= i < |old(fibers)| && i != f && (v.Replace? ==> i != v.gone) ==>
        Shape(fibers[i]) == Shape(old(fibers)[i]) && fibers[i].effectTag == old(fibers)[i].effectTag
      ensures GrownSince(old(fibers), old(firstEffect), old(lastEffect), old(scheduled))
    {
      var alt := fibers[f].alternate.value;
      if !matched || fibers[f].ftype != fibers[alt].ftype {
        ReplaceFiber(f, alt);
        return Replace(alt);
      } else if !PropsEqual(fibers[alt].props, fibers[f].props) {
        MarkOne(f, Update);
        return Refresh;
      }
      GrownSame(old(fibers), firstEffect, lastEffect, scheduled, fibers);
      ExtendedVia(old(fibers), old(firstEffect), old(lastEffect), old(scheduled), fibers);
      return NoIntent;
    }

    /** The replacement branch of `_beginWork`: the fiber drops its hooks and host
        object, takes a childless copy of its alternate `alt` as alternate, and is
        scheduled with `add`; then `alt` is scheduled with `remove`. */
    method ReplaceFiber(f: FiberId, alt: FiberId)
      requires Valid() && f < |fibers| && alt < |fibers|
      modifies this`fibers, this`hookLists, this`firstEffect, this`lastEffect, this`scheduled
      ensures Valid() && |fibers| == |old(fibers)| + 1 && hookLists == old(hookLists) + [[]]
      ensures scheduled == old(scheduled) + [Intent(f, Some(Add)), Intent(alt, Some(Remove))]
      ensures var g := fibers[f]; var o := old(fibers)[f];
        g.tag == o.tag && g.ftype == o.ftype && g.props == o.props && g.key == o.key
        && g.visited == o.visited && g.index == o.index && g.parent == o.parent
      ensures fibers[f].hooks == |old(hookLists)| && fibers[f].dom.None? && fibers[f].alternate == Some(|old(fibers)|)
      ensures Unlinked(fibers[|old(fibers)|]) == Unlinked(old(fibers)[alt].(child := None))
      ensures fibers[alt].effectTag == Some(Remove)
      ensures alt != f ==> fibers[f].effectTag == Some(Add)
      ensures forall i :: 0 <= i < |old(fibers)| && i != f && i != alt ==>
        Shape(fibers[i]) == Shape(old(fibers)[i]) && fibers[i].effectTag == old(fibers)[i].effectTag
      ensures GrownSince(old(fibers), old(firstEffect), old(lastEffect), old(scheduled))
    {
      AddReplacement(f, alt);
      ghost var fs, a, b, s := fibers, firstEffect, lastEffect, scheduled;
      MarkOne(alt, Remove);
      assert Shape(fibers[f]) == Shape(fs[f]);
      Extended(old(fibers), old(firstEffect), old(lastEffect), old(scheduled), fs, a, b, s);
    }

    /** The first half of the replacement: the new hook array, the copy of `alt`,
        and `f` rewired to them and scheduled with `add`. */
    method AddReplacement(f: FiberId, alt: FiberId)
      requires Valid() && f < |fibers| && alt < |fibers|
      modifies this`fibers, this`hookLists, this`firstEffect, this`lastEffect, this`scheduled
      ensures Valid() && |fibers| == |old(fibers)| + 1 && hookLists == old(hookLists) + [[]]
      ensures scheduled == old(scheduled) + [Intent(f, Some(Add))]
      ensures lastEffect == Some(f)
      ensures Shape(fibers[f]) == Shape(old(fibers)[f].(hooks := |old(hookLists)|, dom := None, alternate := Some(|old(fibers)|)))
      ensures fibers[f].effectTag == Some(Add)
      ensures fibers[|old(fibers)|] == old(fibers)[alt].(child := None)
      ensures forall i :: 0 <= i < |old(fibers)| && i != f ==>
        Shape(fibers[i]) == Shape(old(fibers)[i]) && fibers[i].effectTag == old(fibers)[i].effectTag
      ensures GrownSince(old(fibers), old(firstEffect), old(lastEffect), old(scheduled))
    {
      Rewire(f, alt);
      GrownSame(old(fibers), firstEffect, lastEffect, scheduled, fibers);
      ghost var F := fibers;
      ScheduleEffect(f);
      Extended(old(fibers), old(firstEffect), old(lastEffect), old(scheduled), F, old(firstEffect), old(lastEffect), old(scheduled));
    }

    /** `fiber.hooks = []; fiber.dom = null; fiber.alternate = _createFiber({ ...alt,
        child: null }); fiber.effectTag = 'add'`. */
    method Rewire(f: FiberId, alt: FiberId)
      requires Valid() && f < |fibers| && alt < |fibers|
      modifies this`fibers, this`hookLists
      ensures Valid() && hookLists == old(hookLists) + [[]]
      ensures fibers == old(fibers)[f := old(fibers)[f].(hooks := |old(hookLists)|, dom := None, alternate := Some(|old(fibers)|), effectTag := Some(Add))]
                        + [old(fibers)[alt].(child := None)]
    {
      var hl := NewHookList();
      var copy := NewFiber(fibers[alt].(child := None));
      SetFiber(f, fibers[f].(hooks := hl, dom := None, alternate := Some(copy), effectTag := Some(Add)));
    }

    /** The kind-specific step of `_beginWork`: a function component is rendered, and
        when it carries no intent but has hooks it is queued on the intent chain all
        the same, so that its effects run at commit; a host fiber gets its host object;
        other kinds do nothing. */
    method ProcessKind(f: FiberId) returns (r: Result<()>)
      requires Valid() && f < |fibers|
      modifies this`fibers, this`hookIndex, this`hookLists, this`trace, this`hosts
      modifies this`firstEffect, this`lastEffect, this`scheduled
      ensures Valid() && |fibers| == |old(fibers)| && |hookLists| == |old(hookLists)|
      ensures forall i :: 0 <= i < |fibers| ==> fibers[i].effectTag == old(fibers)[i].effectTag
      ensures forall i :: 0 <= i < |fibers| && i != f ==> Shape(fibers[i]) == Shape(old(fibers)[i])
      ensures Shape(fibers[f]) == Shape(old(fibers)[f]).(props := fibers[f].props, dom := fibers[f].dom)
      ensures old(fibers)[f].tag == FunctionComponent ==>
        && |trace| > |old(trace)| && trace[|old(trace)|] == Invoked(old(fibers)[f].ftype.component, old(fibers)[f].props)
        && fibers[f].dom == old(fibers)[f].dom && hosts == old(hosts)
        && (r.Err? ==> fibers == old(fibers) && scheduled == old(scheduled))
        && (r.Ok? ==>
              && |fibers[f].props.children| == 1 && fibers[f].props.attrs == old(fibers)[f].props.attrs
              && scheduled == old(scheduled) +
                   (if old(fibers)[f].effectTag.None? && |hookLists[fibers[f].hooks]| > 0 then [Intent(f, None)] else []))
      ensures old(fibers)[f].tag == FunctionComponent ==>
        var run := old(RenderOf(f));
        && (r.Ok? <==> run.outcome.Ok?) && (r.Err? ==> r.fault == run.outcome.fault)
        && hookLists == WithList(old(hookLists), old(RenderingList()), run.hooks)
        && (r.Ok? ==> fibers[f].props.children == [run.outcome.value])
      ensures old(fibers)[f].tag != FunctionComponent ==>
        && r.Ok? && scheduled == old(scheduled) && hookLists == old(hookLists) && trace == old(trace)
        && fibers[f].props == old(fibers)[f].props
      ensures IsHostFiber(old(fibers)[f]) ==>
        fibers[f].dom == if old(fibers)[f].dom.Some? || !(old(fibers)[f].ftype == TextType || old(fibers)[f].ftype.HostType?)
                         then old(fibers)[f].dom else Some(|old(hosts)|)
      ensures !IsHostFiber(old(fibers)[f]) ==> fibers[f].dom == old(fibers)[f].dom && hosts == old(hosts)
      ensures old(trace) <= trace
      ensures GrownSince(old(fibers), old(firstEffect), old(lastEffect), old(scheduled))
    {
      if fibers[f].tag == FunctionComponent {
        r := ProcessComponent(f);
      } else {
        ProcessHost(f);
        r := Ok(());
      }
    }

    /** The other cases of `_beginWork`'s switch: a host or text fiber gets its host
        object made when it has none (`UpdateHostComponent`); every other kind is left
        as it is. Neither the log nor the intent chain changes. */
    method ProcessHost(f: FiberId)
      requires Valid() && f < |fibers| && fibers[f].tag != FunctionComponent
      modifies this`fibers, this`hosts
      ensures Valid() && |fibers| == |old(fibers)|
      ensures forall i :: 0 <= i < |fibers| && i != f ==> fibers[i] == old(fibers)[i]
      ensures fibers[f] == old(fibers)[f].(dom := fibers[f].dom)
      ensures IsHostFiber(old(fibers)[f]) ==>
        fibers[f].dom == if old(fibers)[f].dom.Some? || !(old(fibers)[f].ftype == TextType || old(fibers)[f].ftype.HostType?)
                         then old(fibers)[f].dom else Some(|old(hosts)|)
      ensures !IsHostFiber(old(fibers)[f]) ==> fibers[f].dom == old(fibers)[f].dom && hosts == old(hosts)
      ensures GrownSince(old(fibers), firstEffect, lastEffect, scheduled)
    {
      if fibers[f].tag == HostText || fibers[f].tag == HostComponent {
        UpdateHostComponent(f);
      }
      GrownSame(old(fibers), firstEffect, lastEffect, scheduled, fibers);
      ExtendedVia(old(fibers), firstEffect, lastEffect, scheduled, fibers);
    }

    /** The function-component case of `_beginWork`'s switch: render the component,
        then queue it on the intent chain when it has hooks but no intent. */
    method ProcessComponent(f: FiberId) returns (r: Result<()>)
      requires Valid() && f < |fibers| && fibers[f].tag == FunctionComponent
      modifies this`fibers, this`hookIndex, this`hookLists, this`trace
      modifies this`firstEffect, this`lastEffect, this`scheduled
      ensures Valid() && |fibers| == |old(fibers)| && |hookLists| == |old(hookLists)|
      ensures forall i :: 0 <= i < |fibers| ==> fibers[i].effectTag == old(fibers)[i].effectTag
      ensures forall i :: 0 <= i < |fibers| && i != f ==> Shape(fibers[i]) == Shape(old(fibers)[i])
      ensures Shape(fibers[f]) == Shape(old(fibers)[f]).(props := fibers[f].props)
      ensures |trace| > |old(trace)| && trace[|old(trace)|] == Invoked(old(fibers)[f].ftype.component, old(fibers)[f].props)
      ensures old(trace) <= trace
      ensures r.Err? ==> fibers == old(fibers) && scheduled == old(scheduled)
      ensures r.Ok? ==>
        && |fibers[f].props.children| == 1 && fibers[f].props.attrs == old(fibers)[f].props.attrs
        && scheduled == old(scheduled) +
             (if old(fibers)[f].effectTag.None? && |hookLists[fibers[f].hooks]| > 0 then [Intent(f, None)] else [])
      ensures var run := old(RenderOf(f));
        && (r.Ok? <==> run.outcome.Ok?) && (r.Err? ==> r.fault == run.outcome.fault)
        && hookLists == WithList(old(hookLists), old(RenderingList()), run.hooks)
        && (r.Ok? ==> fibers[f].props.children == [run.outcome.value])
      ensures GrownSince(old(fibers), old(firstEffect), old(lastEffect), old(scheduled))
    {
      var results;
      r, results := UpdateFunctionComponent(f);
      GrownSame(old(fibers), firstEffect, lastEffect, scheduled, fibers);
      if r.Err? {
        ExtendedVia(old(fibers), old(firstEffect), old(lastEffect), old(scheduled), fibers);
        return;
      }
      ghost var F := fibers;
      QueueHooked(f);
      Extended(old(fibers), old(firstEffect), old(lastEffect), old(scheduled), F, old(firstEffect), old(lastEffect), old(scheduled));
    }

    /** `if (!fiber.effectTag && fiber.hooks.length) _scheduleEffect(fiber)`: a
        rendered component with hooks and no intent is queued, with no intent, so
        that the commit runs its effects. */
    method QueueHooked(f: FiberId)
      requires Valid() && f < |fibers|
      modifies this`fibers, this`firstEffect, this`lastEffect, this`scheduled
      ensures Valid() && |fibers| == |old(fibers)|
      ensures forall i :: 0 <= i < |fibers| ==> Shape(fibers[i]) == Shape(old(fibers)[i]) && fibers[i].effectTag == old(fibers)[i].effectTag
      ensures scheduled == old(scheduled) +
        (if old(fibers)[f].effectTag.None? && |hookLists[old(fibers)[f].hooks]| > 0 then [Intent(f, None)] else [])
      ensures GrownSince(old(fibers), old(firstEffect), old(lastEffect), old(scheduled))
    {
      if fibers[f].effectTag.None? && |hookLists[fibers[f].hooks]| > 0 {
        ScheduleEffect(f);
      } else {
        GrownSame(fibers, firstEffect, lastEffect, scheduled, fibers);
        ExtendedVia(fibers, firstEffect, lastEffect, scheduled, fibers);
      }
    }

    /** The child step of `_beginWork`: a fiber with children gets a fiber for the
        first one, matched with its alternate's first child, and the walk descends
        into it; a fiber without children marks its alternate's whole child list for
        removal and the walk does not descend. */
    method ExpandChildren(f: FiberId) returns (r: Result<Option<FiberId>>)
      requires Valid() && f < |fibers|
      modifies this`fibers, this`hookLists, this`firstEffect, this`lastEffect, this`scheduled
      ensures Valid()
      ensures var kids := old(fibers)[f].props.children;
        var alt := old(fibers)[f].alternate;
        var altChild := if alt.Some? then old(fibers)[alt.value].child else None;
        kids != [] ==>
          && r == Ok(Some(|old(fibers)|)) && scheduled == old(scheduled)
          && fibers == old(fibers)[f := old(fibers)[f].(child := Some(|old(fibers)|))]
                       + [ChildFiber(old(fibers), kids[0], 0, f, altChild, |old(hookLists)|)]
          && hookLists == old(hookLists) + (if GetWorkTag(kids[0]) == Void || altChild.None? then [[]] else [])
      ensures var alt := old(fibers)[f].alternate;
        var altChild := if alt.Some? then old(fibers)[alt.value].child else None;
        old(fibers)[f].props.children == [] ==>
          && (r.Ok? ==> r.value.None?) && |fibers| == |old(fibers)| && hookLists == old(hookLists)
          && (forall i :: 0 <= i < |fibers| ==> Shape(fibers[i]) == Shape(old(fibers)[i]))
          && (r.Ok? ==> scheduled == old(scheduled) + Removals(Walk(old(fibers), SiblingLink, altChild, |old(fibers)|)))
          && (r.Err? ==> !Distinct(Walk(old(fibers), SiblingLink, altChild, |old(fibers)| + 1)))
      ensures var alt := old(fibers)[f].alternate;
        var altChild := if alt.Some? then old(fibers)[alt.value].child else None;
        var W := Walk(old(fibers), SiblingLink, altChild, |old(fibers)|);
        old(fibers)[f].props.children == [] ==>
          && (forall j :: 0 <= j < |W| ==> fibers[W[j]].effectTag == Some(Remove))
          && (forall i :: 0 <= i < |fibers| && i !in W ==> fibers[i].effectTag == old(fibers)[i].effectTag)
      ensures GrownSince(old(fibers), old(firstEffect), old(lastEffect), old(scheduled))
    {
      var kids := fibers[f].props.children;
      var alt := fibers[f].alternate;
      var altChild := if alt.Some? then fibers[alt.value].child else None;
      if |kids| > 0 {
        var c := SpawnFiber(kids[0], 0, f, altChild);
        SetFiber(f, fibers[f].(child := Some(c)));
        GrownSame(old(fibers), firstEffect, lastEffect, scheduled, fibers);
        return Ok(Some(c));
      }
      var m := MarkRemoved(altChild);
      if m.Err? {
        return Err(m.fault);
      }
      return Ok(None);
    }

    /** `_beginWork(f)`, for the fiber the walk stands on. A fiber visited before is
        left alone. Otherwise it is marked visited and `BeginFresh` does the rest. */
    method BeginWork(f: FiberId) returns (r: Result<Option<FiberId>>)
      requires Valid() && f < |fibers| && nextUnitOfWork == Some(f)
      modifies this`fibers, this`hookIndex, this`hookLists, this`trace, this`hosts
      modifies this`firstEffect, this`lastEffect, this`scheduled
      ensures Valid() && |fibers| >= |old(fibers)|
      ensures old(fibers)[f].visited ==>
        && r == Ok(None) && fibers == old(fibers) && scheduled == old(scheduled) && trace == old(trace)
        && hookLists == old(hookLists) && hosts == old(hosts)
      ensures !old(fibers)[f].visited && DecideVerdict(old(fibers), f).Err? ==> r.Err?
      ensures !old(fibers)[f].visited && r.Ok? ==> Begun(old(fibers), old(hookLists), old(hosts), old(scheduled), f, r.value)
      ensures !old(fibers)[f].visited && r.Ok? && r.value.Some? ==> BegunTag(old(fibers), f)
      ensures !old(fibers)[f].visited && r.Ok? ==> BegunTag(old(fibers), f) || fibers[f].effectTag == Some(Remove)
      ensures old(trace) <= trace
      ensures GrownSince(old(fibers), old(firstEffect), old(lastEffect), old(scheduled))
    {
      if fibers[f].visited {
        GrownSame(fibers, firstEffect, lastEffect, scheduled, fibers);
        return Ok(None);
      }
      ghost var fs := fibers;
      SetFiber(f, fibers[f].(visited := true));
      VerdictIgnoresVisited(fs, f);
      GrownSame(fs, firstEffect, lastEffect, scheduled, fibers);
      ghost var F := fibers;
      r := BeginFresh(f);
      Extended(fs, old(firstEffect), old(lastEffect), old(scheduled), F, old(firstEffect), old(lastEffect), old(scheduled));
    }

    /** What an unvisited fiber's `_beginWork` leaves behind, against the arena,
        hook arrays, host objects and intent log it started from: the fiber is
        visited and its decision succeeded; the intents that decision gives are the
        next entries of the log; a replaced fiber has a hook array and a host object
        (if any) made in this call; and the walk descends exactly when the fiber has
        children, into a new fiber for the first of them. */
    ghost predicate Begun(fs: seq<Fiber>, hls: seq<HookList>, hs: seq<HostObj>, log: seq<Intent>, f: FiberId, next: Option<FiberId>)
      requires f < |fs| && LinksOk(fs)
      reads this
    {
      BegunLog(fs, log, f) && BegunReplace(fs, hls, hs, f) && BegunChild(fs, f, next)
    }

    ghost predicate BegunLog(fs: seq<Fiber>, log: seq<Intent>, f: FiberId)
      requires f < |fs| && LinksOk(fs)
      reads this
    {
      var v := DecideVerdict(fs, f);
      && v.Ok? && f < |fibers| && fibers[f].visited
      && |scheduled| >= |log| + |Logged(f, v.value)|
      && log + Logged(f, v.value) <= scheduled
    }

    ghost predicate BegunReplace(fs: seq<Fiber>, hls: seq<HookList>, hs: seq<HostObj>, f: FiberId)
      requires f < |fs| && LinksOk(fs)
      reads this
    {
      var v := DecideVerdict(fs, f);
      v.Ok? && v.value.Replace? ==>
        f < |fibers| && fibers[f].hooks >= |hls| && (fibers[f].dom.None? || fibers[f].dom.value >= |hs|)
    }

    /** The intent the fiber itself carries afterwards: the one its decision gives. */
    ghost predicate BegunTag(fs: seq<Fiber>, f: FiberId)
      requires f < |fs| && LinksOk(fs)
      reads this
    {
      var v := DecideVerdict(fs, f);
      v.Ok? ==> f < |fibers| && fibers[f].effectTag == VerdictTag(fs[f].effectTag, f, v.value)
    }

    ghost predicate BegunChild(fs: seq<Fiber>, f: FiberId, next: Option<FiberId>)
      requires f < |fs| && LinksOk(fs)
      reads this
    {
      var v := DecideVerdict(fs, f);
      && f < |fibers|
      && (next.None? ==> fibers[f].props.children == [])
      && (next.Some? ==>
            var c := next.value;
            && c == |fibers| - 1 && fibers[f].child == next && fibers[f].props.children != []
            && fibers[c].parent == Some(f) && fibers[c].index == 0
            && fibers[c].tag == GetWorkTag(fibers[f].props.children[0])
            && fibers[c].props == GetProps(fibers[f].props.children[0])
            && (v.Ok? && v.value.Replace? ==> fibers[c].alternate.None?))
    }

    /** The first two steps of `_beginWork` for a fiber just marked visited: decide
        its intent, then run its kind-specific step. */
    method DecideAndProcess(f: FiberId) returns (r: Result<Verdict>)
      requires Valid() && f < |fibers| && fibers[f].visited
      modifies this`fibers, this`hookIndex, this`hookLists, this`trace, this`hosts
      modifies this`firstEffect, this`lastEffect, this`scheduled
      ensures Valid() && |fibers| >= |old(fibers)|
      ensures DecideVerdict(old(fibers), f).Err? ==> r.Err?
      ensures r.Ok? ==> r == DecideVerdict(old(fibers), f) && BegunLog(old(fibers), old(scheduled), f)
      ensures r.Ok? ==> BegunReplace(old(fibers), old(hookLists), old(hosts), f)
      ensures r.Ok? && r.value.Replace? ==>
        fibers[f].alternate.Some? && fibers[f].alternate.value < |fibers| && fibers[fibers[f].alternate.value].child.None?
      ensures r.Ok? ==> BegunTag(old(fibers), f)
      ensures old(trace) <= trace
      ensures GrownSince(old(fibers), old(firstEffect), old(lastEffect), old(scheduled))
    {
      ghost var s0, h0, d0 := scheduled, hookLists, hosts;
      r := Decide(f);
      if r.Err? {
        return;
      }
      ghost var s1, fsD, a1, b1 := scheduled, fibers, firstEffect, lastEffect;
      ghost var hk1, dm1, al1 := fibers[f].hooks, fibers[f].dom, fibers[f].alternate;
      assert r.value.Replace? ==> hk1 >= |h0| && dm1.None? && al1 == Some(|old(fibers)|) && fibers[al1.value].child.None?;
      var p := ProcessKind(f);
      Extended(old(fibers), old(firstEffect), old(lastEffect), old(scheduled), fsD, a1, b1, s1);
      if p.Err? {
        return Err(p.fault);
      }
      assert s1 <= scheduled;
      assert fibers[f].visited && fibers[f].hooks == hk1 && fibers[f].alternate == al1;
      if r.value.Replace? {
        assert al1.value != f;
        assert Shape(fibers[al1.value]) == Shape(fsD[al1.value]);
      }
    }

    /** The body of `_beginWork` for a fiber just marked visited: decide its intent,
        run its kind-specific step, then expand its children. */
    method BeginFresh(f: FiberId) returns (r: Result<Option<FiberId>>)
      requires Valid() && f < |fibers| && fibers[f].visited
      modifies this`fibers, this`hookIndex, this`hookLists, this`trace, this`hosts
      modifies this`firstEffect, this`lastEffect, this`scheduled
      ensures Valid() && |fibers| >= |old(fibers)|
      ensures DecideVerdict(old(fibers), f).Err? ==> r.Err?
      ensures r.Ok? ==> BegunLog(old(fibers), old(scheduled), f)
      ensures r.Ok? ==> BegunReplace(old(fibers), old(hookLists), old(hosts), f)
      ensures r.Ok? ==> BegunChild(old(fibers), f, r.value)
      ensures r.Ok? && r.value.Some? ==> BegunTag(old(fibers), f)
      ensures r.Ok? ==> BegunTag(old(fibers), f) || fibers[f].effectTag == Some(Remove)
      ensures old(trace) <= trace
      ensures GrownSince(old(fibers), old(firstEffect), old(lastEffect), old(scheduled))
    {
      var v := DecideAndProcess(f);
      if v.Err? {
        return Err(v.fault);
      }
      ghost var s1, hk1, dm1 := scheduled, fibers[f].hooks, fibers[f].dom;
      ghost var F, a1, b1, t1 := fibers, firstEffect, lastEffect, fibers[f].effectTag;
      r := ExpandChildren(f);
      Extended(old(fibers), old(firstEffect), old(lastEffect), old(scheduled), F, a1, b1, s1);
      assert fibers[f].effectTag == t1 || fibers[f].effectTag == Some(Remove);
      if r.Err? {
        return;
      }
      PrefixTrans(old(scheduled) + Logged(f, v.value), s1, scheduled);
      assert fibers[f].visited && fibers[f].hooks == hk1 && fibers[f].dom == dm1;
    }

    /** `_completeWork(f)`: when the description `f` came from has a next sibling,
        a fiber for it is made (matched with `f`'s alternate's next sibling), linked
        as `f`'s sibling, and the walk moves to it; otherwise every remaining fiber
        of the alternate's sibling list is marked for removal and the walk returns to
        `f`'s parent. */
    method CompleteWork(f: FiberId) returns (r: Result<Option<FiberId>>)
      requires Valid() && f < |fibers|
      modifies this`fibers, this`hookLists, this`firstEffect, this`lastEffect, this`scheduled
      ensures Valid()
      ensures var o := old(fibers)[f];
        var siblings := if o.parent.Some? then old(fibers)[o.parent.value].props.children else [];
        var altSib := if o.alternate.Some? then old(fibers)[o.alternate.value].sibling else None;
        o.index + 1 < |siblings| ==>
          && r == Ok(Some(|old(fibers)|)) && scheduled == old(scheduled)
          && fibers == old(fibers)[f := o.(sibling := Some(|old(fibers)|))]
                       + [ChildFiber(old(fibers), siblings[o.index + 1], o.index + 1, o.parent.value, altSib, |old(hookLists)|)]
          && hookLists == old(hookLists) + (if GetWorkTag(siblings[o.index + 1]) == Void || altSib.None? then [[]] else [])
      ensures var o := old(fibers)[f];
        var siblings := if o.parent.Some? then old(fibers)[o.parent.value].props.children else [];
        var altSib := if o.alternate.Some? then old(fibers)[o.alternate.value].sibling else None;
        o.index + 1 >= |siblings| ==>
          && |fibers| == |old(fibers)| && hookLists == old(hookLists)
          && (forall i :: 0 <= i < |fibers| ==> Shape(fibers[i]) == Shape(old(fibers)[i]))
          && (r.Ok? ==>
                r.value == o.parent && scheduled == old(scheduled) + Removals(Walk(old(fibers), SiblingLink, altSib, |old(fibers)|)))
          && (r.Err? ==> !Distinct(Walk(old(fibers), SiblingLink, altSib, |old(fibers)| + 1)))
      ensures var o := old(fibers)[f];
        var siblings := if o.parent.Some? then old(fibers)[o.parent.value].props.children else [];
        var altSib := if o.alternate.Some? then old(fibers)[o.alternate.value].sibling else None;
        var W := Walk(old(fibers), SiblingLink, altSib, |old(fibers)|);
        o.index + 1 >= |siblings| ==>
          && (forall j :: 0 <= j < |W| ==> fibers[W[j]].effectTag == Some(Remove))
          && (forall i :: 0 <= i < |fibers| && i !in W ==> fibers[i].effectTag == old(fibers)[i].effectTag)
      ensures GrownSince(old(fibers), old(firstEffect), old(lastEffect), old(scheduled))
    {
      var parent := fibers[f].parent;
      var siblings := if parent.Some? then fibers[parent.value].props.children else [];
      var index := fibers[f].index + 1;
      var alt := fibers[f].alternate;
      var altSib := if alt.Some? then fibers[alt.value].sibling else None;
      if index < |siblings| {
        var s := SpawnFiber(siblings[index], index, parent.value, altSib);
        SetFiber(f, fibers[f].(sibling := Some(s)));
        GrownSame(old(fibers), firstEffect, lastEffect, scheduled, fibers);
        return Ok(Some(s));
      }
      var m := MarkRemoved(altSib);
      if m.Err? {
        return Err(m.fault);
      }
      return Ok(parent);
    }

    /** `_performUnitOfWork(f)`: `_beginWork(f) ?? _completeWork(f)` — the walk
        descends into a new first child when `f` is unvisited and has children, and
        otherwise moves on as `_completeWork` says. */
    method PerformUnitOfWork(f: FiberId) returns (r: Result<Option<FiberId>>)
      requires Valid() && f < |fibers| && nextUnitOfWork == Some(f)
      modifies this`fibers, this`hookIndex, this`hookLists, this`trace, this`hosts
      modifies this`firstEffect, this`lastEffect, this`scheduled
      ensures Valid() && |fibers| >= |old(fibers)|
      ensures r.Ok? ==> InArena(r.value, |fibers|)
      ensures !old(fibers)[f].visited && DecideVerdict(old(fibers), f).Err? ==> r.Err?
      ensures old(fibers)[f].visited ==> trace == old(trace) && hosts == old(hosts)
      ensures !old(fibers)[f].visited && r.Ok? ==> BegunLog(old(fibers), old(scheduled), f)
      ensures r.Ok? ==> old(scheduled) <= scheduled
      ensures old(trace) <= trace
      ensures GrownSince(old(fibers), old(firstEffect), old(lastEffect), old(scheduled))
    {
      r := BeginWork(f);
      ghost var s1, F, a1, b1 := scheduled, fibers, firstEffect, lastEffect;
      ghost var v := DecideVerdict(old(fibers), f);
      ghost var logged := if old(fibers)[f].visited || v.Err? then old(scheduled) else old(scheduled) + Logged(f, v.value);
      if r.Ok? && !old(fibers)[f].visited {
        PrefixTrans(old(scheduled), logged, s1);
      }
      if r.Err? || r.value.Some? {
        return;
      }
      r := CompleteUnit(f);
      Extended(old(fibers), old(firstEffect), old(lastEffect), old(scheduled), F, a1, b1, s1);
      if r.Ok? {
        PrefixTrans(old(scheduled), s1, scheduled);
        PrefixTrans(logged, s1, scheduled);
      }
    }

    /** The `_completeWork(f)` half of a unit of work, seen from the walk: it moves
        to a fiber of the arena, keeps `f` visited or not, and only appends to the
        log and grows the chain. */
    method CompleteUnit(f: FiberId) returns (r: Result<Option<FiberId>>)
      requires Valid() && f < |fibers|
      modifies this`fibers, this`hookLists, this`firstEffect, this`lastEffect, this`scheduled
      ensures Valid() && |fibers| >= |old(fibers)| && fibers[f].visited == old(fibers)[f].visited
      ensures r.Ok? ==> InArena(r.value, |fibers|) && old(scheduled) <= scheduled
      ensures GrownSince(old(fibers), old(firstEffect), old(lastEffect), old(scheduled))
    {
      r := CompleteWork(f);
    }

    // ------------------------------------------------------------------ commit

    /** `_getParentDom(f)`: climb the return path to the first fiber with a dom. The
        result is there exactly when some fiber on the path has a dom. */
    method GetParentDom(f: FiberId) returns (r: Result<DomId>)
      requires Valid() && f < |fibers|
      ensures r == ParentDom(fibers, f)
      ensures r.Ok? <==> exists j :: 0 <= j < |Ancestors(fibers, fibers[f].parent)| && fibers[Ancestors(fibers, fibers[f].parent)[j]].dom.Some?
      ensures r.Ok? ==> r.value < |hosts|
    {
      NearestDomNone(fibers, fibers[f].parent);
      var p := fibers[f].parent;
      while p.Some? && fibers[p.value].dom.None?
        invariant InArena(p, |fibers|)
        invariant NearestDom(fibers, p) == NearestDom(fibers, fibers[f].parent)
        decreases if p.Some? then p.value + 1 else 0
      {
        p := fibers[p.value].parent;
      }
      if p.None? {
        // the source's loop goes on forever here
        return Err(Diverges);
      }
      return Ok(fibers[p.value].dom.value);
    }

    /** `_getFirstDom(f)`, with `fuel` bounding the walk. */
    method GetFirstDom(f: FiberId, fuel: nat) returns (r: Result<Option<DomId>>)
      requires Valid() && f < |fibers|
      ensures r == FirstDom(fibers, f, fuel)
      decreases fuel
    {
      match fibers[f].tag {
        case Void => return Ok(None);
        case HostComponent => return Ok(fibers[f].dom);
        case HostText => return Ok(fibers[f].dom);
        case Root => return Err(UnknownTag);
        case _ =>
          r := FirstDomFrom(fibers[f].child, fuel);
      }
    }

    /** The loop `while (child) { const dom = _getFirstDom(child); if (dom) return dom;
        child = child.sibling }` of `_getFirstDom` and `_getSiblingDom`. */
    method FirstDomFrom(start: Option<FiberId>, fuel: nat) returns (r: Result<Option<DomId>>)
      requires Valid() && InArena(start, |fibers|)
      ensures r == FirstDomAmong(fibers, start, fuel)
      decreases fuel, 0
    {
      var child := start;
      var k: nat := fuel;
      while child.Some?
        invariant InArena(child, |fibers|) && k <= fuel
        invariant FirstDomAmong(fibers, child, k) == FirstDomAmong(fibers, start, fuel)
        decreases k
      {
        if k == 0 {
          return Err(Diverges);
        }
        var d := GetFirstDom(child.value, k - 1);
        if d.Err? {
          return Err(d.fault);
        }
        if d.value.Some? {
          return d;
        }
        child := fibers[child.value].sibling;
        k := k - 1;
      }
      return Ok(None);
    }

    /** `_getSiblingDom(f)`: the anchor a new dom is inserted before. */
    method GetSiblingDom(f: FiberId, fuel: nat) returns (r: Result<Option<DomId>>)
      requires Valid() && f < |fibers|
      ensures r == SiblingDom(fibers, f, fuel)
      decreases f
    {
      var alt := fibers[f].alternate;
      r := FirstDomFrom(if alt.Some? then fibers[alt.value].sibling else None, fuel);
      if r.Err? || r.value.Some? {
        return;
      }
      var p := fibers[f].parent;
      if p.Some? && fibers[p.value].dom.None? {
        r := GetSiblingDom(p.value, fuel);
      }
    }

    /** `_runCleanup(f)`: every effect hook of `f` that has a cleanup runs it, in
        array order. */
    method RunCleanup(f: FiberId)
      requires Valid() && f < |fibers|
      modifies this`trace
      ensures trace == old(trace) + CleanupEvents(hookLists[fibers[f].hooks])
    {
      var hooks := hookLists[fibers[f].hooks];
      for i := 0 to |hooks|
        invariant trace == old(trace) + CleanupEvents(hooks[..i])
      {
        CleanupEventsStep(hooks, i);
        if HasCleanup(hooks[i]) {
          trace := trace + [CleanupRan(hooks[i].value.cleanup.value)];
        }
      }
      assert hooks[..|hooks|] == hooks;
    }

    /** `_removeDom(f, parentDom)`: the trace grows by `RemoveEvents`. */
    method RemoveDom(f: FiberId, parentDom: DomId, fuel: nat) returns (r: Result<()>)
      requires Valid() && f < |fibers|
      modifies this`trace
      ensures var e := RemoveEvents(fibers, hookLists, f, parentDom, fuel);
        (r.Ok? <==> e.Ok?) && (r.Ok? ==> trace == old(trace) + e.value)
      decreases fuel, 1
    {
      match fibers[f].tag {
        case Void => return Ok(());
        case HostComponent =>
          if fibers[f].dom.Some? {
            trace := trace + [RemovedChild(parentDom, fibers[f].dom.value)];
          }
          return Ok(());
        case HostText =>
          if fibers[f].dom.Some? {
            trace := trace + [RemovedChild(parentDom, fibers[f].dom.value)];
          }
          return Ok(());
        case Root => return Err(UnknownTag);
        case FunctionComponent =>
          RunCleanup(f);
          ghost var pre := trace;
          r := RemoveFrom(fibers[f].child, parentDom, fuel);
        case Fragment =>
          r := RemoveFrom(fibers[f].child, parentDom, fuel);
      }
    }

    /** The loop `while (child) { _removeDom(child, domParent); child = child.sibling }`. */
    method RemoveFrom(start: Option<FiberId>, parentDom: DomId, fuel: nat) returns (r: Result<()>)
      requires Valid() && InArena(start, |fibers|)
      modifies this`trace
      ensures var e := RemoveAmong(fibers, hookLists, start, parentDom, fuel);
        (r.Ok? <==> e.Ok?) && (r.Ok? ==> trace == old(trace) + e.value)
      decreases fuel, 0
    {
      var child := start;
      var k: nat := fuel;
      ghost var done: seq<Event> := [];
      ghost var e0 := RemoveAmong(fibers, hookLists, start, parentDom, fuel);
      assert e0.Ok? ==> [] + e0.value == e0.value;
      while child.Some?
        invariant InArena(child, |fibers|) && k <= fuel && trace == old(trace) + done
        invariant RemoveAmong(fibers, hookLists, start, parentDom, fuel)
               == AfterEvents(done, RemoveAmong(fibers, hookLists, child, parentDom, k))
        decreases k
      {
        if k == 0 {
          return Err(Diverges);
        }
        RemoveAmongUnfold(fibers, hookLists, child.value, parentDom, k, done);
        ghost var before := trace;
        var here := RemoveDom(child.value, parentDom, k - 1);
        if here.Err? {
          return here;
        }
        done := done + trace[|before|..];
        child := fibers[child.value].sibling;
        k := k - 1;
      }
      assert done + [] == done;
      return Ok(());
    }

    /** One step of `_commitWork`'s loop: the host calls of `CommitStep`, and the
        effect hooks it collects. */
    method CommitOne(x: FiberId) returns (r: Result<seq<HookRef>>)
      requires Valid() && x < |fibers|
      modifies this`trace
      ensures var s := CommitStep(fibers, hosts, hookLists, x);
        (r.Ok? <==> s.Ok?) && (r.Ok? ==> r.value == s.value.refs && trace == old(trace) + s.value.events)
    {
      var f := fibers[x];
      match f.effectTag {
        case Some(Add) =>
          r := CommitAdd(x);
        case Some(Update) =>
          if f.dom.Some? && hosts[f.dom.value].HostTextNode? {
            trace := trace + [TextSet(f.dom.value, Get(f.props.attrs, "nodeValue"))];
          } else if f.dom.Some? && hosts[f.dom.value].HostElement? {
            var prev := if f.alternate.Some? then fibers[f.alternate.value].props else NoProps;
            trace := trace + [Patched(f.dom.value, DiffProps(prev, f.props))];
          }
          return Ok(DueRefs(hookLists, f.hooks));
        case Some(Remove) =>
          r := CommitRemove(x);
        case None =>
          return Ok(DueRefs(hookLists, f.hooks));
      }
    }

    /** The `add` case of the commit step: patch in all props of a new element, then
        insert the dom under its parent dom, before the sibling dom. */
    method CommitAdd(x: FiberId) returns (r: Result<seq<HookRef>>)
      requires Valid() && x < |fibers| && fibers[x].effectTag == Some(Add)
      modifies this`trace
      ensures var s := CommitStep(fibers, hosts, hookLists, x);
        (r.Ok? <==> s.Ok?) && (r.Ok? ==> r.value == s.value.refs && trace == old(trace) + s.value.events)
    {
      var f := fibers[x];
      if f.dom.Some? && hosts[f.dom.value].HostElement? {
        trace := trace + [Patched(f.dom.value, DiffProps(NoProps, f.props))];
      }
      if f.dom.Some? {
        var e := InsertionOf(x);
        if e.Err? {
          return Err(e.fault);
        }
        trace := trace + [e.value];
      }
      return Ok(DueRefs(hookLists, f.hooks));
    }

    /** `domParent.insertBefore(curr.dom, _getSiblingDom(curr))` for an added fiber
        with a dom: the call, with the parent dom and the sibling dom. */
    method InsertionOf(x: FiberId) returns (r: Result<Event>)
      requires Valid() && x < |fibers| && fibers[x].dom.Some?
      ensures r.Ok? <==> ParentDom(fibers, x).Ok? && SiblingDom(fibers, x, |fibers|).Ok?
      ensures r.Ok? ==> r.value == Inserted(ParentDom(fibers, x).value, fibers[x].dom.value, SiblingDom(fibers, x, |fibers|).value)
    {
      var p := GetParentDom(x);
      if p.Err? {
        return Err(p.fault);
      }
      var b := GetSiblingDom(x, |fibers|);
      if b.Err? {
        return Err(b.fault);
      }
      return Ok(Inserted(p.value, fibers[x].dom.value, b.value));
    }

    /** The `remove` case of the commit step: detach the subtree's doms from the
        parent dom; a removed fiber contributes no effects. */
    method CommitRemove(x: FiberId) returns (r: Result<seq<HookRef>>)
      requires Valid() && x < |fibers| && fibers[x].effectTag == Some(Remove)
      modifies this`trace
      ensures var s := CommitStep(fibers, hosts, hookLists, x);
        (r.Ok? <==> s.Ok?) && (r.Ok? ==> r.value == s.value.refs && trace == old(trace) + s.value.events)
    {
      var p := GetParentDom(x);
      if p.Err? {
        return Err(p.fault);
      }
      var d := RemoveDom(x, p.value, |fibers|);
      if d.Err? {
        return Err(d.fault);
      }
      return Ok([]);
    }

    /** `effects.forEach(effect => { effect.cleanup?.(); effect.cleanup = effect.setup()
        ?? undefined })`: hook arrays and trace as `RunEffects` says. */
    method RunAllEffects(refs: seq<HookRef>)
      requires Valid()
      modifies this`hookLists, this`trace
      ensures Valid()
      ensures hookLists == RunEffects(world, old(hookLists), refs).hookLists
      ensures trace == old(trace) + RunEffects(world, old(hookLists), refs).events
    {
      var i := 0;
      while i < |refs|
        invariant 0 <= i <= |refs| && Valid() && |hookLists| == |old(hookLists)|
        invariant RunEffects(world, hookLists, refs[i..]).hookLists == RunEffects(world, old(hookLists), refs).hookLists
        invariant trace + RunEffects(world, hookLists, refs[i..]).events == old(trace) + RunEffects(world, old(hookLists), refs).events
      {
        var ref := refs[i];
        assert refs[i..][0] == ref && refs[i..][1..] == refs[i + 1..];
        if IsEffectRef(hookLists, ref) {
          var h := hookLists[ref.list][ref.slot].value;
          if h.cleanup.Some? {
            trace := trace + [CleanupRan(h.cleanup.value)];
          }
          var v := world.call(h.setup, []);
          trace := trace + [SetupRan(h.setup)];
          hookLists := hookLists[ref.list := hookLists[ref.list][ref.slot := Some(h.(cleanup := CleanupOf(v)))]];
        }
        i := i + 1;
      }
    }

    /** One turn of `_commitWork`'s loop on `x`: the step, then `const tmp = curr; curr =
        curr.nextEffect; tmp.effectTag = null; tmp.nextEffect = null`. */
    method CommitAndClear(x: FiberId) returns (r: Result<seq<HookRef>>, next: Option<FiberId>)
      requires Valid() && x < |fibers|
      modifies this`fibers, this`trace
      ensures Valid() && |fibers| == |old(fibers)| && next == old(fibers)[x].nextEffect
      ensures var s := CommitStep(old(fibers), hosts, hookLists, x);
        && (r.Ok? <==> s.Ok?)
        && (r.Ok? ==> r.value == s.value.refs && trace == old(trace) + s.value.events
                      && fibers == ClearIntent(old(fibers), hookLists, x))
    {
      next := fibers[x].nextEffect;
      r := CommitOne(x);
      if r.Err? {
        return;
      }
      SetFiber(x, fibers[x].(effectTag := None, nextEffect := None));
    }

    /** `CommitAndClear` read against `CommitLoop`: a failing step fails the loop;
        otherwise what the loop from `x` gives, after the trace so far and `effects`,
        is what it gives from the next fiber after the trace and effects of the step
        too. */
    method CommitTurn(x: FiberId, ghost effects: seq<HookRef>) returns (r: Result<seq<HookRef>>, next: Option<FiberId>)
      requires Valid() && x < |fibers|
      modifies this`fibers, this`trace
      ensures Valid() && InArena(next, |fibers|)
      ensures r.Ok? ==> LinkedCount(fibers) + (if next.Some? then 1 else 0) == LinkedCount(old(fibers))
      ensures r.Err? ==> CommitLoop(old(fibers), hosts, hookLists, Some(x)).Err?
      ensures r.Ok? ==>
        After(old(trace), effects, CommitLoop(old(fibers), hosts, hookLists, Some(x)))
        == After(trace, effects + r.value, CommitLoop(fibers, hosts, hookLists, next))
    {
      CommitLoopUnfold(fibers, hosts, hookLists, x, trace, effects);
      r, next := CommitAndClear(x);
    }

    /** The `while (curr)` loop of `_commitWork`: arena, host calls and collected
        effects as `CommitLoop` says. */
    method CommitChain(first: Option<FiberId>) returns (r: Result<seq<HookRef>>)
      requires Valid() && InArena(first, |fibers|)
      modifies this`fibers, this`trace
      ensures Valid()
      ensures var c := CommitLoop(old(fibers), hosts, hookLists, first);
        && (r.Ok? <==> c.Ok?)
        && (r.Ok? ==> fibers == c.value.fibers && trace == old(trace) + c.value.events && r.value == c.value.refs)
    {
      var effects: seq<HookRef> := [];
      var curr := first;
      ghost var c0 := After(trace, [], CommitLoop(fibers, hosts, hookLists, first));
      while curr.Some?
        invariant Valid() && InArena(curr, |fibers|)
        invariant c0 == After(trace, effects, CommitLoop(fibers, hosts, hookLists, curr))
        decreases LinkedCount(fibers) + (if curr.Some? then 1 else 0)
      {
        var s, next := CommitTurn(curr.value, effects);
        if s.Err? {
          return Err(s.fault);
        }
        effects := effects + s.value;
        curr := next;
      }
      assert trace + [] == trace && effects + [] == effects;
      ghost var c := CommitLoop(old(fibers), hosts, hookLists, first);
      assert c.Ok? ==> [] + c.value.refs == c.value.refs;
      return Ok(effects);
    }

    /** `_commitWork(first)`: the loop over the intent chain, as `CommitLoop` reads it,
        then the effect phase over the collected effects. */
    method CommitWork(first: Option<FiberId>) returns (r: Result<()>)
      requires Valid() && InArena(first, |fibers|)
      modifies this`fibers, this`hookLists, this`trace
      ensures Valid()
      ensures var c := CommitLoop(old(fibers), hosts, old(hookLists), first);
        && (r.Ok? <==> c.Ok?)
        && (r.Ok? ==>
              var fx := RunEffects(world, old(hookLists), c.value.refs);
              && fibers == c.value.fibers && hookLists == fx.hookLists
              && trace == old(trace) + c.value.events + fx.events)
    {
      var effects := CommitChain(first);
      if effects.Err? {
        return Err(effects.fault);
      }
      RunAllEffects(effects.value);
      return Ok(());
    }

    // ------------------------------------------------------------ entry points

    /** `_workLoop(deadline)`, with `budget` the number of times `timeRemaining()`
        answers positive. With no unit of work left and a work-in-progress root, the
        root becomes the current one and the intent chain from `firstEffect` is
        committed; nothing else happens and no further tick is requested. Otherwise
        units of work are performed while there is one and budget left, the
        intents scheduled so far are kept, and a further tick is requested. */
    method WorkLoop(budget: nat) returns (r: Result<()>, steps: nat)
      requires Valid()
      modifies this`fibers, this`hookIndex, this`hookLists, this`trace, this`hosts
      modifies this`firstEffect, this`lastEffect, this`scheduled
      modifies this`nextUnitOfWork, this`currentRoot, this`wipRoot
      ensures Valid()
      ensures old(nextUnitOfWork).None? && old(wipRoot).Some? ==>
        && currentRoot == old(wipRoot) && wipRoot.None? && steps == 0
        && nextUnitOfWork.None? && firstEffect == old(firstEffect) && lastEffect == old(lastEffect)
        && var c := CommitLoop(old(fibers), old(hosts), old(hookLists), old(firstEffect));
           && (r.Ok? <==> c.Ok?)
           && (r.Ok? ==>
                 var fx := RunEffects(world, old(hookLists), c.value.refs);
                 && fibers == c.value.fibers && hookLists == fx.hookLists
                 && trace == old(trace) + c.value.events + fx.events)
      ensures !(old(nextUnitOfWork).None? && old(wipRoot).Some?) ==>
        && currentRoot == old(currentRoot) && wipRoot == old(wipRoot) && steps <= budget
        && |fibers| >= |old(fibers)|
        && (old(nextUnitOfWork).None? ==> steps == 0 && fibers == old(fibers) && trace == old(trace) + [TickRequested])
        && GrownSince(old(fibers), old(firstEffect), old(lastEffect), old(scheduled))
        && (r.Ok? ==>
              && (nextUnitOfWork.None? || steps == budget)
              && old(scheduled) <= scheduled
              && old(trace) <= trace && |trace| > |old(trace)| && trace[|trace| - 1] == TickRequested)
    {
      steps := 0;
      if nextUnitOfWork.None? && wipRoot.Some? {
        currentRoot := wipRoot;
        wipRoot := None;
        r := CommitWork(firstEffect);
        return;
      }
      r, steps := RunUnits(budget);
    }

    /** The working half of `_workLoop`: units of work are performed while there is
        one and budget left, the intents scheduled so far are kept, and a further
        tick is requested. */
    method RunUnits(budget: nat) returns (r: Result<()>, steps: nat)
      requires Valid()
      modifies this`fibers, this`hookIndex, this`hookLists, this`trace, this`hosts
      modifies this`firstEffect, this`lastEffect, this`scheduled, this`nextUnitOfWork
      ensures Valid() && steps <= budget && |fibers| >= |old(fibers)|
      ensures old(nextUnitOfWork).None? ==> steps == 0 && fibers == old(fibers) && trace == old(trace) + [TickRequested]
      ensures r.Ok? ==>
        && (nextUnitOfWork.None? || steps == budget)
        && old(scheduled) <= scheduled
        && old(trace) <= trace && |trace| > |old(trace)| && trace[|trace| - 1] == TickRequested
      ensures GrownSince(old(fibers), old(firstEffect), old(lastEffect), old(scheduled))
    {
      steps := 0;
      GrownSame(fibers, firstEffect, lastEffect, scheduled, fibers);
      while nextUnitOfWork.Some? && steps < budget
        invariant Valid() && steps <= budget && |fibers| >= |old(fibers)|
        invariant old(scheduled) <= scheduled
        invariant old(trace) <= trace
        invariant old(nextUnitOfWork).None? ==> nextUnitOfWork.None? && steps == 0 && fibers == old(fibers) && trace == old(trace)
        invariant GrownSince(old(fibers), old(firstEffect), old(lastEffect), old(scheduled))
        decreases budget - steps
      {
        ghost var s0, F, a, b := scheduled, fibers, firstEffect, lastEffect;
        var next := PerformUnitOfWork(nextUnitOfWork.value);
        Extended(old(fibers), old(firstEffect), old(lastEffect), old(scheduled), F, a, b, s0);
        if next.Err? {
          return Err(next.fault), steps;
        }
        PrefixTrans(old(scheduled), s0, scheduled);
        nextUnitOfWork := next.value;
        steps := steps + 1;
      }
      trace := trace + [TickRequested];
      return Ok(()), steps;
    }

    /** `render(el, dom)` as written: a new work-in-progress root for `dom`, the walk
        starts at it and a tick is requested. The intent chain is left as the last
        commit left it. */
    method Render(el: Element, dom: DomId)
      requires Valid() && dom < |hosts|
      modifies this`fibers, this`hookLists, this`wipRoot, this`nextUnitOfWork, this`trace
      ensures Valid() && hookLists == old(hookLists) + [[]]
      ensures fibers == old(fibers) + [RootFor(el, dom, currentRoot, |old(hookLists)|)]
      ensures wipRoot == Some(|old(fibers)|) && nextUnitOfWork == wipRoot
      ensures trace == old(trace) + [TickRequested]
    {
      var hooks := NewHookList();
      var root := NewFiber(RootFor(el, dom, currentRoot, hooks));
      wipRoot := Some(root);
      nextUnitOfWork := wipRoot;
      trace := trace + [TickRequested];
    }

    /** `render` with the intent chain reset, as the state setter does: the walk that
        follows starts from an empty, well-formed chain. */
    method RenderFresh(el: Element, dom: DomId)
      requires Valid() && dom < |hosts|
      modifies this`fibers, this`hookLists, this`wipRoot, this`nextUnitOfWork, this`trace
      modifies this`firstEffect, this`lastEffect, this`scheduled
      ensures Valid() && hookLists == old(hookLists) + [[]]
      ensures fibers == old(fibers) + [RootFor(el, dom, currentRoot, |old(hookLists)|)]
      ensures wipRoot == Some(|old(fibers)|) && nextUnitOfWork == wipRoot
      ensures trace == old(trace) + [TickRequested]
      ensures scheduled == [] && ChainOk(fibers, firstEffect, lastEffect, FibersOf(scheduled))
    {
      Render(el, dom);
      firstEffect, lastEffect := None, None;
      scheduled := [];
    }

    /** `hook.pending.push(arg)` on the state hook `ref` names. */
    method EnqueueAt(ref: HookRef, arg: Value)
      requires Valid() && ref.list < |hookLists| && ref.slot < |hookLists[ref.list]|
      requires hookLists[ref.list][ref.slot].Some? && hookLists[ref.list][ref.slot].value.StateHook?
      modifies this`hookLists
      ensures Valid()
      ensures hookLists == old(hookLists)[ref.list := old(hookLists)[ref.list][ref.slot := Some(Enqueue(old(hookLists)[ref.list][ref.slot].value, arg))]]
    {
      var h := hookLists[ref.list][ref.slot].value;
      hookLists := hookLists[ref.list := hookLists[ref.list][ref.slot := Some(Enqueue(h, arg))]];
    }

    /** `_wipRoot = _createFiber({..._currentRoot, ...})`: the arena grows by the root
        copy. */
    method NewRootCopy(hooks: nat) returns (id: FiberId)
      requires Valid() && (currentRoot.None? ==> hooks < |hookLists|)
      modifies this`fibers
      ensures Valid() && id == |old(fibers)| && fibers == old(fibers) + [RootCopy(old(fibers), currentRoot, hooks)]
    {
      var g := RootCopy(fibers, currentRoot, hooks);
      if currentRoot.Some? {
        var c := fibers[currentRoot.value];
        assert g.parent == c.parent && g.dom == c.dom && g.hooks == c.hooks && g.nextEffect == c.nextEffect;
      }
      id := NewFiber(g);
    }

    /** The rest of the setter: a new work-in-progress root copied from the current
        one is where the next walk starts, the intent chain is reset, and a tick is
        requested. */
    method RestartFromCurrent()
      requires Valid()
      modifies this`fibers, this`hookLists, this`wipRoot, this`nextUnitOfWork, this`trace
      modifies this`firstEffect, this`lastEffect, this`scheduled
      ensures Valid() && hookLists == old(hookLists) + (if currentRoot.None? then [[]] else [])
      ensures fibers == old(fibers) + [RootCopy(old(fibers), currentRoot, |old(hookLists)|)]
      ensures wipRoot == Some(|old(fibers)|) && nextUnitOfWork == wipRoot
      ensures firstEffect.None? && lastEffect.None? && scheduled == [] && ChainOk(fibers, firstEffect, lastEffect, [])
      ensures trace == old(trace) + [TickRequested]
    {
      StartFromCopy();
      firstEffect, lastEffect := None, None;
      scheduled := [];
      trace := trace + [TickRequested];
    }

    /** The new work-in-progress root of the setter, copied from the current one,
        and the walk's start at it. */
    method StartFromCopy()
      requires Valid()
      modifies this`fibers, this`hookLists, this`wipRoot, this`nextUnitOfWork
      ensures Valid() && hookLists == old(hookLists) + (if currentRoot.None? then [[]] else [])
      ensures fibers == old(fibers) + [RootCopy(old(fibers), currentRoot, |old(hookLists)|)]
      ensures wipRoot == Some(|old(fibers)|) && nextUnitOfWork == wipRoot
    {
      var hooks := |hookLists|;
      if currentRoot.None? {
        hooks := NewHookList();
      }
      var root := NewRootCopy(hooks);
      wipRoot := Some(root);
      nextUnitOfWork := wipRoot;
    }

    /** A state hook's setter, called with `arg`: the update joins the end of the
        hook's queue, then the walk restarts from a copy of the current root with an
        empty intent chain. */
    method Dispatch(ref: HookRef, arg: Value)
      requires Valid() && ref.list < |hookLists| && ref.slot < |hookLists[ref.list]|
      requires hookLists[ref.list][ref.slot].Some? && hookLists[ref.list][ref.slot].value.StateHook?
      modifies this`fibers, this`hookLists, this`wipRoot, this`nextUnitOfWork, this`trace
      modifies this`firstEffect, this`lastEffect, this`scheduled
      ensures Valid()
      ensures var h := old(hookLists)[ref.list][ref.slot].value;
        var made := if currentRoot.None? then [[]] else [];
        hookLists == old(hookLists)[ref.list := old(hookLists)[ref.list][ref.slot := Some(Enqueue(h, arg))]] + made
      ensures fibers == old(fibers) + [RootCopy(old(fibers), currentRoot, |old(hookLists)|)]
      ensures wipRoot == Some(|old(fibers)|) && nextUnitOfWork == wipRoot
      ensures firstEffect.None? && lastEffect.None? && scheduled == [] && ChainOk(fibers, firstEffect, lastEffect, [])
      ensures trace == old(trace) + [TickRequested]
    {
      EnqueueAt(ref, arg);
      RestartFromCurrent();
    }

    /** `unmountAt(dom)`: the container is emptied and every module-level variable
        is reset, so no walk, root or intent chain remains. */
    method UnmountAt(dom: DomId)
      requires Valid()
      modifies this`trace, this`nextUnitOfWork, this`currentRoot, this`wipRoot
      modifies this`firstEffect, this`lastEffect, this`hookIndex, this`scheduled
      ensures Valid() && trace == old(trace) + [Cleared(dom)]
      ensures nextUnitOfWork.None? && currentRoot.None? && wipRoot.None? && hookIndex == -1
      ensures firstEffect.None? && lastEffect.None? && scheduled == []
    {
      trace := trace + [Cleared(dom)];
      nextUnitOfWork, currentRoot, wipRoot := None, None, None;
      firstEffect, lastEffect := None, None;
      hookIndex := -1;
      scheduled := [];
    }
}
}
