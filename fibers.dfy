/** The fiber arena as values: the work-node record, the intent (effect) chain,
    sibling chains and their reordering, and the walks the committer makes to find
    host objects. The engine's methods (module Reconciler) are proved against these. */
module Fibers {
  import opened Values
  import opened Elements
  import opened PropsDiff
  import opened Foreign
  import opened Hooks

  type FiberId = nat

  /** A mutation intent. */
  datatype EffectTag = Add | Update | Remove

  /** One `_scheduleEffect` call: the fiber put on the intent chain and the intent
      it carried at that moment (none for a function component queued only for its
      effects). */
  datatype Intent = Intent(fiber: FiberId, tag: Option<EffectTag>)

  /** The fibers of a log of scheduled intents, in order. */
  function FibersOf(log: seq<Intent>): (r: seq<FiberId>)
    ensures |r| == |log| && forall i :: 0 <= i < |log| ==> r[i] == log[i].fiber
  {
    seq(|log|, i requires 0 <= i < |log| => log[i].fiber)
  }

  /** The log entries of marking the fibers `W` for removal, one after the other. */
  function Removals(W: seq<FiberId>): (r: seq<Intent>)
    ensures |r| == |W| && forall j :: 0 <= j < |W| ==> r[j] == Intent(W[j], Some(Remove))
  {
    seq(|W|, j requires 0 <= j < |W| => Intent(W[j], Some(Remove)))
  }

  /** A work node. Links are arena indices and `parent` is the source's `return`
      link. `hooks` names an array of the hook arena: a fiber and its alternate can
      share one, as they share the array object in the source. */
  datatype Fiber = Fiber(
    key: Value, tag: Tag, ftype: ElemType, props: Props, hooks: nat, index: nat, visited: bool,
    child: Option<FiberId>, sibling: Option<FiberId>, parent: Option<FiberId>,
    dom: Option<DomId>, effectTag: Option<EffectTag>, nextEffect: Option<FiberId>,
    alternate: Option<FiberId>)

  /** `_createFiber({tag, type})`: every other field at its default, with `hooks` the
      (fresh) array given. */
  function BlankFiber(tag: Tag, ftype: ElemType, hooks: nat): (f: Fiber)
    ensures f.key == Null && f.props == NoProps && f.index == 0 && !f.visited
    ensures f.child.None? && f.sibling.None? && f.parent.None? && f.dom.None?
    ensures f.effectTag.None? && f.nextEffect.None? && f.alternate.None?
  {
    Fiber(Null, tag, ftype, NoProps, hooks, 0, false, None, None, None, None, None, None, None)
  }

  /** The fiber `_beginWork` (first child) and `_completeWork` (next sibling) create
      for child description `c` at position `index` under `parent`, matched by
      position with `alt`: its kind, key, type and props are the normalisers'
      results, and it takes over `alt`'s hook array and host object, except that a
      void fiber, or one without a match, gets the new empty hook array `newHooks` and
      no host object. */
  function ChildFiber(fs: seq<Fiber>, c: Node, index: nat, parent: FiberId, alt: Option<FiberId>, newHooks: nat): (g: Fiber)
    requires alt.None? || alt.value < |fs|
    ensures g.tag == GetWorkTag(c) && g.key == GetKey(c) && g.ftype == GetWorkType(c) && g.props == GetProps(c)
    ensures g.index == index && g.parent == Some(parent) && g.alternate == alt && !g.visited
    ensures g.child.None? && g.sibling.None? && g.effectTag.None? && g.nextEffect.None?
    ensures g.tag == Void || alt.None? ==> g.hooks == newHooks && g.dom.None?
    ensures g.tag != Void && alt.Some? ==> g.hooks == fs[alt.value].hooks && g.dom == fs[alt.value].dom
  {
    var tag := GetWorkTag(c);
    var reuse := tag != Void && alt.Some?;
    Fiber(GetKey(c), tag, GetWorkType(c), GetProps(c), if reuse then fs[alt.value].hooks else newHooks, index, false,
          None, None, Some(parent), if reuse then fs[alt.value].dom else None, None, None, alt)
  }

  predicate InArena(l: Option<FiberId>, n: nat) {
    l.None? || l.value < n
  }

  /** Every link names a fiber of the arena, and a `return` link names an older
      fiber (a fiber is always created after the one it returns to). */
  predicate LinksOk(fs: seq<Fiber>) {
    forall i :: 0 <= i < |fs| ==>
      InArena(fs[i].child, |fs|) && InArena(fs[i].sibling, |fs|) && InArena(fs[i].nextEffect, |fs|)
      && InArena(fs[i].alternate, |fs|) && (fs[i].parent.Some? ==> fs[i].parent.value < i)
  }

  predicate HooksOk(fs: seq<Fiber>, hls: seq<HookList>) {
    forall i :: 0 <= i < |fs| ==> fs[i].hooks < |hls|
  }

  predicate Distinct(s: seq<nat>) {
    forall i, j :: 0 <= i < j < |s| ==> s[i] != s[j]
  }

  function Elems(s: seq<nat>): set<nat> {
    set i | 0 <= i < |s| :: s[i]
  }

  lemma {:induction false} DistinctCard(s: seq<nat>)
    requires Distinct(s)
    ensures |Elems(s)| == |s|
    decreases |s|
  {
    if s != [] {
      var t := s[..|s| - 1];
      DistinctCard(t);
      assert Elems(s) == Elems(t) + {s[|s| - 1]};
      assert s[|s| - 1] !in Elems(t);
    }
  }

  lemma {:induction false} SetBound(X: set<nat>, n: nat)
    requires forall x :: x in X ==> x < n
    ensures |X| <= n
  {
    if X != {} {
      var y :| y in X;
      assert y < n;
      SetBound(X - {n - 1}, n - 1);
    }
  }

  /** Pigeonhole: a list of distinct fibers of an arena of `n` is at most `n` long.
      So a link walk longer than the arena has met some fiber twice and goes round
      a cycle forever. */
  lemma DistinctBound(s: seq<nat>, n: nat)
    requires Distinct(s) && forall i :: 0 <= i < |s| ==> s[i] < n
    ensures |s| <= n
  {
    DistinctCard(s);
    SetBound(Elems(s), n);
  }

  // -------------------------------------------------------------- list walks

  /** The two list links a fiber carries. */
  datatype Link = SiblingLink | EffectLink

  function Follow(f: Fiber, link: Link): Option<FiberId> {
    match link
    case SiblingLink => f.sibling
    case EffectLink => f.nextEffect
  }

  /** The fibers met following `link` from `cur`, at most `n` of them. */
  function Walk(fs: seq<Fiber>, link: Link, cur: Option<FiberId>, n: nat): (w: seq<FiberId>)
    ensures |w| <= n && forall i :: 0 <= i < |w| ==> w[i] < |fs|
    decreases n
  {
    if n == 0 || cur.None? || cur.value >= |fs| then [] else [cur.value] + Walk(fs, link, Follow(fs[cur.value], link), n - 1)
  }

  /** Where a walk from `cur` stands after `n` steps (`None` once the list ended). */
  function Reach(fs: seq<Fiber>, link: Link, cur: Option<FiberId>, n: nat): Option<FiberId>
    decreases n
  {
    if n == 0 then cur
    else if cur.None? || cur.value >= |fs| then None
    else Reach(fs, link, Follow(fs[cur.value], link), n - 1)
  }

  /** One more step of a walk adds the fiber it stands on, and moves along its link. */
  lemma {:induction false} WalkSnoc(fs: seq<Fiber>, link: Link, cur: Option<FiberId>, n: nat)
    ensures var at := Reach(fs, link, cur, n);
      && Walk(fs, link, cur, n + 1) == Walk(fs, link, cur, n) + (if at.Some? && at.value < |fs| then [at.value] else [])
      && Reach(fs, link, cur, n + 1) == (if at.Some? && at.value < |fs| then Follow(fs[at.value], link) else None)
    decreases n
  {
    if n > 0 && cur.Some? && cur.value < |fs| {
      WalkSnoc(fs, link, Follow(fs[cur.value], link), n - 1);
    }
  }

  /** A walk that meets more fibers than the arena holds has met one of them twice:
      the list is a cycle and the source's loop along it never ends. */
  lemma WalkRepeats(fs: seq<Fiber>, link: Link, cur: Option<FiberId>)
    requires |Walk(fs, link, cur, |fs| + 1)| == |fs| + 1
    ensures !Distinct(Walk(fs, link, cur, |fs| + 1))
  {
    var w := Walk(fs, link, cur, |fs| + 1);
    if Distinct(w) {
      DistinctBound(w, |fs|);
    }
  }

  /** Walks only look at the link they follow. */
  lemma {:induction false} WalkSameLinks(fs: seq<Fiber>, fs': seq<Fiber>, link: Link, cur: Option<FiberId>, n: nat)
    requires |fs'| == |fs| && forall i :: 0 <= i < |fs| ==> Follow(fs'[i], link) == Follow(fs[i], link)
    ensures Walk(fs', link, cur, n) == Walk(fs, link, cur, n) && Reach(fs', link, cur, n) == Reach(fs, link, cur, n)
    decreases n
  {
    if n > 0 && cur.Some? && cur.value < |fs| {
      WalkSameLinks(fs, fs', link, Follow(fs[cur.value], link), n - 1);
    }
  }

  // --------------------------------------------------------------- intent chain

  /** The intent chain holds exactly the fibers `E`, in order: `first` and `last` are
      its ends, each links to the next by `nextEffect`, the last to nothing, and no
      fiber occurs twice. An empty chain has no ends. */
  predicate ChainOk(fs: seq<Fiber>, first: Option<FiberId>, last: Option<FiberId>, E: seq<FiberId>) {
    (forall i :: 0 <= i < |E| ==> E[i] < |fs|)
    && Distinct(E)
    && (E == [] ==> first.None? && last.None?)
    && (E != [] ==>
          first == Some(E[0]) && last == Some(E[|E| - 1])
          && (forall i :: 0 <= i < |E| - 1 ==> fs[E[i]].nextEffect == Some(E[i + 1]))
          && fs[E[|E| - 1]].nextEffect.None?)
  }

  datatype ChainState = ChainState(fibers: seq<Fiber>, first: Option<FiberId>, last: Option<FiberId>)

  /** `_scheduleEffect(f)` as a function of the state it touches: an empty chain
      starts at `f`; otherwise the tail links to `f`. Either way `f` is the tail. */
  function AppendEffect(fs: seq<Fiber>, first: Option<FiberId>, last: Option<FiberId>, f: FiberId): (r: ChainState)
    requires InArena(last, |fs|)
    ensures r.last == Some(f) && |r.fibers| == |fs|
  {
    if last.None? then ChainState(fs, Some(f), Some(f))
    else ChainState(fs[last.value := fs[last.value].(nextEffect := Some(f))], first, Some(f))
  }

  /** Appending a fiber that is not yet in the chain and links nowhere keeps the
      chain well formed, with the fiber at its end. */
  lemma AppendKeepsChain(fs: seq<Fiber>, first: Option<FiberId>, last: Option<FiberId>, E: seq<FiberId>, f: FiberId)
    requires ChainOk(fs, first, last, E) && InArena(last, |fs|)
    requires f < |fs| && f !in E && fs[f].nextEffect.None?
    ensures var r := AppendEffect(fs, first, last, f); ChainOk(r.fibers, r.first, r.last, E + [f])
  {
    var r := AppendEffect(fs, first, last, f);
    var E' := E + [f];
    assert forall i :: 0 <= i < |E| ==> E'[i] == E[i];
    if E != [] {
      var n := |E| - 1;
      forall i | 0 <= i < |E'| - 1
        ensures r.fibers[E'[i]].nextEffect == Some(E'[i + 1])
      {
        if i < n {
          assert E[i] != E[n];
        }
      }
    }
  }

  lemma {:induction false} ChainWalkFrom(fs: seq<Fiber>, first: Option<FiberId>, last: Option<FiberId>, E: seq<FiberId>, k: nat, n: nat)
    requires ChainOk(fs, first, last, E) && k < |E| && n > |E| - k
    ensures Walk(fs, EffectLink, Some(E[k]), n) == E[k..]
    decreases |E| - k
  {
    if k == |E| - 1 {
      assert Walk(fs, EffectLink, fs[E[k]].nextEffect, n - 1) == [];
    } else {
      ChainWalkFrom(fs, first, last, E, k + 1, n - 1);
      assert E[k..] == [E[k]] + E[k + 1..];
    }
  }

  /** Walking a well-formed chain from its head visits exactly its fibers, in order,
      and then stops. */
  lemma ChainWalk(fs: seq<Fiber>, first: Option<FiberId>, last: Option<FiberId>, E: seq<FiberId>, n: nat)
    requires ChainOk(fs, first, last, E) && n > |E|
    ensures Walk(fs, EffectLink, first, n) == E
  {
    if E != [] {
      ChainWalkFrom(fs, first, last, E, 0, n);
    }
  }

  /** The chain `_scheduleEffect` builds from an empty state lists the scheduled
      fibers in call order and ends at the last one scheduled. */
  lemma {:induction false} ScheduleInOrder(fs: seq<Fiber>, first: Option<FiberId>, last: Option<FiberId>, E: seq<FiberId>, f: FiberId, n: nat)
    requires ChainOk(fs, first, last, E) && InArena(last, |fs|)
    requires f < |fs| && f !in E && fs[f].nextEffect.None? && n > |E| + 1
    ensures var r := AppendEffect(fs, first, last, f); Walk(r.fibers, EffectLink, r.first, n) == E + [f] && r.last == Some(f)
  {
    AppendKeepsChain(fs, first, last, E, f);
    var r := AppendEffect(fs, first, last, f);
    ChainWalk(r.fibers, r.first, r.last, E + [f], n);
  }

  /** What a run of `_scheduleEffect` calls does to the intent chain: its new ends,
      and, for each fiber it wrote a `nextEffect` link to, the last link written. */
  datatype ChainEdit = ChainEdit(first: Option<FiberId>, last: Option<FiberId>, links: map<FiberId, FiberId>)

  /** `_scheduleEffect` of each fiber of `S` in turn, on a chain with ends `first`
      and `last`: each call links the tail to the fiber, or starts an empty chain at
      it, and makes it the tail. */
  function ScheduleAll(first: Option<FiberId>, last: Option<FiberId>, S: seq<FiberId>): (r: ChainEdit)
    decreases |S|
    ensures r.last == if S == [] then last else Some(S[|S| - 1])
  {
    if S == [] then ChainEdit(first, last, map[])
    else
      var p := ScheduleAll(first, last, S[..|S| - 1]);
      var f := S[|S| - 1];
      if p.last.None? then ChainEdit(Some(f), Some(f), p.links)
      else ChainEdit(p.first, Some(f), p.links[p.last.value := f])
  }

  /** Scheduling `S1` and then `S2` is scheduling `S1 + S2`; links written later win. */
  lemma {:induction false} ScheduleAllConcat(first: Option<FiberId>, last: Option<FiberId>, S1: seq<FiberId>, S2: seq<FiberId>)
    decreases |S2|
    ensures var p := ScheduleAll(first, last, S1);
      var q := ScheduleAll(p.first, p.last, S2);
      ScheduleAll(first, last, S1 + S2) == ChainEdit(q.first, q.last, p.links + q.links)
  {
    if S2 == [] {
      assert S1 + S2 == S1;
    } else {
      var n := |S2| - 1;
      ScheduleAllConcat(first, last, S1, S2[..n]);
      assert (S1 + S2)[..|S1 + S2| - 1] == S1 + S2[..n];
      var p := ScheduleAll(first, last, S1);
      var q' := ScheduleAll(p.first, p.last, S2[..n]);
      var g := S2[n];
      assert (S1 + S2)[|S1 + S2| - 1] == g;
      var w := ScheduleAll(first, last, S1 + S2[..n]);
      assert w == ChainEdit(q'.first, q'.last, p.links + q'.links);
      if q'.last.Some? {
        assert (p.links + q'.links)[q'.last.value := g] == p.links + q'.links[q'.last.value := g];
      }
    }
  }

  /** Scheduling fibers `S` onto a chain whose ends are those of `E`, when no fiber
      of `E + S` occurs twice, chains `E + S`: the ends become those of `E + S`, each
      fiber from `E`'s tail on is linked to its successor, and no other fiber gets a
      link written. */
  lemma {:induction false} ScheduleAllChain(first: Option<FiberId>, last: Option<FiberId>, E: seq<FiberId>, S: seq<FiberId>)
    requires E == [] ==> first.None? && last.None?
    requires E != [] ==> first == Some(E[0]) && last == Some(E[|E| - 1])
    requires Distinct(E + S)
    decreases |S|
    ensures var r, T := ScheduleAll(first, last, S), E + S;
      && (T == [] ==> r.first.None? && r.last.None?)
      && (T != [] ==> r.first == Some(T[0]) && r.last == Some(T[|T| - 1]))
    ensures var r, T := ScheduleAll(first, last, S), E + S;
      var lo := if E == [] then 0 else |E| - 1;
      && (forall k :: lo <= k < |T| - 1 ==> T[k] in r.links && r.links[T[k]] == T[k + 1])
      && (forall x :: x in r.links ==> exists k :: lo <= k < |T| - 1 && T[k] == x)
  {
    if S != [] {
      var n := |S| - 1;
      var g := S[n];
      var T, T' := E + S, E + S[..n];
      assert T == T' + [g];
      assert forall i :: 0 <= i < |T'| ==> T'[i] == T[i];
      ScheduleAllChain(first, last, E, S[..n]);
      var lo := if E == [] then 0 else |E| - 1;
      var p := ScheduleAll(first, last, S[..n]);
      var r := ScheduleAll(first, last, S);
      if T' == [] {
        assert r == ChainEdit(Some(g), Some(g), map[]);
      } else {
        var t := T'[|T'| - 1];
        assert p.last == Some(t);
        assert r == ChainEdit(p.first, Some(g), p.links[t := g]);
        LinkStep(T', g, lo, p.links);
      }
    }
  }

  /** Writing the link from the tail of `T'` to `g` extends links that chain `T'`
      from position `lo` to links that chain `T' + [g]` from there. */
  lemma LinkStep(T': seq<FiberId>, g: FiberId, lo: nat, links: map<FiberId, FiberId>)
    requires T' != [] && lo <= |T'| - 1 && Distinct(T')
    requires forall k :: lo <= k < |T'| - 1 ==> T'[k] in links && links[T'[k]] == T'[k + 1]
    requires forall x :: x in links ==> exists k :: lo <= k < |T'| - 1 && T'[k] == x
    ensures var T, r := T' + [g], links[T'[|T'| - 1] := g];
      && (forall k :: lo <= k < |T| - 1 ==> T[k] in r && r[T[k]] == T[k + 1])
      && (forall x :: x in r ==> exists k :: lo <= k < |T| - 1 && T[k] == x)
  {
    var T, m := T' + [g], |T'| - 1;
    var t, r := T'[m], links[T'[m] := g];
    forall k | lo <= k < |T| - 1
      ensures T[k] in r && r[T[k]] == T[k + 1]
    {
      if k < m {
        assert T[k] == T'[k] != t;
      }
    }
    forall x | x in r
      ensures exists k :: lo <= k < |T| - 1 && T[k] == x
    {
      if x == t {
        assert T[m] == x;
      } else {
        var k :| lo <= k < |T'| - 1 && T'[k] == x;
        assert T[k] == x;
      }
    }
  }

  /** The arena `fs'` with ends `first'`, `last'` and log `log'` comes from `fs` with
      `first`, `last` and `log` by scheduling the fibers logged since, in order: the
      log only grew, the ends are those `ScheduleAll` gives, and every fiber of the
      old arena links where it was last linked, or where it linked before. */
  predicate Grown(fs: seq<Fiber>, first: Option<FiberId>, last: Option<FiberId>, log: seq<Intent>,
                  fs': seq<Fiber>, first': Option<FiberId>, last': Option<FiberId>, log': seq<Intent>) {
    |fs| <= |fs'| && log <= log'
    && var e := ScheduleAll(first, last, FibersOf(log'[|log|..]));
    && first' == e.first && last' == e.last
    && forall i :: 0 <= i < |fs| ==> fs'[i].nextEffect == if i in e.links then Some(e.links[i]) else fs[i].nextEffect
  }

  /** Nothing scheduled and no old link changed: nothing grew. */
  lemma GrownSame(fs: seq<Fiber>, first: Option<FiberId>, last: Option<FiberId>, log: seq<Intent>, fs': seq<Fiber>)
    requires |fs| <= |fs'| && forall i :: 0 <= i < |fs| ==> fs'[i].nextEffect == fs[i].nextEffect
    ensures Grown(fs, first, last, log, fs', first, last, log)
  {
    assert log[|log|..] == [];
  }

  /** Growth composes. */
  lemma GrownTrans(fs1: seq<Fiber>, first1: Option<FiberId>, last1: Option<FiberId>, log1: seq<Intent>,
                   fs2: seq<Fiber>, first2: Option<FiberId>, last2: Option<FiberId>, log2: seq<Intent>,
                   fs3: seq<Fiber>, first3: Option<FiberId>, last3: Option<FiberId>, log3: seq<Intent>)
    requires Grown(fs1, first1, last1, log1, fs2, first2, last2, log2)
    requires Grown(fs2, first2, last2, log2, fs3, first3, last3, log3)
    ensures Grown(fs1, first1, last1, log1, fs3, first3, last3, log3)
  {
    var S1, S2 := FibersOf(log2[|log1|..]), FibersOf(log3[|log2|..]);
    assert log3[|log1|..] == log2[|log1|..] + log3[|log2|..];
    assert FibersOf(log3[|log1|..]) == S1 + S2;
    ScheduleAllConcat(first1, last1, S1, S2);
  }

  /** One `_scheduleEffect` call grows the chain by its fiber. */
  lemma AppendGrows(fs: seq<Fiber>, first: Option<FiberId>, last: Option<FiberId>, log: seq<Intent>, f: FiberId, tag: Option<EffectTag>)
    requires InArena(last, |fs|)
    ensures var r := AppendEffect(fs, first, last, f);
      Grown(fs, first, last, log, r.fibers, r.first, r.last, log + [Intent(f, tag)])
  {
    assert (log + [Intent(f, tag)])[|log|..] == [Intent(f, tag)];
    assert FibersOf([Intent(f, tag)]) == [f];
    assert [f][..0] == [];
  }

  /** The fibers logged after `log` in `log'` join a chain that does not hold them:
      no fiber is logged twice, and each was a fiber of `fs` linking nowhere. */
  predicate FreshTail(fs: seq<Fiber>, log: seq<Intent>, log': seq<Intent>) {
    log <= log' && Distinct(FibersOf(log'))
    && forall i :: |log| <= i < |log'| ==> log'[i].fiber < |fs| && fs[log'[i].fiber].nextEffect.None?
  }

  /** A well-formed chain of the logged fibers stays one when it grows by fibers new
      to it, none twice and each linking nowhere. */
  lemma GrownKeepsChain(fs: seq<Fiber>, first: Option<FiberId>, last: Option<FiberId>, log: seq<Intent>,
                        fs': seq<Fiber>, first': Option<FiberId>, last': Option<FiberId>, log': seq<Intent>)
    requires Grown(fs, first, last, log, fs', first', last', log')
    requires ChainOk(fs, first, last, FibersOf(log)) && FreshTail(fs, log, log')
    ensures ChainOk(fs', first', last', FibersOf(log'))
  {
    var E, S := FibersOf(log), FibersOf(log'[|log|..]);
    FibersOfSplit(log, log');
    FreshTailFibers(fs, log, log');
    EditKeepsChain(fs, first, last, E, S, fs', first', last');
  }

  /** The fibers logged since a fresh tail began lie in the arena and link nowhere. */
  lemma FreshTailFibers(fs: seq<Fiber>, log: seq<Intent>, log': seq<Intent>)
    requires FreshTail(fs, log, log')
    ensures var S := FibersOf(log'[|log|..]);
      forall k :: 0 <= k < |S| ==> S[k] < |fs| && fs[S[k]].nextEffect.None?
  {
    var S := FibersOf(log'[|log|..]);
    forall k | 0 <= k < |S|
      ensures S[k] < |fs| && fs[S[k]].nextEffect.None?
    {
      assert S[k] == log'[|log| + k].fiber;
    }
  }

  lemma FibersOfSplit(log: seq<Intent>, log': seq<Intent>)
    requires log <= log'
    ensures FibersOf(log') == FibersOf(log) + FibersOf(log'[|log|..])
  {
    var a, b := FibersOf(log), FibersOf(log'[|log|..]);
    assert forall i :: 0 <= i < |log'| ==> FibersOf(log')[i] == (a + b)[i];
  }

  lemma EditKeepsChain(fs: seq<Fiber>, first: Option<FiberId>, last: Option<FiberId>, E: seq<FiberId>, S: seq<FiberId>,
                       fs': seq<Fiber>, first': Option<FiberId>, last': Option<FiberId>)
    requires ChainOk(fs, first, last, E) && Distinct(E + S) && |fs| <= |fs'|
    requires forall k :: 0 <= k < |S| ==> S[k] < |fs| && fs[S[k]].nextEffect.None?
    requires var e := ScheduleAll(first, last, S);
      && first' == e.first && last' == e.last
      && forall i :: 0 <= i < |fs| ==> fs'[i].nextEffect == if i in e.links then Some(e.links[i]) else fs[i].nextEffect
    ensures ChainOk(fs', first', last', E + S)
  {
    var T := E + S;
    ScheduleAllChain(first, last, E, S);
    var e := ScheduleAll(first, last, S);
    var lo := if E == [] then 0 else |E| - 1;
    assert forall k :: 0 <= k < |T| ==> T[k] < |fs|;
    forall k | 0 <= k < |T| - 1
      ensures fs'[T[k]].nextEffect == Some(T[k + 1])
    {
      if k < lo {
        assert T[k] !in e.links;
        assert T[k] == E[k] && T[k + 1] == E[k + 1];
      }
    }
    if T != [] {
      var t := T[|T| - 1];
      assert t !in e.links;
      if S != [] {
        assert t == S[|S| - 1];
      }
    }
  }

  /** The removal loop of `_beginWork` and `_completeWork` after `n` fibers of the
      list from `start` in the arena `fs`, with the arena now `G` and the log `s`: it
      stands on `x`, the `n` fibers passed are marked `remove` and logged after `s0`,
      every other fiber keeps its intent, and no fiber changed shape. */
  ghost predicate MarkedSoFar(fs: seq<Fiber>, s0: seq<Intent>, start: Option<FiberId>, n: nat, x: Option<FiberId>,
                              G: seq<Fiber>, s: seq<Intent>)
  {
    && |G| == |fs| && n <= |G| && InArena(x, |G|)
    && (forall i :: 0 <= i < |G| ==> Shape(G[i]) == Shape(fs[i]))
    && x == Reach(fs, SiblingLink, start, n)
    && |Walk(fs, SiblingLink, start, n)| == n
    && s == s0 + Removals(Walk(fs, SiblingLink, start, n))
    && (forall j :: 0 <= j < n ==> G[Walk(fs, SiblingLink, start, n)[j]].effectTag == Some(Remove))
    && forall i :: 0 <= i < |G| && i !in Walk(fs, SiblingLink, start, n) ==> G[i].effectTag == fs[i].effectTag
  }

  /** Marking the fiber `a` the loop stands on, and logging it, is one more turn. */
  lemma MarkedSoFarStep(fs: seq<Fiber>, s0: seq<Intent>, start: Option<FiberId>, n: nat, a: FiberId,
                        G: seq<Fiber>, s: seq<Intent>, G': seq<Fiber>, s': seq<Intent>)
    requires MarkedSoFar(fs, s0, start, n, Some(a), G, s) && n < |G| && LinksOk(G)
    requires |G'| == |G| && forall i :: 0 <= i < |G| ==> Shape(G'[i]) == Shape(G[i])
    requires forall i :: 0 <= i < |G| && i != a ==> G'[i].effectTag == G[i].effectTag
    requires G'[a].effectTag == Some(Remove) && s' == s + [Intent(a, Some(Remove))]
    ensures MarkedSoFar(fs, s0, start, n + 1, G'[a].sibling, G', s')
  {
    WalkSnoc(fs, SiblingLink, start, n);
    assert Removals(Walk(fs, SiblingLink, start, n + 1)) == Removals(Walk(fs, SiblingLink, start, n)) + [Intent(a, Some(Remove))];
    AppendAssoc(s0, Removals(Walk(fs, SiblingLink, start, n)), [Intent(a, Some(Remove))]);
    assert Shape(G'[a]).sibling == Shape(G[a]).sibling == Shape(fs[a]).sibling;
    var W, W' := Walk(fs, SiblingLink, start, n), Walk(fs, SiblingLink, start, n + 1);
    assert W' == W + [a];
    forall j | 0 <= j < n + 1
      ensures G'[W'[j]].effectTag == Some(Remove)
    {
      if j < n && W[j] != a {
        assert G'[W[j]].effectTag == G[W[j]].effectTag;
      }
    }
    forall i | 0 <= i < |G'| && i !in W'
      ensures G'[i].effectTag == fs[i].effectTag
    {
      assert i != a && i !in W;
    }
  }

  /** Every fiber of `fs` other than `f` and `g` keeps, in `G`, its fields apart from
      its child, sibling and intent link, and keeps its intent tag. */
  ghost predicate OthersKept(fs: seq<Fiber>, G: seq<Fiber>, f: FiberId, g: Option<FiberId>)
  {
    |fs| <= |G|
    && forall i :: 0 <= i < |fs| && i != f && Some(i) != g ==>
         Unlinked(Shape(G[i])) == Unlinked(Shape(fs[i])) && G[i].effectTag == fs[i].effectTag
  }

  /** Fibers other than `f` that kept all but their sibling link, and then all but
      their intent and intent link, kept all but those three. */
  lemma FrameThrough(fs: seq<Fiber>, F: seq<Fiber>, G: seq<Fiber>, f: FiberId, g: Option<FiberId>)
    requires |fs| == |F| <= |G|
    requires forall i :: 0 <= i < |fs| && i != f ==> Unlinked(F[i]) == Unlinked(fs[i])
    requires forall i :: 0 <= i < |fs| ==> F[i].effectTag == fs[i].effectTag
    requires forall i :: 0 <= i < |F| && i != f && Some(i) != g ==> Shape(G[i]) == Shape(F[i]) && G[i].effectTag == F[i].effectTag
    ensures OthersKept(fs, G, f, g)
  {
    forall i | 0 <= i < |fs| && i != f && Some(i) != g
      ensures Unlinked(Shape(G[i])) == Unlinked(Shape(fs[i]))
    {
      assert Unlinked(Shape(G[i])) == Unlinked(Shape(F[i]));
    }
  }

  /** How many fibers link to a next intent; the commit loop clears one link per
      step, so this bounds it. */
  function LinkedCount(fs: seq<Fiber>): nat
  {
    if fs == [] then 0 else LinkedCount(fs[..|fs| - 1]) + (if fs[|fs| - 1].nextEffect.Some? then 1 else 0)
  }

  lemma {:induction false} LinkedCountUpdate(fs: seq<Fiber>, i: nat, f: Fiber)
    requires i < |fs|
    ensures LinkedCount(fs[i := f]) + (if fs[i].nextEffect.Some? then 1 else 0)
         == LinkedCount(fs) + (if f.nextEffect.Some? then 1 else 0)
    decreases |fs|
  {
    var n := |fs| - 1;
    if i == n {
      assert fs[i := f][..n] == fs[..n];
    } else {
      assert fs[i := f][..n] == fs[..n][i := f];
      LinkedCountUpdate(fs[..n], i, f);
    }
  }

  // ----------------------------------------------------------- sibling chains

  /** `chain` is the whole sibling list from `head`: each fiber links to the next,
      the last to nothing, and no fiber occurs twice. */
  predicate ChainIs(fs: seq<Fiber>, head: FiberId, chain: seq<FiberId>) {
    |chain| > 0 && chain[0] == head && Distinct(chain)
    && (forall i :: 0 <= i < |chain| ==> chain[i] < |fs|)
    && (forall i :: 0 <= i < |chain| - 1 ==> fs[chain[i]].sibling == Some(chain[i + 1]))
    && fs[chain[|chain| - 1]].sibling.None?
  }

  lemma {:induction false} SiblingWalkFrom(fs: seq<Fiber>, chain: seq<FiberId>, k: nat, n: nat)
    requires |chain| > 0 && ChainIs(fs, chain[0], chain) && k < |chain| && n > |chain| - k
    ensures Walk(fs, SiblingLink, Some(chain[k]), n) == chain[k..]
    decreases |chain| - k
  {
    if k == |chain| - 1 {
      assert Walk(fs, SiblingLink, fs[chain[k]].sibling, n - 1) == [];
    } else {
      SiblingWalkFrom(fs, chain, k + 1, n - 1);
      assert chain[k..] == [chain[k]] + chain[k + 1..];
    }
  }

  /** The search `while (alt && alt.key !== key) alt = alt.sibling`, giving up after
      `fuel` steps along the list. */
  function KeySearch(fs: seq<Fiber>, cur: Option<FiberId>, key: Value, fuel: nat): (r: Result<Option<FiberId>>)
    requires LinksOk(fs) && InArena(cur, |fs|)
    decreases fuel
    ensures r.Ok? ==> InArena(r.value, |fs|) && (r.value.Some? ==> fs[r.value.value].key == key)
  {
    if cur.None? then Ok(None)
    else if fs[cur.value].key == key then Ok(cur)
    else if fuel == 0 then Err(Diverges)
    else KeySearch(fs, fs[cur.value].sibling, key, fuel - 1)
  }

  /** What the search finds is the first fiber of the list (the `k`-th) that carries
      the key. */
  lemma {:induction false} KeySearchFinds(fs: seq<Fiber>, cur: Option<FiberId>, key: Value, fuel: nat) returns (k: nat)
    requires LinksOk(fs) && InArena(cur, |fs|)
    requires KeySearch(fs, cur, key, fuel).Ok? && KeySearch(fs, cur, key, fuel).value.Some?
    ensures var w := Walk(fs, SiblingLink, cur, fuel + 1);
      && k < |w| && w[k] == KeySearch(fs, cur, key, fuel).value.value && fs[w[k]].key == key
      && forall j :: 0 <= j < k ==> fs[w[j]].key != key
    decreases fuel
  {
    var c := cur.value;
    var w' := Walk(fs, SiblingLink, fs[c].sibling, fuel);
    var w := Walk(fs, SiblingLink, cur, fuel + 1);
    assert w == [c] + w';
    if fs[c].key == key {
      k := 0;
    } else {
      var k' := KeySearchFinds(fs, fs[c].sibling, key, fuel - 1);
      k := k' + 1;
      assert w[k] == w'[k'];
      forall j | 0 <= j < k ensures fs[w[j]].key != key {
        if j > 0 { assert w[j] == w'[j - 1]; }
      }
    }
  }

  /** The search finds nothing only when it walked the whole list without meeting
      the key. */
  lemma {:induction false} KeySearchMisses(fs: seq<Fiber>, cur: Option<FiberId>, key: Value, fuel: nat)
    requires LinksOk(fs) && InArena(cur, |fs|) && KeySearch(fs, cur, key, fuel) == Ok(None)
    ensures var w := Walk(fs, SiblingLink, cur, fuel + 1);
      Reach(fs, SiblingLink, cur, |w|).None? && forall j :: 0 <= j < |w| ==> fs[w[j]].key != key
    decreases fuel
  {
    if cur.Some? {
      var c := cur.value;
      var next := fs[c].sibling;
      KeySearchMisses(fs, next, key, fuel - 1);
      var w' := Walk(fs, SiblingLink, next, fuel);
      var w := Walk(fs, SiblingLink, cur, fuel + 1);
      assert w == [c] + w';
      assert Reach(fs, SiblingLink, cur, |w|) == Reach(fs, SiblingLink, next, |w'|);
    }
  }

  /** The search gives up only on a list longer than `fuel + 1` fibers, none of
      them carrying the key. */
  lemma {:induction false} KeySearchGivesUp(fs: seq<Fiber>, cur: Option<FiberId>, key: Value, fuel: nat)
    requires LinksOk(fs) && InArena(cur, |fs|) && KeySearch(fs, cur, key, fuel).Err?
    ensures var w := Walk(fs, SiblingLink, cur, fuel + 1);
      |w| == fuel + 1 && forall j :: 0 <= j < |w| ==> fs[w[j]].key != key
    decreases fuel
  {
    var c := cur.value;
    if fuel > 0 {
      var next := fs[c].sibling;
      KeySearchGivesUp(fs, next, key, fuel - 1);
      assert Walk(fs, SiblingLink, cur, fuel + 1) == [c] + Walk(fs, SiblingLink, next, fuel);
    } else {
      assert Walk(fs, SiblingLink, cur, 1) == [c] + Walk(fs, SiblingLink, fs[c].sibling, 0);
    }
  }

  function KeyOf(fs: seq<Fiber>, x: FiberId): Value {
    if x < |fs| then fs[x].key else Null
  }

  /** The sibling list `_reorderSiblings`' loop leaves after the current fiber, when
      `rest` followed it: a fiber with key `k` is cut out, and the fiber after a cut
      is kept without being looked at. */
  function Spliced(fs: seq<Fiber>, k: Value, rest: seq<FiberId>): (r: seq<FiberId>)
    decreases |rest|
    ensures |r| <= |rest|
    ensures forall x :: x in r ==> x in rest
  {
    if rest == [] then []
    else if KeyOf(fs, rest[0]) == k then (if |rest| == 1 then [] else [rest[1]] + Spliced(fs, k, rest[2..]))
    else [rest[0]] + Spliced(fs, k, rest[1..])
  }

  lemma {:induction false} SplicedKeepsOthers(fs: seq<Fiber>, k: Value, rest: seq<FiberId>)
    requires forall i :: 0 <= i < |rest| ==> KeyOf(fs, rest[i]) != k
    ensures Spliced(fs, k, rest) == rest
    decreases |rest|
  {
    if rest != [] {
      SplicedKeepsOthers(fs, k, rest[1..]);
    }
  }

  lemma {:induction false} SplicedCutsOne(fs: seq<Fiber>, k: Value, rest: seq<FiberId>, i: nat)
    requires i < |rest| && KeyOf(fs, rest[i]) == k
    requires forall j :: 0 <= j < |rest| && j != i ==> KeyOf(fs, rest[j]) != k
    ensures Spliced(fs, k, rest) == rest[..i] + rest[i + 1..]
    decreases |rest|
  {
    if i == 0 {
      if |rest| > 1 {
        SplicedKeepsOthers(fs, k, rest[2..]);
        assert rest[1..] == [rest[1]] + rest[2..];
      }
    } else {
      SplicedCutsOne(fs, k, rest[1..], i - 1);
      assert rest[..i] == [rest[0]] + rest[1..][..i - 1];
      assert rest[i + 1..] == rest[1..][i..];
    }
  }

  /** One step of the splice: the next fiber is kept, or cut together with the look
      at its successor. */
  lemma SplicedStep(fs: seq<Fiber>, k: Value, chain: seq<FiberId>, i: nat)
    requires i + 1 < |chain|
    ensures KeyOf(fs, chain[i + 1]) != k ==> Spliced(fs, k, chain[i + 1..]) == [chain[i + 1]] + Spliced(fs, k, chain[i + 2..])
    ensures KeyOf(fs, chain[i + 1]) == k && i + 2 == |chain| ==> Spliced(fs, k, chain[i + 1..]) == []
    ensures KeyOf(fs, chain[i + 1]) == k && i + 2 < |chain| ==>
      Spliced(fs, k, chain[i + 1..]) == [chain[i + 2]] + Spliced(fs, k, chain[i + 3..])
  {
    var rest := chain[i + 1..];
    assert rest[1..] == chain[i + 2..];
    if i + 2 < |chain| {
      assert rest[2..] == chain[i + 3..];
    }
  }

  /** A fiber without its intent and intent link. */
  function Shape(f: Fiber): Fiber {
    f.(effectTag := None, nextEffect := None)
  }

  /** A fiber without its sibling link. */
  function Unlinked(f: Fiber): Fiber {
    f.(sibling := None)
  }

  /** The state of `_reorderSiblings`' loop over the list `chain` (of the arena as it
      was, `fs`) in the arena as it is, `F`: the loop stands on `chain[i]`; the fibers
      it passed, `D`, are linked in order up to it; the rest of the list is untouched,
      and `D`, the current fiber and what is left of the rest spell `L0`. After the
      loop stopped on a cut, the current fiber ends the list. */
  ghost predicate CutInv(fs: seq<Fiber>, F: seq<Fiber>, chain: seq<FiberId>, key: Value, L0: seq<FiberId>,
                         D: seq<FiberId>, i: nat, curr: FiberId, stop: bool) {
    && i < |chain| && curr == chain[i] && |F| == |fs| && curr < |F|
    && (!stop ==> D + [curr] + Spliced(fs, key, chain[i + 1..]) == L0
                  && forall j :: i <= j < |chain| ==> chain[j] < |F| && F[chain[j]].sibling == fs[chain[j]].sibling)
    && (stop ==> D + [curr] == L0 && F[curr].sibling.None?)
    && (forall t :: 0 <= t < |D| ==> D[t] < |F| && F[D[t]].sibling == Some((D + [curr])[t + 1]))
    && (forall t, j :: 0 <= t < |D| && i <= j < |chain| ==> D[t] != chain[j])
  }

  /** One step keeps the loop state: past a fiber that stays, the loop moves to it. */
  lemma CutInvKeep(fs: seq<Fiber>, F: seq<Fiber>, chain: seq<FiberId>, key: Value, L0: seq<FiberId>,
                   D: seq<FiberId>, i: nat, curr: FiberId)
    requires |chain| > 0 && ChainIs(fs, chain[0], chain) && CutInv(fs, F, chain, key, L0, D, i, curr, false)
    requires LinksOk(F) && F[curr].sibling.Some? && F[F[curr].sibling.value].key != key
    requires forall x :: 0 <= x < |F| ==> F[x].key == fs[x].key
    ensures CutOnce(F, curr, key) == F
    ensures CutInv(fs, F, chain, key, L0, D + [curr], i + 1, F[curr].sibling.value, false)
  {
    assert F[chain[i]].sibling == fs[chain[i]].sibling;
    assert F[curr].sibling == Some(chain[i + 1]);
    SplicedStep(fs, key, chain, i);
    var D' := D + [curr];
    assert forall t :: 0 <= t < |D| ==> D'[t] == D[t];
    assert (D' + [chain[i + 1]])[|D|] == curr;
  }

  /** One step keeps the loop state: a cut fiber is linked past, and the loop moves
      to its successor or, at the end of the list, stops. */
  lemma CutInvCut(fs: seq<Fiber>, F: seq<Fiber>, chain: seq<FiberId>, key: Value, L0: seq<FiberId>,
                  D: seq<FiberId>, i: nat, curr: FiberId)
    requires |chain| > 0 && ChainIs(fs, chain[0], chain) && CutInv(fs, F, chain, key, L0, D, i, curr, false)
    requires LinksOk(F) && F[curr].sibling.Some? && F[F[curr].sibling.value].key == key
    requires forall x :: 0 <= x < |F| ==> F[x].key == fs[x].key
    ensures var F' := CutOnce(F, curr, key);
      if F'[curr].sibling.None? then CutInv(fs, F', chain, key, L0, D, i, curr, true)
      else CutInv(fs, F', chain, key, L0, D + [curr], i + 2, F'[curr].sibling.value, false)
  {
    assert F[chain[i]].sibling == fs[chain[i]].sibling;
    assert F[curr].sibling == Some(chain[i + 1]);
    SplicedStep(fs, key, chain, i);
    var F' := CutOnce(F, curr, key);
    assert F' == F[curr := F[curr].(sibling := F[chain[i + 1]].sibling)];
    assert forall t :: 0 <= t < |D| ==> D[t] != curr;
    assert F[chain[i + 1]].sibling == fs[chain[i + 1]].sibling;
    if i + 2 < |chain| {
      var D' := D + [curr];
      assert forall t :: 0 <= t < |D| ==> D'[t] == D[t];
      assert F'[curr].sibling == Some(chain[i + 2]);
      assert (D' + [chain[i + 2]])[|D|] == curr;
    }
  }

  /** When the loop has ended the list from `head` is `L0`, linked in order, and ends. */
  lemma CutInvDone(fs: seq<Fiber>, F: seq<Fiber>, chain: seq<FiberId>, key: Value, L0: seq<FiberId>,
                   D: seq<FiberId>, i: nat, curr: FiberId, stop: bool)
    requires |chain| > 0 && ChainIs(fs, chain[0], chain) && CutInv(fs, F, chain, key, L0, D, i, curr, stop)
    requires stop || F[curr].sibling.None?
    requires forall x :: 0 <= x < |F| ==> Unlinked(F[x]) == Unlinked(fs[x])
    ensures CutResult(fs, L0, F)
  {
    if !stop {
      assert F[chain[i]].sibling == fs[chain[i]].sibling;
      assert chain[i + 1..] == [];
    }
    assert forall t :: 0 <= t < |L0| - 1 ==> L0[t] == D[t];
  }

  /** Linking a fiber past its successor keeps every link in the arena. */
  lemma CutKeepsLinks(F: seq<Fiber>, curr: FiberId, s: FiberId)
    requires LinksOk(F) && curr < |F| && s < |F|
    ensures LinksOk(F[curr := F[curr].(sibling := F[s].sibling)])
  {
    var F' := F[curr := F[curr].(sibling := F[s].sibling)];
    forall x | 0 <= x < |F'| ensures InArena(F'[x].sibling, |F'|) {
      if x == curr { assert InArena(F[s].sibling, |F|); }
    }
  }

  /** One step of `_reorderSiblings`' loop on `curr`: its successor is linked past
      when it has the key. */
  function CutOnce(F: seq<Fiber>, curr: FiberId, key: Value): (F': seq<Fiber>)
    requires LinksOk(F) && curr < |F| && F[curr].sibling.Some?
    ensures LinksOk(F') && |F'| == |F|
    ensures forall x :: 0 <= x < |F| ==> Unlinked(F'[x]) == Unlinked(F[x])
  {
    var s := F[curr].sibling.value;
    if F[s].key == key then
      CutKeepsLinks(F, curr, s);
      F[curr := F[curr].(sibling := F[s].sibling)]
    else F
  }

  /** The arena after `_reorderSiblings`' loop has run from `curr` for at most `fuel`
      steps, and the fiber it stopped on. */
  function CutFrom(F: seq<Fiber>, curr: FiberId, key: Value, fuel: nat): (r: Result<(seq<Fiber>, FiberId)>)
    requires LinksOk(F) && curr < |F|
    decreases fuel
    ensures r.Ok? ==> |r.value.0| == |F| && r.value.1 < |F|
  {
    if F[curr].sibling.None? then Ok((F, curr))
    else if fuel == 0 then Err(Diverges)
    else
      var F' := CutOnce(F, curr, key);
      if F'[curr].sibling.None? then Ok((F', curr))
      else CutFrom(F', F'[curr].sibling.value, key, fuel - 1)
  }

  /** One step of `CutFrom` from a fiber with a successor. */
  lemma CutFromUnfold(F: seq<Fiber>, curr: FiberId, key: Value, fuel: nat)
    requires LinksOk(F) && curr < |F| && F[curr].sibling.Some? && fuel > 0
    ensures var F' := CutOnce(F, curr, key);
      CutFrom(F, curr, key, fuel) == if F'[curr].sibling.None? then Ok((F', curr))
                                     else CutFrom(F', F'[curr].sibling.value, key, fuel - 1)
  {
  }

  /** The arena `F'` differs from `fs` only in sibling links, and links `L0` in order
      as a whole list. */
  ghost predicate CutResult(fs: seq<Fiber>, L0: seq<FiberId>, F': seq<Fiber>) {
    && |F'| == |fs| && (forall x :: 0 <= x < |F'| ==> Unlinked(F'[x]) == Unlinked(fs[x]))
    && |L0| > 0 && (forall t :: 0 <= t < |L0| ==> L0[t] < |F'|)
    && (forall t :: 0 <= t < |L0| - 1 ==> F'[L0[t]].sibling == Some(L0[t + 1]))
    && F'[L0[|L0| - 1]].sibling.None?
  }

  /** On a well-formed sibling list the loop ends, having linked the list from `head`
      as `L0`: `head` followed by `Spliced` of the rest. Only sibling links change. */
  lemma {:induction false} CutFromSound(fs: seq<Fiber>, F: seq<Fiber>, chain: seq<FiberId>, key: Value, L0: seq<FiberId>,
                                        D: seq<FiberId>, i: nat, curr: FiberId, fuel: nat)
    requires |chain| > 0 && ChainIs(fs, chain[0], chain) && CutInv(fs, F, chain, key, L0, D, i, curr, false)
    requires LinksOk(F) && forall x :: 0 <= x < |F| ==> Unlinked(F[x]) == Unlinked(fs[x])
    requires fuel + i >= |chain| - 1
    ensures CutFrom(F, curr, key, fuel).Ok? && CutResult(fs, L0, CutFrom(F, curr, key, fuel).value.0)
    decreases fuel, 2
  {
    if F[curr].sibling.None? {
      CutInvDone(fs, F, chain, key, L0, D, i, curr, false);
    } else {
      assert F[chain[i]].sibling == fs[chain[i]].sibling;
      var s := F[curr].sibling.value;
      if F[s].key == key {
        CutFromCut(fs, F, chain, key, L0, D, i, curr, fuel);
      } else {
        CutFromKeep(fs, F, chain, key, L0, D, i, curr, fuel);
      }
    }
  }

  /** The step of `CutFromSound` past a fiber that is cut out. */
  lemma {:induction false} CutFromCut(fs: seq<Fiber>, F: seq<Fiber>, chain: seq<FiberId>, key: Value, L0: seq<FiberId>,
                                      D: seq<FiberId>, i: nat, curr: FiberId, fuel: nat)
    requires |chain| > 0 && ChainIs(fs, chain[0], chain) && CutInv(fs, F, chain, key, L0, D, i, curr, false)
    requires LinksOk(F) && forall x :: 0 <= x < |F| ==> Unlinked(F[x]) == Unlinked(fs[x])
    requires fuel + i >= |chain| - 1
    requires F[curr].sibling.Some? && F[F[curr].sibling.value].key == key
    ensures CutFrom(F, curr, key, fuel).Ok? && CutResult(fs, L0, CutFrom(F, curr, key, fuel).value.0)
    decreases fuel, 1
  {
    assert forall x :: 0 <= x < |F| ==> F[x].key == Unlinked(F[x]).key;
    assert F[chain[i]].sibling == fs[chain[i]].sibling;
    assert i + 1 < |chain| && fuel > 0;
    CutFromUnfold(F, curr, key, fuel);
    var F' := CutOnce(F, curr, key);
    assert forall x :: 0 <= x < |F'| ==> Unlinked(F'[x]) == Unlinked(fs[x]);
    CutInvCut(fs, F, chain, key, L0, D, i, curr);
    if F'[curr].sibling.None? {
      CutInvDone(fs, F', chain, key, L0, D, i, curr, true);
    } else {
      CutFromNext(fs, F', chain, key, L0, D, i, curr, fuel);
    }
  }

  /** The rest of `CutFromCut` when `curr` still has a successor once the cut one
      has been linked past: the loop goes on from that successor. */
  lemma {:induction false} CutFromNext(fs: seq<Fiber>, F': seq<Fiber>, chain: seq<FiberId>, key: Value,
                                       L0: seq<FiberId>, D: seq<FiberId>, i: nat, curr: FiberId, fuel: nat)
    requires |chain| > 0 && ChainIs(fs, chain[0], chain) && fuel > 0 && fuel + i >= |chain| - 1
    requires LinksOk(F') && |F'| == |fs| && curr < |F'| && forall x :: 0 <= x < |F'| ==> Unlinked(F'[x]) == Unlinked(fs[x])
    requires F'[curr].sibling.Some? && CutInv(fs, F', chain, key, L0, D + [curr], i + 2, F'[curr].sibling.value, false)
    ensures CutFrom(F', F'[curr].sibling.value, key, fuel - 1).Ok?
            && CutResult(fs, L0, CutFrom(F', F'[curr].sibling.value, key, fuel - 1).value.0)
    decreases fuel, 0
  {
    CutFromSound(fs, F', chain, key, L0, D + [curr], i + 2, F'[curr].sibling.value, fuel - 1);
  }

  /** The step of `CutFromSound` past a fiber that stays. */
  lemma {:induction false} CutFromKeep(fs: seq<Fiber>, F: seq<Fiber>, chain: seq<FiberId>, key: Value, L0: seq<FiberId>,
                                       D: seq<FiberId>, i: nat, curr: FiberId, fuel: nat)
    requires |chain| > 0 && ChainIs(fs, chain[0], chain) && CutInv(fs, F, chain, key, L0, D, i, curr, false)
    requires LinksOk(F) && forall x :: 0 <= x < |F| ==> Unlinked(F[x]) == Unlinked(fs[x])
    requires fuel + i >= |chain| - 1
    requires F[curr].sibling.Some? && F[F[curr].sibling.value].key != key
    ensures CutFrom(F, curr, key, fuel).Ok? && CutResult(fs, L0, CutFrom(F, curr, key, fuel).value.0)
    decreases fuel, 0
  {
    assert forall x :: 0 <= x < |F| ==> F[x].key == Unlinked(F[x]).key;
    assert F[chain[i]].sibling == fs[chain[i]].sibling;
    CutInvKeep(fs, F, chain, key, L0, D, i, curr);
    CutFromSound(fs, F, chain, key, L0, D + [curr], i + 1, F[curr].sibling.value, fuel - 1);
  }

  /** Putting `start` in front of a well-linked list that does not contain it. */
  lemma PrependSibling(fs: seq<Fiber>, L: seq<FiberId>, start: FiberId)
    requires |L| > 0 && start < |fs| && forall t :: 0 <= t < |L| ==> L[t] < |fs|
    requires forall t :: 0 <= t < |L| - 1 ==> fs[L[t]].sibling == Some(L[t + 1])
    requires fs[L[|L| - 1]].sibling.None?
    requires Distinct([start] + L)
    ensures ChainIs(fs[start := fs[start].(sibling := Some(L[0]))], start, [start] + L)
  {
    var R := [start] + L;
    var fs' := fs[start := fs[start].(sibling := Some(L[0]))];
    forall t | 0 <= t < |L| ensures L[t] != start {
      assert R[0] != R[t + 1];
    }
    forall t | 0 <= t < |R| - 1
      ensures fs'[R[t]].sibling == Some(R[t + 1])
    {
      if t > 0 {
        assert R[t] == L[t - 1] && R[t + 1] == L[t];
      }
    }
    assert R[|R| - 1] == L[|L| - 1];
  }

  /** The loop state before the first step. */
  lemma CutInvStart(fs: seq<Fiber>, chain: seq<FiberId>, key: Value)
    requires |chain| > 0 && ChainIs(fs, chain[0], chain)
    ensures CutInv(fs, fs, chain, key, [chain[0]] + Spliced(fs, key, chain[1..]), [], 0, chain[0], false)
  {
    assert [] + [chain[0]] == [chain[0]];
  }

  /** `_reorderSiblings(head, start)` on a well-formed list from `head`: the cutting
      loop ends, and linking `start` to `head` afterwards makes the list from `start`
      the `Reordered` one, if that repeats no fiber. */
  lemma ReorderSound(fs: seq<Fiber>, head: FiberId, start: FiberId, chain: seq<FiberId>)
    requires LinksOk(fs) && head < |fs| && start < |fs|
    requires ChainIs(fs, head, chain) && Distinct(Reordered(fs, chain, start))
    ensures CutFrom(fs, head, fs[start].key, |fs|).Ok?
    ensures var F := CutFrom(fs, head, fs[start].key, |fs|).value.0;
      |F| == |fs| && ChainIs(F[start := F[start].(sibling := Some(head))], start, Reordered(fs, chain, start))
  {
    var k := fs[start].key;
    var L0 := [head] + Spliced(fs, k, chain[1..]);
    assert Reordered(fs, chain, start) == [start] + L0 by {
      assert KeyOf(fs, start) == k;
    }
    CutInvStart(fs, chain, k);
    assert |chain| <= |fs| by {
      DistinctBound(chain, |fs|);
    }
    CutFromSound(fs, fs, chain, k, L0, [], 0, head, |fs|);
    var F := CutFrom(fs, head, k, |fs|).value.0;
    assert CutResult(fs, L0, F);
    CutResultPrepend(fs, L0, F, start);
  }

  /** The list a cutting loop left, with `start` put in front of it. */
  lemma CutResultPrepend(fs: seq<Fiber>, L0: seq<FiberId>, F: seq<Fiber>, start: FiberId)
    requires CutResult(fs, L0, F) && start < |fs| && Distinct([start] + L0)
    ensures |F| == |fs| && ChainIs(F[start := F[start].(sibling := Some(L0[0]))], start, [start] + L0)
  {
    PrependSibling(F, L0, start);
  }

  // ------------------------------------------------------------ intent decision

  /** The alternate `_beginWork` diffs against: the old alternate when the fiber has
      no key or the same key, otherwise the first fiber of the alternate's sibling
      list (from the alternate itself) with the fiber's key; `None` when there is none. */
  function KeyMatch(fs: seq<Fiber>, f: FiberId): (r: Result<Option<FiberId>>)
    requires LinksOk(fs) && f < |fs| && fs[f].alternate.Some?
    ensures fs[f].key == Null ==> r == Ok(fs[f].alternate)
    ensures r.Ok? ==> InArena(r.value, |fs|)
    ensures r.Ok? && r.value.Some? && r.value != fs[f].alternate ==> fs[r.value.value].key == fs[f].key
  {
    var a := fs[f].alternate.value;
    if fs[f].key == Null || fs[f].key == fs[a].key then Ok(Some(a))
    else KeySearch(fs, Some(a), fs[f].key, |fs|)
  }

  /** With keys unique along the alternate's sibling list, the keyed match is the one
      fiber of that list carrying the key. */
  lemma KeyMatchFindsUnique(fs: seq<Fiber>, f: FiberId, chain: seq<FiberId>, i: nat)
    requires LinksOk(fs) && f < |fs| && fs[f].alternate.Some?
    requires ChainIs(fs, fs[f].alternate.value, chain) && i < |chain|
    requires forall a, b :: 0 <= a < b < |chain| ==> fs[chain[a]].key != fs[chain[b]].key
    requires fs[f].key != Null && fs[chain[i]].key == fs[f].key
    ensures KeyMatch(fs, f) == Ok(Some(chain[i]))
  {
    var a := fs[f].alternate.value;
    var key := fs[f].key;
    if key != fs[a].key {
      DistinctBound(chain, |fs|);
      SiblingWalkFrom(fs, chain, 0, |fs| + 1);
      assert chain[0..] == chain;
      var K := KeySearch(fs, Some(a), key, |fs|);
      assert forall j :: 0 <= j < |chain| && j != i ==> fs[chain[j]].key != key by {
        forall j | 0 <= j < |chain| && j != i ensures fs[chain[j]].key != key {
          if j < i { assert fs[chain[j]].key != fs[chain[i]].key; }
          else { assert fs[chain[i]].key != fs[chain[j]].key; }
        }
      }
      if K.Err? {
        KeySearchGivesUp(fs, Some(a), key, |fs|);
        assert false;
      }
      if K.value.None? {
        KeySearchMisses(fs, Some(a), key, |fs|);
        assert false;
      }
      var k := KeySearchFinds(fs, Some(a), key, |fs|);
      assert k == i;
    }
  }

  /** The intent `_beginWork` decides for a fiber it visits first. */
  datatype Verdict =
    | NoIntent             // kept as it is
    | Fresh                // no alternate: added
    | Replace(gone: FiberId) // added with fresh hooks and no host object; `gone` removed
    | Refresh              // same kind and key, other props: updated

  /** `_beginWork`'s decision: roots get none; a fiber without alternate is added;
      a fiber whose key matches nothing, or whose type differs from its match,
      replaces the match (or, without one, its alternate); a match with other
      props is updated. A key search that runs round a cycle has no verdict. */
  function DecideVerdict(fs: seq<Fiber>, f: FiberId): (r: Result<Verdict>)
    requires LinksOk(fs) && f < |fs|
    ensures fs[f].tag == Root ==> r == Ok(NoIntent)
    ensures r == Ok(Fresh) <==> fs[f].tag != Root && fs[f].alternate.None?
    ensures r.Err? ==> fs[f].tag != Root && fs[f].alternate.Some? && fs[f].key != Null
    ensures r.Ok? && r.value.Replace? ==> r.value.gone < |fs|
  {
    if fs[f].tag == Root then Ok(NoIntent)
    else if fs[f].alternate.None? then Ok(Fresh)
    else
      var m :- KeyMatch(fs, f);
      if m.None? then Ok(Replace(fs[f].alternate.value))
      else if fs[f].ftype != fs[m.value].ftype then Ok(Replace(m.value))
      else if !PropsEqual(fs[m.value].props, fs[f].props) then Ok(Refresh)
      else Ok(NoIntent)
  }

  /** The entries `_beginWork`'s decision adds to the intent log. */
  function Logged(f: FiberId, v: Verdict): (r: seq<Intent>)
    ensures v.NoIntent? <==> r == []
    ensures r != [] ==> r[0].fiber == f && r[0].tag == Some(if v.Refresh? then Update else Add)
  {
    match v
    case NoIntent => []
    case Fresh => [Intent(f, Some(Add))]
    case Replace(g) => [Intent(f, Some(Add)), Intent(g, Some(Remove))]
    case Refresh => [Intent(f, Some(Update))]
  }

  /** The effect tag `_beginWork`'s decision leaves on fiber `f` itself: no intent
      keeps the one it had; a replaced fiber whose old self is its own match is the
      one marked for removal. */
  function VerdictTag(prev: Option<EffectTag>, f: FiberId, v: Verdict): (r: Option<EffectTag>)
    ensures !v.NoIntent? ==> r.Some?
    ensures v.NoIntent? ==> r == prev
    ensures (v.Fresh? || v.Refresh? || (v.Replace? && v.gone != f)) ==> Logged(f, v)[0].tag == r
  {
    match v
    case NoIntent => prev
    case Fresh => Some(Add)
    case Refresh => Some(Update)
    case Replace(g) => if g == f then Some(Remove) else Some(Add)
  }

  /** The key search only reads keys and sibling links. */
  lemma {:induction false} KeySearchSameKeys(fs: seq<Fiber>, fs': seq<Fiber>, cur: Option<FiberId>, key: Value, fuel: nat)
    requires LinksOk(fs) && LinksOk(fs') && InArena(cur, |fs|) && |fs'| == |fs|
    requires forall i :: 0 <= i < |fs| ==> fs'[i].key == fs[i].key && fs'[i].sibling == fs[i].sibling
    ensures KeySearch(fs', cur, key, fuel) == KeySearch(fs, cur, key, fuel)
    decreases fuel
  {
    if cur.Some? && fs[cur.value].key != key && fuel > 0 {
      KeySearchSameKeys(fs, fs', fs[cur.value].sibling, key, fuel - 1);
    }
  }

  /** Marking a fiber visited does not change the decision about it. */
  lemma VerdictIgnoresVisited(fs: seq<Fiber>, f: FiberId)
    requires LinksOk(fs) && f < |fs|
    ensures LinksOk(fs[f := fs[f].(visited := true)])
    ensures DecideVerdict(fs[f := fs[f].(visited := true)], f) == DecideVerdict(fs, f)
  {
    var fs' := fs[f := fs[f].(visited := true)];
    if fs[f].tag != Root && fs[f].alternate.Some? {
      var a := fs[f].alternate.value;
      if !(fs[f].key == Null || fs[f].key == fs[a].key) {
        KeySearchSameKeys(fs, fs', Some(a), fs[f].key, |fs|);
      }
    }
  }

  /** A walk that has ended stays ended. */
  lemma {:induction false} WalkStops(fs: seq<Fiber>, link: Link, cur: Option<FiberId>, n: nat, m: nat)
    requires n <= m && Reach(fs, link, cur, n).None?
    ensures Walk(fs, link, cur, m) == Walk(fs, link, cur, n) && Reach(fs, link, cur, m).None?
    decreases m - n
  {
    if n < m {
      WalkSnoc(fs, link, cur, n);
      WalkStops(fs, link, cur, n + 1, m);
    }
  }

  /** The sibling list from `start` after `_reorderSiblings(head, start)`. */
  function Reordered(fs: seq<Fiber>, chain: seq<FiberId>, start: FiberId): seq<FiberId>
    requires |chain| > 0
  {
    [start, chain[0]] + Spliced(fs, KeyOf(fs, start), chain[1..])
  }

  /** Moving one element of a list of distinct fibers to the front keeps them distinct. */
  lemma MoveToFrontDistinct(s: seq<FiberId>, i: nat)
    requires Distinct(s) && i < |s|
    ensures Distinct([s[i]] + s[..i] + s[i + 1..])
  {
    var r := [s[i]] + s[..i] + s[i + 1..];
    forall a, b | 0 <= a < b < |r|
      ensures r[a] != r[b]
    {
      var pa := if a == 0 then i else if a <= i then a - 1 else a;
      var pb := if b == 0 then i else if b <= i then b - 1 else b;
      assert r[a] == s[pa] && r[b] == s[pb] && pa != pb;
    }
  }

  /** With keys unique along the list, reordering moves `start` to the front and
      keeps every other fiber in its old order; no fiber occurs twice. */
  lemma ReorderMovesStartToFront(fs: seq<Fiber>, chain: seq<FiberId>, i: nat)
    requires 0 < i < |chain|
    requires forall a, b :: 0 <= a < b < |chain| ==> KeyOf(fs, chain[a]) != KeyOf(fs, chain[b])
    ensures Reordered(fs, chain, chain[i]) == [chain[i]] + chain[..i] + chain[i + 1..]
    ensures Distinct(Reordered(fs, chain, chain[i]))
  {
    var rest := chain[1..];
    var k := KeyOf(fs, chain[i]);
    forall j | 0 <= j < |rest| && j != i - 1
      ensures KeyOf(fs, rest[j]) != k
    {
      assert rest[j] == chain[j + 1];
      if j + 1 < i {
        assert KeyOf(fs, chain[j + 1]) != KeyOf(fs, chain[i]);
      } else {
        assert KeyOf(fs, chain[i]) != KeyOf(fs, chain[j + 1]);
      }
    }
    SplicedCutsOne(fs, k, rest, i - 1);
    assert chain[..i] == [chain[0]] + rest[..i - 1];
    assert chain[i + 1..] == rest[i..];
    assert Distinct(chain) by {
      forall a, b | 0 <= a < b < |chain| ensures chain[a] != chain[b] {
        assert KeyOf(fs, chain[a]) != KeyOf(fs, chain[b]);
      }
    }
    MoveToFrontDistinct(chain, i);
  }

  // ------------------------------------------------------------ host lookups

  /** The return path from `p`: `p`, its parent, and so on up to a fiber without one. */
  function Ancestors(fs: seq<Fiber>, p: Option<FiberId>): (A: seq<FiberId>)
    requires LinksOk(fs) && InArena(p, |fs|)
    decreases if p.Some? then p.value + 1 else 0
    ensures p.None? <==> A == []
    ensures forall j :: 0 <= j < |A| ==> A[j] < |fs|
    ensures A != [] ==> A[0] == p.value && fs[A[|A| - 1]].parent.None?
    ensures forall j :: 0 <= j < |A| - 1 ==> fs[A[j]].parent == Some(A[j + 1])
  {
    if p.None? then [] else [p.value] + Ancestors(fs, fs[p.value].parent)
  }

  /** The host object `_getParentDom` finds from `p`: the dom of the nearest fiber on
      the return path. `None` is where the source's loop never ends. */
  function NearestDom(fs: seq<Fiber>, p: Option<FiberId>): Option<DomId>
    requires LinksOk(fs) && InArena(p, |fs|)
    decreases if p.Some? then p.value + 1 else 0
  {
    if p.None? then None
    else if fs[p.value].dom.Some? then fs[p.value].dom
    else NearestDom(fs, fs[p.value].parent)
  }

  /** There is no parent dom exactly when no fiber on the return path has a dom. */
  lemma {:induction false} NearestDomNone(fs: seq<Fiber>, p: Option<FiberId>)
    requires LinksOk(fs) && InArena(p, |fs|)
    ensures NearestDom(fs, p).None? <==> forall j :: 0 <= j < |Ancestors(fs, p)| ==> fs[Ancestors(fs, p)[j]].dom.None?
    decreases if p.Some? then p.value + 1 else 0
  {
    if p.Some? {
      var q := fs[p.value].parent;
      var A, B := Ancestors(fs, p), Ancestors(fs, q);
      assert A == [p.value] + B;
      if fs[p.value].dom.None? {
        NearestDomNone(fs, q);
        if NearestDom(fs, q).None? {
          assert forall j :: 0 <= j < |Ancestors(fs, q)| ==> fs[Ancestors(fs, q)[j]].dom.None?;
          forall j | 0 <= j < |A| ensures fs[A[j]].dom.None? {
            if j > 0 {
              assert 0 <= j - 1 < |B|;
              assert fs[B[j - 1]].dom.None?;
              assert A[j] == B[j - 1];
            } else {
              assert A[j] == p.value;
            }
          }
        } else {
          var j :| 0 <= j < |B| && fs[B[j]].dom.Some?;
          assert A[j + 1] == B[j];
        }
      } else {
        assert A[0] == p.value;
      }
    }
  }

  /** The parent dom is the dom of the first fiber on the return path that has one. */
  lemma {:induction false} NearestDomFirst(fs: seq<Fiber>, p: Option<FiberId>)
    requires LinksOk(fs) && InArena(p, |fs|) && NearestDom(fs, p).Some?
    ensures exists k :: 0 <= k < |Ancestors(fs, p)| && fs[Ancestors(fs, p)[k]].dom == NearestDom(fs, p)
                      && forall j :: 0 <= j < k ==> fs[Ancestors(fs, p)[j]].dom.None?
    decreases if p.Some? then p.value + 1 else 0
  {
    var q := fs[p.value].parent;
    var A, B := Ancestors(fs, p), Ancestors(fs, q);
    assert A == [p.value] + B;
    if fs[p.value].dom.None? {
      NearestDomFirst(fs, q);
      var k :| 0 <= k < |B| && fs[B[k]].dom == NearestDom(fs, q) && forall j :: 0 <= j < k ==> fs[B[j]].dom.None?;
      assert A[k + 1] == B[k];
      forall j | 0 <= j < k + 1 ensures fs[A[j]].dom.None? {
        if j > 0 { assert A[j] == B[j - 1]; }
      }
    } else {
      assert A[0] == p.value;
    }
  }

  /** A fiber that owns a host object of its own. */
  predicate IsHostFiber(f: Fiber) {
    f.tag == HostComponent || f.tag == HostText
  }

  /** `_getFirstDom(f)`: a host fiber's own dom, nothing for a void fiber, and the
      first dom among the children otherwise. `fuel` bounds the depth of the walk. */
  function FirstDom(fs: seq<Fiber>, f: FiberId, fuel: nat): Result<Option<DomId>>
    requires LinksOk(fs) && f < |fs|
    decreases fuel, 1
  {
    match fs[f].tag
    case Void => Ok(None)
    case HostComponent => Ok(fs[f].dom)
    case HostText => Ok(fs[f].dom)
    case FunctionComponent => FirstDomAmong(fs, fs[f].child, fuel)
    case Fragment => FirstDomAmong(fs, fs[f].child, fuel)
    case Root => Err(UnknownTag)
  }

  /** The loop `while (child) { dom = _getFirstDom(child); if (dom) return dom; child =
      child.sibling }`: the first dom found along a sibling list. */
  function FirstDomAmong(fs: seq<Fiber>, c: Option<FiberId>, fuel: nat): Result<Option<DomId>>
    requires LinksOk(fs) && InArena(c, |fs|)
    decreases fuel, 0
  {
    if c.None? then Ok(None)
    else if fuel == 0 then Err(Diverges)
    else
      var d :- FirstDom(fs, c.value, fuel - 1);
      if d.Some? then Ok(d) else FirstDomAmong(fs, fs[c.value].sibling, fuel - 1)
  }

  /** Whatever `_getFirstDom` finds is the dom of a host fiber. */
  lemma {:induction false} FirstDomIsHostDom(fs: seq<Fiber>, f: FiberId, fuel: nat)
    requires LinksOk(fs) && f < |fs|
    ensures FirstDom(fs, f, fuel).Ok? && FirstDom(fs, f, fuel).value.Some? ==>
      exists x :: 0 <= x < |fs| && IsHostFiber(fs[x]) && fs[x].dom == FirstDom(fs, f, fuel).value
    decreases fuel, 1
  {
    if fs[f].tag == FunctionComponent || fs[f].tag == Fragment {
      FirstDomAmongIsHostDom(fs, fs[f].child, fuel);
    }
  }

  lemma {:induction false} FirstDomAmongIsHostDom(fs: seq<Fiber>, c: Option<FiberId>, fuel: nat)
    requires LinksOk(fs) && InArena(c, |fs|)
    ensures FirstDomAmong(fs, c, fuel).Ok? && FirstDomAmong(fs, c, fuel).value.Some? ==>
      exists x :: 0 <= x < |fs| && IsHostFiber(fs[x]) && fs[x].dom == FirstDomAmong(fs, c, fuel).value
    decreases fuel, 0
  {
    if c.Some? && fuel > 0 {
      FirstDomIsHostDom(fs, c.value, fuel - 1);
      FirstDomAmongIsHostDom(fs, fs[c.value].sibling, fuel - 1);
    }
  }

  /** `_getSiblingDom(f)`: the first dom among the siblings of `f`'s alternate; if
      there is none and the parent has no dom of its own, the same search for the
      parent; otherwise nothing (insert at the end). */
  function SiblingDom(fs: seq<Fiber>, f: FiberId, fuel: nat): Result<Option<DomId>>
    requires LinksOk(fs) && f < |fs|
    decreases f
  {
    var alt := fs[f].alternate;
    var d :- FirstDomAmong(fs, if alt.Some? then fs[alt.value].sibling else None, fuel);
    if d.Some? then Ok(d)
    else if fs[f].parent.Some? && fs[fs[f].parent.value].dom.None? then SiblingDom(fs, fs[f].parent.value, fuel)
    else Ok(None)
  }

  /** The anchor `_getSiblingDom` finds is the dom of a host fiber. */
  lemma {:induction false} SiblingDomIsHostDom(fs: seq<Fiber>, f: FiberId, fuel: nat)
    requires LinksOk(fs) && f < |fs|
    ensures SiblingDom(fs, f, fuel).Ok? && SiblingDom(fs, f, fuel).value.Some? ==>
      exists x :: 0 <= x < |fs| && IsHostFiber(fs[x]) && fs[x].dom == SiblingDom(fs, f, fuel).value
    decreases f
  {
    var alt := fs[f].alternate;
    FirstDomAmongIsHostDom(fs, if alt.Some? then fs[alt.value].sibling else None, fuel);
    if fs[f].parent.Some? && fs[fs[f].parent.value].dom.None? {
      SiblingDomIsHostDom(fs, fs[f].parent.value, fuel);
    }
  }

  /** The calls `_removeDom(f, parentDom)` makes: a host fiber's dom is detached from
      `parentDom`; a function component's effect cleanups run, then its children are
      removed; a fragment's children are removed; a void fiber does nothing. */
  function RemoveEvents(fs: seq<Fiber>, hls: seq<HookList>, f: FiberId, parentDom: DomId, fuel: nat): Result<seq<Event>>
    requires LinksOk(fs) && HooksOk(fs, hls) && f < |fs|
    decreases fuel, 1
  {
    match fs[f].tag
    case Void => Ok([])
    case HostComponent => Ok(if fs[f].dom.Some? then [RemovedChild(parentDom, fs[f].dom.value)] else [])
    case HostText => Ok(if fs[f].dom.Some? then [RemovedChild(parentDom, fs[f].dom.value)] else [])
    case FunctionComponent =>
      var rest :- RemoveAmong(fs, hls, fs[f].child, parentDom, fuel);
      Ok(CleanupEvents(hls[fs[f].hooks]) + rest)
    case Fragment => RemoveAmong(fs, hls, fs[f].child, parentDom, fuel)
    case Root => Err(UnknownTag)
  }

  /** The loop `while (child) { _removeDom(child, domParent); child = child.sibling }`. */
  function RemoveAmong(fs: seq<Fiber>, hls: seq<HookList>, c: Option<FiberId>, parentDom: DomId, fuel: nat): Result<seq<Event>>
    requires LinksOk(fs) && HooksOk(fs, hls) && InArena(c, |fs|)
    decreases fuel, 0
  {
    if c.None? then Ok([])
    else if fuel == 0 then Err(Diverges)
    else
      var here :- RemoveEvents(fs, hls, c.value, parentDom, fuel - 1);
      var rest :- RemoveAmong(fs, hls, fs[c.value].sibling, parentDom, fuel - 1);
      Ok(here + rest)
  }

  /** Removing a subtree only detaches host objects from the given parent and runs
      cleanups; it never sets anything up or touches another host parent. */
  lemma {:induction false} RemoveEventsShape(fs: seq<Fiber>, hls: seq<HookList>, f: FiberId, parentDom: DomId, fuel: nat)
    requires LinksOk(fs) && HooksOk(fs, hls) && f < |fs|
    ensures RemoveEvents(fs, hls, f, parentDom, fuel).Ok? ==>
      forall e :: e in RemoveEvents(fs, hls, f, parentDom, fuel).value ==>
        (e.RemovedChild? && e.parent == parentDom) || e.CleanupRan?
    decreases fuel, 1
  {
    if fs[f].tag == FunctionComponent || fs[f].tag == Fragment {
      RemoveAmongShape(fs, hls, fs[f].child, parentDom, fuel);
    }
  }

  lemma {:induction false} RemoveAmongShape(fs: seq<Fiber>, hls: seq<HookList>, c: Option<FiberId>, parentDom: DomId, fuel: nat)
    requires LinksOk(fs) && HooksOk(fs, hls) && InArena(c, |fs|)
    ensures RemoveAmong(fs, hls, c, parentDom, fuel).Ok? ==>
      forall e :: e in RemoveAmong(fs, hls, c, parentDom, fuel).value ==>
        (e.RemovedChild? && e.parent == parentDom) || e.CleanupRan?
    decreases fuel, 0
  {
    if c.Some? && fuel > 0 {
      RemoveEventsShape(fs, hls, c.value, parentDom, fuel - 1);
      RemoveAmongShape(fs, hls, fs[c.value].sibling, parentDom, fuel - 1);
    }
  }

  // ------------------------------------------------------------ effect phase

  /** The hook objects `_getEffects(f)` returns, for a fiber whose hook array is `l`. */
  function DueRefs(hls: seq<HookList>, l: nat): (r: seq<HookRef>)
    requires l < |hls|
    ensures forall i :: 0 <= i < |r| ==> r[i].list == l && r[i].slot < |hls[l]| && Due(hls[l][r[i].slot])
    ensures forall s :: 0 <= s < |hls[l]| && Due(hls[l][s]) ==> HookRef(l, s) in r
    ensures forall a, b :: 0 <= a < b < |r| ==> r[a].slot < r[b].slot
  {
    var due := DueEffects(hls[l]);
    assert forall i :: 0 <= i < |due| ==> due[i] in due;
    var r := seq(|due|, i requires 0 <= i < |due| => HookRef(l, due[i]));
    assert forall s :: 0 <= s < |hls[l]| && Due(hls[l][s]) ==> HookRef(l, s) in r by {
      forall s | 0 <= s < |hls[l]| && Due(hls[l][s]) ensures HookRef(l, s) in r {
        var i :| 0 <= i < |due| && due[i] == s;
        assert r[i] == HookRef(l, s);
      }
    }
    r
  }

  /** The effect hook a reference names, if it names one. */
  predicate IsEffectRef(hls: seq<HookList>, r: HookRef) {
    r.list < |hls| && r.slot < |hls[r.list]| && hls[r.list][r.slot].Some? && hls[r.list][r.slot].value.EffectHook?
  }

  datatype EffectPhase = EffectPhase(hookLists: seq<HookList>, events: seq<Event>)

  /** `effects.forEach(effect => { effect.cleanup?.(); effect.cleanup = effect.setup() ??
      undefined })`, in order over the collected hook objects. */
  function RunEffects(w: World, hls: seq<HookList>, refs: seq<HookRef>): (r: EffectPhase)
    decreases |refs|
    ensures |r.hookLists| == |hls| && forall l :: 0 <= l < |hls| ==> |r.hookLists[l]| == |hls[l]|
  {
    if refs == [] then EffectPhase(hls, [])
    else if !IsEffectRef(hls, refs[0]) then RunEffects(w, hls, refs[1..])
    else
      var ref := refs[0];
      var run := RunEffect(w, hls[ref.list][ref.slot].value);
      var rest := RunEffects(w, hls[ref.list := hls[ref.list][ref.slot := Some(run.hook)]], refs[1..]);
      EffectPhase(rest.hookLists, run.events + rest.events)
  }

  /** What running the collected effects does to each one, read off the hook arrays
      as they were before the phase: its old cleanup, if any, then its setup. */
  function EffectEventsOf(w: World, hls: seq<HookList>, refs: seq<HookRef>): seq<Event>
    decreases |refs|
  {
    if refs == [] then []
    else
      var first := if IsEffectRef(hls, refs[0]) then RunEffect(w, hls[refs[0].list][refs[0].slot].value).events else [];
      first + EffectEventsOf(w, hls, refs[1..])
  }

  /** The hook a slot holds after the phase: a collected effect hook keeps the value
      its setup returned as its new cleanup; every other slot is as it was. */
  function AfterEffects(w: World, hls: seq<HookList>, refs: seq<HookRef>, l: nat, s: nat): Option<Hook>
    requires l < |hls| && s < |hls[l]|
  {
    if IsEffectRef(hls, HookRef(l, s)) && HookRef(l, s) in refs
    then Some(RunEffect(w, hls[l][s].value).hook)
    else hls[l][s]
  }

  /** No hook object is collected twice. */
  predicate DistinctRefs(refs: seq<HookRef>) {
    forall a, b :: 0 <= a < b < |refs| ==> refs[a] != refs[b]
  }

  /** When no hook object is collected twice, the effect phase runs, for each collected
      effect in order, its old cleanup and then its setup; it stores each setup's result
      as that effect's cleanup and leaves every other slot alone. */
  lemma {:induction false} RunEffectsMeaning(w: World, hls: seq<HookList>, refs: seq<HookRef>)
    requires DistinctRefs(refs)
    ensures RunEffects(w, hls, refs).events == EffectEventsOf(w, hls, refs)
    ensures forall l, s :: 0 <= l < |hls| && 0 <= s < |hls[l]| ==>
      RunEffects(w, hls, refs).hookLists[l][s] == AfterEffects(w, hls, refs, l, s)
    decreases |refs|
  {
    if refs != [] {
      assert DistinctRefs(refs[1..]) by {
        forall a, b | 0 <= a < b < |refs[1..]| ensures refs[1..][a] != refs[1..][b] {
          assert refs[1..][a] == refs[a + 1] && refs[1..][b] == refs[b + 1];
        }
      }
      var rest := refs[1..];
      assert forall r :: r in refs <==> r == refs[0] || r in rest by {
        assert refs == [refs[0]] + rest;
      }
      if !IsEffectRef(hls, refs[0]) {
        RunEffectsMeaning(w, hls, rest);
      } else {
        var ref := refs[0];
        var run := RunEffect(w, hls[ref.list][ref.slot].value);
        var hls' := hls[ref.list := hls[ref.list][ref.slot := Some(run.hook)]];
        assert ref !in rest by {
          forall i | 0 <= i < |rest| ensures rest[i] != ref {
            assert rest[i] == refs[i + 1];
          }
        }
        RunEffectsMeaning(w, hls', rest);
        EffectEventsFrame(w, hls, hls', rest, ref);
        forall l, s | 0 <= l < |hls| && 0 <= s < |hls[l]|
          ensures RunEffects(w, hls, refs).hookLists[l][s] == AfterEffects(w, hls, refs, l, s)
        {
          assert RunEffects(w, hls, refs).hookLists == RunEffects(w, hls', rest).hookLists;
          if HookRef(l, s) != ref {
            assert hls'[l][s] == hls[l][s];
          }
        }
      }
    }
  }

  /** Changing a slot no reference names changes nothing the references see. */
  lemma {:induction false} EffectEventsFrame(w: World, hls: seq<HookList>, hls': seq<HookList>, refs: seq<HookRef>, ref: HookRef)
    requires |hls'| == |hls| && forall l :: 0 <= l < |hls| ==> |hls'[l]| == |hls[l]|
    requires forall l, s :: 0 <= l < |hls| && 0 <= s < |hls[l]| && HookRef(l, s) != ref ==> hls'[l][s] == hls[l][s]
    requires ref !in refs
    ensures EffectEventsOf(w, hls', refs) == EffectEventsOf(w, hls, refs)
    decreases |refs|
  {
    if refs != [] {
      assert refs[0] != ref;
      assert forall r :: r in refs[1..] ==> r in refs;
      EffectEventsFrame(w, hls, hls', refs[1..], ref);
    }
  }

  /** The setups of the collected effects, in order. */
  function SetupsOf(hls: seq<HookList>, refs: seq<HookRef>): seq<Value>
    decreases |refs|
  {
    if refs == [] then []
    else (if IsEffectRef(hls, refs[0]) then [hls[refs[0].list][refs[0].slot].value.setup] else []) + SetupsOf(hls, refs[1..])
  }

  /** The effect phase calls only cleanups and setups, never the host; it calls the
      setup of every collected effect exactly once and in collection order; and hook
      kinds and setups stay as they were. */
  lemma {:induction false} RunEffectsShape(w: World, hls: seq<HookList>, refs: seq<HookRef>)
    ensures forall e :: e in RunEffects(w, hls, refs).events ==> e.CleanupRan? || e.SetupRan?
    ensures SetupsIn(RunEffects(w, hls, refs).events) == SetupsOf(hls, refs)
    decreases |refs|
  {
    if refs != [] {
      if !IsEffectRef(hls, refs[0]) {
        RunEffectsShape(w, hls, refs[1..]);
      } else {
        var ref := refs[0];
        var h := hls[ref.list][ref.slot].value;
        var run := RunEffect(w, h);
        var hls' := hls[ref.list := hls[ref.list][ref.slot := Some(run.hook)]];
        RunEffectsShape(w, hls', refs[1..]);
        SameSetups(hls, hls', refs[1..], ref);
        SetupsInAppend(run.events, RunEffects(w, hls', refs[1..]).events);
        if h.cleanup.Some? {
          assert run.events[1..] == [SetupRan(h.setup)];
        }
      }
    }
  }

  /** Storing a new cleanup in one effect hook changes no hook's kind or setup. */
  lemma {:induction false} SameSetups(hls: seq<HookList>, hls': seq<HookList>, refs: seq<HookRef>, ref: HookRef)
    requires IsEffectRef(hls, ref)
    requires |hls'| == |hls| && forall l :: 0 <= l < |hls| ==> |hls'[l]| == |hls[l]|
    requires forall l, s :: 0 <= l < |hls| && 0 <= s < |hls[l]| && (l != ref.list || s != ref.slot) ==> hls'[l][s] == hls[l][s]
    requires hls'[ref.list][ref.slot].Some? && hls'[ref.list][ref.slot].value.EffectHook?
    requires hls'[ref.list][ref.slot].value.setup == hls[ref.list][ref.slot].value.setup
    ensures SetupsOf(hls', refs) == SetupsOf(hls, refs)
    decreases |refs|
  {
    if refs != [] {
      SameSetups(hls, hls', refs[1..], ref);
    }
  }

  // ------------------------------------------------------------ as written

  /** `render` as written keeps `_firstEffect` and `_lastEffect` from the previous
      commit, whose links the commit has cleared. A new intent is then linked after
      the stale tail, while the walk starts at the stale head: here fibers 0 and 1
      were committed, fiber 2 is scheduled, and the walk reaches only fiber 0. */
  lemma StaleChainLosesIntents()
    ensures var f := BlankFiber(HostComponent, HostType("div"), 0);
      var r := AppendEffect([f, f, f], Some(0), Some(1), 2);
      Walk(r.fibers, EffectLink, r.first, 3) == [0]
  {
    var f := BlankFiber(HostComponent, HostType("div"), 0);
    var r := AppendEffect([f, f, f], Some(0), Some(1), 2);
    assert r.fibers[0].nextEffect.None?;
  }

  /** Starting from the reset chain instead, the same intent is the whole walk. */
  lemma ResetChainKeepsIntents()
    ensures var f := BlankFiber(HostComponent, HostType("div"), 0);
      var r := AppendEffect([f, f, f], None, None, 2);
      Walk(r.fibers, EffectLink, r.first, 3) == [2]
  {
    var f := BlankFiber(HostComponent, HostType("div"), 0);
    ScheduleInOrder([f, f, f], None, None, [], 2, 3);
  }
}
