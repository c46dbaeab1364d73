/** Shallow props comparison, dependency-list comparison and the props diff that
    drives host attribute and listener updates. */
module PropsDiff {
  import opened Values

  /** `_propsEqual`: children are ignored; the key counts must match and every key of
      `a` must read an identical value in `b` (a key missing from `b` reads as
      `undefined`). Children never sit in `attrs`, so they are ignored by construction. */
  predicate PropsEqual(a: Props, b: Props) {
    |a.attrs| == |b.attrs| && forall k :: k in a.attrs ==> Get(b.attrs, k) == a.attrs[k]
  }

  lemma SubsetSameSize<T>(a: set<T>, b: set<T>)
    requires a <= b && |a| == |b|
    ensures a == b
  {
    if a != b {
      var x :| x in b && x !in a;
      assert a <= b - {x};
      assert |b - {x}| == |b| - 1;
      SubsetCard(a, b - {x});
    }
  }

  lemma SubsetCard<T>(a: set<T>, b: set<T>)
    requires a <= b
    ensures |a| <= |b|
  {
    assert b == a + (b - a);
  }

  /** On props that hold no `undefined` value, `_propsEqual` is equality of the
      attribute maps, whatever the children. */
  lemma PropsEqualIsAttrEquality(a: Props, b: Props)
    requires forall k :: k in a.attrs ==> a.attrs[k] != Undefined
    requires forall k :: k in b.attrs ==> b.attrs[k] != Undefined
    ensures PropsEqual(a, b) <==> a.attrs == b.attrs
  {
    if PropsEqual(a, b) {
      assert a.attrs.Keys <= b.attrs.Keys;
      assert |a.attrs.Keys| == |a.attrs| && |b.attrs.Keys| == |b.attrs|;
      SubsetSameSize(a.attrs.Keys, b.attrs.Keys);
    }
  }

  /** The comparison as the source writes it: an explicit `undefined` under one key
      matches a key the other side does not have, so these two props compare equal. */
  lemma PropsEqualUndefinedMatchesMissing()
    ensures PropsEqual(Props(map["x" := Undefined], []), Props(map["y" := Num(1)], []))
  {
    var a := Props(map["x" := Undefined], []);
    var b := Props(map["y" := Num(1)], []);
    assert forall k :: k in a.attrs ==> k == "x";
  }

  /** `_depsEqual(a = [], b = [])`: an absent list is `[]`; equal iff the lengths match
      and the elements are pairwise identical, i.e. the lists are equal. */
  function DepsEqual(a: Option<seq<Value>>, b: Option<seq<Value>>): (r: bool)
    ensures r <==> a.GetOr([]) == b.GetOr([])
  {
    var x, y := a.GetOr([]), b.GetOr([]);
    |x| == |y| && forall i :: 0 <= i < |x| ==> x[i] == y[i]
  }

  /** `_isHandler`: a prop whose name starts with "on". */
  predicate IsHandler(name: string) {
    |name| >= 2 && name[..2] == "on"
  }

  function LowerChar(c: char): char {
    if 'A' <= c <= 'Z' then (c as int + 32) as char else c
  }

  /** `_toEventName`: the name without its first two characters, lower-cased
      (ASCII letters only). */
  function ToEventName(name: string): (r: string)
    ensures |r| == if |name| >= 2 then |name| - 2 else 0
    ensures forall i :: 0 <= i < |r| ==> !('A' <= r[i] <= 'Z')
    ensures forall i :: 0 <= i < |r| ==> r[i] == LowerChar(name[i + 2])
  {
    if |name| < 2 then "" else seq(|name| - 2, i requires 0 <= i < |name| - 2 => LowerChar(name[i + 2]))
  }

  /** The prop names a host update adds (re-sets) and removes, split into plain
      props and handlers. The source returns them as arrays in key order; only the
      sets matter here. */
  datatype Diff = Diff(addedProps: set<string>, addedHandlers: set<string>,
                       removedProps: set<string>, removedHandlers: set<string>)

  /** What `_diffProps` looks at: all props except `children` and `key`. */
  function Visible(p: Props): map<string, Value> {
    p.attrs - {"key", "children"}
  }

  /** `isAdded`: `!prev[key] || curr[key] !== prev[key]` (JavaScript truthiness). */
  predicate IsAdded(prev: map<string, Value>, curr: map<string, Value>, k: string) {
    !Truthy(Get(prev, k)) || Get(curr, k) != Get(prev, k)
  }

  /** `isRemoved`: `!curr[key] || curr[key] !== prev[key]`. */
  predicate IsRemoved(prev: map<string, Value>, curr: map<string, Value>, k: string) {
    !Truthy(Get(curr, k)) || Get(curr, k) != Get(prev, k)
  }

  /** `_diffProps(prev, curr)`. */
  function DiffProps(prev: Props, curr: Props): (d: Diff)
    ensures forall k :: k in d.addedProps + d.addedHandlers + d.removedProps + d.removedHandlers ==>
      k != "key" && k != "children"
    ensures d.addedProps !! d.addedHandlers && d.removedProps !! d.removedHandlers
    ensures forall k :: (k in d.addedProps ==> !IsHandler(k)) && (k in d.addedHandlers ==> IsHandler(k))
    ensures forall k :: (k in d.removedProps ==> !IsHandler(k)) && (k in d.removedHandlers ==> IsHandler(k))
    ensures forall k :: k in d.addedProps + d.addedHandlers ==> k in Visible(curr)
    ensures forall k :: k in d.removedProps + d.removedHandlers ==> k in Visible(prev)
    ensures forall k :: k in Visible(curr) ==>
      (k in d.addedProps + d.addedHandlers <==> IsAdded(Visible(prev), Visible(curr), k))
    ensures forall k :: k in Visible(prev) ==>
      (k in d.removedProps + d.removedHandlers <==> IsRemoved(Visible(prev), Visible(curr), k))
  {
    var p, c := Visible(prev), Visible(curr);
    Diff(set k | k in c && !IsHandler(k) && IsAdded(p, c, k),
         set k | k in c && IsHandler(k) && IsAdded(p, c, k),
         set k | k in p && !IsHandler(k) && IsRemoved(p, c, k),
         set k | k in p && IsHandler(k) && IsRemoved(p, c, k))
  }

  /** The plain (non-handler) props of an element as its host attributes/properties. */
  function HostAttrs(p: Props): map<string, Value> {
    map k | k in Visible(p) && !IsHandler(k) :: Visible(p)[k]
  }

  /** The listeners an element's handlers register: (event name, handler). */
  function HostListeners(p: Props): set<(string, Value)> {
    set k | k in Visible(p) && IsHandler(k) :: (ToEventName(k), Visible(p)[k])
  }

  /** The abstract effect of `_updateDom(el, prev, curr)` on an element's attributes:
      removed props are dropped first, then every added prop is set to its new value. */
  function PatchAttrs(attrs: map<string, Value>, d: Diff, curr: Props): map<string, Value> {
    var kept := attrs - d.removedProps;
    map k | k in kept.Keys + d.addedProps :: if k in d.addedProps then Get(curr.attrs, k) else kept[k]
  }

  /** The abstract effect of `_updateDom` on listeners: each removed handler's old
      function is unregistered, then each added handler's function is registered. */
  function PatchListeners(ls: set<(string, Value)>, d: Diff, prev: Props, curr: Props): set<(string, Value)> {
    (ls - set h | h in d.removedHandlers :: (ToEventName(h), Get(prev.attrs, h)))
      + set h | h in d.addedHandlers :: (ToEventName(h), Get(curr.attrs, h))
  }

  /** Applying the diff of `prev` and `curr` to an element whose attributes are those
      of `prev` leaves exactly the attributes of `curr`: the truthiness tests never
      drop a prop that is still wanted. */
  lemma PatchSyncsAttrs(prev: Props, curr: Props)
    ensures PatchAttrs(HostAttrs(prev), DiffProps(prev, curr), curr) == HostAttrs(curr)
  {
    var d := DiffProps(prev, curr);
    var p, c := Visible(prev), Visible(curr);
    var got := PatchAttrs(HostAttrs(prev), d, curr);
    var want := HostAttrs(curr);
    forall k | k in want
      ensures k in got && got[k] == want[k]
    {
      assert k in c && !IsHandler(k);
      if k !in d.addedProps {
        assert !IsAdded(p, c, k);
        assert k in p && p[k] == c[k] && Truthy(c[k]);
        assert !IsRemoved(p, c, k);
      }
    }
    forall k | k in got
      ensures k in want
    {
      if k !in d.addedProps {
        assert k in HostAttrs(prev) && k !in d.removedProps;
        assert k in p && !IsHandler(k);
        assert !IsRemoved(p, c, k);
      }
    }
  }

  /** The same for listeners, when distinct handler names give distinct event
      names (otherwise unregistering one handler also drops its twin). */
  lemma PatchSyncsListeners(prev: Props, curr: Props)
    requires forall h1, h2 ::
      (h1 in Visible(prev).Keys + Visible(curr).Keys && h2 in Visible(prev).Keys + Visible(curr).Keys
       && IsHandler(h1) && IsHandler(h2) && h1 != h2) ==> ToEventName(h1) != ToEventName(h2)
    ensures PatchListeners(HostListeners(prev), DiffProps(prev, curr), prev, curr) == HostListeners(curr)
  {
    var d := DiffProps(prev, curr);
    var p, c := Visible(prev), Visible(curr);
    var got := PatchListeners(HostListeners(prev), d, prev, curr);
    var want := HostListeners(curr);
    forall x | x in want
      ensures x in got
    {
      var h :| h in c && IsHandler(h) && x == (ToEventName(h), c[h]);
      if h !in d.addedHandlers {
        assert !IsAdded(p, c, h);
        assert h in p && p[h] == c[h];
        assert x in HostListeners(prev);
        assert !IsRemoved(p, c, h);
        assert x !in set h' | h' in d.removedHandlers :: (ToEventName(h'), Get(prev.attrs, h'));
      } else {
        assert Get(curr.attrs, h) == c[h];
      }
    }
    forall x | x in got
      ensures x in want
    {
      if x !in set h | h in d.addedHandlers :: (ToEventName(h), Get(curr.attrs, h)) {
        var h :| h in p && IsHandler(h) && x == (ToEventName(h), p[h]);
        assert h !in d.removedHandlers;
        assert !IsRemoved(p, c, h);
        assert h in c && c[h] == p[h];
      }
    }
  }

  /** Re-rendering with the same props patches nothing when every prop is truthy;
      a falsy prop is always re-set (it is both removed and added). */
  lemma SameTruthyPropsNoPatch(p: Props)
    requires forall k :: k in Visible(p) ==> Truthy(Visible(p)[k])
    ensures DiffProps(p, p) == Diff({}, {}, {}, {})
  {
  }
}
