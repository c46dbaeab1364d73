/** Element construction and the normalisers that turn a raw child description into
    the tag, type, props and key of a work node. */
module Elements {
  import opened Values

  /** The kind of a work node. */
  datatype Tag = Root | HostText | HostComponent | FunctionComponent | Fragment | Void

  /** Props names `createElement` takes out of the props it is given. */
  const Reserved: set<string> := {"key", "__self", "__source"}

  /** `createElement(type, props, ...children)`: the key is `props.key` (a missing or
      undefined key becomes `null`), `key`, `__self` and `__source` are dropped, and
      `children` is always the given children. A `null` props argument is `None`. */
  function CreateElement(etype: ElemType, props: Option<map<string, Value>>, children: seq<Node>): (e: Element)
    ensures e.etype == etype && e.props.children == children
    ensures var p := props.GetOr(map[]);
      && e.key == (if Get(p, "key") == Undefined then Null else p["key"])
      && e.props.attrs.Keys == p.Keys - Reserved - {"children"}
      && forall k :: k in e.props.attrs ==> e.props.attrs[k] == p[k]
  {
    var p := props.GetOr(map[]);
    var key := if "key" in p && p["key"] != Undefined then p["key"] else Null;
    Element(etype, key, Props(map k | k in p && k !in Reserved && k != "children" :: p[k], children))
  }

  predicate IsArray(n: Node) { n.NArray? }

  predicate IsVoid(n: Node) { n == NNull || n == NUndefined || n.NBool? }

  predicate IsText(n: Node) { n.NStr? || n.NNum? }

  predicate IsElement(n: Node) { !IsVoid(n) && !IsArray(n) && !IsText(n) }

  /** Every child description falls into exactly one of the four classes. */
  lemma ClassesPartition(n: Node)
    ensures IsArray(n) || IsVoid(n) || IsText(n) || IsElement(n)
    ensures IsElement(n) <==> n.NElement?
    ensures !(IsArray(n) && IsVoid(n)) && !(IsArray(n) && IsText(n)) && !(IsVoid(n) && IsText(n))
  {
  }

  /** `_getKey`: only elements carry a key. */
  function GetKey(n: Node): (k: Value)
    ensures !IsElement(n) ==> k == Null
    ensures IsElement(n) ==> k == n.el.key
  {
    if IsArray(n) || IsText(n) || IsVoid(n) then Null else n.el.key
  }

  /** `_getWorkTag`. The last branch (an element whose type is neither the fragment
      marker, a tag name nor a function) is reachable with the other marker types. */
  function GetWorkTag(n: Node): (t: Tag)
    ensures t != Root
    ensures t == Void <==> IsVoid(n)
    ensures t == HostText <==> IsText(n)
    ensures t == Fragment <==> IsArray(n) || (IsElement(n) && n.el.etype == FragmentType)
    ensures t == FunctionComponent <==> IsElement(n) && n.el.etype.ComponentType?
    ensures t == HostComponent <==> IsElement(n) && !n.el.etype.ComponentType? && n.el.etype != FragmentType
  {
    if IsArray(n) then Fragment
    else if IsText(n) then HostText
    else if IsVoid(n) then Void
    else if n.el.etype == FragmentType then Fragment
    else if n.el.etype.HostType? then HostComponent
    else if n.el.etype.ComponentType? then FunctionComponent
    else HostComponent
  }

  /** `_getWorkType`: arrays are fragments, text is the text marker, "nothing" is the
      void marker, an element keeps its own type. */
  function GetWorkType(n: Node): (t: ElemType)
    ensures IsArray(n) ==> t == FragmentType
    ensures IsText(n) ==> t == TextType
    ensures IsVoid(n) ==> t == VoidType
    ensures IsElement(n) ==> t == n.el.etype
  {
    if IsArray(n) then FragmentType
    else if IsText(n) then TextType
    else if IsVoid(n) then VoidType
    else n.el.etype
  }

  /** The `nodeValue` of a text child: the string or the number itself. */
  function TextValue(n: Node): Value
    requires IsText(n)
  {
    if n.NStr? then Str(n.s) else Num(n.n)
  }

  /** `_getProps`: an array becomes `{children: el}`, text `{nodeValue: el}`,
      "nothing" `{}`, an element keeps its props. */
  function GetProps(n: Node): (p: Props)
    ensures IsArray(n) ==> p == Props(map[], n.items)
    ensures IsText(n) ==> p.children == [] && p.attrs.Keys == {"nodeValue"} && p.attrs["nodeValue"] == TextValue(n)
    ensures IsVoid(n) ==> p == NoProps
    ensures IsElement(n) ==> p == n.el.props
  {
    if IsArray(n) then Props(map[], n.items)
    else if IsText(n) then Props(map["nodeValue" := TextValue(n)], [])
    else if IsVoid(n) then NoProps
    else n.el.props
  }

  /** The tag an element of type `t` gets (the element branch of `_getWorkTag`). */
  function ElementTag(t: ElemType): Tag {
    if t == FragmentType then Fragment
    else if t.ComponentType? then FunctionComponent
    else HostComponent
  }

  /** An element's tag depends on its type alone, and the props, type and key of
      its work node are its own. */
  lemma ElementNormalisation(e: Element)
    ensures GetWorkTag(NElement(e)) == ElementTag(e.etype)
    ensures GetWorkType(NElement(e)) == e.etype
    ensures GetProps(NElement(e)) == e.props
    ensures GetKey(NElement(e)) == e.key
  {
  }
}
