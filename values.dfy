/** The values the reconciliation engine handles: JavaScript values as far as the
    engine inspects them, element descriptions and their props, and the engine's
    failure outcomes. */
module Values {

  datatype Option<T> = None | Some(value: T) {
    function GetOr(default: T): T {
      if Some? then value else default
    }
  }

  /** The engine's fatal errors. The first three are the `throw new Error('WAT')`
      sites of the source; `Diverges` marks where the source would loop forever (or
      recurse without bound); `HookLimit` is where the model stops following a
      component that keeps calling hooks. */
  datatype Fault = NoWorkInProgress | HookKindMismatch | UnknownTag | Diverges | HookLimit

  /** Regrouping an append, stated once so that long traces need not be compared
      element by element. */
  lemma AppendAssoc<T>(a: seq<T>, b: seq<T>, c: seq<T>)
    ensures a + (b + c) == a + b + c
  {
  }

  /** A prefix of a prefix is a prefix. */
  lemma PrefixTrans<T>(a: seq<T>, b: seq<T>, c: seq<T>)
    requires a <= b && b <= c
    ensures a <= c
  {
  }

  datatype Result<T> = Ok(value: T) | Err(fault: Fault) {
    predicate IsFailure() { Err? }
    function PropagateFailure<U>(): Result<U>
      requires Err?
    {
      Err(fault)
    }
    function Extract(): T
      requires Ok?
    {
      value
    }
  }

  /** Identity of a user-supplied function or object (compared with `===`). */
  type Ref = nat

  /** A JavaScript value: primitives by value, functions and objects by identity. */
  datatype Value =
    | Undefined
    | Null
    | Bool(b: bool)
    | Num(n: int)
    | Str(s: string)
    | Fun(fn: Ref)
    | Obj(obj: Ref)

  /** JavaScript truthiness (`!v` is false). NaN and -0 are not modelled. */
  predicate Truthy(v: Value) {
    match v
    case Undefined => false
    case Null => false
    case Bool(b) => b
    case Num(n) => n != 0
    case Str(s) => s != ""
    case Fun(_) => true
    case Obj(_) => true
  }

  /** Reading a property of a plain object: a missing key reads as `undefined`. */
  function Get(m: map<string, Value>, k: string): Value {
    if k in m then m[k] else Undefined
  }

  /** The `type` of an element or work node: a host tag name, a function
      component, or one of the engine's marker symbols. */
  datatype ElemType =
    | HostType(name: string)
    | ComponentType(component: Ref)
    | FragmentType
    | TextType
    | RootType
    | VoidType

  /** Props: every attribute and handler by name, and the child descriptions.
      An absent `children` is the same as an empty one everywhere the engine
      reads it, so it is a plain sequence here. */
  datatype Props = Props(attrs: map<string, Value>, children: seq<Node>)

  /** An element: what `createElement` returns. The key is `null` or a value. */
  datatype Element = Element(etype: ElemType, key: Value, props: Props)

  /** A child description: an element, text, a number, "nothing", or a nested array. */
  datatype Node =
    | NUndefined
    | NNull
    | NBool(b: bool)
    | NStr(s: string)
    | NNum(n: int)
    | NArray(items: seq<Node>)
    | NElement(el: Element)

  const NoProps := Props(map[], [])
}
