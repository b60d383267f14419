/**
 * The JavaScript values that live in the simulator's signal table: numbers
 * (integers and NaN), big integers, strings, booleans, null and undefined,
 * functions, typed arrays (fixed length, elements truncated on store), plain
 * arrays, and other objects.
 */
module JsValues {

  datatype Option<T> = None | Some(value: T)

  /** A thrown error, or a normal result. */
  datatype Result<T, E> = Ok(value: T) | Err(error: E)

  /** The element types of the typed arrays the runtime allocates. */
  datatype ElemKind = U8 | U16 | U32

  function ElemBits(k: ElemKind): (b: nat)
    ensures b == 8 || b == 16 || b == 32
  {
    match k
    case U8 => 8
    case U16 => 16
    case U32 => 32
  }

  function ElemModulus(k: ElemKind): (m: nat)
    ensures m == 0x100 || m == 0x1_0000 || m == 0x1_0000_0000
  {
    match k
    case U8 => 0x100
    case U16 => 0x1_0000
    case U32 => 0x1_0000_0000
  }

  /** A JS number as this model needs it: an integer, or NaN. */
  datatype Number = Int(i: int) | NaN

  /**
   * What a typed array stores for a number: ToUint8/ToUint16/ToUint32,
   * that is NaN becomes 0 and an integer is reduced modulo 2^bits.
   */
  function StoreElem(k: ElemKind, n: Number): (r: int)
    ensures 0 <= r < ElemModulus(k)
    ensures n.Int? && 0 <= n.i < ElemModulus(k) ==> r == n.i
    ensures n.NaN? ==> r == 0
  {
    match n
    case NaN => 0
    case Int(i) => i % ElemModulus(k)
  }

  datatype Value =
    | Undefined
    | Null
    | Bool(b: bool)
    | Num(n: Number)
    | Big(big: int)
    | Str(s: string)
    | Func(fname: string)
    | Typed(kind: ElemKind, buf: array<int>)
    | List(list: JsList)
    | Obj(obj: JsObject)

  /** A plain JS array: it grows when an index past its end is assigned. */
  class JsList {
    var items: seq<Value>

    constructor (items0: seq<Value>)
      ensures items == items0
    {
      items := items0;
    }
  }

  /** A plain JS object used as a dictionary. */
  class JsObject {
    var props: map<string, Value>

    constructor ()
      ensures props == map[]
    {
      props := map[];
    }
  }

  /** The heap objects a value refers to directly. */
  function Refs(v: Value): (r: set<object>)
    ensures v.Typed? ==> r == {v.buf}
    ensures v.List? ==> r == {v.list}
    ensures v.Obj? ==> r == {v.obj}
    ensures !v.Typed? && !v.List? && !v.Obj? ==> r == {}
  {
    match v
    case Typed(_, buf) => {buf}
    case List(l) => {l}
    case Obj(o) => {o}
    case _ => {}
  }

  /** The heap objects the values of a table refer to directly. */
  function TableRefs(m: map<string, Value>): set<object>
  {
    set k, o | k in m && o in Refs(m[k]) :: o
  }

  /** Primitive values (and null/undefined): copied by value. */
  predicate IsPrimitive(v: Value)
  {
    v.Undefined? || v.Null? || v.Bool? || v.Num? || v.Big? || v.Str?
  }

  /** Array-like objects, the ones that have a `slice` method. */
  predicate IsArrayLike(v: Value)
  {
    v.Typed? || v.List?
  }

  /**
   * What a value amounts to once copied: a primitive itself, an array its
   * current contents, a function or plain object nothing.
   */
  datatype Snap =
    | Prim(v: Value)
    | TypedSnap(kind: ElemKind, elems: seq<int>)
    | ListSnap(items: seq<Value>)
    | NoSnap

  function SnapOf(v: Value): (s: Snap)
    reads Refs(v)
    ensures IsPrimitive(v) <==> s.Prim?
    ensures v.Typed? <==> s.TypedSnap?
    ensures v.List? <==> s.ListSnap?
  {
    match v
    case Typed(k, buf) => TypedSnap(k, buf[..])
    case List(l) => ListSnap(l.items)
    case Func(_) => NoSnap
    case Obj(_) => NoSnap
    case _ => Prim(v)
  }
}
