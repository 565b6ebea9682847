/** Type descriptors, tag words and the values that travel between the JS engine and native code.

    A `FeatureType` word of the framework is either a primitive tag (base number shifted left by two,
    with two flag bits) or a pointer to a complex-type header whose own `type` word is built the same
    way. `TypeWord` recovers that word, so that the flag macros can be stated on arithmetic.
*/
module FeatureTypes {

  import opened Options

  /** Primitive tags. `Char` is the same word as `Str` and has no constructor of its own. */
  datatype Tag =
    | Void | Int | Int8 | Uint8 | Int16 | Uint16 | Int32 | Uint32 | Int64 | Uint64
    | Float | Double | Boolean | Str | AnyRef | JsonObj

  /** Values of the JS engine. `addr` is the identity of a heap value; `Scalar` is a number or a
      boolean, whose engine representation only the leaf codec understands. */
  datatype Js =
    | Undefined
    | Null
    | Scalar(rep: int)
    | Text(text: string)
    | Object(addr: nat, fields: map<string, Js>)
    | List(addr: nat, elems: seq<Js>)
    | Function(addr: nat)

  /** The content of one native slot. Pointers own what they point to; `None` is the null pointer. */
  datatype Native =
    | NNum(bits: int)
    | NStr(str: Option<string>)
    | NAny(ref: Option<Js>)
    | NJson(json: Option<string>)
    | NCallback(id: int)
    | NStruct(block: Option<seq<Native>>)
    | NArray(elements: Option<seq<Native>>)

  /** The union inside an optional descriptor: a number, a C string or a pointer. */
  datatype Default = Default(num: int, str: Option<string>, ptr: Native)

  datatype Member = Member(name: string, ftype: FType)

  datatype FType =
    | Prim(tag: Tag)
    | Struct(members: seq<Member>)
    | Optional(inner: FType, dflt: Default)
    | Callback
    | Array(elem: FType)
    | Promise

  const FLAG_VALUE: nat := 1
  const FLAG_POINTER: nat := 2
  const FLAG_UNMANAGED: nat := 3
  const POINTER_SIZE: nat := 8

  predicate PointerTag(tag: Tag) {
    tag.Str? || tag.AnyRef? || tag.JsonObj?
  }

  /** Everything that is stored by value in its slot. */
  predicate ScalarTag(tag: Tag) {
    !PointerTag(tag) && !tag.Void?
  }

  function TagBase(tag: Tag): nat {
    match tag
    case Void => 0 case Int => 1 case Int8 => 2 case Uint8 => 3 case Int16 => 4 case Uint16 => 5
    case Int32 => 6 case Uint32 => 7 case Int64 => 8 case Uint64 => 9 case Float => 10
    case Double => 11 case Boolean => 12 case Str => 13 case AnyRef => 14 case JsonObj => 15
  }

  function TypeWord(t: FType): nat {
    match t
    case Prim(tag) => TagBase(tag) * 4 + (if PointerTag(tag) then FLAG_POINTER else FLAG_VALUE)
    case Struct(_) => 1 * 4 + FLAG_POINTER
    case Optional(_, _) => 2 * 4 + FLAG_VALUE
    case Callback => 3 * 4 + FLAG_VALUE
    case Array(_) => 4 * 4 + FLAG_POINTER
    case Promise => 5 * 4 + FLAG_UNMANAGED
  }

  /** FT_GET_REAL_TYPE: one optional layer is removed, not all of them. */
  function RealType(t: FType): FType {
    if t.Optional? then t.inner else t
  }

  function Flag(t: FType): nat {
    TypeWord(RealType(t)) % 4
  }

  predicate IsReference(t: FType) {
    Flag(t) / 2 == 1
  }

  predicate NeedFree(t: FType) {
    Flag(t) == FLAG_POINTER
  }

  function ValueSize(t: FType): nat {
    var r := RealType(t);
    if IsReference(r) then POINTER_SIZE
    else match r
      case Prim(tag) => (
        match tag
        case Void => 0
        case Int8 => 1 case Uint8 => 1 case Boolean => 1
        case Int16 => 2 case Uint16 => 2
        case Int => 4 case Int32 => 4 case Uint32 => 4 case Float => 4
        case Int64 => 8 case Uint64 => 8 case Double => 8
        case Str => POINTER_SIZE case AnyRef => POINTER_SIZE
        case JsonObj => 0)
      case Callback => 4
      case _ => 0
  }

  /** Distance between two array elements. */
  function ElemSize(t: FType): nat {
    if IsReference(t) then POINTER_SIZE else ValueSize(t)
  }

  /** The flag macros on words agree with the shape of the type: pointers to managed memory are
      strings, any-references, JSON objects, structs and arrays, looked at through one optional. */
  lemma FlagsByShape(t: FType)
    ensures NeedFree(t) <==>
              var r := RealType(t); r.Struct? || r.Array? || (r.Prim? && PointerTag(r.tag))
    ensures IsReference(t) <==> NeedFree(t) || RealType(t).Promise?
  {
    match RealType(t) {
      case Prim(tag) => assert TypeWord(RealType(t)) % 4 == if PointerTag(tag) then 2 else 1;
      case _ =>
    }
  }

  /** Elements have no width exactly for void and for values wrapped in two optionals: one layer is
      removed by the macro, and a second one is then an unsupported complex type. */
  lemma ZeroWidthElements(t: FType)
    ensures ElemSize(t) == 0 <==>
              || RealType(t) == Prim(Void)
              || (t.Optional? && t.inner.Optional? && !IsReference(t.inner))
  {
    FlagsByShape(t);
    FlagsByShape(RealType(t));
  }

  /** Scalars are as wide in memory as their names say, in bits, whether optional or not. */
  lemma WidthsInBits(tag: Tag, d: Default)
    requires ScalarTag(tag)
    ensures ElemSize(Optional(Prim(tag), d)) == ElemSize(Prim(tag))
    ensures tag.Int8? || tag.Uint8? || tag.Boolean? ==> 8 * ElemSize(Prim(tag)) == 8
    ensures tag.Int16? || tag.Uint16? ==> 8 * ElemSize(Prim(tag)) == 16
    ensures tag.Int? || tag.Int32? || tag.Uint32? || tag.Float? ==> 8 * ElemSize(Prim(tag)) == 32
    ensures tag.Int64? || tag.Uint64? || tag.Double? ==> 8 * ElemSize(Prim(tag)) == 64
  {
    FlagsByShape(Prim(tag));
    FlagsByShape(Optional(Prim(tag), d));
  }

  /** All-zero memory of the given type. */
  function Zero(t: FType): Native {
    match t
    case Prim(tag) =>
      if tag.Str? then NStr(None)
      else if tag.AnyRef? then NAny(None)
      else if tag.JsonObj? then NJson(None)
      else NNum(0)
    case Struct(_) => NStruct(None)
    case Optional(inner, _) => Zero(inner)
    case Callback => NCallback(0)
    case Array(_) => NArray(None)
    case Promise => NNum(0)
  }

  function ZeroMembers(ms: seq<Member>): seq<Native> {
    seq(|ms|, i requires 0 <= i < |ms| => Zero(ms[i].ftype))
  }

  function ZeroElems(t: FType, n: nat): seq<Native> {
    seq(n, _ => Zero(t))
  }

  predicate WellTyped(t: FType, v: Native) {
    match t
    case Prim(tag) =>
      if tag.Str? then v.NStr?
      else if tag.AnyRef? then v.NAny?
      else if tag.JsonObj? then v.NJson?
      else v.NNum?
    case Struct(ms) =>
      && v.NStruct?
      && (v.block.Some? ==>
            && |v.block.value| == |ms|
            && forall i :: 0 <= i < |ms| ==> WellTyped(ms[i].ftype, v.block.value[i]))
    case Optional(inner, _) => WellTyped(inner, v)
    case Callback => v.NCallback?
    case Array(elem) =>
      && v.NArray?
      && (v.elements.Some? ==>
            forall i :: 0 <= i < |v.elements.value| ==> WellTyped(elem, v.elements.value[i]))
    case Promise => v.NNum?
  }

  lemma ZeroIsWellTyped(t: FType)
    ensures WellTyped(t, Zero(t))
  {
  }
}
