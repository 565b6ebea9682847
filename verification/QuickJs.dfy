/** The number translators of the QuickJS backend, as one instance of the leaf codec. A JS number is
    known by its engine tag and its value; doubles are taken to hold the value exactly. */
module QuickJs {
  import opened Options
  import opened FeatureTypes
  import opened Marshalling

  // Engine tags of a scalar.
  const INT: int := 0
  const FLOAT: int := 1
  const BIG_INT: int := 2
  const BOOL: int := 3

  function Pack(value: int, kind: int): int {
    4 * value + kind
  }

  function KindOf(rep: int): int { rep % 4 }

  function ValueOf(rep: int): int { rep / 4 }

  predicate FitsInt32(value: int) {
    -0x8000_0000 <= value < 0x8000_0000
  }

  /** The tag a number leaves with: unsigned 64-bit numbers leave as big integers. */
  function KindSent(tag: Tag, bits: int): int {
    match tag
    case Boolean => BOOL
    case Uint64 => BIG_INT
    case Float => FLOAT
    case Double => FLOAT
    case Uint32 => if FitsInt32(bits) then INT else FLOAT
    case Int64 => if FitsInt32(bits) then INT else FLOAT
    case _ => INT
  }

  /** The tags that are accepted on the way back; a big integer is no number to any of them. */
  predicate Accepted(tag: Tag, kind: int) {
    match tag
    case Boolean => kind == BOOL
    case Uint32 => kind == INT || kind == FLOAT
    case Int64 => kind == INT || kind == FLOAT
    case Uint64 => kind == INT || kind == FLOAT
    case Float => kind == INT || kind == FLOAT
    case Double => kind == INT || kind == FLOAT
    case _ => kind == INT
  }

  function Send(tag: Tag, bits: int): int {
    Pack(bits, KindSent(tag, bits))
  }

  function Receive(tag: Tag, rep: int): Option<int> {
    if Accepted(tag, KindOf(rep)) then Some(ValueOf(rep)) else None
  }

  /** A number survives the backend exactly when it is not an unsigned 64-bit one. */
  lemma SurvivesExactly(tag: Tag, bits: int)
    requires ScalarTag(tag)
    ensures Receive(tag, Send(tag, bits)) == Some(bits) <==> !tag.Uint64?
  {
    var kind := KindSent(tag, bits);
    assert KindOf(Pack(bits, kind)) == kind && ValueOf(Pack(bits, kind)) == bits;
  }

  /** So no value with an unsigned 64-bit number anywhere in it makes the round trip. */
  lemma Unsigned64NeverSurvives(c: Codec, t: FType, v: Native)
    requires c.toTarget == Send && c.toNative == Receive
    requires Marshallable(t) && WellTyped(t, v) && HoldsTag(t, v, Uint64)
    ensures Trip(c, t, v) != Done(Normal(t, v))
  {
    forall bits ensures c.toNative(Uint64, c.toTarget(Uint64, bits)).None? {
      assert KindOf(Pack(bits, BIG_INT)) == BIG_INT;
    }
    RefusedNeverSurvives(c, t, v, Uint64);
  }

  /** No number in the value is an unsigned 64-bit one, no any-reference is undefined, and every array
      has sized elements. */
  ghost predicate Plain(t: FType, v: Native)
    requires WellTyped(t, v)
  {
    match t
    case Prim(tag) => !tag.Uint64? && (tag.AnyRef? ==> v.ref != Some(Undefined))
    case Struct(ms) => v.block.Some? ==> forall i :: 0 <= i < |ms| ==> Plain(ms[i].ftype, v.block.value[i])
    case Optional(inner, _) => Plain(inner, v)
    case Array(elem) =>
      v.elements.Some? ==>
        && ElemSize(elem) != 0
        && forall i :: 0 <= i < |v.elements.value| ==> Plain(elem, v.elements.value[i])
    case Callback => true
    case Promise => true
  }

  lemma {:induction false} PlainIsDefined(t: FType, v: Native)
    requires WellTyped(t, v) && Plain(t, v)
    ensures !HoldsUndefined(t, v)
    decreases t
  {
    if t.Optional? { PlainIsDefined(t.inner, v); }
  }

  lemma {:induction false} PlainIsFaithful(c: Codec, t: FType, v: Native)
    requires c.toTarget == Send && c.toNative == Receive
    requires WellTyped(t, v) && Plain(t, v)
    ensures Faithful(c, t, v)
    decreases t
  {
    match t {
      case Prim(tag) => if ScalarTag(tag) { SurvivesExactly(tag, v.bits); }
      case Struct(ms) =>
        if v.block.Some? {
          forall i | 0 <= i < |ms|
            ensures !HoldsUndefined(ms[i].ftype, v.block.value[i]) && Faithful(c, ms[i].ftype, v.block.value[i])
          {
            PlainIsDefined(ms[i].ftype, v.block.value[i]);
            PlainIsFaithful(c, ms[i].ftype, v.block.value[i]);
          }
        }
      case Optional(inner, _) => PlainIsFaithful(c, inner, v);
      case Array(elem) =>
        if v.elements.Some? {
          forall i | 0 <= i < |v.elements.value|
            ensures !HoldsUndefined(elem, v.elements.value[i]) && Faithful(c, elem, v.elements.value[i])
          {
            PlainIsDefined(elem, v.elements.value[i]);
            PlainIsFaithful(c, elem, v.elements.value[i]);
          }
        }
      case _ =>
    }
  }

  /** Every plain value makes the round trip through the backend. */
  lemma PlainSurvives(c: Codec, t: FType, v: Native)
    requires c.toTarget == Send && c.toNative == Receive
    requires Marshallable(t) && WellTyped(t, v) && Plain(t, v)
    ensures Trip(c, t, v) == Done(Normal(t, v))
  {
    PlainIsFaithful(c, t, v);
    RoundTrip(c, t, v);
  }
}
