/** The two recursive converters between native memory and JS values, as functions, and the laws
    that relate them: the round trip, and the exact condition under which an object is accepted. */
module Marshalling {
  import opened Options
  import opened FeatureTypes

  /** The leaf translators of the engine backend. Nothing is assumed about numbers, booleans, JSON and
      callbacks: the theorems say which leaves have to survive. Strings and any-references are taken to
      pass unchanged, as the backend passes them. */
  datatype Codec = Codec(
    toTarget: (Tag, int) -> int,
    toNative: (Tag, int) -> Option<int>,
    parse: string -> Js,
    stringify: Js -> string,
    callbackId: nat -> int)

  predicate Nullish(js: Js) {
    js.Undefined? || js.Null?
  }

  // ---------------------------------------------------------------- native to target

  datatype Conversion = Converted(js: Js) | Unconvertible

  /** Objects and arrays made by the converter are new; their identity is not observed. */
  const NEW_ADDR: nat := 0

  function ToTarget(c: Codec, t: FType, v: Native): Conversion
    decreases t, 1
  {
    match t
    case Prim(tag) => LeafToTarget(c, tag, v)
    case Struct(ms) =>
      if !v.NStruct? then Unconvertible
      else if v.block.None? then Converted(Null)
      else if |v.block.value| != |ms| then Unconvertible
      else MembersToTarget(c, t, v.block.value, 0, map[])
    case Optional(inner, _) => ToTarget(c, inner, v)
    case Callback => if v.NCallback? then Converted(Scalar(c.toTarget(Int32, v.id))) else Unconvertible
    case Array(elem) =>
      if !v.NArray? then Unconvertible
      else if v.elements.None? then Converted(Null)
      else ElemsToTarget(c, t, v.elements.value, 0, [])
    case Promise => Unconvertible
  }

  function LeafToTarget(c: Codec, tag: Tag, v: Native): Conversion {
    if tag.Void? then Unconvertible
    else if tag.Str? then
      if !v.NStr? then Unconvertible
      else Converted(Text(if v.str.None? then "" else v.str.value))
    else if tag.AnyRef? then
      if !v.NAny? then Unconvertible
      else Converted(if v.ref.None? then Null else v.ref.value)
    else if tag.JsonObj? then
      if !v.NJson? then Unconvertible
      else Converted(if v.json.None? then Null else c.parse(v.json.value))
    else if v.NNum? then Converted(Scalar(c.toTarget(tag, v.bits)))
    else Unconvertible
  }

  function MembersToTarget(c: Codec, t: FType, fs: seq<Native>, i: nat, acc: map<string, Js>): Conversion
    requires t.Struct? && |fs| == |t.members| && i <= |fs|
    decreases t, 0, |fs| - i
  {
    if i == |fs| then Converted(Object(NEW_ADDR, acc))
    else match ToTarget(c, t.members[i].ftype, fs[i])
      case Converted(js) => MembersToTarget(c, t, fs, i + 1, acc[t.members[i].name := js])
      case Unconvertible => Unconvertible
  }

  /** The slot that element `i` is read from: without a width every read hits the first one. */
  function ElemSlot(elem: FType, es: seq<Native>, i: nat): Native
    requires i < |es|
  {
    if ElemSize(elem) == 0 then es[0] else es[i]
  }

  function ElemsToTarget(c: Codec, t: FType, es: seq<Native>, i: nat, acc: seq<Js>): Conversion
    requires t.Array? && i <= |es|
    decreases t, 0, |es| - i
  {
    if i == |es| then Converted(List(NEW_ADDR, acc))
    else match ToTarget(c, t.elem, ElemSlot(t.elem, es, i))
      case Converted(js) => ElemsToTarget(c, t, es, i + 1, acc + [js])
      case Unconvertible => Unconvertible
  }

  // ---------------------------------------------------------------- target to native

  /** What one conversion leaves in its slot. A failed conversion can leave a half-filled block
      behind; `Aborted` is a FEATURE_CHECK that stops the process. */
  datatype Outcome = Done(slot: Native) | Failed(slot: Native) | Aborted

  datatype Filling = Filled(slots: seq<Native>) | Stuck(slots: seq<Native>) | Crashed

  function ToNative(c: Codec, t: FType, js: Js, slot: Native): Outcome
    decreases t, 1
  {
    match t
    case Prim(tag) => LeafToNative(c, tag, js, slot)
    case Struct(ms) =>
      if Nullish(js) then Done(slot)
      else if !js.Object? then Failed(slot)
      else (
        match FillMembers(c, t, js.fields, StructBlock(ms, slot), 0)
        case Filled(b) => Done(NStruct(Some(b)))
        case Stuck(b) => Failed(NStruct(Some(b)))
        case Crashed => Aborted)
    case Optional(inner, _) => ToNative(c, inner, js, slot)
    case Callback =>
      if Nullish(js) then Done(slot)
      else if !js.Function? then Failed(slot)
      else Done(NCallback(c.callbackId(js.addr)))
    case Array(elem) =>
      if Nullish(js) then Done(NArray(None))
      else if !js.List? then Failed(slot)
      else if js.elems == [] then Done(NArray(Some([])))
      else if ElemSize(elem) == 0 then Aborted
      else (
        match FillElems(c, t, js.elems, ZeroElems(elem, |js.elems|), 0)
        case Filled(b) => Done(NArray(Some(b)))
        case Stuck(b) => Failed(NArray(Some(b)))
        case Crashed => Aborted)
    case Promise => Failed(slot)
  }

  function LeafToNative(c: Codec, tag: Tag, js: Js, slot: Native): Outcome {
    if tag.Void? then Failed(slot)
    else if tag.Str? then
      if Nullish(js) then Done(NStr(None))
      else if js.Text? then Done(NStr(Some(js.text)))
      else Failed(slot)
    else if tag.AnyRef? then
      Done(NAny(if Nullish(js) then None else Some(js)))
    else if tag.JsonObj? then
      if Nullish(js) then Done(NJson(None))
      else if js.Object? || js.List? || js.Function? then Done(NJson(Some(c.stringify(js))))
      else Failed(slot)
    else if !js.Scalar? then Failed(slot)
    else match c.toNative(tag, js.rep)
      case Some(bits) => Done(NNum(bits))
      case None => Failed(slot)
  }

  /** A null struct pointer is replaced by a zeroed allocation; a live one is filled in place. */
  function StructBlock(ms: seq<Member>, slot: Native): (b: seq<Native>)
    ensures |b| == |ms|
  {
    if slot.NStruct? && slot.block.Some? && |slot.block.value| == |ms| then slot.block.value
    else ZeroMembers(ms)
  }

  function Field(fields: map<string, Js>, name: string): Js {
    if name in fields then fields[name] else Undefined
  }

  /** Members whose absence is reported before any conversion is attempted. */
  predicate MustBePresent(t: FType) {
    t.Prim? && !PointerTag(t.tag)
  }

  function MemberToNative(c: Codec, t: FType, field: Js, slot: Native): Outcome
    decreases t, 2
  {
    if field.Undefined? && t.Optional? then ConvertOptional(t, slot)
    else if field.Undefined? && MustBePresent(t) then Failed(slot)
    else ToNative(c, t, field, slot)
  }

  function FillMembers(c: Codec, t: FType, fields: map<string, Js>, b: seq<Native>, i: nat): Filling
    requires t.Struct? && |b| == |t.members| && i <= |b|
    decreases t, 0, |b| - i
  {
    if i == |b| then Filled(b)
    else match MemberToNative(c, t.members[i].ftype, Field(fields, t.members[i].name), b[i])
      case Done(s) => FillMembers(c, t, fields, b[i := s], i + 1)
      case Failed(s) => Stuck(b[i := s])
      case Aborted => Crashed
  }

  function ElemToNative(c: Codec, t: FType, js: Js, slot: Native): Outcome
    decreases t, 2
  {
    if js.Undefined? then Aborted else ToNative(c, t, js, slot)
  }

  function FillElems(c: Codec, t: FType, js: seq<Js>, b: seq<Native>, i: nat): Filling
    requires t.Array? && |b| == |js| && i <= |b|
    decreases t, 0, |b| - i
  {
    if i == |b| then Filled(b)
    else match ElemToNative(c, t.elem, js[i], b[i])
      case Done(s) => FillElems(c, t, js, b[i := s], i + 1)
      case Failed(s) => Stuck(b[i := s])
      case Aborted => Crashed
  }

  /** Tags for which a default can be written; the 8, 16 and plain 32-bit integers are missing. */
  predicate DefaultableTag(tag: Tag) {
    match tag
    case Boolean => true case Int => true case Int64 => true case Uint32 => true case Uint64 => true
    case Float => true case Double => true case Str => true case AnyRef => true case JsonObj => true
    case _ => false
  }

  function ConvertOptional(t: FType, slot: Native): Outcome
    requires t.Optional?
  {
    if t.inner.Prim? then
      var tag := t.inner.tag;
      if !DefaultableTag(tag) then Failed(slot)
      else if tag.Boolean? then Done(NNum(if t.dflt.num != 0 then 1 else 0))
      else if tag.Str? then Done(if t.dflt.str.None? then slot else NStr(t.dflt.str))
      else if tag.AnyRef? || tag.JsonObj? then Done(t.dflt.ptr)
      else Done(NNum(t.dflt.num))
    else Done(t.dflt.ptr)
  }

  // ---------------------------------------------------------------- loops, point by point

  /** Filling a block is the same as converting every member on its own: it succeeds exactly when
      each conversion does, and each slot then holds the result of its own conversion. */
  lemma {:induction false} FillMembersPointwise(c: Codec, t: FType, fields: map<string, Js>, b: seq<Native>, i: nat)
    requires t.Struct? && |b| == |t.members| && i <= |b|
    ensures var r := FillMembers(c, t, fields, b, i);
      && (r.Filled? <==> forall j :: i <= j < |b| ==>
            MemberToNative(c, t.members[j].ftype, Field(fields, t.members[j].name), b[j]).Done?)
      && (r.Filled? ==>
            && |r.slots| == |b|
            && (forall j :: 0 <= j < i ==> r.slots[j] == b[j])
            && forall j :: i <= j < |b| ==>
                 MemberToNative(c, t.members[j].ftype, Field(fields, t.members[j].name), b[j]) == Done(r.slots[j]))
    decreases |b| - i
  {
    if i < |b| {
      var step := MemberToNative(c, t.members[i].ftype, Field(fields, t.members[i].name), b[i]);
      if step.Done? {
        FillMembersPointwise(c, t, fields, b[i := step.slot], i + 1);
        assert forall j :: i < j < |b| ==> b[i := step.slot][j] == b[j];
      }
    }
  }

  lemma {:induction false} FillElemsPointwise(c: Codec, t: FType, js: seq<Js>, b: seq<Native>, i: nat)
    requires t.Array? && |b| == |js| && i <= |b|
    ensures var r := FillElems(c, t, js, b, i);
      && (r.Filled? <==> forall j :: i <= j < |b| ==> ElemToNative(c, t.elem, js[j], b[j]).Done?)
      && (r.Filled? ==>
            && |r.slots| == |b|
            && (forall j :: 0 <= j < i ==> r.slots[j] == b[j])
            && forall j :: i <= j < |b| ==> ElemToNative(c, t.elem, js[j], b[j]) == Done(r.slots[j]))
    decreases |b| - i
  {
    if i < |b| {
      var step := ElemToNative(c, t.elem, js[i], b[i]);
      if step.Done? {
        FillElemsPointwise(c, t, js, b[i := step.slot], i + 1);
        assert forall j :: i < j < |b| ==> b[i := step.slot][j] == b[j];
      }
    }
  }

  ghost predicate DistinctNames(ms: seq<Member>) {
    forall i, j :: 0 <= i < j < |ms| ==> ms[i].name != ms[j].name
  }

  /** With distinct member names the object built by the loop holds each member under its name. */
  lemma {:induction false} MembersToTargetPointwise(c: Codec, t: FType, fs: seq<Native>, i: nat, acc: map<string, Js>)
    requires t.Struct? && |fs| == |t.members| && i <= |fs| && DistinctNames(t.members)
    requires forall j :: i <= j < |fs| ==> ToTarget(c, t.members[j].ftype, fs[j]).Converted?
    ensures var r := MembersToTarget(c, t, fs, i, acc);
      && r.Converted? && r.js.Object?
      && (forall j :: i <= j < |fs| ==>
            ToTarget(c, t.members[j].ftype, fs[j]) == Converted(Field(r.js.fields, t.members[j].name)))
      && forall k :: (forall j :: i <= j < |fs| ==> t.members[j].name != k) ==>
           Field(r.js.fields, k) == Field(acc, k)
    decreases |fs| - i
  {
    if i < |fs| {
      var name := t.members[i].name;
      var acc' := acc[name := ToTarget(c, t.members[i].ftype, fs[i]).js];
      MembersToTargetPointwise(c, t, fs, i + 1, acc');
      var r := MembersToTarget(c, t, fs, i + 1, acc');
      assert Field(r.js.fields, name) == Field(acc', name);
    }
  }

  lemma {:induction false} ElemsToTargetPointwise(c: Codec, t: FType, es: seq<Native>, i: nat, acc: seq<Js>)
    requires t.Array? && i <= |es| && |acc| == i
    requires forall j :: i <= j < |es| ==> ToTarget(c, t.elem, ElemSlot(t.elem, es, j)).Converted?
    ensures var r := ElemsToTarget(c, t, es, i, acc);
      && r.Converted? && r.js.List? && |r.js.elems| == |es|
      && (forall j :: 0 <= j < i ==> r.js.elems[j] == acc[j])
      && forall j :: i <= j < |es| ==> ToTarget(c, t.elem, ElemSlot(t.elem, es, j)) == Converted(r.js.elems[j])
    decreases |es| - i
  {
    if i < |es| {
      ElemsToTargetPointwise(c, t, es, i + 1, acc + [ToTarget(c, t.elem, ElemSlot(t.elem, es, i)).js]);
    }
  }

  // ---------------------------------------------------------------- the round trip

  /** Type trees made of numbers, booleans, strings, any-references, structs, optionals and arrays.
      Struct members have distinct names, as the fields of the C struct they describe. */
  ghost predicate Marshallable(t: FType) {
    match t
    case Prim(tag) => !tag.Void? && !tag.JsonObj?
    case Struct(ms) => DistinctNames(ms) && forall i :: 0 <= i < |ms| ==> Marshallable(ms[i].ftype)
    case Optional(inner, _) => Marshallable(inner)
    case Array(elem) => Marshallable(elem)
    case Callback => false
    case Promise => false
  }

  /** What a value looks like after the trip: a null string is an empty one, and an any-reference
      to JS null or undefined is a null reference. */
  function Normal(t: FType, v: Native): Native
    requires WellTyped(t, v)
  {
    match t
    case Prim(tag) =>
      if tag.Str? && v.str.None? then NStr(Some(""))
      else if tag.AnyRef? && v.ref.Some? && Nullish(v.ref.value) then NAny(None)
      else v
    case Struct(ms) =>
      if v.block.None? then v
      else NStruct(Some(seq(|ms|, i requires 0 <= i < |ms| => Normal(ms[i].ftype, v.block.value[i]))))
    case Optional(inner, _) => Normal(inner, v)
    case Array(elem) =>
      if v.elements.None? then v
      else
        var es := v.elements.value;
        NArray(Some(seq(|es|, i requires 0 <= i < |es| => Normal(elem, es[i]))))
    case Callback => v
    case Promise => v
  }

  /** The value is an any-reference, under any number of optionals, to the JS value undefined. */
  predicate HoldsUndefined(t: FType, v: Native) {
    match t
    case Prim(tag) => tag.AnyRef? && v == NAny(Some(Undefined))
    case Optional(inner, _) => HoldsUndefined(inner, v)
    case _ => false
  }

  /** The values that survive: every number survives its leaf codec, no array element is undefined
      or has no width, and an undefined any-reference in an optional member has a null default. */
  ghost predicate Faithful(c: Codec, t: FType, v: Native)
    requires WellTyped(t, v)
  {
    match t
    case Prim(tag) => ScalarTag(tag) ==> c.toNative(tag, c.toTarget(tag, v.bits)) == Some(v.bits)
    case Struct(ms) =>
      v.block.Some? ==> forall i :: 0 <= i < |ms| ==>
        var mt := ms[i].ftype;
        if mt.Optional? && HoldsUndefined(mt, v.block.value[i])
        then mt.dflt.ptr == NAny(None)
        else Faithful(c, mt, v.block.value[i])
    case Optional(inner, _) => Faithful(c, inner, v)
    case Array(elem) =>
      v.elements.Some? && v.elements.value != [] ==>
        && ElemSize(elem) != 0
        && forall i :: 0 <= i < |v.elements.value| ==>
             !HoldsUndefined(elem, v.elements.value[i]) && Faithful(c, elem, v.elements.value[i])
    case Callback => true
    case Promise => true
  }

  /** A well-typed value of a marshallable type always converts to a JS value, and that value is
      undefined only for an any-reference to undefined. */
  lemma {:induction false} ToTargetSucceeds(c: Codec, t: FType, v: Native)
    requires Marshallable(t) && WellTyped(t, v)
    ensures ToTarget(c, t, v).Converted?
    ensures ToTarget(c, t, v).js.Undefined? <==> HoldsUndefined(t, v)
    decreases t
  {
    match t {
      case Prim(_) =>
      case Struct(ms) =>
        if v.block.Some? {
          forall i | 0 <= i < |ms| ensures ToTarget(c, ms[i].ftype, v.block.value[i]).Converted? {
            ToTargetSucceeds(c, ms[i].ftype, v.block.value[i]);
          }
          MembersToTargetPointwise(c, t, v.block.value, 0, map[]);
        }
      case Optional(inner, _) => ToTargetSucceeds(c, inner, v);
      case Array(elem) =>
        if v.elements.Some? {
          var es := v.elements.value;
          forall i | 0 <= i < |es| ensures ToTarget(c, elem, ElemSlot(elem, es, i)).Converted? {
            ToTargetSucceeds(c, elem, ElemSlot(elem, es, i));
          }
          ElemsToTargetPointwise(c, t, es, 0, []);
        }
    }
  }

  /** Conversion to the engine and back into a zeroed slot. */
  function Trip(c: Codec, t: FType, v: Native): Outcome {
    match ToTarget(c, t, v)
    case Converted(js) => ToNative(c, t, js, Zero(t))
    case Unconvertible => Aborted
  }

  lemma {:induction false} MemberTrip(c: Codec, mt: FType, v: Native)
    requires Marshallable(mt) && WellTyped(mt, v)
    requires Trip(c, mt, v) == Done(Normal(mt, v)) <==> Faithful(c, mt, v)
    ensures ToTarget(c, mt, v).Converted?
    ensures MemberToNative(c, mt, ToTarget(c, mt, v).js, Zero(mt)) == Done(Normal(mt, v)) <==>
              (if mt.Optional? && HoldsUndefined(mt, v) then mt.dflt.ptr == NAny(None)
               else Faithful(c, mt, v))
  {
    ToTargetSucceeds(c, mt, v);
    if HoldsUndefined(mt, v) {
      UndefinedIsNull(mt, v);
    }
  }

  lemma {:induction false} UndefinedIsNull(t: FType, v: Native)
    requires WellTyped(t, v) && HoldsUndefined(t, v)
    ensures Normal(t, v) == NAny(None)
    ensures !MustBePresent(t)
    decreases t
  {
    if t.Optional? {
      UndefinedIsNull(t.inner, v);
    }
  }

  /** The round trip. For every type tree and every well-typed value, converting to a JS value
      succeeds, and converting that value back into zeroed memory gives the normal form of the
      original exactly when the value is faithful. */
  lemma {:induction false} RoundTrip(c: Codec, t: FType, v: Native)
    requires Marshallable(t) && WellTyped(t, v)
    ensures ToTarget(c, t, v).Converted?
    ensures Trip(c, t, v) == Done(Normal(t, v)) <==> Faithful(c, t, v)
    decreases t
  {
    ToTargetSucceeds(c, t, v);
    match t {
      case Prim(_) =>
      case Struct(ms) =>
        if v.block.Some? { StructRoundTrip(c, t, v); }
      case Optional(inner, _) => RoundTrip(c, inner, v);
      case Array(elem) =>
        if v.elements.Some? {
          if v.elements.value == [] {
            assert Normal(t, v).elements.value == [];
          } else if ElemSize(elem) != 0 {
            ArrayRoundTrip(c, t, v);
          } else {
            UnsizedArrayAborts(c, t, v);
          }
        }
    }
  }

  lemma {:induction false} UnsizedArrayAborts(c: Codec, t: FType, v: Native)
    requires t.Array? && Marshallable(t) && WellTyped(t, v)
    requires v.elements.Some? && v.elements.value != [] && ElemSize(t.elem) == 0
    ensures Trip(c, t, v) == Aborted
  {
    var es := v.elements.value;
    forall i | 0 <= i < |es| ensures ToTarget(c, t.elem, ElemSlot(t.elem, es, i)).Converted? {
      ToTargetSucceeds(c, t.elem, ElemSlot(t.elem, es, i));
    }
    ElemsToTargetPointwise(c, t, es, 0, []);
  }

  lemma {:induction false} StructRoundTrip(c: Codec, t: FType, v: Native)
    requires t.Struct? && Marshallable(t) && WellTyped(t, v) && v.block.Some?
    ensures Trip(c, t, v) == Done(Normal(t, v)) <==> Faithful(c, t, v)
    decreases t, 0
  {
    var ms, fs := t.members, v.block.value;
    forall i | 0 <= i < |ms|
      ensures ToTarget(c, ms[i].ftype, fs[i]).Converted?
      ensures MemberToNative(c, ms[i].ftype, ToTarget(c, ms[i].ftype, fs[i]).js, Zero(ms[i].ftype))
              == Done(Normal(ms[i].ftype, fs[i])) <==>
              (if ms[i].ftype.Optional? && HoldsUndefined(ms[i].ftype, fs[i])
               then ms[i].ftype.dflt.ptr == NAny(None) else Faithful(c, ms[i].ftype, fs[i]))
    {
      RoundTrip(c, ms[i].ftype, fs[i]);
      MemberTrip(c, ms[i].ftype, fs[i]);
    }
    MembersToTargetPointwise(c, t, fs, 0, map[]);
    var obj := MembersToTarget(c, t, fs, 0, map[]).js;
    FillMembersPointwise(c, t, obj.fields, ZeroMembers(ms), 0);
    var normals := Normal(t, v).block.value;
    var r := FillMembers(c, t, obj.fields, ZeroMembers(ms), 0);
    if Faithful(c, t, v) {
      assert r.Filled? && r.slots == normals;
    } else {
      var i :| 0 <= i < |ms| &&
        !(if ms[i].ftype.Optional? && HoldsUndefined(ms[i].ftype, fs[i])
          then ms[i].ftype.dflt.ptr == NAny(None) else Faithful(c, ms[i].ftype, fs[i]));
      assert MemberToNative(c, ms[i].ftype, Field(obj.fields, ms[i].name), ZeroMembers(ms)[i]) != Done(normals[i]);
      assert r.Filled? ==> r.slots[i] != normals[i];
    }
  }

  lemma {:induction false} ArrayRoundTrip(c: Codec, t: FType, v: Native)
    requires t.Array? && Marshallable(t) && WellTyped(t, v)
    requires v.elements.Some? && v.elements.value != [] && ElemSize(t.elem) != 0
    ensures Trip(c, t, v) == Done(Normal(t, v)) <==> Faithful(c, t, v)
    decreases t, 0
  {
    var es := v.elements.value;
    forall i | 0 <= i < |es|
      ensures ToTarget(c, t.elem, es[i]).Converted?
      ensures ElemToNative(c, t.elem, ToTarget(c, t.elem, es[i]).js, Zero(t.elem)) == Done(Normal(t.elem, es[i]))
              <==> !HoldsUndefined(t.elem, es[i]) && Faithful(c, t.elem, es[i])
    {
      RoundTrip(c, t.elem, es[i]);
      ToTargetSucceeds(c, t.elem, es[i]);
    }
    ElemsToTargetPointwise(c, t, es, 0, []);
    var list := ElemsToTarget(c, t, es, 0, []).js.elems;
    var zeros := ZeroElems(t.elem, |es|);
    FillElemsPointwise(c, t, list, zeros, 0);
    var normals := Normal(t, v).elements.value;
    var r := FillElems(c, t, list, zeros, 0);
    if Faithful(c, t, v) {
      assert r.Filled? && r.slots == normals;
    } else {
      var i :| 0 <= i < |es| && !(!HoldsUndefined(t.elem, es[i]) && Faithful(c, t.elem, es[i]));
      assert ElemToNative(c, t.elem, list[i], zeros[i]) != Done(normals[i]);
      assert r.Filled? ==> r.slots[i] != normals[i];
    }
  }

  // ---------------------------------------------------------------- where the round trip fails

  /** An optional any-member that refers to undefined comes back as its default, whatever that is. */
  lemma UndefinedOptionalTakesDefault(c: Codec, js: Js)
    requires !Nullish(js)
    ensures var t := Struct([Member("x", Optional(Prim(AnyRef), Default(0, None, NAny(Some(js)))))]);
      var v := NStruct(Some([NAny(Some(Undefined))]));
      && Marshallable(t) && WellTyped(t, v)
      && Trip(c, t, v) == Done(NStruct(Some([NAny(Some(js))])))
      && Normal(t, v) == NStruct(Some([NAny(None)]))
  {
    var o := Optional(Prim(AnyRef), Default(0, None, NAny(Some(js))));
    var t := Struct([Member("x", o)]);
    var fs := [NAny(Some(Undefined))];
    var v := NStruct(Some(fs));
    assert forall i :: 0 <= i < |t.members| ==> t.members[i].ftype == o;
    assert WellTyped(o.inner, fs[0]);
    assert Normal(o, fs[0]) == Normal(o.inner, fs[0]) == NAny(None);
    assert Normal(t, v).block.value == [NAny(None)];
    MembersToTargetPointwise(c, t, fs, 0, map[]);
    var obj := MembersToTarget(c, t, fs, 0, map[]).js;
    assert ToTarget(c, t, v) == Converted(obj);
    assert ToTarget(c, t.members[0].ftype, fs[0]) == Converted(Undefined);
    assert Field(obj.fields, t.members[0].name).Undefined?;
    var b := ZeroMembers(t.members);
    FillMembersPointwise(c, t, obj.fields, b, 0);
    assert MemberToNative(c, o, Undefined, b[0]) == Done(NAny(Some(js)));
    assert FillMembers(c, t, obj.fields, b, 0).slots == [NAny(Some(js))];
  }

  /** A one-element array of doubly optional integers stops the process on the way back. */
  lemma NestedOptionalArrayAborts(c: Codec, d: Default, bits: int)
    ensures var t := Array(Optional(Optional(Prim(Int), d), d));
      Marshallable(t) && WellTyped(t, NArray(Some([NNum(bits)]))) && Trip(c, t, NArray(Some([NNum(bits)]))) == Aborted
  {
    var t := Array(Optional(Optional(Prim(Int), d), d));
    assert Marshallable(t.elem.inner) && WellTyped(t.elem.inner, NNum(bits));
    ZeroWidthElements(t.elem);
    UnsizedArrayAborts(c, t, NArray(Some([NNum(bits)])));
  }

  /** The codec refuses every number of the tag that it sent out itself. */
  ghost predicate RefusesItsOwn(c: Codec, tag: Tag) {
    forall bits :: c.toNative(tag, c.toTarget(tag, bits)).None?
  }

  /** Somewhere in the value there is a number of the tag. */
  ghost predicate HoldsTag(t: FType, v: Native, tag: Tag)
    requires WellTyped(t, v)
  {
    match t
    case Prim(own) => own == tag
    case Struct(ms) => v.block.Some? && exists i :: 0 <= i < |ms| && HoldsTag(ms[i].ftype, v.block.value[i], tag)
    case Optional(inner, _) => HoldsTag(inner, v, tag)
    case Array(elem) =>
      v.elements.Some? && exists i :: 0 <= i < |v.elements.value| && HoldsTag(elem, v.elements.value[i], tag)
    case Callback => false
    case Promise => false
  }

  lemma {:induction false} NumbersAreDefined(t: FType, v: Native, tag: Tag)
    requires WellTyped(t, v) && ScalarTag(tag) && HoldsTag(t, v, tag)
    ensures !HoldsUndefined(t, v)
    decreases t
  {
    if t.Optional? { NumbersAreDefined(t.inner, v, tag); }
  }

  lemma {:induction false} RefusedIsUnfaithful(c: Codec, t: FType, v: Native, tag: Tag)
    requires WellTyped(t, v) && ScalarTag(tag) && RefusesItsOwn(c, tag) && HoldsTag(t, v, tag)
    ensures !Faithful(c, t, v)
    decreases t
  {
    match t {
      case Prim(_) =>
      case Struct(ms) =>
        var i :| 0 <= i < |ms| && HoldsTag(ms[i].ftype, v.block.value[i], tag);
        NumbersAreDefined(ms[i].ftype, v.block.value[i], tag);
        RefusedIsUnfaithful(c, ms[i].ftype, v.block.value[i], tag);
      case Optional(inner, _) => RefusedIsUnfaithful(c, inner, v, tag);
      case Array(elem) =>
        var i :| 0 <= i < |v.elements.value| && HoldsTag(elem, v.elements.value[i], tag);
        RefusedIsUnfaithful(c, elem, v.elements.value[i], tag);
    }
  }

  /** With such a codec no value with a number of the tag in it makes the round trip. */
  lemma RefusedNeverSurvives(c: Codec, t: FType, v: Native, tag: Tag)
    requires Marshallable(t) && WellTyped(t, v) && ScalarTag(tag) && RefusesItsOwn(c, tag) && HoldsTag(t, v, tag)
    ensures Trip(c, t, v) != Done(Normal(t, v))
  {
    RoundTrip(c, t, v);
    RefusedIsUnfaithful(c, t, v, tag);
  }

  /** An array of any-references with an undefined element stops the process on the way back. */
  lemma UndefinedElementAborts(c: Codec)
    ensures var t, v := Array(Prim(AnyRef)), NArray(Some([NAny(Some(Undefined))]));
      Marshallable(t) && WellTyped(t, v) && Trip(c, t, v) == Aborted
  {
    var t, es := Array(Prim(AnyRef)), [NAny(Some(Undefined))];
    var v := NArray(Some(es));
    FlagsByShape(t.elem);
    assert ToTarget(c, t.elem, ElemSlot(t.elem, es, 0)) == Converted(Undefined);
    ElemsToTargetPointwise(c, t, es, 0, []);
    assert ToTarget(c, t, v).js.elems == [Undefined];
    assert FillElems(c, t, [Undefined], ZeroElems(t.elem, 1), 0) == Crashed;
  }

  // ---------------------------------------------------------------- which objects are accepted

  predicate LeafAccepts(c: Codec, tag: Tag, js: Js) {
    match tag
    case Void => false
    case Str => Nullish(js) || js.Text?
    case AnyRef => true
    case JsonObj => Nullish(js) || js.Object? || js.List? || js.Function?
    case _ => js.Scalar? && c.toNative(tag, js.rep).Some?
  }

  /** Members that may be missing: optionals with a usable default, pointer leaves and nullable
      complex types. */
  predicate MayBeAbsent(t: FType) {
    match t
    case Prim(tag) => PointerTag(tag)
    case Optional(inner, _) => inner.Prim? ==> DefaultableTag(inner.tag)
    case Struct(_) => true
    case Array(_) => true
    case Callback => true
    case Promise => false
  }

  ghost predicate Accepts(c: Codec, t: FType, js: Js)
    decreases t
  {
    match t
    case Prim(tag) => LeafAccepts(c, tag, js)
    case Struct(ms) =>
      || Nullish(js)
      || (js.Object? && forall i :: 0 <= i < |ms| ==>
            var f := Field(js.fields, ms[i].name);
            if f.Undefined? then MayBeAbsent(ms[i].ftype) else Accepts(c, ms[i].ftype, f))
    case Optional(inner, _) => Accepts(c, inner, js)
    case Callback => Nullish(js) || js.Function?
    case Array(elem) =>
      || Nullish(js)
      || (js.List? && (js.elems != [] ==> ElemSize(elem) != 0) &&
          forall i :: 0 <= i < |js.elems| ==> !js.elems[i].Undefined? && Accepts(c, elem, js.elems[i]))
    case Promise => false
  }

  /** Conversion to native succeeds exactly for the accepted values, whatever is in the slot. */
  lemma {:induction false} AcceptedExactly(c: Codec, t: FType, js: Js, slot: Native)
    ensures ToNative(c, t, js, slot).Done? <==> Accepts(c, t, js)
    decreases t
  {
    match t {
      case Prim(_) =>
      case Struct(ms) =>
        if js.Object? {
          var b := StructBlock(ms, slot);
          FillMembersPointwise(c, t, js.fields, b, 0);
          forall i | 0 <= i < |ms|
            ensures MemberToNative(c, ms[i].ftype, Field(js.fields, ms[i].name), b[i]).Done? <==>
                    (var f := Field(js.fields, ms[i].name);
                     if f.Undefined? then MayBeAbsent(ms[i].ftype) else Accepts(c, ms[i].ftype, f))
          {
            AcceptedExactly(c, ms[i].ftype, Field(js.fields, ms[i].name), b[i]);
          }
        }
      case Optional(inner, _) => AcceptedExactly(c, inner, js, slot);
      case Callback =>
      case Array(elem) =>
        if js.List? && js.elems != [] && ElemSize(elem) != 0 {
          var b := ZeroElems(elem, |js.elems|);
          FillElemsPointwise(c, t, js.elems, b, 0);
          forall i | 0 <= i < |b|
            ensures ElemToNative(c, elem, js.elems[i], b[i]).Done? <==>
                    !js.elems[i].Undefined? && Accepts(c, elem, js.elems[i])
          {
            AcceptedExactly(c, elem, js.elems[i], b[i]);
          }
        }
      case Promise =>
    }
  }

  // ---------------------------------------------------------------- which values abort

  /** The member loop stops the process exactly when some member does and every one before it
      converts. */
  lemma {:induction false} MembersCrashExactly(c: Codec, t: FType, fields: map<string, Js>, b: seq<Native>, i: nat)
    requires t.Struct? && |b| == |t.members| && i <= |b|
    ensures FillMembers(c, t, fields, b, i).Crashed? <==>
              exists k :: i <= k < |b| && MemberOutcome(c, t, fields, b, k).Aborted?
                          && forall j :: i <= j < k ==> MemberOutcome(c, t, fields, b, j).Done?
    decreases |b| - i
  {
    if i < |b| {
      var step := MemberOutcome(c, t, fields, b, i);
      if step.Done? {
        var b' := b[i := step.slot];
        MembersCrashExactly(c, t, fields, b', i + 1);
        assert forall j :: i < j < |b| ==> MemberOutcome(c, t, fields, b', j) == MemberOutcome(c, t, fields, b, j);
      }
    }
  }

  function MemberOutcome(c: Codec, t: FType, fields: map<string, Js>, b: seq<Native>, k: nat): Outcome
    requires t.Struct? && |b| == |t.members| && k < |b|
  {
    MemberToNative(c, t.members[k].ftype, Field(fields, t.members[k].name), b[k])
  }

  lemma {:induction false} ElemsCrashExactly(c: Codec, t: FType, js: seq<Js>, b: seq<Native>, i: nat)
    requires t.Array? && |b| == |js| && i <= |b|
    ensures FillElems(c, t, js, b, i).Crashed? <==>
              exists k :: i <= k < |b| && ElemOutcome(c, t, js, b, k).Aborted?
                          && forall j :: i <= j < k ==> ElemOutcome(c, t, js, b, j).Done?
    decreases |b| - i
  {
    if i < |b| {
      var step := ElemOutcome(c, t, js, b, i);
      if step.Done? {
        var b' := b[i := step.slot];
        ElemsCrashExactly(c, t, js, b', i + 1);
        assert forall j :: i < j < |b| ==> ElemOutcome(c, t, js, b', j) == ElemOutcome(c, t, js, b, j);
      }
    }
  }

  function ElemOutcome(c: Codec, t: FType, js: seq<Js>, b: seq<Native>, k: nat): Outcome
    requires t.Array? && |b| == |js| && k < |b|
  {
    ElemToNative(c, t.elem, js[k], b[k])
  }

  ghost predicate MemberAccepted(c: Codec, mt: FType, f: Js) {
    if f.Undefined? then MayBeAbsent(mt) else Accepts(c, mt, f)
  }

  ghost predicate ElemAccepted(c: Codec, et: FType, e: Js) {
    !e.Undefined? && Accepts(c, et, e)
  }

  /** The values that stop the process: in the order of the loops the first thing that does not
      convert is an undefined array element or a non-empty array of elements without width. */
  ghost predicate Aborts(c: Codec, t: FType, js: Js)
    decreases t
  {
    match t
    case Struct(ms) =>
      js.Object? && exists k ::
        && 0 <= k < |ms| && Aborts(c, ms[k].ftype, Field(js.fields, ms[k].name))
        && forall j :: 0 <= j < k ==> MemberAccepted(c, ms[j].ftype, Field(js.fields, ms[j].name))
    case Optional(inner, _) => Aborts(c, inner, js)
    case Array(elem) =>
      js.List? && js.elems != [] &&
      (ElemSize(elem) == 0 || exists k ::
        && 0 <= k < |js.elems| && (js.elems[k].Undefined? || Aborts(c, elem, js.elems[k]))
        && forall j :: 0 <= j < k ==> ElemAccepted(c, elem, js.elems[j]))
    case _ => false
  }

  lemma {:induction false} UndefinedDoesNotAbort(c: Codec, t: FType)
    ensures !Aborts(c, t, Undefined)
    decreases t
  {
    if t.Optional? { UndefinedDoesNotAbort(c, t.inner); }
  }

  lemma MemberAbort(c: Codec, mt: FType, f: Js, slot: Native)
    requires ToNative(c, mt, f, slot).Aborted? <==> Aborts(c, mt, f)
    ensures MemberToNative(c, mt, f, slot).Aborted? <==> Aborts(c, mt, f)
    ensures MemberToNative(c, mt, f, slot).Done? <==> MemberAccepted(c, mt, f)
  {
    if f.Undefined? { UndefinedDoesNotAbort(c, mt); }
    AcceptedExactly(c, mt, f, slot);
  }

  /** Conversion to native stops the process exactly for those values, whatever is in the slot; with
      `AcceptedExactly` this separates success, clean failure and abort for every JS value. */
  lemma {:induction false} AbortsExactly(c: Codec, t: FType, js: Js, slot: Native)
    ensures ToNative(c, t, js, slot).Aborted? <==> Aborts(c, t, js)
    ensures !(Accepts(c, t, js) && Aborts(c, t, js))
    decreases t, 1
  {
    AcceptedExactly(c, t, js, slot);
    match t {
      case Struct(_) => if js.Object? { StructAborts(c, t, js, slot); }
      case Optional(inner, _) => AbortsExactly(c, inner, js, slot);
      case Array(elem) => if js.List? && js.elems != [] && ElemSize(elem) != 0 { ArrayAborts(c, t, js, slot); }
      case _ =>
    }
  }

  lemma {:induction false} StructAborts(c: Codec, t: FType, js: Js, slot: Native)
    requires t.Struct? && js.Object?
    ensures ToNative(c, t, js, slot).Aborted? <==> Aborts(c, t, js)
    decreases t, 0
  {
    var ms, b := t.members, StructBlock(t.members, slot);
    forall k | 0 <= k < |ms|
      ensures MemberOutcome(c, t, js.fields, b, k).Aborted? <==> Aborts(c, ms[k].ftype, Field(js.fields, ms[k].name))
      ensures MemberOutcome(c, t, js.fields, b, k).Done? <==>
              MemberAccepted(c, ms[k].ftype, Field(js.fields, ms[k].name))
    {
      AbortsExactly(c, ms[k].ftype, Field(js.fields, ms[k].name), b[k]);
      MemberAbort(c, ms[k].ftype, Field(js.fields, ms[k].name), b[k]);
    }
    MembersCrashExactly(c, t, js.fields, b, 0);
  }

  lemma {:induction false} ArrayAborts(c: Codec, t: FType, js: Js, slot: Native)
    requires t.Array? && js.List? && js.elems != [] && ElemSize(t.elem) != 0
    ensures ToNative(c, t, js, slot).Aborted? <==> Aborts(c, t, js)
    decreases t, 0
  {
    var es := js.elems;
    var b := ZeroElems(t.elem, |es|);
    forall k | 0 <= k < |es|
      ensures ElemOutcome(c, t, es, b, k).Aborted? <==> es[k].Undefined? || Aborts(c, t.elem, es[k])
      ensures ElemOutcome(c, t, es, b, k).Done? <==> ElemAccepted(c, t.elem, es[k])
    {
      AbortsExactly(c, t.elem, es[k], b[k]);
      AcceptedExactly(c, t.elem, es[k], b[k]);
    }
    ElemsCrashExactly(c, t, es, b, 0);
  }

  /** The default an optional member declares, as it appears in zeroed memory. */
  function DeclaredDefault(t: FType): Native
    requires t.Optional? && MayBeAbsent(t)
  {
    match t.inner
    case Prim(Boolean) => NNum(if t.dflt.num != 0 then 1 else 0)
    case Prim(Str) => NStr(t.dflt.str)
    case Prim(AnyRef) => t.dflt.ptr
    case Prim(JsonObj) => t.dflt.ptr
    case Prim(_) => NNum(t.dflt.num)
    case _ => t.dflt.ptr
  }

  /** What an accepted object leaves behind a null struct pointer: an absent optional holds its
      declared default, any other absent member is still zero, and a present member holds what its
      own conversion gives. */
  lemma {:induction false} StructContents(c: Codec, t: FType, js: Js, slot: Native)
    requires t.Struct? && js.Object? && Accepts(c, t, js) && slot == NStruct(None)
    ensures var r := ToNative(c, t, js, slot);
      && r.Done? && r.slot.NStruct? && r.slot.block.Some? && |r.slot.block.value| == |t.members|
      && forall i :: 0 <= i < |t.members| ==>
           var mt, f := t.members[i].ftype, Field(js.fields, t.members[i].name);
           if !f.Undefined? then ToNative(c, mt, f, Zero(mt)) == Done(r.slot.block.value[i])
           else MayBeAbsent(mt) && r.slot.block.value[i] == if mt.Optional? then DeclaredDefault(mt) else Zero(mt)
  {
    AcceptedExactly(c, t, js, slot);
    var b := ZeroMembers(t.members);
    FillMembersPointwise(c, t, js.fields, b, 0);
    forall i | 0 <= i < |t.members|
      ensures var mt, f := t.members[i].ftype, Field(js.fields, t.members[i].name);
        var m := MemberToNative(c, mt, f, b[i]);
        m.Done? &&
        if !f.Undefined? then m == ToNative(c, mt, f, Zero(mt))
        else MayBeAbsent(mt) && m.slot == if mt.Optional? then DeclaredDefault(mt) else Zero(mt)
    {
      AbsentMember(c, t.members[i].ftype, b[i]);
    }
  }

  lemma AbsentMember(c: Codec, mt: FType, slot: Native)
    requires slot == Zero(mt)
    ensures MayBeAbsent(mt) ==>
              MemberToNative(c, mt, Undefined, slot) == Done(if mt.Optional? then DeclaredDefault(mt) else Zero(mt))
  {
    match mt {
      case Optional(inner, _) => match inner { case Prim(_) => case _ => }
      case _ =>
    }
  }
}
