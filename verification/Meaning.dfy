/** What a conversion is for, said without the converters: which native content stands for a JS value,
    and which JS value shows a native content. Both converters are proved to be exactly these
    relations, for every type, value and slot. */
module Meaning {
  import opened Options
  import opened FeatureTypes
  import opened Marshalling

  // ---------------------------------------------------------------- from JS to native

  /** What was in the slot of a member before: of a live block its own content, otherwise zeros. */
  function Prior(ms: seq<Member>, before: Native, i: nat): Native
    requires i < |ms|
  {
    if before.NStruct? && before.block.Some? && |before.block.value| == |ms| then before.block.value[i]
    else Zero(ms[i].ftype)
  }

  /** `after` stands for the JS value in a slot that held `before`. */
  ghost predicate Stores(c: Codec, t: FType, js: Js, before: Native, after: Native)
    decreases t
  {
    match t
    case Prim(Void) => false
    case Prim(Str) => (Nullish(js) && after == NStr(None)) || (js.Text? && after == NStr(Some(js.text)))
    case Prim(AnyRef) => if Nullish(js) then after == NAny(None) else after == NAny(Some(js))
    case Prim(JsonObj) =>
      || (Nullish(js) && after == NJson(None))
      || ((js.Object? || js.List? || js.Function?) && after == NJson(Some(c.stringify(js))))
    case Prim(tag) => js.Scalar? && after.NNum? && c.toNative(tag, js.rep) == Some(after.bits)
    case Struct(ms) =>
      if Nullish(js) then after == before
      else
        && js.Object? && after.NStruct? && after.block.Some? && |after.block.value| == |ms|
        && forall i :: 0 <= i < |ms| ==>
             var field := Field(js.fields, ms[i].name);
             if field.Undefined? then AbsentStores(ms[i].ftype, Prior(ms, before, i), after.block.value[i])
             else Stores(c, ms[i].ftype, field, Prior(ms, before, i), after.block.value[i])
    case Optional(inner, _) => Stores(c, inner, js, before, after)
    case Callback => if Nullish(js) then after == before else js.Function? && after == NCallback(c.callbackId(js.addr))
    case Array(elem) =>
      if Nullish(js) then after == NArray(None)
      else
        && js.List? && after.NArray? && after.elements.Some? && |after.elements.value| == |js.elems|
        && (js.elems != [] ==> ElemSize(elem) != 0)
        && forall i :: 0 <= i < |js.elems| ==>
             !js.elems[i].Undefined? && Stores(c, elem, js.elems[i], Zero(elem), after.elements.value[i])
    case Promise => false
  }

  /** What a member that is absent leaves in its slot. */
  ghost predicate AbsentStores(mt: FType, before: Native, after: Native) {
    match mt
    case Prim(Str) => after == NStr(None)
    case Prim(AnyRef) => after == NAny(None)
    case Prim(JsonObj) => after == NJson(None)
    case Prim(_) => false
    case Optional(Prim(Boolean), d) => after == NNum(if d.num == 0 then 0 else 1)
    case Optional(Prim(Str), d) => if d.str.Some? then after == NStr(d.str) else after == before
    case Optional(Prim(AnyRef), d) => after == d.ptr
    case Optional(Prim(JsonObj), d) => after == d.ptr
    case Optional(Prim(tag), d) =>
      (tag.Int? || tag.Int64? || tag.Uint32? || tag.Uint64? || tag.Float? || tag.Double?) && after == NNum(d.num)
    case Optional(_, d) => after == d.ptr
    case Struct(_) => after == before
    case Callback => after == before
    case Array(_) => after == NArray(None)
    case Promise => false
  }

  lemma AbsentExactly(c: Codec, mt: FType, before: Native, after: Native)
    ensures MemberToNative(c, mt, Undefined, before) == Done(after) <==> AbsentStores(mt, before, after)
  {
    match mt {
      case Optional(inner, _) => match inner { case Prim(_) => case _ => }
      case Prim(_) =>
      case _ =>
    }
  }

  lemma LeafStores(c: Codec, tag: Tag, js: Js, before: Native, after: Native)
    ensures LeafToNative(c, tag, js, before) == Done(after) <==> Stores(c, Prim(tag), js, before, after)
  {
    match tag {
      case Void =>
      case Str =>
      case AnyRef =>
      case JsonObj =>
      case _ =>
        if js.Scalar? && after.NNum? {
          assert c.toNative(tag, js.rep) == Some(after.bits) ==> after == NNum(after.bits);
        }
    }
  }

  lemma EmptyArrayStores(c: Codec, elem: FType, js: Js, before: Native, after: Native)
    requires js.List? ==> js.elems == [] || ElemSize(elem) == 0
    ensures ToNative(c, Array(elem), js, before) == Done(after) <==> Stores(c, Array(elem), js, before, after)
  {
    if js.List? && js.elems == [] && after.NArray? && after.elements.Some? && |after.elements.value| == 0 {
      assert after.elements.value == [];
    }
  }

  /** The converter to native leaves exactly what stands for the value, or does not succeed. */
  lemma {:induction false} StoresExactly(c: Codec, t: FType, js: Js, before: Native, after: Native)
    ensures ToNative(c, t, js, before) == Done(after) <==> Stores(c, t, js, before, after)
    decreases t, 1
  {
    match t {
      case Prim(tag) => LeafStores(c, tag, js, before, after);
      case Struct(_) => if js.Object? { StructStores(c, t, js, before, after); }
      case Optional(inner, _) => StoresExactly(c, inner, js, before, after);
      case Callback =>
      case Array(elem) =>
        if js.List? && js.elems != [] && ElemSize(elem) != 0 {
          ArrayStores(c, t, js, before, after);
        } else {
          EmptyArrayStores(c, elem, js, before, after);
        }
      case Promise =>
    }
  }

  lemma {:induction false} MemberStores(c: Codec, mt: FType, field: Js, before: Native, after: Native)
    requires ToNative(c, mt, field, before) == Done(after) <==> Stores(c, mt, field, before, after)
    ensures MemberToNative(c, mt, field, before) == Done(after) <==>
              if field.Undefined? then AbsentStores(mt, before, after) else Stores(c, mt, field, before, after)
  {
    if field.Undefined? { AbsentExactly(c, mt, before, after); }
  }

  lemma {:induction false} StructStores(c: Codec, t: FType, js: Js, before: Native, after: Native)
    requires t.Struct? && js.Object?
    ensures ToNative(c, t, js, before) == Done(after) <==> Stores(c, t, js, before, after)
    decreases t, 0
  {
    var ms, b := t.members, StructBlock(t.members, before);
    FillMembersPointwise(c, t, js.fields, b, 0);
    var r := FillMembers(c, t, js.fields, b, 0);
    assert forall i :: 0 <= i < |ms| ==> b[i] == Prior(ms, before, i);
    if after.NStruct? && after.block.Some? && |after.block.value| == |ms| {
      var slots := after.block.value;
      forall i | 0 <= i < |ms|
        ensures MemberOutcome(c, t, js.fields, b, i) == Done(slots[i]) <==>
                var field := Field(js.fields, ms[i].name);
                if field.Undefined? then AbsentStores(ms[i].ftype, b[i], slots[i])
                else Stores(c, ms[i].ftype, field, b[i], slots[i])
      {
        StoresExactly(c, ms[i].ftype, Field(js.fields, ms[i].name), b[i], slots[i]);
        MemberStores(c, ms[i].ftype, Field(js.fields, ms[i].name), b[i], slots[i]);
      }
      if Stores(c, t, js, before, after) {
        assert forall i :: 0 <= i < |ms| ==> MemberOutcome(c, t, js.fields, b, i).Done?;
        assert r.slots == slots;
      }
    }
  }

  lemma {:induction false} ArrayStores(c: Codec, t: FType, js: Js, before: Native, after: Native)
    requires t.Array? && js.List? && js.elems != [] && ElemSize(t.elem) != 0
    ensures ToNative(c, t, js, before) == Done(after) <==> Stores(c, t, js, before, after)
    decreases t, 0
  {
    var es, b := js.elems, ZeroElems(t.elem, |js.elems|);
    FillElemsPointwise(c, t, es, b, 0);
    var r := FillElems(c, t, es, b, 0);
    if after.NArray? && after.elements.Some? && |after.elements.value| == |es| {
      var slots := after.elements.value;
      forall i | 0 <= i < |es|
        ensures ElemOutcome(c, t, es, b, i) == Done(slots[i]) <==>
                !es[i].Undefined? && Stores(c, t.elem, es[i], Zero(t.elem), slots[i])
      {
        StoresExactly(c, t.elem, es[i], b[i], slots[i]);
      }
      if Stores(c, t, js, before, after) {
        assert forall i :: 0 <= i < |es| ==> ElemOutcome(c, t, es, b, i).Done?;
        assert r.slots == slots;
      }
    }
  }

  // ---------------------------------------------------------------- callbacks

  /** A callback, under any number of optionals. */
  predicate CallbackType(t: FType) {
    t.Callback? || (t.Optional? && CallbackType(t.inner))
  }

  /** A function given for a callback is registered, and its id is what the slot holds, whatever it held
      before; what is sent out again is that id. */
  lemma {:induction false} CallbackIsStored(c: Codec, t: FType, js: Js, slot: Native)
    requires CallbackType(t) && js.Function?
    ensures ToNative(c, t, js, slot) == Done(NCallback(c.callbackId(js.addr)))
    ensures ToTarget(c, t, ToNative(c, t, js, slot).slot) == Converted(Scalar(c.toTarget(Int32, c.callbackId(js.addr))))
    decreases t
  {
    if t.Optional? { CallbackIsStored(c, t.inner, js, slot); }
  }

  /** Functions with different ids land in different slots. */
  lemma CallbacksDiffer(c: Codec, t: FType, f: Js, g: Js, slot: Native)
    requires CallbackType(t) && f.Function? && g.Function? && c.callbackId(f.addr) != c.callbackId(g.addr)
    ensures ToNative(c, t, f, slot) != ToNative(c, t, g, slot)
  {
    CallbackIsStored(c, t, f, slot);
    CallbackIsStored(c, t, g, slot);
  }

  /** In an accepted object every callback member, also an optional one, holds the id of its function. */
  lemma CallbackMemberIsStored(c: Codec, t: FType, js: Js, slot: Native, i: nat)
    requires t.Struct? && js.Object? && Accepts(c, t, js) && i < |t.members| && CallbackType(t.members[i].ftype)
    requires Field(js.fields, t.members[i].name).Function?
    ensures var r := ToNative(c, t, js, slot);
      && r.Done? && r.slot.NStruct? && r.slot.block.Some? && |r.slot.block.value| == |t.members|
      && r.slot.block.value[i] == NCallback(c.callbackId(Field(js.fields, t.members[i].name).addr))
  {
    AcceptedExactly(c, t, js, slot);
    var r, field := ToNative(c, t, js, slot), Field(js.fields, t.members[i].name);
    StoresExactly(c, t, js, slot, r.slot);
    StoresExactly(c, t.members[i].ftype, field, Prior(t.members, slot, i), r.slot.block.value[i]);
    CallbackIsStored(c, t.members[i].ftype, field, Prior(t.members, slot, i));
  }

  // ---------------------------------------------------------------- from native to JS

  /** Struct members have distinct names, here and below. */
  ghost predicate NamesOk(t: FType) {
    match t
    case Struct(ms) => DistinctNames(ms) && forall i :: 0 <= i < |ms| ==> NamesOk(ms[i].ftype)
    case Optional(inner, _) => NamesOk(inner)
    case Array(elem) => NamesOk(elem)
    case _ => true
  }

  ghost function Names(ms: seq<Member>, n: nat): set<string>
    requires n <= |ms|
  {
    set i | 0 <= i < n :: ms[i].name
  }

  /** The JS value shows the native content. */
  ghost predicate Shows(c: Codec, t: FType, v: Native, js: Js)
    decreases t
  {
    match t
    case Prim(Void) => false
    case Prim(Str) => v.NStr? && js == (if v.str.Some? then Text(v.str.value) else Text(""))
    case Prim(AnyRef) => v.NAny? && js == (if v.ref.Some? then v.ref.value else Null)
    case Prim(JsonObj) => v.NJson? && js == (if v.json.Some? then c.parse(v.json.value) else Null)
    case Prim(tag) => v.NNum? && js == Scalar(c.toTarget(tag, v.bits))
    case Struct(ms) =>
      && v.NStruct?
      && if v.block.None? then js == Null
         else
           && |v.block.value| == |ms| && js.Object? && js.addr == NEW_ADDR && js.fields.Keys == Names(ms, |ms|)
           && forall i :: 0 <= i < |ms| ==>
                ms[i].name in js.fields && Shows(c, ms[i].ftype, v.block.value[i], js.fields[ms[i].name])
    case Optional(inner, _) => Shows(c, inner, v, js)
    case Callback => v.NCallback? && js == Scalar(c.toTarget(Int32, v.id))
    case Array(elem) =>
      && v.NArray?
      && if v.elements.None? then js == Null
         else
           && js.List? && js.addr == NEW_ADDR && |js.elems| == |v.elements.value|
           && forall i :: 0 <= i < |js.elems| ==> Shows(c, elem, ElemSlot(elem, v.elements.value, i), js.elems[i])
    case Promise => false
  }

  /** The names of the first members, without and with the next one. */
  lemma NextName(ms: seq<Member>, i: nat)
    requires i < |ms| && DistinctNames(ms)
    ensures ms[i].name !in Names(ms, i) && Names(ms, i + 1) == Names(ms, i) + {ms[i].name}
  {
  }

  /** The object built by the loop has exactly the member names. */
  lemma {:induction false} NamesShown(c: Codec, t: FType, fs: seq<Native>, i: nat, acc: map<string, Js>)
    requires t.Struct? && |fs| == |t.members| && i <= |fs| && DistinctNames(t.members)
    requires acc.Keys == Names(t.members, i) && MembersToTarget(c, t, fs, i, acc).Converted?
    ensures var r := MembersToTarget(c, t, fs, i, acc);
      r.js.Object? && r.js.addr == NEW_ADDR && r.js.fields.Keys == Names(t.members, |fs|)
    decreases |fs| - i
  {
    if i < |fs| {
      NextName(t.members, i);
      NamesShown(c, t, fs, i + 1, acc[t.members[i].name := ToTarget(c, t.members[i].ftype, fs[i]).js]);
    }
  }

  /** The member loop succeeds only when every member converts. */
  lemma {:induction false} AllMembersConvert(c: Codec, t: FType, fs: seq<Native>, i: nat, acc: map<string, Js>)
    requires t.Struct? && |fs| == |t.members| && i <= |fs| && MembersToTarget(c, t, fs, i, acc).Converted?
    ensures forall j :: i <= j < |fs| ==> ToTarget(c, t.members[j].ftype, fs[j]).Converted?
    decreases |fs| - i
  {
    if i < |fs| {
      AllMembersConvert(c, t, fs, i + 1, acc[t.members[i].name := ToTarget(c, t.members[i].ftype, fs[i]).js]);
    }
  }

  lemma {:induction false} ElemsShown(c: Codec, t: FType, es: seq<Native>, i: nat, acc: seq<Js>)
    requires t.Array? && i <= |es| && |acc| == i
    ensures var r := ElemsToTarget(c, t, es, i, acc);
      && (r.Converted? <==> forall j :: i <= j < |es| ==> ToTarget(c, t.elem, ElemSlot(t.elem, es, j)).Converted?)
      && (r.Converted? ==>
            && r.js.List? && r.js.addr == NEW_ADDR && |r.js.elems| == |es|
            && (forall j :: 0 <= j < i ==> r.js.elems[j] == acc[j])
            && forall j :: i <= j < |es| ==> ToTarget(c, t.elem, ElemSlot(t.elem, es, j)) == Converted(r.js.elems[j]))
    decreases |es| - i
  {
    if i < |es| {
      var one := ToTarget(c, t.elem, ElemSlot(t.elem, es, i));
      if one.Converted? { ElemsShown(c, t, es, i + 1, acc + [one.js]); }
    }
  }

  /** The converter to JS gives exactly the value that shows the content, or does not succeed. */
  lemma {:induction false} ShowsExactly(c: Codec, t: FType, v: Native, js: Js)
    requires NamesOk(t)
    ensures ToTarget(c, t, v) == Converted(js) <==> Shows(c, t, v, js)
    decreases t, 1
  {
    match t {
      case Prim(_) =>
      case Struct(ms) => if v.NStruct? && v.block.Some? && |v.block.value| == |ms| { StructShows(c, t, v, js); }
      case Optional(inner, _) => ShowsExactly(c, inner, v, js);
      case Callback =>
      case Array(_) => if v.NArray? && v.elements.Some? { ArrayShows(c, t, v, js); }
      case Promise =>
    }
  }

  lemma {:induction false} StructShows(c: Codec, t: FType, v: Native, js: Js)
    requires NamesOk(t) && t.Struct? && v.NStruct? && v.block.Some? && |v.block.value| == |t.members|
    ensures ToTarget(c, t, v) == Converted(js) <==> Shows(c, t, v, js)
    decreases t, 0
  {
    var ms, fs := t.members, v.block.value;
    assert Names(ms, 0) == {};
    var r := MembersToTarget(c, t, fs, 0, map[]);
    if r.Converted? {
      AllMembersConvert(c, t, fs, 0, map[]);
      MembersToTargetPointwise(c, t, fs, 0, map[]);
      NamesShown(c, t, fs, 0, map[]);
    }
    if js.Object? && js.fields.Keys == Names(ms, |ms|) {
      forall i | 0 <= i < |ms|
        ensures ms[i].name in js.fields
        ensures ToTarget(c, ms[i].ftype, fs[i]) == Converted(js.fields[ms[i].name]) <==>
                Shows(c, ms[i].ftype, fs[i], js.fields[ms[i].name])
      {
        assert ms[i].name in Names(ms, |ms|);
        ShowsExactly(c, ms[i].ftype, fs[i], js.fields[ms[i].name]);
      }
      if Shows(c, t, v, js) { SameObject(c, t, fs, js, r); }
    }
    if r == Converted(js) {
      forall i | 0 <= i < |ms| ensures Shows(c, ms[i].ftype, fs[i], js.fields[ms[i].name]) {
        assert ms[i].name in Names(ms, |ms|);
      }
    }
  }

  lemma SameObject(c: Codec, t: FType, fs: seq<Native>, js: Js, r: Conversion)
    requires t.Struct? && |fs| == |t.members| && DistinctNames(t.members) && r == MembersToTarget(c, t, fs, 0, map[])
    requires js.Object? && js.addr == NEW_ADDR && js.fields.Keys == Names(t.members, |fs|)
    requires forall i :: 0 <= i < |fs| ==>
      t.members[i].name in js.fields
      && ToTarget(c, t.members[i].ftype, fs[i]) == Converted(js.fields[t.members[i].name])
    ensures r == Converted(js)
  {
    MembersToTargetPointwise(c, t, fs, 0, map[]);
    assert Names(t.members, 0) == {};
    NamesShown(c, t, fs, 0, map[]);
    forall k | k in js.fields ensures r.js.fields[k] == js.fields[k] {
      var i :| 0 <= i < |fs| && t.members[i].name == k;
      assert k in r.js.fields;
    }
    assert r.js.fields == js.fields;
  }

  lemma {:induction false} ArrayShows(c: Codec, t: FType, v: Native, js: Js)
    requires NamesOk(t) && t.Array? && v.NArray? && v.elements.Some?
    ensures ToTarget(c, t, v) == Converted(js) <==> Shows(c, t, v, js)
    decreases t, 0
  {
    var es := v.elements.value;
    ElemsShown(c, t, es, 0, []);
    var r := ElemsToTarget(c, t, es, 0, []);
    if js.List? && |js.elems| == |es| {
      forall i | 0 <= i < |es|
        ensures ToTarget(c, t.elem, ElemSlot(t.elem, es, i)) == Converted(js.elems[i]) <==>
                Shows(c, t.elem, ElemSlot(t.elem, es, i), js.elems[i])
      {
        ShowsExactly(c, t.elem, ElemSlot(t.elem, es, i), js.elems[i]);
      }
      if Shows(c, t, v, js) {
        assert forall i :: 0 <= i < |es| ==> ToTarget(c, t.elem, ElemSlot(t.elem, es, i)).Converted?;
        assert r.js.elems == js.elems;
      }
    }
  }

  // ---------------------------------------------------------------- what a failure leaves

  /** A failing leaf, callback or promise leaves its slot alone, and so does a value of the wrong kind. */
  lemma {:induction false} FailureLeaves(c: Codec, t: FType, js: Js, before: Native)
    requires ToNative(c, t, js, before).Failed?
    requires match RealKind(t) case Struct(_) => !js.Object? case Array(_) => !js.List? case _ => true
    ensures ToNative(c, t, js, before) == Failed(before)
    decreases t
  {
    if t.Optional? { FailureLeaves(c, t.inner, js, before); }
  }

  function RealKind(t: FType): FType {
    if t.Optional? then RealKind(t.inner) else t
  }

  /** A member loop that stops leaves the members before the failing one converted, the failing one as its
      own failure left it, and the others as they were. */
  lemma {:induction false} StuckMembers(c: Codec, t: FType, fields: map<string, Js>, b: seq<Native>, i: nat)
      returns (k: nat)
    requires t.Struct? && |b| == |t.members| && i <= |b| && FillMembers(c, t, fields, b, i).Stuck?
    ensures var slots := FillMembers(c, t, fields, b, i).slots;
      && |slots| == |b| && i <= k < |b| && MemberOutcome(c, t, fields, b, k) == Failed(slots[k])
      && (forall j :: i <= j < k ==> MemberOutcome(c, t, fields, b, j) == Done(slots[j]))
      && (forall j :: 0 <= j < |b| && (j < i || k < j) ==> slots[j] == b[j])
    decreases |b| - i
  {
    var step := MemberOutcome(c, t, fields, b, i);
    if step.Done? {
      var b' := b[i := step.slot];
      k := StuckMembers(c, t, fields, b', i + 1);
      assert forall j :: i < j < |b| ==> MemberOutcome(c, t, fields, b', j) == MemberOutcome(c, t, fields, b, j);
    } else {
      k := i;
    }
  }

  lemma {:induction false} StuckElems(c: Codec, t: FType, js: seq<Js>, b: seq<Native>, i: nat) returns (k: nat)
    requires t.Array? && |b| == |js| && i <= |b| && FillElems(c, t, js, b, i).Stuck?
    ensures var slots := FillElems(c, t, js, b, i).slots;
      && |slots| == |b| && i <= k < |b| && ElemOutcome(c, t, js, b, k) == Failed(slots[k])
      && (forall j :: i <= j < k ==> ElemOutcome(c, t, js, b, j) == Done(slots[j]))
      && (forall j :: 0 <= j < |b| && (j < i || k < j) ==> slots[j] == b[j])
    decreases |b| - i
  {
    var step := ElemOutcome(c, t, js, b, i);
    if step.Done? {
      var b' := b[i := step.slot];
      k := StuckElems(c, t, js, b', i + 1);
      assert forall j :: i < j < |b| ==> ElemOutcome(c, t, js, b', j) == ElemOutcome(c, t, js, b, j);
    } else {
      k := i;
    }
  }
}
