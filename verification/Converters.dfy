/** The converters in the form the framework runs them: recursive procedures that loop over members
    and elements and write through slots, proved against the functions of `Marshalling`. */
module Converters {
  import opened Options
  import opened FeatureTypes
  import opened Marshalling

  method ConvertValueToTarget(c: Codec, t: FType, v: Native) returns (r: Conversion)
    ensures r == ToTarget(c, t, v)
    decreases t
  {
    match t {
      case Prim(tag) => r := LeafToTarget(c, tag, v);
      case Struct(ms) =>
        if !v.NStruct? || (v.block.Some? && |v.block.value| != |ms|) { return Unconvertible; }
        if v.block.None? { return Converted(Null); }
        var fs := v.block.value;
        var target: map<string, Js> := map[];
        var i := 0;
        while i < |ms|
          invariant 0 <= i <= |ms|
          invariant ToTarget(c, t, v) == MembersToTarget(c, t, fs, i, target)
        {
          var field := ConvertValueToTarget(c, ms[i].ftype, fs[i]);
          if field.Unconvertible? { return Unconvertible; }
          target := target[ms[i].name := field.js];
          i := i + 1;
        }
        r := Converted(Object(NEW_ADDR, target));
      case Optional(inner, _) => r := ConvertValueToTarget(c, inner, v);
      case Callback =>
        r := if v.NCallback? then Converted(Scalar(c.toTarget(Int32, v.id))) else Unconvertible;
      case Array(elem) =>
        if !v.NArray? { return Unconvertible; }
        if v.elements.None? { return Converted(Null); }
        var es := v.elements.value;
        var target: seq<Js> := [];
        var i := 0;
        while i < |es|
          invariant 0 <= i <= |es|
          invariant ToTarget(c, t, v) == ElemsToTarget(c, t, es, i, target)
        {
          var e := ConvertValueToTarget(c, elem, ElemSlot(elem, es, i));
          if e.Unconvertible? { return Unconvertible; }
          target := target + [e.js];
          i := i + 1;
        }
        r := Converted(List(NEW_ADDR, target));
      case Promise => r := Unconvertible;
    }
  }

  datatype Code = Success | Failure | Abort

  /** What the outcome of a conversion means for the caller: its code, and the one slot written. */
  ghost predicate Wrote(o: Outcome, code: Code, before: seq<Native>, after: seq<Native>, at: nat)
    requires at < |before|
  {
    match o
    case Done(s) => code == Success && after == before[at := s]
    case Failed(s) => code == Failure && after == before[at := s]
    case Aborted => code == Abort
  }

  ghost predicate WroteAll(f: Filling, code: Code, after: seq<Native>) {
    match f
    case Filled(b) => code == Success && after == b
    case Stuck(b) => code == Failure && after == b
    case Crashed => code == Abort
  }

  /** Converts into `mem[at]` and touches no other slot. */
  method ConvertValueToNative(c: Codec, t: FType, js: Js, mem: array<Native>, at: nat) returns (code: Code)
    requires at < mem.Length
    modifies mem
    ensures Wrote(ToNative(c, t, js, old(mem[at])), code, old(mem[..]), mem[..], at)
    decreases t, 1
  {
    match t {
      case Prim(tag) =>
        code := Store(LeafToNative(c, tag, js, mem[at]), mem, at);
      case Struct(ms) =>
        if Nullish(js) { return Success; }
        if !js.Object? { return Failure; }
        mem[at] := NStruct(Some(StructBlock(ms, mem[at])));
        code := FillStruct(c, t, js.fields, mem, at);
      case Optional(inner, _) =>
        code := ConvertValueToNative(c, inner, js, mem, at);
      case Callback =>
        if Nullish(js) { return Success; }
        if !js.Function? { return Failure; }
        mem[at] := NCallback(c.callbackId(js.addr));
        code := Success;
      case Array(elem) =>
        if Nullish(js) { mem[at] := NArray(None); return Success; }
        if !js.List? { return Failure; }
        var size := |js.elems|;
        if size == 0 { mem[at] := NArray(Some([])); return Success; }
        if ElemSize(elem) == 0 { return Abort; }
        mem[at] := NArray(Some(ZeroElems(elem, size)));
        code := FillArray(c, t, js.elems, mem, at);
      case Promise => code := Failure;
    }
  }

  method Store(o: Outcome, mem: array<Native>, at: nat) returns (code: Code)
    requires at < mem.Length
    modifies mem
    ensures Wrote(o, code, old(mem[..]), mem[..], at)
  {
    match o {
      case Done(s) => mem[at] := s; code := Success;
      case Failed(s) => mem[at] := s; code := Failure;
      case Aborted => code := Abort;
    }
  }

  /** Only the slot `at` has changed. */
  ghost predicate OnlyAt(before: seq<Native>, after: seq<Native>, at: nat)
    requires at < |before| == |after|
  {
    after == before[at := after[at]]
  }

  /** The block is reached through the pointer that was stored first, and filled member by member. */
  method FillStruct(c: Codec, t: FType, fields: map<string, Js>, mem: array<Native>, at: nat) returns (code: Code)
    requires t.Struct? && at < mem.Length
    requires mem[at].NStruct? && mem[at].block.Some? && |mem[at].block.value| == |t.members|
    modifies mem
    ensures OnlyAt(old(mem[..]), mem[..], at) && mem[at].NStruct? && mem[at].block.Some?
    ensures WroteAll(FillMembers(c, t, fields, old(mem[at]).block.value, 0), code, mem[at].block.value)
    decreases t, 0
  {
    ghost var initial := mem[at].block.value;
    var i := 0;
    while i < |t.members|
      invariant 0 <= i <= |t.members| && OnlyAt(old(mem[..]), mem[..], at)
      invariant mem[at].NStruct? && mem[at].block.Some? && |mem[at].block.value| == |t.members|
      invariant FillMembers(c, t, fields, initial, 0) == FillMembers(c, t, fields, mem[at].block.value, i)
    {
      var block := mem[at].block.value;
      var mt := t.members[i].ftype;
      var slot: Native;
      code, slot := FillMember(c, mt, Field(fields, t.members[i].name), block[i]);
      mem[at] := NStruct(Some(block[i := slot]));
      if code != Success { return; }
      i := i + 1;
    }
    code := Success;
  }

  /** One member, converted in its own slot. */
  method FillMember(c: Codec, mt: FType, field: Js, before: Native) returns (code: Code, slot: Native)
    ensures Left(MemberToNative(c, mt, field, before), code, slot)
    decreases mt, 2
  {
    var cell := new Native[1](_ => before);
    if field.Undefined? && mt.Optional? {
      code := Store(ConvertOptional(mt, before), cell, 0);
    } else if field.Undefined? && MustBePresent(mt) {
      code := Failure;
    } else {
      code := ConvertValueToNative(c, mt, field, cell, 0);
    }
    slot := cell[0];
  }

  /** What the outcome of a conversion leaves in its own slot. */
  ghost predicate Left(o: Outcome, code: Code, slot: Native) {
    match o
    case Done(s) => code == Success && slot == s
    case Failed(s) => code == Failure && slot == s
    case Aborted => code == Abort
  }

  method FillArray(c: Codec, t: FType, js: seq<Js>, mem: array<Native>, at: nat) returns (code: Code)
    requires t.Array? && at < mem.Length
    requires mem[at].NArray? && mem[at].elements.Some? && |mem[at].elements.value| == |js|
    modifies mem
    ensures OnlyAt(old(mem[..]), mem[..], at) && mem[at].NArray? && mem[at].elements.Some?
    ensures WroteAll(FillElems(c, t, js, old(mem[at]).elements.value, 0), code, mem[at].elements.value)
    decreases t, 0
  {
    ghost var initial := mem[at].elements.value;
    var i := 0;
    while i < |js|
      invariant 0 <= i <= |js| && OnlyAt(old(mem[..]), mem[..], at)
      invariant mem[at].NArray? && mem[at].elements.Some? && |mem[at].elements.value| == |js|
      invariant FillElems(c, t, js, initial, 0) == FillElems(c, t, js, mem[at].elements.value, i)
    {
      if js[i].Undefined? { return Abort; }
      var elements := mem[at].elements.value;
      var slot: Native;
      code, slot := FillElem(c, t.elem, js[i], elements[i]);
      mem[at] := NArray(Some(elements[i := slot]));
      if code != Success { return; }
      i := i + 1;
    }
    code := Success;
  }

  method FillElem(c: Codec, et: FType, js: Js, before: Native) returns (code: Code, slot: Native)
    ensures Left(ToNative(c, et, js, before), code, slot)
    decreases et, 2
  {
    var cell := new Native[1](_ => before);
    code := ConvertValueToNative(c, et, js, cell, 0);
    slot := cell[0];
  }
}
