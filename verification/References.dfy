/** Duplicating and freeing the engine references held inside a native value. */
module References {
  import opened Options
  import opened FeatureTypes

  /** Every any-reference reachable through struct members, array elements and optionals. */
  function AnyLeaves(t: FType, v: Native): seq<Js>
    requires WellTyped(t, v)
    decreases t, 1
  {
    match t
    case Prim(tag) => if tag.AnyRef? && v.ref.Some? then [v.ref.value] else []
    case Struct(ms) => if v.block.Some? then MemberLeaves(t, v, |ms|) else []
    case Optional(inner, _) => AnyLeaves(inner, v)
    case Array(_) => if v.elements.Some? then ElemLeaves(t, v, |v.elements.value|) else []
    case _ => []
  }

  function MemberLeaves(t: FType, v: Native, n: nat): seq<Js>
    requires t.Struct? && WellTyped(t, v) && v.block.Some? && n <= |t.members|
    decreases t, 0, n
  {
    if n == 0 then []
    else MemberLeaves(t, v, n - 1) + AnyLeaves(t.members[n - 1].ftype, v.block.value[n - 1])
  }

  function ElemLeaves(t: FType, v: Native, n: nat): seq<Js>
    requires t.Array? && WellTyped(t, v) && v.elements.Some? && n <= |v.elements.value|
    decreases t, 0, n
  {
    if n == 0 then []
    else ElemLeaves(t, v, n - 1) + AnyLeaves(t.elem, v.elements.value[n - 1])
  }

  /** The references the dup and free walks actually reach: one optional is removed from a struct
      member, members without managed memory are skipped, and an optional met anywhere else ends
      the walk. */
  function Visited(t: FType, v: Native): seq<Js>
    requires WellTyped(t, v)
    decreases t, 1
  {
    match t
    case Prim(tag) => if tag.AnyRef? && v.ref.Some? then [v.ref.value] else []
    case Struct(ms) => if v.block.Some? then VisitedMembers(t, v, |ms|) else []
    case Array(_) => if v.elements.Some? then VisitedElems(t, v, |v.elements.value|) else []
    case _ => []
  }

  function VisitedMembers(t: FType, v: Native, n: nat): seq<Js>
    requires t.Struct? && WellTyped(t, v) && v.block.Some? && n <= |t.members|
    decreases t, 0, n
  {
    if n == 0 then []
    else VisitedMembers(t, v, n - 1) + VisitedMember(t.members[n - 1].ftype, v.block.value[n - 1])
  }

  function VisitedMember(mt: FType, f: Native): seq<Js>
    requires WellTyped(mt, f)
    decreases mt, 2
  {
    if NeedFree(RealType(mt)) then Visited(RealType(mt), f) else []
  }

  function VisitedElems(t: FType, v: Native, n: nat): seq<Js>
    requires t.Array? && WellTyped(t, v) && v.elements.Some? && n <= |v.elements.value|
    decreases t, 0, n
  {
    if n == 0 then []
    else VisitedElems(t, v, n - 1) + Visited(t.elem, v.elements.value[n - 1])
  }

  // ---------------------------------------------------------------- what the walk reaches

  /** Some value of the type holds an any-reference. */
  ghost predicate CanHoldAny(t: FType) {
    match t
    case Prim(tag) => tag.AnyRef?
    case Struct(ms) => exists i :: 0 <= i < |ms| && CanHoldAny(ms[i].ftype)
    case Optional(inner, _) => CanHoldAny(inner)
    case Array(elem) => CanHoldAny(elem)
    case _ => false
  }

  /** No any-reference lies below an optional other than the direct wrapper of a struct member. */
  ghost predicate FullyVisited(t: FType) {
    match t
    case Struct(ms) => forall i :: 0 <= i < |ms| ==> FullyVisited(RealType(ms[i].ftype))
    case Optional(inner, _) => !CanHoldAny(inner)
    case Array(elem) => FullyVisited(elem)
    case _ => true
  }

  lemma {:induction false} NoAnyNoLeaves(t: FType, v: Native)
    requires WellTyped(t, v) && !CanHoldAny(t)
    ensures AnyLeaves(t, v) == []
    decreases t, 1
  {
    match t {
      case Struct(ms) => if v.block.Some? { NoAnyNoMemberLeaves(t, v, |ms|); }
      case Optional(inner, _) => NoAnyNoLeaves(inner, v);
      case Array(_) => if v.elements.Some? { NoAnyNoElemLeaves(t, v, |v.elements.value|); }
      case _ =>
    }
  }

  lemma {:induction false} NoAnyNoMemberLeaves(t: FType, v: Native, n: nat)
    requires t.Struct? && WellTyped(t, v) && v.block.Some? && n <= |t.members| && !CanHoldAny(t)
    ensures MemberLeaves(t, v, n) == []
    decreases t, 0, n
  {
    if n > 0 {
      NoAnyNoMemberLeaves(t, v, n - 1);
      NoAnyNoLeaves(t.members[n - 1].ftype, v.block.value[n - 1]);
    }
  }

  lemma {:induction false} NoAnyNoElemLeaves(t: FType, v: Native, n: nat)
    requires t.Array? && WellTyped(t, v) && v.elements.Some? && n <= |v.elements.value| && !CanHoldAny(t)
    ensures ElemLeaves(t, v, n) == []
    decreases t, 0, n
  {
    if n > 0 {
      NoAnyNoElemLeaves(t, v, n - 1);
      NoAnyNoLeaves(t.elem, v.elements.value[n - 1]);
    }
  }

  /** On a fully visited type the walk reaches every any-reference, in order; in particular the
      `NeedFree` filter skips no member that holds one. */
  lemma {:induction false} VisitsAllLeaves(t: FType, v: Native)
    requires WellTyped(t, v) && FullyVisited(t)
    ensures Visited(t, v) == AnyLeaves(t, v)
    decreases t, 1
  {
    match t {
      case Struct(ms) => if v.block.Some? { VisitsAllMembers(t, v, |ms|); }
      case Optional(inner, _) => NoAnyNoLeaves(inner, v);
      case Array(_) => if v.elements.Some? { VisitsAllElems(t, v, |v.elements.value|); }
      case _ =>
    }
  }

  lemma {:induction false} VisitsAllMembers(t: FType, v: Native, n: nat)
    requires t.Struct? && WellTyped(t, v) && v.block.Some? && n <= |t.members| && FullyVisited(t)
    ensures VisitedMembers(t, v, n) == MemberLeaves(t, v, n)
    decreases t, 0, n
  {
    if n > 0 {
      VisitsAllMembers(t, v, n - 1);
      var mt, f := t.members[n - 1].ftype, v.block.value[n - 1];
      VisitsAllLeaves(RealType(mt), f);
      MemberVisit(mt, f);
    }
  }

  /** Removing one optional and filtering on managed memory loses nothing the walk would reach. */
  lemma {:induction false} MemberVisit(mt: FType, f: Native)
    requires WellTyped(mt, f)
    ensures WellTyped(RealType(mt), f)
    ensures VisitedMember(mt, f) == Visited(RealType(mt), f)
    ensures AnyLeaves(mt, f) == AnyLeaves(RealType(mt), f)
  {
    FlagsByShape(RealType(mt));
  }

  lemma {:induction false} VisitsAllElems(t: FType, v: Native, n: nat)
    requires t.Array? && WellTyped(t, v) && v.elements.Some? && n <= |v.elements.value| && FullyVisited(t)
    ensures VisitedElems(t, v, n) == ElemLeaves(t, v, n)
    decreases t, 0, n
  {
    if n > 0 {
      VisitsAllElems(t, v, n - 1);
      VisitsAllLeaves(t.elem, v.elements.value[n - 1]);
    }
  }

  /** A value with an any-reference in it, for every type that can hold one. */
  lemma {:induction false} LeafWitness(t: FType, js: Js) returns (v: Native)
    requires CanHoldAny(t)
    ensures WellTyped(t, v) && AnyLeaves(t, v) != []
    decreases t
  {
    match t {
      case Prim(_) => v := NAny(Some(js));
      case Struct(ms) =>
        var i :| 0 <= i < |ms| && CanHoldAny(ms[i].ftype);
        var f := LeafWitness(ms[i].ftype, js);
        v := OneMember(t, i, f);
      case Optional(inner, _) => v := LeafWitness(inner, js);
      case Array(elem) =>
        var e := LeafWitness(elem, js);
        v := NArray(Some([e]));
        assert ElemLeaves(t, v, 1) == ElemLeaves(t, v, 0) + AnyLeaves(elem, e);
    }
  }

  /** Every member but the i-th is zero. */
  ghost predicate ZeroBut(t: FType, v: Native, i: nat)
    requires t.Struct? && WellTyped(t, v) && v.block.Some?
  {
    forall j :: 0 <= j < |t.members| && j != i ==> v.block.value[j] == Zero(t.members[j].ftype)
  }

  /** A struct that is zero except for one member has the leaves of that member, and the walk
      visits what it visits there. */
  lemma {:induction false} OneMember(t: FType, i: nat, f: Native) returns (v: Native)
    requires t.Struct? && i < |t.members| && WellTyped(t.members[i].ftype, f)
    ensures WellTyped(t, v) && AnyLeaves(t, v) == AnyLeaves(t.members[i].ftype, f)
    ensures Visited(t, v) == VisitedMember(t.members[i].ftype, f)
  {
    v := NStruct(Some(ZeroMembers(t.members)[i := f]));
    forall j | 0 <= j < |t.members| ensures WellTyped(t.members[j].ftype, v.block.value[j]) {
      ZeroIsWellTyped(t.members[j].ftype);
    }
    OneMemberLeaves(t, v, i, |t.members|);
    OneMemberVisited(t, v, i, |t.members|);
  }

  lemma {:induction false} OneMemberLeaves(t: FType, v: Native, i: nat, n: nat)
    requires t.Struct? && WellTyped(t, v) && v.block.Some? && n <= |t.members|
    requires i < |t.members| && ZeroBut(t, v, i)
    ensures MemberLeaves(t, v, n) == if i < n then AnyLeaves(t.members[i].ftype, v.block.value[i]) else []
    decreases n
  {
    if n > 0 {
      var k := n - 1;
      OneMemberLeaves(t, v, i, k);
      if k != i {
        ZeroMember(t.members[k].ftype, v.block.value[k]);
        NothingAdded(MemberLeaves(t, v, k), AnyLeaves(t.members[k].ftype, v.block.value[k]));
      }
    }
  }

  lemma {:induction false} OneMemberVisited(t: FType, v: Native, i: nat, n: nat)
    requires t.Struct? && WellTyped(t, v) && v.block.Some? && n <= |t.members|
    requires i < |t.members| && ZeroBut(t, v, i)
    ensures VisitedMembers(t, v, n) == if i < n then VisitedMember(t.members[i].ftype, v.block.value[i]) else []
    decreases n
  {
    if n > 0 {
      var k := n - 1;
      OneMemberVisited(t, v, i, k);
      if k != i {
        ZeroMember(t.members[k].ftype, v.block.value[k]);
        NothingAdded(VisitedMembers(t, v, k), VisitedMember(t.members[k].ftype, v.block.value[k]));
      }
    }
  }

  lemma NothingAdded(a: seq<Js>, b: seq<Js>)
    requires b == []
    ensures a + b == a
  {
  }

  lemma {:induction false} ZeroMember(mt: FType, z: Native)
    requires z == Zero(mt)
    ensures WellTyped(mt, z) && AnyLeaves(mt, z) == [] && VisitedMember(mt, z) == []
  {
    ZeroHasNoLeaves(mt);
    ZeroHasNoLeaves(RealType(mt));
    MemberVisit(mt, z);
  }

  lemma {:induction false} ZeroHasNoLeaves(t: FType)
    ensures WellTyped(t, Zero(t)) && AnyLeaves(t, Zero(t)) == [] && Visited(t, Zero(t)) == []
    decreases t
  {
    if t.Optional? { ZeroHasNoLeaves(t.inner); }
  }

  /** Where an optional hides an any-reference, some value has a reference the walk misses. */
  lemma {:induction false} HiddenLeaf(t: FType, js: Js) returns (v: Native)
    requires !FullyVisited(t)
    ensures WellTyped(t, v) && Visited(t, v) != AnyLeaves(t, v)
    decreases t
  {
    match t {
      case Struct(ms) =>
        var i :| 0 <= i < |ms| && !FullyVisited(RealType(ms[i].ftype));
        var mt := RealType(ms[i].ftype);
        var f := HiddenLeaf(mt, js);
        v := OneMember(t, i, f);
        MemberVisit(ms[i].ftype, f);
      case Optional(inner, _) => v := LeafWitness(inner, js);
      case Array(elem) =>
        var e := HiddenLeaf(elem, js);
        v := NArray(Some([e]));
        assert ElemLeaves(t, v, 0) == [] && VisitedElems(t, v, 0) == [];
        assert ElemLeaves(t, v, 1) == AnyLeaves(elem, e);
        assert VisitedElems(t, v, 1) == Visited(elem, e);
    }
  }

  /** The walk reaches every any-reference of every value exactly for the fully visited types. */
  lemma VisitsAllExactly(t: FType)
    ensures (forall v :: WellTyped(t, v) ==> Visited(t, v) == AnyLeaves(t, v)) <==> FullyVisited(t)
  {
    if FullyVisited(t) {
      forall v | WellTyped(t, v) ensures Visited(t, v) == AnyLeaves(t, v) { VisitsAllLeaves(t, v); }
    } else {
      var v := HiddenLeaf(t, Null);
    }
  }

  // ---------------------------------------------------------------- reference counts

  type Counts<!T(==)> = map<T, int>

  function Count<T(==)>(refs: Counts<T>, h: T): int {
    if h in refs then refs[h] else 0
  }

  function Signed(up: bool, n: int): int {
    if up then n else -n
  }

  function Moved<T(==)>(refs: Counts<T>, h: T, up: bool): Counts<T> {
    refs[h := Count(refs, h) + Signed(up, 1)]
  }

  /** One reference added (`up`) or released for each entry of `hs`. */
  function Adjusted<T(==)>(refs: Counts<T>, hs: seq<T>, up: bool): Counts<T> {
    if hs == [] then refs else Moved(Adjusted(refs, hs[..|hs| - 1], up), hs[|hs| - 1], up)
  }

  lemma AdjustedOne<T>(refs: Counts<T>, h: T, up: bool)
    ensures Adjusted(refs, [h], up) == Moved(refs, h, up)
  {
    assert [h][..|[h]| - 1] == [];
  }

  lemma {:induction false} AdjustedConcat<T>(refs: Counts<T>, a: seq<T>, b: seq<T>, up: bool)
    ensures Adjusted(refs, a + b, up) == Adjusted(Adjusted(refs, a, up), b, up)
    decreases |b|
  {
    if b == [] {
      assert a + b == a;
    } else {
      assert (a + b)[..|a + b| - 1] == a + b[..|b| - 1];
      AdjustedConcat(refs, a, b[..|b| - 1], up);
    }
  }

  /** Every count moves by the number of occurrences. */
  lemma {:induction false} AdjustedCount<T>(refs: Counts<T>, hs: seq<T>, up: bool, h: T)
    ensures Count(Adjusted(refs, hs, up), h) == Count(refs, h) + Signed(up, multiset(hs)[h])
    decreases |hs|
  {
    if hs != [] {
      AdjustedCount(refs, hs[..|hs| - 1], up, h);
      assert hs == hs[..|hs| - 1] + [hs[|hs| - 1]];
    }
  }

  /** References that are added and released again leave every count as it was; while they are held
      each of them has a larger count. */
  lemma UpAndDown<T>(refs: Counts<T>, hs: seq<T>, h: T)
    ensures var held := Adjusted(refs, hs, true);
      && Count(Adjusted(held, hs, false), h) == Count(refs, h)
      && (h in hs ==> Count(held, h) > Count(refs, h))
  {
    AdjustedCount(refs, hs, true, h);
    AdjustedCount(Adjusted(refs, hs, true), hs, false, h);
    assert h in hs ==> h in multiset(hs);
  }

  // ---------------------------------------------------------------- the width of the first read

  /** Both procedures read a pointer at the slot before they look at its type. For an array the reads
      stay inside the elements exactly when there are none or they are as wide as a pointer. */
  lemma ElementReadInside(elem: FType, n: nat)
    ensures var w := ElemSize(elem);
      (forall i :: 0 <= i < n ==> w * i + POINTER_SIZE <= w * n) <==> n == 0 || w >= POINTER_SIZE
  {
    var w := ElemSize(elem);
    if n > 0 && w < POINTER_SIZE {
      var i := n - 1;
      assert w * i + w == w * n;
    }
    if w >= POINTER_SIZE {
      forall i | 0 <= i < n ensures w * i + POINTER_SIZE <= w * n {
        assert w * (i + 1) <= w * n;
        assert w * (i + 1) == w * i + w;
      }
    }
  }

  /** The elements that are wide enough: references and the 64-bit scalars, seen through one optional. */
  lemma WideElements(elem: FType)
    ensures ElemSize(elem) >= POINTER_SIZE <==>
              var r := RealType(elem);
              || IsReference(elem) || IsReference(r)
              || (r.Prim? && (r.tag.Int64? || r.tag.Uint64? || r.tag.Double?))
  {
    FlagsByShape(elem);
    FlagsByShape(RealType(elem));
  }

  // ---------------------------------------------------------------- arguments held by a request

  /** An argument of a call: its parameter type, the block its pointer leads to, and its value. */
  datatype Argument = Argument(ftype: FType, block: nat, value: Native)

  predicate NullPointer(v: Native) {
    match v
    case NStr(s) => s.None?
    case NAny(r) => r.None?
    case NJson(j) => j.None?
    case NStruct(b) => b.None?
    case NArray(e) => e.None?
    case _ => false
  }

  /** Only parameters of managed memory with a live pointer are held. */
  predicate Holds(a: Argument) {
    NeedFree(a.ftype) && !NullPointer(a.value)
  }

  /** Its parameter is a string, an any-reference, a JSON object, a struct or an array, or an optional of
      one, and its slot is not the zero one. */
  predicate IsHeld(a: Argument) {
    var r := if a.ftype.Optional? then a.ftype.inner else a.ftype;
    && (r.Struct? || r.Array? || (r.Prim? && (r.tag.Str? || r.tag.AnyRef? || r.tag.JsonObj?)))
    && a.value != Zero(a.ftype)
  }

  lemma HoldsExactly(a: Argument)
    requires WellTyped(a.ftype, a.value)
    ensures Holds(a) <==> IsHeld(a)
  {
    FlagsByShape(a.ftype);
    assert a.ftype.Optional? ==> Zero(a.ftype) == Zero(a.ftype.inner);
  }

  ghost predicate ArgumentsOk(args: seq<Argument>) {
    forall i :: 0 <= i < |args| ==> WellTyped(args[i].ftype, args[i].value)
  }

  function HeldValues(a: Argument): seq<Js>
    requires WellTyped(a.ftype, a.value)
  {
    if Holds(a) then Visited(a.ftype, a.value) else []
  }

  function HeldBlocks(a: Argument): seq<nat> {
    if Holds(a) then [a.block] else []
  }

  /** The references of each argument: to engine values, and to blocks. */
  ghost function ValueParts(args: seq<Argument>): (ps: seq<seq<Js>>)
    requires ArgumentsOk(args)
    ensures |ps| == |args|
  {
    seq(|args|, i requires 0 <= i < |args| => HeldValues(args[i]))
  }

  ghost function BlockParts(args: seq<Argument>): (ps: seq<seq<nat>>)
    ensures |ps| == |args|
  {
    seq(|args|, i requires 0 <= i < |args| => HeldBlocks(args[i]))
  }

  /** The first `n` parts, one after the other. */
  ghost function Flat<T>(parts: seq<seq<T>>, n: nat): seq<T>
    requires n <= |parts|
  {
    if n == 0 then [] else Flat(parts, n - 1) + parts[n - 1]
  }

  ghost function All<T>(parts: seq<seq<T>>): seq<T> {
    Flat(parts, |parts|)
  }

  lemma CountOfSum<T>(x: seq<T>, y: seq<T>, b: T)
    ensures multiset(x + y)[b] == multiset(x)[b] + multiset(y)[b]
  {
  }

  /** What the parts up to the i-th hold is at most what all hold. */
  lemma {:induction false} FlatGrows<T>(parts: seq<seq<T>>, i: nat, n: nat, b: T)
    requires i < n <= |parts|
    ensures multiset(Flat(parts, i))[b] + multiset(parts[i])[b] <= multiset(Flat(parts, n))[b]
    decreases n
  {
    CountOfSum(Flat(parts, n - 1), parts[n - 1], b);
    if i < n - 1 { FlatGrows(parts, i, n - 1, b); }
  }

  lemma {:induction false} FlatHas<T>(parts: seq<seq<T>>, n: nat, b: T) returns (i: nat)
    requires n <= |parts| && b in Flat(parts, n)
    ensures i < n && b in parts[i]
    decreases n
  {
    if b in parts[n - 1] { i := n - 1; } else { i := FlatHas(parts, n - 1, b); }
  }

  lemma FlatNext<T>(refs: Counts<T>, parts: seq<seq<T>>, i: nat, up: bool)
    requires i < |parts|
    ensures Adjusted(Adjusted(refs, Flat(parts, i), up), parts[i], up) == Adjusted(refs, Flat(parts, i + 1), up)
  {
    AdjustedConcat(refs, Flat(parts, i), parts[i], up);
  }

  /** Every block has an owner besides the request. */
  ghost predicate OwnedBesides(blocks: Counts<nat>, held: seq<nat>) {
    forall b :: b in held ==> Count(blocks, b) > multiset(held)[b]
  }

  ghost predicate OwnersAtLeast(blocks: Counts<nat>, a: Argument, n: nat) {
    Holds(a) ==> Count(blocks, a.block) >= n
  }

  ghost predicate AllLive(blocks: Counts<nat>, args: seq<Argument>) {
    forall i :: 0 <= i < |args| ==> OwnersAtLeast(blocks, args[i], 1)
  }

  /** The counts when the first `n` arguments have been held (`up`) or released. */
  ghost predicate Walked(refs0: Counts<Js>, blocks0: Counts<nat>, refs: Counts<Js>, blocks: Counts<nat>,
                         args: seq<Argument>, n: nat, up: bool)
    requires n <= |args| && ArgumentsOk(args)
  {
    refs == Adjusted(refs0, Flat(ValueParts(args), n), up) && blocks == Adjusted(blocks0, Flat(BlockParts(args), n), up)
  }

  lemma WalkedNext(refs0: Counts<Js>, blocks0: Counts<nat>, refs: Counts<Js>, blocks: Counts<nat>,
                   refs': Counts<Js>, blocks': Counts<nat>, args: seq<Argument>, n: nat, up: bool)
    requires n < |args| && ArgumentsOk(args) && Walked(refs0, blocks0, refs, blocks, args, n, up)
    requires refs' == Adjusted(refs, HeldValues(args[n]), up) && blocks' == Adjusted(blocks, HeldBlocks(args[n]), up)
    ensures Walked(refs0, blocks0, refs', blocks', args, n + 1, up)
  {
    var values, held := ValueParts(args), BlockParts(args);
    assert values[n] == HeldValues(args[n]) && held[n] == HeldBlocks(args[n]);
    FlatNext(refs0, values, n, up);
    FlatNext(blocks0, held, n, up);
  }

  lemma StillLive(refs0: Counts<Js>, blocks0: Counts<nat>, refs: Counts<Js>, blocks: Counts<nat>,
                  args: seq<Argument>, i: nat)
    requires i < |args| && ArgumentsOk(args) && AllLive(blocks0, args)
    requires Walked(refs0, blocks0, refs, blocks, args, i, true)
    ensures OwnersAtLeast(blocks, args[i], 1)
  {
    AdjustedCount(blocks0, Flat(BlockParts(args), i), true, args[i].block);
    assert OwnersAtLeast(blocks0, args[i], 1);
  }

  /** When the first `i` arguments have been released, the block of the next one still has an owner
      besides the request. */
  lemma StillOwned(refs0: Counts<Js>, blocks0: Counts<nat>, refs: Counts<Js>, blocks: Counts<nat>,
                   args: seq<Argument>, i: nat)
    requires i < |args| && ArgumentsOk(args) && Walked(refs0, blocks0, refs, blocks, args, i, false)
    requires OwnedBesides(blocks0, All(BlockParts(args)))
    ensures OwnersAtLeast(blocks, args[i], 2)
  {
    if Holds(args[i]) { NextOwned(blocks0, BlockParts(args), i, args[i].block); }
  }

  lemma {:induction false} FlatHasAll<T>(parts: seq<seq<T>>, i: nat, n: nat, b: T)
    requires i < n <= |parts| && b in parts[i]
    ensures b in Flat(parts, n)
    decreases n
  {
    if i < n - 1 { FlatHasAll(parts, i, n - 1, b); }
  }

  /** Holding raises the count of exactly the blocks of the held arguments. */
  lemma HeldCounts(blocks: Counts<nat>, args: seq<Argument>)
    requires ArgumentsOk(args)
    ensures var held := Adjusted(blocks, All(BlockParts(args)), true);
      && (forall i :: 0 <= i < |args| && IsHeld(args[i]) ==> Count(held, args[i].block) > Count(blocks, args[i].block))
      && forall b :: (forall i :: 0 <= i < |args| && IsHeld(args[i]) ==> args[i].block != b) ==>
           Count(held, b) == Count(blocks, b)
  {
    var parts := BlockParts(args);
    forall i | 0 <= i < |args| && IsHeld(args[i])
      ensures Count(Adjusted(blocks, All(parts), true), args[i].block) > Count(blocks, args[i].block)
    {
      HoldsExactly(args[i]);
      FlatHasAll(parts, i, |parts|, args[i].block);
      UpAndDown(blocks, All(parts), args[i].block);
    }
    forall b | forall i :: 0 <= i < |args| && IsHeld(args[i]) ==> args[i].block != b
      ensures Count(Adjusted(blocks, All(parts), true), b) == Count(blocks, b)
    {
      AdjustedCount(blocks, All(parts), true, b);
      if b in All(parts) {
        var i := FlatHas(parts, |parts|, b);
        HoldsExactly(args[i]);
      }
      assert b !in multiset(All(parts));
    }
  }

  lemma NextOwned(blocks: Counts<nat>, parts: seq<seq<nat>>, i: nat, b: nat)
    requires i < |parts| && parts[i] == [b] && OwnedBesides(blocks, All(parts))
    ensures Count(Adjusted(blocks, Flat(parts, i), false), b) > 1
  {
    AdjustedCount(blocks, Flat(parts, i), false, b);
    FlatGrows(parts, i, |parts|, b);
    assert multiset([b])[b] == 1;
    assert b in multiset(All(parts));
  }

  /** Blocks that were live have, once held, an owner besides the request. */
  lemma HeldAreOwned(blocks: Counts<nat>, args: seq<Argument>)
    requires AllLive(blocks, args)
    ensures var held := All(BlockParts(args)); OwnedBesides(Adjusted(blocks, held, true), held)
  {
    var parts := BlockParts(args);
    var held := All(parts);
    forall b | b in held ensures Count(Adjusted(blocks, held, true), b) > multiset(held)[b] {
      AdjustedCount(blocks, held, true, b);
      var i := FlatHas(parts, |parts|, b);
      assert b in HeldBlocks(args[i]) && OwnersAtLeast(blocks, args[i], 1);
    }
  }

  class Engine {
    /** Reference counts by engine value; a value that is not a key has count zero. */
    var refs: Counts<Js>
    /** Reference counts of native blocks, and the blocks given back to the allocator. */
    var blocks: Counts<nat>
    var freed: seq<nat>

    constructor ()
      ensures refs == map[] && blocks == map[] && freed == []
    {
      refs, blocks, freed := map[], map[], [];
    }

    /** Adds one reference for every visited any-reference, in order, and touches no other count. */
    method DupFtValue(t: FType, v: Native)
      requires WellTyped(t, v)
      modifies this`refs
      ensures refs == Adjusted(old(refs), Visited(t, v), true)
      decreases t, 1
    {
      match t {
        case Prim(tag) =>
          if tag.AnyRef? && v.ref.Some? {
            AdjustedOne(refs, v.ref.value, true);
            refs := Moved(refs, v.ref.value, true);
          }
        case Struct(_) => if v.block.Some? { DupMembers(t, v); }
        case Array(_) => if v.elements.Some? { DupElems(t, v); }
        case _ =>
      }
    }

    method DupMembers(t: FType, v: Native)
      requires t.Struct? && WellTyped(t, v) && v.block.Some?
      modifies this`refs
      ensures refs == Adjusted(old(refs), VisitedMembers(t, v, |t.members|), true)
      decreases t, 0
    {
      var i := 0;
      while i < |t.members|
        invariant 0 <= i <= |t.members|
        invariant refs == Adjusted(old(refs), VisitedMembers(t, v, i), true)
      {
        var mt, f := t.members[i].ftype, v.block.value[i];
        assert WellTyped(mt, f);
        AdjustedConcat(old(refs), VisitedMembers(t, v, i), VisitedMember(mt, f), true);
        if NeedFree(RealType(mt)) { DupFtValue(RealType(mt), f); }
        i := i + 1;
      }
    }

    method DupElems(t: FType, v: Native)
      requires t.Array? && WellTyped(t, v) && v.elements.Some?
      modifies this`refs
      ensures refs == Adjusted(old(refs), VisitedElems(t, v, |v.elements.value|), true)
      decreases t, 0
    {
      var i := 0;
      while i < |v.elements.value|
        invariant 0 <= i <= |v.elements.value|
        invariant refs == Adjusted(old(refs), VisitedElems(t, v, i), true)
      {
        AdjustedConcat(old(refs), VisitedElems(t, v, i), Visited(t.elem, v.elements.value[i]), true);
        assert VisitedElems(t, v, i + 1) == VisitedElems(t, v, i) + Visited(t.elem, v.elements.value[i]);
        DupFtValue(t.elem, v.elements.value[i]);
        i := i + 1;
      }
    }

    /** Releases one reference for every visited any-reference: a walk of its own, shown to visit
        what the other one visits. */
    method FreeFtValue(t: FType, v: Native)
      requires WellTyped(t, v)
      modifies this`refs
      ensures refs == Adjusted(old(refs), Visited(t, v), false)
      decreases t, 1
    {
      match t {
        case Prim(tag) =>
          if tag.AnyRef? && v.ref.Some? {
            AdjustedOne(refs, v.ref.value, false);
            refs := Moved(refs, v.ref.value, false);
          }
        case Struct(_) => if v.block.Some? { FreeMembers(t, v); }
        case Array(_) => if v.elements.Some? { FreeElems(t, v); }
        case _ =>
      }
    }

    method FreeMembers(t: FType, v: Native)
      requires t.Struct? && WellTyped(t, v) && v.block.Some?
      modifies this`refs
      ensures refs == Adjusted(old(refs), VisitedMembers(t, v, |t.members|), false)
      decreases t, 0
    {
      var i := 0;
      while i < |t.members|
        invariant 0 <= i <= |t.members|
        invariant refs == Adjusted(old(refs), VisitedMembers(t, v, i), false)
      {
        var mt, f := t.members[i].ftype, v.block.value[i];
        assert WellTyped(mt, f);
        AdjustedConcat(old(refs), VisitedMembers(t, v, i), VisitedMember(mt, f), false);
        if NeedFree(RealType(mt)) { FreeFtValue(RealType(mt), f); }
        i := i + 1;
      }
    }

    method FreeElems(t: FType, v: Native)
      requires t.Array? && WellTyped(t, v) && v.elements.Some?
      modifies this`refs
      ensures refs == Adjusted(old(refs), VisitedElems(t, v, |v.elements.value|), false)
      decreases t, 0
    {
      var i := 0;
      while i < |v.elements.value|
        invariant 0 <= i <= |v.elements.value|
        invariant refs == Adjusted(old(refs), VisitedElems(t, v, i), false)
      {
        AdjustedConcat(old(refs), VisitedElems(t, v, i), Visited(t.elem, v.elements.value[i]), false);
        assert VisitedElems(t, v, i + 1) == VisitedElems(t, v, i) + Visited(t.elem, v.elements.value[i]);
        FreeFtValue(t.elem, v.elements.value[i]);
        i := i + 1;
      }
    }

    /** Conservation: a call of the one followed by a call of the other leaves every engine count as
        it was, for every type and every value, also where neither reaches every reference. */
    method DupThenFree(t: FType, v: Native)
      requires WellTyped(t, v)
      modifies this`refs
      ensures forall h :: Count(refs, h) == Count(old(refs), h)
    {
      DupFtValue(t, v);
      FreeFtValue(t, v);
      forall h ensures Count(refs, h) == Count(old(refs), h) { UpAndDown(old(refs), Visited(t, v), h); }
    }

    /** One more owner of a live block; a dead one stays dead. */
    method DupBlock(b: nat)
      modifies this`blocks
      ensures blocks == if Count(old(blocks), b) == 0 then old(blocks) else Moved(old(blocks), b, true)
    {
      if Count(blocks, b) != 0 { blocks := Moved(blocks, b, true); }
    }

    /** One owner less; the last one gives the block back. */
    method FreeBlock(b: nat)
      modifies this`blocks, this`freed
      ensures blocks == Moved(old(blocks), b, false)
      ensures freed == if Count(old(blocks), b) > 1 then old(freed) else old(freed) + [b]
    {
      blocks := Moved(blocks, b, false);
      if Count(blocks, b) <= 0 { freed := freed + [b]; }
    }

    /** A permission request takes its arguments over: every live block gets one more owner, and every
        engine value below it one more reference. */
    method HoldArgs(args: seq<Argument>)
      requires ArgumentsOk(args) && AllLive(blocks, args)
      modifies this`refs, this`blocks
      ensures refs == Adjusted(old(refs), All(ValueParts(args)), true)
      ensures blocks == Adjusted(old(blocks), All(BlockParts(args)), true)
      ensures forall i :: 0 <= i < |args| && IsHeld(args[i]) ==>
        Count(blocks, args[i].block) > Count(old(blocks), args[i].block)
      ensures forall b :: (forall i :: 0 <= i < |args| && IsHeld(args[i]) ==> args[i].block != b) ==>
        Count(blocks, b) == Count(old(blocks), b)
    {
      HeldCounts(blocks, args);
      HoldEach(args);
    }

    /** The walk over the arguments. */
    method HoldEach(args: seq<Argument>)
      requires ArgumentsOk(args) && AllLive(blocks, args)
      modifies this`refs, this`blocks
      ensures refs == Adjusted(old(refs), All(ValueParts(args)), true)
      ensures blocks == Adjusted(old(blocks), All(BlockParts(args)), true)
    {
      for i := 0 to |args|
        invariant Walked(old(refs), old(blocks), refs, blocks, args, i, true)
      {
        ghost var refs', blocks' := refs, blocks;
        StillLive(old(refs), old(blocks), refs, blocks, args, i);
        HoldArg(args[i]);
        WalkedNext(old(refs), old(blocks), refs', blocks', refs, blocks, args, i, true);
      }
    }

    method HoldArg(a: Argument)
      requires WellTyped(a.ftype, a.value) && OwnersAtLeast(blocks, a, 1)
      modifies this`refs, this`blocks
      ensures refs == Adjusted(old(refs), HeldValues(a), true)
      ensures blocks == Adjusted(old(blocks), HeldBlocks(a), true)
    {
      if Holds(a) {
        AdjustedOne(blocks, a.block, true);
        DupBlock(a.block);
        DupFtValue(a.ftype, a.value);
      }
    }

    /** The request ends and gives everything back. As long as every block has an owner besides the
        request, none of them is freed here. */
    method ReleaseArgs(args: seq<Argument>)
      requires ArgumentsOk(args) && OwnedBesides(blocks, All(BlockParts(args)))
      modifies this`refs, this`blocks, this`freed
      ensures refs == Adjusted(old(refs), All(ValueParts(args)), false)
      ensures blocks == Adjusted(old(blocks), All(BlockParts(args)), false)
      ensures freed == old(freed)
    {
      for i := 0 to |args|
        invariant Walked(old(refs), old(blocks), refs, blocks, args, i, false)
        invariant freed == old(freed)
      {
        ghost var refs', blocks' := refs, blocks;
        StillOwned(old(refs), old(blocks), refs, blocks, args, i);
        ReleaseArg(args[i]);
        WalkedNext(old(refs), old(blocks), refs', blocks', refs, blocks, args, i, false);
      }
    }

    method ReleaseArg(a: Argument)
      requires WellTyped(a.ftype, a.value) && OwnersAtLeast(blocks, a, 2)
      modifies this`refs, this`blocks, this`freed
      ensures refs == Adjusted(old(refs), HeldValues(a), false)
      ensures blocks == Adjusted(old(blocks), HeldBlocks(a), false)
      ensures freed == old(freed)
    {
      if Holds(a) {
        AdjustedOne(blocks, a.block, false);
        FreeFtValue(a.ftype, a.value);
        FreeBlock(a.block);
      }
    }

    /** Holding and releasing the arguments of a request restores the count of every engine value and
        of every block, and gives no block back. */
    method HoldAndRelease(args: seq<Argument>)
      requires ArgumentsOk(args) && AllLive(blocks, args)
      modifies this`refs, this`blocks, this`freed
      ensures forall h :: Count(refs, h) == Count(old(refs), h)
      ensures forall b :: Count(blocks, b) == Count(old(blocks), b)
      ensures freed == old(freed)
    {
      HeldAreOwned(blocks, args);
      HoldArgs(args);
      ReleaseArgs(args);
      forall h ensures Count(refs, h) == Count(old(refs), h) { UpAndDown(old(refs), All(ValueParts(args)), h); }
      forall b ensures Count(blocks, b) == Count(old(blocks), b) { UpAndDown(old(blocks), All(BlockParts(args)), b); }
    }
  }
}
