/** The callback and event registries of a feature instance: what they hold of the engine, and the
    ids they hand out. Two JS functions are the same value when they have the same `rep`, so that
    sameness is an equivalence by construction. */
module Registries {
  import opened Options

  /** A function value; `order` is the position of the registration that brought it. */
  datatype Value = Value(rep: int, order: nat)

  class CallbackManager {
    var currCid: nat
    var callbacks: map<nat, Value>
    /** References held on the engine, by function. */
    var held: multiset<int>

    ghost predicate Registered(h: int)
      reads this
    {
      exists c :: c in callbacks && callbacks[c].rep == h
    }

    /** Ids are positive and were handed out; no function has two; and the engine references are
        exactly those of the live registrations. */
    ghost predicate Valid()
      reads this
    {
      && (forall c :: c in callbacks ==> 0 < c <= currCid)
      && (forall c, d :: c in callbacks && d in callbacks && callbacks[c].rep == callbacks[d].rep ==> c == d)
      && (forall h :: held[h] == if Registered(h) then 1 else 0)
    }

    constructor ()
      ensures Valid() && callbacks == map[] && currCid == 0
    {
      currCid, callbacks, held := 0, map[], multiset{};
    }

    /** The map is walked in the order of its keys. */
    method FindCallbackId(v: Value) returns (cid: nat)
      requires Valid()
      ensures cid == 0 <==> !Registered(v.rep)
      ensures cid != 0 ==> cid in callbacks && callbacks[cid].rep == v.rep
    {
      cid := 1;
      while cid <= currCid
        invariant forall c :: c in callbacks && c < cid ==> callbacks[c].rep != v.rep
      {
        if cid in callbacks && callbacks[cid].rep == v.rep { return; }
        cid := cid + 1;
      }
      cid := 0;
    }

    /** A function that is registered keeps its id; a new one gets an id larger than any before. */
    method AddCallback(v: Value) returns (cid: nat)
      requires Valid()
      modifies this
      ensures Valid() && cid in callbacks && callbacks[cid].rep == v.rep
      ensures if old(Registered(v.rep)) then callbacks == old(callbacks) && currCid == old(currCid)
              else cid == old(currCid) + 1 && currCid == cid && callbacks == old(callbacks)[cid := v]
    {
      cid := FindCallbackId(v);
      if cid > 0 { return; }
      ghost var was := callbacks;
      held := held + multiset{v.rep};
      currCid := currCid + 1;
      cid := currCid;
      callbacks := callbacks[cid := v];
      forall h ensures Registered(h) <==> h == v.rep || old(Registered(h)) {
        if old(Registered(h)) {
          var c :| c in was && was[c].rep == h;
          assert c in callbacks && callbacks[c].rep == h;
        }
        assert callbacks[cid].rep == v.rep;
      }
    }

    method EraseCallback(cid: int) returns (ok: bool)
      requires Valid()
      modifies this
      ensures Valid() && currCid == old(currCid)
      ensures ok <==> cid > 0 && cid in old(callbacks)
      ensures callbacks == if ok then old(callbacks) - {cid} else old(callbacks)
    {
      if cid <= 0 || cid !in callbacks { return false; }
      ghost var was := callbacks;
      var v := callbacks[cid];
      held := held - multiset{v.rep};
      callbacks := callbacks - {cid};
      forall h ensures Registered(h) <==> h != v.rep && old(Registered(h)) {
        if h != v.rep && old(Registered(h)) {
          var c :| c in was && was[c].rep == h;
          assert c in callbacks && callbacks[c].rep == h;
        }
      }
      ok := true;
    }

    /** Also the destructor: every reference goes back to the engine. */
    method ClearCallbacks()
      requires Valid()
      modifies this
      ensures Valid() && callbacks == map[] && held == multiset{} && currCid == old(currCid)
    {
      while callbacks.Keys != {}
        invariant Valid() && currCid == old(currCid)
        decreases callbacks.Keys
      {
        var c :| c in callbacks.Keys;
        var _ := EraseCallback(c);
      }
      forall h ensures held[h] == 0 { assert !Registered(h); }
    }
  }

  // ---------------------------------------------------------------- events

  datatype Change = Added(eid: int) | Removed(eid: int)

  /** ADDED minus REMOVED notifications for one event. */
  function Balance(log: seq<Change>, eid: int): int {
    if log == [] then 0
    else
      var last := log[|log| - 1];
      Balance(log[..|log| - 1], eid) + if last.eid != eid then 0 else if last.Added? then 1 else -1
  }

  lemma Notify(log: seq<Change>, c: Change)
    ensures forall e :: Balance(log + [c], e) == Balance(log, e) + if c.eid != e then 0 else if c.Added? then 1 else -1
  {
    assert (log + [c])[..|log + [c]| - 1] == log;
  }

  predicate Has(cbs: seq<Value>, h: int) {
    exists i :: 0 <= i < |cbs| && cbs[i].rep == h
  }

  /** No function twice, and in the order of registration. */
  ghost predicate Ordered(cbs: seq<Value>) {
    && (forall i, j :: 0 <= i < j < |cbs| ==> cbs[i].rep != cbs[j].rep)
    && (forall i, j :: 0 <= i < j < |cbs| ==> cbs[i].order < cbs[j].order)
  }

  ghost function Reps(cbs: seq<Value>): multiset<int> {
    if cbs == [] then multiset{} else Reps(cbs[..|cbs| - 1]) + multiset{cbs[|cbs| - 1].rep}
  }

  function Erased(cbs: seq<Value>, h: int): seq<Value> {
    if cbs == [] then []
    else
      var last := cbs[|cbs| - 1];
      if last.rep == h then Erased(cbs[..|cbs| - 1], h) else Erased(cbs[..|cbs| - 1], h) + [last]
  }

  lemma {:induction false} RepsCount(cbs: seq<Value>, h: int)
    requires Ordered(cbs)
    ensures Reps(cbs)[h] == if Has(cbs, h) then 1 else 0
    decreases |cbs|
  {
    if cbs != [] {
      var rest, last := cbs[..|cbs| - 1], cbs[|cbs| - 1];
      RepsCount(rest, h);
      if i :| 0 <= i < |rest| && rest[i].rep == h { assert cbs[i].rep == h; }
      if Has(cbs, h) && last.rep != h {
        var i :| 0 <= i < |cbs| && cbs[i].rep == h;
        assert rest[i].rep == h;
      }
      assert last.rep == h ==> cbs[|cbs| - 1].rep == h;
    }
  }

  lemma RepsNext(held: multiset<int>, list: seq<Value>, i: nat)
    requires i < |list|
    ensures held - Reps(list[..i]) - multiset{list[i].rep} == held - Reps(list[..i + 1])
  {
    assert list[..i + 1][..i] == list[..i];
    SubtractTwice(held, Reps(list[..i]), multiset{list[i].rep});
  }

  lemma SubtractTwice(a: multiset<int>, b: multiset<int>, c: multiset<int>)
    ensures a - b - c == a - (b + c)
  {
  }

  /** Erasing removes the function and nothing else. */
  lemma {:induction false} ErasedMembers(cbs: seq<Value>, h: int, v: Value)
    ensures v in Erased(cbs, h) <==> v in cbs && v.rep != h
    decreases |cbs|
  {
    if cbs != [] {
      assert cbs == cbs[..|cbs| - 1] + [cbs[|cbs| - 1]];
      ErasedMembers(cbs[..|cbs| - 1], h, v);
    }
  }

  /** Erasing keeps the order of the rest. */
  lemma {:induction false} ErasedOrdered(cbs: seq<Value>, h: int)
    requires Ordered(cbs)
    ensures Ordered(Erased(cbs, h))
    decreases |cbs|
  {
    if cbs != [] {
      var rest, last := cbs[..|cbs| - 1], cbs[|cbs| - 1];
      ErasedOrdered(rest, h);
      var e := Erased(rest, h);
      forall i | 0 <= i < |e| ensures e[i].rep != last.rep && e[i].order < last.order {
        ErasedMembers(rest, h, e[i]);
        var k :| 0 <= k < |rest| && rest[k] == e[i];
        assert cbs[k] == e[i];
      }
    }
  }

  /** The events that have `h` in their list. */
  ghost function Holders(events: map<nat, seq<Value>>, h: int): set<nat> {
    set e | e in events && Has(events[e], h)
  }

  ghost predicate ListsOk(events: map<nat, seq<Value>>, registrations: nat) {
    && (forall e :: e in events ==> e > 0 && Ordered(events[e]))
    && (forall e, i :: e in events && 0 <= i < |events[e]| ==> events[e][i].order < registrations)
  }

  /** A function is held once per event that lists it. */
  ghost predicate HeldOk(events: map<nat, seq<Value>>, held: multiset<int>) {
    forall h :: held[h] == |Holders(events, h)|
  }

  /** One more ADDED than REMOVED exactly for the ids in the map. */
  ghost predicate LogOk(events: map<nat, seq<Value>>, log: seq<Change>) {
    forall e :: Balance(log, e) == if e in events then 1 else 0
  }

  lemma LogStep(events: map<nat, seq<Value>>, after: map<nat, seq<Value>>, log: seq<Change>, c: Change)
    requires LogOk(events, log)
    requires forall e: nat :: (e as int != c.eid ==> (e in after <==> e in events))
    requires c.eid >= 0 && if c.Added? then c.eid !in events && c.eid in after else c.eid in events && c.eid !in after
    ensures LogOk(after, log + [c])
  {
    Notify(log, c);
  }

  lemma HasAppend(list: seq<Value>, v: Value, h: int)
    ensures Has(list + [v], h) <==> Has(list, h) || v.rep == h
  {
    if i :| 0 <= i < |list| && list[i].rep == h { assert (list + [v])[i].rep == h; }
    assert (list + [v])[|list|] == v;
  }

  lemma HasErased(list: seq<Value>, rep: int, h: int)
    ensures Has(Erased(list, rep), h) <==> Has(list, h) && h != rep
  {
    var e := Erased(list, rep);
    if i :| 0 <= i < |e| && e[i].rep == h { ErasedMembers(list, rep, e[i]); }
    if Has(list, h) && h != rep {
      var i :| 0 <= i < |list| && list[i].rep == h;
      ErasedMembers(list, rep, list[i]);
    }
  }

  /** Replacing one list moves one event in or out of the holders of a function. */
  lemma HoldersReplace(events: map<nat, seq<Value>>, eid: nat, list: seq<Value>, h: int)
    ensures Holders(events[eid := list], h) == Holders(events, h) - {eid} + if Has(list, h) then {eid} else {}
    ensures eid in Holders(events, h) <==> eid in events && Has(events[eid], h)
  {
  }

  lemma HoldersAppend(events: map<nat, seq<Value>>, eid: nat, v: Value, h: int)
    requires eid in events && !Has(events[eid], v.rep)
    ensures var after := events[eid := events[eid] + [v]];
      |Holders(after, h)| == |Holders(events, h)| + if h == v.rep then 1 else 0
  {
    HasAppend(events[eid], v, h);
    HoldersReplace(events, eid, events[eid] + [v], h);
    if h != v.rep { assert Holders(events[eid := events[eid] + [v]], h) == Holders(events, h); }
  }

  lemma HeldAppend(events: map<nat, seq<Value>>, held: multiset<int>, eid: nat, v: Value)
    requires HeldOk(events, held) && eid in events && !Has(events[eid], v.rep)
    ensures HeldOk(events[eid := events[eid] + [v]], held + multiset{v.rep})
  {
    forall h ensures (held + multiset{v.rep})[h] == |Holders(events[eid := events[eid] + [v]], h)| {
      HoldersAppend(events, eid, v, h);
    }
  }

  lemma HoldersErase(events: map<nat, seq<Value>>, eid: nat, rep: int, h: int)
    requires eid in events
    ensures var after := events[eid := Erased(events[eid], rep)];
      |Holders(after, h)| == |Holders(events, h)| - if h == rep && Has(events[eid], rep) then 1 else 0
  {
    var after := events[eid := Erased(events[eid], rep)];
    HasErased(events[eid], rep, h);
    HoldersReplace(events, eid, Erased(events[eid], rep), h);
    if h == rep {
      assert Holders(after, h) == Holders(events, h) - {eid};
    } else {
      assert Holders(after, h) == Holders(events, h);
    }
  }

  lemma HeldErase(events: map<nat, seq<Value>>, held: multiset<int>, eid: nat, rep: int)
    requires HeldOk(events, held) && eid in events && Ordered(events[eid])
    ensures HeldOk(events[eid := Erased(events[eid], rep)],
                   if Has(events[eid], rep) then held - multiset{rep} else held)
  {
    var rest := if Has(events[eid], rep) then held - multiset{rep} else held;
    forall h ensures rest[h] == |Holders(events[eid := Erased(events[eid], rep)], h)| {
      HoldersErase(events, eid, rep, h);
    }
  }

  lemma HeldRelease(events: map<nat, seq<Value>>, held: multiset<int>, eid: nat)
    requires HeldOk(events, held) && eid in events && Ordered(events[eid])
    ensures HeldOk(events[eid := []], held - Reps(events[eid]))
  {
    var after := events[eid := []];
    forall h ensures (held - Reps(events[eid]))[h] == |Holders(after, h)| {
      RepsCount(events[eid], h);
      HoldersReplace(events, eid, [], h);
      assert Holders(after, h) == Holders(events, h) - {eid};
    }
  }

  lemma HeldSame(events: map<nat, seq<Value>>, after: map<nat, seq<Value>>, held: multiset<int>)
    requires HeldOk(events, held)
    requires forall e :: e in events && events[e] != [] ==> e in after && after[e] == events[e]
    requires forall e :: e in after && after[e] != [] ==> e in events && after[e] == events[e]
    ensures HeldOk(after, held)
  {
    forall h ensures Holders(after, h) == Holders(events, h) {
      forall e ensures e in Holders(after, h) <==> e in Holders(events, h) { }
    }
  }

  lemma ListsSet(events: map<nat, seq<Value>>, registrations: nat, eid: nat, list: seq<Value>)
    requires ListsOk(events, registrations) && eid > 0 && Ordered(list)
    requires forall i :: 0 <= i < |list| ==> list[i].order < registrations
    ensures ListsOk(events[eid := list], registrations)
  {
  }

  lemma ListsAppend(events: map<nat, seq<Value>>, registrations: nat, eid: nat, rep: int)
    requires ListsOk(events, registrations) && eid in events && !Has(events[eid], rep)
    ensures ListsOk(events[eid := events[eid] + [Value(rep, registrations)]], registrations + 1)
  {
    var list := events[eid];
    var longer := list + [Value(rep, registrations)];
    forall i | 0 <= i < |list| ensures list[i].rep != rep && list[i].order < registrations { }
    assert Ordered(longer);
  }

  // ---------------------------------------------------------------- the ledger

  /** Lists are duplicate-free and in registration order, the engine references are those of the
      lists, and the listener's account agrees with the map. */
  ghost predicate Ledger(events: map<nat, seq<Value>>, registrations: nat, held: multiset<int>, log: seq<Change>) {
    ListsOk(events, registrations) && HeldOk(events, held) && LogOk(events, log)
  }

  lemma EventEnsured(events: map<nat, seq<Value>>, registrations: nat, held: multiset<int>, log: seq<Change>, eid: nat)
    requires Ledger(events, registrations, held, log) && eid > 0 && eid !in events
    ensures Ledger(events[eid := []], registrations, held, log + [Added(eid)])
  {
    HeldSame(events, events[eid := []], held);
    ListsSet(events, registrations, eid, []);
    LogStep(events, events[eid := []], log, Added(eid));
  }

  lemma EventAppended(events: map<nat, seq<Value>>, registrations: nat, held: multiset<int>, log: seq<Change>,
                      eid: nat, rep: int)
    requires Ledger(events, registrations, held, log) && eid in events && !Has(events[eid], rep)
    ensures Ledger(events[eid := events[eid] + [Value(rep, registrations)]], registrations + 1,
                   held + multiset{rep}, log)
  {
    HeldAppend(events, held, eid, Value(rep, registrations));
    ListsAppend(events, registrations, eid, rep);
  }

  function HeldWithout(held: multiset<int>, list: seq<Value>, rep: int): multiset<int> {
    if Has(list, rep) then held - multiset{rep} else held
  }

  lemma EventErased(events: map<nat, seq<Value>>, registrations: nat, held: multiset<int>, log: seq<Change>,
                    eid: nat, rep: int)
    requires Ledger(events, registrations, held, log) && eid in events
    ensures Ledger(events[eid := Erased(events[eid], rep)], registrations, HeldWithout(held, events[eid], rep), log)
  {
    var list := events[eid];
    ErasedOrdered(list, rep);
    forall i | 0 <= i < |Erased(list, rep)| ensures Erased(list, rep)[i].order < registrations {
      ErasedMembers(list, rep, Erased(list, rep)[i]);
    }
    ListsSet(events, registrations, eid, Erased(list, rep));
    HeldErase(events, held, eid, rep);
  }

  lemma EventReleased(events: map<nat, seq<Value>>, registrations: nat, held: multiset<int>, log: seq<Change>, eid: nat)
    requires Ledger(events, registrations, held, log) && eid in events
    ensures Ledger(events[eid := []], registrations, held - Reps(events[eid]), log)
  {
    HeldRelease(events, held, eid);
    ListsSet(events, registrations, eid, []);
  }

  lemma EventForgotten(events: map<nat, seq<Value>>, registrations: nat, held: multiset<int>, log: seq<Change>,
                       eid: nat)
    requires Ledger(events, registrations, held, log) && eid in events && events[eid] == []
    ensures Ledger(events - {eid}, registrations, held, log + [Removed(eid)])
  {
    HeldSame(events, events - {eid}, held);
    LogStep(events, events - {eid}, log, Removed(eid));
  }

  /** The list of an event, empty when it has no entry. */
  function Listing(events: map<nat, seq<Value>>, eid: nat): seq<Value> {
    if eid in events then events[eid] else []
  }

  /** The list with the function once in it, behind those that were there before. */
  function Appended(list: seq<Value>, rep: int, order: nat): seq<Value> {
    if Has(list, rep) then list else list + [Value(rep, order)]
  }

  /** The list keeps what was there, in front and in order, and has the function, once more than before
      exactly if it was not there. */
  lemma AppendedExactly(list: seq<Value>, rep: int, order: nat)
    ensures var a := Appended(list, rep, order);
      && list <= a && (exists i :: 0 <= i < |a| && a[i].rep == rep)
      && |a| == |list| + (if exists i :: 0 <= i < |list| && list[i].rep == rep then 0 else 1)
      && forall i :: |list| <= i < |a| ==> a[i] == Value(rep, order)
  {
    var a := Appended(list, rep, order);
    if !Has(list, rep) { assert a[|list|].rep == rep; }
  }

  /** Adding a new function and erasing it again gives the old list back. */
  lemma AddedThenErased(list: seq<Value>, rep: int, order: nat)
    requires !Has(list, rep)
    ensures Erased(Appended(list, rep, order), rep) == list
  {
    var a := Appended(list, rep, order);
    assert a == list + [Value(rep, order)] && a[..|a| - 1] == list;
    ErasedNothing(list, rep);
  }

  lemma {:induction false} ErasedNothing(list: seq<Value>, rep: int)
    requires !Has(list, rep)
    ensures Erased(list, rep) == list
    decreases |list|
  {
    if list != [] {
      var rest, last := list[..|list| - 1], list[|list| - 1];
      assert list == rest + [last];
      forall i | 0 <= i < |rest| ensures rest[i].rep != rep { assert rest[i] == list[i]; }
      ErasedNothing(rest, rep);
    }
  }

  lemma Overwritten(events: map<nat, seq<Value>>, eid: nat, first: seq<Value>, second: seq<Value>)
    ensures events[eid := first][eid := second] == events[eid := second]
    ensures Listing(events[eid := first], eid) == first
  {
  }

  /** Descriptors of different events have different, positive ids. */
  ghost predicate DistinctIds(idOf: nat -> nat) {
    (forall a :: idOf(a) > 0) && forall a, b :: idOf(a) == idOf(b) ==> a == b
  }

  /** Every entry knows the descriptor it was made for. */
  ghost predicate OwnersOk(idOf: nat -> nat, events: map<nat, seq<Value>>, owner: map<nat, nat>) {
    owner.Keys == events.Keys && forall e :: e in owner ==> idOf(owner[e]) == e
  }

  class EventManager {
    /** The id in the descriptor at an address. */
    const idOf: nat -> nat
    /** Callback lists by event id, and the descriptor each was made for. */
    var events: map<nat, seq<Value>>
    var owner: map<nat, nat>
    /** References held on the engine, by function. */
    var held: multiset<int>
    /** What the change listener, installed from the start, was told. */
    var log: seq<Change>
    var registrations: nat

    ghost predicate Valid()
      reads this
    {
      Ledger(events, registrations, held, log) && DistinctIds(idOf) && OwnersOk(idOf, events, owner)
    }

    constructor (idOf: nat -> nat)
      requires DistinctIds(idOf)
      ensures Valid() && events == map[] && held == multiset{} && this.idOf == idOf
    {
      this.idOf := idOf;
      events, owner, held, log, registrations := map[], map[], multiset{}, [], 0;
      new;
      assert forall h :: Holders(events, h) == {};
    }

    /** The entries are compared with the descriptor one by one; a null descriptor is not found. */
    method FindEventId(event: Option<nat>) returns (eid: nat)
      requires Valid()
      ensures eid == if event.Some? && idOf(event.value) in events then idOf(event.value) else 0
    {
      if event.None? { return 0; }
      var todo := owner.Keys;
      while todo != {}
        invariant todo <= owner.Keys
        invariant forall e :: e in owner && e !in todo ==> owner[e] != event.value
        decreases todo
      {
        eid :| eid in todo;
        if owner[eid] == event.value { return; }
        todo := todo - {eid};
      }
      eid := 0;
    }

    /** A new event gets an empty list, and the listener hears of it. */
    method NewEvent(event: nat)
      requires Valid() && idOf(event) !in events
      modifies this`events, this`owner, this`log
      ensures Valid() && events == old(events)[idOf(event) := []]
      ensures log == old(log) + [Added(idOf(event))]
    {
      var eid := idOf(event);
      EventEnsured(events, registrations, held, log, eid);
      events := events[eid := []];
      owner := owner[eid := event];
      log := log + [Added(eid)];
    }

    /** The entry of the event, made if need be. */
    method EnsureEvent(event: nat) returns (eid: nat)
      requires Valid()
      modifies this`events, this`owner, this`log
      ensures Valid() && eid == idOf(event) && eid in events
      ensures events == old(events)[eid := Listing(old(events), eid)]
      ensures log == if eid in old(events) then old(log) else old(log) + [Added(eid)]
    {
      eid := FindEventId(Some(event));
      if eid <= 0 {
        NewEvent(event);
        eid := idOf(event);
      }
    }

    /** The function ends up once in the list of the event, behind those registered before; a new event
        is announced once. The id of the event is returned. */
    method AddEventCallback(event: nat, rep: int) returns (eid: nat)
      requires Valid()
      modifies this
      ensures Valid() && eid == idOf(event) && eid in events
      ensures exists i :: 0 <= i < |events[eid]| && events[eid][i].rep == rep
      ensures Listing(old(events), eid) <= events[eid]
      ensures |events[eid]| == |Listing(old(events), eid)| +
        if exists i :: 0 <= i < |Listing(old(events), eid)| && Listing(old(events), eid)[i].rep == rep then 0 else 1
      ensures forall e :: e != eid ==>
        (e in events <==> e in old(events)) && Listing(events, e) == Listing(old(events), e)
      ensures forall i :: 0 <= i < |events[eid]| && i >= |Listing(old(events), eid)| ==> events[eid][i].rep == rep
      ensures held == if |events[eid]| == |Listing(old(events), eid)| then old(held) else old(held) + multiset{rep}
      ensures log == if eid in old(events) then old(log) else old(log) + [Added(eid)]
    {
      eid := EnsureEvent(event);
      ghost var was, list := old(events), Listing(old(events), eid);
      Overwritten(was, eid, list, Appended(list, rep, registrations));
      AppendedExactly(list, rep, registrations);
      AppendNew(eid, rep);
    }

    method AppendNew(eid: nat, rep: int)
      requires Valid() && eid in events
      modifies this`held, this`events, this`registrations
      ensures Valid()
      ensures events == old(events)[eid := Appended(Listing(old(events), eid), rep, old(registrations))]
      ensures held == if Has(old(events)[eid], rep) then old(held) else old(held) + multiset{rep}
    {
      if !Has(events[eid], rep) { Append(eid, rep); }
    }

    method Append(eid: nat, rep: int)
      requires Valid() && eid in events && !Has(events[eid], rep)
      modifies this`held, this`events, this`registrations
      ensures Valid() && held == old(held) + multiset{rep}
      ensures events == old(events)[eid := old(events)[eid] + [Value(rep, old(registrations))]]
    {
      EventAppended(events, registrations, held, log, eid, rep);
      held := held + multiset{rep};
      events := events[eid := events[eid] + [Value(rep, registrations)]];
      registrations := registrations + 1;
    }

    method EraseEventCallback(event: Option<nat>, rep: int)
      requires Valid()
      modifies this
      ensures Valid() && log == old(log)
      ensures events == if event.Some? && idOf(event.value) in old(events)
                        then old(events)[idOf(event.value) := Erased(old(events)[idOf(event.value)], rep)]
                        else old(events)
    {
      var eid := FindEventId(event);
      if eid > 0 { Erase(eid, rep); }
    }

    method Erase(eid: nat, rep: int)
      requires Valid() && eid in events
      modifies this`held, this`events
      ensures Valid() && events == old(events)[eid := Erased(old(events)[eid], rep)]
    {
      EventErased(events, registrations, held, log, eid, rep);
      held := HeldWithout(held, events[eid], rep);
      events := events[eid := Erased(events[eid], rep)];
    }

    method ReleaseRefs(list: seq<Value>)
      modifies this`held
      ensures held == old(held) - Reps(list)
    {
      var i := 0;
      while i < |list|
        invariant 0 <= i <= |list|
        invariant held == old(held) - Reps(list[..i])
      {
        RepsNext(old(held), list, i);
        held := held - multiset{list[i].rep};
        i := i + 1;
      }
      assert list[..i] == list;
    }

    /** Gives back the references of a list and empties it. */
    method Release(eid: nat)
      requires Valid() && eid in events
      modifies this`held, this`events
      ensures Valid() && events == old(events)[eid := []]
    {
      EventReleased(events, registrations, held, log, eid);
      ReleaseRefs(events[eid]);
      events := events[eid := []];
    }

    method Forget(eid: nat)
      requires Valid() && eid in events && events[eid] == []
      modifies this`log, this`events, this`owner
      ensures Valid() && events == old(events) - {eid} && log == old(log) + [Removed(eid)]
    {
      EventForgotten(events, registrations, held, log, eid);
      log := log + [Removed(eid)];
      events := events - {eid};
      owner := owner - {eid};
    }

    /** Empties a list, and on request forgets the event as well. */
    method RemoveEventCallbacks(eid: int, keepId: bool) returns (ok: bool)
      requires Valid()
      modifies this
      ensures Valid()
      ensures ok <==> eid in old(events)
      ensures events == if !ok then old(events) else if keepId then old(events)[eid := []] else old(events) - {eid}
      ensures log == if ok && !keepId then old(log) + [Removed(eid)] else old(log)
    {
      if eid <= 0 || eid !in events { return false; }
      ghost var was := events;
      Release(eid);
      if !keepId {
        Forget(eid);
        assert was[eid := []] - {eid as nat} == was - {eid as nat};
      }
      ok := true;
    }

    /** Also the destructor: nothing is held and every ADDED has its REMOVED. */
    method ClearAllEvents()
      requires Valid()
      modifies this
      ensures Valid() && events == map[] && held == multiset{}
    {
      while events.Keys != {}
        invariant Valid()
        decreases events.Keys
      {
        var e :| e in events.Keys;
        var _ := RemoveEventCallbacks(e, false);
      }
      forall h ensures held[h] == 0 { assert Holders(events, h) == {}; }
    }
  }
}
