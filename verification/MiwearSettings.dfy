/** The settings object, whose loop-thread operations are interrupted by the service thread wherever no
    mutex is held. What the other thread tries to do in the meantime is a parameter; of that, what is
    possible at the time happens. The object carries its history, which is a run of `SystemSettings`. */
module MiwearSettingsObjects {
  import opened SystemSettings

  class MiwearSettings {
    var requestSet: map<Id, Handle>
    var subSet: map<Id, Subscription>
    var msgQueue: seq<Message>
    var wake: bool

    // Where the two threads are.
    var worker: Worker
    var loop: Loop

    // What the service has accepted, and what the outside has seen.
    var accepted: map<Id, Handle>
    var registered: set<Id>
    var nextId: nat
    var cloned: nat
    var freed: seq<Message>
    var calls: seq<Call>
    var notices: seq<Notice>
    var detached: set<Handle>

    /** Everything that has happened to the object, on either thread. */
    ghost var trace: seq<Event>

    ghost function View(): State
      reads this
    {
      State(requestSet, subSet, msgQueue, wake, worker, loop, accepted, registered, nextId, cloned, freed, calls,
            notices, detached)
    }

    ghost predicate Valid()
      reads this
    {
      Run(trace) && View() == After(trace)
    }

    constructor ()
      ensures Valid() && trace == []
    {
      requestSet, subSet, msgQueue, wake, worker, loop := map[], map[], [], false, Resting, Idle;
      accepted, registered, nextId, cloned, freed, calls, notices, detached := map[], {}, 0, 0, [], [], [], {};
      trace := [];
    }

    // -------------------------------------------------------------- the service thread

    /** The callback of the service clones the reply. */
    method OnReply(id: Id)
      requires Valid() && Possible(View(), Reply(id))
      modifies this`worker, this`cloned, this`trace
      ensures Valid() && trace == old(trace) + [Reply(id)]
    {
      Extend(trace, Reply(id));
      worker := Cloned(Message(cloned, id));
      cloned := cloned + 1;
      trace := trace + [Reply(id)];
    }

    /** Under the mutex the clone is queued and the loop is woken. */
    method ProcessMessageAsync()
      requires Valid() && worker.Cloned?
      modifies this`msgQueue, this`wake, this`worker, this`trace
      ensures Valid() && trace == old(trace) + [Enqueue] && msgQueue == old(msgQueue) + [old(worker).msg]
    {
      Extend(trace, Enqueue);
      msgQueue := msgQueue + [worker.msg];
      wake, worker := true, Resting;
      trace := trace + [Enqueue];
    }

    /** What the other thread does while the loop thread holds no mutex: it may only clone and queue. */
    method OtherThread(attempts: seq<Event>)
      requires Valid()
      modifies this`msgQueue, this`wake, this`worker, this`cloned, this`trace
      ensures Valid() && old(trace) <= trace && old(msgQueue) <= msgQueue
    {
      for i := 0 to |attempts|
        invariant Valid() && old(trace) <= trace && old(msgQueue) <= msgQueue
      {
        var e := attempts[i];
        if e.Reply? && worker.Resting? && (e.id in accepted || e.id in registered) {
          OnReply(e.id);
        } else if e.Enqueue? && worker.Cloned? {
          ProcessMessageAsync();
        }
      }
    }

    // -------------------------------------------------------------- requests

    /** A get or set request: accepted by the service first and inserted afterwards. Whatever the
        service does in between, even replying, the request ends up listed and not yet called. */
    method RequestProp(handle: Handle, ok: bool, meanwhile: seq<Event>) returns (id: Id)
      requires Valid() && loop.Idle? && handle !in detached
      modifies this
      ensures Valid() && loop.Idle? && old(trace) <= trace
      ensures requestSet == if ok then old(requestSet)[id := handle] else old(requestSet)
      ensures ok ==> id !in old(requestSet) && !Called(calls, id)
      ensures subSet == old(subSet) && calls == old(calls) && freed == old(freed) && notices == old(notices)
    {
      FreshId(trace);
      id := nextId;
      Begin(handle, ok);
      if ok {
        OtherThread(meanwhile);
        Insert();
      }
    }

    method Begin(handle: Handle, ok: bool)
      requires Valid() && loop.Idle? && handle !in detached
      modifies this`nextId, this`accepted, this`loop, this`trace
      ensures Valid() && trace == old(trace) + [BeginRequest(handle, ok)]
      ensures loop == if ok then InsertingRequest(old(nextId), handle) else Idle
    {
      Extend(trace, BeginRequest(handle, ok));
      Issue(handle, ok);
      trace := trace + [BeginRequest(handle, ok)];
    }

    method Issue(handle: Handle, ok: bool)
      requires loop.Idle? && handle !in detached
      modifies this`nextId, this`accepted, this`loop
      ensures View() == Act(old(View()), BeginRequest(handle, ok))
      ensures loop == if ok then InsertingRequest(old(nextId), handle) else Idle
    {
      if ok {
        accepted := accepted[nextId := handle];
        loop := InsertingRequest(nextId, handle);
      }
      nextId := nextId + 1;
    }

    method Insert()
      requires Valid() && loop.InsertingRequest?
      modifies this`requestSet, this`loop, this`trace
      ensures Valid() && trace == old(trace) + [InsertRequest] && loop.Idle?
      ensures requestSet == old(requestSet)[old(loop).id := old(loop).handle] && !Called(calls, old(loop).id)
    {
      RunKeeps(trace);
      assert CallsOk(View());
      Extend(trace, InsertRequest);
      requestSet := requestSet[loop.id := loop.handle];
      loop := Idle;
      trace := trace + [InsertRequest];
    }

    // -------------------------------------------------------------- subscriptions

    /** Looks for a subscription of the page to the key; there is at most one to find. */
    method FindSubscription(key: string, handle: Handle) returns (found: bool, id: Id)
      ensures found <==> Has(subSet, key, handle)
      ensures found ==> id in subSet && subSet[id].key == key && subSet[id].handle == handle
    {
      var todo := subSet.Keys;
      found, id := false, 0;
      while todo != {}
        invariant todo <= subSet.Keys
        invariant forall i :: i in subSet && i !in todo ==> !(subSet[i].key == key && subSet[i].handle == handle)
        decreases todo
      {
        var i :| i in todo;
        if subSet[i].key == key && subSet[i].handle == handle { return true, i; }
        todo := todo - {i};
      }
    }

    /** A second subscription of a page to the same key replaces the callback of the first; otherwise
        an accepted one is inserted. In either case the page holds one for the key afterwards. */
    method SubscribeProp(key: string, handle: Handle, cid: int, ok: bool, meanwhile: seq<Event>)
      requires Valid() && loop.Idle? && handle !in detached
      modifies this
      ensures Valid() && loop.Idle? && old(trace) <= trace && OnePerKey(subSet)
      ensures Has(old(subSet), key, handle) || ok ==>
        exists i :: i in subSet && subSet[i] == Subscription(key, handle, cid)
      ensures !Has(old(subSet), key, handle) && !ok ==> subSet == old(subSet)
      ensures forall i :: i in old(subSet) ==>
        i in subSet && subSet[i] ==
          if old(subSet)[i].key == key && old(subSet)[i].handle == handle then Subscription(key, handle, cid)
          else old(subSet)[i]
      ensures Has(old(subSet), key, handle) ==> subSet.Keys == old(subSet).Keys
      ensures requestSet == old(requestSet) && calls == old(calls) && freed == old(freed) && notices == old(notices)
    {
      var found, at := FindSubscription(key, handle);
      if found {
        KeysOnce(trace);
        Replace(at, cid);
        assert subSet[at] == Subscription(key, handle, cid);
        assert subSet.Keys == old(subSet).Keys;
      } else {
        SubscribeNew(key, handle, cid, ok, meanwhile);
        assert ok ==> subSet[old(nextId)] == Subscription(key, handle, cid);
      }
      KeysOnce(trace);
    }

    method SubscribeNew(key: string, handle: Handle, cid: int, ok: bool, meanwhile: seq<Event>)
      requires Valid() && loop.Idle? && handle !in detached && !Has(subSet, key, handle)
      modifies this`nextId, this`registered, this`loop, this`trace, this`subSet, this`msgQueue, this`wake,
               this`worker, this`cloned
      ensures Valid() && loop.Idle? && old(trace) <= trace && old(nextId) !in old(subSet)
      ensures subSet == if ok then old(subSet)[old(nextId) := Subscription(key, handle, cid)] else old(subSet)
    {
      FreshId(trace);
      BeginSub(key, handle, cid, ok);
      if ok {
        OtherThread(meanwhile);
        InsertSub();
      }
    }

    method Replace(at: Id, cid: int)
      requires Valid() && loop.Idle? && at in subSet && subSet[at].handle !in detached
      modifies this`subSet, this`trace
      ensures Valid() && old(trace) <= trace && subSet == old(subSet)[at := old(subSet)[at].(cid := cid)]
    {
      var key, handle := subSet[at].key, subSet[at].handle;
      ghost var e := BeginSubscribe(key, handle, cid, true);
      KeysOnce(trace);
      Replaced(View(), at, cid);
      Extend(trace, e);
      subSet := subSet[at := Subscription(key, handle, cid)];
      trace := trace + [e];
    }

    method BeginSub(key: string, handle: Handle, cid: int, ok: bool)
      requires Valid() && loop.Idle? && handle !in detached && !Has(subSet, key, handle)
      modifies this`nextId, this`registered, this`loop, this`trace
      ensures Valid() && trace == old(trace) + [BeginSubscribe(key, handle, cid, ok)]
      ensures loop == if ok then InsertingSubscription(old(nextId), Subscription(key, handle, cid)) else Idle
    {
      Extend(trace, BeginSubscribe(key, handle, cid, ok));
      IssueSub(key, handle, cid, ok);
      trace := trace + [BeginSubscribe(key, handle, cid, ok)];
    }

    method IssueSub(key: string, handle: Handle, cid: int, ok: bool)
      requires loop.Idle? && handle !in detached && !Has(subSet, key, handle)
      modifies this`nextId, this`registered, this`loop
      ensures View() == Act(old(View()), BeginSubscribe(key, handle, cid, ok))
      ensures loop == if ok then InsertingSubscription(old(nextId), Subscription(key, handle, cid)) else Idle
    {
      if ok {
        registered := registered + {nextId};
        loop := InsertingSubscription(nextId, Subscription(key, handle, cid));
      }
      nextId := nextId + 1;
    }

    method InsertSub()
      requires Valid() && loop.InsertingSubscription?
      modifies this`subSet, this`loop, this`trace
      ensures Valid() && trace == old(trace) + [InsertSubscription] && loop.Idle?
      ensures subSet == old(subSet)[old(loop).id := old(loop).sub]
    {
      Extend(trace, InsertSubscription);
      subSet := subSet[loop.id := loop.sub];
      loop := Idle;
      trace := trace + [InsertSubscription];
    }

    /** Erases the subscription of the page to the key, once the service has agreed. */
    method UnsubscribeProp(key: string, handle: Handle, ok: bool)
      requires Valid() && loop.Idle? && handle !in detached
      modifies this`subSet, this`trace
      ensures Valid() && trace == old(trace) + [Unsubscribe(key, handle, ok)]
      ensures if ok then !Has(subSet, key, handle) else subSet == old(subSet)
      ensures forall i :: i in old(subSet) && !(old(subSet)[i].key == key && old(subSet)[i].handle == handle) ==>
        i in subSet && subSet[i] == old(subSet)[i]
    {
      Extend(trace, Unsubscribe(key, handle, ok));
      if ok { EraseSubs(key, handle); }
      trace := trace + [Unsubscribe(key, handle, ok)];
    }

    method EraseSubs(key: string, handle: Handle)
      modifies this`subSet
      ensures subSet ==
        map i | i in old(subSet) && !(old(subSet)[i].key == key && old(subSet)[i].handle == handle) :: old(subSet)[i]
    {
      ghost var was := subSet;
      var todo := subSet.Keys;
      while todo != {}
        invariant todo <= subSet.Keys <= was.Keys
        invariant forall i :: i in subSet ==>
          subSet[i] == was[i] && (i in todo || !(subSet[i].key == key && subSet[i].handle == handle))
        invariant forall i :: i in was && !(was[i].key == key && was[i].handle == handle) ==> i in subSet
        decreases todo
      {
        var id :| id in todo;
        todo := todo - {id};
        if subSet[id].key == key && subSet[id].handle == handle { subSet := subSet - {id}; }
      }
    }

    // -------------------------------------------------------------- detaching

    /** A page goes with everything of its own, and only with that. */
    method Detach(handle: Handle)
      requires Valid() && loop.Idle?
      modifies this`requestSet, this`subSet, this`detached, this`trace
      ensures Valid() && trace == old(trace) + [Event.Detach(handle)]
      ensures forall i :: i in requestSet <==> i in old(requestSet) && old(requestSet)[i] != handle
      ensures forall i :: i in requestSet ==> requestSet[i] == old(requestSet)[i]
      ensures forall i :: i in subSet <==> i in old(subSet) && old(subSet)[i].handle != handle
      ensures forall i :: i in subSet ==> subSet[i] == old(subSet)[i]
    {
      Extend(trace, Event.Detach(handle));
      Leave(handle);
      trace := trace + [Event.Detach(handle)];
    }

    method Leave(handle: Handle)
      modifies this`requestSet, this`subSet, this`detached
      ensures View() == DetachStep(old(View()), handle)
    {
      DetachRequests(handle);
      DetachSubscriptions(handle);
      detached := detached + {handle};
    }

    method DetachRequests(handle: Handle)
      modifies this`requestSet
      ensures requestSet == map i | i in old(requestSet) && old(requestSet)[i] != handle :: old(requestSet)[i]
    {
      ghost var was := requestSet;
      var todo := requestSet.Keys;
      while todo != {}
        invariant todo <= requestSet.Keys <= was.Keys
        invariant forall i :: i in requestSet ==> requestSet[i] == was[i] && (i in todo || requestSet[i] != handle)
        invariant forall i :: i in was && was[i] != handle ==> i in requestSet
        decreases todo
      {
        var id :| id in todo;
        todo := todo - {id};
        if requestSet[id] == handle { requestSet := requestSet - {id}; }
      }
    }

    method DetachSubscriptions(handle: Handle)
      modifies this`subSet
      ensures subSet == map i | i in old(subSet) && old(subSet)[i].handle != handle :: old(subSet)[i]
    {
      ghost var was := subSet;
      var todo := subSet.Keys;
      while todo != {}
        invariant todo <= subSet.Keys <= was.Keys
        invariant forall i :: i in subSet ==> subSet[i] == was[i] && (i in todo || subSet[i].handle != handle)
        invariant forall i :: i in was && was[i].handle != handle ==> i in subSet
        decreases todo
      {
        var id :| id in todo;
        todo := todo - {id};
        if subSet[id].handle == handle { subSet := subSet - {id}; }
      }
    }

    // -------------------------------------------------------------- the drain

    /** The async callback. The queue is moved out under the mutex and worked through without it, while
        the other thread goes on queueing: everything that was queued by then is freed in order, and
        every reply among it has reached its request, unless the page has gone. */
    method ProcessMessages(schedule: nat -> seq<Event>)
      requires Valid() && loop.Idle? && wake
      modifies this
      ensures Valid() && loop.Idle? && old(trace) <= trace
      ensures exists taken :: old(msgQueue) <= taken && freed == old(freed) + taken
      ensures NothingLost(View())
    {
      WakeUp();
      OtherThread(schedule(0));
      var batch := TakeBatch();
      WorkThrough(batch, schedule);
      assert freed == old(freed) + batch;
      Delivered(trace);
    }

    method WorkThrough(batch: seq<Message>, schedule: nat -> seq<Event>)
      requires Valid() && loop == Drained(batch)
      modifies this
      ensures Valid() && loop.Idle? && old(trace) <= trace && freed == old(freed) + batch
    {
      var i := 0;
      assert batch[0..] == batch && old(freed) + batch[..0] == old(freed);
      while i < |batch|
        invariant 0 <= i <= |batch| && Valid() && old(trace) <= trace
        invariant loop == Drained(batch[i..]) && freed == old(freed) + batch[..i]
      {
        Process();
        NextOfBatch(old(freed), batch, i);
        i := i + 1;
        OtherThread(schedule(i));
      }
      assert batch[..i] == batch;
    }

    method WakeUp()
      requires Valid() && loop.Idle? && wake
      modifies this`wake, this`loop, this`trace
      ensures Valid() && trace == old(trace) + [Wake] && loop.Woken?
    {
      Extend(trace, Wake);
      wake, loop := false, Woken;
      trace := trace + [Wake];
    }

    method TakeBatch() returns (batch: seq<Message>)
      requires Valid() && loop.Woken?
      modifies this`msgQueue, this`loop, this`trace
      ensures Valid() && trace == old(trace) + [TakeQueue] && batch == old(msgQueue) && loop == Drained(batch)
    {
      Extend(trace, TakeQueue);
      batch := msgQueue;
      msgQueue := [];
      loop := Drained(batch);
      trace := trace + [TakeQueue];
    }

    /** One message: a listed request is called and deleted, a listed subscription is told, and the
        message is freed in any case. */
    method Process()
      requires Valid() && loop.Draining? && loop.batch != []
      modifies this`calls, this`requestSet, this`notices, this`freed, this`loop, this`trace
      ensures Valid() && trace == old(trace) + [Deliver]
      ensures loop == Drained(old(loop).batch[1..]) && freed == old(freed) + [old(loop).batch[0]]
      ensures var m := old(loop).batch[0];
        && (m.target in old(requestSet) ==>
              && calls == old(calls) + [Call(m.number, m.target, old(requestSet)[m.target])]
              && requestSet == old(requestSet) - {m.target} && notices == old(notices))
        && (m.target in subSet ==>
              && notices == old(notices) + [Notice(m.number, m.target, subSet[m.target].handle, subSet[m.target].cid)]
              && calls == old(calls) && requestSet == old(requestSet))
        && (m.target !in old(requestSet) && m.target !in subSet ==>
              calls == old(calls) && requestSet == old(requestSet) && notices == old(notices))
    {
      OneTarget(trace);
      Extend(trace, Deliver);
      var m := loop.batch[0];
      loop := Drained(loop.batch[1..]);
      freed := freed + [m];
      AnswerRequest(m);
      TellSubscription(m);
      trace := trace + [Deliver];
    }

    method AnswerRequest(m: Message)
      modifies this`calls, this`requestSet
      ensures View() == Answer(old(View()), m)
    {
      if m.target in requestSet {
        calls := calls + [Call(m.number, m.target, requestSet[m.target])];
        requestSet := requestSet - {m.target};
      }
    }

    method TellSubscription(m: Message)
      modifies this`notices
      ensures View() == Tell(old(View()), m)
    {
      if m.target in subSet {
        notices := notices + [Notice(m.number, m.target, subSet[m.target].handle, subSet[m.target].cid)];
      }
    }
  }

  lemma KeysOnce(trace: seq<Event>)
    requires Run(trace)
    ensures OnePerKey(After(trace).subs)
  {
    RunKeeps(trace);
  }

  /** The next identity is that of no request and no subscription. */
  lemma FreshId(trace: seq<Event>)
    requires Run(trace)
    ensures After(trace).nextId !in After(trace).requests && After(trace).nextId !in After(trace).subs
  {
    RunKeeps(trace);
  }

  /** No identity is that of a request and of a subscription. */
  lemma OneTarget(trace: seq<Event>)
    requires Run(trace)
    ensures forall id :: !(id in After(trace).requests && id in After(trace).subs)
  {
    RunKeeps(trace);
  }

  lemma NextOfBatch(freed: seq<Message>, batch: seq<Message>, i: nat)
    requires i < |batch|
    ensures batch[i..][1..] == batch[i + 1..] && batch[i..][0] == batch[i]
    ensures freed + batch[..i] + [batch[i]] == freed + batch[..i + 1]
  {
  }

  lemma Delivered(trace: seq<Event>)
    requires Run(trace)
    ensures NothingLost(After(trace))
  {
    RunKeeps(trace);
  }

  lemma Replaced(s: State, at: Id, cid: int)
    requires OnePerKey(s.subs) && s.loop.Idle? && at in s.subs && s.subs[at].handle !in s.detached
    ensures var key, handle := s.subs[at].key, s.subs[at].handle;
      Act(s, BeginSubscribe(key, handle, cid, true)) == s.(subs := s.subs[at := Subscription(key, handle, cid)])
  {
    assert Has(s.subs, s.subs[at].key, s.subs[at].handle);
  }

  /** At any moment the object has called no request twice, freed every message at most once and in the
      order of their cloning, and holds at most one subscription per key and page. */
  lemma ObjectSettings(c: MiwearSettings)
    requires c.Valid()
    ensures forall i, j :: 0 <= i < j < |c.calls| ==> c.calls[i].id != c.calls[j].id
    ensures forall i :: 0 <= i < |c.freed| ==> c.freed[i].number == i
    ensures OnePerKey(c.subSet)
  {
    SettingsInEveryRun(c.trace);
    KeysOnce(c.trace);
    var s := After(c.trace);
    assert s.calls == c.calls && s.freed == c.freed && s.subs == c.subSet;
    forall i, j | 0 <= i < j < |c.calls| ensures c.calls[i].id != c.calls[j].id {
      assert s.calls[i].id != s.calls[j].id;
    }
  }
}
