/** The location context as an object whose callbacks loop over its lists, proved to follow the
    state machine of `Geolocation`. */
module LocationContexts {
  import opened Geolocation

  class LocationContext {
    var topicList: seq<nat>
    var getList: seq<Request>
    var subList: seq<Subscriber>
    var refCount: int

    // Handles in the event loop and what the outside has seen.
    var timer: Timer
    var closing: set<nat>
    var topicsMade: nat
    var destroyed: bool
    var deletions: nat
    var calls: nat
    var answered: seq<Answer>
    var refused: set<nat>
    var abandoned: set<nat>

    /** Everything that has happened to the context. */
    ghost var trace: seq<Event>

    ghost function View(): State
      reads this
    {
      State(topicList, getList, subList, refCount, timer, closing, topicsMade, destroyed, deletions,
            calls, answered, refused, abandoned)
    }

    /** The context is where its history leads, and the history is a run. */
    ghost predicate Valid()
      reads this
    {
      Run(trace) && View() == After(trace)
    }

    constructor ()
      ensures Valid() && trace == []
    {
      topicList, getList, subList, refCount, timer, closing := [], [], [], 1, Ticking, {};
      topicsMade, destroyed, deletions, calls, answered, refused, abandoned := 0, false, 0, 0, [], {}, {};
      trace := [];
    }

    predicate IsActive()
      reads this
    {
      getList != [] || subList != []
    }

    method CloseTopic()
      modifies this`topicList, this`closing
      ensures View() == CloseIfIdle(old(View()))
    {
      if !IsActive() && topicList != [] {
        closing := closing + {topicList[0]};
        topicList := topicList[1..];
      }
    }

    method SubscribeTopic()
      modifies this`topicList, this`topicsMade, this`refCount
      ensures View() == OpenTopic(old(View()))
    {
      topicList := topicList + [topicsMade];
      topicsMade := topicsMade + 1;
      refCount := refCount + 1;
    }

    method Enqueue(instance: int, sec: int, timeout: int, subscribed: bool)
      modifies this`calls, this`refused, this`getList, this`topicList, this`topicsMade, this`refCount
      ensures View() == GetStep(old(View()), instance, sec, timeout, subscribed)
    {
      var ticket := calls;
      calls := calls + 1;
      if |getList| > MAX_PENDING {
        refused := refused + {ticket};
        return;
      }
      if !IsActive() {
        if !subscribed {
          refused := refused + {ticket};
          return;
        }
        SubscribeTopic();
      }
      getList := getList + [Request(ticket, instance, sec, timeout)];
    }

    /** The promise is refused exactly when the queue is full or an idle context gets no topic;
        otherwise it waits behind all others, served by a live topic. */
    method GetLocation(instance: int, sec: int, timeout: int, subscribed: bool) returns (ticket: nat)
      requires Valid() && !destroyed
      modifies this
      ensures Valid() && trace == old(trace) + [Event.GetLocation(instance, sec, timeout, subscribed)]
      ensures ticket in refused <==> |old(getList)| > 100 || (old(getList) == [] && old(subList) == [] && !subscribed)
      ensures ticket in refused ==> getList == old(getList) && topicList == old(topicList)
      ensures ticket !in refused ==> getList == old(getList) + [Request(ticket, instance, sec, timeout)]
      ensures ticket !in refused ==> topicList != [] && |getList| <= 101
      ensures ticket !in refused ==>
        topicList == if old(getList) == [] && old(subList) == [] then old(topicList) + [old(topicsMade)]
                     else old(topicList)
      ensures subList == old(subList) && answered == old(answered)
      ensures forall i :: 0 <= i < |answered| ==> answered[i].ticket < ticket
    {
      ticket := calls;
      GetOutcome(trace, instance, sec, timeout, subscribed);
      GetExactly(View(), instance, sec, timeout, subscribed);
      Enqueue(instance, sec, timeout, subscribed);
      trace := trace + [Event.GetLocation(instance, sec, timeout, subscribed)];
    }

    /** Position of the subscription of a page, or the end of the list. */
    method FindMeta(instance: int) returns (at: nat)
      ensures at <= |subList|
      ensures forall i :: 0 <= i < at ==> subList[i].instance != instance
      ensures at < |subList| ==> subList[at].instance == instance
    {
      at := 0;
      while at < |subList|
        invariant 0 <= at <= |subList|
        invariant forall i :: 0 <= i < at ==> subList[i].instance != instance
      {
        if subList[at].instance == instance { return; }
        at := at + 1;
      }
    }

    /** One page holds one subscription: subscribing again replaces its callbacks in place, a new page
        goes last, a refused one changes nothing, and no other page is touched. */
    method Subscribe(instance: int, callback: int, fail: int, subscribed: bool)
      requires Valid() && !destroyed
      modifies this
      ensures Valid() && trace == old(trace) + [Event.Subscribe(instance, callback, fail, subscribed)]
      ensures OneEach(subList) && getList == old(getList) && answered == old(answered)
      ensures (exists i :: 0 <= i < |old(subList)| && old(subList)[i].instance == instance) ==>
        && |subList| == |old(subList)| && topicList == old(topicList)
        && forall i :: 0 <= i < |subList| ==>
             subList[i] == if old(subList)[i].instance == instance then Subscriber(instance, callback, fail)
                           else old(subList)[i]
      ensures (forall i :: 0 <= i < |old(subList)| ==> old(subList)[i].instance != instance) ==>
        var idle := old(getList) == [] && old(subList) == [];
        && subList == (if idle && !subscribed then old(subList)
                       else old(subList) + [Subscriber(instance, callback, fail)])
        && topicList == (if idle && subscribed then old(topicList) + [old(topicsMade)] else old(topicList))
      ensures forall x: Subscriber :: x.instance != instance ==> (x in subList <==> x in old(subList))
      ensures subList != [] ==> topicList != []
    {
      ghost var e := Event.Subscribe(instance, callback, fail, subscribed);
      OneEachInRun(trace);
      SubscribeOutcome(trace, instance, callback, fail, subscribed);
      SubscribeExactly(View(), instance, callback, fail, subscribed);
      Register(instance, callback, fail, subscribed);
      trace := trace + [e];
    }

    method Register(instance: int, callback: int, fail: int, subscribed: bool)
      requires OneEach(subList)
      modifies this`subList, this`topicList, this`topicsMade, this`refCount
      ensures View() == SubscribeStep(old(View()), instance, callback, fail, subscribed)
    {
      ghost var was := View();
      var at := FindMeta(instance);
      if at < |subList| {
        assert Subscribed(was, instance);
        subList := subList[at := Subscriber(instance, callback, fail)];
        assert subList == SubscribeStep(was, instance, callback, fail, subscribed).subs;
        return;
      }
      assert !Subscribed(was, instance);
      if !IsActive() {
        if !subscribed { return; }
        SubscribeTopic();
      }
      subList := subList + [Subscriber(instance, callback, fail)];
    }

    /** The subscription of the page goes, the others stay in their order, and a context that falls idle
        by it gives up its oldest topic. */
    method Unsubscribe(instance: int)
      requires Valid() && !destroyed
      modifies this
      ensures Valid() && trace == old(trace) + [Event.Unsubscribe(instance)]
      ensures forall x :: x in subList <==> x in old(subList) && x.instance != instance
      ensures forall i :: 0 <= i < |old(subList)| && old(subList)[i].instance == instance ==>
        subList == old(subList)[..i] + old(subList)[i + 1..]
      ensures (forall i :: 0 <= i < |old(subList)| ==> old(subList)[i].instance != instance) ==> subList == old(subList)
      ensures getList == old(getList) && answered == old(answered)
      ensures GaveUp(old(View()), View(), subList != old(subList) && getList == [] && subList == [])
    {
      OneEachInRun(trace);
      Extend(trace, Event.Unsubscribe(instance));
      Unsubscribed(View(), instance);
      UnsubscribeExactly(View(), instance);
      Remove(instance);
      trace := trace + [Event.Unsubscribe(instance)];
    }

    method Remove(instance: int)
      modifies this`subList, this`topicList, this`closing
      ensures View() == UnsubscribeStep(old(View()), instance)
    {
      ghost var was := View();
      var at := FindMeta(instance);
      if at == |subList| {
        assert !Subscribed(was, instance);
        return;
      }
      assert Subscribed(was, instance);
      RemoveAt(subList, instance, at);
      subList := subList[..at] + subList[at + 1..];
      CloseTopic();
    }

    /** The batch loop: a valid last sample answers the oldest request, and the loop stops as soon as
        an idle context has given up a topic. */
    method ProcessSamples(samples: seq<bool>)
      modifies this`answered, this`getList, this`topicList, this`closing
      ensures View() == DataStep(old(View()), samples)
    {
      ghost var was := View();
      var i := 0;
      while i < |samples|
        invariant 0 <= i <= |samples|
        invariant View() == if i < |samples| || samples == [] then was else DataStep(was, samples)
        invariant i == 0 || i == |samples| || Active(was) || was.topics == []
      {
        if samples[i] && i == |samples| - 1 && getList != [] {
          answered := answered + [Located(getList[0].ticket)];
          getList := getList[1..];
        }
        if !IsActive() && topicList != [] {
          CloseTopic();
          return;
        }
        i := i + 1;
      }
    }

    /** At most one promise is settled, and it is the oldest one waiting. */
    method OnData(topic: nat, samples: seq<bool>)
      requires Valid() && !destroyed
      modifies this
      ensures Valid() && trace == old(trace) + [Data(topic, samples)]
      ensures if samples != [] && samples[|samples| - 1] && old(getList) != []
              then answered == old(answered) + [Located(old(getList)[0].ticket)] && getList == old(getList)[1..]
              else answered == old(answered) && getList == old(getList)
      ensures subList == old(subList)
      ensures GaveUp(old(View()), View(), samples != [] && getList == [] && subList == [])
    {
      DataExactly(View(), samples);
      Extend(trace, Data(topic, samples));
      ProcessSamples(samples);
      trace := trace + [Data(topic, samples)];
    }

    /** Rejects requests from the front while they are expired, reading the clock each time. */
    method RejectExpired(clock: nat -> int)
      modifies this`answered, this`getList, this`topicList, this`closing
      ensures View() == TickStep(old(View()), clock)
    {
      ghost var was := View();
      var n := 0;
      while getList != []
        invariant 0 <= n <= |was.gets|
        invariant View() == ExpireStep(was, n)
        invariant ExpiredPrefix(was.gets, clock, 0) == ExpiredPrefix(was.gets, clock, n)
        decreases |getList|
      {
        var meta := getList[0];
        assert meta == was.gets[n];
        if !Expired(meta, clock(n)) { break; }
        assert was.gets[..n + 1] == was.gets[..n] + [meta];
        assert Timeouts(was.gets[..n + 1]) == Timeouts(was.gets[..n]) + [TimedOut(meta.ticket)];
        answered := answered + [TimedOut(meta.ticket)];
        getList := getList[1..];
        n := n + 1;
      }
      CloseTopic();
    }

    /** What is left starts with a request that has not expired, and what went had. */
    method OnTick(clock: nat -> int)
      requires Valid() && timer == Ticking && !destroyed
      modifies this
      ensures Valid() && trace == old(trace) + [Tick(clock)]
      ensures exists n: nat :: CutAt(old(View()), View(), clock, n)
    {
      Extend(trace, Tick(clock));
      TickCut(View(), clock);
      RejectExpired(clock);
      trace := trace + [Tick(clock)];
    }

    method DropReference()
      modifies this`refCount, this`deletions
      ensures View() == Release(old(View()))
    {
      refCount := refCount - 1;
      if refCount == 0 { deletions := deletions + 1; }
    }

    /** The close callback of a topic. The count is exact, and the context goes with this callback
        exactly when it was told to go and this was the last handle. */
    method OnTopicClosed(topic: nat)
      requires Valid() && topic in closing
      modifies this
      ensures Valid() && trace == old(trace) + [TopicClosed(topic)]
      ensures old(deletions) == 0 && (deletions == 1 <==> destroyed && timer == Closed && closing == {})
      ensures refCount == TimerRef(timer) + |topicList| + |closing|
    {
      ClosedOutcome(trace, TopicClosed(topic));
      closing := closing - {topic};
      DropReference();
      trace := trace + [TopicClosed(topic)];
    }

    /** The same for the timer. */
    method OnTimerClosed()
      requires Valid() && timer == Closing
      modifies this
      ensures Valid() && trace == old(trace) + [TimerClosed]
      ensures old(deletions) == 0 && (deletions == 1 <==> destroyed && closing == {})
      ensures refCount == |topicList| + |closing|
    {
      ClosedOutcome(trace, TimerClosed);
      timer := Closed;
      DropReference();
      trace := trace + [TimerClosed];
    }

    /** The loop that removes the requests of a page and keeps the others in their order. */
    method RemoveRequests(instance: int)
      modifies this`getList
      ensures getList == WithoutInstance(old(getList), instance)
    {
      var all := getList;
      var kept: seq<Request> := [];
      var i := 0;
      assert all[0..] == all;
      while i < |all|
        invariant 0 <= i <= |all|
        invariant WithoutInstance(all, instance) == kept + WithoutInstance(all[i..], instance)
      {
        assert all[i..][1..] == all[i + 1..];
        if all[i].instance != instance { kept := kept + [all[i]]; }
        i := i + 1;
      }
      getList := kept;
    }

    /** A page leaves with its requests and its subscription, and only with them. */
    method OnDetached(instance: int)
      requires Valid() && !destroyed
      modifies this
      ensures Valid() && trace == old(trace) + [Detach(instance)]
      ensures forall r :: r in getList <==> r in old(getList) && r.instance != instance
      ensures forall x :: x in subList <==> x in old(subList) && x.instance != instance
      ensures GaveUp(old(View()), View(), subList != old(subList) && getList == [] && subList == [])
      ensures forall r :: r in old(getList) && r.instance == instance ==> r.ticket in abandoned
    {
      DetachLeavesNothing(trace, instance);
      DetachOutcome(trace, instance);
      Extend(trace, Detach(instance));
      var gets := getList;
      RemoveRequests(instance);
      abandoned := abandoned + (Tickets(gets) - Tickets(getList));
      Remove(instance);
      trace := trace + [Detach(instance)];
    }

    method CloseAllTopics()
      modifies this`topicList, this`closing
      ensures topicList == []
      ensures closing == old(closing) + Members(old(topicList))
    {
      ghost var all := topicList;
      while topicList != []
        invariant closing + Members(topicList) == old(closing) + Members(all)
        decreases |topicList|
      {
        assert topicList == [topicList[0]] + topicList[1..];
        closing := closing + {topicList[0]};
        topicList := topicList[1..];
      }
    }

    /** No topic is left open, every promise still waiting is abandoned, and the context stays until
        the close callbacks have run. */
    method OnDestroy()
      requires Valid() && !destroyed
      modifies this
      ensures Valid() && trace == old(trace) + [Destroy]
      ensures topicList == [] && getList == [] && deletions == 0 && destroyed && timer == Closing
      ensures forall t :: t in closing <==> t in old(closing) || t in old(topicList)
      ensures forall r :: r in old(getList) ==> r.ticket in abandoned
    {
      DestroyOutcome(trace);
      CloseAll();
      trace := trace + [Destroy];
    }

    method CloseAll()
      modifies this`timer, this`abandoned, this`getList, this`topicList, this`closing, this`destroyed
      ensures View() == DestroyStep(old(View()))
    {
      timer := Closing;
      abandoned := abandoned + Tickets(getList);
      getList := [];
      CloseAllTopics();
      destroyed := true;
    }
  }

  // ---------------------------------------------------------------- what the caller gets

  /** The first `n` requests had waited too long and were rejected, in order; the next one had not. */
  ghost predicate CutAt(s: State, t: State, clock: nat -> int, n: nat) {
    && n <= |s.gets| && t.gets == s.gets[n..]
    && |t.answered| == |s.answered| + n && t.answered[..|s.answered|] == s.answered
    && (forall k :: 0 <= k < n ==> t.answered[|s.answered| + k] == TimedOut(s.gets[k].ticket))
    && (forall k :: 0 <= k < n ==> Overdue(s.gets[k], clock(k)))
    && (n < |s.gets| ==> !Overdue(s.gets[n], clock(n)))
    && t.subs == s.subs && GaveUp(s, t, t.gets == [] && t.subs == [])
  }

  lemma TickCut(s: State, clock: nat -> int)
    ensures exists n: nat :: CutAt(s, TickStep(s, clock), clock, n)
  {
    LongestExpiredPrefix(s.gets, clock, 0);
    assert CutAt(s, TickStep(s, clock), clock, ExpiredPrefix(s.gets, clock, 0));
  }

  lemma DetachOutcome(trace: seq<Event>, instance: int)
    requires Run(trace) && !After(trace).destroyed
    ensures var s, t := After(trace), DetachStep(After(trace), instance);
      && GaveUp(s, t, t.subs != s.subs && t.gets == [] && t.subs == [])
      && forall r :: r in s.gets && r.instance == instance ==> r.ticket in t.abandoned
  {
    var s := After(trace);
    RunKeeps(trace);
    var rest := WithoutInstance(s.gets, instance);
    UnsubscribeExactly(s.(gets := rest, abandoned := s.abandoned + (Tickets(s.gets) - Tickets(rest))), instance);
    WithoutInstanceIs(s.gets, instance);
    forall r | r in s.gets && r.instance == instance ensures r.ticket in Tickets(s.gets) - Tickets(rest) {
      if r.ticket in Tickets(rest) {
        var q :| q in rest && q.ticket == r.ticket;
        TicketsDiffer(s, q, r);
      }
    }
  }

  /** Waiting requests have different tickets. */
  lemma TicketsDiffer(s: State, q: Request, r: Request)
    requires Queue(s) && q in s.gets && r in s.gets && q.ticket == r.ticket
    ensures q == r
  {
    var order, n := Order(s.answered, s.gets), |s.answered|;
    var i, j :| 0 <= i < |s.gets| && s.gets[i] == q && 0 <= j < |s.gets| && s.gets[j] == r;
    assert order[n + i] == q.ticket && order[n + j] == r.ticket;
  }

  lemma OneEachInRun(trace: seq<Event>)
    requires Run(trace)
    ensures OneEach(After(trace).subs)
  {
    RunKeeps(trace);
  }

  lemma SubscribeOutcome(trace: seq<Event>, instance: int, callback: int, fail: int, subscribed: bool)
    requires Run(trace) && !After(trace).destroyed
    ensures var e := Event.Subscribe(instance, callback, fail, subscribed);
      var t := SubscribeStep(After(trace), instance, callback, fail, subscribed);
      && Run(trace + [e]) && After(trace + [e]) == t
      && OneEach(t.subs) && (t.subs != [] ==> t.topics != [])
  {
    var e := Event.Subscribe(instance, callback, fail, subscribed);
    Extend(trace, e);
    RunKeeps(trace);
    RunKeeps(trace + [e]);
  }

  lemma GetOutcome(trace: seq<Event>, instance: int, sec: int, timeout: int, subscribed: bool)
    requires Run(trace) && !After(trace).destroyed
    ensures var e, s := Event.GetLocation(instance, sec, timeout, subscribed), After(trace);
      var t := GetStep(s, instance, sec, timeout, subscribed);
      && Run(trace + [e]) && After(trace + [e]) == t
      && (s.calls in t.refused <==> |s.gets| > 100 || (s.gets == [] && s.subs == [] && !subscribed))
      && (s.calls !in t.refused ==>
            t.gets == s.gets + [Request(s.calls, instance, sec, timeout)] && t.topics != [] && |t.gets| <= 101)
      && forall i :: 0 <= i < |t.answered| ==> t.answered[i].ticket < s.calls
  {
    var e, s := Event.GetLocation(instance, sec, timeout, subscribed), After(trace);
    Extend(trace, e);
    RunKeeps(trace);
    RunKeeps(trace + [e]);
    CallsBound(s);
  }

  lemma CallsBound(s: State)
    requires Queue(s)
    ensures s.calls !in s.refused
    ensures forall i :: 0 <= i < |s.answered| ==> s.answered[i].ticket < s.calls
  {
    var order := Order(s.answered, s.gets);
    assert s.calls !in Members(order) + s.refused + s.abandoned;
    forall i | 0 <= i < |s.answered| ensures s.answered[i].ticket < s.calls {
      assert order[i] == s.answered[i].ticket && order[i] in Members(order);
    }
  }

  lemma Unsubscribed(s: State, instance: int)
    requires OneEach(s.subs)
    ensures forall x :: x in UnsubscribeStep(s, instance).subs <==> x in s.subs && x.instance != instance
  {
    WithoutSubIs(s.subs, instance);
    if !Subscribed(s, instance) {
      forall x | x in s.subs ensures x.instance != instance { }
    }
  }

  lemma DestroyOutcome(trace: seq<Event>)
    requires Run(trace) && !After(trace).destroyed
    ensures Run(trace + [Destroy]) && After(trace + [Destroy]) == DestroyStep(After(trace))
    ensures After(trace).deletions == 0
    ensures forall r :: r in After(trace).gets ==> r.ticket in DestroyStep(After(trace)).abandoned
  {
    Extend(trace, Destroy);
    DeletedOnceAndLast(trace);
    forall r | r in After(trace).gets ensures r.ticket in Tickets(After(trace).gets) { }
  }

  lemma ClosedOutcome(trace: seq<Event>, e: Event)
    requires Run(trace) && Possible(After(trace), e) && (e.TopicClosed? || e.TimerClosed?)
    ensures Run(trace + [e]) && After(trace + [e]) == Step(After(trace), e)
    ensures After(trace).deletions == 0
    ensures var t := After(trace + [e]);
      && (t.deletions == 1 <==> t.destroyed && t.timer == Closed && t.closing == {})
      && t.refCount == TimerRef(t.timer) + |t.topics| + |t.closing|
  {
    Extend(trace, e);
    DeletedOnceAndLast(trace);
    DeletedOnceAndLast(trace + [e]);
    RunKeeps(trace + [e]);
  }

  lemma {:induction false} RemoveAt(subs: seq<Subscriber>, instance: int, at: nat)
    requires at < |subs| && subs[at].instance == instance
    requires forall i :: 0 <= i < at ==> subs[i].instance != instance
    ensures WithoutSub(subs, instance) == subs[..at] + subs[at + 1..]
    decreases |subs|
  {
    if at > 0 {
      RemoveAt(subs[1..], instance, at - 1);
      assert subs[..at] + subs[at + 1..] == [subs[0]] + (subs[1..][..at - 1] + subs[1..][at..]);
    }
  }
}
