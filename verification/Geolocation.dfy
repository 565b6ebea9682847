/** Location requests and subscriptions sharing sensor topics, and the reference-counted context
    that the last close callback deletes. A promise is named by the number of its call. */
module Geolocation {

  const MAX_PENDING: nat := 100

  datatype Request = Request(ticket: nat, instance: int, sec: int, timeout: int)

  datatype Subscriber = Subscriber(instance: int, callback: int, fail: int)

  datatype Answer = Located(ticket: nat) | TimedOut(ticket: nat)

  datatype Timer = Ticking | Closing | Closed

  datatype State = State(
    topics: seq<nat>,        // topic_list, oldest first
    gets: seq<Request>,      // getList
    subs: seq<Subscriber>,   // subList
    refCount: int,
    timer: Timer,
    closing: set<nat>,       // topics whose close callback is still to come
    topicsMade: nat,
    destroyed: bool,
    deletions: nat,
    calls: nat,              // getLocation calls so far
    answered: seq<Answer>,   // promises settled from the queue, in order
    refused: set<nat>,       // promises rejected at once
    abandoned: set<nat>)     // promises dropped with their page or the context

  const INITIAL: State := State([], [], [], 1, Ticking, {}, 0, false, 0, 0, [], {}, {})

  datatype Event =
    | GetLocation(instance: int, sec: int, timeout: int, subscribed: bool)
    | Subscribe(instance: int, callback: int, fail: int, subscribed: bool)
    | Unsubscribe(instance: int)
    | Data(topic: nat, samples: seq<bool>)   // which samples of the batch are valid
    | Tick(clock: nat -> int)                // the clock at each reading of the loop
    | TopicClosed(topic: nat)
    | TimerClosed
    | Detach(instance: int)
    | Destroy

  /** A started timer ticks, a close callback runs once, and nothing but a close callback comes after
      the context was told to go. */
  predicate Possible(s: State, e: Event) {
    match e
    case Tick(_) => s.timer == Ticking && !s.destroyed
    case TopicClosed(topic) => topic in s.closing
    case TimerClosed => s.timer == Closing
    case _ => !s.destroyed
  }

  predicate Active(s: State) {
    s.gets != [] || s.subs != []
  }

  // ---------------------------------------------------------------- the steps

  /** Integer division as in C, truncating toward zero. */
  function CDiv(a: int, b: int): int
    requires b > 0
  {
    if a >= 0 then a / b else -(-a / b)
  }

  predicate Expired(r: Request, now: int) {
    now - r.sec > CDiv(r.timeout, 1000)
  }

  /** Length of the longest prefix in which the i-th request is expired at the i-th clock reading,
      counting from position `i`. */
  function ExpiredPrefix(gets: seq<Request>, clock: nat -> int, i: nat): (n: nat)
    requires i <= |gets|
    ensures i <= n <= |gets|
    decreases |gets| - i
  {
    if i < |gets| && Expired(gets[i], clock(i)) then ExpiredPrefix(gets, clock, i + 1) else i
  }

  /** One topic was subscribed and queued. */
  function OpenTopic(s: State): State {
    s.(topics := s.topics + [s.topicsMade], topicsMade := s.topicsMade + 1, refCount := s.refCount + 1)
  }

  /** The oldest topic, if any, is unsubscribed and starts closing. */
  function CloseFront(s: State): State {
    if s.topics == [] then s
    else s.(topics := s.topics[1..], closing := s.closing + {s.topics[0]})
  }

  function CloseIfIdle(s: State): State {
    if Active(s) then s else CloseFront(s)
  }

  function GetStep(s: State, instance: int, sec: int, timeout: int, subscribed: bool): State {
    var ticket := s.calls;
    var s := s.(calls := s.calls + 1);
    if |s.gets| > MAX_PENDING || (!Active(s) && !subscribed) then s.(refused := s.refused + {ticket})
    else
      var s := if Active(s) then s else OpenTopic(s);
      s.(gets := s.gets + [Request(ticket, instance, sec, timeout)])
  }

  predicate Subscribed(s: State, instance: int) {
    exists i :: 0 <= i < |s.subs| && s.subs[i].instance == instance
  }

  function SubscribeStep(s: State, instance: int, callback: int, fail: int, subscribed: bool): State {
    if Subscribed(s, instance) then
      s.(subs := seq(|s.subs|, i requires 0 <= i < |s.subs| =>
        if s.subs[i].instance == instance then Subscriber(instance, callback, fail) else s.subs[i]))
    else if !Active(s) && !subscribed then s
    else
      var s := if Active(s) then s else OpenTopic(s);
      s.(subs := s.subs + [Subscriber(instance, callback, fail)])
  }

  function WithoutSub(subs: seq<Subscriber>, instance: int): seq<Subscriber> {
    if subs == [] then []
    else if subs[0].instance == instance then subs[1..]
    else [subs[0]] + WithoutSub(subs[1..], instance)
  }

  function UnsubscribeStep(s: State, instance: int): State {
    if !Subscribed(s, instance) then s
    else CloseIfIdle(s.(subs := WithoutSub(s.subs, instance)))
  }

  function AnswerFront(s: State): State
    requires s.gets != []
  {
    s.(answered := s.answered + [Located(s.gets[0].ticket)], gets := s.gets[1..])
  }

  /** A batch of samples. Only a valid last sample answers a request; an idle context gives up its
      oldest topic at the first sample it sees. */
  function DataStep(s: State, samples: seq<bool>): State {
    if samples == [] then s
    else if !Active(s) then CloseFront(s)
    else CloseIfIdle(if samples[|samples| - 1] && s.gets != [] then AnswerFront(s) else s)
  }

  function Timeouts(gets: seq<Request>): seq<Answer> {
    seq(|gets|, i requires 0 <= i < |gets| => TimedOut(gets[i].ticket))
  }

  function ExpireStep(s: State, n: nat): State
    requires n <= |s.gets|
  {
    s.(answered := s.answered + Timeouts(s.gets[..n]), gets := s.gets[n..])
  }

  function TickStep(s: State, clock: nat -> int): State {
    CloseIfIdle(ExpireStep(s, ExpiredPrefix(s.gets, clock, 0)))
  }

  function Release(s: State): State {
    s.(refCount := s.refCount - 1, deletions := if s.refCount == 1 then s.deletions + 1 else s.deletions)
  }

  function WithoutInstance(gets: seq<Request>, instance: int): seq<Request> {
    if gets == [] then []
    else if gets[0].instance == instance then WithoutInstance(gets[1..], instance)
    else [gets[0]] + WithoutInstance(gets[1..], instance)
  }

  function Tickets(gets: seq<Request>): set<nat> {
    set r | r in gets :: r.ticket
  }

  function DetachStep(s: State, instance: int): State {
    var rest := WithoutInstance(s.gets, instance);
    UnsubscribeStep(s.(gets := rest, abandoned := s.abandoned + (Tickets(s.gets) - Tickets(rest))), instance)
  }

  function Members(q: seq<nat>): set<nat> {
    set x | x in q
  }

  function DestroyStep(s: State): State {
    s.(timer := Closing, destroyed := true,
       gets := [], abandoned := s.abandoned + Tickets(s.gets),
       topics := [], closing := s.closing + Members(s.topics))
  }

  function Step(s: State, e: Event): State {
    match e
    case GetLocation(instance, sec, timeout, subscribed) => GetStep(s, instance, sec, timeout, subscribed)
    case Subscribe(instance, callback, fail, subscribed) => SubscribeStep(s, instance, callback, fail, subscribed)
    case Unsubscribe(instance) => UnsubscribeStep(s, instance)
    case Data(_, samples) => DataStep(s, samples)
    case Tick(clock) => TickStep(s, clock)
    case TopicClosed(topic) => Release(s.(closing := s.closing - {topic}))
    case TimerClosed => Release(s.(timer := Closed))
    case Detach(instance) => DetachStep(s, instance)
    case Destroy => DestroyStep(s)
  }

  ghost predicate Run(es: seq<Event>)
    decreases |es|
  {
    es == [] || (Run(es[..|es| - 1]) && Possible(After(es[..|es| - 1]), es[|es| - 1]))
  }

  ghost function After(es: seq<Event>): State
    decreases |es|
  {
    if es == [] then INITIAL else Step(After(es[..|es| - 1]), es[|es| - 1])
  }

  // ---------------------------------------------------------------- the lifetime invariant

  ghost predicate NoDup(q: seq<nat>) {
    forall i, j :: 0 <= i < j < |q| ==> q[i] != q[j]
  }

  function TimerRef(t: Timer): int {
    if t == Closed then 0 else 1
  }

  ghost predicate TopicsOk(topics: seq<nat>, closing: set<nat>, made: nat) {
    && NoDup(topics)
    && (forall i :: 0 <= i < |topics| ==> topics[i] < made && topics[i] !in closing)
    && (forall t :: t in closing ==> t < made)
  }

  /** The reference count is the number of handles that still point to the context; it reaches zero
      once, and only after the context was destroyed and its timer closed. */
  ghost predicate Counted(topics: seq<nat>, closing: set<nat>, made: nat, refCount: int, timer: Timer,
                          destroyed: bool, deletions: nat) {
    && TopicsOk(topics, closing, made)
    && refCount == TimerRef(timer) + |topics| + |closing|
    && (destroyed <==> timer != Ticking)
    && (destroyed ==> topics == [])
    && deletions == (if refCount == 0 then 1 else 0)
  }

  ghost predicate Lifetime(s: State) {
    Counted(s.topics, s.closing, s.topicsMade, s.refCount, s.timer, s.destroyed, s.deletions)
  }

  /** Until the context is destroyed, pending work always has a live topic. */
  ghost predicate Served(s: State) {
    && (!s.destroyed && Active(s) ==> s.topics != [])
    && (s.destroyed ==> s.gets == [])
  }

  lemma OpenKeeps(s: State)
    requires Lifetime(s) && !s.destroyed
    ensures Lifetime(OpenTopic(s))
  {
  }

  lemma CloseFrontKeeps(s: State)
    requires Lifetime(s)
    ensures Lifetime(CloseFront(s))
  {
    if s.topics != [] {
      assert s.topics[0] !in s.closing;
    }
  }

  lemma {:induction false} CloseAllKeeps(topics: seq<nat>, closing: set<nat>, made: nat)
    requires TopicsOk(topics, closing, made)
    ensures |closing + Members(topics)| == |closing| + |topics|
    ensures forall t :: t in closing + Members(topics) ==> t < made
    decreases |topics|
  {
    if topics == [] {
      assert closing + Members(topics) == closing;
    } else {
      var rest, more := topics[1..], closing + {topics[0]};
      assert topics == [topics[0]] + rest;
      assert TopicsOk(rest, more, made);
      CloseAllKeeps(rest, more, made);
      assert closing + Members(topics) == more + Members(rest);
    }
  }

  lemma ReleaseKeeps(s: State, e: Event)
    requires Lifetime(s) && Possible(s, e) && (e.TopicClosed? || e.TimerClosed?)
    ensures Lifetime(Step(s, e))
  {
    if e.TopicClosed? {
      assert |s.closing - {e.topic}| == |s.closing| - 1;
    }
  }

  lemma DestroyKeeps(s: State)
    requires Lifetime(s) && !s.destroyed
    ensures Lifetime(DestroyStep(s))
  {
    CloseAllKeeps(s.topics, s.closing, s.topicsMade);
  }

  lemma RequestsKeep(s: State, e: Event)
    requires Lifetime(s) && Possible(s, e) && (e.GetLocation? || e.Subscribe?)
    ensures Lifetime(Step(s, e))
  {
    if e.GetLocation? { OpenKeeps(s.(calls := s.calls + 1)); } else { OpenKeeps(s); }
  }

  lemma UnsubscribeKeeps(s: State, instance: int)
    requires Lifetime(s)
    ensures Lifetime(UnsubscribeStep(s, instance))
  {
    CloseFrontKeeps(s.(subs := WithoutSub(s.subs, instance)));
  }

  lemma CallbacksKeep(s: State, e: Event)
    requires Lifetime(s) && (e.Data? || e.Tick?)
    ensures Lifetime(Step(s, e))
  {
    if e.Tick? {
      CloseFrontKeeps(ExpireStep(s, ExpiredPrefix(s.gets, e.clock, 0)));
    } else {
      CloseFrontKeeps(s);
      if s.gets != [] { CloseFrontKeeps(AnswerFront(s)); }
    }
  }

  lemma LifetimeStep(s: State, e: Event)
    requires Lifetime(s) && Possible(s, e)
    ensures Lifetime(Step(s, e))
  {
    match e {
      case GetLocation(_, _, _, _) => RequestsKeep(s, e);
      case Subscribe(_, _, _, _) => RequestsKeep(s, e);
      case Unsubscribe(instance) => UnsubscribeKeeps(s, instance);
      case Data(_, _) => CallbacksKeep(s, e);
      case Tick(_) => CallbacksKeep(s, e);
      case TopicClosed(_) => ReleaseKeeps(s, e);
      case TimerClosed => ReleaseKeeps(s, e);
      case Detach(instance) =>
        var rest := WithoutInstance(s.gets, instance);
        UnsubscribeKeeps(s.(gets := rest, abandoned := s.abandoned + (Tickets(s.gets) - Tickets(rest))), instance);
      case Destroy => DestroyKeeps(s);
    }
  }

  lemma ServedStep(s: State, e: Event)
    requires Served(s) && Possible(s, e)
    ensures Served(Step(s, e))
  {
  }

  // ---------------------------------------------------------------- the queue invariant

  ghost predicate Increasing(q: seq<nat>) {
    forall i, j :: 0 <= i < j < |q| ==> q[i] < q[j]
  }

  ghost function Waiting(gets: seq<Request>): seq<nat> {
    seq(|gets|, i requires 0 <= i < |gets| => gets[i].ticket)
  }

  ghost function Done(answered: seq<Answer>): seq<nat> {
    seq(|answered|, i requires 0 <= i < |answered| => answered[i].ticket)
  }

  /** Tickets in the order in which the queue settles them: those answered, then those waiting. */
  ghost function Order(answered: seq<Answer>, gets: seq<Request>): seq<nat> {
    Done(answered) + Waiting(gets)
  }

  /** First in, first out: the queue order is the order of the calls. Each call is in exactly one
      place: answered or waiting, refused at once, or abandoned. */
  ghost predicate Accounted(order: seq<nat>, refused: set<nat>, abandoned: set<nat>, calls: nat) {
    && Increasing(order)
    && refused !! abandoned
    && Members(order) !! refused
    && Members(order) !! abandoned
    && (forall t: nat :: t < calls <==> t in Members(order) + refused + abandoned)
  }

  ghost predicate Queue(s: State) {
    && Accounted(Order(s.answered, s.gets), s.refused, s.abandoned, s.calls)
    && |s.gets| <= MAX_PENDING + 1
  }

  lemma PushKeeps(order: seq<nat>, refused: set<nat>, abandoned: set<nat>, calls: nat)
    requires Accounted(order, refused, abandoned, calls)
    ensures Accounted(order + [calls], refused, abandoned, calls + 1)
    ensures Accounted(order, refused + {calls}, abandoned, calls + 1)
  {
    assert calls !in Members(order) + refused + abandoned;
    forall i | 0 <= i < |order| ensures order[i] < calls {
      assert order[i] in Members(order);
    }
    assert Members(order + [calls]) == Members(order) + {calls};
  }

  lemma GetQueue(s: State, e: Event)
    requires Queue(s) && e.GetLocation?
    ensures Queue(Step(s, e))
  {
    var t := Step(s, e);
    PushKeeps(Order(s.answered, s.gets), s.refused, s.abandoned, s.calls);
    if |t.gets| != |s.gets| {
      assert Order(t.answered, t.gets) == Order(s.answered, s.gets) + [s.calls];
    }
  }

  /** Settling from the front moves tickets from waiting to answered and keeps their order. */
  lemma SettleFront(s: State, n: nat)
    requires n <= |s.gets|
    ensures var t := ExpireStep(s, n); Order(t.answered, t.gets) == Order(s.answered, s.gets)
  {
    var t := ExpireStep(s, n);
    assert Done(t.answered) == Done(s.answered) + Waiting(s.gets[..n]);
    assert Waiting(s.gets) == Waiting(s.gets[..n]) + Waiting(s.gets[n..]);
  }

  lemma AnswerKeepsOrder(s: State)
    requires s.gets != []
    ensures var t := AnswerFront(s); Order(t.answered, t.gets) == Order(s.answered, s.gets)
  {
    var t := AnswerFront(s);
    assert Done(t.answered) == Done(s.answered) + [s.gets[0].ticket];
    assert Waiting(s.gets) == [s.gets[0].ticket] + Waiting(s.gets[1..]);
  }

  lemma WaitingMembers(gets: seq<Request>)
    ensures Members(Waiting(gets)) == Tickets(gets)
  {
    forall t ensures t in Members(Waiting(gets)) <==> t in Tickets(gets) {
      if t in Waiting(gets) {
        var i :| 0 <= i < |gets| && Waiting(gets)[i] == t;
        assert gets[i] in gets;
      }
      if t in Tickets(gets) {
        var r :| r in gets && r.ticket == t;
        var i :| 0 <= i < |gets| && gets[i] == r;
        assert Waiting(gets)[i] == t;
      }
    }
  }

  /** Removing the requests of one page keeps the order of the others. */
  lemma {:induction false} RemovalKeepsOrder(before: seq<nat>, gets: seq<Request>, instance: int)
    requires Increasing(before + Waiting(gets))
    ensures Increasing(before + Waiting(WithoutInstance(gets, instance)))
    ensures Tickets(WithoutInstance(gets, instance)) <= Tickets(gets)
    ensures |WithoutInstance(gets, instance)| <= |gets|
    decreases |gets|
  {
    if gets != [] {
      var rest := WithoutInstance(gets[1..], instance);
      assert Waiting(gets) == [gets[0].ticket] + Waiting(gets[1..]);
      assert before + Waiting(gets) == before + [gets[0].ticket] + Waiting(gets[1..]);
      if gets[0].instance == instance {
        var all := before + Waiting(gets);
        var fewer := before + Waiting(gets[1..]);
        forall i, j | 0 <= i < j < |fewer| ensures fewer[i] < fewer[j] {
          var i', j' := if i < |before| then i else i + 1, if j < |before| then j else j + 1;
          assert fewer[i] == all[i'] && fewer[j] == all[j'];
        }
        RemovalKeepsOrder(before, gets[1..], instance);
      } else {
        RemovalKeepsOrder(before + [gets[0].ticket], gets[1..], instance);
        assert gets == [gets[0]] + gets[1..];
        assert Tickets([gets[0]] + rest) == {gets[0].ticket} + Tickets(rest);
        assert before + Waiting([gets[0]] + rest) == before + [gets[0].ticket] + Waiting(rest);
      }
    }
  }

  /** Dropping requests from the queue makes exactly their promises abandoned. */
  lemma DropQueue(s: State, rest: seq<Request>)
    requires Queue(s) && Tickets(rest) <= Tickets(s.gets) && |rest| <= |s.gets|
    requires Increasing(Order(s.answered, rest))
    ensures Queue(s.(gets := rest, abandoned := s.abandoned + (Tickets(s.gets) - Tickets(rest))))
  {
    var done := Done(s.answered);
    WaitingMembers(s.gets);
    WaitingMembers(rest);
    var order, order' := Order(s.answered, s.gets), Order(s.answered, rest);
    assert Members(order) == Members(done) + Tickets(s.gets);
    assert Members(order') == Members(done) + Tickets(rest);
    assert Members(order') + s.refused + (s.abandoned + (Tickets(s.gets) - Tickets(rest)))
        == Members(order) + s.refused + s.abandoned;
    forall i, j | 0 <= i < |done| && 0 <= j < |s.gets| ensures done[i] != Waiting(s.gets)[j] {
      assert order[i] == done[i] && order[|done| + j] == Waiting(s.gets)[j];
    }
    assert Members(done) !! Members(Waiting(s.gets));
  }

  lemma DetachQueue(s: State, instance: int)
    requires Queue(s)
    ensures Queue(DetachStep(s, instance))
  {
    RemovalKeepsOrder(Done(s.answered), s.gets, instance);
    DropQueue(s, WithoutInstance(s.gets, instance));
  }

  lemma DestroyQueue(s: State)
    requires Queue(s)
    ensures Queue(DestroyStep(s))
  {
    var order := Order(s.answered, s.gets);
    assert forall i :: 0 <= i < |s.answered| ==> Order(s.answered, [])[i] == order[i];
    DropQueue(s, []);
    assert Tickets(s.gets) - Tickets([]) == Tickets(s.gets);
  }

  lemma QueueStep(s: State, e: Event)
    requires Queue(s)
    ensures Queue(Step(s, e))
  {
    match e {
      case GetLocation(_, _, _, _) => GetQueue(s, e);
      case Data(_, _) => if s.gets != [] { AnswerKeepsOrder(s); }
      case Tick(clock) => SettleFront(s, ExpiredPrefix(s.gets, clock, 0));
      case Detach(instance) => DetachQueue(s, instance);
      case Destroy => DestroyQueue(s);
      case _ =>
    }
  }

  // ---------------------------------------------------------------- subscribers

  /** A page has at most one subscription. */
  ghost predicate OneEach(subs: seq<Subscriber>) {
    forall i, j :: 0 <= i < j < |subs| ==> subs[i].instance != subs[j].instance
  }

  /** Unsubscribing removes the subscription of the page and keeps every other one, in order. */
  lemma {:induction false} WithoutSubIs(subs: seq<Subscriber>, instance: int)
    requires OneEach(subs)
    ensures OneEach(WithoutSub(subs, instance))
    ensures forall x :: x in WithoutSub(subs, instance) <==> x in subs && x.instance != instance
    decreases |subs|
  {
    if subs != [] {
      var first, rest := subs[0], subs[1..];
      assert subs == [first] + rest;
      WithoutSubIs(rest, instance);
      forall i | 0 <= i < |rest| ensures rest[i].instance != first.instance { assert rest[i] == subs[i + 1]; }
      var kept := WithoutSub(rest, instance);
      forall i | 0 <= i < |kept| ensures kept[i].instance != first.instance { assert kept[i] in rest; }
    }
  }

  /** The whole answer to a subscription: a page that has one keeps its place with the new callbacks; a
      new one goes last, behind a topic opened for it if nothing was going on; a refused one changes
      nothing. */
  lemma SubscribeExactly(s: State, instance: int, callback: int, fail: int, subscribed: bool)
    ensures var t, one := SubscribeStep(s, instance, callback, fail, subscribed), Subscriber(instance, callback, fail);
      var listed, idle := exists i :: 0 <= i < |s.subs| && s.subs[i].instance == instance, s.gets == [] && s.subs == [];
      && (listed ==>
            && |t.subs| == |s.subs| && t.topics == s.topics
            && forall i :: 0 <= i < |s.subs| ==> t.subs[i] == if s.subs[i].instance == instance then one else s.subs[i])
      && (!listed && (!idle || subscribed) ==>
            t.subs == s.subs + [one] && t.topics == if idle then s.topics + [s.topicsMade] else s.topics)
      && (!listed && idle && !subscribed ==> t.subs == s.subs && t.topics == s.topics)
      && t.gets == s.gets && t.answered == s.answered && t.closing == s.closing
      && forall x: Subscriber :: x.instance != instance ==> (x in t.subs <==> x in s.subs)
  {
    var t, one := SubscribeStep(s, instance, callback, fail, subscribed), Subscriber(instance, callback, fail);
    if Subscribed(s, instance) {
      forall x: Subscriber | x.instance != instance ensures x in t.subs <==> x in s.subs {
        if x in s.subs {
          var i :| 0 <= i < |s.subs| && s.subs[i] == x;
          assert t.subs[i] == x;
        }
      }
    }
  }

  /** The whole answer to an unsubscription. */
  lemma UnsubscribeExactly(s: State, instance: int)
    requires OneEach(s.subs)
    ensures var t := UnsubscribeStep(s, instance);
      && (forall i :: 0 <= i < |s.subs| && s.subs[i].instance == instance ==>
            t.subs == s.subs[..i] + s.subs[i + 1..])
      && ((forall i :: 0 <= i < |s.subs| ==> s.subs[i].instance != instance) ==> t == s)
      && t.gets == s.gets && t.answered == s.answered
      && GaveUp(s, t, t.subs != s.subs && t.gets == [] && t.subs == [])
  {
    forall i | 0 <= i < |s.subs| && s.subs[i].instance == instance
      ensures WithoutSub(s.subs, instance) == s.subs[..i] + s.subs[i + 1..]
    {
      WithoutSubAt(s.subs, instance, i);
    }
    if i :| 0 <= i < |s.subs| && s.subs[i].instance == instance {
      assert |WithoutSub(s.subs, instance)| == |s.subs| - 1;
    }
  }

  lemma {:induction false} WithoutSubAt(subs: seq<Subscriber>, instance: int, at: nat)
    requires at < |subs| && subs[at].instance == instance && OneEach(subs)
    ensures WithoutSub(subs, instance) == subs[..at] + subs[at + 1..]
    decreases |subs|
  {
    if at > 0 {
      WithoutSubAt(subs[1..], instance, at - 1);
      assert subs[..at] + subs[at + 1..] == [subs[0]] + (subs[1..][..at - 1] + subs[1..][at..]);
    }
  }

  /** The oldest topic was given up, or none. */
  ghost predicate GaveUp(s: State, t: State, gives: bool) {
    if gives && s.topics != [] then t.topics == s.topics[1..] && t.closing == s.closing + {s.topics[0]}
    else t.topics == s.topics && t.closing == s.closing
  }

  lemma DataExactly(s: State, samples: seq<bool>)
    ensures var t := DataStep(s, samples);
      && (if samples != [] && samples[|samples| - 1] && s.gets != []
          then t.answered == s.answered + [Located(s.gets[0].ticket)] && t.gets == s.gets[1..]
          else t.answered == s.answered && t.gets == s.gets)
      && t.subs == s.subs && GaveUp(s, t, samples != [] && t.gets == [] && t.subs == [])
  {
  }

  lemma GetExactly(s: State, instance: int, sec: int, timeout: int, subscribed: bool)
    ensures var t, idle := GetStep(s, instance, sec, timeout, subscribed), s.gets == [] && s.subs == [];
      && (|s.gets| > 100 || (idle && !subscribed) ==>
            t.gets == s.gets && t.topics == s.topics && t.refused == s.refused + {s.calls})
      && (|s.gets| <= 100 && (!idle || subscribed) ==>
            && t.gets == s.gets + [Request(s.calls, instance, sec, timeout)] && t.refused == s.refused
            && t.topics == if idle then s.topics + [s.topicsMade] else s.topics)
      && t.subs == s.subs && t.answered == s.answered && t.closing == s.closing
  {
  }

  lemma SubscribeOneEach(s: State, e: Event)
    requires OneEach(s.subs) && e.Subscribe?
    ensures OneEach(Step(s, e).subs)
  {
    if !Subscribed(s, e.instance) {
      forall i | 0 <= i < |s.subs| ensures s.subs[i].instance != e.instance { }
    }
  }

  lemma OneEachStep(s: State, e: Event)
    requires OneEach(s.subs)
    ensures OneEach(Step(s, e).subs)
  {
    match e {
      case Subscribe(_, _, _, _) => SubscribeOneEach(s, e);
      case Unsubscribe(instance) => WithoutSubIs(s.subs, instance);
      case Detach(instance) => WithoutSubIs(s.subs, instance);
      case _ =>
    }
  }

  lemma {:induction false} WithoutInstanceIs(gets: seq<Request>, instance: int)
    ensures forall r :: r in WithoutInstance(gets, instance) <==> r in gets && r.instance != instance
    decreases |gets|
  {
    if gets != [] {
      assert gets == [gets[0]] + gets[1..];
      WithoutInstanceIs(gets[1..], instance);
    }
  }

  // ---------------------------------------------------------------- what every run guarantees

  ghost predicate Inv(s: State) {
    Lifetime(s) && Served(s) && Queue(s) && OneEach(s.subs)
  }

  lemma {:induction false} RunKeeps(es: seq<Event>)
    requires Run(es)
    ensures Inv(After(es))
    decreases |es|
  {
    if es != [] {
      var s, e := After(es[..|es| - 1]), es[|es| - 1];
      RunKeeps(es[..|es| - 1]);
      LifetimeStep(s, e);
      ServedStep(s, e);
      QueueStep(s, e);
      OneEachStep(s, e);
    }
  }

  /** In every run a page has at most one subscription, and a page that detaches leaves neither a
      request nor a subscription behind, while those of every other page stay. */
  lemma DetachLeavesNothing(es: seq<Event>, instance: int)
    requires Run(es) && !After(es).destroyed
    ensures var s, t := After(es), DetachStep(After(es), instance);
      && OneEach(s.subs)
      && (forall r :: r in t.gets <==> r in s.gets && r.instance != instance)
      && (forall x :: x in t.subs <==> x in s.subs && x.instance != instance)
  {
    RunKeeps(es);
    var s := After(es);
    WithoutInstanceIs(s.gets, instance);
    WithoutSubIs(s.subs, instance);
    if !Subscribed(s, instance) {
      forall x | x in s.subs ensures x.instance != instance { }
    }
  }

  /** The context is deleted at most once; it has been deleted exactly when it was destroyed and
      every close callback has run; and then no callback or call can reach it any more. */
  lemma DeletedOnceAndLast(es: seq<Event>)
    requires Run(es)
    ensures var s := After(es);
      && s.deletions <= 1
      && (s.deletions == 1 <==> s.destroyed && s.timer == Closed && s.closing == {})
      && (s.deletions == 1 ==> forall e :: !Possible(s, e))
  {
    RunKeeps(es);
    var s := After(es);
    if s.deletions == 1 {
      forall e ensures !Possible(s, e) { }
    }
  }

  lemma Extend(es: seq<Event>, e: Event)
    requires Run(es) && Possible(After(es), e)
    ensures Run(es + [e]) && After(es + [e]) == Step(After(es), e)
  {
    assert (es + [e])[..|es + [e]| - 1] == es;
  }

  /** In every run: the reference count is the number of open handles, pending work has a live
      topic, at most 101 requests wait, and promises are settled from the queue once each and in
      the order of the calls. */
  lemma LocationInEveryRun(es: seq<Event>)
    requires Run(es)
    ensures var s := After(es);
      && s.refCount == TimerRef(s.timer) + |s.topics| + |s.closing|
      && (!s.destroyed && (s.gets != [] || s.subs != []) ==> s.topics != [])
      && |s.gets| <= 101
      && (forall i, j :: 0 <= i < j < |s.answered| ==> s.answered[i].ticket < s.answered[j].ticket)
      && (forall i, j :: 0 <= i < |s.answered| && 0 <= j < |s.gets| ==> s.answered[i].ticket < s.gets[j].ticket)
      && (forall i :: 0 <= i < |s.answered| ==> s.answered[i].ticket !in s.refused + s.abandoned)
  {
    RunKeeps(es);
    QueueMeans(After(es));
  }

  lemma QueueMeans(s: State)
    requires Queue(s)
    ensures forall i, j :: 0 <= i < j < |s.answered| ==> s.answered[i].ticket < s.answered[j].ticket
    ensures forall i, j :: 0 <= i < |s.answered| && 0 <= j < |s.gets| ==> s.answered[i].ticket < s.gets[j].ticket
    ensures forall i :: 0 <= i < |s.answered| ==> s.answered[i].ticket !in s.refused + s.abandoned
  {
    var order := Order(s.answered, s.gets);
    forall i, j | 0 <= i < j < |s.answered| ensures s.answered[i].ticket < s.answered[j].ticket {
      assert order[i] == s.answered[i].ticket && order[j] == s.answered[j].ticket;
    }
    forall i, j | 0 <= i < |s.answered| && 0 <= j < |s.gets| ensures s.answered[i].ticket < s.gets[j].ticket {
      assert order[i] == s.answered[i].ticket && order[|s.answered| + j] == s.gets[j].ticket;
    }
    forall i | 0 <= i < |s.answered| ensures s.answered[i].ticket !in s.refused + s.abandoned {
      assert order[i] == s.answered[i].ticket && order[i] in Members(order);
    }
  }

  /** A request has waited longer than its timeout, given in milliseconds; the times are in seconds. */
  predicate Overdue(r: Request, now: int) {
    if r.timeout >= 0 then 1000 * (now - r.sec) > r.timeout else 1000 * (now - r.sec - 1) >= r.timeout
  }

  lemma ExpiredIsOverdue(r: Request, now: int)
    ensures Expired(r, now) <==> Overdue(r, now)
  {
    var waited, t := now - r.sec, r.timeout;
    if t >= 0 {
      assert t == 1000 * (t / 1000) + t % 1000;
    } else {
      assert -t == 1000 * (-t / 1000) + -t % 1000;
    }
  }

  /** The timer rejects exactly the longest overdue prefix: everything in it had waited too long when it
      was looked at, and the first request left had not. */
  lemma {:induction false} LongestExpiredPrefix(gets: seq<Request>, clock: nat -> int, i: nat)
    requires i <= |gets|
    ensures var n := ExpiredPrefix(gets, clock, i);
      && (forall k :: i <= k < n ==> Overdue(gets[k], clock(k)))
      && (n < |gets| ==> !Overdue(gets[n], clock(n)))
    decreases |gets| - i
  {
    if i < |gets| {
      ExpiredIsOverdue(gets[i], clock(i));
      if Expired(gets[i], clock(i)) { LongestExpiredPrefix(gets, clock, i + 1); }
    }
  }

  ghost function Ticks(s: State, clocks: seq<nat -> int>): State
    decreases |clocks|
  {
    if clocks == [] then s else Ticks(TickStep(s, clocks[0]), clocks[1..])
  }

  /** An idle context gives up one leftover topic per tick until none is left. */
  lemma {:induction false} IdleTicksDrain(s: State, clocks: seq<nat -> int>)
    requires !Active(s)
    ensures Ticks(s, clocks).topics == if |clocks| < |s.topics| then s.topics[|clocks|..] else []
    ensures !Active(Ticks(s, clocks))
    decreases |clocks|
  {
    if clocks != [] {
      var t := TickStep(s, clocks[0]);
      assert s.gets[0..] == s.gets && !Active(t);
      IdleTicksDrain(t, clocks[1..]);
    }
  }
}
