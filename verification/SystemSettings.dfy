/** The settings client: requests are issued on the loop thread, replies arrive on the thread of the
    settings service and cross over through a mutex-guarded queue. Every interleaving of the two
    threads is a run of this state machine. */
module SystemSettings {

  type Handle = int
  type Id = nat   // identity of a request or subscription object, never reused

  datatype Subscription = Subscription(key: string, handle: Handle, cid: int)

  /** A cloned reply on its way to the object it was registered with. */
  datatype Message = Message(number: nat, target: Id)

  /** Where the service thread is: the reply is cloned before the mutex is taken. */
  datatype Worker = Resting | Cloned(msg: Message)

  /** Where the loop thread is. A request is inserted only after the service has accepted it, and a
      drain takes the queue under the mutex before it works through it. */
  datatype Loop =
    | Idle
    | InsertingRequest(id: Id, handle: Handle)
    | InsertingSubscription(id: Id, sub: Subscription)
    | Woken
    | Draining(batch: seq<Message>)

  /** A request is called with the message of the given number. */
  datatype Call = Call(number: nat, id: Id, handle: Handle)

  /** A subscription is told of the message with the given number. */
  datatype Notice = Notice(number: nat, id: Id, handle: Handle, cid: int)

  datatype State = State(
    requests: map<Id, Handle>,             // request_set_
    subs: map<Id, Subscription>,           // sub_set_
    queue: seq<Message>,                   // msg_queue_
    wake: bool,                            // the async handle has been signalled
    worker: Worker,
    loop: Loop,
    accepted: map<Id, Handle>,             // get and set requests the service has accepted
    registered: set<Id>,                   // subscriptions the service has accepted
    nextId: nat,
    cloned: nat,                           // messages cloned so far
    freed: seq<Message>,                   // messages freed, in order
    calls: seq<Call>,                      // requests answered, in order
    notices: seq<Notice>,                  // subscriptions told, in order
    detached: set<Handle>)

  const INITIAL: State := State(map[], map[], [], false, Resting, Idle, map[], {}, 0, 0, [], [], [], {})

  datatype Event =
    | BeginRequest(handle: Handle, accepted: bool)
    | InsertRequest
    | BeginSubscribe(key: string, handle: Handle, cid: int, accepted: bool)
    | InsertSubscription
    | Unsubscribe(key: string, handle: Handle, accepted: bool)
    | Detach(handle: Handle)
    | Reply(id: Id)      // service thread: the callback clones a message
    | Enqueue            // service thread: queue it and signal, under the mutex
    | Wake               // loop thread: the async callback starts
    | TakeQueue          // loop thread: move the queue out, under the mutex
    | Deliver            // loop thread: process one message

  /** The service replies, any number of times, to what it has accepted; the loop thread does one
      thing at a time; a detached page makes no more calls. */
  predicate Possible(s: State, e: Event) {
    match e
    case BeginRequest(handle, _) => s.loop.Idle? && handle !in s.detached
    case InsertRequest => s.loop.InsertingRequest?
    case BeginSubscribe(_, handle, _, _) => s.loop.Idle? && handle !in s.detached
    case InsertSubscription => s.loop.InsertingSubscription?
    case Unsubscribe(_, handle, _) => s.loop.Idle? && handle !in s.detached
    case Detach(_) => s.loop.Idle?
    case Reply(id) => s.worker.Resting? && (id in s.accepted || id in s.registered)
    case Enqueue => s.worker.Cloned?
    case Wake => s.loop.Idle? && s.wake
    case TakeQueue => s.loop.Woken?
    case Deliver => s.loop.Draining? && s.loop.batch != []
  }

  ghost predicate Has(subs: map<Id, Subscription>, key: string, handle: Handle) {
    exists i :: i in subs && subs[i].key == key && subs[i].handle == handle
  }

  function Drained(batch: seq<Message>): Loop {
    if batch == [] then Idle else Draining(batch)
  }

  /** One message: a listed request is called, unlisted and deleted; a listed subscription is
      called; in either case the message is freed. */
  function DeliverStep(s: State): State
    requires s.loop.Draining? && s.loop.batch != []
  {
    var m := s.loop.batch[0];
    Tell(Answer(s.(loop := Drained(s.loop.batch[1..]), freed := s.freed + [m]), m), m)
  }

  function Answer(s: State, m: Message): State {
    if m.target !in s.requests then s
    else s.(calls := s.calls + [Call(m.number, m.target, s.requests[m.target])], requests := s.requests - {m.target})
  }

  function Tell(s: State, m: Message): State {
    if m.target !in s.subs then s
    else s.(notices := s.notices + [Notice(m.number, m.target, s.subs[m.target].handle, s.subs[m.target].cid)])
  }

  function DetachStep(s: State, handle: Handle): State {
    s.(requests := map i | i in s.requests && s.requests[i] != handle :: s.requests[i],
       subs := map i | i in s.subs && s.subs[i].handle != handle :: s.subs[i],
       detached := s.detached + {handle})
  }

  ghost function Step(s: State, e: Event): State {
    if Possible(s, e) then Act(s, e) else s
  }

  ghost function Act(s: State, e: Event): State
    requires Possible(s, e)
  {
    match e
    case BeginRequest(handle, ok) =>
      var id := s.nextId;
      var s := s.(nextId := id + 1);
      if !ok then s else s.(accepted := s.accepted[id := handle], loop := InsertingRequest(id, handle))
    case InsertRequest => s.(requests := s.requests[s.loop.id := s.loop.handle], loop := Idle)
    case BeginSubscribe(key, handle, cid, ok) =>
      if Has(s.subs, key, handle) then
        s.(subs := map i | i in s.subs ::
          if s.subs[i].key == key && s.subs[i].handle == handle then Subscription(key, handle, cid) else s.subs[i])
      else
        var id := s.nextId;
        var s := s.(nextId := id + 1);
        if !ok then s
        else s.(registered := s.registered + {id}, loop := InsertingSubscription(id, Subscription(key, handle, cid)))
    case InsertSubscription => s.(subs := s.subs[s.loop.id := s.loop.sub], loop := Idle)
    case Unsubscribe(key, handle, ok) =>
      if !ok then s
      else s.(subs := map i | i in s.subs && !(s.subs[i].key == key && s.subs[i].handle == handle) :: s.subs[i])
    case Detach(handle) => DetachStep(s, handle)
    case Reply(id) => s.(worker := Cloned(Message(s.cloned, id)), cloned := s.cloned + 1)
    case Enqueue => s.(queue := s.queue + [s.worker.msg], wake := true, worker := Resting)
    case Wake => s.(wake := false, loop := Woken)
    case TakeQueue => s.(loop := Drained(s.queue), queue := [])
    case Deliver => DeliverStep(s)
  }

  ghost predicate Run(es: seq<Event>)
    decreases |es|
  {
    es == [] || (Run(es[..|es| - 1]) && Possible(After(es[..|es| - 1]), es[|es| - 1]))
  }

  ghost function After(es: seq<Event>): State
    decreases |es|
  {
    if es == [] then INITIAL else Step(After(es[..|es| - 1]), es[|es| - 1])
  }

  lemma Extend(es: seq<Event>, e: Event)
    requires Run(es) && Possible(After(es), e)
    ensures Run(es + [e]) && After(es + [e]) == Act(After(es), e)
  {
    assert (es + [e])[..|es + [e]| - 1] == es;
  }

  // ---------------------------------------------------------------- messages

  function Numbers(q: seq<Message>): seq<nat> {
    seq(|q|, i requires 0 <= i < |q| => q[i].number)
  }

  function Batch(l: Loop): seq<Message> {
    if l.Draining? then l.batch else []
  }

  function InHand(w: Worker): seq<Message> {
    if w.Cloned? then [w.msg] else []
  }

  /** Messages that still exist, oldest first. */
  function Live(s: State): seq<Message> {
    Batch(s.loop) + s.queue + InHand(s.worker)
  }

  ghost predicate CountsUp(q: seq<nat>, n: nat) {
    |q| == n && forall i :: 0 <= i < |q| ==> q[i] == i
  }

  /** Freed and live messages together are all messages ever cloned, each once and in the order in
      which they were cloned. */
  ghost predicate MessagesConserved(s: State) {
    CountsUp(Numbers(s.freed + Live(s)), s.cloned)
  }

  lemma Transfer(s: State, e: Event)
    requires Possible(s, e) && (e.Enqueue? || e.TakeQueue?)
    ensures Live(Step(s, e)) == Live(s) && Step(s, e).freed == s.freed && Step(s, e).cloned == s.cloned
  {
  }

  lemma ReplyMessages(s: State, id: Id)
    requires MessagesConserved(s) && Possible(s, Reply(id))
    ensures MessagesConserved(Step(s, Reply(id)))
  {
    var t := Step(s, Reply(id));
    assert t.freed + Live(t) == (s.freed + Live(s)) + [Message(s.cloned, id)];
    assert Numbers(t.freed + Live(t)) == Numbers(s.freed + Live(s)) + [s.cloned];
  }

  lemma DeliverMessages(s: State)
    requires Possible(s, Deliver)
    ensures var t := DeliverStep(s); t.freed + Live(t) == s.freed + Live(s)
  {
    var t, m := DeliverStep(s), s.loop.batch[0];
    assert Batch(t.loop) == s.loop.batch[1..];
    FirstMoves(s.freed, s.loop.batch, s.queue, InHand(s.worker));
  }

  lemma FirstMoves(freed: seq<Message>, batch: seq<Message>, queue: seq<Message>, hand: seq<Message>)
    requires batch != []
    ensures freed + [batch[0]] + (batch[1..] + queue + hand) == freed + (batch + queue + hand)
  {
    assert batch == [batch[0]] + batch[1..];
  }

  lemma MessagesStep(s: State, e: Event)
    requires MessagesConserved(s) && Possible(s, e)
    ensures MessagesConserved(Step(s, e))
  {
    match e {
      case Reply(id) => ReplyMessages(s, id);
      case Deliver => DeliverMessages(s);
      case Enqueue => Transfer(s, e);
      case TakeQueue => Transfer(s, e);
      case _ => assert Live(Step(s, e)) == Live(s);
    }
  }

  // ---------------------------------------------------------------- requests

  ghost predicate Called(calls: seq<Call>, id: Id) {
    exists i :: 0 <= i < |calls| && calls[i].id == id
  }

  /** A request the service has accepted is about to be inserted, listed, answered, or gone with its
      page; one that is answered is in no other place. */
  ghost predicate RequestsOk(s: State) {
    && (forall id :: id in s.accepted ==> id < s.nextId)
    && (forall id :: id in s.registered ==> id < s.nextId && id !in s.accepted)
    && (forall id :: id in s.requests ==>
          id in s.accepted && s.requests[id] == s.accepted[id] && s.accepted[id] !in s.detached)
    && (s.loop.InsertingRequest? ==>
          s.loop.id in s.accepted && s.accepted[s.loop.id] == s.loop.handle
          && s.loop.handle !in s.detached && s.loop.id !in s.requests)
    && (forall id :: id in s.accepted && s.accepted[id] !in s.detached ==>
          id in s.requests || Called(s.calls, id) || (s.loop.InsertingRequest? && s.loop.id == id))
  }

  /** A message is freed without a call only when its request was answered before, or its page has
      gone. */
  ghost predicate NothingLost(s: State) {
    forall i :: 0 <= i < |s.freed| ==>
      var id := s.freed[i].target;
      id in s.accepted && s.accepted[id] !in s.detached ==> Called(s.calls, id)
  }

  ghost predicate CallsOk(s: State) {
    && (forall i, j :: 0 <= i < j < |s.calls| ==> s.calls[i].id != s.calls[j].id)
    && (forall i :: 0 <= i < |s.calls| ==>
          s.calls[i].id in s.accepted && s.accepted[s.calls[i].id] == s.calls[i].handle && s.calls[i].id !in s.requests)
    && (s.loop.InsertingRequest? ==> !Called(s.calls, s.loop.id))
  }

  /** No wakeup is lost: a queued message is announced, or the loop is about to take the queue. */
  ghost predicate WakeOk(s: State) {
    s.queue != [] ==> s.wake || s.loop.Woken?
  }

  /** At most one subscription per key and page. */
  ghost predicate OnePerKey(subs: map<Id, Subscription>) {
    forall i, j :: i in subs && j in subs && subs[i].key == subs[j].key && subs[i].handle == subs[j].handle ==> i == j
  }

  ghost predicate SubsOk(s: State) {
    && OnePerKey(s.subs)
    && (forall i :: i in s.subs ==> i in s.registered && s.subs[i].handle !in s.detached)
    && (s.loop.InsertingSubscription? ==>
          && !Has(s.subs, s.loop.sub.key, s.loop.sub.handle)
          && s.loop.id in s.registered && s.loop.sub.handle !in s.detached)
  }

  ghost predicate Inv(s: State) {
    MessagesConserved(s) && TargetsOk(s) && RequestsOk(s) && NothingLost(s) && CallsOk(s) && WakeOk(s) && SubsOk(s)
    && NoticesOk(s.notices, |s.freed|) && CausedOk(s.calls, s.notices, s.freed)
  }

  lemma CalledGrows(calls: seq<Call>, c: Call)
    ensures forall id :: Called(calls + [c], id) <==> Called(calls, id) || id == c.id
  {
    forall id ensures Called(calls + [c], id) <==> Called(calls, id) || id == c.id {
      if Called(calls, id) {
        var i :| 0 <= i < |calls| && calls[i].id == id;
        assert (calls + [c])[i].id == id;
      }
      assert (calls + [c])[|calls|] == c;
    }
  }

  lemma DeliverRequests(s: State)
    requires RequestsOk(s) && CallsOk(s) && Possible(s, Deliver)
    ensures RequestsOk(DeliverStep(s)) && CallsOk(DeliverStep(s))
  {
    if s.loop.batch[0].target in s.requests {
      CalledGrows(s.calls, DeliverStep(s).calls[|s.calls|]);
    }
  }

  lemma IssueRequests(s: State, e: Event)
    requires RequestsOk(s) && CallsOk(s) && Possible(s, e) && e.BeginRequest?
    ensures RequestsOk(Step(s, e)) && CallsOk(Step(s, e))
  {
    assert !Called(s.calls, s.nextId);
  }

  lemma SubscribeRequests(s: State, e: Event)
    requires RequestsOk(s) && CallsOk(s) && Possible(s, e) && e.BeginSubscribe?
    ensures RequestsOk(Step(s, e)) && CallsOk(Step(s, e))
  {
  }

  lemma DetachRequests(s: State, h: Handle)
    requires RequestsOk(s) && CallsOk(s) && Possible(s, Detach(h))
    ensures RequestsOk(DetachStep(s, h)) && CallsOk(DetachStep(s, h))
  {
  }

  lemma RequestsStep(s: State, e: Event)
    requires RequestsOk(s) && CallsOk(s) && Possible(s, e)
    ensures RequestsOk(Step(s, e)) && CallsOk(Step(s, e))
  {
    match e {
      case Deliver => DeliverRequests(s);
      case Detach(h) => DetachRequests(s, h);
      case BeginRequest(_, _) => IssueRequests(s, e);
      case BeginSubscribe(_, _, _, _) => SubscribeRequests(s, e);
      case _ =>
    }
  }

  lemma BeginSubs(s: State, e: Event)
    requires SubsOk(s) && Possible(s, e) && e.BeginSubscribe?
    ensures SubsOk(Step(s, e))
  {
  }

  lemma SubsStep(s: State, e: Event)
    requires SubsOk(s) && Possible(s, e)
    ensures SubsOk(Step(s, e))
  {
    if e.BeginSubscribe? { BeginSubs(s, e); }
  }

  lemma NothingLostStep(s: State, e: Event)
    requires NothingLost(s) && RequestsOk(s) && TargetsOk(s) && Possible(s, e)
    ensures NothingLost(Step(s, e))
  {
    if e.Deliver? { DeliverLosesNothing(s); }
  }

  lemma DeliverLosesNothing(s: State)
    requires NothingLost(s) && RequestsOk(s) && Possible(s, Deliver)
    ensures NothingLost(DeliverStep(s))
  {
    if s.loop.batch[0].target in s.requests {
      CalledGrows(s.calls, DeliverStep(s).calls[|s.calls|]);
    }
  }

  /** Messages are addressed to objects that exist. */
  ghost predicate TargetsOk(s: State) {
    && (forall m :: m in s.freed ==> m.target < s.nextId)
    && (forall m :: m in Live(s) ==> m.target < s.nextId)
  }

  lemma DeliverTargets(s: State)
    requires TargetsOk(s) && Possible(s, Deliver)
    ensures TargetsOk(DeliverStep(s))
  {
    var t := DeliverStep(s);
    DeliverMessages(s);
    assert forall m :: m in t.freed || m in Live(t) <==> m in t.freed + Live(t);
    assert forall m :: m in s.freed + Live(s) <==> m in s.freed || m in Live(s);
  }

  lemma ReplyTargets(s: State, id: Id)
    requires TargetsOk(s) && RequestsOk(s) && Possible(s, Reply(id))
    ensures TargetsOk(Step(s, Reply(id)))
  {
    var t := Step(s, Reply(id));
    assert Live(t) == Live(s) + [Message(s.cloned, id)];
  }

  lemma TargetsStep(s: State, e: Event)
    requires TargetsOk(s) && RequestsOk(s) && Possible(s, e)
    ensures TargetsOk(Step(s, e))
  {
    match e {
      case Reply(id) => ReplyTargets(s, id);
      case Deliver => DeliverTargets(s);
      case Enqueue => Transfer(s, e);
      case TakeQueue => Transfer(s, e);
      case _ => QuietTargets(s, e);
    }
  }

  /** Events that move no message and hand out no smaller identity. */
  lemma QuietTargets(s: State, e: Event)
    requires TargetsOk(s) && Possible(s, e) && !e.Reply? && !e.Deliver? && !e.Enqueue? && !e.TakeQueue?
    ensures TargetsOk(Step(s, e))
  {
    assert Live(Step(s, e)) == Live(s) && Step(s, e).freed == s.freed && s.nextId <= Step(s, e).nextId;
  }

  lemma StepKeeps(s: State, e: Event)
    requires Inv(s) && Possible(s, e)
    ensures Inv(Step(s, e))
  {
    MessagesStep(s, e);
    TargetsStep(s, e);
    NothingLostStep(s, e);
    RequestsStep(s, e);
    WakeStep(s, e);
    SubsStep(s, e);
    NoticesStep(s, e);
    CausedStep(s, e);
  }

  /** Whoever is called or told gets a message that was addressed to it and has left the queue. */
  ghost predicate CausedOk(calls: seq<Call>, notices: seq<Notice>, freed: seq<Message>) {
    && (forall i :: 0 <= i < |calls| ==> calls[i].number < |freed| && freed[calls[i].number].target == calls[i].id)
    && (forall i :: 0 <= i < |notices| ==>
          notices[i].number < |freed| && freed[notices[i].number].target == notices[i].id)
  }

  lemma CausedStep(s: State, e: Event)
    requires MessagesConserved(s) && CausedOk(s.calls, s.notices, s.freed) && Possible(s, e)
    ensures var t := Step(s, e); CausedOk(t.calls, t.notices, t.freed)
  {
    if e.Deliver? {
      NextNumber(s);
      CausedMore(s.calls, s.notices, s.freed, s.loop.batch[0]);
    } else {
      QuietStep(s, e);
    }
  }

  lemma CausedMore(calls: seq<Call>, notices: seq<Notice>, freed: seq<Message>, m: Message)
    requires CausedOk(calls, notices, freed) && m.number == |freed|
    ensures CausedOk(calls, notices, freed + [m])
    ensures forall h :: CausedOk(calls + [Call(m.number, m.target, h)], notices, freed + [m])
    ensures forall h, cid :: CausedOk(calls, notices + [Notice(m.number, m.target, h, cid)], freed + [m])
    ensures forall g, h, cid ::
      CausedOk(calls + [Call(m.number, m.target, g)], notices + [Notice(m.number, m.target, h, cid)], freed + [m])
  {
  }

  /** A message makes at most one notice, after it was taken from the queue, and in message order. */
  ghost predicate NoticesOk(notices: seq<Notice>, freed: nat) {
    && (forall i, j :: 0 <= i < j < |notices| ==> notices[i].number < notices[j].number)
    && (forall i :: 0 <= i < |notices| ==> notices[i].number < freed)
  }

  lemma NextNumber(s: State)
    requires MessagesConserved(s) && Possible(s, Deliver)
    ensures s.loop.batch[0].number == |s.freed|
  {
    var all := s.freed + Live(s);
    assert all[|s.freed|] == s.loop.batch[0];
    assert Numbers(all)[|s.freed|] == all[|s.freed|].number;
  }

  lemma NoticesStep(s: State, e: Event)
    requires MessagesConserved(s) && NoticesOk(s.notices, |s.freed|) && Possible(s, e)
    ensures NoticesOk(Step(s, e).notices, |Step(s, e).freed|)
  {
    if e.Deliver? { NextNumber(s); } else { QuietStep(s, e); }
  }

  lemma WakeStep(s: State, e: Event)
    requires WakeOk(s) && Possible(s, e)
    ensures WakeOk(Step(s, e))
  {
  }

  lemma {:induction false} RunKeeps(es: seq<Event>)
    requires Run(es)
    ensures Inv(After(es))
    decreases |es|
  {
    if es != [] {
      RunKeeps(es[..|es| - 1]);
      StepKeeps(After(es[..|es| - 1]), es[|es| - 1]);
    }
  }

  // ---------------------------------------------------------------- what every run guarantees

  /** In every interleaving: a request is called at most once; messages are freed exactly once and
      in the order in which they were cloned; a page holds at most one subscription per key. */
  lemma SettingsInEveryRun(es: seq<Event>)
    requires Run(es)
    ensures var s := After(es);
      && (forall i, j :: 0 <= i < j < |s.calls| ==> s.calls[i].id != s.calls[j].id)
      && (forall i :: 0 <= i < |s.freed| ==> s.freed[i].number == i)
      && (forall m :: m in Live(s) ==> |s.freed| <= m.number < s.cloned)
      && OnePerKey(s.subs)
  {
    RunKeeps(es);
    MessagesMean(After(es));
  }

  lemma MessagesMean(s: State)
    requires MessagesConserved(s)
    ensures forall i :: 0 <= i < |s.freed| ==> s.freed[i].number == i
    ensures forall m :: m in Live(s) ==> |s.freed| <= m.number < s.cloned
  {
    var all := s.freed + Live(s);
    assert forall i :: 0 <= i < |all| ==> Numbers(all)[i] == all[i].number;
    assert forall i :: 0 <= i < |s.freed| ==> all[i] == s.freed[i];
    forall m | m in Live(s) ensures |s.freed| <= m.number < s.cloned {
      var i :| 0 <= i < |Live(s)| && Live(s)[i] == m;
      assert all[|s.freed| + i] == m;
    }
  }

  /** A reply is never lost, however the threads interleave: also when it was queued before its
      request was inserted, the request has been called by the time the message is freed, unless
      the page went away. And a queued reply always gets its turn announced. */
  lemma ReplyIsDelivered(es: seq<Event>, i: nat)
    requires Run(es) && i < |After(es).freed|
    ensures var s := After(es);
      var id := s.freed[i].target;
      id in s.accepted && s.accepted[id] !in s.detached ==> Called(s.calls, id)
    ensures After(es).queue != [] ==> After(es).wake || After(es).loop.Woken?
  {
    RunKeeps(es);
  }

  /** Between the two states no request of the page was called and no subscription of it told. */
  ghost predicate Silent(s: State, t: State, h: Handle) {
    && s.calls <= t.calls && s.notices <= t.notices
    && (forall i :: |s.calls| <= i < |t.calls| ==> t.calls[i].handle != h)
    && (forall i :: |s.notices| <= i < |t.notices| ==> t.notices[i].handle != h)
  }

  lemma SilentOn(r: State, s: State, t: State, h: Handle)
    requires Silent(r, s, h) && Silent(s, t, h)
    ensures Silent(r, t, h)
  {
  }

  lemma DeliverCall(s: State, h: Handle)
    requires RequestsOk(s) && SubsOk(s) && Possible(s, Deliver) && h in s.detached
    ensures var t := DeliverStep(s);
      h in t.detached && Silent(s, t, h)
  {
    var m := s.loop.batch[0];
    assert m.target in s.requests ==> s.requests[m.target] != h;
    assert m.target in s.subs ==> s.subs[m.target].handle != h;
  }

  lemma QuietStep(s: State, e: Event)
    requires Possible(s, e) && !e.Deliver?
    ensures var t := Step(s, e);
      t.calls == s.calls && t.notices == s.notices && t.freed == s.freed && s.detached <= t.detached
  {
  }

  lemma CallStep(s: State, e: Event, h: Handle)
    requires RequestsOk(s) && SubsOk(s) && Possible(s, e) && h in s.detached
    ensures var t := Step(s, e);
      h in t.detached && Silent(s, t, h)
  {
    if e.Deliver? { DeliverCall(s, h); } else { QuietStep(s, e); }
  }

  /** Once a page is detached none of its requests is called any more, and none of its subscriptions
      is told anything. */
  lemma {:induction false} NoCallAfterDetach(es: seq<Event>, k: nat)
    requires Run(es) && k < |es| && es[k].Detach?
    ensures var before, s := After(es[..k]), After(es);
      es[k].handle in s.detached && Silent(before, s, es[k].handle)
    decreases |es|
  {
    var pre, e := es[..|es| - 1], es[|es| - 1];
    if k == |es| - 1 {
      assert es[..k] == pre;
      DetachSilent(After(pre), e.handle);
    } else {
      assert pre[..k] == es[..k];
      NoCallAfterDetach(pre, k);
      CallOfRun(pre, e, es[k].handle);
      SilentOn(After(es[..k]), After(pre), After(es), es[k].handle);
    }
  }

  lemma DetachSilent(s: State, h: Handle)
    requires Possible(s, Detach(h))
    ensures h in Step(s, Detach(h)).detached && Silent(s, Step(s, Detach(h)), h)
  {
  }

  lemma CallOfRun(es: seq<Event>, e: Event, h: Handle)
    requires Run(es) && Possible(After(es), e) && h in After(es).detached
    ensures h in Step(After(es), e).detached && Silent(After(es), Step(After(es), e), h)
  {
    RunKeeps(es);
    CallStep(After(es), e, h);
  }

  /** A subscription that is neither listed nor about to be. */
  predicate Gone(s: State, id: Id) {
    id < s.nextId && id !in s.subs && !(s.loop.InsertingSubscription? && s.loop.id == id)
  }

  lemma GoneStep(s: State, e: Event, id: Id)
    requires Possible(s, e) && Gone(s, id)
    ensures var t := Step(s, e);
      Gone(t, id) && s.notices <= t.notices && forall i :: |s.notices| <= i < |t.notices| ==> t.notices[i].id != id
  {
  }

  /** Once a subscription was cancelled it is not told anything any more, even if its messages are
      still queued. */
  lemma {:induction false} NoNoticeAfterUnsubscribe(es: seq<Event>, k: nat, id: Id)
    requires Run(es) && k < |es| && es[k].Unsubscribe? && es[k].accepted
    requires var subs := After(es[..k]).subs; id in subs && subs[id].key == es[k].key && subs[id].handle == es[k].handle
    ensures var before, s := After(es[..k]), After(es);
      && Gone(s, id) && before.notices <= s.notices
      && forall i :: |before.notices| <= i < |s.notices| ==> s.notices[i].id != id
    decreases |es|
  {
    var pre := es[..|es| - 1];
    RunKeeps(pre);
    if k == |es| - 1 {
      assert es[..k] == pre;
    } else {
      assert pre[..k] == es[..k];
      NoNoticeAfterUnsubscribe(pre, k, id);
      GoneStep(After(pre), es[|es| - 1], id);
    }
  }

  /** A delivered message tells its subscription exactly when that is listed, once, under the callback
      it has by then; and it answers no request instead. */
  lemma NoticeExactly(es: seq<Event>)
    requires Run(es) && Possible(After(es), Deliver)
    ensures var s, m := After(es), After(es).loop.batch[0];
      var t := Step(s, Deliver);
      && t.freed == s.freed + [m]
      && (m.target in s.subs ==>
            t.calls == s.calls && m.target !in s.requests
            && t.notices == s.notices + [Notice(|s.freed|, m.target, s.subs[m.target].handle, s.subs[m.target].cid)])
      && (m.target !in s.subs ==> t.notices == s.notices)
  {
    RunKeeps(es);
    NextNumber(After(es));
  }

  /** In every run each request that was called, and each subscription that was told, got a message that
      was addressed to it. */
  lemma MessagesReachTheirTargets(es: seq<Event>)
    requires Run(es)
    ensures var s := After(es);
      && (forall i :: 0 <= i < |s.calls| ==>
            s.calls[i].number < |s.freed| && s.freed[s.calls[i].number].target == s.calls[i].id)
      && (forall i :: 0 <= i < |s.notices| ==>
            s.notices[i].number < |s.freed| && s.freed[s.notices[i].number].target == s.notices[i].id)
  {
    RunKeeps(es);
  }

  /** In every run the notices name distinct messages, in the order in which they were cloned, and
      only messages that have been taken from the queue. */
  lemma NoticesInEveryRun(es: seq<Event>)
    requires Run(es)
    ensures var s := After(es);
      && (forall i, j :: 0 <= i < j < |s.notices| ==> s.notices[i].number < s.notices[j].number)
      && (forall i :: 0 <= i < |s.notices| ==> s.notices[i].number < |s.freed|)
  {
    RunKeeps(es);
  }
}
