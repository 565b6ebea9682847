/** Replies racing timeouts on the client task board.

    The reply object of a message executes a *copy* of the board: the copied list shares its tasks
    with the original, so a task is marked done in both, but it is erased from the copy only. The
    model keeps every task ever committed; the board is the subset of those still listed. */
module MessageTransport {

  /** A committed task and its reply object. `timer` is the timer pointer of the task, `armed` says
      that the event loop will still fire it; `linked` and `heard` are the two pointers of the reply
      object, to the connection and to the client callbacks. */
  datatype Task = Task(id: int, pid: int, done: bool, timer: bool, armed: bool, linked: bool, heard: bool, listed: bool)

  datatype Callback = OnMessage(task: nat, message: string) | OnTimeOut(task: nat)

  datatype State = State(tasks: seq<Task>, log: seq<Callback>)

  const INITIAL: State := State([], [])

  datatype Event =
    | Commit(id: int, pid: int)
    | Reply(task: nat, message: string)
    | Timeout(task: nat)
    | Clear

  /** Reply objects are alive while their task exists, so their identities differ; a timer fires
      only while it is armed. A reply may arrive at any time, late or repeatedly. */
  ghost predicate Possible(s: State, e: Event) {
    match e
    case Commit(id, _) => forall k :: 0 <= k < |s.tasks| ==> s.tasks[k].id != id
    case Reply(k, _) => k < |s.tasks|
    case Timeout(k) => k < |s.tasks| && s.tasks[k].armed
    case Clear => true
  }

  // ---------------------------------------------------------------- executing a board

  /** What one task goes through when a board holding it is executed for the reply `id`. */
  function ExecuteOne(t: Task, id: int): Task {
    if t.done then t.(timer := false, armed := false)
    else if t.id == id then t.(done := true, timer := false, armed := false)
    else t
  }

  predicate Answers(t: Task, id: int) {
    !t.done && t.id == id
  }

  /** The callbacks of executing the first `n` tasks, in order. */
  function Calls(ts: seq<Task>, id: int, message: string, n: nat): seq<Callback>
    requires n <= |ts|
  {
    if n == 0 then []
    else if ts[n - 1].listed && Answers(ts[n - 1], id) && ts[n - 1].heard then
      Calls(ts, id, message, n - 1) + [OnMessage(n - 1, message)]
    else Calls(ts, id, message, n - 1)
  }

  /** `inPlace` is the variant that would erase from the original list as well. */
  function ExecuteBoard(ts: seq<Task>, id: int, inPlace: bool): seq<Task> {
    seq(|ts|, k requires 0 <= k < |ts| =>
      if !ts[k].listed then ts[k]
      else
        var t := ExecuteOne(ts[k], id);
        if inPlace && t.done then t.(listed := false) else t)
  }

  /** What a task goes through when its timer fires; an unsettled one tells the client. */
  function TimeOutOne(t: Task): Task {
    t.(armed := false, done := true)
  }

  predicate TimesOut(t: Task) {
    !t.done && t.heard
  }

  function ClearOne(t: Task): Task {
    if t.listed then t.(timer := false, armed := false, linked := false, heard := false, listed := false) else t
  }

  function Step(s: State, e: Event, inPlace: bool): State {
    match e
    case Commit(id, pid) => s.(tasks := s.tasks + [Task(id, pid, false, true, true, true, true, true)])
    case Reply(k, message) =>
      if k >= |s.tasks| || !s.tasks[k].linked then s
      else
        State(ExecuteBoard(s.tasks, s.tasks[k].id, inPlace),
              s.log + Calls(s.tasks, s.tasks[k].id, message, |s.tasks|))
    case Timeout(k) =>
      if k >= |s.tasks| then s
      else State(s.tasks[k := TimeOutOne(s.tasks[k])], if TimesOut(s.tasks[k]) then s.log + [OnTimeOut(k)] else s.log)
    case Clear => s.(tasks := seq(|s.tasks|, k requires 0 <= k < |s.tasks| => ClearOne(s.tasks[k])))
  }

  // ---------------------------------------------------------------- runs

  ghost predicate Run(es: seq<Event>)
    decreases |es|
  {
    es == [] || (Run(es[..|es| - 1]) && Possible(After(es[..|es| - 1], false), es[|es| - 1]))
  }

  ghost function After(es: seq<Event>, inPlace: bool): State
    decreases |es|
  {
    if es == [] then INITIAL else Step(After(es[..|es| - 1], inPlace), es[|es| - 1], inPlace)
  }

  /** A task that can no longer produce a callback, whatever happens to it. */
  predicate Muted(t: Task) {
    !t.armed && !t.linked && !t.heard && !t.listed
  }

  /** An unsettled task is muted by a clear or has a live timer; a settled one has none. */
  predicate TaskOk(t: Task) {
    && (t.done ==> !t.armed)
    && (!t.done && !Muted(t) ==> t.timer && t.armed && t.linked && t.heard && t.listed)
    && (!t.listed ==> Muted(t))
  }

  ghost predicate LogOk(log: seq<Callback>, ts: seq<Task>) {
    && (forall i, j :: 0 <= i < j < |log| ==> log[i].task != log[j].task)
    && (forall i :: 0 <= i < |log| ==> log[i].task < |ts| && ts[log[i].task].done)
  }

  ghost predicate DistinctIds(ts: seq<Task>) {
    forall i, j :: 0 <= i < j < |ts| ==> ts[i].id != ts[j].id
  }

  ghost predicate Inv(s: State) {
    && DistinctIds(s.tasks)
    && (forall k :: 0 <= k < |s.tasks| ==> TaskOk(s.tasks[k]))
    && LogOk(s.log, s.tasks)
  }

  /** With distinct identities a reply is heard by its own task or by none. */
  lemma {:induction false} CallsAreOwn(ts: seq<Task>, k: nat, message: string, n: nat)
    requires k < |ts| && n <= |ts| && DistinctIds(ts)
    ensures Calls(ts, ts[k].id, message, n) ==
      if k < n && ts[k].listed && !ts[k].done && ts[k].heard then [OnMessage(k, message)] else []
  {
    if n > 0 {
      CallsAreOwn(ts, k, message, n - 1);
    }
  }

  lemma LogGrows(s: State, t: State, k: nat, c: Callback)
    requires LogOk(s.log, s.tasks) && |t.tasks| == |s.tasks|
    requires forall i :: 0 <= i < |s.tasks| && s.tasks[i].done ==> t.tasks[i].done
    requires k < |s.tasks| && !s.tasks[k].done && t.tasks[k].done && c.task == k
    requires t.log == s.log + [c]
    ensures LogOk(t.log, t.tasks)
  {
  }

  lemma ReplyKeeps(s: State, k: nat, message: string)
    requires Inv(s) && k < |s.tasks|
    ensures Inv(Step(s, Reply(k, message), false))
  {
    var t := Step(s, Reply(k, message), false);
    CallsAreOwn(s.tasks, k, message, |s.tasks|);
    if t.log != s.log {
      LogGrows(s, t, k, OnMessage(k, message));
    }
  }

  lemma StepKeeps(s: State, e: Event)
    requires Inv(s) && Possible(s, e)
    ensures Inv(Step(s, e, false))
  {
    match e {
      case Commit(id, pid) =>
      case Reply(k, message) => ReplyKeeps(s, k, message);
      case Timeout(k) =>
        var t := Step(s, e, false);
        if t.log != s.log { LogGrows(s, t, k, OnTimeOut(k)); }
      case Clear =>
    }
  }

  lemma {:induction false} RunKeeps(es: seq<Event>)
    requires Run(es)
    ensures Inv(After(es, false))
    decreases |es|
  {
    if es != [] {
      RunKeeps(es[..|es| - 1]);
      StepKeeps(After(es[..|es| - 1], false), es[|es| - 1]);
    }
  }

  /** In every history each task causes at most one client callback, a reply or a timeout, and
      every unsettled task that has not been cleared has a live timer that will settle it. */
  lemma AtMostOneCallback(es: seq<Event>)
    requires Run(es)
    ensures var s := After(es, false);
      && (forall i, j :: 0 <= i < j < |s.log| ==> s.log[i].task != s.log[j].task)
      && (forall k :: 0 <= k < |s.tasks| && !s.tasks[k].done && s.tasks[k].listed ==>
            s.tasks[k].timer && s.tasks[k].armed)
  {
    RunKeeps(es);
  }

  // ---------------------------------------------------------------- exactly one callback

  ghost predicate InLog(log: seq<Callback>, k: nat) {
    exists i :: 0 <= i < |log| && log[i].task == k
  }

  lemma InLogGrows(log: seq<Callback>, c: Callback, k: nat)
    ensures InLog(log + [c], k) <==> InLog(log, k) || c.task == k
  {
    if i :| 0 <= i < |log| && log[i].task == k { assert (log + [c])[i].task == k; }
    assert (log + [c])[|log|] == c;
  }

  /** A timeout that is possible always reaches its client, and settles the task. */
  lemma TimeoutIsHeard(es: seq<Event>, k: nat)
    requires Run(es) && Possible(After(es, false), Timeout(k))
    ensures var s, t := After(es, false), Step(After(es, false), Timeout(k), false);
      && t.log == s.log + [OnTimeOut(k)]
      && !s.tasks[k].done && t.tasks[k].done && !t.tasks[k].armed
      && forall j :: 0 <= j < |s.tasks| && j != k ==> t.tasks[j] == s.tasks[j]
  {
    RunKeeps(es);
    assert TaskOk(After(es, false).tasks[k]);
  }

  /** A reply reaches its client exactly when its task is listed and unsettled; it settles no other. */
  lemma ReplyIsHeard(es: seq<Event>, k: nat, message: string)
    requires Run(es) && k < |After(es, false).tasks|
    ensures var s, t := After(es, false), Step(After(es, false), Reply(k, message), false);
      && t.log == (if s.tasks[k].listed && !s.tasks[k].done then s.log + [OnMessage(k, message)] else s.log)
      && (s.tasks[k].listed ==> t.tasks[k].done && !t.tasks[k].armed)
      && |t.tasks| == |s.tasks|
      && forall j :: 0 <= j < |s.tasks| && j != k ==> t.tasks[j].done == s.tasks[j].done
  {
    RunKeeps(es);
    var s := After(es, false);
    assert TaskOk(s.tasks[k]);
    CallsAreOwn(s.tasks, k, message, |s.tasks|);
    ReplySettles(s, k, message);
  }

  lemma ReplySettles(s: State, k: nat, message: string)
    requires Inv(s) && k < |s.tasks|
    ensures var t := Step(s, Reply(k, message), false);
      && |t.tasks| == |s.tasks|
      && (s.tasks[k].linked ==> (s.tasks[k].listed ==> t.tasks[k].done && !t.tasks[k].armed))
      && (s.tasks[k].listed ==> s.tasks[k].linked || s.tasks[k].done)
      && (forall j :: 0 <= j < |s.tasks| && j != k ==> t.tasks[j].done == s.tasks[j].done)
      && (!s.tasks[k].linked ==> t == s)
      && (s.tasks[k].done ==> !s.tasks[k].armed)
      && (!s.tasks[k].listed ==> t.tasks[k].done == s.tasks[k].done)
  {
    assert TaskOk(s.tasks[k]);
    forall j | 0 <= j < |s.tasks| && j != k ensures s.tasks[j].id != s.tasks[k].id { }
  }

  ghost predicate AllLogged(s: State) {
    forall k :: 0 <= k < |s.tasks| && s.tasks[k].done ==> InLog(s.log, k)
  }

  lemma SettledNext(pre: seq<Event>, e: Event)
    requires Run(pre) && Possible(After(pre, false), e) && AllLogged(After(pre, false))
    ensures AllLogged(Step(After(pre, false), e, false))
  {
    var s, t := After(pre, false), Step(After(pre, false), e, false);
    match e {
      case Commit(_, _) =>
        forall k | 0 <= k < |t.tasks| && t.tasks[k].done ensures InLog(t.log, k) {
          assert s.tasks[k].done && InLog(s.log, k);
        }
      case Reply(k, message) =>
        ReplyIsHeard(pre, k, message);
        RunKeeps(pre);
        ReplySettles(s, k, message);
        if t.log != s.log { forall j { InLogGrows(s.log, OnMessage(k, message), j); } }
      case Timeout(k) =>
        TimeoutIsHeard(pre, k);
        forall j { InLogGrows(s.log, OnTimeOut(k), j); }
      case Clear =>
        forall k | 0 <= k < |t.tasks| && t.tasks[k].done ensures InLog(t.log, k) {
          assert s.tasks[k].done && InLog(s.log, k);
        }
    }
  }

  lemma {:induction false} SettledAreLogged(es: seq<Event>)
    requires Run(es)
    ensures AllLogged(After(es, false))
    decreases |es|
  {
    if es != [] {
      SettledAreLogged(es[..|es| - 1]);
      SettledNext(es[..|es| - 1], es[|es| - 1]);
    }
  }

  /** In every history a task is settled exactly when its client has heard of it, and the client has
      heard of it once. */
  lemma ExactlyOneCallback(es: seq<Event>, k: nat)
    requires Run(es) && k < |After(es, false).tasks|
    ensures After(es, false).tasks[k].done <==> InLog(After(es, false).log, k)
    ensures var log := After(es, false).log; forall i, j :: 0 <= i < j < |log| ==> log[i].task != log[j].task
  {
    RunKeeps(es);
    SettledAreLogged(es);
  }

  /** A task is on the board from its commit until the next clear. */
  lemma ListedStep(s: State, e: Event, k: nat)
    requires k < |s.tasks|
    ensures var t := Step(s, e, false);
      k < |t.tasks| && (t.tasks[k].listed <==> s.tasks[k].listed && !e.Clear?)
    ensures e.Commit? ==> var t := Step(s, e, false);
      |t.tasks| == |s.tasks| + 1 && t.tasks[|s.tasks|].listed && t.tasks[|s.tasks|].armed && !t.tasks[|s.tasks|].done
  {
  }

  // ---------------------------------------------------------------- the copy is as good as the original

  /** Tasks that are still unsettled agree completely; settled ones may differ in what no callback
      depends on: whether they are still listed, and the pointers a clear has or has not removed. */
  ghost predicate Alike(a: Task, b: Task) {
    a.id == b.id && a.done == b.done && (!a.done ==> a == b)
  }

  ghost predicate Agree(a: State, b: State) {
    && a.log == b.log
    && |a.tasks| == |b.tasks|
    && forall k :: 0 <= k < |a.tasks| ==> Alike(a.tasks[k], b.tasks[k])
  }

  lemma {:induction false} CallsAgree(a: seq<Task>, b: seq<Task>, id: int, message: string, n: nat)
    requires |a| == |b| && n <= |a|
    requires forall k :: 0 <= k < |a| ==> Alike(a[k], b[k])
    ensures Calls(a, id, message, n) == Calls(b, id, message, n)
  {
    if n > 0 {
      assert Alike(a[n - 1], b[n - 1]);
      CallsAgree(a, b, id, message, n - 1);
    }
  }

  /** Executing a board for a task that is already settled calls nobody and settles nobody. */
  lemma SettledReplyIsSilent(s: State, k: nat, message: string, inPlace: bool)
    requires k < |s.tasks| && s.tasks[k].done && DistinctIds(s.tasks)
    ensures Agree(s, Step(s, Reply(k, message), inPlace))
  {
    CallsAreOwn(s.tasks, k, message, |s.tasks|);
  }

  lemma AgreeReply(a: State, b: State, k: nat, message: string)
    requires Agree(a, b) && Inv(a) && k < |a.tasks|
    ensures Agree(Step(a, Reply(k, message), false), Step(b, Reply(k, message), true))
  {
    var a', b' := Step(a, Reply(k, message), false), Step(b, Reply(k, message), true);
    assert Alike(a.tasks[k], b.tasks[k]);
    assert DistinctIds(b.tasks) by {
      forall i, j | 0 <= i < j < |b.tasks| ensures b.tasks[i].id != b.tasks[j].id {
        assert Alike(a.tasks[i], b.tasks[i]) && Alike(a.tasks[j], b.tasks[j]);
      }
    }
    if a.tasks[k].done {
      SettledReplyIsSilent(a, k, message, false);
      SettledReplyIsSilent(b, k, message, true);
      forall i | 0 <= i < |a.tasks| ensures Alike(a'.tasks[i], b'.tasks[i]) {
        assert Alike(a.tasks[i], b.tasks[i]) && Alike(a.tasks[i], a'.tasks[i]) && Alike(b.tasks[i], b'.tasks[i]);
      }
    } else {
      CallsAgree(a.tasks, b.tasks, a.tasks[k].id, message, |a.tasks|);
      forall i | 0 <= i < |a.tasks| ensures Alike(a'.tasks[i], b'.tasks[i]) {
        assert Alike(a.tasks[i], b.tasks[i]);
      }
    }
  }

  lemma AgreeStep(a: State, b: State, e: Event)
    requires Agree(a, b) && Inv(a) && Possible(a, e)
    ensures Agree(Step(a, e, false), Step(b, e, true))
  {
    match e {
      case Commit(_, _) =>
      case Reply(k, message) => AgreeReply(a, b, k, message);
      case Timeout(k) => assert Alike(a.tasks[k], b.tasks[k]);
      case Clear =>
        forall k | 0 <= k < |a.tasks| ensures Alike(ClearOne(a.tasks[k]), ClearOne(b.tasks[k])) {
          assert Alike(a.tasks[k], b.tasks[k]);
        }
    }
  }

  /** For every history, executing the copied board shows the client the same callbacks, in the
      same order, as executing the original in place would. */
  lemma {:induction false} CopyRefinesInPlace(es: seq<Event>)
    requires Run(es)
    ensures After(es, false).log == After(es, true).log
    ensures Agree(After(es, false), After(es, true))
    decreases |es|
  {
    if es != [] {
      var pre := es[..|es| - 1];
      CopyRefinesInPlace(pre);
      RunKeeps(pre);
      AgreeStep(After(pre, false), After(pre, true), es[|es| - 1]);
    }
  }

  // ---------------------------------------------------------------- after a clear

  ghost predicate MutedUpTo(ts: seq<Task>, n: nat) {
    n <= |ts| && forall k :: 0 <= k < n ==> Muted(ts[k])
  }

  lemma MutedStep(s: State, e: Event, n: nat)
    requires Inv(s) && Possible(s, e) && MutedUpTo(s.tasks, n)
    ensures var t := Step(s, e, false);
      MutedUpTo(t.tasks, n) && s.log <= t.log && forall i :: |s.log| <= i < |t.log| ==> t.log[i].task >= n
  {
    if e.Reply? {
      CallsAreOwn(s.tasks, e.task, e.message, |s.tasks|);
    }
  }

  /** After a clear every task committed so far is silent for good: whatever happens later, the log
      only ever grows by callbacks of tasks committed after the clear. */
  lemma {:induction false} ClearSilences(es: seq<Event>, i: nat)
    requires Run(es) && i < |es| && es[i] == Clear
    ensures var before, s := After(es[..i], false), After(es, false);
      && before.log <= s.log
      && MutedUpTo(s.tasks, |before.tasks|)
      && forall j :: |before.log| <= j < |s.log| ==> s.log[j].task >= |before.tasks|
    decreases |es|
  {
    var pre := es[..|es| - 1];
    RunKeeps(pre);
    if i == |es| - 1 {
      var before := After(pre, false);
      forall k | 0 <= k < |before.tasks| ensures Muted(ClearOne(before.tasks[k])) {
        assert TaskOk(before.tasks[k]);
      }
    } else {
      assert pre[..i] == es[..i] && pre[i] == Clear;
      ClearSilences(pre, i);
      MutedStep(After(pre, false), es[|es| - 1], |After(es[..i], false).tasks|);
    }
  }
}
