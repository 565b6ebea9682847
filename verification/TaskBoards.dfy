/** The task board on the heap: tasks and reply objects are shared by reference between a board and
    its copies, and the list is erased from while it is walked. */
module TaskBoards {
  import MT = MessageTransport

  class MessageReply {
    const pid: int
    var connection: bool
    var channel: bool

    constructor (pid: int)
      ensures this.pid == pid && connection && channel
    {
      this.pid, connection, channel := pid, true, true;
    }
  }

  /** What the client hears, under the promise id of the task. */
  datatype Heard = Heard(pid: int, message: string) | HeardTimeOut(pid: int)

  class Channel {
    var messages: seq<Heard>

    constructor ()
      ensures messages == []
    {
      messages := [];
    }
  }

  class MsgTask {
    const id: int
    const reply: MessageReply
    var isDone: bool
    var timer: bool
    var armed: bool

    constructor (id: int, reply: MessageReply)
      ensures this.id == id && this.reply == reply && !isDone && !timer && !armed
    {
      this.id, this.reply, isDone, timer, armed := id, reply, false, false, false;
    }

    /** The task as the board sees it. */
    ghost function View(): MT.Task
      reads this, reply
    {
      MT.Task(id, reply.pid, isDone, timer, armed, reply.connection, reply.channel, true)
    }

    method StopTimer()
      modifies this`timer, this`armed
      ensures !timer && !armed
    {
      timer, armed := false, false;
    }

    /** The timer fires: an unsettled task is settled and the client hears of it; the timer itself
        stays with the task until a walk or a clear removes it. */
    method OnTimer(channel: Channel)
      modifies this`isDone, this`armed, channel`messages
      ensures View() == MT.TimeOutOne(old(View()))
      ensures isDone && !armed
      ensures channel.messages ==
        if !old(isDone) && reply.channel then old(channel.messages) + [HeardTimeOut(reply.pid)]
        else old(channel.messages)
    {
      armed := false;
      if !isDone {
        isDone := true;
        if reply.channel { channel.messages := channel.messages + [HeardTimeOut(reply.pid)]; }
      }
    }

    /** One turn of the board walk; tells whether the task leaves the list. */
    method Execute(replyId: int, message: string, channel: Channel) returns (erase: bool)
      modifies this`isDone, this`timer, this`armed, channel`messages
      ensures View() == MT.ExecuteOne(old(View()), replyId)
      ensures erase == isDone == (old(isDone) || id == replyId)
      ensures if isDone then !timer && !armed else timer == old(timer) && armed == old(armed)
      ensures channel.messages ==
        if !old(isDone) && id == replyId && reply.channel then old(channel.messages) + [Heard(reply.pid, message)]
        else old(channel.messages)
    {
      if isDone {
        StopTimer();
        return true;
      }
      if id == replyId {
        isDone := true;
        if reply.channel { channel.messages := channel.messages + [Heard(reply.pid, message)]; }
        StopTimer();
        return true;
      }
      return false;
    }
  }

  ghost predicate Distinct<T>(s: seq<T>) {
    forall i, j :: 0 <= i < j < |s| ==> s[i] != s[j]
  }

  /** Tasks and their reply objects are each listed once. */
  ghost predicate Separate(tasks: seq<MsgTask>) {
    && Distinct(tasks)
    && forall i, j :: 0 <= i < j < |tasks| ==> tasks[i].reply != tasks[j].reply
  }

  /** `views` is what the listed tasks look like. */
  ghost predicate Seen(tasks: seq<MsgTask>, views: seq<MT.Task>)
    reads tasks, set i | 0 <= i < |tasks| :: tasks[i].reply
  {
    |views| == |tasks| && forall i :: 0 <= i < |tasks| ==> tasks[i].View() == views[i]
  }

  /** Messages the client hears while the first `n` of the given tasks are executed. */
  function MessagesHeard(ts: seq<MT.Task>, id: int, message: string, n: nat): seq<Heard>
    requires n <= |ts|
  {
    if n == 0 then []
    else if MT.Answers(ts[n - 1], id) && ts[n - 1].heard then
      MessagesHeard(ts, id, message, n - 1) + [Heard(ts[n - 1].pid, message)]
    else MessagesHeard(ts, id, message, n - 1)
  }

  /** The messages are the callbacks, in the same order, each under the promise id of its task. */
  predicate HeardAs(ts: seq<MT.Task>, message: string, calls: seq<MT.Callback>, heard: seq<Heard>) {
    && |heard| == |calls|
    && forall i :: 0 <= i < |calls| ==>
         calls[i].OnMessage? && calls[i].task < |ts| && heard[i] == Heard(ts[calls[i].task].pid, message)
  }

  lemma HeardOne(ts: seq<MT.Task>, message: string, calls: seq<MT.Callback>, heard: seq<Heard>, k: nat, answered: bool,
                 calls': seq<MT.Callback>, heard': seq<Heard>)
    requires k < |ts| && HeardAs(ts, message, calls, heard)
    requires calls' == if answered then calls + [MT.OnMessage(k, message)] else calls
    requires heard' == if answered then heard + [Heard(ts[k].pid, message)] else heard
    ensures HeardAs(ts, message, calls', heard')
  {
  }

  /** On a board of listed tasks the messages heard are the callbacks of the state machine. */
  lemma {:induction false} HeardAreCalls(ts: seq<MT.Task>, id: int, message: string, n: nat)
    requires n <= |ts| && forall k :: 0 <= k < |ts| ==> ts[k].listed
    ensures HeardAs(ts, message, MT.Calls(ts, id, message, n), MessagesHeard(ts, id, message, n))
  {
    if n > 0 {
      HeardAreCalls(ts, id, message, n - 1);
      HeardOne(ts, message, MT.Calls(ts, id, message, n - 1), MessagesHeard(ts, id, message, n - 1), n - 1,
               MT.Answers(ts[n - 1], id) && ts[n - 1].heard,
               MT.Calls(ts, id, message, n), MessagesHeard(ts, id, message, n));
    }
  }

  /** Tasks of the first `n` that stay in the executed list: those neither settled nor answered. */
  function Kept(tasks: seq<MsgTask>, ts: seq<MT.Task>, id: int, n: nat): seq<MsgTask>
    requires |tasks| == |ts| && n <= |ts|
  {
    if n == 0 then []
    else if ts[n - 1].done || ts[n - 1].id == id then Kept(tasks, ts, id, n - 1)
    else Kept(tasks, ts, id, n - 1) + [tasks[n - 1]]
  }

  /** The first `n` of the tasks have been executed, the others look as before. */
  ghost predicate Executed(tasks: seq<MsgTask>, views: seq<MT.Task>, id: int, n: nat)
    reads tasks, set i | 0 <= i < |tasks| :: tasks[i].reply
  {
    && |views| == |tasks|
    && forall i :: 0 <= i < |tasks| ==> tasks[i].View() == if i < n then MT.ExecuteOne(views[i], id) else views[i]
  }

  /** What the channel has heard after the first `n` tasks, given what it had heard before. */
  ghost function HeardAfter(start: seq<Heard>, ts: seq<MT.Task>, id: int, message: string, n: nat): seq<Heard>
    requires n <= |ts|
  {
    if n == 0 then start
    else if MT.Answers(ts[n - 1], id) && ts[n - 1].heard then
      HeardAfter(start, ts, id, message, n - 1) + [Heard(ts[n - 1].pid, message)]
    else HeardAfter(start, ts, id, message, n - 1)
  }

  lemma {:induction false} HeardAfterIs(start: seq<Heard>, ts: seq<MT.Task>, id: int, message: string, n: nat)
    requires n <= |ts|
    ensures HeardAfter(start, ts, id, message, n) == start + MessagesHeard(ts, id, message, n)
  {
    if n > 0 { HeardAfterIs(start, ts, id, message, n - 1); }
  }

  /** One turn of the walk. Executing one of several shared tasks changes the view of that one only. */
  method ExecuteAt(task: MsgTask, replyId: int, message: string, channel: Channel,
                   ghost tasks: seq<MsgTask>, ghost n: nat, ghost views: seq<MT.Task>)
    returns (erase: bool)
    requires n < |tasks| && task == tasks[n] && Distinct(tasks) && Executed(tasks, views, replyId, n)
    modifies task, channel`messages
    ensures Executed(tasks, views, replyId, n + 1)
    ensures erase == (views[n].done || views[n].id == replyId)
    ensures channel.messages ==
      if MT.Answers(views[n], replyId) && views[n].heard then old(channel.messages) + [Heard(views[n].pid, message)]
      else old(channel.messages)
  {
    assert task.View() == views[n];
    erase := task.Execute(replyId, message, channel);
  }

  function Without(tasks: seq<MsgTask>, k: nat): seq<MsgTask>
    requires k < |tasks|
  {
    tasks[..k] + tasks[k + 1..]
  }

  /** The list and the position of the iterator when the walk has passed the first `n` tasks. */
  ghost function Walk(tasks: seq<MsgTask>, ts: seq<MT.Task>, id: int, n: nat): (w: (seq<MsgTask>, nat))
    requires |tasks| == |ts| && n <= |ts|
    ensures |w.0| - w.1 == |tasks| - n
  {
    if n == 0 then (tasks, 0)
    else
      var (list, iter) := Walk(tasks, ts, id, n - 1);
      if ts[n - 1].done || ts[n - 1].id == id then (Without(list, iter), iter) else (list, iter + 1)
  }

  /** The iterator stands behind what was kept and before what is to come. */
  lemma {:induction false} WalkIs(tasks: seq<MsgTask>, ts: seq<MT.Task>, id: int, n: nat)
    requires |tasks| == |ts| && n <= |ts|
    ensures var (list, iter) := Walk(tasks, ts, id, n);
      list == Kept(tasks, ts, id, n) + tasks[n..] && iter == |Kept(tasks, ts, id, n)|
  {
    if n == 0 {
      assert tasks[0..] == tasks;
    } else {
      WalkIs(tasks, ts, id, n - 1);
      Passing(Kept(tasks, ts, id, n - 1), tasks, n - 1);
    }
  }

  lemma Passing(kept: seq<MsgTask>, tasks: seq<MsgTask>, n: nat)
    requires n < |tasks|
    ensures Without(kept + tasks[n..], |kept|) == kept + tasks[n + 1..]
    ensures kept + [tasks[n]] + tasks[n + 1..] == kept + tasks[n..]
  {
    assert tasks[n..] == [tasks[n]] + tasks[n + 1..];
  }

  lemma WalkAt(tasks: seq<MsgTask>, ts: seq<MT.Task>, id: int, n: nat)
    requires |tasks| == |ts| && n <= |ts|
    ensures var (list, iter) := Walk(tasks, ts, id, n);
      if n < |ts| then iter < |list| && list[iter] == tasks[n] else list == Kept(tasks, ts, id, n)
  {
    WalkIs(tasks, ts, id, n);
  }

  class TaskBoard {
    var taskList: seq<MsgTask>

    constructor (tasks: seq<MsgTask>)
      ensures taskList == tasks
    {
      taskList := tasks;
    }

    method CommitTask(task: MsgTask)
      requires task !in taskList && !task.isDone
      modifies this, task
      ensures taskList == old(taskList) + [task]
      ensures task.View() == old(task.View()).(timer := true, armed := true)
    {
      task.timer, task.armed := true, true;
      taskList := taskList + [task];
    }

    /** Walks the list once, erasing settled and answered tasks under the iterator, so that at every
        turn the list is what was kept and what is to come. The tasks themselves change as `ExecuteOne`
        says, wherever else they are listed. */
    method ExecuteTask(replyId: int, message: string, channel: Channel, ghost views: seq<MT.Task>)
      requires Distinct(taskList) && Seen(taskList, views)
      modifies this, taskList, channel`messages
      ensures forall k :: 0 <= k < |views| ==> old(taskList)[k].View() == MT.ExecuteOne(views[k], replyId)
      ensures channel.messages == old(channel.messages) + MessagesHeard(views, replyId, message, |views|)
      ensures taskList == Kept(old(taskList), views, replyId, |views|)
    {
      HeardAfterIs(channel.messages, views, replyId, message, |views|);
      WalkBoard(replyId, message, channel, taskList, views);
    }

    method WalkBoard(replyId: int, message: string, channel: Channel,
                     ghost tasks: seq<MsgTask>, ghost views: seq<MT.Task>)
      requires Distinct(tasks) && Seen(tasks, views) && taskList == tasks
      modifies this, tasks, channel`messages
      ensures Executed(tasks, views, replyId, |tasks|)
      ensures channel.messages == HeardAfter(old(channel.messages), views, replyId, message, |views|)
      ensures taskList == Kept(tasks, views, replyId, |views|)
    {
      ghost var n: nat := 0;
      var iter: nat := 0;
      while iter < |taskList|
        invariant n <= |tasks| && (taskList, iter) == Walk(tasks, views, replyId, n)
        invariant Executed(tasks, views, replyId, n)
        invariant channel.messages == HeardAfter(old(channel.messages), views, replyId, message, n)
        decreases |tasks| - n
      {
        iter := ExecuteTurn(iter, replyId, message, channel, tasks, n, views, old(channel.messages));
        n := n + 1;
      }
      WalkAt(tasks, views, replyId, n);
    }

    /** One turn of the walk: the task under the iterator is executed, and erased or passed. */
    method ExecuteTurn(iter: nat, replyId: int, message: string, channel: Channel,
                       ghost tasks: seq<MsgTask>, ghost n: nat, ghost views: seq<MT.Task>, ghost start: seq<Heard>)
        returns (next: nat)
      requires n < |tasks| && Distinct(tasks) && Executed(tasks, views, replyId, n)
      requires (taskList, iter) == Walk(tasks, views, replyId, n)
      requires channel.messages == HeardAfter(start, views, replyId, message, n)
      modifies this, tasks, channel`messages
      ensures (taskList, next) == Walk(tasks, views, replyId, n + 1)
      ensures Executed(tasks, views, replyId, n + 1)
      ensures channel.messages == HeardAfter(start, views, replyId, message, n + 1)
    {
      WalkAt(tasks, views, replyId, n);
      var erase := ExecuteAt(taskList[iter], replyId, message, channel, tasks, n, views);
      if erase {
        taskList := Without(taskList, iter);
        next := iter;
      } else {
        next := iter + 1;
      }
    }

    /** Stops every timer, detaches every reply object and empties the list. */
    method ClearTimer(ghost views: seq<MT.Task>)
      requires Separate(taskList) && Seen(taskList, views)
      modifies this, taskList, set t | t in taskList :: t.reply
      ensures taskList == []
      ensures forall k :: 0 <= k < |views| ==> old(taskList)[k].View() == MT.ClearOne(views[k]).(listed := true)
      ensures forall k :: 0 <= k < |views| ==> var t := old(taskList)[k];
        !t.timer && !t.armed && !t.reply.connection && !t.reply.channel && t.isDone == old(t.isDone)
    {
      ghost var tasks := taskList;
      ghost var n := 0;
      while taskList != []
        invariant 0 <= n <= |tasks| && taskList == tasks[n..]
        invariant forall k :: 0 <= k < n ==> tasks[k].View() == MT.ClearOne(views[k]).(listed := true)
        invariant forall k :: n <= k < |tasks| ==> tasks[k].View() == views[k]
        invariant forall k :: 0 <= k < n ==> var t := tasks[k];
          !t.timer && !t.armed && !t.reply.connection && !t.reply.channel && t.isDone == old(t.isDone)
        decreases |taskList|
      {
        var task := taskList[0];
        assert task == tasks[n];
        task.StopTimer();
        task.reply.connection, task.reply.channel := false, false;
        taskList := taskList[1..];
        n := n + 1;
      }
    }
  }

  /** A reply executes a copy of the board. The list of the original is untouched, yet its tasks
      have gone through the execution, because the copy shares them. */
  method OnReply(board: TaskBoard, reply: MessageReply, replyId: int, message: string, channel: Channel,
                 ghost views: seq<MT.Task>)
    requires Distinct(board.taskList) && Seen(board.taskList, views)
    modifies board.taskList, channel`messages
    ensures board.taskList == old(board.taskList)
    ensures forall k :: 0 <= k < |views| ==>
      board.taskList[k].View() == if reply.connection then MT.ExecuteOne(views[k], replyId) else views[k]
    ensures channel.messages ==
      if reply.connection then old(channel.messages) + MessagesHeard(views, replyId, message, |views|)
      else old(channel.messages)
  {
    if reply.connection {
      var copy := new TaskBoard(board.taskList);
      copy.ExecuteTask(replyId, message, channel, views);
    }
  }

  // ---------------------------------------------------------------- the connection and its history

  ghost function Sound(ts: seq<MT.Task>, c: MT.Callback): Heard
    requires c.task < |ts|
  {
    match c
    case OnMessage(k, message) => Heard(ts[k].pid, message)
    case OnTimeOut(k) => HeardTimeOut(ts[k].pid)
  }

  /** The channel has heard exactly the callbacks of the log, in order. */
  ghost predicate HeardAll(ts: seq<MT.Task>, log: seq<MT.Callback>, heard: seq<Heard>) {
    |heard| == |log| && forall i :: 0 <= i < |log| ==> log[i].task < |ts| && heard[i] == Sound(ts, log[i])
  }

  ghost predicate SamePids(a: seq<MT.Task>, b: seq<MT.Task>) {
    |a| <= |b| && forall k :: 0 <= k < |a| ==> a[k].pid == b[k].pid
  }

  lemma HeardMore(a: seq<MT.Task>, b: seq<MT.Task>, log: seq<MT.Callback>, heard: seq<Heard>,
                  log': seq<MT.Callback>, heard': seq<Heard>)
    requires HeardAll(a, log, heard) && SamePids(a, b) && HeardAll(b, log', heard')
    ensures HeardAll(b, log + log', heard + heard')
  {
  }

  ghost predicate ListedFrom(ts: seq<MT.Task>, c: nat) {
    forall k :: 0 <= k < |ts| ==> (ts[k].listed <==> k >= c)
  }

  /** Executing the board from the c-th task on is heard as the state machine calls. */
  lemma {:induction false} HeardFrom(ts: seq<MT.Task>, views: seq<MT.Task>, c: nat, id: int, message: string, n: nat)
    requires c <= |ts| && views == ts[c..] && n <= |views| && ListedFrom(ts, c)
    ensures HeardAll(ts, MT.Calls(ts, id, message, c + n), MessagesHeard(views, id, message, n))
  {
    if n == 0 {
      SilentBefore(ts, c, id, message, c);
    } else {
      var k := c + n - 1;
      HeardFrom(ts, views, c, id, message, n - 1);
      assert views[n - 1] == ts[k];
      if MT.Answers(ts[k], id) && ts[k].heard {
        HeardMore(ts, ts, MT.Calls(ts, id, message, k), MessagesHeard(views, id, message, n - 1),
                  [MT.OnMessage(k, message)], [Heard(ts[k].pid, message)]);
      }
    }
  }

  lemma {:induction false} SilentBefore(ts: seq<MT.Task>, c: nat, id: int, message: string, n: nat)
    requires n <= c <= |ts| && forall k :: 0 <= k < c ==> !ts[k].listed
    ensures MT.Calls(ts, id, message, n) == []
  {
    if n > 0 { SilentBefore(ts, c, id, message, n - 1); }
  }

  /** The heap tasks look like those of the state machine; whether they are listed is known by `cleared`. */
  ghost predicate Mirrors(tasks: seq<MsgTask>, ts: seq<MT.Task>, cleared: nat)
    reads tasks, set i | 0 <= i < |tasks| :: tasks[i].reply
  {
    && |tasks| == |ts| && cleared <= |ts|
    && ListedFrom(ts, cleared)
    && (forall k :: 0 <= k < |ts| ==> tasks[k].View() == ts[k].(listed := true))
  }

  class ClientConnection {
    const board: TaskBoard
    const channel: Channel
    /** Every task ever committed, and how many of them have been cleared. */
    ghost var tasks: seq<MsgTask>
    ghost var cleared: nat
    ghost var trace: seq<MT.Event>

    ghost predicate Valid()
      reads this, board, channel, tasks, set i | 0 <= i < |tasks| :: tasks[i].reply
    {
      && MT.Run(trace) && Holds(MT.After(trace, false).tasks)
      && HeardAll(MT.After(trace, false).tasks, MT.After(trace, false).log, channel.messages)
    }

    constructor ()
      ensures Valid() && trace == [] && fresh(board) && fresh(channel)
    {
      board := new TaskBoard([]);
      channel := new Channel();
      tasks, cleared, trace := [], 0, [];
    }

    /** The board is the uncleared part of the tasks, which look as they should. */
    ghost predicate Holds(ts: seq<MT.Task>)
      reads this, board, tasks, set i | 0 <= i < |tasks| :: tasks[i].reply
    {
      Separate(tasks) && Mirrors(tasks, ts, cleared) && cleared <= |tasks| && board.taskList == tasks[cleared..]
    }

    /** A message is sent: its task, with a reply object of its own, goes on the board with its timer
        running. */
    method Commit(id: int, pid: int) returns (task: MsgTask)
      requires Valid() && forall k :: 0 <= k < |tasks| ==> tasks[k].id != id
      modifies this, board
      ensures Valid() && trace == old(trace) + [MT.Commit(id, pid)] && tasks == old(tasks) + [task]
      ensures fresh(task) && task.id == id && task.reply.pid == pid && !task.isDone && task.timer && task.armed
      ensures channel.messages == old(channel.messages)
    {
      ghost var s := MT.After(trace, false);
      CommitOutcome(trace, tasks, cleared, id, pid, channel.messages);
      task := Post(id, pid, s);
      trace := trace + [MT.Commit(id, pid)];
    }

    method Post(id: int, pid: int, ghost s: MT.State) returns (task: MsgTask)
      requires Holds(s.tasks)
      modifies this`tasks, board
      ensures tasks == old(tasks) + [task] && Holds(s.tasks + [NewTask(id, pid)])
      ensures fresh(task) && task.View() == NewTask(id, pid)
    {
      var reply := new MessageReply(pid);
      task := new MsgTask(id, reply);
      board.CommitTask(task);
      tasks := tasks + [task];
      assert tasks[cleared..] == old(tasks)[cleared..] + [task];
      assert task.View() == NewTask(id, pid);
      ghost var ts := s.tasks + [NewTask(id, pid)];
      forall j | 0 <= j < |tasks| ensures tasks[j].View() == ts[j].(listed := true) {
        if j < |s.tasks| { assert old(tasks[j].View()) == s.tasks[j].(listed := true); }
      }
    }

    /** The timer of a task fires. */
    method TimeOut(task: MsgTask, ghost k: nat)
      requires Valid() && k < |tasks| && task == tasks[k] && task.armed
      modifies this, task, channel
      ensures Valid() && trace == old(trace) + [MT.Timeout(k)] && tasks == old(tasks)
      ensures !old(task.isDone) && task.isDone && !task.armed
      ensures channel.messages == old(channel.messages) + [HeardTimeOut(task.reply.pid)]
    {
      ghost var s := MT.After(trace, false);
      assert task.View() == s.tasks[k].(listed := true);
      MT.TimeoutIsHeard(trace, k);
      ArmedIsHeard(trace, k);
      Extended(trace, MT.Timeout(k));
      TimeOutHeard(s, k, channel.messages);
      Fire(task, k, s);
      trace := trace + [MT.Timeout(k)];
    }

    method Fire(task: MsgTask, ghost k: nat, ghost s: MT.State)
      requires Holds(s.tasks) && k < |tasks| && task == tasks[k]
      modifies task, channel`messages
      ensures Holds(s.tasks[k := MT.TimeOutOne(s.tasks[k])])
      ensures channel.messages == TimeOutSounds(s.tasks[k], old(channel.messages))
    {
      assert task.View() == s.tasks[k].(listed := true);
      task.OnTimer(channel);
      ghost var ts := s.tasks[k := MT.TimeOutOne(s.tasks[k])];
      forall j | 0 <= j < |tasks| ensures tasks[j].View() == ts[j].(listed := true) {
        if j != k { assert old(tasks[j].View()) == s.tasks[j].(listed := true); }
      }
    }

    /** A reply arrives, at any time and any number of times. The client hears it exactly when the task
        is on the board and unsettled, and from then on the task is settled. */
    method Reply(task: MsgTask, message: string, ghost k: nat)
      requires Valid() && k < |tasks| && task == tasks[k]
      modifies this, tasks, channel
      ensures Valid() && trace == old(trace) + [MT.Reply(k, message)] && tasks == old(tasks) && cleared == old(cleared)
      ensures channel.messages ==
        if k >= cleared && !old(task.isDone) then old(channel.messages) + [Heard(task.reply.pid, message)]
        else old(channel.messages)
      ensures k >= cleared ==> task.isDone && !task.armed
    {
      ghost var s := MT.After(trace, false);
      TaskLooks(this, k);
      ReplyEffect(trace, cleared, k, message, channel.messages);
      ExecuteCopy(task, message, k, s);
      TaskSettled(tasks, ReplyTasks(s.tasks, k), cleared, k);
      trace := trace + [MT.Reply(k, message)];
    }

    method ExecuteCopy(task: MsgTask, message: string, ghost k: nat, ghost s: MT.State)
      requires Holds(s.tasks) && k < |tasks| && task == tasks[k]
      modifies tasks, channel`messages
      ensures Holds(ReplyTasks(s.tasks, k))
      ensures channel.messages == if s.tasks[k].linked
                                  then old(channel.messages) + BoardSounds(s.tasks, cleared, s.tasks[k].id, message)
                                  else old(channel.messages)
    {
      ghost var views := s.tasks[cleared..];
      assert task.View() == s.tasks[k].(listed := true);
      BoardSoundsAre(s.tasks, cleared, s.tasks[k].id, message, views);
      ExecuteShared(task.reply, task.id, message, s.tasks, views);
      ReplyViews(s.tasks, k, cleared);
    }

    /** The tasks of the board go through the execution, all others stay as they are. */
    method ExecuteShared(reply: MessageReply, id: int, message: string,
                         ghost ts: seq<MT.Task>, ghost views: seq<MT.Task>)
      requires Holds(ts) && views == ts[cleared..]
      modifies tasks, channel`messages
      ensures forall j :: 0 <= j < |tasks| ==> tasks[j].View() == Ran(ts[j], reply.connection && j >= cleared, id)
      ensures channel.messages ==
        if reply.connection then old(channel.messages) + MessagesHeard(views, id, message, |views|)
        else old(channel.messages)
    {
      ViewsOf(tasks, ts, cleared);
      SeparateSuffix(tasks, cleared);
      OnReply(board, reply, id, message, channel, views);
      forall j | 0 <= j < |tasks| ensures tasks[j].View() == Ran(ts[j], reply.connection && j >= cleared, id) {
        assert old(tasks[j].View()) == ts[j].(listed := true);
        if j >= cleared {
          assert board.taskList[j - cleared] == tasks[j] && views[j - cleared] == ts[j];
        } else {
          assert tasks[j] !in board.taskList;
        }
      }
    }

    /** The connection goes: every timer stops and every reply object is cut off. */
    method Clear()
      requires Valid()
      modifies this, board, tasks, set i | 0 <= i < |tasks| :: tasks[i].reply
      ensures Valid() && trace == old(trace) + [MT.Clear] && tasks == old(tasks)
      ensures cleared == |tasks| && board.taskList == [] && channel.messages == old(channel.messages)
    {
      ghost var s := MT.After(trace, false);
      Extended(trace, MT.Clear);
      ClearHeard(s, channel.messages);
      ClearBoard(s);
      assert tasks[|tasks|..] == [];
      trace := trace + [MT.Clear];
    }

    method ClearBoard(ghost s: MT.State)
      requires Holds(s.tasks)
      modifies this`cleared, board, tasks, set i | 0 <= i < |tasks| :: tasks[i].reply
      ensures Holds(MT.Step(s, MT.Clear, false).tasks) && cleared == |tasks|
    {
      ghost var views := s.tasks[cleared..];
      ViewsOf(tasks, s.tasks, cleared);
      SeparateSuffix(tasks, cleared);
      board.ClearTimer(views);
      ghost var t := MT.Step(s, MT.Clear, false);
      forall j | 0 <= j < |tasks| ensures tasks[j].View() == t.tasks[j].(listed := true) {
        assert old(tasks[j].View()) == s.tasks[j].(listed := true);
        if j >= cleared {
          assert old(board.taskList)[j - cleared] == tasks[j] && views[j - cleared] == s.tasks[j];
        } else {
          assert tasks[j] !in old(board.taskList);
        }
      }
      cleared := |tasks|;
    }
  }

  lemma Extended(trace: seq<MT.Event>, e: MT.Event)
    requires MT.Run(trace) && MT.Possible(MT.After(trace, false), e)
    ensures MT.Run(trace + [e]) && MT.After(trace + [e], false) == MT.Step(MT.After(trace, false), e, false)
  {
    assert (trace + [e])[..|trace + [e]| - 1] == trace;
  }

  ghost function NewTask(id: int, pid: int): MT.Task {
    MT.Task(id, pid, false, true, true, true, true, true)
  }

  lemma CommitOutcome(trace: seq<MT.Event>, tasks: seq<MsgTask>, cleared: nat, id: int, pid: int, heard: seq<Heard>)
    requires MT.Run(trace) && Mirrors(tasks, MT.After(trace, false).tasks, cleared)
    requires forall k :: 0 <= k < |tasks| ==> tasks[k].id != id
    requires HeardAll(MT.After(trace, false).tasks, MT.After(trace, false).log, heard)
    ensures var e, s := MT.Commit(id, pid), MT.After(trace, false);
      var t := MT.Step(s, e, false);
      && MT.Run(trace + [e]) && MT.After(trace + [e], false) == t && HeardAll(t.tasks, t.log, heard)
      && t.tasks == s.tasks + [NewTask(id, pid)]
  {
    var s := MT.After(trace, false);
    forall k | 0 <= k < |s.tasks| ensures s.tasks[k].id != id {
      assert tasks[k].View() == s.tasks[k].(listed := true);
    }
    Extended(trace, MT.Commit(id, pid));
    StillHeard(s.tasks, MT.Step(s, MT.Commit(id, pid), false).tasks, s.log, heard);
  }

  lemma StillHeard(a: seq<MT.Task>, b: seq<MT.Task>, log: seq<MT.Callback>, heard: seq<Heard>)
    requires HeardAll(a, log, heard) && SamePids(a, b)
    ensures HeardAll(b, log, heard)
  {
  }

  lemma ClearHeard(s: MT.State, heard: seq<Heard>)
    requires HeardAll(s.tasks, s.log, heard)
    ensures var t := MT.Step(s, MT.Clear, false); HeardAll(t.tasks, t.log, heard)
  {
    StillHeard(s.tasks, MT.Step(s, MT.Clear, false).tasks, s.log, heard);
  }

  lemma ViewsOf(tasks: seq<MsgTask>, ts: seq<MT.Task>, cleared: nat)
    requires Mirrors(tasks, ts, cleared)
    ensures Seen(tasks[cleared..], ts[cleared..])
  {
    forall i | 0 <= i < |tasks| - cleared ensures tasks[cleared..][i].View() == ts[cleared..][i] {
      assert tasks[cleared + i].View() == ts[cleared + i].(listed := true);
    }
  }

  lemma SeparateSuffix(tasks: seq<MsgTask>, cleared: nat)
    requires Separate(tasks) && cleared <= |tasks|
    ensures Separate(tasks[cleared..])
  {
  }

  ghost function TimeOutSounds(t: MT.Task, before: seq<Heard>): seq<Heard> {
    if MT.TimesOut(t) then before + [HeardTimeOut(t.pid)] else before
  }

  lemma TimeOutHeard(s: MT.State, k: nat, before: seq<Heard>)
    requires k < |s.tasks| && HeardAll(s.tasks, s.log, before)
    ensures var t := MT.Step(s, MT.Timeout(k), false);
      t.tasks == s.tasks[k := MT.TimeOutOne(s.tasks[k])] && HeardAll(t.tasks, t.log, TimeOutSounds(s.tasks[k], before))
  {
    var t := MT.Step(s, MT.Timeout(k), false);
    if MT.TimesOut(s.tasks[k]) {
      HeardMore(s.tasks, t.tasks, s.log, before, [MT.OnTimeOut(k)], [HeardTimeOut(s.tasks[k].pid)]);
    } else {
      StillHeard(s.tasks, t.tasks, s.log, before);
    }
  }

  /** The tasks after a reply to the k-th one. */
  ghost function ReplyTasks(ts: seq<MT.Task>, k: nat): (r: seq<MT.Task>)
    requires k < |ts|
    ensures |r| == |ts|
  {
    if ts[k].linked then MT.ExecuteBoard(ts, ts[k].id, false) else ts
  }

  /** The view of a task that was, or was not, executed for a reply. */
  ghost function Ran(t: MT.Task, executed: bool, id: int): MT.Task {
    if executed then MT.ExecuteOne(t, id) else t.(listed := true)
  }

  lemma ReplyViews(ts: seq<MT.Task>, k: nat, cleared: nat)
    requires k < |ts| && cleared <= |ts| && ListedFrom(ts, cleared)
    ensures ListedFrom(ReplyTasks(ts, k), cleared)
    ensures forall j :: 0 <= j < |ts| ==>
      ReplyTasks(ts, k)[j].(listed := true) == Ran(ts[j], ts[k].linked && j >= cleared, ts[k].id)
  {
    forall j | 0 <= j < |ts|
      ensures ReplyTasks(ts, k)[j].listed == ts[j].listed
      ensures ReplyTasks(ts, k)[j].(listed := true) == Ran(ts[j], ts[k].linked && j >= cleared, ts[k].id)
    {
      ReplyTaskAt(ts, k, j);
    }
  }

  lemma BoardSoundsAre(ts: seq<MT.Task>, cleared: nat, id: int, message: string, views: seq<MT.Task>)
    requires cleared <= |ts| && views == ts[cleared..]
    ensures BoardSounds(ts, cleared, id, message) == MessagesHeard(views, id, message, |views|)
  {
  }

  lemma ReplyTaskAt(ts: seq<MT.Task>, k: nat, j: nat)
    requires k < |ts| && j < |ts|
    ensures ReplyTasks(ts, k)[j] == if ts[k].linked && ts[j].listed then MT.ExecuteOne(ts[j], ts[k].id) else ts[j]
    ensures ReplyTasks(ts, k)[j].listed == ts[j].listed
  {
  }

  lemma ReplyStep(s: MT.State, k: nat, message: string)
    requires k < |s.tasks|
    ensures var t := MT.Step(s, MT.Reply(k, message), false);
      && t.tasks == ReplyTasks(s.tasks, k) && SamePids(s.tasks, t.tasks)
      && t.log == if s.tasks[k].linked then s.log + MT.Calls(s.tasks, s.tasks[k].id, message, |s.tasks|) else s.log
  {
  }

  lemma HeardJoined(a: seq<MT.Task>, b: seq<MT.Task>, log: seq<MT.Callback>, heard: seq<Heard>,
                    log': seq<MT.Callback>, heard': seq<Heard>)
    requires HeardAll(a, log, heard) && HeardAll(a, log', heard') && SamePids(a, b)
    ensures HeardAll(b, log + log', heard + heard')
  {
    StillHeard(a, b, log', heard');
    HeardMore(a, b, log, heard, log', heard');
  }

  lemma BoardHeard(ts: seq<MT.Task>, cleared: nat, id: int, message: string)
    requires cleared <= |ts| && ListedFrom(ts, cleared)
    ensures HeardAll(ts, MT.Calls(ts, id, message, |ts|), BoardSounds(ts, cleared, id, message))
  {
    HeardFrom(ts, ts[cleared..], cleared, id, message, |ts| - cleared);
  }

  /** What is heard when the board is executed. */
  ghost function BoardSounds(ts: seq<MT.Task>, cleared: nat, id: int, message: string): seq<Heard>
    requires cleared <= |ts|
  {
    MessagesHeard(ts[cleared..], id, message, |ts| - cleared)
  }

  lemma ReplyHeard(s: MT.State, t: MT.State, cleared: nat, k: nat, message: string, before: seq<Heard>)
    requires k < |s.tasks| && cleared <= |s.tasks| && ListedFrom(s.tasks, cleared)
    requires HeardAll(s.tasks, s.log, before) && SamePids(s.tasks, t.tasks)
    requires t.log == if s.tasks[k].linked then s.log + MT.Calls(s.tasks, s.tasks[k].id, message, |s.tasks|) else s.log
    ensures s.tasks[k].linked ==>
              HeardAll(t.tasks, t.log, before + BoardSounds(s.tasks, cleared, s.tasks[k].id, message))
    ensures !s.tasks[k].linked ==> HeardAll(t.tasks, t.log, before)
  {
    if s.tasks[k].linked {
      var id := s.tasks[k].id;
      BoardHeard(s.tasks, cleared, id, message);
      var calls, sounds := MT.Calls(s.tasks, id, message, |s.tasks|), BoardSounds(s.tasks, cleared, id, message);
      HeardJoined(s.tasks, t.tasks, s.log, before, calls, sounds);
    } else {
      StillHeard(s.tasks, t.tasks, s.log, before);
    }
  }

  lemma ReplyOutcome(trace: seq<MT.Event>, cleared: nat, k: nat, message: string, before: seq<Heard>)
    requires MT.Run(trace) && k < |MT.After(trace, false).tasks|
    requires cleared <= |MT.After(trace, false).tasks| && ListedFrom(MT.After(trace, false).tasks, cleared)
    requires HeardAll(MT.After(trace, false).tasks, MT.After(trace, false).log, before)
    ensures var ts, e := MT.After(trace, false).tasks, MT.Reply(k, message);
      var t := MT.After(trace + [e], false);
      && MT.Run(trace + [e]) && t.tasks == ReplyTasks(ts, k)
      && (ts[k].linked ==> HeardAll(t.tasks, t.log, before + BoardSounds(ts, cleared, ts[k].id, message)))
      && (!ts[k].linked ==> HeardAll(t.tasks, t.log, before))
  {
    var s := MT.After(trace, false);
    Extended(trace, MT.Reply(k, message));
    ReplyStep(s, k, message);
    ReplyHeard(s, MT.Step(s, MT.Reply(k, message), false), cleared, k, message, before);
  }

  /** A task whose timer is armed can be heard. */
  lemma ArmedIsHeard(trace: seq<MT.Event>, k: nat)
    requires MT.Run(trace) && k < |MT.After(trace, false).tasks| && MT.After(trace, false).tasks[k].armed
    ensures MT.TimesOut(MT.After(trace, false).tasks[k])
  {
    MT.RunKeeps(trace);
    assert MT.TaskOk(MT.After(trace, false).tasks[k]);
  }

  lemma SoundOfOne(ts: seq<MT.Task>, calls: seq<MT.Callback>, sounds: seq<Heard>, k: nat, message: string)
    requires HeardAll(ts, calls, sounds) && k < |ts|
    ensures calls == [] ==> sounds == []
    ensures calls == [MT.OnMessage(k, message)] ==> sounds == [Heard(ts[k].pid, message)]
  {
    if calls == [MT.OnMessage(k, message)] { assert sounds[0] == Sound(ts, calls[0]); }
  }

  /** What executing the board says for a reply to the k-th task. */
  lemma ReplySettlesTask(trace: seq<MT.Event>, cleared: nat, k: nat, message: string)
    requires MT.Run(trace) && k < |MT.After(trace, false).tasks| && cleared <= |MT.After(trace, false).tasks|
    requires ListedFrom(MT.After(trace, false).tasks, cleared)
    ensures var ts := MT.After(trace, false).tasks;
      && (k >= cleared && !ts[k].done ==> ts[k].linked)
      && BoardSounds(ts, cleared, ts[k].id, message) ==
         (if k >= cleared && !ts[k].done then [Heard(ts[k].pid, message)] else [])
      && (k >= cleared ==> ReplyTasks(ts, k)[k].done && !ReplyTasks(ts, k)[k].armed)
  {
    var ts := MT.After(trace, false).tasks;
    MT.RunKeeps(trace);
    assert MT.TaskOk(ts[k]);
    MT.CallsAreOwn(ts, k, message, |ts|);
    BoardHeard(ts, cleared, ts[k].id, message);
    SoundOfOne(ts, MT.Calls(ts, ts[k].id, message, |ts|), BoardSounds(ts, cleared, ts[k].id, message), k, message);
    ReplyTaskAt(ts, k, k);
  }

  lemma TaskLooks(c: ClientConnection, k: nat)
    requires c.Valid() && k < |c.tasks|
    ensures var t := MT.After(c.trace, false).tasks[k];
      t.done == c.tasks[k].isDone && t.pid == c.tasks[k].reply.pid && t.id == c.tasks[k].id
  {
    assert c.tasks[k].View() == MT.After(c.trace, false).tasks[k].(listed := true);
  }

  lemma TaskSettled(tasks: seq<MsgTask>, ts: seq<MT.Task>, cleared: nat, k: nat)
    requires Mirrors(tasks, ts, cleared) && k < |ts|
    ensures tasks[k].isDone == ts[k].done && tasks[k].armed == ts[k].armed
  {
    assert tasks[k].View() == ts[k].(listed := true);
  }

  /** The whole effect of a reply to the k-th task. */
  lemma ReplyEffect(trace: seq<MT.Event>, cleared: nat, k: nat, message: string, before: seq<Heard>)
    requires MT.Run(trace) && k < |MT.After(trace, false).tasks|
    requires cleared <= |MT.After(trace, false).tasks| && ListedFrom(MT.After(trace, false).tasks, cleared)
    requires HeardAll(MT.After(trace, false).tasks, MT.After(trace, false).log, before)
    ensures var ts, e := MT.After(trace, false).tasks, MT.Reply(k, message);
      var t := MT.After(trace + [e], false);
      var heard := if k >= cleared && !ts[k].done then before + [Heard(ts[k].pid, message)] else before;
      && MT.Run(trace + [e]) && t.tasks == ReplyTasks(ts, k) && HeardAll(t.tasks, t.log, heard)
      && heard == (if ts[k].linked then before + BoardSounds(ts, cleared, ts[k].id, message) else before)
      && (k >= cleared ==> ReplyTasks(ts, k)[k].done && !ReplyTasks(ts, k)[k].armed)
  {
    ReplySettlesTask(trace, cleared, k, message);
    ReplyOutcome(trace, cleared, k, message, before);
    assert before + [] == before;
  }

  lemma PidsOnce(ts: seq<MT.Task>, log: seq<MT.Callback>, heard: seq<Heard>)
    requires HeardAll(ts, log, heard)
    requires forall i, j :: 0 <= i < j < |log| ==> log[i].task != log[j].task
    requires forall i, j :: 0 <= i < j < |ts| ==> ts[i].pid != ts[j].pid
    ensures forall i, j :: 0 <= i < j < |heard| ==> heard[i].pid != heard[j].pid
  {
    forall i, j | 0 <= i < j < |heard| ensures heard[i].pid != heard[j].pid {
      var a, b := log[i].task, log[j].task;
      assert heard[i].pid == ts[a].pid && heard[j].pid == ts[b].pid;
    }
  }

  /** At any moment a task is settled exactly when the client has heard of it. */
  lemma SettledIsHeard(c: ClientConnection, k: nat)
    requires c.Valid() && k < |c.tasks|
    ensures c.tasks[k].isDone <==>
      exists i :: 0 <= i < |c.channel.messages| && MT.After(c.trace, false).log[i].task == k
    ensures forall i :: 0 <= i < |c.channel.messages| ==>
      var call := MT.After(c.trace, false).log[i];
      call.task < |c.tasks| && c.channel.messages[i].pid == c.tasks[call.task].reply.pid
  {
    var s := MT.After(c.trace, false);
    MT.ExactlyOneCallback(c.trace, k);
    forall j | 0 <= j < |c.tasks|
      ensures s.tasks[j].pid == c.tasks[j].reply.pid && s.tasks[j].done == c.tasks[j].isDone
    {
      assert c.tasks[j].View() == s.tasks[j].(listed := true);
    }
  }

  /** At any moment the client has heard of no task twice, be it a reply or a timeout, and every
      unsettled task on the board has its timer running. */
  lemma HeardOnce(c: ClientConnection)
    requires c.Valid()
    requires forall i, j :: 0 <= i < j < |c.tasks| ==> c.tasks[i].reply.pid != c.tasks[j].reply.pid
    ensures forall i, j :: 0 <= i < j < |c.channel.messages| ==> c.channel.messages[i].pid != c.channel.messages[j].pid
    ensures forall k :: c.cleared <= k < |c.tasks| && !c.tasks[k].isDone ==> c.tasks[k].timer && c.tasks[k].armed
  {
    var s := MT.After(c.trace, false);
    MT.RunKeeps(c.trace);
    forall k | 0 <= k < |c.tasks|
      ensures s.tasks[k].pid == c.tasks[k].reply.pid && s.tasks[k].done == c.tasks[k].isDone
      ensures s.tasks[k].timer == c.tasks[k].timer && s.tasks[k].armed == c.tasks[k].armed
    {
      assert c.tasks[k].View() == s.tasks[k].(listed := true);
    }
    forall k | c.cleared <= k < |c.tasks| && !c.tasks[k].isDone ensures c.tasks[k].timer && c.tasks[k].armed {
      assert s.tasks[k].listed && MT.TaskOk(s.tasks[k]);
    }
    assert forall i, j :: 0 <= i < j < |s.log| ==> s.log[i].task != s.log[j].task;
    PidsOnce(s.tasks, s.log, c.channel.messages);
  }
}
