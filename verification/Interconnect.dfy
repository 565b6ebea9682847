/** The phone connection context as a state machine over libuv and JS callbacks, and what holds in
    every run of it. A promise id is issued to one call only, so a send task is named by its id. */
module Interconnect {

  import opened Options

  // Status numbers, in the order of the status name table.
  const CLIENT_INIT: nat := 0
  const CLIENT_ID_SENT: nat := 1
  const CONNECT_FAILED: nat := 2
  const PHONE_CONNECTED: nat := 5
  const PHONE_DISCONNECTED: nat := 6
  const PHONE_UNINSTALLED: nat := 7

  // Result codes.
  const OK: int := 0
  const INVALID_ARGS: int := 202
  const TIMEOUT: int := 204
  const UNKNOWN: int := 1000
  const APP_UNINSTALL: int := 1001
  const DISCONNECT: int := 1006

  type Pid = nat

  /** A handler id; 0 means that none is set. */
  type Handler = nat

  /** A queued message. `timer` says whether the task still owns its pending timer. */
  datatype SendTask = SendTask(msg: string, timer: bool)

  datatype Settlement = Resolved(pid: Pid, status: int) | Rejected(pid: Pid, code: int)

  /** A message handed to the phone for a call. */
  datatype Sent = Sent(pid: Pid, msg: string)

  datatype Call =
    | Opened(handler: Handler, isReconnected: bool)
    | Errored(handler: Handler, code: int)
    | Closed(handler: Handler, code: int)

  datatype ErrorInfo = ErrorInfo(id: nat, code: int)

  datatype State = State(
    // fields of the context
    status: nat,
    tasks: map<Pid, SendTask>,
    diagnosis: Option<Pid>,
    onOpen: Handler,
    onError: Handler,
    onClose: Handler,
    pendingOpen: bool,
    errInfo: Option<ErrorInfo>,
    // the event loop: armed send timers, sends handed to the phone, the diagnosis timer
    armed: set<Pid>,
    inFlight: set<Pid>,
    sent: multiset<Sent>,
    diagnosisArmed: bool,
    destroyed: bool,
    // what the outside has seen
    issued: set<Pid>,
    settled: seq<Settlement>,
    dropped: set<Pid>,
    calls: seq<Call>,
    errors: nat,
    freedErrors: seq<nat>)

  const INITIAL: State :=
    State(CLIENT_INIT, map[], None, 0, 0, 0, false, None, {}, {}, multiset{}, false, false, {}, [], {}, [], 0, [])

  datatype Event =
    | Send(pid: Pid, msg: Option<string>)
    | SendDone(pid: Pid, ok: bool)
    | SendTimer(pid: Pid)
    | Diagnosis(pid: Pid, timeout: int)
    | DiagnosisTimer
    | StatusMessage(status: nat)
    | PipeError
    | SetOnOpen(handler: Handler)
    | SetOnError(handler: Handler)
    | SetOnClose(handler: Handler)
    | Shutdown

  predicate IsConnecting(status: nat) {
    status == CLIENT_INIT || status == CLIENT_ID_SENT
  }

  /** The contract of the environment: an armed timer fires once, a send completes once, a call
      brings a promise id of its own, and shutdown comes once. */
  predicate Possible(s: State, e: Event) {
    match e
    case Send(pid, _) => pid !in s.issued
    case Diagnosis(pid, _) => pid !in s.issued
    case SendDone(pid, _) => pid in s.inFlight
    case SendTimer(pid) => pid in s.armed
    case DiagnosisTimer => s.diagnosisArmed
    case Shutdown => !s.destroyed
    case _ => true
  }

  // ---------------------------------------------------------------- the steps

  function Settle(s: State, r: Settlement): State {
    s.(settled := s.settled + [r])
  }

  /** After shutdown the call is refused. The message is `None` when it is missing, no object or
      empty. */
  function SendStep(s: State, pid: Pid, msg: Option<string>): State {
    var s := s.(issued := s.issued + {pid});
    if s.destroyed then Settle(s, Rejected(pid, DISCONNECT))
    else if s.status == PHONE_CONNECTED then
      if msg.None? then Settle(s, Rejected(pid, INVALID_ARGS))
      else
        s.(tasks := s.tasks[pid := SendTask(msg.value, false)], inFlight := s.inFlight + {pid},
           sent := s.sent + multiset{Sent(pid, msg.value)})
    else if IsConnecting(s.status) then
      if msg.None? then Settle(s, Rejected(pid, INVALID_ARGS))
      else s.(tasks := s.tasks[pid := SendTask(msg.value, true)], armed := s.armed + {pid})
    else Settle(s, Rejected(pid, DISCONNECT))
  }

  /** A result for a task that is no longer listed is ignored. */
  function SendResult(s: State, pid: Pid, r: Settlement): State {
    if pid !in s.tasks then s
    else Settle(s.(tasks := s.tasks - {pid}), r)
  }

  /** The messages of the given tasks. */
  function Outgoing(tasks: map<Pid, SendTask>, ps: set<Pid>): multiset<Sent> {
    multiset(set p | p in ps && p in tasks :: Sent(p, tasks[p].msg))
  }

  /** Every task that still waits for a connection is handed over and loses its timer. */
  function FlushTasks(s: State): State {
    var waiting := set p | p in s.tasks && s.tasks[p].timer;
    s.(tasks := map p | p in s.tasks :: s.tasks[p].(timer := false),
       armed := s.armed - waiting,
       inFlight := s.inFlight + waiting,
       sent := s.sent + Outgoing(s.tasks, waiting))
  }

  function DiagnosisCode(status: nat, timedOut: bool): int {
    if timedOut then TIMEOUT
    else if status == PHONE_CONNECTED then OK
    else if status == PHONE_UNINSTALLED then APP_UNINSTALL
    else UNKNOWN
  }

  function DiagnosisStep(s: State, pid: Pid, timeout: int): State {
    var s := s.(issued := s.issued + {pid});
    if s.destroyed then Settle(s, Rejected(pid, DISCONNECT))
    else if !IsConnecting(s.status) then Settle(s, Resolved(pid, DiagnosisCode(s.status, false)))
    else if timeout <= 0 || s.diagnosis.Some? then Settle(s, Rejected(pid, UNKNOWN))
    else s.(diagnosis := Some(pid), diagnosisArmed := true)
  }

  function EndDiagnosis(s: State, timedOut: bool): State {
    if s.diagnosis.None? then s
    else
      Settle(s, Resolved(s.diagnosis.value, DiagnosisCode(s.status, timedOut)))
        .(diagnosis := None, diagnosisArmed := false)
  }

  function InvokeOpen(s: State, isReconnected: bool): State {
    if s.onOpen == 0 then s.(pendingOpen := true)
    else s.(calls := s.calls + [Opened(s.onOpen, isReconnected)])
  }

  function InvokeClose(s: State, code: int): State {
    if s.onClose == 0 then s else s.(calls := s.calls + [Closed(s.onClose, code)])
  }

  /** A new error object is delivered and freed, or kept in place of an older one. */
  function InvokeError(s: State, code: int): State {
    var err := ErrorInfo(s.errors, code);
    var s := s.(errors := s.errors + 1);
    if s.onError == 0 then
      s.(errInfo := Some(err),
         freedErrors := if s.errInfo.Some? then s.freedErrors + [s.errInfo.value.id] else s.freedErrors)
    else s.(calls := s.calls + [Errored(s.onError, code)], freedErrors := s.freedErrors + [err.id])
  }

  function StatusStep(s: State, status: nat): State {
    var was := s.status;
    var s := s.(status := status);
    if status == CONNECT_FAILED then EndDiagnosis(InvokeError(s, UNKNOWN), false)
    else if status == PHONE_CONNECTED then
      InvokeOpen(FlushTasks(EndDiagnosis(s, false)), IsConnecting(was))
    else if status == PHONE_DISCONNECTED then
      var s := EndDiagnosis(s, false).(pendingOpen := false);
      if IsConnecting(was) then InvokeError(s, DISCONNECT) else InvokeClose(s, UNKNOWN)
    else if status == PHONE_UNINSTALLED then InvokeClose(EndDiagnosis(s, false), APP_UNINSTALL)
    else s
  }

  function SetOnOpenStep(s: State, h: Handler): State {
    var s := s.(onOpen := h);
    if s.pendingOpen then InvokeOpen(s, true).(pendingOpen := false) else s
  }

  function SetOnErrorStep(s: State, h: Handler): State {
    var s := s.(onError := h);
    if s.errInfo.None? then s
    else
      s.(calls := if h == 0 then s.calls else s.calls + [Errored(h, s.errInfo.value.code)],
         freedErrors := s.freedErrors + [s.errInfo.value.id],
         errInfo := None)
  }

  /** The context goes away with everything it owns; open promises stay unsettled. */
  function ShutdownStep(s: State): State {
    s.(destroyed := true,
       dropped := s.dropped + s.tasks.Keys + (if s.diagnosis.Some? then {s.diagnosis.value} else {}),
       tasks := map[], armed := {},
       diagnosis := None, diagnosisArmed := false,
       freedErrors := if s.errInfo.Some? then s.freedErrors + [s.errInfo.value.id] else s.freedErrors,
       errInfo := None, pendingOpen := false)
  }

  /** Callbacks of the phone link and calls that set a handler find no context after shutdown and do
      nothing. */
  function Step(s: State, e: Event): State {
    match e
    case Send(pid, msg) => SendStep(s, pid, msg)
    case SendDone(pid, ok) =>
      var s := s.(inFlight := s.inFlight - {pid});
      if s.destroyed then s
      else SendResult(s, pid, if ok then Resolved(pid, OK) else Rejected(pid, DISCONNECT))
    case SendTimer(pid) => SendResult(s.(armed := s.armed - {pid}), pid, Rejected(pid, TIMEOUT))
    case Diagnosis(pid, timeout) => DiagnosisStep(s, pid, timeout)
    case DiagnosisTimer => EndDiagnosis(s.(diagnosisArmed := false), true)
    case StatusMessage(status) => if s.destroyed then s else StatusStep(s, status)
    case PipeError => if s.destroyed then s else EndDiagnosis(s, false)
    case SetOnOpen(h) => if s.destroyed then s else SetOnOpenStep(s, h)
    case SetOnError(h) => if s.destroyed then s else SetOnErrorStep(s, h)
    case SetOnClose(h) => if s.destroyed then s else s.(onClose := h)
    case Shutdown => ShutdownStep(s)
  }

  // ---------------------------------------------------------------- runs

  ghost predicate Run(es: seq<Event>)
    decreases |es|
  {
    es == [] || (Run(es[..|es| - 1]) && Possible(After(es[..|es| - 1]), es[|es| - 1]))
  }

  ghost function After(es: seq<Event>): State
    decreases |es|
  {
    if es == [] then INITIAL else Step(After(es[..|es| - 1]), es[|es| - 1])
  }

  // ---------------------------------------------------------------- invariants

  ghost predicate NoDup(q: seq<nat>) {
    forall i, j :: 0 <= i < j < |q| ==> q[i] != q[j]
  }

  ghost function Members(q: seq<nat>): set<nat> {
    set x | x in q
  }

  ghost function Pids(log: seq<Settlement>): seq<Pid> {
    seq(|log|, i requires 0 <= i < |log| => log[i].pid)
  }

  ghost function DiagnosisPids(d: Option<Pid>): set<Pid> {
    if d.Some? then {d.value} else {}
  }

  /** Conservation of promises: every issued promise is settled once, or belongs to a live task, or
      is the pending diagnosis, or was dropped at shutdown; never two of these. */
  ghost predicate Partition(issued: set<Pid>, settled: seq<Pid>, tasks: set<Pid>, diagnosis: set<Pid>,
                            dropped: set<Pid>) {
    && NoDup(settled)
    && issued == Members(settled) + tasks + diagnosis + dropped
    && Members(settled) !! tasks
    && Members(settled) !! diagnosis
    && Members(settled) !! dropped
    && tasks !! diagnosis
    && tasks !! dropped
    && diagnosis !! dropped
  }

  ghost predicate PromisesConserved(s: State) {
    Partition(s.issued, Pids(s.settled), s.tasks.Keys, DiagnosisPids(s.diagnosis), s.dropped)
  }

  /** Each live task has an armed timer or a send in flight, never both, and knows which; while
      connected no timer exists. */
  ghost predicate TasksConsistent(s: State) {
    && s.armed !! s.inFlight
    && (forall p :: p in s.tasks ==> (s.tasks[p].timer <==> p in s.armed))
    && (if s.destroyed then s.tasks == map[] && s.armed == {} else s.tasks.Keys == s.armed + s.inFlight)
    && s.inFlight <= s.issued
    && (s.status == PHONE_CONNECTED ==> s.armed == {})
  }

  ghost predicate DiagnosisConsistent(s: State) {
    && (s.diagnosis.Some? <==> s.diagnosisArmed)
    && (if s.destroyed then s.diagnosis.None? else s.dropped == {})
  }

  /** Of the error objects made so far, each is either the buffered one or freed, and freed once. */
  ghost predicate ErrorLedger(made: nat, buffered: Option<ErrorInfo>, freed: seq<nat>) {
    && NoDup(freed)
    && (forall k :: k in freed ==> k < made)
    && (forall k: nat :: k < made ==> (k in freed <==> !(buffered.Some? && buffered.value.id == k)))
    && (buffered.Some? ==> buffered.value.id < made)
  }

  /** An error is buffered only while no error handler is set; an open is kept back only while no
      open handler is set. */
  ghost predicate NotificationsConsistent(s: State) {
    && ErrorLedger(s.errors, s.errInfo, s.freedErrors)
    && (s.errInfo.Some? ==> s.onError == 0 && !s.destroyed)
    && (s.pendingOpen ==> s.onOpen == 0 && !s.destroyed)
  }

  ghost predicate Inv(s: State) {
    PromisesConserved(s) && TasksConsistent(s) && DiagnosisConsistent(s) && NotificationsConsistent(s)
  }

  // ---------------------------------------------------------------- moves between the parts

  lemma Append(q: seq<nat>, x: nat)
    requires NoDup(q) && x !in q
    ensures NoDup(q + [x]) && Members(q + [x]) == Members(q) + {x}
  {
  }

  lemma SettlePids(log: seq<Settlement>, r: Settlement)
    ensures Pids(log + [r]) == Pids(log) + [r.pid]
  {
  }

  lemma SettleNew(issued: set<Pid>, settled: seq<Pid>, tasks: set<Pid>, diagnosis: set<Pid>, dropped: set<Pid>, p: Pid)
    requires Partition(issued, settled, tasks, diagnosis, dropped) && p !in issued
    ensures Partition(issued + {p}, settled + [p], tasks, diagnosis, dropped)
  {
    assert p !in Members(settled);
    Append(settled, p);
  }

  lemma SettleTask(issued: set<Pid>, settled: seq<Pid>, tasks: set<Pid>, diagnosis: set<Pid>, dropped: set<Pid>, p: Pid)
    requires Partition(issued, settled, tasks, diagnosis, dropped) && p in tasks
    ensures Partition(issued, settled + [p], tasks - {p}, diagnosis, dropped)
  {
    assert p !in Members(settled);
    Append(settled, p);
  }

  lemma SettleDiagnosis(issued: set<Pid>, settled: seq<Pid>, tasks: set<Pid>, dropped: set<Pid>, p: Pid)
    requires Partition(issued, settled, tasks, {p}, dropped)
    ensures Partition(issued, settled + [p], tasks, {}, dropped)
  {
    assert p !in Members(settled);
    Append(settled, p);
  }

  lemma FreeError(made: nat, err: ErrorInfo, freed: seq<nat>)
    requires ErrorLedger(made, Some(err), freed)
    ensures ErrorLedger(made, None, freed + [err.id])
  {
    Append(freed, err.id);
  }

  // ---------------------------------------------------------------- each step keeps the invariant

  lemma AddTask(issued: set<Pid>, settled: seq<Pid>, tasks: set<Pid>, diagnosis: set<Pid>, dropped: set<Pid>, p: Pid)
    requires Partition(issued, settled, tasks, diagnosis, dropped) && p !in issued
    ensures Partition(issued + {p}, settled, tasks + {p}, diagnosis, dropped)
  {
    assert p !in Members(settled);
  }

  lemma AddDiagnosis(issued: set<Pid>, settled: seq<Pid>, tasks: set<Pid>, dropped: set<Pid>, p: Pid)
    requires Partition(issued, settled, tasks, {}, dropped) && p !in issued
    ensures Partition(issued + {p}, settled, tasks, {p}, dropped)
  {
    assert p !in Members(settled);
  }

  lemma SendAcceptedKeeps(s: State, pid: Pid, msg: string)
    requires Inv(s) && Possible(s, Send(pid, Some(msg)))
    requires !s.destroyed && (s.status == PHONE_CONNECTED || IsConnecting(s.status))
    ensures Inv(SendStep(s, pid, Some(msg)))
  {
    var t := SendStep(s, pid, Some(msg));
    assert t.tasks.Keys == s.tasks.Keys + {pid};
    AddTask(s.issued, Pids(s.settled), s.tasks.Keys, DiagnosisPids(s.diagnosis), s.dropped, pid);
    assert PromisesConserved(t);
    assert pid !in s.armed && pid !in s.inFlight;
  }

  lemma SendKeeps(s: State, pid: Pid, msg: Option<string>)
    requires Inv(s) && Possible(s, Send(pid, msg))
    ensures Inv(SendStep(s, pid, msg))
  {
    if msg.Some? && !s.destroyed && (s.status == PHONE_CONNECTED || IsConnecting(s.status)) {
      SendAcceptedKeeps(s, pid, msg.value);
    } else {
      var t := SendStep(s, pid, msg);
      SettlePids(s.settled, t.settled[|s.settled|]);
      SettleNew(s.issued, Pids(s.settled), s.tasks.Keys, DiagnosisPids(s.diagnosis), s.dropped, pid);
    }
  }

  lemma SendResultKeeps(s: State, e: Event)
    requires Inv(s) && Possible(s, e) && (e.SendDone? || e.SendTimer?)
    ensures Inv(Step(s, e))
  {
    var t := Step(s, e);
    if e.pid in s.tasks {
      SettlePids(s.settled, t.settled[|s.settled|]);
      SettleTask(s.issued, Pids(s.settled), s.tasks.Keys, DiagnosisPids(s.diagnosis), s.dropped, e.pid);
      assert t.tasks.Keys == s.tasks.Keys - {e.pid};
    }
  }

  lemma EndDiagnosisKeeps(s: State, timedOut: bool)
    requires Inv(s)
    ensures Inv(EndDiagnosis(s, timedOut)) && EndDiagnosis(s, timedOut).diagnosis.None?
  {
    if s.diagnosis.Some? {
      SettlePids(s.settled, Resolved(s.diagnosis.value, DiagnosisCode(s.status, timedOut)));
      SettleDiagnosis(s.issued, Pids(s.settled), s.tasks.Keys, s.dropped, s.diagnosis.value);
    }
  }

  lemma DiagnosisKeeps(s: State, pid: Pid, timeout: int)
    requires Inv(s) && Possible(s, Diagnosis(pid, timeout))
    ensures Inv(DiagnosisStep(s, pid, timeout))
  {
    if !s.destroyed && IsConnecting(s.status) && timeout > 0 && s.diagnosis.None? {
      AddDiagnosis(s.issued, Pids(s.settled), s.tasks.Keys, s.dropped, pid);
    } else {
      SettlePids(s.settled, DiagnosisStep(s, pid, timeout).settled[|s.settled|]);
      SettleNew(s.issued, Pids(s.settled), s.tasks.Keys, DiagnosisPids(s.diagnosis), s.dropped, pid);
    }
  }

  lemma InvokeErrorKeeps(s: State, code: int)
    requires Inv(s) && !s.destroyed
    ensures Inv(InvokeError(s, code))
  {
    if s.errInfo.Some? { FreeError(s.errors, s.errInfo.value, s.freedErrors); }
    if s.onError != 0 { FreeError(s.errors + 1, ErrorInfo(s.errors, code), s.freedErrors); }
  }

  lemma SetOnErrorKeeps(s: State, h: Handler)
    requires Inv(s)
    ensures Inv(SetOnErrorStep(s, h))
  {
    if s.errInfo.Some? { FreeError(s.errors, s.errInfo.value, s.freedErrors); }
  }

  lemma ShutdownKeeps(s: State)
    requires Inv(s) && !s.destroyed
    ensures Inv(ShutdownStep(s))
  {
    if s.errInfo.Some? { FreeError(s.errors, s.errInfo.value, s.freedErrors); }
  }

  lemma FlushKeeps(s: State)
    requires Inv(s) && !s.destroyed
    ensures Inv(FlushTasks(s)) && FlushTasks(s).armed == {}
  {
    assert FlushTasks(s).tasks.Keys == s.tasks.Keys;
  }

  lemma ConnectedKeeps(s: State)
    requires Inv(s) && !s.destroyed
    ensures Inv(StatusStep(s, PHONE_CONNECTED))
  {
    // The order of the two field updates does not matter, and flushing before the status changes
    // keeps every intermediate state consistent.
    FlushKeeps(s);
    var f := FlushTasks(s).(status := PHONE_CONNECTED);
    assert Inv(f);
    EndDiagnosisKeeps(f, false);
    assert FlushTasks(EndDiagnosis(s.(status := PHONE_CONNECTED), false)) == EndDiagnosis(f, false);
  }

  lemma DisconnectedKeeps(n: State, connecting: bool)
    requires Inv(n) && !n.destroyed
    ensures var d := EndDiagnosis(n, false).(pendingOpen := false);
      Inv(if connecting then InvokeError(d, DISCONNECT) else InvokeClose(d, UNKNOWN))
  {
    EndDiagnosisKeeps(n, false);
    var d := EndDiagnosis(n, false).(pendingOpen := false);
    assert Inv(d);
    InvokeErrorKeeps(d, DISCONNECT);
  }

  lemma StatusKeeps(s: State, status: nat)
    requires Inv(s) && !s.destroyed
    ensures Inv(StatusStep(s, status))
  {
    if status == PHONE_CONNECTED {
      ConnectedKeeps(s);
    } else {
      var n := s.(status := status);
      assert Inv(n);
      if status == PHONE_DISCONNECTED {
        DisconnectedKeeps(n, IsConnecting(s.status));
      } else if status == CONNECT_FAILED {
        InvokeErrorKeeps(n, UNKNOWN);
        EndDiagnosisKeeps(InvokeError(n, UNKNOWN), false);
      } else if status == PHONE_UNINSTALLED {
        EndDiagnosisKeeps(n, false);
      }
    }
  }

  lemma StepKeeps(s: State, e: Event)
    requires Inv(s) && Possible(s, e)
    ensures Inv(Step(s, e))
  {
    match e {
      case Send(pid, msg) => SendKeeps(s, pid, msg);
      case SendDone(_, _) => SendResultKeeps(s, e);
      case SendTimer(_) => SendResultKeeps(s, e);
      case Diagnosis(pid, timeout) => DiagnosisKeeps(s, pid, timeout);
      case DiagnosisTimer =>
        EndDiagnosisKeeps(s, true);
        assert EndDiagnosis(s.(diagnosisArmed := false), true) == EndDiagnosis(s, true);
      case StatusMessage(status) => if !s.destroyed { StatusKeeps(s, status); }
      case PipeError => EndDiagnosisKeeps(s, false);
      case SetOnOpen(h) =>
      case SetOnError(h) => SetOnErrorKeeps(s, h);
      case SetOnClose(h) =>
      case Shutdown => ShutdownKeeps(s);
    }
  }

  lemma Extend(es: seq<Event>, e: Event)
    requires Run(es) && Possible(After(es), e)
    ensures Run(es + [e]) && After(es + [e]) == Step(After(es), e)
  {
    assert (es + [e])[..|es + [e]| - 1] == es;
  }

  /** Every run keeps every invariant. */
  lemma {:induction false} RunKeeps(es: seq<Event>)
    requires Run(es)
    ensures Inv(After(es))
    decreases |es|
  {
    if es != [] {
      RunKeeps(es[..|es| - 1]);
      StepKeeps(After(es[..|es| - 1]), es[|es| - 1]);
    }
  }

  // ---------------------------------------------------------------- what every run guarantees

  /** In every run each promise is settled at most once; while the context lives, an issued promise
      is unsettled exactly when a live task or the pending diagnosis owns it; a live task has an
      armed timer or a send in flight, not both; and no timer is armed while connected. */
  lemma PromisesInEveryRun(es: seq<Event>)
    requires Run(es)
    ensures var s := After(es);
      && (forall i, j :: 0 <= i < j < |s.settled| ==> s.settled[i].pid != s.settled[j].pid)
      && (!s.destroyed ==> forall p :: p in s.issued ==>
            ((forall i :: 0 <= i < |s.settled| ==> s.settled[i].pid != p) <==> p in s.tasks || s.diagnosis == Some(p)))
      && (!s.destroyed ==> forall p :: p in s.tasks <==> (p in s.armed) != (p in s.inFlight))
      && (s.status == PHONE_CONNECTED ==> s.armed == {})
  {
    RunKeeps(es);
    var s := After(es);
    forall i, j | 0 <= i < j < |s.settled| ensures s.settled[i].pid != s.settled[j].pid {
      assert Pids(s.settled)[i] != Pids(s.settled)[j];
    }
    forall p { SettledIff(s.settled, p); }
  }

  lemma SettledIff(log: seq<Settlement>, p: Pid)
    ensures p in Members(Pids(log)) <==> !forall i :: 0 <= i < |log| ==> log[i].pid != p
  {
    if p in Pids(log) {
      var i :| 0 <= i < |log| && Pids(log)[i] == p;
      assert log[i].pid == p;
    }
    if i :| 0 <= i < |log| && log[i].pid == p {
      assert Pids(log)[i] == p;
    }
  }

  ghost predicate IsSettled(s: State, p: Pid) {
    exists i :: 0 <= i < |s.settled| && s.settled[i].pid == p
  }

  /** Exactly one of: settled, a listed task, the pending diagnosis, dropped at shutdown. */
  ghost predicate OwnedOnce(s: State, p: Pid) {
    var a, b, c, d := IsSettled(s, p), p in s.tasks, s.diagnosis == Some(p), p in s.dropped;
    (a || b || c || d) && !(a && b) && !(a && c) && !(a && d) && !(b && c) && !(b && d) && !(c && d)
  }

  /** The promises issued so far are those owned in exactly one way. */
  lemma OwnedInEveryRun(es: seq<Event>, p: Pid)
    requires Run(es)
    ensures p in After(es).issued <==> OwnedOnce(After(es), p)
  {
    RunKeeps(es);
    OwnedByPartition(After(es), p);
  }

  lemma OwnedByPartition(s: State, p: Pid)
    requires PromisesConserved(s)
    ensures p in s.issued <==> OwnedOnce(s, p)
  {
    SettledIff(s.settled, p);
  }

  /** Once nothing is armed and nothing is in flight, every promise has been settled. */
  lemma QuiescentMeansSettled(es: seq<Event>, p: Pid)
    requires Run(es)
    requires var s := After(es); !s.destroyed && s.armed == {} && s.inFlight == {} && !s.diagnosisArmed && p in s.issued
    ensures exists i :: 0 <= i < |After(es).settled| && After(es).settled[i].pid == p
  {
    RunKeeps(es);
    PromisesInEveryRun(es);
  }

  /** After shutdown every error object ever made has been freed exactly once. */
  lemma ErrorsFreedAtShutdown(es: seq<Event>)
    requires Run(es) && After(es).destroyed
    ensures NoDup(After(es).freedErrors)
    ensures forall k: nat :: k < After(es).errors <==> k in After(es).freedErrors
  {
    RunKeeps(es);
  }

  // ---------------------------------------------------------------- what reaches the phone

  /** No message is handed over twice, and none for two texts; a task that has lost its timer has been
      handed over with its own text, one that has it has not. */
  ghost predicate SentOk(tasks: map<Pid, SendTask>, sent: multiset<Sent>, issued: set<Pid>) {
    && (forall x :: sent[x] <= 1)
    && (forall x :: x in sent ==> x.pid in issued)
    && (forall x, y :: x in sent && y in sent && x.pid == y.pid ==> x == y)
    && (forall p :: p in tasks && !tasks[p].timer ==> Sent(p, tasks[p].msg) in sent)
    && (forall x :: x in sent ==> !(x.pid in tasks && tasks[x.pid].timer))
  }

  /** The part of the state that messages depend on. */
  datatype Traffic = Traffic(tasks: map<Pid, SendTask>, sent: multiset<Sent>, issued: set<Pid>)

  function TrafficOf(s: State): Traffic {
    Traffic(s.tasks, s.sent, s.issued)
  }

  function FlushedTraffic(f: Traffic): Traffic {
    f.(tasks := map p | p in f.tasks :: f.tasks[p].(timer := false),
       sent := f.sent + Outgoing(f.tasks, set p | p in f.tasks && f.tasks[p].timer))
  }

  lemma QuietTraffic(s: State, flag: bool, code: int)
    ensures TrafficOf(EndDiagnosis(s, flag)) == TrafficOf(s)
    ensures TrafficOf(InvokeOpen(s, flag)) == TrafficOf(s)
    ensures TrafficOf(InvokeError(s, code)) == TrafficOf(s)
    ensures TrafficOf(InvokeClose(s, code)) == TrafficOf(s)
  {
  }

  lemma FlushTraffic(s: State)
    ensures TrafficOf(FlushTasks(s)) == FlushedTraffic(TrafficOf(s))
  {
  }

  lemma StatusTraffic(s: State, status: nat)
    ensures TrafficOf(StatusStep(s, status)) ==
      if status == PHONE_CONNECTED then FlushedTraffic(TrafficOf(s)) else TrafficOf(s)
  {
    var n := s.(status := status);
    assert TrafficOf(n) == TrafficOf(s);
    QuietTraffic(n, false, 0);
    var d := EndDiagnosis(n, false);
    if status == CONNECT_FAILED {
      QuietTraffic(n, false, UNKNOWN);
      QuietTraffic(InvokeError(n, UNKNOWN), false, 0);
    } else if status == PHONE_CONNECTED {
      FlushTraffic(d);
      QuietTraffic(FlushTasks(d), IsConnecting(s.status), 0);
    } else if status == PHONE_DISCONNECTED {
      var c := d.(pendingOpen := false);
      assert TrafficOf(c) == TrafficOf(d);
      QuietTraffic(c, false, DISCONNECT);
      QuietTraffic(c, false, UNKNOWN);
    } else if status == PHONE_UNINSTALLED {
      QuietTraffic(d, false, APP_UNINSTALL);
    }
  }

  /** How an event changes it: a send call may add a task, with or without a timer; a result or shutdown
      takes tasks away; a connection hands the waiting ones over. */
  ghost predicate TrafficNext(f: Traffic, e: Event, g: Traffic) {
    match e
    case Send(pid, msg) =>
      && g.issued == f.issued + {pid}
      && (|| (g.tasks == f.tasks && g.sent == f.sent)
          || (msg.Some? && g.tasks == f.tasks[pid := SendTask(msg.value, true)] && g.sent == f.sent)
          || (msg.Some? && g.tasks == f.tasks[pid := SendTask(msg.value, false)]
              && g.sent == f.sent + multiset{Sent(pid, msg.value)}))
    case StatusMessage(_) => g == f || g == FlushedTraffic(f)
    case _ => f.issued <= g.issued && g.sent == f.sent && g.tasks.Keys <= f.tasks.Keys
              && forall p :: p in g.tasks ==> g.tasks[p] == f.tasks[p]
  }

  lemma SendTraffic(s: State, pid: Pid, msg: Option<string>)
    ensures TrafficNext(TrafficOf(s), Event.Send(pid, msg), TrafficOf(SendStep(s, pid, msg)))
  {
  }

  lemma CallTraffic(s: State, e: Event)
    requires e.Diagnosis? || e.SetOnOpen? || e.SetOnError? || e.SetOnClose?
    ensures TrafficNext(TrafficOf(s), e, TrafficOf(Step(s, e)))
  {
  }

  lemma TrafficStep(s: State, e: Event)
    ensures TrafficNext(TrafficOf(s), e, TrafficOf(Step(s, e)))
  {
    match e {
      case Send(pid, msg) => SendTraffic(s, pid, msg);
      case Diagnosis(_, _) => CallTraffic(s, e);
      case SetOnOpen(_) => CallTraffic(s, e);
      case SetOnError(_) => CallTraffic(s, e);
      case SetOnClose(_) => CallTraffic(s, e);
      case StatusMessage(status) => StatusTraffic(s, status);
      case PipeError => QuietTraffic(s, false, 0);
      case DiagnosisTimer => QuietTraffic(s.(diagnosisArmed := false), true, 0);
      case _ =>
    }
  }

  lemma FlushSent(f: Traffic)
    requires SentOk(f.tasks, f.sent, f.issued) && f.tasks.Keys <= f.issued
    ensures var g := FlushedTraffic(f); SentOk(g.tasks, g.sent, g.issued)
  {
    var waiting := set p | p in f.tasks && f.tasks[p].timer;
    var more := set p | p in waiting && p in f.tasks :: Sent(p, f.tasks[p].msg);
    assert forall x :: x in more ==> x !in f.sent;
    assert forall x :: multiset(more)[x] == if x in more then 1 else 0;
  }

  lemma SentNext(f: Traffic, e: Event, g: Traffic)
    requires SentOk(f.tasks, f.sent, f.issued) && f.tasks.Keys <= f.issued && TrafficNext(f, e, g)
    requires e.Send? ==> e.pid !in f.issued
    ensures SentOk(g.tasks, g.sent, g.issued)
  {
    match e {
      case Send(pid, msg) => if msg.Some? { SendSent(f, pid, msg.value); }
      case StatusMessage(_) => FlushSent(f);
      case _ =>
    }
  }

  lemma SendSent(f: Traffic, pid: Pid, msg: string)
    requires SentOk(f.tasks, f.sent, f.issued) && f.tasks.Keys <= f.issued && pid !in f.issued
    ensures SentOk(f.tasks[pid := SendTask(msg, true)], f.sent, f.issued + {pid})
    ensures SentOk(f.tasks[pid := SendTask(msg, false)], f.sent + multiset{Sent(pid, msg)}, f.issued + {pid})
  {
    assert Sent(pid, msg) !in f.sent;
  }

  lemma {:induction false} SentKeeps(es: seq<Event>)
    requires Run(es)
    ensures var s := After(es); SentOk(s.tasks, s.sent, s.issued)
    decreases |es|
  {
    if es != [] {
      var pre, e := es[..|es| - 1], es[|es| - 1];
      SentKeeps(pre);
      IssuedTasks(pre);
      TrafficStep(After(pre), e);
      SentNext(TrafficOf(After(pre)), e, TrafficOf(After(es)));
    }
  }

  lemma IssuedTasks(es: seq<Event>)
    requires Run(es)
    ensures After(es).tasks.Keys <= After(es).issued
  {
    RunKeeps(es);
  }

  /** A task and a message handed over come from the call that gave the text. */
  ghost predicate FromCalls(f: Traffic, es: seq<Event>) {
    && (forall p :: p in f.tasks ==> Event.Send(p, Some(f.tasks[p].msg)) in es)
    && (forall x :: x in f.sent ==> Event.Send(x.pid, Some(x.msg)) in es)
  }

  lemma FromCallsNext(f: Traffic, es: seq<Event>, e: Event, g: Traffic)
    requires FromCalls(f, es) && TrafficNext(f, e, g)
    ensures FromCalls(g, es + [e])
  {
    assert forall x :: x in es ==> x in es + [e];
    assert e in es + [e];
    if e.StatusMessage? && g == FlushedTraffic(f) {
      forall x | x in g.sent ensures Event.Send(x.pid, Some(x.msg)) in es {
        if x !in f.sent { assert x.pid in f.tasks && x.msg == f.tasks[x.pid].msg; }
      }
    }
  }

  lemma {:induction false} MessagesOfCalls(es: seq<Event>)
    requires Run(es)
    ensures FromCalls(TrafficOf(After(es)), es)
    decreases |es|
  {
    if es != [] {
      var pre, e := es[..|es| - 1], es[|es| - 1];
      MessagesOfCalls(pre);
      TrafficStep(After(pre), e);
      FromCallsNext(TrafficOf(After(pre)), pre, e, TrafficOf(After(es)));
      assert pre + [e] == es;
    }
  }

  /** In every run: what is handed to the phone is the text of the send call with that promise, at most
      once, and never while the task still waits; every send in flight has been handed over. */
  lemma SentInEveryRun(es: seq<Event>)
    requires Run(es)
    ensures var s := After(es);
      && (forall x :: x in s.sent ==> s.sent[x] == 1 && Event.Send(x.pid, Some(x.msg)) in es)
      && (forall x, y :: x in s.sent && y in s.sent && x.pid == y.pid ==> x == y)
      && (forall x :: x in s.sent ==> x.pid !in s.armed)
      && (!s.destroyed ==> forall p :: p in s.inFlight ==> p in s.tasks && Sent(p, s.tasks[p].msg) in s.sent)
  {
    RunKeeps(es);
    SentKeeps(es);
    MessagesOfCalls(es);
  }

  // ---------------------------------------------------------------- the deferred open event

  /** The part of the state that deferred opens and diagnoses depend on. */
  datatype Focus = Focus(issued: set<Pid>, diagnosis: Option<Pid>, settled: seq<Settlement>,
                         pendingOpen: bool, onOpen: Handler, status: nat)

  function FocusOf(s: State): Focus {
    Focus(s.issued, s.diagnosis, s.settled, s.pendingOpen, s.onOpen, s.status)
  }

  lemma NoticesKeepFocus(s: State, code: int)
    ensures FocusOf(InvokeError(s, code)) == FocusOf(s)
    ensures FocusOf(InvokeClose(s, code)) == FocusOf(s)
    ensures FocusOf(FlushTasks(s)) == FocusOf(s)
  {
  }

  function EndedFocus(f: Focus): Focus {
    if f.diagnosis.None? then f
    else f.(diagnosis := None, settled := f.settled + [Resolved(f.diagnosis.value, DiagnosisCode(f.status, false))])
  }

  lemma EndDiagnosisFocus(s: State)
    ensures FocusOf(EndDiagnosis(s, false)) == EndedFocus(FocusOf(s))
  {
  }

  lemma OpenFocus(s: State, isReconnected: bool)
    ensures FocusOf(InvokeOpen(s, isReconnected)) == FocusOf(s).(pendingOpen := s.pendingOpen || s.onOpen == 0)
  {
  }

  /** What a status message does to the deferred open and the pending diagnosis. */
  lemma StatusFocus(s: State, status: nat)
    ensures FocusOf(StatusStep(s, status)) ==
      var f := FocusOf(s).(status := status);
      if !EndingStatus(status) then f
      else EndedFocus(f).(pendingOpen :=
        if status == PHONE_CONNECTED then s.pendingOpen || s.onOpen == 0
        else s.pendingOpen && status != PHONE_DISCONNECTED)
  {
    var n := s.(status := status);
    EndDiagnosisFocus(n);
    var d := EndDiagnosis(n, false);
    if status == CONNECT_FAILED {
      NoticesKeepFocus(n, UNKNOWN);
      EndDiagnosisFocus(InvokeError(n, UNKNOWN));
    } else if status == PHONE_CONNECTED {
      NoticesKeepFocus(d, 0);
      OpenFocus(FlushTasks(d), IsConnecting(s.status));
    } else if status == PHONE_DISCONNECTED {
      NoticesKeepFocus(d.(pendingOpen := false), DISCONNECT);
      NoticesKeepFocus(d.(pendingOpen := false), UNKNOWN);
    } else if status == PHONE_UNINSTALLED {
      NoticesKeepFocus(d, APP_UNINSTALL);
    }
  }

  predicate EndingStatus(status: nat) {
    status == CONNECT_FAILED || status == PHONE_CONNECTED || status == PHONE_DISCONNECTED || status == PHONE_UNINSTALLED
  }

  predicate ClearsOpen(e: Event) {
    e.SetOnOpen? || e == StatusMessage(PHONE_DISCONNECTED) || e.Shutdown?
  }

  /** A connection was made at position `i` while no open handler was set, and nothing since then
      has cleared the memory of it. */
  ghost predicate OpenDeferredAt(es: seq<Event>, i: nat) {
    && i < |es| && es[i] == StatusMessage(PHONE_CONNECTED)
    && After(es[..i]).onOpen == 0 && !After(es[..i]).destroyed
    && forall j :: i < j < |es| ==> !ClearsOpen(es[j])
  }

  lemma PrefixPosition(es: seq<Event>, i: nat)
    requires es != [] && i < |es| - 1
    ensures OpenDeferredAt(es, i) <==> OpenDeferredAt(es[..|es| - 1], i) && !ClearsOpen(es[|es| - 1])
  {
    var pre := es[..|es| - 1];
    assert pre[..i] == es[..i];
    if OpenDeferredAt(pre, i) && !ClearsOpen(es[|es| - 1]) {
      forall j | i < j < |es| ensures !ClearsOpen(es[j]) {
        if j < |pre| { assert pre[j] == es[j]; }
      }
    }
    if OpenDeferredAt(es, i) {
      forall j | i < j < |pre| ensures !ClearsOpen(pre[j]) { assert pre[j] == es[j]; }
    }
  }

  lemma OpenHistoryStep(es: seq<Event>)
    requires es != []
    ensures var pre, e := es[..|es| - 1], es[|es| - 1];
      (exists i :: OpenDeferredAt(es, i)) <==>
        || ((exists i :: OpenDeferredAt(pre, i)) && !ClearsOpen(e))
        || (e == StatusMessage(PHONE_CONNECTED) && After(pre).onOpen == 0 && !After(pre).destroyed)
  {
    var pre, e := es[..|es| - 1], es[|es| - 1];
    if i: nat :| OpenDeferredAt(es, i) {
      if i < |es| - 1 { PrefixPosition(es, i); }
    }
    if (exists i :: OpenDeferredAt(pre, i)) && !ClearsOpen(e) {
      var i :| OpenDeferredAt(pre, i);
      PrefixPosition(es, i);
    }
    if e == StatusMessage(PHONE_CONNECTED) && After(pre).onOpen == 0 && !After(pre).destroyed {
      assert OpenDeferredAt(es, |es| - 1);
    }
  }

  lemma OpenStep(s: State, e: Event)
    requires s.destroyed ==> !s.pendingOpen
    ensures Step(s, e).pendingOpen <==>
              || (s.pendingOpen && !ClearsOpen(e))
              || (e == StatusMessage(PHONE_CONNECTED) && s.onOpen == 0 && !s.destroyed)
  {
    if e.StatusMessage? { StatusFocus(s, e.status); }
  }

  /** An open event is waiting exactly when some connection was deferred and not cleared since. */
  lemma {:induction false} OpenPendingExactly(es: seq<Event>)
    requires Run(es)
    ensures After(es).pendingOpen <==> exists i :: OpenDeferredAt(es, i)
    decreases |es|
  {
    if es != [] {
      var pre := es[..|es| - 1];
      OpenPendingExactly(pre);
      RunKeeps(pre);
      OpenStep(After(pre), es[|es| - 1]);
      OpenHistoryStep(es);
    }
  }

  /** Setting an open handler delivers one event to it exactly when an open is waiting and the
      handler is not zero; in every case nothing is waiting afterwards. */
  lemma OpenDelivery(es: seq<Event>, h: Handler)
    requires Run(es)
    ensures Run(es + [SetOnOpen(h)])
    ensures var s, t := After(es), After(es + [SetOnOpen(h)]);
      && !t.pendingOpen
      && t.calls == s.calls + if h != 0 && (exists i :: OpenDeferredAt(es, i)) then [Opened(h, true)] else []
  {
    RunKeeps(es);
    OpenPendingExactly(es);
    Extend(es, SetOnOpen(h));
  }

  /** A waiting open is lost when the handler is first set to zero: the pending flag that the
      delivery re-raises is cleared right after. */
  lemma ZeroHandlerLosesOpen(h: Handler)
    requires h != 0
    ensures var es := [StatusMessage(PHONE_CONNECTED), SetOnOpen(0), SetOnOpen(h)];
      Run(es) && After(es).calls == [] && After(es[..1]).pendingOpen
  {
    var connect := StatusMessage(PHONE_CONNECTED);
    Extend([], connect);
    Extend([] + [connect], SetOnOpen(0));
    Extend([] + [connect] + [SetOnOpen(0)], SetOnOpen(h));
    assert [] + [connect] + [SetOnOpen(0)] + [SetOnOpen(h)] == [connect, SetOnOpen(0), SetOnOpen(h)];
    assert [connect, SetOnOpen(0), SetOnOpen(h)][..1] == [] + [connect];
  }

  // ---------------------------------------------------------------- the buffered error

  function BufferedCode(s: State): Option<int> {
    if s.errInfo.Some? then Some(s.errInfo.value.code) else None
  }

  /** The event raises an error while no error handler is set. */
  predicate DefersError(s: State, e: Event) {
    && !s.destroyed && s.onError == 0 && e.StatusMessage?
    && (e.status == CONNECT_FAILED || (e.status == PHONE_DISCONNECTED && IsConnecting(s.status)))
  }

  function RaisedCode(e: Event): int
    requires e.StatusMessage?
  {
    if e.status == CONNECT_FAILED then UNKNOWN else DISCONNECT
  }

  predicate TakesError(e: Event) {
    e.SetOnError? || e.Shutdown?
  }

  lemma QuietSteps(s: State, flag: bool, code: int)
    ensures EndDiagnosis(s, flag).errInfo == s.errInfo && EndDiagnosis(s, flag).onError == s.onError
    ensures InvokeOpen(s, flag).errInfo == s.errInfo && FlushTasks(s).errInfo == s.errInfo
    ensures InvokeClose(s, code).errInfo == s.errInfo
  {
  }

  lemma RaisedBuffered(s: State, code: int)
    ensures BufferedCode(InvokeError(s, code)) == if s.onError == 0 then Some(code) else BufferedCode(s)
  {
  }

  lemma StatusBuffered(s: State, status: nat)
    requires !s.destroyed
    ensures BufferedCode(StatusStep(s, status)) ==
      var e := StatusMessage(status); if DefersError(s, e) then Some(RaisedCode(e)) else BufferedCode(s)
  {
    var n := s.(status := status);
    QuietSteps(n, false, 0);
    var d := EndDiagnosis(n, false);
    if status == CONNECT_FAILED {
      RaisedBuffered(n, UNKNOWN);
      QuietSteps(InvokeError(n, UNKNOWN), false, 0);
    } else if status == PHONE_CONNECTED {
      QuietSteps(d, false, 0);
      QuietSteps(FlushTasks(d), IsConnecting(s.status), 0);
    } else if status == PHONE_DISCONNECTED {
      RaisedBuffered(d.(pendingOpen := false), DISCONNECT);
      QuietSteps(d.(pendingOpen := false), false, UNKNOWN);
    } else if status == PHONE_UNINSTALLED {
      QuietSteps(d, false, APP_UNINSTALL);
    }
  }

  lemma ErrorStep(s: State, e: Event)
    requires s.destroyed ==> s.errInfo.None?
    ensures BufferedCode(Step(s, e)) ==
      if DefersError(s, e) then Some(RaisedCode(e)) else if TakesError(e) then None else BufferedCode(s)
  {
    match e {
      case StatusMessage(status) => if !s.destroyed { StatusBuffered(s, status); }
      case PipeError => QuietSteps(s, false, 0);
      case DiagnosisTimer => QuietSteps(s.(diagnosisArmed := false), true, 0);
      case _ =>
    }
  }

  /** The states of a history, the initial one first. */
  ghost function States(es: seq<Event>): (ss: seq<State>)
    ensures |ss| == |es| + 1
    decreases |es|
  {
    if es == [] then [INITIAL] else States(es[..|es| - 1]) + [After(es)]
  }

  lemma {:induction false} StatesAt(es: seq<Event>, i: nat)
    requires i <= |es|
    ensures States(es)[i] == After(es[..i])
    decreases |es|
  {
    if i == |es| {
      assert es[..i] == es;
    } else {
      assert es[..|es| - 1][..i] == es[..i];
      StatesAt(es[..|es| - 1], i);
    }
  }

  ghost predicate DefersAt(ss: seq<State>, es: seq<Event>, i: nat) {
    i < |ss| && i < |es| && DefersError(ss[i], es[i])
  }

  /** At position `i` an error was deferred, and since then no handler was set and no other error
      deferred. */
  ghost predicate LastDeferred(ss: seq<State>, es: seq<Event>, i: nat, code: int) {
    && DefersAt(ss, es, i) && RaisedCode(es[i]) == code
    && forall j :: i < j < |es| ==> !TakesError(es[j]) && !DefersAt(ss, es, j)
  }

  /** At some position an error was raised while no error handler was set, and since then no handler
      was set and no other error raised. */
  ghost predicate ErrorWaiting(es: seq<Event>, code: int) {
    exists i: nat :: LastDeferred(States(es), es, i, code)
  }

  lemma DeferredPrefix(ss: seq<State>, s: State, es: seq<Event>, e: Event, i: nat, code: int)
    requires |ss| == |es| + 1 && i < |es|
    ensures LastDeferred(ss + [s], es + [e], i, code) <==>
              LastDeferred(ss, es, i, code) && !TakesError(e) && !DefersError(ss[|es|], e)
  {
    var ss', es' := ss + [s], es + [e];
    assert forall j :: 0 <= j < |es| ==> es'[j] == es[j] && ss'[j] == ss[j];
    forall j | 0 <= j < |es| ensures DefersAt(ss', es', j) <==> DefersAt(ss, es, j) { }
    assert DefersAt(ss', es', |es|) <==> DefersError(ss[|es|], e);
    assert es'[|es|] == e;
  }

  lemma DeferredStep(ss: seq<State>, s: State, es: seq<Event>, e: Event, code: int)
    requires |ss| == |es| + 1
    ensures (exists i: nat :: LastDeferred(ss + [s], es + [e], i, code)) <==>
        if DefersError(ss[|es|], e) then RaisedCode(e) == code
        else !TakesError(e) && exists i: nat :: LastDeferred(ss, es, i, code)
  {
    var ss', es' := ss + [s], es + [e];
    if i: nat :| LastDeferred(ss', es', i, code) {
      if i < |es| { DeferredPrefix(ss, s, es, e, i, code); }
    }
    if DefersError(ss[|es|], e) && RaisedCode(e) == code {
      assert LastDeferred(ss', es', |es|, code);
    }
    if !DefersError(ss[|es|], e) && !TakesError(e) && exists i: nat :: LastDeferred(ss, es, i, code) {
      var i: nat :| LastDeferred(ss, es, i, code);
      DeferredPrefix(ss, s, es, e, i, code);
      assert LastDeferred(ss', es', i, code);
    }
  }

  lemma ErrorHistoryStep(es: seq<Event>, code: int)
    requires es != []
    ensures var pre, e := es[..|es| - 1], es[|es| - 1];
      ErrorWaiting(es, code) <==>
        if DefersError(After(pre), e) then RaisedCode(e) == code
        else !TakesError(e) && ErrorWaiting(pre, code)
  {
    var pre, e := es[..|es| - 1], es[|es| - 1];
    assert es == pre + [e] && States(es) == States(pre) + [After(es)];
    StatesAt(pre, |pre|);
    assert pre[..|pre|] == pre;
    DeferredStep(States(pre), After(es), pre, e, code);
  }

  /** An error with a given code is buffered exactly when it is the last one raised without a handler
      and no handler was set since. */
  lemma {:induction false} ErrorPendingExactly(es: seq<Event>, code: int)
    requires Run(es)
    ensures BufferedCode(After(es)) == Some(code) <==> ErrorWaiting(es, code)
    decreases |es|
  {
    if es != [] {
      var pre := es[..|es| - 1];
      ErrorPendingExactly(pre, code);
      RunKeeps(pre);
      ErrorStep(After(pre), es[|es| - 1]);
      ErrorHistoryStep(es, code);
    }
  }

  /** Setting an error handler delivers an error with the code exactly when one is buffered and the
      handler is not zero; in every case nothing is buffered afterwards. */
  lemma ErrorDelivery(es: seq<Event>, h: Handler, code: int)
    requires Run(es)
    ensures Run(es + [SetOnError(h)])
    ensures var s, t := After(es), After(es + [SetOnError(h)]);
      && t.errInfo.None?
      && (t.calls == s.calls + [Errored(h, code)] <==> h != 0 && ErrorWaiting(es, code))
      && (t.calls == s.calls <==> h == 0 || s.errInfo.None?)
  {
    var s := After(es);
    RunKeeps(es);
    ErrorPendingExactly(es, code);
    Extend(es, SetOnError(h));
    var t := After(es + [SetOnError(h)]);
    if t.calls == s.calls + [Errored(h, code)] { assert t.calls[|s.calls|] == Errored(h, code); }
  }

  /** A buffered error is lost when the handler is first set to zero. */
  lemma ZeroHandlerLosesError(h: Handler)
    requires h != 0
    ensures var es := [StatusMessage(CONNECT_FAILED), SetOnError(0), SetOnError(h)];
      Run(es) && After(es).calls == [] && BufferedCode(After(es[..1])) == Some(UNKNOWN)
  {
    var fail := StatusMessage(CONNECT_FAILED);
    Extend([], fail);
    Extend([] + [fail], SetOnError(0));
    Extend([] + [fail] + [SetOnError(0)], SetOnError(h));
    assert [] + [fail] + [SetOnError(0)] + [SetOnError(h)] == [fail, SetOnError(0), SetOnError(h)];
    assert [fail, SetOnError(0), SetOnError(h)][..1] == [] + [fail];
  }

  // ---------------------------------------------------------------- what handlers are told

  /** One call, unless no handler is set. */
  ghost function Told(handler: Handler, call: Call): seq<Call> {
    if handler == 0 then [] else [call]
  }

  /** What a status message tells the handlers at once. A connection is announced as a reconnection
      exactly when the attempt was still going on; a disconnection is an error then and a close later. */
  ghost function Announced(s: State, status: nat): seq<Call> {
    if status == CONNECT_FAILED then Told(s.onError, Errored(s.onError, 1000))
    else if status == PHONE_CONNECTED then Told(s.onOpen, Opened(s.onOpen, s.status < 2))
    else if status == PHONE_DISCONNECTED then
      if s.status < 2 then Told(s.onError, Errored(s.onError, 1006)) else Told(s.onClose, Closed(s.onClose, 1000))
    else if status == PHONE_UNINSTALLED then Told(s.onClose, Closed(s.onClose, 1001))
    else []
  }

  lemma NoticeCalls(s: State, flag: bool, code: int)
    ensures InvokeOpen(s, flag).calls == s.calls + Told(s.onOpen, Opened(s.onOpen, flag))
    ensures InvokeClose(s, code).calls == s.calls + Told(s.onClose, Closed(s.onClose, code))
    ensures InvokeError(s, code).calls == s.calls + Told(s.onError, Errored(s.onError, code))
  {
  }

  lemma QuietCalls(s: State)
    ensures EndDiagnosis(s, false).calls == s.calls && FlushTasks(s).calls == s.calls
    ensures EndDiagnosis(s, false).onOpen == s.onOpen && FlushTasks(s).onOpen == s.onOpen
    ensures EndDiagnosis(s, false).onError == s.onError && EndDiagnosis(s, false).onClose == s.onClose
  {
  }

  lemma ConnectedCalls(s: State)
    ensures StatusStep(s, PHONE_CONNECTED).calls == s.calls + Told(s.onOpen, Opened(s.onOpen, s.status < 2))
  {
    var n := s.(status := PHONE_CONNECTED);
    QuietCalls(n);
    QuietCalls(EndDiagnosis(n, false));
    NoticeCalls(FlushTasks(EndDiagnosis(n, false)), IsConnecting(s.status), 0);
  }

  lemma DisconnectedCalls(s: State)
    ensures StatusStep(s, PHONE_DISCONNECTED).calls == s.calls +
      if s.status < 2 then Told(s.onError, Errored(s.onError, 1006)) else Told(s.onClose, Closed(s.onClose, 1000))
  {
    var n := s.(status := PHONE_DISCONNECTED);
    QuietCalls(n);
    var d := EndDiagnosis(n, false).(pendingOpen := false);
    NoticeCalls(d, false, DISCONNECT);
    NoticeCalls(d, false, UNKNOWN);
  }

  lemma FailedCalls(s: State)
    ensures StatusStep(s, CONNECT_FAILED).calls == s.calls + Told(s.onError, Errored(s.onError, 1000))
  {
    var n := s.(status := CONNECT_FAILED);
    NoticeCalls(n, false, UNKNOWN);
    QuietCalls(InvokeError(n, UNKNOWN));
  }

  lemma UninstalledCalls(s: State)
    ensures StatusStep(s, PHONE_UNINSTALLED).calls == s.calls + Told(s.onClose, Closed(s.onClose, 1001))
  {
    var n := s.(status := PHONE_UNINSTALLED);
    QuietCalls(n);
    NoticeCalls(EndDiagnosis(n, false), false, APP_UNINSTALL);
  }

  lemma StatusCalls(s: State, status: nat)
    ensures StatusStep(s, status).calls == s.calls + Announced(s, status)
  {
    if status == CONNECT_FAILED {
      FailedCalls(s);
    } else if status == PHONE_CONNECTED {
      ConnectedCalls(s);
    } else if status == PHONE_DISCONNECTED {
      DisconnectedCalls(s);
    } else if status == PHONE_UNINSTALLED {
      UninstalledCalls(s);
    }
  }

  // ---------------------------------------------------------------- the pending diagnosis

  predicate EndsDiagnosis(e: Event) {
    || e.DiagnosisTimer? || e.PipeError? || e.Shutdown?
    || (e.StatusMessage? && EndingStatus(e.status))
  }

  /** The code that tells a caller about the link: 0 exactly when it is connected, 1001 exactly when the
      app on the phone is not installed, and 1000 for every other status. */
  ghost predicate TellsLink(code: int, status: nat) {
    && (code == 0 <==> status == PHONE_CONNECTED)
    && (code == 1001 <==> status == PHONE_UNINSTALLED)
    && (code == 1000 <==> status != PHONE_CONNECTED && status != PHONE_UNINSTALLED)
  }

  lemma CodeTellsLink(status: nat)
    ensures TellsLink(DiagnosisCode(status, false), status) && DiagnosisCode(status, true) == 204
  {
  }

  /** Between the two logs exactly one promise was resolved, with a code that tells about the link. */
  ghost predicate ToldLink(before: seq<Settlement>, after: seq<Settlement>, p: Pid, status: nat) {
    && |after| == |before| + 1 && after[..|before|] == before
    && after[|before|].Resolved? && after[|before|].pid == p && TellsLink(after[|before|].status, status)
  }

  /** One step of a pending diagnosis: it goes on, untouched by any further diagnosis call, unless
      the event ends it; then it is settled at once with the code of that event. */
  lemma DiagnosisStepOutcome(s: State, p: Pid, e: Event)
    requires DiagnosisConsistent(s) && Possible(s, e) && s.diagnosis == Some(p)
    ensures Step(s, e).diagnosis == if EndsDiagnosis(e) then None else Some(p)
    ensures e.DiagnosisTimer? ==> Step(s, e).settled == s.settled + [Resolved(p, 204)]
    ensures e.PipeError? ==> ToldLink(s.settled, Step(s, e).settled, p, s.status)
    ensures e.StatusMessage? && EndsDiagnosis(e) ==> ToldLink(s.settled, Step(s, e).settled, p, e.status)
    ensures e.StatusMessage? && !EndsDiagnosis(e) ==> Step(s, e).settled == s.settled
    ensures e.Shutdown? ==> p in Step(s, e).dropped && Step(s, e).settled == s.settled
    ensures e.Diagnosis? && s.status < 2 ==> Step(s, e).settled == s.settled + [Rejected(e.pid, 1000)]
    ensures e.Diagnosis? && s.status >= 2 ==> ToldLink(s.settled, Step(s, e).settled, e.pid, s.status)
  {
    CodeTellsLink(s.status);
    if e.StatusMessage? {
      CodeTellsLink(e.status);
      StatusFocus(s, e.status);
    }
  }

  /** A diagnosis call in any run: refused after shutdown, kept pending while connecting if it may, and
      answered at once with the state of the link otherwise. */
  lemma DiagnosisAtOnce(es: seq<Event>, p: Pid, timeout: int)
    requires Run(es) && p !in After(es).issued
    ensures var s, t := After(es), Step(After(es), Diagnosis(p, timeout));
      && (s.destroyed ==> t.settled == s.settled + [Rejected(p, 1006)])
      && (!s.destroyed && s.status >= 2 ==> ToldLink(s.settled, t.settled, p, s.status))
      && (!s.destroyed && s.status < 2 && (timeout <= 0 || s.diagnosis.Some?) ==>
            t.settled == s.settled + [Rejected(p, 1000)] && t.diagnosis == s.diagnosis)
      && (!s.destroyed && s.status < 2 && timeout > 0 && s.diagnosis.None? ==>
            t.settled == s.settled && t.diagnosis == Some(p) && t.diagnosisArmed)
  {
    CodeTellsLink(After(es).status);
  }

  lemma DiagnosisOneStep(s: State, p: Pid, e: Event)
    requires DiagnosisConsistent(s) && Possible(s, e) && p in s.issued
    ensures Step(s, e).diagnosis == Some(p) <==> s.diagnosis == Some(p) && !EndsDiagnosis(e)
    ensures p in Step(s, e).issued
  {
    if e.StatusMessage? { StatusFocus(s, e.status); }
  }

  lemma DiagnosisInEveryRun(es: seq<Event>)
    requires Run(es)
    ensures DiagnosisConsistent(After(es))
    ensures After(es).diagnosis.Some? ==> After(es).diagnosis.value in After(es).issued
  {
    RunKeeps(es);
  }

  lemma DiagnosisLastStep(es: seq<Event>, p: Pid)
    requires es != [] && Run(es) && p in After(es[..|es| - 1]).issued
    ensures After(es).diagnosis == Some(p) <==>
              After(es[..|es| - 1]).diagnosis == Some(p) && !EndsDiagnosis(es[|es| - 1])
    ensures p in After(es).issued
  {
    DiagnosisInEveryRun(es[..|es| - 1]);
    DiagnosisOneStep(After(es[..|es| - 1]), p, es[|es| - 1]);
  }

  /** No event from position `k` on ends a diagnosis. */
  ghost predicate GoesOn(es: seq<Event>, k: nat) {
    forall j :: k <= j < |es| ==> !EndsDiagnosis(es[j])
  }

  lemma GoesOnStep(es: seq<Event>, k: nat)
    requires k < |es|
    ensures GoesOn(es, k) <==> GoesOn(es[..|es| - 1], k) && !EndsDiagnosis(es[|es| - 1])
  {
    assert forall j :: k <= j < |es| - 1 ==> es[..|es| - 1][j] == es[j];
  }

  /** A diagnosis that is pending at position `k` of a run is still pending at the end exactly when
      no later event ends it. */
  lemma {:induction false} DiagnosisPendingExactly(es: seq<Event>, k: nat, p: Pid)
    requires Run(es) && k <= |es| && After(es[..k]).diagnosis == Some(p)
    ensures After(es).diagnosis == Some(p) <==> GoesOn(es, k)
    ensures p in After(es).issued
    decreases |es|
  {
    if k == |es| {
      assert es[..k] == es;
      DiagnosisInEveryRun(es);
    } else {
      var pre := es[..|es| - 1];
      assert pre[..k] == es[..k];
      DiagnosisPendingExactly(pre, k, p);
      DiagnosisLastStep(es, p);
      GoesOnStep(es, k);
    }
  }
}
