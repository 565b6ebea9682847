/** The connection context as an object whose callbacks update its fields, proved to follow the
    state machine of `Interconnect` step by step. */
module InterconnectContexts {
  import opened Options
  import opened Interconnect

  class InterconnectContext {
    var status: nat
    var sendTasks: map<Pid, SendTask>
    var diagnosisPid: Option<Pid>
    var connFunc: Handler
    var errorFunc: Handler
    var disconnFunc: Handler
    var isPendingConnect: bool
    var errInfo: Option<ErrorInfo>

    // The handles the event loop holds for this context.
    var armed: set<Pid>
    var inFlight: set<Pid>
    var sent: multiset<Sent>
    var diagnosisArmed: bool
    var destroyed: bool

    // What has been issued to and observed by the outside.
    var issued: set<Pid>
    var settled: seq<Settlement>
    var dropped: set<Pid>
    var calls: seq<Call>
    var errors: nat
    var freedErrors: seq<nat>

    /** Everything that has happened to the object. */
    ghost var trace: seq<Event>

    ghost function View(): State
      reads this
    {
      State(status, sendTasks, diagnosisPid, connFunc, errorFunc, disconnFunc, isPendingConnect, errInfo,
            armed, inFlight, sent, diagnosisArmed, destroyed, issued, settled, dropped, calls, errors, freedErrors)
    }

    /** The object is where its history leads, and the history is a run. */
    ghost predicate Valid()
      reads this
    {
      Run(trace) && View() == After(trace)
    }

    constructor ()
      ensures Valid() && trace == []
    {
      status, sendTasks, diagnosisPid, connFunc, errorFunc, disconnFunc := CLIENT_INIT, map[], None, 0, 0, 0;
      isPendingConnect, errInfo, armed, inFlight, sent := false, None, {}, {}, multiset{};
      diagnosisArmed, destroyed := false, false;
      issued, settled, dropped, calls, errors, freedErrors := {}, [], {}, [], 0, [];
      trace := [];
    }

    // -------------------------------------------------------------- parts of the callbacks

    /** The message is handed to the phone. The source asserts that the link is up; here that is a
        precondition, met at both call sites. */
    method SendMsg(pid: Pid, msg: string)
      requires status == PHONE_CONNECTED
      modifies this`inFlight, this`sent
      ensures inFlight == old(inFlight) + {pid} && sent == old(sent) + multiset{Sent(pid, msg)}
    {
      inFlight := inFlight + {pid};
      sent := sent + multiset{Sent(pid, msg)};
    }

    method Reject(pid: Pid, code: int)
      modifies this`settled
      ensures View() == Settle(old(View()), Rejected(pid, code))
    {
      settled := settled + [Rejected(pid, code)];
    }

    method Resolve(pid: Pid, code: int)
      modifies this`settled
      ensures View() == Settle(old(View()), Resolved(pid, code))
    {
      settled := settled + [Resolved(pid, code)];
    }

    method ProcessSendResult(pid: Pid, r: Settlement)
      modifies this`sendTasks, this`settled
      ensures View() == SendResult(old(View()), pid, r)
    {
      if pid !in sendTasks { return; }
      sendTasks := sendTasks - {pid};
      settled := settled + [r];
    }

    /** The loop over the task set: whatever order the set is walked in, every waiting task is
        sent, once, and loses its timer. */
    method ProcessPendingSendTasks()
      requires status == PHONE_CONNECTED
      modifies this`sendTasks, this`armed, this`inFlight, this`sent
      ensures View() == FlushTasks(old(View()))
    {
      AllFlushed(View());
      WalkTasks(View());
    }

    method WalkTasks(ghost s: State)
      requires status == PHONE_CONNECTED
      requires s.tasks == sendTasks && s.armed == armed && s.inFlight == inFlight && s.sent == sent
      modifies this`sendTasks, this`armed, this`inFlight, this`sent
      ensures Progress(s, s.tasks.Keys, sendTasks, armed, inFlight, sent)
    {
      ghost var done := {};
      var todo := sendTasks.Keys;
      ProgressNone(s);
      while todo != {}
        invariant todo !! done && todo + done == s.tasks.Keys
        invariant Progress(s, done, sendTasks, armed, inFlight, sent)
        decreases todo
      {
        var p :| p in todo;
        HandOver(p, s, done);
        todo := todo - {p};
        done := done + {p};
      }
      assert done == s.tasks.Keys;
    }

    /** One task: if it still waits, it loses its timer and its message goes to the phone. */
    method HandOver(p: Pid, ghost s: State, ghost done: set<Pid>)
      requires status == PHONE_CONNECTED && p in s.tasks && p !in done
      requires Progress(s, done, sendTasks, armed, inFlight, sent)
      modifies this`sendTasks, this`armed, this`inFlight, this`sent
      ensures Progress(s, done + {p}, sendTasks, armed, inFlight, sent)
    {
      ProgressOne(s, done, p, sendTasks, armed, inFlight, sent);
      if sendTasks[p].timer {
        armed := armed - {p};
        sendTasks := sendTasks[p := sendTasks[p].(timer := false)];
        SendMsg(p, sendTasks[p].msg);
      }
    }

    method ProcessPendingDiagnosis(timedOut: bool)
      modifies this`settled, this`diagnosisPid, this`diagnosisArmed
      ensures View() == EndDiagnosis(old(View()), timedOut)
    {
      if diagnosisPid.None? { return; }
      settled := settled + [Resolved(diagnosisPid.value, DiagnosisCode(status, timedOut))];
      diagnosisPid, diagnosisArmed := None, false;
    }

    method InvokeConnect(isReconnected: bool)
      modifies this`calls, this`isPendingConnect
      ensures View() == InvokeOpen(old(View()), isReconnected)
    {
      if connFunc == 0 {
        isPendingConnect := true;
      } else {
        calls := calls + [Opened(connFunc, isReconnected)];
      }
    }

    method InvokeDisconnect(code: int)
      modifies this`calls
      ensures View() == InvokeClose(old(View()), code)
    {
      if disconnFunc != 0 { calls := calls + [Closed(disconnFunc, code)]; }
    }

    method RaiseError(code: int)
      modifies this`errors, this`errInfo, this`calls, this`freedErrors
      ensures View() == InvokeError(old(View()), code)
    {
      var err := ErrorInfo(errors, code);
      errors := errors + 1;
      if errorFunc == 0 {
        if errInfo.Some? { freedErrors := freedErrors + [errInfo.value.id]; }
        errInfo := Some(err);
      } else {
        calls := calls + [Errored(errorFunc, code)];
        freedErrors := freedErrors + [err.id];
      }
    }

    method OnConnected(first: bool)
      requires status == PHONE_CONNECTED
      modifies this`settled, this`diagnosisPid, this`diagnosisArmed, this`sendTasks, this`armed, this`inFlight,
               this`sent,
               this`calls, this`isPendingConnect
      ensures View() == InvokeOpen(FlushTasks(EndDiagnosis(old(View()), false)), first)
    {
      ProcessPendingDiagnosis(false);
      ghost var ended := View();
      ProcessPendingSendTasks();
      ghost var flushed := View();
      assert flushed == FlushTasks(ended);
      InvokeConnect(first);
    }

    method OnDisconnected(connecting: bool)
      modifies this`settled, this`diagnosisPid, this`diagnosisArmed, this`isPendingConnect,
               this`errors, this`errInfo, this`calls, this`freedErrors
      ensures var ended := EndDiagnosis(old(View()), false).(pendingOpen := false);
        View() == if connecting then InvokeError(ended, DISCONNECT) else InvokeClose(ended, UNKNOWN)
    {
      ProcessPendingDiagnosis(false);
      isPendingConnect := false;
      if connecting { RaiseError(DISCONNECT); } else { InvokeDisconnect(UNKNOWN); }
    }

    method SwitchStatus(st: nat)
      modifies this`status, this`settled, this`diagnosisPid, this`diagnosisArmed, this`sendTasks, this`armed,
               this`inFlight, this`sent, this`isPendingConnect, this`errors, this`errInfo, this`calls, this`freedErrors
      ensures View() == StatusStep(old(View()), st)
    {
      var was := status;
      status := st;
      ghost var set' := View();
      assert set' == old(View()).(status := st);
      if st == CONNECT_FAILED {
        RaiseError(UNKNOWN);
        ProcessPendingDiagnosis(false);
      } else if st == PHONE_CONNECTED {
        OnConnected(IsConnecting(was));
      } else if st == PHONE_DISCONNECTED {
        OnDisconnected(IsConnecting(was));
      } else if st == PHONE_UNINSTALLED {
        ProcessPendingDiagnosis(false);
        InvokeDisconnect(APP_UNINSTALL);
      }
    }

    method TakeConnFunc(h: Handler)
      modifies this`connFunc, this`calls, this`isPendingConnect
      ensures View() == SetOnOpenStep(old(View()), h)
    {
      connFunc := h;
      if isPendingConnect {
        InvokeConnect(true);
        isPendingConnect := false;
      }
    }

    method TakeErrorFunc(h: Handler)
      modifies this`errorFunc, this`calls, this`freedErrors, this`errInfo
      ensures View() == SetOnErrorStep(old(View()), h)
    {
      errorFunc := h;
      if errInfo.Some? {
        if h != 0 { calls := calls + [Errored(h, errInfo.value.code)]; }
        freedErrors := freedErrors + [errInfo.value.id];
        errInfo := None;
      }
    }

    /** Timers are closed and tasks deleted one by one; their promises stay open. */
    method DeleteTasks()
      requires Valid()
      modifies this`sendTasks, this`armed, this`dropped
      ensures View() == TasksDropped(old(View()))
    {
      TimersOfTasks(trace);
      CloseTimers();
    }

    method CloseTimers()
      requires armed <= sendTasks.Keys
      requires forall p :: p in sendTasks ==> (sendTasks[p].timer <==> p in armed)
      modifies this`sendTasks, this`armed, this`dropped
      ensures sendTasks == map[] && armed == {}
      ensures dropped == old(dropped) + old(sendTasks).Keys
    {
      ghost var was := sendTasks;
      while sendTasks.Keys != {}
        invariant sendTasks.Keys <= was.Keys && armed <= sendTasks.Keys
        invariant forall p :: p in sendTasks ==> (sendTasks[p].timer <==> p in armed)
        invariant dropped == old(dropped) + (was.Keys - sendTasks.Keys)
        decreases sendTasks.Keys
      {
        var p :| p in sendTasks.Keys;
        if sendTasks[p].timer { armed := armed - {p}; }
        dropped := dropped + {p};
        sendTasks := sendTasks - {p};
      }
    }

    method DropDiagnosis()
      modifies this`dropped, this`diagnosisPid, this`diagnosisArmed
      ensures View() == DiagnosisDropped(old(View()))
    {
      if diagnosisPid.Some? { dropped := dropped + {diagnosisPid.value}; }
      diagnosisPid, diagnosisArmed := None, false;
    }

    method FreeErrInfo()
      modifies this`freedErrors, this`errInfo
      ensures View() == ErrorFreed(old(View()))
    {
      if errInfo.Some? { freedErrors := freedErrors + [errInfo.value.id]; }
      errInfo := None;
    }

    method StartSend(pid: Pid, msg: Option<string>)
      modifies this`issued, this`settled, this`sendTasks, this`armed, this`inFlight, this`sent
      ensures View() == SendStep(old(View()), pid, msg)
    {
      issued := issued + {pid};
      if destroyed {
        Reject(pid, DISCONNECT);
      } else if status == PHONE_CONNECTED {
        if msg.None? { Reject(pid, INVALID_ARGS); } else { SendNow(pid, msg.value); }
      } else if IsConnecting(status) {
        if msg.None? { Reject(pid, INVALID_ARGS); } else { PendingSendTask(pid, msg.value); }
      } else {
        Reject(pid, DISCONNECT);
      }
    }

    method SendNow(pid: Pid, msg: string)
      requires status == PHONE_CONNECTED
      modifies this`sendTasks, this`inFlight, this`sent
      ensures View() == old(View()).(tasks := old(sendTasks)[pid := SendTask(msg, false)],
                                     inFlight := old(inFlight) + {pid},
                                     sent := old(sent) + multiset{Sent(pid, msg)})
    {
      sendTasks := sendTasks[pid := SendTask(msg, false)];
      SendMsg(pid, msg);
    }

    method PendingSendTask(pid: Pid, msg: string)
      modifies this`sendTasks, this`armed
      ensures View() == old(View()).(tasks := old(sendTasks)[pid := SendTask(msg, true)], armed := old(armed) + {pid})
    {
      sendTasks := sendTasks[pid := SendTask(msg, true)];
      armed := armed + {pid};
    }

    method StartDiagnosis(pid: Pid, timeout: int)
      modifies this`issued, this`settled, this`diagnosisPid, this`diagnosisArmed
      ensures View() == DiagnosisStep(old(View()), pid, timeout)
    {
      issued := issued + {pid};
      if destroyed {
        Reject(pid, DISCONNECT);
      } else if !IsConnecting(status) {
        Resolve(pid, DiagnosisCode(status, false));
      } else if timeout <= 0 || diagnosisPid.Some? {
        Reject(pid, UNKNOWN);
      } else {
        diagnosisPid, diagnosisArmed := Some(pid), true;
      }
    }

    // -------------------------------------------------------------- entry points and callbacks

    /** The caller's promise is owned in exactly one way from here on: by a task, sent at once when
        connected and waiting under a timer while connecting, or settled by a rejection. */
    method Send(pid: Pid, msg: Option<string>)
      requires Valid() && pid !in issued
      modifies this
      ensures Valid() && trace == old(trace) + [Event.Send(pid, msg)]
      ensures OwnedOnce(View(), pid)
      ensures pid in sendTasks <==> msg.Some? && Reachable(old(View()))
      ensures pid in sendTasks ==> sendTasks[pid].msg == msg.value && settled == old(settled)
      ensures pid in inFlight <==> pid in sendTasks && old(status) == PHONE_CONNECTED
      ensures pid in armed <==> pid in sendTasks && old(status) != PHONE_CONNECTED
      ensures pid in inFlight ==> msg.Some? && sent == old(sent) + multiset{Sent(pid, msg.value)}
      ensures pid !in inFlight ==> sent == old(sent)
      ensures pid !in sendTasks ==>
        settled == old(settled) + [Rejected(pid, if Reachable(old(View())) then 202 else 1006)]
    {
      SendOutcome(trace, pid, msg);
      StartSend(pid, msg);
      trace := trace + [Event.Send(pid, msg)];
    }

    /** A completed send settles its promise, unless the context is gone. */
    method OnSendDone(pid: Pid, ok: bool)
      requires Valid() && pid in inFlight
      modifies this
      ensures Valid() && trace == old(trace) + [Event.SendDone(pid, ok)]
      ensures pid !in sendTasks && pid !in armed && pid !in inFlight
      ensures settled == if destroyed then old(settled)
                         else old(settled) + [if ok then Resolved(pid, 0) else Rejected(pid, 1006)]
    {
      RunKeeps(trace);
      assert TasksConsistent(View());
      Extend(trace, Event.SendDone(pid, ok));
      inFlight := inFlight - {pid};
      if !destroyed { ProcessSendResult(pid, if ok then Resolved(pid, OK) else Rejected(pid, DISCONNECT)); }
      trace := trace + [Event.SendDone(pid, ok)];
    }

    /** A timer that fires always finds its task, before any connection was made, and rejects its
        promise. */
    method OnSendTimer(pid: Pid)
      requires Valid() && pid in armed
      modifies this
      ensures Valid() && trace == old(trace) + [Event.SendTimer(pid)]
      ensures settled == old(settled) + [Rejected(pid, 204)]
      ensures pid !in sendTasks && pid !in armed && pid !in inFlight && status != PHONE_CONNECTED
    {
      RunKeeps(trace);
      assert TasksConsistent(View());
      Extend(trace, Event.SendTimer(pid));
      armed := armed - {pid};
      ProcessSendResult(pid, Rejected(pid, TIMEOUT));
      trace := trace + [Event.SendTimer(pid)];
    }

    /** The caller's promise is owned in exactly one way, a diagnosis that is pending already is left
        alone, and a link that is not coming up is told about at once. */
    method Diagnosis(pid: Pid, timeout: int)
      requires Valid() && pid !in issued
      modifies this
      ensures Valid() && trace == old(trace) + [Event.Diagnosis(pid, timeout)]
      ensures OwnedOnce(View(), pid) && status == old(status) && destroyed == old(destroyed)
      ensures destroyed ==> settled == old(settled) + [Rejected(pid, 1006)]
      ensures !destroyed && status >= 2 ==> ToldLink(old(settled), settled, pid, status)
      ensures !destroyed && status < 2 ==>
        if timeout > 0 && old(diagnosisPid).None? then diagnosisPid == Some(pid) && settled == old(settled)
        else diagnosisPid == old(diagnosisPid) && settled == old(settled) + [Rejected(pid, 1000)]
      ensures destroyed || status >= 2 ==> diagnosisPid == old(diagnosisPid)
      ensures diagnosisPid.Some? <==> diagnosisArmed
    {
      DiagnosisOutcome(trace, pid, timeout);
      StartDiagnosis(pid, timeout);
      trace := trace + [Event.Diagnosis(pid, timeout)];
    }

    /** The diagnosis timer always finds a pending diagnosis and settles it. */
    method OnDiagnosisTimer()
      requires Valid() && diagnosisArmed
      modifies this
      ensures Valid() && trace == old(trace) + [DiagnosisTimer]
      ensures old(diagnosisPid).Some? && diagnosisPid.None? && !diagnosisArmed
      ensures settled == old(settled) + [Resolved(old(diagnosisPid).value, 204)]
    {
      DiagnosisInEveryRun(trace);
      Extend(trace, DiagnosisTimer);
      diagnosisArmed := false;
      ProcessPendingDiagnosis(true);
      trace := trace + [DiagnosisTimer];
    }

    method OnPipeError()
      requires Valid()
      modifies this
      ensures Valid() && trace == old(trace) + [PipeError]
      ensures diagnosisPid.None?
      ensures if old(diagnosisPid).Some? then ToldLink(old(settled), settled, old(diagnosisPid).value, status)
              else settled == old(settled)
    {
      DiagnosisInEveryRun(trace);
      CodeTellsLink(status);
      Extend(trace, PipeError);
      if !destroyed { ProcessPendingDiagnosis(false); }
      trace := trace + [PipeError];
    }

    /** A status message. The handlers are told what it means for them; a pending diagnosis is told about
        the link if the message ends the attempt; and once connected no timer is armed, every listed task
        is in flight, and the messages that waited have been handed over. */
    method OnStatus(st: nat)
      requires Valid()
      modifies this
      ensures Valid() && trace == old(trace) + [StatusMessage(st)] && destroyed == old(destroyed)
      ensures status == if destroyed then old(status) else st
      ensures calls == if destroyed then old(calls) else old(calls) + Announced(old(View()), st)
      ensures !destroyed && EndingStatus(st) && old(diagnosisPid).Some? ==>
        diagnosisPid.None? && ToldLink(old(settled), settled, old(diagnosisPid).value, st)
      ensures destroyed || !EndingStatus(st) || old(diagnosisPid).None? ==>
        diagnosisPid == old(diagnosisPid) && settled == old(settled)
      ensures st == PHONE_CONNECTED && !destroyed ==> armed == {} && sendTasks.Keys == inFlight == old(sendTasks).Keys
      ensures st == PHONE_CONNECTED && !destroyed ==> forall p :: p in sendTasks ==> Sent(p, sendTasks[p].msg) in sent
    {
      StatusOutcome(trace, st);
      StatusDiagnosis(trace, st);
      Extend(trace, StatusMessage(st));
      if !destroyed { SwitchStatus(st); }
      trace := trace + [StatusMessage(st)];
    }

    /** An open event reaches the new handler exactly when a connection was deferred in the past and
        nothing has cleared it since, and the handler is not zero. */
    method SetConnFunc(h: Handler)
      requires Valid()
      modifies this
      ensures Valid() && trace == old(trace) + [SetOnOpen(h)]
      ensures calls == if h != 0 && (exists i :: OpenDeferredAt(old(trace), i)) then old(calls) + [Opened(h, true)]
                       else old(calls)
      ensures !isPendingConnect && (!destroyed ==> connFunc == h)
    {
      OpenDelivery(trace, h);
      Extend(trace, SetOnOpen(h));
      if !destroyed { TakeConnFunc(h); }
      trace := trace + [SetOnOpen(h)];
    }

    /** A buffered error reaches the new handler exactly when it is the last one raised without a
        handler; whether it is delivered or not, it is freed. */
    method SetErrorFunc(h: Handler)
      requires Valid()
      modifies this
      ensures Valid() && trace == old(trace) + [SetOnError(h)]
      ensures forall code :: calls == old(calls) + [Errored(h, code)] <==> h != 0 && ErrorWaiting(old(trace), code)
      ensures errInfo.None? && forall k: nat :: k < errors ==> k in freedErrors
      ensures !destroyed ==> errorFunc == h
    {
      forall code { ErrorDelivery(trace, h, code); }
      ErrorTaken(trace, h);
      Extend(trace, SetOnError(h));
      if !destroyed { TakeErrorFunc(h); }
      trace := trace + [SetOnError(h)];
    }

    method SetDisconnFunc(h: Handler)
      requires Valid()
      modifies this
      ensures Valid() && trace == old(trace) + [SetOnClose(h)]
      ensures (!destroyed ==> disconnFunc == h) && connFunc == old(connFunc) && errorFunc == old(errorFunc)
    {
      Extend(trace, SetOnClose(h));
      if !destroyed { disconnFunc := h; }
      trace := trace + [SetOnClose(h)];
    }

    /** Shutdown settles nothing and leaves no timer, task or diagnosis behind; every error object ever
        made has been freed, once. */
    method Destroy()
      requires Valid() && !destroyed
      modifies this
      ensures Valid() && trace == old(trace) + [Shutdown]
      ensures sendTasks == map[] && armed == {} && diagnosisPid.None? && !diagnosisArmed && settled == old(settled)
      ensures NoDup(freedErrors) && forall k: nat :: k < errors <==> k in freedErrors
    {
      ShutdownOutcome(trace);
      DeleteAll();
      trace := trace + [Shutdown];
    }

    method DeleteAll()
      requires Valid()
      modifies this`sendTasks, this`armed, this`dropped, this`diagnosisPid, this`diagnosisArmed, this`freedErrors,
               this`errInfo, this`destroyed, this`isPendingConnect
      ensures View() == ShutdownStep(old(View()))
    {
      ShutdownParts(View());
      DeleteTasks();
      DropDiagnosis();
      FreeErrInfo();
      destroyed, isPendingConnect := true, false;
    }
  }

  // ---------------------------------------------------------------- what the caller gets

  lemma TimersOfTasks(trace: seq<Event>)
    requires Run(trace)
    ensures var s := After(trace);
      s.armed <= s.tasks.Keys && forall p :: p in s.tasks ==> (s.tasks[p].timer <==> p in s.armed)
  {
    RunKeeps(trace);
  }

  ghost function TasksDropped(s: State): State {
    s.(tasks := map[], armed := {}, dropped := s.dropped + s.tasks.Keys)
  }

  ghost function DiagnosisDropped(s: State): State {
    s.(diagnosis := None, diagnosisArmed := false, dropped := s.dropped + DiagnosisPids(s.diagnosis))
  }

  ghost function ErrorFreed(s: State): State {
    s.(errInfo := None,
       freedErrors := if s.errInfo.Some? then s.freedErrors + [s.errInfo.value.id] else s.freedErrors)
  }

  lemma ShutdownParts(s: State)
    ensures ShutdownStep(s) ==
            ErrorFreed(DiagnosisDropped(TasksDropped(s))).(destroyed := true, pendingOpen := false)
  {
  }

  /** A message can be sent or kept for later. */
  predicate Reachable(s: State) {
    !s.destroyed && (s.status == PHONE_CONNECTED || s.status < 2)
  }

  lemma SendOutcome(trace: seq<Event>, pid: Pid, msg: Option<string>)
    requires Run(trace) && pid !in After(trace).issued
    ensures var e, s, t := Event.Send(pid, msg), After(trace), SendStep(After(trace), pid, msg);
      && Run(trace + [e]) && After(trace + [e]) == t
      && OwnedOnce(t, pid)
      && (pid in t.tasks <==> msg.Some? && Reachable(s))
      && (pid in t.tasks ==> t.tasks[pid].msg == msg.value && t.settled == s.settled)
      && (pid in t.inFlight ==> msg.Some? && t.sent == s.sent + multiset{Sent(pid, msg.value)})
      && (pid !in t.inFlight ==> t.sent == s.sent)
      && (pid in t.inFlight <==> pid in t.tasks && s.status == PHONE_CONNECTED)
      && (pid in t.armed <==> pid in t.tasks && s.status != PHONE_CONNECTED)
      && (pid !in t.tasks ==>
            t.settled == s.settled + [Rejected(pid, if Reachable(s) then 202 else 1006)])
  {
    var e := Event.Send(pid, msg);
    Extend(trace, e);
    OwnedInEveryRun(trace + [e], pid);
    NewcomerHasNothing(trace, pid);
    SendPlaces(After(trace), pid, msg);
  }

  lemma NewcomerHasNothing(trace: seq<Event>, pid: Pid)
    requires Run(trace) && pid !in After(trace).issued
    ensures var s := After(trace); pid !in s.tasks && pid !in s.armed && pid !in s.inFlight
  {
    RunKeeps(trace);
  }

  lemma SendPlaces(s: State, pid: Pid, msg: Option<string>)
    requires pid !in s.tasks && pid !in s.armed && pid !in s.inFlight
    ensures var t := SendStep(s, pid, msg);
      && (pid in t.tasks <==> msg.Some? && Reachable(s))
      && (pid in t.tasks ==> t.tasks[pid].msg == msg.value && t.settled == s.settled)
      && (pid in t.inFlight ==> msg.Some? && t.sent == s.sent + multiset{Sent(pid, msg.value)})
      && (pid !in t.inFlight ==> t.sent == s.sent)
      && (pid in t.inFlight <==> pid in t.tasks && s.status == PHONE_CONNECTED)
      && (pid in t.armed <==> pid in t.tasks && s.status != PHONE_CONNECTED)
      && (pid !in t.tasks ==> t.settled == s.settled + [Rejected(pid, if Reachable(s) then 202 else 1006)])
  {
  }

  lemma DiagnosisOutcome(trace: seq<Event>, pid: Pid, timeout: int)
    requires Run(trace) && pid !in After(trace).issued
    ensures var e, s, t := Event.Diagnosis(pid, timeout), After(trace), DiagnosisStep(After(trace), pid, timeout);
      && Run(trace + [e]) && After(trace + [e]) == t
      && OwnedOnce(t, pid)
      && t.status == s.status && t.destroyed == s.destroyed
      && (s.destroyed ==> t.settled == s.settled + [Rejected(pid, 1006)])
      && (!s.destroyed && s.status >= 2 ==> ToldLink(s.settled, t.settled, pid, s.status))
      && (!s.destroyed && s.status < 2 ==>
            if timeout > 0 && s.diagnosis.None? then t.diagnosis == Some(pid) && t.settled == s.settled
            else t.diagnosis == s.diagnosis && t.settled == s.settled + [Rejected(pid, 1000)])
      && (s.destroyed || s.status >= 2 ==> t.diagnosis == s.diagnosis)
      && (t.diagnosis.Some? <==> t.diagnosisArmed)
  {
    var e := Event.Diagnosis(pid, timeout);
    Extend(trace, e);
    OwnedInEveryRun(trace + [e], pid);
    DiagnosisInEveryRun(trace + [e]);
    DiagnosisAtOnce(trace, pid, timeout);
  }

  lemma ShutdownOutcome(trace: seq<Event>)
    requires Run(trace) && !After(trace).destroyed
    ensures var t := ShutdownStep(After(trace));
      && Run(trace + [Shutdown]) && After(trace + [Shutdown]) == t
      && NoDup(t.freedErrors) && forall k: nat :: k < t.errors <==> k in t.freedErrors
  {
    Extend(trace, Shutdown);
    ErrorsFreedAtShutdown(trace + [Shutdown]);
  }

  /** At any moment of its life the object has settled no promise twice, owns every promise it was
      given in exactly one way, and has no timer armed while connected. */
  lemma ObjectPromises(c: InterconnectContext, p: Pid)
    requires c.Valid()
    ensures forall i, j :: 0 <= i < j < |c.settled| ==> c.settled[i].pid != c.settled[j].pid
    ensures p in c.issued <==> OwnedOnce(c.View(), p)
    ensures c.status == PHONE_CONNECTED ==> c.armed == {}
  {
    PromisesInEveryRun(c.trace);
    OwnedInEveryRun(c.trace, p);
  }

  lemma StatusOutcome(trace: seq<Event>, st: nat)
    requires Run(trace)
    ensures var s, t := After(trace), Step(After(trace), StatusMessage(st));
      && t.destroyed == s.destroyed && t.status == (if s.destroyed then s.status else st)
      && t.calls == (if s.destroyed then s.calls else s.calls + Announced(s, st))
      && (st == PHONE_CONNECTED && !s.destroyed ==>
            && t.armed == {} && t.tasks.Keys == t.inFlight == s.tasks.Keys
            && forall p :: p in t.tasks ==> Sent(p, t.tasks[p].msg) in t.sent)
  {
    var s := After(trace);
    if !s.destroyed {
      StatusCalls(s, st);
      StatusAlive(s, st);
      if st == PHONE_CONNECTED { ConnectedOutcome(trace); }
    }
  }

  lemma ConnectedOutcome(trace: seq<Event>)
    requires Run(trace) && !After(trace).destroyed
    ensures var s, t := After(trace), StatusStep(After(trace), PHONE_CONNECTED);
      && t.armed == {} && t.tasks.Keys == t.inFlight == s.tasks.Keys
      && forall p :: p in t.tasks ==> Sent(p, t.tasks[p].msg) in t.sent
  {
    var e := StatusMessage(PHONE_CONNECTED);
    Extend(trace, e);
    ConnectedTasks(After(trace));
    ConnectedRun(trace + [e]);
  }

  lemma ConnectedRun(es: seq<Event>)
    requires Run(es) && !After(es).destroyed && After(es).status == PHONE_CONNECTED
    ensures var t := After(es);
      t.armed == {} && t.tasks.Keys == t.inFlight && forall p :: p in t.tasks ==> Sent(p, t.tasks[p].msg) in t.sent
  {
    RunKeeps(es);
    SentInEveryRun(es);
  }

  lemma AliveParts(s: State, flag: bool, code: int)
    ensures EndDiagnosis(s, flag).destroyed == s.destroyed && InvokeOpen(s, flag).destroyed == s.destroyed
    ensures FlushTasks(s).destroyed == s.destroyed
    ensures InvokeError(s, code).destroyed == s.destroyed && InvokeClose(s, code).destroyed == s.destroyed
  {
  }

  lemma StatusAlive(s: State, st: nat)
    ensures StatusStep(s, st).destroyed == s.destroyed && StatusStep(s, st).status == st
  {
    StatusFocus(s, st);
    assert FocusOf(StatusStep(s, st)).status == st;
    var n := s.(status := st);
    AliveParts(n, false, UNKNOWN);
    var d := EndDiagnosis(n, false);
    if st == CONNECT_FAILED {
      AliveParts(InvokeError(n, UNKNOWN), false, 0);
    } else if st == PHONE_CONNECTED {
      AliveParts(d, false, 0);
      AliveParts(FlushTasks(d), IsConnecting(s.status), 0);
    } else if st == PHONE_DISCONNECTED {
      AliveParts(d.(pendingOpen := false), false, DISCONNECT);
      AliveParts(d.(pendingOpen := false), false, UNKNOWN);
    } else if st == PHONE_UNINSTALLED {
      AliveParts(d, false, APP_UNINSTALL);
    }
  }

  /** What a status message does to a pending diagnosis in any run. */
  lemma StatusDiagnosis(trace: seq<Event>, st: nat)
    requires Run(trace)
    ensures var s, t := After(trace), Step(After(trace), StatusMessage(st));
      && (!s.destroyed && EndingStatus(st) && s.diagnosis.Some? ==>
            t.diagnosis.None? && ToldLink(s.settled, t.settled, s.diagnosis.value, st))
      && (s.destroyed || !EndingStatus(st) || s.diagnosis.None? ==>
            t.diagnosis == s.diagnosis && t.settled == s.settled)
  {
    var s := After(trace);
    DiagnosisInEveryRun(trace);
    if !s.destroyed {
      StatusFocus(s, st);
      if s.diagnosis.Some? { DiagnosisStepOutcome(s, s.diagnosis.value, StatusMessage(st)); }
    }
  }

  lemma ConnectedTasks(s: State)
    ensures var t := StatusStep(s, PHONE_CONNECTED);
      t.tasks.Keys == s.tasks.Keys && t.status == PHONE_CONNECTED && t.destroyed == s.destroyed
  {
    var d := EndDiagnosis(s.(status := PHONE_CONNECTED), false);
    assert FlushTasks(d).tasks.Keys == d.tasks.Keys;
  }

  lemma ErrorTaken(trace: seq<Event>, h: Handler)
    requires Run(trace)
    ensures var t := After(trace + [SetOnError(h)]);
      t.errInfo.None? && forall k: nat :: k < t.errors ==> k in t.freedErrors
  {
    Extend(trace, SetOnError(h));
    ErrorDelivery(trace, h, 0);
    RunKeeps(trace + [SetOnError(h)]);
  }

  // ---------------------------------------------------------------- flushing in any order

  /** The tasks after the given ones have been handed over. */
  ghost function Flushed(tasks: map<Pid, SendTask>, done: set<Pid>): map<Pid, SendTask> {
    map p | p in tasks :: if p in done then tasks[p].(timer := false) else tasks[p]
  }

  ghost function Waiting(tasks: map<Pid, SendTask>, done: set<Pid>): set<Pid> {
    set p | p in tasks && p in done && tasks[p].timer
  }

  lemma FlushOne(tasks: map<Pid, SendTask>, done: set<Pid>, p: Pid)
    requires p in tasks && p !in done
    ensures Flushed(tasks, done)[p] == tasks[p]
    ensures Flushed(tasks, done + {p}) ==
      if tasks[p].timer then Flushed(tasks, done)[p := tasks[p].(timer := false)] else Flushed(tasks, done)
    ensures Waiting(tasks, done + {p}) == Waiting(tasks, done) + if tasks[p].timer then {p} else {}
  {
  }

  lemma OutgoingOne(tasks: map<Pid, SendTask>, done: set<Pid>, p: Pid)
    requires p in tasks && p !in done
    ensures Outgoing(tasks, Waiting(tasks, done + {p})) == Outgoing(tasks, Waiting(tasks, done)) +
      if tasks[p].timer then multiset{Sent(p, tasks[p].msg)} else multiset{}
  {
    var before := set q | q in Waiting(tasks, done) && q in tasks :: Sent(q, tasks[q].msg);
    var after := set q | q in Waiting(tasks, done + {p}) && q in tasks :: Sent(q, tasks[q].msg);
    if tasks[p].timer {
      assert after == before + {Sent(p, tasks[p].msg)} && Sent(p, tasks[p].msg) !in before;
    } else {
      assert after == before;
    }
  }

  /** The given tasks have been handed over, the others still wait. */
  ghost predicate Progress(s: State, done: set<Pid>, tasks: map<Pid, SendTask>, armed: set<Pid>, inFlight: set<Pid>,
                           sent: multiset<Sent>)
  {
    && tasks == Flushed(s.tasks, done)
    && armed == s.armed - Waiting(s.tasks, done)
    && inFlight == s.inFlight + Waiting(s.tasks, done)
    && sent == s.sent + Outgoing(s.tasks, Waiting(s.tasks, done))
  }

  lemma ProgressNone(s: State)
    ensures Progress(s, {}, s.tasks, s.armed, s.inFlight, s.sent)
  {
    assert Flushed(s.tasks, {}) == s.tasks && Waiting(s.tasks, {}) == {};
    assert Outgoing(s.tasks, {}) == multiset{};
  }

  lemma ProgressOne(s: State, done: set<Pid>, p: Pid, tasks: map<Pid, SendTask>, armed: set<Pid>, inFlight: set<Pid>,
                    sent: multiset<Sent>)
    requires p in s.tasks && p !in done && Progress(s, done, tasks, armed, inFlight, sent)
    ensures p in tasks && tasks[p] == s.tasks[p]
    ensures if tasks[p].timer
            then Progress(s, done + {p}, tasks[p := tasks[p].(timer := false)], armed - {p}, inFlight + {p},
                          sent + multiset{Sent(p, tasks[p].msg)})
            else Progress(s, done + {p}, tasks, armed, inFlight, sent)
  {
    FlushOne(s.tasks, done, p);
    OutgoingOne(s.tasks, done, p);
  }

  lemma FlushedAll(tasks: map<Pid, SendTask>)
    ensures (map p | p in tasks :: tasks[p].(timer := false)) == Flushed(tasks, tasks.Keys)
    ensures (set p | p in tasks && tasks[p].timer) == Waiting(tasks, tasks.Keys)
  {
  }

  lemma AllFlushed(s: State)
    ensures FlushTasks(s) == s.(tasks := Flushed(s.tasks, s.tasks.Keys),
                                armed := s.armed - Waiting(s.tasks, s.tasks.Keys),
                                inFlight := s.inFlight + Waiting(s.tasks, s.tasks.Keys),
                                sent := s.sent + Outgoing(s.tasks, Waiting(s.tasks, s.tasks.Keys)))
  {
    FlushedAll(s.tasks);
  }
}
