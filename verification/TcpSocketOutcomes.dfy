/** What becomes of what the two threads of a socket are told, over every interleaving: every event taken up
    has had its callbacks, the first and the last event tell how the connection came about and why it ended,
    and no send, receive, activation or closing that is asked for gets lost. */
module TcpSocketOutcomes {
  import opened Options
  import opened TcpSocket
  import opened TcpSocketSafety
  import opened TcpSocketTale

  lemma {:induction false} RunTells(states: seq<Socket>, steps: seq<Step>, i: nat)
    requires IsRun(states, steps) && i < |states|
    ensures TaleOk(states[i], Tale(states, steps, i))
  {
    hide Inv, TaleOk, Apply, Record;
    if i == 0 {
      NewTells(states[0]);
    } else {
      RunTells(states, steps, i - 1);
      RunKeeps(states, steps, i - 1);
      StepTells(states[i - 1], Tale(states, steps, i - 1), steps[i - 1]);
    }
  }

  /** The callbacks at any moment: those owed for the events taken up, one recv for every packet completed
      and nothing else; only after an error is the terminate callback still to come. */
  predicate CallbacksSay(s: Socket, t: Told) {
    && |s.evts| <= |s.pushed| && s.evts == s.pushed[|s.pushed| - |s.evts|..]
    && (if s.stage.InError? then s.log + [OnTerminate] else s.log)
       == Owed(s.pushed[..|s.pushed| - |s.evts|], t.packets)
  }

  lemma CallbacksTell(s: Socket, t: Told)
    requires Inv(s) && TaleOk(s, t)
    ensures CallbacksSay(s, t)
  {
    hide EventOrder, OneEnding, IoOk, EndingsOk, ReqsOk, AcksOk, HandleOk, CallOk, CloseOk, LogOk, FirstTold,
      ReasonTold, CauseTold, ActivationTold, PolledTold, UserTold, ClosingTold, DataTold, AsksTold, DutyTold,
      ShutTold, DueTold, Owed;
  }

  lemma CallbacksOwed(states: seq<Socket>, steps: seq<Step>, i: nat)
    requires IsRun(states, steps) && i < |states|
    ensures CallbacksSay(states[i], Tale(states, steps, i))
  {
    RunTells(states, steps, i);
    RunKeeps(states, steps, i);
    hide Inv, TaleOk, CallbacksSay, IsRun, Apply, Record;
    CallbacksTell(states[i], Tale(states, steps, i));
  }

  predicate EventsSay(s: Socket, t: Told) {
    && (s.pushed != [] ==> t.first == Some(s.pushed[0]))
    && (Over(s.pushed) && |s.pushed| > 1 ==>
          && t.cause.Some?
          && s.pushed[|s.pushed| - 1] ==
             if t.cause.value == ErrOk then EvtTerminate
             else if t.cause.value == ErrSystem then EvtSystemError
             else EvtModuleError(t.cause.value))
    && DataEvents(s.pushed) + Bit(s.task.EmitData?) == t.data
  }

  lemma EventsTell(s: Socket, t: Told)
    requires Inv(s) && TaleOk(s, t)
    ensures EventsSay(s, t)
  {
    hide EventOrder, OneEnding, EndingsOk, ReqsOk, AcksOk, StageOk, HandleOk, CallOk, CloseOk, LogOk, LogTold,
      ReasonTold, ActivationTold, PolledTold, UserTold, ClosingTold, AsksTold, DutyTold, ShutTold, DueTold;
  }

  /** What the events say: the first is how the connection came about, the last why it ended, and every
      receive loop that brought data to an established connection is announced once. */
  lemma FirstAndLast(states: seq<Socket>, steps: seq<Step>, i: nat)
    requires IsRun(states, steps) && i < |states|
    ensures EventsSay(states[i], Tale(states, steps, i))
  {
    RunTells(states, steps, i);
    RunKeeps(states, steps, i);
    hide Inv, TaleOk, EventsSay, IsRun, Apply, Record;
    EventsTell(states[i], Tale(states, steps, i));
  }

  /** What the user has heard in the end.  A connection that was made: that it was, every packet, and that
      it is over, with the error first unless it was closed in order.  A connection that could not be made:
      the one error.  A socket whose accept failed: nothing. */
  predicate Heard(log: seq<Callback>, first: Evt, cause: Option<Error>, packets: nat) {
    match first
    case EvtEstablish =>
      && cause.Some?
      && log == [OnEstablish] + Recvs(packets) +
                if cause.value == ErrOk then [OnTerminate] else [OnError, OnTerminate]
    case EvtConnectFail => log == [OnConnectError]
    case EvtAcceptFail => log == []
    case _ => false
  }

  lemma AllHeard(s: Socket, t: Told)
    requires EventOrder(s.pushed) && Over(s.pushed) && EventsSay(s, t)
    requires s.log == Owed(s.pushed, t.packets)
    ensures t.first.Some? && Heard(s.log, t.first.value, t.cause, t.packets)
  {
    hide Recvs, DataEvents;
  }

  lemma HeardInTheEnd(states: seq<Socket>, steps: seq<Step>, i: nat)
    requires IsRun(states, steps) && i < |states| && states[i].freed
    ensures var t := Tale(states, steps, i); t.first.Some? && Heard(states[i].log, t.first.value, t.cause, t.packets)
  {
    hide EventOrder, EventsSay, IsRun, Apply, Record, Owed, Heard, Inv;
    CallbacksOwed(states, steps, i);
    FirstAndLast(states, steps, i);
    EventsInOrder(states, steps, i);
    FreedMeansUnreferenced(states, steps, i);
    assert states[i].pushed[..|states[i].pushed|] == states[i].pushed;
    AllHeard(states[i], Tale(states, steps, i));
  }

  /** What the io thread has dealt with when it is done with a request or an epoll event: a send that was
      due has been made unless the socket is closed, a receive has been made unless the connection is over
      or the ring waits for room, data has been looked at, a connection that failed or ended is closed, and
      a full ring has been reported. */
  predicate Served(s: Socket, duty: Duty) {
    && (duty.send ==> s.life.Deleted?)
    && (duty.recv ==> !s.life.Established? || s.needRecvActive)
    && !duty.data
    && (duty.shut ==> s.life.Terminated? || s.life.Deleted?)
    && (duty.full ==> s.needRecvActive)
  }

  lemma DutyDone(s: Socket, t: Told)
    requires TaleOk(s, t) && s.task.Rest?
    ensures Served(s, t.duty)
  {
    hide LogTold, FirstTold, ReasonTold, CauseTold, ActivationTold, PolledTold, UserTold, ClosingTold, DataTold,
      AsksTold, DueTold;
  }

  lemma HandlersServe(states: seq<Socket>, steps: seq<Step>, i: nat)
    requires IsRun(states, steps) && i < |states| && states[i].task.Rest?
    ensures Served(states[i], Tale(states, steps, i).duty)
  {
    RunTells(states, steps, i);
    hide TaleOk, Served, IsRun, Apply, Record;
    DutyDone(states[i], Tale(states, steps, i));
  }

  /** What the main thread has dealt with between two calls: a connection it wanted closed is closed, the
      send ring has been looked at when that was due, as many sends have been asked for as it held data for
      while none was outstanding, never two at once, and the close timer has seen whether everything is
      acknowledged. */
  predicate Called(s: Socket, t: Told) {
    && !t.look && !t.finish
    && (t.reason.Some? ==> s.life.Terminated? || s.life.Deleted?)
    && s.sendReq == t.asks + Bit(!s.needReqClose)
    && s.sendReq - s.sendAck <= 1 + Bit(!s.needReqClose)
  }

  lemma CallDone(s: Socket, t: Told)
    requires TaleOk(s, t) && s.call.NoCall?
    ensures Called(s, t)
  {
    hide LogTold, FirstTold, CauseTold, ActivationTold, PolledTold, UserTold, ClosingTold, DataTold, DutyTold, ShutTold;
  }

  lemma CallsServe(states: seq<Socket>, steps: seq<Step>, i: nat)
    requires IsRun(states, steps) && i < |states| && states[i].call.NoCall?
    ensures Called(states[i], Tale(states, steps, i))
  {
    RunTells(states, steps, i);
    hide TaleOk, Called, IsRun, Apply, Record;
    CallDone(states[i], Tale(states, steps, i));
  }

  /** What keeps an open connection going: it stays with epoll, a full receive ring is on its way to be
      looked at again, and from the establishment on the user has the socket and the send timer runs, until
      the close timer takes over; and that waits for unsent data at most four times. */
  predicate Alive(s: Socket, t: Told) {
    && (s.life.Established? || s.life.Terminated? ==> s.polled)
    && (s.life.Connecting? ==> s.polled || s.reqs == [ReqConnect])
    && (s.needRecvActive && s.life.Established? ==>
          || s.task == Emit(EvtRecvActivate) || EvtRecvActivate in s.evts
          || s.call == Push(ReqRecvActivate) || ReqRecvActivate in s.reqs || s.call.Shutting?)
    && |s.evts| <= |s.pushed|
    && (Begun(s.pushed[..|s.pushed| - |s.evts|]) ==>
          s.timerClose || s.freed || (s.timerSend && (s.handle || s.stage.FinishLast?)))
    && (t.timer ==> s.timerSend || s.timerClose || s.freed)
    && t.closings <= MAX_TRY_CLOSE_SEND + 1
  }

  lemma PolledWhileOpen(s: Socket, t: Told)
    requires Inv(s) && TaleOk(s, t)
    ensures s.life.Established? || s.life.Terminated? ==> s.polled
  {
    hide EventOrder, OneEnding, EndingsOk, ReqsOk, AcksOk, StageOk, HandleOk, CallOk, LogOk, LogTold, ReasonTold,
      CauseTold, ActivationTold, UserTold, ClosingTold, DataTold, AsksTold, DutyTold, ShutTold, DueTold;
  }

  lemma StaysAlive(s: Socket, t: Told)
    requires Inv(s) && TaleOk(s, t)
    ensures Alive(s, t)
  {
    PolledWhileOpen(s, t);
    hide Inv, LogTold, FirstTold, ReasonTold, CauseTold, DataTold, AsksTold, DutyTold, ShutTold;
  }

  lemma OpenIsAlive(states: seq<Socket>, steps: seq<Step>, i: nat)
    requires IsRun(states, steps) && i < |states|
    ensures Alive(states[i], Tale(states, steps, i))
  {
    RunTells(states, steps, i);
    RunKeeps(states, steps, i);
    hide Inv, TaleOk, Alive, IsRun, Apply, Record;
    StaysAlive(states[i], Tale(states, steps, i));
  }
}
