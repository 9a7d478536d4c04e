/** The tale of a socket: what the steps of a run have told its two threads so far (how the connection came
    about, why it ended, what is due), recorded from the steps alone, and how far the socket has followed it.
    Every step keeps the two together. */
module TcpSocketTale {
  import opened Options
  import opened TcpSocket
  import opened TcpSocketSafety

  /** What the handler the io thread is in still has to do, and what it has been told. */
  datatype Duty = Duty(
    send: bool,              // a send is due
    recv: bool,              // a receive is due
    data: bool,              // data came in that has not been looked at
    shut: bool,              // the connection has failed or ended
    eof: bool,               // the peer has ended it
    full: bool)              // the receive ring ran full

  /** What has happened to a socket, as the steps of a run tell it. */
  datatype Told = Told(
    first: Option<Evt>,      // how its connection came about
    reason: Option<Error>,   // why the main thread last wanted it closed
    cause: Option<Error>,    // why it was closed
    data: nat,               // receive loops that brought data on an established connection
    packets: nat,            // packets completed while a data event was handled
    asks: nat,               // sends that were due while none was outstanding
    closings: nat,           // times the close timer found the connection over and not yet closed
    look: bool,              // the send ring has still to be looked at
    finish: bool,            // the close timer has still to see whether everything is acknowledged
    timer: bool,             // the user has set the send timer
    duty: Duty)

  const NOTHING_YET :=
    Told(None, None, None, 0, 0, 0, 0, false, false, false, Duty(false, false, false, false, false, false))

  function First(first: Option<Evt>, s: Socket, e: Step): Option<Evt> {
    match e
    case IoTake(ok) =>
      if s.reqs == [] then first
      else if s.reqs[0].ReqAccept? then Some(if ok then EvtEstablish else EvtAcceptFail)
      else if s.reqs[0].ReqConnect? && !ok then Some(EvtConnectFail)
      else first
    case IoWork(flag, _) =>
      if s.task.ConnectDone? then Some(if flag then EvtEstablish else EvtConnectFail)
      else if s.task.ConnectBroken? then Some(EvtConnectFail)
      else first
    case _ => first
  }

  function Reason(reason: Option<Error>, s: Socket, e: Step): Option<Error> {
    match e
    case UserClose => Some(ErrOk)
    case CallWork(flag) =>
      if s.call.SendPush? && !flag then Some(ErrSendOverflow)
      else if s.call.Shutting? && Early(s.life) then None
      else reason
    case MainNext(_, bad) => if s.stage.InData? && bad then Some(ErrPacket) else reason
    case MainTake(flag) =>
      if s.evts != [] && s.evts[0].EvtRecvActivate? && s.life.Established? && !flag then Some(ErrRecvOverflow)
      else reason
    case _ => reason
  }

  function Cause(told: Told, s: Socket, e: Step): Option<Error> {
    if !s.life.Established? then told.cause
    else if e.IoWork? && s.task.Shut? then Some(if told.duty.eof then ErrOk else ErrSystem)
    else if e.CallWork? && s.call.Shutting? then told.reason
    else told.cause
  }

  function NextDuty(duty: Duty, s: Socket, e: Step): Duty {
    match e
    case IoTake(_) =>
      Duty(s.reqs != [] && s.reqs[0].ReqSend?, s.reqs != [] && s.reqs[0].ReqRecvActivate?, false, false, false, false)
    case IoPoll(out, inp, err) => Duty(out && !s.life.Connecting?, inp, false, err, false, false)
    case IoWork(flag, end) =>
      if s.task.Sending? then duty.(send := false, shut := duty.shut || flag)
      else if s.task.Receiving? then
        duty.(recv := false, data := flag, shut := duty.shut || end.Broken? || end.Eof?,
              eof := duty.eof || end.Eof?, full := duty.full || end.Full?)
      else if s.task.CheckData? then duty.(data := false)
      else duty
    case _ => duty
  }

  /** Whether a look at the send ring is due: after the user's data has been taken, when the send timer
      fires, and when the close timer finds data in it. */
  function Look(look: bool, s: Socket, e: Step): bool {
    match e
    case UserSend => s.life.Established? || look
    case TimerSend => s.life.Established? || look
    case CallWork(flag) =>
      if s.call.CloseTry? then s.tries < MAX_TRY_CLOSE_SEND && flag
      else look && !s.call.SendTest? && (!s.call.SendPush? || flag)
    case _ => look
  }

  function Record(told: Told, s: Socket, e: Step): Told {
    Told(First(told.first, s, e),
         Reason(told.reason, s, e),
         Cause(told, s, e),
         told.data + Bit(e.IoWork? && s.task.CheckData? && s.life.Established?),
         told.packets + Bit(e == MainNext(true, false) && s.stage.InData?),
         told.asks + Bit(e == CallWork(true) && s.call.SendTest? && s.sendReq == s.sendAck),
         told.closings + Bit(e.TimerClose? && s.life.Terminated?),
         Look(told.look, s, e),
         (told.finish || (e.TimerClose? && s.life.Deleted?)) && !(e.CallWork? && s.call.CheckAck?),
         told.timer || e.UserControl?,
         NextDuty(told.duty, s, e))
  }

  function Tale(states: seq<Socket>, steps: seq<Step>, i: nat): Told
    requires IsRun(states, steps) && i < |states|
  {
    if i == 0 then NOTHING_YET else Record(Tale(states, steps, i - 1), states[i - 1], steps[i - 1])
  }

  // --- the callbacks

  function Recvs(n: nat): seq<Callback> {
    if n == 0 then [] else Recvs(n - 1) + [OnRecv]
  }

  /** The callbacks that say the connection is over. */
  function Goodbye(e: Evt): seq<Callback> {
    match e
    case EvtTerminate => [OnTerminate]
    case EvtModuleError(_) => [OnError, OnTerminate]
    case EvtSystemError => [OnError, OnTerminate]
    case _ => []
  }

  /** What the user has to hear of the events taken up, when so many packets have been completed. */
  function Owed(taken: seq<Evt>, packets: nat): seq<Callback> {
    if taken == [] || taken[0].EvtAcceptFail? then []
    else if taken[0].EvtConnectFail? then [OnConnectError]
    else [OnEstablish] + Recvs(packets) + Goodbye(taken[|taken| - 1])
  }

  function Taken(evts: seq<Evt>, pushed: seq<Evt>): seq<Evt>
    requires |evts| <= |pushed|
  {
    pushed[..|pushed| - |evts|]
  }

  predicate LogTold(log: seq<Callback>, evts: seq<Evt>, pushed: seq<Evt>, stage: Stage, packets: nat) {
    && |evts| <= |pushed|
    && (if stage.InError? then log + [OnTerminate] else log) == Owed(Taken(evts, pushed), packets)
    && (packets > 0 ==> Begun(Taken(evts, pushed)))
  }

  lemma LogQueues(log: seq<Callback>, evts: seq<Evt>, pushed: seq<Evt>, stage: Stage, packets: nat, e: Evt)
    requires LogTold(log, evts, pushed, stage, packets)
    ensures LogTold(log, evts + [e], pushed + [e], stage, packets)
  {
    assert Taken(evts + [e], pushed + [e]) == Taken(evts, pushed);
  }

  /** The next event in its place among the events queued. */
  lemma NextTaken(evts: seq<Evt>, pushed: seq<Evt>)
    requires EventOrder(pushed) && |evts| <= |pushed| && evts == pushed[|pushed| - |evts|..] && evts != []
    ensures Taken(evts[1..], pushed) == Taken(evts, pushed) + [evts[0]]
    ensures Taken(evts, pushed) == [] <==> !Later(evts[0])
    ensures Taken(evts, pushed) != [] ==> Begun(Taken(evts, pushed)) && !Over(Taken(evts, pushed))
  {
  }

  /** What taking up one more event makes due. */
  lemma OwedNext(taken: seq<Evt>, e: Evt, packets: nat)
    requires taken == [] <==> !Later(e)
    requires taken != [] ==> Begun(taken) && !Over(taken)
    requires taken == [] ==> packets == 0
    ensures Owed(taken + [e], packets) == Owed(taken, packets) +
      match e
      case EvtEstablish => [OnEstablish]
      case EvtConnectFail => [OnConnectError]
      case _ => Goodbye(e)
  {
    var next := taken + [e];
    assert next[0] == (if taken == [] then e else taken[0]) && next[|next| - 1] == e;
    assert Recvs(0) == [];
  }

  /** What one more packet makes due. */
  lemma OwedPacket(taken: seq<Evt>, packets: nat)
    requires Begun(taken) && !Over(taken)
    ensures Owed(taken, packets + 1) == Owed(taken, packets) + [OnRecv]
  {
    assert Goodbye(taken[|taken| - 1]) == [];
    assert [OnEstablish] + (Recvs(packets) + [OnRecv]) + [] == ([OnEstablish] + Recvs(packets) + []) + [OnRecv];
  }

  /** Handling an event makes the callbacks it owes, the last of them after an error. */
  lemma LogTakes(log: seq<Callback>, evts: seq<Evt>, pushed: seq<Evt>, packets: nat, next: seq<Callback>, stage: Stage)
    requires LogTold(log, evts, pushed, Between, packets) && evts != []
    requires EventOrder(pushed) && evts == pushed[|pushed| - |evts|..]
    requires next == match evts[0]
      case EvtEstablish => [OnEstablish]
      case EvtConnectFail => [OnConnectError]
      case EvtModuleError(_) => [OnError]
      case EvtSystemError => [OnError]
      case EvtTerminate => [OnTerminate]
      case _ => []
    requires stage.InError? <==> evts[0].EvtModuleError? || evts[0].EvtSystemError?
    ensures LogTold(log + next, evts[1..], pushed, stage, packets)
  {
    hide EventOrder, Taken, Owed;
    NextTaken(evts, pushed);
    var taken := Taken(evts, pushed);
    OwedNext(taken, evts[0], packets);
    assert packets > 0 ==> (taken + [evts[0]])[0] == taken[0];
    if stage.InError? { assert log + next + [OnTerminate] == log + [OnError, OnTerminate]; }
  }

  /** After an error the terminate callback is still to come; nothing else depends on the stage. */
  lemma LogGoesOn(log: seq<Callback>, evts: seq<Evt>, pushed: seq<Evt>, packets: nat, stage: Stage, next: Stage)
    requires LogTold(log, evts, pushed, stage, packets) && !next.InError?
    ensures LogTold(if stage.InError? then log + [OnTerminate] else log, evts, pushed, next, packets)
  {
    hide Owed, Taken, Begun;
  }

  lemma LogPacket(log: seq<Callback>, evts: seq<Evt>, pushed: seq<Evt>, packets: nat, stage: Stage)
    requires LogTold(log, evts, pushed, stage, packets) && stage.InData?
    requires Begun(Taken(evts, pushed)) && !Over(Taken(evts, pushed))
    ensures LogTold(log + [OnRecv], evts, pushed, stage, packets + 1)
  {
    hide Owed, Taken, Begun, Over;
    OwedPacket(Taken(evts, pushed), packets);
  }

  /** While data is handled, the last event is still to come. */
  lemma DataTaken(s: Socket)
    requires |s.evts| <= |s.pushed| && s.stage.InData?
    requires EventOrder(s.pushed) && StageOk(s.evts, s.pushed, s.timerSend, s.timerClose, s.freed, s.handle, s.stage)
    ensures Begun(Taken(s.evts, s.pushed)) && !Over(Taken(s.evts, s.pushed))
  {
  }

  // --- what the other steps tell

  /** The last event of a connection that was closed for a reason. */
  function LastWord(error: Error): Evt {
    if error == ErrOk then EvtTerminate else if error == ErrSystem then EvtSystemError else EvtModuleError(error)
  }

  predicate FirstTold(life: Life, task: Task, pushed: seq<Evt>, first: Option<Evt>) {
    && (Early(life) <==> first.None?)
    && (first.Some? ==> if pushed == [] then task == Emit(first.value) else pushed[0] == first.value)
  }

  predicate ReasonTold(call: Call, life: Life, reason: Option<Error>) {
    && (call.Shutting? ==> reason == Some(call.error))
    && (reason.Some? ==> call.Shutting? || life.Terminated? || life.Deleted?)
  }

  ghost predicate CauseTold(life: Life, task: Task, reqs: seq<Req>, call: Call, pushed: seq<Evt>,
                            cause: Option<Error>) {
    && (Early(life) || life.Established? ==> cause.None?)
    && (life.Terminated? ==> cause.Some?)
    && (task.ToDelete? ==> cause == Some(ErrSystem))
    && (task.Emit? && Later(task.evt) && Terminal(task.evt) ==> cause.Some? && task.evt == LastWord(cause.value))
    && (forall i :: 0 <= i < |reqs| && reqs[i].ReqTerminate? ==> cause == Some(reqs[i].error))
    && (call.Push? && call.req.ReqTerminate? ==> cause == Some(call.req.error))
    && (Over(pushed) && |pushed| > 1 ==> cause.Some? && pushed[|pushed| - 1] == LastWord(cause.value))
  }

  /** A full receive ring is on its way to be looked at again. */
  predicate ActivationTold(life: Life, needRecvActive: bool, task: Task, evts: seq<Evt>, call: Call, reqs: seq<Req>) {
    && (Early(life) ==> !needRecvActive)
    && (needRecvActive && life.Established? ==>
          || task == Emit(EvtRecvActivate) || EvtRecvActivate in evts
          || call == Push(ReqRecvActivate) || ReqRecvActivate in reqs || call.Shutting?)
  }

  predicate PolledTold(life: Life, task: Task, polled: bool, reqs: seq<Req>, needReqClose: bool, first: Option<Evt>) {
    && (first == Some(EvtEstablish) && needReqClose ==> polled)
    && (life.Connecting? ==> polled || (task.Rest? && reqs == [ReqConnect]))
  }

  predicate UserTold(evts: seq<Evt>, pushed: seq<Evt>, timerSend: bool, timerClose: bool, freed: bool, handle: bool,
                     stage: Stage) {
    && |evts| <= |pushed|
    && (Begun(Taken(evts, pushed)) ==>
          timerClose || freed || (timerSend && (handle || stage.FinishLast?)))
  }

  predicate ClosingTold(tries: nat, call: Call, life: Life, closings: nat) {
    tries <= MAX_TRY_CLOSE_SEND && closings <= tries + Bit(call.CloseTry? || call.Demote? || life.Deleted?)
  }

  function DataEvents(events: seq<Evt>): nat {
    if events == [] then 0
    else DataEvents(events[..|events| - 1]) + Bit(events[|events| - 1].EvtData?)
  }

  predicate DataTold(task: Task, pushed: seq<Evt>, data: nat) {
    DataEvents(pushed) + Bit(task.EmitData?) == data
  }

  predicate AsksTold(sendReq: nat, sendAck: nat, call: Call, needReqClose: bool, asks: nat) {
    && sendReq + Bit(call == Push(ReqSend) || call == Push(ReqClose)) == asks + Bit(!needReqClose)
    && sendReq - sendAck + Bit(call == Push(ReqSend) || call == Push(ReqClose)) <= 1 + Bit(!needReqClose)
  }

  predicate Looking(task: Task) {
    task.CheckData? || task.EmitData?
  }

  predicate DutyTold(life: Life, task: Task, after: After, needRecvActive: bool, duty: Duty) {
    && (task.Sending? || task.Receiving? || Looking(task) || task.Shut? ==> !Early(life))
    && (task.PollOut? || task.ConnectDone? ==> after.ThenIn?)
    && (task.Rest? ==> after.NextReq?)
    && (duty.send ==> !Early(life) && (task.PollOut? || task.CheckSend? || task.Sending? || life.Deleted?))
    && (duty.recv ==>
          if after.ThenIn? then after.inp
          else task.CheckRecv? || task.Receiving? || needRecvActive || !life.Established?)
    && (duty.data ==> task.CheckData?)
    && (duty.full ==> needRecvActive || (Looking(task) && task.end.Full?))
  }

  predicate ShutTold(life: Life, task: Task, after: After, duty: Duty) {
    && (duty.shut ==>
          || life.Terminated? || life.Deleted?
          || (after.ThenIn? && after.err) || (after.ThenErr? && after.err)
          || task.Shut? || task.PollErr? || task.ConnectBroken?
          || (Looking(task) && (task.end.Broken? || task.end.Eof?)))
    && (task.Shut? && life.Established? ==> task.error == if duty.eof then ErrOk else ErrSystem)
    && (Looking(task) && life.Established? ==> (task.end.Eof? <==> duty.eof))
    && (duty.eof ==> !Early(life) && (life.Established? ==> Looking(task) || task.Shut?))
  }

  predicate DueTold(call: Call, timerSend: bool, timerClose: bool, freed: bool, look: bool, finish: bool, timer: bool) {
    && (look ==> call.SendPush? || call.SendTest?)
    && (finish ==> call.CloseDelete? || call == Push(ReqClose) || call.CheckAck?)
    && (timer ==> timerSend || timerClose || freed)
  }

  ghost predicate TaleOk(s: Socket, t: Told) {
    && LogTold(s.log, s.evts, s.pushed, s.stage, t.packets)
    && FirstTold(s.life, s.task, s.pushed, t.first)
    && ReasonTold(s.call, s.life, t.reason)
    && CauseTold(s.life, s.task, s.reqs, s.call, s.pushed, t.cause)
    && ActivationTold(s.life, s.needRecvActive, s.task, s.evts, s.call, s.reqs)
    && PolledTold(s.life, s.task, s.polled, s.reqs, s.needReqClose, t.first)
    && UserTold(s.evts, s.pushed, s.timerSend, s.timerClose, s.freed, s.handle, s.stage)
    && ClosingTold(s.tries, s.call, s.life, t.closings)
    && DataTold(s.task, s.pushed, t.data)
    && AsksTold(s.sendReq, s.sendAck, s.call, s.needReqClose, t.asks)
    && DutyTold(s.life, s.task, s.after, s.needRecvActive, t.duty)
    && ShutTold(s.life, s.task, s.after, t.duty)
    && DueTold(s.call, s.timerSend, s.timerClose, s.freed, t.look, t.finish, t.timer)
  }

  // --- steps of the io thread

  /** Queueing an event leaves what has been taken up as it is. */
  lemma QueueTells(s: Socket, t: Told, e: Evt)
    requires LogTold(s.log, s.evts, s.pushed, s.stage, t.packets)
    requires UserTold(s.evts, s.pushed, s.timerSend, s.timerClose, s.freed, s.handle, s.stage)
    ensures LogTold(s.log, s.evts + [e], s.pushed + [e], s.stage, t.packets)
    ensures UserTold(s.evts + [e], s.pushed + [e], s.timerSend, s.timerClose, s.freed, s.handle, s.stage)
    ensures DataEvents(s.pushed + [e]) == DataEvents(s.pushed) + Bit(e.EvtData?)
    ensures (s.pushed + [e])[0] == if s.pushed == [] then e else s.pushed[0]
  {
    hide LogTold;
    LogQueues(s.log, s.evts, s.pushed, s.stage, t.packets, e);
    assert Taken(s.evts + [e], s.pushed + [e]) == Taken(s.evts, s.pushed);
    assert (s.pushed + [e])[..|s.pushed|] == s.pushed;
  }

  lemma TakeAcceptTells(s: Socket, t: Told, ok: bool)
    requires Inv(s) && TaleOk(s, t)
    requires s.task.Rest? && s.reqs != [] && s.reqs[0].ReqAccept?
    ensures TaleOk(Take(s, ok), Record(t, s, IoTake(ok)))
  {
    hide EventOrder, OneEnding, EndingsOk, AcksOk, StageOk, HandleOk, CallOk, LogOk, LogTold, UserTold, AsksTold,
      DueTold, DataEvents;
  }

  lemma TakeConnectTells(s: Socket, t: Told, ok: bool)
    requires Inv(s) && TaleOk(s, t)
    requires s.task.Rest? && s.reqs != [] && s.reqs[0].ReqConnect?
    ensures TaleOk(Take(s, ok), Record(t, s, IoTake(ok)))
  {
    hide EventOrder, OneEnding, EndingsOk, AcksOk, StageOk, HandleOk, CallOk, LogOk, LogTold, UserTold, AsksTold,
      DueTold, DataEvents;
  }

  lemma TakeSendStep(s: Socket, t: Told, ok: bool)
    requires s.task.Rest? && s.reqs != [] && s.reqs[0].ReqSend?
    ensures Take(s, ok) == s.(reqs := s.reqs[1..], after := NextReq, sendAck := s.sendAck + 1, task := CheckSend)
    ensures Record(t, s, IoTake(ok)) == t.(duty := Duty(true, false, false, false, false, false))
  {
  }

  lemma TakeSendDone(s: Socket, t: Told)
    requires Inv(s) && TaleOk(s, t)
    requires s.task.Rest? && s.reqs != [] && s.reqs[0].ReqSend?
    ensures TaleOk(s.(reqs := s.reqs[1..], after := NextReq, sendAck := s.sendAck + 1, task := CheckSend),
                   t.(duty := Duty(true, false, false, false, false, false)))
  {
    hide EventOrder, OneEnding, EndingsOk, AcksOk, StageOk, HandleOk, CallOk, LogOk, LogTold, ReasonTold, UserTold,
      ClosingTold, DueTold, DataEvents;
  }

  lemma TakeSendTells(s: Socket, t: Told, ok: bool)
    requires Inv(s) && TaleOk(s, t)
    requires s.task.Rest? && s.reqs != [] && s.reqs[0].ReqSend?
    ensures TaleOk(Take(s, ok), Record(t, s, IoTake(ok)))
  {
    hide Inv, TaleOk, Take, Record;
    TakeSendStep(s, t, ok);
    TakeSendDone(s, t);
  }

  lemma TakeRecvActivateStep(s: Socket, t: Told, ok: bool)
    requires s.task.Rest? && s.reqs != [] && s.reqs[0].ReqRecvActivate?
    ensures Take(s, ok) == s.(reqs := s.reqs[1..], after := NextReq, needRecvActive := false, task := CheckRecv)
    ensures Record(t, s, IoTake(ok)) == t.(duty := Duty(false, true, false, false, false, false))
  {
  }

  lemma TakeRecvActivateDone(s: Socket, t: Told)
    requires Inv(s) && TaleOk(s, t)
    requires s.task.Rest? && s.reqs != [] && s.reqs[0].ReqRecvActivate?
    ensures TaleOk(s.(reqs := s.reqs[1..], after := NextReq, needRecvActive := false, task := CheckRecv),
                   t.(duty := Duty(false, true, false, false, false, false)))
  {
    hide EventOrder, OneEnding, EndingsOk, AcksOk, StageOk, HandleOk, CallOk, LogOk, LogTold, ReasonTold, UserTold,
      ClosingTold, AsksTold, DueTold, DataEvents;
  }

  lemma TakeRecvActivateTells(s: Socket, t: Told, ok: bool)
    requires Inv(s) && TaleOk(s, t)
    requires s.task.Rest? && s.reqs != [] && s.reqs[0].ReqRecvActivate?
    ensures TaleOk(Take(s, ok), Record(t, s, IoTake(ok)))
  {
    hide Inv, TaleOk, Take, Record;
    TakeRecvActivateStep(s, t, ok);
    TakeRecvActivateDone(s, t);
  }

  lemma TakeCloseTells(s: Socket, t: Told, ok: bool)
    requires Inv(s) && TaleOk(s, t)
    requires s.task.Rest? && s.reqs != [] && s.reqs[0].ReqClose?
    ensures TaleOk(Take(s, ok), Record(t, s, IoTake(ok)))
  {
    hide EventOrder, OneEnding, EndingsOk, AcksOk, StageOk, HandleOk, CallOk, LogOk, LogTold, ReasonTold, UserTold,
      ClosingTold, AsksTold, DueTold, DataEvents;
  }

  lemma TakeBrokenTells(s: Socket, t: Told, ok: bool)
    requires Inv(s) && TaleOk(s, t)
    requires s.task.Rest? && s.reqs != [] && s.reqs[0] == ReqTerminate(ErrSystem)
    ensures TaleOk(Take(s, ok), Record(t, s, IoTake(ok)))
  {
    hide EventOrder, OneEnding, IoOk, EndingsOk, ReqsOk, AcksOk, StageOk, HandleOk, CallOk, CloseOk, LogOk, LogTold,
      UserTold, AsksTold, DueTold, DataEvents;
  }

  lemma TakeTerminateTells(s: Socket, t: Told, ok: bool)
    requires Inv(s) && TaleOk(s, t)
    requires s.task.Rest? && s.reqs != [] && s.reqs[0].ReqTerminate? && !s.reqs[0].error.ErrSystem?
    ensures TaleOk(Take(s, ok), Record(t, s, IoTake(ok)))
  {
    hide EventOrder, OneEnding, IoOk, EndingsOk, ReqsOk, AcksOk, StageOk, HandleOk, CallOk, CloseOk, LogOk, LogTold,
      ReasonTold, UserTold, ClosingTold, AsksTold, DueTold, DataEvents;
  }

  lemma EmitTells(s: Socket, t: Told, flag: bool, end: End)
    requires Inv(s) && TaleOk(s, t)
    requires s.task.Emit?
    ensures TaleOk(Work(s, flag, end), Record(t, s, IoWork(flag, end)))
  {
    hide EventOrder, OneEnding, EndingsOk, ReqsOk, AcksOk, StageOk, HandleOk, CallOk, CloseOk, LogOk, LogTold,
      ReasonTold, UserTold, ClosingTold, AsksTold, DueTold, DataEvents;
    QueueTells(s, t, s.task.evt);
  }

  lemma CheckSendTells(s: Socket, t: Told, flag: bool, end: End)
    requires Inv(s) && TaleOk(s, t)
    requires s.task.CheckSend?
    ensures TaleOk(Work(s, flag, end), Record(t, s, IoWork(flag, end)))
  {
    hide EventOrder, OneEnding, EndingsOk, ReqsOk, AcksOk, StageOk, HandleOk, CallOk, CloseOk, LogOk, LogTold,
      ReasonTold, UserTold, ClosingTold, AsksTold, DueTold, DataEvents;
  }

  lemma CheckRecvTells(s: Socket, t: Told, flag: bool, end: End)
    requires Inv(s) && TaleOk(s, t)
    requires s.task.CheckRecv?
    ensures TaleOk(Work(s, flag, end), Record(t, s, IoWork(flag, end)))
  {
    hide EventOrder, OneEnding, EndingsOk, ReqsOk, AcksOk, StageOk, HandleOk, CallOk, CloseOk, LogOk, LogTold,
      ReasonTold, UserTold, ClosingTold, AsksTold, DueTold, DataEvents;
  }

  lemma ToDeleteTells(s: Socket, t: Told, flag: bool, end: End)
    requires Inv(s) && TaleOk(s, t)
    requires s.task.ToDelete?
    ensures TaleOk(Work(s, flag, end), Record(t, s, IoWork(flag, end)))
  {
    hide EventOrder, OneEnding, EndingsOk, ReqsOk, AcksOk, StageOk, HandleOk, CallOk, CloseOk, LogOk, LogTold,
      UserTold, AsksTold, DueTold, DataEvents;
  }

  lemma AckTells(s: Socket, t: Told, flag: bool, end: End)
    requires Inv(s) && TaleOk(s, t)
    requires s.task.Ack?
    ensures TaleOk(Work(s, flag, end), Record(t, s, IoWork(flag, end)))
  {
    hide EventOrder, OneEnding, EndingsOk, ReqsOk, AcksOk, StageOk, HandleOk, CallOk, CloseOk, LogOk, LogTold,
      ReasonTold, UserTold, ClosingTold, DueTold, DataEvents;
  }

  lemma PollOutTells(s: Socket, t: Told, flag: bool, end: End)
    requires Inv(s) && TaleOk(s, t)
    requires s.task.PollOut?
    ensures TaleOk(Work(s, flag, end), Record(t, s, IoWork(flag, end)))
  {
    hide EventOrder, OneEnding, EndingsOk, ReqsOk, AcksOk, StageOk, HandleOk, CallOk, CloseOk, LogOk, LogTold,
      ReasonTold, UserTold, ClosingTold, AsksTold, DueTold, DataEvents;
  }

  lemma ConnectDoneTells(s: Socket, t: Told, flag: bool, end: End)
    requires Inv(s) && TaleOk(s, t)
    requires s.task.ConnectDone?
    ensures TaleOk(Work(s, flag, end), Record(t, s, IoWork(flag, end)))
  {
    hide EventOrder, OneEnding, EndingsOk, ReqsOk, AcksOk, StageOk, HandleOk, CallOk, CloseOk, LogOk, LogTold,
      UserTold, AsksTold, DueTold, DataEvents;
  }

  lemma PollErrTells(s: Socket, t: Told, flag: bool, end: End)
    requires Inv(s) && TaleOk(s, t)
    requires s.task.PollErr?
    ensures TaleOk(Work(s, flag, end), Record(t, s, IoWork(flag, end)))
  {
    hide EventOrder, OneEnding, EndingsOk, ReqsOk, AcksOk, StageOk, HandleOk, CallOk, CloseOk, LogOk, LogTold,
      ReasonTold, UserTold, ClosingTold, AsksTold, DueTold, DataEvents;
  }

  lemma SendingStep(s: Socket, t: Told, end: End)
    requires s.task.Sending?
    ensures Work(s, false, end) == s.(task := Done)
    ensures Record(t, s, IoWork(false, end)) == t.(duty := t.duty.(send := false))
  {
  }

  lemma SendingDone(s: Socket, t: Told)
    requires Inv(s) && TaleOk(s, t)
    requires s.task.Sending?
    ensures TaleOk(s.(task := Done), t.(duty := t.duty.(send := false)))
  {
    hide EventOrder, OneEnding, EndingsOk, ReqsOk, AcksOk, StageOk, HandleOk, CallOk, CloseOk, LogOk, LogTold,
      ReasonTold, UserTold, ClosingTold, AsksTold, DueTold, DataEvents;
  }

  lemma SendingTells(s: Socket, t: Told, end: End)
    requires Inv(s) && TaleOk(s, t) && s.task.Sending?
    ensures TaleOk(Work(s, false, end), Record(t, s, IoWork(false, end)))
  {
    hide Inv, TaleOk, Work, Record;
    SendingStep(s, t, end);
    SendingDone(s, t);
  }

  lemma SendingBrokenTells(s: Socket, t: Told, flag: bool, end: End)
    requires Inv(s) && TaleOk(s, t)
    requires s.task.Sending? && flag
    ensures TaleOk(Work(s, flag, end), Record(t, s, IoWork(flag, end)))
  {
    hide EventOrder, OneEnding, EndingsOk, ReqsOk, AcksOk, StageOk, HandleOk, CallOk, CloseOk, LogOk, LogTold,
      ReasonTold, UserTold, ClosingTold, AsksTold, DueTold, DataEvents;
  }

  lemma ConnectBrokenStep(s: Socket, t: Told, flag: bool, end: End)
    requires s.task.ConnectBroken?
    ensures Work(s, flag, end) == s.(life := Deleted, task := Emit(EvtConnectFail))
    ensures Record(t, s, IoWork(flag, end)).(first := t.first, cause := t.cause) == t
    ensures Record(t, s, IoWork(flag, end)).first == Some(EvtConnectFail)
    ensures s.life.Connecting? ==> Record(t, s, IoWork(flag, end)).cause == t.cause
  {
  }

  lemma ConnectBrokenDone(s: Socket, t: Told)
    requires Inv(s) && TaleOk(s, t)
    requires s.task.ConnectBroken?
    ensures TaleOk(s.(life := Deleted, task := Emit(EvtConnectFail)), t.(first := Some(EvtConnectFail)))
  {
    hide EventOrder, OneEnding, EndingsOk, ReqsOk, AcksOk, StageOk, HandleOk, CallOk, CloseOk, LogOk, LogTold,
      UserTold, AsksTold, DueTold, DataEvents;
  }

  lemma ConnectBrokenTells(s: Socket, t: Told, flag: bool, end: End)
    requires Inv(s) && TaleOk(s, t) && s.task.ConnectBroken?
    ensures TaleOk(Work(s, flag, end), Record(t, s, IoWork(flag, end)))
  {
    ConnectBrokenLife(s);
    hide Inv, TaleOk, Work, Record;
    ConnectBrokenStep(s, t, flag, end);
    ConnectBrokenDone(s, t);
  }

  lemma ConnectBrokenLife(s: Socket)
    requires Inv(s) && s.task.ConnectBroken?
    ensures s.life.Connecting?
  {
    hide EventOrder, OneEnding, EndingsOk, ReqsOk, AcksOk, StageOk, HandleOk, CallOk, CloseOk, LogOk;
  }

  lemma ShutBrokenTells(s: Socket, t: Told, flag: bool, end: End)
    requires Inv(s) && TaleOk(s, t)
    requires s.task.Shut? && s.life.Established? && s.task.error.ErrSystem?
    ensures TaleOk(Work(s, flag, end), Record(t, s, IoWork(flag, end)))
  {
    hide EventOrder, OneEnding, IoOk, EndingsOk, ReqsOk, AcksOk, StageOk, HandleOk, CallOk, CloseOk, LogOk, LogTold,
      UserTold, AsksTold, DueTold, DataEvents;
  }

  lemma ShutFirstTells(s: Socket, t: Told, flag: bool, end: End)
    requires Inv(s) && TaleOk(s, t)
    requires s.task.Shut? && s.life.Established? && !s.task.error.ErrSystem?
    ensures TaleOk(Work(s, flag, end), Record(t, s, IoWork(flag, end)))
  {
    hide EventOrder, OneEnding, IoOk, EndingsOk, ReqsOk, AcksOk, StageOk, HandleOk, CallOk, CloseOk, LogOk, LogTold,
      UserTold, AsksTold, DueTold, DataEvents;
  }

  lemma LateStep(s: Socket, t: Told, flag: bool, end: End)
    requires s.task.Shut? && !s.life.Established?
    ensures Work(s, flag, end) == s.(task := Done) && Record(t, s, IoWork(flag, end)) == t
  {
  }

  lemma ShutDone(s: Socket, t: Told)
    requires TaleOk(s, t) && s.task.Shut? && !s.life.Established?
    ensures TaleOk(s.(task := Done), t)
  {
    hide LogTold, ReasonTold, UserTold, ClosingTold, AsksTold, DataEvents;
  }

  lemma ShutLateTells(s: Socket, t: Told, flag: bool, end: End)
    requires TaleOk(s, t) && s.task.Shut? && !s.life.Established?
    ensures TaleOk(Work(s, flag, end), Record(t, s, IoWork(flag, end)))
  {
    hide TaleOk, Work, Record;
    LateStep(s, t, flag, end);
    ShutDone(s, t);
  }

  lemma DoneNextReqTells(s: Socket, t: Told, flag: bool, end: End)
    requires Inv(s) && TaleOk(s, t)
    requires s.task.Done? && s.after.NextReq?
    ensures TaleOk(Work(s, flag, end), Record(t, s, IoWork(flag, end)))
  {
    hide EventOrder, OneEnding, EndingsOk, ReqsOk, AcksOk, StageOk, HandleOk, CallOk, CloseOk, LogOk, LogTold,
      ReasonTold, UserTold, ClosingTold, AsksTold, DueTold, DataEvents;
  }

  lemma DoneThenInTells(s: Socket, t: Told, flag: bool, end: End)
    requires Inv(s) && TaleOk(s, t)
    requires s.task.Done? && s.after.ThenIn?
    ensures TaleOk(Work(s, flag, end), Record(t, s, IoWork(flag, end)))
  {
    hide EventOrder, OneEnding, EndingsOk, ReqsOk, AcksOk, StageOk, HandleOk, CallOk, CloseOk, LogOk, LogTold,
      ReasonTold, UserTold, ClosingTold, AsksTold, DueTold, DataEvents;
  }

  lemma DoneThenErrTells(s: Socket, t: Told, flag: bool, end: End)
    requires Inv(s) && TaleOk(s, t)
    requires s.task.Done? && s.after.ThenErr?
    ensures TaleOk(Work(s, flag, end), Record(t, s, IoWork(flag, end)))
  {
    hide EventOrder, OneEnding, EndingsOk, ReqsOk, AcksOk, StageOk, HandleOk, CallOk, CloseOk, LogOk, LogTold,
      ReasonTold, UserTold, ClosingTold, AsksTold, DueTold, DataEvents;
  }

  /** What a receive loop has brought and how it ended is looked at next. */
  lemma ReceivingTells(s: Socket, t: Told, flag: bool, end: End)
    requires Inv(s) && TaleOk(s, t)
    requires s.task.Receiving?
    ensures TaleOk(s.(task := CheckData(end)), Record(t, s, IoWork(flag, end)))
  {
    hide EventOrder, OneEnding, EndingsOk, ReqsOk, AcksOk, StageOk, HandleOk, CallOk, CloseOk, LogOk, LogTold,
      ReasonTold, UserTold, ClosingTold, AsksTold, DueTold, DataEvents;
  }

  lemma CheckDataTells(s: Socket, t: Told, flag: bool, end: End)
    requires Inv(s) && TaleOk(s, t)
    requires s.task.CheckData? && s.life.Established?
    ensures TaleOk(s.(task := EmitData(s.task.end)), Record(t, s, IoWork(flag, end)))
  {
    hide EventOrder, OneEnding, EndingsOk, ReqsOk, AcksOk, StageOk, HandleOk, CallOk, CloseOk, LogOk, LogTold,
      ReasonTold, UserTold, ClosingTold, AsksTold, DueTold, DataEvents;
  }

  lemma CheckLateTells(s: Socket, t: Told, flag: bool, end: End)
    requires Inv(s) && TaleOk(s, t)
    requires s.task.CheckData? && !s.life.Established?
    ensures TaleOk(s, Record(t, s, IoWork(flag, end)))
  {
    hide EventOrder, OneEnding, IoOk, EndingsOk, ReqsOk, AcksOk, StageOk, HandleOk, CallOk, CloseOk, LogOk, LogTold,
      FirstTold, ReasonTold, CauseTold, ActivationTold, PolledTold, UserTold, ClosingTold, DataTold, AsksTold, DueTold,
      DataEvents;
  }

  lemma EmitDataTells(s: Socket, t: Told)
    requires Inv(s) && TaleOk(s, t)
    requires s.task.EmitData?
    ensures TaleOk(Queue(s, EvtData).(task := CheckData(s.task.end)), t)
  {
    hide EventOrder, OneEnding, EndingsOk, ReqsOk, AcksOk, StageOk, HandleOk, CallOk, CloseOk, LogOk, LogTold,
      ReasonTold, UserTold, ClosingTold, AsksTold, DueTold, DataEvents;
    QueueTells(s, t, EvtData);
  }

  lemma EndedAgainTells(s: Socket, t: Told)
    requires TaleOk(s.(task := CheckData(Again)), t) && !t.duty.data
    ensures TaleOk(Ended(s, Again), t)
  {
    hide LogTold, ReasonTold, UserTold, AsksTold, DueTold;
  }

  lemma EndedBrokenTells(s: Socket, t: Told)
    requires TaleOk(s.(task := CheckData(Broken)), t) && !t.duty.data
    ensures TaleOk(Ended(s, Broken), t)
  {
    hide LogTold, ReasonTold, UserTold, AsksTold, DueTold;
  }

  lemma EndedEofTells(s: Socket, t: Told)
    requires TaleOk(s.(task := CheckData(Eof)), t) && !t.duty.data
    ensures TaleOk(Ended(s, Eof), t)
  {
    hide LogTold, ReasonTold, UserTold, AsksTold, DueTold;
  }

  lemma EndedFullTells(s: Socket, t: Told)
    requires TaleOk(s.(task := CheckData(Full)), t) && !t.duty.data
    ensures TaleOk(Ended(s, Full), t)
  {
    hide LogTold, ReasonTold, UserTold, AsksTold, DueTold;
  }

  lemma PollTells(s: Socket, t: Told, out: bool, inp: bool, err: bool)
    requires Inv(s) && TaleOk(s, t)
    requires s.task.Rest? && s.polled
    ensures TaleOk(Apply(s, IoPoll(out, inp, err)), Record(t, s, IoPoll(out, inp, err)))
  {
    hide EventOrder, OneEnding, IoOk, EndingsOk, AcksOk, StageOk, HandleOk, CallOk, CloseOk, LogOk, LogTold,
      ReasonTold, UserTold, ClosingTold, AsksTold, DueTold, DataEvents;
  }

  // --- steps of the main thread: events

  lemma CauseStays(s: Socket, t: Told, call: Call)
    requires CauseTold(s.life, s.task, s.reqs, s.call, s.pushed, t.cause) && !(call.Push? && call.req.ReqTerminate?)
    ensures CauseTold(s.life, s.task, s.reqs, call, s.pushed, t.cause)
  {
  }

  /** Handling an activation goes on in a call that asks for one more receive or closes the connection. */
  lemma CallBegins(s: Socket, t: Told, call: Call, reason: Option<Error>)
    requires s.call.NoCall?
    requires DueTold(s.call, s.timerSend, s.timerClose, s.freed, t.look, t.finish, t.timer)
    requires ReasonTold(s.call, s.life, t.reason)
    requires AsksTold(s.sendReq, s.sendAck, s.call, s.needReqClose, t.asks)
    requires ClosingTold(s.tries, s.call, s.life, t.closings)
    requires (call == Push(ReqRecvActivate) && reason == t.reason) || (call.Shutting? && reason == Some(call.error))
    ensures DueTold(call, s.timerSend, s.timerClose, s.freed, t.look, t.finish, t.timer)
    ensures ReasonTold(call, s.life, reason)
    ensures AsksTold(s.sendReq, s.sendAck, call, s.needReqClose, t.asks)
    ensures ClosingTold(s.tries, call, s.life, t.closings)
  {
  }

  lemma Reactivates(s: Socket, evts: seq<Evt>, call: Call)
    requires ActivationTold(s.life, s.needRecvActive, s.task, s.evts, s.call, s.reqs)
    requires call == Push(ReqRecvActivate) || call.Shutting?
    ensures ActivationTold(s.life, s.needRecvActive, s.task, evts, call, s.reqs)
  {
  }

  /** What the main thread has still to see is what was queued last. */
  lemma Unseen(s: Socket)
    requires Inv(s) && s.evts != []
    ensures |s.evts| <= |s.pushed| && s.evts == s.pushed[|s.pushed| - |s.evts|..] && EventOrder(s.pushed)
    ensures Taken(s.evts[1..], s.pushed) == Taken(s.evts, s.pushed) + [s.evts[0]]
    ensures Begun(Taken(s.evts[1..], s.pushed)) <==> Begun(Taken(s.evts, s.pushed)) || s.evts[0].EvtEstablish?
    ensures s.evts[0] != EvtRecvActivate && EvtRecvActivate in s.evts ==> EvtRecvActivate in s.evts[1..]
  {
    hide EventOrder, OneEnding, IoOk, EndingsOk, ReqsOk, AcksOk, HandleOk, CallOk, CloseOk, LogOk;
    NextTaken(s.evts, s.pushed);
    assert s.evts == [s.evts[0]] + s.evts[1..];
  }

  /** Taking up another event leaves an activation that is waiting. */
  lemma ActivationWaits(s: Socket)
    requires Inv(s) && s.evts != [] && (s.evts[0] != EvtRecvActivate || !s.life.Established?)
    requires ActivationTold(s.life, s.needRecvActive, s.task, s.evts, s.call, s.reqs)
    ensures ActivationTold(s.life, s.needRecvActive, s.task, s.evts[1..], s.call, s.reqs)
  {
    hide Inv;
    Unseen(s);
  }

  /** From the establishment on the user has the socket and the send timer runs. */
  lemma UserTakes(s: Socket, timerSend: bool, handle: bool, stage: Stage)
    requires Inv(s) && s.evts != [] && s.stage.Between?
    requires UserTold(s.evts, s.pushed, s.timerSend, s.timerClose, s.freed, s.handle, s.stage)
    requires if s.evts[0].EvtEstablish? then timerSend && handle else timerSend == s.timerSend && handle == s.handle
    ensures UserTold(s.evts[1..], s.pushed, timerSend, s.timerClose, s.freed, handle, stage)
  {
    hide Taken, Begun, Inv;
    Unseen(s);
  }

  /** Handling the next event makes the callbacks it owes. */
  lemma Utters(s: Socket, t: Told, next: seq<Callback>, stage: Stage)
    requires Inv(s) && s.evts != [] && s.stage.Between?
    requires LogTold(s.log, s.evts, s.pushed, s.stage, t.packets)
    requires next == match s.evts[0]
      case EvtEstablish => [OnEstablish]
      case EvtConnectFail => [OnConnectError]
      case EvtModuleError(_) => [OnError]
      case EvtSystemError => [OnError]
      case EvtTerminate => [OnTerminate]
      case _ => []
    requires stage.InError? <==> s.evts[0].EvtModuleError? || s.evts[0].EvtSystemError?
    ensures LogTold(if next == [] then s.log else s.log + next, s.evts[1..], s.pushed, stage, t.packets)
  {
    hide Taken, Begun, Inv, Owed, EventOrder;
    Unseen(s);
    LogTakes(s.log, s.evts, s.pushed, t.packets, next, stage);
    assert s.log + [] == s.log;
  }

  lemma HandleEstablishTells(s: Socket, t: Told, flag: bool)
    requires Inv(s) && TaleOk(s, t)
    requires s.call.NoCall? && s.stage.Between? && s.evts != [] && s.evts[0].EvtEstablish?
    ensures TaleOk(Handle(s, flag), t)
  {
    hide EventOrder, OneEnding, IoOk, EndingsOk, ReqsOk, AcksOk, StageOk, HandleOk, CallOk, CloseOk, LogOk, LogTold,
      FirstTold, CauseTold, ActivationTold, PolledTold, UserTold, DataTold, DutyTold, ShutTold, DataEvents;
    ActivationWaits(s);
    CauseStays(s, t, NoCall);
    UserTakes(s, true, true, InEstablish);
    Utters(s, t, [OnEstablish], InEstablish);
  }

  lemma HandleDataTells(s: Socket, t: Told, flag: bool)
    requires Inv(s) && TaleOk(s, t)
    requires s.call.NoCall? && s.stage.Between? && s.evts != [] && s.evts[0].EvtData?
    ensures TaleOk(Handle(s, flag), t)
  {
    hide EventOrder, OneEnding, IoOk, EndingsOk, ReqsOk, AcksOk, StageOk, HandleOk, CallOk, CloseOk, LogOk, LogTold,
      FirstTold, CauseTold, ActivationTold, PolledTold, UserTold, DataTold, DutyTold, ShutTold, DataEvents;
    ActivationWaits(s);
    CauseStays(s, t, NoCall);
    UserTakes(s, s.timerSend, s.handle, InData);
    Utters(s, t, [], InData);
  }

  lemma HandleActivateOpenStep(s: Socket, t: Told)
    requires s.call.NoCall? && s.stage.Between? && s.evts != [] && s.evts[0].EvtRecvActivate? && s.life.Established?
    ensures Handle(s, true) == s.(evts := s.evts[1..], call := Push(ReqRecvActivate), stage := Finish)
  {
  }

  lemma HandleActivateOpenDone(s: Socket, t: Told)
    requires Inv(s) && TaleOk(s, t)
    requires s.call.NoCall? && s.stage.Between? && s.evts != [] && s.evts[0].EvtRecvActivate? && s.life.Established?
    ensures TaleOk(s.(evts := s.evts[1..], call := Push(ReqRecvActivate), stage := Finish), t)
  {
    hide EventOrder, OneEnding, IoOk, EndingsOk, ReqsOk, AcksOk, StageOk, HandleOk, CallOk, CloseOk, LogOk, LogTold,
      FirstTold, ReasonTold, CauseTold, ActivationTold, PolledTold, UserTold, ClosingTold, DataTold, AsksTold,
      DutyTold, ShutTold, DueTold, DataEvents;
    CallBegins(s, t, Push(ReqRecvActivate), t.reason);
    CauseStays(s, t, Push(ReqRecvActivate));
    Reactivates(s, s.evts[1..], Push(ReqRecvActivate));
    UserTakes(s, s.timerSend, s.handle, Finish);
    Utters(s, t, [], Finish);
  }

  lemma HandleActivateOpenTells(s: Socket, t: Told)
    requires Inv(s) && TaleOk(s, t)
    requires s.call.NoCall? && s.stage.Between? && s.evts != [] && s.evts[0].EvtRecvActivate? && s.life.Established?
    ensures TaleOk(Handle(s, true), t)
  {
    hide Inv, TaleOk, Handle, Record;
    HandleActivateOpenStep(s, t);
    HandleActivateOpenDone(s, t);
  }

  lemma HandleActivateFullStep(s: Socket, t: Told)
    requires s.call.NoCall? && s.stage.Between? && s.evts != [] && s.evts[0].EvtRecvActivate? && s.life.Established?
    ensures Handle(s, false) == s.(evts := s.evts[1..], call := Shutting(ErrRecvOverflow), stage := Finish)
  {
  }

  lemma HandleActivateFullDone(s: Socket, t: Told)
    requires Inv(s) && TaleOk(s, t)
    requires s.call.NoCall? && s.stage.Between? && s.evts != [] && s.evts[0].EvtRecvActivate? && s.life.Established?
    ensures TaleOk(s.(evts := s.evts[1..], call := Shutting(ErrRecvOverflow), stage := Finish),
                   t.(reason := Some(ErrRecvOverflow)))
  {
    hide EventOrder, OneEnding, IoOk, EndingsOk, ReqsOk, AcksOk, StageOk, HandleOk, CallOk, CloseOk, LogOk, LogTold,
      FirstTold, ReasonTold, CauseTold, ActivationTold, PolledTold, UserTold, ClosingTold, DataTold, AsksTold,
      DutyTold, ShutTold, DueTold, DataEvents;
    CallBegins(s, t, Shutting(ErrRecvOverflow), Some(ErrRecvOverflow));
    CauseStays(s, t, Shutting(ErrRecvOverflow));
    Reactivates(s, s.evts[1..], Shutting(ErrRecvOverflow));
    UserTakes(s, s.timerSend, s.handle, Finish);
    Utters(s, t, [], Finish);
  }

  lemma HandleActivateFullTells(s: Socket, t: Told)
    requires Inv(s) && TaleOk(s, t)
    requires s.call.NoCall? && s.stage.Between? && s.evts != [] && s.evts[0].EvtRecvActivate? && s.life.Established?
    ensures TaleOk(Handle(s, false), t.(reason := Some(ErrRecvOverflow)))
  {
    hide Inv, TaleOk, Handle, Record;
    HandleActivateFullStep(s, t);
    HandleActivateFullDone(s, t);
  }

  lemma HandleActivateLateStep(s: Socket, t: Told, flag: bool)
    requires s.call.NoCall? && s.stage.Between? && s.evts != [] && s.evts[0].EvtRecvActivate? && !s.life.Established?
    ensures Handle(s, flag) == s.(evts := s.evts[1..], stage := Finish)
  {
  }

  lemma HandleActivateLateDone(s: Socket, t: Told)
    requires Inv(s) && TaleOk(s, t)
    requires s.call.NoCall? && s.stage.Between? && s.evts != [] && s.evts[0].EvtRecvActivate? && !s.life.Established?
    ensures TaleOk(s.(evts := s.evts[1..], stage := Finish), t)
  {
    hide EventOrder, OneEnding, IoOk, EndingsOk, ReqsOk, AcksOk, StageOk, HandleOk, CallOk, CloseOk, LogOk, LogTold,
      FirstTold, ReasonTold, CauseTold, ActivationTold, PolledTold, UserTold, ClosingTold, DataTold, AsksTold,
      DutyTold, ShutTold, DueTold, DataEvents;
    ActivationWaits(s);
    UserTakes(s, s.timerSend, s.handle, Finish);
    Utters(s, t, [], Finish);
  }

  lemma HandleActivateLateTells(s: Socket, t: Told, flag: bool)
    requires Inv(s) && TaleOk(s, t)
    requires s.call.NoCall? && s.stage.Between? && s.evts != [] && s.evts[0].EvtRecvActivate? && !s.life.Established?
    ensures TaleOk(Handle(s, flag), t)
  {
    hide Inv, TaleOk, Handle, Record;
    HandleActivateLateStep(s, t, flag);
    HandleActivateLateDone(s, t);
  }

  lemma HandleModuleErrorTells(s: Socket, t: Told, flag: bool)
    requires Inv(s) && TaleOk(s, t)
    requires s.call.NoCall? && s.stage.Between? && s.evts != [] && s.evts[0].EvtModuleError?
    ensures TaleOk(Handle(s, flag), t)
  {
    hide EventOrder, OneEnding, IoOk, EndingsOk, ReqsOk, AcksOk, StageOk, HandleOk, CallOk, CloseOk, LogOk, LogTold,
      FirstTold, CauseTold, ActivationTold, PolledTold, UserTold, DataTold, DutyTold, ShutTold, DataEvents;
    ActivationWaits(s);
    CauseStays(s, t, NoCall);
    UserTakes(s, s.timerSend, s.handle, InError);
    Utters(s, t, [OnError], InError);
  }

  lemma HandleSystemErrorTells(s: Socket, t: Told, flag: bool)
    requires Inv(s) && TaleOk(s, t)
    requires s.call.NoCall? && s.stage.Between? && s.evts != [] && s.evts[0].EvtSystemError?
    ensures TaleOk(Handle(s, flag), t)
  {
    hide EventOrder, OneEnding, IoOk, EndingsOk, ReqsOk, AcksOk, StageOk, HandleOk, CallOk, CloseOk, LogOk, LogTold,
      FirstTold, CauseTold, ActivationTold, PolledTold, UserTold, DataTold, DutyTold, ShutTold, DataEvents;
    ActivationWaits(s);
    CauseStays(s, t, NoCall);
    UserTakes(s, s.timerSend, s.handle, InError);
    Utters(s, t, [OnError], InError);
  }

  lemma HandleTerminateTells(s: Socket, t: Told, flag: bool)
    requires Inv(s) && TaleOk(s, t)
    requires s.call.NoCall? && s.stage.Between? && s.evts != [] && s.evts[0].EvtTerminate?
    ensures TaleOk(Handle(s, flag), t)
  {
    hide EventOrder, OneEnding, IoOk, EndingsOk, ReqsOk, AcksOk, StageOk, HandleOk, CallOk, CloseOk, LogOk, LogTold,
      FirstTold, CauseTold, ActivationTold, PolledTold, UserTold, DataTold, DutyTold, ShutTold, DataEvents;
    ActivationWaits(s);
    CauseStays(s, t, NoCall);
    UserTakes(s, s.timerSend, s.handle, InTerminate);
    Utters(s, t, [OnTerminate], InTerminate);
  }

  lemma HandleConnectFailTells(s: Socket, t: Told, flag: bool)
    requires Inv(s) && TaleOk(s, t)
    requires s.call.NoCall? && s.stage.Between? && s.evts != [] && s.evts[0].EvtConnectFail?
    ensures TaleOk(Handle(s, flag), t)
  {
    hide EventOrder, OneEnding, IoOk, EndingsOk, ReqsOk, AcksOk, StageOk, HandleOk, CallOk, CloseOk, LogOk, LogTold,
      FirstTold, CauseTold, ActivationTold, PolledTold, UserTold, DataTold, DutyTold, ShutTold, DataEvents;
    ActivationWaits(s);
    CauseStays(s, t, NoCall);
    UserTakes(s, s.timerSend, s.handle, InConnectError);
    Utters(s, t, [OnConnectError], InConnectError);
  }

  lemma HandleAcceptFailTells(s: Socket, t: Told, flag: bool)
    requires Inv(s) && TaleOk(s, t)
    requires s.call.NoCall? && s.stage.Between? && s.evts != [] && s.evts[0].EvtAcceptFail?
    ensures TaleOk(Handle(s, flag), t)
  {
    hide EventOrder, OneEnding, IoOk, EndingsOk, ReqsOk, AcksOk, StageOk, HandleOk, CallOk, CloseOk, LogOk, LogTold,
      FirstTold, CauseTold, ActivationTold, PolledTold, UserTold, DataTold, DutyTold, ShutTold, DataEvents;
    ActivationWaits(s);
    CauseStays(s, t, NoCall);
    UserTakes(s, s.timerSend, s.handle, FinishLast);
    Utters(s, t, [], FinishLast);
  }

  lemma InEstablishTells(s: Socket, t: Told, flag: bool, bad: bool)
    requires Inv(s) && TaleOk(s, t)
    requires s.call.NoCall? && s.stage.InEstablish?
    ensures TaleOk(Resume(s, flag, bad), t)
  {
    hide EventOrder, OneEnding, IoOk, EndingsOk, ReqsOk, AcksOk, StageOk, HandleOk, CallOk, CloseOk, LogOk, LogTold,
      FirstTold, ReasonTold, CauseTold, ActivationTold, PolledTold, ClosingTold, DataTold, AsksTold, DutyTold,
      ShutTold, DueTold, DataEvents;
    hide Taken, Begun, Over;
    LogGoesOn(s.log, s.evts, s.pushed, t.packets, s.stage, Finish);
  }

  lemma BadPacketTells(s: Socket, t: Told, flag: bool, bad: bool)
    requires Inv(s) && TaleOk(s, t)
    requires s.call.NoCall? && s.stage.InData? && bad
    ensures TaleOk(Resume(s, flag, bad), t.(reason := Some(ErrPacket)))
  {
    hide EventOrder, OneEnding, EndingsOk, ReqsOk, AcksOk, HandleOk, CallOk, CloseOk, LogOk, LogTold, FirstTold,
      CauseTold, PolledTold, DataTold, DutyTold, ShutTold, DataEvents;
    hide Taken, Begun, Over;
    CauseStays(s, t, Shutting(ErrPacket));
    LogGoesOn(s.log, s.evts, s.pushed, t.packets, s.stage, Finish);
  }

  lemma PacketTells(s: Socket, t: Told, flag: bool, bad: bool)
    requires Inv(s) && TaleOk(s, t)
    requires s.call.NoCall? && s.stage.InData? && flag && !bad
    ensures TaleOk(Resume(s, flag, bad), t.(packets := t.packets + 1))
  {
    hide OneEnding, IoOk, EndingsOk, ReqsOk, AcksOk, HandleOk, CallOk, CloseOk, LogOk, LogTold, FirstTold, ReasonTold,
      CauseTold, ActivationTold, PolledTold, ClosingTold, DataTold, AsksTold, DutyTold, ShutTold, DueTold, DataEvents;
    hide Taken, Begun, Over;
    DataTaken(s);
    LogPacket(s.log, s.evts, s.pushed, t.packets, s.stage);
  }

  lemma NoPacketTells(s: Socket, t: Told, flag: bool, bad: bool)
    requires Inv(s) && TaleOk(s, t)
    requires s.call.NoCall? && s.stage.InData? && !flag && !bad
    ensures TaleOk(Resume(s, flag, bad), t)
  {
    hide EventOrder, OneEnding, IoOk, EndingsOk, ReqsOk, AcksOk, StageOk, HandleOk, CallOk, CloseOk, LogOk, LogTold,
      FirstTold, ReasonTold, CauseTold, ActivationTold, PolledTold, ClosingTold, DataTold, AsksTold, DutyTold,
      ShutTold, DueTold, DataEvents;
    hide Taken, Begun, Over;
    LogGoesOn(s.log, s.evts, s.pushed, t.packets, s.stage, Finish);
  }

  lemma InErrorTells(s: Socket, t: Told, flag: bool, bad: bool)
    requires Inv(s) && TaleOk(s, t)
    requires s.call.NoCall? && s.stage.InError?
    ensures TaleOk(Resume(s, flag, bad), t)
  {
    hide EventOrder, OneEnding, IoOk, EndingsOk, ReqsOk, AcksOk, StageOk, HandleOk, CallOk, CloseOk, LogOk, LogTold,
      FirstTold, ReasonTold, CauseTold, ActivationTold, PolledTold, ClosingTold, DataTold, AsksTold, DutyTold,
      ShutTold, DueTold, DataEvents;
    hide Taken, Begun, Over;
    LogGoesOn(s.log, s.evts, s.pushed, t.packets, s.stage, InTerminate);
  }

  lemma InTerminateTells(s: Socket, t: Told, flag: bool, bad: bool)
    requires Inv(s) && TaleOk(s, t)
    requires s.call.NoCall? && s.stage.InTerminate?
    ensures TaleOk(Resume(s, flag, bad), t)
  {
    hide EventOrder, OneEnding, IoOk, EndingsOk, ReqsOk, AcksOk, StageOk, HandleOk, CallOk, CloseOk, LogOk, LogTold,
      FirstTold, ReasonTold, CauseTold, ActivationTold, PolledTold, ClosingTold, DataTold, AsksTold, DutyTold,
      ShutTold, DueTold, DataEvents;
    hide Taken, Begun, Over;
    LogGoesOn(s.log, s.evts, s.pushed, t.packets, s.stage, FinishLast);
  }

  lemma InConnectErrorTells(s: Socket, t: Told, flag: bool, bad: bool)
    requires Inv(s) && TaleOk(s, t)
    requires s.call.NoCall? && s.stage.InConnectError?
    ensures TaleOk(Resume(s, flag, bad), t)
  {
    hide OneEnding, IoOk, EndingsOk, ReqsOk, AcksOk, HandleOk, CallOk, CloseOk, LogOk, LogTold, FirstTold, ReasonTold,
      CauseTold, ActivationTold, PolledTold, ClosingTold, DataTold, AsksTold, DutyTold, ShutTold, DueTold, DataEvents;
    hide Taken, Begun, Over;
    LogGoesOn(s.log, s.evts, s.pushed, t.packets, s.stage, FinishLast);
  }

  lemma FinishTells(s: Socket, t: Told, flag: bool, bad: bool)
    requires Inv(s) && TaleOk(s, t)
    requires s.call.NoCall? && s.stage.Finish?
    ensures TaleOk(Resume(s, flag, bad), t)
  {
    hide EventOrder, OneEnding, IoOk, EndingsOk, ReqsOk, AcksOk, StageOk, HandleOk, CallOk, CloseOk, LogOk, LogTold,
      FirstTold, ReasonTold, CauseTold, ActivationTold, PolledTold, ClosingTold, DataTold, AsksTold, DutyTold,
      ShutTold, DueTold, DataEvents;
    hide Taken, Begun, Over;
    LogGoesOn(s.log, s.evts, s.pushed, t.packets, s.stage, Between);
  }

  lemma FinishLastStep(s: Socket, flag: bool, bad: bool)
    requires s.stage.FinishLast?
    ensures Resume(s, flag, bad) == s.(timerSend := false, timerClose := true, stage := Between)
  {
  }

  lemma FinishLastDone(s: Socket, t: Told)
    requires Inv(s) && TaleOk(s, t)
    requires s.stage.FinishLast?
    ensures TaleOk(s.(timerSend := false, timerClose := true, stage := Between), t)
  {
    hide EventOrder, OneEnding, IoOk, EndingsOk, ReqsOk, AcksOk, StageOk, HandleOk, CallOk, CloseOk, LogOk, LogTold,
      FirstTold, ReasonTold, CauseTold, ActivationTold, PolledTold, ClosingTold, DataTold, AsksTold, DutyTold,
      ShutTold, DataEvents;
    hide Taken, Begun, Over;
    LogGoesOn(s.log, s.evts, s.pushed, t.packets, s.stage, Between);
  }

  lemma FinishLastTells(s: Socket, t: Told, flag: bool, bad: bool)
    requires Inv(s) && TaleOk(s, t) && s.stage.FinishLast?
    ensures TaleOk(Resume(s, flag, bad), t)
  {
    hide Inv, TaleOk, Resume;
    FinishLastStep(s, flag, bad);
    FinishLastDone(s, t);
  }

  // --- steps of the main thread: calls and timers

  lemma SendPushTells(s: Socket, t: Told, flag: bool)
    requires Inv(s) && TaleOk(s, t)
    requires s.call.SendPush? && flag
    ensures TaleOk(Proceed(s, flag), t)
  {
    hide EventOrder, OneEnding, IoOk, EndingsOk, ReqsOk, AcksOk, StageOk, HandleOk, CallOk, CloseOk, LogOk, LogTold,
      FirstTold, CauseTold, PolledTold, UserTold, DataTold, DutyTold, ShutTold, DataEvents;
    CauseStays(s, t, SendTest);
  }

  lemma SendPushFullTells(s: Socket, t: Told, flag: bool)
    requires Inv(s) && TaleOk(s, t)
    requires s.call.SendPush? && !flag
    ensures TaleOk(Proceed(s, flag), t.(reason := Some(ErrSendOverflow), look := false))
  {
    hide EventOrder, OneEnding, IoOk, EndingsOk, ReqsOk, AcksOk, StageOk, HandleOk, CallOk, CloseOk, LogOk, LogTold,
      FirstTold, CauseTold, PolledTold, UserTold, DataTold, DutyTold, ShutTold, DataEvents;
    CauseStays(s, t, Shutting(ErrSendOverflow));
  }

  lemma SendTestAsksTells(s: Socket, t: Told, flag: bool)
    requires Inv(s) && TaleOk(s, t)
    requires s.call.SendTest? && flag && s.sendReq == s.sendAck
    ensures TaleOk(Proceed(s, flag), t.(asks := t.asks + 1, look := false))
  {
    hide EventOrder, OneEnding, IoOk, EndingsOk, ReqsOk, AcksOk, StageOk, HandleOk, CallOk, CloseOk, LogOk, LogTold,
      FirstTold, CauseTold, PolledTold, UserTold, DataTold, DutyTold, ShutTold, DataEvents;
    CauseStays(s, t, Push(ReqSend));
  }

  lemma SendTestWaitsTells(s: Socket, t: Told, flag: bool)
    requires Inv(s) && TaleOk(s, t)
    requires s.call.SendTest? && !(flag && s.sendReq == s.sendAck)
    ensures TaleOk(Proceed(s, flag), t.(look := false))
  {
    hide EventOrder, OneEnding, IoOk, EndingsOk, ReqsOk, AcksOk, StageOk, HandleOk, CallOk, CloseOk, LogOk, LogTold,
      FirstTold, CauseTold, PolledTold, UserTold, DataTold, DutyTold, ShutTold, DataEvents;
    CauseStays(s, t, NoCall);
  }

  lemma PushTells(s: Socket, t: Told, flag: bool)
    requires Inv(s) && TaleOk(s, t)
    requires s.call.Push?
    ensures TaleOk(Proceed(s, flag), t)
  {
    hide EventOrder, OneEnding, IoOk, EndingsOk, ReqsOk, StageOk, HandleOk, LogOk, LogTold, FirstTold, UserTold,
      DataTold, DutyTold, ShutTold, DataEvents;
  }

  lemma ShuttingFirstTells(s: Socket, t: Told, flag: bool)
    requires Inv(s) && TaleOk(s, t)
    requires s.call.Shutting? && s.life.Established?
    ensures TaleOk(Proceed(s, flag), t.(cause := t.reason))
  {
    hide EventOrder, OneEnding, IoOk, EndingsOk, ReqsOk, AcksOk, StageOk, HandleOk, CallOk, CloseOk, LogOk, LogTold,
      UserTold, DataTold, DataEvents;
  }

  lemma ShuttingLateTells(s: Socket, t: Told, flag: bool)
    requires Inv(s) && TaleOk(s, t)
    requires s.call.Shutting? && !s.life.Established?
    ensures TaleOk(Proceed(s, flag), t.(reason := if Early(s.life) then None else t.reason))
  {
    hide EventOrder, OneEnding, IoOk, EndingsOk, ReqsOk, AcksOk, StageOk, HandleOk, CallOk, CloseOk, LogOk, LogTold,
      FirstTold, CauseTold, PolledTold, UserTold, DataTold, DutyTold, ShutTold, DataEvents;
    CauseStays(s, t, NoCall);
  }

  lemma CloseTryAgainTells(s: Socket, t: Told, flag: bool)
    requires Inv(s) && TaleOk(s, t)
    requires s.call.CloseTry? && s.tries < MAX_TRY_CLOSE_SEND && flag
    ensures TaleOk(Proceed(s, flag), t.(look := true))
  {
    hide EventOrder, OneEnding, IoOk, EndingsOk, ReqsOk, AcksOk, StageOk, HandleOk, CallOk, CloseOk, LogOk, LogTold,
      FirstTold, CauseTold, PolledTold, UserTold, DataTold, DutyTold, ShutTold, DataEvents;
    CauseStays(s, t, SendTest);
  }

  lemma CloseTrySentTells(s: Socket, t: Told, flag: bool)
    requires Inv(s) && TaleOk(s, t)
    requires s.call.CloseTry? && s.tries < MAX_TRY_CLOSE_SEND && !flag
    ensures TaleOk(Proceed(s, flag), t.(look := false))
  {
    hide EventOrder, OneEnding, IoOk, EndingsOk, ReqsOk, AcksOk, StageOk, HandleOk, CallOk, CloseOk, LogOk, LogTold,
      FirstTold, CauseTold, PolledTold, UserTold, DataTold, DutyTold, ShutTold, DataEvents;
    CauseStays(s, t, Demote);
  }

  lemma CloseTryOverTells(s: Socket, t: Told, flag: bool)
    requires Inv(s) && TaleOk(s, t)
    requires s.call.CloseTry? && s.tries >= MAX_TRY_CLOSE_SEND
    ensures TaleOk(Proceed(s, flag), t.(look := false))
  {
    hide EventOrder, OneEnding, IoOk, EndingsOk, ReqsOk, AcksOk, StageOk, HandleOk, CallOk, CloseOk, LogOk, LogTold,
      FirstTold, CauseTold, PolledTold, UserTold, DataTold, DutyTold, ShutTold, DataEvents;
    CauseStays(s, t, Demote);
  }

  lemma DemoteTells(s: Socket, t: Told, flag: bool)
    requires Inv(s) && TaleOk(s, t)
    requires s.call.Demote?
    ensures TaleOk(Proceed(s, flag), t)
  {
    hide EventOrder, OneEnding, IoOk, EndingsOk, ReqsOk, AcksOk, StageOk, HandleOk, CloseOk, LogOk, LogTold, UserTold,
      DataTold, DataEvents;
  }

  lemma CloseDeleteTells(s: Socket, t: Told, flag: bool)
    requires Inv(s) && TaleOk(s, t)
    requires s.call.CloseDelete? && s.needReqClose
    ensures TaleOk(Proceed(s, flag), t)
  {
    hide EventOrder, OneEnding, IoOk, EndingsOk, ReqsOk, AcksOk, StageOk, HandleOk, CloseOk, LogOk, LogTold, FirstTold,
      CauseTold, UserTold, DataTold, DutyTold, ShutTold, DataEvents;
    CauseStays(s, t, Push(ReqClose));
  }

  lemma CloseDeleteAgainTells(s: Socket, t: Told, flag: bool)
    requires Inv(s) && TaleOk(s, t)
    requires s.call.CloseDelete? && !s.needReqClose
    ensures TaleOk(Proceed(s, flag), t)
  {
    hide EventOrder, OneEnding, IoOk, EndingsOk, ReqsOk, AcksOk, StageOk, HandleOk, CallOk, CloseOk, LogOk, LogTold,
      FirstTold, CauseTold, PolledTold, UserTold, DataTold, DutyTold, ShutTold, DataEvents;
    CauseStays(s, t, CheckAck);
  }

  lemma CheckAckLateTells(s: Socket, t: Told, flag: bool)
    requires Inv(s) && TaleOk(s, t)
    requires s.call.CheckAck? && s.sendReq != s.sendAck
    ensures TaleOk(Proceed(s, flag), t.(finish := false))
  {
    hide EventOrder, OneEnding, IoOk, EndingsOk, ReqsOk, AcksOk, StageOk, HandleOk, CallOk, CloseOk, LogOk, LogTold,
      FirstTold, CauseTold, PolledTold, UserTold, DataTold, DutyTold, ShutTold, DataEvents;
    CauseStays(s, t, NoCall);
  }

  lemma CheckAckLastTells(s: Socket, t: Told, flag: bool)
    requires Inv(s) && TaleOk(s, t)
    requires s.call.CheckAck? && s.sendReq == s.sendAck
    ensures TaleOk(Proceed(s, flag), t.(finish := false))
  {
    hide EventOrder, OneEnding, IoOk, EndingsOk, ReqsOk, AcksOk, StageOk, HandleOk, CallOk, CloseOk, LogOk, LogTold,
      FirstTold, CauseTold, PolledTold, DataTold, DutyTold, ShutTold, DataEvents;
    CauseStays(s, t, NoCall);
  }

  lemma UserSendTells(s: Socket, t: Told)
    requires Inv(s) && TaleOk(s, t)
    requires Enabled(s, UserSend)
    ensures TaleOk(Apply(s, UserSend), t.(look := t.look || s.life.Established?))
  {
    hide EventOrder, OneEnding, IoOk, EndingsOk, ReqsOk, AcksOk, StageOk, HandleOk, CallOk, CloseOk, LogOk, LogTold,
      FirstTold, CauseTold, PolledTold, UserTold, DataTold, DutyTold, ShutTold, DataEvents;
    CauseStays(s, t, SendPush);
  }

  lemma UserCloseTells(s: Socket, t: Told)
    requires Inv(s) && TaleOk(s, t)
    requires Enabled(s, UserClose)
    ensures TaleOk(Apply(s, UserClose), t.(reason := Some(ErrOk)))
  {
    hide EventOrder, OneEnding, IoOk, EndingsOk, ReqsOk, AcksOk, StageOk, HandleOk, CallOk, CloseOk, LogOk, LogTold,
      FirstTold, CauseTold, PolledTold, UserTold, DataTold, DutyTold, ShutTold, DataEvents;
    CauseStays(s, t, Shutting(ErrOk));
  }

  lemma UserControlTells(s: Socket, t: Told)
    requires Inv(s) && TaleOk(s, t)
    requires Enabled(s, UserControl)
    ensures TaleOk(Apply(s, UserControl), t.(timer := true))
  {
    hide EventOrder, OneEnding, IoOk, EndingsOk, ReqsOk, AcksOk, StageOk, HandleOk, CallOk, CloseOk, LogOk, LogTold,
      FirstTold, ReasonTold, CauseTold, ActivationTold, PolledTold, ClosingTold, DataTold, AsksTold, DutyTold,
      ShutTold, DataEvents;
  }

  lemma TimerSendTells(s: Socket, t: Told)
    requires Inv(s) && TaleOk(s, t)
    requires Enabled(s, TimerSend)
    ensures TaleOk(Apply(s, TimerSend), t.(look := t.look || s.life.Established?))
  {
    hide EventOrder, OneEnding, IoOk, EndingsOk, ReqsOk, AcksOk, StageOk, HandleOk, CallOk, CloseOk, LogOk, LogTold,
      FirstTold, CauseTold, PolledTold, UserTold, DataTold, DutyTold, ShutTold, DataEvents;
    CauseStays(s, t, SendTest);
  }

  lemma TimerCloseTerminatedTells(s: Socket, t: Told)
    requires Inv(s) && TaleOk(s, t)
    requires Enabled(s, TimerClose) && s.life.Terminated?
    ensures TaleOk(Apply(s, TimerClose), t.(closings := t.closings + 1))
  {
    hide EventOrder, OneEnding, IoOk, EndingsOk, ReqsOk, AcksOk, StageOk, HandleOk, CallOk, CloseOk, LogOk, LogTold,
      FirstTold, CauseTold, PolledTold, UserTold, DataTold, DutyTold, ShutTold, DataEvents;
    CauseStays(s, t, CloseTry);
  }

  lemma TimerCloseDeletedTells(s: Socket, t: Told)
    requires Inv(s) && TaleOk(s, t)
    requires Enabled(s, TimerClose) && s.life.Deleted?
    ensures TaleOk(Apply(s, TimerClose), t.(finish := true))
  {
    hide EventOrder, OneEnding, IoOk, EndingsOk, ReqsOk, AcksOk, StageOk, HandleOk, CallOk, CloseOk, LogOk, LogTold,
      FirstTold, CauseTold, PolledTold, UserTold, DataTold, DutyTold, ShutTold, DataEvents;
    CauseStays(s, t, CloseDelete);
  }

  // --- every step

  lemma TakeTells(s: Socket, t: Told, ok: bool)
    requires Inv(s) && TaleOk(s, t) && s.task.Rest? && s.reqs != []
    ensures TaleOk(Take(s, ok), Record(t, s, IoTake(ok)))
  {
    hide Inv, TaleOk, Take, Record;
    match s.reqs[0] {
      case ReqAccept => TakeAcceptTells(s, t, ok);
      case ReqConnect => TakeConnectTells(s, t, ok);
      case ReqSend => TakeSendTells(s, t, ok);
      case ReqRecvActivate => TakeRecvActivateTells(s, t, ok);
      case ReqTerminate(e) => if e.ErrSystem? { TakeBrokenTells(s, t, ok); } else { TakeTerminateTells(s, t, ok); }
      case ReqClose => TakeCloseTells(s, t, ok);
    }
  }

  lemma EndedTells(s: Socket, t: Told, end: End)
    requires TaleOk(s.(task := CheckData(end)), t) && !t.duty.data
    ensures TaleOk(Ended(s, end), t)
  {
    hide TaleOk, Ended;
    match end {
      case Again => EndedAgainTells(s, t);
      case Broken => EndedBrokenTells(s, t);
      case Eof => EndedEofTells(s, t);
      case Full => EndedFullTells(s, t);
    }
  }

  lemma ReceiveTells(s: Socket, t: Told, flag: bool, end: End)
    requires Inv(s) && TaleOk(s, t) && s.task.Receiving?
    ensures TaleOk(Work(s, flag, end), Record(t, s, IoWork(flag, end)))
  {
    hide Inv, TaleOk;
    ReceivingTells(s, t, flag, end);
    if !flag { EndedTells(s, Record(t, s, IoWork(flag, end)), end); }
  }

  lemma LookTells(s: Socket, t: Told, flag: bool, end: End)
    requires Inv(s) && TaleOk(s, t) && s.task.CheckData?
    ensures TaleOk(Work(s, flag, end), Record(t, s, IoWork(flag, end)))
  {
    hide Inv, TaleOk;
    if s.life.Established? {
      CheckDataTells(s, t, flag, end);
    } else {
      assert s.(task := CheckData(s.task.end)) == s;
      CheckLateTells(s, t, flag, end);
      EndedTells(s, Record(t, s, IoWork(flag, end)), s.task.end);
    }
  }

  lemma NoDataLeft(s: Socket, t: Told)
    requires TaleOk(s, t) && !s.task.CheckData?
    ensures !t.duty.data
  {
    hide LogTold, FirstTold, ReasonTold, CauseTold, ActivationTold, PolledTold, UserTold, ClosingTold, DataTold,
      AsksTold, ShutTold, DueTold;
  }

  lemma AnnounceStep(s: Socket, t: Told, flag: bool, end: End)
    requires s.task.EmitData?
    ensures Work(s, flag, end) == Ended(Queue(s, EvtData), s.task.end)
    ensures Record(t, s, IoWork(flag, end)) == t
  {
    hide Ended, Queue;
  }

  lemma AnnounceTells(s: Socket, t: Told, flag: bool, end: End)
    requires Inv(s) && TaleOk(s, t) && s.task.EmitData?
    ensures TaleOk(Work(s, flag, end), Record(t, s, IoWork(flag, end)))
  {
    NoDataLeft(s, t);
    hide Inv, TaleOk, Ended, Work, Record, Queue;
    EmitDataTells(s, t);
    AnnounceStep(s, t, flag, end);
    EndedTells(Queue(s, EvtData), t, s.task.end);
  }

  lemma ShutTells(s: Socket, t: Told, flag: bool, end: End)
    requires Inv(s) && TaleOk(s, t) && s.task.Shut?
    ensures TaleOk(Work(s, flag, end), Record(t, s, IoWork(flag, end)))
  {
    hide Inv, TaleOk, Work, Record;
    if !s.life.Established? { ShutLateTells(s, t, flag, end); }
    else if s.task.error.ErrSystem? { ShutBrokenTells(s, t, flag, end); }
    else { ShutFirstTells(s, t, flag, end); }
  }

  lemma ConnectTells(s: Socket, t: Told, flag: bool, end: End)
    requires Inv(s) && TaleOk(s, t)
    requires s.task.PollOut? || s.task.ConnectDone? || s.task.PollErr? || s.task.ConnectBroken? || s.task.Done?
    ensures TaleOk(Work(s, flag, end), Record(t, s, IoWork(flag, end)))
  {
    hide Inv, TaleOk, Work, Record;
    match s.task {
      case PollOut => PollOutTells(s, t, flag, end);
      case ConnectDone => ConnectDoneTells(s, t, flag, end);
      case PollErr => PollErrTells(s, t, flag, end);
      case ConnectBroken => ConnectBrokenTells(s, t, flag, end);
      case Done =>
        match s.after {
          case NextReq => DoneNextReqTells(s, t, flag, end);
          case ThenIn(_, _) => DoneThenInTells(s, t, flag, end);
          case ThenErr(_) => DoneThenErrTells(s, t, flag, end);
        }
    }
  }

  lemma WorkTells(s: Socket, t: Told, flag: bool, end: End)
    requires Inv(s) && TaleOk(s, t) && !s.task.Rest?
    ensures TaleOk(Work(s, flag, end), Record(t, s, IoWork(flag, end)))
  {
    hide Inv, TaleOk, Work, Record;
    match s.task {
      case Emit(_) => EmitTells(s, t, flag, end);
      case CheckSend => CheckSendTells(s, t, flag, end);
      case Sending => if flag { SendingBrokenTells(s, t, flag, end); } else { SendingTells(s, t, end); }
      case CheckRecv => CheckRecvTells(s, t, flag, end);
      case Receiving => ReceiveTells(s, t, flag, end);
      case CheckData(_) => LookTells(s, t, flag, end);
      case EmitData(_) => AnnounceTells(s, t, flag, end);
      case Shut(_) => ShutTells(s, t, flag, end);
      case ToDelete => ToDeleteTells(s, t, flag, end);
      case Ack => AckTells(s, t, flag, end);
      case _ => ConnectTells(s, t, flag, end);
    }
  }

  /** What a step of the main thread tells. */
  lemma MainRecord(s: Socket, t: Told, e: Step)
    requires Enabled(s, e) && !e.IoTake? && !e.IoPoll? && !e.IoWork?
    ensures Record(t, s, e) == t.(
      reason := Reason(t.reason, s, e), cause := Cause(t, s, e),
      packets := t.packets + Bit(e == MainNext(true, false) && s.stage.InData?),
      asks := t.asks + Bit(e == CallWork(true) && s.call.SendTest? && s.sendReq == s.sendAck),
      closings := t.closings + Bit(e.TimerClose? && s.life.Terminated?),
      look := Look(t.look, s, e),
      finish := (t.finish || (e.TimerClose? && s.life.Deleted?)) && !(e.CallWork? && s.call.CheckAck?),
      timer := t.timer || e.UserControl?)
  {
  }

  lemma HandleTells(s: Socket, t: Told, flag: bool)
    requires Inv(s) && TaleOk(s, t) && s.call.NoCall? && s.stage.Between? && s.evts != []
    ensures TaleOk(Handle(s, flag), Record(t, s, MainTake(flag)))
  {
    MainRecord(s, t, MainTake(flag));
    hide Inv, TaleOk, Handle, Record;
    match s.evts[0] {
      case EvtEstablish => HandleEstablishTells(s, t, flag);
      case EvtData => HandleDataTells(s, t, flag);
      case EvtRecvActivate =>
        if !s.life.Established? { HandleActivateLateTells(s, t, flag); }
        else if flag { HandleActivateOpenTells(s, t); }
        else { HandleActivateFullTells(s, t); }
      case EvtModuleError(_) => HandleModuleErrorTells(s, t, flag);
      case EvtSystemError => HandleSystemErrorTells(s, t, flag);
      case EvtTerminate => HandleTerminateTells(s, t, flag);
      case EvtConnectFail => HandleConnectFailTells(s, t, flag);
      case EvtAcceptFail => HandleAcceptFailTells(s, t, flag);
    }
  }

  /** What it tells that a callback or the handling of an event ends. */
  lemma NextRecord(s: Socket, t: Told, flag: bool, bad: bool)
    ensures !s.stage.InData? || (!bad && !flag) ==> Record(t, s, MainNext(flag, bad)) == t
    ensures s.stage.InData? && bad ==> Record(t, s, MainNext(flag, bad)) == t.(reason := Some(ErrPacket))
    ensures s.stage.InData? && !bad && flag ==> Record(t, s, MainNext(flag, bad)) == t.(packets := t.packets + 1)
  {
  }

  lemma ResumeTells(s: Socket, t: Told, flag: bool, bad: bool)
    requires Inv(s) && TaleOk(s, t) && s.call.NoCall? && !s.stage.Between?
    ensures TaleOk(Resume(s, flag, bad), Record(t, s, MainNext(flag, bad)))
  {
    hide Inv, TaleOk, Resume, Record;
    NextRecord(s, t, flag, bad);
    match s.stage {
      case InEstablish => InEstablishTells(s, t, flag, bad);
      case InData =>
        if bad { BadPacketTells(s, t, flag, bad); }
        else if flag { PacketTells(s, t, flag, bad); }
        else { NoPacketTells(s, t, flag, bad); }
      case InError => InErrorTells(s, t, flag, bad);
      case InTerminate => InTerminateTells(s, t, flag, bad);
      case InConnectError => InConnectErrorTells(s, t, flag, bad);
      case Finish => FinishTells(s, t, flag, bad);
      case FinishLast => FinishLastTells(s, t, flag, bad);
    }
  }

  /** What a step inside a call tells. */
  lemma CallRecord(s: Socket, t: Told, flag: bool)
    requires !s.call.NoCall?
    ensures s.call.Push? || s.call.Demote? || s.call.CloseDelete? ==> Record(t, s, CallWork(flag)) == t
    ensures s.call.CloseTry? ==>
      Record(t, s, CallWork(flag)) == t.(look := s.tries < MAX_TRY_CLOSE_SEND && flag)
    ensures s.call.CheckAck? ==> Record(t, s, CallWork(flag)) == t.(finish := false)
    ensures s.call.SendPush? ==>
      Record(t, s, CallWork(flag)) ==
      if flag then t else t.(reason := Some(ErrSendOverflow), look := false)
    ensures s.call.SendTest? ==>
      Record(t, s, CallWork(flag)) ==
      if flag && s.sendReq == s.sendAck then t.(asks := t.asks + 1, look := false) else t.(look := false)
    ensures s.call.Shutting? ==>
      Record(t, s, CallWork(flag)) ==
      if s.life.Established? then t.(cause := t.reason) else t.(reason := if Early(s.life) then None else t.reason)
  {
  }

  lemma CloseTells(s: Socket, t: Told, flag: bool)
    requires Inv(s) && TaleOk(s, t)
    requires s.call.CloseTry? || s.call.Demote? || s.call.CloseDelete? || s.call.CheckAck?
    ensures TaleOk(Proceed(s, flag), Record(t, s, CallWork(flag)))
  {
    hide Inv, TaleOk, Proceed, Record;
    CallRecord(s, t, flag);
    match s.call {
      case CloseTry =>
        if s.tries >= MAX_TRY_CLOSE_SEND { CloseTryOverTells(s, t, flag); }
        else if flag { CloseTryAgainTells(s, t, flag); }
        else { CloseTrySentTells(s, t, flag); }
      case Demote => DemoteTells(s, t, flag);
      case CloseDelete =>
        if s.needReqClose { CloseDeleteTells(s, t, flag); } else { CloseDeleteAgainTells(s, t, flag); }
      case CheckAck =>
        if s.sendReq == s.sendAck { CheckAckLastTells(s, t, flag); } else { CheckAckLateTells(s, t, flag); }
    }
  }

  lemma ProceedTells(s: Socket, t: Told, flag: bool)
    requires Inv(s) && TaleOk(s, t) && !s.call.NoCall?
    ensures TaleOk(Proceed(s, flag), Record(t, s, CallWork(flag)))
  {
    hide Inv, TaleOk, Proceed, Record;
    CallRecord(s, t, flag);
    match s.call {
      case SendPush => if flag { SendPushTells(s, t, flag); } else { SendPushFullTells(s, t, flag); }
      case SendTest =>
        if flag && s.sendReq == s.sendAck { SendTestAsksTells(s, t, flag); } else { SendTestWaitsTells(s, t, flag); }
      case Push(_) => PushTells(s, t, flag);
      case Shutting(_) =>
        if s.life.Established? { ShuttingFirstTells(s, t, flag); } else { ShuttingLateTells(s, t, flag); }
      case _ => CloseTells(s, t, flag);
    }
  }

  lemma UserTells(s: Socket, t: Told, e: Step)
    requires Inv(s) && TaleOk(s, t) && Enabled(s, e)
    requires e.UserSend? || e.UserClose? || e.UserControl? || e.TimerSend? || e.TimerClose?
    ensures TaleOk(Apply(s, e), Record(t, s, e))
  {
    hide Inv, TaleOk, Apply, Record;
    MainRecord(s, t, e);
    match e {
      case UserSend => UserSendTells(s, t);
      case UserClose => UserCloseTells(s, t);
      case UserControl => UserControlTells(s, t);
      case TimerSend => TimerSendTells(s, t);
      case TimerClose =>
        ClosingLife(s);
        if s.life.Terminated? { TimerCloseTerminatedTells(s, t); } else { TimerCloseDeletedTells(s, t); }
    }
  }

  lemma StepTells(s: Socket, t: Told, e: Step)
    requires Inv(s) && TaleOk(s, t) && Enabled(s, e)
    ensures TaleOk(Apply(s, e), Record(t, s, e))
  {
    hide Inv, TaleOk, Take, Work, Handle, Resume, Proceed, Record;
    match e {
      case IoTake(ok) => TakeTells(s, t, ok);
      case IoPoll(out, inp, err) => PollTells(s, t, out, inp, err);
      case IoWork(flag, end) => WorkTells(s, t, flag, end);
      case MainTake(flag) => HandleTells(s, t, flag);
      case MainNext(flag, bad) => ResumeTells(s, t, flag, bad);
      case CallWork(flag) => ProceedTells(s, t, flag);
      case _ => UserTells(s, t, e);
    }
  }

  lemma NewTells(s: Socket)
    requires s == Accepted() || s == Connected()
    ensures TaleOk(s, NOTHING_YET)
  {
  }
}
