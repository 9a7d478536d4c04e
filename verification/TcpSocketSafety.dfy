/** The life of a socket, over every interleaving of the two threads: one last event at most and nothing
    after it, callbacks in order, and no use after it has been given back. */
module TcpSocketSafety {
  import opened TcpSocket

  predicate Terminal(e: Evt) {
    !e.EvtEstablish? && !e.EvtData? && !e.EvtRecvActivate?
  }

  /** Whether an event can only follow an established connection. */
  predicate Later(e: Evt) {
    !e.EvtEstablish? && !e.EvtConnectFail? && !e.EvtAcceptFail?
  }

  predicate Over(events: seq<Evt>) {
    events != [] && Terminal(events[|events| - 1])
  }

  predicate Begun(events: seq<Evt>) {
    events != [] && events[0].EvtEstablish?
  }

  /** The events queued for one socket: a lone failure, or the establishment, then data and activations,
      then at most one last event. */
  ghost predicate EventOrder(events: seq<Evt>) {
    && (forall i :: 0 <= i < |events| - 1 ==> !Terminal(events[i]))
    && (forall i :: 0 < i < |events| ==> Later(events[i]))
    && (events != [] ==> events[0].EvtEstablish? || events[0].EvtConnectFail? || events[0].EvtAcceptFail?)
  }

  /** Requests that are acknowledged. */
  function Acked(reqs: seq<Req>): nat {
    if reqs == [] then 0 else (if reqs[0].ReqSend? || reqs[0].ReqClose? then 1 else 0) + Acked(reqs[1..])
  }

  function Endings(reqs: seq<Req>): nat {
    if reqs == [] then 0 else (if reqs[0].ReqTerminate? then 1 else 0) + Endings(reqs[1..])
  }

  lemma {:induction false} AckedPush(reqs: seq<Req>, r: Req)
    ensures Acked(reqs + [r]) == Acked(reqs) + if r.ReqSend? || r.ReqClose? then 1 else 0
    ensures Endings(reqs + [r]) == Endings(reqs) + if r.ReqTerminate? then 1 else 0
  {
    if reqs != [] {
      AckedPush(reqs[1..], r);
      assert (reqs + [r])[1..] == reqs[1..] + [r];
    }
  }

  lemma {:induction false} AckedLast(reqs: seq<Req>)
    requires reqs != [] && reqs[|reqs| - 1].ReqClose?
    ensures Acked(reqs) > 0
  {
    if |reqs| > 1 { AckedLast(reqs[1..]); }
  }

  /** The io thread is about to queue the last event. */
  predicate Ending(task: Task) {
    task.ToDelete? || (task.Emit? && Terminal(task.evt))
  }

  function Bit(b: bool): nat { if b then 1 else 0 }

  /** The right to queue the last event: it is taken exactly when the state leaves the established or
      early ones, and is with one thread, in one request, or used. */
  predicate OneEnding(life: Life, task: Task, reqs: seq<Req>, call: Call, pushed: seq<Evt>) {
    Bit(Over(pushed)) + Bit(Ending(task)) + Endings(reqs) + Bit(call.Push? && call.req.ReqTerminate?)
    == Bit(life.Terminated? || life.Deleted?)
  }

  predicate Early(life: Life) {
    life.Fresh? || life.Connecting?
  }

  predicate Failed(task: Task) {
    task == Emit(EvtConnectFail) || task == Emit(EvtAcceptFail)
  }

  /** Where the io thread can be while a connection is being made. */
  predicate Waiting(life: Life, task: Task) {
    task.Rest? || (life.Connecting? &&
      (task.Done? || task.PollOut? || task.PollErr? || task.ConnectDone? || task.ConnectBroken? ||
       task.CheckRecv? || task.CheckSend? || task.Shut?))
  }

  /** What the io thread may only be doing on a connection that is neither new nor over. */
  predicate Busy(task: Task) {
    task.Receiving? || task.CheckData? || task.EmitData? || task.ToDelete? || (task.Emit? && Later(task.evt))
  }

  /** Where the io thread can be, given how far the connection has come. */
  predicate IoOk(life: Life, task: Task, pushed: seq<Evt>) {
    && (Early(life) ==> pushed == [] && Waiting(life, task))
    && (task.ConnectDone? || task.ConnectBroken? ==> life.Connecting?)
    && (task.Emit? && !Later(task.evt) ==> pushed == [])
    && (task == Emit(EvtEstablish) ==> !life.Deleted?)
    && (life.Established? || life.Terminated? ==> Begun(pushed) || task == Emit(EvtEstablish))
    && (life.Deleted? ==> pushed != [] || Failed(task))
    && (Busy(task) ==> Begun(pushed) && !Over(pushed))
    && (task.Emit? ==> !task.evt.EvtData?)
  }

  /** A request to terminate is made of an established connection. */
  predicate EndingsOk(task: Task, reqs: seq<Req>, call: Call, pushed: seq<Evt>) {
    Endings(reqs) > 0 || (call.Push? && call.req.ReqTerminate?) ==> Begun(pushed) || task == Emit(EvtEstablish)
  }

  /** What can wait in the request queue. */
  ghost predicate ReqsOk(life: Life, task: Task, reqs: seq<Req>, polled: bool) {
    && (forall i :: 0 <= i < |reqs| && reqs[i].ReqAccept? ==> life.Fresh? && |reqs| == 1 && task.Rest?)
    && (forall i :: 0 <= i < |reqs| && reqs[i].ReqConnect? ==> life.Connecting? && |reqs| == 1 && task.Rest?)
    && (life.Fresh? ==> reqs == [ReqAccept] && !polled)
    && (life.Connecting? ==> reqs == [] || (reqs == [ReqConnect] && !polled))
    && (forall i :: 0 <= i < |reqs| && reqs[i].ReqClose? ==> i == |reqs| - 1)
  }

  predicate AcksOk(sendReq: nat, sendAck: nat, task: Task, reqs: seq<Req>) {
    sendReq - sendAck == Acked(reqs) + Bit(task.Ack?)
  }

  predicate Last(stage: Stage) {
    stage.InError? || stage.InTerminate? || stage.InConnectError? || stage.FinishLast?
  }

  /** The events the main thread has not seen, and the timers. */
  predicate StageOk(evts: seq<Evt>, pushed: seq<Evt>, timerSend: bool, timerClose: bool, freed: bool, handle: bool, stage: Stage) {
    && |evts| <= |pushed| && evts == pushed[|pushed| - |evts|..]
    && (timerClose ==> !freed && stage.Between? && evts == [] && Over(pushed))
    && (Last(stage) ==> evts == [] && Over(pushed))
    && (evts == [] && Over(pushed) && !Last(stage) ==> timerClose || freed)
    && (!stage.Between? ==> !timerClose && !freed && |evts| < |pushed|)
    && (stage.FinishLast? ==> !handle)
    && (timerSend || handle ==> !timerClose && !freed)
    && (freed ==> stage.Between? && evts == [] && Over(pushed))
  }

  /** An accepted socket is not known to the user before it is established. */
  predicate HandleOk(life: Life, task: Task, pushed: seq<Evt>, handle: bool) {
    life.Fresh? || task == Emit(EvtAcceptFail) || (pushed != [] && pushed[0].EvtAcceptFail?) ==> !handle
  }

  predicate CallOk(call: Call, life: Life, timerClose: bool, freed: bool, stage: Stage) {
    && (call.CloseTry? || call.Demote? ==> timerClose && life.Terminated?)
    && (call.CloseDelete? || call.CheckAck? || call == Push(ReqClose) ==> timerClose && life.Deleted?)
    && (call.SendPush? || call.Shutting? || call == Push(ReqRecvActivate) ==> !timerClose)
    && (call.Push? ==> !call.req.ReqAccept? && !call.req.ReqConnect?)
    && (Early(life) ==> call.NoCall? || call.Shutting?)
    && (freed ==> call.NoCall?)
  }

  predicate NoClose(reqs: seq<Req>) {
    forall i :: 0 <= i < |reqs| ==> !reqs[i].ReqClose?
  }

  /** The io thread is through with the socket, but for taking the record of its last request off the
      ring. */
  predicate Through(task: Task, after: After, polled: bool) {
    !polled && (task.Rest? || (task.Done? && after.NextReq?))
  }

  /** Once the close request has been queued it is the last one, and once it has been acknowledged the
      io thread is through with the socket. */
  ghost predicate CloseOk(
    needReqClose: bool, freed: bool, timerClose: bool, life: Life, polled: bool, task: Task, after: After,
    reqs: seq<Req>, call: Call)
  {
    && (task.Ack? ==> reqs == [] && !polled && after.NextReq?)
    && (freed ==> reqs == [] && !task.Ack?)
    && if needReqClose then
         !freed && !task.Ack? && call != Push(ReqClose) && !call.CheckAck? && NoClose(reqs)
       else
         && (timerClose || freed) && life.Deleted?
         && (call.NoCall? || call == Push(ReqClose) || call.CheckAck? || call.CloseDelete?)
         && if call == Push(ReqClose) then !task.Ack? && NoClose(reqs)
            else if reqs == [] then task.Ack? || Through(task, after, polled)
            else reqs[|reqs| - 1].ReqClose? && !task.Ack?
  }

  /** The callbacks made for one socket: the lone error of a failed connect, or establish, then any
      number of recv, then at most one error, then at most one terminate. */
  ghost predicate CallbackOrder(log: seq<Callback>) {
    && (forall i :: 0 <= i < |log| && log[i].OnConnectError? ==> |log| == 1)
    && (forall i :: 0 <= i < |log| && !log[i].OnConnectError? ==> (i == 0 <==> log[i].OnEstablish?))
    && (forall i :: 0 <= i < |log| && log[i].OnTerminate? ==> i == |log| - 1)
    && (forall i :: 0 <= i < |log| - 1 && log[i].OnError? ==> log[i + 1].OnTerminate?)
  }

  predicate Farewell(log: seq<Callback>) {
    exists i :: 0 <= i < |log| && (log[i].OnTerminate? || log[i].OnError? || log[i].OnConnectError?)
  }

  /** How far the callbacks are behind the events. */
  ghost predicate LogOk(log: seq<Callback>, evts: seq<Evt>, pushed: seq<Evt>, stage: Stage) {
    && CallbackOrder(log)
    && (|evts| == |pushed| ==> log == [])
    && (|evts| < |pushed| && pushed[0].EvtEstablish? ==> log != [] && log[0].OnEstablish?)
    && (|evts| < |pushed| && !pushed[0].EvtEstablish? ==> log == [] || log == [OnConnectError])
    && (Farewell(log) ==> evts == [] && Over(pushed) && !stage.InData?)
    && (stage.InError? ==> log != [] && log[|log| - 1].OnError?)
    && (stage.InData? ==> log != [] && log[0].OnEstablish? && !Farewell(log))
    && (log != [] && log[|log| - 1].OnError? ==> stage.InError?)
  }

  ghost predicate Inv(s: Socket) {
    && !s.crushed
    && EventOrder(s.pushed)
    && OneEnding(s.life, s.task, s.reqs, s.call, s.pushed)
    && IoOk(s.life, s.task, s.pushed)
    && EndingsOk(s.task, s.reqs, s.call, s.pushed)
    && ReqsOk(s.life, s.task, s.reqs, s.polled)
    && AcksOk(s.sendReq, s.sendAck, s.task, s.reqs)
    && StageOk(s.evts, s.pushed, s.timerSend, s.timerClose, s.freed, s.handle, s.stage)
    && HandleOk(s.life, s.task, s.pushed, s.handle)
    && CallOk(s.call, s.life, s.timerClose, s.freed, s.stage)
    && CloseOk(s.needReqClose, s.freed, s.timerClose, s.life, s.polled, s.task, s.after, s.reqs, s.call)
    && LogOk(s.log, s.evts, s.pushed, s.stage)
  }

  /** Queueing an event while the last one is still to come leaves the main thread's view in order. */
  lemma LogQueued(log: seq<Callback>, evts: seq<Evt>, pushed: seq<Evt>, stage: Stage, e: Evt)
    requires LogOk(log, evts, pushed, stage) && !Over(pushed) && |evts| <= |pushed|
    ensures LogOk(log, evts + [e], pushed + [e], stage)
  {
    hide CallbackOrder;
  }

  lemma StageQueued(evts: seq<Evt>, pushed: seq<Evt>, timerSend: bool, timerClose: bool, freed: bool, handle: bool, stage: Stage, e: Evt)
    requires StageOk(evts, pushed, timerSend, timerClose, freed, handle, stage) && !Over(pushed)
    ensures StageOk(evts + [e], pushed + [e], timerSend, timerClose, freed, handle, stage)
    ensures !timerClose && !freed && !Last(stage) && |evts| <= |pushed|
  {
    var k := |pushed| - |evts|;
    assert (pushed + [e])[k..] == pushed[k..] + [e];
  }

  lemma OrderQueued(pushed: seq<Evt>, e: Evt)
    requires EventOrder(pushed)
    requires if pushed == [] then !Later(e) else Later(e) && !Over(pushed)
    ensures EventOrder(pushed + [e])
    ensures Over(pushed + [e]) <==> Terminal(e)
    ensures Begun(pushed + [e]) <==> if pushed == [] then e.EvtEstablish? else Begun(pushed)
    ensures (pushed + [e])[0] == if pushed == [] then e else pushed[0]
  {
  }

  /** What queueing an event changes, while the right to queue the last one has not been used. */
  lemma Queues(s: Socket, e: Evt)
    requires Inv(s) && (if s.task.Emit? then e == s.task.evt else s.task.EmitData? && e.EvtData?)
    ensures EventOrder(s.pushed + [e])
    ensures StageOk(s.evts + [e], s.pushed + [e], s.timerSend, s.timerClose, s.freed, s.handle, s.stage)
    ensures LogOk(s.log, s.evts + [e], s.pushed + [e], s.stage)
    ensures Over(s.pushed + [e]) <==> Terminal(e)
    ensures Begun(s.pushed + [e]) <==> if s.pushed == [] then e.EvtEstablish? else Begun(s.pushed)
    ensures (s.pushed + [e])[0] == if s.pushed == [] then e else s.pushed[0]
    ensures !Over(s.pushed)
  {
    hide CallOk, OneEnding, EndingsOk, ReqsOk, AcksOk, HandleOk, CloseOk, EventOrder, LogOk, StageOk;
    OrderQueued(s.pushed, e);
    StageQueued(s.evts, s.pushed, s.timerSend, s.timerClose, s.freed, s.handle, s.stage, e);
    LogQueued(s.log, s.evts, s.pushed, s.stage, e);
  }

  /** The main thread begins or goes on with a call without touching anything shared. */
  lemma CallMoves(s: Socket, call: Call)
    requires Inv(s) && !s.call.Push? && !call.Push?
    requires CallOk(call, s.life, s.timerClose, s.freed, s.stage)
    requires CloseOk(s.needReqClose, s.freed, s.timerClose, s.life, s.polled, s.task, s.after, s.reqs, call)
    ensures Inv(s.(call := call))
  {
    hide EventOrder, IoOk, ReqsOk, AcksOk, StageOk, HandleOk, CallOk, CloseOk, LogOk;
  }

  // --- steps of the io thread: requests

  lemma TakeAccept(s: Socket, ok: bool)
    requires Inv(s) && s.task.Rest? && s.reqs != [] && s.reqs[0].ReqAccept?
    ensures Inv(Take(s, ok))
  {
    hide EventOrder, StageOk, LogOk;
  }

  lemma TakeConnect(s: Socket, ok: bool)
    requires Inv(s) && s.task.Rest? && s.reqs != [] && s.reqs[0].ReqConnect?
    ensures Inv(Take(s, ok))
  {
    hide EventOrder, StageOk, LogOk;
  }

  lemma TakeSend(s: Socket, ok: bool)
    requires Inv(s) && s.task.Rest? && s.reqs != [] && s.reqs[0].ReqSend?
    ensures Inv(Take(s, ok))
  {
    hide EventOrder, StageOk, LogOk, CallOk;
  }

  lemma TakeRecvActivate(s: Socket, ok: bool)
    requires Inv(s) && s.task.Rest? && s.reqs != [] && s.reqs[0].ReqRecvActivate?
    ensures Inv(Take(s, ok))
  {
    hide EventOrder, StageOk, LogOk, CallOk;
  }

  lemma TakeClose(s: Socket, ok: bool)
    requires Inv(s) && s.task.Rest? && s.reqs != [] && s.reqs[0].ReqClose?
    ensures Inv(Take(s, ok))
  {
    hide EventOrder, StageOk, LogOk, CallOk;
  }

  lemma TakeTerminateBroken(s: Socket, ok: bool)
    requires Inv(s) && s.task.Rest? && s.reqs != [] && s.reqs[0] == ReqTerminate(ErrSystem)
    ensures Inv(Take(s, ok))
  {
    hide EventOrder, LogOk;
  }

  lemma TakeTerminate(s: Socket, ok: bool)
    requires Inv(s) && s.task.Rest? && s.reqs != [] && s.reqs[0].ReqTerminate? && !s.reqs[0].error.ErrSystem?
    ensures Inv(Take(s, ok))
  {
    hide EventOrder, StageOk, LogOk;
  }

  // --- steps of the io thread: inside a handler

  lemma WorkEmitEstablish(s: Socket)
    requires Inv(s) && s.task.Emit? && s.task.evt.EvtEstablish?
    ensures Inv(Queue(s, s.task.evt).(task := Done))
  {
    hide CallOk, Acked, Endings, EventOrder, LogOk, StageOk;
    Queues(s, s.task.evt);
  }

  lemma WorkEmitActivate(s: Socket)
    requires Inv(s) && s.task.Emit? && s.task.evt.EvtRecvActivate?
    ensures Inv(Queue(s, s.task.evt).(task := Done))
  {
    hide CallOk, Acked, Endings, EventOrder, LogOk, StageOk;
    Queues(s, s.task.evt);
  }

  lemma WorkEmitFailure(s: Socket)
    requires Inv(s) && s.task.Emit? && Failed(s.task)
    ensures Inv(Queue(s, s.task.evt).(task := Done))
  {
    hide CallOk, Acked, Endings, EventOrder, LogOk, StageOk;
    Queues(s, s.task.evt);
  }

  lemma WorkEmitEnding(s: Socket)
    requires Inv(s) && s.task.Emit? && Later(s.task.evt) && Terminal(s.task.evt)
    ensures Inv(Queue(s, s.task.evt).(task := Done))
  {
    hide CallOk, Acked, Endings, EventOrder, LogOk, StageOk;
    Queues(s, s.task.evt);
  }

  lemma WorkQueueData(s: Socket)
    requires Inv(s) && s.task.EmitData?
    ensures Inv(Queue(s, EvtData))
  {
    hide CallOk, Acked, Endings, EventOrder, LogOk, StageOk;
    Queues(s, EvtData);
  }

  lemma WorkEndedAgain(s: Socket)
    requires Inv(s) && (s.task.Receiving? || s.task.CheckData? || s.task.EmitData?)
    ensures Inv(Ended(s, Again))
  {
    hide EventOrder, StageOk, LogOk, CallOk, Acked, Endings;
  }

  lemma WorkEndedBroken(s: Socket)
    requires Inv(s) && (s.task.Receiving? || s.task.CheckData? || s.task.EmitData?)
    ensures Inv(Ended(s, Broken))
  {
    hide EventOrder, StageOk, LogOk, CallOk, Acked, Endings;
  }

  lemma WorkEndedEof(s: Socket)
    requires Inv(s) && (s.task.Receiving? || s.task.CheckData? || s.task.EmitData?)
    ensures Inv(Ended(s, Eof))
  {
    hide EventOrder, StageOk, LogOk, CallOk, Acked, Endings;
  }

  lemma WorkEndedFull(s: Socket)
    requires Inv(s) && (s.task.Receiving? || s.task.CheckData? || s.task.EmitData?)
    ensures Inv(Ended(s, Full))
  {
    hide EventOrder, StageOk, LogOk, CallOk, Acked, Endings;
  }

  lemma WorkDoneNext(s: Socket, flag: bool, end: End)
    requires Inv(s) && s.task.Done? && s.after.NextReq?
    ensures Inv(Work(s, flag, end))
  {
    hide EventOrder, StageOk, LogOk, CallOk, Acked, Endings;
  }

  lemma WorkDoneIn(s: Socket, flag: bool, end: End)
    requires Inv(s) && s.task.Done? && s.after.ThenIn?
    ensures Inv(Work(s, flag, end))
  {
    hide EventOrder, StageOk, LogOk, CallOk, Acked, Endings;
  }

  lemma WorkDoneErr(s: Socket, flag: bool, end: End)
    requires Inv(s) && s.task.Done? && s.after.ThenErr?
    ensures Inv(Work(s, flag, end))
  {
    hide EventOrder, StageOk, LogOk, CallOk, Acked, Endings;
  }

  /** The io thread goes on to something that leaves the socket alone. */
  lemma WorkGoesOn(s: Socket, task: Task)
    requires Inv(s) && (s.task.Shut? || s.task.Sending?) && (task.Done? || (task.Shut? && !Early(s.life)))
    ensures Inv(s.(task := task))
  {
    hide EventOrder, StageOk, LogOk, CallOk, Acked, Endings, CallbackOrder;
  }

  lemma WorkShutFirst(s: Socket, flag: bool, end: End)
    requires Inv(s) && s.task.Shut? && s.life.Established?
    ensures Inv(Work(s, flag, end))
    ensures !Over(s.pushed) && !Ending(s.task) && Endings(s.reqs) == 0 && !(s.call.Push? && s.call.req.ReqTerminate?)
    ensures Ending(Work(s, flag, end).task)
    ensures Work(s, flag, end) == s.(life := Terminated, task := Work(s, flag, end).task)
  {
    hide EventOrder, StageOk, LogOk, Acked, Endings;
  }

  lemma WorkShutLate(s: Socket, flag: bool, end: End)
    requires Inv(s) && s.task.Shut? && !s.life.Established?
    ensures Inv(Work(s, flag, end))
  {
    WorkGoesOn(s, Done);
  }

  lemma WorkReceiving(s: Socket, end: End)
    requires Inv(s) && s.task.Receiving?
    ensures Inv(s.(task := CheckData(end)))
  {
    hide EventOrder, StageOk, LogOk, CallOk, Acked, Endings;
  }

  lemma WorkCheckData(s: Socket)
    requires Inv(s) && s.task.CheckData? && s.life.Established?
    ensures Inv(s.(task := EmitData(s.task.end)))
  {
    hide EventOrder, StageOk, LogOk, CallOk, Acked, Endings;
  }

  lemma WorkCheckSend(s: Socket, flag: bool, end: End)
    requires Inv(s) && s.task.CheckSend?
    ensures Inv(Work(s, flag, end))
  {
    hide EventOrder, StageOk, LogOk, CallOk, Acked, Endings;
  }

  lemma WorkSending(s: Socket, flag: bool, end: End)
    requires Inv(s) && s.task.Sending?
    ensures Inv(Work(s, flag, end))
  {
    WorkGoesOn(s, if flag then Shut(ErrSystem) else Done);
  }

  lemma WorkCheckRecv(s: Socket, flag: bool, end: End)
    requires Inv(s) && s.task.CheckRecv?
    ensures Inv(Work(s, flag, end))
  {
    hide EventOrder, StageOk, LogOk, CallOk, Acked, Endings;
  }

  lemma WorkToDelete(s: Socket, flag: bool, end: End)
    requires Inv(s) && s.task.ToDelete?
    ensures Inv(Work(s, flag, end))
  {
    hide EventOrder, LogOk, Acked, Endings;
  }

  lemma WorkAck(s: Socket, flag: bool, end: End)
    requires Inv(s) && s.task.Ack?
    ensures Inv(Work(s, flag, end))
  {
    hide EventOrder, StageOk, LogOk, CallOk;
  }

  lemma WorkPollOut(s: Socket, flag: bool, end: End)
    requires Inv(s) && s.task.PollOut?
    ensures Inv(Work(s, flag, end))
  {
    hide EventOrder, StageOk, LogOk, CallOk, Acked, Endings;
  }

  lemma WorkConnectDone(s: Socket, flag: bool, end: End)
    requires Inv(s) && s.task.ConnectDone?
    ensures Inv(Work(s, flag, end))
  {
    hide EventOrder, StageOk, LogOk, Acked, Endings;
  }

  lemma WorkPollErr(s: Socket, flag: bool, end: End)
    requires Inv(s) && s.task.PollErr?
    ensures Inv(Work(s, flag, end))
  {
    hide EventOrder, StageOk, LogOk, CallOk, Acked, Endings;
  }

  lemma WorkConnectBroken(s: Socket, flag: bool, end: End)
    requires Inv(s) && s.task.ConnectBroken?
    ensures Inv(Work(s, flag, end))
  {
    hide EventOrder, StageOk, LogOk, Acked, Endings;
  }

  lemma Polled(s: Socket, out: bool, inp: bool, err: bool)
    requires Inv(s) && Enabled(s, IoPoll(out, inp, err))
    ensures Inv(Apply(s, IoPoll(out, inp, err)))
  {
    hide EventOrder, StageOk, LogOk, CallOk, Acked, Endings;
  }

  // --- steps of the main thread: events

  lemma HandleRecvActivateLate(s: Socket, flag: bool)
    requires Inv(s) && s.call.NoCall? && s.stage.Between? && s.evts != [] && s.evts[0].EvtRecvActivate? && !s.life.Established?
    ensures Inv(Handle(s, flag))
  {
    hide IoOk, ReqsOk, AcksOk, Endings, Acked;
  }

  lemma HandleRecvActivateOpen(s: Socket)
    requires Inv(s) && s.call.NoCall? && s.stage.Between? && s.evts != [] && s.evts[0].EvtRecvActivate? && s.life.Established?
    ensures Inv(Handle(s, true))
  {
    hide IoOk, ReqsOk, AcksOk, Endings, Acked;
  }

  lemma HandleRecvActivateFull(s: Socket)
    requires Inv(s) && s.call.NoCall? && s.stage.Between? && s.evts != [] && s.evts[0].EvtRecvActivate? && s.life.Established?
    ensures Inv(Handle(s, false))
  {
    hide IoOk, ReqsOk, AcksOk, Endings, Acked;
  }

  lemma HandleEstablish(s: Socket, flag: bool)
    requires Inv(s) && s.call.NoCall? && s.stage.Between? && s.evts != [] && s.evts[0].EvtEstablish?
    ensures Inv(Handle(s, flag))
  {
    hide ReqsOk, AcksOk, Endings, Acked, OneEnding, EndingsOk;
  }

  lemma HandleData(s: Socket, flag: bool)
    requires Inv(s) && s.call.NoCall? && s.stage.Between? && s.evts != [] && s.evts[0].EvtData?
    ensures Inv(Handle(s, flag))
  {
    hide IoOk, ReqsOk, AcksOk, CloseOk, Endings, Acked, OneEnding, EndingsOk;
  }

  /** The last event is the last one there is. */
  lemma LastTaken(evts: seq<Evt>, pushed: seq<Evt>, timerSend: bool, timerClose: bool, freed: bool, handle: bool,
                  stage: Stage)
    requires StageOk(evts, pushed, timerSend, timerClose, freed, handle, Between) && EventOrder(pushed)
    requires evts != [] && Terminal(evts[0]) && Last(stage) && !stage.FinishLast?
    ensures evts == [pushed[|pushed| - 1]] && Over(pushed)
    ensures StageOk(evts[1..], pushed, timerSend, timerClose, freed, handle, stage)
  {
    hide Terminal;
    assert evts[0] == pushed[|pushed| - |evts|];
  }

  lemma LastLogged(log: seq<Callback>, evts: seq<Evt>, pushed: seq<Evt>, e: Callback, stage: Stage)
    requires LogOk(log, evts, pushed, Between) && Over(pushed) && evts == [pushed[|pushed| - 1]]
    requires EventOrder(pushed)
    requires (evts[0].EvtTerminate? && e.OnTerminate? && stage.InTerminate?) ||
             (evts[0].EvtConnectFail? && e.OnConnectError? && stage.InConnectError?) ||
             ((evts[0].EvtModuleError? || evts[0].EvtSystemError?) && e.OnError? && stage.InError?)
    ensures LogOk(log + [e], evts[1..], pushed, stage)
  {
    assert !Farewell(log);
    if log != [] { assert (log + [e])[0] == log[0]; }
    assert (log + [e])[|log|] == e;
  }

  lemma HandleModuleError(s: Socket, flag: bool)
    requires Inv(s) && s.call.NoCall? && s.stage.Between? && s.evts != [] && s.evts[0].EvtModuleError?
    ensures Inv(Handle(s, flag))
  {
    hide IoOk, ReqsOk, AcksOk, CloseOk, Endings, Acked, OneEnding, EndingsOk, StageOk, LogOk, EventOrder;
    LastTaken(s.evts, s.pushed, s.timerSend, s.timerClose, s.freed, s.handle, InError);
    LastLogged(s.log, s.evts, s.pushed, OnError, InError);
  }

  lemma HandleSystemError(s: Socket, flag: bool)
    requires Inv(s) && s.call.NoCall? && s.stage.Between? && s.evts != [] && s.evts[0].EvtSystemError?
    ensures Inv(Handle(s, flag))
  {
    hide IoOk, ReqsOk, AcksOk, CloseOk, Endings, Acked, OneEnding, EndingsOk, StageOk, LogOk, EventOrder;
    LastTaken(s.evts, s.pushed, s.timerSend, s.timerClose, s.freed, s.handle, InError);
    LastLogged(s.log, s.evts, s.pushed, OnError, InError);
  }

  lemma HandleTerminate(s: Socket, flag: bool)
    requires Inv(s) && s.call.NoCall? && s.stage.Between? && s.evts != [] && s.evts[0].EvtTerminate?
    ensures Inv(Handle(s, flag))
  {
    hide IoOk, ReqsOk, AcksOk, CloseOk, Endings, Acked, OneEnding, EndingsOk, StageOk, LogOk, EventOrder;
    LastTaken(s.evts, s.pushed, s.timerSend, s.timerClose, s.freed, s.handle, InTerminate);
    LastLogged(s.log, s.evts, s.pushed, OnTerminate, InTerminate);
  }

  lemma HandleConnectFail(s: Socket, flag: bool)
    requires Inv(s) && s.call.NoCall? && s.stage.Between? && s.evts != [] && s.evts[0].EvtConnectFail?
    ensures Inv(Handle(s, flag))
  {
    hide IoOk, ReqsOk, AcksOk, CloseOk, Endings, Acked, OneEnding, EndingsOk, StageOk, LogOk, EventOrder;
    LastTaken(s.evts, s.pushed, s.timerSend, s.timerClose, s.freed, s.handle, InConnectError);
    LastLogged(s.log, s.evts, s.pushed, OnConnectError, InConnectError);
  }

  lemma HandleAcceptFail(s: Socket, flag: bool)
    requires Inv(s) && s.call.NoCall? && s.stage.Between? && s.evts != [] && s.evts[0].EvtAcceptFail?
    ensures Inv(Handle(s, flag))
  {
    hide IoOk, ReqsOk, AcksOk, CloseOk, Endings, Acked, OneEnding, EndingsOk;
  }

  lemma ResumeInEstablish(s: Socket, flag: bool, bad: bool)
    requires Inv(s) && s.call.NoCall? && s.stage.InEstablish?
    ensures Inv(Resume(s, flag, bad))
  {
    hide IoOk, ReqsOk, AcksOk, CloseOk, Endings, Acked, OneEnding, EndingsOk;
  }

  lemma ResumeInData(s: Socket, flag: bool, bad: bool)
    requires Inv(s) && s.call.NoCall? && s.stage.InData?
    ensures Inv(Resume(s, flag, bad))
  {
    hide IoOk, ReqsOk, AcksOk, Endings, Acked;
  }

  lemma ResumeInError(s: Socket, flag: bool, bad: bool)
    requires Inv(s) && s.call.NoCall? && s.stage.InError?
    ensures Inv(Resume(s, flag, bad))
  {
    hide IoOk, ReqsOk, AcksOk, CloseOk, Endings, Acked, OneEnding, EndingsOk;
  }

  lemma ResumeInTerminate(s: Socket, flag: bool, bad: bool)
    requires Inv(s) && s.call.NoCall? && s.stage.InTerminate?
    ensures Inv(Resume(s, flag, bad))
  {
    hide IoOk, ReqsOk, AcksOk, CloseOk, Endings, Acked, OneEnding, EndingsOk;
  }

  lemma ResumeInConnectError(s: Socket, flag: bool, bad: bool)
    requires Inv(s) && s.call.NoCall? && s.stage.InConnectError?
    ensures Inv(Resume(s, flag, bad))
  {
    hide IoOk, ReqsOk, AcksOk, CloseOk, Endings, Acked, OneEnding, EndingsOk;
  }

  lemma LogBetween(log: seq<Callback>, evts: seq<Evt>, pushed: seq<Evt>)
    requires LogOk(log, evts, pushed, Finish)
    ensures LogOk(log, evts, pushed, Between)
  {
    hide CallbackOrder, Farewell, Over;
  }

  lemma ResumeFinish(s: Socket, flag: bool, bad: bool)
    requires Inv(s) && s.call.NoCall? && s.stage.Finish?
    ensures Inv(Resume(s, flag, bad))
  {
    hide IoOk, ReqsOk, AcksOk, CloseOk, Endings, Acked, OneEnding, EndingsOk, EventOrder, LogOk;
    LogBetween(s.log, s.evts, s.pushed);
  }

  lemma ResumeFinishLast(s: Socket, flag: bool, bad: bool)
    requires Inv(s) && s.call.NoCall? && s.stage.FinishLast?
    ensures Inv(Resume(s, flag, bad))
  {
    hide IoOk, ReqsOk, AcksOk, Endings, Acked, OneEnding, EndingsOk;
  }

  // --- steps of the main thread: calls and timers

  lemma ProceedShuttingFirst(s: Socket, flag: bool)
    requires Inv(s) && s.call.Shutting? && s.life.Established?
    ensures Inv(Proceed(s, flag))
  {
    hide EventOrder, LogOk, Acked, Endings, StageOk;
  }

  lemma ProceedShuttingLate(s: Socket, flag: bool)
    requires Inv(s) && s.call.Shutting? && !s.life.Established?
    ensures Inv(Proceed(s, flag))
  {
    hide EventOrder, LogOk, Acked, Endings, StageOk, IoOk;
  }

  lemma ProceedCloseTryAgain(s: Socket)
    requires Inv(s) && s.call.CloseTry?
    ensures Inv(s.(tries := s.tries + 1, call := SendTest))
  {
    hide EventOrder, LogOk, Acked, Endings, StageOk, IoOk, HandleOk, ReqsOk, AcksOk;
  }

  lemma ProceedCloseTryDemote(s: Socket, tries: nat)
    requires Inv(s) && s.call.CloseTry?
    ensures Inv(s.(tries := tries, call := Demote))
  {
    hide EventOrder, LogOk, Acked, Endings, StageOk, IoOk, HandleOk, ReqsOk, AcksOk;
  }

  lemma ProceedSendPush(s: Socket, flag: bool)
    requires Inv(s) && s.call.SendPush?
    ensures Inv(Proceed(s, flag))
  {
    hide EventOrder, LogOk, Acked, Endings, StageOk, IoOk;
  }

  lemma ProceedSendTest(s: Socket, flag: bool)
    requires Inv(s) && s.call.SendTest?
    ensures Inv(Proceed(s, flag))
  {
    hide EventOrder, LogOk, Acked, Endings, StageOk, IoOk;
  }

  lemma ProceedPush(s: Socket, flag: bool)
    requires Inv(s) && s.call.Push?
    ensures Inv(Proceed(s, flag))
  {
    hide EventOrder, LogOk, StageOk, IoOk;
    AckedPush(s.reqs, s.call.req);
  }

  lemma ProceedDemote(s: Socket, flag: bool)
    requires Inv(s) && s.call.Demote?
    ensures Inv(Proceed(s, flag))
  {
    hide EventOrder, LogOk, Acked, Endings;
  }

  lemma ProceedCloseDelete(s: Socket, flag: bool)
    requires Inv(s) && s.call.CloseDelete?
    ensures Inv(Proceed(s, flag))
  {
    hide EventOrder, LogOk, Acked, Endings, StageOk, IoOk;
  }

  lemma ProceedCheckAck(s: Socket, flag: bool)
    requires Inv(s) && s.call.CheckAck?
    ensures Inv(Proceed(s, flag))
    ensures Proceed(s, flag).freed <==> s.sendReq == s.sendAck
    ensures s.sendReq == s.sendAck ==> s.reqs == [] && Through(s.task, s.after, s.polled)
  {
    hide EventOrder, LogOk, IoOk;
    if s.reqs != [] { AckedLast(s.reqs); }
  }

  lemma OnUserSend(s: Socket)
    requires Inv(s) && Enabled(s, UserSend) && s.life.Established?
    ensures Inv(s.(call := SendPush))
  {
    hide EventOrder, IoOk, OneEnding, EndingsOk, ReqsOk, AcksOk, HandleOk, LogOk;
    CallMoves(s, SendPush);
  }

  lemma OnUserClose(s: Socket)
    requires Inv(s) && Enabled(s, UserClose)
    ensures Inv(s.(call := Shutting(ErrOk)))
  {
    hide EventOrder, IoOk, OneEnding, EndingsOk, ReqsOk, AcksOk, HandleOk, LogOk;
    CallMoves(s, Shutting(ErrOk));
  }

  lemma OnUserControl(s: Socket)
    requires Inv(s) && Enabled(s, UserControl)
    ensures Inv(s.(timerSend := true))
  {
    hide EventOrder, LogOk, Acked, Endings, IoOk;
  }

  lemma OnTimerSend(s: Socket)
    requires Inv(s) && Enabled(s, TimerSend) && s.life.Established?
    ensures Inv(s.(call := SendTest))
  {
    hide EventOrder, IoOk, OneEnding, EndingsOk, ReqsOk, AcksOk, HandleOk, LogOk;
    CallMoves(s, SendTest);
  }

  lemma OnTimerCloseTerminated(s: Socket)
    requires Inv(s) && Enabled(s, TimerClose) && s.life.Terminated?
    ensures Inv(s.(call := CloseTry))
  {
    hide EventOrder, IoOk, OneEnding, EndingsOk, ReqsOk, AcksOk, HandleOk, LogOk;
    CallMoves(s, CloseTry);
  }

  lemma OnTimerCloseDeleted(s: Socket)
    requires Inv(s) && Enabled(s, TimerClose) && s.life.Deleted?
    ensures Inv(s.(call := CloseDelete))
  {
    hide EventOrder, IoOk, OneEnding, EndingsOk, ReqsOk, AcksOk, HandleOk, LogOk;
    CallMoves(s, CloseDelete);
  }

  // --- every step

  lemma TakeKeeps(s: Socket, ok: bool)
    requires Inv(s) && s.task.Rest? && s.reqs != []
    ensures Inv(Take(s, ok))
  {
    hide Inv;
    match s.reqs[0] {
      case ReqAccept => TakeAccept(s, ok);
      case ReqConnect => TakeConnect(s, ok);
      case ReqSend => TakeSend(s, ok);
      case ReqRecvActivate => TakeRecvActivate(s, ok);
      case ReqTerminate(error) => if error.ErrSystem? { TakeTerminateBroken(s, ok); } else { TakeTerminate(s, ok); }
      case ReqClose => TakeClose(s, ok);
    }
  }

  lemma EndedKeeps(s: Socket, end: End)
    requires Inv(s) && (s.task.Receiving? || s.task.CheckData? || s.task.EmitData?)
    ensures Inv(Ended(s, end))
  {
    hide Inv;
    match end {
      case Again => WorkEndedAgain(s);
      case Broken => WorkEndedBroken(s);
      case Eof => WorkEndedEof(s);
      case Full => WorkEndedFull(s);
    }
  }

  lemma EmitKeeps(s: Socket)
    requires Inv(s) && s.task.Emit?
    ensures Inv(Queue(s, s.task.evt).(task := Done))
  {
    EmitKinds(s);
    hide Inv;
    if s.task.evt.EvtEstablish? { WorkEmitEstablish(s); }
    else if s.task.evt.EvtRecvActivate? { WorkEmitActivate(s); }
    else if Failed(s.task) { WorkEmitFailure(s); }
    else { WorkEmitEnding(s); }
  }

  lemma EmitKinds(s: Socket)
    requires Inv(s) && s.task.Emit?
    ensures !s.task.evt.EvtData?
  {
  }

  lemma DoneKeeps(s: Socket, flag: bool, end: End)
    requires Inv(s) && s.task.Done?
    ensures Inv(Work(s, flag, end))
  {
    hide Inv, Work;
    match s.after {
      case NextReq => WorkDoneNext(s, flag, end);
      case ThenIn(_, _) => WorkDoneIn(s, flag, end);
      case ThenErr(_) => WorkDoneErr(s, flag, end);
    }
  }

  lemma TransferKeeps(s: Socket, flag: bool, end: End)
    requires Inv(s) && !s.task.Rest?
    requires s.task.CheckSend? || s.task.Sending? || s.task.CheckRecv? || s.task.Receiving? || s.task.CheckData? || s.task.EmitData?
    ensures Inv(Work(s, flag, end))
  {
    hide Inv, Ended;
    match s.task {
      case CheckSend => WorkCheckSend(s, flag, end);
      case Sending => WorkSending(s, flag, end);
      case CheckRecv => WorkCheckRecv(s, flag, end);
      case Receiving => if flag { WorkReceiving(s, end); } else { EndedKeeps(s, end); }
      case CheckData(e) => if s.life.Established? { WorkCheckData(s); } else { EndedKeeps(s, e); }
      case EmitData(e) =>
        WorkQueueData(s);
        EndedKeeps(Queue(s, EvtData), e);
    }
  }

  lemma WorkKeeps(s: Socket, flag: bool, end: End)
    requires Inv(s) && !s.task.Rest?
    ensures Inv(Work(s, flag, end))
  {
    hide Inv, Ended;
    match s.task {
      case Emit(_) => EmitKeeps(s);
      case Shut(_) => if s.life.Established? { WorkShutFirst(s, flag, end); } else { WorkShutLate(s, flag, end); }
      case ToDelete => WorkToDelete(s, flag, end);
      case Ack => WorkAck(s, flag, end);
      case PollOut => WorkPollOut(s, flag, end);
      case ConnectDone => WorkConnectDone(s, flag, end);
      case PollErr => WorkPollErr(s, flag, end);
      case ConnectBroken => WorkConnectBroken(s, flag, end);
      case Done => DoneKeeps(s, flag, end);
      case _ => TransferKeeps(s, flag, end);
    }
  }

  lemma HandleKeeps(s: Socket, flag: bool)
    requires Inv(s) && s.call.NoCall? && s.stage.Between? && s.evts != []
    ensures Inv(Handle(s, flag))
  {
    hide Inv;
    match s.evts[0] {
      case EvtEstablish => HandleEstablish(s, flag);
      case EvtData => HandleData(s, flag);
      case EvtRecvActivate =>
        if !s.life.Established? { HandleRecvActivateLate(s, flag); }
        else if flag { HandleRecvActivateOpen(s); }
        else { HandleRecvActivateFull(s); }
      case EvtModuleError(_) => HandleModuleError(s, flag);
      case EvtSystemError => HandleSystemError(s, flag);
      case EvtTerminate => HandleTerminate(s, flag);
      case EvtConnectFail => HandleConnectFail(s, flag);
      case EvtAcceptFail => HandleAcceptFail(s, flag);
    }
  }

  lemma ResumeKeeps(s: Socket, flag: bool, bad: bool)
    requires Inv(s) && s.call.NoCall? && !s.stage.Between?
    ensures Inv(Resume(s, flag, bad))
  {
    hide Inv;
    match s.stage {
      case InEstablish => ResumeInEstablish(s, flag, bad);
      case InData => ResumeInData(s, flag, bad);
      case InError => ResumeInError(s, flag, bad);
      case InTerminate => ResumeInTerminate(s, flag, bad);
      case InConnectError => ResumeInConnectError(s, flag, bad);
      case Finish => ResumeFinish(s, flag, bad);
      case FinishLast => ResumeFinishLast(s, flag, bad);
    }
  }

  lemma ProceedKeeps(s: Socket, flag: bool)
    requires Inv(s) && !s.call.NoCall?
    ensures Inv(Proceed(s, flag))
  {
    hide Inv;
    match s.call {
      case SendPush => ProceedSendPush(s, flag);
      case SendTest => ProceedSendTest(s, flag);
      case Push(_) => ProceedPush(s, flag);
      case Shutting(_) => if s.life.Established? { ProceedShuttingFirst(s, flag); } else { ProceedShuttingLate(s, flag); }
      case CloseTry =>
        if s.tries >= MAX_TRY_CLOSE_SEND { ProceedCloseTryDemote(s, s.tries); }
        else if flag { ProceedCloseTryAgain(s); }
        else { ProceedCloseTryDemote(s, s.tries + 1); }
      case Demote => ProceedDemote(s, flag);
      case CloseDelete => ProceedCloseDelete(s, flag);
      case CheckAck => ProceedCheckAck(s, flag);
    }
  }

  /** The states the close timer can find the socket in. */
  lemma ClosingLife(s: Socket)
    requires Inv(s) && s.timerClose
    ensures s.life.Terminated? || s.life.Deleted?
  {
    hide EventOrder, IoOk, EndingsOk, ReqsOk, AcksOk, HandleOk, CallOk, CloseOk, LogOk;
  }

  /** Every step of either thread keeps the invariant. */
  lemma StepKeeps(s: Socket, e: Step)
    requires Inv(s) && Enabled(s, e)
    ensures Inv(Apply(s, e))
  {
    hide Inv, Take, Work, Handle, Resume, Proceed;
    match e {
      case IoTake(ok) => TakeKeeps(s, ok);
      case IoPoll(out, inp, err) => Polled(s, out, inp, err);
      case IoWork(flag, end) => WorkKeeps(s, flag, end);
      case MainTake(flag) => HandleKeeps(s, flag);
      case MainNext(flag, bad) => ResumeKeeps(s, flag, bad);
      case CallWork(flag) => ProceedKeeps(s, flag);
      case UserSend => if s.life.Established? { OnUserSend(s); }
      case UserClose => OnUserClose(s);
      case UserControl => OnUserControl(s);
      case TimerSend => if s.life.Established? { OnTimerSend(s); }
      case TimerClose =>
        ClosingLife(s);
        if s.life.Terminated? { OnTimerCloseTerminated(s); } else { OnTimerCloseDeleted(s); }
    }
  }

  // --- every run

  /** A run of a socket that was accepted or is connecting: the states that steps of the two threads, in
      any order, lead through. */
  ghost predicate IsRun(states: seq<Socket>, steps: seq<Step>) {
    && |states| == |steps| + 1
    && (states[0] == Accepted() || states[0] == Connected())
    && forall i :: 0 <= i < |steps| ==> Enabled(states[i], steps[i]) && states[i + 1] == Apply(states[i], steps[i])
  }

  lemma NewCounts(s: Socket)
    requires s == Accepted() || s == Connected()
    ensures OneEnding(s.life, s.task, s.reqs, s.call, s.pushed)
    ensures EndingsOk(s.task, s.reqs, s.call, s.pushed)
    ensures AcksOk(s.sendReq, s.sendAck, s.task, s.reqs)
  {
    hide Acked, Endings;
    NoCounts(ReqAccept);
    NoCounts(ReqConnect);
  }

  lemma NewIo(s: Socket)
    requires s == Accepted() || s == Connected()
    ensures EventOrder(s.pushed)
    ensures IoOk(s.life, s.task, s.pushed)
    ensures ReqsOk(s.life, s.task, s.reqs, s.polled)
    ensures CloseOk(s.needReqClose, s.freed, s.timerClose, s.life, s.polled, s.task, s.after, s.reqs, s.call)
  {
  }

  lemma NewMain(s: Socket)
    requires s == Accepted() || s == Connected()
    ensures StageOk(s.evts, s.pushed, s.timerSend, s.timerClose, s.freed, s.handle, s.stage)
    ensures HandleOk(s.life, s.task, s.pushed, s.handle)
    ensures CallOk(s.call, s.life, s.timerClose, s.freed, s.stage)
    ensures LogOk(s.log, s.evts, s.pushed, s.stage)
  {
    hide CallbackOrder;
    NoCalls();
  }

  lemma NewKeeps(s: Socket)
    requires s == Accepted() || s == Connected()
    ensures Inv(s)
  {
    hide OneEnding, EndingsOk, AcksOk, EventOrder, IoOk, ReqsOk, CloseOk, StageOk, HandleOk, CallOk, LogOk;
    NewCounts(s);
    NewIo(s);
    NewMain(s);
  }

  lemma NoCalls()
    ensures CallbackOrder([])
  {
  }

  lemma NoCounts(r: Req)
    requires r.ReqAccept? || r.ReqConnect?
    ensures Acked([r]) == 0 && Endings([r]) == 0
  {
  }

  lemma {:induction false} RunKeeps(states: seq<Socket>, steps: seq<Step>, i: nat)
    requires IsRun(states, steps) && i < |states|
    ensures Inv(states[i])
  {
    hide Inv, Apply;
    if i == 0 {
      NewKeeps(states[0]);
    } else {
      RunKeeps(states, steps, i - 1);
      StepKeeps(states[i - 1], steps[i - 1]);
    }
  }

  /** At most one last event is ever queued for a socket and nothing after it; before it come the
      establishment, once and first, and then only data and activations. */
  lemma EventsInOrder(states: seq<Socket>, steps: seq<Step>, i: nat)
    requires IsRun(states, steps) && i < |states|
    ensures EventOrder(states[i].pushed)
    ensures Over(states[i].pushed) ==> states[i].life.Terminated? || states[i].life.Deleted?
  {
    RunKeeps(states, steps, i);
    hide IoOk, EndingsOk, ReqsOk, AcksOk, StageOk, HandleOk, CallOk, CloseOk, LogOk;
  }

  /** The user sees establish, then recv any number of times, then at most one error, then at most one
      terminate; or nothing but the error of a connection that could not be made. */
  lemma CallbacksInOrder(states: seq<Socket>, steps: seq<Step>, i: nat)
    requires IsRun(states, steps) && i < |states|
    ensures CallbackOrder(states[i].log)
  {
    RunKeeps(states, steps, i);
    hide IoOk, EndingsOk, ReqsOk, AcksOk, StageOk, HandleOk, CallOk, CloseOk, EventOrder, OneEnding;
  }

  /** The close timer never meets a state it does not know. */
  lemma NeverCrushed(states: seq<Socket>, steps: seq<Step>, i: nat)
    requires IsRun(states, steps) && i < |states|
    ensures !states[i].crushed
  {
    RunKeeps(states, steps, i);
    hide IoOk, EndingsOk, ReqsOk, AcksOk, StageOk, HandleOk, CallOk, CloseOk, EventOrder, OneEnding, LogOk;
  }

  /** When the close timer gives the socket back, no request and no event for it is waiting, its last
      event has been handled, epoll and the timers do not know it, the user does not hold it, and all the
      io thread may still do is go back to its loop. */
  lemma FreedMeansUnreferenced(states: seq<Socket>, steps: seq<Step>, i: nat)
    requires IsRun(states, steps) && i < |states| && states[i].freed
    ensures states[i].reqs == [] && states[i].evts == [] && Over(states[i].pushed)
    ensures Through(states[i].task, states[i].after, states[i].polled)
    ensures !states[i].timerSend && !states[i].timerClose && !states[i].handle
    ensures states[i].call.NoCall? && states[i].stage.Between?
    ensures i < |steps| ==>
      states[i].task.Done? && states[i + 1] == states[i].(task := Rest)
  {
    RunKeeps(states, steps, i);
    hide IoOk, EndingsOk, ReqsOk, AcksOk, HandleOk, EventOrder, OneEnding, LogOk;
    if i < |steps| { assert Enabled(states[i], steps[i]) && states[i + 1] == Apply(states[i], steps[i]); }
  }

  /** The handshake: what main has asked for and not seen acknowledged is what is still queued, and the
      close request is queued once, last. */
  lemma AcksOutstanding(states: seq<Socket>, steps: seq<Step>, i: nat)
    requires IsRun(states, steps) && i < |states|
    ensures states[i].sendReq - states[i].sendAck == Acked(states[i].reqs) + Bit(states[i].task.Ack?)
    ensures forall j :: 0 <= j < |states[i].reqs| && states[i].reqs[j].ReqClose? ==> j == |states[i].reqs| - 1
  {
    RunKeeps(states, steps, i);
    hide IoOk, EndingsOk, StageOk, HandleOk, CallOk, CloseOk, EventOrder, OneEnding, LogOk;
  }
}
