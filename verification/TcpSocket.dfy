/** One plain TCP socket of src/epoll_tcp.c, from its allocation to the moment it is given back to the
    pool, as a state machine over the steps of the thread that owns the sockets ("main") and the io
    thread its events come from.  One step is one access to something both threads can reach: the
    socket's state, its counters, or one of the two queues.  What send, recv, accept, connect, the
    rings' free space and the packet parser say is a free choice. */
module TcpSocket {

  const MAX_TRY_CLOSE_SEND: nat := 4

  /** `sock_ptr->state`. */
  datatype Life = Fresh | Connecting | Established | Terminated | Deleted

  datatype Error = ErrOk | ErrSystem | ErrSendOverflow | ErrRecvOverflow | ErrPacket

  datatype Req = ReqAccept | ReqConnect | ReqSend | ReqRecvActivate | ReqTerminate(error: Error) | ReqClose

  datatype Evt =
    | EvtEstablish | EvtData | EvtRecvActivate
    | EvtModuleError(error: Error) | EvtSystemError | EvtTerminate | EvtConnectFail | EvtAcceptFail

  datatype Callback = OnEstablish | OnRecv | OnError | OnConnectError | OnTerminate

  /** How a receive loop ends. */
  datatype End = Again | Broken | Eof | Full

  /** What the io thread is about to do with the socket. */
  datatype Task =
    | Rest                     // nothing; it is not in a handler of this socket
    | Done                     // back in its loop
    | Emit(evt: Evt)
    | CheckSend | Sending
    | CheckRecv | Receiving | CheckData(end: End) | EmitData(end: End)
    | Shut(error: Error)       // the compare-and-swap of _epoll_tcp_socket_close
    | ToDelete
    | Ack
    | PollOut | ConnectDone | PollErr | ConnectBroken

  /** What follows the handler: the next request, or the other parts of an epoll event. */
  datatype After = NextReq | ThenIn(inp: bool, err: bool) | ThenErr(err: bool)

  /** What the main thread is about to do inside a call. */
  datatype Call =
    | NoCall
    | SendPush | SendTest | Push(req: Req)
    | Shutting(error: Error)
    | CloseTry | Demote | CloseDelete | CheckAck

  /** Which event the main thread is handling, and how far. */
  datatype Stage = Between | InEstablish | InData | InError | InTerminate | InConnectError | Finish | FinishLast

  datatype Socket = Socket(
    life: Life, sendReq: nat, sendAck: nat, needReqClose: bool, needRecvActive: bool, tries: nat,
    timerSend: bool, timerClose: bool,
    polled: bool,            // registered with epoll
    freed: bool, crushed: bool,
    reqs: seq<Req>,          // the socket's requests the io thread has not taken up
    evts: seq<Evt>,          // the socket's events the main thread has not taken up
    task: Task, after: After, call: Call, stage: Stage,
    handle: bool,            // whether the user may still use the socket
    pushed: seq<Evt>,        // every event ever queued for it
    log: seq<Callback>)      // every callback made for it

  datatype Step =
    | IoTake(ok: bool)
    | IoPoll(out: bool, inp: bool, err: bool)
    | IoWork(flag: bool, end: End)
    | MainTake(flag: bool)
    | MainNext(flag: bool, bad: bool)
    | CallWork(flag: bool)
    | UserSend | UserClose | UserControl
    | TimerSend | TimerClose

  function Accepted(): Socket {
    Socket(Fresh, 0, 0, true, false, 0, false, false, false, false, false, [ReqAccept], [],
           Rest, NextReq, NoCall, Between, false, [], [])
  }

  function Connected(): Socket {
    Socket(Connecting, 0, 0, true, false, 0, false, false, false, false, false, [ReqConnect], [],
           Rest, NextReq, NoCall, Between, true, [], [])
  }

  predicate InCallback(stage: Stage) {
    stage != Finish && stage != FinishLast
  }

  predicate Enabled(s: Socket, e: Step) {
    match e
    case IoTake(_) => s.task.Rest? && s.reqs != []
    case IoPoll(_, _, _) => s.task.Rest? && s.polled
    case IoWork(_, _) => !s.task.Rest?
    case MainTake(_) => s.call.NoCall? && s.stage.Between? && s.evts != []
    case MainNext(_, _) => s.call.NoCall? && !s.stage.Between?
    case CallWork(_) => !s.call.NoCall?
    case UserSend => s.call.NoCall? && s.handle && InCallback(s.stage)
    case UserClose => s.call.NoCall? && s.handle && InCallback(s.stage)
    case UserControl => s.call.NoCall? && s.handle && InCallback(s.stage)
    case TimerSend => s.call.NoCall? && s.stage.Between? && s.timerSend
    case TimerClose => s.call.NoCall? && s.stage.Between? && s.timerClose
  }

  /** The event of _epoll_tcp_socket_on_terminate. */
  function TerminalEvt(error: Error): Evt {
    match error
    case ErrOk => EvtTerminate
    case ErrSystem => EvtSystemError
    case _ => EvtModuleError(error)
  }

  function Queue(s: Socket, evt: Evt): Socket {
    s.(evts := s.evts + [evt], pushed := s.pushed + [evt])
  }

  /** _do_net_req takes up the next request. */
  function Take(s: Socket, ok: bool): Socket
    requires s.reqs != []
  {
    var u := s.(reqs := s.reqs[1..], after := NextReq);
    match s.reqs[0]
    case ReqAccept =>
      if ok then u.(life := Established, polled := true, task := Emit(EvtEstablish))
      else u.(life := Deleted, task := Emit(EvtAcceptFail))
    case ReqConnect =>
      if ok then u.(polled := true, task := Done) else u.(life := Deleted, task := Emit(EvtConnectFail))
    case ReqSend => u.(sendAck := s.sendAck + 1, task := CheckSend)
    case ReqRecvActivate => u.(needRecvActive := false, task := CheckRecv)
    case ReqTerminate(error) =>
      if error.ErrSystem? then u.(life := Deleted, task := Emit(EvtSystemError))
      else u.(task := Emit(TerminalEvt(error)))
    case ReqClose => u.(polled := false, task := Ack)
  }

  /** How a receive loop that has handed over its data goes on. */
  function Ended(s: Socket, end: End): Socket {
    match end
    case Again => s.(task := Done)
    case Broken => s.(task := Shut(ErrSystem))
    case Eof => s.(tries := MAX_TRY_CLOSE_SEND, task := Shut(ErrOk))
    case Full => s.(needRecvActive := true, task := Emit(EvtRecvActivate))
  }

  /** One step of the io thread inside a handler. */
  function Work(s: Socket, flag: bool, end: End): Socket
    requires !s.task.Rest?
  {
    match s.task
    case Emit(evt) => Queue(s, evt).(task := Done)
    case CheckSend =>
      s.(task := if s.life.Established? || s.life.Terminated? then Sending else Done)
    case Sending => s.(task := if flag then Shut(ErrSystem) else Done)
    case CheckRecv => s.(task := if s.life.Established? && !s.needRecvActive then Receiving else Done)
    case Receiving => if flag then s.(task := CheckData(end)) else Ended(s, end)
    case CheckData(e) => if s.life.Established? then s.(task := EmitData(e)) else Ended(s, e)
    case EmitData(e) => Ended(Queue(s, EvtData), e)
    case Shut(error) =>
      if s.life.Established? then
        s.(life := Terminated, task := if error.ErrSystem? then ToDelete else Emit(TerminalEvt(error)))
      else s.(task := Done)
    case ToDelete => s.(life := Deleted, task := Emit(EvtSystemError))
    case Ack => s.(sendAck := s.sendAck + 1, task := Done)
    case PollOut => s.(task := if s.life.Connecting? then ConnectDone else CheckSend)
    case ConnectDone =>
      if flag then s.(life := Established, task := Emit(EvtEstablish))
      else s.(life := Deleted, task := Emit(EvtConnectFail))
    case PollErr => s.(task := if s.life.Connecting? then ConnectBroken else Shut(ErrSystem))
    case ConnectBroken => s.(life := Deleted, task := Emit(EvtConnectFail))
    case Done =>
      match s.after
      case NextReq => s.(task := Rest)
      case ThenIn(inp, err) => s.(task := if inp then CheckRecv else Done, after := ThenErr(err))
      case ThenErr(err) => s.(task := if err then PollErr else Rest, after := NextReq)
  }

  /** _do_net_evt takes up the next event. */
  function Handle(s: Socket, flag: bool): Socket
    requires s.evts != []
  {
    var u := s.(evts := s.evts[1..]);
    match s.evts[0]
    case EvtEstablish => u.(timerSend := true, handle := true, log := s.log + [OnEstablish], stage := InEstablish)
    case EvtData => u.(stage := InData)
    case EvtRecvActivate =>
      if s.life.Established? then
        u.(call := if flag then Push(ReqRecvActivate) else Shutting(ErrRecvOverflow), stage := Finish)
      else u.(stage := Finish)
    case EvtModuleError(_) => u.(log := s.log + [OnError], stage := InError)
    case EvtSystemError => u.(log := s.log + [OnError], stage := InError)
    case EvtTerminate => u.(log := s.log + [OnTerminate], stage := InTerminate)
    case EvtConnectFail => u.(log := s.log + [OnConnectError], stage := InConnectError)
    case EvtAcceptFail => u.(stage := FinishLast)
  }

  /** A callback returns, or the handling of an event ends. */
  function Resume(s: Socket, flag: bool, bad: bool): Socket
    requires !s.stage.Between?
  {
    match s.stage
    case InEstablish => s.(stage := Finish)
    case InData =>
      if bad then s.(call := Shutting(ErrPacket), stage := Finish)
      else if flag then s.(log := s.log + [OnRecv])
      else s.(stage := Finish)
    case InError => s.(log := s.log + [OnTerminate], stage := InTerminate)
    case InTerminate => s.(handle := false, stage := FinishLast)
    case InConnectError => s.(handle := false, stage := FinishLast)
    case Finish => s.(stage := Between)
    case FinishLast => s.(timerSend := false, timerClose := true, stage := Between)
  }

  /** One step of the main thread inside a call. */
  function Proceed(s: Socket, flag: bool): Socket
    requires !s.call.NoCall?
  {
    match s.call
    case SendPush => s.(call := if flag then SendTest else Shutting(ErrSendOverflow))
    case SendTest => s.(call := if flag && s.sendReq == s.sendAck then Push(ReqSend) else NoCall)
    case Push(req) =>
      s.(reqs := s.reqs + [req], sendReq := if req.ReqSend? || req.ReqClose? then s.sendReq + 1 else s.sendReq,
         call := if req.ReqClose? then CheckAck else NoCall)
    case Shutting(error) =>
      if s.life.Established? then s.(life := Terminated, call := Push(ReqTerminate(error))) else s.(call := NoCall)
    case CloseTry =>
      if s.tries < MAX_TRY_CLOSE_SEND then s.(tries := s.tries + 1, call := if flag then SendTest else Demote)
      else s.(call := Demote)
    case Demote => s.(life := Deleted, call := NoCall)
    case CloseDelete =>
      if s.needReqClose then s.(needReqClose := false, call := Push(ReqClose)) else s.(call := CheckAck)
    case CheckAck =>
      if s.sendReq != s.sendAck then s.(call := NoCall)
      else s.(timerClose := false, freed := true, call := NoCall)
  }

  function Apply(s: Socket, e: Step): Socket
    requires Enabled(s, e)
  {
    match e
    case IoTake(ok) => Take(s, ok)
    case IoPoll(out, inp, err) => s.(task := if out then PollOut else Done, after := ThenIn(inp, err))
    case IoWork(flag, end) => Work(s, flag, end)
    case MainTake(flag) => Handle(s, flag)
    case MainNext(flag, bad) => Resume(s, flag, bad)
    case CallWork(flag) => Proceed(s, flag)
    case UserSend => if s.life.Established? then s.(call := SendPush) else s
    case UserClose => s.(call := Shutting(ErrOk))
    case UserControl => s.(timerSend := true)
    case TimerSend => if s.life.Established? then s.(call := SendTest) else s
    case TimerClose =>
      match s.life
      case Terminated => s.(call := CloseTry)
      case Deleted => s.(call := CloseDelete)
      case _ => s.(crushed := true)
  }
}
