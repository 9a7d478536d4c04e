/** What a websocket session does with the packets it receives, once unmasked: the fragment handling of
    src/websocket.c (section 5.4 of RFC 6455), for frames without reserved bits. */
module WsSession {
  import opened Options
  import opened Bytes
  import Utf8

  datatype Frame = Frame(fin: bool, code: nat, payload: seq<byte>)

  /** A call of func_on_message, a pong sent, or the session closed with a status. */
  datatype Event = Message(code: nat, data: seq<byte>) | Pong(data: seq<byte>) | Closed(status: nat)

  const TEXT: nat := 1
  const BINARY: nat := 2

  /** fragment_data and fragment_op_code; a null pointer is None. */
  datatype Fragments = Fragments(data: Option<seq<byte>>, code: nat)

  /** `default_realloc` (src/smemory.cpp:37-60), and the copy behind what there was.  A block has a word of its
      own in front, so the pointer is not null even if there is nothing in it. */
  function Grown(data: Option<seq<byte>>, more: seq<byte>): Option<seq<byte>> {
    match data
    case None => Some(more)
    case Some(d) => Some(d + more)
  }

  ghost predicate TextOk(code: nat, data: seq<byte>) {
    code == TEXT ==> Utf8.IsUtf8(data)
  }

  /** What a frame does to a session. */
  ghost function OnFrame(s: Fragments, f: Frame): (Fragments, seq<Event>) {
    if f.fin then
      if f.code == 0 then
        match s.data
        case None => (s, [Closed(1002)])
        case Some(d) =>
          (s.(data := None), [if TextOk(s.code, d + f.payload) then Message(s.code, d + f.payload) else Closed(1007)])
      else if f.code == TEXT || f.code == BINARY then
        if s.data.Some? then (s, [Closed(1002)])
        else (s, [if TextOk(f.code, f.payload) then Message(f.code, f.payload) else Closed(1007)])
      else if f.code == 8 then (s, [Closed(Status(f.payload))])
      else if f.code == 9 then
        (s, (if |f.payload| > 125 then [] else [Pong(f.payload)]) + [Message(9, f.payload)])
      else if f.code == 10 then (s, [Message(10, f.payload)])
      else (s, [])
    else if f.code == 0 then
      match s.data
      case None => (s, [Closed(1002)])
      case Some(_) => (s.(data := Grown(s.data, f.payload)), [])
    else if f.code == TEXT || f.code == BINARY then
      if s.data.Some? then (s, [Closed(1002)]) else (Fragments(Grown(None, f.payload), f.code), [])
    else (s, [])
  }

  function Status(payload: seq<byte>): nat {
    if |payload| >= 2 then FromBigEndian(payload[..2]) else 1005
  }

  /** The session's fields, as the code changes them. */
  class Session {
    var fragmentData: Option<seq<byte>>
    var fragmentCode: nat
    var events: seq<Event>

    ghost function State(): Fragments
      reads this
    {
      Fragments(fragmentData, fragmentCode)
    }

    constructor ()
      ensures State() == Fragments(None, 0) && events == []
    {
      fragmentData, fragmentCode, events := None, 0, [];
    }

    /** A packet without a mask, or with a reserved bit set, ends the session. */
    method Refuse()
      modifies this`events
      ensures events == old(events) + [Closed(1002)]
    {
      events := events + [Closed(1002)];
    }

    /** `_on_server_web_socket_data` and its client twin, behind the mask and reserved bits. */
    method OnData(f: Frame)
      modifies this
      ensures State() == OnFrame(old(State()), f).0
      ensures events == old(events) + OnFrame(old(State()), f).1
    {
      if f.fin {
        if f.code == 0 {
          if fragmentData.None? {
            events := events + [Closed(1002)];
            return;
          }
          var data := fragmentData.value + f.payload;
          fragmentData := Some(data);
          if fragmentCode == TEXT {
            var ok := Utf8.IsValidUtf8(data);
            events := events + [if ok then Message(fragmentCode, data) else Closed(1007)];
          } else {
            events := events + [Message(fragmentCode, data)];
          }
          fragmentData := None;
        } else if f.code == TEXT || f.code == BINARY {
          if fragmentData.Some? {
            events := events + [Closed(1002)];
            return;
          }
          if f.code == TEXT {
            var ok := Utf8.IsValidUtf8(f.payload);
            if !ok {
              events := events + [Closed(1007)];
              return;
            }
          }
          events := events + [Message(f.code, f.payload)];
        } else if f.code == 8 {
          events := events + [Closed(Status(f.payload))];
        } else if f.code == 9 {
          if |f.payload| <= 125 { events := events + [Pong(f.payload)]; }
          events := events + [Message(9, f.payload)];
        } else if f.code == 10 {
          events := events + [Message(10, f.payload)];
        }
      } else {
        if f.code == 0 {
          if fragmentData.None? {
            events := events + [Closed(1002)];
            return;
          }
          fragmentData := Grown(fragmentData, f.payload);
        } else if f.code == TEXT || f.code == BINARY {
          if fragmentData.Some? {
            events := events + [Closed(1002)];
            return;
          }
          fragmentCode := f.code;
          fragmentData := Grown(fragmentData, f.payload);
        }
      }
    }
  }

  // --- runs of frames

  /** The session takes frames one after another. */
  method TakeAll(session: Session, frames: seq<Frame>)
    modifies session
    ensures session.State() == Run(old(session.State()), frames).0
    ensures session.events == old(session.events) + Run(old(session.State()), frames).1
  {
    ghost var s, before := session.State(), session.events;
    hide OnFrame, Run;
    RunNone(s);
    NoEvents(before);
    var i := 0;
    assert frames[..0] == [];
    while i < |frames|
      invariant 0 <= i <= |frames|
      invariant session.State() == Run(s, frames[..i]).0
      invariant session.events == before + Run(s, frames[..i]).1
    {
      RunSnoc(s, frames[..i], frames[i]);
      assert frames[..i + 1] == frames[..i] + [frames[i]];
      session.OnData(frames[i]);
      i := i + 1;
    }
    assert frames[..i] == frames;
  }

  ghost function Run(s: Fragments, frames: seq<Frame>): (Fragments, seq<Event>)
    decreases |frames|
  {
    if frames == [] then (s, [])
    else
      var (t, events) := OnFrame(s, frames[0]);
      var rest := Run(t, frames[1..]);
      (rest.0, events + rest.1)
  }

  lemma {:induction false} RunJoin(s: Fragments, a: seq<Frame>, b: seq<Frame>)
    ensures Run(s, a + b) == (Run(Run(s, a).0, b).0, Run(s, a).1 + Run(Run(s, a).0, b).1)
    decreases |a|
  {
    hide OnFrame;
    if a == [] {
      assert a + b == b;
      assert [] + Run(s, b).1 == Run(s, b).1;
    } else {
      assert (a + b)[1..] == a[1..] + b;
      var (t, events) := OnFrame(s, a[0]);
      RunJoin(t, a[1..], b);
      assert events + (Run(t, a[1..]).1 + Run(Run(s, a).0, b).1) == (events + Run(t, a[1..]).1) + Run(Run(s, a).0, b).1;
    }
  }

  lemma RunSnoc(s: Fragments, frames: seq<Frame>, f: Frame)
    ensures Run(s, frames + [f]) ==
      (OnFrame(Run(s, frames).0, f).0, Run(s, frames).1 + OnFrame(Run(s, frames).0, f).1)
  {
    hide OnFrame;
    var t := Run(s, frames).0;
    RunJoin(s, frames, [f]);
    RunOne(t, f, []);
    assert [f] + [] == [f];
    RunNone(OnFrame(t, f).0);
    NoEvents(OnFrame(t, f).1);
  }

  /** A message to be sent in one or more fragments. */
  datatype Text = Text(code: nat, parts: seq<seq<byte>>)

  predicate IsMessage(m: Text) {
    (m.code == TEXT || m.code == BINARY) && m.parts != []
  }

  /** The frames of the fragments behind the first: continuations, the last of them final. */
  function Continuations(parts: seq<seq<byte>>): seq<Frame> {
    if parts == [] then []
    else [Frame(|parts| == 1, 0, parts[0])] + Continuations(parts[1..])
  }

  function FramesOf(m: Text): seq<Frame>
    requires IsMessage(m)
  {
    [Frame(|m.parts| == 1, m.code, m.parts[0])] + Continuations(m.parts[1..])
  }

  /** What a message ends with: its delivery, or the end of the session if its text is not UTF-8. */
  ghost function Outcome(code: nat, data: seq<byte>): Event {
    if TextOk(code, data) then Message(code, data) else Closed(1007)
  }

  lemma RunOne(s: Fragments, f: Frame, rest: seq<Frame>)
    ensures Run(s, [f] + rest) == (Run(OnFrame(s, f).0, rest).0, OnFrame(s, f).1 + Run(OnFrame(s, f).0, rest).1)
  {
    hide OnFrame;
    assert ([f] + rest)[1..] == rest;
  }

  lemma {:induction false} ContinuationsRun(s: Fragments, parts: seq<seq<byte>>)
    requires s.data.Some? && parts != []
    ensures Run(s, Continuations(parts)) == (s.(data := None), [Outcome(s.code, s.data.value + Concat(parts))])
    decreases |parts|
  {
    hide OnFrame, Run, Outcome, TextOk;
    RunOne(s, Frame(|parts| == 1, 0, parts[0]), Continuations(parts[1..]));
    if |parts| == 1 {
      LastPart(s, parts[0]);
      RunNone(s.(data := None));
      NoEvents([Outcome(s.code, s.data.value + parts[0])]);
      assert parts[1..] == [] && Continuations([]) == [] && Concat([]) == [];
      assert Concat(parts) == parts[0] + [] == parts[0];
    } else {
      MiddlePart(s, parts[0]);
      var t := s.(data := Some(s.data.value + parts[0]));
      ContinuationsRun(t, parts[1..]);
      NoEvents(Run(t, Continuations(parts[1..])).1);
      assert (s.data.value + parts[0]) + Concat(parts[1..]) == s.data.value + Concat(parts);
    }
  }

  lemma NoEvents(events: seq<Event>)
    ensures [] + events == events && events + [] == events
  {
  }

  lemma RunNone(s: Fragments)
    ensures Run(s, []) == (s, [])
  {
  }

  lemma LastPart(s: Fragments, part: seq<byte>)
    requires s.data.Some?
    ensures OnFrame(s, Frame(true, 0, part)) == (s.(data := None), [Outcome(s.code, s.data.value + part)])
  {
  }

  lemma MiddlePart(s: Fragments, part: seq<byte>)
    requires s.data.Some?
    ensures OnFrame(s, Frame(false, 0, part)) == (s.(data := Some(s.data.value + part)), [])
  {
  }

  /** Outside a message, the frames of a message in any number of fragments have the one outcome of the
      whole message, and leave the session outside a message. */
  lemma MessageRun(s: Fragments, m: Text)
    requires s.data == None && IsMessage(m)
    ensures Run(s, FramesOf(m)).1 == [Outcome(m.code, Concat(m.parts))]
    ensures Run(s, FramesOf(m)).0.data == None
  {
    var f := Frame(|m.parts| == 1, m.code, m.parts[0]);
    var rest := m.parts[1..];
    RunOne(s, f, Continuations(rest));
    if |m.parts| == 1 {
      assert rest == [] && Concat(m.parts) == m.parts[0] + Concat([]) == m.parts[0];
      assert Run(OnFrame(s, f).0, Continuations(rest)) == (OnFrame(s, f).0, []);
    } else {
      assert OnFrame(s, f) == (Fragments(Some(m.parts[0]), m.code), []);
      ContinuationsRun(Fragments(Some(m.parts[0]), m.code), rest);
    }
  }

  lemma FirstPart(s: Fragments, m: Text)
    requires s.data == None && IsMessage(m) && |m.parts| > 1
    ensures Run(s, [FramesOf(m)[0]] + []) == (Fragments(Some(m.parts[0]), m.code), [])
    ensures Concat([m.parts[0]]) == m.parts[0]
  {
    var t := Fragments(Some(m.parts[0]), m.code);
    RunOne(s, FramesOf(m)[0], []);
    assert OnFrame(s, FramesOf(m)[0]) == (t, []);
    RunNone(t);
    NoEvents([]);
    assert [m.parts[0]][1..] == [] && Concat([]) == [];
    assert m.parts[0] + [] == m.parts[0];
  }

  /** In the middle of a message the buffer is there, and holds what has arrived of it, be it nothing. */
  lemma {:induction false} HalfWay(s: Fragments, m: Text, k: nat)
    requires s.data == None && IsMessage(m) && 0 < k < |m.parts|
    ensures |FramesOf(m)| == |m.parts|
    ensures Run(s, FramesOf(m)[..k]) == (Fragments(Some(Concat(m.parts[..k])), m.code), [])
    decreases k
  {
    var frames := FramesOf(m);
    FramesLength(m);
    if k == 1 {
      assert frames[..1] == [frames[0]] + [];
      FirstPart(s, m);
      assert m.parts[..1] == [m.parts[0]];
    } else {
      HalfWay(s, m, k - 1);
      var t := Run(s, frames[..k - 1]).0;
      assert frames[..k] == frames[..k - 1] + [frames[k - 1]];
      RunJoin(s, frames[..k - 1], [frames[k - 1]]);
      RunOne(t, frames[k - 1], []);
      assert [frames[k - 1]] + [] == [frames[k - 1]];
      ConcatSnoc(m.parts[..k - 1], m.parts[k - 1]);
      assert m.parts[..k] == m.parts[..k - 1] + [m.parts[k - 1]];
    }
  }

  lemma {:induction false} ContinuationsAt(parts: seq<seq<byte>>, i: nat)
    requires i < |parts|
    ensures |Continuations(parts)| == |parts|
    ensures Continuations(parts)[i] == Frame(i == |parts| - 1, 0, parts[i])
  {
    if |parts| > 1 { ContinuationsAt(parts[1..], if i > 0 then i - 1 else 0); }
  }

  lemma FramesLength(m: Text)
    requires IsMessage(m)
    ensures |FramesOf(m)| == |m.parts|
    ensures forall i :: 0 < i < |m.parts| ==> FramesOf(m)[i] == Frame(i == |m.parts| - 1, 0, m.parts[i])
  {
    if |m.parts| > 1 { ContinuationsAt(m.parts[1..], 0); }
    forall i | 0 < i < |m.parts|
      ensures FramesOf(m)[i] == Frame(i == |m.parts| - 1, 0, m.parts[i])
    {
      ContinuationsAt(m.parts[1..], i - 1);
    }
  }

  // --- control frames in between

  predicate IsData(f: Frame) {
    f.code == 0 || f.code == TEXT || f.code == BINARY
  }

  /** Pings, pongs, and frames with reserved codes: all but data and the end of the session. */
  predicate InBetween(f: Frame) {
    !IsData(f) && !(f.fin && f.code == 8)
  }

  function DataFrames(frames: seq<Frame>): seq<Frame> {
    if frames == [] then []
    else (if InBetween(frames[0]) then [] else [frames[0]]) + DataFrames(frames[1..])
  }

  /** What is not due to a ping or a pong. */
  function DataEvents(events: seq<Event>): seq<Event> {
    if events == [] then []
    else (if FromControl(events[0]) then [] else [events[0]]) + DataEvents(events[1..])
  }

  predicate FromControl(e: Event) {
    e.Pong? || (e.Message? && (e.code == 9 || e.code == 10))
  }

  lemma {:induction false} DataEventsJoin(a: seq<Event>, b: seq<Event>)
    ensures DataEvents(a + b) == DataEvents(a) + DataEvents(b)
  {
    if a == [] {
      assert a + b == b;
    } else {
      assert (a + b)[1..] == a[1..] + b;
      DataEventsJoin(a[1..], b);
    }
  }

  lemma ControlKeeps(s: Fragments, f: Frame)
    requires InBetween(f)
    ensures OnFrame(s, f).0 == s && DataEvents(OnFrame(s, f).1) == []
  {
    if f.fin && (f.code == 9 || f.code == 10) {
      var last := [Message(f.code, f.payload)];
      assert last[1..] == [] && DataEvents(last) == [];
      if f.code == 9 && |f.payload| <= 125 {
        var both := [Pong(f.payload)] + last;
        assert both[1..] == last && DataEvents(both) == [];
      } else {
        assert [] + last == last;
      }
    }
  }

  /** Frames between and inside messages that are not data change nothing about the messages. */
  lemma {:induction false} ControlsChangeNothing(s: Fragments, frames: seq<Frame>)
    ensures Run(s, frames).0 == Run(s, DataFrames(frames)).0
    ensures DataEvents(Run(s, frames).1) == DataEvents(Run(s, DataFrames(frames)).1)
    decreases |frames|
  {
    if frames != [] {
      var f, rest := frames[0], frames[1..];
      assert frames == [f] + rest;
      RunOne(s, f, rest);
      var t := OnFrame(s, f).0;
      ControlsChangeNothing(t, rest);
      DataEventsJoin(OnFrame(s, f).1, Run(t, rest).1);
      if InBetween(f) {
        ControlKeeps(s, f);
        assert DataFrames(frames) == [] + DataFrames(rest) == DataFrames(rest);
      } else {
        assert DataFrames(frames) == [f] + DataFrames(rest);
        RunOne(s, f, DataFrames(rest));
        DataEventsJoin(OnFrame(s, f).1, Run(t, DataFrames(rest)).1);
      }
    }
  }

  // --- whole conversations

  ghost predicate Good(m: Text)
    requires IsMessage(m)
  {
    TextOk(m.code, Concat(m.parts))
  }

  function AllFrames(ms: seq<Text>): seq<Frame>
    requires forall i :: 0 <= i < |ms| ==> IsMessage(ms[i])
  {
    if ms == [] then [] else FramesOf(ms[0]) + AllFrames(ms[1..])
  }

  function Deliveries(ms: seq<Text>): seq<Event> {
    if ms == [] then [] else [Message(ms[0].code, Concat(ms[0].parts))] + Deliveries(ms[1..])
  }

  lemma {:induction false} AllDelivered(s: Fragments, ms: seq<Text>)
    requires s.data == None && forall i :: 0 <= i < |ms| ==> IsMessage(ms[i]) && Good(ms[i])
    ensures Run(s, AllFrames(ms)).1 == Deliveries(ms) && Run(s, AllFrames(ms)).0.data == None
    decreases |ms|
  {
    if ms != [] {
      MessageRun(s, ms[0]);
      RunJoin(s, FramesOf(ms[0]), AllFrames(ms[1..]));
      AllDelivered(Run(s, FramesOf(ms[0])).0, ms[1..]);
    }
  }

  lemma {:induction false} DeliveriesAreData(ms: seq<Text>)
    requires forall i :: 0 <= i < |ms| ==> IsMessage(ms[i])
    ensures DataEvents(Deliveries(ms)) == Deliveries(ms)
  {
    if ms != [] {
      assert Deliveries(ms)[1..] == Deliveries(ms[1..]);
      DeliveriesAreData(ms[1..]);
    }
  }

  /** Messages sent in any fragments, with any pings and pongs between the frames, are delivered whole, in
      order, each under the code of its first fragment, and nothing else is. */
  lemma Reassembled(s: Fragments, ms: seq<Text>, frames: seq<Frame>)
    requires s.data == None && forall i :: 0 <= i < |ms| ==> IsMessage(ms[i]) && Good(ms[i])
    requires DataFrames(frames) == AllFrames(ms)
    ensures DataEvents(Run(s, frames).1) == Deliveries(ms)
    ensures Run(s, frames).0.data == None
  {
    ControlsChangeNothing(s, frames);
    AllDelivered(s, ms);
    DeliveriesAreData(ms);
  }

  // --- pings and pongs

  /** What is due to a ping or a pong. */
  function ControlEvents(events: seq<Event>): seq<Event> {
    if events == [] then []
    else (if FromControl(events[0]) then [events[0]] else []) + ControlEvents(events[1..])
  }

  /** What a ping or pong asks for: a ping is answered by a pong with its payload, unless that is longer than
      125 bytes, and both are handed to the user. */
  function Answers(frames: seq<Frame>): seq<Event> {
    if frames == [] then []
    else
      (if !frames[0].fin then []
       else if frames[0].code == 9 && |frames[0].payload| <= 125 then
         [Pong(frames[0].payload), Message(9, frames[0].payload)]
       else if frames[0].code == 9 || frames[0].code == 10 then [Message(frames[0].code, frames[0].payload)]
       else []) + Answers(frames[1..])
  }

  lemma {:induction false} ControlEventsJoin(a: seq<Event>, b: seq<Event>)
    ensures ControlEvents(a + b) == ControlEvents(a) + ControlEvents(b)
  {
    hide FromControl;
    if a == [] {
      assert a + b == b;
    } else {
      assert (a + b)[1..] == a[1..] + b;
      ControlEventsJoin(a[1..], b);
      var head := if FromControl(a[0]) then [a[0]] else [];
      assert head + (ControlEvents(a[1..]) + ControlEvents(b)) == (head + ControlEvents(a[1..])) + ControlEvents(b);
    }
  }

  /** A session in the middle of a message that is not a control message. */
  predicate InData(s: Fragments) {
    s.data.Some? ==> s.code == TEXT || s.code == BINARY
  }

  lemma OneEvent(e: Event)
    ensures ControlEvents([e]) == if FromControl(e) then [e] else []
    ensures ControlEvents([]) == []
  {
    assert [e][1..] == [] && ControlEvents([]) == [];
  }

  lemma TwoEvents(a: Event, b: Event)
    requires FromControl(a) && FromControl(b)
    ensures ControlEvents([a] + [b]) == [a, b]
  {
    ControlEventsJoin([a], [b]);
    OneEvent(a);
    OneEvent(b);
  }

  lemma OneAnswer(s: Fragments, f: Frame)
    requires InData(s)
    ensures InData(OnFrame(s, f).0)
    ensures ControlEvents(OnFrame(s, f).1) == Answers([f])
  {
    assert [f][1..] == [] && Answers([]) == [];
    if f.fin && f.code == 9 {
      var last := Message(9, f.payload);
      OneEvent(last);
      if |f.payload| <= 125 { TwoEvents(Pong(f.payload), last); }
      assert [] + [last] == [last];
    } else if f.fin && f.code == 10 {
      OneEvent(Message(10, f.payload));
    } else {
      NoControl(s, f);
    }
  }

  lemma NoControl(s: Fragments, f: Frame)
    requires InData(s) && !(f.fin && (f.code == 9 || f.code == 10))
    ensures ControlEvents(OnFrame(s, f).1) == []
  {
    var events := OnFrame(s, f).1;
    if events == [] {
      NoAnswers();
    } else {
      assert |events| == 1 && !FromControl(events[0]);
      OneEvent(events[0]);
      assert events == [events[0]];
    }
  }

  lemma AnswersCons(f: Frame, frames: seq<Frame>)
    ensures Answers([f] + frames) == Answers([f]) + Answers(frames)
  {
    assert ([f] + frames)[1..] == frames && [f][1..] == [] && Answers([]) == [];
  }

  /** Every ping is answered and every ping and pong handed on, in order, with its payload, whatever message
      it comes in the middle of; and nothing else is. */
  lemma {:induction false} PingsAnswered(s: Fragments, frames: seq<Frame>)
    requires InData(s)
    ensures ControlEvents(Run(s, frames).1) == Answers(frames) && InData(Run(s, frames).0)
    decreases |frames|
  {
    hide OnFrame, Answers, InData;
    if frames == [] {
      NoAnswers();
    } else {
      var f, rest := frames[0], frames[1..];
      assert frames == [f] + rest;
      RunOne(s, f, rest);
      OneAnswer(s, f);
      AnswersCons(f, rest);
      PingsAnswered(OnFrame(s, f).0, rest);
      ControlEventsJoin(OnFrame(s, f).1, Run(OnFrame(s, f).0, rest).1);
    }
  }

  lemma NoAnswers()
    ensures Answers([]) == [] && ControlEvents([]) == []
  {
  }
}
