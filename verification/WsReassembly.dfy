/** The fragment handling of src/websocket.c for any sequence of frames, up to the first that ends the session
    (section 5.4 of RFC 6455): what is delivered is exactly what the frames make up. */
module WsReassembly {
  import opened Options
  import opened Bytes
  import opened WsSession

  // --- any frames, up to the first that ends the session

  predicate NoneClosed(events: seq<Event>) {
    forall i :: 0 <= i < |events| ==> !events[i].Closed?
  }

  /** The frames of fragments that are not the last. */
  function Middles(parts: seq<seq<byte>>): seq<Frame> {
    if parts == [] then [] else [Frame(false, 0, parts[0])] + Middles(parts[1..])
  }

  /** What has come of a message that is not complete, if there is one. */
  function OpenFrames(open: Option<Text>): seq<Frame>
    requires open.Some? ==> IsMessage(open.value)
  {
    match open
    case None => []
    case Some(m) => [Frame(false, m.code, m.parts[0])] + Middles(m.parts[1..])
  }

  /** The fields of a session in the middle of that message. */
  predicate Holds(s: Fragments, open: Option<Text>) {
    match open
    case None => s.data == None
    case Some(m) => s == Fragments(Some(Concat(m.parts)), m.code)
  }

  predicate Whole(ms: seq<Text>, open: Option<Text>) {
    (forall i :: 0 <= i < |ms| ==> IsMessage(ms[i])) && (open.Some? ==> IsMessage(open.value))
  }

  /** The data frames are those of some messages and perhaps the beginning of another; the messages, and
      nothing else, are delivered; and the session is in the middle of that other one, if there is one. */
  ghost predicate Explains(s: Fragments, frames: seq<Frame>, ms: seq<Text>, open: Option<Text>) {
    && Whole(ms, open)
    && DataFrames(frames) == AllFrames(ms) + OpenFrames(open)
    && DataEvents(Run(s, frames).1) == Deliveries(ms)
    && Holds(Run(s, frames).0, open)
  }

  /** What a frame must not be, given the message that is open (section 5.4 of RFC 6455), or it says that
      the session is over. */
  ghost predicate Breaks(open: Option<Text>, f: Frame) {
    || (f.code == 0 && open.None?)
    || ((f.code == TEXT || f.code == BINARY) && open.Some?)
    || (f.fin && f.code == 8)
    || (f.fin && f.code == 0 && open.Some? && !TextOk(open.value.code, Concat(open.value.parts) + f.payload))
    || (f.fin && f.code == TEXT && !TextOk(TEXT, f.payload))
  }

  /** A frame ends the session exactly if it breaks the rules. */
  lemma ClosesExactlyIfBroken(s: Fragments, open: Option<Text>, f: Frame)
    requires Holds(s, open)
    ensures NoneClosed(OnFrame(s, f).1) <==> !Breaks(open, f)
  {
    hide Concat;
    var e := OnFrame(s, f).1;
    if Breaks(open, f) { assert |e| == 1 && e[0].Closed?; }
  }

  /** The status a session is closed with: that of the close frame, in its first two bytes, or 1005 if it
      has none; 1007 if a text is not UTF-8; and 1002 if a fragment is out of place. */
  function Why(open: Option<Text>, f: Frame): nat {
    if f.fin && f.code == 8 then
      if |f.payload| < 2 then 1005 else 256 * ByteValue(f.payload[0]) + ByteValue(f.payload[1])
    else if f.code == 0 && open.Some? then 1007
    else if f.code == TEXT && open.None? then 1007
    else 1002
  }

  lemma ClosesWith(s: Fragments, open: Option<Text>, f: Frame)
    requires Holds(s, open) && Breaks(open, f)
    ensures OnFrame(s, f) ==
      (if f.fin && f.code == 0 && open.Some? then s.(data := None) else s, [Closed(Why(open, f))])
  {
    hide Concat, FromBigEndian, ByteValue;
    if f.fin && f.code == 8 && |f.payload| >= 2 { TwoBytes(f.payload[..2]); }
  }

  lemma TwoBytes(b: seq<byte>)
    requires |b| == 2
    ensures FromBigEndian(b) == 256 * ByteValue(b[0]) + ByteValue(b[1])
  {
    hide ByteValue;
    assert b[..1][..0] == [] && FromBigEndian([]) == 0;
    assert FromBigEndian(b[..1]) == ByteValue(b[0]);
  }

  lemma {:induction false} DataFramesSnoc(frames: seq<Frame>, f: Frame)
    ensures DataFrames(frames + [f]) == DataFrames(frames) + if InBetween(f) then [] else [f]
  {
    hide InBetween;
    var last := if InBetween(f) then [] else [f];
    if frames == [] {
      assert [f][1..] == [] && DataFrames([]) == [];
    } else {
      assert (frames + [f])[1..] == frames[1..] + [f];
      DataFramesSnoc(frames[1..], f);
      var head := if InBetween(frames[0]) then [] else [frames[0]];
      assert head + (DataFrames(frames[1..]) + last) == (head + DataFrames(frames[1..])) + last;
    }
  }

  lemma {:induction false} AllFramesSnoc(ms: seq<Text>, m: Text)
    requires Whole(ms, None) && IsMessage(m)
    ensures AllFrames(ms + [m]) == AllFrames(ms) + FramesOf(m)
    ensures Deliveries(ms + [m]) == Deliveries(ms) + [Message(m.code, Concat(m.parts))]
  {
    if ms == [] {
      assert [m][1..] == [] && AllFrames([]) == [];
      assert FramesOf(m) + [] == FramesOf(m);
    } else {
      assert (ms + [m])[1..] == ms[1..] + [m];
      AllFramesSnoc(ms[1..], m);
    }
  }

  lemma {:induction false} MiddlesSnoc(parts: seq<seq<byte>>, part: seq<byte>)
    ensures Middles(parts + [part]) == Middles(parts) + [Frame(false, 0, part)]
    ensures Continuations(parts + [part]) == Middles(parts) + [Frame(true, 0, part)]
  {
    if parts == [] {
      assert [part][1..] == [] && Middles([]) == [] && Continuations([]) == [];
    } else {
      assert (parts + [part])[1..] == parts[1..] + [part];
      MiddlesSnoc(parts[1..], part);
    }
  }

  /** One more fragment of the open message. */
  lemma OpenSnoc(m: Text, part: seq<byte>)
    requires IsMessage(m)
    ensures var more := Text(m.code, m.parts + [part]);
      && IsMessage(more) && Concat(more.parts) == Concat(m.parts) + part
      && OpenFrames(Some(more)) == OpenFrames(Some(m)) + [Frame(false, 0, part)]
      && FramesOf(more) == OpenFrames(Some(m)) + [Frame(true, 0, part)]
  {
    ConcatSnoc(m.parts, part);
    MiddlesSnoc(m.parts[1..], part);
    assert (m.parts + [part])[1..] == m.parts[1..] + [part];
  }

  /** One more frame that does not end the session. */
  lemma OneMore(s: Fragments, frames: seq<Frame>, f: Frame, ms: seq<Text>, open: Option<Text>)
    returns (ms': seq<Text>, open': Option<Text>)
    requires Explains(s, frames, ms, open) && !Breaks(open, f)
    ensures Explains(s, frames + [f], ms', open')
  {
    var t := Run(s, frames).0;
    RunJoin(s, frames, [f]);
    RunOne(t, f, []);
    assert [f] + [] == [f];
    RunNone(OnFrame(t, f).0);
    NoEvents(OnFrame(t, f).1);
    DataEventsJoin(Run(s, frames).1, OnFrame(t, f).1);
    DataFramesSnoc(frames, f);
    ms', open' := ms, open;
    if InBetween(f) {
      ControlKeeps(t, f);
      assert DataFrames(frames) + [] == DataFrames(frames);
      assert Deliveries(ms) + [] == Deliveries(ms);
    } else {
      NextStep(t, ms, open, f);
      ms', open' := Next(ms, open, f).0, Next(ms, open, f).1;
    }
  }

  /** What a data frame makes of the messages. */
  function Next(ms: seq<Text>, open: Option<Text>, f: Frame): (seq<Text>, Option<Text>) {
    match open
    case Some(m) =>
      var more := Text(m.code, m.parts + [f.payload]);
      if f.fin then (ms + [more], None) else (ms, Some(more))
    case None =>
      var m := Text(f.code, [f.payload]);
      if f.fin then (ms + [m], None) else (ms, Some(m))
  }

  lemma NextStep(t: Fragments, ms: seq<Text>, open: Option<Text>, f: Frame)
    requires Whole(ms, open) && Holds(t, open) && IsData(f) && !Breaks(open, f)
    ensures var (ms', open') := Next(ms, open, f);
      && Whole(ms', open') && Holds(OnFrame(t, f).0, open')
      && AllFrames(ms') + OpenFrames(open') == AllFrames(ms) + OpenFrames(open) + [f]
      && Deliveries(ms') == Deliveries(ms) + DataEvents(OnFrame(t, f).1)
  {
    hide AllFrames, OpenFrames, FramesOf, Deliveries;
    if open.Some? { NextOfOpen(t, ms, open.value, f); } else { NextOfNone(t, ms, f); }
  }

  lemma NextOfOpen(t: Fragments, ms: seq<Text>, m: Text, f: Frame)
    requires Whole(ms, Some(m)) && Holds(t, Some(m)) && IsData(f) && !Breaks(Some(m), f)
    ensures var (ms', open') := Next(ms, Some(m), f);
      && Whole(ms', open') && Holds(OnFrame(t, f).0, open')
      && AllFrames(ms') + OpenFrames(open') == AllFrames(ms) + OpenFrames(Some(m)) + [f]
      && Deliveries(ms') == Deliveries(ms) + DataEvents(OnFrame(t, f).1)
  {
    hide Concat, Breaks, OnFrame, AllFrames, Deliveries, OpenFrames, FramesOf, DataEvents;
    var more := Text(m.code, m.parts + [f.payload]);
    OpenSnoc(m, f.payload);
    FragmentTaken(t, m, f);
    if f.fin {
      AllFramesSnoc(ms, more);
      OneDelivery(Message(more.code, Concat(more.parts)));
      Complete(AllFrames(ms), OpenFrames(Some(m)), f);
    } else {
      Longer(AllFrames(ms), OpenFrames(Some(m)), f, Deliveries(ms));
    }
  }

  lemma FragmentTaken(t: Fragments, m: Text, f: Frame)
    requires Holds(t, Some(m)) && IsData(f) && !Breaks(Some(m), f)
    ensures f.code == 0
    ensures f.fin ==> OnFrame(t, f).0.data == None && OnFrame(t, f).1 == [Message(m.code, Concat(m.parts) + f.payload)]
    ensures !f.fin ==> OnFrame(t, f) == (Fragments(Some(Concat(m.parts) + f.payload), m.code), [])
  {
    hide Concat;
  }

  lemma Complete(a: seq<Frame>, b: seq<Frame>, f: Frame)
    ensures a + (b + [f]) + OpenFrames(None) == a + b + [f]
  {
  }

  lemma Longer(a: seq<Frame>, b: seq<Frame>, f: Frame, d: seq<Event>)
    ensures a + (b + [f]) == a + b + [f] && d == d + DataEvents([])
  {
  }

  lemma OneDelivery(e: Event)
    requires !FromControl(e)
    ensures DataEvents([e]) == [e]
  {
    assert [e][1..] == [] && DataEvents([]) == [];
  }

  lemma NextOfNone(t: Fragments, ms: seq<Text>, f: Frame)
    requires Whole(ms, None) && t.data == None && IsData(f) && !Breaks(None, f)
    ensures var (ms', open') := Next(ms, None, f);
      && Whole(ms', open') && Holds(OnFrame(t, f).0, open')
      && AllFrames(ms') + OpenFrames(open') == AllFrames(ms) + OpenFrames(None) + [f]
      && Deliveries(ms') == Deliveries(ms) + DataEvents(OnFrame(t, f).1)
  {
    hide Concat, Breaks, OnFrame, AllFrames, Deliveries, OpenFrames, FramesOf, DataEvents;
    var m := Text(f.code, [f.payload]);
    ConcatOne(f.payload);
    MessageTaken(t, f);
    OneFrame(m, f);
    if f.fin {
      AllFramesSnoc(ms, m);
      OneDelivery(Message(m.code, f.payload));
      Complete(AllFrames(ms), OpenFrames(None), f);
    } else {
      Longer(AllFrames(ms), OpenFrames(None), f, Deliveries(ms));
    }
  }

  lemma OneFrame(m: Text, f: Frame)
    requires IsMessage(m) && m == Text(f.code, [f.payload])
    ensures f.fin ==> FramesOf(m) == OpenFrames(None) + [f]
    ensures !f.fin ==> OpenFrames(Some(m)) == OpenFrames(None) + [f]
  {
    assert m.parts[1..] == [] && Continuations([]) == [] && Middles([]) == [];
  }

  lemma MessageTaken(t: Fragments, f: Frame)
    requires t.data == None && IsData(f) && !Breaks(None, f)
    ensures f.code == TEXT || f.code == BINARY
    ensures f.fin ==> OnFrame(t, f) == (t, [Message(f.code, f.payload)])
    ensures !f.fin ==> OnFrame(t, f) == (Fragments(Some(f.payload), f.code), [])
  {
  }

  lemma NoneClosedParts(a: seq<Event>, b: seq<Event>)
    requires NoneClosed(a + b)
    ensures NoneClosed(a) && NoneClosed(b)
  {
    assert forall i :: 0 <= i < |a| ==> (a + b)[i] == a[i];
    assert forall i :: 0 <= i < |b| ==> (a + b)[|a| + i] == b[i];
  }

  /** Whatever frames come, as long as none of them ends the session: what has been delivered is exactly the
      messages the frames make up, in order, and the buffer is null exactly if no message is open. */
  lemma {:induction false} Explained(s: Fragments, frames: seq<Frame>) returns (ms: seq<Text>, open: Option<Text>)
    requires s.data == None && NoneClosed(Run(s, frames).1)
    ensures Explains(s, frames, ms, open)
    decreases |frames|
  {
    hide OnFrame, Breaks, Explains, Holds;
    if frames == [] {
      ms, open := [], None;
      NothingExplained(s);
    } else {
      var init, f := frames[..|frames| - 1], frames[|frames| - 1];
      assert frames == init + [f];
      RunSnoc(s, init, f);
      NoneClosedParts(Run(s, init).1, OnFrame(Run(s, init).0, f).1);
      ms, open := Explained(s, init);
      ExplainsHolds(s, init, ms, open);
      ClosesExactlyIfBroken(Run(s, init).0, open, f);
      ms, open := OneMore(s, init, f, ms, open);
    }
  }

  lemma NothingExplained(s: Fragments)
    requires s.data == None
    ensures Explains(s, [], [], None)
  {
  }

  lemma ExplainsHolds(s: Fragments, frames: seq<Frame>, ms: seq<Text>, open: Option<Text>)
    requires Explains(s, frames, ms, open)
    ensures Holds(Run(s, frames).0, open)
  {
  }

  /** How many frames come before the first that ends the session. */
  ghost function Until(s: Fragments, frames: seq<Frame>): (k: nat)
    ensures k <= |frames|
    decreases |frames|
  {
    if frames == [] || !NoneClosed(OnFrame(s, frames[0]).1) then 0
    else 1 + Until(OnFrame(s, frames[0]).0, frames[1..])
  }

  lemma {:induction false} UntilIsFirst(s: Fragments, frames: seq<Frame>)
    ensures var k := Until(s, frames);
      && NoneClosed(Run(s, frames[..k]).1)
      && (k < |frames| ==> !NoneClosed(OnFrame(Run(s, frames[..k]).0, frames[k]).1))
    decreases |frames|
  {
    hide OnFrame;
    var k := Until(s, frames);
    if k == 0 {
      assert frames[..0] == [];
    } else {
      var t := OnFrame(s, frames[0]).0;
      UntilIsFirst(t, frames[1..]);
      assert frames[..k] == [frames[0]] + frames[1..][..k - 1];
      RunOne(s, frames[0], frames[1..][..k - 1]);
    }
  }

  /** Any frames, up to the first that ends the session: what is delivered is exactly the messages the frames
      make up, and the session ends at the first frame that breaks the rules, given the message that is
      open then, with the status for it. */
  lemma UpToTheEnd(s: Fragments, frames: seq<Frame>) returns (k: nat, ms: seq<Text>, open: Option<Text>)
    requires s.data == None
    ensures k <= |frames| && NoneClosed(Run(s, frames[..k]).1) && Explains(s, frames[..k], ms, open)
    ensures k < |frames| ==>
      && Breaks(open, frames[k])
      && Run(s, frames[..k + 1]).1 == Run(s, frames[..k]).1 + [Closed(Why(open, frames[k]))]
  {
    k := Until(s, frames);
    UntilIsFirst(s, frames);
    hide Run, Until, Explains, Breaks, OnFrame, Holds;
    ms, open := Explained(s, frames[..k]);
    ExplainsHolds(s, frames[..k], ms, open);
    if k < |frames| {
      var t := Run(s, frames[..k]).0;
      ClosesExactlyIfBroken(t, open, frames[k]);
      ClosesWith(t, open, frames[k]);
      assert frames[..k + 1] == frames[..k] + [frames[k]];
      RunSnoc(s, frames[..k], frames[k]);
    }
  }
}
