/** From the messages one side sends to the callbacks the other side makes: everything of src/websocket.c between
    `_ws_client_data` and func_on_message, over the ring and the events of src/epoll_tcp.c. */
module WsConversation {
  import opened Options
  import opened Bytes
  import opened LoopCaches
  import opened WsFrame
  import opened WsMask
  import WsReceive
  import S = WsSession

  type Mask = m: seq<byte> | |m| == 4 witness [0, 0, 0, 0]

  /** Anything a client can put on the wire, with the mask that was drawn: a fragment or a whole message,
      a control frame, a frame with reserved bits, or one without a mask. */
  datatype Sent = Sent(fin: bool, rsv: byte, code: byte, masked: bool, mask: Mask, data: seq<byte>)

  ghost predicate Sendable(m: Sent) {
    |m.data| < WORD32 - 14 && m.rsv < 8 && m.code < 16
  }

  function Head(m: Sent): (h: seq<byte>)
    ensures |h| >= 2
  {
    Header(FirstByte(m.fin, m.rsv, m.code), m.masked, |m.data|)
  }

  /** The bytes on the wire. */
  function Packet(m: Sent): (p: seq<byte>)
    ensures |p| >= 2
  {
    if m.masked then Head(m) + m.mask + Xor(m.data, m.mask) else Head(m) + m.data
  }

  function Packets(ms: seq<Sent>): seq<seq<byte>>
  {
    if ms == [] then [] else [Packet(ms[0])] + Packets(ms[1..])
  }

  function Wire(ms: seq<Sent>): seq<byte>
  {
    if ms == [] then [] else Packet(ms[0]) + Wire(ms[1..])
  }

  /** How many of them are complete in the first n bytes. */
  function Complete(ms: seq<Sent>, n: nat): (k: nat)
    ensures k <= |ms|
  {
    if ms == [] || n < |Packet(ms[0])| then 0 else 1 + Complete(ms[1..], n - |Packet(ms[0])|)
  }

  // --- sending

  lemma {:induction false} WireSnoc(ms: seq<Sent>, m: Sent)
    ensures Wire(ms + [m]) == Wire(ms) + Packet(m)
  {
    hide Packet;
    if ms == [] {
      assert [m][1..] == [] && Wire([]) == [];
      assert ms + [m] == [m];
    } else {
      assert (ms + [m])[1..] == ms[1..] + [m];
      WireSnoc(ms[1..], m);
      assert Packet(ms[0]) + (Wire(ms[1..]) + Packet(m)) == (Packet(ms[0]) + Wire(ms[1..])) + Packet(m);
    }
  }

  /** An uncompressed message, as `_ws_client_data` sends it: in one frame. */
  datatype Whole = Whole(text: bool, data: seq<byte>, mask: Mask)

  function OpByte(m: Whole): byte {
    if m.text then 1 else 2
  }

  function Alone(m: Whole): Sent {
    Sent(true, 0, OpByte(m), true, m.mask, m.data)
  }

  function AllAlone(ms: seq<Whole>): (r: seq<Sent>)
    ensures |r| == |ms|
  {
    seq(|ms|, i requires 0 <= i < |ms| => Alone(ms[i]))
  }

  /** The client writes its messages one after another. */
  method SendAll(ms: seq<Whole>) returns (stream: seq<byte>)
    ensures stream == Wire(AllAlone(ms))
  {
    stream := [];
    var i := 0;
    hide Wire;
    ghost var sent := AllAlone(ms);
    assert sent[..0] == [];
    EmptyWire();
    while i < |ms|
      invariant 0 <= i <= |ms| && stream == Wire(sent[..i])
    {
      var header, body := ClientData(OpByte(ms[i]), ms[i].data + [0, 0, 0, 0], |ms[i].data|, ms[i].mask);
      assert (ms[i].data + [0, 0, 0, 0])[..|ms[i].data|] == ms[i].data;
      assert header + body == Packet(sent[i]);
      WireSnoc(sent[..i], sent[i]);
      assert sent[..i + 1] == sent[..i] + [sent[i]];
      assert (stream + header) + body == stream + (header + body);
      stream := stream + header + body;
      i := i + 1;
    }
    assert sent[..i] == sent;
  }

  lemma EmptyWire()
    ensures Wire([]) == []
  {
  }

  // --- cutting

  /** However much of the stream there is, it is cut into the packets that are complete. */
  lemma {:induction false} CutWire(ms: seq<Sent>, n: nat)
    requires (forall i :: 0 <= i < |ms| ==> Sendable(ms[i])) && n <= |Wire(ms)|
    ensures Cut(Wire(ms)[..n]).0 == Packets(ms[..Complete(ms, n)])
    ensures n == |Wire(ms)| ==> Complete(ms, n) == |ms|
    decreases |ms|
  {
    hide Cut, Packet, PacketLength, Sendable;
    var seen, k := Wire(ms)[..n], Complete(ms, n);
    CutStep(seen);
    if ms == [] {
      NothingCut();
      assert seen == [];
    } else {
      var p, rest := Packet(ms[0]), Wire(ms[1..]);
      FirstPacket(ms[0], rest, n);
      if n < |p| {
        assert ms[..0] == [];
      } else {
        CutWire(ms[1..], n - |p|);
        assert seen[..|p|] == p && seen[|p|..] == rest[..n - |p|];
        assert ms[..k][1..] == ms[1..][..k - 1] && ms[..k][0] == ms[0];
      }
    }
  }

  lemma NothingCut()
    ensures PacketLength([]) == 0
  {
  }

  lemma FirstPacket(m: Sent, rest: seq<byte>, n: nat)
    requires Sendable(m) && n <= |Packet(m) + rest|
    ensures PacketLength((Packet(m) + rest)[..n]) == if n < |Packet(m)| then 0 else |Packet(m)|
  {
    hide PacketLength, Header, Xor;
    var seen, p := (Packet(m) + rest)[..n], Packet(m);
    if n < |p| { assert seen == p[..n]; } else { assert seen[..|p|] == p; }
    var first := FirstByte(m.fin, m.rsv, m.code);
    if m.masked {
      FrameLength(first, true, m.mask, Xor(m.data, m.mask), seen);
    } else {
      assert Head(m) + [] + m.data == p;
      FrameLength(first, false, [], m.data, seen);
    }
  }

  // --- one packet

  /** What the server makes of a packet, nothing if it is refused; `behind` is what lies behind it in the buffer. */
  method Unwrap(packet: seq<byte>, behind: seq<byte>) returns (ok: bool, frame: S.Frame)
    requires |packet| >= 2 && |behind| >= 4
    requires Masked(packet) ==> HeaderLength(packet, true) <= |packet|
    ensures ok <==> Masked(packet) && !Reserved(packet)
    ensures ok ==>
      var h := HeaderLength(packet, true);
      frame == S.Frame(Fin(packet), ByteValue(OpCode(packet)), Xor(packet[h..], packet[h - 4..h]))
  {
    hide Fin, OpCode, Reserved, Masked, HeaderLength, Xor, ByteValue;
    var all := packet + behind;
    var buf := new byte[|all|](i requires 0 <= i < |all| => all[i]);
    assert buf[..] == all && buf[0..0 + |packet|] == packet;
    SameSlices(packet, behind);
    var fin, code, start, n;
    ok, fin, code, start, n := ServerTakes(buf, 0, |packet|);
    frame := S.Frame(fin, ByteValue(code), if ok then buf[start..start + n] else []);
  }

  lemma SameSlices(packet: seq<byte>, behind: seq<byte>)
    ensures forall i, j :: 0 <= i <= j <= |packet| ==> (packet + behind)[i..j] == packet[i..j]
  {
  }

  /** A packet is taken apart into what was put in it. */
  lemma PacketTells(m: Sent)
    requires Sendable(m)
    ensures var p := Packet(m);
      && Masked(p) == m.masked && Reserved(p) == (m.rsv != 0) && Fin(p) == m.fin && OpCode(p) == m.code
      && (m.masked ==>
            && 4 <= HeaderLength(p, true) <= |p|
            && Xor(p[HeaderLength(p, true)..], p[HeaderLength(p, true) - 4..HeaderLength(p, true)]) == m.data)
  {
    hide Fin, OpCode, Reserved, Masked, HeaderLength, Header, FirstByte, Xor;
    var head, p := Head(m), Packet(m);
    if m.masked {
      var body := Xor(m.data, m.mask);
      HeaderTells(m.fin, m.rsv, m.code, true, |m.data|, m.mask + body);
      assert p == head + (m.mask + body);
      assert p[|head| + 4..] == body && p[|head|..|head| + 4] == m.mask;
      XorTwice(m.data, m.mask);
    } else {
      HeaderTells(m.fin, m.rsv, m.code, false, |m.data|, m.data);
    }
  }

  // --- the whole way

  /** Whether the server takes a frame at all. */
  predicate Accepted(m: Sent) {
    m.masked && m.rsv == 0
  }

  function FrameOf(m: Sent): S.Frame {
    S.Frame(m.fin, ByteValue(m.code), m.data)
  }

  function Frames(ms: seq<Sent>): (fs: seq<S.Frame>)
    ensures |fs| == |ms|
  {
    if ms == [] then [] else [FrameOf(ms[0])] + Frames(ms[1..])
  }

  /** What is sent does to the session what its frames do, and a frame that is not accepted ends it. */
  ghost function Effect(s: S.Fragments, m: Sent): (S.Fragments, seq<S.Event>) {
    if Accepted(m) then S.OnFrame(s, FrameOf(m)) else (s, [S.Closed(1002)])
  }

  ghost function Effects(s: S.Fragments, ms: seq<Sent>): (S.Fragments, seq<S.Event>) {
    if ms == [] then (s, [])
    else
      var n := |ms| - 1;
      var (t, events) := Effects(s, ms[..n]);
      (Effect(t, ms[n]).0, events + Effect(t, ms[n]).1)
  }

  const NEW := S.Fragments(None, 0)

  lemma {:induction false} PacketsAt(ms: seq<Sent>, i: nat)
    requires i < |ms|
    ensures |Packets(ms)| == |ms| && Packets(ms)[i] == Packet(ms[i])
  {
    hide Packet;
    if |ms| > 1 { PacketsAt(ms[1..], if i > 0 then i - 1 else 0); }
  }

  /** A packet is handed to a session. */
  method Hear(session: S.Session, packet: seq<byte>, ghost m: Sent)
    requires Sendable(m) && packet == Packet(m)
    modifies session
    ensures session.State() == Effect(old(session.State()), m).0
    ensures session.events == old(session.events) + Effect(old(session.State()), m).1
  {
    PacketTells(m);
    hide Packet, Fin, OpCode, Reserved, Masked, HeaderLength, Xor, ByteValue;
    var ok, frame := Unwrap(packet, [0, 0, 0, 0]);
    if ok {
      session.OnData(frame);
    } else {
      session.Refuse();
    }
  }

  /** A new session takes packet after packet. */
  method HearAll(packets: seq<seq<byte>>, ghost ms: seq<Sent>) returns (session: S.Session)
    requires (forall i :: 0 <= i < |ms| ==> Sendable(ms[i])) && packets == Packets(ms)
    ensures fresh(session) && session.State() == Effects(NEW, ms).0 && session.events == Effects(NEW, ms).1
  {
    hide Sendable, Packet, Packets, Effect, Effects;
    session := new S.Session();
    NothingHeard(ms);
    var i := 0;
    while i < |packets|
      invariant 0 <= i <= |packets| == |ms| && fresh(session)
      invariant session.State() == Effects(NEW, ms[..i]).0 && session.events == Effects(NEW, ms[..i]).1
    {
      PacketsAt(ms, i);
      OneEffect(ms, i);
      Hear(session, packets[i], ms[i]);
      i := i + 1;
    }
    assert ms[..i] == ms;
  }

  lemma NothingHeard(ms: seq<Sent>)
    ensures Effects(NEW, ms[..0]) == (NEW, []) && |Packets(ms)| == |ms|
  {
    if ms != [] { PacketsAt(ms, 0); }
  }

  lemma OneEffect(ms: seq<Sent>, i: nat)
    requires i < |ms|
    ensures var (s, events) := Effects(NEW, ms[..i]);
      Effects(NEW, ms[..i + 1]) == (Effect(s, ms[i]).0, events + Effect(s, ms[i]).1)
  {
    hide Effect;
    assert ms[..i + 1][..i] == ms[..i];
  }

  /** Whatever a client writes, however the bytes are split on the way, wherever the ring begins and whenever
      events are dealt with: the session is where the frames that are complete so far have brought it, and has
      made exactly their callbacks, in order; and those of all, when the whole stream has been dealt with. */
  method Conversation(c: LoopCache, stream: seq<byte>, ghost ms: seq<Sent>, actions: seq<WsReceive.Action>)
    returns (session: S.Session, handled: nat)
    requires c.Valid() && c.Contents() == [] && stream == Wire(ms)
    requires forall i :: 0 <= i < |ms| ==> Sendable(ms[i])
    modifies c`head, c`tail, c.cache
    ensures handled <= |stream|
    ensures session.State() == Effects(NEW, ms[..Complete(ms, handled)]).0
    ensures session.events == Effects(NEW, ms[..Complete(ms, handled)]).1
    ensures handled == |stream| ==> Complete(ms, handled) == |ms|
  {
    hide Sendable, Packet, Cut, Wire, Complete, Held, Effects;
    var packets, arrived, events;
    packets, handled, arrived, events := WsReceive.Receive(c, stream, actions);
    ghost var k := Complete(ms, handled);
    CutWire(ms, handled);
    session := HearAll(packets, ms[..k]);
  }

  // --- messages

  /** Frames that are accepted have the effect of a run of them. */
  lemma {:induction false} EffectsOfFrames(s: S.Fragments, ms: seq<Sent>)
    requires forall i :: 0 <= i < |ms| ==> Accepted(ms[i])
    ensures Effects(s, ms) == S.Run(s, Frames(ms))
  {
    if ms == [] {
      S.RunNone(s);
    } else {
      var n := |ms| - 1;
      EffectsOfFrames(s, ms[..n]);
      FramesSnoc(ms[..n], ms[n]);
      assert ms[..n] + [ms[n]] == ms;
      S.RunSnoc(s, Frames(ms[..n]), FrameOf(ms[n]));
    }
  }

  lemma {:induction false} FramesSnoc(ms: seq<Sent>, m: Sent)
    ensures Frames(ms + [m]) == Frames(ms) + [FrameOf(m)]
  {
    if ms == [] {
      assert [m][1..] == [] && ms + [m] == [m];
    } else {
      assert (ms + [m])[1..] == ms[1..] + [m];
      FramesSnoc(ms[1..], m);
    }
  }

  /** Texts a client sends in any fragments, with any pings, pongs and frames of reserved codes in between:
      the server delivers them whole, in order and nothing else, and answers every ping. */
  lemma FragmentsDelivered(ms: seq<Sent>, texts: seq<S.Text>)
    requires forall i :: 0 <= i < |ms| ==> Accepted(ms[i])
    requires forall i :: 0 <= i < |texts| ==> S.IsMessage(texts[i]) && S.Good(texts[i])
    requires S.DataFrames(Frames(ms)) == S.AllFrames(texts)
    ensures S.DataEvents(Effects(NEW, ms).1) == S.Deliveries(texts) && Effects(NEW, ms).0.data == None
    ensures S.ControlEvents(Effects(NEW, ms).1) == S.Answers(Frames(ms))
  {
    EffectsOfFrames(NEW, ms);
    hide Effects, Frames, S.Run;
    S.Reassembled(NEW, texts, Frames(ms));
    S.PingsAnswered(NEW, Frames(ms));
  }

  /** A text in the given fragments, each with its mask; the first of all carries the code. */
  function InFragments(code: byte, parts: seq<(seq<byte>, Mask)>, first: bool): seq<Sent> {
    if parts == [] then []
    else
      [Sent(|parts| == 1, 0, if first then code else 0, true, parts[0].1, parts[0].0)] +
      InFragments(code, parts[1..], false)
  }

  function Data(parts: seq<(seq<byte>, Mask)>): (r: seq<seq<byte>>)
    ensures |r| == |parts|
  {
    if parts == [] then [] else [parts[0].0] + Data(parts[1..])
  }

  lemma {:induction false} ContinuationsOf(code: byte, parts: seq<(seq<byte>, Mask)>)
    ensures Frames(InFragments(code, parts, false)) == S.Continuations(Data(parts))
    ensures forall i :: 0 <= i < |InFragments(code, parts, false)| ==> Accepted(InFragments(code, parts, false)[i])
  {
    if parts != [] {
      ContinuationsOf(code, parts[1..]);
      assert InFragments(code, parts, false)[1..] == InFragments(code, parts[1..], false);
      assert Data(parts)[1..] == Data(parts[1..]);
    }
  }

  /** However a client cuts a text into fragments and masks them, the server makes of it the one text, or
      ends the session with 1007 if that is not UTF-8. */
  lemma OneText(code: byte, parts: seq<(seq<byte>, Mask)>)
    requires (code == 1 || code == 2) && parts != []
    ensures var all := Concat(Data(parts));
      Effects(NEW, InFragments(code, parts, true)).1 ==
      [if S.TextOk(ByteValue(code), all) then S.Message(ByteValue(code), all) else S.Closed(1007)]
  {
    hide S.OnFrame, S.Run, S.TextOk, Effects;
    var sent := InFragments(code, parts, true);
    ContinuationsOf(code, parts[1..]);
    assert sent[1..] == InFragments(code, parts[1..], false) && Data(parts)[1..] == Data(parts[1..]);
    assert ByteValue(1) == 1 && ByteValue(2) == 2;
    var m := S.Text(ByteValue(code), Data(parts));
    assert Frames(sent) == S.FramesOf(m);
    EffectsOfFrames(NEW, sent);
    S.MessageRun(NEW, m);
  }

  /** The callbacks for whole messages. */
  function Told(ms: seq<Whole>): seq<S.Event> {
    if ms == [] then []
    else Told(ms[..|ms| - 1]) + [S.Message(if ms[|ms| - 1].text then S.TEXT else S.BINARY, ms[|ms| - 1].data)]
  }

  lemma {:induction false} WholeEffects(ms: seq<Whole>)
    requires forall i :: 0 <= i < |ms| && ms[i].text ==> S.TextOk(S.TEXT, ms[i].data)
    ensures Effects(NEW, AllAlone(ms)) == (NEW, Told(ms))
  {
    hide S.TextOk;
    if ms != [] {
      var n := |ms| - 1;
      WholeEffects(ms[..n]);
      assert AllAlone(ms)[..n] == AllAlone(ms[..n]);
      assert ByteValue(1) == 1 && ByteValue(2) == 2;
      TextsOk(ms[n]);
    }
  }

  lemma TextsOk(m: Whole)
    requires m.text ==> S.TextOk(S.TEXT, m.data)
    ensures S.TextOk(if m.text then S.TEXT else S.BINARY, m.data)
  {
  }

  /** Whatever messages a client sends, the server makes exactly the callbacks of those complete so far, each
      with its code and data, in order. */
  method Messages(c: LoopCache, ms: seq<Whole>, actions: seq<WsReceive.Action>)
    returns (session: S.Session, handled: nat)
    requires c.Valid() && c.Contents() == []
    requires forall i :: 0 <= i < |ms| ==> |ms[i].data| < WORD32 - 14 && (ms[i].text ==> S.TextOk(S.TEXT, ms[i].data))
    modifies c`head, c`tail, c.cache
    ensures session.events == Told(ms[..Complete(AllAlone(ms), handled)])
    ensures handled == |Wire(AllAlone(ms))| ==> session.events == Told(ms)
    ensures session.State().data.None?
  {
    hide Wire, Complete, Effects, Told, S.TextOk, Packet;
    var stream := SendAll(ms);
    session, handled := Conversation(c, stream, AllAlone(ms), actions);
    ghost var k := Complete(AllAlone(ms), handled);
    assert AllAlone(ms)[..k] == AllAlone(ms[..k]);
    WholeEffects(ms[..k]);
    assert ms[..|ms|] == ms;
  }
}
