/** Frames of src/websocket.c on the wire (section 5.2 of RFC 6455): their headers, where one ends, and
    the packets a stream of them is cut into. */
module WsFrame {
  import opened Bytes

  /** The first byte of a frame: whether it is the last of its message, the three reserved bits, the code. */
  function FirstByte(fin: bool, rsv: byte, code: byte): byte {
    (if fin then 0x80 else 0) | ((rsv & 7) << 4) | (code & 0x0F)
  }

  /** The header `_ws_server_data` and `_ws_client_data` write in front of a payload, without the mask. */
  function Header(first: byte, masked: bool, length: nat): (h: seq<byte>)
    ensures |h| == if length < 126 then 2 else if length < 0xFFFF then 4 else 10
  {
    var bit: byte := if masked then 0x80 else 0;
    if length < 126 then [first, ToByte(length) | bit]
    else if length < 0xFFFF then [first, 126 | bit] + BigEndian(length, 2)
    else [first, 127 | bit] + BigEndian(length, 8)
  }

  function LengthBits(data: seq<byte>): byte
    requires |data| >= 2
  {
    data[1] & 0x7F
  }

  function Masked(data: seq<byte>): bool
    requires |data| >= 2
  {
    data[1] >> 7 != 0
  }

  /** `_parser_web_socket_packet`: 0 while the packet is not all there, then its length, in 32-bit
      arithmetic. */
  function PacketLength(data: seq<byte>): nat {
    if |data| < 2 then 0
    else
      var masked := if Masked(data) then 4 else 0;
      if LengthBits(data) < 126 then Complete(data, 2 + masked, ByteValue(LengthBits(data)))
      else if LengthBits(data) == 126 then
        if |data| < 4 then 0 else Complete(data, 4 + masked, FromBigEndian(data[2..4]))
      else
        if |data| < 10 then 0 else Complete(data, 10 + masked, FromBigEndian(data[2..10]) % WORD32)
  }

  function Complete(data: seq<byte>, header: nat, payload: nat): nat {
    var length := (header + payload) % WORD32;
    if length > |data| then 0 else length
  }

  // --- one frame

  lemma Bits(length: byte, masked: bool)
    requires length < 128
    ensures var b := length | (if masked then 0x80 else 0 as byte);
            b & 0x7F == length && ((b >> 7 != 0) == masked)
  {
  }

  ghost predicate IsPrefix(p: seq<byte>, s: seq<byte>) {
    |p| <= |s| && s[..|p|] == p
  }

  /** Whatever part of a frame has arrived, and whatever has arrived behind it: the parser waits until
      the frame is complete, and then gives its length. */
  lemma FrameLength(first: byte, masked: bool, mask: seq<byte>, payload: seq<byte>, seen: seq<byte>)
    requires |mask| == if masked then 4 else 0
    requires |payload| < WORD32 - 14
    requires IsPrefix(seen, Header(first, masked, |payload|) + mask + payload) ||
             IsPrefix(Header(first, masked, |payload|) + mask + payload, seen)
    ensures var frame := Header(first, masked, |payload|) + mask + payload;
            PacketLength(seen) == if |seen| < |frame| then 0 else |frame|
  {
    var header := Header(first, masked, |payload|);
    var frame := header + mask + payload;
    forall k | 0 <= k < |seen| && k < |header|
      ensures seen[k] == header[k]
    {
      assert frame[k] == header[k];
      if IsPrefix(seen, frame) { assert frame[..|seen|][k] == seen[k]; }
      else { assert seen[..|frame|][k] == frame[k]; }
    }
    HeaderSeen(first, masked, |payload|, seen);
  }

  ghost predicate Starts(seen: seq<byte>, header: seq<byte>) {
    forall k :: 0 <= k < |seen| && k < |header| ==> seen[k] == header[k]
  }

  lemma HeaderSeen(first: byte, masked: bool, length: nat, seen: seq<byte>)
    requires length < WORD32 - 14 && Starts(seen, Header(first, masked, length))
    ensures var total := |Header(first, masked, length)| + (if masked then 4 else 0) + length;
            PacketLength(seen) == if |seen| < total then 0 else total
  {
    hide BigEndian, FromBigEndian, Starts, Header, LengthBits, Masked, ByteValue, ToByte;
    if |seen| >= 2 {
      if length < 126 { ShortHeader(first, masked, length, seen); }
      else if length < 0xFFFF { MiddleHeader(first, masked, length, seen); }
      else { LongHeader(first, masked, length, seen); }
    }
  }

  lemma ShortHeader(first: byte, masked: bool, length: nat, seen: seq<byte>)
    requires length < 126 && |seen| >= 2 && Starts(seen, Header(first, masked, length))
    ensures LengthBits(seen) < 126 && ByteValue(LengthBits(seen)) == length && Masked(seen) == masked
  {
    assert seen[1] == Header(first, masked, length)[1];
    Bits(ToByte(length), masked);
  }

  lemma MiddleHeader(first: byte, masked: bool, length: nat, seen: seq<byte>)
    requires 126 <= length < 0xFFFF && |seen| >= 2 && Starts(seen, Header(first, masked, length))
    ensures LengthBits(seen) == 126 && Masked(seen) == masked
    ensures |seen| >= 4 ==> FromBigEndian(seen[2..4]) == length
  {
    var header := Header(first, masked, length);
    assert seen[1] == header[1];
    Bits(126, masked);
    if |seen| >= 4 {
      assert seen[2] == header[2] && seen[3] == header[3];
      assert header[2..4] == BigEndian(length, 2);
      assert seen[2..4] == header[2..4];
      assert Pow256(2) == 0x1_0000;
      BigEndianRead(length, 2);
    }
  }

  lemma LongHeader(first: byte, masked: bool, length: nat, seen: seq<byte>)
    requires 0xFFFF <= length < WORD32 && |seen| >= 2 && Starts(seen, Header(first, masked, length))
    ensures LengthBits(seen) == 127 && Masked(seen) == masked
    ensures |seen| >= 10 ==> FromBigEndian(seen[2..10]) == length
  {
    var header := Header(first, masked, length);
    assert seen[1] == header[1];
    Bits(127, masked);
    if |seen| >= 10 {
      assert header[2..10] == BigEndian(length, 8);
      SameSlice(seen, header, 2, 10);
      EightBytes();
      BigEndianRead(length, 8);
    }
  }

  lemma SameSlice(seen: seq<byte>, header: seq<byte>, i: nat, j: nat)
    requires i <= j <= |seen| && j <= |header| && Starts(seen, header)
    ensures seen[i..j] == header[i..j]
  {
  }

  /** The header in numbers: the first byte, then the length with 128 added if there is a mask, or 126 or 127
      in its place and the length in two or eight bytes. */
  lemma HeaderBytes(first: byte, masked: bool, length: nat)
    requires length < WORD32
    ensures var h := Header(first, masked, length);
      && h[0] == first
      && ByteValue(h[1]) == (if masked then 128 else 0) +
                            (if length < 126 then length else if length < 65535 then 126 else 127)
      && (126 <= length < 65535 ==> length == 256 * ByteValue(h[2]) + ByteValue(h[3]))
      && (65535 <= length ==> FromBigEndian(h[2..]) == length)
  {
    hide ByteValue, ToByte, BigEndian, FromBigEndian;
    var h := Header(first, masked, length);
    if length < 126 {
      WithBit(ToByte(length), masked);
    } else if length < 65535 {
      Marks();
      WithBit(126, masked);
      TwoBytes(length);
      assert h[2..] == BigEndian(length, 2) && h[2] == h[2..][0] && h[3] == h[2..][1];
    } else {
      Marks();
      WithBit(127, masked);
      EightBytes();
      BigEndianRead(length, 8);
      assert h[2..] == BigEndian(length, 8);
    }
  }

  lemma Marks()
    ensures ByteValue(126) == 126 && ByteValue(127) == 127
  {
  }

  lemma WithBit(b: byte, masked: bool)
    requires ByteValue(b) < 128
    ensures ByteValue(b | if masked then 0x80 else 0) == ByteValue(b) + if masked then 128 else 0
  {
    assert b < 128;
    if masked { assert b | 0x80 == b + 0x80; }
    assert b | 0 == b;
  }

  lemma TwoBytes(v: nat)
    requires v < 0x1_0000
    ensures var b := BigEndian(v, 2); v == 256 * ByteValue(b[0]) + ByteValue(b[1])
  {
    hide ToByte;
    var b := BigEndian(v, 2);
    assert Pow256(2) == 0x1_0000;
    BigEndianRead(v, 2);
    assert b[..1][..0] == [] && FromBigEndian([]) == 0;
    assert FromBigEndian(b[..1]) == ByteValue(b[0]);
  }

  // --- a stream of packets

  /** More bytes behind a complete packet do not change where it ends. */
  lemma LengthStable(data: seq<byte>, more: seq<byte>)
    requires PacketLength(data) > 0
    ensures PacketLength(data + more) == PacketLength(data) <= |data|
  {
    var all := data + more;
    assert all[0] == data[0] && all[1] == data[1];
    if LengthBits(data) == 126 { assert all[2..4] == data[2..4]; }
    if LengthBits(data) > 126 { assert all[2..10] == data[2..10]; }
  }

  /** The packets in a stretch of a stream, and what is left for later. */
  function Cut(data: seq<byte>): (r: (seq<seq<byte>>, seq<byte>))
    decreases |data|
  {
    var n := PacketLength(data);
    if n == 0 || n > |data| then ([], data)
    else
      var rest := Cut(data[n..]);
      ([data[..n]] + rest.0, rest.1)
  }

  /** Cutting what is there, and later the rest with what has arrived since, is cutting it all at once. */
  lemma {:induction false} CutLater(data: seq<byte>, more: seq<byte>)
    ensures Cut(data + more) == (Cut(data).0 + Cut(Cut(data).1 + more).0, Cut(Cut(data).1 + more).1)
    decreases |data|
  {
    var n := PacketLength(data);
    if n == 0 || n > |data| {
      assert [] + Cut(data + more).0 == Cut(data + more).0;
    } else {
      CutFirst(data, more);
      CutLater(data[n..], more);
      hide Cut, PacketLength;
      Regroup([data[..n]], Cut(data[n..]).0, Cut(Cut(data).1 + more).0);
    }
  }

  lemma Regroup(a: seq<seq<byte>>, b: seq<seq<byte>>, c: seq<seq<byte>>)
    ensures a + (b + c) == (a + b) + c
  {
  }

  lemma CutFirst(data: seq<byte>, more: seq<byte>)
    requires 0 < PacketLength(data) <= |data|
    ensures var n := PacketLength(data);
            && Cut(data + more) == ([data[..n]] + Cut(data[n..] + more).0, Cut(data[n..] + more).1)
            && Cut(data) == ([data[..n]] + Cut(data[n..]).0, Cut(data[n..]).1)
  {
    LengthStable(data, more);
    hide PacketLength;
    var n := PacketLength(data);
    assert (data + more)[..n] == data[..n];
    assert (data + more)[n..] == data[n..] + more;
  }

  /** No packet is a piece of one or more than one: what is left never holds a complete packet. */
  lemma {:induction false} LeftIncomplete(data: seq<byte>)
    ensures var left := Cut(data).1; PacketLength(left) == 0
    decreases |data|
  {
    var n := PacketLength(data);
    if n != 0 && n <= |data| { LeftIncomplete(data[n..]); }
    else { LengthBound(data); }
  }

  lemma LengthBound(data: seq<byte>)
    ensures PacketLength(data) <= |data|
  {
  }

  /** The packets and the rest are all there was. */
  lemma {:induction false} CutWhole(data: seq<byte>)
    ensures Concat(Cut(data).0) + Cut(data).1 == data
    decreases |data|
  {
    hide Cut, PacketLength, Concat;
    var n := PacketLength(data);
    CutStep(data);
    if n == 0 || n > |data| {
      NoParts(data);
    } else {
      var rest := Cut(data[n..]);
      CutWhole(data[n..]);
      ConcatCons(data[..n], rest.0);
      assert (data[..n] + Concat(rest.0)) + rest.1 == data[..n] + (Concat(rest.0) + rest.1);
    }
  }

  lemma CutStep(data: seq<byte>)
    ensures var n := PacketLength(data);
      Cut(data) == if n == 0 || n > |data| then ([], data) else ([data[..n]] + Cut(data[n..]).0, Cut(data[n..]).1)
  {
    hide PacketLength;
  }

  lemma NoParts(data: seq<byte>)
    ensures Concat([]) + data == data
  {
  }

  /** The receiving loop of `_do_net_evt` on the data there is: packets are handed over until one is not
      complete. */
  method OnData(data: seq<byte>) returns (packets: seq<seq<byte>>, left: seq<byte>)
    ensures (packets, left) == Cut(data)
    ensures PacketLength(left) == 0 && Concat(packets) + left == data
  {
    hide PacketLength;
    left := data;
    packets := [];
    assert [] + Cut(left).0 == Cut(left).0;
    while left != []
      invariant Cut(data) == (packets + Cut(left).0, Cut(left).1)
      decreases |left|
    {
      var n := PacketLength(left);
      if n == 0 || n > |left| {
        break;
      }
      assert packets + ([left[..n]] + Cut(left[n..]).0) == (packets + [left[..n]]) + Cut(left[n..]).0;
      packets := packets + [left[..n]];
      left := left[n..];
    }
    LeftIncomplete(data);
    CutWhole(data);
    assert Cut(left) == ([], left);
    assert packets + [] == packets;
  }
}
