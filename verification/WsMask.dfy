/** Masking in src/websocket.c (section 5.3 of RFC 6455): the server takes the mask off in place, moving
    the payload four bytes down over the mask, in groups of four bytes that reach past its end. */
module WsMask {
  import opened Bytes
  import opened WsFrame

  function XorByte(a: byte, b: byte): byte {
    a ^ b
  }

  /** The mask byte of a payload byte. */
  function MaskByte(mask: seq<byte>, k: nat): byte
    requires |mask| == 4
  {
    mask[k % 4]
  }

  lemma MaskBytes(mask: seq<byte>, k: nat)
    requires |mask| == 4 && k % 4 == 0
    ensures MaskByte(mask, k) == mask[0] && MaskByte(mask, k + 1) == mask[1]
    ensures MaskByte(mask, k + 2) == mask[2] && MaskByte(mask, k + 3) == mask[3]
  {
  }

  /** The payload with the mask laid over it, or taken off. */
  function Xor(data: seq<byte>, mask: seq<byte>): (r: seq<byte>)
    requires |mask| == 4
    ensures |r| == |data|
  {
    seq(|data|, (i: nat) requires i < |data| => XorByte(data[i], MaskByte(mask, i)))
  }

  lemma XorTwice(data: seq<byte>, mask: seq<byte>)
    requires |mask| == 4
    ensures Xor(Xor(data, mask), mask) == data
  {
    forall i | 0 <= i < |data|
      ensures Xor(Xor(data, mask), mask)[i] == data[i]
    {
      BitsTwice(data[i], MaskByte(mask, i));
    }
  }

  /** Every byte is exclusive-or'ed with the byte of the mask at its place modulo four. */
  lemma XorAt(data: seq<byte>, mask: seq<byte>)
    requires |mask| == 4
    ensures |Xor(data, mask)| == |data|
    ensures forall i :: 0 <= i < |data| ==> Xor(data, mask)[i] == data[i] ^ mask[i % 4]
  {
  }

  lemma BitsTwice(a: byte, b: byte)
    ensures XorByte(XorByte(a, b), b) == a
  {
  }

  /** How far `_unmask_data_overflow` goes. */
  function Reach(length: nat): (n: nat)
    ensures length < n <= length + 4 && n % 4 == 0
  {
    (length / 4 + 1) * 4
  }

  /** One group of four bytes. */
  method UnmaskGroup(buf: array<byte>, dst: nat, mask: seq<byte>)
    requires |mask| == 4 && dst + 8 <= buf.Length
    modifies buf
    ensures buf[dst] == XorByte(old(buf[dst + 4]), mask[0]) && buf[dst + 1] == XorByte(old(buf[dst + 5]), mask[1])
    ensures buf[dst + 2] == XorByte(old(buf[dst + 6]), mask[2]) && buf[dst + 3] == XorByte(old(buf[dst + 7]), mask[3])
    ensures forall i :: 0 <= i < dst || dst + 4 <= i < buf.Length ==> buf[i] == old(buf[i])
  {
    buf[dst] := XorByte(buf[dst + 4], mask[0]);
    buf[dst + 1] := XorByte(buf[dst + 5], mask[1]);
    buf[dst + 2] := XorByte(buf[dst + 6], mask[2]);
    buf[dst + 3] := XorByte(buf[dst + 7], mask[3]);
  }

  /** `_unmask_data_overflow` on overlapping stretches of one buffer, as the server calls it: the payload
      is unmasked four bytes further down, and nothing behind it changes.  Up to four bytes behind the
      payload are read. */
  method UnmaskDown(buf: array<byte>, dst: nat, mask: seq<byte>, length: nat)
    requires |mask| == 4 && dst + 4 + Reach(length) <= buf.Length
    modifies buf
    ensures buf[dst..dst + length] == Xor(old(buf[dst + 4..dst + 4 + length]), mask)
    ensures buf[..dst] == old(buf[..dst]) && buf[dst + 4 + length..] == old(buf[dst + 4 + length..])
  {
    hide XorByte, MaskByte;
    ghost var was := buf[..];
    var n: nat := length / 4 + 1;
    var done: nat := 0;
    while n > 0
      invariant done + 4 * n == Reach(length) && done % 4 == 0
      invariant forall i :: dst <= i < dst + done ==> buf[i] == XorByte(was[i + 4], MaskByte(mask, i - dst))
      invariant forall i :: dst + done <= i < buf.Length ==> buf[i] == was[i]
      invariant forall i :: 0 <= i < dst ==> buf[i] == was[i]
      decreases n
    {
      ghost var before := buf[..];
      UnmaskGroup(buf, dst + done, mask);
      GroupDone(before, buf[..], dst, done, mask);
      done := done + 4;
      n := n - 1;
    }
    Unmasked(was, buf[..], dst, mask, length, done);
  }

  lemma Unmasked(was: seq<byte>, now: seq<byte>, dst: nat, mask: seq<byte>, length: nat, done: nat)
    requires |mask| == 4 && |now| == |was| && length < done <= length + 4 && dst + 4 + done <= |was|
    requires forall i :: dst <= i < dst + done ==> now[i] == XorByte(was[i + 4], MaskByte(mask, i - dst))
    requires forall i :: dst + done <= i < |now| ==> now[i] == was[i]
    requires forall i :: 0 <= i < dst ==> now[i] == was[i]
    ensures now[dst..dst + length] == Xor(was[dst + 4..dst + 4 + length], mask)
    ensures now[..dst] == was[..dst] && now[dst + 4 + length..] == was[dst + 4 + length..]
  {
    hide XorByte, MaskByte;
  }

  lemma GroupDone(before: seq<byte>, after: seq<byte>, dst: nat, done: nat, mask: seq<byte>)
    requires |mask| == 4 && |after| == |before| && dst + done + 8 <= |before| && done % 4 == 0
    requires var d := dst + done;
      && after[d] == XorByte(before[d + 4], mask[0]) && after[d + 1] == XorByte(before[d + 5], mask[1])
      && after[d + 2] == XorByte(before[d + 6], mask[2]) && after[d + 3] == XorByte(before[d + 7], mask[3])
    ensures forall i :: dst + done <= i < dst + done + 4 ==> after[i] == XorByte(before[i + 4], MaskByte(mask, i - dst))
  {
    MaskBytes(mask, done);
    hide MaskByte, XorByte;
    var d := dst + done;
    forall i | d <= i < d + 4
      ensures after[i] == XorByte(before[i + 4], MaskByte(mask, i - dst))
    {
      if i == d {
      } else if i == d + 1 {
      } else if i == d + 2 {
      } else {
        assert i == d + 3;
      }
    }
  }

  /** The same groups into a buffer of their own, as the client calls it.  `data` is what lies at the
      payload's address: the payload and the bytes behind it that are read along. */
  method MaskInto(dst: array<byte>, data: seq<byte>, mask: seq<byte>, length: nat)
    requires |mask| == 4 && Reach(length) <= |data| && Reach(length) <= dst.Length
    modifies dst
    ensures dst[..length] == Xor(data[..length], mask)
    ensures dst[Reach(length)..] == old(dst[Reach(length)..])
  {
    hide XorByte, MaskByte;
    var n: nat := length / 4 + 1;
    var done: nat := 0;
    while n > 0
      invariant done + 4 * n == Reach(length) && done % 4 == 0
      invariant forall i :: 0 <= i < done ==> dst[i] == XorByte(data[i], MaskByte(mask, i))
      invariant forall i :: done <= i < dst.Length ==> dst[i] == old(dst[i])
      decreases n
    {
      MaskGroup(dst, done, data, mask);
      GroupMasked(dst[..], done, data, mask);
      done := done + 4;
      n := n - 1;
    }
  }

  method MaskGroup(dst: array<byte>, at: nat, data: seq<byte>, mask: seq<byte>)
    requires |mask| == 4 && at + 4 <= |data| && at + 4 <= dst.Length
    modifies dst
    ensures dst[at] == XorByte(data[at], mask[0]) && dst[at + 1] == XorByte(data[at + 1], mask[1])
    ensures dst[at + 2] == XorByte(data[at + 2], mask[2]) && dst[at + 3] == XorByte(data[at + 3], mask[3])
    ensures forall i :: 0 <= i < at || at + 4 <= i < dst.Length ==> dst[i] == old(dst[i])
  {
    hide XorByte;
    dst[at] := XorByte(data[at], mask[0]);
    dst[at + 1] := XorByte(data[at + 1], mask[1]);
    dst[at + 2] := XorByte(data[at + 2], mask[2]);
    dst[at + 3] := XorByte(data[at + 3], mask[3]);
  }

  lemma GroupMasked(after: seq<byte>, at: nat, data: seq<byte>, mask: seq<byte>)
    requires |mask| == 4 && at + 4 <= |data| && at + 4 <= |after| && at % 4 == 0
    requires after[at] == XorByte(data[at], mask[0]) && after[at + 1] == XorByte(data[at + 1], mask[1])
    requires after[at + 2] == XorByte(data[at + 2], mask[2]) && after[at + 3] == XorByte(data[at + 3], mask[3])
    ensures forall i :: at <= i < at + 4 ==> after[i] == XorByte(data[i], MaskByte(mask, i))
  {
    MaskBytes(mask, at);
    hide MaskByte, XorByte;
  }

  /** What `_ws_client_data` hands to the socket for an uncompressed message: header and mask, then the
      masked payload. */
  method ClientData(code: byte, data: seq<byte>, length: nat, mask: seq<byte>)
    returns (header: seq<byte>, body: seq<byte>)
    requires |mask| == 4 && Reach(length) <= |data|
    ensures header == Header(FirstByte(true, 0, code), true, length) + mask
    ensures body == Xor(data[..length], mask)
  {
    header := Header(FirstByte(true, 0, code), true, length) + mask;
    var buffer := new byte[length + 4];
    MaskInto(buffer, data, mask, length);
    body := buffer[..length];
  }

  /** The first byte of a frame taken apart. */
  function Fin(data: seq<byte>): bool
    requires |data| >= 2
  {
    data[0] >> 7 != 0
  }

  function OpCode(data: seq<byte>): byte
    requires |data| >= 2
  {
    data[0] & 0x0F
  }

  /** `rsv123`. */
  function Reserved(data: seq<byte>): bool
    requires |data| >= 2
  {
    data[0] & 112 != 0
  }

  function HeaderLength(data: seq<byte>, masked: bool): nat
    requires |data| >= 2
  {
    (if LengthBits(data) < 126 then 2 else if LengthBits(data) == 126 then 4 else 10) + if masked then 4 else 0
  }

  /** The server's first steps with a complete packet of len bytes at `at`: it must be masked and have no reserved
      bit set; then the payload is unmasked in place. */
  method ServerTakes(buf: array<byte>, at: nat, len: nat)
    returns (ok: bool, fin: bool, code: byte, start: nat, length: nat)
    requires len >= 2 && at + len + 4 <= buf.Length
    requires Masked(buf[at..at + len]) ==> HeaderLength(buf[at..at + len], true) <= len
    modifies buf
    ensures ok <==> old(Masked(buf[at..at + len]) && !Reserved(buf[at..at + len]))
    ensures fin == old(Fin(buf[at..at + len])) && code == old(OpCode(buf[at..at + len]))
    ensures ok ==>
      var h := old(HeaderLength(buf[at..at + len], true));
      && start == at + h - 4 && length == len - h
      && buf[start..start + length] == old(Xor(buf[at + h..at + len], buf[at + h - 4..at + h]))
    ensures buf[at + len..] == old(buf[at + len..]) && buf[..at] == old(buf[..at])
  {
    var packet := buf[at..at + len];
    fin, code := Fin(packet), OpCode(packet);
    ok, start, length := false, 0, 0;
    if !Masked(packet) || Reserved(packet) { return; }
    var h := HeaderLength(packet, true);
    ok, start, length := true, at + h - 4, len - h;
    ghost var was := buf[..];
    UnmaskDown(buf, start, buf[start..start + 4], length);
    assert buf[at + len..] == was[at + len..];
    assert buf[..at] == buf[..start][..at];
  }

  /** What the header of a frame tells the receiver, whatever its flags and reserved bits. */
  lemma HeaderTells(fin: bool, rsv: byte, code: byte, masked: bool, length: nat, rest: seq<byte>)
    requires length < WORD32 - 14 && code < 16 && rsv < 8
    ensures var header := Header(FirstByte(fin, rsv, code), masked, length);
            var packet := header + rest;
            && Fin(packet) == fin && OpCode(packet) == code && Reserved(packet) == (rsv != 0)
            && Masked(packet) == masked && HeaderLength(packet, masked) == |header| + if masked then 4 else 0
  {
    var first := FirstByte(fin, rsv, code);
    var packet := Header(first, masked, length) + rest;
    assert packet[0] == first;
    FirstBits(fin, rsv, code);
    if length < 126 { ShortHeader(first, masked, length, packet); }
    else if length < 0xFFFF { MiddleHeader(first, masked, length, packet); }
    else { LongHeader(first, masked, length, packet); }
  }

  /** The first byte is the sum of its parts and falls into them again. */
  lemma FirstBits(fin: bool, rsv: byte, code: byte)
    requires code < 16 && rsv < 8
    ensures var b := FirstByte(fin, rsv, code);
      && b == (if fin then 128 else 0) + 16 * rsv + code
      && (b >> 7 != 0) == fin && b & 0x0F == code && (b & 112 != 0) == (rsv != 0)
  {
  }

  /** Every uncompressed message a client sends is taken by the server as one final frame of the same code
      and payload, whatever the mask and wherever it lies in the buffer. */
  method ClientToServer(code: byte, data: seq<byte>, length: nat, mask: seq<byte>, before: seq<byte>, behind: seq<byte>)
    returns (ok: bool, fin: bool, code': byte, payload: seq<byte>)
    requires |mask| == 4 && code < 16 && length < WORD32 - 14 && Reach(length) <= |data| && |behind| >= 4
    ensures ok && fin && code' == code && payload == data[..length]
  {
    hide Fin, OpCode, Reserved, Masked, HeaderLength, Header, FirstByte, Xor;
    var header, body := ClientData(code, data, length, mask);
    var all := before + (header + body) + behind;
    var buf := new byte[|all|](i requires 0 <= i < |all| => all[i]);
    assert buf[..] == all;
    HeaderTells(true, 0, code, true, length, mask + body);
    FrameSlices(all, before, Header(FirstByte(true, 0, code), true, length), mask, body, behind);
    var start, n;
    ok, fin, code', start, n := ServerTakes(buf, |before|, |header| + |body|);
    XorTwice(data[..length], mask);
    payload := buf[start..start + n];
  }

  lemma FrameSlices(all: seq<byte>, before: seq<byte>, head: seq<byte>, mask: seq<byte>, body: seq<byte>,
                    behind: seq<byte>)
    requires all == before + (head + mask + body) + behind && |mask| == 4
    ensures var at, h := |before|, |head| + 4;
            && all[at..at + h + |body|] == head + (mask + body)
            && all[at + h..at + h + |body|] == body && all[at + h - 4..at + h] == mask
  {
  }
}
