/** From the ring the io thread fills to the packets the main thread hands over: `_epoll_tcp_socket_on_recv` and
    the data events of `_do_net_evt` in src/epoll_tcp.c, with the parser of src/websocket.c. */
module WsReceive {
  import opened Bytes
  import opened LoopCaches
  import opened WsFrame

  /** One call of recv, and the push of what it gave. */
  method RecvOnce(c: LoopCache, data: seq<byte>)
    requires c.Valid() && |data| <= c.GetFree(0)
    modifies c`tail, c.cache
    ensures c.Valid() && c.Contents() == old(c.Contents()) + data
  {
    c.Fill(data);
    var ok := c.Push(|data|);
    if !ok {
      assert false;
    }
  }

  /** The io thread receives, in place, until nothing comes or the ring is full.  `sizes` says how many bytes
      of the stream the system has ready at each call; the result is how many came. */
  method OnRecv(c: LoopCache, stream: seq<byte>, sizes: seq<nat>) returns (pushed: nat)
    requires c.Valid()
    modifies c`tail, c.cache
    ensures c.Valid() && pushed <= |stream|
    ensures c.Contents() == old(c.Contents()) + stream[..pushed]
  {
    hide Held, FreeStretch;
    ghost var before := c.Contents();
    pushed := 0;
    var i := 0;
    var len := c.GetFree(0);
    assert before + stream[..0] == before;
    while len > 0 && i < |sizes|
      invariant 0 <= i <= |sizes| && pushed <= |stream| && c.Valid() && len == c.GetFree(0)
      invariant c.Contents() == before + stream[..pushed]
      decreases |sizes| - i
    {
      var n := Min(Min(sizes[i], len), |stream| - pushed);
      RecvOnce(c, stream[pushed..pushed + n]);
      Appended(before, stream, pushed, n);
      pushed := pushed + n;
      i := i + 1;
      len := c.GetFree(0);
    }
  }

  lemma Appended(before: seq<byte>, stream: seq<byte>, k: nat, n: nat)
    requires k + n <= |stream|
    ensures (before + stream[..k]) + stream[k..k + n] == before + stream[..k + n]
  {
    assert stream[..k + n] == stream[..k] + stream[k..k + n];
  }

  /** The bytes of all there is to look at: in place if they lie in one stretch, otherwise copied. */
  method Look(c: LoopCache, size: nat) returns (data: seq<byte>)
    requires c.Valid() && size <= |c.Contents()|
    ensures data == c.Contents()[..size]
  {
    var len := c.GetData(size);
    if len < size {
      var ok;
      ok, data := c.CopyData(size);
      if !ok {
        assert false;
      }
    } else {
      data := c.cache[c.head..c.head + len][..size];
      assert c.Contents()[..len][..size] == c.Contents()[..size];
    }
  }

  /** A data event: `length` more bytes are taken notice of, the packets in them are handed over, and what they
      take up is removed from the ring. */
  method OnDataEvent(c: LoopCache, hasRecv: nat, length: nat)
    returns (packets: seq<seq<byte>>, left: nat)
    requires c.Valid() && hasRecv + length <= |c.Contents()|
    modifies c`head
    ensures c.Valid() && packets == Cut(old(c.Contents())[..hasRecv + length]).0
    ensures c.Contents() == Cut(old(c.Contents())[..hasRecv + length]).1 + old(c.Contents())[hasRecv + length..]
    ensures left == |Cut(old(c.Contents())[..hasRecv + length]).1|
  {
    var size := hasRecv + length;
    var data := Look(c, size);
    var rest;
    packets, rest := OnData(data);
    left := |rest|;
    var parsed := size - left;
    ghost var all := c.Contents();
    Parsed(all, size, Concat(packets), rest);
    if parsed > 0 {
      var ok := c.Pop(parsed);
      if !ok {
        assert false;
      }
    }
  }

  lemma Parsed(all: seq<byte>, size: nat, taken: seq<byte>, rest: seq<byte>)
    requires size <= |all| && taken + rest == all[..size]
    ensures |rest| <= size && all[size - |rest|..] == rest + all[size..]
  {
    assert all == (taken + rest) + all[size..];
    assert (taken + (rest + all[size..]))[|taken|..] == rest + all[size..];
    assert all == taken + (rest + all[size..]);
  }

  // --- every run

  /** The io thread receives, or the main thread takes the next event. */
  datatype Action = Arrive(sizes: seq<nat>) | Event

  function Sum(lengths: seq<nat>): nat {
    if lengths == [] then 0 else lengths[0] + Sum(lengths[1..])
  }

  lemma {:induction false} SumSnoc(lengths: seq<nat>, n: nat)
    ensures Sum(lengths + [n]) == Sum(lengths) + n
  {
    if lengths == [] {
      assert [n][1..] == [];
    } else {
      assert (lengths + [n])[1..] == lengths[1..] + [n];
      SumSnoc(lengths[1..], n);
    }
  }

  /** How far things are: `arrived` bytes of the stream have been put in the ring, the events for `handled` of
      them have been dealt with. */
  ghost predicate Underway(c: LoopCache, stream: seq<byte>, arrived: nat, handled: nat, events: seq<nat>,
                           packets: seq<seq<byte>>, hasRecv: nat)
    reads c, c.cache
  {
    && c.Valid() && handled <= arrived <= |stream| && Sum(events) == arrived - handled
    && packets == Cut(stream[..handled]).0 && hasRecv == |Cut(stream[..handled]).1|
    && c.Contents() == Cut(stream[..handled]).1 + stream[handled..arrived]
  }

  /** Whatever sizes the stream comes in, wherever the ring begins, and whenever the main thread gets to its
      events: the packets handed over are those of the stream in one piece, as far as its events have been dealt
      with. */
  method Receive(c: LoopCache, stream: seq<byte>, actions: seq<Action>)
    returns (packets: seq<seq<byte>>, handled: nat, arrived: nat, events: seq<nat>)
    requires c.Valid() && c.Contents() == []
    modifies c`head, c`tail, c.cache
    ensures handled <= arrived <= |stream| && (events == [] ==> handled == arrived)
    ensures packets == Cut(stream[..handled]).0
    ensures c.Valid() && c.Contents() == Cut(stream[..handled]).1 + stream[handled..arrived]
  {
    hide Underway, Sum, Cut;
    var hasRecv: nat := 0;
    packets, handled, arrived, events := [], 0, 0, [];
    NothingYet(c, stream);
    var i := 0;
    while i < |actions|
      invariant 0 <= i <= |actions|
      invariant Underway(c, stream, arrived, handled, events, packets, hasRecv)
    {
      match actions[i] {
        case Arrive(sizes) =>
          arrived, events := ArriveOne(c, stream, arrived, handled, events, packets, hasRecv, sizes);
        case Event =>
          if events != [] {
            packets, hasRecv := TakeEvent(c, stream, arrived, handled, events, packets, hasRecv);
            handled, events := handled + events[0], events[1..];
          }
      }
      i := i + 1;
    }
    Stand(c, stream, arrived, handled, events, packets, hasRecv);
  }

  lemma NothingYet(c: LoopCache, stream: seq<byte>)
    requires c.Valid() && c.Contents() == []
    ensures Underway(c, stream, 0, 0, [], [], 0)
  {
  }

  lemma Stand(c: LoopCache, stream: seq<byte>, arrived: nat, handled: nat, events: seq<nat>,
              packets: seq<seq<byte>>, hasRecv: nat)
    requires Underway(c, stream, arrived, handled, events, packets, hasRecv)
    ensures handled <= arrived <= |stream| && (events == [] ==> handled == arrived)
    ensures packets == Cut(stream[..handled]).0
    ensures c.Valid() && c.Contents() == Cut(stream[..handled]).1 + stream[handled..arrived]
  {
  }

  method ArriveOne(c: LoopCache, stream: seq<byte>, arrived: nat, ghost handled: nat, events: seq<nat>,
                   ghost packets: seq<seq<byte>>, ghost hasRecv: nat, sizes: seq<nat>)
    returns (arrived': nat, events': seq<nat>)
    requires Underway(c, stream, arrived, handled, events, packets, hasRecv)
    modifies c`tail, c.cache
    ensures Underway(c, stream, arrived', handled, events', packets, hasRecv)
  {
    hide Sum, Cut;
    ghost var left := Cut(stream[..handled]).1;
    var pushed := OnRecv(c, stream[arrived..], sizes);
    arrived' := arrived + pushed;
    events' := if pushed > 0 then events + [pushed] else events;
    SumSnoc(events, pushed);
    assert stream[arrived..][..pushed] == stream[arrived..arrived'];
    assert (left + stream[handled..arrived]) + stream[arrived..arrived'] == left + stream[handled..arrived'];
  }

  method TakeEvent(c: LoopCache, ghost stream: seq<byte>, ghost arrived: nat, ghost handled: nat, events: seq<nat>,
                   packets: seq<seq<byte>>, hasRecv: nat)
    returns (packets': seq<seq<byte>>, hasRecv': nat)
    requires Underway(c, stream, arrived, handled, events, packets, hasRecv) && events != []
    modifies c`head
    ensures Underway(c, stream, arrived, handled + events[0], events[1..], packets', hasRecv')
  {
    hide Cut;
    ghost var left, n := Cut(stream[..handled]).1, handled + events[0];
    assert Sum(events) == events[0] + Sum(events[1..]);
    Ahead(left, stream, handled, n, arrived);
    CutLater(stream[..handled], stream[handled..n]);
    assert stream[..handled] + stream[handled..n] == stream[..n];
    var more;
    more, hasRecv' := OnDataEvent(c, hasRecv, events[0]);
    packets' := packets + more;
  }

  lemma Ahead(left: seq<byte>, stream: seq<byte>, i: nat, n: nat, j: nat)
    requires i <= n <= j <= |stream|
    ensures var all := left + stream[i..j];
      all[..|left| + (n - i)] == left + stream[i..n] && all[|left| + (n - i)..] == stream[n..j]
  {
    assert stream[i..j] == stream[i..n] + stream[n..j];
    assert left + stream[i..j] == (left + stream[i..n]) + stream[n..j];
  }
}
