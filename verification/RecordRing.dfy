/** The rings of requests and events of src/epoll_tcp.c: a ring of k times S bytes, used only to write and read
    records of S bytes in place, is a queue of k - 1 records that are never torn. */
module RecordRings {
  import opened Arithmetic
  import opened Bytes
  import opened LoopCaches
  import opened LoopCacheThreads

  // --- offsets that are whole records

  /** So many records, in bytes. */
  function Span(n: nat, size: nat): nat {
    n * size
  }

  lemma Multiples(a: nat, b: nat, size: nat)
    requires size > 0
    ensures a <= b <==> Span(a, size) <= Span(b, size)
    ensures a < b <==> Span(a, size) + size <= Span(b, size)
    ensures Span(a + b, size) == Span(a, size) + Span(b, size)
  {
    if a <= b { assert (b - a) * size >= 0; }
    if a < b { Multiple(b - a, size); }
    if a > b { Multiple(a - b, size); }
  }

  lemma Spans(n: nat, size: nat)
    ensures Span(n + 1, size) == Span(n, size) + size && Span(0, size) == 0 && Span(1, size) == size
  {
  }

  /** How many records are between two offsets. */
  function Between(h: nat, t: nat, records: nat): nat
    requires h < records
  {
    if h <= t then t - h else t + records - h
  }

  function Next(h: nat, records: nat): nat {
    if h + 1 == records then 0 else h + 1
  }

  lemma RecordsUsed(h: nat, t: nat, records: nat, size: nat)
    requires size > 0 && h < records && t < records
    ensures Used(Span(h, size), Span(t, size), Span(records, size)) == Span(Between(h, t, records), size)
  {
    hide Span;
    var queued := Between(h, t, records);
    Multiples(h, t, size);
    Multiples(t, h, size);
    Multiples(t, records, size);
    Spans(0, size);
    if h <= t { Multiples(t - h, h, size); }
    else {
      Multiples(queued, h, size);
      Multiples(t, records, size);
      assert Span(queued + h, size) == Span(t + records, size);
    }
  }

  /** Reading asks for one record: it gets a whole one, in one stretch, exactly if there is one; writing gets
      a whole one exactly while at most two less than the ring's number of records are queued. */
  lemma RecordStretch(h: nat, t: nat, records: nat, size: nat)
    requires size > 0 && h < records && t < records
    ensures DataStretch(Span(h, size), Span(t, size), Span(records, size), size) == if h == t then 0 else size
    ensures FreeStretch(Span(h, size), Span(t, size), Span(records, size), size) == size <==> Between(h, t, records) + 2 <= records
    ensures FreeStretch(Span(h, size), Span(t, size), Span(records, size), size) <= size
    ensures Span(h, size) + size <= Span(records, size) && Span(t, size) + size <= Span(records, size)
  {
    hide Span, Used;
    var queued := Between(h, t, records);
    RecordsUsed(h, t, records, size);
    Spans(queued, size);
    Spans(queued + 1, size);
    Multiples(0, queued, size);
    Multiples(h, records, size);
    Multiples(t, records, size);
    Multiples(queued + 1, records, size);
    Multiples(queued + 2, records, size);
    Multiples(queued, 1, size);
    Multiples(queued, 2, size);
  }

  lemma RecordMoved(h: nat, records: nat, size: nat)
    requires size > 0 && h < records
    ensures Moved(Span(h, size), size, Span(records, size)) == Span(Next(h, records), size)
  {
    hide Span;
    Spans(h, size);
    Multiples(h, records, size);
    Multiples(h + 1, records, size);
  }

  // --- one thread

  ghost predicate OfRecords(c: LoopCache, records: nat, size: nat, h: nat, t: nat)
    reads c
  {
    && size > 0 && h < records && t < records
    && c.cache.Length == Span(records, size) && c.head == Span(h, size) && c.tail == Span(t, size)
  }

  /** The ring holds these records. */
  ghost predicate Holds(c: LoopCache, records: nat, size: nat, queue: seq<seq<byte>>)
    reads c, c.cache
  {
    && (exists h, t :: OfRecords(c, records, size, h, t)) && c.Valid()
    && (forall i :: 0 <= i < |queue| ==> |queue[i]| == size)
    && c.Contents() == Concat(queue)
  }

  lemma {:induction false} ConcatSize(queue: seq<seq<byte>>, size: nat)
    requires forall i :: 0 <= i < |queue| ==> |queue[i]| == size
    ensures |Concat(queue)| == Span(|queue|, size)
  {
    hide Span;
    Spans(0, size);
    if queue != [] {
      ConcatSize(queue[1..], size);
      Spans(|queue| - 1, size);
      assert Span(|queue|, size) == size + Span(|queue[1..]|, size);
    }
  }

  lemma Queued(c: LoopCache, records: nat, size: nat, queue: seq<seq<byte>>, h: nat, t: nat)
    requires Holds(c, records, size, queue) && OfRecords(c, records, size, h, t)
    ensures Between(h, t, records) == |queue|
    ensures c.GetData(size) == if queue == [] then 0 else size
    ensures c.GetFree(size) == size <==> |queue| + 2 <= records
    ensures c.GetFree(size) <= size
  {
    ConcatSize(queue, size);
    RecordsUsed(h, t, records, size);
    RecordStretch(h, t, records, size);
    Multiples(Between(h, t, records), |queue|, size);
    Multiples(|queue|, Between(h, t, records), size);
  }

  /** `create_loop_cache` for a number of records. */
  method NewRing(records: nat, size: nat) returns (c: LoopCache)
    requires size > 0 && records > 0
    ensures fresh(c) && fresh(c.cache) && Holds(c, records, size, [])
  {
    hide Span;
    Spans(0, size);
    Multiples(0, records, size);
    c := new LoopCache(Span(records, size));
    assert OfRecords(c, records, size, 0, 0);
  }

  /** A record is written in place: `loop_cache_get_free`, then `loop_cache_push`. */
  method PutRecord(c: LoopCache, records: nat, size: nat, record: seq<byte>, ghost queue: seq<seq<byte>>)
    returns (ok: bool)
    requires Holds(c, records, size, queue) && |record| == size
    modifies c`tail, c.cache
    ensures ok <==> |queue| + 2 <= records
    ensures Holds(c, records, size, if ok then queue + [record] else queue)
  {
    ghost var h, t :| OfRecords(c, records, size, h, t);
    Queued(c, records, size, queue, h, t);
    RecordStretch(h, t, records, size);
    RecordMoved(t, records, size);
    var len := c.GetFree(size);
    if len < size {
      return false;
    }
    c.Fill(record);
    ok := c.Push(size);
    ConcatSnoc(queue, record);
    assert OfRecords(c, records, size, h, Next(t, records));
  }

  /** A record is read in place: `loop_cache_get_data`, then `loop_cache_pop`. */
  method TakeRecord(c: LoopCache, records: nat, size: nat, ghost queue: seq<seq<byte>>)
    returns (ok: bool, record: seq<byte>)
    requires Holds(c, records, size, queue)
    modifies c`head
    ensures ok <==> queue != []
    ensures ok ==> record == queue[0]
    ensures Holds(c, records, size, if ok then queue[1..] else queue)
  {
    ghost var h, t :| OfRecords(c, records, size, h, t);
    Queued(c, records, size, queue, h, t);
    RecordMoved(h, records, size);
    var len := c.GetData(size);
    if len < size {
      return false, [];
    }
    record := c.cache[c.head..c.head + len];
    assert Concat(queue) == queue[0] + Concat(queue[1..]);
    ok := c.Pop(size);
    assert OfRecords(c, records, size, Next(h, records), t);
  }

  // --- every run of one thread

  datatype Op = Put(record: seq<byte>) | Take

  datatype Answer = Accepted | Refused | Got(record: seq<byte>) | Nothing

  /** A queue of one record less than the ring has. */
  function Turn(records: nat, queue: seq<seq<byte>>, op: Op): (seq<seq<byte>>, Answer) {
    match op
    case Put(r) => if |queue| + 2 <= records then (queue + [r], Accepted) else (queue, Refused)
    case Take => if queue == [] then (queue, Nothing) else (queue[1..], Got(queue[0]))
  }

  function Play(records: nat, ops: seq<Op>): (seq<seq<byte>>, seq<Answer>) {
    if ops == [] then ([], [])
    else
      var before := Play(records, ops[..|ops| - 1]);
      var now := Turn(records, before.0, ops[|ops| - 1]);
      (now.0, before.1 + [now.1])
  }

  lemma PlayNext(records: nat, ops: seq<Op>, i: nat)
    requires i < |ops|
    ensures var before := Play(records, ops[..i]);
      Play(records, ops[..i + 1]) == (Turn(records, before.0, ops[i]).0, before.1 + [Turn(records, before.0, ops[i]).1])
  {
    assert ops[..i + 1][..i] == ops[..i];
  }

  /** Any run of writing and reading records on a new ring is that of a queue of records: each is refused or
      written whole, and read whole, in order. */
  method RunRecords(records: nat, size: nat, ops: seq<Op>) returns (answers: seq<Answer>)
    requires size > 0 && records > 0
    requires forall i :: 0 <= i < |ops| && ops[i].Put? ==> |ops[i].record| == size
    ensures answers == Play(records, ops).1
  {
    hide Holds, Play;
    var c := NewRing(records, size);
    answers := [];
    ghost var queue := [];
    var i := 0;
    PlayNothing(records, ops);
    while i < |ops|
      invariant 0 <= i <= |ops| && fresh(c) && fresh(c.cache)
      invariant Holds(c, records, size, queue) && Play(records, ops[..i]) == (queue, answers)
    {
      PlayNext(records, ops, i);
      match ops[i] {
        case Put(r) =>
          var ok := PutRecord(c, records, size, r, queue);
          answers := answers + [if ok then Accepted else Refused];
        case Take =>
          var ok, r := TakeRecord(c, records, size, queue);
          answers := answers + [if ok then Got(r) else Nothing];
      }
      queue := Turn(records, queue, ops[i]).0;
      i := i + 1;
    }
    assert ops[..i] == ops;
  }

  lemma PlayNothing(records: nat, ops: seq<Op>)
    ensures Play(records, ops[..0]) == ([], [])
  {
  }

  // --- two threads

  /** All either thread does is to write or read one record in place. */
  predicate RecordStep(e: Step, size: nat) {
    match e
    case Offer(_) => false
    case Reserve(wanted, data) => wanted == size == |data|
    case Ask(_) => false
    case Peek(wanted, n) => wanted == size == n
    case _ => true
  }

  predicate RecordSteps(steps: seq<Step>, size: nat) {
    forall i :: 0 <= i < |steps| ==> RecordStep(steps[i], size)
  }

  /** What has been sent and received are whole records, and so is what is under way. */
  predicate Aligned(s: Ring, size: nat, sent: nat, received: nat) {
    && |s.sent| == Span(sent, size) && |s.received| == Span(received, size)
    && (s.producer.Filling? ==> |s.producer.data| == size)
    && (s.consumer.Draining? ==> s.consumer.size == size)
  }

  lemma StepAligned(s: Ring, e: Step, size: nat, sent: nat, received: nat) returns (sent': nat, received': nat)
    requires Enabled(s, e) && RecordStep(e, size) && Aligned(s, size, sent, received)
    ensures Aligned(Apply(s, e), size, sent', received')
  {
    var s' := Apply(s, e);
    sent' := if |s'.sent| > |s.sent| then sent + 1 else sent;
    received' := if |s'.received| > |s.received| then received + 1 else received;
    hide Span, DataStretch, FreeStretch, Used;
    Spans(sent, size);
    Spans(received, size);
  }

  lemma {:induction false} RunAligned(states: seq<Ring>, steps: seq<Step>, total: nat, size: nat, i: nat)
    returns (sent: nat, received: nat)
    requires IsRun(total, states, steps) && RecordSteps(steps, size) && i < |states|
    ensures Aligned(states[i], size, sent, received)
  {
    hide Span, Apply;
    Spans(0, size);
    if i == 0 {
      sent, received := 0, 0;
    } else {
      sent, received := RunAligned(states, steps, total, size, i - 1);
      sent, received := StepAligned(states[i - 1], steps[i - 1], size, sent, received);
    }
  }

  lemma RecordPlace(n: nat, records: nat, size: nat)
    requires size > 0 && records > 0
    ensures Span(records, size) > 0 && Place(Span(n, size), Span(records, size)) == Span(n % records, size)
  {
    var total, q, r := Span(records, size), n / records, n % records;
    Spans(0, size);
    Multiples(0, records, size);
    Multiples(r, records, size);
    Division(n, records);
    Division(Span(n, size), total);
    Regrouped(n, q, records, r, size);
    SameDivision(Span(n, size) / total, q, Span(n, size) % total, Span(r, size), total);
  }

  lemma Regrouped(n: nat, q: nat, records: nat, r: nat, size: nat)
    requires n == q * records + r
    ensures Span(n, size) == q * Span(records, size) + Span(r, size)
  {
  }

  lemma BetweenPlaces(sent: nat, received: nat, records: nat)
    requires records > 0 && received <= sent < received + records
    ensures Between(received % records, sent % records, records) == sent - received
  {
    Division(sent, records);
    Division(received, records);
    PlaceUsed(received, sent, records);
  }

  lemma RecordsInRing(sent: nat, received: nat, records: nat, size: nat)
    requires size > 0 && Span(received, size) <= Span(sent, size) < Span(received, size) + Span(records, size)
    ensures received <= sent < received + records
  {
    hide Span;
    Multiples(received, sent, size);
    Multiples(received + records, sent, size);
    Multiples(received, records, size);
  }

  /** In every interleaving of a thread that writes records and one that reads them, in place: at any time what
      has been sent and received are whole records, the next to be received is the next that was sent, reading
      gets it whole or nothing if there is none, and writing gets room for a whole one exactly while at most
      two less than the ring's number of records are queued. */
  lemma WholeRecords(records: nat, size: nat, states: seq<Ring>, steps: seq<Step>, i: nat)
    returns (sent: nat, received: nat)
    requires records > 0 && size > 0 && i < |states|
    requires IsRun(Span(records, size), states, steps) && RecordSteps(steps, size)
    ensures Aligned(states[i], size, sent, received) && received <= sent < received + records
    ensures states[i].received <= states[i].sent
    ensures InRecords(states[i], records, size, sent, received)
  {
    hide Span, LoopCacheThreads.Inv, InRecords;
    Spans(0, size);
    Multiples(0, records, size);
    sent, received := RunAligned(states, steps, Span(records, size), size, i);
    RunKeeps(Span(records, size), states, steps, i);
    AlignedOffsets(records, size, states[i], sent, received);
  }

  /** What the two threads are given if they ask now. */
  ghost predicate InRecords(s: Ring, records: nat, size: nat, sent: nat, received: nat) {
    && DataStretch(s.head, s.tail, |s.bytes|, size) == (if received == sent then 0 else size)
    && (FreeStretch(s.head, s.tail, |s.bytes|, size) == size <==> sent - received + 2 <= records)
    && (received < sent ==>
          && s.head + size <= |s.bytes| && Span(received + 1, size) == Span(received, size) + size <= |s.sent|
          && s.bytes[s.head..s.head + size] == s.sent[Span(received, size)..Span(received + 1, size)])
  }

  lemma AlignedOffsets(records: nat, size: nat, s: Ring, sent: nat, received: nat)
    requires records > 0 && size > 0 && |s.bytes| == Span(records, size) && LoopCacheThreads.Inv(s)
    requires Aligned(s, size, sent, received)
    ensures received <= sent < received + records && s.received <= s.sent
    ensures InRecords(s, records, size, sent, received)
  {
    hide Span, Used, Place, DataStretch, FreeStretch, Held;
    RecordsInRing(sent, received, records, size);
    RecordPlace(sent, records, size);
    RecordPlace(received, records, size);
    BetweenPlaces(sent, received, records);
    RecordStretch(received % records, sent % records, records, size);
    Spans(received, size);
    if received < sent {
      Multiples(received, sent, size);
      FrontRecord(s, size, Span(received, size));
    }
  }

  lemma FrontRecord(s: Ring, size: nat, from: nat)
    requires LoopCacheThreads.Inv(s) && |s.received| == from && from + size <= |s.sent|
    requires s.head + size <= |s.bytes|
    ensures s.bytes[s.head..s.head + size] == s.sent[from..from + size]
  {
    hide LoopCacheThreads.Inv;
    var a, b := s.bytes[s.head..s.head + size], s.sent[from..from + size];
    forall j | 0 <= j < size
      ensures a[j] == b[j]
    {
      FrontByte(s, from, j);
    }
  }

  lemma FrontByte(s: Ring, from: nat, j: nat)
    requires LoopCacheThreads.Inv(s) && |s.received| == from && from + j < |s.sent|
    requires s.head + j < |s.bytes|
    ensures s.bytes[s.head + j] == s.sent[from + j]
  {
    hide Used, Place;
    PlaceMoved(from, j, |s.bytes|);
    assert s.bytes[Place(from + j, |s.bytes|)] == s.sent[from + j];
  }
}
