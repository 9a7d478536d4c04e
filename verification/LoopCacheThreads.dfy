/** The ring of src/loop_cache.c between one thread that pushes and one that pops, and as a ring of
    records.  A step is one read or write of an offset, or of one byte.  Each thread works with what it
    read of the other's offset, which may be long out of date. */
module LoopCacheThreads {
  import opened Arithmetic
  import opened Bytes
  import opened LoopCaches

  /** `checked` says whether the call that moves the offset still looks whether there is room, or data: the
      calls that copy have looked before, the ones for data written or read in place look once more. */
  datatype Producer =
    | Resting
    | Filling(data: seq<byte>, done: nat, checked: bool)

  datatype Consumer =
    | Waiting
    | Draining(size: nat, got: seq<byte>, checked: bool)

  /** The ring and its two users; `sent` is everything pushed so far, `received` everything popped. */
  datatype Ring = Ring(bytes: seq<byte>, head: nat, tail: nat, producer: Producer, consumer: Consumer,
                       sent: seq<byte>, received: seq<byte>)

  /** Offer begins `loop_cache_push_data`; Reserve is `loop_cache_get_free` by a caller that has `data` to write,
      Check and Commit are `loop_cache_push`.  Ask begins `loop_cache_pop_data`; Peek is `loop_cache_get_data` by
      a caller that takes `size` bytes, Recheck and Release are `loop_cache_pop`. */
  datatype Step =
    | Offer(data: seq<byte>) | Reserve(wanted: nat, data: seq<byte>) | WriteByte | Check | Commit
    | Ask(size: nat) | Peek(wanted: nat, size: nat) | ReadByte | Recheck | Release

  predicate Enabled(s: Ring, e: Step) {
    match e
    case Offer(_) => s.producer.Resting?
    case Reserve(_, _) => s.producer.Resting?
    case WriteByte => s.producer.Filling? && s.producer.done < |s.producer.data|
    case Check => s.producer.Filling? && s.producer.done == |s.producer.data| && !s.producer.checked
    case Commit => s.producer.Filling? && s.producer.done == |s.producer.data| && s.producer.checked
    case Ask(_) => s.consumer.Waiting?
    case Peek(_, _) => s.consumer.Waiting?
    case ReadByte => s.consumer.Draining? && |s.consumer.got| < s.consumer.size
    case Recheck => s.consumer.Draining? && |s.consumer.got| == s.consumer.size && !s.consumer.checked
    case Release => s.consumer.Draining? && |s.consumer.got| == s.consumer.size && s.consumer.checked
  }

  /** A step that would touch a byte outside the ring changes nothing, nor does a caller that is given less
      than it needs. */
  function Apply(s: Ring, e: Step): Ring
    requires Enabled(s, e)
  {
    var size := |s.bytes|;
    match e
    case Offer(data) =>
      if |data| + Used(s.head, s.tail, size) + 1 > size then s else s.(producer := Filling(data, 0, true))
    case Reserve(wanted, data) =>
      if |data| > FreeStretch(s.head, s.tail, size, wanted) then s else s.(producer := Filling(data, 0, false))
    case WriteByte =>
      var at := Moved(s.tail, s.producer.done, size);
      if !(0 <= at < size) then s
      else s.(bytes := s.bytes[at := s.producer.data[s.producer.done]],
              producer := s.producer.(done := s.producer.done + 1))
    case Check =>
      s.(producer := if |s.producer.data| + Used(s.head, s.tail, size) + 1 > size then Resting
                     else s.producer.(checked := true))
    case Commit =>
      var at := Moved(s.tail, |s.producer.data|, size);
      if at < 0 then s else s.(tail := at, producer := Resting, sent := s.sent + s.producer.data)
    case Ask(n) => if n > Used(s.head, s.tail, size) then s else s.(consumer := Draining(n, [], true))
    case Peek(wanted, n) =>
      if n > DataStretch(s.head, s.tail, size, wanted) then s else s.(consumer := Draining(n, [], false))
    case ReadByte =>
      var at := Moved(s.head, |s.consumer.got|, size);
      if !(0 <= at < size) then s
      else s.(consumer := s.consumer.(got := s.consumer.got + [s.bytes[at]]))
    case Recheck =>
      s.(consumer := if s.consumer.size > Used(s.head, s.tail, size) then Waiting
                     else s.consumer.(checked := true))
    case Release =>
      var at := Moved(s.head, s.consumer.size, size);
      if at < 0 then s else s.(head := at, consumer := Waiting, received := s.received + s.consumer.got)
  }

  function Start(bytes: seq<byte>): Ring {
    Ring(bytes, 0, 0, Resting, Waiting, [], [])
  }

  // --- the invariant

  /** Where the n-th byte ever sent belongs. */
  function Place(n: nat, size: nat): (k: nat)
    requires size > 0
    ensures k < size
  {
    n % size
  }

  lemma PlaceMoved(n: nat, m: nat, size: nat)
    requires 0 < size && m < size
    ensures Moved(Place(n, size), m, size) == Place(n + m, size)
  {
    Division(n, size);
    Division(n + m, size);
    var q, r := n / size, n % size;
    if r + m >= size { SameDivision((n + m) / size, q + 1, (n + m) % size, r + m - size, size); }
    else { SameDivision((n + m) / size, q, (n + m) % size, r + m, size); }
  }

  lemma PlaceUsed(h: nat, t: nat, size: nat)
    requires 0 < size && h <= t < h + size
    ensures Used(Place(h, size), Place(t, size), size) == t - h
  {
    PlaceMoved(h, t - h, size);
  }

  lemma PlacesDiffer(n: nat, m: nat, size: nat)
    requires 0 < size && n < m < n + size
    ensures Place(n, size) != Place(m, size)
  {
    PlaceMoved(n, m - n, size);
  }

  ghost predicate Inv(s: Ring) {
    var size := |s.bytes|;
    && size > 0
    && |s.received| <= |s.sent| < |s.received| + size
    && s.head == Place(|s.received|, size) && s.tail == Place(|s.sent|, size)
    && s.received == s.sent[..|s.received|]
    && (forall n: nat :: |s.received| <= n < |s.sent| ==> s.bytes[Place(n, size)] == s.sent[n])
    && (s.producer.Filling? ==>
          && s.producer.done <= |s.producer.data|
          && |s.sent| + |s.producer.data| < |s.received| + size
          && forall n: nat :: |s.sent| <= n < |s.sent| + s.producer.done ==>
               s.bytes[Place(n, size)] == s.producer.data[n - |s.sent|])
    && (s.consumer.Draining? ==>
          && |s.consumer.got| <= s.consumer.size <= |s.sent| - |s.received|
          && s.consumer.got == s.sent[|s.received|..|s.received| + |s.consumer.got|])
  }

  lemma OfferKeeps(s: Ring, data: seq<byte>)
    requires Inv(s) && Enabled(s, Offer(data))
    ensures Inv(Apply(s, Offer(data)))
  {
    hide Used, Place;
    PlaceUsed(|s.received|, |s.sent|, |s.bytes|);
  }

  /** Writing in place: the stretch is never more than what is free. */
  lemma ReserveKeeps(s: Ring, wanted: nat, data: seq<byte>)
    requires Inv(s) && Enabled(s, Reserve(wanted, data))
    ensures Inv(Apply(s, Reserve(wanted, data)))
  {
    hide Used, Place;
    PlaceUsed(|s.received|, |s.sent|, |s.bytes|);
  }

  lemma PeekKeeps(s: Ring, wanted: nat, n: nat)
    requires Inv(s) && Enabled(s, Peek(wanted, n))
    ensures Inv(Apply(s, Peek(wanted, n)))
  {
    hide Used, Place;
    PlaceUsed(|s.received|, |s.sent|, |s.bytes|);
  }

  /** Looking once more always finds the room there was before, for the consumer only makes more. */
  lemma CheckKeeps(s: Ring)
    requires Inv(s) && Enabled(s, Check)
    ensures Inv(Apply(s, Check)) && Apply(s, Check) == s.(producer := s.producer.(checked := true))
  {
    hide Used, Place;
    PlaceUsed(|s.received|, |s.sent|, |s.bytes|);
  }

  lemma RecheckKeeps(s: Ring)
    requires Inv(s) && Enabled(s, Recheck)
    ensures Inv(Apply(s, Recheck)) && Apply(s, Recheck) == s.(consumer := s.consumer.(checked := true))
  {
    hide Used, Place;
    PlaceUsed(|s.received|, |s.sent|, |s.bytes|);
  }

  lemma WriteKeeps(s: Ring)
    requires Inv(s) && Enabled(s, WriteByte)
    ensures Inv(Apply(s, WriteByte))
    ensures Apply(s, WriteByte) != s
  {
    hide Used, Moved, Place, DataStretch, FreeStretch;
    var size := |s.bytes|;
    var m := |s.sent| + s.producer.done;
    PlaceMoved(|s.sent|, s.producer.done, size);
    forall n: nat | |s.received| <= n < m
      ensures Place(n, size) != Place(m, size)
    {
      PlacesDiffer(n, m, size);
    }
  }

  lemma CommitKeeps(s: Ring)
    requires Inv(s) && Enabled(s, Commit)
    ensures Inv(Apply(s, Commit))
  {
    hide Used, Moved, Place, DataStretch, FreeStretch;
    var size := |s.bytes|;
    PlaceMoved(|s.sent|, |s.producer.data|, size);
  }

  lemma AskKeeps(s: Ring, n: nat)
    requires Inv(s) && Enabled(s, Ask(n))
    ensures Inv(Apply(s, Ask(n)))
  {
    hide Used, Place;
    PlaceUsed(|s.received|, |s.sent|, |s.bytes|);
  }

  lemma ReadKeeps(s: Ring)
    requires Inv(s) && Enabled(s, ReadByte)
    ensures Inv(Apply(s, ReadByte))
    ensures Apply(s, ReadByte) != s
  {
    hide Used, Moved, Place, DataStretch, FreeStretch;
    var n := |s.received| + |s.consumer.got|;
    PlaceMoved(|s.received|, |s.consumer.got|, |s.bytes|);
    assert s.bytes[Place(n, |s.bytes|)] == s.sent[n];
  }

  lemma ReleaseKeeps(s: Ring)
    requires Inv(s) && Enabled(s, Release)
    ensures Inv(Apply(s, Release))
  {
    hide Used, Moved, Place, DataStretch, FreeStretch;
    PlaceMoved(|s.received|, s.consumer.size, |s.bytes|);
  }

  lemma StepKeeps(s: Ring, e: Step)
    requires Inv(s) && Enabled(s, e)
    ensures Inv(Apply(s, e))
  {
    hide Inv;
    match e {
      case Offer(data) => OfferKeeps(s, data);
      case Reserve(wanted, data) => ReserveKeeps(s, wanted, data);
      case WriteByte => WriteKeeps(s);
      case Check => CheckKeeps(s);
      case Commit => CommitKeeps(s);
      case Ask(n) => AskKeeps(s, n);
      case Peek(wanted, n) => PeekKeeps(s, wanted, n);
      case ReadByte => ReadKeeps(s);
      case Recheck => RecheckKeeps(s);
      case Release => ReleaseKeeps(s);
    }
  }

  // --- every run

  ghost predicate IsRun(size: nat, states: seq<Ring>, steps: seq<Step>) {
    && |states| == |steps| + 1
    && |states[0].bytes| == size && states[0] == Start(states[0].bytes)
    && forall i :: 0 <= i < |steps| ==> Enabled(states[i], steps[i]) && states[i + 1] == Apply(states[i], steps[i])
  }

  lemma StartKeeps(bytes: seq<byte>)
    requires bytes != []
    ensures Inv(Start(bytes))
  {
    Division(0, |bytes|);
    SameDivision(0 / |bytes|, 0, 0 % |bytes|, 0, |bytes|);
  }

  lemma {:induction false} RunKeeps(size: nat, states: seq<Ring>, steps: seq<Step>, i: nat)
    requires size > 0 && IsRun(size, states, steps) && i < |states|
    ensures Inv(states[i]) && |states[i].bytes| == size
  {
    hide Inv;
    if i == 0 {
      StartKeeps(states[0].bytes);
    } else {
      RunKeeps(size, states, steps, i - 1);
      StepKeeps(states[i - 1], steps[i - 1]);
    }
  }

  /** The ring is a FIFO of one byte less than its size, in every interleaving: what has been received is
      the beginning of what was sent, and the rest is in the ring, in order. */
  lemma IsFifo(size: nat, states: seq<Ring>, steps: seq<Step>, i: nat)
    requires size > 0 && IsRun(size, states, steps) && i < |states|
    ensures states[i].received <= states[i].sent
    ensures |states[i].sent| - |states[i].received| <= size - 1
    ensures |states[i].bytes| == size && states[i].head < size && states[i].tail < size
    ensures Held(states[i].bytes, states[i].head, states[i].tail) == states[i].sent[|states[i].received|..]
  {
    RunKeeps(size, states, steps, i);
    HeldIsRest(states[i]);
  }

  lemma HeldIsRest(s: Ring)
    requires Inv(s)
    ensures s.received <= s.sent && s.head < |s.bytes| && s.tail < |s.bytes|
    ensures Held(s.bytes, s.head, s.tail) == s.sent[|s.received|..]
  {
    hide Used, Place;
    var size := |s.bytes|;
    PlaceUsed(|s.received|, |s.sent|, size);
    HeldSize(s);
    var held := Held(s.bytes, s.head, s.tail);
    forall j | 0 <= j < |held|
      ensures held[j] == s.sent[|s.received| + j]
    {
      PlaceMoved(|s.received|, j, size);
    }
  }

  lemma HeldSize(s: Ring)
    requires s.head < |s.bytes| && s.tail < |s.bytes|
    ensures |Held(s.bytes, s.head, s.tail)| == Used(s.head, s.tail, |s.bytes|)
    ensures forall j :: 0 <= j < |Held(s.bytes, s.head, s.tail)| ==>
      (0 <= Moved(s.head, j, |s.bytes|) < |s.bytes| &&
       Held(s.bytes, s.head, s.tail)[j] == s.bytes[Moved(s.head, j, |s.bytes|)])
  {
  }

  /** The producer never writes over a byte that has been sent and not been received, and the consumer
      never reads one that has not been sent. */
  lemma NothingOverwritten(size: nat, states: seq<Ring>, steps: seq<Step>, i: nat, n: nat)
    requires size > 0 && IsRun(size, states, steps) && i < |steps|
    requires |states[i].received| <= n < |states[i].sent|
    ensures steps[i].WriteByte? ==> Moved(states[i].tail, states[i].producer.done, size) != Place(n, size)
    ensures steps[i].ReadByte? ==> |states[i].received| + |states[i].consumer.got| < |states[i].sent|
  {
    hide Used, Moved, Place;
    RunKeeps(size, states, steps, i);
    var s := states[i];
    assert Enabled(s, steps[i]);
    if steps[i].WriteByte? {
      PlaceMoved(|s.sent|, s.producer.done, size);
      PlacesDiffer(n, |s.sent| + s.producer.done, size);
    }
  }

  /** Once there has been room, or data, the call that moves the offset does not refuse. */
  lemma NeverRefused(size: nat, states: seq<Ring>, steps: seq<Step>, i: nat)
    requires size > 0 && IsRun(size, states, steps) && i < |steps|
    ensures steps[i].Check? ==> states[i + 1].producer == states[i].producer.(checked := true)
    ensures steps[i].Recheck? ==> states[i + 1].consumer == states[i].consumer.(checked := true)
  {
    hide Inv;
    RunKeeps(size, states, steps, i);
    assert Enabled(states[i], steps[i]) && states[i + 1] == Apply(states[i], steps[i]);
    if steps[i].Check? { CheckKeeps(states[i]); }
    if steps[i].Recheck? { RecheckKeeps(states[i]); }
  }
}
