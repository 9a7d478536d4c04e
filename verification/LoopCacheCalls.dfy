/** What comes of the calls on the ring of src/loop_cache.c when two threads use it: which are refused, what the
    others do at each of their steps, and that they end with their bytes sent or received. */
module LoopCacheCalls {
  import opened Arithmetic
  import opened Bytes
  import opened LoopCaches
  import opened LoopCacheThreads

  function Least(a: int, b: int): (m: int)
    ensures m <= a && m <= b && (m == a || m == b)
  {
    if a <= b then a else b
  }

  /** So many bytes are sent and not received. */
  function Unread(s: Ring): int {
    |s.sent| - |s.received|
  }

  /** So many may still be sent: one byte of the ring is never used. */
  function Room(s: Ring): int {
    |s.bytes| - 1 - Unread(s)
  }

  /** A stretch in place: what is asked for, zero for all, of what there is, up to the end of the ring. */
  function InPlace(wanted: nat, there: int, toEnd: int): int {
    Least(if wanted == 0 then there else Least(wanted, there), toEnd)
  }

  /** What a step does, told by what has been sent and received. */
  ghost predicate Told(s: Ring, e: Step, next: Ring)
    requires |s.bytes| > 0 && Enabled(s, e)
  {
    var size := |s.bytes|;
    match e
    case Offer(data) =>
      next == if |data| <= Room(s) then s.(producer := Filling(data, 0, true)) else s
    case Reserve(wanted, data) =>
      next == if |data| <= InPlace(wanted, Room(s), size - |s.sent| % size)
              then s.(producer := Filling(data, 0, false)) else s
    case WriteByte =>
      var p := s.producer;
      next == s.(bytes := s.bytes[(|s.sent| + p.done) % size := p.data[p.done]],
                 producer := Filling(p.data, p.done + 1, p.checked))
    case Check => next == s.(producer := Filling(s.producer.data, s.producer.done, true))
    case Commit =>
      next == s.(tail := (|s.sent| + |s.producer.data|) % size, producer := Resting,
                 sent := s.sent + s.producer.data)
    case Ask(n) => next == if n <= Unread(s) then s.(consumer := Draining(n, [], true)) else s
    case Peek(wanted, n) =>
      next == if n <= InPlace(wanted, Unread(s), size - |s.received| % size)
              then s.(consumer := Draining(n, [], false)) else s
    case ReadByte =>
      var c := s.consumer;
      && |s.received| + |c.got| < |s.sent|
      && next == s.(consumer := Draining(c.size, c.got + [s.sent[|s.received| + |c.got|]], c.checked))
    case Recheck => next == s.(consumer := Draining(s.consumer.size, s.consumer.got, true))
    case Release =>
      var after := |s.received| + s.consumer.size;
      && after <= |s.sent|
      && next == s.(head := after % size, consumer := Waiting, received := s.sent[..after])
  }

  lemma AsksTold(s: Ring, e: Step)
    requires LoopCacheThreads.Inv(s) && Enabled(s, e) && (e.Offer? || e.Reserve? || e.Ask? || e.Peek?)
    ensures Told(s, e, Apply(s, e))
  {
    hide Used;
    PlaceUsed(|s.received|, |s.sent|, |s.bytes|);
  }

  lemma WritesTold(s: Ring, e: Step)
    requires LoopCacheThreads.Inv(s) && Enabled(s, e) && (e.WriteByte? || e.Check? || e.Commit?)
    ensures Told(s, e, Apply(s, e))
  {
    hide Used, Moved;
    if e.Check? { CheckKeeps(s); }
    else { PlaceMoved(|s.sent|, if e.WriteByte? then s.producer.done else |s.producer.data|, |s.bytes|); }
  }

  lemma ReadsTold(s: Ring, e: Step)
    requires LoopCacheThreads.Inv(s) && Enabled(s, e) && (e.ReadByte? || e.Recheck? || e.Release?)
    ensures Told(s, e, Apply(s, e))
  {
    hide Used, Moved;
    var n := |s.received|;
    if e.Recheck? {
      RecheckKeeps(s);
    } else {
      PlaceMoved(n, if e.ReadByte? then |s.consumer.got| else s.consumer.size, |s.bytes|);
      assert s.sent[..n] + s.sent[n..n + |s.consumer.got|] == s.sent[..n + |s.consumer.got|];
    }
  }

  /** Every step of every interleaving: a call is refused exactly if there is no room for its bytes, or not as
      many bytes as it asks for, and changes nothing then; otherwise each of its steps moves one byte to or from
      its place, and the last one sends or receives all of them at once. */
  lemma StepTold(size: nat, states: seq<Ring>, steps: seq<Step>, i: nat)
    requires size > 0 && IsRun(size, states, steps) && i < |steps|
    ensures |states[i].bytes| == size && Enabled(states[i], steps[i]) && Told(states[i], steps[i], states[i + 1])
  {
    hide LoopCacheThreads.Inv, Told, Enabled;
    RunKeeps(size, states, steps, i);
    var s, e := states[i], steps[i];
    assert Enabled(s, e) && states[i + 1] == Apply(s, e);
    match e {
      case Offer(_) => AsksTold(s, e);
      case Reserve(_, _) => AsksTold(s, e);
      case WriteByte => WritesTold(s, e);
      case Check => WritesTold(s, e);
      case Commit => WritesTold(s, e);
      case Ask(_) => AsksTold(s, e);
      case Peek(_, _) => AsksTold(s, e);
      case ReadByte => ReadsTold(s, e);
      case Recheck => ReadsTold(s, e);
      case Release => ReadsTold(s, e);
    }
  }

  // --- whole calls

  predicate OfProducer(e: Step) {
    e.Offer? || e.Reserve? || e.WriteByte? || e.Check? || e.Commit?
  }

  /** How many steps the one thread, or the other, takes. */
  function Turns(steps: seq<Step>, producer: bool): nat {
    if steps == [] then 0
    else Turns(steps[..|steps| - 1], producer) + if OfProducer(steps[|steps| - 1]) == producer then 1 else 0
  }

  /** How many steps are left of a call: one for each byte, one to look once more if it has not, and one to move
      the offset. */
  function PushLeft(p: Producer): int {
    if p.Resting? then 0 else |p.data| - p.done + if p.checked then 1 else 2
  }

  function PopLeft(c: Consumer): int {
    if c.Waiting? then 0 else c.size - |c.got| + if c.checked then 1 else 2
  }

  /** A push under way ends after its own steps, whatever the consumer does between them, with exactly its bytes
      sent; until then it has sent nothing. */
  lemma {:induction false} PushEnds(size: nat, states: seq<Ring>, steps: seq<Step>, i: nat, j: nat)
    requires size > 0 && IsRun(size, states, steps) && i <= j < |states| && states[i].producer.Filling?
    requires Turns(steps[i..j], true) <= PushLeft(states[i].producer)
    ensures var p, left := states[i].producer, PushLeft(states[i].producer) - Turns(steps[i..j], true);
      if left > 0 then
        && states[j].producer.Filling? && states[j].producer.data == p.data
        && PushLeft(states[j].producer) == left && states[j].sent == states[i].sent
      else states[j].producer == Resting && states[j].sent == states[i].sent + p.data
  {
    hide Told, Apply, Enabled;
    if i < j {
      TurnsNext(steps, i, j, true);
      PushEnds(size, states, steps, i, j - 1);
      PushStep(size, states, steps, j - 1);
    } else {
      PushHasLeft(size, states, steps, i);
    }
  }

  lemma TurnsNext(steps: seq<Step>, i: nat, j: nat, producer: bool)
    requires i < j <= |steps|
    ensures Turns(steps[i..j], producer) ==
      Turns(steps[i..j - 1], producer) + if OfProducer(steps[j - 1]) == producer then 1 else 0
  {
    assert steps[i..j][..j - i - 1] == steps[i..j - 1];
  }

  lemma PushHasLeft(size: nat, states: seq<Ring>, steps: seq<Step>, i: nat)
    requires size > 0 && IsRun(size, states, steps) && i < |states| && states[i].producer.Filling?
    ensures PushLeft(states[i].producer) > 0
  {
    RunKeeps(size, states, steps, i);
  }

  lemma PushStep(size: nat, states: seq<Ring>, steps: seq<Step>, i: nat)
    requires size > 0 && IsRun(size, states, steps) && i < |steps|
    ensures !OfProducer(steps[i]) ==>
      states[i + 1].producer == states[i].producer && states[i + 1].sent == states[i].sent
    ensures OfProducer(steps[i]) && states[i].producer.Filling? ==>
      var p, q := states[i].producer, states[i + 1].producer;
      && PushLeft(q) == PushLeft(p) - 1
      && if PushLeft(p) > 1 then q.Filling? && q.data == p.data && states[i + 1].sent == states[i].sent
         else q == Resting && states[i + 1].sent == states[i].sent + p.data
  {
    hide Apply;
    StepTold(size, states, steps, i);
  }

  /** So does a pop, whatever the producer does, with the next bytes that were sent; until then it has received
      nothing. */
  lemma {:induction false} PopEnds(size: nat, states: seq<Ring>, steps: seq<Step>, i: nat, j: nat)
    requires size > 0 && IsRun(size, states, steps) && i <= j < |states| && states[i].consumer.Draining?
    requires Turns(steps[i..j], false) <= PopLeft(states[i].consumer)
    ensures var c, left := states[i].consumer, PopLeft(states[i].consumer) - Turns(steps[i..j], false);
      if left > 0 then
        && states[j].consumer.Draining? && states[j].consumer.size == c.size
        && PopLeft(states[j].consumer) == left && states[j].received == states[i].received
      else
        && states[j].consumer == Waiting && |states[i].received| + c.size <= |states[i].sent|
        && states[j].received == states[i].sent[..|states[i].received| + c.size]
  {
    hide Told, Apply, Enabled;
    if i < j {
      TurnsNext(steps, i, j, false);
      PopEnds(size, states, steps, i, j - 1);
      PopStep(size, states, steps, j - 1);
      SentGrows(size, states, steps, i, j - 1);
    }
    PopHasLeft(size, states, steps, i);
  }

  lemma PopHasLeft(size: nat, states: seq<Ring>, steps: seq<Step>, i: nat)
    requires size > 0 && IsRun(size, states, steps) && i < |states| && states[i].consumer.Draining?
    ensures PopLeft(states[i].consumer) > 0 && |states[i].received| + states[i].consumer.size <= |states[i].sent|
  {
    RunKeeps(size, states, steps, i);
  }

  lemma PopStep(size: nat, states: seq<Ring>, steps: seq<Step>, i: nat)
    requires size > 0 && IsRun(size, states, steps) && i < |steps|
    ensures OfProducer(steps[i]) ==>
      states[i + 1].consumer == states[i].consumer && states[i + 1].received == states[i].received
    ensures !OfProducer(steps[i]) && states[i].consumer.Draining? ==>
      var c, d := states[i].consumer, states[i + 1].consumer;
      var after := |states[i].received| + c.size;
      && PopLeft(d) == PopLeft(c) - 1
      && if PopLeft(c) > 1 then
           d.Draining? && d.size == c.size && states[i + 1].received == states[i].received
         else d == Waiting && after <= |states[i].sent| && states[i + 1].received == states[i].sent[..after]
  {
    hide Apply;
    StepTold(size, states, steps, i);
  }

  lemma {:induction false} SentGrows(size: nat, states: seq<Ring>, steps: seq<Step>, i: nat, j: nat)
    requires size > 0 && IsRun(size, states, steps) && i <= j < |states|
    ensures states[i].sent <= states[j].sent
  {
    hide Apply;
    if i < j {
      SentGrows(size, states, steps, i, j - 1);
      StepTold(size, states, steps, j - 1);
    }
  }
}
