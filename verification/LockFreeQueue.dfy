/** The bounded queue of include/lock_free_queue.hpp for any number of producers and consumers, as a
    state machine: one step is one load, store or compare-and-swap of an atomic, or one access to the
    data of a slot.  Tickets are unbounded. */
module LockFreeQueue {
  import opened Options
  import opened Arithmetic

  /** `Node`: the ticket the slot waits for, the ticket it was last filled with, and its object. */
  datatype Slot<T> = Slot(data: Option<T>, tail: nat, head: int)

  /** Where a thread is in `push` or `pop`, with the ticket it loaded. */
  datatype Pc<T> =
    | Idle
    | PushCheck(value: T, ticket: nat)
    | PushCas(value: T, ticket: nat)
    | PushWrite(value: T, ticket: nat)
    | PushPublish(value: T, ticket: nat)
    | PopCheck(ticket: nat)
    | PopCas(ticket: nat)
    | PopRead(ticket: nat)
    | PopRelease(ticket: nat, value: T)

  /** The queue, its callers, and what the callers have seen: the values pushed, by ticket, and the
      values returned by pops, by ticket. */
  datatype Queue<T> = Queue(
    slots: seq<Slot<T>>, tail: nat, head: nat, pcs: map<nat, Pc<T>>, pushed: seq<T>, popped: map<nat, T>)

  function PcOf<T>(s: Queue<T>, t: nat): Pc<T> {
    if t in s.pcs then s.pcs[t] else Idle
  }

  /** `ticket & _capacityMask`. */
  function Index(ticket: nat, capacity: nat): (k: nat)
    requires capacity > 0
    ensures k < capacity
  {
    ticket % capacity
  }

  function SlotOf<T>(s: Queue<T>, ticket: nat): (k: nat)
    requires s.slots != []
    ensures k < |s.slots|
  {
    Index(ticket, |s.slots|)
  }

  /** The constructor, for a capacity it has rounded up. */
  function Start<T>(capacity: nat): Queue<T> {
    Queue(seq(capacity, (i: nat) => Slot(None, i, -1)), 0, 0, map[], [], map[])
  }

  /** `compare_exchange_weak` may fail for no reason. */
  datatype Event<T> =
    | StartPush(t: nat, value: T)
    | CheckPush(t: nat)
    | ClaimPush(t: nat, spurious: bool)
    | Write(t: nat)
    | Publish(t: nat)
    | StartPop(t: nat)
    | CheckPop(t: nat)
    | ClaimPop(t: nat, spurious: bool)
    | Read(t: nat)
    | Release(t: nat)

  predicate Enabled<T>(s: Queue<T>, e: Event<T>) {
    s.slots != [] &&
    var pc := PcOf(s, e.t);
    match e
    case StartPush(_, _) => pc.Idle?
    case CheckPush(_) => pc.PushCheck?
    case ClaimPush(_, _) => pc.PushCas?
    case Write(_) => pc.PushWrite?
    case Publish(_) => pc.PushPublish?
    case StartPop(_) => pc.Idle?
    case CheckPop(_) => pc.PopCheck?
    case ClaimPop(_, _) => pc.PopCas?
    case Read(_) => pc.PopRead? && s.slots[SlotOf(s, pc.ticket)].data.Some?
    case Release(_) => pc.PopRelease?
  }

  function To<T>(s: Queue<T>, t: nat, pc: Pc<T>): Queue<T> {
    s.(pcs := s.pcs[t := pc])
  }

  function Fill<T>(s: Queue<T>, k: nat, slot: Slot<T>): Queue<T>
    requires k < |s.slots|
  {
    s.(slots := s.slots[k := slot])
  }

  function Apply<T>(s: Queue<T>, e: Event<T>): Queue<T>
    requires Enabled(s, e)
  {
    var t := e.t;
    var pc := PcOf(s, t);
    match e
    case StartPush(_, v) => To(s, t, PushCheck(v, s.tail))
    case CheckPush(_) =>
      To(s, t, if s.slots[SlotOf(s, pc.ticket)].tail != pc.ticket then Idle else PushCas(pc.value, pc.ticket))
    case ClaimPush(_, spurious) =>
      if s.tail == pc.ticket && !spurious then
        To(s.(tail := s.tail + 1, pushed := s.pushed + [pc.value]), t, PushWrite(pc.value, pc.ticket))
      else To(s, t, PushCheck(pc.value, s.tail))
    case Write(_) =>
      var k := SlotOf(s, pc.ticket);
      To(Fill(s, k, s.slots[k].(data := Some(pc.value))), t, PushPublish(pc.value, pc.ticket))
    case Publish(_) =>
      var k := SlotOf(s, pc.ticket);
      To(Fill(s, k, s.slots[k].(head := pc.ticket)), t, Idle)
    case StartPop(_) => To(s, t, PopCheck(s.head))
    case CheckPop(_) =>
      To(s, t, if s.slots[SlotOf(s, pc.ticket)].head != pc.ticket then Idle else PopCas(pc.ticket))
    case ClaimPop(_, spurious) =>
      if s.head == pc.ticket && !spurious then To(s.(head := s.head + 1), t, PopRead(pc.ticket))
      else To(s, t, PopCheck(s.head))
    case Read(_) =>
      var k := SlotOf(s, pc.ticket);
      To(Fill(s, k, s.slots[k].(data := None)), t, PopRelease(pc.ticket, s.slots[k].data.value))
    case Release(_) =>
      var k := SlotOf(s, pc.ticket);
      To(Fill(s.(popped := s.popped[pc.ticket := pc.value]), k, s.slots[k].(tail := pc.ticket + |s.slots|)), t, Idle)
  }

  // --- tickets and slots

  /** Two tickets of one slot that are less than a lap apart are the same. */
  lemma SameTicket(i: nat, j: nat, capacity: nat)
    requires capacity > 0 && Index(i, capacity) == Index(j, capacity) && i - capacity < j < i + capacity
    ensures i == j
  {
    Division(i, capacity);
    Division(j, capacity);
    SameQuotient(i / capacity, j / capacity, i % capacity, capacity);
  }

  /** A slot's next ticket is a lap ahead. */
  lemma NextTicket(i: nat, capacity: nat)
    requires capacity > 0
    ensures Index(i + capacity, capacity) == Index(i, capacity)
  {
    Division(i, capacity);
    Division(i + capacity, capacity);
    SameDivision((i + capacity) / capacity, i / capacity + 1, (i + capacity) % capacity, i % capacity, capacity);
  }

  // --- the invariant

  /** A slot waits for a ticket of its own, the one it was last filled with or a later one, and is not
      passed over by either end. */
  ghost predicate SlotOk<T>(capacity: nat, tail: nat, head: nat, pushed: seq<T>, slot: Slot<T>, k: nat)
    requires |pushed| == tail && capacity > 0
  {
    && Index(slot.tail, capacity) == k
    && head <= slot.tail + capacity && tail <= slot.tail + capacity
    && slot.tail < head + capacity
    && slot.head <= slot.tail
    && (if slot.head == slot.tail then slot.tail < tail else slot.head < head <= slot.tail)
    && (tail <= slot.tail ==> slot.data == None)
    && (slot.head == slot.tail && head <= slot.tail ==> slot.data == Some(pushed[slot.tail]))
  }

  function SlotAt<T>(slots: seq<Slot<T>>, i: nat): Slot<T>
    requires slots != []
  {
    slots[Index(i, |slots|)]
  }

  ghost predicate ThreadOk<T>(slots: seq<Slot<T>>, tail: nat, head: nat, pushed: seq<T>, pc: Pc<T>)
    requires slots != [] && |pushed| == tail
  {
    match pc
    case Idle => true
    case PushCheck(_, i) => i <= tail
    case PushCas(_, i) => i <= tail && (i == tail ==> SlotAt(slots, i).tail == i)
    case PushWrite(v, i) =>
      var slot := SlotAt(slots, i);
      i < tail && pushed[i] == v && slot == Slot(None, i, slot.head) && slot.head < i
    case PushPublish(v, i) =>
      var slot := SlotAt(slots, i);
      i < tail && pushed[i] == v && slot == Slot(Some(v), i, slot.head) && slot.head < i
    case PopCheck(i) => i <= head
    case PopCas(i) => i <= head && (i == head ==> SlotAt(slots, i).head == i)
    case PopRead(i) => i < head && i < tail && SlotAt(slots, i) == Slot(Some(pushed[i]), i, i)
    case PopRelease(i, v) => i < head && i < tail && v == pushed[i] && SlotAt(slots, i) == Slot(None, i, i)
  }

  /** A thread between claiming a ticket and giving the slot on. */
  predicate Claims<T>(pc: Pc<T>) {
    pc.PushWrite? || pc.PushPublish? || pc.PopRead? || pc.PopRelease?
  }

  ghost predicate Slots<T>(s: Queue<T>)
    requires s.slots != [] && |s.pushed| == s.tail
  {
    forall k :: 0 <= k < |s.slots| ==> SlotOk(|s.slots|, s.tail, s.head, s.pushed, s.slots[k], k)
  }

  ghost predicate Threads<T>(s: Queue<T>)
    requires s.slots != [] && |s.pushed| == s.tail
  {
    forall t: nat :: ThreadOk(s.slots, s.tail, s.head, s.pushed, PcOf(s, t))
  }

  ghost predicate Distinct<T>(pcs: map<nat, Pc<T>>) {
    forall t, u :: t in pcs && u in pcs && t != u && Claims(pcs[t]) && Claims(pcs[u]) ==> pcs[t].ticket != pcs[u].ticket
  }

  ghost predicate Popped<T>(s: Queue<T>) {
    forall i :: i in s.popped ==> i < s.head && i < |s.pushed| && s.popped[i] == s.pushed[i]
  }

  ghost predicate Inv<T>(s: Queue<T>) {
    && s.slots != [] && |s.pushed| == s.tail && s.head <= s.tail
    && Slots(s) && Threads(s) && Distinct(s.pcs) && Popped(s)
  }

  /** A step that only moves its thread along. */
  lemma Quiet<T>(s: Queue<T>, t: nat, pc: Pc<T>)
    requires Inv(s) && ThreadOk(s.slots, s.tail, s.head, s.pushed, pc) && !Claims(pc)
    ensures Inv(To(s, t, pc))
  {
    hide SlotOk, ThreadOk;
    var s' := To(s, t, pc);
    assert Threads(s') by {
      forall u: nat
        ensures ThreadOk(s.slots, s.tail, s.head, s.pushed, PcOf(s', u))
      {
        assert ThreadOk(s.slots, s.tail, s.head, s.pushed, PcOf(s, u));
      }
    }
  }

  /** What another thread knows of its slot survives a change to the slot of a claimed ticket. */
  lemma OtherSlot<T>(slots: seq<Slot<T>>, tail: nat, head: nat, pushed: seq<T>, pc: Pc<T>, other: Pc<T>, slot: Slot<T>)
    requires slots != [] && |pushed| == tail
    requires ThreadOk(slots, tail, head, pushed, pc) && Claims(pc)
    requires ThreadOk(slots, tail, head, pushed, other)
    requires Claims(other) ==> other.ticket != pc.ticket
    requires SlotOk(|slots|, tail, head, pushed, SlotAt(slots, pc.ticket), Index(pc.ticket, |slots|))
    ensures ThreadOk(slots[Index(pc.ticket, |slots|) := slot], tail, head, pushed, other)
  {
    hide Index;
  }

  /** A thread that has claimed a ticket changes its slot. */
  lemma OwnSlot<T>(s: Queue<T>, t: nat, slot: Slot<T>, pc: Pc<T>, popped: map<nat, T>)
    requires Inv(s) && t in s.pcs && Claims(s.pcs[t])
    requires SlotOk(|s.slots|, s.tail, s.head, s.pushed, slot, SlotOf(s, s.pcs[t].ticket))
    requires ThreadOk(Fill(s, SlotOf(s, s.pcs[t].ticket), slot).slots, s.tail, s.head, s.pushed, pc)
    requires Claims(pc) ==> pc.ticket == s.pcs[t].ticket
    requires Popped(s.(popped := popped))
    ensures Inv(To(Fill(s.(popped := popped), SlotOf(s, s.pcs[t].ticket), slot), t, pc))
  {
    hide SlotOk, ThreadOk, Index;
    var k := SlotOf(s, s.pcs[t].ticket);
    var s' := To(Fill(s.(popped := popped), k, slot), t, pc);
    assert ThreadOk(s.slots, s.tail, s.head, s.pushed, PcOf(s, t));
    assert Threads(s') by {
      forall u: nat
        ensures ThreadOk(s'.slots, s.tail, s.head, s.pushed, PcOf(s', u))
      {
        if u != t {
          assert ThreadOk(s.slots, s.tail, s.head, s.pushed, PcOf(s, u));
          OtherSlot(s.slots, s.tail, s.head, s.pushed, PcOf(s, t), PcOf(s, u), slot);
        }
      }
    }
  }

  // --- claiming a ticket

  lemma PushedSlot<T>(c: nat, tail: nat, head: nat, pushed: seq<T>, v: T, slot: Slot<T>, k: nat)
    requires |pushed| == tail && c > 0 && SlotOk(c, tail, head, pushed, slot, k)
    requires k == Index(tail, c) ==> slot.tail == tail
    ensures SlotOk(c, tail + 1, head, pushed + [v], slot, k)
  {
    hide Index;
    if tail == slot.tail + c { NextTicket(slot.tail, c); }
  }

  lemma PushedOther<T>(slots: seq<Slot<T>>, tail: nat, head: nat, pushed: seq<T>, v: T, pc: Pc<T>)
    requires slots != [] && |pushed| == tail && ThreadOk(slots, tail, head, pushed, pc)
    ensures ThreadOk(slots, tail + 1, head, pushed + [v], pc)
  {
    hide Index;
  }

  lemma PushedOwn<T>(slots: seq<Slot<T>>, tail: nat, head: nat, pushed: seq<T>, v: T)
    requires slots != [] && |pushed| == tail && ThreadOk(slots, tail, head, pushed, PushCas(v, tail))
    requires SlotOk(|slots|, tail, head, pushed, SlotAt(slots, tail), Index(tail, |slots|))
    ensures ThreadOk(slots, tail + 1, head, pushed + [v], PushWrite(v, tail))
    ensures SlotAt(slots, tail).tail == tail
  {
    hide Index;
  }

  lemma ClaimedBelow<T>(slots: seq<Slot<T>>, tail: nat, head: nat, pushed: seq<T>, pc: Pc<T>)
    requires slots != [] && |pushed| == tail && ThreadOk(slots, tail, head, pushed, pc) && Claims(pc)
    ensures pc.ticket < tail && SlotAt(slots, pc.ticket).tail == pc.ticket
    ensures pc.ticket == head ==> SlotAt(slots, pc.ticket).head != head
  {
    hide Index;
  }

  lemma ClaimTail<T>(s: Queue<T>, t: nat, v: T)
    requires Inv(s) && PcOf(s, t) == PushCas(v, s.tail)
    ensures Inv(To(s.(tail := s.tail + 1, pushed := s.pushed + [v]), t, PushWrite(v, s.tail)))
  {
    hide SlotOk, ThreadOk, Index;
    var s' := To(s.(tail := s.tail + 1, pushed := s.pushed + [v]), t, PushWrite(v, s.tail));
    assert ThreadOk(s.slots, s.tail, s.head, s.pushed, PcOf(s, t));
    PushedOwn(s.slots, s.tail, s.head, s.pushed, v);
    assert Slots(s') by {
      forall k | 0 <= k < |s.slots|
        ensures SlotOk(|s.slots|, s.tail + 1, s.head, s.pushed + [v], s.slots[k], k)
      {
        PushedSlot(|s.slots|, s.tail, s.head, s.pushed, v, s.slots[k], k);
      }
    }
    forall u: nat
      ensures ThreadOk(s.slots, s'.tail, s.head, s'.pushed, PcOf(s', u))
      ensures u != t && Claims(PcOf(s, u)) ==> PcOf(s, u).ticket < s.tail
    {
      assert ThreadOk(s.slots, s.tail, s.head, s.pushed, PcOf(s, u));
      if u != t { PushedOther(s.slots, s.tail, s.head, s.pushed, v, PcOf(s, u)); }
      if Claims(PcOf(s, u)) { ClaimedBelow(s.slots, s.tail, s.head, s.pushed, PcOf(s, u)); }
    }
    assert Distinct(s'.pcs) by {
      forall u | u in s.pcs && u != t && Claims(s.pcs[u])
        ensures s.pcs[u].ticket < s.tail
      {
        assert PcOf(s, u) == s.pcs[u];
      }
    }
  }

  lemma PoppedSlot<T>(c: nat, tail: nat, head: nat, pushed: seq<T>, slot: Slot<T>, k: nat)
    requires |pushed| == tail && c > 0 && SlotOk(c, tail, head, pushed, slot, k)
    requires k == Index(head, c) ==> slot.head == head
    ensures SlotOk(c, tail, head + 1, pushed, slot, k)
  {
    hide Index;
    if head == slot.tail + c { NextTicket(slot.tail, c); }
  }

  lemma PoppedOther<T>(slots: seq<Slot<T>>, tail: nat, head: nat, pushed: seq<T>, pc: Pc<T>)
    requires slots != [] && |pushed| == tail && ThreadOk(slots, tail, head, pushed, pc)
    ensures ThreadOk(slots, tail, head + 1, pushed, pc)
  {
    hide Index;
  }

  lemma PoppedOwn<T>(slots: seq<Slot<T>>, tail: nat, head: nat, pushed: seq<T>)
    requires slots != [] && |pushed| == tail && ThreadOk(slots, tail, head, pushed, PopCas(head))
    requires SlotOk(|slots|, tail, head, pushed, SlotAt(slots, head), Index(head, |slots|))
    ensures ThreadOk(slots, tail, head + 1, pushed, PopRead(head))
    ensures SlotAt(slots, head).head == head && head < tail
  {
    hide Index;
    var slot := SlotAt(slots, head);
  }

  lemma ClaimHead<T>(s: Queue<T>, t: nat)
    requires Inv(s) && PcOf(s, t) == PopCas(s.head)
    ensures Inv(To(s.(head := s.head + 1), t, PopRead(s.head)))
  {
    hide SlotOk, ThreadOk, Index;
    var s' := To(s.(head := s.head + 1), t, PopRead(s.head));
    assert ThreadOk(s.slots, s.tail, s.head, s.pushed, PcOf(s, t));
    PoppedOwn(s.slots, s.tail, s.head, s.pushed);
    assert Slots(s') by {
      forall k | 0 <= k < |s.slots|
        ensures SlotOk(|s.slots|, s.tail, s.head + 1, s.pushed, s.slots[k], k)
      {
        PoppedSlot(|s.slots|, s.tail, s.head, s.pushed, s.slots[k], k);
      }
    }
    forall u: nat
      ensures ThreadOk(s.slots, s.tail, s'.head, s.pushed, PcOf(s', u))
      ensures u != t && Claims(PcOf(s, u)) ==> PcOf(s, u).ticket != s.head
    {
      assert ThreadOk(s.slots, s.tail, s.head, s.pushed, PcOf(s, u));
      if u != t { PoppedOther(s.slots, s.tail, s.head, s.pushed, PcOf(s, u)); }
      if Claims(PcOf(s, u)) { ClaimedBelow(s.slots, s.tail, s.head, s.pushed, PcOf(s, u)); }
    }
    assert Distinct(s'.pcs) by {
      forall u | u in s.pcs && u != t && Claims(s.pcs[u])
        ensures s.pcs[u].ticket != s.head
      {
        assert PcOf(s, u) == s.pcs[u];
      }
    }
  }

  // --- working on a claimed slot

  /** The slot a claimed ticket leaves behind at each of its two steps. */
  function Worked<T>(c: nat, slot: Slot<T>, pc: Pc<T>): Slot<T> {
    match pc
    case PushWrite(v, _) => slot.(data := Some(v))
    case PushPublish(_, i) => slot.(head := i)
    case PopRead(_) => slot.(data := None)
    case PopRelease(i, _) => slot.(tail := i + c)
    case _ => slot
  }

  function Next<T>(slot: Slot<T>, pc: Pc<T>): Pc<T> {
    match pc
    case PushWrite(v, i) => PushPublish(v, i)
    case PopRead(i) => if slot.data.Some? then PopRelease(i, slot.data.value) else Idle
    case _ => Idle
  }

  lemma WorkedSlot<T>(slots: seq<Slot<T>>, tail: nat, head: nat, pushed: seq<T>, pc: Pc<T>)
    requires slots != [] && |pushed| == tail && ThreadOk(slots, tail, head, pushed, pc) && Claims(pc)
    requires SlotOk(|slots|, tail, head, pushed, SlotAt(slots, pc.ticket), Index(pc.ticket, |slots|))
    ensures SlotOk(|slots|, tail, head, pushed, Worked(|slots|, SlotAt(slots, pc.ticket), pc), Index(pc.ticket, |slots|))
  {
    hide Index;
    NextTicket(pc.ticket, |slots|);
  }

  lemma WorkedThread<T>(slots: seq<Slot<T>>, tail: nat, head: nat, pushed: seq<T>, pc: Pc<T>)
    requires slots != [] && |pushed| == tail && ThreadOk(slots, tail, head, pushed, pc) && Claims(pc)
    ensures ThreadOk(slots[Index(pc.ticket, |slots|) := Worked(|slots|, SlotAt(slots, pc.ticket), pc)], tail, head, pushed,
                     Next(SlotAt(slots, pc.ticket), pc))
  {
    hide Index;
  }

  lemma WorkedValue<T>(slots: seq<Slot<T>>, tail: nat, head: nat, pushed: seq<T>, pc: Pc<T>)
    requires slots != [] && |pushed| == tail && ThreadOk(slots, tail, head, pushed, pc)
    ensures pc.PopRelease? ==> pc.ticket < head && pc.ticket < tail && pc.value == pushed[pc.ticket]
  {
    hide Index;
  }

  lemma Work<T>(s: Queue<T>, t: nat)
    requires Inv(s) && t in s.pcs && Claims(s.pcs[t])
    ensures var pc := s.pcs[t];
            var slot := SlotAt(s.slots, pc.ticket);
            Inv(To(Fill(if pc.PopRelease? then s.(popped := s.popped[pc.ticket := pc.value]) else s,
                        SlotOf(s, pc.ticket), Worked(|s.slots|, slot, pc)), t, Next(slot, pc)))
  {
    hide SlotOk, ThreadOk, Index;
    var pc := s.pcs[t];
    assert ThreadOk(s.slots, s.tail, s.head, s.pushed, PcOf(s, t));
    WorkedSlot(s.slots, s.tail, s.head, s.pushed, pc);
    WorkedThread(s.slots, s.tail, s.head, s.pushed, pc);
    WorkedValue(s.slots, s.tail, s.head, s.pushed, pc);
    OwnSlot(s, t, Worked(|s.slots|, SlotAt(s.slots, pc.ticket), pc), Next(SlotAt(s.slots, pc.ticket), pc),
            if pc.PopRelease? then s.popped[pc.ticket := pc.value] else s.popped);
  }

  lemma Checked<T>(s: Queue<T>, t: nat)
    requires Inv(s) && s.slots != []
    ensures PcOf(s, t).PushCheck? ==> PcOf(s, t).ticket <= s.tail
    ensures PcOf(s, t).PopCheck? ==> PcOf(s, t).ticket <= s.head
  {
    assert ThreadOk(s.slots, s.tail, s.head, s.pushed, PcOf(s, t));
  }

  lemma QuietSteps<T>(s: Queue<T>, e: Event<T>)
    requires Inv(s) && Enabled(s, e)
    requires e.StartPush? || e.CheckPush? || e.StartPop? || e.CheckPop?
    ensures Inv(Apply(s, e))
  {
    hide SlotOk, Index, Inv;
    Checked(s, e.t);
    Quiet(s, e.t, PcOf(Apply(s, e), e.t));
  }

  /** Every step of every thread keeps the invariant. */
  lemma Step<T>(s: Queue<T>, e: Event<T>)
    requires Inv(s) && Enabled(s, e)
    ensures Inv(Apply(s, e))
  {
    hide Inv, SlotOk, Index;
    var t := e.t;
    match e {
      case ClaimPush(_, spurious) =>
        if s.tail == PcOf(s, t).ticket && !spurious { ClaimTail(s, t, PcOf(s, t).value); }
        else { Quiet(s, t, PcOf(Apply(s, e), t)); }
      case ClaimPop(_, spurious) =>
        if s.head == PcOf(s, t).ticket && !spurious { ClaimHead(s, t); }
        else { Quiet(s, t, PcOf(Apply(s, e), t)); }
      case Write(_) => Work(s, t);
      case Publish(_) => Work(s, t);
      case Read(_) => Work(s, t);
      case Release(_) => Work(s, t);
      case _ => QuietSteps(s, e);
    }
  }

  // --- no slot is forgotten

  /** A slot whose ticket has been claimed, by a push that has not published it or by a pop that has
      not released it. */
  predicate Busy<T>(tail: nat, head: nat, slot: Slot<T>) {
    (slot.tail < tail && slot.head != slot.tail) || slot.tail < head
  }

  ghost predicate Worker<T>(pcs: map<nat, Pc<T>>, ticket: nat) {
    exists t :: t in pcs && Claims(pcs[t]) && pcs[t].ticket == ticket
  }

  ghost predicate Owned<T>(s: Queue<T>) {
    forall k :: 0 <= k < |s.slots| && Busy(s.tail, s.head, s.slots[k]) ==> Worker(s.pcs, s.slots[k].tail)
  }

  lemma WorkerStays<T>(pcs: map<nat, Pc<T>>, t: nat, pc: Pc<T>, ticket: nat)
    requires Worker(pcs, ticket)
    requires t in pcs && Claims(pcs[t]) && pcs[t].ticket == ticket ==> Claims(pc) && pc.ticket == ticket
    ensures Worker(pcs[t := pc], ticket)
  {
    var u :| u in pcs && Claims(pcs[u]) && pcs[u].ticket == ticket;
    assert u in pcs[t := pc] && Claims(pcs[t := pc][u]) && pcs[t := pc][u].ticket == ticket;
  }

  /** Steps that claim nothing and finish nothing. */
  lemma QuietOwned<T>(s: Queue<T>, t: nat, pc: Pc<T>)
    requires Owned(s) && !Claims(PcOf(s, t))
    ensures Owned(To(s, t, pc))
  {
    forall k | 0 <= k < |s.slots| && Busy(s.tail, s.head, s.slots[k])
      ensures Worker(s.pcs[t := pc], s.slots[k].tail)
    {
      WorkerStays(s.pcs, t, pc, s.slots[k].tail);
    }
  }

  lemma ClaimOwned<T>(s: Queue<T>, t: nat, tail: nat, head: nat, pushed: seq<T>, pc: Pc<T>)
    requires Owned(s) && !Claims(PcOf(s, t)) && Claims(pc)
    requires forall k :: 0 <= k < |s.slots| && Busy(tail, head, s.slots[k]) ==>
      (Busy(s.tail, s.head, s.slots[k]) || pc.ticket == s.slots[k].tail)
    ensures Owned(To(s.(tail := tail, head := head, pushed := pushed), t, pc))
  {
    forall k | 0 <= k < |s.slots| && Busy(tail, head, s.slots[k])
      ensures Worker(s.pcs[t := pc], s.slots[k].tail)
    {
      if pc.ticket == s.slots[k].tail {
        assert t in s.pcs[t := pc];
      } else {
        WorkerStays(s.pcs, t, pc, s.slots[k].tail);
      }
    }
  }

  lemma WorkOwned<T>(s: Queue<T>, t: nat, slot: Slot<T>, popped: map<nat, T>, pc: Pc<T>)
    requires Inv(s) && Owned(s) && t in s.pcs && Claims(s.pcs[t])
    requires Busy(s.tail, s.head, slot) ==> Claims(pc) && pc.ticket == s.pcs[t].ticket && slot.tail == pc.ticket
    requires Claims(pc) ==> pc.ticket == s.pcs[t].ticket
    ensures Owned(To(Fill(s.(popped := popped), SlotOf(s, s.pcs[t].ticket), slot), t, pc))
  {
    hide SlotOk, Index;
    var i := s.pcs[t].ticket;
    var k := SlotOf(s, i);
    var s' := To(Fill(s.(popped := popped), k, slot), t, pc);
    assert ThreadOk(s.slots, s.tail, s.head, s.pushed, PcOf(s, t));
    forall j | 0 <= j < |s.slots| && Busy(s.tail, s.head, s'.slots[j])
      ensures Worker(s'.pcs, s'.slots[j].tail)
    {
      if j == k {
        assert t in s'.pcs;
      } else {
        OneTicketPerSlot(s, j, i);
        WorkerStays(s.pcs, t, pc, s.slots[j].tail);
      }
    }
  }

  lemma OneTicketPerSlot<T>(s: Queue<T>, j: nat, i: nat)
    requires Inv(s) && j < |s.slots| && j != SlotOf(s, i)
    ensures s.slots[j].tail != i
  {
    assert SlotOk(|s.slots|, s.tail, s.head, s.pushed, s.slots[j], j);
  }

  lemma StepOwned<T>(s: Queue<T>, e: Event<T>)
    requires Inv(s) && Owned(s) && Enabled(s, e)
    ensures Owned(Apply(s, e))
  {
    hide Inv, SlotOk, Index, Owned;
    var t := e.t;
    var pc := PcOf(s, t);
    match e {
      case ClaimPush(_, spurious) =>
        if s.tail == pc.ticket && !spurious {
          ClaimOwned(s, t, s.tail + 1, s.head, s.pushed + [pc.value], PushWrite(pc.value, pc.ticket));
        } else { QuietOwned(s, t, PcOf(Apply(s, e), t)); }
      case ClaimPop(_, spurious) =>
        if s.head == pc.ticket && !spurious {
          ClaimOwned(s, t, s.tail, s.head + 1, s.pushed, PopRead(pc.ticket));
        } else { QuietOwned(s, t, PcOf(Apply(s, e), t)); }
      case Write(_) => WorkSteps(s, t);
      case Publish(_) => WorkSteps(s, t);
      case Read(_) => WorkSteps(s, t);
      case Release(_) => WorkSteps(s, t);
      case _ => QuietOwned(s, t, PcOf(Apply(s, e), t));
    }
  }

  lemma WorkSteps<T>(s: Queue<T>, t: nat)
    requires Inv(s) && Owned(s) && t in s.pcs && Claims(s.pcs[t])
    ensures var pc := s.pcs[t];
            var slot := SlotAt(s.slots, pc.ticket);
            Owned(To(Fill(if pc.PopRelease? then s.(popped := s.popped[pc.ticket := pc.value]) else s,
                          SlotOf(s, pc.ticket), Worked(|s.slots|, slot, pc)), t, Next(slot, pc)))
  {
    hide SlotOk, Index, Owned;
    var pc := s.pcs[t];
    var slot := SlotAt(s.slots, pc.ticket);
    assert ThreadOk(s.slots, s.tail, s.head, s.pushed, PcOf(s, t));
    ClaimedSlot(s, t);
    WorkOwned(s, t, Worked(|s.slots|, slot, pc), if pc.PopRelease? then s.popped[pc.ticket := pc.value] else s.popped,
              Next(slot, pc));
  }

  lemma ClaimedSlot<T>(s: Queue<T>, t: nat)
    requires Inv(s) && t in s.pcs && Claims(s.pcs[t])
    ensures var pc := s.pcs[t];
            var slot := SlotAt(s.slots, pc.ticket);
            && (pc.PushPublish? ==> s.head <= pc.ticket)
            && (pc.PopRelease? ==> s.head <= pc.ticket + |s.slots| && s.tail <= pc.ticket + |s.slots|)
  {
    hide Index;
    assert ThreadOk(s.slots, s.tail, s.head, s.pushed, PcOf(s, t));
    var k := SlotOf(s, s.pcs[t].ticket);
    assert SlotOk(|s.slots|, s.tail, s.head, s.pushed, s.slots[k], k);
  }

  // --- every run

  /** A run: the states that steps of any threads, in any order, lead through. */
  ghost predicate IsRun<T>(capacity: nat, states: seq<Queue<T>>, events: seq<Event<T>>) {
    && |states| == |events| + 1
    && states[0] == Start(capacity)
    && forall i :: 0 <= i < |events| ==> Enabled(states[i], events[i]) && states[i + 1] == Apply(states[i], events[i])
  }

  lemma FirstLap(k: nat, capacity: nat)
    requires k < capacity
    ensures Index(k, capacity) == k
  {
    Division(k, capacity);
    SameDivision(k / capacity, 0, k % capacity, k, capacity);
  }

  lemma StartInv<T>(capacity: nat)
    requires capacity > 0
    ensures Inv<T>(Start(capacity)) && Owned<T>(Start(capacity))
  {
    hide Index;
    forall k: nat | k < capacity
      ensures Index(k, capacity) == k
    {
      FirstLap(k, capacity);
    }
  }

  lemma {:induction false} RunInv<T>(capacity: nat, states: seq<Queue<T>>, events: seq<Event<T>>, i: nat)
    requires capacity > 0 && IsRun(capacity, states, events) && i < |states|
    ensures Inv(states[i]) && Owned(states[i]) && |states[i].slots| == capacity
  {
    hide Inv, Owned;
    if i == 0 {
      StartInv<T>(capacity);
    } else {
      RunInv(capacity, states, events, i - 1);
      Step(states[i - 1], events[i - 1]);
      StepOwned(states[i - 1], events[i - 1]);
    }
  }

  /** Tickets are handed to pushes in order and none is skipped, and a pop with ticket i returns the
      value that was pushed with ticket i. */
  lemma PopReturnsItsPush<T>(capacity: nat, states: seq<Queue<T>>, events: seq<Event<T>>, i: nat, ticket: nat)
    requires capacity > 0 && IsRun(capacity, states, events) && i < |states|
    ensures |states[i].pushed| == states[i].tail
    ensures ticket in states[i].popped ==>
      ticket < states[i].head <= states[i].tail && states[i].popped[ticket] == states[i].pushed[ticket]
  {
    RunInv(capacity, states, events, i);
  }

  lemma {:induction false} HistoryGrows<T>(capacity: nat, states: seq<Queue<T>>, events: seq<Event<T>>, i: nat, j: nat)
    requires capacity > 0 && IsRun(capacity, states, events) && i <= j < |states|
    ensures states[i].pushed <= states[j].pushed && states[i].head <= states[j].head
  {
    if i < j {
      HistoryGrows(capacity, states, events, i, j - 1);
      assert states[j] == Apply(states[j - 1], events[j - 1]);
    }
  }

  /** A push constructs its object in an empty slot, so nothing is overwritten before it is read; a pop
      finds the object of its own ticket; no two calls work on one slot. */
  lemma NothingOverwritten<T>(capacity: nat, states: seq<Queue<T>>, events: seq<Event<T>>, i: nat, t: nat, u: nat)
    requires capacity > 0 && IsRun(capacity, states, events) && i < |states|
    ensures states[i].slots != []
    ensures PcOf(states[i], t).PushWrite? ==> SlotAt(states[i].slots, PcOf(states[i], t).ticket).data == None
    ensures PcOf(states[i], t).PopRead? ==>
      var ticket := PcOf(states[i], t).ticket;
      ticket < |states[i].pushed| && SlotAt(states[i].slots, ticket).data == Some(states[i].pushed[ticket])
    ensures t != u && Claims(PcOf(states[i], t)) && Claims(PcOf(states[i], u)) ==>
      SlotOf(states[i], PcOf(states[i], t).ticket) != SlotOf(states[i], PcOf(states[i], u).ticket)
  {
    hide Index;
    RunInv(capacity, states, events, i);
    var s := states[i];
    assert ThreadOk(s.slots, s.tail, s.head, s.pushed, PcOf(s, t));
    assert ThreadOk(s.slots, s.tail, s.head, s.pushed, PcOf(s, u));
  }

  /** No more items than slots are ever between the two ends. */
  lemma InFlight<T>(capacity: nat, states: seq<Queue<T>>, events: seq<Event<T>>, i: nat)
    requires capacity > 0 && IsRun(capacity, states, events) && i < |states|
    ensures states[i].head <= states[i].tail <= states[i].head + capacity
  {
    RunInv(capacity, states, events, i);
    HeadSlot(states[i]);
  }

  /** Where the next pop's slot stands. */
  lemma HeadSlot<T>(s: Queue<T>)
    requires Inv(s)
    ensures s.tail <= s.head + |s.slots|
    ensures var tail := SlotAt(s.slots, s.head).tail;
            tail == s.head || tail + |s.slots| == s.head
  {
    hide Index;
    var c := |s.slots|;
    var slot := SlotAt(s.slots, s.head);
    assert SlotOk(c, s.tail, s.head, s.pushed, slot, Index(s.head, c));
    if slot.tail + c != s.head { SameTicket(slot.tail, s.head, c); }
  }

  /** Where the next push's slot stands. */
  lemma TailSlot<T>(s: Queue<T>)
    requires Inv(s)
    ensures var tail := SlotAt(s.slots, s.tail).tail;
            tail == s.tail || tail + |s.slots| == s.tail
  {
    hide Index;
    var c := |s.slots|;
    var slot := SlotAt(s.slots, s.tail);
    assert SlotOk(c, s.tail, s.head, s.pushed, slot, Index(s.tail, c));
    HeadSlot(s);
    if slot.tail + c != s.tail && slot.tail < s.tail + c { SameTicket(slot.tail, s.tail, c); }
  }

  /** With no other call under way, a push is refused exactly when the queue holds `capacity` items. */
  lemma PushRefusedWhenFull<T>(capacity: nat, states: seq<Queue<T>>, events: seq<Event<T>>, i: nat, t: nat)
    requires capacity > 0 && IsRun(capacity, states, events) && i < |events|
    requires events[i].CheckPush? && events[i].t == t
    requires forall u :: u in states[i].pcs && u != t ==> states[i].pcs[u].Idle?
    requires PcOf(states[i], t).PushCheck? && PcOf(states[i], t).ticket == states[i].tail
    ensures PcOf(states[i + 1], t).Idle? <==> states[i].tail - states[i].head == capacity
  {
    hide Index;
    RunInv(capacity, states, events, i);
    var s := states[i];
    TailSlot(s);
    HeadSlot(s);
    NextTicket(s.head, capacity);
    var k := SlotOf(s, s.tail);
    assert SlotOk(capacity, s.tail, s.head, s.pushed, s.slots[k], k);
    NoWorkers(s, t);
    assert !Busy(s.tail, s.head, s.slots[k]);
  }

  /** With no other call under way, a pop is refused exactly when the queue is empty. */
  lemma PopRefusedWhenEmpty<T>(capacity: nat, states: seq<Queue<T>>, events: seq<Event<T>>, i: nat, t: nat)
    requires capacity > 0 && IsRun(capacity, states, events) && i < |events|
    requires events[i].CheckPop? && events[i].t == t
    requires forall u :: u in states[i].pcs && u != t ==> states[i].pcs[u].Idle?
    requires PcOf(states[i], t).PopCheck? && PcOf(states[i], t).ticket == states[i].head
    ensures PcOf(states[i + 1], t).Idle? <==> states[i].tail == states[i].head
  {
    hide Index;
    RunInv(capacity, states, events, i);
    var s := states[i];
    HeadSlot(s);
    var k := SlotOf(s, s.head);
    assert SlotOk(capacity, s.tail, s.head, s.pushed, s.slots[k], k);
    NoWorkers(s, t);
    assert !Busy(s.tail, s.head, s.slots[k]);
  }

  lemma NoWorkers<T>(s: Queue<T>, t: nat)
    requires Owned(s)
    requires forall u :: u in s.pcs && u != t ==> s.pcs[u].Idle?
    requires !Claims(PcOf(s, t))
    ensures forall k :: 0 <= k < |s.slots| ==> !Busy(s.tail, s.head, s.slots[k])
  {
  }
}
