/** What the calls of the bounded queue come to: over every interleaving a push or pop takes effect once or
    not at all and gives up only for a reason, and a call that runs alone succeeds exactly when there is
    room, or an item. */
module LockFreeQueueCalls {
  import opened Options
  import opened LockFreeQueue

  // --- giving up

  /** A pop that has claimed a ticket and not yet given its slot on. */
  ghost predicate Popping<T>(s: Queue<T>, ticket: int) {
    exists u :: u in s.pcs && (s.pcs[u].PopRead? || s.pcs[u].PopRelease?) && s.pcs[u].ticket == ticket
  }

  /** A push that has claimed a ticket and not yet published its object. */
  ghost predicate Pushing<T>(s: Queue<T>, ticket: int) {
    exists u :: u in s.pcs && (s.pcs[u].PushWrite? || s.pcs[u].PushPublish?) && s.pcs[u].ticket == ticket
  }

  lemma SlotWorker<T>(s: Queue<T>, k: nat)
    requires Inv(s) && Owned(s) && k < |s.slots| && Busy(s.tail, s.head, s.slots[k])
    ensures s.slots[k].tail < s.head ==> Popping(s, s.slots[k].tail)
    ensures s.head <= s.slots[k].tail ==> Pushing(s, s.slots[k].tail)
  {
    hide Index;
    assert SlotOk(|s.slots|, s.tail, s.head, s.pushed, s.slots[k], k);
    var u :| u in s.pcs && Claims(s.pcs[u]) && s.pcs[u].ticket == s.slots[k].tail;
    assert ThreadOk(s.slots, s.tail, s.head, s.pushed, PcOf(s, u));
    ClaimedAt(s, k, u);
  }

  /** The slot of a claimed ticket is the one that waits for it. */
  lemma ClaimedAt<T>(s: Queue<T>, k: nat, u: nat)
    requires Inv(s) && k < |s.slots| && u in s.pcs && Claims(s.pcs[u]) && s.pcs[u].ticket == s.slots[k].tail
    ensures SlotAt(s.slots, s.pcs[u].ticket) == s.slots[k]
  {
    assert SlotOk(|s.slots|, s.tail, s.head, s.pushed, s.slots[k], k);
  }

  /** Why the slot of the next push can be taken: the queue is full, or the pop of its last object is still
      under way. */
  lemma TailTaken<T>(s: Queue<T>)
    requires Inv(s) && Owned(s) && SlotAt(s.slots, s.tail).tail != s.tail
    ensures s.tail - s.head == |s.slots| || Popping(s, s.tail - |s.slots|)
  {
    hide Index, SlotOk;
    TailSlot(s);
    HeadSlot(s);
    if s.tail - s.head != |s.slots| { SlotWorker(s, SlotOf(s, s.tail)); }
  }

  /** Why the slot of the next pop can be without its object: the queue is empty, or the push of that object
      is still under way. */
  lemma HeadMissing<T>(s: Queue<T>)
    requires Inv(s) && Owned(s) && SlotAt(s.slots, s.head).head != s.head
    ensures s.head == s.tail || Pushing(s, s.head)
  {
    hide Index;
    HeadSlot(s);
    var k := SlotOf(s, s.head);
    assert SlotOk(|s.slots|, s.tail, s.head, s.pushed, s.slots[k], k);
    if s.head != s.tail { SlotWorker(s, k); }
  }

  /** A push gives up only when it looks at the slot of the ticket it loaded and finds that the slot does not
      wait for it: another push has taken the ticket, or the queue is full, or the object pushed a lap
      earlier is just being popped. */
  lemma PushGivesUp<T>(capacity: nat, states: seq<Queue<T>>, events: seq<Event<T>>, i: nat, t: nat)
    requires capacity > 0 && IsRun(capacity, states, events) && i < |events|
    requires PcOf(states[i], t).PushCheck? || PcOf(states[i], t).PushCas?
    requires PcOf(states[i + 1], t).Idle?
    ensures PcOf(states[i], t).PushCheck?
    ensures var s, ticket := states[i], PcOf(states[i], t).ticket;
      && s.slots != [] && SlotAt(s.slots, ticket).tail != ticket
      && (ticket < s.tail || s.tail - s.head == capacity || Popping(s, ticket - capacity))
  {
    hide Index, SlotOk;
    RunInv(capacity, states, events, i);
    var s := states[i];
    assert states[i + 1] == Apply(s, events[i]);
    assert ThreadOk(s.slots, s.tail, s.head, s.pushed, PcOf(s, t));
    if PcOf(s, t).ticket == s.tail { TailTaken(s); }
  }

  /** A pop gives up only when it looks at the slot of the ticket it loaded and does not find the object with
      that ticket: another pop has taken it, or the queue is empty, or the object is just being pushed. */
  lemma PopGivesUp<T>(capacity: nat, states: seq<Queue<T>>, events: seq<Event<T>>, i: nat, t: nat)
    requires capacity > 0 && IsRun(capacity, states, events) && i < |events|
    requires PcOf(states[i], t).PopCheck? || PcOf(states[i], t).PopCas?
    requires PcOf(states[i + 1], t).Idle?
    ensures PcOf(states[i], t).PopCheck?
    ensures var s, ticket := states[i], PcOf(states[i], t).ticket;
      && s.slots != [] && SlotAt(s.slots, ticket).head != ticket
      && (ticket < s.head || s.head == s.tail || Pushing(s, ticket))
  {
    hide Index, SlotOk;
    RunInv(capacity, states, events, i);
    var s := states[i];
    assert states[i + 1] == Apply(s, events[i]);
    assert ThreadOk(s.slots, s.tail, s.head, s.pushed, PcOf(s, t));
    if PcOf(s, t).ticket == s.head { HeadMissing(s); }
  }

  // --- once or not at all

  /** The steps from i to k are those of one call of thread t, between two moments it is outside. */
  ghost predicate IsCall<T>(states: seq<Queue<T>>, events: seq<Event<T>>, i: nat, k: nat, t: nat) {
    && i < k < |states| && |states| == |events| + 1
    && events[i].t == t
    && (forall m :: i < m < k ==> !PcOf(states[m], t).Idle?)
    && PcOf(states[k], t).Idle?
  }

  /** How often thread t has put a value into the history of pushes. */
  ghost function Puts<T>(states: seq<Queue<T>>, events: seq<Event<T>>, i: nat, k: nat, t: nat): nat
    requires i <= k < |states| && |states| == |events| + 1
  {
    if i == k then 0
    else Puts(states, events, i, k - 1, t) +
         if events[k - 1].t == t && states[k].pushed != states[k - 1].pushed then 1 else 0
  }

  /** How often thread t has taken a ticket of the head. */
  ghost function Takes<T>(states: seq<Queue<T>>, events: seq<Event<T>>, i: nat, k: nat, t: nat): nat
    requires i <= k < |states| && |states| == |events| + 1
  {
    if i == k then 0
    else Takes(states, events, i, k - 1, t) +
         if events[k - 1].t == t && states[k].head != states[k - 1].head then 1 else 0
  }

  /** Where a push of v is, and what it has done so far. */
  ghost predicate PushSoFar<T>(pc: Pc<T>, v: T, puts: nat, takes: nat) {
    && takes == 0
    && (((pc.PushCheck? || pc.PushCas?) && pc.value == v && puts == 0)
        || ((pc.PushWrite? || pc.PushPublish?) && pc.value == v && puts == 1))
  }

  ghost predicate PopSoFar<T>(pc: Pc<T>, puts: nat, takes: nat) {
    && puts == 0
    && (((pc.PopCheck? || pc.PopCas?) && takes == 0) || ((pc.PopRead? || pc.PopRelease?) && takes == 1))
  }

  lemma PushMoves<T>(s: Queue<T>, e: Event<T>, t: nat, v: T, puts: nat, takes: nat)
    requires Enabled(s, e) && PushSoFar(PcOf(s, t), v, puts, takes) && !PcOf(Apply(s, e), t).Idle?
    ensures var u := Apply(s, e);
      PushSoFar(PcOf(u, t), v, puts + (if e.t == t && u.pushed != s.pushed then 1 else 0),
                takes + (if e.t == t && u.head != s.head then 1 else 0))
  {
    hide SlotOf;
  }

  lemma PopMoves<T>(s: Queue<T>, e: Event<T>, t: nat, puts: nat, takes: nat)
    requires Enabled(s, e) && PopSoFar(PcOf(s, t), puts, takes) && !PcOf(Apply(s, e), t).Idle?
    ensures var u := Apply(s, e);
      PopSoFar(PcOf(u, t), puts + (if e.t == t && u.pushed != s.pushed then 1 else 0),
               takes + (if e.t == t && u.head != s.head then 1 else 0))
  {
    hide SlotOf;
  }

  lemma CallStarts<T>(s: Queue<T>, e: Event<T>)
    requires Enabled(s, e) && PcOf(s, e.t).Idle?
    ensures var u := Apply(s, e); u.pushed == s.pushed && u.head == s.head
    ensures e.StartPush? ==> PushSoFar(PcOf(Apply(s, e), e.t), e.value, 0, 0)
    ensures e.StartPop? ==> PopSoFar(PcOf(Apply(s, e), e.t), 0, 0)
  {
  }

  lemma {:induction false} PushInside<T>(capacity: nat, states: seq<Queue<T>>, events: seq<Event<T>>,
                                         i: nat, m: nat, k: nat, t: nat)
    requires IsRun(capacity, states, events) && IsCall(states, events, i, k, t) && i < m < k
    requires PcOf(states[i], t).Idle? && events[i].StartPush?
    ensures PushSoFar(PcOf(states[m], t), events[i].value, Puts(states, events, i, m, t),
                      Takes(states, events, i, m, t))
  {
    hide PushSoFar, Apply;
    assert states[m] == Apply(states[m - 1], events[m - 1]) && Enabled(states[m - 1], events[m - 1]);
    if i + 1 < m {
      PushInside(capacity, states, events, i, m - 1, k, t);
      PushMoves(states[m - 1], events[m - 1], t, events[i].value, Puts(states, events, i, m - 1, t),
                Takes(states, events, i, m - 1, t));
    } else {
      CallStarts(states[i], events[i]);
    }
  }

  lemma {:induction false} PopInside<T>(capacity: nat, states: seq<Queue<T>>, events: seq<Event<T>>,
                                        i: nat, m: nat, k: nat, t: nat)
    requires IsRun(capacity, states, events) && IsCall(states, events, i, k, t) && i < m < k
    requires PcOf(states[i], t).Idle? && events[i].StartPop?
    ensures PopSoFar(PcOf(states[m], t), Puts(states, events, i, m, t), Takes(states, events, i, m, t))
  {
    hide PopSoFar, Apply;
    assert states[m] == Apply(states[m - 1], events[m - 1]) && Enabled(states[m - 1], events[m - 1]);
    if i + 1 < m {
      PopInside(capacity, states, events, i, m - 1, k, t);
      PopMoves(states[m - 1], events[m - 1], t, Puts(states, events, i, m - 1, t), Takes(states, events, i, m - 1, t));
    } else {
      CallStarts(states[i], events[i]);
    }
  }

  /** How a push ends. */
  lemma PushLast<T>(s: Queue<T>, e: Event<T>, t: nat)
    requires Inv(s) && Enabled(s, e) && PcOf(Apply(s, e), t).Idle?
    requires var pc := PcOf(s, t); pc.PushCheck? || pc.PushCas? || pc.PushWrite? || pc.PushPublish?
    ensures var pc, u := PcOf(s, t), Apply(s, e);
      && u.slots != [] && |u.slots| == |s.slots| && u.pushed == s.pushed && u.head == s.head
      && if pc.PushPublish? then
           && pc.ticket < |u.pushed| && u.pushed[pc.ticket] == pc.value
           && SlotAt(u.slots, pc.ticket) == Slot(Some(pc.value), pc.ticket, pc.ticket)
         else
           pc.PushCheck? && SlotAt(s.slots, pc.ticket).tail != pc.ticket
  {
    hide Index, SlotOk;
    assert ThreadOk(s.slots, s.tail, s.head, s.pushed, PcOf(s, t));
    assert e.t == t;
  }

  /** How a pop ends. */
  lemma PopLast<T>(s: Queue<T>, e: Event<T>, t: nat)
    requires Inv(s) && Enabled(s, e) && PcOf(Apply(s, e), t).Idle?
    requires var pc := PcOf(s, t); pc.PopCheck? || pc.PopCas? || pc.PopRead? || pc.PopRelease?
    ensures var pc, u := PcOf(s, t), Apply(s, e);
      && u.slots != [] && |u.slots| == |s.slots| && u.pushed == s.pushed && u.head == s.head
      && if pc.PopRelease? then
           && pc.ticket < |u.pushed| && pc.value == u.pushed[pc.ticket]
           && pc.ticket in u.popped && u.popped[pc.ticket] == pc.value
           && SlotAt(u.slots, pc.ticket) == Slot(None, pc.ticket + |u.slots|, pc.ticket)
         else
           pc.PopCheck? && SlotAt(s.slots, pc.ticket).head != pc.ticket
  {
    hide Index, SlotOk;
    assert ThreadOk(s.slots, s.tail, s.head, s.pushed, PcOf(s, t));
    assert e.t == t;
  }

  /** A call does not end with the step that begins it. */
  lemma CallGoesOn<T>(capacity: nat, states: seq<Queue<T>>, events: seq<Event<T>>, i: nat, k: nat, t: nat)
    requires IsRun(capacity, states, events) && IsCall(states, events, i, k, t)
    requires PcOf(states[i], t).Idle? && (events[i].StartPush? || events[i].StartPop?)
    ensures i + 1 < k
  {
    assert states[i + 1] == Apply(states[i], events[i]) && Enabled(states[i], events[i]);
  }

  /** A push that returns true has put its value into the history exactly once and left it in its slot, for
      the pop with the same ticket to find; one that returns false has done nothing and had a reason. */
  lemma PushCall<T>(capacity: nat, states: seq<Queue<T>>, events: seq<Event<T>>, i: nat, k: nat, t: nat)
    requires capacity > 0 && IsRun(capacity, states, events) && IsCall(states, events, i, k, t)
    requires PcOf(states[i], t).Idle? && events[i].StartPush?
    ensures var v, last, s := events[i].value, PcOf(states[k - 1], t), states[k];
      s.slots != [] &&
      if last.PushPublish? then
        && Puts(states, events, i, k, t) == 1 && Takes(states, events, i, k, t) == 0
        && last.ticket < |s.pushed| && s.pushed[last.ticket] == v
        && SlotAt(s.slots, last.ticket) == Slot(Some(v), last.ticket, last.ticket)
      else
        && Puts(states, events, i, k, t) == 0 && Takes(states, events, i, k, t) == 0
        && last.PushCheck? && states[k - 1].slots != []
        && SlotAt(states[k - 1].slots, last.ticket).tail != last.ticket
  {
    hide Inv, Apply, SlotAt, Enabled, Owned;
    CallGoesOn(capacity, states, events, i, k, t);
    PushInside(capacity, states, events, i, k - 1, k, t);
    RunInv(capacity, states, events, k - 1);
    RunInv(capacity, states, events, k);
    assert states[k] == Apply(states[k - 1], events[k - 1]) && Enabled(states[k - 1], events[k - 1]);
    PushLast(states[k - 1], events[k - 1], t);
  }

  /** A pop that returns true has taken one ticket, given back the value pushed with it, and handed the slot
      on to the push a lap later; one that returns false has done nothing and had a reason. */
  lemma PopCall<T>(capacity: nat, states: seq<Queue<T>>, events: seq<Event<T>>, i: nat, k: nat, t: nat)
    requires capacity > 0 && IsRun(capacity, states, events) && IsCall(states, events, i, k, t)
    requires PcOf(states[i], t).Idle? && events[i].StartPop?
    ensures var last, s := PcOf(states[k - 1], t), states[k];
      s.slots != [] &&
      if last.PopRelease? then
        && Puts(states, events, i, k, t) == 0 && Takes(states, events, i, k, t) == 1
        && last.ticket < |s.pushed| && last.value == s.pushed[last.ticket]
        && last.ticket in s.popped && s.popped[last.ticket] == last.value
        && SlotAt(s.slots, last.ticket) == Slot(None, last.ticket + capacity, last.ticket)
      else
        && Puts(states, events, i, k, t) == 0 && Takes(states, events, i, k, t) == 0
        && last.PopCheck? && states[k - 1].slots != []
        && SlotAt(states[k - 1].slots, last.ticket).head != last.ticket
  {
    hide Inv, Apply, SlotAt, Enabled, Owned;
    CallGoesOn(capacity, states, events, i, k, t);
    PopInside(capacity, states, events, i, k - 1, k, t);
    RunInv(capacity, states, events, k - 1);
    RunInv(capacity, states, events, k);
    assert states[k] == Apply(states[k - 1], events[k - 1]) && Enabled(states[k - 1], events[k - 1]);
    PopLast(states[k - 1], events[k - 1], t);
  }

  // --- a call that runs alone

  /** Only thread t makes steps from i to k, and nobody else is inside a call. */
  ghost predicate Alone<T>(states: seq<Queue<T>>, events: seq<Event<T>>, i: nat, k: nat, t: nat) {
    && i <= k < |states| && |states| == |events| + 1
    && (forall m :: i <= m < k ==> events[m].t == t)
    && (forall u :: u in states[i].pcs && u != t ==> states[i].pcs[u].Idle?)
  }

  /** Whether a step is a weak swap that fails for no reason. */
  predicate Fails<T>(e: Event<T>) {
    (e.ClaimPush? || e.ClaimPop?) && e.spurious
  }

  /** How often a weak swap has failed for no reason. */
  function Spurious<T>(events: seq<Event<T>>, i: nat, k: nat): nat
    requires i <= k <= |events|
  {
    if i == k then 0
    else Spurious(events, i, k - 1) + if Fails(events[k - 1]) then 1 else 0
  }

  lemma Room<T>(s: Queue<T>, t: nat)
    requires Inv(s) && Owned(s) && !Claims(PcOf(s, t))
    requires forall u :: u in s.pcs && u != t ==> s.pcs[u].Idle?
    ensures SlotAt(s.slots, s.tail).tail == s.tail <==> s.tail - s.head < |s.slots|
    ensures SlotAt(s.slots, s.head).head == s.head <==> s.head < s.tail
  {
    hide Index, SlotOk;
    HeadSlot(s);
    if SlotAt(s.slots, s.tail).tail != s.tail { TailTaken(s); }
    if SlotAt(s.slots, s.head).head != s.head { HeadMissing(s); }
    Taken(s);
  }

  /** A full queue's next slot does not wait for a push, an empty one's holds nothing. */
  lemma Taken<T>(s: Queue<T>)
    requires Inv(s)
    ensures s.tail - s.head == |s.slots| ==> SlotAt(s.slots, s.tail).tail != s.tail
    ensures s.tail == s.head ==> SlotAt(s.slots, s.head).head != s.head
  {
    hide Index;
    HeadSlot(s);
    NextTicket(s.head, |s.slots|);
    var k := SlotOf(s, s.head);
    assert SlotOk(|s.slots|, s.tail, s.head, s.pushed, s.slots[k], k);
  }

  /** Where a push of v alone is when it began with b the values pushed and h popped: how many steps it has
      left, unless the swap fails for no reason. */
  ghost predicate PushAlone<T>(s: Queue<T>, pc: Pc<T>, v: T, b: seq<T>, h: nat, left: nat) {
    && s.head == h
    && match pc
       case PushCheck(w, j) => w == v && s.pushed == b && j == s.tail && left >= 4
       case PushCas(w, j) =>
         w == v && s.pushed == b && if j == s.tail then left >= 3 && s.tail - h < |s.slots| else left >= 5
       case PushWrite(w, j) => w == v && s.pushed == b + [v] && j == |b| && |b| - h < |s.slots| && left >= 2
       case PushPublish(w, j) => w == v && s.pushed == b + [v] && j == |b| && |b| - h < |s.slots| && left >= 1
       case Idle => s.pushed == if |b| - h < |s.slots| then b + [v] else b
       case _ => false
  }

  lemma PushAloneStep<T>(s: Queue<T>, e: Event<T>, v: T, b: seq<T>, h: nat, left: nat)
    requires Inv(s) && Owned(s) && Enabled(s, e)
    requires forall u :: u in s.pcs && u != e.t ==> s.pcs[u].Idle?
    requires PushAlone(s, PcOf(s, e.t), v, b, h, left) && !PcOf(s, e.t).Idle?
    ensures var more := if Fails(e) then 2 else 0;
      left > 0 && PushAlone(Apply(s, e), PcOf(Apply(s, e), e.t), v, b, h, left - 1 + more)
    ensures var u := Apply(s, e); forall t :: t in u.pcs && t != e.t ==> u.pcs[t].Idle?
  {
    hide Index, SlotOk;
    if PcOf(s, e.t).PushCheck? { Room(s, e.t); }
  }

  /** Where a pop alone is when it began with b popped and the head at h. */
  ghost predicate PopAlone<T>(s: Queue<T>, pc: Pc<T>, p: seq<T>, b: map<nat, T>, h: nat, left: nat) {
    && s.pushed == p
    && match pc
       case PopCheck(j) => s.head == h && s.popped == b && j == h && left >= 4
       case PopCas(j) => s.head == h && s.popped == b && if j == h then left >= 3 && h < |p| else left >= 5
       case PopRead(j) => h < |p| && s.head == h + 1 && s.popped == b && j == h && left >= 2
       case PopRelease(j, w) => h < |p| && s.head == h + 1 && s.popped == b && j == h && w == p[h] && left >= 1
       case Idle => if h < |p| then s.head == h + 1 && s.popped == b[h := p[h]] else s.head == h && s.popped == b
       case _ => false
  }

  lemma PopAloneStep<T>(s: Queue<T>, e: Event<T>, p: seq<T>, b: map<nat, T>, h: nat, left: nat)
    requires Inv(s) && Owned(s) && Enabled(s, e)
    requires forall u :: u in s.pcs && u != e.t ==> s.pcs[u].Idle?
    requires PopAlone(s, PcOf(s, e.t), p, b, h, left) && !PcOf(s, e.t).Idle?
    ensures var more := if Fails(e) then 2 else 0;
      left > 0 && PopAlone(Apply(s, e), PcOf(Apply(s, e), e.t), p, b, h, left - 1 + more)
    ensures var u := Apply(s, e); forall t :: t in u.pcs && t != e.t ==> u.pcs[t].Idle?
  {
    hide Index, SlotOk;
    assert ThreadOk(s.slots, s.tail, s.head, s.pushed, PcOf(s, e.t));
    if PcOf(s, e.t).PopCheck? { Room(s, e.t); }
  }

  /** A swap that can still succeed has seen that there is room, or an item. */
  lemma SwapHasRoom<T>(s: Queue<T>, t: nat)
    requires Inv(s) && Owned(s) && (forall u :: u in s.pcs && u != t ==> s.pcs[u].Idle?)
    ensures PcOf(s, t).PushCas? && PcOf(s, t).ticket == s.tail ==> s.tail - s.head < |s.slots|
    ensures PcOf(s, t).PopCas? && PcOf(s, t).ticket == s.head ==> s.head < |s.pushed|
  {
    hide Index, SlotOk;
    assert ThreadOk(s.slots, s.tail, s.head, s.pushed, PcOf(s, t));
    if PcOf(s, t).PushCas? || PcOf(s, t).PopCas? { Room(s, t); }
  }

  ghost predicate Others<T>(s: Queue<T>, t: nat) {
    forall u :: u in s.pcs && u != t ==> s.pcs[u].Idle?
  }

  function Value<T>(s: Queue<T>, e: Event<T>): T
    requires PcOf(s, e.t).PushCas? || e.StartPush?
  {
    if PcOf(s, e.t).PushCas? then PcOf(s, e.t).value else e.value
  }

  lemma PushAloneFirst<T>(s: Queue<T>, e: Event<T>)
    requires Inv(s) && Owned(s) && Enabled(s, e) && Others(s, e.t)
    requires PcOf(s, e.t).PushCas? || (PcOf(s, e.t).Idle? && e.StartPush?)
    ensures var more := if Fails(e) then 2 else 0;
      PushAlone(Apply(s, e), PcOf(Apply(s, e), e.t), Value(s, e), s.pushed, s.head, 4 + more)
    ensures Others(Apply(s, e), e.t)
  {
    hide Index, SlotOk, Inv, Owned;
    SwapHasRoom(s, e.t);
    if PcOf(s, e.t).PushCas? { PushAloneStep(s, e, Value(s, e), s.pushed, s.head, 5); }
  }

  lemma PopAloneFirst<T>(s: Queue<T>, e: Event<T>)
    requires Inv(s) && Owned(s) && Enabled(s, e) && Others(s, e.t)
    requires PcOf(s, e.t).PopCas? || (PcOf(s, e.t).Idle? && e.StartPop?)
    ensures var more := if Fails(e) then 2 else 0;
      PopAlone(Apply(s, e), PcOf(Apply(s, e), e.t), s.pushed, s.popped, s.head, 4 + more)
    ensures Others(Apply(s, e), e.t)
  {
    hide Index, SlotOk, Inv, Owned;
    SwapHasRoom(s, e.t);
    if PcOf(s, e.t).PopCas? { PopAloneStep(s, e, s.pushed, s.popped, s.head, 5); }
  }

  lemma {:induction false} PushAloneSoFar<T>(capacity: nat, states: seq<Queue<T>>, events: seq<Event<T>>,
                                             i: nat, k: nat, t: nat)
    requires capacity > 0 && IsRun(capacity, states, events) && Alone(states, events, i, k, t) && i < k
    requires PcOf(states[i], t).PushCas? || (PcOf(states[i], t).Idle? && events[i].StartPush?)
    requires forall m :: i < m < k ==> !PcOf(states[m], t).Idle?
    ensures k - i <= 5 + 2 * Spurious(events, i, k) && Others(states[k], t)
    ensures PushAlone(states[k], PcOf(states[k], t), Value(states[i], events[i]), states[i].pushed, states[i].head,
                      5 + 2 * Spurious(events, i, k) - (k - i))
  {
    hide PushAlone, Inv, Owned, Apply, Enabled;
    RunInv(capacity, states, events, k - 1);
    assert states[k] == Apply(states[k - 1], events[k - 1]) && Enabled(states[k - 1], events[k - 1]);
    assert events[k - 1].t == t;
    if i + 1 == k {
      PushAloneFirst(states[i], events[i]);
      assert Spurious(events, i, i) == 0;
    } else {
      PushAloneSoFar(capacity, states, events, i, k - 1, t);
      PushAloneStep(states[k - 1], events[k - 1], Value(states[i], events[i]), states[i].pushed, states[i].head,
                    5 + 2 * Spurious(events, i, k - 1) - (k - 1 - i));
    }
  }

  lemma {:induction false} PopAloneSoFar<T>(capacity: nat, states: seq<Queue<T>>, events: seq<Event<T>>,
                                            i: nat, k: nat, t: nat)
    requires capacity > 0 && IsRun(capacity, states, events) && Alone(states, events, i, k, t) && i < k
    requires PcOf(states[i], t).PopCas? || (PcOf(states[i], t).Idle? && events[i].StartPop?)
    requires forall m :: i < m < k ==> !PcOf(states[m], t).Idle?
    ensures k - i <= 5 + 2 * Spurious(events, i, k) && Others(states[k], t)
    ensures PopAlone(states[k], PcOf(states[k], t), states[i].pushed, states[i].popped, states[i].head,
                     5 + 2 * Spurious(events, i, k) - (k - i))
  {
    hide PopAlone, Inv, Owned, Apply, Enabled;
    RunInv(capacity, states, events, k - 1);
    assert states[k] == Apply(states[k - 1], events[k - 1]) && Enabled(states[k - 1], events[k - 1]);
    assert events[k - 1].t == t;
    if i + 1 == k {
      PopAloneFirst(states[i], events[i]);
      assert Spurious(events, i, i) == 0;
    } else {
      PopAloneSoFar(capacity, states, events, i, k - 1, t);
      PopAloneStep(states[k - 1], events[k - 1], states[i].pushed, states[i].popped, states[i].head,
                   5 + 2 * Spurious(events, i, k - 1) - (k - 1 - i));
    }
  }

  /** A push that runs alone, from its start or from a swap on whatever ticket it has loaded, ends within five
      steps and two more for every spurious failure, and puts its value into the queue exactly when there
      is room for it. */
  lemma AlonePushSucceeds<T>(capacity: nat, states: seq<Queue<T>>, events: seq<Event<T>>, i: nat, k: nat, t: nat)
    requires capacity > 0 && IsRun(capacity, states, events) && Alone(states, events, i, k, t) && i < k
    requires PcOf(states[i], t).PushCas? || (PcOf(states[i], t).Idle? && events[i].StartPush?)
    requires forall m :: i < m < k ==> !PcOf(states[m], t).Idle?
    ensures k - i <= 5 + 2 * Spurious(events, i, k)
    ensures k - i == 5 + 2 * Spurious(events, i, k) ==> PcOf(states[k], t).Idle?
    ensures PcOf(states[k], t).Idle? ==>
      && states[k].head == states[i].head
      && states[k].pushed == if |states[i].pushed| - states[i].head < capacity
                             then states[i].pushed + [Value(states[i], events[i])]
                             else states[i].pushed
  {
    hide Inv, Owned, Apply, Enabled;
    RunInv(capacity, states, events, k);
    PushAloneSoFar(capacity, states, events, i, k, t);
  }

  /** A pop that runs alone ends as soon, and takes the first object of the queue exactly when there is
      one. */
  lemma AlonePopSucceeds<T>(capacity: nat, states: seq<Queue<T>>, events: seq<Event<T>>, i: nat, k: nat, t: nat)
    requires capacity > 0 && IsRun(capacity, states, events) && Alone(states, events, i, k, t) && i < k
    requires PcOf(states[i], t).PopCas? || (PcOf(states[i], t).Idle? && events[i].StartPop?)
    requires forall m :: i < m < k ==> !PcOf(states[m], t).Idle?
    ensures k - i <= 5 + 2 * Spurious(events, i, k)
    ensures k - i == 5 + 2 * Spurious(events, i, k) ==> PcOf(states[k], t).Idle?
    ensures PcOf(states[k], t).Idle? ==>
      && states[k].pushed == states[i].pushed
      && if states[i].head < |states[i].pushed| then
           && states[k].head == states[i].head + 1
           && states[k].popped == states[i].popped[states[i].head := states[i].pushed[states[i].head]]
         else
           states[k].head == states[i].head && states[k].popped == states[i].popped
  {
    hide Inv, Owned, Apply, Enabled;
    PopAloneSoFar(capacity, states, events, i, k, t);
  }
}
