/** What the calls of a memory unit come to: over every interleaving an allocation hands out the cell it
    took off its list and a free puts the cell at the head of the list it belongs to, new memory is only
    asked for when a list was found empty, and a call that runs alone ends after a fixed number of steps. */
module MemoryUnitCalls {
  import opened MemoryUnit
  import opened MemoryUnitSafety

  // --- the last step of a thread

  lemma OthersStay(s: Unit, e: Event, t: nat)
    requires Enabled(s, e) && Actor(e) != t
    ensures PcOf(Apply(s, e), t) == PcOf(s, t)
  {
  }

  /** The step of thread t that brought it to where it is: it has made no step since. */
  lemma {:induction false} LastStep(states: seq<Unit>, events: seq<Event>, i: nat, t: nat) returns (m: nat)
    requires IsRun(states, events) && i < |states| && !PcOf(states[i], t).Idle?
    ensures m < i && Actor(events[m]) == t && PcOf(states[m + 1], t) == PcOf(states[i], t)
    ensures Enabled(states[m], events[m]) && states[m + 1] == Apply(states[m], events[m])
    ensures forall n :: m < n < i ==> Actor(events[n]) != t
  {
    hide Apply, Enabled;
    assert Enabled(states[i - 1], events[i - 1]) && states[i] == Apply(states[i - 1], events[i - 1]);
    if Actor(events[i - 1]) == t {
      m := i - 1;
    } else {
      OthersStay(states[i - 1], events[i - 1], t);
      m := LastStep(states, events, i - 1, t);
    }
  }

  // --- where cells come from

  /** How thread 0 gets to where it is inside an allocation. */
  lemma MainComesFrom(s: Unit, e: Event)
    requires Enabled(s, e) && Actor(e) == 0
    ensures var u := Apply(s, e);
      && (PcOf(u, 0).MainPop? ==> e.TakeDrained? && PcOf(s, 0).DrainTake? && u.head == PcOf(s, 0).exp.ptr)
      && (PcOf(u, 0).DrainTake? ==>
            e.TryDrain? && PcOf(s, 0).DrainCas? && PcOf(s, 0).exp == s.cache && PcOf(u, 0).exp == s.cache &&
            u.cache == PcOf(s, 0).next)
  {
  }

  /** What the invariant says of thread 0 when it takes a cell or drains the cache list. */
  lemma MainWord(s: Unit, a: Ledger, e: Event)
    requires Inv(s, a) && Enabled(s, e) && (e.PopMain? || e.MainAlloc? || e.TryDrain?)
    ensures e.PopMain? || e.MainAlloc? ==>
      s.head == Null || (s.head.Cell? && s.head.id in s.word && s.head.id !in s.held)
    ensures e.TryDrain? && s.cache == PcOf(s, 0).exp ==> PcOf(s, 0).next.ptr == Null
  {
    MainList(s, a);
    hide Threads, ThreadOk;
    if s.head.Cell? { assert a.places[a.main[0]] == InMain; }
  }

  /** A cell is handed out by a step: nobody held it, and now its word carries a sign. */
  predicate HandsOut(s: Unit, u: Unit, t: nat, c: nat, multi: bool) {
    && c !in s.held && u.held == s.held + {c}
    && c in u.word && u.word[c] == Sign(multi)
    && PcOf(u, t).Idle?
  }

  lemma PopCell(s: Unit)
    requires s.head.Cell? && s.head.id in s.word && s.head.id !in s.held
    ensures HandsOut(s, Pop(s), 0, s.head.id, false) && Pop(s).word.Keys == s.word.Keys
  {
  }

  lemma BlockFirst(s: Unit, a: Ledger, cells: seq<nat>)
    requires Inv(s, a) && NewBlock(s, cells)
    ensures cells != [] && cells[0] in Linked(cells, Null) && cells[0] !in s.held
    ensures Linked(cells, Null).Keys == set c | c in cells
  {
    hide Inv;
    LinkedWords(cells, Null);
    HeldKnown(s, a, cells[0]);
  }

  lemma PopHandsOut(s: Unit, a: Ledger, e: Event)
    requires Inv(s, a) && Enabled(s, e) && (e.PopMain? || (e.MainAlloc? && s.head != Null))
    ensures s.head == Null ==> e.cells != []
    ensures HandsOut(s, Apply(s, e), 0, if s.head.Cell? then s.head.id else e.cells[0], false)
    ensures Apply(s, e).word.Keys == s.word.Keys + (if s.head == Null then set c | c in e.cells else {})
  {
    hide Inv, HandsOut, Linked, NewBlock;
    MainWord(s, a, e);
    if s.head == Null {
      BlockFirst(s, a, e.cells);
      var s1 := s.(word := s.word + Linked(e.cells, Null), head := Cell(e.cells[0]));
      PopCell(s1);
      HandsOutSame(s1, s, Pop(s1), e.cells[0]);
    } else {
      PopCell(s);
    }
  }

  lemma HandsOutSame(s1: Unit, s: Unit, u: Unit, c: nat)
    requires HandsOut(s1, u, 0, c, false) && s1.held == s.held
    ensures HandsOut(s, u, 0, c, false)
  {
  }

  lemma HeldKnown(s: Unit, a: Ledger, c: nat)
    requires Inv(s, a) && c !in s.word
    ensures c !in s.held
  {
    hide Threads, Lists;
  }

  /** The creator takes the first cell of its own list if there is one. */
  lemma MainTakesOwn(states: seq<Unit>, events: seq<Event>, i: nat)
    requires IsRun(states, events) && i < |events| && events[i].MainAlloc?
    ensures states[i].head.Cell? ==> HandsOut(states[i], states[i + 1], 0, states[i].head.id, false)
    ensures states[i].head.Cell? || (states[i].head == Null && states[i + 1].held == states[i].held)
  {
    hide Inv, HandsOut;
    var a := RunInv(states, events, i);
    assert Enabled(states[i], events[i]) && states[i + 1] == Apply(states[i], events[i]);
    MainWord(states[i], a, events[i]);
    if states[i].head != Null { PopHandsOut(states[i], a, events[i]); }
  }

  /** Nobody but the creator touches its own list. */
  lemma {:induction false} HeadStays(states: seq<Unit>, events: seq<Event>, k: nat, i: nat)
    requires IsRun(states, events) && k <= i < |states|
    requires forall n :: k <= n < i ==> Actor(events[n]) != 0
    ensures states[i].head == states[k].head
  {
    if k < i {
      HeadStays(states, events, k, i - 1);
      assert Enabled(states[i - 1], events[i - 1]) && states[i] == Apply(states[i - 1], events[i - 1]);
    }
  }

  /** The drain that came before, in the same call: it left the cache list empty, and what it took is what
      the creator's list begins with. */
  lemma DrainBefore(states: seq<Unit>, events: seq<Event>, i: nat) returns (d: nat)
    requires IsRun(states, events) && i < |states| && PcOf(states[i], 0).MainPop?
    ensures d < i && events[d].TryDrain?
    ensures forall n :: d < n < i && Actor(events[n]) == 0 ==> events[n].TakeDrained?
    ensures states[i].head == states[d].cache.ptr && states[d + 1].cache.ptr == Null
  {
    hide Inv, Apply, Enabled;
    var k := LastStep(states, events, i, 0);
    MainComesFrom(states[k], events[k]);
    HeadStays(states, events, k + 1, i);
    d := LastStep(states, events, k, 0);
    MainComesFrom(states[d], events[d]);
    var b := RunInv(states, events, d);
    MainWord(states[d], b, events[d]);
  }

  lemma PopsInside(s: Unit, e: Event)
    requires Enabled(s, e) && e.PopMain?
    ensures PcOf(s, 0).MainPop?
  {
  }

  /** Otherwise it has first taken over the whole cache list, in the same call, and hands out the first cell
      of that; only if that was empty it makes a block, and hands out the block's first cell. */
  lemma MainTakesDrained(states: seq<Unit>, events: seq<Event>, i: nat) returns (d: nat)
    requires IsRun(states, events) && i < |events| && events[i].PopMain?
    ensures d < i && events[d].TryDrain?
    ensures forall n :: d < n < i && Actor(events[n]) == 0 ==> events[n].TakeDrained?
    ensures states[d + 1].cache.ptr == Null
    ensures states[d].cache.ptr.Cell? || (states[d].cache.ptr == Null && events[i].cells != [])
    ensures HandsOut(states[i], states[i + 1], 0,
                     if states[d].cache.ptr.Cell? then states[d].cache.ptr.id else events[i].cells[0], false)
    ensures states[i + 1].word.Keys == states[i].word.Keys +
      if states[d].cache.ptr == Null then set c | c in events[i].cells else {}
  {
    hide Inv, HandsOut, Apply, Enabled;
    var a := RunInv(states, events, i);
    assert Enabled(states[i], events[i]) && states[i + 1] == Apply(states[i], events[i]);
    PopsInside(states[i], events[i]);
    d := DrainBefore(states, events, i);
    MainWord(states[i], a, events[i]);
    PopHandsOut(states[i], a, events[i]);
  }

  /** How the other threads get to where they are inside an allocation. */
  lemma AllocComesFrom(s: Unit, e: Event)
    requires Enabled(s, e)
    ensures var u, t := Apply(s, e), Actor(e);
      && (PcOf(u, t).AllocSign? ==> e.TryAlloc? && s.mt.ptr == Cell(PcOf(u, t).cell))
      && (PcOf(u, t).AllocGrow? ==> e.TryAlloc? && s.mt.ptr == Null)
  {
  }

  lemma SignHandsOut(s: Unit, a: Ledger, e: Event)
    requires Inv(s, a) && Enabled(s, e) && e.ReturnCell?
    ensures HandsOut(s, Apply(s, e), e.t, PcOf(s, e.t).cell, true)
  {
    OwnPc(s, a, e.t);
    HeldPlace(s, a, PcOf(s, e.t).cell);
    hide Inv;
  }

  /** Any other thread hands out the cell that was first on the shared list when it took it. */
  lemma OthersTakeShared(states: seq<Unit>, events: seq<Event>, i: nat) returns (m: nat)
    requires IsRun(states, events) && i < |events| && events[i].ReturnCell?
    ensures m < i && events[m] == TryAlloc(events[i].t)
    ensures forall n :: m < n < i ==> Actor(events[n]) != events[i].t
    ensures states[m].mt.ptr.Cell?
    ensures HandsOut(states[i], states[i + 1], events[i].t, states[m].mt.ptr.id, true)
  {
    hide Inv, HandsOut;
    var a := RunInv(states, events, i);
    assert Enabled(states[i], events[i]) && states[i + 1] == Apply(states[i], events[i]);
    m := LastStep(states, events, i, events[i].t);
    AllocComesFrom(states[m], events[m]);
    SignHandsOut(states[i], a, events[i]);
  }

  /** It asks for a block only when it has just found the shared list empty. */
  lemma BlockOnlyIfEmpty(states: seq<Unit>, events: seq<Event>, i: nat) returns (m: nat)
    requires IsRun(states, events) && i < |events| && events[i].MakeBlock?
    ensures m < i && events[m] == TryAlloc(events[i].t) && states[m].mt.ptr == Null
    ensures forall n :: m < n < i ==> Actor(events[n]) != events[i].t
  {
    assert Enabled(states[i], events[i]);
    m := LastStep(states, events, i, events[i].t);
    AllocComesFrom(states[m], events[m]);
  }

  predicate Allocating(pc: Pc) {
    pc.AllocCas? || pc.AllocNext? || pc.AllocGrow? || pc.GrowCas? || pc.GrowLink? || pc.AllocSign? ||
    pc.DrainCas? || pc.DrainTake? || pc.MainPop?
  }

  predicate Freeing(pc: Pc) {
    pc.FreeCheck? || pc.FreeCas? || pc.FreeLink? || pc.CacheCas? || pc.CacheLink?
  }

  lemma AllocMoves(s: Unit, e: Event, t: nat)
    requires Enabled(s, e) && Allocating(PcOf(s, t))
    ensures var pc := PcOf(Apply(s, e), t);
      Allocating(pc) || pc.Crushed? || (pc.Idle? && Actor(e) == t && (e.ReturnCell? || e.PopMain?))
  {
    if Actor(e) != t { OthersStay(s, e, t); }
  }

  predicate HandsOne(s: Unit, u: Unit, t: nat, multi: bool) {
    exists c :: c in u.held && HandsOut(s, u, t, c, multi)
  }

  lemma OneHanded(s: Unit, u: Unit, t: nat, c: nat, multi: bool)
    requires HandsOut(s, u, t, c, multi)
    ensures HandsOne(s, u, t, multi)
  {
  }

  /** An allocation ends with a cell and in no other way. */
  lemma AllocEnds(states: seq<Unit>, events: seq<Event>, i: nat, t: nat)
    requires IsRun(states, events) && i < |events| && Allocating(PcOf(states[i], t))
    ensures Allocating(PcOf(states[i + 1], t)) || HandsOne(states[i], states[i + 1], t, events[i].ReturnCell?)
  {
    hide Inv, HandsOut, HandsOne, Allocating;
    assert Enabled(states[i], events[i]) && states[i + 1] == Apply(states[i], events[i]);
    AllocMoves(states[i], events[i], t);
    NeverCrushed(states, events, i + 1, t);
    if !Allocating(PcOf(states[i + 1], t)) {
      var a := RunInv(states, events, i);
      if events[i].ReturnCell? {
        SignHandsOut(states[i], a, events[i]);
        OneHanded(states[i], states[i + 1], t, PcOf(states[i], t).cell, true);
      } else {
        PopHandsOut(states[i], a, events[i]);
        OneHanded(states[i], states[i + 1], t,
                  if states[i].head.Cell? then states[i].head.id else events[i].cells[0], false);
      }
    }
  }

  // --- where cells go back to

  /** Whether a step writes the word of a cell there is. */
  predicate Writes(s: Unit, e: Event, c: nat)
    requires Enabled(s, e)
  {
    match e
    case ReturnCell(t) => PcOf(s, t).cell == c
    case CheckSign(t, _, _) => t == 0 && PcOf(s, t).cell == c
    case LinkFree(t) => PcOf(s, t).cell == c
    case LinkCache(t) => PcOf(s, t).cell == c
    case LinkBlock(t) => var cells := PcOf(s, t).cells; cells[|cells| - 1] == c
    case MainAlloc(_, _) => s.head == Cell(c)
    case PopMain(_) => s.head == Cell(c)
    case _ => false
  }

  lemma NotWritten(s: Unit, e: Event, c: nat)
    requires Enabled(s, e) && c in s.word && !Writes(s, e, c)
    ensures c in Apply(s, e).word && Apply(s, e).word[c] == s.word[c]
  {
    if e.PopMain? && s.head == Null { assert e.cells[0] != c; }
  }

  /** A step writes only the words of cells its own thread has, or that are on the creator's list. */
  lemma WritesOwn(s: Unit, a: Ledger, e: Event, c: nat)
    requires Inv(s, a) && Enabled(s, e) && Writes(s, e, c)
    ensures c in a.places
    ensures a.places[c] == With(Actor(e)) || a.places[c] == Growing(Actor(e)) || a.places[c] == InMain
  {
    OwnPc(s, a, Actor(e));
    hide Threads, Tallied;
    if e.MainAlloc? || e.PopMain? { assert a.main != []; }
  }

  lemma CheckPlace(s: Unit, a: Ledger, t: nat)
    requires Inv(s, a) && PcOf(s, t).FreeCheck?
    ensures var c := PcOf(s, t).cell; c in a.places && a.places[c] == With(t) && c in s.word
  {
    OwnPc(s, a, t);
    hide Inv;
  }

  /** A cell that is held, or has just been given back, keeps its sign. */
  lemma SignStays(s: Unit, a: Ledger, e: Event, c: nat, t: nat)
    requires Inv(s, a) && Enabled(s, e)
    requires c in s.held || PcOf(s, t) == FreeCheck(c)
    requires PcOf(s, t) == FreeCheck(c) ==> Actor(e) != t
    ensures c in s.word && c in Apply(s, e).word && Apply(s, e).word[c] == s.word[c]
  {
    hide Apply, Enabled, Inv, Writes;
    HeldPlace(s, a, c);
    if PcOf(s, t) == FreeCheck(c) { CheckPlace(s, a, t); }
    if Writes(s, e, c) { WritesOwn(s, a, e, c); }
    NotWritten(s, e, c);
  }

  /** How a cell comes to be held, or to be given back. */
  lemma HeldComesFrom(s: Unit, a: Ledger, e: Event, c: nat, t: nat)
    requires Inv(s, a) && Enabled(s, e)
    requires c in Apply(s, e).held || PcOf(Apply(s, e), t) == FreeCheck(c)
    ensures c in s.held || PcOf(s, t) == FreeCheck(c) ||
      ((e.ReturnCell? || e.MainAlloc? || e.PopMain?) && HandsOut(s, Apply(s, e), Actor(e), c, e.ReturnCell?))
    ensures PcOf(s, t) == FreeCheck(c) && Actor(e) == t ==> c in s.held
  {
    hide Inv, HandsOut;
    if e.ReturnCell? { SignHandsOut(s, a, e); }
    if e.PopMain? || (e.MainAlloc? && s.head != Null) { PopHandsOut(s, a, e); }
    if PcOf(s, t) == FreeCheck(c) && Actor(e) == t { CheckMoves(s, e, t); }
    HeldMoves(s, e, t);
  }

  lemma CheckMoves(s: Unit, e: Event, t: nat)
    requires Enabled(s, e) && PcOf(s, t).FreeCheck? && Actor(e) == t
    ensures !PcOf(Apply(s, e), t).FreeCheck? && Apply(s, e).held == s.held
  {
  }

  lemma HeldMoves(s: Unit, e: Event, t: nat)
    requires Enabled(s, e)
    ensures !e.ReturnCell? && !e.PopMain? && !(e.MainAlloc? && s.head != Null) ==> Apply(s, e).held <= s.held
    ensures PcOf(Apply(s, e), t).FreeCheck? && PcOf(Apply(s, e), t) != PcOf(s, t) ==>
      e.StartFree? && PcOf(Apply(s, e), t).cell in s.held
    ensures PcOf(Apply(s, e), t).FreeCheck? ==> !(e.ReturnCell? && Actor(e) == t) && !(e.PopMain? && t == 0)
  {
  }

  /** The step that handed out a cell last: since then it has been held or given back by thread t, and its
      sign says whether the creator allocated it. */
  lemma {:induction false} HandedOutBy(states: seq<Unit>, events: seq<Event>, i: nat, c: nat, t: nat) returns (m: nat)
    requires IsRun(states, events) && i < |states|
    requires c in states[i].held || PcOf(states[i], t) == FreeCheck(c)
    ensures m < i && HandsOut(states[m], states[m + 1], Actor(events[m]), c, events[m].ReturnCell?)
    ensures events[m].ReturnCell? || events[m].MainAlloc? || events[m].PopMain?
    ensures c in states[i].word && states[i].word[c] == Sign(events[m].ReturnCell?)
    ensures forall n :: m < n <= i ==> c in states[n].held || PcOf(states[n], t) == FreeCheck(c)
  {
    hide Inv, HandsOut, Apply, Enabled;
    assert Enabled(states[i - 1], events[i - 1]) && states[i] == Apply(states[i - 1], events[i - 1]);
    var a := RunInv(states, events, i - 1);
    HeldComesFrom(states[i - 1], a, events[i - 1], c, t);
    if c in states[i - 1].held || PcOf(states[i - 1], t) == FreeCheck(c) {
      m := HandedOutBy(states, events, i - 1, c, t);
      SignStays(states[i - 1], a, events[i - 1], c, if c in states[i - 1].held then Actor(events[i - 1]) + 1 else t);
    } else {
      m := i - 1;
      SignOf(states[m], states[i], Actor(events[m]), c, events[m].ReturnCell?);
    }
  }

  lemma SignOf(s: Unit, u: Unit, t: nat, c: nat, multi: bool)
    requires HandsOut(s, u, t, c, multi)
    ensures c in u.word && u.word[c] == Sign(multi)
  {
  }

  predicate Returning(pc: Pc, c: nat) {
    (pc.FreeCas? || pc.FreeLink? || pc.CacheCas? || pc.CacheLink?) && pc.cell == c
  }

  /** How a thread gets to where it is inside a free. */
  lemma ReturnComesFrom(s: Unit, e: Event, t: nat, c: nat)
    requires Enabled(s, e) && Returning(PcOf(Apply(s, e), t), c)
    ensures var u := Apply(s, e);
      if Returning(PcOf(s, t), c) then
        (PcOf(u, t).FreeCas? || PcOf(u, t).FreeLink?) <==> (PcOf(s, t).FreeCas? || PcOf(s, t).FreeLink?)
      else
        && e.CheckSign? && e.t == t && PcOf(s, t) == FreeCheck(c) && c in s.word
        && s.word[c] == Sign(PcOf(u, t).FreeCas? || PcOf(u, t).FreeLink?)
        && (s.word[c] == Sign(false) ==> t != 0)
  {
  }

  /** The check of the sign that decided where a cell goes. */
  lemma {:induction false} DecidedBy(states: seq<Unit>, events: seq<Event>, i: nat, c: nat, t: nat) returns (k: nat)
    requires IsRun(states, events) && i < |states| && Returning(PcOf(states[i], t), c)
    ensures k < i && PcOf(states[k], t) == FreeCheck(c) && c in states[k].word
    ensures states[k].word[c] == Sign(PcOf(states[i], t).FreeCas? || PcOf(states[i], t).FreeLink?)
    ensures states[k].word[c] == Sign(false) ==> t != 0
    ensures forall n :: k < n <= i ==> Returning(PcOf(states[n], t), c)
  {
    hide Apply, Enabled;
    assert Enabled(states[i - 1], events[i - 1]) && states[i] == Apply(states[i - 1], events[i - 1]);
    ReturnComesFrom(states[i - 1], events[i - 1], t, c);
    if Returning(PcOf(states[i - 1], t), c) {
      k := DecidedBy(states, events, i - 1, c, t);
    } else {
      k := i - 1;
    }
  }

  /** A cell goes to the head of one of the three lists and leads to what was there. */
  predicate GoesTo(s: Unit, u: Unit, c: nat, from: Ptr, to: Ptr) {
    to == Cell(c) && c in u.word && u.word[c] == from
  }

  /** What a thread knows when its compare-and-swap is about to succeed. */
  lemma Carries(s: Unit, a: Ledger, t: nat)
    requires Inv(s, a) && (PcOf(s, t).FreeCheck? || PcOf(s, t).FreeCas? || PcOf(s, t).CacheCas?)
    ensures var pc := PcOf(s, t);
      && pc.cell in s.word
      && (pc.FreeCas? && pc.exp == s.mt ==> s.word[pc.cell] == s.mt.ptr && pc.next.ptr == Cell(pc.cell))
      && (pc.CacheCas? && pc.exp == s.cache ==> s.word[pc.cell] == s.cache.ptr && pc.next.ptr == Cell(pc.cell))
  {
    hide ThreadOk, Inv;
    OwnPc(s, a, t);
    HeadWord(s, a);
    DropThread(s.word, a.places, s.mt, s.cache, t, PcOf(s, t), PcOf(s, t).cell, s.word, Held, s.mt, s.cache);
  }

  /** How a free ends. */
  lemma FreeLast(s: Unit, a: Ledger, e: Event, t: nat)
    requires Inv(s, a) && Enabled(s, e) && Freeing(PcOf(s, t)) && PcOf(Apply(s, e), t).Idle?
    ensures var pc, u := PcOf(s, t), Apply(s, e);
      match pc
      case FreeCheck(c) => t == 0 && c in s.word && s.word[c] == Sign(false) && GoesTo(s, u, c, s.head, u.head)
      case FreeCas(c, _, _) => GoesTo(s, u, c, s.mt.ptr, u.mt.ptr)
      case CacheCas(c, _, _) => GoesTo(s, u, c, s.cache.ptr, u.cache.ptr)
      case _ => false
  {
    hide Inv;
    if Actor(e) != t { OthersStay(s, e, t); }
    if !PcOf(s, t).FreeLink? && !PcOf(s, t).CacheLink? { Carries(s, a, t); }
  }

  lemma HeadWord(s: Unit, a: Ledger)
    requires Inv(s, a)
    ensures s.mt.ptr != NoPtr && s.cache.ptr != NoPtr
  {
  }

  /** A free ends by putting the cell at the head of the list it belongs to: the shared list if another
      thread had allocated it, and if the creator had, the creator's own list when the creator gives it
      back and the cache list when anybody else does. */
  lemma FreedWhereItBelongs(states: seq<Unit>, events: seq<Event>, i: nat, t: nat) returns (m: nat)
    requires IsRun(states, events) && i < |events|
    requires Freeing(PcOf(states[i], t)) && !Freeing(PcOf(states[i + 1], t))
    ensures var s, u, c := states[i], states[i + 1], PcOf(states[i], t).cell;
      && m < i && HandsOut(states[m], states[m + 1], Actor(events[m]), c, events[m].ReturnCell?)
      && (forall n :: m < n <= i ==>
            c in states[n].held || (Freeing(PcOf(states[n], t)) && PcOf(states[n], t).cell == c))
      && PcOf(u, t).Idle?
      && if events[m].ReturnCell? then GoesTo(s, u, c, s.mt.ptr, u.mt.ptr)
         else if t == 0 then GoesTo(s, u, c, s.head, u.head)
         else GoesTo(s, u, c, s.cache.ptr, u.cache.ptr)
  {
    hide Inv, HandsOut, Apply, Enabled, GoesTo;
    assert Enabled(states[i], events[i]) && states[i + 1] == Apply(states[i], events[i]);
    var a := RunInv(states, events, i);
    FreeMoves(states[i], events[i], t);
    NeverCrushed(states, events, i + 1, t);
    FreeLast(states[i], a, events[i], t);
    var c := PcOf(states[i], t).cell;
    if PcOf(states[i], t).FreeCheck? {
      m := HandedOutBy(states, events, i, c, t);
    } else {
      var k := DecidedBy(states, events, i, c, t);
      m := HandedOutBy(states, events, k, c, t);
    }
  }

  lemma FreeMoves(s: Unit, e: Event, t: nat)
    requires Enabled(s, e) && Freeing(PcOf(s, t))
    ensures var pc := PcOf(Apply(s, e), t); Freeing(pc) || pc.Crushed? || pc.Idle?
  {
  }

  // --- calls that run alone

  /** For n steps from i on only thread t runs. */
  predicate Alone(events: seq<Event>, i: nat, n: nat, t: nat) {
    i + n <= |events| && forall m :: i <= m < i + n ==> Actor(events[m]) == t
  }

  /** An allocation off the shared list that runs alone when the list begins with c, and the steps it has
      left. */
  predicate TakeAlone(s: Unit, pc: Pc, mt: Tagged, held: set<nat>, c: nat, left: nat) {
    mt.ptr == Cell(c) &&
    match pc
    case AllocCas(exp, _) => s.mt == mt && s.held == held && left == if exp == mt then 2 else 4
    case AllocNext(exp) => s.mt == mt && s.held == held && exp == mt && left == 3
    case AllocSign(d) => s.held == held && d == c && left == 1
    case Idle => s.held == held + {c} && left == 0
    case _ => false
  }

  lemma TakeAloneStep(s: Unit, a: Ledger, e: Event, mt: Tagged, held: set<nat>, c: nat, left: nat)
    requires Inv(s, a) && Enabled(s, e) && TakeAlone(s, PcOf(s, Actor(e)), mt, held, c, left) && left > 0
    ensures TakeAlone(Apply(s, e), PcOf(Apply(s, e), Actor(e)), mt, held, c, left - 1)
  {
    hide Inv;
    HeadCell(s, a);
  }

  lemma {:induction false} TakeAloneRun(states: seq<Unit>, events: seq<Event>, i: nat, n: nat, t: nat, mt: Tagged,
                                        held: set<nat>, c: nat, left: nat)
    requires IsRun(states, events) && Alone(events, i, n, t) && n <= left
    requires TakeAlone(states[i], PcOf(states[i], t), mt, held, c, left)
    ensures TakeAlone(states[i + n], PcOf(states[i + n], t), mt, held, c, left - n)
  {
    hide Inv, Apply, Enabled, TakeAlone;
    if n > 0 {
      TakeAloneRun(states, events, i, n - 1, t, mt, held, c, left);
      var j := i + n - 1;
      assert Enabled(states[j], events[j]) && states[j + 1] == Apply(states[j], events[j]);
      var a := RunInv(states, events, j);
      TakeAloneStep(states[j], a, events[j], mt, held, c, left - (n - 1));
    }
  }

  lemma AllocStarts(s: Unit, a: Ledger, e: Event)
    requires Inv(s, a) && Enabled(s, e) && e.StartAlloc?
    ensures s.mt.ptr.Cell? ==> TakeAlone(Apply(s, e), PcOf(Apply(s, e), e.t), s.mt, s.held, s.mt.ptr.id, 4)
    ensures s.mt.ptr == Null ==> GrowAlone(Apply(s, e), PcOf(Apply(s, e), e.t), s.held, [], 9)
    ensures s.mt.ptr.Cell? || s.mt.ptr == Null
  {
    HeadCell(s, a);
    hide Inv;
  }

  /** An allocation that runs alone takes the first cell of the shared list, in five steps. */
  lemma AloneTakesFirst(states: seq<Unit>, events: seq<Event>, i: nat, t: nat)
    requires IsRun(states, events) && Alone(events, i, 5, t)
    requires events[i].StartAlloc? && states[i].mt.ptr != Null
    ensures states[i].mt.ptr.Cell? && PcOf(states[i + 5], t).Idle?
    ensures states[i + 5].held == states[i].held + {states[i].mt.ptr.id}
  {
    hide Inv, Apply, Enabled;
    assert Enabled(states[i], events[i]) && states[i + 1] == Apply(states[i], events[i]);
    var a := RunInv(states, events, i);
    AllocStarts(states[i], a, events[i]);
    TakeAloneRun(states, events, i + 1, 4, t, states[i].mt, states[i].held, states[i].mt.ptr.id, 4);
  }

  /** An allocation that runs alone on an empty shared list, up to the moment its block is linked in. */
  predicate GrowAlone(s: Unit, pc: Pc, held: set<nat>, cells: seq<nat>, left: nat) {
    s.held == held && s.mt.ptr == Null &&
    match pc
    case AllocCas(exp, _) => exp.ptr == NoPtr && left == 9
    case AllocGrow(exp) => exp.ptr == NoPtr && left == 8
    case GrowCas(block, exp, next, back) =>
      && block == cells && cells != [] && next.ptr == Cell(cells[0]) && back.ptr == NoPtr
      && left == if exp == s.mt then 5 else 7
    case GrowLink(block, exp, back) => block == cells && cells != [] && exp == s.mt && back.ptr == NoPtr && left == 6
    case _ => false
  }

  lemma GrowAloneStep(s: Unit, e: Event, held: set<nat>, cells: seq<nat>, left: nat)
    requires Enabled(s, e) && GrowAlone(s, PcOf(s, Actor(e)), held, cells, left) && left > 5
    ensures var u := Apply(s, e);
      GrowAlone(u, PcOf(u, Actor(e)), held, if e.MakeBlock? then e.cells else cells, left - 1)
  {
  }

  lemma GrowAloneLast(s: Unit, e: Event, held: set<nat>, cells: seq<nat>)
    requires Enabled(s, e) && GrowAlone(s, PcOf(s, Actor(e)), held, cells, 5)
    ensures var u := Apply(s, e);
      cells != [] && TakeAlone(u, PcOf(u, Actor(e)), u.mt, held, cells[0], 4)
  {
  }

  lemma GrowAloneAt(states: seq<Unit>, events: seq<Event>, j: nat, t: nat, held: set<nat>, cells: seq<nat>, left: nat)
    requires IsRun(states, events) && j < |events| && Actor(events[j]) == t
    requires GrowAlone(states[j], PcOf(states[j], t), held, cells, left) && left > 5
    ensures GrowAlone(states[j + 1], PcOf(states[j + 1], t), held,
                      if events[j].MakeBlock? then events[j].cells else cells, left - 1)
    ensures left == 8 <==> events[j].MakeBlock?
  {
    assert Enabled(states[j], events[j]) && states[j + 1] == Apply(states[j], events[j]);
    GrowAloneStep(states[j], events[j], held, cells, left);
  }

  lemma TakeAloneEnds(s: Unit, pc: Pc, mt: Tagged, held: set<nat>, c: nat)
    requires TakeAlone(s, pc, mt, held, c, 0)
    ensures pc.Idle? && s.held == held + {c}
  {
  }

  /** An allocation that runs alone on an empty shared list makes one block, and hands out its first cell, in
      ten steps. */
  lemma AloneMakesBlock(states: seq<Unit>, events: seq<Event>, i: nat, t: nat)
    requires IsRun(states, events) && Alone(events, i, 10, t)
    requires events[i].StartAlloc? && states[i].mt.ptr == Null
    ensures events[i + 2].MakeBlock? && events[i + 2].cells != []
    ensures PcOf(states[i + 10], t).Idle?
    ensures states[i + 10].held == states[i].held + {events[i + 2].cells[0]}
  {
    hide Inv, Apply, Enabled, GrowAlone, TakeAlone;
    assert Enabled(states[i], events[i]) && states[i + 1] == Apply(states[i], events[i]);
    var a := RunInv(states, events, i);
    AllocStarts(states[i], a, events[i]);
    var held := states[i].held;
    GrowAloneAt(states, events, i + 1, t, held, [], 9);
    GrowAloneAt(states, events, i + 2, t, held, [], 8);
    var cells := events[i + 2].cells;
    GrowAloneAt(states, events, i + 3, t, held, cells, 7);
    GrowAloneAt(states, events, i + 4, t, held, cells, 6);
    assert Enabled(states[i + 5], events[i + 5]) && states[i + 6] == Apply(states[i + 5], events[i + 5]);
    GrowAloneLast(states[i + 5], events[i + 5], held, cells);
    TakeAloneRun(states, events, i + 6, 4, t, states[i + 6].mt, held, cells[0], 4);
    TakeAloneEnds(states[i + 10], PcOf(states[i + 10], t), states[i + 6].mt, held, cells[0]);
  }

  /** An allocation of the creator that runs alone, its own list being empty. */
  predicate MainAlone(s: Unit, pc: Pc, cache: Tagged, held: set<nat>, left: nat) {
    s.held == held &&
    match pc
    case DrainCas(exp, _) => s.head == Null && s.cache == cache && left == if exp == cache then 3 else 4
    case DrainTake(exp) => exp == cache && left == 2
    case MainPop => s.head == cache.ptr && left == 1
    case _ => false
  }

  lemma MainAloneStep(states: seq<Unit>, events: seq<Event>, j: nat, cache: Tagged, held: set<nat>, left: nat)
    requires IsRun(states, events) && j < |events| && Actor(events[j]) == 0
    requires MainAlone(states[j], PcOf(states[j], 0), cache, held, left) && left > 1
    ensures MainAlone(states[j + 1], PcOf(states[j + 1], 0), cache, held, left - 1)
  {
    assert Enabled(states[j], events[j]) && states[j + 1] == Apply(states[j], events[j]);
  }

  lemma MainStarts(s: Unit, a: Ledger, e: Event)
    requires Inv(s, a) && Enabled(s, e) && e.MainAlloc? && s.head == Null
    ensures MainAlone(Apply(s, e), PcOf(Apply(s, e), 0), s.cache, s.held, 4)
  {
    HeadCell(s, a);
    hide Inv;
  }

  /** An allocation of the creator that runs alone takes the first cell of its own list, in one step; or the
      first cell of the cache list, in five; or the first cell of the one block it makes. */
  lemma AloneMain(states: seq<Unit>, events: seq<Event>, i: nat)
    requires IsRun(states, events) && Alone(events, i, 5, 0) && events[i].MainAlloc?
    ensures states[i].head.Cell? ==>
      PcOf(states[i + 1], 0).Idle? && states[i + 1].held == states[i].held + {states[i].head.id}
    ensures states[i].head.Cell? || states[i].head == Null
    ensures states[i].head == Null ==>
      && PcOf(states[i + 5], 0).Idle? && events[i + 4].PopMain?
      && if states[i].cache.ptr.Cell? then
           && states[i + 5].held == states[i].held + {states[i].cache.ptr.id}
           && states[i + 5].word.Keys == states[i + 4].word.Keys
         else
           events[i + 4].cells != [] && states[i + 5].held == states[i].held + {events[i + 4].cells[0]}
  {
    hide Inv, Apply, Enabled, MainAlone;
    assert Enabled(states[i], events[i]) && states[i + 1] == Apply(states[i], events[i]);
    var a := RunInv(states, events, i);
    MainWord(states[i], a, events[i]);
    if states[i].head.Cell? {
      PopHandsOut(states[i], a, events[i]);
    } else {
      var cache, held := states[i].cache, states[i].held;
      MainStarts(states[i], a, events[i]);
      MainAloneStep(states, events, i + 1, cache, held, 4);
      MainAloneStep(states, events, i + 2, cache, held, 3);
      MainAloneStep(states, events, i + 3, cache, held, 2);
      assert Enabled(states[i + 4], events[i + 4]) && states[i + 5] == Apply(states[i + 4], events[i + 4]);
      MainAloneLast(states[i + 4], events[i + 4], cache, held);
      var b := RunInv(states, events, i + 4);
      MainWord(states[i + 4], b, events[i + 4]);
      PopHandsOut(states[i + 4], b, events[i + 4]);
    }
  }

  lemma MainAloneLast(s: Unit, e: Event, cache: Tagged, held: set<nat>)
    requires Enabled(s, e) && Actor(e) == 0 && MainAlone(s, PcOf(s, 0), cache, held, 1)
    ensures e.PopMain? && s.head == cache.ptr && s.held == held
  {
  }

  /** A free that runs alone, and the steps it has left. */
  predicate FreeAlone(s: Unit, pc: Pc, t: nat, left: nat) {
    match pc
    case FreeCheck(c) =>
      c in s.word && s.word[c].Sign? && left == if t == 0 && s.word[c] == Sign(false) then 1 else 4
    case FreeCas(_, exp, _) => left == if exp == s.mt then 1 else 3
    case FreeLink(_, exp) => exp == s.mt && left == 2
    case CacheCas(_, exp, _) => left == if exp == s.cache then 1 else 3
    case CacheLink(_, exp) => exp == s.cache && left == 2
    case Idle => left == 0
    case _ => false
  }

  lemma CheckAloneStep(s: Unit, e: Event, t: nat, left: nat)
    requires Enabled(s, e) && Actor(e) == t && FreeAlone(s, PcOf(s, t), t, left) && left > 0
    requires s.mt.ptr != NoPtr && s.cache.ptr != NoPtr && (PcOf(s, t).FreeCheck?)
    ensures FreeAlone(Apply(s, e), PcOf(Apply(s, e), t), t, left - 1)
  {
  }

  lemma SharedAloneStep(s: Unit, e: Event, t: nat, left: nat)
    requires Enabled(s, e) && Actor(e) == t && FreeAlone(s, PcOf(s, t), t, left) && left > 0
    requires s.mt.ptr != NoPtr && s.cache.ptr != NoPtr && (PcOf(s, t).FreeCas? || PcOf(s, t).FreeLink?)
    ensures FreeAlone(Apply(s, e), PcOf(Apply(s, e), t), t, left - 1)
  {
  }

  lemma CacheAloneStep(s: Unit, e: Event, t: nat, left: nat)
    requires Enabled(s, e) && Actor(e) == t && FreeAlone(s, PcOf(s, t), t, left) && left > 0
    requires s.mt.ptr != NoPtr && s.cache.ptr != NoPtr && (PcOf(s, t).CacheCas? || PcOf(s, t).CacheLink?)
    ensures FreeAlone(Apply(s, e), PcOf(Apply(s, e), t), t, left - 1)
  {
  }

  lemma FreeAloneStep(s: Unit, a: Ledger, e: Event, t: nat, left: nat)
    requires Inv(s, a) && Enabled(s, e) && Actor(e) == t && FreeAlone(s, PcOf(s, t), t, left) && left > 0
    ensures FreeAlone(Apply(s, e), PcOf(Apply(s, e), t), t, left - 1)
  {
    hide Inv, Apply, Enabled;
    HeadWord(s, a);
    match PcOf(s, t) {
      case FreeCheck(_) => CheckAloneStep(s, e, t, left);
      case FreeCas(_, _, _) => SharedAloneStep(s, e, t, left);
      case FreeLink(_, _) => SharedAloneStep(s, e, t, left);
      case CacheCas(_, _, _) => CacheAloneStep(s, e, t, left);
      case CacheLink(_, _) => CacheAloneStep(s, e, t, left);
    }
  }

  lemma {:induction false} FreeAloneRun(states: seq<Unit>, events: seq<Event>, i: nat, n: nat, t: nat, left: nat)
    requires IsRun(states, events) && Alone(events, i, n, t) && n <= left
    requires FreeAlone(states[i], PcOf(states[i], t), t, left)
    ensures FreeAlone(states[i + n], PcOf(states[i + n], t), t, left - n)
  {
    hide Inv, Apply, Enabled, FreeAlone;
    if n > 0 {
      FreeAloneRun(states, events, i, n - 1, t, left);
      var j := i + n - 1;
      assert Enabled(states[j], events[j]) && states[j + 1] == Apply(states[j], events[j]);
      var a := RunInv(states, events, j);
      FreeAloneStep(states[j], a, events[j], t, left - (n - 1));
    }
  }

  lemma FreeStarts(s: Unit, a: Ledger, e: Event)
    requires Inv(s, a) && Enabled(s, e) && e.StartFree?
    ensures e.cell in s.word && s.word[e.cell].Sign?
    ensures FreeAlone(Apply(s, e), PcOf(Apply(s, e), e.t), e.t,
                      if e.t == 0 && s.word[e.cell] == Sign(false) then 1 else 4)
  {
    HeldPlace(s, a, e.cell);
    hide Inv;
  }

  /** A free that runs alone takes two steps if the creator gives back what it allocated, and five
      otherwise. */
  lemma AloneFree(states: seq<Unit>, events: seq<Event>, i: nat, t: nat, n: nat)
    requires IsRun(states, events) && Alone(events, i, n, t) && n > 0 && events[i].StartFree?
    requires events[i].cell in states[i].word ==>
      n == if t == 0 && states[i].word[events[i].cell] == Sign(false) then 2 else 5
    ensures n == 2 || n == 5
    ensures PcOf(states[i + n], t).Idle? && Freeing(PcOf(states[i + n - 1], t))
  {
    hide Inv, Apply, Enabled;
    assert Enabled(states[i], events[i]) && states[i + 1] == Apply(states[i], events[i]);
    var a := RunInv(states, events, i);
    FreeStarts(states[i], a, events[i]);
    FreeAloneRun(states, events, i + 1, n - 2, t, n - 1);
    FreeAloneRun(states, events, i + 1, n - 1, t, n - 1);
  }
}
