/** No interleaving of the steps of a memory unit loses a cell, hands one out twice or lets a
    compare-and-swap install a stale link. */
module MemoryUnitSafety {
  import opened MemoryUnit

  /** Where a cell is. */
  datatype Place = Held | InMt | InCache | InDrain | InMain | With(t: nat) | Growing(t: nat)

  /** The lists the heads stand for, and where every cell is. */
  datatype Ledger = Ledger(
    mt: seq<nat>, cache: seq<nat>, drain: seq<nat>, main: seq<nat>,
    places: map<nat, Place>, out: set<nat>)

  /** Every cell of a list leads to the next and the last one to null. */
  ghost predicate Links(word: map<nat, Ptr>, cells: seq<nat>) {
    forall i :: 0 <= i < |cells| ==> cells[i] in word && word[cells[i]] == At(cells, i + 1)
  }

  /** A list holds, once each, exactly the cells of one place. */
  ghost predicate Holds(places: map<nat, Place>, cells: seq<nat>, place: Place) {
    && NoDup(cells)
    && (forall i :: 0 <= i < |cells| ==> cells[i] in places && places[cells[i]] == place)
    && (forall c :: c in places && places[c] == place ==> c in cells)
  }

  ghost predicate List(word: map<nat, Ptr>, places: map<nat, Place>, cells: seq<nat>, place: Place) {
    Links(word, cells) && Holds(places, cells, place)
  }

  /** What a compare-and-swap loop last loaded from a head that only moves forward: if its tags are
      still the head's, nothing has happened to the head since. */
  ghost predicate Loaded(head: Tagged, exp: Tagged) {
    exp == head || exp.took + exp.put < head.took + head.put
  }

  ghost predicate Owns(places: map<nat, Place>, word: map<nat, Ptr>, c: nat, t: nat) {
    c in places && places[c] == With(t) && c in word
  }

  /** A block being linked in: chained up to its last cell, which nobody else can reach. */
  ghost predicate Block(word: map<nat, Ptr>, places: map<nat, Place>, cells: seq<nat>, t: nat) {
    && cells != [] && NoDup(cells)
    && (forall i :: 0 <= i < |cells| ==> cells[i] in places && places[cells[i]] == Growing(t) && cells[i] in word)
    && (forall i :: 0 <= i < |cells| - 1 ==> word[cells[i]] == Cell(cells[i + 1]))
    && (forall c :: c in places && places[c] == Growing(t) ==> c in cells)
  }

  ghost predicate Pushing(word: map<nat, Ptr>, head: Tagged, c: nat, exp: Tagged, next: Tagged)
    requires c in word
  {
    exp.ptr != NoPtr ==>
      Loaded(head, exp) && word[c] == exp.ptr && next == Tagged(Cell(c), exp.took, exp.put + 1)
  }

  ghost predicate ThreadOk(
    word: map<nat, Ptr>, places: map<nat, Place>, mt: Tagged, cache: Tagged, t: nat, pc: Pc)
  {
    && (!pc.GrowCas? && !pc.GrowLink? ==> forall c :: c in places ==> places[c] != Growing(t))
    && (forall c :: c in places && places[c] == With(t) ==>
          (pc.AllocSign? || pc.FreeCheck? || pc.FreeCas? || pc.FreeLink? || pc.CacheCas? || pc.CacheLink?) && pc.cell == c)
    && match pc
    case Idle => true
    case AllocCas(exp, next) =>
      exp.ptr != NoPtr ==>
        && exp.ptr.Cell? && exp.ptr.id in word && Loaded(mt, exp)
        && (exp == mt ==> next == Tagged(word[exp.ptr.id], exp.took + 1, exp.put))
    case AllocNext(exp) => exp.ptr.Cell? && exp.ptr.id in word && Loaded(mt, exp)
    case AllocGrow(exp) => exp.ptr == NoPtr
    case GrowCas(cells, exp, next, back) =>
      && Block(word, places, cells, t) && back.ptr == NoPtr
      && (exp.ptr != NoPtr ==>
            && Loaded(mt, exp) && word[cells[|cells| - 1]] == exp.ptr
            && next == Tagged(Cell(cells[0]), exp.took + 1, exp.put + 1))
    case GrowLink(cells, exp, back) =>
      Block(word, places, cells, t) && back.ptr == NoPtr && Loaded(mt, exp)
    case AllocSign(c) => Owns(places, word, c, t)
    case FreeCheck(c) => Owns(places, word, c, t) && word[c].Sign?
    case FreeCas(c, exp, next) => Owns(places, word, c, t) && Pushing(word, mt, c, exp, next)
    case FreeLink(c, exp) => Owns(places, word, c, t) && Loaded(mt, exp)
    case CacheCas(c, exp, next) => Owns(places, word, c, t) && Pushing(word, cache, c, exp, next)
    case CacheLink(c, exp) => Owns(places, word, c, t) && Loaded(cache, exp)
    case DrainCas(exp, next) =>
      t == 0 && (exp.ptr != NoPtr ==> Loaded(cache, exp) && next == Tagged(Null, exp.put + 1, exp.put + 1))
    case DrainTake(_) => t == 0
    case MainPop => t == 0
    case Crushed => false
  }

  /** The creator's own list while it looks for a cell. */
  ghost predicate MainOk(head: Ptr, drain: seq<nat>, main: seq<nat>, pc: Pc) {
    && head == At(main, 0)
    && (pc.DrainCas? || pc.DrainTake? ==> head == Null)
    && (if pc.DrainTake? then pc.exp.ptr == At(drain, 0) && pc.exp.put - pc.exp.took == |drain| else drain == [])
  }

  ghost predicate Tallied(s: Unit, a: Ledger) {
    && (forall c :: c in s.held <==> c in a.places && a.places[c] == Held)
    && (forall c :: c in s.held ==> c in s.word && s.word[c].Sign?)
    && (forall c :: c in a.out <==> c in a.places && (a.places[c] == Held || a.places[c].With?))
    && AllocCount(s) == |a.out| + |a.drain|
    && s.cache.put - s.cache.took == |a.cache|
  }

  ghost predicate Lists(word: map<nat, Ptr>, a: Ledger) {
    && List(word, a.places, a.mt, InMt)
    && List(word, a.places, a.cache, InCache)
    && List(word, a.places, a.drain, InDrain)
    && List(word, a.places, a.main, InMain)
  }

  ghost predicate Threads(s: Unit, places: map<nat, Place>) {
    forall t: nat :: ThreadOk(s.word, places, s.mt, s.cache, t, PcOf(s, t))
  }

  ghost predicate Inv(s: Unit, a: Ledger) {
    && s.word.Keys == a.places.Keys
    && s.mt.ptr == At(a.mt, 0)
    && s.cache.ptr == At(a.cache, 0)
    && Lists(s.word, a)
    && MainOk(s.head, a.drain, a.main, PcOf(s, 0))
    && Tallied(s, a)
    && Threads(s, a.places)
  }

  // --- what a step leaves alone

  /** Some cells go to one place; the rest keep their word and their place. */
  ghost function Put(places: map<nat, Place>, cells: seq<nat>, place: Place): map<nat, Place> {
    places + map c | c in cells :: place
  }

  ghost predicate SameBut(word: map<nat, Ptr>, word': map<nat, Ptr>, cells: seq<nat>) {
    && (forall c :: c in word && c !in cells ==> c in word' && word'[c] == word[c])
    && (forall c :: c in word ==> c in word')
    && (forall c :: c in word' ==> c in word || c in cells)
  }

  lemma ListKept(word: map<nat, Ptr>, word': map<nat, Ptr>, places: map<nat, Place>, cells: seq<nat>, place: Place,
                 moved: seq<nat>, to: Place)
    requires List(word, places, cells, place)
    requires SameBut(word, word', moved)
    requires to != place && forall c :: c in moved && c in places ==> places[c] != place
    ensures List(word', Put(places, moved, to), cells, place)
  {
  }

  ghost predicate Advanced(head: Tagged, head': Tagged) {
    head' == head || head.took + head.put < head'.took + head'.put
  }

  /** A step of one thread keeps what every other thread relies on: it moves only cells that are not
      theirs, and where it touches the head's cell the head moves on. */
  lemma ThreadKept(
    word: map<nat, Ptr>, word': map<nat, Ptr>, places: map<nat, Place>, moved: seq<nat>, to: Place,
    mt: Tagged, mt': Tagged, cache: Tagged, cache': Tagged, t: nat, pc: Pc)
    requires ThreadOk(word, places, mt, cache, t, pc)
    requires SameBut(word, word', moved)
    requires to != With(t) && to != Growing(t)
    requires forall c :: c in moved && c in places ==> places[c] != With(t) && places[c] != Growing(t)
    requires Advanced(mt, mt') && Advanced(cache, cache')
    requires mt' == mt && mt.ptr.Cell? && mt.ptr.id in word ==> mt.ptr.id !in moved
    ensures ThreadOk(word', Put(places, moved, to), mt', cache', t, pc)
  {
    var places' := Put(places, moved, to);
    match pc {
      case GrowCas(cells, exp, next, back) =>
        assert forall i :: 0 <= i < |cells| ==> cells[i] !in moved;
      case GrowLink(cells, exp, back) =>
        assert forall i :: 0 <= i < |cells| ==> cells[i] !in moved;
      case _ =>
    }
  }

  /** Cells a step of thread t may move: not those another thread carries or is linking in. */
  ghost predicate Movable(places: map<nat, Place>, moved: seq<nat>, t: nat) {
    forall c :: c in moved && c in places ==>
      (places[c].With? ==> places[c].t == t) && (places[c].Growing? ==> places[c].t == t)
  }

  ghost predicate Apart(places: map<nat, Place>, moved: seq<nat>, to: Place, place: Place) {
    to != place && forall c :: c in moved && c in places ==> places[c] != place
  }

  lemma ThreadsKept(s: Unit, a: Ledger, s': Unit, t: nat, moved: seq<nat>, to: Place)
    requires Threads(s, a.places)
    requires SameBut(s.word, s'.word, moved)
    requires (to.With? ==> to.t == t) && (to.Growing? ==> to.t == t)
    requires Movable(a.places, moved, t)
    requires Advanced(s.mt, s'.mt) && Advanced(s.cache, s'.cache)
    requires s'.mt == s.mt && s.mt.ptr.Cell? ==> s.mt.ptr.id !in moved
    requires forall u: nat :: u != t ==> PcOf(s', u) == PcOf(s, u)
    requires ThreadOk(s'.word, Put(a.places, moved, to), s'.mt, s'.cache, t, PcOf(s', t))
    ensures Threads(s', Put(a.places, moved, to))
  {
    forall u: nat
      ensures ThreadOk(s'.word, Put(a.places, moved, to), s'.mt, s'.cache, u, PcOf(s', u))
    {
      if u != t {
        ThreadKept(s.word, s'.word, a.places, moved, to, s.mt, s'.mt, s.cache, s'.cache, u, PcOf(s, u));
      }
    }
  }

  lemma PutNothing(places: map<nat, Place>, to: Place)
    ensures Put(places, [], to) == places
  {
  }

  lemma PutOne(places: map<nat, Place>, c: nat, to: Place)
    ensures Put(places, [c], to) == places[c := to]
  {
  }

  /** A step that only moves its thread along. */
  lemma Quiet(s: Unit, a: Ledger, t: nat, pc: Pc)
    requires Inv(s, a)
    requires ThreadOk(s.word, a.places, s.mt, s.cache, t, pc)
    requires MainOk(s.head, a.drain, a.main, PcOf(To(s, t, pc), 0))
    ensures Inv(To(s, t, pc), a)
  {
    hide List, ThreadOk;
    var s' := To(s, t, pc);
    PutNothing(a.places, Held);
    ThreadsKept(s, a, s', t, [], Held);
  }

  lemma FirstPlace(word: map<nat, Ptr>, places: map<nat, Place>, cells: seq<nat>, place: Place)
    requires List(word, places, cells, place) && cells != []
    ensures cells[0] in places && places[cells[0]] == place
    ensures cells[0] in word && word[cells[0]] == At(cells[1..], 0)
  {
  }

  /** The word of one cell is written, by the thread that has it or gets it. */
  lemma OneCell(s: Unit, a: Ledger, s': Unit, t: nat, c: nat, to: Place)
    requires Inv(s, a) && c in a.places
    requires SameBut(s.word, s'.word, [c])
    requires (to.With? ==> to.t == t) && (to.Growing? ==> to.t == t)
    requires Movable(a.places, [c], t)
    requires Advanced(s.mt, s'.mt) && Advanced(s.cache, s'.cache)
    requires s'.mt == s.mt ==> a.places[c] != InMt
    requires forall u: nat :: u != t ==> PcOf(s', u) == PcOf(s, u)
    requires ThreadOk(s'.word, a.places[c := to], s'.mt, s'.cache, t, PcOf(s', t))
    ensures Threads(s', a.places[c := to])
  {
    hide List, ThreadOk;
    PutOne(a.places, c, to);
    if a.mt != [] { FirstPlace(s.word, a.places, a.mt, InMt); }
    ThreadsKept(s, a, s', t, [c], to);
  }

  lemma OneWord(word: map<nat, Ptr>, word': map<nat, Ptr>, places: map<nat, Place>, cells: seq<nat>, place: Place,
                c: nat, to: Place)
    requires List(word, places, cells, place)
    requires SameBut(word, word', [c])
    requires c in places && places[c] != place && to != place
    ensures List(word', places[c := to], cells, place)
  {
    hide List;
    PutOne(places, c, to);
    ListKept(word, word', places, cells, place, [c], to);
  }

  /** Lists a cell neither leaves nor joins. */
  lemma OtherLists(word: map<nat, Ptr>, word': map<nat, Ptr>, a: Ledger, c: nat, to: Place)
    requires Lists(word, a) && SameBut(word, word', [c]) && c in a.places
    ensures a.places[c] != InMt && to != InMt ==> List(word', a.places[c := to], a.mt, InMt)
    ensures a.places[c] != InCache && to != InCache ==> List(word', a.places[c := to], a.cache, InCache)
    ensures a.places[c] != InDrain && to != InDrain ==> List(word', a.places[c := to], a.drain, InDrain)
    ensures a.places[c] != InMain && to != InMain ==> List(word', a.places[c := to], a.main, InMain)
  {
    hide List;
    if a.places[c] != InMt && to != InMt { OneWord(word, word', a.places, a.mt, InMt, c, to); }
    if a.places[c] != InCache && to != InCache { OneWord(word, word', a.places, a.cache, InCache, c, to); }
    if a.places[c] != InDrain && to != InDrain { OneWord(word, word', a.places, a.drain, InDrain, c, to); }
    if a.places[c] != InMain && to != InMain { OneWord(word, word', a.places, a.main, InMain, c, to); }
  }

  lemma Pushed(word: map<nat, Ptr>, word': map<nat, Ptr>, places: map<nat, Place>, cells: seq<nat>, place: Place, c: nat)
    requires List(word, places, cells, place)
    requires c in places && places[c] != place
    requires SameBut(word, word', [c]) && c in word' && word'[c] == At(cells, 0)
    ensures List(word', places[c := place], [c] + cells, place)
  {
    var more := [c] + cells;
    forall i | 0 <= i < |more|
      ensures more[i] in word' && word'[more[i]] == At(more, i + 1)
    {
      if i > 0 { assert more[i] == cells[i - 1]; }
    }
    forall d | d in places[c := place] && places[c := place][d] == place
      ensures d in more
    {
      if d != c { assert d in cells; }
    }
  }

  lemma Popped(word: map<nat, Ptr>, word': map<nat, Ptr>, places: map<nat, Place>, cells: seq<nat>, place: Place, to: Place)
    requires List(word, places, cells, place) && cells != [] && to != place
    requires SameBut(word, word', [cells[0]])
    ensures List(word', places[cells[0] := to], cells[1..], place)
  {
    hide Links;
    PoppedLinks(word, word', cells);
    PoppedHolds(places, cells, place, to);
  }

  lemma PoppedLinks(word: map<nat, Ptr>, word': map<nat, Ptr>, cells: seq<nat>)
    requires Links(word, cells) && NoDup(cells) && cells != [] && SameBut(word, word', [cells[0]])
    ensures Links(word', cells[1..])
  {
    var fewer := cells[1..];
    forall i | 0 <= i < |fewer|
      ensures fewer[i] in word' && word'[fewer[i]] == At(fewer, i + 1)
    {
      assert fewer[i] == cells[i + 1];
    }
  }

  lemma PoppedHolds(places: map<nat, Place>, cells: seq<nat>, place: Place, to: Place)
    requires Holds(places, cells, place) && cells != [] && to != place
    ensures Holds(places[cells[0] := to], cells[1..], place)
  {
    var fewer := cells[1..];
    var places' := places[cells[0] := to];
    forall i | 0 <= i < |fewer|
      ensures fewer[i] in places' && places'[fewer[i]] == place
    {
      assert fewer[i] == cells[i + 1];
    }
    forall d | d in places' && places'[d] == place
      ensures d in fewer
    {
      var i := IndexOf(cells, d);
      assert cells[i] == fewer[i - 1];
    }
  }

  /** What is known of the thread that takes the next step. */
  lemma Own(s: Unit, a: Ledger, t: nat)
    requires Threads(s, a.places)
    ensures ThreadOk(s.word, a.places, s.mt, s.cache, t, PcOf(s, t))
  {
  }

  // --- allocation by other threads

  lemma TakeThread(s: Unit, a: Ledger, t: nat, exp: Tagged, next: Tagged, c: nat, mt': Tagged)
    requires ThreadOk(s.word, a.places, s.mt, s.cache, t, AllocCas(exp, next))
    requires c in s.word && c in a.places
    ensures ThreadOk(s.word, a.places[c := With(t)], mt', s.cache, t, AllocSign(c))
  {
  }

  lemma Taken(s: Unit, a: Ledger, t: nat, exp: Tagged, next: Tagged)
    requires Threads(s, a.places) && PcOf(s, t) == AllocCas(exp, next) && s.mt == exp && exp.ptr != NoPtr
    ensures exp.ptr.Cell? && exp.ptr.id in s.word
    ensures next == Tagged(s.word[exp.ptr.id], exp.took + 1, exp.put)
    ensures forall c :: c in a.places ==> a.places[c] != With(t)
  {
    Own(s, a, t);
  }

  lemma TakeTally(s: Unit, a: Ledger, t: nat, c: nat, s': Unit, a': Ledger)
    requires Tallied(s, a) && c in a.places && a.places[c] == InMt
    requires a'.places == a.places[c := With(t)] && a'.out == a.out + {c} && a'.drain == a.drain && a'.cache == a.cache
    requires s'.held == s.held && s'.word == s.word && s'.cache == s.cache && AllocCount(s') == AllocCount(s) + 1
    ensures Tallied(s', a')
  {
    assert c !in a.out;
  }

  lemma Take(s: Unit, a: Ledger, t: nat, exp: Tagged, next: Tagged) returns (a': Ledger)
    requires Inv(s, a) && PcOf(s, t) == AllocCas(exp, next) && s.mt == exp
    ensures exp.ptr.Cell? && Inv(To(s.(mt := next), t, AllocSign(exp.ptr.id)), a')
    ensures a.mt != [] && a.mt[0] == exp.ptr.id
    ensures a' == a.(mt := a.mt[1..], places := a.places[a.mt[0] := With(t)], out := a.out + {a.mt[0]})
  {
    hide List, ThreadOk;
    Taken(s, a, t, exp, next);
    FirstPlace(s.word, a.places, a.mt, InMt);
    var c := a.mt[0];
    var s' := To(s.(mt := next), t, AllocSign(c));
    a' := a.(mt := a.mt[1..], places := a.places[c := With(t)], out := a.out + {c});
    assert Threads(s', a'.places) by {
      hide Lists, Tallied;
      Own(s, a, t);
      TakeThread(s, a, t, exp, next, c, next);
      OneCell(s, a, s', t, c, With(t));
    }
    assert Lists(s'.word, a') by {
      hide Threads, Tallied;
      Popped(s.word, s.word, a.places, a.mt, InMt, With(t));
      OtherLists(s.word, s.word, a, c, With(t));
    }
    assert Tallied(s', a') by {
      hide Threads, Lists, Tallied;
      TakeTally(s, a, t, c, s', a');
    }
  }

  lemma ReturnThread(s: Unit, a: Ledger, t: nat, c: nat, word': map<nat, Ptr>)
    requires ThreadOk(s.word, a.places, s.mt, s.cache, t, AllocSign(c))
    ensures c in s.word && c in a.places && a.places[c] == With(t)
    ensures ThreadOk(word', a.places[c := Held], s.mt, s.cache, t, Idle)
  {
  }

  lemma Return(s: Unit, a: Ledger, t: nat, c: nat) returns (a': Ledger)
    requires Inv(s, a) && PcOf(s, t) == AllocSign(c)
    ensures Inv(To(s.(word := s.word[c := Sign(true)], held := s.held + {c}), t, Idle), a')
  {
    hide List, ThreadOk;
    var s' := To(s.(word := s.word[c := Sign(true)], held := s.held + {c}), t, Idle);
    a' := a.(places := a.places[c := Held]);
    Own(s, a, t);
    ReturnThread(s, a, t, c, s'.word);
    assert Threads(s', a'.places) by {
      hide Lists, Tallied;
      OneCell(s, a, s', t, c, Held);
    }
    assert Lists(s'.word, a') by {
      hide Threads, Tallied;
      OtherLists(s.word, s'.word, a, c, Held);
    }
    assert Tallied(s', a') by {
      hide Threads, Lists, Tallied;
      ReturnTally(s, a, t, c, s', a');
    }
  }

  lemma ReturnTally(s: Unit, a: Ledger, t: nat, c: nat, s': Unit, a': Ledger)
    requires Tallied(s, a) && a'.out == a.out && a' == a.(places := a.places[c := Held])
    requires c in a.places && a.places[c] == With(t)
    requires s' == To(s.(word := s.word[c := Sign(true)], held := s.held + {c}), t, Idle)
    ensures Tallied(s', a')
  {
  }

  // --- freeing

  lemma HandBackThread(s: Unit, a: Ledger, t: nat, c: nat)
    requires ThreadOk(s.word, a.places, s.mt, s.cache, t, Idle)
    requires c in s.word && c in a.places && s.word[c].Sign?
    ensures ThreadOk(s.word, a.places[c := With(t)], s.mt, s.cache, t, FreeCheck(c))
  {
  }

  lemma HandBack(s: Unit, a: Ledger, t: nat, c: nat) returns (a': Ledger)
    requires Inv(s, a) && PcOf(s, t) == Idle && c in s.held
    ensures Inv(To(s.(held := s.held - {c}), t, FreeCheck(c)), a')
  {
    hide List, ThreadOk;
    var s' := To(s.(held := s.held - {c}), t, FreeCheck(c));
    a' := a.(places := a.places[c := With(t)]);
    Own(s, a, t);
    HandBackThread(s, a, t, c);
    assert Threads(s', a'.places) by {
      hide Lists, Tallied;
      OneCell(s, a, s', t, c, With(t));
    }
    assert Lists(s'.word, a') by {
      hide Threads, Tallied;
      OtherLists(s.word, s.word, a, c, With(t));
    }
    assert Tallied(s', a') by { hide Threads, Lists; }
  }

  /** A carried cell's word is written before the next attempt at its compare-and-swap. */
  lemma Relink(s: Unit, a: Ledger, t: nat, c: nat, p: Ptr, pc: Pc)
    requires Inv(s, a) && c in a.places && a.places[c] == With(t)
    requires ThreadOk(s.word[c := p], a.places, s.mt, s.cache, t, pc)
    requires MainOk(s.head, a.drain, a.main, PcOf(To(s, t, pc), 0))
    ensures Inv(To(s.(word := s.word[c := p]), t, pc), a)
  {
    hide List, ThreadOk;
    var s' := To(s.(word := s.word[c := p]), t, pc);
    assert a.places[c := With(t)] == a.places;
    assert Threads(s', a.places) by {
      hide Lists, Tallied;
      OneCell(s, a, s', t, c, With(t));
    }
    assert Lists(s'.word, a) by {
      hide Threads, Tallied;
      OtherLists(s.word, s'.word, a, c, With(t));
    }
    assert Tallied(s', a) by { hide Threads, Lists; }
  }

  lemma DropThread(word: map<nat, Ptr>, places: map<nat, Place>, mt: Tagged, cache: Tagged, t: nat, pc: Pc, c: nat,
                   word': map<nat, Ptr>, to: Place, mt': Tagged, cache': Tagged)
    requires ThreadOk(word, places, mt, cache, t, pc)
    requires pc.FreeCheck? || pc.FreeCas? || pc.CacheCas?
    requires c == pc.cell && !to.With? && !to.Growing?
    ensures c in word && c in places && places[c] == With(t)
    ensures pc.FreeCas? && pc.exp == mt && mt.ptr != NoPtr ==>
      word[c] == mt.ptr && pc.next == Tagged(Cell(c), mt.took, mt.put + 1)
    ensures pc.CacheCas? && pc.exp == cache && cache.ptr != NoPtr ==>
      word[c] == cache.ptr && pc.next == Tagged(Cell(c), cache.took, cache.put + 1)
    ensures ThreadOk(word', places[c := to], mt', cache', t, Idle)
  {
  }

  lemma FreeTally(s: Unit, a: Ledger, t: nat, c: nat, to: Place, s': Unit, a': Ledger)
    requires Tallied(s, a) && c in a.places && a.places[c] == With(t)
    requires !to.With? && to != Held
    requires a'.places == a.places[c := to] && a'.out == a.out - {c} && a'.drain == a.drain
    requires s'.held == s.held && SameBut(s.word, s'.word, [c]) && AllocCount(s') == AllocCount(s) - 1
    requires s'.cache.put - s'.cache.took - |a'.cache| == s.cache.put - s.cache.took - |a.cache|
    ensures Tallied(s', a')
  {
    assert c in a.out;
  }

  lemma FreeMt(s: Unit, a: Ledger, t: nat, c: nat, exp: Tagged, next: Tagged) returns (a': Ledger)
    requires Inv(s, a) && PcOf(s, t) == FreeCas(c, exp, next) && s.mt == exp
    ensures Inv(To(s.(mt := next), t, Idle), a')
    ensures a' == a.(mt := [c] + a.mt, places := a.places[c := InMt], out := a.out - {c})
  {
    hide List, ThreadOk;
    var s' := To(s.(mt := next), t, Idle);
    a' := a.(mt := [c] + a.mt, places := a.places[c := InMt], out := a.out - {c});
    Own(s, a, t);
    DropThread(s.word, a.places, s.mt, s.cache, t, FreeCas(c, exp, next), c, s.word, InMt, next, s.cache);
    assert Threads(s', a'.places) by {
      hide Lists, Tallied, ThreadOk;
      OneCell(s, a, s', t, c, InMt);
    }
    assert Lists(s'.word, a') by {
      hide Threads, Tallied, ThreadOk;
      Pushed(s.word, s.word, a.places, a.mt, InMt, c);
      OtherLists(s.word, s.word, a, c, InMt);
    }
    assert Tallied(s', a') by {
      hide Threads, Lists, ThreadOk, Tallied;
      FreeTally(s, a, t, c, InMt, s', a');
    }
  }

  lemma FreeCache(s: Unit, a: Ledger, t: nat, c: nat, exp: Tagged, next: Tagged) returns (a': Ledger)
    requires Inv(s, a) && PcOf(s, t) == CacheCas(c, exp, next) && s.cache == exp
    ensures Inv(To(s.(cache := next), t, Idle), a')
    ensures a' == a.(cache := [c] + a.cache, places := a.places[c := InCache], out := a.out - {c})
  {
    hide List, ThreadOk;
    var s' := To(s.(cache := next), t, Idle);
    a' := a.(cache := [c] + a.cache, places := a.places[c := InCache], out := a.out - {c});
    Own(s, a, t);
    DropThread(s.word, a.places, s.mt, s.cache, t, CacheCas(c, exp, next), c, s.word, InCache, s.mt, next);
    assert Threads(s', a'.places) by {
      hide Lists, Tallied, ThreadOk;
      OneCell(s, a, s', t, c, InCache);
    }
    assert Lists(s'.word, a') by {
      hide Threads, Tallied, ThreadOk;
      Pushed(s.word, s.word, a.places, a.cache, InCache, c);
      OtherLists(s.word, s.word, a, c, InCache);
    }
    assert Tallied(s', a') by {
      hide Threads, Lists, ThreadOk, Tallied;
      FreeTally(s, a, t, c, InCache, s', a');
    }
  }

  lemma FreeMain(s: Unit, a: Ledger, c: nat) returns (a': Ledger)
    requires Inv(s, a) && PcOf(s, 0) == FreeCheck(c)
    ensures Inv(To(s.(word := s.word[c := s.head], head := Cell(c), count := s.count - 1), 0, Idle), a')
  {
    hide List, ThreadOk;
    var s' := To(s.(word := s.word[c := s.head], head := Cell(c), count := s.count - 1), 0, Idle);
    a' := a.(main := [c] + a.main, places := a.places[c := InMain], out := a.out - {c});
    Own(s, a, 0);
    DropThread(s.word, a.places, s.mt, s.cache, 0, FreeCheck(c), c, s'.word, InMain, s.mt, s.cache);
    assert Threads(s', a'.places) by {
      hide Lists, Tallied, ThreadOk;
      OneCell(s, a, s', 0, c, InMain);
    }
    assert Lists(s'.word, a') by {
      hide Threads, Tallied, ThreadOk;
      Pushed(s.word, s'.word, a.places, a.main, InMain, c);
      OtherLists(s.word, s'.word, a, c, InMain);
    }
    assert Tallied(s', a') by {
      hide Threads, Lists, ThreadOk, Tallied;
      FreeTally(s, a, 0, c, InMain, s', a');
    }
  }

  // --- the creator's own list

  lemma PopThread(word: map<nat, Ptr>, places: map<nat, Place>, mt: Tagged, cache: Tagged, pc: Pc, c: nat, p: Ptr)
    requires ThreadOk(word, places, mt, cache, 0, pc)
    requires pc.Idle? || pc.MainPop?
    ensures ThreadOk(word[c := p], places[c := Held], mt, cache, 0, Idle)
  {
  }

  lemma PopTally(s: Unit, a: Ledger, main: seq<nat>)
    requires Tallied(s, a) && s.head.Cell? && s.head.id in s.word
    requires s.head.id in a.places && a.places[s.head.id] == InMain
    ensures Tallied(Pop(s), a.(main := main, places := a.places[s.head.id := Held], out := a.out + {s.head.id}))
  {
    assert s.head.id !in a.out;
  }

  lemma PopLists(s: Unit, a: Ledger, p: Ptr)
    requires Lists(s.word, a) && a.main != []
    ensures a.main[0] in s.word && a.main[0] in a.places && a.places[a.main[0]] == InMain
    ensures s.word[a.main[0]] == At(a.main[1..], 0)
    ensures Lists(s.word[a.main[0] := p],
      a.(main := a.main[1..], places := a.places[a.main[0] := Held], out := a.out + {a.main[0]}))
  {
    hide List;
    FirstPlace(s.word, a.places, a.main, InMain);
    var c := a.main[0];
    Popped(s.word, s.word[c := p], a.places, a.main, InMain, Held);
    OtherLists(s.word, s.word[c := p], a, c, Held);
  }

  lemma PopHead(s: Unit, a: Ledger) returns (a': Ledger)
    requires Inv(s, a) && (PcOf(s, 0).Idle? || PcOf(s, 0).MainPop?)
    requires s.head != Null
    ensures s.head.Cell? && s.head.id in s.word && Inv(Pop(s), a')
  {
    hide List, ThreadOk, Threads, Lists, Tallied;
    PopLists(s, a, Sign(false));
    var c := a.main[0];
    var s' := Pop(s);
    a' := a.(main := a.main[1..], places := a.places[c := Held], out := a.out + {c});
    Own(s, a, 0);
    PopThread(s.word, a.places, s.mt, s.cache, PcOf(s, 0), c, Sign(false));
    OneCell(s, a, s', 0, c, Held);
    PopTally(s, a, a.main[1..]);
  }

  // --- whole blocks and whole lists

  lemma LinkedWords(cells: seq<nat>, end: Ptr)
    requires NoDup(cells)
    ensures forall i :: 0 <= i < |cells| ==>
      (cells[i] in Linked(cells, end) &&
       Linked(cells, end)[cells[i]] == if i + 1 < |cells| then Cell(cells[i + 1]) else end)
  {
    forall i | 0 <= i < |cells|
      ensures cells[i] in Linked(cells, end)
      ensures Linked(cells, end)[cells[i]] == if i + 1 < |cells| then Cell(cells[i + 1]) else end
    {
      var j := IndexOf(cells, cells[i]);
      assert cells[j] == cells[i];
    }
  }

  lemma AllListsKept(word: map<nat, Ptr>, word': map<nat, Ptr>, a: Ledger, moved: seq<nat>, to: Place)
    requires Lists(word, a) && SameBut(word, word', moved)
    ensures Apart(a.places, moved, to, InMt) ==> List(word', Put(a.places, moved, to), a.mt, InMt)
    ensures Apart(a.places, moved, to, InCache) ==> List(word', Put(a.places, moved, to), a.cache, InCache)
    ensures Apart(a.places, moved, to, InDrain) ==> List(word', Put(a.places, moved, to), a.drain, InDrain)
    ensures Apart(a.places, moved, to, InMain) ==> List(word', Put(a.places, moved, to), a.main, InMain)
  {
    hide List;
    if Apart(a.places, moved, to, InMt) { ListKept(word, word', a.places, a.mt, InMt, moved, to); }
    if Apart(a.places, moved, to, InCache) { ListKept(word, word', a.places, a.cache, InCache, moved, to); }
    if Apart(a.places, moved, to, InDrain) { ListKept(word, word', a.places, a.drain, InDrain, moved, to); }
    if Apart(a.places, moved, to, InMain) { ListKept(word, word', a.places, a.main, InMain, moved, to); }
  }

  lemma Fresh(s: Unit, a: Ledger, t: nat, cells: seq<nat>, end: Ptr, to: Place, place: Place)
    requires s.word.Keys == a.places.Keys && NewBlock(s, cells)
    ensures SameBut(s.word, s.word + Linked(cells, end), cells)
    ensures Movable(a.places, cells, t)
    ensures place != to ==> Apart(a.places, cells, to, place)
    ensures forall c :: c in cells ==> c !in s.word
    ensures (s.word + Linked(cells, end)).Keys == Put(a.places, cells, to).Keys
  {
  }

  lemma NewChain(word: map<nat, Ptr>, links: map<nat, Ptr>, places: map<nat, Place>, cells: seq<nat>, t: nat)
    requires cells != [] && NoDup(cells)
    requires forall i :: 0 <= i < |cells| ==> cells[i] in links
    requires forall i :: 0 <= i < |cells| - 1 ==> links[cells[i]] == Cell(cells[i + 1])
    requires forall c :: c in places ==> places[c] != Growing(t)
    ensures Block(word + links, Put(places, cells, Growing(t)), cells, t)
  {
    hide NoDup;
  }

  lemma GrowThread(s: Unit, a: Ledger, t: nat, back: Tagged, cells: seq<nat>, exp: Tagged, next: Tagged, end: Ptr)
    requires ThreadOk(s.word, a.places, s.mt, s.cache, t, AllocGrow(back))
    requires s.word.Keys == a.places.Keys && NewBlock(s, cells) && exp.ptr == NoPtr
    ensures ThreadOk(s.word + Linked(cells, end), Put(a.places, cells, Growing(t)), s.mt, s.cache, t,
                     GrowCas(cells, exp, next, back))
  {
    hide Linked, Block, NoDup;
    LinkedWords(cells, end);
    NewChain(s.word, Linked(cells, end), a.places, cells, t);
  }

  lemma MakeLists(s: Unit, a: Ledger, t: nat, cells: seq<nat>, end: Ptr)
    requires s.word.Keys == a.places.Keys && NewBlock(s, cells)
    requires Lists(s.word, a) && s.mt.ptr == At(a.mt, 0)
    ensures Lists(s.word + Linked(cells, end), a.(places := Put(a.places, cells, Growing(t))))
    ensures SameBut(s.word, s.word + Linked(cells, end), cells) && Movable(a.places, cells, t)
    ensures s.mt.ptr.Cell? ==> s.mt.ptr.id !in cells
    ensures (s.word + Linked(cells, end)).Keys == Put(a.places, cells, Growing(t)).Keys
  {
    hide List, Apart, Movable, SameBut, NewBlock;
    if a.mt != [] { FirstPlace(s.word, a.places, a.mt, InMt); }
    Fresh(s, a, t, cells, end, Growing(t), InMt);
    Fresh(s, a, t, cells, end, Growing(t), InCache);
    Fresh(s, a, t, cells, end, Growing(t), InDrain);
    Fresh(s, a, t, cells, end, Growing(t), InMain);
    AllListsKept(s.word, s.word + Linked(cells, end), a, cells, Growing(t));
  }

  lemma MakeTally(s: Unit, a: Ledger, t: nat, cells: seq<nat>, s': Unit, a': Ledger)
    requires Tallied(s, a) && s.word.Keys == a.places.Keys && NewBlock(s, cells)
    requires a' == a.(places := Put(a.places, cells, Growing(t)))
    requires s'.held == s.held && s'.mt == s.mt && s'.cache == s.cache && s'.count == s.count
    requires SameBut(s.word, s'.word, cells)
    ensures Tallied(s', a')
  {
  }

  lemma Make(s: Unit, a: Ledger, t: nat, back: Tagged, cells: seq<nat>, exp: Tagged, next: Tagged, end: Ptr)
    returns (a': Ledger)
    requires Inv(s, a) && PcOf(s, t) == AllocGrow(back) && NewBlock(s, cells) && exp.ptr == NoPtr
    ensures Inv(To(s.(word := s.word + Linked(cells, end)), t, GrowCas(cells, exp, next, back)), a')
  {
    hide List, ThreadOk, NewBlock, Lists, Tallied, Movable, SameBut, Threads;
    var s' := To(s.(word := s.word + Linked(cells, end)), t, GrowCas(cells, exp, next, back));
    a' := a.(places := Put(a.places, cells, Growing(t)));
    Own(s, a, t);
    GrowThread(s, a, t, back, cells, exp, next, end);
    MakeLists(s, a, t, cells, end);
    assert Threads(s', a'.places) by {
      hide Lists, Tallied, Movable, SameBut;
      ThreadsKept(s, a, s', t, cells, Growing(t));
    }
    MakeTally(s, a, t, cells, s', a');
  }

  lemma JoinThread(word: map<nat, Ptr>, places: map<nat, Place>, mt: Tagged, cache: Tagged, t: nat,
                   cells: seq<nat>, exp: Tagged, next: Tagged, back: Tagged)
    requires ThreadOk(word, places, mt, cache, t, GrowCas(cells, exp, next, back))
    requires mt == exp && exp.ptr != NoPtr
    ensures Block(word, places, cells, t) && word[cells[|cells| - 1]] == mt.ptr
    ensures next == Tagged(Cell(cells[0]), mt.took + 1, mt.put + 1)
    ensures ThreadOk(word, Put(places, cells, InMt), next, cache, t, AllocCas(back, back))
  {
  }

  lemma JoinedLinks(word: map<nat, Ptr>, cells: seq<nat>, mt: seq<nat>)
    requires Links(word, mt) && cells != []
    requires forall i :: 0 <= i < |cells| ==> cells[i] in word
    requires forall i :: 0 <= i < |cells| - 1 ==> word[cells[i]] == Cell(cells[i + 1])
    requires word[cells[|cells| - 1]] == At(mt, 0)
    ensures Links(word, cells + mt)
  {
    var all := cells + mt;
    forall i | 0 <= i < |all|
      ensures all[i] in word && word[all[i]] == At(all, i + 1)
    {
      if i >= |cells| { assert all[i] == mt[i - |cells|]; }
    }
  }

  lemma JoinedHolds(places: map<nat, Place>, cells: seq<nat>, mt: seq<nat>)
    requires Holds(places, mt, InMt) && NoDup(cells)
    requires forall i :: 0 <= i < |cells| ==> cells[i] in places && places[cells[i]] != InMt
    ensures Holds(Put(places, cells, InMt), cells + mt, InMt)
  {
  }

  lemma Joined(word: map<nat, Ptr>, places: map<nat, Place>, cells: seq<nat>, mt: seq<nat>, t: nat)
    requires List(word, places, mt, InMt)
    requires Block(word, places, cells, t) && word[cells[|cells| - 1]] == At(mt, 0)
    ensures List(word, Put(places, cells, InMt), cells + mt, InMt)
  {
    hide Links, Holds, NoDup;
    JoinedLinks(word, cells, mt);
    JoinedHolds(places, cells, mt);
  }

  lemma JoinLists(s: Unit, a: Ledger, t: nat, cells: seq<nat>)
    requires Lists(s.word, a) && Block(s.word, a.places, cells, t)
    requires s.word[cells[|cells| - 1]] == At(a.mt, 0)
    ensures Lists(s.word, a.(mt := cells + a.mt, places := Put(a.places, cells, InMt)))
    ensures SameBut(s.word, s.word, cells) && Movable(a.places, cells, t)
    ensures Put(a.places, cells, InMt).Keys == a.places.Keys
  {
    hide List;
    Joined(s.word, a.places, cells, a.mt, t);
    AllListsKept(s.word, s.word, a, cells, InMt);
  }

  lemma JoinTally(s: Unit, a: Ledger, t: nat, cells: seq<nat>, s': Unit, a': Ledger)
    requires Tallied(s, a) && Block(s.word, a.places, cells, t)
    requires a' == a.(mt := cells + a.mt, places := Put(a.places, cells, InMt))
    requires s'.held == s.held && s'.word == s.word && s'.cache == s.cache && s'.count == s.count
    requires s'.mt.took == s.mt.took + 1 && s'.mt.put == s.mt.put + 1
    ensures Tallied(s', a')
  {
  }

  lemma BlockCells(word: map<nat, Ptr>, places: map<nat, Place>, cells: seq<nat>, t: nat)
    requires Block(word, places, cells, t)
    ensures cells != [] && cells[|cells| - 1] in word
  {
  }

  lemma Join(s: Unit, a: Ledger, t: nat, cells: seq<nat>, exp: Tagged, next: Tagged, back: Tagged) returns (a': Ledger)
    requires Inv(s, a) && PcOf(s, t) == GrowCas(cells, exp, next, back) && s.mt == exp
    ensures Inv(To(s.(mt := next), t, AllocCas(back, back)), a')
    ensures a' == a.(mt := cells + a.mt, places := Put(a.places, cells, InMt))
  {
    hide List, ThreadOk, Lists, Tallied, Threads, Movable, SameBut, Block;
    var s' := To(s.(mt := next), t, AllocCas(back, back));
    a' := a.(mt := cells + a.mt, places := Put(a.places, cells, InMt));
    Own(s, a, t);
    JoinThread(s.word, a.places, s.mt, s.cache, t, cells, exp, next, back);
    BlockCells(s.word, a.places, cells, t);
    JoinLists(s, a, t, cells);
    ThreadsKept(s, a, s', t, cells, InMt);
    JoinTally(s, a, t, cells, s', a');
  }

  lemma BlockThread(word: map<nat, Ptr>, places: map<nat, Place>, mt: Tagged, cache: Tagged, t: nat,
                    cells: seq<nat>, exp: Tagged, back: Tagged)
    requires ThreadOk(word, places, mt, cache, t, GrowLink(cells, exp, back))
    ensures cells != [] && cells[|cells| - 1] in places && places[cells[|cells| - 1]] == Growing(t)
    ensures ThreadOk(word[cells[|cells| - 1] := exp.ptr], places, mt, cache, t,
                     GrowCas(cells, exp, Tagged(Cell(cells[0]), exp.took + 1, exp.put + 1), back))
  {
    var last := cells[|cells| - 1];
    assert forall i :: 0 <= i < |cells| - 1 ==> cells[i] != last;
  }

  lemma LinkLast(s: Unit, a: Ledger, t: nat, cells: seq<nat>, exp: Tagged, back: Tagged)
    requires Inv(s, a) && PcOf(s, t) == GrowLink(cells, exp, back) && cells != []
    ensures Inv(To(s.(word := s.word[cells[|cells| - 1] := exp.ptr]), t,
      GrowCas(cells, exp, Tagged(Cell(cells[0]), exp.took + 1, exp.put + 1), back)), a)
  {
    hide List, ThreadOk;
    var c := cells[|cells| - 1];
    var s' := To(s.(word := s.word[c := exp.ptr]), t,
      GrowCas(cells, exp, Tagged(Cell(cells[0]), exp.took + 1, exp.put + 1), back));
    Own(s, a, t);
    BlockThread(s.word, a.places, s.mt, s.cache, t, cells, exp, back);
    assert a.places[c := Growing(t)] == a.places;
    assert Threads(s', a.places) by {
      hide Lists, Tallied;
      OneCell(s, a, s', t, c, Growing(t));
    }
    assert Lists(s'.word, a) by {
      hide Threads, Tallied;
      OtherLists(s.word, s'.word, a, c, Growing(t));
    }
    assert Tallied(s', a) by { hide Threads, Lists; }
  }

  /** A whole list goes over to an empty one. */
  lemma Moved(word: map<nat, Ptr>, places: map<nat, Place>, cells: seq<nat>, from: Place, to: Place)
    requires List(word, places, cells, from) && List(word, places, [], to) && from != to
    ensures List(word, Put(places, cells, to), cells, to)
    ensures List(word, Put(places, cells, to), [], from)
  {
  }

  lemma ListMovable(word: map<nat, Ptr>, places: map<nat, Place>, cells: seq<nat>, place: Place, t: nat, to: Place, other: Place)
    requires List(word, places, cells, place) && !place.With? && !place.Growing?
    ensures Movable(places, cells, t)
    ensures other != place && other != to ==> Apart(places, cells, to, other)
    ensures Put(places, cells, to).Keys == places.Keys
    ensures SameBut(word, word, cells)
  {
  }

  lemma DrainThread(word: map<nat, Ptr>, places: map<nat, Place>, mt: Tagged, cache: Tagged, pc: Pc, pc': Pc,
                    cells: seq<nat>, to: Place, cache': Tagged)
    requires ThreadOk(word, places, mt, cache, 0, pc)
    requires (pc.DrainCas? && pc'.DrainTake?) || (pc.DrainTake? && pc'.MainPop?)
    requires !to.With? && !to.Growing?
    ensures ThreadOk(word, Put(places, cells, to), mt, cache', 0, pc')
    ensures pc.DrainCas? && pc.exp == cache && cache.ptr != NoPtr ==> pc.next == Tagged(Null, cache.put + 1, cache.put + 1)
  {
  }

  lemma ApartFrom(word: map<nat, Ptr>, a: Ledger, cells: seq<nat>, place: Place)
    requires Lists(word, a) && List(word, a.places, cells, place)
    requires place == InCache || place == InDrain
    ensures a.mt != [] ==> a.mt[0] !in cells
  {
    if a.mt != [] { FirstPlace(word, a.places, a.mt, InMt); }
  }

  lemma DrainLists(s: Unit, a: Ledger)
    requires Lists(s.word, a) && a.drain == []
    ensures Lists(s.word, a.(cache := [], drain := a.cache, places := Put(a.places, a.cache, InDrain)))
  {
    hide List, Movable, SameBut, Apart;
    Moved(s.word, a.places, a.cache, InCache, InDrain);
    ListMovable(s.word, a.places, a.cache, InCache, 0, InDrain, InMt);
    ListMovable(s.word, a.places, a.cache, InCache, 0, InDrain, InMain);
    AllListsKept(s.word, s.word, a, a.cache, InDrain);
  }

  lemma DrainTally(s: Unit, a: Ledger, s': Unit, a': Ledger)
    requires Tallied(s, a) && a.drain == [] && List(s.word, a.places, a.cache, InCache)
    requires a' == a.(cache := [], drain := a.cache, places := Put(a.places, a.cache, InDrain))
    requires s'.held == s.held && s'.word == s.word && s'.mt == s.mt && s'.count == s.count
    requires s'.cache == Tagged(Null, s.cache.put + 1, s.cache.put + 1)
    ensures Tallied(s', a')
    ensures s.cache.took <= s.cache.put
  {
  }

  lemma Drain(s: Unit, a: Ledger, exp: Tagged, next: Tagged) returns (a': Ledger)
    requires Inv(s, a) && PcOf(s, 0) == DrainCas(exp, next) && s.cache == exp
    ensures Inv(To(s.(cache := next), 0, DrainTake(exp)), a')
    ensures a' == a.(cache := [], drain := a.cache, places := Put(a.places, a.cache, InDrain))
    ensures exp.put - exp.took == |a.cache|
  {
    hide List, ThreadOk, Lists, Tallied, Threads, Movable, SameBut;
    var s' := To(s.(cache := next), 0, DrainTake(exp));
    a' := a.(cache := [], drain := a.cache, places := Put(a.places, a.cache, InDrain));
    Own(s, a, 0);
    DrainThread(s.word, a.places, s.mt, s.cache, DrainCas(exp, next), DrainTake(exp), a.cache, InDrain, next);
    CacheList(s.word, a);
    ListMovable(s.word, a.places, a.cache, InCache, 0, InDrain, InMt);
    ApartFrom(s.word, a, a.cache, InCache);
    DrainLists(s, a);
    DrainTally(s, a, s', a');
    DrainSize(s, a);
    ThreadsKept(s, a, s', 0, a.cache, InDrain);
  }

  lemma CacheList(word: map<nat, Ptr>, a: Ledger)
    requires Lists(word, a)
    ensures List(word, a.places, a.cache, InCache)
    ensures List(word, a.places, a.drain, InDrain)
  {
  }

  lemma DrainSize(s: Unit, a: Ledger)
    requires Tallied(s, a)
    ensures s.cache.put - s.cache.took == |a.cache|
  {
  }

  lemma KeepLists(s: Unit, a: Ledger)
    requires Lists(s.word, a) && a.main == []
    ensures Lists(s.word, a.(drain := [], main := a.drain, places := Put(a.places, a.drain, InMain)))
  {
    hide List, Movable, SameBut, Apart;
    Moved(s.word, a.places, a.drain, InDrain, InMain);
    ListMovable(s.word, a.places, a.drain, InDrain, 0, InMain, InMt);
    ListMovable(s.word, a.places, a.drain, InDrain, 0, InMain, InCache);
    AllListsKept(s.word, s.word, a, a.drain, InMain);
  }

  lemma KeepTally(s: Unit, a: Ledger, s': Unit, a': Ledger)
    requires Tallied(s, a) && List(s.word, a.places, a.drain, InDrain)
    requires a' == a.(drain := [], main := a.drain, places := Put(a.places, a.drain, InMain))
    requires s'.held == s.held && s'.word == s.word && s'.mt == s.mt && s'.cache == s.cache
    requires s'.count == s.count - |a.drain|
    ensures Tallied(s', a')
  {
  }

  lemma Keep(s: Unit, a: Ledger, exp: Tagged) returns (a': Ledger)
    requires Inv(s, a) && PcOf(s, 0) == DrainTake(exp)
    ensures Inv(To(s.(head := exp.ptr, count := s.count - (exp.put - exp.took)), 0, MainPop), a')
  {
    hide List, ThreadOk, Lists, Tallied, Threads, Movable, SameBut;
    var s' := To(s.(head := exp.ptr, count := s.count - (exp.put - exp.took)), 0, MainPop);
    a' := a.(drain := [], main := a.drain, places := Put(a.places, a.drain, InMain));
    Own(s, a, 0);
    DrainThread(s.word, a.places, s.mt, s.cache, DrainTake(exp), MainPop, a.drain, InMain, s.cache);
    CacheList(s.word, a);
    ListMovable(s.word, a.places, a.drain, InDrain, 0, InMain, InMt);
    ApartFrom(s.word, a, a.drain, InDrain);
    KeepLists(s, a);
    KeepTally(s, a, s', a');
    ThreadsKept(s, a, s', 0, a.drain, InMain);
  }

  lemma BlockThreadKept(s: Unit, a: Ledger, cells: seq<nat>)
    requires ThreadOk(s.word, a.places, s.mt, s.cache, 0, MainPop)
    requires s.word.Keys == a.places.Keys && NewBlock(s, cells)
    ensures ThreadOk(s.word + Linked(cells, Null), Put(a.places, cells, InMain), s.mt, s.cache, 0, MainPop)
  {
  }

  lemma NewMainLists(s: Unit, a: Ledger, cells: seq<nat>)
    requires s.word.Keys == a.places.Keys && NewBlock(s, cells)
    requires Lists(s.word, a) && a.main == [] && s.mt.ptr == At(a.mt, 0)
    ensures Lists(s.word + Linked(cells, Null), a.(main := cells, places := Put(a.places, cells, InMain)))
    ensures SameBut(s.word, s.word + Linked(cells, Null), cells) && Movable(a.places, cells, 0)
    ensures s.mt.ptr.Cell? ==> s.mt.ptr.id !in cells
    ensures (s.word + Linked(cells, Null)).Keys == Put(a.places, cells, InMain).Keys
    ensures cells != []
  {
    hide List, Apart, Movable, SameBut;
    if a.mt != [] { FirstPlace(s.word, a.places, a.mt, InMt); }
    Fresh(s, a, 0, cells, Null, InMain, InMt);
    Fresh(s, a, 0, cells, Null, InMain, InCache);
    Fresh(s, a, 0, cells, Null, InMain, InDrain);
    AllListsKept(s.word, s.word + Linked(cells, Null), a, cells, InMain);
    NewList(s.word, a.places, cells);
  }

  lemma NewList(word: map<nat, Ptr>, places: map<nat, Place>, cells: seq<nat>)
    requires List(word, places, [], InMain) && NoDup(cells)
    ensures List(word + Linked(cells, Null), Put(places, cells, InMain), cells, InMain)
  {
    hide Linked, NoDup, Links, Holds, Put;
    NewLinks(word, cells);
    NewHolds(places, cells);
  }

  lemma NewLinks(word: map<nat, Ptr>, cells: seq<nat>)
    requires NoDup(cells)
    ensures Links(word + Linked(cells, Null), cells)
  {
    hide Linked, NoDup;
    LinkedWords(cells, Null);
  }

  lemma NewHolds(places: map<nat, Place>, cells: seq<nat>)
    requires Holds(places, [], InMain) && NoDup(cells)
    ensures Holds(Put(places, cells, InMain), cells, InMain)
  {
  }

  lemma NewMainTally(s: Unit, a: Ledger, cells: seq<nat>, s': Unit, a': Ledger)
    requires Tallied(s, a) && s.word.Keys == a.places.Keys && NewBlock(s, cells)
    requires a' == a.(main := cells, places := Put(a.places, cells, InMain))
    requires s'.held == s.held && s'.mt == s.mt && s'.cache == s.cache && s'.count == s.count
    requires SameBut(s.word, s'.word, cells)
    ensures Tallied(s', a')
  {
  }

  /** `_create_memory_block`, when the creator's list is empty. */
  lemma NewMain(s: Unit, a: Ledger, cells: seq<nat>) returns (a': Ledger)
    requires Inv(s, a) && PcOf(s, 0).MainPop? && s.head == Null && NewBlock(s, cells)
    ensures cells != [] && Inv(s.(word := s.word + Linked(cells, Null), head := Cell(cells[0])), a')
  {
    hide List, ThreadOk, Lists, Tallied, Threads, Movable, SameBut, NewBlock;
    var s' := s.(word := s.word + Linked(cells, Null), head := if cells == [] then Null else Cell(cells[0]));
    a' := a.(main := cells, places := Put(a.places, cells, InMain));
    Own(s, a, 0);
    BlockThreadKept(s, a, cells);
    NewMainLists(s, a, cells);
    NewMainTally(s, a, cells, s', a');
    ThreadsKept(s, a, s', 0, cells, InMain);
  }

  // --- every step

  lemma AllocSteps(s: Unit, a: Ledger, e: Event) returns (a': Ledger)
    requires Inv(s, a) && Enabled(s, e)
    requires e.StartAlloc? || e.TryAlloc? || e.ReadNext? || e.ReturnCell?
    ensures Inv(Apply(s, e), a')
  {
    hide Inv, Lists, Tallied, MainOk;
    var t := e.t;
    var pc := PcOf(s, t);
    OwnPc(s, a, t);
    match e {
      case StartAlloc(_, exp, next) => a' := a; Quiet(s, a, t, AllocCas(exp, next));
      case TryAlloc(_) =>
        if s.mt == pc.exp {
          a' := Take(s, a, t, pc.exp, pc.next);
        } else {
          a' := a;
          HeadCell(s, a);
          Quiet(s, a, t, if s.mt.ptr == Null then AllocGrow(s.mt.(ptr := NoPtr)) else AllocNext(s.mt));
        }
      case ReadNext(_) =>
        a' := a;
        Quiet(s, a, t, AllocCas(pc.exp, Tagged(s.word[pc.exp.ptr.id], pc.exp.took + 1, pc.exp.put)));
      case ReturnCell(_) => a' := Return(s, a, t, pc.cell);
    }
  }

  lemma OwnPc(s: Unit, a: Ledger, t: nat)
    requires Inv(s, a)
    ensures ThreadOk(s.word, a.places, s.mt, s.cache, t, PcOf(s, t))
    ensures !PcOf(s, t).DrainCas? && !PcOf(s, t).DrainTake? ==>
      forall pc: Pc :: !pc.DrainCas? && !pc.DrainTake? ==> MainOk(s.head, a.drain, a.main, PcOf(To(s, t, pc), 0))
  {
  }

  lemma HeadCell(s: Unit, a: Ledger)
    requires Inv(s, a)
    ensures s.mt.ptr != Null ==> s.mt.ptr.Cell? && s.mt.ptr.id in s.word
    ensures s.cache.ptr != NoPtr
  {
  }

  lemma GrowSteps(s: Unit, a: Ledger, e: Event) returns (a': Ledger)
    requires Inv(s, a) && Enabled(s, e)
    requires e.MakeBlock? || e.TryGrow? || e.LinkBlock?
    ensures Inv(Apply(s, e), a')
  {
    hide Inv, Lists, Tallied, MainOk;
    var t := e.t;
    var pc := PcOf(s, t);
    OwnPc(s, a, t);
    match e {
      case MakeBlock(_, cells, exp, next, end) => a' := Make(s, a, t, pc.exp, cells, exp, next, end);
      case TryGrow(_) =>
        if s.mt == pc.exp {
          a' := Join(s, a, t, pc.cells, pc.exp, pc.next, pc.back);
        } else {
          a' := a;
          Quiet(s, a, t, GrowLink(pc.cells, s.mt, pc.back));
        }
      case LinkBlock(_) => a' := a; LinkLast(s, a, t, pc.cells, pc.exp, pc.back);
    }
  }

  lemma FreeSteps(s: Unit, a: Ledger, e: Event) returns (a': Ledger)
    requires Inv(s, a) && Enabled(s, e)
    requires e.StartFree? || e.CheckSign? || e.TryFree? || e.LinkFree?
    ensures Inv(Apply(s, e), a')
  {
    hide Inv, Lists, Tallied, MainOk;
    var t := e.t;
    var pc := PcOf(s, t);
    OwnPc(s, a, t);
    match e {
      case StartFree(_, cell) => a' := HandBack(s, a, t, cell);
      case CheckSign(_, exp, next) =>
        if s.word[pc.cell] == Sign(true) {
          a' := a;
          Quiet(s, a, t, FreeCas(pc.cell, exp, next));
        } else if t == 0 {
          a' := FreeMain(s, a, pc.cell);
        } else {
          a' := a;
          Quiet(s, a, t, CacheCas(pc.cell, exp, next));
        }
      case TryFree(_) =>
        if s.mt == pc.exp {
          a' := FreeMt(s, a, t, pc.cell, pc.exp, pc.next);
        } else {
          a' := a;
          Quiet(s, a, t, FreeLink(pc.cell, s.mt));
        }
      case LinkFree(_) =>
        a' := a;
        Relink(s, a, t, pc.cell, pc.exp.ptr,
               FreeCas(pc.cell, pc.exp, Tagged(Cell(pc.cell), pc.exp.took, pc.exp.put + 1)));
    }
  }

  lemma CacheSteps(s: Unit, a: Ledger, e: Event) returns (a': Ledger)
    requires Inv(s, a) && Enabled(s, e)
    requires e.TryCache? || e.LinkCache?
    ensures Inv(Apply(s, e), a')
  {
    hide Inv, Lists, Tallied, MainOk;
    var t := e.t;
    var pc := PcOf(s, t);
    OwnPc(s, a, t);
    match e {
      case TryCache(_) =>
        if s.cache == pc.exp {
          a' := FreeCache(s, a, t, pc.cell, pc.exp, pc.next);
        } else {
          a' := a;
          Quiet(s, a, t, CacheLink(pc.cell, s.cache));
        }
      case LinkCache(_) =>
        a' := a;
        Relink(s, a, t, pc.cell, pc.exp.ptr,
               CacheCas(pc.cell, pc.exp, Tagged(Cell(pc.cell), pc.exp.took, pc.exp.put + 1)));
    }
  }

  /** How the creator's pc decides what is known of its list. */
  lemma MainList(s: Unit, a: Ledger)
    requires Inv(s, a)
    ensures ThreadOk(s.word, a.places, s.mt, s.cache, 0, PcOf(s, 0))
    ensures PcOf(s, 0).Idle? && s.head == Null ==>
      forall exp, next :: MainOk(s.head, a.drain, a.main, PcOf(To(s, 0, DrainCas(exp, next)), 0))
    ensures PcOf(s, 0).DrainCas? ==>
      forall exp, next :: MainOk(s.head, a.drain, a.main, PcOf(To(s, 0, DrainCas(exp, next)), 0))
    ensures s.cache.ptr != NoPtr
    ensures s.head == Null || s.head.Cell?
  {
  }

  lemma MainSteps(s: Unit, a: Ledger, e: Event) returns (a': Ledger)
    requires Inv(s, a) && Enabled(s, e)
    requires e.MainAlloc? || e.TryDrain? || e.TakeDrained? || e.PopMain?
    ensures Inv(Apply(s, e), a')
  {
    hide Inv, Lists, Tallied, MainOk, NewBlock;
    var pc := PcOf(s, 0);
    MainList(s, a);
    match e {
      case MainAlloc(exp, next) =>
        if s.head == Null {
          a' := a;
          Quiet(s, a, 0, DrainCas(exp, next));
        } else {
          a' := PopHead(s, a);
        }
      case TryDrain =>
        if s.cache == pc.exp {
          a' := Drain(s, a, pc.exp, pc.next);
        } else {
          a' := a;
          Quiet(s, a, 0, DrainCas(s.cache, Tagged(Null, s.cache.put + 1, s.cache.put + 1)));
        }
      case TakeDrained => a' := Keep(s, a, pc.exp);
      case PopMain(cells) =>
        if s.head == Null {
          var b := NewMain(s, a, cells);
          a' := PopHead(s.(word := s.word + Linked(cells, Null), head := Cell(cells[0])), b);
        } else {
          a' := PopHead(s, a);
        }
    }
  }

  /** Every step of every thread keeps the invariant. */
  lemma Step(s: Unit, a: Ledger, e: Event) returns (a': Ledger)
    requires Inv(s, a) && Enabled(s, e)
    ensures Inv(Apply(s, e), a')
  {
    hide *;
    match e {
      case StartAlloc(_, _, _) => a' := AllocSteps(s, a, e);
      case TryAlloc(_) => a' := AllocSteps(s, a, e);
      case ReadNext(_) => a' := AllocSteps(s, a, e);
      case ReturnCell(_) => a' := AllocSteps(s, a, e);
      case MakeBlock(_, _, _, _, _) => a' := GrowSteps(s, a, e);
      case TryGrow(_) => a' := GrowSteps(s, a, e);
      case LinkBlock(_) => a' := GrowSteps(s, a, e);
      case TryCache(_) => a' := CacheSteps(s, a, e);
      case LinkCache(_) => a' := CacheSteps(s, a, e);
      case MainAlloc(_, _) => a' := MainSteps(s, a, e);
      case TryDrain => a' := MainSteps(s, a, e);
      case TakeDrained => a' := MainSteps(s, a, e);
      case PopMain(_) => a' := MainSteps(s, a, e);
      case _ => a' := FreeSteps(s, a, e);
    }
  }

  // --- every run

  /** A run: the states a sequence of steps, of any threads in any order, goes through. */
  ghost predicate IsRun(states: seq<Unit>, events: seq<Event>) {
    && |states| == |events| + 1
    && states[0] == Start()
    && forall i :: 0 <= i < |events| ==> Enabled(states[i], events[i]) && states[i + 1] == Apply(states[i], events[i])
  }

  lemma {:induction false} RunInv(states: seq<Unit>, events: seq<Event>, i: nat) returns (a: Ledger)
    requires IsRun(states, events) && i < |states|
    ensures Inv(states[i], a)
  {
    if i == 0 {
      a := Ledger([], [], [], [], map[], {});
    } else {
      var b := RunInv(states, events, i - 1);
      a := Step(states[i - 1], b, events[i - 1]);
    }
  }

  /** The cells a thread has taken off a list and not handed out, or got back and not put on one. */
  function Carried(pc: Pc): set<nat> {
    match pc
    case AllocSign(c) => {c}
    case FreeCheck(c) => {c}
    case FreeCas(c, _, _) => {c}
    case FreeLink(c, _) => {c}
    case CacheCas(c, _, _) => {c}
    case CacheLink(c, _) => {c}
    case GrowCas(cells, _, _, _) => set c | c in cells
    case GrowLink(cells, _, _) => set c | c in cells
    case _ => {}
  }

  /** A cell is a thread's own exactly if its place says so. */
  lemma CarriedPlace(s: Unit, a: Ledger, t: nat, c: nat)
    requires Inv(s, a)
    ensures c in Carried(PcOf(s, t)) <==> c in a.places && (a.places[c] == With(t) || a.places[c] == Growing(t))
  {
    hide List, Tallied, MainOk;
    Own(s, a, t);
  }

  lemma ListPlace(s: Unit, a: Ledger, c: nat)
    requires Inv(s, a)
    ensures c in a.mt <==> c in a.places && a.places[c] == InMt
    ensures c in a.cache <==> c in a.places && a.places[c] == InCache
    ensures c in a.drain <==> c in a.places && a.places[c] == InDrain
    ensures c in a.main <==> c in a.places && a.places[c] == InMain
  {
    hide ThreadOk, Threads, Tallied, MainOk;
  }

  lemma HeldPlace(s: Unit, a: Ledger, c: nat)
    requires Inv(s, a)
    ensures c in s.held <==> c in a.places && a.places[c] == Held
    ensures c in a.places <==> c in s.word
    ensures c in s.held ==> s.word[c].Sign?
  {
    hide ThreadOk, Threads, Lists, MainOk;
  }

  /** The number of homes a cell has: with its holder, with a thread, on a list. */
  ghost predicate AtHome(s: Unit, lists: seq<seq<nat>>, c: nat) {
    && (c in s.held ==>
          (forall t: nat :: c !in Carried(PcOf(s, t))) && (forall i :: 0 <= i < |lists| ==> c !in lists[i]))
    && (forall t: nat, u: nat :: c in Carried(PcOf(s, t)) && c in Carried(PcOf(s, u)) ==> t == u)
    && (forall t: nat, i :: c in Carried(PcOf(s, t)) && 0 <= i < |lists| ==> c !in lists[i])
    && (forall i, j :: 0 <= i < j < |lists| ==> c !in lists[i] || c !in lists[j])
    && (c in s.word ==>
          c in s.held || (exists t: nat :: c in Carried(PcOf(s, t))) || (exists i :: 0 <= i < |lists| && c in lists[i]))
  }

  lemma OneHome(s: Unit, a: Ledger, c: nat)
    requires Inv(s, a)
    ensures AtHome(s, [a.mt, a.cache, a.drain, a.main], c)
  {
    hide Inv;
    var lists := [a.mt, a.cache, a.drain, a.main];
    forall t: nat
      ensures c in Carried(PcOf(s, t)) <==> c in a.places && (a.places[c] == With(t) || a.places[c] == Growing(t))
    {
      CarriedPlace(s, a, t, c);
    }
    ListPlace(s, a, c);
    HeldPlace(s, a, c);
    if c in a.places {
      match a.places[c] {
        case InMt => assert c in lists[0];
        case InCache => assert c in lists[1];
        case InDrain => assert c in lists[2];
        case InMain => assert c in lists[3];
        case With(t) => assert c in Carried(PcOf(s, t));
        case Growing(t) => assert c in Carried(PcOf(s, t));
        case Held =>
      }
    }
  }

  lemma Heads(s: Unit, a: Ledger)
    requires Inv(s, a)
    ensures s.mt.ptr == At(a.mt, 0) && NoDup(a.mt) && Links(s.word, a.mt)
    ensures s.cache.ptr == At(a.cache, 0) && NoDup(a.cache) && Links(s.word, a.cache)
    ensures s.head == At(a.main, 0) && NoDup(a.main) && Links(s.word, a.main)
    ensures NoDup(a.drain) && Links(s.word, a.drain)
    ensures if PcOf(s, 0).DrainTake? then PcOf(s, 0).exp.ptr == At(a.drain, 0) else a.drain == []
    ensures s.cache.put - s.cache.took == |a.cache|
  {
    hide Threads, ThreadOk;
  }

  /** In every state of every run there are four lists, one for each of the three heads and one for
      what the creator has just drained, such that every cell ever made is in exactly one place: held
      by a caller, carried by one thread, or on one of the lists. */
  lemma CellsInOnePlace(states: seq<Unit>, events: seq<Event>, i: nat)
    returns (mt: seq<nat>, cache: seq<nat>, drain: seq<nat>, main: seq<nat>)
    requires IsRun(states, events) && i < |states|
    ensures forall c: nat :: AtHome(states[i], [mt, cache, drain, main], c)
    ensures NoDup(mt) && NoDup(cache) && NoDup(drain) && NoDup(main)
    ensures states[i].mt.ptr == At(mt, 0) && Links(states[i].word, mt)
    ensures states[i].cache.ptr == At(cache, 0) && Links(states[i].word, cache)
    ensures states[i].head == At(main, 0) && Links(states[i].word, main)
    ensures if PcOf(states[i], 0).DrainTake? then PcOf(states[i], 0).exp.ptr == At(drain, 0) else drain == []
  {
    hide Inv, IsRun, AtHome, Links, NoDup;
    var a := RunInv(states, events, i);
    mt, cache, drain, main := a.mt, a.cache, a.drain, a.main;
    forall c: nat
      ensures AtHome(states[i], [mt, cache, drain, main], c)
    {
      OneHome(states[i], a, c);
    }
    Heads(states[i], a);
  }

  /** No call ever meets a sign it does not know, a null it did not expect or a cell that is not
      there: every crush branch is dead, whatever the threads do. */
  lemma NeverCrushed(states: seq<Unit>, events: seq<Event>, i: nat, t: nat)
    requires IsRun(states, events) && i < |states|
    ensures !PcOf(states[i], t).Crushed?
  {
    hide IsRun;
    var a := RunInv(states, events, i);
    Own(states[i], a, t);
  }

  /** A compare-and-swap that takes a cell succeeds only if the next pointer it is about to install,
      read earlier without any lock, is still what the cell's word says. */
  lemma TakenNextIsCurrent(states: seq<Unit>, events: seq<Event>, i: nat, t: nat)
    requires IsRun(states, events) && i < |states|
    requires PcOf(states[i], t).AllocCas? && states[i].mt == PcOf(states[i], t).exp
    ensures states[i].mt.ptr.Cell? && states[i].mt.ptr.id in states[i].word
    ensures PcOf(states[i], t).next.ptr == states[i].word[states[i].mt.ptr.id]
    ensures states[i].mt.ptr.id !in states[i].held
  {
    hide IsRun;
    var a := RunInv(states, events, i);
    HeadOnList(states[i], a);
    var pc := PcOf(states[i], t);
    Taken(states[i], a, t, pc.exp, pc.next);
  }

  lemma HeadOnList(s: Unit, a: Ledger)
    requires Inv(s, a)
    ensures s.mt.ptr.Cell? ==> s.mt.ptr.id !in s.held
    ensures s.mt.ptr != NoPtr
  {
    hide ThreadOk, Threads, MainOk;
    if s.mt.ptr.Cell? { assert a.places[a.mt[0]] == InMt; }
  }

  predicate Settled(pc: Pc) {
    Carried(pc) == {} && !pc.DrainTake?
  }

  /** `memory_unit_alloc_count`: the counter and the four tags add up to the cells held, those carried
      by a call under way and those of a drain under way; with none of these, to the cells held. */
  lemma AllocCountIsHeld(states: seq<Unit>, events: seq<Event>, i: nat) returns (out: set<nat>, drained: nat)
    requires IsRun(states, events) && i < |states|
    ensures AllocCount(states[i]) == |out| + drained
    ensures states[i].held <= out
    ensures forall c :: c in out && c !in states[i].held ==> exists t: nat :: c in Carried(PcOf(states[i], t))
    ensures (forall t: nat :: Settled(PcOf(states[i], t))) ==> AllocCount(states[i]) == |states[i].held|
  {
    hide Inv, IsRun, Carried;
    var a := RunInv(states, events, i);
    var s := states[i];
    out, drained := a.out, |a.drain|;
    Counted(s, a);
    forall c | c in out && c !in s.held
      ensures exists t: nat :: c in Carried(PcOf(s, t))
    {
      var t := a.places[c].t;
      CarriedPlace(s, a, t, c);
    }
    if forall t: nat :: Settled(PcOf(s, t)) {
      assert Settled(PcOf(s, 0));
      assert forall c :: c in out ==> c in s.held;
      assert out == s.held;
    }
  }

  lemma Counted(s: Unit, a: Ledger)
    requires Inv(s, a)
    ensures AllocCount(s) == |a.out| + |a.drain|
    ensures s.held <= a.out
    ensures forall c :: c in a.out && c !in s.held ==> c in a.places && a.places[c].With?
    ensures !PcOf(s, 0).DrainTake? ==> a.drain == []
  {
    hide Threads, Lists;
  }
}
