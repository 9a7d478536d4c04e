/** The unit of src/memory_pool.c, shared between the thread that created it and any others, as a
    state machine: one step is one access to memory that more than one thread can reach.

    A pointer-sized word is `Null`, the value `ULLONG_MAX` with which every compare-and-swap loop
    starts, a cell, or one of the two signs an allocated cell carries.  Thread 0 is the creator. */
module MemoryUnit {

  datatype Ptr = Null | NoPtr | Cell(id: nat) | Sign(multi: bool)

  /** `tag_pointer`, with unbounded tags: tag[0] counts what was taken, tag[1] what was put. */
  datatype Tagged = Tagged(ptr: Ptr, took: nat, put: nat)

  /** Where a thread is in a call; `exp` and `next` are the two operands of the loop's
      compare-and-swap. */
  datatype Pc =
    | Idle
    | AllocCas(exp: Tagged, next: Tagged)
    | AllocNext(exp: Tagged)
    | AllocGrow(exp: Tagged)
    | GrowCas(cells: seq<nat>, exp: Tagged, next: Tagged, back: Tagged)
    | GrowLink(cells: seq<nat>, exp: Tagged, back: Tagged)
    | AllocSign(cell: nat)
    | FreeCheck(cell: nat)
    | FreeCas(cell: nat, exp: Tagged, next: Tagged)
    | FreeLink(cell: nat, exp: Tagged)
    | CacheCas(cell: nat, exp: Tagged, next: Tagged)
    | CacheLink(cell: nat, exp: Tagged)
    | DrainCas(exp: Tagged, next: Tagged)
    | DrainTake(exp: Tagged)
    | MainPop
    | Crushed

  datatype Unit = Unit(
    word: map<nat, Ptr>,    // the first word of every cell there is
    mt: Tagged,             // unit_free_head_mt
    cache: Tagged,          // unit_free_head_cache
    head: Ptr,              // unit_free_head
    count: int,             // alloc_count
    held: set<nat>,         // cells handed to a caller and not freed yet
    pcs: map<nat, Pc>)

  function PcOf(s: Unit, t: nat): Pc {
    if t in s.pcs then s.pcs[t] else Idle
  }

  /** `memory_unit_alloc_count`. */
  function AllocCount(s: Unit): int {
    s.count + s.cache.took - s.cache.put + s.mt.took - s.mt.put
  }

  function At(cells: seq<nat>, i: nat): Ptr {
    if i < |cells| then Cell(cells[i]) else Null
  }

  function IndexOf(cells: seq<nat>, c: nat): (i: nat)
    requires c in cells
    ensures i < |cells| && cells[i] == c
  {
    if cells[0] == c then 0 else 1 + IndexOf(cells[1..], c)
  }

  /** Fresh cells, each leading to the next and the last one to `end`. */
  function Linked(cells: seq<nat>, end: Ptr): map<nat, Ptr> {
    map c | c in cells ::
      var i := IndexOf(cells, c) + 1;
      if i < |cells| then Cell(cells[i]) else end
  }

  predicate NoDup(cells: seq<nat>) {
    forall i, j :: 0 <= i < j < |cells| ==> cells[i] != cells[j]
  }

  /** A block of memory the system had not handed out before. */
  predicate NewBlock(s: Unit, cells: seq<nat>) {
    cells != [] && NoDup(cells) && forall c :: c in cells ==> c !in s.word
  }

  datatype Event =
    | StartAlloc(t: nat, exp: Tagged, next: Tagged)
    | TryAlloc(t: nat)
    | ReadNext(t: nat)
    | MakeBlock(t: nat, cells: seq<nat>, exp: Tagged, next: Tagged, end: Ptr)
    | TryGrow(t: nat)
    | LinkBlock(t: nat)
    | ReturnCell(t: nat)
    | StartFree(t: nat, cell: nat)
    | CheckSign(t: nat, exp: Tagged, next: Tagged)
    | TryFree(t: nat)
    | LinkFree(t: nat)
    | TryCache(t: nat)
    | LinkCache(t: nat)
    | MainAlloc(exp: Tagged, next: Tagged)
    | TryDrain
    | TakeDrained
    | PopMain(cells: seq<nat>)

  function Actor(e: Event): nat {
    match e
    case MainAlloc(_, _) => 0
    case TryDrain => 0
    case TakeDrained => 0
    case PopMain(_) => 0
    case _ => e.t
  }

  /** When a step can be taken.  Local variables and fresh memory start out with arbitrary contents,
      but for the pointers that are set at once; a caller only frees what it holds. */
  predicate Enabled(s: Unit, e: Event) {
    var pc := PcOf(s, Actor(e));
    match e
    case StartAlloc(t, exp, _) => pc.Idle? && t != 0 && exp.ptr == NoPtr
    case TryAlloc(_) => pc.AllocCas?
    case ReadNext(_) => pc.AllocNext?
    case MakeBlock(_, cells, exp, next, _) =>
      pc.AllocGrow? && NewBlock(s, cells) && exp.ptr == NoPtr && next.ptr == Cell(cells[0])
    case TryGrow(_) => pc.GrowCas?
    case LinkBlock(_) => pc.GrowLink? && pc.cells != []
    case ReturnCell(_) => pc.AllocSign?
    case StartFree(_, cell) => pc.Idle? && cell in s.held
    case CheckSign(_, exp, next) =>
      pc.FreeCheck? && exp.ptr == NoPtr && next.ptr == Cell(pc.cell)
    case TryFree(_) => pc.FreeCas?
    case LinkFree(_) => pc.FreeLink?
    case TryCache(_) => pc.CacheCas?
    case LinkCache(_) => pc.CacheLink?
    case MainAlloc(exp, next) => pc.Idle? && exp.ptr == NoPtr && next.ptr == Null
    case TryDrain => pc.DrainCas?
    case TakeDrained => pc.DrainTake?
    case PopMain(cells) => pc.MainPop? && (s.head == Null ==> NewBlock(s, cells))
  }

  function To(s: Unit, t: nat, pc: Pc): Unit {
    s.(pcs := s.pcs[t := pc])
  }

  /** Main-thread allocation off its own list. */
  function Pop(s: Unit): Unit
    requires s.head.Cell? && s.head.id in s.word
  {
    var c := s.head.id;
    To(s.(head := s.word[c], word := s.word[c := Sign(false)], count := s.count + 1, held := s.held + {c}), 0, Idle)
  }

  function Apply(s: Unit, e: Event): Unit
    requires Enabled(s, e)
  {
    var t := Actor(e);
    var pc := PcOf(s, t);
    match e
    case StartAlloc(_, exp, next) => To(s, t, AllocCas(exp, next))
    case TryAlloc(_) =>
      if s.mt == pc.exp then
        if pc.exp.ptr.Cell? then To(s.(mt := pc.next), t, AllocSign(pc.exp.ptr.id)) else To(s, t, Crushed)
      else if s.mt.ptr == Null then To(s, t, AllocGrow(s.mt.(ptr := NoPtr)))
      else To(s, t, AllocNext(s.mt))
    case ReadNext(_) =>
      if !(pc.exp.ptr.Cell? && pc.exp.ptr.id in s.word) then To(s, t, Crushed)
      else To(s, t, AllocCas(pc.exp, Tagged(s.word[pc.exp.ptr.id], pc.exp.took + 1, pc.exp.put)))
    case MakeBlock(_, cells, exp, next, end) =>
      To(s.(word := s.word + Linked(cells, end)), t, GrowCas(cells, exp, next, pc.exp))
    case TryGrow(_) =>
      if s.mt == pc.exp then To(s.(mt := pc.next), t, AllocCas(pc.back, pc.back))
      else To(s, t, GrowLink(pc.cells, s.mt, pc.back))
    case LinkBlock(_) =>
      To(s.(word := s.word[pc.cells[|pc.cells| - 1] := pc.exp.ptr]), t,
         GrowCas(pc.cells, pc.exp, Tagged(Cell(pc.cells[0]), pc.exp.took + 1, pc.exp.put + 1), pc.back))
    case ReturnCell(_) =>
      To(s.(word := s.word[pc.cell := Sign(true)], held := s.held + {pc.cell}), t, Idle)
    case StartFree(_, cell) => To(s.(held := s.held - {cell}), t, FreeCheck(cell))
    case CheckSign(_, exp, next) =>
      if pc.cell !in s.word then To(s, t, Crushed)
      else if s.word[pc.cell] == Sign(true) then To(s, t, FreeCas(pc.cell, exp, next))
      else if s.word[pc.cell] == Sign(false) then
        if t == 0 then
          To(s.(word := s.word[pc.cell := s.head], head := Cell(pc.cell), count := s.count - 1), t, Idle)
        else To(s, t, CacheCas(pc.cell, exp, next))
      else To(s, t, Crushed)
    case TryFree(_) =>
      if s.mt == pc.exp then To(s.(mt := pc.next), t, Idle) else To(s, t, FreeLink(pc.cell, s.mt))
    case LinkFree(_) =>
      To(s.(word := s.word[pc.cell := pc.exp.ptr]), t,
         FreeCas(pc.cell, pc.exp, Tagged(Cell(pc.cell), pc.exp.took, pc.exp.put + 1)))
    case TryCache(_) =>
      if s.cache == pc.exp then To(s.(cache := pc.next), t, Idle) else To(s, t, CacheLink(pc.cell, s.cache))
    case LinkCache(_) =>
      To(s.(word := s.word[pc.cell := pc.exp.ptr]), t,
         CacheCas(pc.cell, pc.exp, Tagged(Cell(pc.cell), pc.exp.took, pc.exp.put + 1)))
    case MainAlloc(exp, next) =>
      if s.head.Cell? && s.head.id in s.word then Pop(s)
      else if s.head == Null then To(s, t, DrainCas(exp, next))
      else To(s, t, Crushed)
    case TryDrain =>
      if s.cache == pc.exp then To(s.(cache := pc.next), t, DrainTake(pc.exp))
      else To(s, t, DrainCas(s.cache, Tagged(Null, s.cache.put + 1, s.cache.put + 1)))
    case TakeDrained =>
      To(s.(head := pc.exp.ptr, count := s.count - (pc.exp.put - pc.exp.took)), t, MainPop)
    case PopMain(cells) =>
      if s.head.Cell? && s.head.id in s.word then Pop(s)
      else if s.head == Null then
        var s1 := s.(word := s.word + Linked(cells, Null), head := Cell(cells[0]));
        Pop(s1)
      else To(s, t, Crushed)
  }

  /** `create_memory_unit`. */
  function Start(): Unit {
    Unit(map[], Tagged(Null, 0, 0), Tagged(Null, 0, 0), Null, 0, {}, map[])
  }
}
