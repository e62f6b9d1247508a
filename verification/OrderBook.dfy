/** The arena-backed order book (src/order_book.cpp, include/efe/order_book.hpp). */
module OrderBookModel {
  import opened Types
  import opened Ordered
  import opened BookModel
  import opened BookView
  import opened BookHash
  import opened HashMix
  import opened SlotLists
  import opened LevelMaps
  import opened BookState
  import opened BookJoin
  import opened BookLeave
  import opened BookReduce
  import opened BookAgreement
  import opened BookReplace
  import opened FlatOrderIndexModel

  /** How an event ends. `Faulted` stands for an allocation failure that is thrown to the caller. */
  datatype Outcome = Accepted | Rejected | Faulted

  /** Which map-node allocations fail, should the event need them. */
  datatype Faults = Faults(symbolNode: bool, levelNode: bool)

  const NO_FAULTS := Faults(false, false)

  function InitialSlot(i: nat, n: nat): Slot
    requires i < n < INVALID_SLOT
  {
    FRESH_SLOT.(nextFree := if i + 1 < n then i + 1 else INVALID_SLOT)
  }

  ghost function UpTo(n: nat): (q: seq<u32>)
    requires n <= INVALID_SLOT
    ensures |q| == n && forall i :: 0 <= i < n ==> q[i] == i
  {
    if n == 0 then [] else UpTo(n - 1) + [n - 1]
  }

  ghost function Zeros(n: nat): (q: seq<nat>)
    ensures |q| == n
  {
    if n == 0 then [] else Zeros(n - 1) + [0]
  }

  ghost function InitialShape(s: seq<Slot>): Shape
    requires |s| < INVALID_SLOT
  {
    Shape(s, 0, map[], map[], UpTo(|s|), map[], Zeros(|s|), 0)
  }

  /** A new arena is one free list through all its slots. */
  lemma InitialFreeList(s: seq<Slot>)
    requires 0 < |s| < INVALID_SLOT
    requires forall i :: 0 <= i < |s| ==> s[i] == InitialSlot(i, |s|)
    ensures FreeList(s, 0, UpTo(|s|))
  {
  }

  lemma InitialIsConsistent(s: seq<Slot>)
    requires 0 < |s| < INVALID_SLOT
    requires forall i :: 0 <= i < |s| ==> s[i] == InitialSlot(i, |s|)
    ensures Consistent(InitialShape(s))
    ensures ModelOf(InitialShape(s)) == EMPTY_MODEL
  {
    var sh := InitialShape(s);
    InitialFreeList(s);
    assert Covered(s, sh.free, sh.queues) by {
      forall i: u32 | i < |s| ensures i in sh.free {
        assert sh.free[i] == i;
      }
    }
    assert Parts(sh);
    assert ModelOf(sh).orders == map[];
  }

  /** The state after a slot is taken for `o` and its id is indexed, before it joins a queue. */
  ghost function Reserved(sh: Shape, o: Order): Shape
    requires sh.freeHead < |sh.slots|
  {
    Shape(sh.slots[sh.freeHead := SlotFor(o)], sh.slots[sh.freeHead].nextFree, sh.index[o.id := sh.freeHead],
          sh.books, sh.free, sh.queues, sh.prio, sh.clock)
  }

  lemma FreshSlotFilled(sh: Shape, o: Order)
    requires Consistent(sh) && sh.freeHead < |sh.slots|
    ensures sh.slots[sh.freeHead].(nextFree := INVALID_SLOT, alive := true, order := o) == SlotFor(o)
    ensures sh.slots[sh.freeHead] == FRESH_SLOT.(nextFree := sh.slots[sh.freeHead].nextFree)
  {
    Open(sh);
    HeadIsFree(sh.slots, sh.freeHead, sh.free);
    assert sh.slots[sh.free[0]] == FRESH_SLOT.(nextFree := At(sh.free, 1));
  }

  /** The slot taken for `o` is outside the queue that it is about to join. */
  lemma ReservedChain(sh: Shape, o: Order)
    requires Consistent(sh) && CanJoin(sh, o)
    ensures var q, l := QueueAt(sh.queues, KeyOf(o)), LevelOrEmpty(sh.books, KeyOf(o));
            && |sh.slots| < INVALID_SLOT && |sh.prio| == |sh.slots| && sh.free != []
            && sh.freeHead !in q && Chain(Reserved(sh, o).slots, q, l.head, l.tail)
  {
    JoinPlacesIn(sh, o);
  }

  /** Releasing the slot and erasing the id gives back exactly the state before. */
  lemma ReservedUndone(sh: Shape, o: Order)
    requires Consistent(sh) && sh.freeHead < |sh.slots| && o.id !in sh.index
    ensures var s := Reserved(sh, o);
            && s.slots[sh.freeHead := FRESH_SLOT.(nextFree := s.freeHead)] == sh.slots
            && s.index - {o.id} == sh.index
  {
    FreshSlotFilled(sh, o);
  }

  lemma UntouchIn(sh: Shape, symbol: Symbol)
    requires Consistent(sh)
    ensures DropIfBlank(Touch(sh.books, symbol), symbol) == sh.books
  {
    Open(sh);
    DropIfBlankUndoesTouch(sh.books, symbol);
  }

  /** The level maps after `books_[symbol]` and `try_emplace`. */
  function Emplaced(books: Books, k: LevelKey): Books {
    if LevelAt(books, k).None? then PutLevel(Touch(books, k.symbol), k, EMPTY_LEVEL) else Touch(books, k.symbol)
  }

  lemma EmplacedLevel(books: Books, k: LevelKey)
    ensures LevelAt(Emplaced(books, k), k) == Some(LevelOrEmpty(books, k))
  {
    TouchShowsSame(books, k.symbol, k);
    LevelAtPut(Touch(books, k.symbol), k, EMPTY_LEVEL, k);
  }

  lemma EmplacedPut(books: Books, k: LevelKey, l: PriceLevel)
    ensures PutLevel(Emplaced(books, k), k, l) == PutLevel(books, k, l)
  {
    PutAfterTouch(books, k, l);
    PutOverwritesPut(Touch(books, k.symbol), k, EMPTY_LEVEL, l);
  }

  /** The writes of an add, put together, are the transition. */
  lemma JoinAssembled(sh: Shape, o: Order)
    requires Consistent(sh) && CanJoin(sh, o)
    ensures sh.freeHead < |sh.slots| == |sh.prio| && sh.free != []
    ensures var i, k := sh.freeHead, KeyOf(o);
            var l := LevelOrEmpty(sh.books, k);
            Join(sh, o) == Shape(JoinedSlots(sh.slots, i, o, l.tail), sh.slots[i].nextFree, sh.index[o.id := i],
                                 PutLevel(Emplaced(sh.books, k), k, Joined(l, i, o.quantity)), sh.free[1..],
                                 sh.queues[k := QueueAt(sh.queues, k) + [i]], sh.prio[i := sh.clock], sh.clock + 1)
  {
    ReservedChain(sh, o);
    EmplacedPut(sh.books, KeyOf(o), Joined(LevelOrEmpty(sh.books, KeyOf(o)), sh.freeHead, o.quantity));
  }

  /** An add that fits is accepted by the model, and joining is what the model does with it. */
  lemma AddAccepted(sh: Shape, e: MarketEvent)
    requires Consistent(sh) && AllPositive(ModelOf(sh).orders) && e.AddEvent?
    requires e.order.id != 0 && e.order.quantity != 0 && CanJoin(sh, e.order)
    ensures Accepts(ModelOf(sh), |sh.slots|, e)
    ensures Consistent(Join(sh, e.order)) && AllPositive(ModelOf(Join(sh, e.order)).orders)
    ensures ModelOf(Join(sh, e.order)) == Step(ModelOf(sh), |sh.slots|, e)
  {
    LiveCount(sh);
    TotalIsLevelSum(sh, KeyOf(e.order));
    JoinInModel(sh, e.order);
  }

  lemma AddRejected(sh: Shape, e: MarketEvent)
    requires Consistent(sh) && e.AddEvent?
    requires e.order.id == 0 || e.order.quantity == 0 || e.order.id in sh.index || sh.freeHead == INVALID_SLOT
             || LevelOrEmpty(sh.books, KeyOf(e.order)).total + e.order.quantity > U32_MAX
    ensures !Accepts(ModelOf(sh), |sh.slots|, e)
  {
    LiveCount(sh);
    TotalIsLevelSum(sh, KeyOf(e.order));
  }

  lemma TidiedLevel(books: Books, k: LevelKey, l: PriceLevel, after: Books, k': LevelKey)
    requires Tidied(PutLevel(books, k, l), after, k)
    ensures LevelAt(after, k') == LevelAt(Settle(books, k, l), k')
  {
    assert LevelOrEmpty(PutLevel(books, k, l), k) == l by {
      LevelAtPut(books, k, l, k);
    }
    LevelAtPut(books, k, l, k');
    LevelAtDrop(books, k, k');
  }

  lemma SettledLeavesNoBlankBook(books: Books, k: LevelKey, l: PriceLevel)
    requires NoBlankBook(books)
    ensures NoBlankBook(Settle(books, k, l)) && NoBlankBook(PutLevel(books, k, l))
  {
    PutLeavesNoBlankBook(books, k, l);
    DropLeavesNoBlankBook(books, k);
  }

  /** Tidying up after a level was written leaves no empty level and no blank book. */
  lemma TidySettles(sh: Shape, k: LevelKey, l: PriceLevel, after: Books)
    requires Consistent(sh) && Tidied(PutLevel(sh.books, k, l), after, k)
    ensures after == Settle(sh.books, k, l)
  {
    assert NoBlankBook(sh.books) by {
      Open(sh);
    }
    SettledLeavesNoBlankBook(sh.books, k, l);
    TidyLeavesNoBlankBook(PutLevel(sh.books, k, l), after, k);
    forall k' ensures LevelAt(after, k') == LevelAt(Settle(sh.books, k, l), k') {
      TidiedLevel(sh.books, k, l, after, k');
    }
    SameLevelsSameBooks(after, Settle(sh.books, k, l));
  }

  /** What removing a live order relies on. */
  lemma LeaveReady(sh: Shape, id: u64)
    requires Consistent(sh) && id in sh.index
    ensures sh.index[id] < |sh.slots| < INVALID_SLOT
    ensures var i := sh.index[id];
            var k := KeyOf(sh.slots[i].order);
            && k in sh.queues && i in sh.queues[k]
            && LevelAt(sh.books, k).Some?
            && sh.slots[i].order.quantity <= LevelAt(sh.books, k).value.total
            && Chain(sh.slots, sh.queues[k], LevelAt(sh.books, k).value.head, LevelAt(sh.books, k).value.tail)
  {
    LiveOrder(sh, id);
    LiveQueue(sh, id);
    LiveCount(sh);
  }

  lemma CanReduceIff(sh: Shape, id: u64, shares: u32)
    requires Consistent(sh)
    ensures CanReduce(ModelOf(sh), id, shares) <==> shares != 0 && CanLose(sh, id, shares)
    ensures id in sh.index ==> sh.index[id] < |sh.slots|
  {
    LiveCount(sh);
    if id in sh.index {
      OrderInSlot(sh, id);
    }
  }

  /** Taking some but not all shares of an order is a partial reduction in the model. */
  lemma ReducedInPart(sh: Shape, id: u64, shares: u32)
    requires Consistent(sh) && AllPositive(ModelOf(sh).orders) && CanLose(sh, id, shares)
    requires shares < sh.slots[sh.index[id]].order.quantity
    ensures Consistent(Reduce(sh, id, shares))
    ensures CanReduce(ModelOf(sh), id, shares) || shares == 0
    ensures id in ModelOf(sh).orders && shares <= ModelOf(sh).orders[id].order.quantity
    ensures ModelOf(Reduce(sh, id, shares)) == ModelOf(sh).(orders := Reduced(ModelOf(sh).orders, id, shares))
    ensures AllPositive(ModelOf(Reduce(sh, id, shares)).orders)
  {
    OrderInSlot(sh, id);
    ReduceInModel(sh, id, shares);
  }

  /** Taking an order's last share and then removing it is what the model calls a full reduction. */
  lemma ReducedToNothing(sh: Shape, id: u64, shares: u32)
    requires Consistent(sh) && CanLose(sh, id, shares)
    requires shares == sh.slots[sh.index[id]].order.quantity
    ensures id in ModelOf(sh).orders && shares <= ModelOf(sh).orders[id].order.quantity
    ensures Consistent(Reduce(sh, id, shares))
    ensures var m := ModelOf(Reduce(sh, id, shares));
            m.(orders := m.orders - {id}) == ModelOf(sh).(orders := Reduced(ModelOf(sh).orders, id, shares))
  {
    OrderInSlot(sh, id);
    ReduceInModel(sh, id, shares);
  }

  lemma ReplaceRejected(sh: Shape, e: MarketEvent)
    requires Consistent(sh) && e.ReplaceEvent?
    requires e.oldOrderId !in sh.index || e.newOrderId == 0 || e.newQuantity == 0 || e.newOrderId in sh.index
    ensures !Accepts(ModelOf(sh), |sh.slots|, e)
    ensures Step(ModelOf(sh), |sh.slots|, e) == ModelOf(sh)
  {
    LiveCount(sh);
  }

  /** A replacement is refused if the target level's sum, without the old order, leaves too little room. */
  lemma ReplaceOverflows(sh: Shape, e: MarketEvent)
    requires Consistent(sh) && e.ReplaceEvent? && e.oldOrderId in ModelOf(sh).orders
    requires var m := ModelOf(sh);
             var o := Replacement(m.orders[e.oldOrderId].order, e.newOrderId, e.newQuantity, e.newPrice);
             LevelSum(m.orders - {e.oldOrderId}, KeyOf(o)) + e.newQuantity > U32_MAX
    ensures !Accepts(ModelOf(sh), |sh.slots|, e)
    ensures Step(ModelOf(sh), |sh.slots|, e) == ModelOf(sh)
  {
  }

  lemma ReplaceStep(sh: Shape, e: MarketEvent)
    requires Consistent(sh) && e.ReplaceEvent? && AllPositive(ModelOf(sh).orders)
    requires e.oldOrderId in sh.index && e.newOrderId != 0 && e.newQuantity != 0 && e.newOrderId !in sh.index
    requires e.oldOrderId in ModelOf(sh).orders
    requires var m := ModelOf(sh);
             var o := Replacement(m.orders[e.oldOrderId].order, e.newOrderId, e.newQuantity, e.newPrice);
             LevelSum(m.orders - {e.oldOrderId}, KeyOf(o)) + e.newQuantity <= U32_MAX
    ensures Accepts(ModelOf(sh), |sh.slots|, e)
    ensures var m := ModelOf(sh);
            var o := Replacement(m.orders[e.oldOrderId].order, e.newOrderId, e.newQuantity, e.newPrice);
            Step(m, |sh.slots|, e)
            == Model((m.orders - {e.oldOrderId})[e.newOrderId := Resting(o, m.clock)], m.clock + 1)
    ensures AllPositive(Step(ModelOf(sh), |sh.slots|, e).orders)
  {
    LiveCount(sh);
  }

  class OrderBook {
    const slots: array<Slot>
    var freeHead: u32
    const index: FlatOrderIndex
    var books: Books

    ghost var free: seq<u32>
    ghost var queues: Queues
    ghost var prio: seq<nat>
    ghost var clock: nat

    ghost function Sh(): Shape
      reads this, slots, index
    {
      Shape(slots[..], freeHead, index.contents, books, free, queues, prio, clock)
    }

    /** Everything but the quantities, which are out of order while the last share of an order is taken. */
    ghost predicate Core()
      reads this, slots, index, index.entries
    {
      && index.Valid()
      && index.entries.Length >= 2 * slots.Length && slots.Length > 0
      && Consistent(Sh())
    }

    ghost predicate Valid()
      reads this, slots, index, index.entries
    {
      Core() && AllPositive(M().orders)
    }

    /** The model that the book stands for. */
    ghost function M(): Model
      reads this, slots, index, index.entries
      requires Core()
    {
      ModelOf(Sh())
    }

    constructor (maxOrders: nat, hash: u64 -> u64)
      requires 0 < maxOrders < INVALID_SLOT
      ensures Valid() && fresh(slots) && fresh(index) && fresh(index.entries)
      ensures slots.Length == maxOrders && M() == EMPTY_MODEL
    {
      slots := new Slot[maxOrders](_ => FRESH_SLOT);
      index := new FlatOrderIndex(maxOrders, hash);
      freeHead := INVALID_SLOT;
      books := map[];
      free, queues, prio, clock := UpTo(maxOrders), map[], Zeros(maxOrders), 0;
      new;
      ChainFreeSlots();
      freeHead := 0;
      InitialIsConsistent(slots[..]);
    }

    /** The constructor's loop: every slot's free link points to the slot after it. */
    method ChainFreeSlots()
      requires slots.Length < INVALID_SLOT
      requires forall j :: 0 <= j < slots.Length ==> slots[j] == FRESH_SLOT
      modifies slots
      ensures forall j :: 0 <= j < slots.Length ==> slots[j] == InitialSlot(j, slots.Length)
    {
      for i := 0 to slots.Length
        invariant forall j :: 0 <= j < i ==> slots[j] == InitialSlot(j, slots.Length)
        invariant forall j :: i <= j < slots.Length ==> slots[j] == FRESH_SLOT
      {
        slots[i] := slots[i].(nextFree := if i + 1 < slots.Length then i + 1 else INVALID_SLOT);
      }
    }

    // ---------------------------------------------------------------- arena

    method AllocateSlot() returns (slot: u32)
      requires freeHead != INVALID_SLOT ==> freeHead < slots.Length
      modifies this`freeHead, slots
      ensures slot == old(freeHead)
      ensures slot == INVALID_SLOT ==> freeHead == INVALID_SLOT && slots[..] == old(slots[..])
      ensures slot != INVALID_SLOT ==>
                && freeHead == old(slots[freeHead].nextFree)
                && slots[..] == old(slots[..])[slot := old(slots[freeHead]).(nextFree := INVALID_SLOT, alive := true)]
    {
      if freeHead == INVALID_SLOT {
        return INVALID_SLOT;
      }
      slot := freeHead;
      freeHead := slots[slot].nextFree;
      slots[slot] := slots[slot].(nextFree := INVALID_SLOT);
      slots[slot] := slots[slot].(alive := true);
    }

    method ReleaseSlot(slot: u32)
      requires slot < slots.Length
      modifies this`freeHead, slots
      ensures freeHead == slot
      ensures slots[..] == old(slots[..])[slot := FRESH_SLOT.(nextFree := old(freeHead))]
    {
      slots[slot] := FRESH_SLOT;
      slots[slot] := slots[slot].(nextFree := freeHead);
      freeHead := slot;
    }

    method LinkAtTail(level: PriceLevel, slot: u32, ghost q: seq<u32>) returns (r: PriceLevel)
      requires slots.Length < INVALID_SLOT && slot < slots.Length && slot !in q
      requires Chain(slots[..], q, level.head, level.tail)
      modifies slots
      ensures slots[..] == Linked(old(slots[..]), level.tail, slot)
      ensures Chain(slots[..], q + [slot], r.head, r.tail)
      ensures r == PriceLevel(level.total, if level.tail == INVALID_SLOT then slot else level.head, slot)
    {
      LinkedChain(slots[..], q, level.head, level.tail, slot);
      assert level.tail != INVALID_SLOT ==> level.tail == q[|q| - 1] && level.tail < slots.Length;
      r := level;
      slots[slot] := slots[slot].(prev := level.tail);
      slots[slot] := slots[slot].(next := INVALID_SLOT);
      if level.tail != INVALID_SLOT {
        slots[level.tail] := slots[level.tail].(next := slot);
      } else {
        r := r.(head := slot);
      }
      r := r.(tail := slot);
      assert slots[..] == Linked(old(slots[..]), level.tail, slot);
    }

    method Unlink(level: PriceLevel, slot: u32, ghost q: seq<u32>) returns (r: PriceLevel)
      requires slots.Length < INVALID_SLOT && slot in q
      requires Chain(slots[..], q, level.head, level.tail)
      modifies slots
      ensures slot < slots.Length
      ensures slots[..] == Unlinked(old(slots[..]), slot)
      ensures Chain(slots[..], CutAt(q, Place(q, slot)), r.head, r.tail)
      ensures r == PriceLevel(level.total,
                              if old(slots[slot]).prev == INVALID_SLOT then old(slots[slot]).next else level.head,
                              if old(slots[slot]).next == INVALID_SLOT then old(slots[slot]).prev else level.tail)
    {
      ghost var j := Place(q, slot);
      NeighboursInRange(slots[..], q, level.head, level.tail, j);
      UnlinkedChain(slots[..], q, level.head, level.tail, j);
      ChainEnds(slots[..], q, level.head, level.tail, j);
      var prev, next := slots[slot].prev, slots[slot].next;
      r := level;
      if prev != INVALID_SLOT {
        slots[prev] := slots[prev].(next := next);
      } else {
        r := r.(head := next);
      }
      if next != INVALID_SLOT {
        slots[next] := slots[next].(prev := prev);
      } else {
        r := r.(tail := prev);
      }
      slots[slot] := slots[slot].(prev := INVALID_SLOT, next := INVALID_SLOT);
      assert slots[..] == Unlinked(old(slots[..]), slot);
    }

    // ---------------------------------------------------------------- add

    /** Takes a free slot for the order and enters it in the index. */
    method Reserve(o: Order) returns (slot: u32)
      requires Core() && o.id !in index.contents
      modifies this`freeHead, slots, index, index.entries
      ensures index.Valid()
      ensures slot == old(freeHead)
      ensures slot == INVALID_SLOT ==> Sh() == old(Sh())
      ensures slot != INVALID_SLOT ==>
                && slot < slots.Length
                && Sh() == Reserved(old(Sh()), o)
    {
      LiveCount(Sh());
      ghost var sh := Sh();
      slot := AllocateSlot();
      if slot == INVALID_SLOT {
        return;
      }
      slots[slot] := slots[slot].(order := o);
      assert slots[..] == sh.slots[slot := SlotFor(o)] by {
        FreshSlotFilled(sh, o);
      }
      var inserted := index.Insert(o.id, slot);
      assert inserted;
    }

    /** Undoes `Reserve`. */
    method Rollback(o: Order, slot: u32, ghost before: Shape)
      requires index.Valid() && Consistent(before) && slot == before.freeHead && slot < slots.Length
      requires slots.Length == |before.slots| && o.id !in before.index
      requires Sh() == Reserved(before, o)
      modifies this`freeHead, slots, index, index.entries
      ensures index.Valid() && Sh() == before
    {
      var _ := index.Erase(o.id);
      ReleaseSlot(slot);
      ReservedUndone(before, o);
    }

    /**
     Adding either appends the order to its level's queue, or leaves the state as it was: arena,
     free list, queues, totals and the map that the index stores.
     */
    method Add(e: MarketEvent, faults: Faults) returns (r: Outcome)
      requires Valid() && e.AddEvent?
      modifies this, slots, index, index.entries
      ensures Valid()
      ensures r != Accepted ==> Sh() == old(Sh())
      ensures r == Faulted ==> faults.symbolNode || faults.levelNode
      ensures r != Faulted ==> (r == Accepted <==> Accepts(old(M()), slots.Length, e))
      ensures r != Faulted ==> M() == Step(old(M()), slots.Length, e)
    {
      ghost var sh := Sh();
      r := TryAdd(e.order, faults);
      if r == Accepted {
        AddAccepted(sh, e);
      } else if r == Rejected {
        AddRejected(sh, e);
      }
    }

    /** The steps of `add`, in terms of the concrete state. */
    method TryAdd(o: Order, faults: Faults) returns (r: Outcome)
      requires Core()
      modifies this, slots, index, index.entries
      ensures index.Valid()
      ensures r == Faulted ==> faults.symbolNode || faults.levelNode
      ensures r == Accepted ==> o.id != 0 && o.quantity != 0 && CanJoin(old(Sh()), o) && Sh() == Join(old(Sh()), o)
      ensures r == Rejected ==>
                || o.id == 0 || o.quantity == 0 || o.id in old(index.contents) || old(freeHead) == INVALID_SLOT
                || LevelOrEmpty(old(books), KeyOf(o)).total + o.quantity > U32_MAX
      ensures r != Accepted ==> Sh() == old(Sh())
    {
      if o.id == 0 || o.quantity == 0 {
        return Rejected;
      }
      var found := index.Find(o.id);
      if found.Some? {
        return Rejected;
      }
      ghost var sh := Sh();
      var slot := Reserve(o);
      if slot == INVALID_SLOT {
        return Rejected;
      }
      r := Enqueue(o, slot, faults, sh);
    }

    /** The part of `add` that works on the level maps. */
    method Enqueue(o: Order, slot: u32, faults: Faults, ghost sh: Shape) returns (r: Outcome)
      requires index.Valid() && Consistent(sh) && slot == sh.freeHead && slot < slots.Length
      requires slots.Length == |sh.slots| && o.id !in sh.index
      requires Sh() == Reserved(sh, o)
      modifies this, slots, index, index.entries
      ensures index.Valid()
      ensures r == Faulted ==> faults.symbolNode || faults.levelNode
      ensures r != Faulted ==> (r == Accepted <==> LevelOrEmpty(sh.books, KeyOf(o)).total + o.quantity <= U32_MAX)
      ensures r == Accepted ==> CanJoin(sh, o) && Sh() == Join(sh, o)
      ensures r != Accepted ==> Sh() == sh
    {
      var k := KeyOf(o);
      if o.symbol !in books && faults.symbolNode {
        Rollback(o, slot, sh);
        return Faulted;
      }
      books := Touch(books, o.symbol);
      TouchShowsSame(sh.books, o.symbol, k);
      var inserted := o.price !in books[o.symbol].Side(o.side);
      if inserted && faults.levelNode {
        UntouchIn(sh, o.symbol);
        books := DropIfBlank(books, o.symbol);
        Rollback(o, slot, sh);
        return Faulted;
      }
      if inserted {
        books := PutLevel(books, k, EMPTY_LEVEL);
      }
      EmplacedLevel(sh.books, k);
      var level := LevelAt(books, k).value;
      if U32_MAX - level.total < o.quantity {
        assert !inserted;  // a new level is empty, so nothing has to be erased here
        UntouchIn(sh, o.symbol);
        books := DropIfBlank(books, o.symbol);
        Rollback(o, slot, sh);
        return Rejected;
      }
      Append(o, slot, level, sh);
      return Accepted;
    }

    /** The level takes on the order's shares and the order's slot at its tail. */
    method Append(o: Order, slot: u32, level: PriceLevel, ghost sh: Shape)
      requires Consistent(sh) && CanJoin(sh, o) && slot == sh.freeHead && slots.Length == |sh.slots|
      requires Sh() == Reserved(sh, o).(books := Emplaced(sh.books, KeyOf(o)))
      requires level == LevelOrEmpty(sh.books, KeyOf(o))
      modifies this`books, this`free, this`queues, this`prio, this`clock, slots
      ensures Sh() == Join(sh, o)
    {
      LinkIn(o, slot, level, sh);
      JoinAssembled(sh, o);
      ghost var k := KeyOf(o);
      free, queues, prio, clock := free[1..], queues[k := QueueAt(queues, k) + [slot]], prio[slot := clock], clock + 1;
    }

    method LinkIn(o: Order, slot: u32, level: PriceLevel, ghost sh: Shape)
      requires Consistent(sh) && CanJoin(sh, o) && slot == sh.freeHead
      requires slots[..] == Reserved(sh, o).slots && level == LevelOrEmpty(sh.books, KeyOf(o))
      modifies this`books, slots
      ensures slot < |sh.slots| && slots[..] == JoinedSlots(sh.slots, slot, o, level.tail)
      ensures books == PutLevel(old(books), KeyOf(o), Joined(level, slot, o.quantity))
    {
      ReservedChain(sh, o);
      var k := KeyOf(o);
      var level' := LinkAtTail(PriceLevel(level.total + o.quantity, level.head, level.tail), slot,
                               QueueAt(sh.queues, k));
      assert level' == Joined(level, slot, o.quantity);
      books := PutLevel(books, k, level');
    }

    // ---------------------------------------------------------------- remove

    /** An empty level goes, and so does a book without levels; all other levels and books stay. */
    method EraseEmptyLevel(order: Order)
      modifies this`books
      ensures Tidied(old(books), books, KeyOf(order))
    {
      if order.symbol !in books {
        return;
      }
      var book := books[order.symbol];
      var levels := book.Side(order.side);
      if order.price in levels && levels[order.price].head == INVALID_SLOT {
        book := book.WithSide(order.side, levels - {order.price});
        books := books[order.symbol := book];
      }
      if book.Blank() {
        books := books - {order.symbol};
      }
    }

    /** The level loses the order's shares and the order's slot leaves its queue. */
    method CutOut(id: u64, i: u32)
      requires Core() && id in index.contents && i == index.contents[id]
      modifies this`books, slots
      ensures i < slots.Length && slots[..] == Unlinked(old(slots[..]), i)
      ensures books == PutLevel(old(books), KeyOf(old(slots[..])[i].order), LeftLevel(old(Sh()), id))
    {
      LeaveReady(Sh(), id);
      var order := slots[i].order;
      var k := KeyOf(order);
      var level := LevelAt(books, k).value;
      level := PriceLevel(level.total - order.quantity, level.head, level.tail);
      level := Unlink(level, i, queues[k]);
      books := PutLevel(books, k, level);
    }

    /** The order's queue, index entry, slot and, if it is empty, level are taken apart. */
    method TakeOut(id: u64, i: u32)
      requires Core() && id in index.contents && i == index.contents[id]
      modifies this, slots, index, index.entries
      ensures index.Valid()
      ensures Sh() == Leave(old(Sh()), id)
    {
      ghost var sh := Sh();
      LiveOrder(sh, id);
      var order := slots[i].order;
      CutOut(id, i);
      var _ := index.Erase(id);
      ReleaseSlot(i);
      EraseEmptyLevel(order);
      TidySettles(sh, KeyOf(order), LeftLevel(sh, id), books);
      free, queues := [i] + free, CutQueue(queues, KeyOf(order), i);
    }

    /** Removal succeeds exactly on a live order, and takes just that order out. */
    method RemoveOrder(id: u64) returns (ok: bool)
      requires Core()
      modifies this, slots, index, index.entries
      ensures Core()
      ensures ok <==> id in old(M()).orders
      ensures !ok ==> Sh() == old(Sh())
      ensures M() == old(M()).(orders := old(M()).orders - {id})
    {
      ghost var sh := Sh();
      LiveCount(sh);
      var found := index.Find(id);
      if found.None? {
        return false;
      }
      TakeOut(id, found.value);
      LeaveInModel(sh, id);
      return true;
    }

    /** Deleting succeeds exactly on a live order. */
    method Erase(e: MarketEvent) returns (r: Outcome)
      requires Valid() && e.DeleteEvent?
      modifies this, slots, index, index.entries
      ensures Valid()
      ensures r == if Accepts(old(M()), slots.Length, e) then Accepted else Rejected
      ensures r == Rejected ==> Sh() == old(Sh())
      ensures M() == Step(old(M()), slots.Length, e)
      ensures r == Accepted <==> e.orderId in old(M()).orders
      ensures M().orders == old(M()).orders - {e.orderId}
    {
      var ok := RemoveOrder(e.orderId);
      r := if ok then Accepted else Rejected;
    }

    // ---------------------------------------------------------------- execute and cancel

    /** The common body of `execute` and `cancel`. */
    method TakeShares(id: u64, shares: u32) returns (r: Outcome)
      requires Valid()
      modifies this, slots, index, index.entries
      ensures Valid()
      ensures r == if CanReduce(old(M()), id, shares) then Accepted else Rejected
      ensures r == Rejected ==> Sh() == old(Sh())
      ensures r == Accepted ==> M() == old(M()).(orders := Reduced(old(M()).orders, id, shares))
    {
      ghost var sh := Sh();
      CanReduceIff(sh, id, shares);
      var found := index.Find(id);
      if found.None? || shares == 0 {
        return Rejected;
      }
      var i := found.value;
      if shares > slots[i].order.quantity {
        return Rejected;
      }
      Lessen(id, i, shares);
      if slots[i].order.quantity == 0 {
        ReducedToNothing(sh, id, shares);
        var ok := RemoveOrder(id);
      } else {
        ReducedInPart(sh, id, shares);
      }
      return Accepted;
    }

    /** Takes the shares off the order and off its level's total. */
    method Lessen(id: u64, i: u32, shares: u32)
      requires Core() && CanLose(Sh(), id, shares) && i == index.contents[id]
      modifies this`books, slots
      ensures Core() && Sh() == Reduce(old(Sh()), id, shares)
      ensures i < slots.Length && slots[i].order.quantity == old(slots[i].order.quantity) - shares
    {
      ghost var sh := Sh();
      LiveOrder(sh, id);
      var k := KeyOf(slots[i].order);
      var level := LevelAt(books, k).value;
      books := PutLevel(books, k, level.(total := level.total - shares));
      slots[i] := slots[i].(order := slots[i].order.(quantity := slots[i].order.quantity - shares));
      assert slots[..] == sh.slots[i := LessenedSlot(sh.slots[i], shares)];
      ReduceKeepsConsistent(sh, id, shares);
    }

    /** An execution succeeds exactly for a positive number of shares that the live order still has. */
    method Execute(e: MarketEvent) returns (r: Outcome)
      requires Valid() && e.ExecuteEvent?
      modifies this, slots, index, index.entries
      ensures Valid()
      ensures r == if Accepts(old(M()), slots.Length, e) then Accepted else Rejected
      ensures r == Rejected ==> Sh() == old(Sh())
      ensures M() == Step(old(M()), slots.Length, e)
      ensures r == Accepted <==>
              e.orderId in old(M()).orders && 0 < e.executedShares <= old(M()).orders[e.orderId].order.quantity
      ensures r == Accepted ==>
                if e.executedShares == old(M()).orders[e.orderId].order.quantity then e.orderId !in M().orders
                else e.orderId in M().orders && M().orders[e.orderId].order.quantity
                                                == old(M()).orders[e.orderId].order.quantity - e.executedShares
    {
      r := TakeShares(e.orderId, e.executedShares);
    }

    /** So does a cancel. */
    method Cancel(e: MarketEvent) returns (r: Outcome)
      requires Valid() && e.CancelEvent?
      modifies this, slots, index, index.entries
      ensures Valid()
      ensures r == if Accepts(old(M()), slots.Length, e) then Accepted else Rejected
      ensures r == Rejected ==> Sh() == old(Sh())
      ensures M() == Step(old(M()), slots.Length, e)
      ensures r == Accepted <==>
              e.orderId in old(M()).orders && 0 < e.canceledShares <= old(M()).orders[e.orderId].order.quantity
      ensures r == Accepted ==>
                if e.canceledShares == old(M()).orders[e.orderId].order.quantity then e.orderId !in M().orders
                else e.orderId in M().orders && M().orders[e.orderId].order.quantity
                                                == old(M()).orders[e.orderId].order.quantity - e.canceledShares
    {
      r := TakeShares(e.orderId, e.canceledShares);
    }

    // ---------------------------------------------------------------- replace

    /** Cuts slot `i` out of the queue of `from`, gives it the order `o`, and links it at the tail of `to`. */
    method Relink(i: u32, o: Order, from: PriceLevel, to: PriceLevel,
                  ghost q: seq<u32>, ghost left: PriceLevel, ghost q': seq<u32>, same: bool)
      returns (from': PriceLevel, to': PriceLevel)
      requires i < slots.Length && slots[i].order.quantity <= from.total
      requires left.total + o.quantity <= U32_MAX
      requires CanReseat(slots[..], i, o, from, q, left, q')
      requires left == if same then CutLevel(from, slots[i]) else to
      modifies slots
      ensures slots[..] == Linked(Unlinked(old(slots[..]), i)[i := SlotFor(o)], left.tail, i)
      ensures from' == CutLevel(from, old(slots[..])[i])
      ensures to' == Joined(left, i, o.quantity)
    {
      OpenReseat(slots[..], i, o, from, q, left, q');
      var quantity := slots[i].order.quantity;
      from' := Unlink(from, i, q);
      from' := PriceLevel(from'.total - quantity, from'.head, from'.tail);
      slots[i] := slots[i].(order := o);
      assert slots[..] == Unlinked(old(slots[..]), i)[i := SlotFor(o)];
      to' := if same then from' else to;
      to' := PriceLevel(to'.total + o.quantity, to'.head, to'.tail);
      to' := LinkAtTail(to', i, q');
    }

    /** A replacement at the same price. `left` is the level without the old order, and `q'` its queue. */
    method ReplaceSame(id: u64, i: u32, o: Order, level: PriceLevel,
                       ghost left: PriceLevel, ghost q': seq<u32>, ghost queues': Queues)
      requires index.Valid() && index.entries.Length >= 2 * slots.Length > 0
      requires |index.contents| <= slots.Length == |prio|
      requires i < slots.Length && o.id !in index.contents && KeyOf(o) in queues
      requires slots[i].order.quantity <= level.total && left == CutLevel(level, slots[i])
      requires left.total + o.quantity <= U32_MAX
      requires CanReseat(slots[..], i, o, level, queues[KeyOf(o)], left, q')
      modifies this, slots, index, index.entries
      ensures index.Valid()
      ensures Sh() == Written(old(Sh()), id, i, o, left,
                              PutLevel(old(books), KeyOf(o), Joined(left, i, o.quantity)), queues')
    {
      var inserted := index.Insert(o.id, i);
      assert inserted;
      RelinkInPlace(i, o, level, left, q', queues');
      var _ := index.Erase(id);
    }

    /** The arena and the level maps when an order goes to the back of its own queue. */
    method RelinkInPlace(i: u32, o: Order, level: PriceLevel, ghost left: PriceLevel, ghost q': seq<u32>,
                         ghost queues': Queues)
      requires i < slots.Length == |prio| && KeyOf(o) in queues
      requires slots[i].order.quantity <= level.total && left == CutLevel(level, slots[i])
      requires left.total + o.quantity <= U32_MAX
      requires CanReseat(slots[..], i, o, level, queues[KeyOf(o)], left, q')
      modifies this`books, this`queues, this`prio, this`clock, slots
      ensures Sh() == Shape(Linked(Unlinked(old(slots[..]), i)[i := SlotFor(o)], left.tail, i),
                            freeHead, index.contents,
                            PutLevel(old(books), KeyOf(o), Joined(left, i, o.quantity)), free,
                            queues', old(prio)[i := old(clock)], old(clock) + 1)
    {
      var _, level' := Relink(i, o, level, level, queues[KeyOf(o)], left, q', true);
      books := PutLevel(books, KeyOf(o), level');
      queues, prio, clock := queues', prio[i := clock], clock + 1;
    }

    /** The writes to the level maps when an order moves to another price. */
    method MoveLevels(k: LevelKey, l: PriceLevel, k': LevelKey, l': PriceLevel)
      modifies this`books
      ensures books == MovedBooks(old(books), k, l, k', l')
    {
      if LevelAt(books, k').None? {
        books := PutLevel(books, k', EMPTY_LEVEL);
      }
      books := PutLevel(books, k, l);
      books := PutLevel(books, k', l');
      if l.head == INVALID_SLOT {
        books := DropLevel(books, k);
      }
    }

    /** A replacement at another price: the old level goes if it is left empty. */
    method ReplaceMoved(id: u64, i: u32, o: Order, k: LevelKey, from: PriceLevel, to: PriceLevel,
                        ghost left: PriceLevel, ghost q': seq<u32>, ghost queues': Queues)
      requires index.Valid() && index.entries.Length >= 2 * slots.Length > 0
      requires |index.contents| <= slots.Length == |prio|
      requires i < slots.Length && o.id !in index.contents && k in queues
      requires slots[i].order.quantity <= from.total && left == CutLevel(from, slots[i])
      requires to.total + o.quantity <= U32_MAX
      requires CanReseat(slots[..], i, o, from, queues[k], to, q')
      modifies this, slots, index, index.entries
      ensures index.Valid()
      ensures Sh() == Written(old(Sh()), id, i, o, to,
                              MovedBooks(old(books), k, left, KeyOf(o), Joined(to, i, o.quantity)), queues')
    {
      var inserted := index.Insert(o.id, i);
      assert inserted;
      RelinkAndMove(i, o, k, from, to, left, q', queues');
      var _ := index.Erase(id);
    }

    /** The arena and the level maps when an order moves to another price. */
    method RelinkAndMove(i: u32, o: Order, k: LevelKey, from: PriceLevel, to: PriceLevel,
                         ghost left: PriceLevel, ghost q': seq<u32>, ghost queues': Queues)
      requires i < slots.Length == |prio| && k in queues
      requires slots[i].order.quantity <= from.total && left == CutLevel(from, slots[i])
      requires to.total + o.quantity <= U32_MAX
      requires CanReseat(slots[..], i, o, from, queues[k], to, q')
      modifies this`books, this`queues, this`prio, this`clock, slots
      ensures Sh() == Shape(Linked(Unlinked(old(slots[..]), i)[i := SlotFor(o)], to.tail, i), freeHead, index.contents,
                            MovedBooks(old(books), k, left, KeyOf(o), Joined(to, i, o.quantity)), free,
                            queues', old(prio)[i := old(clock)], old(clock) + 1)
    {
      var from', to' := Relink(i, o, from, to, queues[k], to, q', false);
      MoveLevels(k, from', KeyOf(o), to');
      queues, prio, clock := queues', prio[i := clock], clock + 1;
    }

    /**
     Replacing either takes the old order out and lets the new one join with a new priority, even when
     the arena is full, or leaves the state as it was.
     */
    method Replace(e: MarketEvent, faults: Faults) returns (r: Outcome)
      requires Valid() && e.ReplaceEvent?
      modifies this, slots, index, index.entries
      ensures Valid()
      ensures r != Accepted ==> Sh() == old(Sh())
      ensures r == Faulted ==> faults.levelNode
      ensures r != Faulted ==> (r == Accepted <==> Accepts(old(M()), slots.Length, e))
      ensures r != Faulted ==> M() == Step(old(M()), slots.Length, e)
    {
      ghost var sh := Sh();
      var slot := Replaceable(e);
      if slot.None? {
        ReplaceRejected(sh, e);
        return Rejected;
      }
      r := Supplant(e.oldOrderId, slot.value, e.newOrderId, e.newQuantity, e.newPrice, faults);
      if r == Accepted {
        ReplaceStep(sh, e);
      } else if r == Rejected {
        ReplaceOverflows(sh, e);
      }
    }

    /** The first checks of `replace`: the slot of the old order, if both ids and the quantity will do. */
    method Replaceable(e: MarketEvent) returns (slot: Option<u32>)
      requires index.Valid() && e.ReplaceEvent?
      ensures slot.None? <==>
              || e.oldOrderId !in index.contents || e.newOrderId == 0 || e.newQuantity == 0
              || e.newOrderId in index.contents
      ensures slot.Some? ==> slot.value == index.contents[e.oldOrderId]
    {
      slot := index.Find(e.oldOrderId);
      if slot.None? || e.newOrderId == 0 || e.newQuantity == 0 {
        return None;
      }
      var taken := index.Find(e.newOrderId);
      if taken.Some? {
        return None;
      }
    }

    /** A live order gives way to a new one if the sum of the level that it goes to allows it. */
    method Supplant(id: u64, i: u32, newId: u64, quantity: u32, price: u32, faults: Faults) returns (r: Outcome)
      requires Core() && id in index.contents && i == index.contents[id] && newId !in index.contents
      modifies this, slots, index, index.entries
      ensures Core() && i < slots.Length && id in old(M()).orders
      ensures r == Faulted ==> faults.levelNode
      ensures r != Accepted ==> Sh() == old(Sh())
      ensures var o := Replacement(old(M()).orders[id].order, newId, quantity, price);
              && (r != Faulted ==>
                      (r == Accepted <==> LevelSum(old(M()).orders - {id}, KeyOf(o)) + quantity <= U32_MAX))
              && (r == Accepted ==>
                      M() == Model((old(M()).orders - {id})[newId := Resting(o, old(M()).clock)], old(M()).clock + 1))
    {
      ghost var sh := Sh();
      OrderInSlot(sh, id);
      ghost var o := Replacement(sh.slots[i].order, newId, quantity, price);
      FitsIff(sh, id, o);
      r := Substitute(id, i, newId, quantity, price, faults);
      if r == Accepted {
        ReplacedInModel(sh, id, o);
      }
    }

    /** The part of `replace` that works on the slot and its levels. */
    method Substitute(id: u64, i: u32, newId: u64, quantity: u32, price: u32, faults: Faults) returns (r: Outcome)
      requires Core() && id in index.contents && i == index.contents[id] && newId !in index.contents
      modifies this, slots, index, index.entries
      ensures index.Valid() && id in old(index.contents) && i < slots.Length
      ensures r == Faulted ==> faults.levelNode
      ensures r != Accepted ==> Sh() == old(Sh())
      ensures var o := Replacement(old(slots[..])[i].order, newId, quantity, price);
              && (r != Faulted ==> (r == Accepted <==> Fits(old(Sh()), id, o)))
              && (r == Accepted ==> Sh() == Replaced(old(Sh()), id, o))
    {
      ghost var sh := Sh();
      LiveOrder(sh, id);
      var old' := slots[i].order;
      var o := Replacement(old', newId, quantity, price);
      var k := KeyOf(old');
      var level := LevelAt(books, k).value;
      JoinedLevel(sh, id, KeyOf(o));
      if old'.price == price {
        if level.total - old'.quantity + quantity > U32_MAX {
          return Rejected;
        }
        ReseatReady(sh, id, o);
        SameAssembled(sh, id, o);
        ReplaceSame(id, i, o, level, LeftLevel(sh, id), QueueAt(Leave(sh, id).queues, k), Replaced(sh, id, o).queues);
        return Accepted;
      }
      if LevelAt(books, KeyOf(o)).None? && faults.levelNode {
        return Faulted;
      }
      var newLevel := LevelOrEmpty(books, KeyOf(o));
      if U32_MAX - newLevel.total < quantity {
        return Rejected;
      }
      ReseatReady(sh, id, o);
      MovedAssembled(sh, id, o);
      ReplaceMoved(id, i, o, k, level, newLevel, LeftLevel(sh, id), QueueAt(Leave(sh, id).queues, KeyOf(o)),
                   Replaced(sh, id, o).queues);
      return Accepted;
    }

    // ---------------------------------------------------------------- events

    /** One event: the outcome and the new model are exactly those of the model's step. */
    method Apply(e: MarketEvent) returns (ok: bool)
      requires Valid()
      modifies this, slots, index, index.entries
      ensures Valid()
      ensures ok <==> Accepts(old(M()), slots.Length, e)
      ensures !ok ==> Sh() == old(Sh())
      ensures M() == Step(old(M()), slots.Length, e)
    {
      var r: Outcome;
      match e {
        case AddEvent(_, _) => r := Add(e, NO_FAULTS);
        case ExecuteEvent(_, _, _, _, _, _, _) => r := Execute(e);
        case CancelEvent(_, _, _) => r := Cancel(e);
        case DeleteEvent(_, _) => r := Erase(e);
        case ReplaceEvent(_, _, _, _, _) => r := Replace(e, NO_FAULTS);
      }
      ok := r == Accepted;
    }

    // ---------------------------------------------------------------- queries

    method Find(id: u64) returns (r: Option<Order>)
      requires Valid()
      ensures r == if id in M().orders then Some(M().orders[id].order) else None
    {
      LiveCount(Sh());
      var slot := index.Find(id);
      if slot.None? {
        return None;
      }
      OrderInSlot(Sh(), id);
      return Some(slots[slot.value].order);
    }

    method LiveOrderCount() returns (n: nat)
      requires Valid()
      ensures n == |M().orders|
    {
      LiveCount(Sh());
      n := index.size;
    }

    /** The first key of the side's map, which is the model's best price. */
    method BestPrice(symbol: Symbol, side: Side) returns (r: Option<u32>)
      requires Valid()
      ensures r == Best(M().orders, symbol, side)
    {
      KeysAreListed(Sh(), symbol, side);
      var levels := BookAt(books, symbol).Side(side);
      if levels == map[] {
        return None;
      }
      var prices := SortBy(levels.Keys, PriceRank(side));
      return Some(prices[0]);
    }

    method BestBid(symbol: Symbol) returns (r: Option<u32>)
      requires Valid()
      ensures r == Best(M().orders, symbol, Buy)
    {
      r := BestPrice(symbol, Buy);
    }

    method BestAsk(symbol: Symbol) returns (r: Option<u32>)
      requires Valid()
      ensures r == Best(M().orders, symbol, Sell)
    {
      r := BestPrice(symbol, Sell);
    }

    /** Walks a level's list and collects the ids. */
    method WalkIds(head: u32, ghost tail: u32, ghost q: seq<u32>) returns (ids: seq<u64>)
      requires slots.Length < INVALID_SLOT && Chain(slots[..], q, head, tail)
      ensures ids == IdsOf(slots[..], q)
    {
      ids := [];
      var slot := head;
      ghost var n := 0;
      while slot != INVALID_SLOT
        invariant n <= |q| && slot == At(q, n)
        invariant ids == IdsOf(slots[..], q[..n])
        decreases |q| - n
      {
        assert slots[..][q[n]].next == At(q, n + 1);
        assert q[..n + 1][..n] == q[..n];
        ids := ids + [slots[slot].order.id];
        slot := slots[slot].next;
        n := n + 1;
      }
      assert q[..n] == q;
    }

    /** The part of the state that a walk over the book reads. */
    ghost predicate Shows(sh: Shape)
      reads this, slots
    {
      slots[..] == sh.slots && books == sh.books
    }

    /** The keys of a side's map in the map's own order. */
    method PricesInOrder(symbol: Symbol, side: Side, ghost v: seq<LevelView>, ghost sh: Shape)
        returns (ps: seq<u32>, size: nat)
      requires Shows(sh) && ShowsSide(sh, symbol, side, v)
      ensures PricesName(sh, symbol, side, ps, v) && size == |v|
    {
      LevelsNamed(sh, symbol, side, v);
      ps := SortBy(BookAt(books, symbol).Side(side).Keys, PriceRank(side));
      size := |BookAt(books, symbol).Side(side)|;
    }

    /** One side's levels, best price first, as snapshots of what the model shows there. */
    method SideLevels(symbol: Symbol, side: Side, ghost v: seq<LevelView>, ghost sh: Shape)
        returns (out: seq<LevelSnapshot>)
      requires Shows(sh) && ShowsSide(sh, symbol, side, v)
      ensures Snapshots(v, out)
    {
      var prices, _ := PricesInOrder(symbol, side, v, sh);
      out := [];
      for i := 0 to |prices|
        invariant Snapshots(v[..i], out)
      {
        var k := LevelKey(symbol, side, prices[i]);
        var snapshot := OneLevel(k, v[i], sh);
        out := out + [snapshot];
      }
      assert v[..|v|] == v;
    }

    /** The snapshot of one level. */
    method OneLevel(k: LevelKey, ghost v: LevelView, ghost sh: Shape) returns (r: LevelSnapshot)
      requires Shows(sh) && ShowsLevel(sh, k, v)
      ensures SnapshotOf(v, r)
    {
      LevelShown(sh, k, v);
      var level := LevelAt(books, k).value;
      var ids := WalkIds(level.head, level.tail, QueueAt(sh.queues, k));
      r := LevelSnapshot(k.price, level.total, ids);
      IdsOfQueued(slots[..], QueueAt(sh.queues, k));
    }

    method BidLevels(symbol: Symbol) returns (out: seq<LevelSnapshot>)
      requires Valid()
      ensures DistinctPriorities(M().orders) && Snapshots(ViewSide(M().orders, symbol, Buy), out)
    {
      SideShown(Sh(), symbol, Buy);
      out := SideLevels(symbol, Buy, ViewSide(M().orders, symbol, Buy), Sh());
    }

    method AskLevels(symbol: Symbol) returns (out: seq<LevelSnapshot>)
      requires Valid()
      ensures DistinctPriorities(M().orders) && Snapshots(ViewSide(M().orders, symbol, Sell), out)
    {
      SideShown(Sh(), symbol, Sell);
      out := SideLevels(symbol, Sell, ViewSide(M().orders, symbol, Sell), Sh());
    }

    // ---------------------------------------------------------------- hash

    method HashWalk(mix: Mixer, start: u64, head: u32, ghost tail: u32, ghost q: seq<u32>) returns (h: u64)
      requires slots.Length < INVALID_SLOT && Chain(slots[..], q, head, tail)
      ensures h == Fold(mix, start, QueueWords(QueuedIn(slots[..], q)))
    {
      h := start;
      var slot := head;
      ghost var n := 0;
      while slot != INVALID_SLOT
        invariant n <= |q| && slot == At(q, n)
        invariant h == Fold(mix, start, QueueWords(QueuedIn(slots[..], q[..n])))
        decreases |q| - n
      {
        assert slots[..][q[n]].next == At(q, n + 1);
        HashWalkStep(mix, start, slots[..], q, n);
        h := mix(h, slots[slot].order.id);
        h := mix(h, slots[slot].order.quantity);
        slot := slots[slot].next;
        n := n + 1;
      }
      assert q[..n] == q;
    }

    method HashOneLevel(mix: Mixer, start: u64, k: LevelKey, ghost v: LevelView, ghost sh: Shape) returns (h: u64)
      requires Shows(sh) && ShowsLevel(sh, k, v)
      ensures h == Fold(mix, start, LevelWords(v))
    {
      LevelShown(sh, k, v);
      LevelFold(mix, start, v);
      var level := LevelAt(books, k).value;
      h := mix(start, k.price);
      h := mix(h, level.total);
      h := HashWalk(mix, h, level.head, level.tail, QueueAt(sh.queues, k));
      h := mix(h, INVALID_SLOT);
    }

    method HashOneSide(mix: Mixer, start: u64, symbol: Symbol, side: Side, ghost v: seq<LevelView>, ghost sh: Shape)
        returns (h: u64)
      requires Shows(sh) && ShowsSide(sh, symbol, side, v)
      ensures h == Fold(mix, start, SideWords(side, v))
    {
      SideFold(mix, start, side, v);
      var prices, size := PricesInOrder(symbol, side, v, sh);
      h := mix(start, if side == Buy then 0 else 1);
      h := mix(h, size);
      ghost var from := h;
      for i := 0 to |prices|
        invariant h == Fold(mix, from, LevelsWords(v[..i]))
      {
        LevelsFoldStep(mix, from, v, i);
        h := HashOneLevel(mix, h, LevelKey(symbol, side, prices[i]), v[i], sh);
      }
      assert v[..|v|] == v;
    }

    method HashChars(mix: Mixer, start: u64, symbol: Symbol) returns (h: u64)
      ensures h == Fold(mix, start, symbol)
    {
      h := start;
      for i := 0 to 8
        invariant h == Fold(mix, start, symbol[..i])
      {
        PrefixFoldStep(mix, start, symbol, i);
        h := mix(h, symbol[i]);
      }
      assert symbol[..8] == symbol;
    }

    /** Mixes in the book of one symbol. */
    method HashOneSymbol(mix: Mixer, start: u64, symbol: Symbol, ghost v: SymbolView, ghost sh: Shape) returns (h: u64)
      requires Shows(sh) && ShowsSymbol(sh, symbol, v)
      ensures h == Fold(mix, start, SymbolWords(v))
    {
      SidesShown(sh, symbol, v);
      SymbolFold(mix, start, v);
      h := HashChars(mix, start, symbol);
      h := HashOneSide(mix, h, symbol, Buy, v.bids, sh);
      h := HashOneSide(mix, h, symbol, Sell, v.asks, sh);
    }

    method HashSymbolsOf(mix: Mixer, start: u64, symbols: seq<Symbol>, ghost v: seq<SymbolView>, ghost sh: Shape)
        returns (h: u64)
      requires Shows(sh) && SymbolsName(sh, symbols, v)
      ensures h == Fold(mix, start, SymbolsWords(v))
    {
      h := start;
      for i := 0 to |symbols|
        invariant h == Fold(mix, start, SymbolsWords(v[..i]))
      {
        h := HashNextSymbol(mix, h, symbols[i], i, start, v, sh);
      }
      assert v[..|v|] == v;
    }

    /** One turn of the loop over the symbols. */
    method HashNextSymbol(mix: Mixer, start: u64, symbol: Symbol, ghost i: nat, ghost from: u64,
                          ghost v: seq<SymbolView>, ghost sh: Shape)
        returns (h: u64)
      requires i < |v| && Shows(sh) && ShowsSymbol(sh, symbol, v[i])
      requires start == Fold(mix, from, SymbolsWords(v[..i]))
      ensures h == Fold(mix, from, SymbolsWords(v[..i + 1]))
    {
      SymbolsFoldStep(mix, from, v, i);
      h := HashOneSymbol(mix, start, symbol, v[i], sh);
    }

    /** The walk over all symbols, with any mixing function. */
    method HashAll(mix: Mixer) returns (h: u64)
      requires Valid()
      ensures DistinctPriorities(M().orders)
      ensures h == Fold(mix, HASH_SEED, Words(Observe(M().orders)))
    {
      SymbolsNamed(Sh());
      WordsFold(mix, HASH_SEED, Observe(M().orders));
      var symbols := SortBy(books.Keys, SymbolRank());
      h := mix(HASH_SEED, |books|);
      h := HashSymbolsOf(mix, h, symbols, Observe(M().orders), Sh());
    }

    /** The hash is the fold over what the book shows, whatever the slots, tombstones and history are. */
    method StateHash() returns (h: u64)
      requires Valid()
      ensures DistinctPriorities(M().orders)
      ensures h == HashView(Observe(M().orders))
    {
      h := HashAll(Mix);
    }
  }

  /** Construction is refused exactly for sizes that are zero or do not leave a slot number free for "no slot". */
  method NewBook(maxOrders: nat, hash: u64 -> u64) returns (r: Option<OrderBook>)
    ensures r.Some? <==> 0 < maxOrders < INVALID_SLOT
    ensures r.Some? ==> fresh(r.value) && r.value.Valid()
    ensures r.Some? ==> r.value.slots.Length == maxOrders && r.value.M() == EMPTY_MODEL
  {
    if maxOrders == 0 || maxOrders >= INVALID_SLOT {
      return None;
    }
    var book := new OrderBook(maxOrders, hash);
    return Some(book);
  }
}
