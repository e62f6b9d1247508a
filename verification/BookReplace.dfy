/**
 Replacing an order in its slot gives the very state that removing it and adding the new one would
 give, so what is known of leaving and joining carries over (src/order_book.cpp:140-184).
 */
module BookReplace {
  import opened Types
  import opened BookModel
  import opened SlotLists
  import opened LevelMaps
  import opened BookState
  import opened BookJoin
  import opened BookLeave
  import opened BookAgreement

  /** An alive slot, cut out of its queue and given another order, is ready to be linked again. */
  lemma SlotReused(sh: Shape, id: u64, o: Order)
    requires Consistent(sh) && id in sh.index
    ensures sh.index[id] < |sh.slots|
    ensures var s := Unlinked(sh.slots, sh.index[id]);
            s[sh.index[id]].(order := o) == SlotFor(o)
  {
    LiveQueue(sh, id);
    UnlinkedSlot(sh.slots, sh.index[id], sh.index[id]);
  }

  /** The slots on which both ways meet. */
  lemma SlotsMeet(sh: Shape, id: u64, o: Order)
    requires Consistent(sh) && id in sh.index
    ensures sh.index[id] < |sh.slots|
    ensures Leave(sh, id).slots[sh.index[id] := SlotFor(o)]
            == Unlinked(sh.slots, sh.index[id])[sh.index[id] := SlotFor(o)]
  {
    LiveOrder(sh, id);
  }

  /** The level that the old order leaves, as `unlink` and the subtraction make it. */
  ghost function LeftLevel(sh: Shape, id: u64): PriceLevel
    requires Consistent(sh) && id in sh.index
  {
    LiveOrder(sh, id);
    CutLevel(LevelAt(sh.books, KeyOf(sh.slots[sh.index[id]].order)).value, sh.slots[sh.index[id]])
  }

  /** A level left with no order is blank. */
  lemma LeftLevelBlank(sh: Shape, id: u64)
    requires Consistent(sh) && id in sh.index
    ensures LeftLevel(sh, id).head == INVALID_SLOT ==> LeftLevel(sh, id) == EMPTY_LEVEL
  {
    LeaveRemovesIn(sh, id);
    var i := sh.index[id];
    var q := sh.queues[KeyOf(sh.slots[i].order)];
    QueueTotalCut(sh.slots, q, Place(q, i));
  }

  lemma SettledLevel(books: Books, k: LevelKey, l: PriceLevel, k': LevelKey)
    requires l.head == INVALID_SLOT ==> l == EMPTY_LEVEL
    ensures LevelOrEmpty(Settle(books, k, l), k') == if k' == k then l else LevelOrEmpty(books, k')
  {
    LevelAtPut(books, k, l, k');
    LevelAtDrop(books, k, k');
  }

  /** The level that the new order will join. */
  lemma JoinedLevel(sh: Shape, id: u64, k': LevelKey)
    requires Consistent(sh) && id in sh.index
    ensures sh.index[id] < |sh.slots|
    ensures LevelOrEmpty(Leave(sh, id).books, k')
            == if k' == KeyOf(sh.slots[sh.index[id]].order) then LeftLevel(sh, id) else LevelOrEmpty(sh.books, k')
  {
    LiveOrder(sh, id);
    LeftLevelBlank(sh, id);
    SettledLevel(sh.books, KeyOf(sh.slots[sh.index[id]].order), LeftLevel(sh, id), k');
  }

  /** At the same price, writing the level once is enough. */
  lemma BooksMeetSame(books: Books, k: LevelKey, l: PriceLevel, l': PriceLevel)
    ensures PutLevel(Settle(books, k, l), k, l') == PutLevel(books, k, l')
  {
    PutOverwritesDrop(books, k, l');
    PutOverwritesPut(books, k, l, l');
  }

  /** The level maps that a move to another price writes. */
  function MovedBooks(books: Books, k: LevelKey, l: PriceLevel, k': LevelKey, l': PriceLevel): Books {
    var b1 := if LevelAt(books, k').None? then PutLevel(books, k', EMPTY_LEVEL) else books;
    var b2 := PutLevel(PutLevel(b1, k, l), k', l');
    if l.head == INVALID_SLOT then DropLevel(b2, k) else b2
  }

  lemma BooksMeetMoved(books: Books, k: LevelKey, l: PriceLevel, k': LevelKey, l': PriceLevel)
    requires k != k' && k.symbol == k'.symbol && k.side == k'.side
    ensures MovedBooks(books, k, l, k', l') == PutLevel(Settle(books, k, l), k', l')
  {
    var b1 := if LevelAt(books, k').None? then PutLevel(books, k', EMPTY_LEVEL) else books;
    assert PutLevel(PutLevel(b1, k, l), k', l') == PutLevel(PutLevel(books, k, l), k', l') by {
      PutPutCommute(b1, k, l, k', l');
      PutOverwritesPut(books, k', EMPTY_LEVEL, l');
      PutPutCommute(books, k, l, k', l');
    }
    if l.head == INVALID_SLOT {
      assert DropLevel(PutLevel(PutLevel(books, k, l), k', l'), k) == PutLevel(DropLevel(books, k), k', l') by {
        PutPutCommute(books, k, l, k', l');
        DropOverwritesPut(PutLevel(books, k', l'), k, l);
        PutDropCommute(books, k, k', l');
      }
    }
  }

  /** Whether the new order fits into the level that it goes to. */
  ghost predicate Fits(sh: Shape, id: u64, o: Order)
    requires Consistent(sh) && id in sh.index
  {
    LevelOrEmpty(Leave(sh, id).books, KeyOf(o)).total + o.quantity <= U32_MAX
  }

  ghost function Replaced(sh: Shape, id: u64, o: Order): Shape
    requires Consistent(sh) && id in sh.index && o.id !in sh.index && Fits(sh, id, o)
  {
    LeaveKeepsConsistent(sh, id);
    LiveOrder(sh, id);
    Join(Leave(sh, id), o)
  }

  /** The index, the free list and the queues on which both ways meet. */
  lemma RestMeets(sh: Shape, id: u64, o: Order)
    requires Consistent(sh) && id in sh.index && o.id !in sh.index && Fits(sh, id, o)
    ensures sh.index[id] < |sh.slots| == |sh.prio|
    ensures var i, sh' := sh.index[id], Replaced(sh, id, o);
            && sh'.slots == Linked(Unlinked(sh.slots, i)[i := SlotFor(o)],
                                   LevelOrEmpty(Leave(sh, id).books, KeyOf(o)).tail, i)
            && sh'.freeHead == sh.freeHead
            && sh'.index == sh.index[o.id := i] - {id}
            && sh'.books == PutLevel(Leave(sh, id).books, KeyOf(o),
                                     Joined(LevelOrEmpty(Leave(sh, id).books, KeyOf(o)), i, o.quantity))
            && sh'.free == sh.free
            && sh'.prio == sh.prio[i := sh.clock]
            && sh'.clock == sh.clock + 1
  {
    LeaveKeepsConsistent(sh, id);
    LiveOrder(sh, id);
    LiveCount(sh);
    SlotsMeet(sh, id, o);
    assert ([sh.index[id]] + sh.free)[1..] == sh.free;
    assert (sh.index - {id})[o.id := sh.index[id]] == sh.index[o.id := sh.index[id]] - {id};
  }

  /** The queue that the new order joins, and the slot that is to be linked to it. */
  lemma ReadyToLink(sh: Shape, id: u64, o: Order)
    requires Consistent(sh) && id in sh.index && o.id !in sh.index && Fits(sh, id, o)
    ensures sh.index[id] < |sh.slots| < INVALID_SLOT
    ensures var i, left := sh.index[id], Leave(sh, id);
            var q, l := QueueAt(left.queues, KeyOf(o)), LevelOrEmpty(left.books, KeyOf(o));
            && i !in q && Chain(Unlinked(sh.slots, i)[i := SlotFor(o)], q, l.head, l.tail)
  {
    LeaveKeepsConsistent(sh, id);
    LiveOrder(sh, id);
    LiveCount(sh);
    SlotsMeet(sh, id, o);
    JoinPlacesIn(Leave(sh, id), o);
  }

  /** In the model, a replacement is the old order taken out and the new one joining. */
  lemma ReplacedInModel(sh: Shape, id: u64, o: Order)
    requires Consistent(sh) && id in sh.index && o.id !in sh.index && Fits(sh, id, o)
    ensures Consistent(Replaced(sh, id, o))
    ensures ModelOf(Replaced(sh, id, o))
            == Model((ModelOf(sh).orders - {id})[o.id := Resting(o, sh.clock)], sh.clock + 1)
  {
    LeaveInModel(sh, id);
    LiveOrder(sh, id);
    JoinInModel(Leave(sh, id), o);
  }

  /** Fitting is the model's condition on the sum of the level. */
  lemma FitsIff(sh: Shape, id: u64, o: Order)
    requires Consistent(sh) && id in sh.index
    ensures Fits(sh, id, o) <==> LevelSum(ModelOf(sh).orders - {id}, KeyOf(o)) + o.quantity <= U32_MAX
  {
    LeaveInModel(sh, id);
    TotalIsLevelSum(Leave(sh, id), KeyOf(o));
  }

  /** What the arena must offer before slot `i` is cut from the level `from` and linked to the level `to`. */
  ghost predicate Reseatable(s: seq<Slot>, i: u32, o: Order, from: PriceLevel, q: seq<u32>, to: PriceLevel,
                             q': seq<u32>) {
    && i < |s| < INVALID_SLOT
    && i in q && Chain(s, q, from.head, from.tail)
    && s[i].order.quantity <= from.total && to.total + o.quantity <= U32_MAX
    && Unlinked(s, i)[i].(order := o) == SlotFor(o)
    && i !in q' && Chain(Unlinked(s, i)[i := SlotFor(o)], q', to.head, to.tail)
  }

  /** The same, said of an equal copy so that a proof meets its parts only where it asks for them. */
  ghost predicate CanReseat(s: seq<Slot>, i: u32, o: Order, from: PriceLevel, q: seq<u32>, to: PriceLevel,
                            q': seq<u32>) {
    forall copy {:trigger Reseatable(copy, i, o, from, q, to, q')} :: copy == s ==>
        Reseatable(copy, i, o, from, q, to, q')
  }

  lemma OpenReseat(s: seq<Slot>, i: u32, o: Order, from: PriceLevel, q: seq<u32>, to: PriceLevel, q': seq<u32>)
    requires CanReseat(s, i, o, from, q, to, q')
    ensures Reseatable(s, i, o, from, q, to, q')
  {
  }

  lemma ReseatReady(sh: Shape, id: u64, o: Order)
    requires Consistent(sh) && id in sh.index && o.id !in sh.index && Fits(sh, id, o)
    ensures sh.index[id] < |sh.slots| == |sh.prio| && |sh.index| <= |sh.slots|
    ensures var i := sh.index[id];
            var k := KeyOf(sh.slots[i].order);
            && k in sh.queues && LevelAt(sh.books, k).Some?
            && sh.slots[i].order.quantity <= LevelAt(sh.books, k).value.total
            && CanReseat(sh.slots, i, o, LevelAt(sh.books, k).value, sh.queues[k],
                         LevelOrEmpty(Leave(sh, id).books, KeyOf(o)), QueueAt(Leave(sh, id).queues, KeyOf(o)))
  {
    LiveOrder(sh, id);
    LiveQueue(sh, id);
    LiveCount(sh);
    SlotReused(sh, id, o);
    ReadyToLink(sh, id, o);
    var i := sh.index[id];
    var k := KeyOf(sh.slots[i].order);
    assert Reseatable(sh.slots, i, o, LevelAt(sh.books, k).value, sh.queues[k],
                      LevelOrEmpty(Leave(sh, id).books, KeyOf(o)), QueueAt(Leave(sh, id).queues, KeyOf(o)));
  }

  /** The state that the writes of a replacement amount to. */
  ghost function Written(sh: Shape, id: u64, i: u32, o: Order, to: PriceLevel, books: Books, queues: Queues): Shape
    requires i < |sh.slots| == |sh.prio|
  {
    Shape(Linked(Unlinked(sh.slots, i)[i := SlotFor(o)], to.tail, i), sh.freeHead, sh.index[o.id := i] - {id},
          books, sh.free, queues, sh.prio[i := sh.clock], sh.clock + 1)
  }

  /** The writes of a replacement at the same price amount to the replaced state. */
  lemma SameAssembled(sh: Shape, id: u64, o: Order)
    requires Consistent(sh) && id in sh.index && o.id !in sh.index && Fits(sh, id, o)
    requires sh.index[id] < |sh.slots| == |sh.prio| && KeyOf(o) == KeyOf(sh.slots[sh.index[id]].order)
    ensures var i, l := sh.index[id], LeftLevel(sh, id);
            && LevelOrEmpty(Leave(sh, id).books, KeyOf(o)) == l && l.total + o.quantity <= U32_MAX
            && Replaced(sh, id, o) == Written(sh, id, i, o, l, PutLevel(sh.books, KeyOf(o), Joined(l, i, o.quantity)),
                                              Replaced(sh, id, o).queues)
  {
    JoinedLevel(sh, id, KeyOf(o));
    RestMeets(sh, id, o);
    BooksMeetSame(sh.books, KeyOf(o), LeftLevel(sh, id), Joined(LeftLevel(sh, id), sh.index[id], o.quantity));
  }

  /** The writes of a replacement at another price amount to the replaced state. */
  lemma MovedAssembled(sh: Shape, id: u64, o: Order)
    requires Consistent(sh) && id in sh.index && o.id !in sh.index && Fits(sh, id, o)
    requires sh.index[id] < |sh.slots| == |sh.prio|
    requires var old' := sh.slots[sh.index[id]].order;
             o.symbol == old'.symbol && o.side == old'.side && o.price != old'.price
    ensures var i, l := sh.index[id], LevelOrEmpty(sh.books, KeyOf(o));
            && LevelOrEmpty(Leave(sh, id).books, KeyOf(o)) == l && l.total + o.quantity <= U32_MAX
            && Replaced(sh, id, o)
               == Written(sh, id, i, o, l,
                          MovedBooks(sh.books, KeyOf(sh.slots[i].order), LeftLevel(sh, id), KeyOf(o),
                                     Joined(l, i, o.quantity)),
                          Replaced(sh, id, o).queues)
  {
    var i, l := sh.index[id], LevelOrEmpty(sh.books, KeyOf(o));
    JoinedLevel(sh, id, KeyOf(o));
    RestMeets(sh, id, o);
    BooksMeetMoved(sh.books, KeyOf(sh.slots[i].order), LeftLevel(sh, id), KeyOf(o), Joined(l, i, o.quantity));
  }
}
