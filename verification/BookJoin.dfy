/** An order joins the queue of its level, in the slot at the head of the free list. */
module BookJoin {
  import opened Types
  import opened Ordered
  import opened BookModel
  import opened SlotLists
  import opened LevelMaps
  import opened BookState

  function Joined(l: PriceLevel, slot: u32, quantity: u32): PriceLevel
    requires l.total + quantity <= U32_MAX
  {
    PriceLevel(l.total + quantity, if l.tail == INVALID_SLOT then slot else l.head, slot)
  }

  /** The order fits: there is a free slot, the id is new, and the level's total stays in 32 bits. */
  ghost predicate CanJoin(sh: Shape, o: Order) {
    && sh.freeHead < |sh.slots|
    && o.id !in sh.index
    && LevelOrEmpty(sh.books, KeyOf(o)).total + o.quantity <= U32_MAX
  }

  function SlotFor(o: Order): Slot {
    Slot(o, INVALID_SLOT, INVALID_SLOT, INVALID_SLOT, true)
  }

  function JoinedSlots(s: seq<Slot>, slot: u32, o: Order, tail: u32): (r: seq<Slot>)
    requires slot < |s|
    ensures |r| == |s|
  {
    Linked(s[slot := SlotFor(o)], tail, slot)
  }

  ghost function Join(sh: Shape, o: Order): Shape
    requires Consistent(sh) && CanJoin(sh, o)
  {
    Open(sh);
    var slot, k := sh.freeHead, KeyOf(o);
    var l := LevelOrEmpty(sh.books, k);
    Shape(JoinedSlots(sh.slots, slot, o, l.tail),
          sh.slots[slot].nextFree,
          sh.index[o.id := slot],
          PutLevel(sh.books, k, Joined(l, slot, o.quantity)),
          if sh.free == [] then [] else sh.free[1..],
          sh.queues[k := QueueAt(sh.queues, k) + [slot]],
          sh.prio[slot := sh.clock],
          sh.clock + 1)
  }

  // ---------------------------------------------------------------- slots

  /**
   From `s` to `s'` the free slot `slot` was filled with `o`; the others kept their contents, and
   those outside the queue `q` also their links.
   */
  ghost predicate Placed(s: seq<Slot>, s': seq<Slot>, slot: u32, o: Order, q: seq<u32>) {
    && |s'| == |s| && slot < |s|
    && !s[slot].alive
    && s'[slot] == SlotFor(o).(prev := s'[slot].prev, next := s'[slot].next)
    && forall i {:trigger s'[i]} :: 0 <= i < |s| && i != slot ==>
         && s'[i] == s[i].(prev := s'[i].prev, next := s'[i].next)
         && (i !in q ==> s'[i] == s[i])
  }

  /** The slot to be filled is free, so no queue knows it. */
  lemma FreeSlotNotQueued(s: seq<Slot>, slot: u32, q: seq<u32>, k: LevelKey)
    requires slot < |s| && !s[slot].alive && Members(s, q, k)
    ensures slot !in q
  {
    assert forall j :: 0 <= j < |q| ==> s[q[j]].alive;
  }

  lemma HeadIsFree(s: seq<Slot>, head: u32, free: seq<u32>)
    requires FreeList(s, head, free) && head < |s| <= INVALID_SLOT
    ensures free != [] && free[0] == head && !s[head].alive
  {
    assert s[free[0]] == FRESH_SLOT.(nextFree := At(free, 1));
  }

  lemma JoinPlaces(s: seq<Slot>, slot: u32, o: Order, q: seq<u32>, k: LevelKey, head: u32, tail: u32)
    requires |s| <= INVALID_SLOT && slot < |s| && !s[slot].alive
    requires Chain(s, q, head, tail) && Members(s, q, k)
    ensures slot !in q && Chain(s[slot := SlotFor(o)], q, head, tail)
    ensures Placed(s, JoinedSlots(s, slot, o, tail), slot, o, q)
    ensures Chain(JoinedSlots(s, slot, o, tail), q + [slot], if tail == INVALID_SLOT then slot else head, slot)
  {
    var s1 := s[slot := SlotFor(o)];
    FreeSlotNotQueued(s, slot, q, k);
    assert Chain(s1, q, head, tail) by {
      assert forall j :: 0 <= j < |q| ==> q[j] in q && s1[q[j]] == s[q[j]];
    }
    LinkedFrame(s1, q, head, tail, slot);
    LinkedChain(s1, q, head, tail, slot);
    assert forall i: u32 :: i in q + [slot] ==> i in q || i == slot;
  }

  // ---------------------------------------------------------------- what is kept

  lemma PlacedFree(s: seq<Slot>, s': seq<Slot>, slot: u32, o: Order, q: seq<u32>, k: LevelKey, free: seq<u32>)
    requires |s| <= INVALID_SLOT && Placed(s, s', slot, o, q) && Members(s, q, k)
    requires FreeList(s, slot, free)
    ensures free != [] && FreeList(s', s[slot].nextFree, free[1..])
  {
    assert forall j :: 0 <= j < |q| ==> s[q[j]].alive;
    forall i | 0 <= i < |s| && i != slot && !s[i].alive ensures s'[i] == s[i] {
      assert i !in q;
    }
    FreeListPop(s, s', slot, free);
  }

  lemma PlacedIndex(s: seq<Slot>, s': seq<Slot>, slot: u32, o: Order, q: seq<u32>, index: map<u64, u32>)
    requires Placed(s, s', slot, o, q) && IndexOk(s, index) && o.id !in index
    ensures IndexOk(s', index[o.id := slot])
  {
  }

  lemma PlacedCovered(s: seq<Slot>, s': seq<Slot>, slot: u32, o: Order, q: seq<u32>, free: seq<u32>, queues: Queues)
    requires Placed(s, s', slot, o, q) && Covered(s, free, queues)
    requires q == QueueAt(queues, KeyOf(o)) && free != [] && free[0] == slot
    ensures Covered(s', free[1..], queues[KeyOf(o) := q + [slot]])
  {
    var k := KeyOf(o);
    forall i: u32 | i < |s'|
      ensures if s'[i].alive
              then KeyOf(s'[i].order) in queues[k := q + [slot]] && i in queues[k := q + [slot]][KeyOf(s'[i].order)]
              else i in free[1..]
    {
      if i == slot {
        assert (q + [slot])[|q|] == i;
      } else if s[i].alive {
        assert KeyOf(s[i].order) in queues && i in queues[KeyOf(s[i].order)];
      } else {
        assert i in free && free == [free[0]] + free[1..];
      }
    }
  }

  lemma PlacedPriority(s: seq<Slot>, s': seq<Slot>, slot: u32, o: Order, q: seq<u32>, prio: seq<nat>, clock: nat)
    requires Placed(s, s', slot, o, q) && PriorityOk(s, prio, clock)
    ensures PriorityOk(s', prio[slot := clock], clock + 1)
  {
  }

  lemma PlacedTotal(s: seq<Slot>, s': seq<Slot>, slot: u32, o: Order, q: seq<u32>)
    requires Placed(s, s', slot, o, q) && InRange(q, |s|) && slot !in q
    ensures QueueTotal(s', q + [slot]) == QueueTotal(s, q) + o.quantity
  {
    forall j | 0 <= j < |q| ensures QuantityAt(s', q[j]) == QuantityAt(s, q[j]) {
      assert q[j] in q;
    }
    QueueTotalFrame(s, s', q);
    assert (q + [slot])[..|q|] == q;
  }

  lemma PlacedMembers(s: seq<Slot>, s': seq<Slot>, slot: u32, o: Order, q: seq<u32>)
    requires Placed(s, s', slot, o, q) && Members(s, q, KeyOf(o)) && slot !in q
    ensures Members(s', q + [slot], KeyOf(o))
  {
    var r := q + [slot];
    forall j | 0 <= j < |r|
      ensures s'[r[j]].alive && s'[r[j]].nextFree == INVALID_SLOT && KeyOf(s'[r[j]].order) == KeyOf(o)
    {
      if j < |q| {
        assert r[j] == q[j] && q[j] in q && s[q[j]].alive;
      }
    }
  }

  lemma PlacedAscending(s: seq<Slot>, q: seq<u32>, k: LevelKey, slot: u32, prio: seq<nat>, clock: nat)
    requires Members(s, q, k) && PriorityOk(s, prio, clock) && Ascending(prio, q)
    requires slot < |s| && slot !in q
    ensures Ascending(prio[slot := clock], q + [slot])
  {
    assert forall j :: 0 <= j < |q| ==> q[j] in q && s[q[j]].alive && prio[q[j]] < clock;
  }

  lemma JoinKeepsBooks(books: Books, queues: Queues, k: LevelKey, l: PriceLevel, q: seq<u32>)
    requires BooksOk(books, queues)
    ensures BooksOk(PutLevel(books, k, l), queues[k := q])
  {
    PutLeavesNoBlankBook(books, k, l);
    forall k' ensures LevelAt(PutLevel(books, k, l), k').Some? <==> k' in queues[k := q] {
      LevelAtPut(books, k, l, k');
      assert LevelAt(books, k').Some? <==> k' in queues;
    }
  }

  lemma PlacedOtherQueues(s: seq<Slot>, s': seq<Slot>, slot: u32, o: Order, q: seq<u32>,
                          prio: seq<nat>, clock: nat, books: Books, queues: Queues, l: PriceLevel)
    requires Placed(s, s', slot, o, q) && Members(s, q, KeyOf(o)) && |prio| == |s|
    requires QueuesOk(s, prio, books, queues)
    ensures OthersOk(s', prio[slot := clock], PutLevel(books, KeyOf(o), l), queues, KeyOf(o))
  {
    var k := KeyOf(o);
    assert forall j :: 0 <= j < |q| ==> KeyOf(s[q[j]].order) == k;
    forall i | 0 <= i < |s| && s[i].alive && KeyOf(s[i].order) != k
      ensures s'[i] == s[i] && prio[slot := clock][i] == prio[i]
    {
      assert i !in q;
    }
    forall k' | k' != k ensures LevelAt(PutLevel(books, k, l), k') == LevelAt(books, k') {
      LevelAtPut(books, k, l, k');
    }
    OtherQueues(s, prio, books, queues, s', prio[slot := clock], PutLevel(books, k, l), k);
  }

  /** The facts about the slots that every part of the proof uses. */
  lemma JoinPlacesIn(sh: Shape, o: Order)
    requires Consistent(sh) && CanJoin(sh, o)
    ensures var sh', k := Join(sh, o), KeyOf(o);
            var q, l := QueueAt(sh.queues, k), LevelOrEmpty(sh.books, k);
            && sh.free != [] && sh.free[0] == sh.freeHead
            && |sh.slots| < INVALID_SLOT && |sh.prio| == |sh.slots|
            && Chain(sh.slots[sh.freeHead := SlotFor(o)], q, l.head, l.tail)
            && sh.freeHead !in q && Members(sh.slots, q, k) && Ascending(sh.prio, q)
            && QueueTotal(sh.slots, q) == l.total
            && Placed(sh.slots, sh'.slots, sh.freeHead, o, q)
            && Chain(sh'.slots, q + [sh.freeHead], Joined(l, sh.freeHead, o.quantity).head, sh.freeHead)
  {
    Open(sh);
    var k := KeyOf(o);
    var q, l := QueueAt(sh.queues, k), LevelOrEmpty(sh.books, k);
    QueueFacts(sh, k);
    HeadIsFree(sh.slots, sh.freeHead, sh.free);
    FreeSlotNotQueued(sh.slots, sh.freeHead, q, k);
    JoinPlaces(sh.slots, sh.freeHead, o, q, k, l.head, l.tail);
  }

  lemma PlacedOwnQueue(s: seq<Slot>, s': seq<Slot>, slot: u32, o: Order, q: seq<u32>, prio: seq<nat>, clock: nat,
                       l: PriceLevel)
    requires Placed(s, s', slot, o, q) && Members(s, q, KeyOf(o)) && slot !in q
    requires PriorityOk(s, prio, clock) && Ascending(prio, q)
    requires Chain(s', q + [slot], l.head, l.tail) && l.total == QueueTotal(s, q) + o.quantity
    ensures QueueOk(s', prio[slot := clock], Some(l), KeyOf(o), q + [slot])
  {
    PlacedTotal(s, s', slot, o, q);
    PlacedMembers(s, s', slot, o, q);
    PlacedAscending(s, q, KeyOf(o), slot, prio, clock);
  }

  lemma JoinKeepsQueues(sh: Shape, o: Order)
    requires Consistent(sh) && CanJoin(sh, o)
    ensures QueuesOk(Join(sh, o).slots, Join(sh, o).prio, Join(sh, o).books, Join(sh, o).queues)
  {
    Open(sh);
    var sh', k := Join(sh, o), KeyOf(o);
    var q := QueueAt(sh.queues, k);
    var l := Joined(LevelOrEmpty(sh.books, k), sh.freeHead, o.quantity);
    JoinPlacesIn(sh, o);
    assert OthersOk(sh'.slots, sh'.prio, sh'.books, sh.queues, k) by {
      PlacedOtherQueues(sh.slots, sh'.slots, sh.freeHead, o, q, sh.prio, sh.clock, sh.books, sh.queues, l);
    }
    assert OwnOk(sh'.slots, sh'.prio, sh'.books, sh'.queues, k) by {
      LevelAtPut(sh.books, k, l, k);
      PlacedOwnQueue(sh.slots, sh'.slots, sh.freeHead, o, q, sh.prio, sh.clock, l);
    }
    QueuesFromParts(sh'.slots, sh'.prio, sh'.books, sh.queues, sh'.queues, k);
  }

  /** Joining keeps the four structures consistent. */
  lemma JoinKeepsConsistent(sh: Shape, o: Order)
    requires Consistent(sh) && CanJoin(sh, o)
    ensures Consistent(Join(sh, o))
  {
    Open(sh);
    var sh', k := Join(sh, o), KeyOf(o);
    var q := QueueAt(sh.queues, k);
    JoinPlacesIn(sh, o);
    assert FreeList(sh'.slots, sh'.freeHead, sh'.free) by {
      PlacedFree(sh.slots, sh'.slots, sh.freeHead, o, q, k, sh.free);
    }
    assert IndexOk(sh'.slots, sh'.index) by {
      PlacedIndex(sh.slots, sh'.slots, sh.freeHead, o, q, sh.index);
    }
    assert Covered(sh'.slots, sh'.free, sh'.queues) by {
      PlacedCovered(sh.slots, sh'.slots, sh.freeHead, o, q, sh.free, sh.queues);
    }
    assert PriorityOk(sh'.slots, sh'.prio, sh'.clock) by {
      PlacedPriority(sh.slots, sh'.slots, sh.freeHead, o, q, sh.prio, sh.clock);
    }
    assert BooksOk(sh'.books, sh'.queues) by {
      JoinKeepsBooks(sh.books, sh.queues, k, Joined(LevelOrEmpty(sh.books, k), sh.freeHead, o.quantity),
                     q + [sh.freeHead]);
    }
    assert QueuesOk(sh'.slots, sh'.prio, sh'.books, sh'.queues) by {
      JoinKeepsQueues(sh, o);
    }
    CountPut(sh.index, o.id, sh.freeHead);
    assert Parts(sh');
  }

  lemma PlacedOrders(s: seq<Slot>, s': seq<Slot>, slot: u32, o: Order, q: seq<u32>, index: map<u64, u32>,
                     prio: seq<nat>, clock: nat)
    requires Placed(s, s', slot, o, q) && IndexOk(s, index) && o.id !in index && |prio| == |s|
    requires IndexOk(s', index[o.id := slot])
    ensures OrdersOf(s', index[o.id := slot], prio[slot := clock])
            == OrdersOf(s, index, prio)[o.id := Resting(o, clock)]
  {
  }

  /** In the model, the order joins with the current clock as its priority. */
  lemma JoinInModel(sh: Shape, o: Order)
    requires Consistent(sh) && CanJoin(sh, o)
    ensures Consistent(Join(sh, o))
    ensures ModelOf(Join(sh, o)) == Model(ModelOf(sh).orders[o.id := Resting(o, sh.clock)], sh.clock + 1)
  {
    JoinPlacesIn(sh, o);
    JoinKeepsConsistent(sh, o);
    Open(sh);
    Open(Join(sh, o));
    PlacedOrders(sh.slots, Join(sh, o).slots, sh.freeHead, o, QueueAt(sh.queues, KeyOf(o)), sh.index, sh.prio,
                 sh.clock);
  }
}
