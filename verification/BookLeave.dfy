/** An order leaves its queue, its level goes if it is left empty, and its slot returns to the free list. */
module BookLeave {
  import opened Types
  import opened Ordered
  import opened BookModel
  import opened SlotLists
  import opened LevelMaps
  import opened BookState

  /** A level after the order in `slot` is cut out of its queue. */
  function CutLevel(l: PriceLevel, slot: Slot): PriceLevel
    requires slot.order.quantity <= l.total
  {
    PriceLevel(l.total - slot.order.quantity,
               if slot.prev == INVALID_SLOT then slot.next else l.head,
               if slot.next == INVALID_SLOT then slot.prev else l.tail)
  }

  function LeftSlots(s: seq<Slot>, slot: u32, freeHead: u32): (r: seq<Slot>)
    requires slot < |s|
    ensures |r| == |s|
  {
    Unlinked(s, slot)[slot := FRESH_SLOT.(nextFree := freeHead)]
  }

  /** A level whose queue is empty is erased. */
  function Settle(books: Books, k: LevelKey, l: PriceLevel): Books {
    if l.head == INVALID_SLOT then DropLevel(books, k) else PutLevel(books, k, l)
  }

  ghost function Place(q: seq<u32>, slot: u32): (j: nat)
    requires slot in q
    ensures j < |q| && q[j] == slot
  {
    var j :| 0 <= j < |q| && q[j] == slot;
    j
  }

  ghost function CutQueue(queues: Queues, k: LevelKey, slot: u32): Queues
    requires k in queues && slot in queues[k]
  {
    var r := CutAt(queues[k], Place(queues[k], slot));
    if r == [] then queues - {k} else queues[k := r]
  }

  /** Where a live order stands. */
  lemma LiveOrder(sh: Shape, id: u64)
    requires Consistent(sh) && id in sh.index
    ensures sh.index[id] < |sh.slots|
    ensures var slot := sh.slots[sh.index[id]];
            var k := KeyOf(slot.order);
            && slot.alive && slot.order.id == id
            && k in sh.queues && sh.index[id] in sh.queues[k]
            && LevelAt(sh.books, k).Some?
            && slot.order.quantity <= LevelAt(sh.books, k).value.total
  {
    Open(sh);
    LiveQueue(sh, id);
    var i := sh.index[id];
    var q := sh.queues[KeyOf(sh.slots[i].order)];
    QueueTotalCut(sh.slots, q, Place(q, i));
  }

  /** A live order stands in a well-kept queue. */
  lemma LiveQueue(sh: Shape, id: u64)
    requires Consistent(sh) && id in sh.index
    ensures sh.index[id] < |sh.slots|
    ensures var i := sh.index[id];
            var k := KeyOf(sh.slots[i].order);
            && sh.slots[i].alive && sh.slots[i].nextFree == INVALID_SLOT
            && k in sh.queues && i in sh.queues[k]
            && QueueOk(sh.slots, sh.prio, LevelAt(sh.books, k), k, sh.queues[k])
  {
    Open(sh);
    var i := sh.index[id];
    var k := KeyOf(sh.slots[i].order);
    assert k in sh.queues && i in sh.queues[k];
    assert QueueOk(sh.slots, sh.prio, LevelAt(sh.books, k), k, sh.queues[k]);
    assert sh.slots[sh.queues[k][Place(sh.queues[k], i)]].nextFree == INVALID_SLOT;
  }

  ghost function Leave(sh: Shape, id: u64): Shape
    requires Consistent(sh) && id in sh.index
  {
    LiveOrder(sh, id);
    var slot := sh.index[id];
    var k := KeyOf(sh.slots[slot].order);
    Shape(LeftSlots(sh.slots, slot, sh.freeHead),
          slot,
          sh.index - {id},
          Settle(sh.books, k, CutLevel(LevelAt(sh.books, k).value, sh.slots[slot])),
          [slot] + sh.free,
          CutQueue(sh.queues, k, slot),
          sh.prio,
          sh.clock)
  }

  // ---------------------------------------------------------------- slots

  /** From `s` to `s'` the slot was emptied; the others kept their contents, outside `q` also their links. */
  ghost predicate Removed(s: seq<Slot>, s': seq<Slot>, slot: u32, freeHead: u32, q: seq<u32>) {
    && |s'| == |s| && slot < |s|
    && s[slot].alive && slot in q
    && s'[slot] == FRESH_SLOT.(nextFree := freeHead)
    && forall i {:trigger s'[i]} :: 0 <= i < |s| && i != slot ==>
         && s'[i] == s[i].(prev := s'[i].prev, next := s'[i].next)
         && (i !in q ==> s'[i] == s[i])
  }

  lemma LeaveRemoves(s: seq<Slot>, q: seq<u32>, k: LevelKey, head: u32, tail: u32, j: nat, freeHead: u32)
    requires |s| <= INVALID_SLOT && Chain(s, q, head, tail) && Members(s, q, k) && j < |q|
    ensures q[j] < |s| && Removed(s, LeftSlots(s, q[j], freeHead), q[j], freeHead, q)
  {
    UnlinkedFrame(s, q, head, tail, j);
    assert s[q[j]].alive && q[j] in q;
  }

  lemma LeftChain(s: seq<Slot>, q: seq<u32>, head: u32, tail: u32, j: nat, freeHead: u32)
    requires |s| <= INVALID_SLOT && Chain(s, q, head, tail) && j < |q|
    ensures q[j] < |s|
    ensures Chain(LeftSlots(s, q[j], freeHead), CutAt(q, j),
                  if s[q[j]].prev == INVALID_SLOT then s[q[j]].next else head,
                  if s[q[j]].next == INVALID_SLOT then s[q[j]].prev else tail)
  {
    var r := CutAt(q, j);
    ChainEnds(s, q, head, tail, j);
    UnlinkedChain(s, q, head, tail, j);
    forall i | 0 <= i < |r| ensures LeftSlots(s, q[j], freeHead)[r[i]] == Unlinked(s, q[j])[r[i]] {
      CutAtMembers(q, j);
      assert r[i] in r;
    }
    ChainFrame(Unlinked(s, q[j]), LeftSlots(s, q[j], freeHead), r,
               if j == 0 then s[q[j]].next else head, if j == |q| - 1 then s[q[j]].prev else tail);
  }

  // ---------------------------------------------------------------- what is kept

  lemma RemovedFree(s: seq<Slot>, s': seq<Slot>, slot: u32, head: u32, q: seq<u32>, k: LevelKey, free: seq<u32>)
    requires Removed(s, s', slot, head, q) && Members(s, q, k) && FreeList(s, head, free)
    ensures FreeList(s', slot, [slot] + free)
  {
    assert forall j :: 0 <= j < |q| ==> s[q[j]].alive;
    forall i | 0 <= i < |s| && !s[i].alive ensures s'[i] == s[i] {
      assert i !in q;
    }
    FreeListPush(s, s', head, free, slot);
  }

  lemma RemovedIndex(s: seq<Slot>, s': seq<Slot>, slot: u32, head: u32, q: seq<u32>, index: map<u64, u32>, id: u64)
    requires Removed(s, s', slot, head, q) && IndexOk(s, index) && id in index && index[id] == slot
    ensures IndexOk(s', index - {id})
  {
  }

  lemma RemovedCovered(s: seq<Slot>, s': seq<Slot>, slot: u32, head: u32, free: seq<u32>, queues: Queues, k: LevelKey)
    requires k in queues && Distinct(queues[k])
    requires Removed(s, s', slot, head, queues[k]) && Covered(s, free, queues)
    requires KeyOf(s[slot].order) == k
    ensures Covered(s', [slot] + free, CutQueue(queues, k, slot))
  {
    var q := queues[k];
    var j := Place(q, slot);
    CutAtMembers(q, j);
    forall i: u32 | i < |s'|
      ensures if s'[i].alive then
                KeyOf(s'[i].order) in CutQueue(queues, k, slot) && i in CutQueue(queues, k, slot)[KeyOf(s'[i].order)]
              else i in [slot] + free
    {
      if i != slot {
        assert s[i].alive ==> KeyOf(s[i].order) in queues && i in queues[KeyOf(s[i].order)];
      }
    }
  }

  lemma RemovedPriority(s: seq<Slot>, s': seq<Slot>, slot: u32, head: u32, q: seq<u32>, prio: seq<nat>, clock: nat)
    requires Removed(s, s', slot, head, q) && PriorityOk(s, prio, clock)
    ensures PriorityOk(s', prio, clock)
  {
    assert forall i :: 0 <= i < |s| && s'[i].alive ==> s[i].alive;
  }

  lemma LeaveKeepsBooks(books: Books, queues: Queues, k: LevelKey, l: PriceLevel, slot: u32)
    requires BooksOk(books, queues) && k in queues && slot in queues[k]
    requires l.head == INVALID_SLOT <==> CutAt(queues[k], Place(queues[k], slot)) == []
    ensures BooksOk(Settle(books, k, l), CutQueue(queues, k, slot))
  {
    PutLeavesNoBlankBook(books, k, l);
    DropLeavesNoBlankBook(books, k);
    forall k' ensures LevelAt(Settle(books, k, l), k').Some? <==> k' in CutQueue(queues, k, slot) {
      LevelAtPut(books, k, l, k');
      LevelAtDrop(books, k, k');
      assert LevelAt(books, k').Some? <==> k' in queues;
    }
  }

  lemma {:induction false} QueueTotalCut(s: seq<Slot>, q: seq<u32>, j: nat)
    requires j < |q|
    ensures QueueTotal(s, q) == QueueTotal(s, CutAt(q, j)) + QuantityAt(s, q[j])
  {
    var n := |q| - 1;
    if j == n {
      assert CutAt(q, j) == q[..n];
    } else {
      QueueTotalCut(s, q[..n], j);
      assert CutAt(q, j) == CutAt(q[..n], j) + [q[n]];
      assert CutAt(q, j)[..n - 1] == CutAt(q[..n], j);
    }
  }

  lemma RemovedTotal(s: seq<Slot>, s': seq<Slot>, head: u32, q: seq<u32>, j: nat)
    requires j < |q| && Distinct(q) && InRange(q, |s|) && Removed(s, s', q[j], head, q)
    ensures QueueTotal(s', CutAt(q, j)) == QueueTotal(s, q) - s[q[j]].order.quantity
  {
    var r := CutAt(q, j);
    CutAtMembers(q, j);
    forall i | 0 <= i < |r| ensures QuantityAt(s', r[i]) == QuantityAt(s, r[i]) {
      assert r[i] in r;
    }
    QueueTotalFrame(s, s', r);
    QueueTotalCut(s, q, j);
  }

  lemma RemovedMembers(s: seq<Slot>, s': seq<Slot>, head: u32, q: seq<u32>, j: nat, k: LevelKey)
    requires j < |q| && Distinct(q) && Members(s, q, k) && Removed(s, s', q[j], head, q)
    ensures Members(s', CutAt(q, j), k)
  {
    var r := CutAt(q, j);
    CutAtMembers(q, j);
    forall i | 0 <= i < |r|
      ensures r[i] < |s'| && s'[r[i]].alive && s'[r[i]].nextFree == INVALID_SLOT && KeyOf(s'[r[i]].order) == k
    {
      assert r[i] in r;
      var a := if i < j then i else i + 1;
      assert r[i] == q[a] && s[q[a]].alive;
    }
  }

  lemma CutAscending(prio: seq<nat>, q: seq<u32>, j: nat)
    requires j < |q| && Ascending(prio, q)
    ensures Ascending(prio, CutAt(q, j))
  {
  }

  lemma RemovedOwnQueue(s: seq<Slot>, s': seq<Slot>, head: u32, prio: seq<nat>, q: seq<u32>, j: nat, k: LevelKey,
                        l: PriceLevel)
    requires j < |q| && Distinct(q) && Members(s, q, k) && Removed(s, s', q[j], head, q) && Ascending(prio, q)
    requires CutAt(q, j) != [] && Chain(s', CutAt(q, j), l.head, l.tail)
    requires l.total == QueueTotal(s, q) - s[q[j]].order.quantity
    ensures QueueOk(s', prio, Some(l), k, CutAt(q, j))
  {
    RemovedTotal(s, s', head, q, j);
    RemovedMembers(s, s', head, q, j, k);
    CutAscending(prio, q, j);
  }

  lemma RemovedOtherQueues(s: seq<Slot>, s': seq<Slot>, slot: u32, head: u32, q: seq<u32>, k: LevelKey,
                           prio: seq<nat>, books: Books, queues: Queues, l: PriceLevel)
    requires Removed(s, s', slot, head, q) && Members(s, q, k) && |prio| == |s| && KeyOf(s[slot].order) == k
    requires QueuesOk(s, prio, books, queues)
    ensures OthersOk(s', prio, Settle(books, k, l), queues, k)
  {
    assert forall j :: 0 <= j < |q| ==> KeyOf(s[q[j]].order) == k;
    forall i | 0 <= i < |s| && s[i].alive && KeyOf(s[i].order) != k ensures s'[i] == s[i] {
      assert i !in q;
    }
    forall k' | k' != k ensures LevelAt(Settle(books, k, l), k') == LevelAt(books, k') {
      LevelAtPut(books, k, l, k');
      LevelAtDrop(books, k, k');
    }
    OtherQueues(s, prio, books, queues, s', prio, Settle(books, k, l), k);
  }

  /** The facts about the slots that every part of the proof uses. */
  lemma LeaveRemovesIn(sh: Shape, id: u64)
    requires Consistent(sh) && id in sh.index
    ensures sh.index[id] < |sh.slots|
    ensures var sh', slot := Leave(sh, id), sh.index[id];
            var k := KeyOf(sh.slots[slot].order);
            && k in sh.queues && slot in sh.queues[k]
            && LevelAt(sh.books, k).Some? && sh.slots[slot].order.quantity <= LevelAt(sh.books, k).value.total
            && var q, l := sh.queues[k], CutLevel(LevelAt(sh.books, k).value, sh.slots[slot]);
            && Distinct(q) && Members(sh.slots, q, k) && Ascending(sh.prio, q)
            && QueueTotal(sh.slots, q) == LevelAt(sh.books, k).value.total
            && Removed(sh.slots, sh'.slots, slot, sh.freeHead, q)
            && Chain(sh'.slots, CutAt(q, Place(q, slot)), l.head, l.tail)
            && (l.head == INVALID_SLOT <==> CutAt(q, Place(q, slot)) == [])
  {
    Open(sh);
    LiveOrder(sh, id);
    LiveQueue(sh, id);
    var slot := sh.index[id];
    var k := KeyOf(sh.slots[slot].order);
    var q, l := sh.queues[k], LevelAt(sh.books, k).value;
    LeaveRemoves(sh.slots, q, k, l.head, l.tail, Place(q, slot), sh.freeHead);
    LeftChain(sh.slots, q, l.head, l.tail, Place(q, slot), sh.freeHead);
    var r := CutAt(q, Place(q, slot));
    assert r != [] ==> r[0] < |sh.slots|;
  }

  lemma RemovedOwnOk(s: seq<Slot>, s': seq<Slot>, head: u32, prio: seq<nat>, books: Books, queues: Queues,
                     k: LevelKey, slot: u32, l: PriceLevel)
    requires k in queues && slot in queues[k] && Distinct(queues[k]) && Members(s, queues[k], k)
             && Ascending(prio, queues[k])
    requires Removed(s, s', slot, head, queues[k])
    requires l.total == QueueTotal(s, queues[k]) - s[slot].order.quantity
    requires Chain(s', CutAt(queues[k], Place(queues[k], slot)), l.head, l.tail)
    requires l.head == INVALID_SLOT <==> CutAt(queues[k], Place(queues[k], slot)) == []
    ensures OwnOk(s', prio, Settle(books, k, l), CutQueue(queues, k, slot), k)
  {
    if CutAt(queues[k], Place(queues[k], slot)) != [] {
      LevelAtPut(books, k, l, k);
      RemovedOwnQueue(s, s', head, prio, queues[k], Place(queues[k], slot), k, l);
    }
  }

  lemma RemovedQueues(s: seq<Slot>, s': seq<Slot>, head: u32, prio: seq<nat>, books: Books, queues: Queues,
                      k: LevelKey, slot: u32, l: PriceLevel)
    requires QueuesOk(s, prio, books, queues) && |prio| == |s|
    requires k in queues && slot in queues[k] && Distinct(queues[k]) && Members(s, queues[k], k)
             && Ascending(prio, queues[k])
    requires Removed(s, s', slot, head, queues[k])
    requires l.total == QueueTotal(s, queues[k]) - s[slot].order.quantity
    requires Chain(s', CutAt(queues[k], Place(queues[k], slot)), l.head, l.tail)
    requires l.head == INVALID_SLOT <==> CutAt(queues[k], Place(queues[k], slot)) == []
    ensures QueuesOk(s', prio, Settle(books, k, l), CutQueue(queues, k, slot))
  {
    var q := queues[k];
    var j := Place(q, slot);
    assert OthersOk(s', prio, Settle(books, k, l), queues, k) by {
      assert KeyOf(s[q[j]].order) == k;
      RemovedOtherQueues(s, s', slot, head, q, k, prio, books, queues, l);
    }
    assert OwnOk(s', prio, Settle(books, k, l), CutQueue(queues, k, slot), k) by {
      RemovedOwnOk(s, s', head, prio, books, queues, k, slot, l);
    }
    QueuesFromParts(s', prio, Settle(books, k, l), queues, CutQueue(queues, k, slot), k);
  }

  lemma LeaveKeepsQueues(sh: Shape, id: u64)
    requires Consistent(sh) && id in sh.index
    ensures QueuesOk(Leave(sh, id).slots, Leave(sh, id).prio, Leave(sh, id).books, Leave(sh, id).queues)
  {
    Open(sh);
    LeaveRemovesIn(sh, id);
    var slot := sh.index[id];
    var k := KeyOf(sh.slots[slot].order);
    RemovedQueues(sh.slots, Leave(sh, id).slots, sh.freeHead, sh.prio, sh.books, sh.queues, k, slot,
                  CutLevel(LevelAt(sh.books, k).value, sh.slots[slot]));
  }

  /** Leaving keeps the four structures consistent. */
  lemma LeaveKeepsConsistent(sh: Shape, id: u64)
    requires Consistent(sh) && id in sh.index
    ensures Consistent(Leave(sh, id))
  {
    Open(sh);
    LeaveRemovesIn(sh, id);
    var sh', slot := Leave(sh, id), sh.index[id];
    var k := KeyOf(sh.slots[slot].order);
    var q, l := sh.queues[k], CutLevel(LevelAt(sh.books, k).value, sh.slots[slot]);
    assert FreeList(sh'.slots, sh'.freeHead, sh'.free) by {
      RemovedFree(sh.slots, sh'.slots, slot, sh.freeHead, q, k, sh.free);
    }
    assert IndexOk(sh'.slots, sh'.index) by {
      RemovedIndex(sh.slots, sh'.slots, slot, sh.freeHead, q, sh.index, id);
    }
    assert Covered(sh'.slots, sh'.free, sh'.queues) by {
      RemovedCovered(sh.slots, sh'.slots, slot, sh.freeHead, sh.free, sh.queues, k);
    }
    assert PriorityOk(sh'.slots, sh'.prio, sh'.clock) by {
      RemovedPriority(sh.slots, sh'.slots, slot, sh.freeHead, q, sh.prio, sh.clock);
    }
    assert BooksOk(sh'.books, sh'.queues) by {
      LeaveKeepsBooks(sh.books, sh.queues, k, l, slot);
    }
    assert QueuesOk(sh'.slots, sh'.prio, sh'.books, sh'.queues) by {
      LeaveKeepsQueues(sh, id);
    }
    CountWithout(sh.index, id);
    assert Parts(sh');
  }

  lemma RemovedOrders(s: seq<Slot>, s': seq<Slot>, slot: u32, head: u32, q: seq<u32>, index: map<u64, u32>, id: u64,
                      prio: seq<nat>)
    requires Removed(s, s', slot, head, q) && IndexOk(s, index) && id in index && index[id] == slot && |prio| == |s|
    requires IndexOk(s', index - {id})
    ensures OrdersOf(s', index - {id}, prio) == OrdersOf(s, index, prio) - {id}
  {
  }

  /** In the model, the order is gone and nothing else has changed. */
  lemma LeaveInModel(sh: Shape, id: u64)
    requires Consistent(sh) && id in sh.index
    ensures Consistent(Leave(sh, id))
    ensures ModelOf(Leave(sh, id)) == ModelOf(sh).(orders := ModelOf(sh).orders - {id})
  {
    LeaveRemovesIn(sh, id);
    LeaveKeepsConsistent(sh, id);
    Open(sh);
    Open(Leave(sh, id));
    var slot := sh.index[id];
    RemovedOrders(sh.slots, Leave(sh, id).slots, slot, sh.freeHead, sh.queues[KeyOf(sh.slots[slot].order)], sh.index,
                  id, sh.prio);
  }
}
