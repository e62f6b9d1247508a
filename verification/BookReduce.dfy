/** An order loses shares but keeps its slot, its place in the queue and its priority. */
module BookReduce {
  import opened Types
  import opened BookModel
  import opened SlotLists
  import opened LevelMaps
  import opened BookState
  import opened BookLeave

  ghost predicate CanLose(sh: Shape, id: u64, shares: u32) {
    id in sh.index && sh.index[id] < |sh.slots| && shares <= sh.slots[sh.index[id]].order.quantity
  }

  function LessenedSlot(slot: Slot, shares: u32): Slot
    requires shares <= slot.order.quantity
  {
    slot.(order := slot.order.(quantity := slot.order.quantity - shares))
  }

  function LessenedLevel(l: PriceLevel, shares: u32): PriceLevel
    requires shares <= l.total
  {
    PriceLevel(l.total - shares, l.head, l.tail)
  }

  /** From `s` to `s'` the order in slot `i` lost some shares. */
  ghost predicate Lost(s: seq<Slot>, s': seq<Slot>, i: u32, shares: u32) {
    && |s'| == |s| && i < |s| && s[i].alive && shares <= s[i].order.quantity
    && s'[i] == LessenedSlot(s[i], shares)
    && forall j {:trigger s'[j]} :: 0 <= j < |s| && j != i ==> s'[j] == s[j]
  }

  lemma {:induction false} LostTotal(s: seq<Slot>, s': seq<Slot>, i: u32, shares: u32, q: seq<u32>)
    requires Lost(s, s', i, shares) && Distinct(q)
    ensures QueueTotal(s, q) == QueueTotal(s', q) + if i in q then shares else 0
  {
    if q != [] {
      var n := |q| - 1;
      LostTotal(s, s', i, shares, q[..n]);
      assert q == q[..n] + [q[n]];
    }
  }

  lemma LostQueue(s: seq<Slot>, s': seq<Slot>, i: u32, shares: u32, prio: seq<nat>, l: PriceLevel, k: LevelKey,
                  q: seq<u32>)
    requires Lost(s, s', i, shares) && QueueOk(s, prio, Some(l), k, q) && i in q && shares <= l.total
    ensures QueueOk(s', prio, Some(LessenedLevel(l, shares)), k, q)
  {
    LostTotal(s, s', i, shares, q);
  }

  lemma LostQueues(s: seq<Slot>, s': seq<Slot>, i: u32, shares: u32,
                   prio: seq<nat>, books: Books, queues: Queues, k: LevelKey, l: PriceLevel)
    requires Lost(s, s', i, shares) && QueuesOk(s, prio, books, queues) && |prio| == |s|
    requires k in queues && LevelAt(books, k) == Some(l) && i in queues[k] && KeyOf(s[i].order) == k
    requires shares <= l.total
    ensures QueuesOk(s', prio, PutLevel(books, k, LessenedLevel(l, shares)), queues)
  {
    var books' := PutLevel(books, k, LessenedLevel(l, shares));
    assert OthersOk(s', prio, books', queues, k) by {
      forall k' | k' != k ensures LevelAt(books', k') == LevelAt(books, k') {
        LevelAtPut(books, k, LessenedLevel(l, shares), k');
      }
      OtherQueues(s, prio, books, queues, s', prio, books', k);
    }
    assert OwnOk(s', prio, books', queues, k) by {
      LevelAtPut(books, k, LessenedLevel(l, shares), k);
      assert QueueOk(s, prio, LevelAt(books, k), k, queues[k]);
      LostQueue(s, s', i, shares, prio, l, k, queues[k]);
    }
    QueuesFromParts(s', prio, books', queues, queues, k);
  }

  lemma PutKeepsBooks(books: Books, queues: Queues, k: LevelKey, l: PriceLevel)
    requires BooksOk(books, queues) && k in queues
    ensures BooksOk(PutLevel(books, k, l), queues)
  {
    PutLeavesNoBlankBook(books, k, l);
    forall k' ensures LevelAt(PutLevel(books, k, l), k').Some? <==> k' in queues {
      LevelAtPut(books, k, l, k');
      assert LevelAt(books, k').Some? <==> k' in queues;
    }
  }

  lemma LostIndex(s: seq<Slot>, s': seq<Slot>, i: u32, shares: u32, index: map<u64, u32>)
    requires Lost(s, s', i, shares) && IndexOk(s, index)
    ensures IndexOk(s', index)
  {
  }

  lemma LostCovered(s: seq<Slot>, s': seq<Slot>, i: u32, shares: u32, free: seq<u32>, queues: Queues)
    requires Lost(s, s', i, shares) && Covered(s, free, queues)
    ensures Covered(s', free, queues)
  {
  }

  lemma LostPriority(s: seq<Slot>, s': seq<Slot>, i: u32, shares: u32, prio: seq<nat>, clock: nat)
    requires Lost(s, s', i, shares) && PriorityOk(s, prio, clock)
    ensures PriorityOk(s', prio, clock)
  {
  }

  lemma LostKeepsParts(sh: Shape, s': seq<Slot>, i: u32, shares: u32, k: LevelKey, l: PriceLevel)
    requires Consistent(sh) && Lost(sh.slots, s', i, shares)
    requires KeyOf(sh.slots[i].order) == k && LevelAt(sh.books, k) == Some(l) && shares <= l.total
    ensures Parts(Shape(s', sh.freeHead, sh.index, PutLevel(sh.books, k, LessenedLevel(l, shares)),
                        sh.free, sh.queues, sh.prio, sh.clock))
  {
    Open(sh);
    assert FreeList(s', sh.freeHead, sh.free) by {
      FreeListFrame(sh.slots, s', sh.freeHead, sh.free);
    }
    assert IndexOk(s', sh.index) by {
      LostIndex(sh.slots, s', i, shares, sh.index);
    }
    assert Covered(s', sh.free, sh.queues) by {
      LostCovered(sh.slots, s', i, shares, sh.free, sh.queues);
    }
    assert PriorityOk(s', sh.prio, sh.clock) by {
      LostPriority(sh.slots, s', i, shares, sh.prio, sh.clock);
    }
    assert BooksOk(PutLevel(sh.books, k, LessenedLevel(l, shares)), sh.queues) by {
      assert k in sh.queues;
      PutKeepsBooks(sh.books, sh.queues, k, LessenedLevel(l, shares));
    }
    assert QueuesOk(s', sh.prio, PutLevel(sh.books, k, LessenedLevel(l, shares)), sh.queues) by {
      assert k in sh.queues && i in sh.queues[k];
      LostQueues(sh.slots, s', i, shares, sh.prio, sh.books, sh.queues, k, l);
    }
  }

  ghost function Reduce(sh: Shape, id: u64, shares: u32): Shape
    requires Consistent(sh) && CanLose(sh, id, shares)
  {
    LiveOrder(sh, id);
    var i := sh.index[id];
    var k := KeyOf(sh.slots[i].order);
    Shape(sh.slots[i := LessenedSlot(sh.slots[i], shares)], sh.freeHead, sh.index,
          PutLevel(sh.books, k, LessenedLevel(LevelAt(sh.books, k).value, shares)),
          sh.free, sh.queues, sh.prio, sh.clock)
  }

  lemma ReduceKeepsConsistent(sh: Shape, id: u64, shares: u32)
    requires Consistent(sh) && CanLose(sh, id, shares)
    ensures Consistent(Reduce(sh, id, shares))
  {
    LiveOrder(sh, id);
    var i := sh.index[id];
    var k := KeyOf(sh.slots[i].order);
    LostKeepsParts(sh, sh.slots[i := LessenedSlot(sh.slots[i], shares)], i, shares, k, LevelAt(sh.books, k).value);
  }

  lemma LostOrders(s: seq<Slot>, s': seq<Slot>, shares: u32, index: map<u64, u32>, prio: seq<nat>, id: u64)
    requires IndexOk(s, index) && IndexOk(s', index) && |prio| == |s| && id in index && Lost(s, s', index[id], shares)
    ensures OrdersOf(s', index, prio) == OrdersOf(s, index, prio)[id := Lessened(OrdersOf(s, index, prio)[id], shares)]
  {
  }

  /** In the model, only that order's quantity changes. */
  lemma ReduceInModel(sh: Shape, id: u64, shares: u32)
    requires Consistent(sh) && CanLose(sh, id, shares)
    ensures Consistent(Reduce(sh, id, shares))
    ensures id in ModelOf(sh).orders && shares <= ModelOf(sh).orders[id].order.quantity
    ensures ModelOf(Reduce(sh, id, shares))
            == Model(ModelOf(sh).orders[id := Lessened(ModelOf(sh).orders[id], shares)], sh.clock)
  {
    ReduceKeepsConsistent(sh, id, shares);
    LiveOrder(sh, id);
    Open(sh);
    Open(Reduce(sh, id, shares));
    LostOrders(sh.slots, Reduce(sh, id, shares).slots, shares, sh.index, sh.prio, id);
  }
}
