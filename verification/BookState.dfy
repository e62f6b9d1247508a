/**
 The concrete state of an order book as one value, the invariant that ties its four structures
 together (arena and free list, level queues, id index, level maps), and the three transitions that
 every event is made of: an order joins, leaves, or loses shares.
 */
module BookState {
  import opened Types
  import opened BookModel
  import opened SlotLists
  import opened LevelMaps

  type Queues = map<LevelKey, seq<u32>>

  /**
   `slots`, `freeHead`, `index` and `books` are the program's own state. `free` and `queues` name the
   lists threaded through the slots; `prio` is the priority of the order in each slot.
   */
  datatype Shape = Shape(slots: seq<Slot>, freeHead: u32, index: map<u64, u32>, books: Books,
                         free: seq<u32>, queues: Queues, prio: seq<nat>, clock: nat)

  // ---------------------------------------------------------------- invariant

  /** The index maps each live order's id to its slot, and nothing else. */
  ghost predicate IndexOk(s: seq<Slot>, index: map<u64, u32>) {
    && (forall id {:trigger index[id]} :: id in index ==>
            index[id] < |s| && s[index[id]].alive && s[index[id]].order.id == id)
    && (forall i :: 0 <= i < |s| && s[i].alive ==> s[i].order.id in index && index[s[i].order.id] == i)
  }

  /** Every slot in `q` holds a live order of level `k`. */
  ghost predicate Members(s: seq<Slot>, q: seq<u32>, k: LevelKey) {
    && InRange(q, |s|)
    && forall j {:trigger s[q[j]]} :: 0 <= j < |q| ==>
         s[q[j]].alive && s[q[j]].nextFree == INVALID_SLOT && KeyOf(s[q[j]].order) == k
  }

  function QuantityAt(s: seq<Slot>, i: u32): nat {
    if i < |s| then s[i].order.quantity else 0
  }

  ghost function QueueTotal(s: seq<Slot>, q: seq<u32>): nat {
    if q == [] then 0 else QueueTotal(s, q[..|q| - 1]) + QuantityAt(s, q[|q| - 1])
  }

  ghost predicate Ascending(prio: seq<nat>, q: seq<u32>) {
    forall i, j :: 0 <= i < j < |q| && q[i] < |prio| && q[j] < |prio| ==> prio[q[i]] < prio[q[j]]
  }

  ghost predicate QueueOk(s: seq<Slot>, prio: seq<nat>, l: Option<PriceLevel>, k: LevelKey, q: seq<u32>) {
    && l.Some?
    && q != []
    && Chain(s, q, l.value.head, l.value.tail)
    && Members(s, q, k)
    && l.value.total == QueueTotal(s, q)
    && Ascending(prio, q)
  }

  ghost predicate QueuesOk(s: seq<Slot>, prio: seq<nat>, books: Books, queues: Queues) {
    forall k {:trigger QueueOk(s, prio, LevelAt(books, k), k, queues[k])} ::
      k in queues ==> QueueOk(s, prio, LevelAt(books, k), k, queues[k])
  }

  /** Every slot is in its level's queue or in the free list. */
  ghost predicate Covered(s: seq<Slot>, free: seq<u32>, queues: Queues) {
    forall i: u32 {:trigger s[i]} :: i < |s| ==>
      if s[i].alive then KeyOf(s[i].order) in queues && i in queues[KeyOf(s[i].order)] else i in free
  }

  /** The level maps hold exactly the levels that have a queue, and no blank symbol book. */
  ghost predicate BooksOk(books: Books, queues: Queues) {
    && NoBlankBook(books)
    && forall k {:trigger LevelAt(books, k)} :: LevelAt(books, k).Some? <==> k in queues
  }

  ghost predicate PriorityOk(s: seq<Slot>, prio: seq<nat>, clock: nat) {
    && |prio| == |s|
    && (forall i :: 0 <= i < |s| && s[i].alive ==> prio[i] < clock)
    && (forall i, j {:trigger prio[i], prio[j]} :: 0 <= i < j < |s| && s[i].alive && s[j].alive ==> prio[i] != prio[j])
  }

  ghost predicate Parts(sh: Shape) {
    && |sh.slots| < INVALID_SLOT
    && FreeList(sh.slots, sh.freeHead, sh.free)
    && IndexOk(sh.slots, sh.index)
    && QueuesOk(sh.slots, sh.prio, sh.books, sh.queues)
    && Covered(sh.slots, sh.free, sh.queues)
    && BooksOk(sh.books, sh.queues)
    && PriorityOk(sh.slots, sh.prio, sh.clock)
    && |sh.free| + |sh.index| == |sh.slots|
  }

  /** The invariant, said of an equal copy so that a proof meets its parts only where it asks for them. */
  ghost predicate Consistent(sh: Shape) {
    forall copy {:trigger Parts(copy)} :: copy == sh ==> Parts(copy)
  }

  lemma Open(sh: Shape)
    requires Consistent(sh)
    ensures Parts(sh)
  {
  }

  // ---------------------------------------------------------------- abstraction

  ghost function OrdersOf(s: seq<Slot>, index: map<u64, u32>, prio: seq<nat>): Orders
    requires IndexOk(s, index) && |prio| == |s|
  {
    map id | id in index :: Resting(s[index[id]].order, prio[index[id]])
  }

  /** The model that a consistent state stands for. */
  ghost function ModelOf(sh: Shape): Model
    requires Consistent(sh)
  {
    Open(sh);
    Model(OrdersOf(sh.slots, sh.index, sh.prio), sh.clock)
  }

  // ---------------------------------------------------------------- frames

  lemma {:induction false} QueueTotalFrame(s: seq<Slot>, s': seq<Slot>, q: seq<u32>)
    requires forall j :: 0 <= j < |q| ==> QuantityAt(s', q[j]) == QuantityAt(s, q[j])
    ensures QueueTotal(s', q) == QueueTotal(s, q)
  {
    if q != [] {
      QueueTotalFrame(s, s', q[..|q| - 1]);
    }
  }

  lemma QueueFrame(s: seq<Slot>, prio: seq<nat>, s': seq<Slot>, prio': seq<nat>, l: Option<PriceLevel>, k: LevelKey,
                   q: seq<u32>)
    requires QueueOk(s, prio, l, k, q)
    requires |s'| == |s| == |prio| == |prio'|
    requires forall j {:trigger q[j]} :: 0 <= j < |q| ==> q[j] < |s| && s'[q[j]] == s[q[j]] && prio'[q[j]] == prio[q[j]]
    ensures QueueOk(s', prio', l, k, q)
  {
    QueueTotalFrame(s, s', q);
  }

  /** Queues of other levels survive a change that touches only slots and levels of `k`. */
  lemma OtherQueues(s: seq<Slot>, prio: seq<nat>, books: Books, queues: Queues,
                    s': seq<Slot>, prio': seq<nat>, books': Books, k: LevelKey)
    requires QueuesOk(s, prio, books, queues)
    requires |s'| == |s| == |prio| == |prio'|
    requires forall i :: 0 <= i < |s| && s[i].alive && KeyOf(s[i].order) != k ==> s'[i] == s[i] && prio'[i] == prio[i]
    requires forall k' {:trigger LevelAt(books', k')} :: k' != k ==> LevelAt(books', k') == LevelAt(books, k')
    ensures OthersOk(s', prio', books', queues, k)
  {
    forall k' | k' in queues && k' != k ensures QueueOk(s', prio', LevelAt(books', k'), k', queues[k']) {
      var q := queues[k'];
      assert QueueOk(s, prio, LevelAt(books, k'), k', q);
      assert forall j :: 0 <= j < |q| ==> s[q[j]].alive && KeyOf(s[q[j]].order) == k';
      QueueFrame(s, prio, s', prio', LevelAt(books', k'), k', q);
    }
  }

  ghost predicate OthersOk(s: seq<Slot>, prio: seq<nat>, books: Books, queues: Queues, k: LevelKey) {
    forall k' {:trigger QueueOk(s, prio, LevelAt(books, k'), k', queues[k'])} ::
      k' in queues && k' != k ==> QueueOk(s, prio, LevelAt(books, k'), k', queues[k'])
  }

  ghost predicate OwnOk(s: seq<Slot>, prio: seq<nat>, books: Books, queues: Queues, k: LevelKey) {
    forall k' {:trigger QueueOk(s, prio, LevelAt(books, k'), k', queues[k'])} ::
      k' in queues && k' == k ==> QueueOk(s, prio, LevelAt(books, k'), k', queues[k'])
  }

  /** All queues are in order if the one at `k` is, if it is there, and the others are. */
  lemma QueuesFromParts(s: seq<Slot>, prio: seq<nat>, books: Books, queues: Queues, queues': Queues, k: LevelKey)
    requires OthersOk(s, prio, books, queues, k)
    requires OwnOk(s, prio, books, queues', k)
    requires forall k' :: k' in queues' && k' != k ==> k' in queues && queues'[k'] == queues[k']
    ensures QueuesOk(s, prio, books, queues')
  {
  }

  ghost function QueueAt(queues: Queues, k: LevelKey): seq<u32> {
    if k in queues then queues[k] else []
  }

  /** The queue of any level, present or not, as a list of slots. */
  lemma QueueFacts(sh: Shape, k: LevelKey)
    requires Consistent(sh)
    ensures var q, l := QueueAt(sh.queues, k), LevelOrEmpty(sh.books, k);
            && Chain(sh.slots, q, l.head, l.tail)
            && Members(sh.slots, q, k)
            && l.total == QueueTotal(sh.slots, q)
            && Ascending(sh.prio, q)
            && (q == [] <==> k !in sh.queues)
  {
    Open(sh);
    if k in sh.queues {
      assert QueueOk(sh.slots, sh.prio, LevelAt(sh.books, k), k, sh.queues[k]);
      assert LevelAt(sh.books, k).Some?;
    } else {
      assert LevelAt(sh.books, k).None?;
    }
  }
}
