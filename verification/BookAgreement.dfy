/** What a consistent state caches and links agrees with what the model says. */
module BookAgreement {
  import opened Types
  import opened Ordered
  import opened BookModel
  import opened BookView
  import opened BookHash
  import opened SlotLists
  import opened LevelMaps
  import opened BookState

  // ---------------------------------------------------------------- totals

  /** The orders that stand in a queue, by id. */
  ghost function QueueOrders(s: seq<Slot>, prio: seq<nat>, q: seq<u32>): Orders
    requires InRange(q, |s|) && |prio| == |s|
  {
    if q == [] then map[]
    else
      var n := |q| - 1;
      QueueOrders(s, prio, q[..n])[s[q[n]].order.id := Resting(s[q[n]].order, prio[q[n]])]
  }

  ghost predicate DistinctIds(s: seq<Slot>, q: seq<u32>)
    requires InRange(q, |s|)
  {
    forall i, j :: 0 <= i < j < |q| ==> s[q[i]].order.id != s[q[j]].order.id
  }

  lemma {:induction false} QueueOrdersKeys(s: seq<Slot>, prio: seq<nat>, q: seq<u32>, id: u64)
    requires InRange(q, |s|) && |prio| == |s|
    ensures id in QueueOrders(s, prio, q) <==> exists j :: 0 <= j < |q| && s[q[j]].order.id == id
  {
    if q != [] {
      var n := |q| - 1;
      QueueOrdersKeys(s, prio, q[..n], id);
      if id in QueueOrders(s, prio, q[..n]) {
        var j :| 0 <= j < n && s[q[..n][j]].order.id == id;
        assert s[q[j]].order.id == id;
      }
      if exists j :: 0 <= j < |q| && s[q[j]].order.id == id {
        var j :| 0 <= j < |q| && s[q[j]].order.id == id;
        assert j < n ==> s[q[..n][j]].order.id == id;
      }
    }
  }

  lemma {:induction false} QueueOrdersShares(s: seq<Slot>, prio: seq<nat>, q: seq<u32>)
    requires InRange(q, |s|) && |prio| == |s| && DistinctIds(s, q)
    ensures Shares(QueueOrders(s, prio, q)) == QueueTotal(s, q)
  {
    if q != [] {
      var n := |q| - 1;
      var id := s[q[n]].order.id;
      QueueOrdersShares(s, prio, q[..n]);
      QueueOrdersKeys(s, prio, q[..n], id);
      assert forall j :: 0 <= j < n ==> s[q[..n][j]].order.id != id;
      SharesPut(QueueOrders(s, prio, q[..n]), id, Resting(s[q[n]].order, prio[q[n]]));
    }
  }

  lemma {:induction false} QueueOrdersAt(s: seq<Slot>, prio: seq<nat>, q: seq<u32>, j: nat)
    requires InRange(q, |s|) && |prio| == |s| && DistinctIds(s, q) && j < |q|
    ensures s[q[j]].order.id in QueueOrders(s, prio, q)
    ensures QueueOrders(s, prio, q)[s[q[j]].order.id] == Resting(s[q[j]].order, prio[q[j]])
  {
    var n := |q| - 1;
    if j < n {
      QueueOrdersAt(s, prio, q[..n], j);
      assert s[q[j]].order.id != s[q[n]].order.id;
    }
  }

  lemma MembersHaveDistinctIds(s: seq<Slot>, index: map<u64, u32>, q: seq<u32>, k: LevelKey)
    requires IndexOk(s, index) && Members(s, q, k) && Distinct(q)
    ensures DistinctIds(s, q)
  {
    forall i, j | 0 <= i < j < |q| ensures s[q[i]].order.id != s[q[j]].order.id {
      assert s[q[i]].alive && s[q[j]].alive;
    }
  }

  /** The orders of a level are the orders in its queue. */
  lemma QueueHoldsLevel(s: seq<Slot>, index: map<u64, u32>, prio: seq<nat>, free: seq<u32>, queues: Queues, k: LevelKey)
    requires IndexOk(s, index) && |prio| == |s| && Covered(s, free, queues)
    requires Members(s, QueueAt(queues, k), k) && Distinct(QueueAt(queues, k))
    ensures AtLevel(OrdersOf(s, index, prio), k) == QueueOrders(s, prio, QueueAt(queues, k))
  {
    var q := QueueAt(queues, k);
    var a, b := AtLevel(OrdersOf(s, index, prio), k), QueueOrders(s, prio, q);
    MembersHaveDistinctIds(s, index, q, k);
    forall id | id in a ensures id in b && a[id] == b[id] {
      var i := index[id];
      assert s[i].alive && i in q;
      var j :| 0 <= j < |q| && q[j] == i;
      QueueOrdersAt(s, prio, q, j);
    }
    forall id | id in b ensures id in a {
      QueueOrdersKeys(s, prio, q, id);
      var j :| 0 <= j < |q| && s[q[j]].order.id == id;
      assert s[q[j]].alive && KeyOf(s[q[j]].order) == k;
    }
  }

  /** A level's cached total is the sum of its orders' quantities; a level that is not there sums to nothing. */
  lemma TotalIsLevelSum(sh: Shape, k: LevelKey)
    requires Consistent(sh)
    ensures LevelOrEmpty(sh.books, k).total == LevelSum(ModelOf(sh).orders, k)
  {
    var q := QueueAt(sh.queues, k);
    QueueFacts(sh, k);
    Open(sh);
    QueueHoldsLevel(sh.slots, sh.index, sh.prio, sh.free, sh.queues, k);
    MembersHaveDistinctIds(sh.slots, sh.index, q, k);
    QueueOrdersShares(sh.slots, sh.prio, q);
  }

  // ---------------------------------------------------------------- counts

  /** A slot that stands in a queue holds a live order of that queue's level. */
  lemma QueuedIsLive(sh: Shape, k: LevelKey, i: u32)
    requires Consistent(sh) && k in sh.queues && i in sh.queues[k]
    ensures i < |sh.slots| && sh.slots[i].alive && KeyOf(sh.slots[i].order) == k
  {
    QueueFacts(sh, k);
    var q := sh.queues[k];
    var j :| 0 <= j < |q| && q[j] == i;
    assert sh.slots[q[j]].alive;
  }

  /**
   The slots are divided up exactly: each is in the free list or in the queue of one level, never in
   both and never in two queues, and no list visits a slot twice.
   */
  lemma SlotsPartition(sh: Shape, i: u32)
    requires Consistent(sh) && i < |sh.slots|
    ensures i in sh.free <==> !exists k :: k in sh.queues && i in sh.queues[k]
    ensures forall k, k' :: k in sh.queues && k' in sh.queues && i in sh.queues[k] && i in sh.queues[k'] ==> k == k'
    ensures Distinct(sh.free) && forall k :: k in sh.queues ==> Distinct(sh.queues[k])
  {
    Open(sh);
    forall k | k in sh.queues ensures Distinct(sh.queues[k]) {
      QueueFacts(sh, k);
    }
    forall k | k in sh.queues && i in sh.queues[k] ensures sh.slots[i].alive && KeyOf(sh.slots[i].order) == k {
      QueuedIsLive(sh, k, i);
    }
    var k := KeyOf(sh.slots[i].order);
    assert if sh.slots[i].alive then k in sh.queues && i in sh.queues[k] else i in sh.free;
    if i in sh.free {
      var j :| 0 <= j < |sh.free| && sh.free[j] == i;
      assert !sh.slots[sh.free[j]].alive;
    }
  }

  lemma LiveCount(sh: Shape)
    requires Consistent(sh)
    ensures ModelOf(sh).orders.Keys == sh.index.Keys
    ensures |ModelOf(sh).orders| == |sh.index| == |sh.slots| - |sh.free|
    ensures sh.freeHead == INVALID_SLOT <==> |ModelOf(sh).orders| == |sh.slots|
    ensures sh.freeHead != INVALID_SLOT ==> sh.freeHead < |sh.slots|
    ensures |sh.prio| == |sh.slots| < INVALID_SLOT
  {
    Open(sh);
    var orders := ModelOf(sh).orders;
    assert orders.Keys == sh.index.Keys;
    assert |orders| == |orders.Keys| && |sh.index| == |sh.index.Keys|;
    assert sh.free != [] ==> sh.free[0] < |sh.slots|;
  }

  lemma OrderInSlot(sh: Shape, id: u64)
    requires Consistent(sh) && id in sh.index
    ensures sh.index[id] < |sh.slots| && |sh.prio| == |sh.slots|
    ensures id in ModelOf(sh).orders
    ensures ModelOf(sh).orders[id] == Resting(sh.slots[sh.index[id]].order, sh.prio[sh.index[id]])
  {
    Open(sh);
  }

  // ---------------------------------------------------------------- queues

  lemma PrioritiesDistinct(sh: Shape)
    requires Consistent(sh)
    ensures DistinctPriorities(ModelOf(sh).orders)
  {
    Open(sh);
    var orders := ModelOf(sh).orders;
    forall a, b | a in orders && b in orders && orders[a].priority == orders[b].priority ensures a == b {
      assert sh.slots[sh.index[a]].alive && sh.slots[sh.index[b]].alive;
      assert sh.prio[sh.index[a]] == sh.prio[sh.index[b]];
      assert sh.index[a] == sh.index[b];
    }
  }

  function IdsOf(s: seq<Slot>, q: seq<u32>): (ids: seq<u64>)
    requires forall j :: 0 <= j < |q| ==> q[j] < |s|
    ensures |ids| == |q|
  {
    if q == [] then [] else IdsOf(s, q[..|q| - 1]) + [s[q[|q| - 1]].order.id]
  }

  lemma {:induction false} IdsOfAt(s: seq<Slot>, q: seq<u32>, j: nat)
    requires InRange(q, |s|) && j < |q|
    ensures IdsOf(s, q)[j] == s[q[j]].order.id
  {
    var n := |q| - 1;
    if j < n {
      IdsOfAt(s, q[..n], j);
    }
  }

  lemma IdsListLevel(s: seq<Slot>, index: map<u64, u32>, prio: seq<nat>, free: seq<u32>, queues: Queues, k: LevelKey)
    requires IndexOk(s, index) && |prio| == |s| && Covered(s, free, queues)
    requires Members(s, QueueAt(queues, k), k)
    ensures Lists(IdsOf(s, QueueAt(queues, k)), AtLevel(OrdersOf(s, index, prio), k).Keys)
  {
    var q := QueueAt(queues, k);
    var ids, level := IdsOf(s, q), AtLevel(OrdersOf(s, index, prio), k);
    forall id | id in ids ensures id in level {
      var j :| 0 <= j < |ids| && ids[j] == id;
      IdsOfAt(s, q, j);
      assert s[q[j]].alive && KeyOf(s[q[j]].order) == k;
    }
    forall id | id in level ensures id in ids {
      assert s[index[id]].alive && index[id] in q;
      var j :| 0 <= j < |q| && q[j] == index[id];
      IdsOfAt(s, q, j);
    }
  }

  lemma IdsIncrease(s: seq<Slot>, index: map<u64, u32>, prio: seq<nat>, q: seq<u32>, k: LevelKey)
    requires IndexOk(s, index) && |prio| == |s| && Members(s, q, k) && Ascending(prio, q)
    ensures Increasing(IdsOf(s, q), PriorityRank(OrdersOf(s, index, prio)))
  {
    var ids, rank := IdsOf(s, q), PriorityRank(OrdersOf(s, index, prio));
    forall j | 0 <= j < |ids| ensures rank(ids[j]) == prio[q[j]] {
      IdsOfAt(s, q, j);
      assert s[q[j]].alive;
    }
  }

  /** Walking a level's list from head to tail meets the ids in priority order. */
  lemma QueueIsFifo(sh: Shape, k: LevelKey)
    requires Consistent(sh)
    ensures InRange(QueueAt(sh.queues, k), |sh.slots|)
    ensures DistinctPriorities(ModelOf(sh).orders)
    ensures IdsOf(sh.slots, QueueAt(sh.queues, k)) == Fifo(ModelOf(sh).orders, k)
  {
    var q := QueueAt(sh.queues, k);
    QueueFacts(sh, k);
    PrioritiesDistinct(sh);
    Open(sh);
    assert Lists(IdsOf(sh.slots, q), AtLevel(ModelOf(sh).orders, k).Keys) by {
      IdsListLevel(sh.slots, sh.index, sh.prio, sh.free, sh.queues, k);
    }
    assert Increasing(IdsOf(sh.slots, q), PriorityRank(ModelOf(sh).orders)) by {
      IdsIncrease(sh.slots, sh.index, sh.prio, q, k);
    }
    FifoUnique(ModelOf(sh).orders, k, IdsOf(sh.slots, q));
  }

  function QueuedIn(s: seq<Slot>, q: seq<u32>): seq<Queued>
    requires forall j :: 0 <= j < |q| ==> q[j] < |s|
  {
    if q == [] then []
    else
      var n := |q| - 1;
      QueuedIn(s, q[..n]) + [Queued(s[q[n]].order.id, s[q[n]].order.quantity)]
  }

  lemma {:induction false} IdsOfQueued(s: seq<Slot>, q: seq<u32>)
    requires InRange(q, |s|)
    ensures IdsIn(QueuedIn(s, q)) == IdsOf(s, q)
  {
    if q != [] {
      var n := |q| - 1;
      IdsOfQueued(s, q[..n]);
      assert QueuedIn(s, q)[..|QueuedIn(s, q)| - 1] == QueuedIn(s, q[..n]);
    }
  }

  lemma HashWalkStep(mix: Mixer, h: u64, s: seq<Slot>, q: seq<u32>, n: nat)
    requires InRange(q, |s|) && n < |q|
    ensures Fold(mix, h, QueueWords(QueuedIn(s, q[..n + 1])))
            == mix(mix(Fold(mix, h, QueueWords(QueuedIn(s, q[..n]))), s[q[n]].order.id), s[q[n]].order.quantity)
  {
    assert q[..n + 1][..n] == q[..n];
    QueueFoldStep(mix, h, QueuedIn(s, q[..n]), Queued(s[q[n]].order.id, s[q[n]].order.quantity));
  }

  lemma {:induction false} QueuedInIsQueuedOf(s: seq<Slot>, index: map<u64, u32>, prio: seq<nat>, q: seq<u32>,
                                              k: LevelKey)
    requires IndexOk(s, index) && |prio| == |s| && Members(s, q, k)
    ensures forall id :: id in IdsOf(s, q) ==> id in OrdersOf(s, index, prio)
    ensures QueuedIn(s, q) == QueuedOf(OrdersOf(s, index, prio), IdsOf(s, q))
  {
    if q != [] {
      var n := |q| - 1;
      assert Members(s, q[..n], k) by {
        assert forall j :: 0 <= j < n ==> s[q[..n][j]] == s[q[j]];
      }
      QueuedInIsQueuedOf(s, index, prio, q[..n], k);
      assert s[q[n]].alive;
      assert IdsOf(s, q)[..n] == IdsOf(s, q[..n]);
    }
  }

  /** Walking a level's list meets the ids and quantities that the model's queue has. */
  lemma QueuedAgrees(sh: Shape, k: LevelKey)
    requires Consistent(sh)
    ensures InRange(QueueAt(sh.queues, k), |sh.slots|)
    ensures DistinctPriorities(ModelOf(sh).orders)
    ensures ViewLevel(ModelOf(sh).orders, k)
            == LevelView(k.price, LevelOrEmpty(sh.books, k).total, QueuedIn(sh.slots, QueueAt(sh.queues, k)))
  {
    QueueIsFifo(sh, k);
    QueueFacts(sh, k);
    TotalIsLevelSum(sh, k);
    Open(sh);
    QueuedInIsQueuedOf(sh.slots, sh.index, sh.prio, QueueAt(sh.queues, k), k);
  }

  // ---------------------------------------------------------------- levels and symbols

  /** A level is in the maps exactly when some live order rests there. */
  lemma LevelIffOrder(sh: Shape, k: LevelKey)
    requires Consistent(sh)
    ensures LevelAt(sh.books, k).Some? <==>
                exists id :: id in ModelOf(sh).orders && KeyOf(ModelOf(sh).orders[id].order) == k
  {
    Open(sh);
    if LevelAt(sh.books, k).Some? {
      assert k in sh.queues;
      QueueFacts(sh, k);
      var i := sh.queues[k][0];
      assert sh.slots[i].alive && KeyOf(sh.slots[i].order) == k;
      assert sh.slots[i].order.id in ModelOf(sh).orders;
    }
    if exists id :: id in ModelOf(sh).orders && KeyOf(ModelOf(sh).orders[id].order) == k {
      var id :| id in ModelOf(sh).orders && KeyOf(ModelOf(sh).orders[id].order) == k;
      assert sh.slots[sh.index[id]].alive;
      assert k in sh.queues;
    }
  }

  /** The keys of a side's level map are the prices at which orders rest. */
  lemma PricesAreKeys(sh: Shape, symbol: Symbol, side: Side)
    requires Consistent(sh)
    ensures BookAt(sh.books, symbol).Side(side).Keys == Prices(ModelOf(sh).orders, symbol, side)
  {
    var orders := ModelOf(sh).orders;
    forall p: u32 ensures p in BookAt(sh.books, symbol).Side(side) <==> p in Prices(orders, symbol, side) {
      LevelIffOrder(sh, LevelKey(symbol, side, p));
      PriceIffOrder(orders, symbol, side, p);
    }
  }

  lemma BookHasOrder(sh: Shape, symbol: Symbol)
    requires Consistent(sh) && symbol in sh.books
    ensures symbol in Symbols(ModelOf(sh).orders)
  {
    var b := sh.books[symbol];
    assert !b.Blank() by {
      Open(sh);
    }
    var side := if b.bids != map[] then Buy else Sell;
    var p :| p in b.Side(side);
    LevelIffOrder(sh, LevelKey(symbol, side, p));
  }

  /** The symbols with a book are the symbols of the live orders. */
  lemma SymbolsAreKeys(sh: Shape)
    requires Consistent(sh)
    ensures sh.books.Keys == Symbols(ModelOf(sh).orders)
  {
    var orders := ModelOf(sh).orders;
    forall symbol | symbol in sh.books ensures symbol in Symbols(orders) {
      BookHasOrder(sh, symbol);
    }
    forall symbol | symbol in Symbols(orders) ensures symbol in sh.books {
      var id :| id in orders && orders[id].order.symbol == symbol;
      LevelIffOrder(sh, KeyOf(orders[id].order));
    }
  }

  /** A side's map, listed in its own order, lists the model's prices. */
  lemma KeysAreListed(sh: Shape, symbol: Symbol, side: Side)
    requires Consistent(sh)
    ensures SortBy(BookAt(sh.books, symbol).Side(side).Keys, PriceRank(side))
            == PriceList(ModelOf(sh).orders, symbol, side)
    ensures |PriceList(ModelOf(sh).orders, symbol, side)| == |BookAt(sh.books, symbol).Side(side)|
    ensures forall p :: p in PriceList(ModelOf(sh).orders, symbol, side) ==> p in BookAt(sh.books, symbol).Side(side)
  {
    PricesAreKeys(sh, symbol, side);
    SortedKeys(BookAt(sh.books, symbol).Side(side), PriceRank(side));
  }

  /** The map of symbols, listed in its own order, lists the model's symbols. */
  lemma SymbolsAreListed(sh: Shape)
    requires Consistent(sh)
    ensures InjectiveOn(sh.books.Keys, SymbolRank())
    ensures SortBy(sh.books.Keys, SymbolRank()) == SymbolList(ModelOf(sh).orders)
    ensures |SymbolList(ModelOf(sh).orders)| == |sh.books|
  {
    SymbolsAreKeys(sh);
    SymbolRankInjective(sh.books.Keys);
    SortedKeys(sh.books, SymbolRank());
  }

  /** A consistent state whose orders all have shares stands for a well-formed model. */
  lemma StateIsWellFormed(sh: Shape)
    requires Consistent(sh)
    requires AllPositive(ModelOf(sh).orders)
    ensures WellFormed(ModelOf(sh), |sh.slots|)
  {
    var m := ModelOf(sh);
    PrioritiesDistinct(sh);
    LiveCount(sh);
    forall k ensures LevelSum(m.orders, k) <= U32_MAX {
      TotalIsLevelSum(sh, k);
    }
    forall id | id in m.orders ensures m.orders[id].order.id == id && m.orders[id].priority < m.clock {
      OrderInSlot(sh, id);
      Open(sh);
    }
  }

  // ---------------------------------------------------------------- what a walk over the book will meet

  ghost predicate LevelIs(v: LevelView, sh: Shape, k: LevelKey) {
    && Consistent(sh) && DistinctPriorities(ModelOf(sh).orders)
    && LevelAt(sh.books, k).Some? && v == ViewLevel(ModelOf(sh).orders, k)
  }

  /** The state shows `v` at level `k`. (These are said of equal copies, to be opened where needed.) */
  ghost predicate ShowsLevel(sh: Shape, k: LevelKey, v: LevelView) {
    forall copy {:trigger LevelIs(copy, sh, k)} :: copy == v ==> LevelIs(copy, sh, k)
  }

  ghost predicate SideIs(v: seq<LevelView>, sh: Shape, symbol: Symbol, side: Side) {
    && Consistent(sh) && DistinctPriorities(ModelOf(sh).orders)
    && v == ViewSide(ModelOf(sh).orders, symbol, side)
  }

  /** The state shows `v` on one side of a symbol. */
  ghost predicate ShowsSide(sh: Shape, symbol: Symbol, side: Side, v: seq<LevelView>) {
    forall copy {:trigger SideIs(copy, sh, symbol, side)} :: copy == v ==> SideIs(copy, sh, symbol, side)
  }

  /** The prices `ps` name the levels `v`, one by one. */
  ghost predicate PricesName(sh: Shape, symbol: Symbol, side: Side, ps: seq<u32>, v: seq<LevelView>) {
    && |ps| == |v|
    && forall i {:trigger ShowsLevel(sh, LevelKey(symbol, side, ps[i]), v[i])} :: 0 <= i < |v| ==>
         ShowsLevel(sh, LevelKey(symbol, side, ps[i]), v[i])
  }

  ghost predicate SymbolIs(v: SymbolView, sh: Shape, symbol: Symbol) {
    && Consistent(sh) && DistinctPriorities(ModelOf(sh).orders)
    && v == ViewSymbol(ModelOf(sh).orders, symbol)
  }

  /** The state shows `v` for one symbol. */
  ghost predicate ShowsSymbol(sh: Shape, symbol: Symbol, v: SymbolView) {
    forall copy {:trigger SymbolIs(copy, sh, symbol)} :: copy == v ==> SymbolIs(copy, sh, symbol)
  }

  ghost predicate SymbolsName(sh: Shape, ss: seq<Symbol>, v: seq<SymbolView>) {
    && |ss| == |v|
    && forall i {:trigger ShowsSymbol(sh, ss[i], v[i])} :: 0 <= i < |v| ==> ShowsSymbol(sh, ss[i], v[i])
  }

  lemma LevelsNamed(sh: Shape, symbol: Symbol, side: Side, v: seq<LevelView>)
    requires ShowsSide(sh, symbol, side, v)
    ensures Consistent(sh)
    ensures PricesName(sh, symbol, side, SortBy(BookAt(sh.books, symbol).Side(side).Keys, PriceRank(side)), v)
    ensures |v| == |BookAt(sh.books, symbol).Side(side)|
  {
    assert SideIs(v, sh, symbol, side);
    var orders := ModelOf(sh).orders;
    KeysAreListed(sh, symbol, side);
    var ps := PriceList(orders, symbol, side);
    forall i | 0 <= i < |v| ensures ShowsLevel(sh, LevelKey(symbol, side, ps[i]), v[i]) {
      ViewLevelsAt(orders, symbol, side, ps, i);
      assert ps[i] in ps;
      assert LevelIs(v[i], sh, LevelKey(symbol, side, ps[i]));
    }
  }

  lemma SideShown(sh: Shape, symbol: Symbol, side: Side)
    requires Consistent(sh)
    ensures DistinctPriorities(ModelOf(sh).orders)
    ensures ShowsSide(sh, symbol, side, ViewSide(ModelOf(sh).orders, symbol, side))
  {
    PrioritiesDistinct(sh);
    assert SideIs(ViewSide(ModelOf(sh).orders, symbol, side), sh, symbol, side);
  }

  lemma SidesShown(sh: Shape, symbol: Symbol, v: SymbolView)
    requires ShowsSymbol(sh, symbol, v)
    ensures v.symbol == symbol && ShowsSide(sh, symbol, Buy, v.bids) && ShowsSide(sh, symbol, Sell, v.asks)
  {
    assert SymbolIs(v, sh, symbol);
    assert SideIs(v.bids, sh, symbol, Buy) && SideIs(v.asks, sh, symbol, Sell);
  }

  lemma SymbolsNamed(sh: Shape)
    requires Consistent(sh)
    ensures DistinctPriorities(ModelOf(sh).orders) && InjectiveOn(sh.books.Keys, SymbolRank())
    ensures SymbolsName(sh, SortBy(sh.books.Keys, SymbolRank()), Observe(ModelOf(sh).orders))
    ensures |Observe(ModelOf(sh).orders)| == |sh.books|
  {
    PrioritiesDistinct(sh);
    SymbolsAreListed(sh);
    var orders := ModelOf(sh).orders;
    var ss, v := SymbolList(orders), Observe(orders);
    forall i | 0 <= i < |v| ensures ShowsSymbol(sh, ss[i], v[i]) {
      ViewSymbolsAt(orders, ss, i);
      assert SymbolIs(v[i], sh, ss[i]);
    }
  }

  /** The list of a level that the state shows, and what it holds. */
  lemma LevelShown(sh: Shape, k: LevelKey, v: LevelView)
    requires ShowsLevel(sh, k, v)
    ensures LevelAt(sh.books, k).Some? && |sh.slots| < INVALID_SLOT
    ensures var q, l := QueueAt(sh.queues, k), LevelAt(sh.books, k).value;
            && Chain(sh.slots, q, l.head, l.tail)
            && v == LevelView(k.price, l.total, QueuedIn(sh.slots, q))
  {
    assert LevelIs(v, sh, k);
    QueueFacts(sh, k);
    QueuedAgrees(sh, k);
    LiveCount(sh);
  }
}
