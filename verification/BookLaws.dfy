/**
 The model in plain terms: what each event does, what a side lists, and what the sums are, field by field and without
 the helpers that define them.
 */
module BookLaws {
  import opened Types
  import opened Ordered
  import opened BookModel
  import opened BookView
  import opened BookObservation

  // ---------------------------------------------------------------- sums

  /** A level's sum takes in exactly the orders of its symbol, side and price. */
  lemma LevelSumLaw(orders: Orders, id: u64, r: Resting, symbol: Symbol, side: Side, price: u32)
    requires id !in orders
    ensures LevelSum(map[], LevelKey(symbol, side, price)) == 0
    ensures LevelSum(orders[id := r], LevelKey(symbol, side, price))
            == LevelSum(orders, LevelKey(symbol, side, price))
               + if r.order.symbol == symbol && r.order.side == side && r.order.price == price
                 then r.order.quantity else 0
  {
    LevelSumPut(orders, id, r, LevelKey(symbol, side, price));
    assert AtLevel(map[], LevelKey(symbol, side, price)) == map[];
  }

  // ---------------------------------------------------------------- events

  /** Adding: the conditions, and one more order with the newest priority. */
  lemma AddLaw(m: Model, capacity: nat, meta: EventMeta, o: Order)
    ensures Accepts(m, capacity, AddEvent(meta, o)) <==>
            && o.id != 0 && o.quantity != 0 && o.id !in m.orders && |m.orders| < capacity
            && LevelSum(m.orders, LevelKey(o.symbol, o.side, o.price)) + o.quantity <= 0xFFFF_FFFF
    ensures Step(m, capacity, AddEvent(meta, o))
            == if Accepts(m, capacity, AddEvent(meta, o))
               then Model(m.orders[o.id := Resting(o, m.clock)], m.clock + 1) else m
  {
  }

  /**
   The order `id` loses `shares`: it goes with its last share, and otherwise keeps everything else, its place
   included.
   */
  ghost predicate Loses(m: Model, m': Model, id: u64, shares: u32)
    requires id in m.orders
  {
    && m'.clock == m.clock
    && (forall x :: x != id ==> (x in m'.orders <==> x in m.orders) && (x in m.orders ==> m'.orders[x] == m.orders[x]))
    && (id in m'.orders <==> shares < m.orders[id].order.quantity)
    && (id in m'.orders ==>
          var o, o' := m.orders[id].order, m'.orders[id].order;
          && m'.orders[id].priority == m.orders[id].priority
          && o'.id == o.id && o'.symbol == o.symbol && o'.side == o.side && o'.price == o.price
          && o'.quantity == o.quantity - shares)
  }

  /** Executing: any positive number of shares that the live order still has. */
  lemma ExecuteLaw(m: Model, capacity: nat, e: MarketEvent)
    requires e.ExecuteEvent?
    ensures Accepts(m, capacity, e) <==>
            e.orderId in m.orders && 0 < e.executedShares <= m.orders[e.orderId].order.quantity
    ensures Accepts(m, capacity, e) ==> Loses(m, Step(m, capacity, e), e.orderId, e.executedShares)
    ensures !Accepts(m, capacity, e) ==> Step(m, capacity, e) == m
  {
  }

  /** Canceling: the same. */
  lemma CancelLaw(m: Model, capacity: nat, e: MarketEvent)
    requires e.CancelEvent?
    ensures Accepts(m, capacity, e) <==>
            e.orderId in m.orders && 0 < e.canceledShares <= m.orders[e.orderId].order.quantity
    ensures Accepts(m, capacity, e) ==> Loses(m, Step(m, capacity, e), e.orderId, e.canceledShares)
    ensures !Accepts(m, capacity, e) ==> Step(m, capacity, e) == m
  {
  }

  /** Deleting: any live order, whatever it has left. */
  lemma DeleteLaw(m: Model, capacity: nat, e: MarketEvent)
    requires e.DeleteEvent?
    ensures Accepts(m, capacity, e) <==> e.orderId in m.orders
    ensures Accepts(m, capacity, e) ==> Step(m, capacity, e) == Model(m.orders - {e.orderId}, m.clock)
    ensures !Accepts(m, capacity, e) ==> Step(m, capacity, e) == m
  {
  }

  /**
   Replacing: a live order gives way to one with a new id, quantity and price, of the same symbol and side and with
   the newest priority, if the level that it goes to has room without the old order.
   */
  lemma ReplaceLaw(m: Model, capacity: nat, e: MarketEvent)
    requires e.ReplaceEvent?
    ensures Accepts(m, capacity, e) <==>
            && e.oldOrderId in m.orders && e.newOrderId != 0 && e.newQuantity != 0 && e.newOrderId !in m.orders
            && var o := m.orders[e.oldOrderId].order;
               LevelSum(m.orders - {e.oldOrderId}, LevelKey(o.symbol, o.side, e.newPrice))
               + e.newQuantity <= 0xFFFF_FFFF
    ensures Accepts(m, capacity, e) ==>
              var o := m.orders[e.oldOrderId].order;
              var o' := Order(e.newOrderId, o.symbol, o.side, e.newQuantity, e.newPrice);
              Step(m, capacity, e)
              == Model((m.orders - {e.oldOrderId})[e.newOrderId := Resting(o', m.clock)], m.clock + 1)
    ensures !Accepts(m, capacity, e) ==> Step(m, capacity, e) == m
  {
  }

  /** A run is its events, one step each, from the first to the last. */
  lemma RunLaw(m: Model, capacity: nat, es: seq<MarketEvent>, e: MarketEvent)
    ensures Run(m, capacity, []) == m
    ensures Run(m, capacity, es + [e]) == Step(Run(m, capacity, es), capacity, e)
  {
    assert (es + [e])[..|es|] == es;
  }

  /** What each flow of the ledger counts. */
  lemma LedgerLaw(m: Model, capacity: nat, es: seq<MarketEvent>, e: MarketEvent)
    ensures RunLedger(m, capacity, []) == Ledger(0, 0, 0, 0, 0, 0)
    ensures var l, l', before := RunLedger(m, capacity, es), RunLedger(m, capacity, es + [e]), Run(m, capacity, es);
            if !Accepts(before, capacity, e) then l' == l
            else match e
              case AddEvent(_, o) => l' == l.(added := l.added + o.quantity)
              case ExecuteEvent(_, _, shares, _, _, _, _) => l' == l.(executed := l.executed + shares)
              case CancelEvent(_, _, shares) => l' == l.(canceled := l.canceled + shares)
              case DeleteEvent(_, id) =>
                id in before.orders && l' == l.(deleted := l.deleted + before.orders[id].order.quantity)
              case ReplaceEvent(_, id, _, quantity, _) =>
                && id in before.orders
                && l' == l.(replacing := l.replacing + quantity,
                            replaced := l.replaced + before.orders[id].order.quantity)
  {
    assert (es + [e])[..|es|] == es;
  }

  // ---------------------------------------------------------------- what a side lists

  /** The best bid is the highest price of a resting buy order, the best ask the lowest of a resting sell order. */
  lemma BestLaw(orders: Orders, symbol: Symbol, side: Side)
    ensures Best(orders, symbol, side).None? <==>
            forall id :: id in orders ==> orders[id].order.symbol != symbol || orders[id].order.side != side
    ensures Best(orders, symbol, side).Some? ==>
              && (exists id :: id in orders && orders[id].order.symbol == symbol && orders[id].order.side == side
                               && orders[id].order.price == Best(orders, symbol, side).value)
              && (forall id :: id in orders && orders[id].order.symbol == symbol && orders[id].order.side == side ==>
                    if side == Buy then orders[id].order.price <= Best(orders, symbol, side).value
                    else orders[id].order.price >= Best(orders, symbol, side).value)
  {
    BestIsBest(orders, symbol, side);
    forall id | id in orders && orders[id].order.symbol == symbol && orders[id].order.side == side
      ensures orders[id].order.price in Prices(orders, symbol, side)
    {
    }
  }

  lemma PriceListLaw(orders: Orders, symbol: Symbol, side: Side)
    ensures var ps := PriceList(orders, symbol, side);
            && (forall i, j :: 0 <= i < j < |ps| ==> if side == Buy then ps[i] > ps[j] else ps[i] < ps[j])
            && (forall p :: p in ps <==> exists id :: id in orders && orders[id].order.symbol == symbol
                                                      && orders[id].order.side == side && orders[id].order.price == p)
  {
    var ps := PriceList(orders, symbol, side);
    SortBySorts(Prices(orders, symbol, side), PriceRank(side));
    forall i, j | 0 <= i < j < |ps| ensures if side == Buy then ps[i] > ps[j] else ps[i] < ps[j] {
      assert PriceRank(side)(ps[i]) < PriceRank(side)(ps[j]);
    }
  }

  /** A queue runs from the oldest priority on. */
  lemma QueuedInOrder(orders: Orders, k: LevelKey, i: nat, j: nat)
    requires DistinctPriorities(orders) && i < j < |Fifo(orders, k)|
    ensures var a, b := Fifo(orders, k)[i], Fifo(orders, k)[j];
            a in orders && b in orders && orders[a].priority < orders[b].priority
  {
    var q := Fifo(orders, k);
    assert Ahead(orders, k, q[i], q[j]);
    AheadIff(orders, k, q[i], q[j]);
  }

  /** The queue of a level holds exactly the orders of its symbol, side and price. */
  lemma QueuedIff(orders: Orders, symbol: Symbol, side: Side, price: u32, id: u64)
    requires DistinctPriorities(orders)
    ensures id in Fifo(orders, LevelKey(symbol, side, price)) <==>
            && id in orders && orders[id].order.symbol == symbol && orders[id].order.side == side
            && orders[id].order.price == price
  {
    FifoSorts(orders, LevelKey(symbol, side, price));
  }

  /**
   A side's snapshots: bids from the highest price down and asks from the lowest up, one for each price at which an
   order rests, each with the sum of its orders and their ids from the oldest on.
   */
  lemma SnapshotsLaw(orders: Orders, symbol: Symbol, side: Side, out: seq<LevelSnapshot>)
    requires DistinctPriorities(orders) && Snapshots(ViewSide(orders, symbol, side), out)
    ensures forall i, j :: 0 <= i < j < |out| ==>
              if side == Buy then out[i].price > out[j].price else out[i].price < out[j].price
    ensures forall id :: id in orders && orders[id].order.symbol == symbol && orders[id].order.side == side ==>
              exists i :: 0 <= i < |out| && out[i].price == orders[id].order.price
    ensures forall i :: 0 <= i < |out| ==>
              && out[i].total == LevelSum(orders, LevelKey(symbol, side, out[i].price))
              && out[i].fifoOrderIds == Fifo(orders, LevelKey(symbol, side, out[i].price))
              && out[i].fifoOrderIds != []
  {
    var ps := PriceList(orders, symbol, side);
    PriceListLaw(orders, symbol, side);
    forall i | 0 <= i < |out|
      ensures out[i].price == ps[i]
      ensures out[i].total == LevelSum(orders, LevelKey(symbol, side, ps[i]))
      ensures out[i].fifoOrderIds == Fifo(orders, LevelKey(symbol, side, ps[i])) && out[i].fifoOrderIds != []
    {
      OneSnapshotLaw(orders, symbol, side, out, i);
    }
    forall id | id in orders && orders[id].order.symbol == symbol && orders[id].order.side == side
      ensures exists i :: 0 <= i < |out| && out[i].price == orders[id].order.price
    {
      assert orders[id].order.price in ps;
      var i :| 0 <= i < |ps| && ps[i] == orders[id].order.price;
      assert out[i].price == ps[i];
    }
  }

  lemma OneSnapshotLaw(orders: Orders, symbol: Symbol, side: Side, out: seq<LevelSnapshot>, i: nat)
    requires DistinctPriorities(orders) && Snapshots(ViewSide(orders, symbol, side), out) && i < |out|
    ensures i < |PriceList(orders, symbol, side)|
    ensures var p := PriceList(orders, symbol, side)[i];
            && out[i].price == p && out[i].total == LevelSum(orders, LevelKey(symbol, side, p))
            && out[i].fifoOrderIds == Fifo(orders, LevelKey(symbol, side, p)) && out[i].fifoOrderIds != []
  {
    var ps := PriceList(orders, symbol, side);
    ViewLevelsAt(orders, symbol, side, ps, i);
    SnapshotShowsFifo(orders, LevelKey(symbol, side, ps[i]), out[i]);
    PriceListLaw(orders, symbol, side);
    assert ps[i] in ps;
    var id :| id in orders && orders[id].order.symbol == symbol && orders[id].order.side == side
              && orders[id].order.price == ps[i];
    QueuedIff(orders, symbol, side, ps[i], id);
  }

  /** A side as it is shown: price by price, with the sum of the orders there and each order's id and quantity. */
  lemma SideViewLaw(orders: Orders, symbol: Symbol, side: Side, i: nat, j: nat)
    requires DistinctPriorities(orders) && i < |ViewSide(orders, symbol, side)|
    requires j < |ViewSide(orders, symbol, side)[i].queue|
    ensures |PriceList(orders, symbol, side)| == |ViewSide(orders, symbol, side)|
    ensures var v, k := ViewSide(orders, symbol, side)[i], LevelKey(symbol, side, PriceList(orders, symbol, side)[i]);
            && v.price == k.price && v.total == LevelSum(orders, k) && |v.queue| == |Fifo(orders, k)|
            && v.queue[j].id == Fifo(orders, k)[j] && v.queue[j].id in orders
            && v.queue[j].quantity == orders[v.queue[j].id].order.quantity
  {
    var ps := PriceList(orders, symbol, side);
    var k := LevelKey(symbol, side, ps[i]);
    ViewLevelsAt(orders, symbol, side, ps, i);
    FifoSorts(orders, k);
    QueuedOfAt(orders, Fifo(orders, k), j);
  }

  // ---------------------------------------------------------------- symbols

  /** Characters compare as signed bytes. */
  lemma CharLaw(a: u8, b: u8)
    ensures CharOrder(a) < CharOrder(b) <==>
            (if a < 128 then a else a - 256) < (if b < 128 then b else b - 256)
  {
  }

  /** Each symbol is shown with its bids and its asks. */
  lemma SymbolAt(orders: Orders, i: nat)
    requires DistinctPriorities(orders) && i < |Observe(orders)|
    ensures i < |SymbolList(orders)| && Observe(orders)[i].symbol == SymbolList(orders)[i]
    ensures Observe(orders)[i].bids == ViewSide(orders, Observe(orders)[i].symbol, Buy)
    ensures Observe(orders)[i].asks == ViewSide(orders, Observe(orders)[i].symbol, Sell)
  {
    ViewSymbolsAt(orders, SymbolList(orders), i);
  }

  lemma SymbolListLaw(orders: Orders)
    ensures var ss := SymbolList(orders);
            && (forall i, j :: 0 <= i < j < |ss| ==> LexLess(ss[i], ss[j]))
            && (forall s :: s in ss <==> exists id :: id in orders && orders[id].order.symbol == s)
  {
    var ss := SymbolList(orders);
    SymbolRankInjective(Symbols(orders));
    SortBySorts(Symbols(orders), SymbolRank());
    forall i, j | 0 <= i < j < |ss| ensures LexLess(ss[i], ss[j]) {
      assert SymbolRank()(ss[i]) < SymbolRank()(ss[j]);
      RankIsLexicographic(ss[i], ss[j]);
    }
  }

  /** A book shows symbols in lexicographic order. */
  lemma SymbolsLaw(orders: Orders, i: nat, j: nat)
    requires DistinctPriorities(orders) && i < j < |Observe(orders)|
    ensures LexLess(Observe(orders)[i].symbol, Observe(orders)[j].symbol)
  {
    SymbolListLaw(orders);
    SymbolAt(orders, i);
    SymbolAt(orders, j);
  }

  /** It shows exactly the symbols of its orders. */
  lemma SymbolShownIff(orders: Orders, s: Symbol)
    requires DistinctPriorities(orders)
    ensures (exists i :: 0 <= i < |Observe(orders)| && Observe(orders)[i].symbol == s)
            <==> exists id :: id in orders && orders[id].order.symbol == s
  {
    SymbolListLaw(orders);
    var ss := SymbolList(orders);
    if exists i :: 0 <= i < |Observe(orders)| && Observe(orders)[i].symbol == s {
      var i :| 0 <= i < |Observe(orders)| && Observe(orders)[i].symbol == s;
      SymbolAt(orders, i);
      assert ss[i] in ss;
    }
    if s in ss {
      var i :| 0 <= i < |ss| && ss[i] == s;
      SymbolAt(orders, i);
    }
  }
}
