/**
 The simple model that the order book refines: a map from order id to the resting order and its
 arrival priority, as in tests/test_order_book.cpp. Everything that the book shows (best prices,
 levels, queues, totals, hash) is a function of this map.
 */
module BookModel {
  import opened Types
  import opened Ordered
  import opened Sequences

  datatype LevelKey = LevelKey(symbol: Symbol, side: Side, price: u32)

  function KeyOf(o: Order): LevelKey {
    LevelKey(o.symbol, o.side, o.price)
  }

  datatype Resting = Resting(order: Order, priority: nat)

  type Orders = map<u64, Resting>

  /** `clock` numbers the next order that joins a queue. */
  datatype Model = Model(orders: Orders, clock: nat)

  const EMPTY_MODEL := Model(map[], 0)

  // ---------------------------------------------------------------- sums

  /** The total quantity of a set of orders. */
  ghost function Shares(orders: Orders): nat {
    if orders == map[] then 0
    else
      var id :| id in orders;
      orders[id].order.quantity + Shares(orders - {id})
  }

  /** The sum does not depend on the order in which the ids are picked. */
  lemma {:induction false} SharesWithout(orders: Orders, id: u64)
    requires id in orders
    ensures Shares(orders) == orders[id].order.quantity + Shares(orders - {id})
    decreases |orders|
  {
    var pick :| pick in orders && Shares(orders) == orders[pick].order.quantity + Shares(orders - {pick});
    if pick != id {
      var rest, rest' := orders - {pick}, orders - {id};
      assert orders.Keys == rest.Keys + {pick} && orders.Keys == rest'.Keys + {id};
      SharesWithout(rest, id);
      SharesWithout(rest', pick);
      assert rest - {id} == rest' - {pick};
    }
  }

  lemma SharesPut(orders: Orders, id: u64, r: Resting)
    requires id !in orders
    ensures Shares(orders[id := r]) == Shares(orders) + r.order.quantity
  {
    SharesWithout(orders[id := r], id);
    assert orders[id := r] - {id} == orders;
  }

  ghost function AtLevel(orders: Orders, k: LevelKey): (m: Orders)
    ensures forall id :: id in m <==> id in orders && KeyOf(orders[id].order) == k
    ensures forall id :: id in m ==> m[id] == orders[id]
  {
    map id | id in orders && KeyOf(orders[id].order) == k :: orders[id]
  }

  ghost function LevelSum(orders: Orders, k: LevelKey): nat {
    Shares(AtLevel(orders, k))
  }

  lemma LevelSumPut(orders: Orders, id: u64, r: Resting, k: LevelKey)
    requires id !in orders
    ensures LevelSum(orders[id := r], k) == LevelSum(orders, k) + if KeyOf(r.order) == k then r.order.quantity else 0
  {
    if KeyOf(r.order) == k {
      SharesPut(AtLevel(orders, k), id, r);
      assert AtLevel(orders[id := r], k) == AtLevel(orders, k)[id := r];
    } else {
      assert AtLevel(orders[id := r], k) == AtLevel(orders, k);
    }
  }

  lemma LevelSumWithout(orders: Orders, id: u64, k: LevelKey)
    requires id in orders
    ensures LevelSum(orders, k)
            == LevelSum(orders - {id}, k) + if KeyOf(orders[id].order) == k then orders[id].order.quantity else 0
  {
    LevelSumPut(orders - {id}, id, orders[id], k);
    assert (orders - {id})[id := orders[id]] == orders;
  }

  // ---------------------------------------------------------------- events

  /** Exactly which events a book of `capacity` slots accepts. */
  ghost predicate Accepts(m: Model, capacity: nat, e: MarketEvent) {
    match e
    case AddEvent(_, o) =>
      && o.id != 0 && o.quantity != 0 && o.id !in m.orders && |m.orders| < capacity
      && LevelSum(m.orders, KeyOf(o)) + o.quantity <= U32_MAX
    case ExecuteEvent(_, id, shares, _, _, _, _) => CanReduce(m, id, shares)
    case CancelEvent(_, id, shares) => CanReduce(m, id, shares)
    case DeleteEvent(_, id) => id in m.orders
    case ReplaceEvent(_, old', new', quantity, price) =>
      && old' in m.orders && new' != 0 && quantity != 0 && new' !in m.orders
      && LevelSum(m.orders - {old'}, KeyOf(m.orders[old'].order).(price := price)) + quantity <= U32_MAX
  }

  predicate CanReduce(m: Model, id: u64, shares: u32) {
    id in m.orders && shares != 0 && shares <= m.orders[id].order.quantity
  }

  /** A resting order with fewer shares, at the same place in its queue. */
  function Lessened(r: Resting, shares: u32): Resting
    requires shares <= r.order.quantity
  {
    r.(order := r.order.(quantity := r.order.quantity - shares))
  }

  function Reduced(orders: Orders, id: u64, shares: u32): Orders
    requires id in orders && shares <= orders[id].order.quantity
  {
    if orders[id].order.quantity == shares then orders - {id} else orders[id := Lessened(orders[id], shares)]
  }

  function Replacement(o: Order, id: u64, quantity: u32, price: u32): Order {
    o.(id := id, quantity := quantity, price := price)
  }

  /** What an accepted event does. A reduced order keeps its priority; a replacing order takes a new one. */
  ghost function Effect(m: Model, capacity: nat, e: MarketEvent): Model
    requires Accepts(m, capacity, e)
  {
    match e
    case AddEvent(_, o) => Model(m.orders[o.id := Resting(o, m.clock)], m.clock + 1)
    case ExecuteEvent(_, id, shares, _, _, _, _) => m.(orders := Reduced(m.orders, id, shares))
    case CancelEvent(_, id, shares) => m.(orders := Reduced(m.orders, id, shares))
    case DeleteEvent(_, id) => m.(orders := m.orders - {id})
    case ReplaceEvent(_, old', new', quantity, price) =>
      var o := Replacement(m.orders[old'].order, new', quantity, price);
      Model((m.orders - {old'})[new' := Resting(o, m.clock)], m.clock + 1)
  }

  ghost function Step(m: Model, capacity: nat, e: MarketEvent): Model {
    if Accepts(m, capacity, e) then Effect(m, capacity, e) else m
  }

  ghost function Run(m: Model, capacity: nat, es: seq<MarketEvent>): Model {
    if es == [] then m else Step(Run(m, capacity, es[..|es| - 1]), capacity, es[|es| - 1])
  }

  // ---------------------------------------------------------------- invariant over runs

  ghost predicate DistinctPriorities(orders: Orders) {
    forall a, b {:trigger orders[a].priority, orders[b].priority} ::
      a in orders && b in orders && orders[a].priority == orders[b].priority ==> a == b
  }

  ghost predicate AllPositive(orders: Orders) {
    forall id :: id in orders ==> id != 0 && orders[id].order.quantity > 0
  }

  ghost predicate WellFormedOrders(orders: Orders, clock: nat) {
    forall id :: id in orders ==>
      && orders[id].order.id == id
      && id != 0
      && orders[id].order.quantity > 0
      && orders[id].priority < clock
  }

  ghost predicate LevelsFit(orders: Orders) {
    forall k :: LevelSum(orders, k) <= U32_MAX
  }

  ghost predicate WellFormed(m: Model, capacity: nat) {
    && WellFormedOrders(m.orders, m.clock)
    && DistinctPriorities(m.orders)
    && |m.orders| <= capacity
    && LevelsFit(m.orders)
  }

  lemma LevelsFitWithout(orders: Orders, id: u64)
    requires LevelsFit(orders)
    ensures LevelsFit(orders - {id})
  {
    if id in orders {
      forall k ensures LevelSum(orders - {id}, k) <= U32_MAX {
        LevelSumWithout(orders, id, k);
      }
    } else {
      assert orders - {id} == orders;
    }
  }

  lemma LevelsFitPut(orders: Orders, id: u64, r: Resting)
    requires LevelsFit(orders) && id !in orders
    requires LevelSum(orders, KeyOf(r.order)) + r.order.quantity <= U32_MAX
    ensures LevelsFit(orders[id := r])
  {
    var orders' := orders[id := r];
    forall k ensures LevelSum(orders', k) <= U32_MAX {
      LevelSumPut(orders, id, r, k);
    }
  }

  /** A reduced order is the order taken out and put back with fewer shares. */
  lemma ReducedAsPut(orders: Orders, id: u64, shares: u32)
    requires id in orders && shares < orders[id].order.quantity
    ensures Reduced(orders, id, shares) == (orders - {id})[id := Lessened(orders[id], shares)]
  {
  }

  lemma ReducedFits(orders: Orders, id: u64, shares: u32)
    requires LevelsFit(orders)
    requires id in orders && shares <= orders[id].order.quantity
    ensures LevelsFit(Reduced(orders, id, shares))
  {
    LevelsFitWithout(orders, id);
    if shares < orders[id].order.quantity {
      var r := Lessened(orders[id], shares);
      ReducedAsPut(orders, id, shares);
      LevelSumWithout(orders, id, KeyOf(r.order));
      LevelsFitPut(orders - {id}, id, r);
    }
  }

  lemma WithoutKeepsWellFormed(m: Model, capacity: nat, id: u64)
    requires WellFormed(m, capacity)
    ensures WellFormed(m.(orders := m.orders - {id}), capacity)
  {
    LevelsFitWithout(m.orders, id);
    CountWithout(m.orders, id);
  }

  lemma JoinKeepsWellFormed(m: Model, capacity: nat, o: Order)
    requires WellFormed(m, capacity) && |m.orders| < capacity
    requires o.id != 0 && o.quantity != 0 && o.id !in m.orders
    requires LevelSum(m.orders, KeyOf(o)) + o.quantity <= U32_MAX
    ensures WellFormed(Model(m.orders[o.id := Resting(o, m.clock)], m.clock + 1), capacity)
  {
    LevelsFitPut(m.orders, o.id, Resting(o, m.clock));
    CountPut(m.orders, o.id, Resting(o, m.clock));
  }

  lemma ReducedKeepsWellFormed(m: Model, capacity: nat, id: u64, shares: u32)
    requires WellFormed(m, capacity) && CanReduce(m, id, shares)
    ensures WellFormed(m.(orders := Reduced(m.orders, id, shares)), capacity)
  {
    if shares == m.orders[id].order.quantity {
      WithoutKeepsWellFormed(m, capacity, id);
    } else {
      ReducedFits(m.orders, id, shares);
      CountPut(m.orders, id, Lessened(m.orders[id], shares));
    }
  }

  lemma ReplacedKeepsWellFormed(m: Model, capacity: nat, old': u64, o: Order)
    requires WellFormed(m, capacity) && old' in m.orders && o.id != 0 && o.quantity != 0 && o.id !in m.orders
    requires LevelSum(m.orders - {old'}, KeyOf(o)) + o.quantity <= U32_MAX
    ensures WellFormed(Model((m.orders - {old'})[o.id := Resting(o, m.clock)], m.clock + 1), capacity)
  {
    WithoutKeepsWellFormed(m, capacity, old');
    CountWithout(m.orders, old');
    JoinKeepsWellFormed(m.(orders := m.orders - {old'}), capacity, o);
  }

  lemma StepKeepsWellFormed(m: Model, capacity: nat, e: MarketEvent)
    requires WellFormed(m, capacity)
    ensures WellFormed(Step(m, capacity, e), capacity)
  {
    if Accepts(m, capacity, e) {
      match e
      case AddEvent(_, o) => JoinKeepsWellFormed(m, capacity, o);
      case ExecuteEvent(_, id, shares, _, _, _, _) => ReducedKeepsWellFormed(m, capacity, id, shares);
      case CancelEvent(_, id, shares) => ReducedKeepsWellFormed(m, capacity, id, shares);
      case DeleteEvent(_, id) => WithoutKeepsWellFormed(m, capacity, id);
      case ReplaceEvent(_, old', new', quantity, price) =>
        ReplacedKeepsWellFormed(m, capacity, old', Replacement(m.orders[old'].order, new', quantity, price));
    }
  }

  /** Every event sequence keeps the book well formed: positive quantities, distinct priorities, totals in 32 bits. */
  lemma {:induction false} RunKeepsWellFormed(m: Model, capacity: nat, es: seq<MarketEvent>)
    requires WellFormed(m, capacity)
    ensures WellFormed(Run(m, capacity, es), capacity)
  {
    if es != [] {
      RunKeepsWellFormed(m, capacity, es[..|es| - 1]);
      StepKeepsWellFormed(Run(m, capacity, es[..|es| - 1]), capacity, es[|es| - 1]);
    }
  }

  lemma {:induction false} RunAppend(m: Model, capacity: nat, es: seq<MarketEvent>, fs: seq<MarketEvent>)
    ensures Run(m, capacity, es + fs) == Run(Run(m, capacity, es), capacity, fs)
  {
    if fs == [] {
      assert es + fs == es;
    } else {
      var n := |fs| - 1;
      RunAppend(m, capacity, es, fs[..n]);
      ButLastOfConcat(es, fs);
    }
  }

  // ---------------------------------------------------------------- conservation of shares

  /** Shares that accepted events brought in and took out. */
  datatype Ledger = Ledger(added: nat, replacing: nat, executed: nat, canceled: nat, deleted: nat, replaced: nat)

  const NO_FLOW := Ledger(0, 0, 0, 0, 0, 0)

  ghost function Post(l: Ledger, m: Model, capacity: nat, e: MarketEvent): Ledger {
    if !Accepts(m, capacity, e) then l
    else match e
      case AddEvent(_, o) => l.(added := l.added + o.quantity)
      case ExecuteEvent(_, _, shares, _, _, _, _) => l.(executed := l.executed + shares)
      case CancelEvent(_, _, shares) => l.(canceled := l.canceled + shares)
      case DeleteEvent(_, id) => l.(deleted := l.deleted + m.orders[id].order.quantity)
      case ReplaceEvent(_, old', _, quantity, _) =>
        l.(replacing := l.replacing + quantity, replaced := l.replaced + m.orders[old'].order.quantity)
  }

  ghost function RunLedger(m: Model, capacity: nat, es: seq<MarketEvent>): Ledger {
    if es == [] then NO_FLOW
    else Post(RunLedger(m, capacity, es[..|es| - 1]), Run(m, capacity, es[..|es| - 1]), capacity, es[|es| - 1])
  }

  lemma SharesReduced(orders: Orders, id: u64, shares: u32)
    requires id in orders && shares <= orders[id].order.quantity
    ensures Shares(orders) == Shares(Reduced(orders, id, shares)) + shares
  {
    SharesWithout(orders, id);
    if shares < orders[id].order.quantity {
      var r := Lessened(orders[id], shares);
      ReducedAsPut(orders, id, shares);
      SharesPut(orders - {id}, id, r);
    }
  }

  function In(l: Ledger): nat {
    l.added + l.replacing
  }

  function Out(l: Ledger): nat {
    l.executed + l.canceled + l.deleted + l.replaced
  }

  lemma StepConserves(l: Ledger, m: Model, capacity: nat, e: MarketEvent)
    ensures Shares(m.orders) + In(Post(l, m, capacity, e)) - In(l)
            == Shares(Step(m, capacity, e).orders) + Out(Post(l, m, capacity, e)) - Out(l)
  {
    if Accepts(m, capacity, e) {
      match e
      case AddEvent(_, o) => SharesPut(m.orders, o.id, Resting(o, m.clock));
      case ExecuteEvent(_, id, shares, _, _, _, _) => SharesReduced(m.orders, id, shares);
      case CancelEvent(_, id, shares) => SharesReduced(m.orders, id, shares);
      case DeleteEvent(_, id) => SharesWithout(m.orders, id);
      case ReplaceEvent(_, old', new', quantity, price) =>
        SharesWithout(m.orders, old');
        SharesPut(m.orders - {old'}, new', Resting(Replacement(m.orders[old'].order, new', quantity, price), m.clock));
    }
  }

  /** Over every run, what went in equals what is still live plus everything that went out. */
  lemma {:induction false} SharesConserved(m: Model, capacity: nat, es: seq<MarketEvent>)
    ensures var f := RunLedger(m, capacity, es);
            Shares(m.orders) + f.added + f.replacing
            == Shares(Run(m, capacity, es).orders) + f.executed + f.canceled + f.deleted + f.replaced
  {
    if es != [] {
      var n := |es| - 1;
      SharesConserved(m, capacity, es[..n]);
      StepConserves(RunLedger(m, capacity, es[..n]), Run(m, capacity, es[..n]), capacity, es[n]);
    }
  }
}
