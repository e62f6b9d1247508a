/** Time priority: what each event does to each queue, and that no order overtakes another over a whole run. */
module BookQueues {
  import opened Types
  import opened BookModel
  import opened BookView

  /** What an accepted event does to the queue of level `k`. */
  function QueueAfter(q: seq<u64>, m: Model, e: MarketEvent, k: LevelKey): seq<u64> {
    match e
    case AddEvent(_, o) => Joined(q, o, k)
    case ExecuteEvent(_, id, shares, _, _, _, _) => Served(q, m, id, shares)
    case CancelEvent(_, id, shares) => Served(q, m, id, shares)
    case DeleteEvent(_, id) => Without(q, id)
    case ReplaceEvent(_, old', new', quantity, price) =>
      if old' in m.orders then Joined(Without(q, old'), Replacement(m.orders[old'].order, new', quantity, price), k)
      else q
  }

  /** A new order goes to the end of its own queue. */
  function Joined(q: seq<u64>, o: Order, k: LevelKey): seq<u64> {
    if KeyOf(o) == k then q + [o.id] else q
  }

  /** An order leaves its queue only with its last share. */
  function Served(q: seq<u64>, m: Model, id: u64, shares: u32): seq<u64> {
    if id in m.orders && m.orders[id].order.quantity == shares then Without(q, id) else q
  }

  lemma QueueAfterReduce(m: Model, id: u64, shares: u32, k: LevelKey)
    requires DistinctPriorities(m.orders) && CanReduce(m, id, shares)
    ensures DistinctPriorities(Reduced(m.orders, id, shares))
    ensures Fifo(Reduced(m.orders, id, shares), k) == Served(Fifo(m.orders, k), m, id, shares)
  {
    if shares == m.orders[id].order.quantity {
      FifoAfterLeave(m.orders, id, k);
    } else {
      FifoAfterPartialReduce(m.orders, id, shares, k);
    }
  }

  lemma QueueAfterReplace(m: Model, old': u64, o: Order, k: LevelKey)
    requires DistinctPriorities(m.orders) && WellFormedOrders(m.orders, m.clock) && o.id !in m.orders
    ensures var orders' := (m.orders - {old'})[o.id := Resting(o, m.clock)];
            DistinctPriorities(orders') && Fifo(orders', k) == Joined(Without(Fifo(m.orders, k), old'), o, k)
  {
    FifoAfterLeave(m.orders, old', k);
    FifoAfterJoin(m.(orders := m.orders - {old'}), o, k);
  }

  lemma QueueAfterJoining(m: Model, capacity: nat, e: MarketEvent, k: LevelKey)
    requires WellFormed(m, capacity) && Accepts(m, capacity, e) && (e.AddEvent? || e.ReplaceEvent?)
    ensures DistinctPriorities(Effect(m, capacity, e).orders)
    ensures Fifo(Effect(m, capacity, e).orders, k) == QueueAfter(Fifo(m.orders, k), m, e, k)
  {
    if e.AddEvent? {
      FifoAfterJoin(m, e.order, k);
    } else {
      var o := m.orders[e.oldOrderId].order;
      QueueAfterReplace(m, e.oldOrderId, Replacement(o, e.newOrderId, e.newQuantity, e.newPrice), k);
    }
  }

  lemma QueueAfterLeaving(m: Model, capacity: nat, e: MarketEvent, k: LevelKey)
    requires WellFormed(m, capacity) && Accepts(m, capacity, e) && (e.ExecuteEvent? || e.CancelEvent? || e.DeleteEvent?)
    ensures DistinctPriorities(Effect(m, capacity, e).orders)
    ensures Fifo(Effect(m, capacity, e).orders, k) == QueueAfter(Fifo(m.orders, k), m, e, k)
  {
    match e
    case ExecuteEvent(_, id, shares, _, _, _, _) => QueueAfterReduce(m, id, shares, k);
    case CancelEvent(_, id, shares) => QueueAfterReduce(m, id, shares, k);
    case DeleteEvent(_, id) => FifoAfterLeave(m.orders, id, k);
  }

  /** Every queue after every event: a rejected event changes none, and an accepted one only as `QueueAfter` says. */
  lemma QueueAfterStep(m: Model, capacity: nat, e: MarketEvent, k: LevelKey)
    requires WellFormed(m, capacity)
    ensures DistinctPriorities(Step(m, capacity, e).orders)
    ensures Fifo(Step(m, capacity, e).orders, k)
            == if Accepts(m, capacity, e) then QueueAfter(Fifo(m.orders, k), m, e, k) else Fifo(m.orders, k)
  {
    if Accepts(m, capacity, e) {
      if e.AddEvent? || e.ReplaceEvent? {
        QueueAfterJoining(m, capacity, e, k);
      } else {
        QueueAfterLeaving(m, capacity, e, k);
      }
    }
  }

  // ---------------------------------------------------------------- over whole runs

  /** The same order, later: at the same place, with no more shares. */
  predicate Aged(r: Resting, r': Resting) {
    && r'.priority == r.priority
    && r'.order == r.order.(quantity := r'.order.quantity)
    && r'.order.quantity <= r.order.quantity
  }

  /** Every order of `m'` joined after `m`, or is an order of `m` that has aged. */
  ghost predicate Descends(m: Model, m': Model) {
    && m.clock <= m'.clock
    && forall id :: id in m'.orders ==>
         m'.orders[id].priority >= m.clock || (id in m.orders && Aged(m.orders[id], m'.orders[id]))
  }

  lemma StepDescends(m: Model, capacity: nat, e: MarketEvent)
    ensures Descends(m, Step(m, capacity, e))
  {
  }

  lemma DescendsTransitive(a: Model, b: Model, c: Model)
    requires Descends(a, b) && Descends(b, c)
    ensures Descends(a, c)
  {
  }

  lemma {:induction false} RunDescends(m: Model, capacity: nat, es: seq<MarketEvent>)
    ensures Descends(m, Run(m, capacity, es))
  {
    if es != [] {
      var n := |es| - 1;
      var before := Run(m, capacity, es[..n]);
      RunDescends(m, capacity, es[..n]);
      StepDescends(before, capacity, es[n]);
      DescendsTransitive(m, before, Run(m, capacity, es));
    }
  }

  /**
   No overtaking. An order that stood behind another one stays behind it for as long as both rest,
   whatever happens in between; an id that came in anew stands behind every order that was there.
   */
  lemma NoOvertaking(m: Model, capacity: nat, es: seq<MarketEvent>, k: LevelKey, a: u64, b: u64)
    requires WellFormed(m, capacity)
    requires a in AtLevel(m.orders, k)
    requires var orders' := Run(m, capacity, es).orders;
             a in AtLevel(orders', k) && b in AtLevel(orders', k) && orders'[a].priority == m.orders[a].priority
    ensures DistinctPriorities(Run(m, capacity, es).orders)
    ensures Ahead(m.orders, k, a, b) ==> Ahead(Run(m, capacity, es).orders, k, a, b)
    ensures b !in m.orders ==> Ahead(Run(m, capacity, es).orders, k, a, b)
    ensures Ahead(Run(m, capacity, es).orders, k, b, a) ==> Ahead(m.orders, k, b, a)
  {
    RunKeepsWellFormed(m, capacity, es);
    RunDescends(m, capacity, es);
    AheadIff(m.orders, k, a, b);
    AheadIff(m.orders, k, b, a);
    AheadIff(Run(m, capacity, es).orders, k, a, b);
    AheadIff(Run(m, capacity, es).orders, k, b, a);
  }
}
