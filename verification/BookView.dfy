/**
 What an order book shows, as functions of the model: the queue of a price level, the levels of a
 side, the best price, and the hash of the whole book (src/order_book.cpp:215-281).
 */
module BookView {
  import opened Types
  import opened Ordered
  import opened BookModel

  // ---------------------------------------------------------------- the queue of a level

  function PriorityRank(orders: Orders): u64 -> int {
    (id: u64) => if id in orders then orders[id].priority else -1
  }

  /** The ids resting at a level, longest waiting first. */
  ghost function Fifo(orders: Orders, k: LevelKey): seq<u64>
    requires DistinctPriorities(orders)
  {
    SortBy(AtLevel(orders, k).Keys, PriorityRank(orders))
  }

  lemma FifoSorts(orders: Orders, k: LevelKey)
    requires DistinctPriorities(orders)
    ensures Lists(Fifo(orders, k), AtLevel(orders, k).Keys)
    ensures Increasing(Fifo(orders, k), PriorityRank(orders))
    ensures |Fifo(orders, k)| == |AtLevel(orders, k)|
  {
    SortBySorts(AtLevel(orders, k).Keys, PriorityRank(orders));
  }

  lemma FifoUnique(orders: Orders, k: LevelKey, q: seq<u64>)
    requires DistinctPriorities(orders)
    requires Increasing(q, PriorityRank(orders)) && Lists(q, AtLevel(orders, k).Keys)
    ensures q == Fifo(orders, k)
  {
    SortByUnique(q, AtLevel(orders, k).Keys, PriorityRank(orders));
  }

  function Without(q: seq<u64>, id: u64): seq<u64> {
    if q == [] then []
    else if q[0] == id then Without(q[1..], id)
    else [q[0]] + Without(q[1..], id)
  }

  lemma {:induction false} WithoutMembers(q: seq<u64>, id: u64)
    ensures forall x :: x in Without(q, id) <==> x in q && x != id
  {
    if q != [] {
      WithoutMembers(q[1..], id);
      assert q == [q[0]] + q[1..];
    }
  }

  lemma {:induction false} WithoutIncreasing(q: seq<u64>, id: u64, rank: u64 -> int)
    requires Increasing(q, rank)
    ensures Increasing(Without(q, id), rank)
  {
    if q != [] {
      var r := Without(q[1..], id);
      WithoutIncreasing(q[1..], id, rank);
      forall i | 0 <= i < |r| ensures rank(q[0]) < rank(r[i]) {
        WithoutMembers(q[1..], id);
        assert r[i] in q[1..];
      }
      IncreasingPrepend(q[0], r, rank);
    }
  }

  /** Two books that rank the orders of a level alike show the same queue. */
  lemma FifoSameOrder(orders: Orders, orders': Orders, k: LevelKey)
    requires DistinctPriorities(orders) && DistinctPriorities(orders')
    requires AtLevel(orders, k).Keys == AtLevel(orders', k).Keys
    requires forall a, b :: a in AtLevel(orders, k) && b in AtLevel(orders, k) ==>
               (orders[a].priority < orders[b].priority <==> orders'[a].priority < orders'[b].priority)
    ensures Fifo(orders, k) == Fifo(orders', k)
  {
    SortBySameOrder(AtLevel(orders, k).Keys, PriorityRank(orders), PriorityRank(orders'));
  }

  lemma DistinctAfterJoin(m: Model, o: Order)
    requires DistinctPriorities(m.orders) && WellFormedOrders(m.orders, m.clock)
    ensures DistinctPriorities(m.orders[o.id := Resting(o, m.clock)])
  {
  }

  /** The queue of the level that an order joins, with that order at its end, is in priority order. */
  lemma JoinedIncreasing(m: Model, o: Order)
    requires DistinctPriorities(m.orders) && WellFormedOrders(m.orders, m.clock)
    requires o.id !in m.orders
    ensures Increasing(Fifo(m.orders, KeyOf(o)) + [o.id], PriorityRank(m.orders[o.id := Resting(o, m.clock)]))
  {
    var orders' := m.orders[o.id := Resting(o, m.clock)];
    var q := Fifo(m.orders, KeyOf(o));
    FifoSorts(m.orders, KeyOf(o));
    forall i | 0 <= i < |q| ensures PriorityRank(orders')(q[i]) == PriorityRank(m.orders)(q[i]) < m.clock {
      assert q[i] in q;
    }
    IncreasingSameRank(q, PriorityRank(m.orders), PriorityRank(orders'));
    IncreasingAppend(q, o.id, PriorityRank(orders'));
  }

  lemma JoinedLists(m: Model, o: Order)
    requires DistinctPriorities(m.orders) && o.id !in m.orders
    ensures Lists(Fifo(m.orders, KeyOf(o)) + [o.id], AtLevel(m.orders[o.id := Resting(o, m.clock)], KeyOf(o)).Keys)
  {
    FifoSorts(m.orders, KeyOf(o));
    ListsAppend(Fifo(m.orders, KeyOf(o)), AtLevel(m.orders, KeyOf(o)).Keys, o.id);
    assert AtLevel(m.orders[o.id := Resting(o, m.clock)], KeyOf(o)).Keys == AtLevel(m.orders, KeyOf(o)).Keys + {o.id};
  }

  /** An order that joins goes to the end of its own level's queue and touches no other queue. */
  lemma FifoAfterJoin(m: Model, o: Order, k: LevelKey)
    requires DistinctPriorities(m.orders) && WellFormedOrders(m.orders, m.clock)
    requires o.id !in m.orders
    ensures var orders' := m.orders[o.id := Resting(o, m.clock)];
            && DistinctPriorities(orders')
            && Fifo(orders', k) == Fifo(m.orders, k) + if KeyOf(o) == k then [o.id] else []
  {
    var orders' := m.orders[o.id := Resting(o, m.clock)];
    DistinctAfterJoin(m, o);
    if KeyOf(o) == k {
      JoinedIncreasing(m, o);
      JoinedLists(m, o);
      FifoUnique(orders', k, Fifo(m.orders, k) + [o.id]);
    } else {
      FifoSameOrder(m.orders, orders', k);
    }
  }

  lemma WithoutReranked(q: seq<u64>, id: u64, rank: u64 -> int, rank': u64 -> int)
    requires Increasing(q, rank) && forall x :: x in q && x != id ==> rank'(x) == rank(x)
    ensures Increasing(Without(q, id), rank')
  {
    WithoutIncreasing(q, id, rank);
    WithoutMembers(q, id);
    var rest := Without(q, id);
    forall i | 0 <= i < |rest| ensures rank'(rest[i]) == rank(rest[i]) {
      assert rest[i] in rest;
    }
    IncreasingSameRank(rest, rank, rank');
  }

  lemma RankWithout(orders: Orders, id: u64, x: u64)
    requires x in orders && x != id
    ensures PriorityRank(orders - {id})(x) == PriorityRank(orders)(x)
  {
  }

  lemma LeftIncreasing(orders: Orders, id: u64, k: LevelKey)
    requires DistinctPriorities(orders)
    ensures Increasing(Without(Fifo(orders, k), id), PriorityRank(orders - {id}))
  {
    FifoSorts(orders, k);
    var q := Fifo(orders, k);
    forall x | x in q && x != id ensures PriorityRank(orders - {id})(x) == PriorityRank(orders)(x) {
      RankWithout(orders, id, x);
    }
    WithoutReranked(q, id, PriorityRank(orders), PriorityRank(orders - {id}));
  }

  lemma ListsWithout(q: seq<u64>, s: set<u64>, id: u64)
    requires Lists(q, s)
    ensures Lists(Without(q, id), s - {id})
  {
    WithoutMembers(q, id);
  }

  lemma LevelWithout(orders: Orders, id: u64, k: LevelKey)
    ensures AtLevel(orders - {id}, k).Keys == AtLevel(orders, k).Keys - {id}
  {
  }

  lemma LeftLists(orders: Orders, id: u64, k: LevelKey)
    requires DistinctPriorities(orders)
    ensures Lists(Without(Fifo(orders, k), id), AtLevel(orders - {id}, k).Keys)
  {
    FifoSorts(orders, k);
    ListsWithout(Fifo(orders, k), AtLevel(orders, k).Keys, id);
    LevelWithout(orders, id, k);
  }

  /** An order that leaves is cut out of its queue; the others keep their relative places. */
  lemma FifoAfterLeave(orders: Orders, id: u64, k: LevelKey)
    requires DistinctPriorities(orders)
    ensures DistinctPriorities(orders - {id})
    ensures Fifo(orders - {id}, k) == Without(Fifo(orders, k), id)
  {
    LeftIncreasing(orders, id, k);
    LeftLists(orders, id, k);
    FifoUnique(orders - {id}, k, Without(Fifo(orders, k), id));
  }

  /** A partial execution or cancel moves nobody in any queue. */
  lemma FifoAfterPartialReduce(orders: Orders, id: u64, shares: u32, k: LevelKey)
    requires DistinctPriorities(orders)
    requires id in orders && shares < orders[id].order.quantity
    ensures DistinctPriorities(Reduced(orders, id, shares))
    ensures Fifo(Reduced(orders, id, shares), k) == Fifo(orders, k)
  {
    FifoSameOrder(orders, Reduced(orders, id, shares), k);
  }

  /** `a` stands before `b` in the queue of level `k`. */
  ghost predicate Ahead(orders: Orders, k: LevelKey, a: u64, b: u64)
    requires DistinctPriorities(orders)
  {
    exists i, j :: 0 <= i < j < |Fifo(orders, k)| && Fifo(orders, k)[i] == a && Fifo(orders, k)[j] == b
  }

  lemma LesserIsBefore(q: seq<u64>, rank: u64 -> int, a: u64, b: u64)
    requires Increasing(q, rank) && a in q && b in q && rank(a) < rank(b)
    ensures exists i, j :: 0 <= i < j < |q| && q[i] == a && q[j] == b
  {
    var i :| 0 <= i < |q| && q[i] == a;
    var j :| 0 <= j < |q| && q[j] == b;
    assert i < j;
  }

  lemma BeforeIff(q: seq<u64>, s: set<u64>, rank: u64 -> int, a: u64, b: u64)
    requires Lists(q, s) && Increasing(q, rank)
    ensures (exists i, j :: 0 <= i < j < |q| && q[i] == a && q[j] == b) <==> a in s && b in s && rank(a) < rank(b)
  {
    if a in s && b in s && rank(a) < rank(b) {
      LesserIsBefore(q, rank, a, b);
    }
  }

  /** Of two orders of a level, the one with the lower priority number stands before the other. */
  lemma AheadIff(orders: Orders, k: LevelKey, a: u64, b: u64)
    requires DistinctPriorities(orders)
    ensures Ahead(orders, k, a, b) <==>
            a in AtLevel(orders, k) && b in AtLevel(orders, k) && orders[a].priority < orders[b].priority
  {
    FifoSorts(orders, k);
    BeforeIff(Fifo(orders, k), AtLevel(orders, k).Keys, PriorityRank(orders), a, b);
  }

  // ---------------------------------------------------------------- levels of one side

  /** Bids are listed from the highest price, asks from the lowest. */
  function PriceRank(side: Side): u32 -> int {
    if side == Buy then (p: u32) => U32_MAX - p else (p: u32) => p
  }

  ghost function Prices(orders: Orders, symbol: Symbol, side: Side): set<u32> {
    set id | id in orders && orders[id].order.symbol == symbol && orders[id].order.side == side ::
      orders[id].order.price
  }

  lemma PriceIffOrder(orders: Orders, symbol: Symbol, side: Side, p: u32)
    ensures p in Prices(orders, symbol, side) <==>
                exists id :: id in orders && KeyOf(orders[id].order) == LevelKey(symbol, side, p)
  {
    if exists id :: id in orders && KeyOf(orders[id].order) == LevelKey(symbol, side, p) {
      var id :| id in orders && KeyOf(orders[id].order) == LevelKey(symbol, side, p);
      assert orders[id].order.symbol == symbol && orders[id].order.side == side && orders[id].order.price == p;
    }
  }

  ghost function PriceList(orders: Orders, symbol: Symbol, side: Side): seq<u32> {
    SortBy(Prices(orders, symbol, side), PriceRank(side))
  }

  /** The best price of a side: the highest bid or the lowest ask. */
  ghost function Best(orders: Orders, symbol: Symbol, side: Side): Option<u32> {
    var ps := PriceList(orders, symbol, side);
    if ps == [] then None else Some(ps[0])
  }

  datatype Queued = Queued(id: u64, quantity: u32)

  datatype LevelView = LevelView(price: u32, total: nat, queue: seq<Queued>)

  datatype LevelSnapshot = LevelSnapshot(price: u32, total: u32, fifoOrderIds: seq<u64>)

  function QueuedOf(orders: Orders, ids: seq<u64>): (q: seq<Queued>)
    requires forall id :: id in ids ==> id in orders
    ensures |q| == |ids|
  {
    if ids == [] then []
    else
      var n := |ids| - 1;
      QueuedOf(orders, ids[..n]) + [Queued(ids[n], orders[ids[n]].order.quantity)]
  }

  ghost function ViewLevel(orders: Orders, k: LevelKey): LevelView
    requires DistinctPriorities(orders)
  {
    FifoSorts(orders, k);
    LevelView(k.price, LevelSum(orders, k), QueuedOf(orders, Fifo(orders, k)))
  }

  ghost function ViewLevels(orders: Orders, symbol: Symbol, side: Side, ps: seq<u32>): (v: seq<LevelView>)
    requires DistinctPriorities(orders)
    ensures |v| == |ps|
  {
    seq(|ps|, i requires 0 <= i < |ps| => ViewLevel(orders, LevelKey(symbol, side, ps[i])))
  }

  ghost function ViewSide(orders: Orders, symbol: Symbol, side: Side): seq<LevelView>
    requires DistinctPriorities(orders)
  {
    ViewLevels(orders, symbol, side, PriceList(orders, symbol, side))
  }

  // ---------------------------------------------------------------- the whole book

  /** Characters compare as signed bytes. */
  function CharOrder(b: u8): nat {
    if b < 128 then b + 128 else b - 128
  }

  function RankOfBytes(s: seq<u8>): nat {
    if s == [] then 0 else 256 * RankOfBytes(s[..|s| - 1]) + CharOrder(s[|s| - 1])
  }

  function SymbolRank(): Symbol -> int {
    (s: Symbol) => RankOfBytes(s)
  }

  /** Lexicographic order of byte arrays, as `std::array` compares them. */
  ghost predicate LexLess(a: seq<u8>, b: seq<u8>)
    requires |a| == |b|
  {
    exists i :: 0 <= i < |a| && a[..i] == b[..i] && CharOrder(a[i]) < CharOrder(b[i])
  }

  lemma {:induction false} RankInjective(a: seq<u8>, b: seq<u8>)
    requires |a| == |b| && RankOfBytes(a) == RankOfBytes(b)
    ensures a == b
  {
    if a != [] {
      var n := |a| - 1;
      assert CharOrder(a[n]) < 256 && CharOrder(b[n]) < 256;
      assert RankOfBytes(a[..n]) == RankOfBytes(b[..n]);
      RankInjective(a[..n], b[..n]);
      assert a == a[..n] + [a[n]] && b == b[..n] + [b[n]];
    }
  }

  lemma LexLessExtends(a: seq<u8>, b: seq<u8>, n: nat)
    requires |a| == |b| == n + 1
    ensures LexLess(a, b) <==> LexLess(a[..n], b[..n]) || (a[..n] == b[..n] && CharOrder(a[n]) < CharOrder(b[n]))
  {
    var a', b' := a[..n], b[..n];
    assert forall i :: 0 <= i <= n ==> a[..i] == a'[..i] && b[..i] == b'[..i];
    if LexLess(a', b') {
      var i :| 0 <= i < |a'| && a'[..i] == b'[..i] && CharOrder(a'[i]) < CharOrder(b'[i]);
      assert a[..i] == b[..i] && CharOrder(a[i]) < CharOrder(b[i]);
    }
    if LexLess(a, b) {
      var i :| 0 <= i < |a| && a[..i] == b[..i] && CharOrder(a[i]) < CharOrder(b[i]);
      assert i < n ==> a'[..i] == b'[..i] && CharOrder(a'[i]) < CharOrder(b'[i]);
    }
  }

  /** The rank orders symbols exactly as the source's comparison does. */
  lemma {:induction false} RankIsLexicographic(a: seq<u8>, b: seq<u8>)
    requires |a| == |b|
    ensures RankOfBytes(a) < RankOfBytes(b) <==> LexLess(a, b)
  {
    if a != [] {
      var n := |a| - 1;
      RankIsLexicographic(a[..n], b[..n]);
      LexLessExtends(a, b, n);
      if RankOfBytes(a[..n]) == RankOfBytes(b[..n]) {
        RankInjective(a[..n], b[..n]);
      }
      assert CharOrder(a[n]) < 256 && CharOrder(b[n]) < 256;
    }
  }

  lemma SymbolRankInjective(s: set<Symbol>)
    ensures InjectiveOn(s, SymbolRank())
  {
    forall a, b | a in s && b in s && SymbolRank()(a) == SymbolRank()(b) ensures a == b {
      RankInjective(a, b);
    }
  }

  ghost function Symbols(orders: Orders): set<Symbol> {
    set id | id in orders :: orders[id].order.symbol
  }

  ghost function SymbolList(orders: Orders): seq<Symbol> {
    SymbolRankInjective(Symbols(orders));
    SortBy(Symbols(orders), SymbolRank())
  }

  datatype SymbolView = SymbolView(symbol: Symbol, bids: seq<LevelView>, asks: seq<LevelView>)

  ghost function ViewSymbol(orders: Orders, symbol: Symbol): SymbolView
    requires DistinctPriorities(orders)
  {
    SymbolView(symbol, ViewSide(orders, symbol, Buy), ViewSide(orders, symbol, Sell))
  }

  ghost function ViewSymbols(orders: Orders, ss: seq<Symbol>): (v: seq<SymbolView>)
    requires DistinctPriorities(orders)
    ensures |v| == |ss|
  {
    seq(|ss|, i requires 0 <= i < |ss| => ViewSymbol(orders, ss[i]))
  }

  /** Everything that can be seen of a book: symbols, levels, totals and queues, all in order. */
  ghost function Observe(orders: Orders): seq<SymbolView>
    requires DistinctPriorities(orders)
  {
    ViewSymbols(orders, SymbolList(orders))
  }

  /** The best price is one at which orders rest, and no resting price ranks before it. */
  lemma BestIsBest(orders: Orders, symbol: Symbol, side: Side)
    ensures Best(orders, symbol, side).None? <==> Prices(orders, symbol, side) == {}
    ensures Best(orders, symbol, side).Some? ==>
              && Best(orders, symbol, side).value in Prices(orders, symbol, side)
              && forall p :: p in Prices(orders, symbol, side) ==>
                   if side == Buy then p <= Best(orders, symbol, side).value else p >= Best(orders, symbol, side).value
  {
    var prices, ps := Prices(orders, symbol, side), PriceList(orders, symbol, side);
    SortBySorts(prices, PriceRank(side));
    if ps != [] {
      forall p | p in prices ensures if side == Buy then p <= ps[0] else p >= ps[0] {
        assert p in ps;
        var i :| 0 <= i < |ps| && ps[i] == p;
        assert i > 0 ==> PriceRank(side)(ps[0]) < PriceRank(side)(p);
      }
      assert ps[0] in ps;
    }
  }

  // ---------------------------------------------------------------- snapshots

  function IdsIn(q: seq<Queued>): (ids: seq<u64>)
    ensures |ids| == |q|
  {
    if q == [] then [] else IdsIn(q[..|q| - 1]) + [q[|q| - 1].id]
  }

  /** A snapshot keeps a level's price, its total and the ids of its queue. */
  predicate SnapshotOf(v: LevelView, s: LevelSnapshot) {
    s.price == v.price && s.total == v.total && s.fifoOrderIds == IdsIn(v.queue)
  }

  ghost predicate Snapshots(v: seq<LevelView>, s: seq<LevelSnapshot>) {
    |v| == |s| && forall i :: 0 <= i < |v| ==> SnapshotOf(v[i], s[i])
  }

  lemma {:induction false} IdsInQueuedOf(orders: Orders, ids: seq<u64>)
    requires forall id :: id in ids ==> id in orders
    ensures IdsIn(QueuedOf(orders, ids)) == ids
  {
    if ids != [] {
      var n := |ids| - 1;
      IdsInQueuedOf(orders, ids[..n]);
      assert QueuedOf(orders, ids)[..n] == QueuedOf(orders, ids[..n]);
    }
  }

  /** So a snapshot of what the model shows lists the level's ids in priority order under its total. */
  lemma SnapshotShowsFifo(orders: Orders, k: LevelKey, s: LevelSnapshot)
    requires DistinctPriorities(orders) && SnapshotOf(ViewLevel(orders, k), s)
    ensures s.price == k.price && s.total == LevelSum(orders, k) && s.fifoOrderIds == Fifo(orders, k)
  {
    FifoSorts(orders, k);
    IdsInQueuedOf(orders, Fifo(orders, k));
  }

  // ---------------------------------------------------------------- one element of each list

  lemma ViewLevelsAt(orders: Orders, symbol: Symbol, side: Side, ps: seq<u32>, i: nat)
    requires DistinctPriorities(orders) && i < |ps|
    ensures ViewLevels(orders, symbol, side, ps)[i] == ViewLevel(orders, LevelKey(symbol, side, ps[i]))
  {
  }

  lemma ViewSymbolsAt(orders: Orders, ss: seq<Symbol>, i: nat)
    requires DistinctPriorities(orders) && i < |ss|
    ensures ViewSymbols(orders, ss)[i] == ViewSymbol(orders, ss[i])
  {
  }
}
