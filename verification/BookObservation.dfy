/**
 What a book shows is neither more nor less than its orders and their places in the queues: two books
 show the same exactly when they are the same up to the numbering of priorities.
 */
module BookObservation {
  import opened Types
  import opened Ordered
  import opened BookModel
  import opened BookView
  import opened BookHash

  /** The same orders, in the same relative places at every level. */
  ghost predicate SameBook(a: Orders, b: Orders) {
    && a.Keys == b.Keys
    && (forall id :: id in a ==> a[id].order == b[id].order)
    && (forall x, y {:trigger a[x].priority, a[y].priority} ::
          x in a && y in a && KeyOf(a[x].order) == KeyOf(a[y].order) ==>
          (a[x].priority < a[y].priority <==> b[x].priority < b[y].priority))
  }

  ghost predicate IdsMatch(a: Orders) {
    forall id :: id in a ==> a[id].order.id == id
  }

  // ---------------------------------------------------------------- the same book shows the same

  lemma {:induction false} SharesSame(a: Orders, b: Orders)
    requires a.Keys == b.Keys && forall id :: id in a ==> a[id].order.quantity == b[id].order.quantity
    ensures Shares(a) == Shares(b)
    decreases |a|
  {
    if a == map[] {
      assert b == map[];
    } else {
      var id :| id in a;
      SharesWithout(a, id);
      SharesWithout(b, id);
      assert a.Keys == (a - {id}).Keys + {id};
      SharesSame(a - {id}, b - {id});
    }
  }

  lemma {:induction false} QueuedSame(a: Orders, b: Orders, ids: seq<u64>)
    requires SameBook(a, b) && forall id :: id in ids ==> id in a
    ensures QueuedOf(a, ids) == QueuedOf(b, ids)
  {
    if ids != [] {
      QueuedSame(a, b, ids[..|ids| - 1]);
    }
  }

  lemma LevelSame(a: Orders, b: Orders, k: LevelKey)
    requires DistinctPriorities(a) && DistinctPriorities(b) && SameBook(a, b)
    ensures ViewLevel(a, k) == ViewLevel(b, k)
  {
    assert AtLevel(a, k).Keys == AtLevel(b, k).Keys;
    SharesSame(AtLevel(a, k), AtLevel(b, k));
    FifoSameOrder(a, b, k);
    FifoSorts(a, k);
    QueuedSame(a, b, Fifo(a, k));
  }

  lemma LevelsSame(a: Orders, b: Orders, symbol: Symbol, side: Side, ps: seq<u32>)
    requires DistinctPriorities(a) && DistinctPriorities(b) && SameBook(a, b)
    ensures ViewLevels(a, symbol, side, ps) == ViewLevels(b, symbol, side, ps)
  {
    forall i | 0 <= i < |ps| ensures ViewLevels(a, symbol, side, ps)[i] == ViewLevels(b, symbol, side, ps)[i] {
      LevelSame(a, b, LevelKey(symbol, side, ps[i]));
    }
  }

  lemma PricesSame(a: Orders, b: Orders, symbol: Symbol, side: Side)
    requires SameBook(a, b)
    ensures Prices(a, symbol, side) == Prices(b, symbol, side)
  {
    forall p: u32 ensures p in Prices(a, symbol, side) <==> p in Prices(b, symbol, side) {
      PriceIffOrder(a, symbol, side, p);
      PriceIffOrder(b, symbol, side, p);
    }
  }

  lemma SymbolViewSame(a: Orders, b: Orders, s: Symbol)
    requires DistinctPriorities(a) && DistinctPriorities(b) && SameBook(a, b)
    ensures ViewSymbol(a, s) == ViewSymbol(b, s)
  {
    PricesSame(a, b, s, Buy);
    PricesSame(a, b, s, Sell);
    LevelsSame(a, b, s, Buy, PriceList(a, s, Buy));
    LevelsSame(a, b, s, Sell, PriceList(a, s, Sell));
  }

  lemma SymbolViewsSame(a: Orders, b: Orders, ss: seq<Symbol>)
    requires DistinctPriorities(a) && DistinctPriorities(b) && SameBook(a, b)
    ensures ViewSymbols(a, ss) == ViewSymbols(b, ss)
  {
    forall i | 0 <= i < |ss| ensures ViewSymbols(a, ss)[i] == ViewSymbols(b, ss)[i] {
      SymbolViewSame(a, b, ss[i]);
    }
  }

  lemma SymbolsSame(a: Orders, b: Orders)
    requires SameBook(a, b)
    ensures Symbols(a) == Symbols(b)
  {
    forall s | s in Symbols(a) ensures s in Symbols(b) {
      var id :| id in a && a[id].order.symbol == s;
      assert b[id].order.symbol == s;
    }
    forall s | s in Symbols(b) ensures s in Symbols(a) {
      var id :| id in b && b[id].order.symbol == s;
      assert a[id].order.symbol == s;
    }
  }

  lemma SameBookShowsSame(a: Orders, b: Orders)
    requires DistinctPriorities(a) && DistinctPriorities(b) && SameBook(a, b)
    ensures Observe(a) == Observe(b)
  {
    SymbolsSame(a, b);
    SymbolViewsSame(a, b, SymbolList(a));
  }

  // ---------------------------------------------------------------- what shows the same is the same

  /** The level of every order is listed under its symbol and side. */
  lemma LevelListed(a: Orders, id: u64) returns (i: nat, j: nat)
    requires DistinctPriorities(a) && id in a
    ensures var k := KeyOf(a[id].order);
            && i < |Observe(a)| && Observe(a)[i].symbol == k.symbol
            && var levels := if k.side == Buy then Observe(a)[i].bids else Observe(a)[i].asks;
            && j < |levels| && levels[j] == ViewLevel(a, k)
  {
    var k := KeyOf(a[id].order);
    var ss, ps := SymbolList(a), PriceList(a, k.symbol, k.side);
    SymbolRankInjective(Symbols(a));
    SortBySorts(Symbols(a), SymbolRank());
    assert k.symbol in Symbols(a);
    i :| 0 <= i < |ss| && ss[i] == k.symbol;
    ViewSymbolsAt(a, ss, i);
    SortBySorts(Prices(a, k.symbol, k.side), PriceRank(k.side));
    PriceIffOrder(a, k.symbol, k.side, k.price);
    j :| 0 <= j < |ps| && ps[j] == k.price;
    ViewLevelsAt(a, k.symbol, k.side, ps, j);
  }

  /** A level that a book shows is the one at its price. */
  lemma ShownLevel(b: Orders, i: nat, side: Side, j: nat)
    requires DistinctPriorities(b) && i < |Observe(b)|
    requires j < |if side == Buy then Observe(b)[i].bids else Observe(b)[i].asks|
    ensures var levels := if side == Buy then Observe(b)[i].bids else Observe(b)[i].asks;
            levels[j] == ViewLevel(b, LevelKey(Observe(b)[i].symbol, side, levels[j].price))
  {
    var ss := SymbolList(b);
    ViewSymbolsAt(b, ss, i);
    ViewLevelsAt(b, ss[i], side, PriceList(b, ss[i], side), j);
  }

  /** At the level of any order of the one book, the other book shows the same. */
  lemma SameShownLevel(a: Orders, b: Orders, id: u64)
    requires DistinctPriorities(a) && DistinctPriorities(b) && Observe(a) == Observe(b) && id in a
    ensures ViewLevel(a, KeyOf(a[id].order)) == ViewLevel(b, KeyOf(a[id].order))
  {
    var i, j := LevelListed(a, id);
    ShownLevel(b, i, a[id].order.side, j);
  }

  lemma {:induction false} QueuedOfAt(a: Orders, ids: seq<u64>, n: nat)
    requires (forall id :: id in ids ==> id in a) && n < |ids|
    ensures QueuedOf(a, ids)[n] == Queued(ids[n], a[ids[n]].order.quantity)
  {
    if n < |ids| - 1 {
      QueuedOfAt(a, ids[..|ids| - 1], n);
    }
  }

  /** Where the views of a level agree, so do its queues. */
  lemma SameFifo(a: Orders, b: Orders, k: LevelKey)
    requires DistinctPriorities(a) && DistinctPriorities(b) && ViewLevel(a, k) == ViewLevel(b, k)
    ensures Fifo(a, k) == Fifo(b, k)
  {
    FifoSorts(a, k);
    FifoSorts(b, k);
    IdsInQueuedOf(a, Fifo(a, k));
    IdsInQueuedOf(b, Fifo(b, k));
  }

  /** So do the quantities of its orders. */
  lemma SameQuantity(a: Orders, b: Orders, k: LevelKey, id: u64)
    requires DistinctPriorities(a) && DistinctPriorities(b) && ViewLevel(a, k) == ViewLevel(b, k)
    requires id in AtLevel(a, k)
    ensures id in AtLevel(b, k) && a[id].order.quantity == b[id].order.quantity
  {
    SameFifo(a, b, k);
    var q := Fifo(a, k);
    FifoSorts(a, k);
    FifoSorts(b, k);
    assert id in q;
    var n :| 0 <= n < |q| && q[n] == id;
    QueuedOfAt(a, q, n);
    QueuedOfAt(b, q, n);
  }

  lemma OrderSame(a: Orders, b: Orders, id: u64)
    requires DistinctPriorities(a) && DistinctPriorities(b) && IdsMatch(a) && IdsMatch(b)
    requires Observe(a) == Observe(b) && id in a
    ensures id in b && a[id].order == b[id].order
  {
    SameShownLevel(a, b, id);
    SameQuantity(a, b, KeyOf(a[id].order), id);
  }

  lemma ShowsSameIsSame(a: Orders, b: Orders)
    requires DistinctPriorities(a) && DistinctPriorities(b) && IdsMatch(a) && IdsMatch(b)
    requires Observe(a) == Observe(b)
    ensures SameBook(a, b)
  {
    forall id | id in a ensures id in b && a[id].order == b[id].order {
      OrderSame(a, b, id);
    }
    forall id | id in b ensures id in a {
      OrderSame(b, a, id);
    }
    forall x, y | x in a && y in a && KeyOf(a[x].order) == KeyOf(a[y].order)
      ensures a[x].priority < a[y].priority <==> b[x].priority < b[y].priority
    {
      var k := KeyOf(a[x].order);
      SameShownLevel(a, b, x);
      SameFifo(a, b, k);
      AheadIff(a, k, x, y);
      AheadIff(b, k, x, y);
    }
  }

  /** Two books show the same exactly when they are the same up to the numbering of priorities. */
  lemma ShowsSameIffSame(a: Orders, b: Orders)
    requires DistinctPriorities(a) && DistinctPriorities(b) && IdsMatch(a) && IdsMatch(b)
    ensures Observe(a) == Observe(b) <==> SameBook(a, b)
  {
    if SameBook(a, b) {
      SameBookShowsSame(a, b);
    }
    if Observe(a) == Observe(b) {
      ShowsSameIsSame(a, b);
    }
  }

  /** Hence the hash cannot tell apart books that are the same. */
  lemma SameBookHashesSame(a: Orders, b: Orders)
    requires DistinctPriorities(a) && DistinctPriorities(b) && SameBook(a, b)
    ensures HashView(Observe(a)) == HashView(Observe(b))
  {
    SameBookShowsSame(a, b);
  }
}
