/**
 What is hashed tells the book: the list of numbers that goes into the state hash determines everything that the book
 shows. The end marks alone would not do, since an order id may equal the mark; the totals say where a queue ends.
 */
module HashWords {
  import opened Types
  import opened Sequences
  import opened Ordered
  import opened BookModel
  import opened BookView
  import opened BookHash
  import opened BookObservation

  // ---------------------------------------------------------------- reading from the front

  function QueueSum(q: seq<Queued>): nat {
    if q == [] then 0 else q[0].quantity + QueueSum(q[1..])
  }

  ghost predicate Positive(q: seq<Queued>) {
    forall i :: 0 <= i < |q| ==> q[i].quantity > 0
  }

  /** A level whose total is the sum of its orders, all of which have shares. */
  ghost predicate Sound(v: LevelView) {
    v.total == QueueSum(v.queue) && Positive(v.queue)
  }

  ghost predicate AllSound(v: seq<LevelView>) {
    forall i :: 0 <= i < |v| ==> Sound(v[i])
  }

  ghost predicate AllSidesSound(v: seq<SymbolView>) {
    forall i :: 0 <= i < |v| ==> AllSound(v[i].bids) && AllSound(v[i].asks)
  }

  lemma {:induction false} QueueWordsFront(q: seq<Queued>)
    requires q != []
    ensures QueueWords(q) == [q[0].id, q[0].quantity] + QueueWords(q[1..])
  {
    var n := |q| - 1;
    if n == 0 {
      assert q[..0] == [] && q[1..] == [];
    } else {
      QueueWordsFront(q[..n]);
      assert q[..n][1..] == q[1..][..n - 1];
      Assoc([q[0].id, q[0].quantity], QueueWords(q[1..][..n - 1]), [q[n].id, q[n].quantity]);
    }
  }

  lemma {:induction false} LevelsWordsFront(v: seq<LevelView>)
    requires v != []
    ensures LevelsWords(v) == LevelWords(v[0]) + LevelsWords(v[1..])
  {
    var n := |v| - 1;
    if n == 0 {
      assert v[..0] == [] && v[1..] == [];
      NothingBefore(LevelWords(v[0]));
      NothingAfter(LevelWords(v[0]));
    } else {
      LevelsWordsFront(v[..n]);
      assert v[..n][1..] == v[1..][..n - 1];
      Assoc(LevelWords(v[0]), LevelsWords(v[1..][..n - 1]), LevelWords(v[n]));
    }
  }

  lemma {:induction false} SymbolsWordsFront(v: seq<SymbolView>)
    requires v != []
    ensures SymbolsWords(v) == SymbolWords(v[0]) + SymbolsWords(v[1..])
  {
    var n := |v| - 1;
    if n == 0 {
      assert v[..0] == [] && v[1..] == [];
      NothingBefore(SymbolWords(v[0]));
      NothingAfter(SymbolWords(v[0]));
    } else {
      SymbolsWordsFront(v[..n]);
      assert v[..n][1..] == v[1..][..n - 1];
      Assoc(SymbolWords(v[0]), SymbolsWords(v[1..][..n - 1]), SymbolWords(v[n]));
    }
  }

  // ---------------------------------------------------------------- one list, one book

  /** Equal lists with heads of equal length have equal heads and equal rests. */
  lemma SameSplit(a: seq<nat>, b: seq<nat>, r: seq<nat>, s: seq<nat>)
    requires a + r == b + s && |a| == |b|
    ensures a == b && r == s
  {
    assert a == (a + r)[..|a|] && b == (b + s)[..|b|];
    assert r == (a + r)[|a|..] && s == (b + s)[|b|..];
  }

  /** Queues with the same sum are told apart: each goes on until its sum is reached. */
  lemma {:induction false} QueueUnique(p: seq<Queued>, q: seq<Queued>, r: seq<nat>, s: seq<nat>)
    requires Positive(p) && Positive(q) && QueueSum(p) == QueueSum(q) && QueueWords(p) + r == QueueWords(q) + s
    ensures p == q && r == s
  {
    if p != [] && q != [] {
      var a, b := [p[0].id as nat, p[0].quantity], [q[0].id as nat, q[0].quantity];
      QueueWordsFront(p);
      QueueWordsFront(q);
      Assoc(a, QueueWords(p[1..]), r);
      Assoc(b, QueueWords(q[1..]), s);
      SameSplit(a, b, QueueWords(p[1..]) + r, QueueWords(q[1..]) + s);
      assert p[0].id == a[0] && p[0].quantity == a[1];
      QueueUnique(p[1..], q[1..], r, s);
      FirstAndRest(p);
      FirstAndRest(q);
    } else {
      EmptySums(p);
      EmptySums(q);
      NothingBefore(r);
      NothingBefore(s);
    }
  }

  lemma EmptySums(q: seq<Queued>)
    requires Positive(q)
    ensures QueueSum(q) == 0 <==> q == []
  {
  }

  lemma LevelUnique(v: LevelView, w: LevelView, r: seq<nat>, s: seq<nat>)
    requires Sound(v) && Sound(w) && LevelWords(v) + r == LevelWords(w) + s
    ensures v == w && r == s
  {
    var a, b := [v.price as nat, v.total], [w.price as nat, w.total];
    LevelRegroup(v, r);
    LevelRegroup(w, s);
    SameSplit(a, b, QueueWords(v.queue) + ([INVALID_SLOT] + r), QueueWords(w.queue) + ([INVALID_SLOT] + s));
    assert v.price == a[0] && v.total == a[1] && w.price == b[0] && w.total == b[1];
    QueueUnique(v.queue, w.queue, [INVALID_SLOT] + r, [INVALID_SLOT] + s);
    SameSplit([INVALID_SLOT], [INVALID_SLOT], r, s);
  }

  lemma LevelRegroup(v: LevelView, r: seq<nat>)
    ensures LevelWords(v) + r == [v.price as nat, v.total] + (QueueWords(v.queue) + ([INVALID_SLOT] + r))
  {
    var a: seq<nat> := [v.price, v.total];
    Assoc(a + QueueWords(v.queue), [INVALID_SLOT], r);
    Assoc(a, QueueWords(v.queue), [INVALID_SLOT] + r);
  }

  lemma {:induction false} LevelsUnique(v: seq<LevelView>, w: seq<LevelView>, r: seq<nat>, s: seq<nat>)
    requires AllSound(v) && AllSound(w) && |v| == |w| && LevelsWords(v) + r == LevelsWords(w) + s
    ensures v == w && r == s
  {
    if v == [] {
      NothingBefore(r);
      NothingBefore(s);
    } else {
      LevelsWordsFront(v);
      LevelsWordsFront(w);
      Assoc(LevelWords(v[0]), LevelsWords(v[1..]), r);
      Assoc(LevelWords(w[0]), LevelsWords(w[1..]), s);
      LevelUnique(v[0], w[0], LevelsWords(v[1..]) + r, LevelsWords(w[1..]) + s);
      LevelsUnique(v[1..], w[1..], r, s);
      FirstAndRest(v);
      FirstAndRest(w);
    }
  }

  lemma SideUnique(side: Side, v: seq<LevelView>, w: seq<LevelView>, r: seq<nat>, s: seq<nat>)
    requires AllSound(v) && AllSound(w) && SideWords(side, v) + r == SideWords(side, w) + s
    ensures v == w && r == s
  {
    var a, b := [SideCode(side), |v|], [SideCode(side), |w|];
    Assoc(a, LevelsWords(v), r);
    Assoc(b, LevelsWords(w), s);
    SameSplit(a, b, LevelsWords(v) + r, LevelsWords(w) + s);
    assert |v| == a[1] && |w| == b[1];
    LevelsUnique(v, w, r, s);
  }

  lemma SymbolRegroup(v: SymbolView, r: seq<nat>)
    ensures SymbolWords(v) + r == v.symbol + (SideWords(Buy, v.bids) + (SideWords(Sell, v.asks) + r))
  {
    Assoc(v.symbol + SideWords(Buy, v.bids), SideWords(Sell, v.asks), r);
    Assoc(v.symbol, SideWords(Buy, v.bids), SideWords(Sell, v.asks) + r);
  }

  lemma SymbolUnique(v: SymbolView, w: SymbolView, r: seq<nat>, s: seq<nat>)
    requires AllSound(v.bids) && AllSound(v.asks) && AllSound(w.bids) && AllSound(w.asks)
    requires SymbolWords(v) + r == SymbolWords(w) + s
    ensures v == w && r == s
  {
    SymbolRegroup(v, r);
    SymbolRegroup(w, s);
    SameSplit(v.symbol, w.symbol, SideWords(Buy, v.bids) + (SideWords(Sell, v.asks) + r),
              SideWords(Buy, w.bids) + (SideWords(Sell, w.asks) + s));
    SideUnique(Buy, v.bids, w.bids, SideWords(Sell, v.asks) + r, SideWords(Sell, w.asks) + s);
    SideUnique(Sell, v.asks, w.asks, r, s);
  }

  lemma {:induction false} SymbolsUnique(v: seq<SymbolView>, w: seq<SymbolView>, r: seq<nat>, s: seq<nat>)
    requires AllSidesSound(v) && AllSidesSound(w) && |v| == |w| && SymbolsWords(v) + r == SymbolsWords(w) + s
    ensures v == w && r == s
  {
    if v == [] {
      NothingBefore(r);
      NothingBefore(s);
    } else {
      SymbolsWordsFront(v);
      SymbolsWordsFront(w);
      Assoc(SymbolWords(v[0]), SymbolsWords(v[1..]), r);
      Assoc(SymbolWords(w[0]), SymbolsWords(w[1..]), s);
      SymbolUnique(v[0], w[0], SymbolsWords(v[1..]) + r, SymbolsWords(w[1..]) + s);
      SymbolsUnique(v[1..], w[1..], r, s);
      FirstAndRest(v);
      FirstAndRest(w);
    }
  }

  /** Two views that are hashed from the same numbers are the same. */
  lemma WordsUnique(v: seq<SymbolView>, w: seq<SymbolView>)
    requires AllSidesSound(v) && AllSidesSound(w) && Words(v) == Words(w)
    ensures v == w
  {
    SameSplit([|v|], [|w|], SymbolsWords(v), SymbolsWords(w));
    assert |v| == [|v|][0] && |w| == [|w|][0];
    NothingAfter(SymbolsWords(v));
    NothingAfter(SymbolsWords(w));
    SymbolsUnique(v, w, [], []);
  }

  // ---------------------------------------------------------------- views of books are sound

  lemma {:induction false} QueueSumLast(q: seq<Queued>, x: Queued)
    ensures QueueSum(q + [x]) == QueueSum(q) + x.quantity
  {
    if q == [] {
      assert q + [x] == [x];
    } else {
      QueueSumLast(q[1..], x);
      assert (q + [x])[1..] == q[1..] + [x];
    }
  }

  ghost predicate NoRepeats(ids: seq<u64>) {
    forall i, j :: 0 <= i < j < |ids| ==> ids[i] != ids[j]
  }

  /** Adding up the orders of a listing gives the sum of the set. */
  lemma {:induction false} SumOfListing(orders: Orders, part: Orders, ids: seq<u64>)
    requires NoRepeats(ids) && Lists(ids, part.Keys)
    requires forall id :: id in part ==> id in orders && part[id] == orders[id]
    ensures QueueSum(QueuedOf(orders, ids)) == Shares(part)
    decreases |ids|
  {
    if ids == [] {
      assert part == map[];
    } else {
      var n := |ids| - 1;
      assert ids[n] in ids;
      RestOfListing(part, ids);
      SumOfListing(orders, part - {ids[n]}, ids[..n]);
      SharesWithout(part, ids[n]);
      QueueSumLast(QueuedOf(orders, ids[..n]), Queued(ids[n], orders[ids[n]].order.quantity));
    }
  }

  lemma RestOfListing(part: Orders, ids: seq<u64>)
    requires ids != [] && NoRepeats(ids) && Lists(ids, part.Keys)
    ensures NoRepeats(ids[..|ids| - 1]) && Lists(ids[..|ids| - 1], (part - {ids[|ids| - 1]}).Keys)
  {
    var n := |ids| - 1;
    forall id | id in part && id != ids[n] ensures id in ids[..n] {
      assert id in ids;
      var i :| 0 <= i < |ids| && ids[i] == id;
      assert ids[..n][i] == id;
    }
    forall id | id in ids[..n] ensures id in part && id != ids[n] {
      var i :| 0 <= i < n && ids[..n][i] == id;
      assert ids[i] == id && ids[i] in ids;
    }
  }

  lemma {:induction false} QueuedPositive(orders: Orders, ids: seq<u64>)
    requires AllPositive(orders) && forall id :: id in ids ==> id in orders
    ensures Positive(QueuedOf(orders, ids))
  {
    if ids != [] {
      QueuedPositive(orders, ids[..|ids| - 1]);
    }
  }

  lemma FifoNoRepeats(orders: Orders, k: LevelKey)
    requires DistinctPriorities(orders)
    ensures NoRepeats(Fifo(orders, k))
  {
    FifoSorts(orders, k);
  }

  lemma LevelIsSound(orders: Orders, k: LevelKey)
    requires DistinctPriorities(orders) && AllPositive(orders)
    ensures Sound(ViewLevel(orders, k))
  {
    FifoSorts(orders, k);
    FifoNoRepeats(orders, k);
    SumOfListing(orders, AtLevel(orders, k), Fifo(orders, k));
    QueuedPositive(orders, Fifo(orders, k));
  }

  lemma SideIsSound(orders: Orders, symbol: Symbol, side: Side)
    requires DistinctPriorities(orders) && AllPositive(orders)
    ensures AllSound(ViewSide(orders, symbol, side))
  {
    var ps := PriceList(orders, symbol, side);
    forall i | 0 <= i < |ps| ensures Sound(ViewSide(orders, symbol, side)[i]) {
      ViewLevelsAt(orders, symbol, side, ps, i);
      LevelIsSound(orders, LevelKey(symbol, side, ps[i]));
    }
  }

  lemma ObservationIsSound(orders: Orders)
    requires DistinctPriorities(orders) && AllPositive(orders)
    ensures AllSidesSound(Observe(orders))
  {
    var ss := SymbolList(orders);
    forall i | 0 <= i < |ss| ensures AllSound(Observe(orders)[i].bids) && AllSound(Observe(orders)[i].asks) {
      ViewSymbolsAt(orders, ss, i);
      SideIsSound(orders, ss[i], Buy);
      SideIsSound(orders, ss[i], Sell);
    }
  }

  // ---------------------------------------------------------------- the theorem

  /** Books are hashed from the same numbers exactly when they hold the same orders in the same queues. */
  lemma SameWordsIffSameBook(a: Orders, b: Orders)
    requires DistinctPriorities(a) && DistinctPriorities(b) && IdsMatch(a) && IdsMatch(b)
    requires AllPositive(a) && AllPositive(b)
    ensures Words(Observe(a)) == Words(Observe(b)) <==> SameBook(a, b)
  {
    ShowsSameIffSame(a, b);
    if Words(Observe(a)) == Words(Observe(b)) {
      ObservationIsSound(a);
      ObservationIsSound(b);
      WordsUnique(Observe(a), Observe(b));
    }
  }

  /** The numbers of a view with one bid, in their order. */
  lemma WordsOfOneBid(symbol: Symbol, price: u32, id: u64, quantity: u32)
    ensures Words([SymbolView(symbol, [LevelView(price, quantity, [Queued(id, quantity)])], [])])
            == [1] + symbol + [0, 1, price, quantity, id, quantity, 0xFFFF_FFFF, 1, 0]
  {
    var v := LevelView(price, quantity, [Queued(id, quantity)]);
    QueueWordsFront(v.queue);
    assert v.queue[1..] == [];
    LevelsWordsFront([v]);
    assert [v][1..] == [];
    var w := SymbolView(symbol, [v], []);
    SymbolsWordsFront([w]);
    assert [w][1..] == [];
    assert SideWords(Buy, [v]) == [0, 1, price, quantity, id, quantity, 0xFFFF_FFFF];
    assert SideWords(Sell, []) == [1, 0];
  }

  /** The numbers of a view with one ask and a queue of two. */
  lemma WordsOfOneAsk(symbol: Symbol, price: u32, total: nat, x: Queued, y: Queued)
    ensures Words([SymbolView(symbol, [], [LevelView(price, total, [x, y])])])
            == [1] + symbol + [0, 0, 1, 1, price, total, x.id, x.quantity, y.id, y.quantity, 0xFFFF_FFFF]
  {
    var v := LevelView(price, total, [x, y]);
    QueueWordsFront(v.queue);
    assert v.queue[1..] == [y];
    QueueWordsFront([y]);
    assert [y][1..] == [];
    LevelsWordsFront([v]);
    assert [v][1..] == [];
    var w := SymbolView(symbol, [], [v]);
    SymbolsWordsFront([w]);
    assert [w][1..] == [];
    assert SideWords(Buy, []) == [0, 0];
    assert SideWords(Sell, [v]) == [1, 1, price, total, x.id, x.quantity, y.id, y.quantity, 0xFFFF_FFFF];
  }
}
