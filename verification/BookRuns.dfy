/** Whole runs of the order book against the model (tests/test_order_book.cpp:64-121 samples this). */
module BookRuns {
  import opened Types
  import opened Sequences
  import opened BookModel
  import opened BookView
  import opened BookHash
  import opened BookObservation
  import opened OrderBookModel

  /** The answer to event `i` of a run is the model's. */
  ghost predicate AnsweredAt(capacity: nat, es: seq<MarketEvent>, oks: seq<bool>, i: nat)
    requires i < |es| && i < |oks|
  {
    oks[i] <==> Accepts(Run(EMPTY_MODEL, capacity, es[..i]), capacity, es[i])
  }

  /** So are all answers so far. */
  ghost predicate Answers(capacity: nat, es: seq<MarketEvent>, oks: seq<bool>) {
    |oks| <= |es| && forall i :: 0 <= i < |oks| ==> AnsweredAt(capacity, es, oks, i)
  }

  lemma OneMoreAnswer(capacity: nat, es: seq<MarketEvent>, oks: seq<bool>, ok: bool)
    requires Answers(capacity, es, oks) && |oks| < |es|
    requires ok <==> Accepts(Run(EMPTY_MODEL, capacity, es[..|oks|]), capacity, es[|oks|])
    ensures Answers(capacity, es, oks + [ok])
  {
    forall i | 0 <= i <= |oks| ensures AnsweredAt(capacity, es, oks + [ok], i) {
      assert i < |oks| ==> AnsweredAt(capacity, es, oks, i);
    }
  }

  lemma RunNext(capacity: nat, es: seq<MarketEvent>, n: nat)
    requires n < |es|
    ensures Run(EMPTY_MODEL, capacity, es[..n + 1]) == Step(Run(EMPTY_MODEL, capacity, es[..n]), capacity, es[n])
  {
    PrefixOfPrefix(es, n + 1, n);
  }

  /**
   Every event sequence, on a book of any capacity and with any hash function for its index: the answers,
   and the book at the end with all that it shows, are those of the model.
   */
  method ApplyAll(maxOrders: nat, hash: u64 -> u64, es: seq<MarketEvent>) returns (book: OrderBook, oks: seq<bool>)
    requires 0 < maxOrders < INVALID_SLOT
    ensures book.Valid() && book.slots.Length == maxOrders
    ensures |oks| == |es| && Answers(maxOrders, es, oks)
    ensures book.M() == Run(EMPTY_MODEL, maxOrders, es) && WellFormed(book.M(), maxOrders)
  {
    book := new OrderBook(maxOrders, hash);
    oks := [];
    for i := 0 to |es|
      invariant book.Valid() && book.slots.Length == maxOrders
      invariant fresh(book) && fresh(book.slots) && fresh(book.index) && fresh(book.index.entries)
      invariant |oks| == i && Answers(maxOrders, es, oks)
      invariant book.M() == Run(EMPTY_MODEL, maxOrders, es[..i])
    {
      RunNext(maxOrders, es, i);
      var ok := book.Apply(es[i]);
      OneMoreAnswer(maxOrders, es, oks, ok);
      oks := oks + [ok];
    }
    assert es[..|es|] == es;
    EmptyIsWellFormed(maxOrders);
    RunKeepsWellFormed(EMPTY_MODEL, maxOrders, es);
  }

  lemma EmptyIsWellFormed(capacity: nat)
    ensures WellFormed(EMPTY_MODEL, capacity)
  {
    forall k ensures LevelSum(EMPTY_MODEL.orders, k) <= U32_MAX {
      assert AtLevel(EMPTY_MODEL.orders, k) == map[];
    }
  }

  /**
   A book hashes to what any orders in the same queues hash to. So two books that hold the same orders in the
   same queues hash alike, whatever their capacities, indexes, histories and priority numbers.
   */
  method SameBookSameHash(book: OrderBook, ghost like: Orders) returns (h: u64)
    requires book.Valid() && DistinctPriorities(like) && SameBook(book.M().orders, like)
    ensures h == HashView(Observe(like))
  {
    h := book.StateHash();
    SameBookHashesSame(book.M().orders, like);
  }
}
