/** The ordered maps from symbol to side to price to level, as values (include/efe/order_book.hpp:41-63). */
module LevelMaps {
  import opened Types
  import opened BookModel

  /** The cached total and the ends of the queue of one price level. */
  datatype PriceLevel = PriceLevel(total: u32, head: u32, tail: u32)

  const EMPTY_LEVEL := PriceLevel(0, INVALID_SLOT, INVALID_SLOT)

  type Levels = map<u32, PriceLevel>

  datatype SymbolBook = SymbolBook(bids: Levels, asks: Levels) {
    function Side(side: Side): Levels {
      if side == Buy then bids else asks
    }

    function WithSide(side: Side, levels: Levels): SymbolBook {
      if side == Buy then SymbolBook(levels, asks) else SymbolBook(bids, levels)
    }

    predicate Blank() {
      bids == map[] && asks == map[]
    }
  }

  type Books = map<Symbol, SymbolBook>

  function BookAt(books: Books, symbol: Symbol): SymbolBook {
    if symbol in books then books[symbol] else SymbolBook(map[], map[])
  }

  function LevelAt(books: Books, k: LevelKey): Option<PriceLevel> {
    var levels := BookAt(books, k.symbol).Side(k.side);
    if k.price in levels then Some(levels[k.price]) else None
  }

  /** The level at `k`, or the empty level that `try_emplace` would create. */
  function LevelOrEmpty(books: Books, k: LevelKey): PriceLevel {
    if LevelAt(books, k).Some? then LevelAt(books, k).value else EMPTY_LEVEL
  }

  function PutLevel(books: Books, k: LevelKey, l: PriceLevel): Books {
    var b := BookAt(books, k.symbol);
    books[k.symbol := b.WithSide(k.side, b.Side(k.side)[k.price := l])]
  }

  /** Erases a level, and the symbol's book with it if nothing else is left there. */
  function DropLevel(books: Books, k: LevelKey): Books {
    var b := BookAt(books, k.symbol);
    var b' := b.WithSide(k.side, b.Side(k.side) - {k.price});
    if b'.Blank() then books - {k.symbol} else books[k.symbol := b']
  }

  ghost predicate NoBlankBook(books: Books) {
    forall symbol :: symbol in books ==> !books[symbol].Blank()
  }

  lemma LevelAtPut(books: Books, k: LevelKey, l: PriceLevel, k': LevelKey)
    ensures LevelAt(PutLevel(books, k, l), k') == if k' == k then Some(l) else LevelAt(books, k')
  {
  }

  lemma LevelAtDrop(books: Books, k: LevelKey, k': LevelKey)
    ensures LevelAt(DropLevel(books, k), k') == if k' == k then None else LevelAt(books, k')
  {
  }

  lemma PutLeavesNoBlankBook(books: Books, k: LevelKey, l: PriceLevel)
    requires NoBlankBook(books)
    ensures NoBlankBook(PutLevel(books, k, l))
  {
    var levels := BookAt(books, k.symbol).Side(k.side)[k.price := l];
    assert k.price in levels;
  }

  lemma DropLeavesNoBlankBook(books: Books, k: LevelKey)
    requires NoBlankBook(books)
    ensures NoBlankBook(DropLevel(books, k))
  {
  }

  lemma PutOverwritesPut(books: Books, k: LevelKey, l: PriceLevel, l': PriceLevel)
    ensures PutLevel(PutLevel(books, k, l), k, l') == PutLevel(books, k, l')
  {
    var b := BookAt(books, k.symbol);
    assert b.Side(k.side)[k.price := l][k.price := l'] == b.Side(k.side)[k.price := l'];
  }

  lemma PutOverwritesDrop(books: Books, k: LevelKey, l: PriceLevel)
    ensures PutLevel(DropLevel(books, k), k, l) == PutLevel(books, k, l)
  {
    var b := BookAt(books, k.symbol);
    assert (b.Side(k.side) - {k.price})[k.price := l] == b.Side(k.side)[k.price := l];
  }

  lemma DropOverwritesPut(books: Books, k: LevelKey, l: PriceLevel)
    ensures DropLevel(PutLevel(books, k, l), k) == DropLevel(books, k)
  {
    var b := BookAt(books, k.symbol);
    assert b.Side(k.side)[k.price := l] - {k.price} == b.Side(k.side) - {k.price};
  }

  /** `books_[symbol]`: the symbol's book is created blank if it is not there. */
  function Touch(books: Books, symbol: Symbol): Books {
    if symbol in books then books else books[symbol := SymbolBook(map[], map[])]
  }

  lemma TouchShowsSame(books: Books, symbol: Symbol, k: LevelKey)
    ensures LevelAt(Touch(books, symbol), k) == LevelAt(books, k)
  {
  }

  lemma PutAfterTouch(books: Books, k: LevelKey, l: PriceLevel)
    ensures PutLevel(Touch(books, k.symbol), k, l) == PutLevel(books, k, l)
  {
  }

  /** Erases the symbol's book if it is blank. */
  function DropIfBlank(books: Books, symbol: Symbol): Books {
    if symbol in books && books[symbol].Blank() then books - {symbol} else books
  }

  lemma DropIfBlankUndoesTouch(books: Books, symbol: Symbol)
    requires NoBlankBook(books)
    ensures DropIfBlank(Touch(books, symbol), symbol) == books
  {
  }

  /** Changes to two different levels commute. */
  lemma PutPutCommute(books: Books, k: LevelKey, l: PriceLevel, k': LevelKey, l': PriceLevel)
    requires k != k' && k.symbol == k'.symbol && k.side == k'.side
    ensures PutLevel(PutLevel(books, k, l), k', l') == PutLevel(PutLevel(books, k', l'), k, l)
  {
    var b := BookAt(books, k.symbol);
    assert b.Side(k.side)[k.price := l][k'.price := l'] == b.Side(k.side)[k'.price := l'][k.price := l];
  }

  lemma PutDropCommute(books: Books, k: LevelKey, k': LevelKey, l': PriceLevel)
    requires k != k' && k.symbol == k'.symbol && k.side == k'.side
    ensures PutLevel(DropLevel(books, k), k', l') == DropLevel(PutLevel(books, k', l'), k)
  {
    var b := BookAt(books, k.symbol);
    assert (b.Side(k.side) - {k.price})[k'.price := l'] == b.Side(k.side)[k'.price := l'] - {k.price};
    assert k'.price in b.Side(k.side)[k'.price := l'] - {k.price};
  }

  /**
   `after` is `before` without the level `k` if that level is empty, and without the symbol's book if that is then
   blank.
   */
  ghost predicate Tidied(before: Books, after: Books, k: LevelKey) {
    && (forall k' {:trigger LevelAt(after, k')} ::
          LevelAt(after, k')
          == if k' == k && LevelOrEmpty(before, k).head == INVALID_SLOT then None else LevelAt(before, k'))
    && (k.symbol in after ==> !after[k.symbol].Blank())
    && after - {k.symbol} == before - {k.symbol}
  }

  lemma TidyLeavesNoBlankBook(before: Books, after: Books, k: LevelKey)
    requires NoBlankBook(before) && Tidied(before, after, k)
    ensures NoBlankBook(after)
  {
    forall symbol | symbol in after ensures !after[symbol].Blank() {
      if symbol != k.symbol {
        assert symbol in after - {k.symbol} && (after - {k.symbol})[symbol] == (before - {k.symbol})[symbol];
      }
    }
  }

  /** Level maps without blank books are told apart by their levels. */
  lemma SameLevelsSameBooks(a: Books, b: Books)
    requires NoBlankBook(a) && NoBlankBook(b) && forall k {:trigger LevelAt(a, k)} :: LevelAt(a, k) == LevelAt(b, k)
    ensures a == b
  {
    forall symbol: Symbol ensures BookAt(a, symbol) == BookAt(b, symbol) {
      SameSide(a, b, symbol, Buy);
      SameSide(a, b, symbol, Sell);
    }
    forall symbol: Symbol ensures symbol in a <==> symbol in b {
      assert BookAt(a, symbol) == BookAt(b, symbol);
    }
    forall symbol: Symbol | symbol in a ensures a[symbol] == b[symbol] {
      assert BookAt(a, symbol) == BookAt(b, symbol);
    }
  }

  lemma SameSide(a: Books, b: Books, symbol: Symbol, side: Side)
    requires forall k {:trigger LevelAt(a, k)} :: LevelAt(a, k) == LevelAt(b, k)
    ensures BookAt(a, symbol).Side(side) == BookAt(b, symbol).Side(side)
  {
    var x, y := BookAt(a, symbol).Side(side), BookAt(b, symbol).Side(side);
    forall p: u32 ensures (p in x <==> p in y) && (p in x ==> x[p] == y[p]) {
      assert LevelAt(a, LevelKey(symbol, side, p)) == LevelAt(b, LevelKey(symbol, side, p));
    }
  }
}
