/**
 The state hash as a fold over one list of numbers (src/order_book.cpp:258-281). Everything up to the hash itself
 holds for any mixing function, so no proof about the walk over the book looks into `Mix`.
 */
module BookHash {
  import opened Types
  import opened Sequences
  import opened BookView
  import opened HashMix

  type Mixer = (u64, nat) -> u64

  const HASH_SEED: u64 := 0xcbf29ce484222325

  /** Mixing numbers in, one after the other. */
  function Fold(mix: Mixer, h: u64, ws: seq<nat>): u64 {
    if ws == [] then h else mix(Fold(mix, h, ws[..|ws| - 1]), ws[|ws| - 1])
  }

  // ---------------------------------------------------------------- the numbers

  function SideCode(side: Side): nat {
    if side == Buy then 0 else 1
  }

  function QueueWords(q: seq<Queued>): seq<nat> {
    if q == [] then [] else QueueWords(q[..|q| - 1]) + [q[|q| - 1].id, q[|q| - 1].quantity]
  }

  /** Price, total, the orders of the queue, and an end mark. */
  function LevelWords(v: LevelView): seq<nat> {
    [v.price, v.total] + QueueWords(v.queue) + [INVALID_SLOT]
  }

  function LevelsWords(v: seq<LevelView>): seq<nat> {
    if v == [] then [] else LevelsWords(v[..|v| - 1]) + LevelWords(v[|v| - 1])
  }

  /** The side, the number of its levels, and the levels from the best on. */
  function SideWords(side: Side, v: seq<LevelView>): seq<nat> {
    [SideCode(side), |v|] + LevelsWords(v)
  }

  /** Eight characters, then bids and asks. */
  function SymbolWords(v: SymbolView): seq<nat> {
    v.symbol + SideWords(Buy, v.bids) + SideWords(Sell, v.asks)
  }

  function SymbolsWords(v: seq<SymbolView>): seq<nat> {
    if v == [] then [] else SymbolsWords(v[..|v| - 1]) + SymbolWords(v[|v| - 1])
  }

  /** Everything that is hashed: the number of symbols, and each symbol's book. */
  function Words(v: seq<SymbolView>): seq<nat> {
    [|v|] + SymbolsWords(v)
  }

  /** The hash of a book is a function of what the book shows. */
  function HashView(v: seq<SymbolView>): u64 {
    Fold(Mix, HASH_SEED, Words(v))
  }

  // ---------------------------------------------------------------- folding in parts

  /** A further number is mixed in last. */
  lemma FoldOne(mix: Mixer, h: u64, ws: seq<nat>, w: nat)
    ensures Fold(mix, h, ws + [w]) == mix(Fold(mix, h, ws), w)
  {
    ButLastOfConcat(ws, [w]);
    NothingAfter(ws);
  }

  lemma FoldFirst(mix: Mixer, h: u64, w: nat)
    ensures Fold(mix, h, [w]) == mix(h, w)
  {
    FoldOne(mix, h, [], w);
    NothingBefore([w]);
  }

  lemma FoldTwo(mix: Mixer, h: u64, ws: seq<nat>, w: nat, w': nat)
    ensures Fold(mix, h, ws + [w, w']) == mix(mix(Fold(mix, h, ws), w), w')
  {
    FoldOne(mix, h, ws, w);
    FoldOne(mix, h, ws + [w], w');
    assert ws + [w, w'] == ws + [w] + [w'];
  }

  lemma {:induction false} FoldAppend(mix: Mixer, h: u64, a: seq<nat>, b: seq<nat>)
    ensures Fold(mix, h, a + b) == Fold(mix, Fold(mix, h, a), b)
  {
    if b == [] {
      NothingAfter(a);
    } else {
      FoldAppend(mix, h, a, b[..|b| - 1]);
      ButLastOfConcat(a, b);
    }
  }

  lemma QueueFoldStep(mix: Mixer, h: u64, q: seq<Queued>, x: Queued)
    ensures Fold(mix, h, QueueWords(q + [x])) == mix(mix(Fold(mix, h, QueueWords(q)), x.id), x.quantity)
  {
    ButLastOfConcat(q, [x]);
    NothingAfter(q);
    FoldTwo(mix, h, QueueWords(q), x.id, x.quantity);
  }

  lemma LevelFold(mix: Mixer, h: u64, v: LevelView)
    ensures Fold(mix, h, LevelWords(v))
            == mix(Fold(mix, mix(mix(h, v.price), v.total), QueueWords(v.queue)), INVALID_SLOT)
  {
    FoldTwo(mix, h, [], v.price, v.total);
    NothingBefore([v.price, v.total]);
    FoldAppend(mix, h, [v.price, v.total], QueueWords(v.queue));
    FoldOne(mix, h, [v.price, v.total] + QueueWords(v.queue), INVALID_SLOT);
  }

  lemma LevelsFoldStep(mix: Mixer, h: u64, v: seq<LevelView>, i: nat)
    requires i < |v|
    ensures Fold(mix, h, LevelsWords(v[..i + 1])) == Fold(mix, Fold(mix, h, LevelsWords(v[..i])), LevelWords(v[i]))
  {
    PrefixOfPrefix(v, i + 1, i);
    FoldAppend(mix, h, LevelsWords(v[..i]), LevelWords(v[i]));
  }

  lemma SideFold(mix: Mixer, h: u64, side: Side, v: seq<LevelView>)
    ensures Fold(mix, h, SideWords(side, v)) == Fold(mix, mix(mix(h, SideCode(side)), |v|), LevelsWords(v))
  {
    FoldTwo(mix, h, [], SideCode(side), |v|);
    NothingBefore([SideCode(side), |v|]);
    FoldAppend(mix, h, [SideCode(side), |v|], LevelsWords(v));
  }

  lemma SymbolFold(mix: Mixer, h: u64, v: SymbolView)
    ensures Fold(mix, h, SymbolWords(v))
            == Fold(mix, Fold(mix, Fold(mix, h, v.symbol), SideWords(Buy, v.bids)), SideWords(Sell, v.asks))
  {
    FoldAppend(mix, h, v.symbol, SideWords(Buy, v.bids));
    FoldAppend(mix, h, v.symbol + SideWords(Buy, v.bids), SideWords(Sell, v.asks));
  }

  lemma SymbolsFoldStep(mix: Mixer, h: u64, v: seq<SymbolView>, i: nat)
    requires i < |v|
    ensures Fold(mix, h, SymbolsWords(v[..i + 1])) == Fold(mix, Fold(mix, h, SymbolsWords(v[..i])), SymbolWords(v[i]))
  {
    PrefixOfPrefix(v, i + 1, i);
    FoldAppend(mix, h, SymbolsWords(v[..i]), SymbolWords(v[i]));
  }

  lemma PrefixFoldStep(mix: Mixer, h: u64, ws: seq<nat>, i: nat)
    requires i < |ws|
    ensures Fold(mix, h, ws[..i + 1]) == mix(Fold(mix, h, ws[..i]), ws[i])
  {
    PrefixOfPrefix(ws, i + 1, i);
  }

  lemma WordsFold(mix: Mixer, h: u64, v: seq<SymbolView>)
    ensures Fold(mix, h, Words(v)) == Fold(mix, mix(h, |v|), SymbolsWords(v))
  {
    FoldFirst(mix, h, |v|);
    FoldAppend(mix, h, [|v|], SymbolsWords(v));
  }

  /** From the seed on: an empty book hashes to the number 0 mixed into it. */
  lemma EmptyBookHash()
    ensures HashView([]) == Mix(0xcbf29ce484222325, 0)
  {
    FoldFirst(Mix, HASH_SEED, 0);
    NothingAfter<nat>([0]);
  }
}
