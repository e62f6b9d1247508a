/** The fixed-capacity open-addressing index from order id to arena slot (include/efe/flat_order_index.hpp). */
module FlatOrderIndexModel {
  import opened Types
  import opened Ordered

  datatype State = Empty | Occupied | Tombstone

  datatype Entry = Entry(key: u64, value: u32, state: State)

  const EMPTY_ENTRY := Entry(0, INVALID_SLOT, Empty)

  predicate IsPowerOfTwo(n: nat)
    decreases n
  {
    n == 1 || (n > 1 && n % 2 == 0 && IsPowerOfTwo(n / 2))
  }

  /** `std::bit_ceil`: the least power of two that is at least `n`. */
  function BitCeilFrom(p: nat, n: nat): (r: nat)
    requires p > 0 && IsPowerOfTwo(p)
    requires p == 1 || p / 2 < n
    ensures IsPowerOfTwo(r) && r >= n && (r == 1 || r / 2 < n)
    decreases if p < n then n - p else 0
  {
    if p >= n then p else BitCeilFrom(2 * p, n)
  }

  /** The number of cells allocated for `maxEntries` orders. */
  function CapacityFor(maxEntries: nat): (cap: nat)
    ensures IsPowerOfTwo(cap) && cap >= 16 && cap >= 2 * maxEntries
  {
    var wanted := if maxEntries < 8 then 16 else maxEntries * 2;
    BitCeilFrom(1, wanted)
  }

  /** The cell visited at step `d` of the circular probe that starts at `home`. */
  function Probe(home: nat, d: nat, cap: nat): (p: nat)
    requires home < cap && d <= cap
    ensures p < cap || d == cap
  {
    if home + d < cap then home + d else home + d - cap
  }

  /** The step at which the probe from `home` reaches cell `p`. */
  ghost function Distance(home: nat, p: nat, cap: nat): (d: nat)
    requires home < cap && p < cap
    ensures d < cap && Probe(home, d, cap) == p
  {
    if p >= home then p - home else p + cap - home
  }

  /** Every cell that the probe visits before step `d` is in use or a tombstone. */
  ghost predicate NoHole(es: seq<Entry>, home: nat, d: nat)
    requires home < |es| && d <= |es|
  {
    forall j :: 0 <= j < d ==> es[Probe(home, j, |es|)].state != Empty
  }

  /** None of the first `d` cells on the probe holds `key`. */
  ghost predicate Absent(es: seq<Entry>, home: nat, d: nat, key: u64)
    requires home < |es| && d <= |es|
  {
    forall j :: 0 <= j < d ==> !Holds(es[Probe(home, j, |es|)], key)
  }

  ghost predicate AllOccupied(es: seq<Entry>, home: nat, d: nat)
    requires home < |es| && d <= |es|
  {
    forall j :: 0 <= j < d ==> es[Probe(home, j, |es|)].state == Occupied
  }

  predicate Holds(e: Entry, key: u64) {
    e.state == Occupied && e.key == key
  }

  function Home(hash: u64 -> u64, key: u64, cap: nat): (h: nat)
    requires cap > 0
    ensures h < cap
  {
    hash(key) % cap
  }

  /**
   The table `es` stores the map `contents`; `cell` says where each key lives. No empty cell lies on
   the probe path of a stored key, so a probe may stop at the first empty cell.
   */
  ghost predicate Table(es: seq<Entry>, hash: u64 -> u64, cell: map<u64, nat>, contents: map<u64, u32>) {
    && |es| > 0
    && cell.Keys == contents.Keys
    && (forall k :: k in cell ==> cell[k] < |es| && es[cell[k]] == Entry(k, contents[k], Occupied))
    && (forall p :: 0 <= p < |es| && es[p].state == Occupied ==> es[p].key in cell && cell[es[p].key] == p)
    && (forall k :: k in cell ==>
          NoHole(es, Home(hash, k, |es|), Distance(Home(hash, k, |es|), cell[k], |es|)))
  }

  /** The same, said of an equal copy so that a proof meets its parts only where it asks for them. */
  ghost predicate Represents(es: seq<Entry>, hash: u64 -> u64, cell: map<u64, nat>, contents: map<u64, u32>) {
    forall copy {:trigger Table(copy, hash, cell, contents)} :: copy == es ==> Table(copy, hash, cell, contents)
  }

  lemma OpenTable(es: seq<Entry>, hash: u64 -> u64, cell: map<u64, nat>, contents: map<u64, u32>)
    requires Represents(es, hash, cell, contents)
    ensures Table(es, hash, cell, contents)
  {
  }

  /** A probe that has met no holder of the key before reaching an empty cell proves the key absent. */
  lemma EmptyCellEndsSearch(es: seq<Entry>, hash: u64 -> u64, cell: map<u64, nat>, contents: map<u64, u32>, key: u64,
                            d: nat)
    requires |es| > 0 && Represents(es, hash, cell, contents)
    requires d < |es| && Absent(es, Home(hash, key, |es|), d, key)
    requires es[Probe(Home(hash, key, |es|), d, |es|)].state == Empty
    ensures key !in contents
  {
    OpenTable(es, hash, cell, contents);
    if key in cell {
      var home := Home(hash, key, |es|);
      var at := Distance(home, cell[key], |es|);
      assert Holds(es[Probe(home, at, |es|)], key);
    }
  }

  /** A probe that has gone all the way round without meeting the key proves it absent. */
  lemma FullProbeEndsSearch(es: seq<Entry>, hash: u64 -> u64, cell: map<u64, nat>, contents: map<u64, u32>, key: u64)
    requires |es| > 0 && Represents(es, hash, cell, contents)
    requires Absent(es, Home(hash, key, |es|), |es|, key)
    ensures key !in contents
  {
    OpenTable(es, hash, cell, contents);
    if key in cell {
      var home := Home(hash, key, |es|);
      var at := Distance(home, cell[key], |es|);
      assert Holds(es[Probe(home, at, |es|)], key);
    }
  }

  /** Writing a new key into a free cell on its hole-free path extends the stored map by that key. */
  lemma StoreKeepsRepresentation(es: seq<Entry>, hash: u64 -> u64, cell: map<u64, nat>, contents: map<u64, u32>,
                                 key: u64, value: u32, d: nat)
    requires |es| > 0 && Represents(es, hash, cell, contents)
    requires key !in contents && d < |es|
    requires es[Probe(Home(hash, key, |es|), d, |es|)].state != Occupied
    requires NoHole(es, Home(hash, key, |es|), d)
    ensures var p := Probe(Home(hash, key, |es|), d, |es|);
            Represents(es[p := Entry(key, value, Occupied)], hash, cell[key := p], contents[key := value])
  {
    OpenTable(es, hash, cell, contents);
    var home := Home(hash, key, |es|);
    var p := Probe(home, d, |es|);
    var es' := es[p := Entry(key, value, Occupied)];
    var cell' := cell[key := p];
    assert Distance(home, p, |es|) == d;
    forall k | k in cell'
      ensures NoHole(es', Home(hash, k, |es|), Distance(Home(hash, k, |es|), cell'[k], |es|))
    {
      NoHoleStays(es, p, es'[p], Home(hash, k, |es|), Distance(Home(hash, k, |es|), cell'[k], |es|));
    }
    assert Table(es', hash, cell', contents[key := value]);
  }

  /** Filling a cell opens no hole. */
  lemma NoHoleStays(es: seq<Entry>, p: nat, e: Entry, home: nat, d: nat)
    requires home < |es| && d <= |es| && p < |es| && e.state != Empty && NoHole(es, home, d)
    ensures NoHole(es[p := e], home, d)
  {
  }

  /** Turning a cell into a tombstone forgets its key and opens no hole on any other key's path. */
  lemma BuryKeepsRepresentation(es: seq<Entry>, hash: u64 -> u64, cell: map<u64, nat>, contents: map<u64, u32>,
                                key: u64)
    requires |es| > 0 && Represents(es, hash, cell, contents)
    requires key in contents
    ensures key in cell && cell[key] < |es|
    ensures var p := cell[key];
            Represents(es[p := es[p].(state := Tombstone)], hash, cell - {key}, contents - {key})
  {
    OpenTable(es, hash, cell, contents);
    var p := cell[key];
    var es' := es[p := es[p].(state := Tombstone)];
    var cell' := cell - {key};
    forall k | k in cell'
      ensures NoHole(es', Home(hash, k, |es|), Distance(Home(hash, k, |es|), cell'[k], |es|))
    {
      NoHoleStays(es, p, es'[p], Home(hash, k, |es|), Distance(Home(hash, k, |es|), cell[k], |es|));
    }
    assert Table(es', hash, cell', contents - {key});
  }

  /** The numbers below `n`. */
  ghost function Below(n: nat): (s: set<nat>)
    ensures forall i :: i in s <==> 0 <= i < n
    ensures |s| == n
  {
    if n == 0 then {} else Below(n - 1) + {n - 1}
  }

  /** A map with values in `s` that hits every member of `s` has at least `|s|` keys. */
  lemma {:induction false} ImageNoLarger(cell: map<u64, nat>, s: set<nat>)
    requires forall p :: p in s ==> exists k :: k in cell && cell[k] == p
    ensures |s| <= |cell|
    decreases |s|
  {
    if s == {} {
    } else {
      var p :| p in s;
      var k :| k in cell && cell[k] == p;
      var cell' := cell - {k};
      forall q | q in s - {p} ensures exists j :: j in cell' && cell'[j] == q {
        var j :| j in cell && cell[j] == q;
        assert j in cell' && cell'[j] == q;
      }
      ImageNoLarger(cell', s - {p});
      assert cell.Keys == cell'.Keys + {k};
    }
  }

  /** A table that stores fewer keys than it has cells has a cell that is not occupied. */
  lemma SomeCellFree(es: seq<Entry>, hash: u64 -> u64, cell: map<u64, nat>, contents: map<u64, u32>, home: nat)
    requires |es| > 0 && Represents(es, hash, cell, contents)
    requires |contents| < |es| && home < |es|
    ensures !AllOccupied(es, home, |es|)
  {
    OpenTable(es, hash, cell, contents);
    assert |cell.Keys| == |contents.Keys|;
    if AllOccupied(es, home, |es|) {
      forall p | p in Below(|es|) ensures exists k :: k in cell && cell[k] == p {
        var j := Distance(home, p, |es|);
        assert es[Probe(home, j, |es|)].state == Occupied;
        assert es[p].key in cell && cell[es[p].key] == p;
      }
      ImageNoLarger(cell, Below(|es|));
    }
  }

  /** An occupied cell tells what is stored under its key, and that it is the cell of that key. */
  lemma HolderFound(es: seq<Entry>, hash: u64 -> u64, cell: map<u64, nat>, contents: map<u64, u32>, p: nat, key: u64)
    requires |es| > 0 && Represents(es, hash, cell, contents)
    requires p < |es| && Holds(es[p], key)
    ensures key in contents && contents[key] == es[p].value
    ensures key in cell && cell[key] == p
  {
    OpenTable(es, hash, cell, contents);
  }

  class FlatOrderIndex {
    const hash: u64 -> u64
    const entries: array<Entry>
    var size: nat
    ghost var cell: map<u64, nat>
    /** The map that the table stores. */
    ghost var contents: map<u64, u32>

    ghost predicate Valid()
      reads this, entries
    {
      && entries.Length > 0
      && Represents(entries[..], hash, cell, contents)
      && size == |contents|
    }

    constructor (maxEntries: nat, hash: u64 -> u64)
      ensures Valid() && fresh(entries)
      ensures contents == map[]
      ensures entries.Length == CapacityFor(maxEntries)
      ensures this.hash == hash
    {
      var cap := CapacityFor(maxEntries);
      this.hash := hash;
      entries := new Entry[cap](_ => EMPTY_ENTRY);
      size := 0;
      cell := map[];
      contents := map[];
      new;
      assert Table(entries[..], hash, cell, contents);
    }

    method Find(key: u64) returns (r: Option<u32>)
      requires Valid()
      ensures r == if key in contents then Some(contents[key]) else None
    {
      var home := Home(hash, key, entries.Length);
      var pos := home;
      ghost var es := entries[..];
      for probes := 0 to entries.Length
        invariant pos == Probe(home, probes, entries.Length)
        invariant Absent(es, home, probes, key)
      {
        var e := entries[pos];
        assert e == es[Probe(home, probes, entries.Length)];
        if e.state == Empty {
          EmptyCellEndsSearch(es, hash, cell, contents, key, probes);
          return None;
        }
        if e.state == Occupied && e.key == key {
          HolderFound(es, hash, cell, contents, pos, key);
          return Some(e.value);
        }
        pos := if pos + 1 == entries.Length then 0 else pos + 1;
      }
      FullProbeEndsSearch(es, hash, cell, contents, key);
      return None;
    }

    /** Overwrites one cell, given that the new table stores the map `after`. */
    method Overwrite(pos: nat, e: Entry, ghost cellAfter: map<u64, nat>, ghost after: map<u64, u32>)
      requires pos < entries.Length
      requires Represents(entries[..][pos := e], hash, cellAfter, after)
      modifies this`cell, this`contents, entries
      ensures Represents(entries[..], hash, cell, contents)
      ensures contents == after
    {
      ghost var es := entries[..][pos := e];
      entries[pos] := e;
      assert entries[..] == es;
      cell, contents := cellAfter, after;
    }

    /**
     Probes for the cell that a new `key` goes to: the first tombstone on its path, or else the empty
     cell that ends it. The probe stops at step `stop`, at a holder of the key, at an empty cell, or
     after a full turn.
     */
    method Target(key: u64) returns (r: Option<nat>, ghost step: nat, ghost stop: nat)
      requires entries.Length > 0
      ensures step <= stop <= entries.Length
      ensures var home := Home(hash, key, entries.Length);
              && Absent(entries[..], home, stop, key)
              && NoHole(entries[..], home, stop)
              && (r.None? ==> if stop < entries.Length then Holds(entries[Probe(home, stop, entries.Length)], key)
                              else AllOccupied(entries[..], home, stop))
              && (r.Some? ==> && (stop < entries.Length ==> entries[Probe(home, stop, entries.Length)].state == Empty)
                              && step < entries.Length && r.value == Probe(home, step, entries.Length)
                              && entries[r.value].state != Occupied && AllOccupied(entries[..], home, step))
    {
      var home := Home(hash, key, entries.Length);
      var pos := home;
      var tombstone: Option<nat> := None;
      step := 0;
      ghost var es := entries[..];
      for probes := 0 to entries.Length
        invariant pos == Probe(home, probes, entries.Length)
        invariant Absent(es, home, probes, key)
        invariant NoHole(es, home, probes)
        invariant tombstone.None? ==> step == 0 && AllOccupied(es, home, probes)
        invariant tombstone.Some? ==> step < probes && tombstone.value == Probe(home, step, entries.Length)
                                      && es[tombstone.value].state != Occupied && AllOccupied(es, home, step)
      {
        var e := entries[pos];
        assert e == es[Probe(home, probes, entries.Length)];
        if e.state == Occupied && e.key == key {
          return None, 0, probes;
        }
        if e.state == Tombstone && tombstone.None? {
          tombstone, step := Some(pos), probes;
        }
        if e.state == Empty {
          if tombstone.Some? {
            return tombstone, step, probes;
          }
          return Some(pos), probes, probes;
        }
        pos := if pos + 1 == entries.Length then 0 else pos + 1;
      }
      return tombstone, step, entries.Length;
    }

    /** Insertion succeeds exactly on an absent key below 70% load, and then adds that key. */
    method Insert(key: u64, value: u32) returns (ok: bool)
      requires Valid()
      modifies this, entries
      ensures Valid()
      ensures ok <==> old(size) * 10 < entries.Length * 7 && key !in old(contents)
      ensures contents == if ok then old(contents)[key := value] else old(contents)
    {
      if size * 10 >= entries.Length * 7 {
        return false;
      }
      var target, step, stop := Target(key);
      ghost var home := Home(hash, key, entries.Length);
      if target.None? {
        assert key in contents by {
          SomeCellFree(entries[..], hash, cell, contents, home);
          HolderFound(entries[..], hash, cell, contents, Probe(home, stop, entries.Length), key);
        }
        return false;
      }
      assert key !in contents by {
        if stop < entries.Length {
          EmptyCellEndsSearch(entries[..], hash, cell, contents, key, stop);
        } else {
          FullProbeEndsSearch(entries[..], hash, cell, contents, key);
        }
      }
      assert Represents(entries[..][target.value := Entry(key, value, Occupied)], hash,
                        cell[key := target.value], contents[key := value]) by {
        StoreKeepsRepresentation(entries[..], hash, cell, contents, key, value, step);
      }
      CountPut(contents, key, value);
      Overwrite(target.value, Entry(key, value, Occupied), cell[key := target.value], contents[key := value]);
      size := size + 1;
      return true;
    }

    /** Turns the cell that holds `key` into a tombstone. */
    method Bury(key: u64, pos: nat)
      requires Valid()
      requires pos < entries.Length && Holds(entries[pos], key)
      modifies this, entries
      ensures Valid() && contents == old(contents) - {key}
    {
      HolderFound(entries[..], hash, cell, contents, pos, key);
      BuryKeepsRepresentation(entries[..], hash, cell, contents, key);
      CountWithout(contents, key);
      Overwrite(pos, entries[pos].(state := Tombstone), cell - {key}, contents - {key});
      size := size - 1;
    }

    /** Erasure succeeds exactly on a stored key, and then removes it. */
    method Erase(key: u64) returns (ok: bool)
      requires Valid()
      modifies this, entries
      ensures Valid()
      ensures ok <==> key in old(contents)
      ensures contents == old(contents) - {key}
    {
      var home := Home(hash, key, entries.Length);
      var pos := home;
      ghost var es := entries[..];
      for probes := 0 to entries.Length
        invariant Valid() && contents == old(contents) && entries[..] == es
        invariant pos == Probe(home, probes, entries.Length)
        invariant Absent(es, home, probes, key)
      {
        var e := entries[pos];
        assert e == es[Probe(home, probes, entries.Length)];
        if e.state == Empty {
          EmptyCellEndsSearch(es, hash, cell, contents, key, probes);
          return false;
        }
        if e.state == Occupied && e.key == key {
          HolderFound(es, hash, cell, contents, pos, key);
          Bury(key, pos);
          return true;
        }
        pos := if pos + 1 == entries.Length then 0 else pos + 1;
      }
      FullProbeEndsSearch(es, hash, cell, contents, key);
      return false;
    }
  }
}
