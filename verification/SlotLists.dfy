/**
 The arena's slots and the two kinds of intrusive list threaded through them: the singly linked free
 list, and one doubly linked queue per price level (src/order_book.cpp:15-67).
 */
module SlotLists {
  import opened Types

  datatype Slot = Slot(order: Order, prev: u32, next: u32, nextFree: u32, alive: bool)

  const NO_ORDER := Order(0, [0, 0, 0, 0, 0, 0, 0, 0], Buy, 0, 0)

  const FRESH_SLOT := Slot(NO_ORDER, INVALID_SLOT, INVALID_SLOT, INVALID_SLOT, false)

  ghost predicate Distinct(q: seq<u32>) {
    forall i, j :: 0 <= i < j < |q| ==> q[i] != q[j]
  }

  ghost predicate InRange(q: seq<u32>, n: nat) {
    forall i :: 0 <= i < |q| ==> q[i] < n
  }

  function At(q: seq<u32>, i: int): u32 {
    if 0 <= i < |q| then q[i] else INVALID_SLOT
  }

  // ---------------------------------------------------------------- the free list

  /** `free` is the free list that starts at `head`; each of its slots is otherwise blank. */
  ghost predicate FreeList(s: seq<Slot>, head: u32, free: seq<u32>) {
    && head == At(free, 0)
    && Distinct(free)
    && InRange(free, |s|)
    && forall i {:trigger s[free[i]]} :: 0 <= i < |free| ==> s[free[i]] == FRESH_SLOT.(nextFree := At(free, i + 1))
  }

  lemma FreeListFrame(s: seq<Slot>, s': seq<Slot>, head: u32, free: seq<u32>)
    requires FreeList(s, head, free) && |s| == |s'|
    requires forall i :: 0 <= i < |s| && !s[i].alive ==> s'[i] == s[i]
    ensures FreeList(s', head, free)
  {
  }

  lemma FreeListPop(s: seq<Slot>, s': seq<Slot>, head: u32, free: seq<u32>)
    requires FreeList(s, head, free) && head < |s| && |s| == |s'| <= INVALID_SLOT
    requires forall i :: 0 <= i < |s| && i != head && !s[i].alive ==> s'[i] == s[i]
    ensures free != [] && free[0] == head
    ensures FreeList(s', s[head].nextFree, free[1..])
  {
    var rest := free[1..];
    forall i | 0 <= i < |rest| ensures rest[i] < |s'| && s'[rest[i]] == FRESH_SLOT.(nextFree := At(rest, i + 1)) {
      assert rest[i] == free[i + 1] != free[0];
    }
  }

  lemma FreeListPush(s: seq<Slot>, s': seq<Slot>, head: u32, free: seq<u32>, slot: u32)
    requires FreeList(s, head, free) && slot < |s| && |s| == |s'|
    requires s[slot].alive && s'[slot] == FRESH_SLOT.(nextFree := head)
    requires forall i :: 0 <= i < |s| && !s[i].alive ==> s'[i] == s[i]
    ensures FreeList(s', slot, [slot] + free)
  {
    var all := [slot] + free;
    forall i | 0 <= i < |all| ensures all[i] < |s'| && s'[all[i]] == FRESH_SLOT.(nextFree := At(all, i + 1)) {
      if i > 0 {
        assert all[i] == free[i - 1] && At(all, i + 1) == At(free, i);
      }
    }
  }

  // ---------------------------------------------------------------- the queue of a level

  /** `q` is the doubly linked list from `head` to `tail`, with `prev` and `next` inverse to each other. */
  ghost predicate Chain(s: seq<Slot>, q: seq<u32>, head: u32, tail: u32) {
    && head == At(q, 0)
    && tail == At(q, |q| - 1)
    && Distinct(q)
    && InRange(q, |s|)
    && forall i {:trigger s[q[i]]} :: 0 <= i < |q| ==> s[q[i]].prev == At(q, i - 1) && s[q[i]].next == At(q, i + 1)
  }

  lemma ChainFrame(s: seq<Slot>, s': seq<Slot>, q: seq<u32>, head: u32, tail: u32)
    requires Chain(s, q, head, tail) && |s| == |s'|
    requires forall i :: 0 <= i < |q| ==> s'[q[i]] == s[q[i]]
    ensures Chain(s', q, head, tail)
  {
  }

  /** A slot has no predecessor exactly at the front, and no successor exactly at the back. */
  lemma ChainEnds(s: seq<Slot>, q: seq<u32>, head: u32, tail: u32, j: nat)
    requires |s| <= INVALID_SLOT && Chain(s, q, head, tail) && j < |q|
    ensures q[j] < |s|
    ensures s[q[j]].prev == INVALID_SLOT <==> j == 0
    ensures s[q[j]].next == INVALID_SLOT <==> j == |q| - 1
  {
    assert j > 0 ==> q[j - 1] < |s|;
    assert j + 1 < |q| ==> q[j + 1] < |s|;
  }

  /** Only link fields differ. */
  ghost predicate OnlyLinksChange(s: seq<Slot>, s': seq<Slot>) {
    && |s| == |s'|
    && forall i :: 0 <= i < |s| ==> s'[i] == s[i].(prev := s'[i].prev, next := s'[i].next)
  }

  /** Slots outside the list `q` are as they were. */
  ghost predicate Untouched(s: seq<Slot>, s': seq<Slot>, q: seq<u32>) {
    && |s| == |s'|
    && forall i :: 0 <= i < |s| && i !in q ==> s'[i] == s[i]
  }

  function Linked(s: seq<Slot>, tail: u32, slot: u32): (r: seq<Slot>)
    requires slot < |s|
    ensures |r| == |s|
  {
    var s' := s[slot := s[slot].(prev := tail, next := INVALID_SLOT)];
    if tail < |s| then s'[tail := s'[tail].(next := slot)] else s'
  }

  lemma LinkedFrame(s: seq<Slot>, q: seq<u32>, head: u32, tail: u32, slot: u32)
    requires |s| <= INVALID_SLOT && Chain(s, q, head, tail) && slot < |s|
    ensures OnlyLinksChange(s, Linked(s, tail, slot)) && Untouched(s, Linked(s, tail, slot), q + [slot])
  {
    assert tail == INVALID_SLOT || tail in q;
    assert forall x :: x in q ==> x in q + [slot];
    assert slot in q + [slot];
  }

  /** What linking `slot` behind `tail` does to one slot. */
  lemma LinkedSlot(s: seq<Slot>, tail: u32, slot: u32, x: u32)
    requires slot < |s| && x < |s|
    ensures Linked(s, tail, slot)[x]
            == s[x].(prev := if x == slot then tail else s[x].prev,
                     next := if x == tail then slot else if x == slot then INVALID_SLOT else s[x].next)
  {
  }

  lemma LinkedChain(s: seq<Slot>, q: seq<u32>, head: u32, tail: u32, slot: u32)
    requires |s| <= INVALID_SLOT && Chain(s, q, head, tail)
    requires slot < |s| && slot !in q
    ensures Chain(Linked(s, tail, slot), q + [slot], if q == [] then slot else head, slot)
  {
    var s' := Linked(s, tail, slot);
    var r := q + [slot];
    forall i | 0 <= i < |r| ensures s'[r[i]].prev == At(r, i - 1) && s'[r[i]].next == At(r, i + 1) {
      LinkedSlot(s, tail, slot, r[i]);
      if i < |q| {
        assert r[i] == q[i] && q[i] in q;
      }
    }
  }

  function Unlinked(s: seq<Slot>, slot: u32): (r: seq<Slot>)
    requires slot < |s|
    ensures |r| == |s|
  {
    var prev, next := s[slot].prev, s[slot].next;
    var s1 := if prev < |s| then s[prev := s[prev].(next := next)] else s;
    var s2 := if next < |s| then s1[next := s1[next].(prev := prev)] else s1;
    s2[slot := s2[slot].(prev := INVALID_SLOT, next := INVALID_SLOT)]
  }

  function CutAt(q: seq<u32>, j: nat): seq<u32>
    requires j < |q|
  {
    q[..j] + q[j + 1..]
  }

  lemma CutAtMembers(q: seq<u32>, j: nat)
    requires j < |q| && Distinct(q)
    ensures Distinct(CutAt(q, j))
    ensures forall x :: x in CutAt(q, j) <==> x in q && x != q[j]
  {
    var r := CutAt(q, j);
    forall x | x in q && x != q[j] ensures x in r {
      var i :| 0 <= i < |q| && q[i] == x;
      assert r[if i < j then i else i - 1] == x;
    }
  }

  lemma NeighboursInRange(s: seq<Slot>, q: seq<u32>, head: u32, tail: u32, j: nat)
    requires Chain(s, q, head, tail) && j < |q|
    ensures q[j] < |s|
    ensures s[q[j]].prev != INVALID_SLOT ==> s[q[j]].prev < |s|
    ensures s[q[j]].next != INVALID_SLOT ==> s[q[j]].next < |s|
  {
    if j > 0 {
      assert s[q[j]].prev == q[j - 1];
    }
    if j + 1 < |q| {
      assert s[q[j]].next == q[j + 1];
    }
  }

  /** What cutting `slot` out does to one slot. */
  lemma UnlinkedSlot(s: seq<Slot>, slot: u32, x: u32)
    requires slot < |s| && x < |s|
    ensures var prev, next := s[slot].prev, s[slot].next;
            Unlinked(s, slot)[x]
            == s[x].(prev := if x == slot then INVALID_SLOT else if x == next then prev else s[x].prev,
                     next := if x == slot then INVALID_SLOT else if x == prev then next else s[x].next)
  {
  }

  /** The links of the slots that stay, after slot `q[j]` is cut out. */
  lemma UnlinkedPoint(s: seq<Slot>, q: seq<u32>, head: u32, tail: u32, j: nat, a: nat)
    requires |s| <= INVALID_SLOT && Chain(s, q, head, tail) && j < |q| && a < |q| && a != j
    ensures q[j] < |s| && q[a] < |s|
    ensures Unlinked(s, q[j])[q[a]].prev == At(q, if a == j + 1 then j - 1 else a - 1)
    ensures Unlinked(s, q[j])[q[a]].next == At(q, if a == j - 1 then j + 1 else a + 1)
  {
    UnlinkedSlot(s, q[j], q[a]);
    assert q[a] != q[j];
    assert q[a] == s[q[j]].next <==> a == j + 1;
    assert q[a] == s[q[j]].prev <==> a == j - 1;
  }

  lemma UnlinkedFrame(s: seq<Slot>, q: seq<u32>, head: u32, tail: u32, j: nat)
    requires |s| <= INVALID_SLOT && Chain(s, q, head, tail) && j < |q|
    ensures q[j] < |s|
    ensures OnlyLinksChange(s, Unlinked(s, q[j])) && Untouched(s, Unlinked(s, q[j]), q)
  {
    var slot := q[j];
    assert s[slot].prev == INVALID_SLOT || s[slot].prev in q;
    assert s[slot].next == INVALID_SLOT || s[slot].next in q;
    assert slot in q;
    forall i: u32 | 0 <= i < |s| && i !in q ensures Unlinked(s, slot)[i] == s[i] {
      UnlinkedSlot(s, slot, i);
    }
    forall i: u32 | 0 <= i < |s|
      ensures Unlinked(s, slot)[i] == s[i].(prev := Unlinked(s, slot)[i].prev, next := Unlinked(s, slot)[i].next)
    {
      UnlinkedSlot(s, slot, i);
    }
  }

  /** Neighbours in the cut list are the neighbours in the whole list, skipping the place of the cut. */
  lemma CutNeighbours(q: seq<u32>, j: nat, i: nat)
    requires j < |q| && i < |CutAt(q, j)|
    ensures var a := if i < j then i else i + 1;
            && CutAt(q, j)[i] == q[a]
            && At(CutAt(q, j), i - 1) == At(q, if a == j + 1 then j - 1 else a - 1)
            && At(CutAt(q, j), i + 1) == At(q, if a == j - 1 then j + 1 else a + 1)
  {
  }

  lemma UnlinkedAt(s: seq<Slot>, q: seq<u32>, head: u32, tail: u32, j: nat, i: nat)
    requires |s| <= INVALID_SLOT && Chain(s, q, head, tail) && j < |q| && i < |CutAt(q, j)|
    ensures q[j] < |s| && CutAt(q, j)[i] < |s|
    ensures Unlinked(s, q[j])[CutAt(q, j)[i]].prev == At(CutAt(q, j), i - 1)
    ensures Unlinked(s, q[j])[CutAt(q, j)[i]].next == At(CutAt(q, j), i + 1)
  {
    CutNeighbours(q, j, i);
    UnlinkedPoint(s, q, head, tail, j, if i < j then i else i + 1);
  }

  lemma UnlinkedChain(s: seq<Slot>, q: seq<u32>, head: u32, tail: u32, j: nat)
    requires |s| <= INVALID_SLOT && Chain(s, q, head, tail) && j < |q|
    ensures q[j] < |s|
    ensures Chain(Unlinked(s, q[j]), CutAt(q, j),
                  if j == 0 then s[q[j]].next else head, if j == |q| - 1 then s[q[j]].prev else tail)
  {
    var r := CutAt(q, j);
    assert Distinct(r) by {
      CutAtMembers(q, j);
    }
    forall i | 0 <= i < |r|
      ensures Unlinked(s, q[j])[r[i]].prev == At(r, i - 1) && Unlinked(s, q[j])[r[i]].next == At(r, i + 1)
    {
      UnlinkedAt(s, q, head, tail, j, i);
    }
  }
}
