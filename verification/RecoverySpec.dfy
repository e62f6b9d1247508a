/**
 What recovery must deliver, said without reference to how: the longest gapless run of arrived
 sequence numbers, each with the payload that arrived first.
 */
module RecoverySpec {
  import opened Types
  import opened Sequences
  import opened Bytes
  import opened MoldUdp64

  /** The first payload that arrived under each sequence number from `first` on. */
  type Arrivals = map<u64, Data>

  function Note(first: u64, a: Arrivals, m: MoldMessage): Arrivals {
    if m.sequence < first || m.sequence in a then a else a[m.sequence := m.payload]
  }

  function NoteAll(first: u64, a: Arrivals, ms: seq<MoldMessage>): Arrivals {
    if ms == [] then a else Note(first, NoteAll(first, a, ms[..|ms| - 1]), ms[|ms| - 1])
  }

  /** Everything from `first` up to but not including `s` has arrived. */
  ghost predicate Gapless(first: nat, a: Arrivals, s: nat) {
    forall t: u64 :: first <= t < s ==> t in a
  }

  /** `e` is the first sequence number that has not arrived. */
  ghost predicate Frontier(first: nat, a: Arrivals, e: nat) {
    first <= e <= U64_MAX && e !in a && Gapless(first, a, e)
  }

  /** The messages `lo` to `hi - 1`, in order. */
  ghost function Slice(a: Arrivals, lo: nat, hi: nat): (r: seq<MoldMessage>)
    requires lo <= hi <= U64_MAX + 1 && forall t: u64 :: lo <= t < hi ==> t in a
    ensures |r| == hi - lo
    decreases hi
  {
    if lo == hi then [] else Slice(a, lo, hi - 1) + [MoldMessage(hi - 1, a[hi - 1])]
  }

  // ---------------------------------------------------------------- facts about arrivals

  lemma {:induction false} NoteAllAppend(first: u64, a: Arrivals, ms: seq<MoldMessage>, ns: seq<MoldMessage>)
    ensures NoteAll(first, a, ms + ns) == NoteAll(first, NoteAll(first, a, ms), ns)
  {
    if ns == [] {
      assert ms + ns == ms;
    } else {
      var n := |ns| - 1;
      NoteAllAppend(first, a, ms, ns[..n]);
      ButLastOfConcat(ms, ns);
    }
  }

  /** Later arrivals add sequence numbers and never replace a payload. */
  lemma {:induction false} NoteAllKeeps(first: u64, a: Arrivals, ms: seq<MoldMessage>)
    ensures forall s :: s in a ==> s in NoteAll(first, a, ms) && NoteAll(first, a, ms)[s] == a[s]
  {
    if ms != [] {
      NoteAllKeeps(first, a, ms[..|ms| - 1]);
    }
  }

  /** Some message of `ms` carries the number `s`. */
  ghost predicate Sent(ms: seq<MoldMessage>, s: u64) {
    exists i :: 0 <= i < |ms| && ms[i].sequence == s
  }

  /** What has arrived is exactly what was sent to us, from `first` on. */
  lemma {:induction false} ArrivedIffSent(first: u64, ms: seq<MoldMessage>, s: u64)
    ensures s in NoteAll(first, map[], ms) <==> first <= s && Sent(ms, s)
  {
    if ms != [] {
      var n := |ms| - 1;
      ArrivedIffSent(first, ms[..n], s);
      if Sent(ms, s) {
        var i :| 0 <= i < |ms| && ms[i].sequence == s;
        assert i < n ==> ms[..n][i].sequence == s;
      }
      if Sent(ms[..n], s) {
        var i :| 0 <= i < n && ms[..n][i].sequence == s;
        assert ms[i].sequence == s;
      }
    }
  }

  /** Further messages add the numbers that they carry, from `first` on, and no others. */
  lemma {:induction false} ArrivedAfter(first: u64, a: Arrivals, ms: seq<MoldMessage>, s: u64)
    ensures s in NoteAll(first, a, ms) <==> s in a || (first <= s && exists i :: 0 <= i < |ms| && ms[i].sequence == s)
  {
    if ms != [] {
      var n := |ms| - 1;
      ArrivedAfter(first, a, ms[..n], s);
      if exists i :: 0 <= i < |ms| && ms[i].sequence == s {
        var i :| 0 <= i < |ms| && ms[i].sequence == s;
        assert i < n ==> ms[..n][i].sequence == s;
      }
      if exists i :: 0 <= i < n && ms[..n][i].sequence == s {
        var i :| 0 <= i < n && ms[..n][i].sequence == s;
        assert ms[i].sequence == s;
      }
    }
  }

  /** Of several copies of a message, the payload kept is that of the first. */
  lemma {:induction false} FirstCopyWins(first: u64, ms: seq<MoldMessage>, i: nat)
    requires i < |ms| && first <= ms[i].sequence && !Sent(ms[..i], ms[i].sequence)
    ensures ms[i].sequence in NoteAll(first, map[], ms)
    ensures NoteAll(first, map[], ms)[ms[i].sequence] == ms[i].payload
  {
    ArrivedIffSent(first, ms[..i], ms[i].sequence);
    PrefixOfPrefix(ms, i + 1, i);
    SplitJoins(ms, i + 1);
    NoteAllAppend(first, map[], ms[..i + 1], ms[i + 1..]);
    NoteAllKeeps(first, NoteAll(first, map[], ms[..i + 1]), ms[i + 1..]);
  }

  lemma FrontierUnique(first: nat, a: Arrivals, e: nat, e': nat)
    requires Frontier(first, a, e) && Frontier(first, a, e')
    ensures e == e'
  {
    var x: u64, y: u64 := e, e';
    assert x < y ==> x in a;
    assert y < x ==> y in a;
  }

  lemma {:induction false} SliceAt(a: Arrivals, lo: nat, hi: nat, i: nat)
    requires lo <= hi <= U64_MAX + 1 && (forall t: u64 :: lo <= t < hi ==> t in a) && i < hi - lo
    ensures lo + i <= U64_MAX && lo + i in a && Slice(a, lo, hi)[i] == MoldMessage(lo + i, a[lo + i])
    decreases hi
  {
    if i < hi - lo - 1 {
      SliceAt(a, lo, hi - 1, i);
    }
  }

  lemma {:induction false} SliceJoins(a: Arrivals, lo: nat, mid: nat, hi: nat)
    requires lo <= mid <= hi <= U64_MAX + 1 && (forall t: u64 :: lo <= t < hi ==> t in a)
    ensures Slice(a, lo, mid) + Slice(a, mid, hi) == Slice(a, lo, hi)
    decreases hi
  {
    if mid == hi {
      assert Slice(a, mid, hi) == [];
    } else {
      SliceJoins(a, lo, mid, hi - 1);
      assert Slice(a, lo, mid) + Slice(a, mid, hi)
             == Slice(a, lo, mid) + Slice(a, mid, hi - 1) + [MoldMessage(hi - 1, a[hi - 1])];
    }
  }

  lemma {:induction false} SliceSame(a: Arrivals, b: Arrivals, lo: nat, hi: nat)
    requires lo <= hi <= U64_MAX + 1
    requires forall t: u64 :: lo <= t < hi ==> t in a && t in b && a[t] == b[t]
    ensures Slice(a, lo, hi) == Slice(b, lo, hi)
    decreases hi
  {
    if lo < hi {
      SliceSame(a, b, lo, hi - 1);
      var last: u64 := hi - 1;
      assert a[last] == b[last];
    }
  }

  // ---------------------------------------------------------------- any order of arrival will do

  /** Every copy of a message carries the payload that the stream has under its number. */
  ghost predicate FromStream(stream: u64 -> Data, ms: seq<MoldMessage>) {
    forall i :: 0 <= i < |ms| ==> ms[i].payload == stream(ms[i].sequence)
  }

  lemma {:induction false} ArrivedFromStream(stream: u64 -> Data, first: u64, ms: seq<MoldMessage>, s: u64)
    requires FromStream(stream, ms) && s in NoteAll(first, map[], ms)
    ensures NoteAll(first, map[], ms)[s] == stream(s)
  {
    var n := |ms| - 1;
    if s in NoteAll(first, map[], ms[..n]) {
      ArrivedFromStream(stream, first, ms[..n], s);
    }
  }

  ghost predicate SameNumbers(first: u64, ms: seq<MoldMessage>, ns: seq<MoldMessage>) {
    forall s: u64 :: first <= s ==> (Sent(ms, s) <==> Sent(ns, s))
  }

  /** Reordering and repeating messages of one stream changes nothing about what has arrived. */
  lemma OrderIrrelevant(stream: u64 -> Data, first: u64, ms: seq<MoldMessage>, ns: seq<MoldMessage>)
    requires FromStream(stream, ms) && FromStream(stream, ns) && SameNumbers(first, ms, ns)
    ensures NoteAll(first, map[], ms) == NoteAll(first, map[], ns)
  {
    var a, b := NoteAll(first, map[], ms), NoteAll(first, map[], ns);
    forall s: u64 ensures (s in a <==> s in b) && (s in a ==> a[s] == b[s]) {
      ArrivedIffSent(first, ms, s);
      ArrivedIffSent(first, ns, s);
      if s in a {
        ArrivedFromStream(stream, first, ms, s);
        ArrivedFromStream(stream, first, ns, s);
      }
    }
  }

  /** The stream's own messages `lo` to `hi - 1`. */
  ghost function StreamSlice(stream: u64 -> Data, lo: nat, hi: nat): (r: seq<MoldMessage>)
    requires lo <= hi <= U64_MAX + 1
    ensures |r| == hi - lo
    decreases hi
  {
    if lo == hi then [] else StreamSlice(stream, lo, hi - 1) + [MoldMessage(hi - 1, stream(hi - 1))]
  }

  lemma {:induction false} SliceOfStream(stream: u64 -> Data, first: u64, ms: seq<MoldMessage>, hi: nat)
    requires FromStream(stream, ms) && first <= hi <= U64_MAX + 1 && Gapless(first, NoteAll(first, map[], ms), hi)
    ensures Slice(NoteAll(first, map[], ms), first, hi) == StreamSlice(stream, first, hi)
    decreases hi
  {
    if first < hi {
      SliceOfStream(stream, first, ms, hi - 1);
      ArrivedFromStream(stream, first, ms, hi - 1);
    }
  }
}
