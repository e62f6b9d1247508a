/** The sequencer and gap-recovery engine (src/recovery_engine.cpp, include/efe/recovery_engine.hpp). */
module RecoveryEngineModel {
  import opened Types
  import opened Ordered
  import opened Sequences
  import opened Bytes
  import opened MoldUdp64
  import opened RecoverySpec

  const MAX_REQUEST := 0xFFFE

  datatype GapRequest = GapRequest(first: u64, count: u16)

  datatype IngestResult = IngestResult(ready: seq<MoldMessage>, request: Option<GapRequest>,
                                       duplicateOrStale: bool, endOfSession: bool)

  function Last(r: GapRequest): int {
    r.first + r.count - 1
  }

  function MinOf(a: int, b: int): int {
    if a < b then a else b
  }

  // ---------------------------------------------------------------- invariants, as values

  /** The buffer holds exactly what has arrived from `from` on. */
  ghost predicate Held(a: Arrivals, pending: map<u64, Data>, from: nat) {
    && (forall s :: s in pending ==> s in a && s >= from && pending[s] == a[s])
    && (forall s :: s in a && s >= from ==> s in pending)
  }

  /** A request that `encode_request` accepts and whose range does not overflow. */
  predicate Sound(r: GapRequest) {
    1 <= r.count <= MAX_REQUEST && Last(r) <= U64_MAX
  }

  /** All requests so far are sound and start at or below the expected sequence number. */
  ghost predicate RequestsSound(requests: seq<GapRequest>, expected: nat) {
    forall i :: 0 <= i < |requests| ==> Sound(requests[i]) && requests[i].first <= expected
  }

  /** Two requests with the same start have growing ends, unless both are already of the largest size. */
  ghost predicate RequestsGrow(requests: seq<GapRequest>) {
    forall i, j :: 0 <= i < j < |requests| && requests[i].first == requests[j].first ==>
      requests[i].count < requests[j].count || requests[i].count == requests[j].count == MAX_REQUEST
  }

  /** No request for the expected sequence number alone is ever made while that number is 0. */
  ghost predicate ZeroNeverAlone(requests: seq<GapRequest>) {
    forall i :: 0 <= i < |requests| && requests[i].first == 0 ==> requests[i].count >= 2
  }

  /** The engine remembers the last request, and it is the furthest one made from the expected number. */
  ghost predicate Remembered(requests: seq<GapRequest>, expected: nat, lastFirst: nat, lastLast: nat) {
    && lastFirst <= expected && lastFirst <= lastLast
    && (lastFirst == 0 == lastLast
        || exists i :: 0 <= i < |requests| && requests[i].first == lastFirst && Last(requests[i]) == lastLast)
    && (forall i :: 0 <= i < |requests| && requests[i].first == expected ==>
          lastFirst == expected && Last(requests[i]) <= lastLast)
  }

  ghost predicate RequestFacts(requests: seq<GapRequest>, expected: nat, lastFirst: nat, lastLast: nat) {
    && RequestsSound(requests, expected)
    && RequestsGrow(requests)
    && ZeroNeverAlone(requests)
    && Remembered(requests, expected, lastFirst, lastLast)
  }

  /** The same, said of an equal copy so that a proof meets its parts only where it asks for them. */
  ghost predicate RequestsOk(requests: seq<GapRequest>, expected: nat, lastFirst: nat, lastLast: nat) {
    forall copy {:trigger RequestFacts(copy, expected, lastFirst, lastLast)} :: copy == requests ==>
      RequestFacts(copy, expected, lastFirst, lastLast)
  }

  lemma OpenRequests(requests: seq<GapRequest>, expected: nat, lastFirst: nat, lastLast: nat)
    requires RequestsOk(requests, expected, lastFirst, lastLast)
    ensures RequestFacts(requests, expected, lastFirst, lastLast)
  {
  }

  /** The release is a gapless run of what has arrived, and the buffer holds the rest. */
  ghost predicate Sorted(first: nat, a: Arrivals, pending: map<u64, Data>, expected: nat, released: seq<MoldMessage>) {
    && first <= expected <= U64_MAX && Gapless(first, a, expected)
    && Held(a, pending, expected)
    && released == Slice(a, first, expected)
  }

  ghost predicate InOrder(first: nat, a: Arrivals, pending: map<u64, Data>, expected: nat, released: seq<MoldMessage>) {
    forall copy {:trigger Sorted(first, a, pending, expected, copy)} :: copy == released ==>
        Sorted(first, a, pending, expected, copy)
  }

  lemma OpenOrder(first: nat, a: Arrivals, pending: map<u64, Data>, expected: nat, released: seq<MoldMessage>)
    requires InOrder(first, a, pending, expected, released)
    ensures Sorted(first, a, pending, expected, released)
  {
  }

  /** In numbers: from the first expected message on, one after the other; the buffer has what lies beyond. */
  lemma ReleasedLaw(first: nat, a: Arrivals, pending: map<u64, Data>, expected: nat, released: seq<MoldMessage>)
    requires InOrder(first, a, pending, expected, released)
    ensures |released| == expected - first
    ensures forall i :: 0 <= i < |released| ==>
              released[i].sequence == first + i && first + i in a && released[i].payload == a[first + i]
    ensures pending == map s | s in a && s >= expected :: a[s]
  {
    OpenOrder(first, a, pending, expected, released);
    forall i | 0 <= i < |released|
      ensures released[i].sequence == first + i && first + i in a && released[i].payload == a[first + i]
    {
      SliceAt(a, first, expected, i);
    }
  }

  /** Releasing the buffered message that is next in line. */
  lemma ReleaseNext(first: nat, a: Arrivals, pending: map<u64, Data>, expected: u64, released: seq<MoldMessage>)
    requires InOrder(first, a, pending, expected, released) && expected in pending && expected < U64_MAX
    ensures InOrder(first, a, pending - {expected}, expected + 1, released + [MoldMessage(expected, pending[expected])])
    ensures expected in a && a[expected] == pending[expected]
  {
    OpenOrder(first, a, pending, expected, released);
    assert Sorted(first, a, pending - {expected}, expected + 1, released + [MoldMessage(expected, pending[expected])]);
  }

  /** The expected message arrives and is released at once. */
  lemma ReleaseArrival(first: u64, a: Arrivals, pending: map<u64, Data>, expected: u64, released: seq<MoldMessage>,
                       m: MoldMessage)
    requires InOrder(first, a, pending, expected, released) && expected !in a
    requires m.sequence == expected && expected < U64_MAX
    ensures Note(first, a, m) == a[expected := m.payload]
    ensures InOrder(first, Note(first, a, m), pending, expected + 1, released + [m])
  {
    OpenOrder(first, a, pending, expected, released);
    SliceSame(a, Note(first, a, m), first, expected);
    assert Sorted(first, Note(first, a, m), pending, expected + 1, released + [m]);
  }

  /** A message ahead of its time arrives and is buffered, unless it already is. */
  lemma BufferArrival(first: u64, a: Arrivals, pending: map<u64, Data>, expected: u64, released: seq<MoldMessage>,
                      m: MoldMessage)
    requires InOrder(first, a, pending, expected, released) && m.sequence > expected
    ensures InOrder(first, Note(first, a, m),
                    if m.sequence in pending then pending else pending[m.sequence := m.payload],
                    expected, released)
    ensures expected in Note(first, a, m) <==> expected in a
  {
    OpenOrder(first, a, pending, expected, released);
    SliceSame(a, Note(first, a, m), first, expected);
    assert Sorted(first, Note(first, a, m), if m.sequence in pending then pending else pending[m.sequence := m.payload],
                  expected, released);
  }

  /** A stale message has arrived before, or was never asked for. */
  lemma StaleArrival(first: u64, a: Arrivals, pending: map<u64, Data>, expected: u64, released: seq<MoldMessage>,
                     m: MoldMessage)
    requires InOrder(first, a, pending, expected, released) && m.sequence < expected
    ensures Note(first, a, m) == a
  {
    OpenOrder(first, a, pending, expected, released);
  }

  /** Past the last sequence number, everything has arrived. */
  lemma NothingLeft(first: u64, a: Arrivals, pending: map<u64, Data>, released: seq<MoldMessage>)
    requires InOrder(first, a, pending, U64_MAX, released) && U64_MAX in a
    ensures Gapless(first, a, U64_MAX + 1)
  {
    OpenOrder(first, a, pending, U64_MAX, released);
  }

  /** What was released between two moments. */
  lemma ReleasedSince(first: nat, a: Arrivals, pending: map<u64, Data>, expected: nat, released: seq<MoldMessage>,
                      a0: Arrivals, pending0: map<u64, Data>, expected0: nat, released0: seq<MoldMessage>)
    requires InOrder(first, a0, pending0, expected0, released0) && InOrder(first, a, pending, expected, released)
    requires expected0 <= expected
    requires forall s :: s in a0 ==> s in a && a[s] == a0[s]
    ensures expected <= U64_MAX && forall t: u64 :: expected0 <= t < expected ==> t in a
    ensures released == released0 + Slice(a, expected0, expected)
  {
    OpenOrder(first, a0, pending0, expected0, released0);
    OpenOrder(first, a, pending, expected, released);
    SliceSame(a0, a, first, expected0);
    SliceJoins(a, first, expected0, expected);
  }

  /** If something is buffered, the remembered request reaches up to it or is of the largest size. */
  ghost predicate HoleRemembered(pending: map<u64, Data>, expected: nat, lastFirst: nat, lastLast: nat) {
    pending != map[] ==>
      lastFirst == expected && (lastLast == expected + MAX_REQUEST - 1 || exists p :: p in pending && p <= lastLast + 1)
  }

  /** A request from the expected number has been made that spans the first hole or is of the largest size. */
  ghost predicate HoleRequested(requests: seq<GapRequest>, pending: map<u64, Data>, expected: nat) {
    exists i :: 0 <= i < |requests| && requests[i].first == expected
                && (requests[i].count == MAX_REQUEST || exists p :: p in pending && p <= Last(requests[i]) + 1)
  }

  /**
   With messages buffered, the first hole has been asked for unless the engine waits for message 0 and has
   not asked for anything yet: 0 also stands for "no request" in the engine's memory.
   */
  lemma HoleRequestedIff(first: nat, a: Arrivals, pending: map<u64, Data>, expected: nat, released: seq<MoldMessage>,
                         requests: seq<GapRequest>, lastFirst: nat, lastLast: nat)
    requires InOrder(first, a, pending, expected, released) && expected !in a && pending != map[]
    requires RequestsOk(requests, expected, lastFirst, lastLast)
    requires HoleRemembered(pending, expected, lastFirst, lastLast)
    ensures HoleRequested(requests, pending, expected) <==> expected > 0 || requests != []
  {
    OpenRequests(requests, expected, lastFirst, lastLast);
    if expected == 0 && requests != [] {
      assert Sound(requests[0]) && requests[0].first <= expected;
      assert Last(requests[0]) >= 1;
    }
    if expected > 0 || requests != [] {
      var i :| 0 <= i < |requests| && requests[i].first == lastFirst && Last(requests[i]) == lastLast;
      assert HoleRequested(requests, pending, expected);
    }
  }

  lemma RequestsOkAdvance(requests: seq<GapRequest>, expected: nat, expected': nat, lastFirst: nat, lastLast: nat)
    requires RequestsOk(requests, expected, lastFirst, lastLast) && expected < expected'
    ensures RequestsOk(requests, expected', lastFirst, lastLast)
    ensures RequestsOk(requests, expected', 0, 0)
  {
    OpenRequests(requests, expected, lastFirst, lastLast);
    forall i | 0 <= i < |requests| ensures requests[i].first < expected' {
      assert requests[i].first <= expected;
    }
    assert RequestFacts(requests, expected', lastFirst, lastLast);
    assert RequestFacts(requests, expected', 0, 0);
  }

  /** One more request from the expected number, further than any before it or of the largest size. */
  lemma RequestsOkEmit(requests: seq<GapRequest>, expected: nat, lastFirst: nat, lastLast: nat, r: GapRequest)
    requires RequestsOk(requests, expected, lastFirst, lastLast)
    requires Sound(r) && r.first == expected
    requires lastFirst == expected ==> Last(r) > lastLast || r.count == MAX_REQUEST
    ensures RequestsOk(requests + [r], expected, r.first, Last(r))
  {
    OpenRequests(requests, expected, lastFirst, lastLast);
    var all := requests + [r];
    assert forall i :: 0 <= i < |requests| ==> all[i] == requests[i];
    forall i | 0 <= i < |requests| && requests[i].first == r.first
      ensures requests[i].count < r.count || requests[i].count == r.count == MAX_REQUEST
    {
      assert Sound(requests[i]) && Last(requests[i]) <= lastLast;
    }
    assert RequestsGrow(all);
    assert RequestsSound(all, expected);
    assert all[|requests|] == r;
    assert Remembered(all, expected, r.first, Last(r));
    assert RequestFacts(all, expected, r.first, Last(r));
  }

  /** The remembered range is no larger than a request may be. */
  lemma RememberedBound(requests: seq<GapRequest>, expected: nat, lastFirst: nat, lastLast: nat)
    requires RequestsOk(requests, expected, lastFirst, lastLast)
    ensures lastFirst <= lastLast <= lastFirst + MAX_REQUEST - 1
  {
    OpenRequests(requests, expected, lastFirst, lastLast);
  }

  // ---------------------------------------------------------------- which request is made

  /** An earlier request from `from` reaches up to `last`. */
  predicate Asked(requests: seq<GapRequest>, from: nat, last: nat) {
    exists i :: 0 <= i < |requests| && requests[i].first == from && Last(requests[i]) >= last
  }

  /**
   The request that is made when everything below `observed` is known to exist: the hole up to there, or as much
   of it as one request may name, unless that has been asked for. Waiting for 0 with 1 observed counts as asked.
   */
  function RequestFor(requests: seq<GapRequest>, expected: u64, observed: nat): Option<GapRequest> {
    if observed <= expected || Asked(requests, expected, observed - 1) || (expected == 0 && observed == 1) then None
    else Some(GapRequest(expected, MinOf(observed - expected, MAX_REQUEST)))
  }

  /** The request for `low` to `high - 1`, or for the first 65534 of these. */
  function AtMost65534(low: u64, high: nat): (r: GapRequest)
    requires low < high
    ensures r.first == low && r.count == if high - low < 65534 then high - low else 65534
  {
    GapRequest(low, if high - low < 65534 then high - low else 65534)
  }

  /** In numbers: an unasked hole is asked for, whole or its first 65534; otherwise nothing is. */
  lemma RequestLaw(requests: seq<GapRequest>, expected: u64, observed: nat)
    ensures observed > expected && (expected > 0 || observed > 1)
            && (forall q :: q in requests && q.first == expected ==> q.first + q.count < observed) ==>
              RequestFor(requests, expected, observed) == Some(AtMost65534(expected, observed))
    ensures observed <= expected || (expected == 0 && observed == 1) ==>
              RequestFor(requests, expected, observed) == None
    ensures (exists q :: q in requests && q.first == expected && q.first + q.count >= observed) ==>
              RequestFor(requests, expected, observed) == None
  {
    if exists q :: q in requests && q.first == expected && q.first + q.count >= observed {
      var q :| q in requests && q.first == expected && q.first + q.count >= observed;
      var i :| 0 <= i < |requests| && requests[i] == q;
      assert observed > 0 ==> Last(requests[i]) >= observed - 1;
    }
  }

  /** The engine's memory of its last request decides whether a hole has been asked for. */
  lemma MemoryDecides(requests: seq<GapRequest>, expected: nat, lastFirst: nat, lastLast: nat, last: nat)
    requires RequestsOk(requests, expected, lastFirst, lastLast) && last >= expected
    ensures lastFirst == expected && lastLast >= last <==>
                Asked(requests, expected, last) || (expected == 0 && last == 0)
  {
    OpenRequests(requests, expected, lastFirst, lastLast);
  }

  /** A request repeats an earlier one exactly when a request of the largest size has been made from its start. */
  lemma RepeatsIff(requests: seq<GapRequest>, expected: u64, observed: nat)
    requires forall i :: 0 <= i < |requests| ==> Sound(requests[i])
    requires RequestFor(requests, expected, observed).Some?
    ensures RequestFor(requests, expected, observed).value in requests
            <==> Asked(requests, expected, expected + MAX_REQUEST - 1)
  {
    var q := RequestFor(requests, expected, observed).value;
    if q in requests {
      var i :| 0 <= i < |requests| && requests[i] == q;
      assert Last(requests[i]) < observed - 1;
    }
    if Asked(requests, expected, expected + MAX_REQUEST - 1) {
      var i :| 0 <= i < |requests| && requests[i].first == expected && Last(requests[i]) >= expected + MAX_REQUEST - 1;
      assert Sound(requests[i]) && requests[i] == q;
    }
  }

  /** The same, by the engine's memory. */
  lemma Repeats(requests: seq<GapRequest>, expected: u64, lastFirst: nat, lastLast: nat, observed: nat)
    requires RequestsOk(requests, expected, lastFirst, lastLast) && RequestFor(requests, expected, observed).Some?
    ensures RequestFor(requests, expected, observed).value in requests
            <==> lastFirst == expected && lastLast == expected + MAX_REQUEST - 1
  {
    OpenRequests(requests, expected, lastFirst, lastLast);
    RepeatsIff(requests, expected, observed);
    MemoryDecides(requests, expected, lastFirst, lastLast, expected + MAX_REQUEST - 1);
    RememberedBound(requests, expected, lastFirst, lastLast);
  }

  /** No number that the request names has arrived. */
  ghost predicate NamesNothing(q: GapRequest, a: Arrivals) {
    forall s: u64 :: q.first <= s <= Last(q) ==> s !in a
  }

  ghost predicate AllFrom(pending: map<u64, Data>, low: int) {
    forall s :: s in pending ==> s >= low
  }

  /**
   A request that may be sent starts at the expected number and stays below what was observed. When it repeats an
   earlier one, and when it names something that has arrived, is said exactly.
   */
  ghost predicate RequestRight(q: GapRequest, before: seq<GapRequest>, expected: u64, observed: nat,
                               a: Arrivals, pending: map<u64, Data>) {
    && Sound(q) && q.first == expected && Last(q) < observed
    && (q in before <==> Asked(before, expected, expected + MAX_REQUEST - 1))
    && (NamesNothing(q, a) <==> AllFrom(pending, MinOf(observed, expected + MAX_REQUEST)))
  }

  /** A request names nothing that has arrived exactly when everything buffered lies beyond its end. */
  lemma NamesHoleIff(first: nat, a: Arrivals, pending: map<u64, Data>, expected: u64, released: seq<MoldMessage>,
                     requests: seq<GapRequest>, observed: nat)
    requires InOrder(first, a, pending, expected, released) && observed <= U64_MAX
    requires RequestFor(requests, expected, observed).Some?
    ensures NamesNothing(RequestFor(requests, expected, observed).value, a)
            <==> AllFrom(pending, MinOf(observed, expected + MAX_REQUEST))
  {
    OpenOrder(first, a, pending, expected, released);
    var q := RequestFor(requests, expected, observed).value;
    assert Last(q) + 1 == MinOf(observed, expected + MAX_REQUEST);
    if NamesNothing(q, a) {
      forall s | s in pending ensures s >= MinOf(observed, expected + MAX_REQUEST) {
        assert s in a && s >= expected;
      }
    }
  }

  /** The first buffered number. */
  function FirstOf(pending: map<u64, Data>): (low: u64)
    requires pending != map[]
    ensures low in pending && forall s :: s in pending ==> low <= s
  {
    assert pending.Keys != {};
    Least(pending.Keys, (s: u64) => s)
  }

  // ---------------------------------------------------------------- packets

  /** The number below which a packet shows that everything exists, given what is buffered after it. */
  function Observed(p: Packet, pending: map<u64, Data>): nat {
    if p.heartbeat || p.endOfSession then p.firstSequence else if pending == map[] then 0 else FirstOf(pending)
  }

  /**
   The request that a packet leads to, in the packet's own terms: for what is missing below the number that a heartbeat
   or the end of the session shows, or else below the least buffered number, unless that has been asked for.
   */
  lemma PacketRequestLaw(p: Packet, pending: map<u64, Data>, requests: seq<GapRequest>, expected: u64, low: u64)
    requires if p.heartbeat || p.endOfSession then low == p.firstSequence
             else low in pending && forall s :: s in pending ==> low <= s
    ensures RequestFor(requests, expected, Observed(p, pending))
            == if low > expected && (expected > 0 || low > 1)
                  && (forall q :: q in requests && q.first == expected ==> q.first + q.count < low)
               then Some(AtMost65534(expected, low)) else None
  {
    assert Observed(p, pending) == low;
    RequestLaw(requests, expected, low);
  }

  /** A packet of messages after which nothing is buffered leads to no request. */
  lemma NoRequestLaw(p: Packet, requests: seq<GapRequest>, expected: u64)
    requires !p.heartbeat && !p.endOfSession
    ensures RequestFor(requests, expected, Observed(p, map[])) == None
  {
  }

  /** The messages of a packet; heartbeats and end-of-session packets have none. */
  function Carried(p: Packet): seq<MoldMessage> {
    if p.heartbeat || p.endOfSession then [] else p.messages
  }

  /** A number below the start, or one up to which everything has been released. */
  ghost predicate Stale(first: u64, a: Arrivals, s: u64) {
    s < first || Gapless(first, a, s + 1)
  }

  ghost predicate StaleAt(first: u64, a: Arrivals, ms: seq<MoldMessage>, i: int) {
    0 <= i < |ms| && Stale(first, NoteAll(first, a, ms[..i]), ms[i].sequence)
  }

  /** Some message of a packet is stale at the moment when its turn comes. */
  ghost predicate SomeStale(first: u64, a: Arrivals, ms: seq<MoldMessage>) {
    exists i :: StaleAt(first, a, ms, i)
  }

  lemma StaleIff(first: u64, a: Arrivals, pending: map<u64, Data>, expected: u64, released: seq<MoldMessage>, s: u64)
    requires InOrder(first, a, pending, expected, released) && expected !in a
    ensures Stale(first, a, s) <==> s < expected
  {
    OpenOrder(first, a, pending, expected, released);
  }

  lemma StaleAtPrefix(first: u64, a: Arrivals, ms: seq<MoldMessage>, n: nat, i: nat)
    requires i < n <= |ms|
    ensures StaleAt(first, a, ms[..n], i) <==> StaleAt(first, a, ms, i)
  {
    assert ms[..n][..i] == ms[..i];
  }

  lemma SomeStaleGrows(first: u64, a: Arrivals, ms: seq<MoldMessage>, n: nat)
    requires n < |ms| && SomeStale(first, a, ms[..n])
    ensures SomeStale(first, a, ms[..n + 1])
  {
    var i :| StaleAt(first, a, ms[..n], i);
    StaleAtPrefix(first, a, ms, n, i);
    StaleAtPrefix(first, a, ms, n + 1, i);
  }

  lemma SomeStaleWhere(first: u64, a: Arrivals, ms: seq<MoldMessage>, n: nat)
    requires n < |ms| && SomeStale(first, a, ms[..n + 1])
    ensures SomeStale(first, a, ms[..n]) || StaleAt(first, a, ms, n)
  {
    var i :| StaleAt(first, a, ms[..n + 1], i);
    StaleAtPrefix(first, a, ms, n + 1, i);
    if i < n {
      StaleAtPrefix(first, a, ms, n, i);
    }
  }

  lemma SomeStaleStep(first: u64, a: Arrivals, ms: seq<MoldMessage>, n: nat)
    requires n < |ms|
    ensures SomeStale(first, a, ms[..n + 1]) <==>
            SomeStale(first, a, ms[..n]) || Stale(first, NoteAll(first, a, ms[..n]), ms[n].sequence)
    ensures NoteAll(first, a, ms[..n + 1]) == Note(first, NoteAll(first, a, ms[..n]), ms[n])
  {
    assert ms[..n + 1][..n] == ms[..n];
    if SomeStale(first, a, ms[..n + 1]) {
      SomeStaleWhere(first, a, ms, n);
    }
    if SomeStale(first, a, ms[..n]) {
      SomeStaleGrows(first, a, ms, n);
    }
    StaleAtPrefix(first, a, ms, n + 1, n);
  }

  /** Once everything has arrived, it stays so. */
  lemma GaplessStays(first: u64, a: Arrivals, ms: seq<MoldMessage>, n: nat)
    requires n <= |ms| && Gapless(first, NoteAll(first, a, ms[..n]), U64_MAX + 1)
    ensures Gapless(first, NoteAll(first, a, ms), U64_MAX + 1)
  {
    NoteAllAppend(first, a, ms[..n], ms[n..]);
    SplitJoins(ms, n);
    NoteAllKeeps(first, NoteAll(first, a, ms[..n]), ms[n..]);
  }

  /** A request that ends below the first buffered number names nothing that has arrived. */
  lemma RequestNamesHole(first: nat, a: Arrivals, pending: map<u64, Data>, expected: u64, released: seq<MoldMessage>,
                         low: u64, r: GapRequest)
    requires InOrder(first, a, pending, expected, released)
    requires (forall p :: p in pending ==> low <= p) && r.first == expected && Last(r) < low
    ensures NamesNothing(r, a)
  {
    OpenOrder(first, a, pending, expected, released);
  }

  class RecoveryEngine {
    var expected: u64
    var pending: map<u64, Data>
    var session: Option<Session>
    var lastFirst: u64
    var lastLast: u64

    /** The first sequence number that the engine was told to expect. */
    ghost const first: u64
    /** What has arrived, what has been released, and what has been requested so far. */
    ghost var arrived: Arrivals
    ghost var released: seq<MoldMessage>
    ghost var requests: seq<GapRequest>

    /** Between messages: the release is the longest gapless run, the rest is buffered. */
    ghost predicate Settled()
      reads this
    {
      && InOrder(first, arrived, pending, expected, released) && expected !in arrived
      && RequestsOk(requests, expected, lastFirst, lastLast)
    }

    ghost predicate Valid()
      reads this
    {
      Settled() && HoleRemembered(pending, expected, lastFirst, lastLast)
    }

    constructor (firstExpected: u64)
      ensures Valid() && first == firstExpected && expected == firstExpected
      ensures arrived == map[] && released == [] && requests == [] && session.None?
    {
      expected := firstExpected;
      pending := map[];
      session := None;
      lastFirst := 0;
      lastLast := 0;
      first := firstExpected;
      arrived := map[];
      released := [];
      requests := [];
      new;
      assert Sorted(first, arrived, pending, expected, released);
      assert RequestFacts(requests, expected, 0, 0);
    }

    method MaybeRequest(observedNext: nat) returns (r: Option<GapRequest>)
      requires Settled() && observedNext <= U64_MAX
      modifies this`lastFirst, this`lastLast, this`requests
      ensures Settled()
      ensures requests == old(requests) + if r.Some? then [r.value] else []
      ensures r == RequestFor(old(requests), expected, observedNext)
      ensures r.Some? <==> observedNext > expected && !(old(lastFirst) == expected && old(lastLast) >= observedNext - 1)
      ensures r.Some? ==> Sound(r.value)
      ensures r.Some? ==>
                (r.value in old(requests) <==>
                     old(lastFirst) == expected && old(lastLast) == expected + MAX_REQUEST - 1)
      ensures observedNext > expected ==>
                lastFirst == expected && (lastLast == expected + MAX_REQUEST - 1 || observedNext <= lastLast + 1)
      ensures r.None? ==> lastFirst == old(lastFirst) && lastLast == old(lastLast)
      ensures old(lastFirst) == expected ==> lastFirst == expected && lastLast >= old(lastLast)
    {
      if observedNext <= expected {
        return None;
      }
      MemoryDecides(requests, expected, lastFirst, lastLast, observedNext - 1);
      var lastMissing := observedNext - 1;
      if lastFirst == expected && lastLast >= lastMissing {
        return None;
      }
      var gap := lastMissing - expected + 1;
      var count := MinOf(gap, 0xFFFE);
      var request := GapRequest(expected, count);
      RememberedBound(requests, expected, lastFirst, lastLast);
      Repeats(requests, expected, lastFirst, lastLast, observedNext);
      RequestsOkEmit(requests, expected, lastFirst, lastLast, request);
      lastFirst := expected;
      lastLast := expected + count - 1;
      requests := requests + [request];
      return Some(request);
    }

    /** Releases buffered messages for as long as they follow on. Fails only past the last sequence number. */
    method Drain() returns (ready: seq<MoldMessage>, ok: bool)
      requires InOrder(first, arrived, pending, expected, released)
      requires RequestsOk(requests, expected, lastFirst, lastLast) && RequestsOk(requests, expected, 0, 0)
      modifies this`expected, this`pending, this`lastFirst, this`lastLast, this`released
      ensures ok ==> Settled() && expected >= old(expected) && released == old(released) + ready
      ensures !ok ==> Gapless(first, arrived, U64_MAX + 1)
    {
      ready := [];
      while expected in pending
        invariant InOrder(first, arrived, pending, expected, released)
        invariant RequestsOk(requests, expected, lastFirst, lastLast) && RequestsOk(requests, expected, 0, 0)
        invariant old(expected) <= expected && released == old(released) + ready
        decreases U64_MAX - expected
      {
        if expected == U64_MAX {
          OpenOrder(first, arrived, pending, expected, released);
          NothingLeft(first, arrived, pending, released);
          return ready, false;
        }
        ReleaseNext(first, arrived, pending, expected, released);
        RequestsOkAdvance(requests, expected, expected + 1, lastFirst, lastLast);
        var m := MoldMessage(expected, pending[expected]);
        ready := ready + [m];
        released := released + [m];
        pending := pending - {expected};
        expected := expected + 1;
      }
      OpenOrder(first, arrived, pending, expected, released);
      if lastLast < expected {
        lastFirst, lastLast := 0, 0;
      }
      return ready, true;
    }

    /** One message of a packet: stale, next in line, or ahead of its time. */
    method Accept(m: MoldMessage) returns (ready: seq<MoldMessage>, stale: bool, ok: bool)
      requires Settled()
      modifies this`expected, this`pending, this`lastFirst, this`lastLast, this`arrived, this`released
      ensures arrived == Note(first, old(arrived), m)
      ensures stale <==> m.sequence < old(expected)
      ensures ok ==> Settled() && expected >= old(expected) && released == old(released) + ready
      ensures !ok ==> Gapless(first, arrived, U64_MAX + 1)
    {
      stale, ok, ready := false, true, [];
      if m.sequence < expected {
        StaleArrival(first, arrived, pending, expected, released, m);
        stale := true;
      } else if m.sequence == expected {
        ready, ok := Deliver(m);
      } else {
        BufferArrival(first, arrived, pending, expected, released, m);
        arrived := Note(first, arrived, m);
        if m.sequence !in pending {
          pending := pending[m.sequence := m.payload];
        }
      }
    }

    /** The expected message is released, and what it was holding up after it. */
    method Deliver(m: MoldMessage) returns (ready: seq<MoldMessage>, ok: bool)
      requires Settled() && m.sequence == expected
      modifies this`expected, this`pending, this`lastFirst, this`lastLast, this`arrived, this`released
      ensures arrived == Note(first, old(arrived), m)
      ensures ok ==> Settled() && expected >= old(expected) && released == old(released) + ready
      ensures !ok ==> Gapless(first, arrived, U64_MAX + 1)
    {
      if expected == U64_MAX {
        OpenOrder(first, arrived, pending, expected, released);
        arrived := Note(first, arrived, m);
        return [m], false;
      }
      ReleaseArrival(first, arrived, pending, expected, released, m);
      RequestsOkAdvance(requests, expected, expected + 1, lastFirst, lastLast);
      arrived := Note(first, arrived, m);
      released := released + [m];
      expected := expected + 1;
      ready, ok := Drain();
      ready := [m] + ready;
    }

    /** The loop over the messages of a packet. */
    method AcceptAll(ms: seq<MoldMessage>) returns (ready: seq<MoldMessage>, stale: bool, ok: bool)
      requires Settled()
      modifies this`expected, this`pending, this`lastFirst, this`lastLast, this`arrived, this`released
      ensures ok ==> Settled() && expected >= old(expected) && released == old(released) + ready
      ensures ok ==> arrived == NoteAll(first, old(arrived), ms)
      ensures ok ==> (stale <==> SomeStale(first, old(arrived), ms))
      ensures ok <==> !Gapless(first, NoteAll(first, old(arrived), ms), U64_MAX + 1)
    {
      ready, stale, ok := [], false, true;
      for i := 0 to |ms|
        invariant Settled() && expected >= old(expected) && released == old(released) + ready
        invariant arrived == NoteAll(first, old(arrived), ms[..i])
        invariant stale <==> SomeStale(first, old(arrived), ms[..i])
      {
        SomeStaleStep(first, old(arrived), ms, i);
        StaleIff(first, arrived, pending, expected, released, ms[i].sequence);
        var more, late, fine := Accept(ms[i]);
        if !fine {
          GaplessStays(first, old(arrived), ms, i + 1);
          return ready, stale, false;
        }
        ready := ready + more;
        stale := stale || late;
      }
      assert ms[..|ms|] == ms;
      OpenOrder(first, arrived, pending, expected, released);
    }

    /**
     One packet. Every message that follows on is released exactly once, in order and with its first
     payload; a gap is asked for from its first missing number on.
     */
    method Ingest(p: Packet) returns (r: Result<IngestResult>)
      requires Valid()
      modifies this
      // a packet of another session changes nothing
      ensures r == Err(SessionChanged) <==> old(session).Some? && old(session).value != p.session
      ensures r == Err(SessionChanged) ==> unchanged(this)
      // running past the last sequence number is the only other failure
      ensures r.Err? && r.error != SessionChanged ==> r.error == SequenceExhausted
      ensures r != Err(SessionChanged) ==>
                (r == Err(SequenceExhausted) <==> Gapless(first, NoteAll(first, old(arrived), Carried(p)), U64_MAX + 1))
      // otherwise the release is the longest gapless run of what has arrived
      ensures r.Ok? ==> Valid() && session == Some(p.session) && expected >= old(expected)
      ensures r.Ok? ==> arrived == NoteAll(first, old(arrived), Carried(p))
      ensures r.Ok? ==> released == old(released) + r.value.ready
      ensures r.Ok? ==> (r.value.duplicateOrStale <==> SomeStale(first, old(arrived), Carried(p)))
      ensures r.Ok? ==> r.value.endOfSession == p.endOfSession
      // requests
      ensures r.Ok? ==> requests == old(requests) + if r.value.request.Some? then [r.value.request.value] else []
      ensures r.Ok? ==> r.value.request == RequestFor(old(requests), expected, Observed(p, pending))
      ensures r.Ok? && r.value.request.Some? ==>
                RequestRight(r.value.request.value, old(requests), expected, Observed(p, pending), arrived, pending)
      ensures r.Ok? && r.value.request.Some? && !p.heartbeat && !p.endOfSession ==>
                NamesNothing(r.value.request.value, arrived)
      // in numbers: a hole below a heartbeat or the end of the session is asked for
      ensures r.Ok? && (p.heartbeat || p.endOfSession)
              && p.firstSequence > expected && (expected > 0 || p.firstSequence > 1)
              && (forall q :: q in old(requests) && q.first == expected ==> q.first + q.count < p.firstSequence) ==>
                r.value.request == Some(AtMost65534(expected, p.firstSequence))
    {
      if session.None? {
        session := Some(p.session);
      }
      if session.value != p.session {
        return Err(SessionChanged);
      }
      if p.heartbeat || p.endOfSession {
        OpenOrder(first, arrived, pending, expected, released);
        var request := MaybeRequest(p.firstSequence);
        RememberedBound(requests, expected, lastFirst, lastLast);
        RequestTold(request, old(requests), Observed(p, pending));
        RequestLaw(old(requests), expected, p.firstSequence);
        return Ok(IngestResult([], request, false, p.endOfSession));
      }
      var ready, stale, ok := AcceptAll(p.messages);
      if !ok {
        return Err(SequenceExhausted);
      }
      var request := None;
      if pending != map[] {
        request := RequestFirstHole();
      }
      RequestTold(request, old(requests), Observed(p, pending));
      return Ok(IngestResult(ready, request, stale, false));
    }

    /** What is known of a request once it has been made. */
    lemma RequestTold(r: Option<GapRequest>, before: seq<GapRequest>, observed: nat)
      requires Valid() && observed <= U64_MAX && r == RequestFor(before, expected, observed)
      requires requests == before + if r.Some? then [r.value] else []
      ensures r.Some? ==> RequestRight(r.value, before, expected, observed, arrived, pending)
    {
      if r.Some? {
        OpenRequests(requests, expected, lastFirst, lastLast);
        assert forall i :: 0 <= i < |requests| ==> Sound(requests[i]);
        assert forall i :: 0 <= i < |before| ==> before[i] == requests[i];
        assert requests[|before|] == r.value;
        RepeatsIff(before, expected, observed);
        NamesHoleIff(first, arrived, pending, expected, released, before, observed);
      }
    }

    /** Asks for what is missing before the first buffered message. */
    method RequestFirstHole() returns (r: Option<GapRequest>)
      requires Settled() && pending != map[]
      modifies this`lastFirst, this`lastLast, this`requests
      ensures Valid()
      ensures requests == old(requests) + if r.Some? then [r.value] else []
      ensures r == RequestFor(old(requests), expected, FirstOf(pending))
      ensures r.Some? ==> Sound(r.value)
      ensures r.Some? ==> NamesNothing(r.value, arrived)
    {
      var low := FirstOf(pending);
      OpenOrder(first, arrived, pending, expected, released);
      assert low > expected;
      r := MaybeRequest(low);
      if r.Some? {
        RequestNamesHole(first, arrived, pending, expected, released, low, r.value);
      }
    }
  }

  lemma ZeroRequestReachesOne(requests: seq<GapRequest>, r: Option<GapRequest>)
    requires ZeroNeverAlone(requests) && requests == if r.Some? then [r.value] else []
    ensures r.Some? && r.value.first == 0 ==> Last(r.value) >= 1
  {
    assert r.Some? ==> requests[0] == r.value;
  }

  /** An engine that starts at 0 and sees message 1 first buffers it without asking for message 0. */
  method ZeroStartAsksForNothing(session: Session, payload: Data)
      returns (engine: RecoveryEngine, r: Result<IngestResult>)
    ensures r.Ok? && r.value.request.None? && engine.Valid()
    ensures engine.expected == 0 && engine.pending != map[]
    ensures !HoleRequested(engine.requests, engine.pending, engine.expected)
  {
    engine := new RecoveryEngine(0);
    var p := Packet(session, 1, 1, false, false, [MoldMessage(1, payload)]);
    assert NoteAll(0, map[], Carried(p)) == map[1 := payload] by {
      assert Carried(p)[..0] == [];
    }
    assert !Gapless(0, map[1 := payload], U64_MAX + 1) by {
      var zero: u64 := 0;
      assert zero !in map[1 := payload];
    }
    r := engine.Ingest(p);
    OpenOrder(0, engine.arrived, engine.pending, engine.expected, engine.released);
    OpenRequests(engine.requests, engine.expected, engine.lastFirst, engine.lastLast);
    ZeroRequestReachesOne(engine.requests, r.value.request);
    var zero: u64, one: u64 := 0, 1;
    assert zero !in engine.arrived && one in engine.pending;
  }

  /** A heartbeat, which shows that everything below `next` exists. */
  function Heartbeat(session: Session, next: u64): Packet {
    Packet(session, next, 0, true, false, [])
  }

  lemma MissingOneIsNotGapless(a: Arrivals)
    requires 1 !in a
    ensures !Gapless(1, a, U64_MAX + 1)
  {
    var one: u64 := 1;
    assert one !in a;
  }

  /** As long as message 1 is missing, an engine that started there expects it. */
  lemma StillExpectsOne(a: Arrivals, pending: map<u64, Data>, expected: nat, released: seq<MoldMessage>)
    requires InOrder(1, a, pending, expected, released) && 1 !in a
    ensures expected == 1 && pending.Keys == a.Keys - {0}
  {
    OpenOrder(1, a, pending, expected, released);
    var one: u64 := 1;
    assert expected > 1 ==> one in a;
  }

  /** A hole of more than 65534 messages is asked for again, in the same words, with every heartbeat. */
  method LargeHoleAskedAgain(session: Session) returns (engine: RecoveryEngine)
    ensures engine.Valid() && engine.requests == [GapRequest(1, MAX_REQUEST), GapRequest(1, MAX_REQUEST)]
  {
    engine := new RecoveryEngine(1);
    MissingOneIsNotGapless(map[]);
    var r := engine.Ingest(Heartbeat(session, 100_000));
    StillExpectsOne(engine.arrived, engine.pending, engine.expected, engine.released);
    assert engine.requests == [GapRequest(1, MAX_REQUEST)];
    r := engine.Ingest(Heartbeat(session, 100_000));
    StillExpectsOne(engine.arrived, engine.pending, engine.expected, engine.released);
  }

  /** With message 5 buffered, a heartbeat that announces 10 has 1 to 9 asked for, 5 included. */
  method HeartbeatNamesBuffered(session: Session, payload: Data)
      returns (engine: RecoveryEngine, r: Result<IngestResult>)
    ensures engine.Valid() && r.Ok? && r.value.request == Some(GapRequest(1, 9))
    ensures 5 in engine.pending && !NamesNothing(GapRequest(1, 9), engine.arrived)
  {
    engine := new RecoveryEngine(1);
    var p := Packet(session, 5, 1, false, false, [MoldMessage(5, payload)]);
    var a: Arrivals := map[5 := payload];
    assert NoteAll(1, map[], Carried(p)) == a by {
      assert Carried(p)[..0] == [];
    }
    MissingOneIsNotGapless(a);
    r := engine.Ingest(p);
    StillExpectsOne(engine.arrived, engine.pending, engine.expected, engine.released);
    assert FirstOf(engine.pending) == 5;
    assert engine.requests == [GapRequest(1, 4)];
    r := engine.Ingest(Heartbeat(session, 10));
    StillExpectsOne(engine.arrived, engine.pending, engine.expected, engine.released);
    var five: u64 := 5;
    assert five in engine.arrived;
  }
}
