/**
 The whole pipeline: framing, recovery, decoding and the book (src/main.cpp:78-89). Whatever the order,
 repetition and packing of the datagrams, the book is the one that in-order delivery gives.
 */
module Pipeline {
  import opened Types
  import opened Bytes
  import opened MoldUdp64
  import opened RecoverySpec
  import opened RecoveryEngineModel
  import opened BookModel
  import opened BookView
  import opened BookHash
  import opened OrderBookModel
  import opened Delivery

  /** The first packet fixes the session; later ones must belong to it. */
  predicate Admits(session: Option<Session>, s: Session) {
    session.None? || session.value == s
  }

  class Engine {
    const recovery: RecoveryEngine
    const book: OrderBook
    const decoder: Decoder

    /** The book is the in-order fold of everything released so far. */
    ghost predicate Valid()
      reads this, recovery, book, book.slots, book.index, book.index.entries
    {
      && recovery.Valid() && book.Valid()
      && Events(decoder, recovery.released).Ok?
      && book.M() == Delivered(decoder, book.slots.Length, recovery.released)
    }

    constructor (firstExpected: u64, maxOrders: nat, hash: u64 -> u64, decoder: Decoder)
      requires 0 < maxOrders < INVALID_SLOT
      ensures Valid() && recovery.first == firstExpected && recovery.arrived == map[] && recovery.session.None?
      ensures this.decoder == decoder && book.slots.Length == maxOrders
      ensures fresh(recovery) && fresh(book) && fresh(book.slots) && fresh(book.index) && fresh(book.index.entries)
    {
      recovery := new RecoveryEngine(firstExpected);
      book := new OrderBook(maxOrders, hash);
      this.decoder := decoder;
    }

    /** Decodes released messages and applies their events, one by one, up to the first that does not decode. */
    method ApplyAll(ready: seq<MoldMessage>, ghost before: seq<MoldMessage>) returns (r: Option<Failure>)
      requires book.Valid() && Events(decoder, before).Ok?
      requires book.M() == Delivered(decoder, book.slots.Length, before)
      modifies book, book.slots, book.index, book.index.entries
      ensures book.Valid()
      ensures r.None? ==> Events(decoder, before + ready).Ok?
                          && book.M() == Delivered(decoder, book.slots.Length, before + ready)
      ensures r.Some? ==> Events(decoder, before + ready) == Err(r.value)
                          && Halted(decoder, book.slots.Length, before + ready, book.M(), r.value)
    {
      assert before + ready[..0] == before;
      for i := 0 to |ready|
        invariant book.Valid() && Events(decoder, before + ready[..i]).Ok?
        invariant book.M() == Delivered(decoder, book.slots.Length, before + ready[..i])
      {
        ghost var done := before + ready[..i];
        EventsOneMore(decoder, before, ready, i);
        var e := decoder(ready[i].payload);
        if e.Err? {
          FailureStays(decoder, before, ready, i + 1);
          HaltsHere(decoder, book.slots.Length, before, ready, i, book.M(), e.error);
          return Some(e.error);
        }
        if e.value.Some? {
          RunStep(EMPTY_MODEL, book.slots.Length, Events(decoder, done).value, e.value.value);
          var _ := book.Apply(e.value.value);
        }
      }
      assert ready[..|ready|] == ready;
      return None;
    }

    /**
     One packet: what recovery releases goes on to the book. It fails exactly for a packet of another session,
     for the end of the sequence numbers, and for a released message that does not decode; recovery has then
     moved on, and the book holds the messages before that one.
     */
    method Feed(p: Packet) returns (r: Result<IngestResult>)
      requires Valid()
      modifies recovery, book, book.slots, book.index, book.index.entries
      ensures book.Valid()
      ensures r.Ok? <==> Admits(old(recovery.session), p.session)
                         && Passes(decoder, recovery.first, NoteAll(recovery.first, old(recovery.arrived), Carried(p)))
      ensures r.Ok? ==> Valid() && recovery.session == Some(p.session)
      ensures r.Ok? ==> recovery.arrived == NoteAll(recovery.first, old(recovery.arrived), Carried(p))
      ensures !Admits(old(recovery.session), p.session) ==>
                r == Err(SessionChanged) && Valid() && unchanged(recovery) && book.M() == old(book.M())
      ensures Admits(old(recovery.session), p.session) && r.Err? ==>
                if Gapless(recovery.first, NoteAll(recovery.first, old(recovery.arrived), Carried(p)), U64_MAX + 1)
                then r == Err(SequenceExhausted) && book.M() == old(book.M())
                else recovery.Valid() && recovery.arrived == NoteAll(recovery.first, old(recovery.arrived), Carried(p))
                     && Halted(decoder, book.slots.Length, recovery.released, book.M(), r.error)
    {
      ghost var before := recovery.released;
      ghost var a := NoteAll(recovery.first, recovery.arrived, Carried(p));
      FrontierOrGapless(recovery.first, a);
      r := recovery.Ingest(p);
      assert book.Valid() && book.M() == old(book.M());
      if r.Err? {
        return;
      }
      label ingested:
      ReleasePasses(decoder, recovery.first, a, recovery.pending, recovery.expected, recovery.released);
      var failure := ApplyAll(r.value.ready, before);
      assert recovery.Valid() && recovery.released == old@ingested(recovery.released);
      if failure.Some? {
        return Err(failure.value);
      }
    }

    /** One datagram, from bytes to book. A malformed one changes nothing. */
    method Process(d: Data, ghost p: Result<Packet>) returns (r: Result<IngestResult>)
      requires Valid() && p == Parse(d)
      modifies recovery, book, book.slots, book.index, book.index.entries
      ensures book.Valid()
      ensures r.Ok? <==> p.Ok? && Admits(old(recovery.session), p.value.session)
                         && Passes(decoder, recovery.first, NoteAll(recovery.first, old(recovery.arrived), Load(p)))
      ensures r.Ok? ==> Valid() && recovery.session == Some(p.value.session)
      ensures r.Ok? ==> recovery.arrived == NoteAll(recovery.first, old(recovery.arrived), Load(p))
      ensures p.Err? ==> r.Err? && r.error == p.error && Valid() && unchanged(recovery) && book.M() == old(book.M())
      ensures p.Ok? && !Admits(old(recovery.session), p.value.session) ==>
                r == Err(SessionChanged) && Valid() && unchanged(recovery) && book.M() == old(book.M())
      ensures p.Ok? && Admits(old(recovery.session), p.value.session) && r.Err? ==>
                if Gapless(recovery.first, NoteAll(recovery.first, old(recovery.arrived), Load(p)), U64_MAX + 1)
                then r == Err(SequenceExhausted) && book.M() == old(book.M())
                else recovery.Valid() && recovery.arrived == NoteAll(recovery.first, old(recovery.arrived), Load(p))
                     && Halted(decoder, book.slots.Length, recovery.released, book.M(), r.error)
    {
      var packet := ParseDownstream(d);
      if packet.Err? {
        return Err(packet.error);
      }
      r := Feed(packet.value);
    }

    /**
     A whole history of datagrams. It succeeds exactly if all datagrams parse and share a session, and everything
     before the first missing message decodes.
     */
    method Replay(ds: seq<Data>, ghost ps: seq<Result<Packet>>) returns (r: Result<nat>)
      requires Valid() && recovery.arrived == map[] && recovery.session.None? && ps == Parsed(ds)
      modifies recovery, book, book.slots, book.index, book.index.entries
      ensures book.Valid()
      ensures r.Ok? <==> OneSession(ps) && Passes(decoder, recovery.first, NoteAll(recovery.first, map[], History(ps)))
      ensures r.Ok? ==> Valid() && recovery.arrived == NoteAll(recovery.first, map[], History(ps))
    {
      for i := 0 to |ds|
        invariant Valid() && recovery.arrived == NoteAll(recovery.first, map[], History(ps[..i]))
        invariant OneSession(ps[..i]) && recovery.session == SessionOf(ps[..i])
      {
        HistoryStep(ps, i);
        NoteAllAppend(recovery.first, map[], History(ps[..i]), Load(ps[i]));
        OneSessionStep(ps, i);
        var one := Process(ds[i], ps[i]);
        if one.Err? {
          StoppedHere(decoder, recovery.first, ps, i + 1);
          return Err(one.error);
        }
      }
      assert ps[..|ds|] == ps;
      ReleasePasses(decoder, recovery.first, recovery.arrived, recovery.pending, recovery.expected, recovery.released);
      return Ok(|ds|);
    }
  }

  lemma HaltsHere(decoder: Decoder, capacity: nat, before: seq<MoldMessage>, ready: seq<MoldMessage>, i: nat,
                  model: Model, error: Failure)
    requires i < |ready| && decoder(ready[i].payload) == Err(error)
    requires Events(decoder, before + ready[..i]).Ok? && model == Delivered(decoder, capacity, before + ready[..i])
    ensures Halted(decoder, capacity, before + ready, model, error)
  {
    assert (before + ready)[..|before| + i] == before + ready[..i];
    assert HaltedAt(decoder, capacity, before + ready, |before| + i, model, error);
  }

  /** The session of a history, once it has begun. */
  ghost function SessionOf(ps: seq<Result<Packet>>): Option<Session> {
    if ps != [] && ps[0].Ok? then Some(ps[0].value.session) else None
  }

  /** A history stays in one session exactly as long as each datagram parses and is admitted. */
  lemma OneSessionStep(ps: seq<Result<Packet>>, i: nat)
    requires i < |ps| && OneSession(ps[..i])
    ensures OneSession(ps[..i + 1]) <==> ps[i].Ok? && Admits(SessionOf(ps[..i]), ps[i].value.session)
    ensures OneSession(ps[..i + 1]) ==> SessionOf(ps[..i + 1]) == Some(ps[i].value.session)
  {
    var now, next := ps[..i], ps[..i + 1];
    assert forall j :: 0 <= j < i ==> next[j] == now[j];
    assert next[i] == ps[i];
  }

  /** A history that fails at some moment fails. */
  lemma StoppedHere(decoder: Decoder, first: u64, ps: seq<Result<Packet>>, n: nat)
    requires n <= |ps|
    requires !OneSession(ps[..n]) || !Passes(decoder, first, NoteAll(first, map[], History(ps[..n])))
    ensures !OneSession(ps) || !Passes(decoder, first, NoteAll(first, map[], History(ps)))
  {
    if OneSession(ps) {
      assert forall j :: 0 <= j < n ==> ps[..n][j] == ps[j];
      assert OneSession(ps[..n]);
      if Passes(decoder, first, NoteAll(first, map[], History(ps))) {
        PrefixPasses(decoder, first, ps, n);
      }
    }
  }

  // ---------------------------------------------------------------- any arrival history gives the ordered book

  /** `n` is the first number from `first` on that nobody sent. */
  ghost predicate FirstMissing(first: u64, ms: seq<MoldMessage>, n: nat) {
    first <= n <= U64_MAX && !Sent(ms, n) && forall s: u64 :: first <= s < n ==> Sent(ms, s)
  }

  lemma FrontierIsFirstMissing(first: u64, ms: seq<MoldMessage>, n: nat)
    ensures FirstMissing(first, ms, n) <==> Frontier(first, NoteAll(first, map[], ms), n)
  {
    forall s: u64 ensures s in NoteAll(first, map[], ms) <==> first <= s && Sent(ms, s) {
      ArrivedIffSent(first, ms, s);
    }
  }

  /** What has been released is what the stream itself says, up to the first message nobody sent. */
  lemma ReleaseIsStream(stream: u64 -> Data, first: u64, ms: seq<MoldMessage>, n: nat,
                        pending: map<u64, Data>, expected: nat, released: seq<MoldMessage>)
    requires FromStream(stream, ms) && FirstMissing(first, ms, n)
    requires InOrder(first, NoteAll(first, map[], ms), pending, expected, released)
    requires expected !in NoteAll(first, map[], ms)
    ensures expected == n && released == StreamSlice(stream, first, n)
  {
    var a := NoteAll(first, map[], ms);
    OpenOrder(first, a, pending, expected, released);
    FrontierIsFirstMissing(first, ms, n);
    FrontierUnique(first, a, n, expected);
    SliceOfStream(stream, first, ms, n);
  }

  /** The stream's own messages, each in its place. */
  lemma {:induction false} StreamSliceAt(stream: u64 -> Data, lo: nat, hi: nat, i: nat)
    requires lo <= hi <= U64_MAX + 1 && i < hi - lo
    ensures StreamSlice(stream, lo, hi)[i] == MoldMessage(lo + i, stream(lo + i))
    decreases hi
  {
    if i < hi - lo - 1 {
      StreamSliceAt(stream, lo, hi - 1, i);
    }
  }

  /** The part of the stream that is to be delivered decodes. */
  ghost predicate Decodes(decoder: Decoder, stream: u64 -> Data, first: u64, n: nat) {
    forall s: u64 :: first <= s < n ==> decoder(stream(s)).Ok?
  }

  lemma StreamPasses(decoder: Decoder, stream: u64 -> Data, first: u64, ms: seq<MoldMessage>, n: nat)
    requires FromStream(stream, ms) && FirstMissing(first, ms, n)
    ensures Passes(decoder, first, NoteAll(first, map[], ms)) <==> Events(decoder, StreamSlice(stream, first, n)).Ok?
  {
    FrontierIsFirstMissing(first, ms, n);
    PassesAt(decoder, first, NoteAll(first, map[], ms), n);
    SliceOfStream(stream, first, ms, n);
  }

  lemma StreamDecodes(decoder: Decoder, stream: u64 -> Data, first: u64, n: nat)
    requires first <= n <= U64_MAX && Decodes(decoder, stream, first, n)
    ensures Events(decoder, StreamSlice(stream, first, n)).Ok?
  {
    forall i | 0 <= i < n - first ensures decoder(StreamSlice(stream, first, n)[i].payload).Ok? {
      StreamSliceAt(stream, first, n, i);
    }
    EventsOfDecodable(decoder, StreamSlice(stream, first, n));
  }

  /** Packets that carry messages of one stream, in one session, in any order, packing and number of copies. */
  ghost predicate FromOneFeed(stream: u64 -> Data, ps: seq<Result<Packet>>) {
    OneSession(ps) && FromStream(stream, History(ps))
  }

  lemma {:induction false} NumberedAt(first: nat, ms: seq<Data>, i: nat)
    requires (ms != [] ==> first + |ms| - 1 <= U64_MAX) && i < |ms|
    ensures Numbered(first, ms)[i] == MoldMessage(first + i, ms[i])
    decreases ms
  {
    if i > 0 {
      NumberedAt(first + 1, ms[1..], i - 1);
    }
  }

  lemma {:induction false} PayloadsAt(ms: seq<MoldMessage>, i: nat)
    requires i < |ms|
    ensures Payloads(ms)[i] == ms[i].payload
  {
    if i > 0 {
      PayloadsAt(ms[1..], i - 1);
    }
  }

  /**
   `d` is the datagram that frames the messages `lo` to `hi - 1` of the stream, as `mold_packet` does; with none,
   a heartbeat.
   */
  ghost predicate Frames(stream: u64 -> Data, session: Session, lo: u64, hi: nat, d: Data) {
    && lo <= hi <= U64_MAX + 1
    && Fits(lo, Payloads(StreamSlice(stream, lo, hi)))
    && d == EncodePacket(session, lo, Payloads(StreamSlice(stream, lo, hi)))
  }

  ghost predicate Sends(stream: u64 -> Data, session: Session, d: Data) {
    exists lo: u64, hi: nat :: Frames(stream, session, lo, hi, d)
  }

  lemma SentMessages(stream: u64 -> Data, lo: u64, hi: nat)
    requires lo <= hi <= U64_MAX + 1 && Fits(lo, Payloads(StreamSlice(stream, lo, hi)))
    ensures FromStream(stream, Numbered(lo, Payloads(StreamSlice(stream, lo, hi))))
  {
    var ms := Payloads(StreamSlice(stream, lo, hi));
    forall i | 0 <= i < |ms| ensures Numbered(lo, ms)[i].payload == stream(Numbered(lo, ms)[i].sequence) {
      NumberedAt(lo, ms, i);
      PayloadsAt(StreamSlice(stream, lo, hi), i);
      StreamSliceAt(stream, lo, hi, i);
    }
  }

  /** A framed datagram carries exactly the messages that it frames. */
  lemma FramedDatagram(stream: u64 -> Data, session: Session, lo: u64, hi: nat, d: Data)
    requires Frames(stream, session, lo, hi, d)
    ensures Parse(d).Ok? && Parse(d).value.session == session && FromStream(stream, Load(Parse(d)))
    ensures |Load(Parse(d))| == hi - lo
    ensures forall i :: 0 <= i < hi - lo ==> Load(Parse(d))[i].sequence == lo + i
  {
    var ms := Payloads(StreamSlice(stream, lo, hi));
    SentMessages(stream, lo, hi);
    PacketReadsBack(session, lo, ms);
    forall i | 0 <= i < hi - lo ensures Numbered(lo, ms)[i].sequence == lo + i {
      NumberedAt(lo, ms, i);
    }
  }

  lemma SentDatagram(stream: u64 -> Data, session: Session, d: Data)
    requires Sends(stream, session, d)
    ensures Parse(d).Ok? && Parse(d).value.session == session && FromStream(stream, Load(Parse(d)))
  {
    var lo: u64, hi: nat :| Frames(stream, session, lo, hi, d);
    FramedDatagram(stream, session, lo, hi, d);
  }

  lemma {:induction false} SentHistory(stream: u64 -> Data, ps: seq<Result<Packet>>)
    requires forall i :: 0 <= i < |ps| ==> FromStream(stream, Load(ps[i]))
    ensures FromStream(stream, History(ps))
  {
    if ps != [] {
      var n := |ps| - 1;
      SentHistory(stream, ps[..n]);
      assert FromStream(stream, Load(ps[n]));
    }
  }

  /** Datagrams that frame parts of one stream, cut, ordered, repeated and lost in any way, make one feed. */
  lemma SentDatagramsMakeFeed(stream: u64 -> Data, session: Session, ds: seq<Data>)
    requires forall i :: 0 <= i < |ds| ==> Sends(stream, session, ds[i])
    ensures FromOneFeed(stream, Parsed(ds))
  {
    var ps := Parsed(ds);
    forall i | 0 <= i < |ps| ensures ps[i].Ok? && ps[i].value.session == session && FromStream(stream, Load(ps[i])) {
      SentDatagram(stream, session, ds[i]);
    }
    SentHistory(stream, ps);
  }

  /** Which numbers a history of framed datagrams carries. */
  lemma SentIff(stream: u64 -> Data, session: Session, lo: seq<u64>, hi: seq<nat>, ds: seq<Data>, s: u64)
    requires |lo| == |hi| == |ds| && forall i :: 0 <= i < |ds| ==> Frames(stream, session, lo[i], hi[i], ds[i])
    ensures Sent(History(Parsed(ds)), s) <==> exists i :: 0 <= i < |ds| && lo[i] <= s < hi[i]
  {
    SentInHistory(Parsed(ds), s);
    forall i | 0 <= i < |ds| ensures Sent(Load(Parsed(ds)[i]), s) <==> lo[i] <= s < hi[i] {
      FramedDatagram(stream, session, lo[i], hi[i], ds[i]);
      if lo[i] <= s < hi[i] {
        assert Load(Parse(ds[i]))[s - lo[i]].sequence == s;
      }
    }
  }

  ghost predicate SentBySome(ps: seq<Result<Packet>>, s: u64) {
    exists i :: 0 <= i < |ps| && Sent(Load(ps[i]), s)
  }

  lemma SentBySomeStep(ps: seq<Result<Packet>>, n: nat, s: u64)
    requires n + 1 == |ps|
    ensures SentBySome(ps, s) <==> SentBySome(ps[..n], s) || Sent(Load(ps[n]), s)
  {
    var before := ps[..n];
    assert forall i :: 0 <= i < n ==> before[i] == ps[i];
  }

  lemma {:induction false} SentInHistory(ps: seq<Result<Packet>>, s: u64)
    ensures Sent(History(ps), s) <==> SentBySome(ps, s)
  {
    if ps != [] {
      var n := |ps| - 1;
      SentInHistory(ps[..n], s);
      SentInEither(History(ps[..n]), Load(ps[n]), s);
      SentBySomeStep(ps, n, s);
    }
  }

  lemma SentInEither(a: seq<MoldMessage>, b: seq<MoldMessage>, s: u64)
    ensures Sent(a + b, s) <==> Sent(a, s) || Sent(b, s)
  {
    if Sent(a, s) {
      var i :| 0 <= i < |a| && a[i].sequence == s;
      assert (a + b)[i].sequence == s;
    }
    if Sent(b, s) {
      var i :| 0 <= i < |b| && b[i].sequence == s;
      assert (a + b)[|a| + i].sequence == s;
    }
  }

  /** If the stream's messages all decode to events, these are applied one for one, in the stream's order. */
  lemma StreamEvents(decoder: Decoder, stream: u64 -> Data, first: u64, n: nat)
    requires first <= n <= U64_MAX
    requires forall s: u64 :: first <= s < n ==> decoder(stream(s)).Ok? && decoder(stream(s)).value.Some?
    ensures Events(decoder, StreamSlice(stream, first, n)).Ok?
    ensures |Events(decoder, StreamSlice(stream, first, n)).value| == n - first
    ensures forall s: u64 :: first <= s < n ==>
              Events(decoder, StreamSlice(stream, first, n)).value[s - first] == decoder(stream(s)).value.value
  {
    var ms := StreamSlice(stream, first, n);
    forall i | 0 <= i < |ms| ensures ms[i].payload == stream(first + i) {
      StreamSliceAt(stream, first, n, i);
    }
    EventsOneForOne(decoder, ms);
  }

  /**
   However the messages of a stream arrive, the run succeeds if what is to be delivered decodes, and the book is
   the one that delivering the stream in order up to the first missing message gives.
   */
  method ReplayStream(first: u64, maxOrders: nat, hash: u64 -> u64, decoder: Decoder, ds: seq<Data>,
                      ghost ps: seq<Result<Packet>>, ghost stream: u64 -> Data, ghost n: nat)
    returns (engine: Engine, stateHash: u64)
    requires 0 < maxOrders < INVALID_SLOT && ps == Parsed(ds)
    requires FromOneFeed(stream, ps) && FirstMissing(first, History(ps), n) && Decodes(decoder, stream, first, n)
    ensures engine.Valid() && engine.recovery.expected == n
    ensures Events(decoder, StreamSlice(stream, first, n)).Ok?
    ensures engine.book.M() == Run(EMPTY_MODEL, maxOrders, Events(decoder, StreamSlice(stream, first, n)).value)
    ensures DistinctPriorities(engine.book.M().orders) && stateHash == HashView(Observe(engine.book.M().orders))
  {
    StreamDecodes(decoder, stream, first, n);
    StreamPasses(decoder, stream, first, History(ps), n);
    engine := new Engine(first, maxOrders, hash, decoder);
    var r := engine.Replay(ds, ps);
    assert engine.recovery.released == StreamSlice(stream, first, n) && engine.recovery.expected == n by {
      ghost var e := engine.recovery;
      ReleaseIsStream(stream, first, History(ps), n, e.pending, e.expected, e.released);
    }
    stateHash := engine.book.StateHash();
  }

  /**
   Two histories with the same messages, whatever their order, packing and number of copies, and two
   indexes with different hash functions, end in books with the same state hash.
   */
  method SameBookEitherWay(first: u64, maxOrders: nat, hash: u64 -> u64, hash': u64 -> u64, decoder: Decoder,
                           ds: seq<Data>, ds': seq<Data>, ghost stream: u64 -> Data, ghost n: nat)
    returns (h: u64, h': u64)
    requires 0 < maxOrders < INVALID_SLOT
    requires FromOneFeed(stream, Parsed(ds)) && FromOneFeed(stream, Parsed(ds'))
    requires SameNumbers(first, History(Parsed(ds)), History(Parsed(ds')))
    requires FirstMissing(first, History(Parsed(ds)), n) && Decodes(decoder, stream, first, n)
    ensures h == h'
  {
    var engine, engine';
    engine, h := ReplayStream(first, maxOrders, hash, decoder, ds, Parsed(ds), stream, n);
    engine', h' := ReplayStream(first, maxOrders, hash', decoder, ds', Parsed(ds'), stream, n);
  }
}
