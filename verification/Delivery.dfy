/**
 What a history of datagrams amounts to: the messages that it carries, the events that they decode to, and the book.
 */
module Delivery {
  import opened Types
  import opened Sequences
  import opened Bytes
  import opened MoldUdp64
  import opened RecoverySpec
  import opened RecoveryEngineModel
  import opened BookModel

  /** A decoder of payloads. The pipeline works with any. */
  type Decoder = Data -> Result<Option<MarketEvent>>

  // ---------------------------------------------------------------- messages to events

  function Append(es: seq<MarketEvent>, e: Option<MarketEvent>): seq<MarketEvent> {
    if e.Some? then es + [e.value] else es
  }

  /** The events of a list of messages, or the first failure to decode one. */
  function Events(decoder: Decoder, ms: seq<MoldMessage>): Result<seq<MarketEvent>> {
    if ms == [] then Ok([])
    else
      var n := |ms| - 1;
      var before, last := Events(decoder, ms[..n]), decoder(ms[n].payload);
      if before.Err? then before
      else if last.Err? then Err(last.error)
      else Ok(Append(before.value, last.value))
  }

  lemma EventsStep(decoder: Decoder, ms: seq<MoldMessage>, m: MoldMessage)
    ensures Events(decoder, ms + [m])
            == if Events(decoder, ms).Err? then Events(decoder, ms)
               else if decoder(m.payload).Err? then Err(decoder(m.payload).error)
               else Ok(Append(Events(decoder, ms).value, decoder(m.payload).value))
  {
    assert (ms + [m])[..|ms|] == ms;
  }

  /** Messages that all decode make a list of events. */
  lemma {:induction false} EventsOfDecodable(decoder: Decoder, ms: seq<MoldMessage>)
    requires forall i :: 0 <= i < |ms| ==> decoder(ms[i].payload).Ok?
    ensures Events(decoder, ms).Ok?
  {
    if ms != [] {
      EventsOfDecodable(decoder, ms[..|ms| - 1]);
    }
  }

  /** One message gives its event, nothing, or its failure. */
  lemma EventsOfOne(decoder: Decoder, m: MoldMessage)
    ensures Events(decoder, [m])
            == match decoder(m.payload)
               case Ok(Some(e)) => Ok([e])
               case Ok(None) => Ok([])
               case Err(f) => Err(f)
  {
    assert [m][..0] == [];
    if decoder(m.payload).Ok? && decoder(m.payload).value.Some? {
      NothingBefore([decoder(m.payload).value.value]);
    }
  }

  /** The events of two lists are those of the one, then those of the other, up to the first failure. */
  lemma {:induction false} EventsAppend(decoder: Decoder, ms: seq<MoldMessage>, ns: seq<MoldMessage>)
    ensures Events(decoder, ms + ns)
            == if Events(decoder, ms).Err? then Events(decoder, ms)
               else if Events(decoder, ns).Err? then Events(decoder, ns)
               else Ok(Events(decoder, ms).value + Events(decoder, ns).value)
  {
    if ns == [] {
      NothingAfter(ms);
      if Events(decoder, ms).Ok? {
        NothingAfter(Events(decoder, ms).value);
      }
    } else {
      var n := |ns| - 1;
      EventsAppend(decoder, ms, ns[..n]);
      ButLastOfConcat(ms, ns);
      if Events(decoder, ms).Ok? && Events(decoder, ns).Ok? && decoder(ns[n].payload).value.Some? {
        Assoc(Events(decoder, ms).value, Events(decoder, ns[..n]).value, [decoder(ns[n].payload).value.value]);
      }
    }
  }

  /** If every message decodes to an event, the events are listed one for one. */
  lemma {:induction false} EventsOneForOne(decoder: Decoder, ms: seq<MoldMessage>)
    requires forall i :: 0 <= i < |ms| ==> decoder(ms[i].payload).Ok? && decoder(ms[i].payload).value.Some?
    ensures Events(decoder, ms).Ok? && |Events(decoder, ms).value| == |ms|
    ensures forall i :: 0 <= i < |ms| ==> Events(decoder, ms).value[i] == decoder(ms[i].payload).value.value
  {
    if ms != [] {
      EventsOneForOne(decoder, ms[..|ms| - 1]);
    }
  }

  /** A message that decodes to no event may be left out. */
  lemma EventlessLeftOut(decoder: Decoder, ms: seq<MoldMessage>, m: MoldMessage, ns: seq<MoldMessage>)
    requires decoder(m.payload) == Ok(None)
    ensures Events(decoder, ms + [m] + ns) == Events(decoder, ms + ns)
  {
    EventsOfOne(decoder, m);
    EventsAppend(decoder, ms, [m]);
    EventsAppend(decoder, ms + [m], ns);
    EventsAppend(decoder, ms, ns);
    if Events(decoder, ms).Ok? {
      NothingAfter(Events(decoder, ms).value);
    }
  }

  lemma RunStep(m: Model, capacity: nat, es: seq<MarketEvent>, e: MarketEvent)
    ensures Run(m, capacity, es + [e]) == Step(Run(m, capacity, es), capacity, e)
  {
    assert (es + [e])[..|es|] == es;
  }

  /** The book that delivering `ms` in order gives. */
  ghost function Delivered(decoder: Decoder, capacity: nat, ms: seq<MoldMessage>): Model
    requires Events(decoder, ms).Ok?
  {
    Run(EMPTY_MODEL, capacity, Events(decoder, ms).value)
  }

  lemma EventsOneMore(decoder: Decoder, before: seq<MoldMessage>, ready: seq<MoldMessage>, i: nat)
    requires i < |ready|
    ensures Events(decoder, before + ready[..i + 1])
            == if Events(decoder, before + ready[..i]).Err? then Events(decoder, before + ready[..i])
               else if decoder(ready[i].payload).Err? then Err(decoder(ready[i].payload).error)
               else Ok(Append(Events(decoder, before + ready[..i]).value, decoder(ready[i].payload).value))
  {
    assert before + ready[..i + 1] == before + ready[..i] + [ready[i]];
    EventsStep(decoder, before + ready[..i], ready[i]);
  }

  lemma FailureStays(decoder: Decoder, before: seq<MoldMessage>, ready: seq<MoldMessage>, n: nat)
    requires n <= |ready| && Events(decoder, before + ready[..n]).Err?
    ensures Events(decoder, before + ready) == Events(decoder, before + ready[..n])
  {
    assert (before + ready)[..|before| + n] == before + ready[..n];
    FirstFailureStays(decoder, before + ready, |before| + n);
  }

  lemma {:induction false} FirstFailureStays(decoder: Decoder, ms: seq<MoldMessage>, n: nat)
    requires n <= |ms| && Events(decoder, ms[..n]).Err?
    ensures Events(decoder, ms) == Events(decoder, ms[..n])
    decreases |ms|
  {
    if n == |ms| {
      assert ms[..n] == ms;
    } else {
      assert ms[..|ms| - 1][..n] == ms[..n];
      FirstFailureStays(decoder, ms[..|ms| - 1], n);
    }
  }

  lemma EventsPrefix(decoder: Decoder, ms: seq<MoldMessage>, n: nat)
    requires n <= |ms| && Events(decoder, ms).Ok?
    ensures Events(decoder, ms[..n]).Ok?
  {
    if Events(decoder, ms[..n]).Err? {
      FirstFailureStays(decoder, ms, n);
    }
  }

  /** A run stopped short: `model` is the book of the messages before the first one that does not decode. */
  ghost predicate Halted(decoder: Decoder, capacity: nat, ms: seq<MoldMessage>, model: Model, error: Failure) {
    exists n :: HaltedAt(decoder, capacity, ms, n, model, error)
  }

  ghost predicate HaltedAt(decoder: Decoder, capacity: nat, ms: seq<MoldMessage>, n: nat, model: Model,
                           error: Failure) {
    && n < |ms| && decoder(ms[n].payload) == Err(error)
    && Events(decoder, ms[..n]).Ok? && model == Delivered(decoder, capacity, ms[..n])
  }

  // ---------------------------------------------------------------- datagrams to messages

  /** What becomes of each datagram of a history when it is parsed. */
  function Parsed(ds: seq<Data>): (ps: seq<Result<Packet>>)
    ensures |ps| == |ds|
  {
    seq(|ds|, i requires 0 <= i < |ds| => Parse(ds[i]))
  }

  function Load(p: Result<Packet>): seq<MoldMessage> {
    if p.Ok? then Carried(p.value) else []
  }

  /** The messages that a history of packets carries, in order of arrival. */
  function History(ps: seq<Result<Packet>>): seq<MoldMessage> {
    if ps == [] then [] else History(ps[..|ps| - 1]) + Load(ps[|ps| - 1])
  }

  /** One packet carries its messages, unless it is a heartbeat or ends the session. */
  lemma HistoryOfOne(p: Result<Packet>)
    ensures History([p]) == if p.Ok? && !p.value.heartbeat && !p.value.endOfSession then p.value.messages else []
  {
    assert [p][..0] == [];
    NothingBefore(Load(p));
  }

  /** Every datagram parses, and all of them belong to one session. */
  ghost predicate OneSession(ps: seq<Result<Packet>>) {
    && (forall i :: 0 <= i < |ps| ==> ps[i].Ok?)
    && (forall i :: 0 <= i < |ps| ==> ps[i].value.session == ps[0].value.session)
  }

  lemma HistoryStep(ps: seq<Result<Packet>>, i: nat)
    requires i < |ps|
    ensures History(ps[..i + 1]) == History(ps[..i]) + Load(ps[i])
  {
    assert ps[..i + 1][..i] == ps[..i];
  }

  lemma {:induction false} HistoryAppend(ps: seq<Result<Packet>>, more: seq<Result<Packet>>)
    ensures History(ps + more) == History(ps) + History(more)
  {
    if more == [] {
      assert ps + more == ps;
    } else {
      var n := |more| - 1;
      HistoryAppend(ps, more[..n]);
      ButLastOfConcat(ps, more);
      Assoc(History(ps), History(more[..n]), Load(more[n]));
    }
  }

  // ---------------------------------------------------------------- when a history passes

  /** Some number is still missing, and everything before the first missing number decodes. */
  ghost predicate Passes(decoder: Decoder, first: u64, a: Arrivals) {
    exists e: nat :: Frontier(first, a, e) && Events(decoder, Slice(a, first, e)).Ok?
  }

  /** If some number is missing, then there is a first one. */
  lemma {:induction false} FrontierExists(first: u64, a: Arrivals, missing: u64) returns (e: nat)
    requires first <= missing && missing !in a
    ensures Frontier(first, a, e) && e <= missing
    decreases missing
  {
    if Gapless(first, a, missing) {
      e := missing;
    } else {
      var t: u64 :| first <= t < missing && t !in a;
      e := FrontierExists(first, a, t);
    }
  }

  lemma FrontierOrGapless(first: u64, a: Arrivals)
    ensures (exists e: nat :: Frontier(first, a, e)) <==> !Gapless(first, a, U64_MAX + 1)
  {
    if !Gapless(first, a, U64_MAX + 1) {
      var t: u64 :| first <= t && t !in a;
      var e := FrontierExists(first, a, t);
    }
    if exists e: nat :: Frontier(first, a, e) {
      var e: nat :| Frontier(first, a, e);
      var t: u64 := e;
      assert t !in a;
    }
  }

  /** Whether arrivals pass is decided at their one frontier. */
  lemma PassesAt(decoder: Decoder, first: u64, a: Arrivals, e: nat)
    requires Frontier(first, a, e)
    ensures Passes(decoder, first, a) <==> Events(decoder, Slice(a, first, e)).Ok?
  {
    if Passes(decoder, first, a) {
      var e': nat :| Frontier(first, a, e') && Events(decoder, Slice(a, first, e')).Ok?;
      FrontierUnique(first, a, e, e');
    }
  }

  /** The messages up to an earlier frontier are the first ones of those up to a later frontier. */
  lemma FrontierGrows(first: u64, a: Arrivals, more: seq<MoldMessage>, e: nat, e': nat)
    requires Frontier(first, a, e) && Frontier(first, NoteAll(first, a, more), e')
    ensures e <= e' && Slice(a, first, e) == Slice(NoteAll(first, a, more), first, e')[..e - first]
  {
    var a' := NoteAll(first, a, more);
    NoteAllKeeps(first, a, more);
    var t: u64 := e';
    assert t !in a;
    SliceSame(a, a', first, e);
    SliceJoins(a', first, e, e');
  }

  lemma EarlierEvents(decoder: Decoder, first: u64, a: Arrivals, more: seq<MoldMessage>, e: nat, e': nat)
    requires Frontier(first, a, e) && Frontier(first, NoteAll(first, a, more), e')
    requires Events(decoder, Slice(NoteAll(first, a, more), first, e')).Ok?
    ensures Events(decoder, Slice(a, first, e)).Ok?
  {
    FrontierGrows(first, a, more, e, e');
    EventsPrefix(decoder, Slice(NoteAll(first, a, more), first, e'), e - first);
  }

  lemma EarlierFrontier(first: u64, a: Arrivals, more: seq<MoldMessage>, e': nat) returns (e: nat)
    requires Frontier(first, NoteAll(first, a, more), e')
    ensures Frontier(first, a, e)
  {
    NoteAllKeeps(first, a, more);
    e := FrontierExists(first, a, e');
  }

  /** A history that passes has passed at every earlier moment. */
  lemma EarlierPasses(decoder: Decoder, first: u64, a: Arrivals, more: seq<MoldMessage>)
    requires Passes(decoder, first, NoteAll(first, a, more))
    ensures Passes(decoder, first, a)
  {
    var e': nat :| Frontier(first, NoteAll(first, a, more), e')
                   && Events(decoder, Slice(NoteAll(first, a, more), first, e')).Ok?;
    var e := EarlierFrontier(first, a, more, e');
    EarlierEvents(decoder, first, a, more, e, e');
  }

  lemma PrefixPasses(decoder: Decoder, first: u64, ps: seq<Result<Packet>>, n: nat)
    requires n <= |ps| && Passes(decoder, first, NoteAll(first, map[], History(ps)))
    ensures Passes(decoder, first, NoteAll(first, map[], History(ps[..n])))
  {
    HistoryAppend(ps[..n], ps[n..]);
    SplitJoins(ps, n);
    NoteAllAppend(first, map[], History(ps[..n]), History(ps[n..]));
    EarlierPasses(decoder, first, NoteAll(first, map[], History(ps[..n])), History(ps[n..]));
  }

  /** Of what a recovery engine has released, in terms of what has arrived. */
  lemma ReleasePasses(decoder: Decoder, first: u64, a: Arrivals, pending: map<u64, Data>, expected: nat,
                      released: seq<MoldMessage>)
    requires InOrder(first, a, pending, expected, released) && expected !in a
    ensures Passes(decoder, first, a) <==> Events(decoder, released).Ok?
  {
    OpenOrder(first, a, pending, expected, released);
    PassesAt(decoder, first, a, expected);
  }
}
