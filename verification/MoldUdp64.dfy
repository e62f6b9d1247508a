/** MoldUDP64 framing: downstream packets and request packets (src/moldudp64.cpp, src/main.cpp:45-51). */
module MoldUdp64 {
  import opened Types
  import opened Sequences
  import opened Bytes

  const HEADER_SIZE := 20
  const END_OF_SESSION: u16 := 0xFFFF

  type Session = s: Data | |s| == 10 witness [0, 0, 0, 0, 0, 0, 0, 0, 0, 0]

  datatype MoldMessage = MoldMessage(sequence: u64, payload: Data)

  datatype Packet = Packet(session: Session, firstSequence: u64, messageCount: u16,
                           heartbeat: bool, endOfSession: bool, messages: seq<MoldMessage>)

  // ---------------------------------------------------------------- parsing

  function Prepend(ms: seq<MoldMessage>, r: Result<seq<MoldMessage>>): Result<seq<MoldMessage>> {
    if r.Ok? then Ok(ms + r.value) else r
  }

  /** One record, read at an offset: its payload, and where the next record starts. */
  function OneRecord(d: Data, offset: nat): (r: Result<(Data, nat)>)
    ensures r.Ok? ==> offset < r.value.1 <= |d|
  {
    if !Has(d, offset, 2) then Err(Truncated)
    else
      var len := 0x100 * (d[offset] as int) + d[offset + 1];
      if !Has(d, offset + 2, len) then Err(Truncated)
      else Ok((d[offset + 2..offset + 2 + len], offset + 2 + len))
  }

  /** `count` length-prefixed records that fill `d` exactly, numbered from `first`. */
  function ParseRecords(d: Data, first: nat, count: nat): Result<seq<MoldMessage>>
    requires count > 0 ==> first + count - 1 <= U64_MAX
    decreases count
  {
    if count == 0 then
      if d == [] then Ok([]) else Err(TrailingBytes)
    else
      match OneRecord(d, 0)
      case Err(e) => Err(e)
      case Ok((payload, next)) => Prepend([MoldMessage(first, payload)], ParseRecords(d[next..], first + 1, count - 1))
  }

  function Header(d: Data): Packet
    requires |d| >= HEADER_SIZE
  {
    var count := BigEndian(d[18..20]);
    BigEndianBound(d[10..18]);
    BigEndianBound(d[18..20]);
    Powers();
    Packet(d[..10], BigEndian(d[10..18]), count, count == 0, count == END_OF_SESSION as int, [])
  }

  function Parse(d: Data): Result<Packet> {
    if |d| < HEADER_SIZE then Err(Truncated)
    else
      var h := Header(d);
      if h.heartbeat || h.endOfSession then
        if |d| != HEADER_SIZE then Err(TrailingBytes) else Ok(h)
      else if h.firstSequence > U64_MAX - (h.messageCount - 1) then Err(SequenceRangeOverflow)
      else
        var r := ParseRecords(d[HEADER_SIZE..], h.firstSequence, h.messageCount);
        if r.Ok? then Ok(h.(messages := r.value)) else Err(r.error)
  }

  lemma PrependPrepend(a: seq<MoldMessage>, b: seq<MoldMessage>, r: Result<seq<MoldMessage>>)
    ensures Prepend(a, Prepend(b, r)) == Prepend(a + b, r)
  {
    if r.Ok? {
      assert a + (b + r.value) == a + b + r.value;
    }
  }

  lemma PrependNone(r: Result<seq<MoldMessage>>)
    ensures Prepend([], r) == r
  {
    if r.Ok? {
      assert [] + r.value == r.value;
    }
  }

  lemma OneRecordAt(d: Data, offset: nat)
    requires offset <= |d|
    ensures OneRecord(d[offset..], 0)
            == match OneRecord(d, offset)
               case Err(e) => Err(e)
               case Ok((payload, next)) => Ok((payload, next - offset))
  {
    var rest := d[offset..];
    if OneRecord(d, offset).Ok? {
      var len := 0x100 * (d[offset] as int) + d[offset + 1];
      assert rest[2..2 + len] == d[offset + 2..offset + 2 + len];
    }
  }

  lemma RecordAt(d: Data, offset: nat, first: nat, count: nat)
    requires offset <= |d| && count > 0 && first + count - 1 <= U64_MAX
    ensures ParseRecords(d[offset..], first, count)
            == match OneRecord(d, offset)
               case Err(e) => Err(e)
               case Ok((payload, next)) =>
                 Prepend([MoldMessage(first, payload)], ParseRecords(d[next..], first + 1, count - 1))
  {
    OneRecordAt(d, offset);
    if OneRecord(d, offset).Ok? {
      var next := OneRecord(d, offset).value.1;
      assert d[offset..][next - offset..] == d[next..];
    }
  }

  /** What has been read so far, followed by what is still to be read, is the whole list. */
  ghost predicate ReadSoFar(d: Data, whole: Result<seq<MoldMessage>>, out: seq<MoldMessage>, offset: nat, first: nat,
                            count: nat) {
    && offset <= |d| && (count > 0 ==> first + count - 1 <= U64_MAX)
    && whole == Prepend(out, ParseRecords(d[offset..], first, count))
  }

  lemma ReadOneMore(d: Data, whole: Result<seq<MoldMessage>>, out: seq<MoldMessage>, offset: nat, first: nat,
                    count: nat)
    requires count > 0 && ReadSoFar(d, whole, out, offset, first, count)
    ensures OneRecord(d, offset).Err? ==> whole == Err(Truncated)
    ensures OneRecord(d, offset).Ok? ==>
              var (payload, next) := OneRecord(d, offset).value;
              ReadSoFar(d, whole, out + [MoldMessage(first, payload)], next, first + 1, count - 1)
  {
    RecordAt(d, offset, first, count);
    if OneRecord(d, offset).Ok? {
      var (payload, next) := OneRecord(d, offset).value;
      PrependPrepend(out, [MoldMessage(first, payload)], ParseRecords(d[next..], first + 1, count - 1));
    }
  }

  /** The loop with a moving offset reads the records of a packet. */
  method ReadRecords(d: Data, start: nat, first: u64, count: nat) returns (r: Result<seq<MoldMessage>>)
    requires start <= |d| && count > 0 && first + count - 1 <= U64_MAX
    ensures r == ParseRecords(d[start..], first, count)
  {
    var offset := start;
    var out: seq<MoldMessage> := [];
    ghost var whole := ParseRecords(d[start..], first, count);
    PrependNone(whole);
    for i := 0 to count
      invariant ReadSoFar(d, whole, out, offset, first + i, count - i)
    {
      ReadOneMore(d, whole, out, offset, first + i, count - i);
      var record := OneRecord(d, offset);
      if record.Err? {
        return Err(Truncated);
      }
      out := out + [MoldMessage(first + i, record.value.0)];
      offset := record.value.1;
    }
    if offset != |d| {
      return Err(TrailingBytes);
    }
    assert out + [] == out;
    return Ok(out);
  }

  /** `parse_downstream`. */
  method ParseDownstream(d: Data) returns (r: Result<Packet>)
    ensures r == Parse(d)
  {
    if |d| < HEADER_SIZE {
      return Err(Truncated);
    }
    var h := Header(d);
    if h.heartbeat || h.endOfSession {
      return if |d| != HEADER_SIZE then Err(TrailingBytes) else Ok(h);
    }
    if h.firstSequence > U64_MAX - (h.messageCount - 1) {
      return Err(SequenceRangeOverflow);
    }
    var ms := ReadRecords(d, HEADER_SIZE, h.firstSequence, h.messageCount);
    return if ms.Ok? then Ok(h.(messages := ms.value)) else Err(ms.error);
  }

  // ---------------------------------------------------------------- encoding

  /** A session name, cut or space-padded to ten characters. */
  function PadSession(name: Data): (s: Session) {
    if |name| >= 10 then name[..10] else name + seq(10 - |name|, _ => 0x20)
  }

  /** Length-prefixed records; a length is written modulo 2^16. */
  function EncodeRecords(ms: seq<Data>): Data {
    if ms == [] then [] else ToBytes(|ms[0]|, 2) + ms[0] + EncodeRecords(ms[1..])
  }

  function EncodePacket(session: Session, first: u64, ms: seq<Data>): Data {
    session + ToBytes(first, 8) + ToBytes(|ms|, 2) + EncodeRecords(ms)
  }

  /** The messages of a packet, numbered from `first`. */
  function Numbered(first: nat, ms: seq<Data>): (r: seq<MoldMessage>)
    requires ms != [] ==> first + |ms| - 1 <= U64_MAX
    ensures |r| == |ms|
    decreases ms
  {
    if ms == [] then [] else [MoldMessage(first, ms[0])] + Numbered(first + 1, ms[1..])
  }

  function Payloads(ms: seq<MoldMessage>): (r: seq<Data>)
    ensures |r| == |ms|
  {
    if ms == [] then [] else [ms[0].payload] + Payloads(ms[1..])
  }

  function PacketOf(session: Session, first: u64, ms: seq<Data>): Packet
    requires |ms| <= U16_MAX && (ms != [] ==> first + |ms| - 1 <= U64_MAX)
  {
    Packet(session, first, |ms|, ms == [], false, Numbered(first, ms))
  }

  function RecordsSize(ms: seq<Data>): nat {
    if ms == [] then 0 else RecordsSize(ms[..|ms| - 1]) + 2 + |ms[|ms| - 1]|
  }

  lemma {:induction false} EncodeRecordsAppend(ms: seq<Data>, m: Data)
    ensures EncodeRecords(ms + [m]) == EncodeRecords(ms) + ToBytes(|m|, 2) + m
  {
    if ms == [] {
      assert ms + [m] == [m];
      assert EncodeRecords([m]) == ToBytes(|m|, 2) + m + EncodeRecords([]);
    } else {
      EncodeRecordsAppend(ms[1..], m);
      assert (ms + [m])[1..] == ms[1..] + [m];
    }
  }

  lemma {:induction false} RecordsSizeGrows(ms: seq<Data>, i: nat)
    requires i <= |ms|
    ensures RecordsSize(ms[..i]) <= RecordsSize(ms)
    decreases |ms| - i
  {
    if i == |ms| {
      assert ms[..i] == ms;
    } else {
      RecordsSizeGrows(ms, i + 1);
      assert ms[..i + 1][..i] == ms[..i];
    }
  }

  method CopyInto(b: array<u8>, offset: nat, m: Data)
    requires offset + |m| <= b.Length
    modifies b
    ensures b[..] == old(b[..offset]) + m + old(b[offset + |m|..])
  {
    for i := 0 to |m|
      invariant b[..offset] == old(b[..offset]) && b[offset + |m|..] == old(b[offset + |m|..])
      invariant b[offset..offset + i] == m[..i]
    {
      b[offset + i] := m[i];
      assert b[offset..offset + i + 1] == b[offset..offset + i] + [m[i]];
    }
    assert b[..] == b[..offset] + b[offset..offset + |m|] + b[offset + |m|..];
  }

  /** `mold_packet`: the buffer is sized first and then filled from left to right. */
  method MoldPacket(name: Data, first: u64, ms: seq<Data>) returns (d: array<u8>)
    ensures fresh(d) && d[..] == EncodePacket(PadSession(name), first, ms)
  {
    var size := HEADER_SIZE;
    for i := 0 to |ms|
      invariant size == HEADER_SIZE + RecordsSize(ms[..i])
    {
      assert ms[..i + 1][..i] == ms[..i];
      size := size + 2 + |ms[i]|;
    }
    assert ms[..|ms|] == ms;
    d := new u8[size](_ => 0);
    CopyInto(d, 0, PadSession(name));
    var ok := WriteLoop(d, 10, 8, first);
    ok := WriteLoop(d, 18, 2, |ms|);
    ghost var head := PadSession(name) + ToBytes(first, 8) + ToBytes(|ms|, 2);
    assert d[..20] == head;
    var off := FillRecords(d, 20, ms);
    assert d[..] == d[..20] + d[20..];
  }

  /** Writes the records one after the other. */
  method FillRecords(d: array<u8>, start: nat, ms: seq<Data>) returns (off: nat)
    requires start <= d.Length && d.Length - start == RecordsSize(ms)
    modifies d
    ensures d[..start] == old(d[..start]) && d[start..] == EncodeRecords(ms)
  {
    off := start;
    for i := 0 to |ms|
      invariant start <= off <= d.Length && off == start + RecordsSize(ms[..i])
      invariant d[..start] == old(d[..start]) && d[start..off] == EncodeRecords(ms[..i])
    {
      assert ms[..i + 1] == ms[..i] + [ms[i]];
      RecordsSizeGrows(ms, i + 1);
      EncodeRecordsAppend(ms[..i], ms[i]);
      off := FillRecord(d, start, off, ms[i]);
    }
    assert ms[..|ms|] == ms;
  }

  method FillRecord(d: array<u8>, ghost start: nat, off: nat, m: Data) returns (r: nat)
    requires start <= off && off + 2 + |m| <= d.Length
    modifies d
    ensures r == off + 2 + |m|
    ensures d[..start] == old(d[..start]) && d[start..r] == old(d[start..off]) + ToBytes(|m|, 2) + m
  {
    ghost var before := d[..off];
    var ok := WriteLoop(d, off, 2, |m|);
    assert d[..off + 2] == before + ToBytes(|m|, 2);
    CopyInto(d, off + 2, m);
    r := off + 2 + |m|;
    assert d[..r] == before + ToBytes(|m|, 2) + m;
    RecordAppended(before, ToBytes(|m|, 2), m, start);
    assert d[..r][..start] == d[..start] && d[..r][start..] == d[start..r];
    assert before[..start] == old(d[..start]) && before[start..] == old(d[start..off]);
  }

  lemma RecordAppended(before: Data, length: Data, m: Data, start: nat)
    requires start <= |before|
    ensures (before + length + m)[..start] == before[..start]
    ensures (before + length + m)[start..] == before[start..] + length + m
  {
  }

  /** `encode_request`: a request packet is a header, and only counts 1 to 65534 are accepted. */
  method EncodeRequest(session: Session, first: u64, count: u16) returns (r: Result<Data>)
    ensures r.Ok? <==> 0 < count < 0xFFFF
    ensures r.Ok? ==> r.value == session + ToBytes(first, 8) + ToBytes(count, 2)
  {
    if count == 0 || count == 0xFFFF {
      return Err(InvalidRequestCount);
    }
    var out := new u8[20](_ => 0);
    CopyInto(out, 0, session);
    var ok := WriteLoop(out, 10, 8, first);
    assert out[..] == session + ToBytes(first, 8) + out[18..];
    ok := WriteLoop(out, 18, 2, count);
    assert out[20..] == [];
    return Ok(out[..]);
  }

  // ---------------------------------------------------------------- round trips

  ghost predicate ShortPayloads(ms: seq<Data>) {
    forall i :: 0 <= i < |ms| ==> |ms[i]| <= U16_MAX
  }

  lemma LengthReadsBack(n: nat)
    requires n <= U16_MAX
    ensures 0x100 * (ToBytes(n, 2)[0] as int) + ToBytes(n, 2)[1] == n
  {
    assert ToBytes(n, 2) == ToBytes(n / 256, 1) + [n % 256];
    assert ToBytes(n / 256, 1) == ToBytes(n / 256 / 256, 0) + [n / 256 % 256];
  }

  /** A record that was written is the record that is read, and the rest is left. */
  lemma RecordReadsBack(m: Data, rest: Data)
    requires |m| <= U16_MAX
    ensures OneRecord(ToBytes(|m|, 2) + m + rest, 0) == Ok((m, 2 + |m|))
    ensures (ToBytes(|m|, 2) + m + rest)[2 + |m|..] == rest
  {
    LengthReadsBack(|m|);
    PartsOfConcat(ToBytes(|m|, 2), m, rest);
    RecordOf(ToBytes(|m|, 2), m, ToBytes(|m|, 2) + m + rest);
  }

  lemma RecordOf(length: Data, m: Data, d: Data)
    requires |length| == 2 && |d| >= 2 + |m| && d[..2] == length && d[2..2 + |m|] == m
    requires 0x100 * (length[0] as int) + length[1] == |m|
    ensures OneRecord(d, 0) == Ok((m, 2 + |m|))
  {
    assert d[0] == d[..2][0] && d[1] == d[..2][1];
  }

  lemma {:induction false} RecordsReadBack(ms: seq<Data>, first: nat)
    requires ShortPayloads(ms) && (ms != [] ==> first + |ms| - 1 <= U64_MAX)
    ensures ParseRecords(EncodeRecords(ms), first, |ms|) == Ok(Numbered(first, ms))
    decreases ms
  {
    if ms != [] {
      RecordReadsBack(ms[0], EncodeRecords(ms[1..]));
      RecordsReadBack(ms[1..], first + 1);
    }
  }

  lemma EncodedHeader(session: Session, first: u64, ms: seq<Data>)
    requires |ms| <= U16_MAX
    ensures var d := EncodePacket(session, first, ms);
            && |d| >= HEADER_SIZE && d[HEADER_SIZE..] == EncodeRecords(ms)
            && Header(d) == Packet(session, first, |ms|, ms == [], |ms| == 0xFFFF, [])
  {
    var d := EncodePacket(session, first, ms);
    Powers();
    ReadsBackNumber(first, 8);
    ReadsBackNumber(|ms|, 2);
    assert d[..10] == session;
    assert d[10..18] == ToBytes(first, 8);
    assert d[18..20] == ToBytes(|ms|, 2);
    assert d[20..] == EncodeRecords(ms);
  }

  /** What fits a packet: at most 65534 messages of at most 65535 bytes, with a sequence range that does not wrap. */
  ghost predicate Fits(first: u64, ms: seq<Data>) {
    |ms| <= 0xFFFE && ShortPayloads(ms) && (ms != [] ==> first + |ms| - 1 <= U64_MAX)
  }

  lemma PacketReadsBack(session: Session, first: u64, ms: seq<Data>)
    requires Fits(first, ms)
    ensures Parse(EncodePacket(session, first, ms)) == Ok(PacketOf(session, first, ms))
  {
    EncodedHeader(session, first, ms);
    if ms != [] {
      RecordsReadBack(ms, first);
    }
  }

  lemma LengthWritesBack(high: u8, low: u8)
    ensures ToBytes(0x100 * (high as int) + low, 2) == [high, low]
  {
    var n := 0x100 * (high as int) + low;
    assert ToBytes(n, 2) == ToBytes(n / 256, 1) + [n % 256];
    assert ToBytes(n / 256, 1) == ToBytes(n / 256 / 256, 0) + [n / 256 % 256];
  }

  lemma RecordWritesBack(d: Data)
    requires OneRecord(d, 0).Ok?
    ensures var (payload, next) := OneRecord(d, 0).value;
            |payload| <= U16_MAX && d == ToBytes(|payload|, 2) + payload + d[next..]
  {
    var (payload, next) := OneRecord(d, 0).value;
    LengthWritesBack(d[0], d[1]);
    assert d == [d[0], d[1]] + d[2..next] + d[next..];
  }

  lemma {:induction false} RecordsWriteBack(d: Data, first: nat, count: nat)
    requires count > 0 ==> first + count - 1 <= U64_MAX
    requires ParseRecords(d, first, count).Ok?
    ensures var ms := ParseRecords(d, first, count).value;
            && |ms| == count && ShortPayloads(Payloads(ms)) && EncodeRecords(Payloads(ms)) == d
            && ms == Numbered(first, Payloads(ms))
    decreases count
  {
    if count > 0 {
      RecordWritesBack(d);
      var (payload, next) := OneRecord(d, 0).value;
      RecordsWriteBack(d[next..], first + 1, count - 1);
      var ms, tail := ParseRecords(d, first, count).value, ParseRecords(d[next..], first + 1, count - 1).value;
      assert ms == [MoldMessage(first, payload)] + tail;
      assert ms[1..] == tail;
      assert Payloads(ms) == [payload] + Payloads(tail);
      assert Payloads(ms)[1..] == Payloads(tail);
    }
  }

  /** Encoding an accepted datagram again gives the same bytes, unless it ends the session. */
  lemma PacketWritesBack(d: Data)
    requires Parse(d).Ok? && !Parse(d).value.endOfSession
    ensures var p := Parse(d).value;
            && EncodePacket(p.session, p.firstSequence, Payloads(p.messages)) == d
            && Fits(p.firstSequence, Payloads(p.messages))
            && p == PacketOf(p.session, p.firstSequence, Payloads(p.messages))
  {
    var h := Header(d);
    WritesBackBytes(d[10..18]);
    WritesBackBytes(d[18..20]);
    assert d == d[..10] + d[10..18] + d[18..20] + d[20..];
    if h.heartbeat {
      assert d[20..] == [];
    } else {
      RecordsWriteBack(d[20..], h.firstSequence, h.messageCount);
    }
  }

  /** Framing is undone exactly when the messages fit a packet. */
  lemma ReadsBackIffFits(session: Session, first: u64, ms: seq<Data>)
    ensures Fits(first, ms) <==>
            exists p :: Parse(EncodePacket(session, first, ms)) == Ok(p) && Payloads(p.messages) == ms
                        && p.firstSequence == first && p.session == session
  {
    var d := EncodePacket(session, first, ms);
    if Fits(first, ms) {
      PacketReadsBack(session, first, ms);
      PayloadsOfNumbered(first, ms);
    }
    if exists p :: Parse(d) == Ok(p) && Payloads(p.messages) == ms && p.firstSequence == first && p.session == session {
      var p :| Parse(d) == Ok(p) && Payloads(p.messages) == ms && p.firstSequence == first && p.session == session;
      if !p.endOfSession {
        PacketWritesBack(d);
      }
    }
  }

  // ---------------------------------------------------------------- packets in bytes

  /** A name is cut to ten characters, or filled up with spaces. */
  lemma SessionInBytes(name: Data, i: nat)
    requires i < 10
    ensures PadSession(name)[i] == if i < |name| then name[i] else 0x20
  {
  }

  lemma HeaderInBytes(session: Session, first: u64, high: u8, low: u8, rest: Data)
    ensures var d := session + ToBytes(first, 8) + [high, low] + rest;
            && |d| >= HEADER_SIZE && d[HEADER_SIZE..] == rest
            && Header(d).session == session && Header(d).firstSequence == first
            && Header(d).messageCount == 0x100 * (high as int) + low
  {
    var d := session + ToBytes(first, 8) + [high, low] + rest;
    Powers();
    ReadsBackNumber(first, 8);
    OneMoreByte([high], low);
    assert [high] + [low] == [high, low];
    OneMoreByte([], high);
    assert [] + [high] == [high];
    assert d[..10] == session && d[10..18] == ToBytes(first, 8) && d[18..20] == [high, low] && d[20..] == rest;
  }

  /** A header with count 0 is a heartbeat, and one with count 65535 the end of the session; both carry nothing. */
  lemma EmptyPacketsInBytes(session: Session, first: u64)
    ensures Parse(session + ToBytes(first, 8) + [0x00, 0x00]) == Ok(Packet(session, first, 0, true, false, []))
    ensures Parse(session + ToBytes(first, 8) + [0xFF, 0xFF]) == Ok(Packet(session, first, 0xFFFF, false, true, []))
  {
    HeaderInBytes(session, first, 0x00, 0x00, []);
    HeaderInBytes(session, first, 0xFF, 0xFF, []);
    NothingAfter(session + ToBytes(first, 8) + [0x00, 0x00]);
    NothingAfter(session + ToBytes(first, 8) + [0xFF, 0xFF]);
  }

  /** With anything behind it, either is rejected. */
  lemma EmptyPacketsWithBytesBehind(session: Session, first: u64, rest: Data)
    requires rest != []
    ensures Parse(session + ToBytes(first, 8) + [0x00, 0x00] + rest) == Err(TrailingBytes)
    ensures Parse(session + ToBytes(first, 8) + [0xFF, 0xFF] + rest) == Err(TrailingBytes)
  {
    HeaderInBytes(session, first, 0x00, 0x00, rest);
    HeaderInBytes(session, first, 0xFF, 0xFF, rest);
  }

  /** Two messages: session, number, count, and each message behind its length, numbered on from the first. */
  lemma TwoMessagesInBytes(session: Session, first: u64, m: Data, m': Data)
    requires first < U64_MAX && |m| <= U16_MAX && |m'| <= U16_MAX
    ensures Parse(session + ToBytes(first, 8) + [0x00, 0x02] + (ToBytes(|m|, 2) + m + (ToBytes(|m'|, 2) + m')))
            == Ok(Packet(session, first, 2, false, false, [MoldMessage(first, m), MoldMessage(first + 1, m')]))
  {
    var tail := ToBytes(|m'|, 2) + m';
    var rest := ToBytes(|m|, 2) + m + tail;
    HeaderInBytes(session, first, 0x00, 0x02, rest);
    RecordReadsBack(m, tail);
    RecordReadsBack(m', []);
    NothingAfter(tail);
    var a, b := [MoldMessage(first, m)], [MoldMessage(first + 1, m')];
    assert ParseRecords(tail, first + 1, 1) == Prepend(b, ParseRecords([], first + 2, 0));
    assert ParseRecords(rest, first, 2) == Prepend(a, ParseRecords(tail, first + 1, 1));
    NothingAfter(b);
    assert a + b == [MoldMessage(first, m), MoldMessage(first + 1, m')];
  }

  /** Fewer bytes than a header are truncated. */
  lemma ShortIsTruncated(d: Data)
    requires |d| < 20
    ensures Parse(d) == Err(Truncated)
  {
  }

  /** What framing writes: session, number and count in the header, then the records. */
  lemma FramedInBytes(session: Session, first: u64, ms: seq<Data>)
    ensures var d := EncodePacket(session, first, ms);
            && |d| >= 20 && d[..10] == session && d[10..18] == ToBytes(first, 8) && d[18..20] == ToBytes(|ms|, 2)
            && d[20..] == EncodeRecords(ms)
  {
    var d := EncodePacket(session, first, ms);
    PartsOfConcat(session + ToBytes(first, 8), ToBytes(|ms|, 2), EncodeRecords(ms));
    assert d[..18] == session + ToBytes(first, 8);
    assert d[..18][..10] == d[..10] && d[..18][10..] == d[10..18];
  }

  /** The records: each payload behind its length, in order. */
  lemma RecordsInBytes(ms: seq<Data>, m: Data)
    ensures EncodeRecords([]) == [] && EncodeRecords(ms + [m]) == EncodeRecords(ms) + ToBytes(|m|, 2) + m
  {
    EncodeRecordsAppend(ms, m);
  }

  /** Framing 65535 payloads, here empty ones, gives an end-of-session header with bytes after it, which is rejected. */
  lemma FullCountIsRejected(session: Session, first: u64)
    ensures Parse(EncodePacket(session, first, seq(0xFFFF, _ => []))) == Err(TrailingBytes)
  {
    var ms: seq<Data> := seq(0xFFFF, _ => []);
    assert EncodeRecords(ms) == ToBytes(|ms[0]|, 2) + ms[0] + EncodeRecords(ms[1..]);
    EncodedHeader(session, first, ms);
  }

  lemma {:induction false} PayloadsOfNumbered(first: nat, ms: seq<Data>)
    requires ms != [] ==> first + |ms| - 1 <= U64_MAX
    ensures Payloads(Numbered(first, ms)) == ms
    decreases ms
  {
    if ms != [] {
      PayloadsOfNumbered(first + 1, ms[1..]);
      assert Numbered(first, ms)[1..] == Numbered(first + 1, ms[1..]);
    }
  }
}
