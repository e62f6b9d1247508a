/**
 The wire format of the book-changing ITCH messages, written out byte by byte and without the decoders, and that both
 decoders read it back (src/itch_decoder.cpp:31-118; sections "Add Order Message" and "Modify Order Messages" of
 Nasdaq TotalView-ITCH 5.0).
 */
module ItchWire {
  import opened Types
  import opened Sequences
  import opened Bytes
  import opened Itch

  // ---------------------------------------------------------------- parts of a message

  function Joined(parts: seq<Data>): Data {
    if parts == [] then [] else Joined(parts[..|parts| - 1]) + parts[|parts| - 1]
  }

  lemma {:induction false} JoinedStarts(parts: seq<Data>, n: nat)
    requires n <= |parts|
    ensures |Joined(parts[..n])| <= |Joined(parts)| && Joined(parts)[..|Joined(parts[..n])|] == Joined(parts[..n])
    decreases |parts|
  {
    if n == |parts| {
      assert parts[..n] == parts;
    } else {
      JoinedStarts(parts[..|parts| - 1], n);
      PrefixOfPrefix(parts, |parts| - 1, n);
    }
  }

  /** Part `i` stands right after the parts before it. */
  lemma PartAt(parts: seq<Data>, i: nat, offset: nat)
    requires i < |parts| && |Joined(parts[..i])| == offset
    ensures |Joined(parts[..i + 1])| == offset + |parts[i]| <= |Joined(parts)|
    ensures Joined(parts)[offset..offset + |parts[i]|] == parts[i]
  {
    PrefixOfPrefix(parts, i + 1, i);
    JoinedStarts(parts, i + 1);
    assert Joined(parts[..i + 1])[offset..] == parts[i];
    assert Joined(parts)[..offset + |parts[i]|][offset..] == Joined(parts)[offset..offset + |parts[i]|];
  }

  /** A message: its type, then locate, tracking number and timestamp, then its own fields. */
  function Message(tag: u8, meta: EventMeta, fields: seq<Data>): Data {
    Joined(AllParts(tag, meta, fields))
  }

  ghost predicate HasHead(b: Data, tag: u8, meta: EventMeta) {
    && |b| >= 11 && b[0] == tag && b[1..3] == ToBytes(meta.stockLocate, 2)
    && b[3..5] == ToBytes(meta.trackingNumber, 2) && b[5..11] == ToBytes(meta.timestamp, 6)
  }

  function AllParts(tag: u8, meta: EventMeta, fields: seq<Data>): seq<Data> {
    [[tag], ToBytes(meta.stockLocate, 2), ToBytes(meta.trackingNumber, 2), ToBytes(meta.timestamp, 6)] + fields
  }

  lemma HeadPlaced(tag: u8, meta: EventMeta, fields: seq<Data>)
    ensures HasHead(Message(tag, meta, fields), tag, meta)
    ensures |Joined(AllParts(tag, meta, fields)[..4])| == 11
  {
    var parts := AllParts(tag, meta, fields);
    assert parts[..0] == [];
    PartAt(parts, 0, 0);
    PartAt(parts, 1, 1);
    PartAt(parts, 2, 3);
    PartAt(parts, 3, 5);
    assert Joined(parts)[0..1][0] == tag;
  }

  lemma FieldPlaced(tag: u8, meta: EventMeta, fields: seq<Data>, i: nat, offset: nat)
    requires i < |fields| && |Joined(AllParts(tag, meta, fields)[..i + 4])| == offset
    ensures offset + |fields[i]| <= |Message(tag, meta, fields)|
    ensures Message(tag, meta, fields)[offset..offset + |fields[i]|] == fields[i]
    ensures |Joined(AllParts(tag, meta, fields)[..i + 5])| == offset + |fields[i]|
  {
    PartAt(AllParts(tag, meta, fields), i + 4, offset);
  }

  lemma LengthIs(tag: u8, meta: EventMeta, fields: seq<Data>)
    ensures |Message(tag, meta, fields)| == |Joined(AllParts(tag, meta, fields)[..|fields| + 4])|
  {
    assert AllParts(tag, meta, fields)[..|fields| + 4] == AllParts(tag, meta, fields);
  }

  // ---------------------------------------------------------------- reading a part

  lemma NumberAt(b: Data, offset: nat, width: nat, v: nat)
    requires offset + width <= |b| && b[offset..offset + width] == ToBytes(v, width) && v < Pow256(width)
    ensures ReadNumber(b, offset, width) == Ok(v)
  {
    ReadsBackNumber(v, width);
  }

  lemma Reads16(b: Data, offset: nat, v: u16)
    requires offset + 2 <= |b| && b[offset..offset + 2] == ToBytes(v, 2)
    ensures ReadU16(b, offset) == Ok(v)
  {
    Powers();
    NumberAt(b, offset, 2, v);
    SmallReadersRead(b, offset);
  }

  lemma Reads32(b: Data, offset: nat, v: u32)
    requires offset + 4 <= |b| && b[offset..offset + 4] == ToBytes(v, 4)
    ensures ReadU32(b, offset) == Ok(v)
  {
    Powers();
    NumberAt(b, offset, 4, v);
    SmallReadersRead(b, offset);
  }

  lemma Reads64(b: Data, offset: nat, v: u64)
    requires offset + 8 <= |b| && b[offset..offset + 8] == ToBytes(v, 8)
    ensures ReadWide(b, offset, 8) == Ok(v)
  {
    Powers();
    NumberAt(b, offset, 8, v);
  }

  /** A timestamp has six bytes. */
  predicate Timely(meta: EventMeta) {
    meta.timestamp < 0x1_0000_0000_0000
  }

  lemma HeadReads(b: Data, tag: u8, meta: EventMeta)
    requires HasHead(b, tag, meta) && Timely(meta)
    ensures HeadByHand(b) == Ok(meta)
  {
    Powers();
    Reads16(b, 1, meta.stockLocate);
    Reads16(b, 3, meta.trackingNumber);
    NumberAt(b, 5, 6, meta.timestamp);
  }

  /** What the handwritten decoder gives for a book-changing message, the generated one gives too. */
  lemma BothDecode(others: u8 -> Option<nat>, b: Data, e: MarketEvent)
    requires b != [] && BookMessage(b[0]).Some? && DecodeByHand(b) == Ok(Some(e))
    ensures Decode(others, b) == Ok(Some(e))
  {
    DecodersAgree(others, b);
  }

  // ---------------------------------------------------------------- the seven messages

  function SideByte(side: Side): u8 {
    if side == Buy then 'B' as int else 'S' as int
  }

  /** Add order: reference, side, shares, stock, price. */
  function EncodeAdd(meta: EventMeta, id: u64, side: Side, shares: u32, stock: Symbol, price: u32): Data {
    Message(0x41, meta, [ToBytes(id, 8), [SideByte(side)], ToBytes(shares, 4),
                        stock, ToBytes(price, 4)])
  }

  lemma AddLaidOut(meta: EventMeta, id: u64, side: Side, shares: u32, stock: Symbol, price: u32)
    ensures var b := EncodeAdd(meta, id, side, shares, stock, price);
            && |b| == 36 && HasHead(b, 0x41, meta)
            && b[11..19] == ToBytes(id, 8)
            && b[19..20] == [SideByte(side)]
            && b[20..24] == ToBytes(shares, 4)
            && b[24..32] == stock
            && b[32..36] == ToBytes(price, 4)
  {
    var fields: seq<Data> := [ToBytes(id, 8), [SideByte(side)], ToBytes(shares, 4), stock, ToBytes(price, 4)];
    HeadPlaced(0x41, meta, fields);
    FieldPlaced(0x41, meta, fields, 0, 11);
    FieldPlaced(0x41, meta, fields, 1, 19);
    FieldPlaced(0x41, meta, fields, 2, 20);
    FieldPlaced(0x41, meta, fields, 3, 24);
    FieldPlaced(0x41, meta, fields, 4, 32);
    LengthIs(0x41, meta, fields);
  }

  lemma AddReadsBack(others: u8 -> Option<nat>, meta: EventMeta, id: u64, side: Side, shares: u32, stock: Symbol,
                     price: u32)
    requires Timely(meta)
    ensures var b := EncodeAdd(meta, id, side, shares, stock, price);
            var e := AddEvent(meta, Order(id, stock, side, shares, price));
            DecodeByHand(b) == Ok(Some(e)) && Decode(others, b) == Ok(Some(e))
  {
    var b := EncodeAdd(meta, id, side, shares, stock, price);
    AddLaidOut(meta, id, side, shares, stock, price);
    HeadReads(b, 0x41, meta);
    Reads64(b, 11, id);
    assert b[19] == b[19..20][0];
    Reads32(b, 20, shares);
    assert stock[..8] == stock;
    Reads32(b, 32, price);
    BothDecode(others, b, AddEvent(meta, Order(id, stock, side, shares, price)));
  }

  /** Add order with attribution. */
  function EncodeAddWithMpid(meta: EventMeta, id: u64, side: Side, shares: u32, stock: Symbol, price: u32,
                             mpid: Data): Data
    requires |mpid| == 4
  {
    Message(0x46, meta, [ToBytes(id, 8), [SideByte(side)], ToBytes(shares, 4),
                        stock, ToBytes(price, 4), mpid])
  }

  lemma AddWithMpidLaidOut(meta: EventMeta, id: u64, side: Side, shares: u32, stock: Symbol, price: u32, mpid: Data)
    requires |mpid| == 4
    ensures var b := EncodeAddWithMpid(meta, id, side, shares, stock, price, mpid);
            && |b| == 40 && HasHead(b, 0x46, meta)
            && b[11..19] == ToBytes(id, 8)
            && b[19..20] == [SideByte(side)]
            && b[20..24] == ToBytes(shares, 4)
            && b[24..32] == stock
            && b[32..36] == ToBytes(price, 4)
            && b[36..40] == mpid
  {
    var fields: seq<Data> := [ToBytes(id, 8), [SideByte(side)], ToBytes(shares, 4),
                                stock, ToBytes(price, 4), mpid];
    HeadPlaced(0x46, meta, fields);
    FieldPlaced(0x46, meta, fields, 0, 11);
    FieldPlaced(0x46, meta, fields, 1, 19);
    FieldPlaced(0x46, meta, fields, 2, 20);
    FieldPlaced(0x46, meta, fields, 3, 24);
    FieldPlaced(0x46, meta, fields, 4, 32);
    FieldPlaced(0x46, meta, fields, 5, 36);
    LengthIs(0x46, meta, fields);
  }

  lemma AddWithMpidReadsBack(others: u8 -> Option<nat>, meta: EventMeta, id: u64, side: Side, shares: u32,
                             stock: Symbol, price: u32, mpid: Data)
    requires Timely(meta) && |mpid| == 4
    ensures var b := EncodeAddWithMpid(meta, id, side, shares, stock, price, mpid);
            var e := AddEvent(meta, Order(id, stock, side, shares, price));
            DecodeByHand(b) == Ok(Some(e)) && Decode(others, b) == Ok(Some(e))
  {
    var b := EncodeAddWithMpid(meta, id, side, shares, stock, price, mpid);
    AddWithMpidLaidOut(meta, id, side, shares, stock, price, mpid);
    HeadReads(b, 0x46, meta);
    Reads64(b, 11, id);
    assert b[19] == b[19..20][0];
    Reads32(b, 20, shares);
    assert stock[..8] == stock;
    Reads32(b, 32, price);
    BothDecode(others, b, AddEvent(meta, Order(id, stock, side, shares, price)));
  }

  /** Order executed: reference, shares, match number. */
  function EncodeExecute(meta: EventMeta, id: u64, shares: u32, matched: u64): Data {
    Message(0x45, meta, [ToBytes(id, 8), ToBytes(shares, 4), ToBytes(matched, 8)])
  }

  lemma ExecuteLaidOut(meta: EventMeta, id: u64, shares: u32, matched: u64)
    ensures var b := EncodeExecute(meta, id, shares, matched);
            && |b| == 31 && HasHead(b, 0x45, meta)
            && b[11..19] == ToBytes(id, 8)
            && b[19..23] == ToBytes(shares, 4)
            && b[23..31] == ToBytes(matched, 8)
  {
    var fields: seq<Data> := [ToBytes(id, 8), ToBytes(shares, 4), ToBytes(matched, 8)];
    HeadPlaced(0x45, meta, fields);
    FieldPlaced(0x45, meta, fields, 0, 11);
    FieldPlaced(0x45, meta, fields, 1, 19);
    FieldPlaced(0x45, meta, fields, 2, 23);
    LengthIs(0x45, meta, fields);
  }

  lemma ExecuteReadsBack(others: u8 -> Option<nat>, meta: EventMeta, id: u64, shares: u32, matched: u64)
    requires Timely(meta)
    ensures var b := EncodeExecute(meta, id, shares, matched);
            var e := ExecuteEvent(meta, id, shares, matched, false, 0, true);
            DecodeByHand(b) == Ok(Some(e)) && Decode(others, b) == Ok(Some(e))
  {
    var b := EncodeExecute(meta, id, shares, matched);
    ExecuteLaidOut(meta, id, shares, matched);
    HeadReads(b, 0x45, meta);
    Reads64(b, 11, id);
    Reads32(b, 19, shares);
    Reads64(b, 23, matched);
    BothDecode(others, b, ExecuteEvent(meta, id, shares, matched, false, 0, true));
  }

  /** Order executed with price: reference, shares, match number, printable, price. */
  function EncodeExecuteWithPrice(meta: EventMeta, id: u64, shares: u32, matched: u64, printable: u8,
                                  price: u32): Data {
    Message(0x43, meta, [ToBytes(id, 8), ToBytes(shares, 4), ToBytes(matched, 8),
                        [printable], ToBytes(price, 4)])
  }

  lemma ExecuteWithPriceLaidOut(meta: EventMeta, id: u64, shares: u32, matched: u64, printable: u8, price: u32)
    ensures var b := EncodeExecuteWithPrice(meta, id, shares, matched, printable, price);
            && |b| == 36 && HasHead(b, 0x43, meta)
            && b[11..19] == ToBytes(id, 8)
            && b[19..23] == ToBytes(shares, 4)
            && b[23..31] == ToBytes(matched, 8)
            && b[31..32] == [printable]
            && b[32..36] == ToBytes(price, 4)
  {
    var fields: seq<Data> := [ToBytes(id, 8), ToBytes(shares, 4), ToBytes(matched, 8),
                                [printable], ToBytes(price, 4)];
    HeadPlaced(0x43, meta, fields);
    FieldPlaced(0x43, meta, fields, 0, 11);
    FieldPlaced(0x43, meta, fields, 1, 19);
    FieldPlaced(0x43, meta, fields, 2, 23);
    FieldPlaced(0x43, meta, fields, 3, 31);
    FieldPlaced(0x43, meta, fields, 4, 32);
    LengthIs(0x43, meta, fields);
  }

  lemma ExecuteWithPriceReadsBack(others: u8 -> Option<nat>, meta: EventMeta, id: u64, shares: u32, matched: u64,
                                  printable: u8, price: u32)
    requires Timely(meta)
    ensures var b := EncodeExecuteWithPrice(meta, id, shares, matched, printable, price);
            var e := ExecuteEvent(meta, id, shares, matched, true, price, printable == 'Y' as int);
            DecodeByHand(b) == Ok(Some(e)) && Decode(others, b) == Ok(Some(e))
  {
    var b := EncodeExecuteWithPrice(meta, id, shares, matched, printable, price);
    ExecuteWithPriceLaidOut(meta, id, shares, matched, printable, price);
    HeadReads(b, 0x43, meta);
    Reads64(b, 11, id);
    Reads32(b, 19, shares);
    Reads64(b, 23, matched);
    assert b[31] == b[31..32][0];
    Reads32(b, 32, price);
    BothDecode(others, b, ExecuteEvent(meta, id, shares, matched, true, price, printable == 'Y' as int));
  }

  /** Order cancel: reference, shares. */
  function EncodeCancel(meta: EventMeta, id: u64, shares: u32): Data {
    Message(0x58, meta, [ToBytes(id, 8), ToBytes(shares, 4)])
  }

  lemma CancelLaidOut(meta: EventMeta, id: u64, shares: u32)
    ensures var b := EncodeCancel(meta, id, shares);
            && |b| == 23 && HasHead(b, 0x58, meta)
            && b[11..19] == ToBytes(id, 8)
            && b[19..23] == ToBytes(shares, 4)
  {
    var fields: seq<Data> := [ToBytes(id, 8), ToBytes(shares, 4)];
    HeadPlaced(0x58, meta, fields);
    FieldPlaced(0x58, meta, fields, 0, 11);
    FieldPlaced(0x58, meta, fields, 1, 19);
    LengthIs(0x58, meta, fields);
  }

  lemma CancelReadsBack(others: u8 -> Option<nat>, meta: EventMeta, id: u64, shares: u32)
    requires Timely(meta)
    ensures var b := EncodeCancel(meta, id, shares);
            var e := CancelEvent(meta, id, shares);
            DecodeByHand(b) == Ok(Some(e)) && Decode(others, b) == Ok(Some(e))
  {
    var b := EncodeCancel(meta, id, shares);
    CancelLaidOut(meta, id, shares);
    HeadReads(b, 0x58, meta);
    Reads64(b, 11, id);
    Reads32(b, 19, shares);
    BothDecode(others, b, CancelEvent(meta, id, shares));
  }

  /** Order delete: reference. */
  function EncodeDelete(meta: EventMeta, id: u64): Data {
    Message(0x44, meta, [ToBytes(id, 8)])
  }

  lemma DeleteLaidOut(meta: EventMeta, id: u64)
    ensures var b := EncodeDelete(meta, id);
            && |b| == 19 && HasHead(b, 0x44, meta)
            && b[11..19] == ToBytes(id, 8)
  {
    var fields: seq<Data> := [ToBytes(id, 8)];
    HeadPlaced(0x44, meta, fields);
    FieldPlaced(0x44, meta, fields, 0, 11);
    LengthIs(0x44, meta, fields);
  }

  lemma DeleteReadsBack(others: u8 -> Option<nat>, meta: EventMeta, id: u64)
    requires Timely(meta)
    ensures var b := EncodeDelete(meta, id);
            var e := DeleteEvent(meta, id);
            DecodeByHand(b) == Ok(Some(e)) && Decode(others, b) == Ok(Some(e))
  {
    var b := EncodeDelete(meta, id);
    DeleteLaidOut(meta, id);
    HeadReads(b, 0x44, meta);
    Reads64(b, 11, id);
    BothDecode(others, b, DeleteEvent(meta, id));
  }

  /** Order replace: original reference, new reference, shares, price. */
  function EncodeReplace(meta: EventMeta, original: u64, replacing: u64, shares: u32, price: u32): Data {
    Message(0x55, meta, [ToBytes(original, 8), ToBytes(replacing, 8), ToBytes(shares, 4),
                        ToBytes(price, 4)])
  }

  lemma ReplaceLaidOut(meta: EventMeta, original: u64, replacing: u64, shares: u32, price: u32)
    ensures var b := EncodeReplace(meta, original, replacing, shares, price);
            && |b| == 35 && HasHead(b, 0x55, meta)
            && b[11..19] == ToBytes(original, 8)
            && b[19..27] == ToBytes(replacing, 8)
            && b[27..31] == ToBytes(shares, 4)
            && b[31..35] == ToBytes(price, 4)
  {
    var fields: seq<Data> := [ToBytes(original, 8), ToBytes(replacing, 8), ToBytes(shares, 4),
                                ToBytes(price, 4)];
    HeadPlaced(0x55, meta, fields);
    FieldPlaced(0x55, meta, fields, 0, 11);
    FieldPlaced(0x55, meta, fields, 1, 19);
    FieldPlaced(0x55, meta, fields, 2, 27);
    FieldPlaced(0x55, meta, fields, 3, 31);
    LengthIs(0x55, meta, fields);
  }

  lemma ReplaceReadsBack(others: u8 -> Option<nat>, meta: EventMeta, original: u64, replacing: u64, shares: u32,
                         price: u32)
    requires Timely(meta)
    ensures var b := EncodeReplace(meta, original, replacing, shares, price);
            var e := ReplaceEvent(meta, original, replacing, shares, price);
            DecodeByHand(b) == Ok(Some(e)) && Decode(others, b) == Ok(Some(e))
  {
    var b := EncodeReplace(meta, original, replacing, shares, price);
    ReplaceLaidOut(meta, original, replacing, shares, price);
    HeadReads(b, 0x55, meta);
    Reads64(b, 11, original);
    Reads64(b, 19, replacing);
    Reads32(b, 27, shares);
    Reads32(b, 31, price);
    BothDecode(others, b, ReplaceEvent(meta, original, replacing, shares, price));
  }

  // ---------------------------------------------------------------- what is rejected

  /** A side other than 'B' and 'S' is rejected. */
  lemma OtherSideRejected(others: u8 -> Option<nat>, b: Data)
    requires b != [] && ((b[0] == 0x41 && |b| == 36) || (b[0] == 0x46 && |b| == 40))
    requires b[19] != 'B' as int && b[19] != 'S' as int
    ensures DecodeByHand(b).Err? && Decode(others, b).Err?
  {
    DecodersAgree(others, b);
  }

  /** So is every book-changing message of another length. */
  lemma OtherLengthRejected(others: u8 -> Option<nat>, b: Data)
    requires b != [] && BookMessage(b[0]).Some?
    requires |b| != match b[0] as char
                    case 'A' => 36
                    case 'F' => 40
                    case 'E' => 31
                    case 'C' => 36
                    case 'X' => 23
                    case 'D' => 19
                    case _ => 35
    ensures DecodeByHand(b).Err? && Decode(others, b).Err?
  {
    DecodersAgree(others, b);
  }
}
