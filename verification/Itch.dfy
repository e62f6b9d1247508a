/**
 Decoding the book-changing ITCH messages, once through the accessors that the schema compiler emits and
 once by hand (src/itch_decoder.cpp, schemas/itch50.efe:105-171).
 */
module Itch {
  import opened Types
  import opened Bytes
  import opened Schema

  // ---------------------------------------------------------------- schema

  const ADD_ORDER := MessageDecl("AddOrder", 'A', [
    FieldDecl("stock_locate", U16Be), FieldDecl("tracking_number", U16Be), FieldDecl("timestamp", U48Be),
    FieldDecl("order_reference", U64Be), FieldDecl("side", Char), FieldDecl("shares", U32Be),
    FieldDecl("stock", Ascii(8)), FieldDecl("price", Price4)])

  const ADD_ORDER_WITH_MPID := MessageDecl("AddOrderWithMpid", 'F', [
    FieldDecl("stock_locate", U16Be), FieldDecl("tracking_number", U16Be), FieldDecl("timestamp", U48Be),
    FieldDecl("order_reference", U64Be), FieldDecl("side", Char), FieldDecl("shares", U32Be),
    FieldDecl("stock", Ascii(8)), FieldDecl("price", Price4), FieldDecl("attribution", Ascii(4))])

  const ORDER_EXECUTED := MessageDecl("OrderExecuted", 'E', [
    FieldDecl("stock_locate", U16Be), FieldDecl("tracking_number", U16Be), FieldDecl("timestamp", U48Be),
    FieldDecl("order_reference", U64Be), FieldDecl("executed_shares", U32Be), FieldDecl("match_number", U64Be)])

  const ORDER_EXECUTED_WITH_PRICE := MessageDecl("OrderExecutedWithPrice", 'C', [
    FieldDecl("stock_locate", U16Be), FieldDecl("tracking_number", U16Be), FieldDecl("timestamp", U48Be),
    FieldDecl("order_reference", U64Be), FieldDecl("executed_shares", U32Be), FieldDecl("match_number", U64Be),
    FieldDecl("printable", Char), FieldDecl("execution_price", Price4)])

  const ORDER_CANCEL := MessageDecl("OrderCancel", 'X', [
    FieldDecl("stock_locate", U16Be), FieldDecl("tracking_number", U16Be), FieldDecl("timestamp", U48Be),
    FieldDecl("order_reference", U64Be), FieldDecl("canceled_shares", U32Be)])

  const ORDER_DELETE := MessageDecl("OrderDelete", 'D', [
    FieldDecl("stock_locate", U16Be), FieldDecl("tracking_number", U16Be), FieldDecl("timestamp", U48Be),
    FieldDecl("order_reference", U64Be)])

  const ORDER_REPLACE := MessageDecl("OrderReplace", 'U', [
    FieldDecl("stock_locate", U16Be), FieldDecl("tracking_number", U16Be), FieldDecl("timestamp", U48Be),
    FieldDecl("original_order_reference", U64Be), FieldDecl("new_order_reference", U64Be),
    FieldDecl("shares", U32Be), FieldDecl("price", Price4)])

  function BookMessage(tag: u8): Option<MessageDecl> {
    if tag == 0x41 then Some(ADD_ORDER)
    else if tag == 0x46 then Some(ADD_ORDER_WITH_MPID)
    else if tag == 0x45 then Some(ORDER_EXECUTED)
    else if tag == 0x43 then Some(ORDER_EXECUTED_WITH_PRICE)
    else if tag == 0x58 then Some(ORDER_CANCEL)
    else if tag == 0x44 then Some(ORDER_DELETE)
    else if tag == 0x55 then Some(ORDER_REPLACE)
    else None
  }

  // ---------------------------------------------------------------- typed access through emitted accessors

  function Call16(f: Field, b: Data): Result<u16> {
    match AccessorFor(f)
    case Read16(o) => ReadU16(b, o)
    case _ => Err(UnsupportedType)
  }

  function Call32(f: Field, b: Data): Result<u32> {
    match AccessorFor(f)
    case Read32(o) => ReadU32(b, o)
    case _ => Err(UnsupportedType)
  }

  /** `read_u48_be` and `read_u64_be` as functions. */
  function ReadWide(b: Data, offset: nat, width: nat): Result<u64>
    requires width <= 8
  {
    var r := ReadNumber(b, offset, width);
    if r.Ok? then
      WideBound(b[offset..offset + width]);
      Ok(r.value)
    else Err(r.error)
  }

  lemma WideBound(b: Data)
    requires |b| <= 8
    ensures BigEndian(b) <= U64_MAX
  {
    BigEndianBound(b);
    PowersGrow(|b|, 8);
    Powers();
  }

  lemma {:induction false} PowersGrow(m: nat, n: nat)
    requires m <= n
    ensures Pow256(m) <= Pow256(n)
    decreases n
  {
    if m < n {
      PowersGrow(m, n - 1);
    }
  }

  function Call64(f: Field, b: Data): Result<u64> {
    match AccessorFor(f)
    case Read48(o) => ReadWide(b, o, 6)
    case Read64(o) => ReadWide(b, o, 8)
    case _ => Err(UnsupportedType)
  }

  function CallChar(f: Field, b: Data): Result<u8> {
    match AccessorFor(f)
    case ReadCharacter(o) => ReadU8(b, o)
    case _ => Err(UnsupportedType)
  }

  function CallText(f: Field, b: Data): Result<Data> {
    match AccessorFor(f)
    case ReadView(o, w) => ReadText(b, o, w)
    case _ => Err(UnsupportedType)
  }

  function Get16(m: MessageDecl, i: nat, b: Data): Result<u16>
    requires i < |m.fields|
  {
    Call16(LaidOut(m).fields[i], b)
  }

  function Get32(m: MessageDecl, i: nat, b: Data): Result<u32>
    requires i < |m.fields|
  {
    Call32(LaidOut(m).fields[i], b)
  }

  function Get64(m: MessageDecl, i: nat, b: Data): Result<u64>
    requires i < |m.fields|
  {
    Call64(LaidOut(m).fields[i], b)
  }

  function GetChar(m: MessageDecl, i: nat, b: Data): Result<u8>
    requires i < |m.fields|
  {
    CallChar(LaidOut(m).fields[i], b)
  }

  function GetText(m: MessageDecl, i: nat, b: Data): Result<Data>
    requires i < |m.fields|
  {
    CallText(LaidOut(m).fields[i], b)
  }

  // ---------------------------------------------------------------- building events

  function SideOf(c: u8): Result<Side> {
    if c == 0x42 then Ok(Buy) else if c == 0x53 then Ok(Sell) else Err(InvalidSide)
  }

  /** `Symbol::from_padded`: eight characters, padded with spaces if there are fewer. */
  function SymbolOf(text: Data): Symbol {
    if |text| >= 8 then text[..8] else text + seq(8 - |text|, _ => 0x20)
  }

  function MetaOf(locate: Result<u16>, tracking: Result<u16>, timestamp: Result<u64>): Result<EventMeta> {
    if locate.Err? then Err(locate.error)
    else if tracking.Err? then Err(tracking.error)
    else if timestamp.Err? then Err(timestamp.error)
    else Ok(EventMeta(locate.value, tracking.value, timestamp.value))
  }

  function AddOf(meta: Result<EventMeta>, id: Result<u64>, stock: Result<Data>, side: Result<u8>,
                 shares: Result<u32>, price: Result<u32>): Result<MarketEvent>
  {
    if meta.Err? then Err(meta.error)
    else if id.Err? then Err(id.error)
    else if stock.Err? then Err(stock.error)
    else if side.Err? then Err(side.error)
    else if SideOf(side.value).Err? then Err(SideOf(side.value).error)
    else if shares.Err? then Err(shares.error)
    else if price.Err? then Err(price.error)
    else Ok(AddEvent(meta.value,
                     Order(id.value, SymbolOf(stock.value), SideOf(side.value).value, shares.value, price.value)))
  }

  function ExecuteOf(meta: Result<EventMeta>, id: Result<u64>, shares: Result<u32>, matchNumber: Result<u64>,
                     hasPrice: bool, price: Result<u32>, printable: Result<u8>): Result<MarketEvent>
  {
    if meta.Err? then Err(meta.error)
    else if id.Err? then Err(id.error)
    else if shares.Err? then Err(shares.error)
    else if matchNumber.Err? then Err(matchNumber.error)
    else if price.Err? then Err(price.error)
    else if printable.Err? then Err(printable.error)
    else Ok(ExecuteEvent(meta.value, id.value, shares.value, matchNumber.value, hasPrice, price.value,
                         printable.value == 0x59))
  }

  function CancelOf(meta: Result<EventMeta>, id: Result<u64>, shares: Result<u32>): Result<MarketEvent> {
    if meta.Err? then Err(meta.error)
    else if id.Err? then Err(id.error)
    else if shares.Err? then Err(shares.error)
    else Ok(CancelEvent(meta.value, id.value, shares.value))
  }

  function DeleteOf(meta: Result<EventMeta>, id: Result<u64>): Result<MarketEvent> {
    if meta.Err? then Err(meta.error) else if id.Err? then Err(id.error) else Ok(DeleteEvent(meta.value, id.value))
  }

  function ReplaceOf(meta: Result<EventMeta>, old': Result<u64>, new': Result<u64>,
                     shares: Result<u32>, price: Result<u32>): Result<MarketEvent>
  {
    if meta.Err? then Err(meta.error)
    else if old'.Err? then Err(old'.error)
    else if new'.Err? then Err(new'.error)
    else if shares.Err? then Err(shares.error)
    else if price.Err? then Err(price.error)
    else Ok(ReplaceEvent(meta.value, old'.value, new'.value, shares.value, price.value))
  }

  // ---------------------------------------------------------------- the generated decoder

  /** `validate`: the type must be in the schema, and the length must be the one that the schema gives. */
  function Validate(others: u8 -> Option<nat>, b: Data): Option<Failure> {
    if b == [] then Some(EmptyMessage)
    else
      var size := if BookMessage(b[0]).Some? then Some(LaidOut(BookMessage(b[0]).value).size) else others(b[0]);
      if size.None? then Some(UnsupportedType)
      else if |b| != size.value then Some(LengthMismatch)
      else None
  }

  function HeadOf(m: MessageDecl, b: Data): Result<EventMeta>
    requires |m.fields| >= 3
  {
    MetaOf(Get16(m, 0, b), Get16(m, 1, b), Get64(m, 2, b))
  }

  function FieldsNeeded(tag: char): nat {
    match tag
    case 'E' => 6
    case 'X' => 5
    case 'D' => 4
    case 'U' => 7
    case _ => 8
  }

  function EventVia(m: MessageDecl, b: Data): Result<MarketEvent>
    requires |m.fields| >= FieldsNeeded(m.tag)
  {
    if !ViewAccepts(LaidOut(m), b) then Err(LengthMismatch)
    else if m.tag == 'A' || m.tag == 'F' then
      AddOf(HeadOf(m, b), Get64(m, 3, b), GetText(m, 6, b), GetChar(m, 4, b), Get32(m, 5, b), Get32(m, 7, b))
    else if m.tag == 'E' then
      ExecuteOf(HeadOf(m, b), Get64(m, 3, b), Get32(m, 4, b), Get64(m, 5, b), false, Ok(0), Ok(0x59))
    else if m.tag == 'C' then
      ExecuteOf(HeadOf(m, b), Get64(m, 3, b), Get32(m, 4, b), Get64(m, 5, b), true, Get32(m, 7, b), GetChar(m, 6, b))
    else if m.tag == 'X' then
      CancelOf(HeadOf(m, b), Get64(m, 3, b), Get32(m, 4, b))
    else if m.tag == 'D' then
      DeleteOf(HeadOf(m, b), Get64(m, 3, b))
    else
      ReplaceOf(HeadOf(m, b), Get64(m, 3, b), Get64(m, 4, b), Get32(m, 5, b), Get32(m, 6, b))
  }

  /** `ItchDecoder::decode_book_event`. `others` gives the sizes of the message types that do not change the book. */
  function Decode(others: u8 -> Option<nat>, b: Data): Result<Option<MarketEvent>> {
    if Validate(others, b).Some? then Err(Validate(others, b).value)
    else
      match BookMessage(b[0])
      case None => Ok(None)
      case Some(m) =>
        var r := EventVia(m, b);
        if r.Ok? then Ok(Some(r.value)) else Err(r.error)
  }

  // ---------------------------------------------------------------- the handwritten decoder

  function HeadByHand(b: Data): Result<EventMeta> {
    MetaOf(ReadU16(b, 1), ReadU16(b, 3), ReadWide(b, 5, 6))
  }

  function EventByHand(b: Data): Result<Option<MarketEvent>>
    requires b != []
  {
    var head, id := HeadByHand(b), ReadWide(b, 11, 8);
    var r: Option<Result<MarketEvent>> :=
      if b[0] == 0x41 || b[0] == 0x46 then
        if |b| != (if b[0] == 0x41 then 36 else 40) then Some(Err(LengthMismatch))
        else Some(AddOf(head, id, ReadText(b, 24, 8), ReadU8(b, 19), ReadU32(b, 20), ReadU32(b, 32)))
      else if b[0] == 0x45 then
        if |b| != 31 then Some(Err(LengthMismatch))
        else Some(ExecuteOf(head, id, ReadU32(b, 19), ReadWide(b, 23, 8), false, Ok(0), Ok(0x59)))
      else if b[0] == 0x43 then
        if |b| != 36 then Some(Err(LengthMismatch))
        else Some(ExecuteOf(head, id, ReadU32(b, 19), ReadWide(b, 23, 8), true, ReadU32(b, 32), ReadU8(b, 31)))
      else if b[0] == 0x58 then
        if |b| != 23 then Some(Err(LengthMismatch)) else Some(CancelOf(head, id, ReadU32(b, 19)))
      else if b[0] == 0x44 then
        if |b| != 19 then Some(Err(LengthMismatch)) else Some(DeleteOf(head, id))
      else if b[0] == 0x55 then
        if |b| != 35 then Some(Err(LengthMismatch))
        else Some(ReplaceOf(head, id, ReadWide(b, 19, 8), ReadU32(b, 27), ReadU32(b, 31)))
      else None;
    match r
    case None => Ok(None)
    case Some(Ok(e)) => Ok(Some(e))
    case Some(Err(f)) => Err(f)
  }

  /** `ReferenceItchDecoder::decode_book_event`. */
  function DecodeByHand(b: Data): Result<Option<MarketEvent>> {
    if b == [] then Err(EmptyMessage) else EventByHand(b)
  }

  // ---------------------------------------------------------------- offsets of the schema

  /** The offset of field `i` is the type byte plus the widths before it. */
  lemma OffsetStep(m: MessageDecl, i: nat)
    requires i < |m.fields| && Size(m.fields[..i]) + Width(m.fields[i].ty) < WORD
    ensures LaidOut(m).fields[i] == Field(m.fields[i].name, m.fields[i].ty, Width(m.fields[i].ty), Size(m.fields[..i]))
    ensures Size(m.fields[..i + 1]) == Size(m.fields[..i]) + Width(m.fields[i].ty)
  {
    LaidOutFieldAt(m.fields, i);
    SizeAfter(m.fields, i);
  }

  predicate StartsLikeAnOrderMessage(m: MessageDecl) {
    && |m.fields| >= 4
    && m.fields[0].ty == U16Be && m.fields[1].ty == U16Be && m.fields[2].ty == U48Be && m.fields[3].ty == U64Be
  }

  /** All messages start with the same header, so the first order reference is at byte 11. */
  lemma HeaderOffsets(m: MessageDecl)
    requires StartsLikeAnOrderMessage(m)
    ensures LaidOut(m).fields[0].offset == 1 && LaidOut(m).fields[1].offset == 3
    ensures LaidOut(m).fields[2].offset == 5 && LaidOut(m).fields[3].offset == 11
    ensures Size(m.fields[..4]) == 19
    ensures forall i :: 0 <= i < 4 ==> LaidOut(m).fields[i].ty == m.fields[i].ty
  {
    assert m.fields[..0] == [];
    OffsetStep(m, 0);
    OffsetStep(m, 1);
    OffsetStep(m, 2);
    OffsetStep(m, 3);
  }

  lemma HeadersAgree(m: MessageDecl, b: Data)
    requires StartsLikeAnOrderMessage(m)
    ensures HeadOf(m, b) == HeadByHand(b) && Get64(m, 3, b) == ReadWide(b, 11, 8) && Size(m.fields[..4]) == 19
  {
    HeaderOffsets(m);
  }

  lemma SideAndSharesAgree(m: MessageDecl, b: Data)
    requires |m.fields| >= 6 && Size(m.fields[..4]) == 19 && m.fields[4].ty == Char && m.fields[5].ty == U32Be
    ensures GetChar(m, 4, b) == ReadU8(b, 19) && Get32(m, 5, b) == ReadU32(b, 20)
    ensures Size(m.fields[..6]) == 24
  {
    OffsetStep(m, 4);
    OffsetStep(m, 5);
  }

  lemma StockAndPriceAgree(m: MessageDecl, b: Data)
    requires |m.fields| >= 8 && Size(m.fields[..6]) == 24 && m.fields[6].ty == Ascii(8) && m.fields[7].ty == Price4
    ensures GetText(m, 6, b) == ReadText(b, 24, 8) && Get32(m, 7, b) == ReadU32(b, 32)
    ensures Size(m.fields[..8]) == 36
  {
    OffsetStep(m, 6);
    OffsetStep(m, 7);
  }

  lemma AddFieldsAgree(m: MessageDecl, b: Data)
    requires StartsLikeAnOrderMessage(m) && |m.fields| >= 8
    requires m.fields[4].ty == Char && m.fields[5].ty == U32Be && m.fields[6].ty == Ascii(8) && m.fields[7].ty == Price4
    ensures HeadOf(m, b) == HeadByHand(b) && Get64(m, 3, b) == ReadWide(b, 11, 8)
    ensures GetChar(m, 4, b) == ReadU8(b, 19) && Get32(m, 5, b) == ReadU32(b, 20)
    ensures GetText(m, 6, b) == ReadText(b, 24, 8) && Get32(m, 7, b) == ReadU32(b, 32)
    ensures Size(m.fields[..8]) == 36
  {
    HeadersAgree(m, b);
    SideAndSharesAgree(m, b);
    StockAndPriceAgree(m, b);
  }

  lemma AddAgrees(b: Data)
    ensures EventVia(ADD_ORDER, b)
            == if |b| != 36 || b[0] != 0x41 then Err(LengthMismatch)
               else AddOf(HeadByHand(b), ReadWide(b, 11, 8), ReadText(b, 24, 8), ReadU8(b, 19), ReadU32(b, 20),
                          ReadU32(b, 32))
    ensures LaidOut(ADD_ORDER).size == 36
  {
    AddFieldsAgree(ADD_ORDER, b);
    assert ADD_ORDER.fields[..8] == ADD_ORDER.fields;
  }

  lemma AttributionAgrees(m: MessageDecl)
    requires |m.fields| == 9 && m.fields[8].ty == Ascii(4) && Size(m.fields[..8]) == 36
    ensures Size(m.fields) == 40
  {
    OffsetStep(m, 8);
    assert m.fields[..9] == m.fields;
  }

  lemma AddWithMpidAgrees(b: Data)
    ensures EventVia(ADD_ORDER_WITH_MPID, b)
            == if |b| != 40 || b[0] != 0x46 then Err(LengthMismatch)
               else AddOf(HeadByHand(b), ReadWide(b, 11, 8), ReadText(b, 24, 8), ReadU8(b, 19), ReadU32(b, 20),
                          ReadU32(b, 32))
    ensures LaidOut(ADD_ORDER_WITH_MPID).size == 40
  {
    AddFieldsAgree(ADD_ORDER_WITH_MPID, b);
    AttributionAgrees(ADD_ORDER_WITH_MPID);
  }

  lemma ExecuteFieldsAgree(m: MessageDecl, b: Data)
    requires StartsLikeAnOrderMessage(m) && |m.fields| >= 6 && m.fields[4].ty == U32Be && m.fields[5].ty == U64Be
    ensures HeadOf(m, b) == HeadByHand(b) && Get64(m, 3, b) == ReadWide(b, 11, 8)
    ensures Get32(m, 4, b) == ReadU32(b, 19) && Get64(m, 5, b) == ReadWide(b, 23, 8)
    ensures Size(m.fields[..6]) == 31
  {
    HeadersAgree(m, b);
    OffsetStep(m, 4);
    OffsetStep(m, 5);
  }

  lemma ExecuteAgrees(b: Data)
    ensures EventVia(ORDER_EXECUTED, b)
            == if |b| != 31 || b[0] != 0x45 then Err(LengthMismatch)
               else ExecuteOf(HeadByHand(b), ReadWide(b, 11, 8), ReadU32(b, 19), ReadWide(b, 23, 8), false, Ok(0),
                              Ok(0x59))
    ensures LaidOut(ORDER_EXECUTED).size == 31
  {
    ExecuteFieldsAgree(ORDER_EXECUTED, b);
    assert ORDER_EXECUTED.fields[..6] == ORDER_EXECUTED.fields;
  }

  lemma PricedFieldsAgree(m: MessageDecl, b: Data)
    requires |m.fields| >= 8 && m.fields[6].ty == Char && m.fields[7].ty == Price4 && Size(m.fields[..6]) == 31
    ensures GetChar(m, 6, b) == ReadU8(b, 31) && Get32(m, 7, b) == ReadU32(b, 32)
    ensures Size(m.fields[..8]) == 36
  {
    OffsetStep(m, 6);
    OffsetStep(m, 7);
  }

  lemma ExecuteWithPriceAgrees(b: Data)
    ensures EventVia(ORDER_EXECUTED_WITH_PRICE, b)
            == if |b| != 36 || b[0] != 0x43 then Err(LengthMismatch)
               else ExecuteOf(HeadByHand(b), ReadWide(b, 11, 8), ReadU32(b, 19), ReadWide(b, 23, 8),
                              true, ReadU32(b, 32), ReadU8(b, 31))
    ensures LaidOut(ORDER_EXECUTED_WITH_PRICE).size == 36
  {
    ExecuteFieldsAgree(ORDER_EXECUTED_WITH_PRICE, b);
    PricedFieldsAgree(ORDER_EXECUTED_WITH_PRICE, b);
    assert ORDER_EXECUTED_WITH_PRICE.fields[..8] == ORDER_EXECUTED_WITH_PRICE.fields;
  }

  lemma CancelAgrees(b: Data)
    ensures EventVia(ORDER_CANCEL, b)
            == if |b| != 23 || b[0] != 0x58 then Err(LengthMismatch)
               else CancelOf(HeadByHand(b), ReadWide(b, 11, 8), ReadU32(b, 19))
    ensures LaidOut(ORDER_CANCEL).size == 23
  {
    HeadersAgree(ORDER_CANCEL, b);
    OffsetStep(ORDER_CANCEL, 4);
    assert ORDER_CANCEL.fields[..5] == ORDER_CANCEL.fields;
  }

  lemma DeleteAgrees(b: Data)
    ensures EventVia(ORDER_DELETE, b)
            == if |b| != 19 || b[0] != 0x44 then Err(LengthMismatch) else DeleteOf(HeadByHand(b), ReadWide(b, 11, 8))
    ensures LaidOut(ORDER_DELETE).size == 19
  {
    HeadersAgree(ORDER_DELETE, b);
    assert ORDER_DELETE.fields[..4] == ORDER_DELETE.fields;
  }

  lemma ReplaceFieldsAgree(m: MessageDecl, b: Data)
    requires StartsLikeAnOrderMessage(m) && |m.fields| >= 7
    requires m.fields[4].ty == U64Be && m.fields[5].ty == U32Be && m.fields[6].ty == Price4
    ensures HeadOf(m, b) == HeadByHand(b) && Get64(m, 3, b) == ReadWide(b, 11, 8)
    ensures Get64(m, 4, b) == ReadWide(b, 19, 8) && Get32(m, 5, b) == ReadU32(b, 27) && Get32(m, 6, b) == ReadU32(b, 31)
    ensures Size(m.fields[..7]) == 35
  {
    HeadersAgree(m, b);
    OffsetStep(m, 4);
    OffsetStep(m, 5);
    OffsetStep(m, 6);
  }

  lemma ReplaceAgrees(b: Data)
    ensures EventVia(ORDER_REPLACE, b)
            == if |b| != 35 || b[0] != 0x55 then Err(LengthMismatch)
               else ReplaceOf(HeadByHand(b), ReadWide(b, 11, 8), ReadWide(b, 19, 8), ReadU32(b, 27), ReadU32(b, 31))
    ensures LaidOut(ORDER_REPLACE).size == 35
  {
    ReplaceFieldsAgree(ORDER_REPLACE, b);
    assert ORDER_REPLACE.fields[..7] == ORDER_REPLACE.fields;
  }

  // ---------------------------------------------------------------- agreement

  /** The same event, or a rejection by both. */
  predicate SameOutcome(x: Result<Option<MarketEvent>>, y: Result<Option<MarketEvent>>) {
    if x.Ok? then y == x else y.Err?
  }

  /** On every byte string that starts like a book-changing message, the two decoders agree. */
  lemma DecodersAgree(others: u8 -> Option<nat>, b: Data)
    requires b != [] && BookMessage(b[0]).Some?
    ensures SameOutcome(Decode(others, b), DecodeByHand(b))
  {
    if b[0] == 0x41 {
      AddAgrees(b);
    } else if b[0] == 0x46 {
      AddWithMpidAgrees(b);
    } else if b[0] == 0x45 {
      ExecuteAgrees(b);
    } else if b[0] == 0x43 {
      ExecuteWithPriceAgrees(b);
    } else if b[0] == 0x58 {
      CancelAgrees(b);
    } else if b[0] == 0x44 {
      DeleteAgrees(b);
    } else {
      ReplaceAgrees(b);
    }
  }

  /**
   On all byte strings: the decoders agree exactly on the empty one, on those that start like a book-changing
   message, and on messages of another known type that have the right length. The handwritten decoder lets all
   other messages pass without an event; the generated one rejects unknown types and wrong lengths.
   */
  lemma DecodersAgreeIff(others: u8 -> Option<nat>, b: Data)
    ensures SameOutcome(Decode(others, b), DecodeByHand(b)) <==>
            b == [] || BookMessage(b[0]).Some? || others(b[0]) == Some(|b|)
  {
    if b != [] && BookMessage(b[0]).Some? {
      DecodersAgree(others, b);
    }
  }
}
