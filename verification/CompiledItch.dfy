/**
 The ITCH decoder built from a compiled schema text (src/itch_decoder.cpp:31-84 on the code that tools/protocolc
 emits): views and accessors are found by name, and sizes by the emitted switch.
 */
module CompiledItch {
  import opened Types
  import opened Bytes
  import opened MoldUdp64
  import opened Schema
  import opened SchemaText
  import opened SchemaGrammar
  import opened ProtocolCompiler
  import opened Itch
  import opened Delivery

  // ---------------------------------------------------------------- calls by name

  function FieldNamed(fs: seq<Field>, name: string): Option<Field> {
    if fs == [] then None else if fs[0].name == name then Some(fs[0]) else FieldNamed(fs[1..], name)
  }

  function ViewNamed(ms: seq<Message>, name: string): Option<Message> {
    if ms == [] then None else if ms[0].name == name then Some(ms[0]) else ViewNamed(ms[1..], name)
  }

  function Member16(v: Message, name: string, b: Data): Result<u16> {
    if FieldNamed(v.fields, name).Some? then Call16(FieldNamed(v.fields, name).value, b) else Err(UnsupportedType)
  }

  function Member32(v: Message, name: string, b: Data): Result<u32> {
    if FieldNamed(v.fields, name).Some? then Call32(FieldNamed(v.fields, name).value, b) else Err(UnsupportedType)
  }

  function Member64(v: Message, name: string, b: Data): Result<u64> {
    if FieldNamed(v.fields, name).Some? then Call64(FieldNamed(v.fields, name).value, b) else Err(UnsupportedType)
  }

  function MemberChar(v: Message, name: string, b: Data): Result<u8> {
    if FieldNamed(v.fields, name).Some? then CallChar(FieldNamed(v.fields, name).value, b) else Err(UnsupportedType)
  }

  function MemberText(v: Message, name: string, b: Data): Result<Data> {
    if FieldNamed(v.fields, name).Some? then CallText(FieldNamed(v.fields, name).value, b) else Err(UnsupportedType)
  }

  // ---------------------------------------------------------------- the decoder

  function HeadFrom(v: Message, b: Data): Result<EventMeta> {
    MetaOf(Member16(v, "stock_locate", b), Member16(v, "tracking_number", b), Member64(v, "timestamp", b))
  }

  function AddFrom(v: Message, b: Data): Result<MarketEvent> {
    AddOf(HeadFrom(v, b), Member64(v, "order_reference", b), MemberText(v, "stock", b), MemberChar(v, "side", b),
          Member32(v, "shares", b), Member32(v, "price", b))
  }

  function ExecuteFrom(v: Message, b: Data, priced: bool): Result<MarketEvent> {
    ExecuteOf(HeadFrom(v, b), Member64(v, "order_reference", b), Member32(v, "executed_shares", b),
              Member64(v, "match_number", b), priced,
              if priced then Member32(v, "execution_price", b) else Ok(0),
              if priced then MemberChar(v, "printable", b) else Ok(0x59))
  }

  function CancelFrom(v: Message, b: Data): Result<MarketEvent> {
    CancelOf(HeadFrom(v, b), Member64(v, "order_reference", b), Member32(v, "canceled_shares", b))
  }

  function DeleteFrom(v: Message, b: Data): Result<MarketEvent> {
    DeleteOf(HeadFrom(v, b), Member64(v, "order_reference", b))
  }

  function ReplaceFrom(v: Message, b: Data): Result<MarketEvent> {
    ReplaceOf(HeadFrom(v, b), Member64(v, "original_order_reference", b), Member64(v, "new_order_reference", b),
              Member32(v, "shares", b), Member32(v, "price", b))
  }

  function EventFrom(v: Message, b: Data): Result<MarketEvent>
    requires b != []
  {
    if !ViewAccepts(v, b) then Err(LengthMismatch)
    else if b[0] == 0x41 || b[0] == 0x46 then AddFrom(v, b)
    else if b[0] == 0x45 then ExecuteFrom(v, b, false)
    else if b[0] == 0x43 then ExecuteFrom(v, b, true)
    else if b[0] == 0x58 then CancelFrom(v, b)
    else if b[0] == 0x44 then DeleteFrom(v, b)
    else ReplaceFrom(v, b)
  }

  /** The emitted `message_size`, on bytes. */
  function Sizes(p: Protocol): u8 -> Option<nat> {
    (tag: u8) => MessageSize(p.messages, tag as char)
  }

  /** `decode_book_event` on the code compiled from a schema. */
  function DecodeCompiled(p: Protocol, b: Data): Result<Option<MarketEvent>> {
    if b == [] then Err(EmptyMessage)
    else if Sizes(p)(b[0]).None? then Err(Failure.UnsupportedType)
    else if |b| != Sizes(p)(b[0]).value then Err(LengthMismatch)
    else if BookMessage(b[0]).None? then Ok(None)
    else
      var v := ViewNamed(p.messages, BookMessage(b[0]).value.name);
      if v.None? then Err(Failure.UnsupportedType)
      else
        var r := EventFrom(v.value, b);
        if r.Ok? then Ok(Some(r.value)) else Err(r.error)
  }

  // ---------------------------------------------------------------- names find what was declared

  lemma {:induction false} FieldFound(fs: seq<Field>, i: nat)
    requires i < |fs| && forall j :: 0 <= j < i ==> fs[j].name != fs[i].name
    ensures FieldNamed(fs, fs[i].name) == Some(fs[i])
  {
    if i > 0 {
      assert forall j :: 0 <= j < i - 1 ==> fs[1..][j].name == fs[j + 1].name;
      FieldFound(fs[1..], i - 1);
    }
  }

  lemma {:induction false} ViewFound(ms: seq<Message>, i: nat)
    requires i < |ms| && forall j :: 0 <= j < i ==> ms[j].name != ms[i].name
    ensures ViewNamed(ms, ms[i].name) == Some(ms[i])
  {
    if i > 0 {
      assert forall j :: 0 <= j < i - 1 ==> ms[1..][j].name == ms[j + 1].name;
      ViewFound(ms[1..], i - 1);
    }
  }

  /** In a laid-out message whose field names differ, a name finds its own field. */
  lemma FieldByName(m: MessageDecl, i: nat)
    requires WellFormedFields(m.fields) && i < |m.fields|
    ensures FieldNamed(LaidOut(m).fields, m.fields[i].name) == Some(LaidOut(m).fields[i])
  {
    var fs := LaidOutFields(m.fields);
    forall j | 0 <= j <= i ensures fs[j].name == m.fields[j].name {
      LaidOutFieldAt(m.fields, j);
    }
    FieldFound(fs, i);
  }

  /** In a compiled protocol, the name of a declared message finds its layout. */
  lemma ViewByName(d: ProtocolDecl, m: MessageDecl)
    requires WellFormedProtocol(d) && m in d.messages
    ensures ViewNamed(Layout(d).messages, m.name) == Some(LaidOut(m))
  {
    var i :| 0 <= i < |d.messages| && d.messages[i] == m;
    var ms := LaidOutAll(d.messages);
    forall j | 0 <= j <= i ensures ms[j].name == d.messages[j].name && ms[i] == LaidOut(m) {
      LaidOutAt(d.messages, j);
      LaidOutAt(d.messages, i);
    }
    ViewFound(ms, i);
  }

  // ---------------------------------------------------------------- calls by name are reads by place

  predicate Calls(m: MessageDecl, i: nat, name: string) {
    i < |m.fields| && m.fields[i].name == name
  }

  predicate HeadNames(m: MessageDecl) {
    Calls(m, 0, "stock_locate") && Calls(m, 1, "tracking_number") && Calls(m, 2, "timestamp")
  }

  predicate AddNames(m: MessageDecl) {
    && HeadNames(m) && Calls(m, 3, "order_reference") && Calls(m, 4, "side") && Calls(m, 5, "shares")
    && Calls(m, 6, "stock") && Calls(m, 7, "price")
  }

  predicate ExecuteNames(m: MessageDecl) {
    HeadNames(m) && Calls(m, 3, "order_reference") && Calls(m, 4, "executed_shares") && Calls(m, 5, "match_number")
  }

  predicate PriceNames(m: MessageDecl) {
    ExecuteNames(m) && Calls(m, 6, "printable") && Calls(m, 7, "execution_price")
  }

  predicate CancelNames(m: MessageDecl) {
    HeadNames(m) && Calls(m, 3, "order_reference") && Calls(m, 4, "canceled_shares")
  }

  predicate DeleteNames(m: MessageDecl) {
    HeadNames(m) && Calls(m, 3, "order_reference")
  }

  predicate ReplaceNames(m: MessageDecl) {
    && HeadNames(m) && Calls(m, 3, "original_order_reference") && Calls(m, 4, "new_order_reference")
    && Calls(m, 5, "shares") && Calls(m, 6, "price")
  }

  /** The names that the decoder relies on, by message type. */
  predicate NamesFor(m: MessageDecl) {
    match m.tag
    case 'A' => AddNames(m)
    case 'F' => AddNames(m)
    case 'E' => ExecuteNames(m)
    case 'C' => PriceNames(m)
    case 'X' => CancelNames(m)
    case 'D' => DeleteNames(m)
    case 'U' => ReplaceNames(m)
    case _ => false
  }

  lemma BookMessageNames(tag: u8)
    requires BookMessage(tag).Some?
    ensures NamesFor(BookMessage(tag).value) && BookMessage(tag).value.tag == tag as char
  {
  }

  lemma HeadFromIs(m: MessageDecl, b: Data)
    requires WellFormedFields(m.fields) && HeadNames(m)
    ensures HeadFrom(LaidOut(m), b) == HeadOf(m, b)
  {
    FieldByName(m, 0);
    FieldByName(m, 1);
    FieldByName(m, 2);
  }

  lemma AddFromIs(m: MessageDecl, b: Data)
    requires b != [] && m.tag == b[0] as char && (m.tag == 'A' || m.tag == 'F')
    requires WellFormedFields(m.fields) && AddNames(m)
    ensures EventFrom(LaidOut(m), b) == EventVia(m, b)
  {
    HeadFromIs(m, b);
    FieldByName(m, 3);
    FieldByName(m, 4);
    FieldByName(m, 5);
    FieldByName(m, 6);
    FieldByName(m, 7);
  }

  lemma ExecuteFromIs(m: MessageDecl, b: Data)
    requires b != [] && m.tag == b[0] as char && m.tag == 'E' && WellFormedFields(m.fields) && ExecuteNames(m)
    ensures EventFrom(LaidOut(m), b) == EventVia(m, b)
  {
    HeadFromIs(m, b);
    FieldByName(m, 3);
    FieldByName(m, 4);
    FieldByName(m, 5);
  }

  lemma ExecuteWithPriceFromIs(m: MessageDecl, b: Data)
    requires b != [] && m.tag == b[0] as char && m.tag == 'C' && WellFormedFields(m.fields) && PriceNames(m)
    ensures EventFrom(LaidOut(m), b) == EventVia(m, b)
  {
    HeadFromIs(m, b);
    FieldByName(m, 3);
    FieldByName(m, 4);
    FieldByName(m, 5);
    FieldByName(m, 6);
    FieldByName(m, 7);
  }

  lemma CancelFromIs(m: MessageDecl, b: Data)
    requires b != [] && m.tag == b[0] as char && m.tag == 'X' && WellFormedFields(m.fields) && CancelNames(m)
    ensures EventFrom(LaidOut(m), b) == EventVia(m, b)
  {
    HeadFromIs(m, b);
    FieldByName(m, 3);
    FieldByName(m, 4);
  }

  lemma DeleteFromIs(m: MessageDecl, b: Data)
    requires b != [] && m.tag == b[0] as char && m.tag == 'D' && WellFormedFields(m.fields) && DeleteNames(m)
    ensures EventFrom(LaidOut(m), b) == EventVia(m, b)
  {
    HeadFromIs(m, b);
    FieldByName(m, 3);
  }

  lemma ReplaceFromIs(m: MessageDecl, b: Data)
    requires b != [] && m.tag == b[0] as char && m.tag == 'U' && WellFormedFields(m.fields) && ReplaceNames(m)
    ensures EventFrom(LaidOut(m), b) == EventVia(m, b)
  {
    HeadFromIs(m, b);
    FieldByName(m, 3);
    FieldByName(m, 4);
    FieldByName(m, 5);
    FieldByName(m, 6);
  }

  /** Calling accessors by name gives what reading the fields by their places gives. */
  lemma EventFromIs(m: MessageDecl, b: Data)
    requires b != [] && m.tag == b[0] as char && WellFormedFields(m.fields) && NamesFor(m)
    ensures |m.fields| >= FieldsNeeded(m.tag) && EventFrom(LaidOut(m), b) == EventVia(m, b)
  {
    match m.tag
    case 'A' => AddFromIs(m, b);
    case 'F' => AddFromIs(m, b);
    case 'E' => ExecuteFromIs(m, b);
    case 'C' => ExecuteWithPriceFromIs(m, b);
    case 'X' => CancelFromIs(m, b);
    case 'D' => DeleteFromIs(m, b);
    case 'U' => ReplaceFromIs(m, b);
  }

  // ---------------------------------------------------------------- agreement

  /** The schema declares the seven book-changing messages as schemas/itch50.efe does; it may declare others. */
  ghost predicate DeclaresBookMessages(d: ProtocolDecl) {
    forall tag: u8 :: BookMessage(tag).Some? ==> BookMessage(tag).value in d.messages
  }

  lemma DeclaredSize(s: string, d: ProtocolDecl, m: MessageDecl)
    requires ParseText(s) == Accepted(d) && m in d.messages
    ensures MessageSize(Layout(d).messages, m.tag) == Some(LaidOut(m).size)
  {
    var i :| 0 <= i < |d.messages| && d.messages[i] == m;
    MessageSizesRight(s, d, m.tag);
  }

  lemma DeclaredDecodes(s: string, d: ProtocolDecl, m: MessageDecl, b: Data)
    requires ParseText(s) == Accepted(d) && m in d.messages && NamesFor(m) && b != [] && m.tag == b[0] as char
    ensures Sizes(Layout(d))(b[0]) == Some(LaidOut(m).size)
    ensures ViewNamed(Layout(d).messages, m.name) == Some(LaidOut(m))
    ensures |m.fields| >= FieldsNeeded(m.tag) && EventFrom(LaidOut(m), b) == EventVia(m, b)
  {
    DeclaredSize(s, d, m);
    AcceptsExactlyWritten(s, d);
    ViewByName(d, m);
    EventFromIs(m, b);
  }

  /** Compiling any text that declares the book messages gives the decoder that reads them by their layout. */
  lemma CompiledDecodes(s: string, d: ProtocolDecl, b: Data)
    requires ParseText(s) == Accepted(d) && DeclaresBookMessages(d)
    ensures DecodeCompiled(Layout(d), b) == Decode(Sizes(Layout(d)), b)
  {
    if b != [] && BookMessage(b[0]).Some? {
      var m := BookMessage(b[0]).value;
      BookMessageNames(b[0]);
      DeclaredDecodes(s, d, m, b);
      assert Validate(Sizes(Layout(d)), b) == if |b| != LaidOut(m).size then Some(LengthMismatch) else None;
    }
  }

  /** From schema text to events: the compiled decoder and the handwritten one agree on every book-changing message. */
  lemma CompiledAgreesByHand(s: string, d: ProtocolDecl, b: Data)
    requires ParseText(s) == Accepted(d) && DeclaresBookMessages(d) && b != [] && BookMessage(b[0]).Some?
    ensures SameOutcome(DecodeCompiled(Layout(d), b), DecodeByHand(b))
  {
    CompiledDecodes(s, d, b);
    DecodersAgree(Sizes(Layout(d)), b);
  }

  // ---------------------------------------------------------------- whole lists of messages

  /** Decoders that agree message by message agree on a whole list. */
  lemma {:induction false} AgreeingDecoders(decoder: Decoder, decoder': Decoder, ms: seq<MoldMessage>)
    requires forall i :: 0 <= i < |ms| ==> SameOutcome(decoder(ms[i].payload), decoder'(ms[i].payload))
    ensures if Events(decoder, ms).Ok? then Events(decoder', ms) == Events(decoder, ms) else Events(decoder', ms).Err?
  {
    if ms != [] {
      AgreeingDecoders(decoder, decoder', ms[..|ms| - 1]);
      assert SameOutcome(decoder(ms[|ms| - 1].payload), decoder'(ms[|ms| - 1].payload));
    }
  }

  function CompiledDecoder(p: Protocol): Decoder {
    b => DecodeCompiled(p, b)
  }

  function HandwrittenDecoder(): Decoder {
    b => DecodeByHand(b)
  }

  lemma EitherDecoderSame(s: string, d: ProtocolDecl, b: Data)
    requires ParseText(s) == Accepted(d) && DeclaresBookMessages(d) && b != [] && BookMessage(b[0]).Some?
    ensures SameOutcome(CompiledDecoder(Layout(d))(b), HandwrittenDecoder()(b))
  {
    CompiledAgreesByHand(s, d, b);
  }

  /**
   On any list of book-changing messages, the compiled and the handwritten decoder give the same events, or both
   fail.
   */
  lemma EitherDecoderSameEvents(s: string, d: ProtocolDecl, ms: seq<MoldMessage>)
    requires ParseText(s) == Accepted(d) && DeclaresBookMessages(d)
    requires forall i :: 0 <= i < |ms| ==> ms[i].payload != [] && BookMessage(ms[i].payload[0]).Some?
    ensures if Events(CompiledDecoder(Layout(d)), ms).Ok?
            then Events(HandwrittenDecoder(), ms) == Events(CompiledDecoder(Layout(d)), ms)
            else Events(HandwrittenDecoder(), ms).Err?
  {
    var compiled, byHand := CompiledDecoder(Layout(d)), HandwrittenDecoder();
    forall i | 0 <= i < |ms| ensures SameOutcome(compiled(ms[i].payload), byHand(ms[i].payload)) {
      EitherDecoderSame(s, d, ms[i].payload);
    }
    AgreeingDecoders(compiled, byHand, ms);
  }
}
