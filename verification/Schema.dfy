/**
 Message schemas: declarations, the layout that the compiler computes for them, and the accessors that
 it emits (tools/protocolc/main.cpp:86-160, 188-239).
 */
module Schema {
  import opened Types
  import opened Bytes

  datatype FieldType = U8 | Char | U16Be | U32Be | Price4 | U48Be | U64Be | Price8 | Ascii(chars: nat)

  /** Declarations, as a schema states them. */
  datatype FieldDecl = FieldDecl(name: string, ty: FieldType)

  datatype MessageDecl = MessageDecl(name: string, tag: char, fields: seq<FieldDecl>)

  datatype ProtocolDecl = ProtocolDecl(name: string, messages: seq<MessageDecl>)

  /** The compiler's own view, with widths, offsets and sizes filled in. */
  datatype Field = Field(name: string, ty: FieldType, width: nat, offset: nat)

  datatype Message = Message(name: string, tag: char, fields: seq<Field>, size: nat)

  datatype Protocol = Protocol(name: string, messages: seq<Message>)

  function Width(ty: FieldType): nat {
    match ty
    case U8 => 1
    case Char => 1
    case U16Be => 2
    case U32Be => 4
    case Price4 => 4
    case U48Be => 6
    case U64Be => 8
    case Price8 => 8
    case Ascii(n) => n
  }

  // ---------------------------------------------------------------- layout

  const WORD := 0x1_0000_0000_0000_0000

  /** The running size: one byte for the type, then the widths, in `size_t` arithmetic. */
  function Size(fs: seq<FieldDecl>): nat {
    if fs == [] then 1 else (Size(fs[..|fs| - 1]) + Width(fs[|fs| - 1].ty)) % WORD
  }

  function LaidOutFields(fs: seq<FieldDecl>): (r: seq<Field>)
    ensures |r| == |fs|
  {
    if fs == [] then []
    else
      var n := |fs| - 1;
      LaidOutFields(fs[..n]) + [Field(fs[n].name, fs[n].ty, Width(fs[n].ty), Size(fs[..n]))]
  }

  function LaidOut(m: MessageDecl): Message {
    Message(m.name, m.tag, LaidOutFields(m.fields), Size(m.fields))
  }

  function LaidOutAll(ms: seq<MessageDecl>): (r: seq<Message>)
    ensures |r| == |ms|
  {
    if ms == [] then [] else LaidOutAll(ms[..|ms| - 1]) + [LaidOut(ms[|ms| - 1])]
  }

  function Layout(p: ProtocolDecl): Protocol {
    Protocol(p.name, LaidOutAll(p.messages))
  }

  lemma {:induction false} LaidOutFieldAt(fs: seq<FieldDecl>, i: nat)
    requires i < |fs|
    ensures LaidOutFields(fs)[i] == Field(fs[i].name, fs[i].ty, Width(fs[i].ty), Size(fs[..i]))
  {
    var n := |fs| - 1;
    if i < n {
      LaidOutFieldAt(fs[..n], i);
      assert fs[..n][..i] == fs[..i];
    }
  }

  /** The true number of bytes that a message needs. */
  function TotalWidth(fs: seq<FieldDecl>): nat {
    if fs == [] then 1 else TotalWidth(fs[..|fs| - 1]) + Width(fs[|fs| - 1].ty)
  }

  function NextOffset(m: Message, i: nat): nat {
    if i + 1 < |m.fields| then m.fields[i + 1].offset else m.size
  }

  /** Field by field, each starts where the one before it ends, from the type byte to the message's end. */
  ghost predicate Tiles(m: Message) {
    && (forall i :: 0 <= i < |m.fields| ==> m.fields[i].offset + m.fields[i].width == NextOffset(m, i))
    && (if m.fields == [] then m.size == 1 else m.fields[0].offset == 1)
  }

  lemma {:induction false} TotalGrows(fs: seq<FieldDecl>, i: nat)
    requires i <= |fs|
    ensures TotalWidth(fs[..i]) <= TotalWidth(fs)
    decreases |fs| - i
  {
    if i == |fs| {
      assert fs[..i] == fs;
    } else {
      TotalGrows(fs, i + 1);
      assert fs[..i + 1][..i] == fs[..i];
    }
  }

  lemma {:induction false} SizeIsTotal(fs: seq<FieldDecl>)
    requires TotalWidth(fs) < WORD
    ensures Size(fs) == TotalWidth(fs)
  {
    if fs != [] {
      SizeIsTotal(fs[..|fs| - 1]);
    }
  }

  lemma SizeAfter(fs: seq<FieldDecl>, i: nat)
    requires i < |fs|
    ensures Size(fs[..i + 1]) == (Size(fs[..i]) + Width(fs[i].ty)) % WORD
  {
    assert fs[..i + 1][..i] == fs[..i];
  }

  lemma TilesIfFits(m: MessageDecl)
    requires TotalWidth(m.fields) < WORD
    ensures Tiles(LaidOut(m))
  {
    var fs := m.fields;
    SizeIsTotal(fs);
    forall i | 0 <= i < |fs| ensures Size(fs[..i]) + Width(fs[i].ty) == Size(fs[..i + 1]) {
      TotalGrows(fs, i);
      TotalGrows(fs, i + 1);
      SizeIsTotal(fs[..i]);
      SizeIsTotal(fs[..i + 1]);
      assert fs[..i + 1][..i] == fs[..i];
    }
    forall i | 0 <= i < |fs|
      ensures LaidOutFields(fs)[i] == Field(fs[i].name, fs[i].ty, Width(fs[i].ty), Size(fs[..i]))
    {
      LaidOutFieldAt(fs, i);
    }
    assert fs[..|fs|] == fs;
  }

  lemma {:induction false} TiledSizeIsTotal(m: MessageDecl, i: nat)
    requires Tiles(LaidOut(m)) && i <= |m.fields|
    ensures Size(m.fields[..i]) == TotalWidth(m.fields[..i])
  {
    var fs := m.fields;
    if i > 0 {
      TiledSizeIsTotal(m, i - 1);
      LaidOutFieldAt(fs, i - 1);
      if i < |fs| {
        LaidOutFieldAt(fs, i);
      } else {
        assert fs[..i] == fs;
      }
      assert fs[..i][..i - 1] == fs[..i - 1];
      var l := LaidOut(m);
      var j := i - 1;
      assert l.fields[j].offset + l.fields[j].width == NextOffset(l, j);
    }
  }

  lemma {:induction false} SizeBelowWord(fs: seq<FieldDecl>)
    ensures Size(fs) < WORD
  {
  }

  /** The fields tile the message exactly when the widths do not overflow the size. */
  lemma TilesIffFits(m: MessageDecl)
    ensures Tiles(LaidOut(m)) <==> TotalWidth(m.fields) < WORD
  {
    if TotalWidth(m.fields) < WORD {
      TilesIfFits(m);
    }
    if Tiles(LaidOut(m)) {
      TiledSizeIsTotal(m, |m.fields|);
      assert m.fields[..|m.fields|] == m.fields;
      SizeBelowWord(m.fields);
    }
  }

  const WIDE_FIELD := FieldDecl("f", Ascii(0xFFFF_FFFF_FFFF_FFFF))
  const WIDE_MESSAGE := MessageDecl("M", 'M', [WIDE_FIELD])

  /** A layout that overflows: the message is said to have no bytes. */
  lemma WideMessageOverflows()
    ensures LaidOut(WIDE_MESSAGE).size == 0 && !Tiles(LaidOut(WIDE_MESSAGE))
  {
    var f := WIDE_FIELD;
    assert [f][..0] == [];
    assert Size([f]) == 0;
    TilesIffFits(WIDE_MESSAGE);
    assert TotalWidth([f]) == TotalWidth([]) + Width(f.ty);
  }

  // ---------------------------------------------------------------- emitted accessors

  /** The expression that the compiler emits for a field. */
  datatype Accessor =
    | ReadByte(offset: nat)
    | Read16(offset: nat)
    | Read32(offset: nat)
    | Read48(offset: nat)
    | Read64(offset: nat)
    | ReadCharacter(offset: nat)
    | ReadView(offset: nat, width: nat)

  function AccessorFor(f: Field): Accessor {
    match f.ty
    case U8 => ReadByte(f.offset)
    case U16Be => Read16(f.offset)
    case U32Be => Read32(f.offset)
    case Price4 => Read32(f.offset)
    case U48Be => Read48(f.offset)
    case U64Be => Read64(f.offset)
    case Price8 => Read64(f.offset)
    case Char => ReadCharacter(f.offset)
    case Ascii(_) => ReadView(f.offset, f.width)
  }

  datatype Value = Number(n: nat) | Character(c: u8) | Text(text: Data)

  function AsNumber(r: Result<nat>): Result<Value> {
    if r.Ok? then Ok(Number(r.value)) else Err(r.error)
  }

  /** Running an accessor with the bounds-checked readers. */
  function Eval(a: Accessor, b: Data): Result<Value> {
    match a
    case ReadByte(o) => AsNumber(ReadU8(b, o))
    case Read16(o) => AsNumber(ReadU16(b, o))
    case Read32(o) => AsNumber(ReadU32(b, o))
    case Read48(o) => AsNumber(ReadNumber(b, o, 6))
    case Read64(o) => AsNumber(ReadNumber(b, o, 8))
    case ReadCharacter(o) => (var r := ReadU8(b, o); if r.Ok? then Ok(Character(r.value)) else Err(r.error))
    case ReadView(o, w) => (var r := ReadText(b, o, w); if r.Ok? then Ok(Text(r.value)) else Err(r.error))
  }

  /** What the schema says that the bytes of a field mean. */
  function Meaning(ty: FieldType, bytes: Data): Value
    requires |bytes| == Width(ty)
  {
    match ty
    case Char => Character(bytes[0])
    case Ascii(_) => Text(bytes)
    case _ => Number(BigEndian(bytes))
  }

  /** The check that a generated view makes when it is constructed. */
  predicate ViewAccepts(m: Message, b: Data) {
    |b| == m.size && |b| > 0 && b[0] as int == m.tag as int
  }

  /** The bytes of a field, by the schema: its width, after the type byte and the widths before it. */
  function FieldBytes(fs: seq<FieldDecl>, i: nat, b: Data): (r: Data)
    requires i < |fs| && TotalWidth(fs) <= |b|
    ensures |r| == Width(fs[i].ty)
  {
    TotalGrows(fs, i + 1);
    assert fs[..i + 1][..i] == fs[..i];
    b[TotalWidth(fs[..i])..TotalWidth(fs[..i]) + Width(fs[i].ty)]
  }

  /** Every type has an accessor, and inside the bytes it reads what the type means. */
  lemma AccessorReads(f: Field, b: Data)
    requires f.width == Width(f.ty) && Has(b, f.offset, f.width)
    ensures Eval(AccessorFor(f), b) == Ok(Meaning(f.ty, b[f.offset..f.offset + f.width]))
  {
    SmallReadersRead(b, f.offset);
  }

  /** Every emitted accessor, on bytes that the view accepts, gives the field's meaning and never fails. */
  lemma AccessorCorrect(m: MessageDecl, i: nat, b: Data)
    requires i < |m.fields| && TotalWidth(m.fields) < WORD && ViewAccepts(LaidOut(m), b)
    ensures TotalWidth(m.fields) <= |b|
    ensures Eval(AccessorFor(LaidOut(m).fields[i]), b) == Ok(Meaning(m.fields[i].ty, FieldBytes(m.fields, i, b)))
  {
    var fs := m.fields;
    SizeIsTotal(fs);
    TotalGrows(fs, i);
    TotalGrows(fs, i + 1);
    SizeIsTotal(fs[..i]);
    assert fs[..i + 1][..i] == fs[..i];
    LaidOutFieldAt(fs, i);
    AccessorReads(LaidOut(m).fields[i], b);
  }

  function AllFieldBytes(fs: seq<FieldDecl>, n: nat, b: Data): Data
    requires n <= |fs| && TotalWidth(fs) <= |b|
  {
    if n == 0 then [] else AllFieldBytes(fs, n - 1, b) + FieldBytes(fs, n - 1, b)
  }

  /** The fields' bytes, put together, are all the bytes after the type. */
  lemma {:induction false} FieldsMakeUpMessage(fs: seq<FieldDecl>, n: nat, b: Data)
    requires n <= |fs| && TotalWidth(fs) <= |b|
    ensures TotalWidth(fs[..n]) <= |b|
    ensures 1 <= TotalWidth(fs[..n]) && AllFieldBytes(fs, n, b) == b[1..TotalWidth(fs[..n])]
  {
    TotalGrows(fs, n);
    if n > 0 {
      FieldsMakeUpMessage(fs, n - 1, b);
      assert fs[..n][..n - 1] == fs[..n - 1];
    }
  }
}
