/**
 Printing a protocol as a schema text. Whatever blanks and comments go between the tokens, parsing gives the
 protocol back.
 */
module SchemaPrinter {
  import opened Types
  import opened Sequences
  import opened SchemaText
  import opened Schema
  import opened SchemaGrammar

  function Digit(n: nat): char
    requires n < 10
  {
    '0' + n as char
  }

  function Decimal(n: nat): string {
    if n < 10 then [Digit(n)] else Decimal(n / 10) + [Digit(n % 10)]
  }

  lemma OneMoreDigit(text: string, n: nat)
    requires n < 10
    ensures NatOf(text + [Digit(n)]) == 10 * NatOf(text) + n
    ensures (text == [] || LegalToken(Numeral(text))) ==> LegalToken(Numeral(text + [Digit(n)]))
  {
    ButLastOfConcat(text, [Digit(n)]);
    NothingAfter(text);
  }

  lemma {:induction false} DecimalReads(n: nat)
    ensures NatOf(Decimal(n)) == n && LegalToken(Numeral(Decimal(n)))
  {
    if n < 10 {
      OneMoreDigit([], n);
      NothingBefore([Digit(n)]);
    } else {
      DecimalReads(n / 10);
      OneMoreDigit(Decimal(n / 10), n % 10);
    }
  }

  function TypeName(ty: FieldType): string {
    match ty
    case U8 => "u8"
    case Char => "char"
    case U16Be => "u16_be"
    case U32Be => "u32_be"
    case Price4 => "price4"
    case U48Be => "u48_be"
    case U64Be => "u64_be"
    case Price8 => "price8"
    case Ascii(_) => "ascii"
  }

  function TypeTokens(ty: FieldType): (ts: seq<Token>)
    ensures |ts| == TypeLength(ty)
  {
    if ty.Ascii? then [Ident("ascii"), LBracket, Numeral(Decimal(ty.chars)), RBracket] else [Ident(TypeName(ty))]
  }

  function FieldTokens(f: FieldDecl): (ts: seq<Token>)
    ensures |ts| == FieldLength(f)
  {
    [Ident(f.name), Colon] + TypeTokens(f.ty) + [Semicolon]
  }

  function FieldsTokens(fs: seq<FieldDecl>): seq<Token> {
    if fs == [] then [] else FieldTokens(fs[0]) + FieldsTokens(fs[1..])
  }

  function HeadTokens(m: MessageDecl): seq<Token> {
    [Ident("message"), Ident(m.name), Quoted([m.tag]), LBrace]
  }

  function MessageTokens(m: MessageDecl): seq<Token> {
    HeadTokens(m) + FieldsTokens(m.fields) + [RBrace]
  }

  function MessagesTokens(ms: seq<MessageDecl>): seq<Token> {
    if ms == [] then [] else MessageTokens(ms[0]) + MessagesTokens(ms[1..])
  }

  function ProtocolTokens(p: ProtocolDecl): seq<Token> {
    [Ident("protocol"), Ident(p.name), Semicolon] + MessagesTokens(p.messages)
  }

  // ---------------------------------------------------------------- the tokens spell the protocol

  lemma TypeSpelled(ty: FieldType, rest: seq<Token>)
    ensures StartsType(TypeTokens(ty) + rest, ty)
  {
    var ts := TypeTokens(ty) + rest;
    if ty.Ascii? {
      DecimalReads(ty.chars);
      assert StartsWidth(ts[1..], ty.chars);
    }
  }

  lemma FieldSpelled(f: FieldDecl, rest: seq<Token>)
    ensures StartsField(FieldTokens(f) + rest, f) && (FieldTokens(f) + rest)[FieldLength(f)..] == rest
  {
    var ts := FieldTokens(f) + rest;
    TypeSpelled(f.ty, [Semicolon] + rest);
    assert ts[2..] == TypeTokens(f.ty) + ([Semicolon] + rest);
  }

  lemma {:induction false} FieldsSpelled(fs: seq<FieldDecl>, rest: seq<Token>)
    ensures SpellsFields(FieldsTokens(fs) + rest, fs, rest)
  {
    if fs == [] {
      assert FieldsTokens(fs) + rest == rest;
    } else {
      FieldsSpelled(fs[1..], rest);
      FieldSpelled(fs[0], FieldsTokens(fs[1..]) + rest);
      Assoc(FieldTokens(fs[0]), FieldsTokens(fs[1..]), rest);
    }
  }

  lemma MessageSpelled(m: MessageDecl, rest: seq<Token>)
    ensures SpellsMessage(MessageTokens(m) + rest, m, rest)
  {
    var head, fields := HeadTokens(m), FieldsTokens(m.fields);
    FieldsSpelled(m.fields, [RBrace] + rest);
    Assoc(head + fields, [RBrace], rest);
    Assoc(head, fields, [RBrace] + rest);
    assert (head + (fields + ([RBrace] + rest)))[4..] == fields + ([RBrace] + rest);
  }

  lemma {:induction false} MessagesSpelled(ms: seq<MessageDecl>)
    ensures SpellsMessages(MessagesTokens(ms), ms)
  {
    if ms != [] {
      var ts, rest := MessagesTokens(ms), MessagesTokens(ms[1..]);
      MessagesSpelled(ms[1..]);
      MessageSpelled(ms[0], rest);
      MessageSpan(ts, ms[0], rest);
    }
  }

  lemma ProtocolSpelled(p: ProtocolDecl)
    ensures Spells(ProtocolTokens(p), p)
  {
    assert SpellsMessages(ProtocolTokens(p)[3..], p.messages) by {
      MessagesSpelled(p.messages);
      assert ProtocolTokens(p)[3..] == MessagesTokens(p.messages);
    }
  }

  /** Print and parse: any legal blanks and comments between the tokens of a well-formed protocol are ignored. */
  lemma PrintedParsesBack(p: ProtocolDecl, ps: seq<Piece>, tail: Tail)
    requires WellFormedProtocol(p) && Legal(ps, tail) && Tokens(ps) == ProtocolTokens(p)
    ensures ParseText(Print(ps, tail)) == Accepted(p)
  {
    ProtocolSpelled(p);
    assert Writes(Print(ps, tail), p);
    AcceptsExactlyWritten(Print(ps, tail), p);
  }

  // ---------------------------------------------------------------- every protocol can be printed

  predicate LegalNames(p: ProtocolDecl) {
    && LegalToken(Ident(p.name))
    && forall i :: 0 <= i < |p.messages| ==> LegalMessageNames(p.messages[i])
  }

  predicate LegalMessageNames(m: MessageDecl) {
    && LegalToken(Ident(m.name)) && LegalToken(Quoted([m.tag]))
    && forall i :: 0 <= i < |m.fields| ==> LegalToken(Ident(m.fields[i].name))
  }

  predicate AllLegal(ts: seq<Token>) {
    forall t :: t in ts ==> LegalToken(t)
  }

  lemma TypeTokensLegal(ty: FieldType)
    ensures AllLegal(TypeTokens(ty))
  {
    if ty.Ascii? {
      DecimalReads(ty.chars);
    }
  }

  lemma FieldTokensLegal(f: FieldDecl)
    requires LegalToken(Ident(f.name))
    ensures AllLegal(FieldTokens(f))
  {
    TypeTokensLegal(f.ty);
  }

  lemma {:induction false} FieldsTokensLegal(fs: seq<FieldDecl>)
    requires forall i :: 0 <= i < |fs| ==> LegalToken(Ident(fs[i].name))
    ensures AllLegal(FieldsTokens(fs))
  {
    if fs != [] {
      FieldTokensLegal(fs[0]);
      FieldsTokensLegal(fs[1..]);
    }
  }

  lemma MessageTokensLegal(m: MessageDecl)
    requires LegalMessageNames(m)
    ensures AllLegal(MessageTokens(m))
  {
    FieldsTokensLegal(m.fields);
    assert AllLegal(HeadTokens(m));
  }

  lemma {:induction false} MessagesTokensLegal(ms: seq<MessageDecl>)
    requires forall i :: 0 <= i < |ms| ==> LegalMessageNames(ms[i])
    ensures AllLegal(MessagesTokens(ms))
  {
    if ms != [] {
      MessageTokensLegal(ms[0]);
      MessagesTokensLegal(ms[1..]);
    }
  }

  const ONE_SPACE := [Space(' ')]
  const NO_TAIL := Tail([], None)

  function Spaced(ts: seq<Token>): (ps: seq<Piece>)
    ensures |ps| == |ts|
  {
    if ts == [] then [] else [Piece(ONE_SPACE, ts[0])] + Spaced(ts[1..])
  }

  lemma {:induction false} SpacedIsLegal(ts: seq<Token>)
    requires AllLegal(ts)
    ensures Legal(Spaced(ts), NO_TAIL) && Tokens(Spaced(ts)) == ts
  {
    if ts != [] {
      SpacedIsLegal(ts[1..]);
      assert |ts| > 1 ==> Spaced(ts)[1] == Spaced(ts[1..])[0];
    }
  }

  /** A protocol's plain text: its tokens, each after one space. */
  function Render(p: ProtocolDecl): string {
    Print(Spaced(ProtocolTokens(p)), NO_TAIL)
  }

  /** Every well-formed protocol with legal names has a text, and that text parses back to it. */
  lemma RenderedParsesBack(p: ProtocolDecl)
    requires WellFormedProtocol(p) && LegalNames(p)
    ensures ParseText(Render(p)) == Accepted(p)
  {
    assert AllLegal(ProtocolTokens(p)) by {
      MessagesTokensLegal(p.messages);
    }
    SpacedIsLegal(ProtocolTokens(p));
    PrintedParsesBack(p, Spaced(ProtocolTokens(p)), NO_TAIL);
  }

  /** A schema text that the parser accepts although the size of its message overflows to 0. */
  lemma OverflowingSchema()
    ensures var p := ProtocolDecl("P", [WIDE_MESSAGE]);
            && ParseText(Render(p)) == Accepted(p)
            && LaidOut(p.messages[0]).size == 0 && !Tiles(LaidOut(p.messages[0]))
  {
    RenderedParsesBack(ProtocolDecl("P", [WIDE_MESSAGE]));
    WideMessageOverflows();
  }
}
