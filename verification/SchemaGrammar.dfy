/**
 The grammar of schemas (tools/protocolc/main.cpp:105-180): the parser as functions of the text that is
 left, and the proof that it accepts exactly the written forms of well-formed protocols.
 */
module SchemaGrammar {
  import opened Types
  import opened Sequences
  import opened SchemaText
  import opened Schema

  // ---------------------------------------------------------------- a text as tokens

  /** The tokens of a text, up to its end or to the first error. */
  datatype Stream = Stream(tokens: seq<Token>, error: Option<SchemaError>)

  function Scan(s: string): Stream
    decreases |s|
  {
    match Next(s)
    case Rejected(e) => Stream([], Some(e))
    case Accepted((t, rest)) =>
      NextConsumes(s);
      if t == End then Stream([], None) else Before(t, Scan(rest))
  }

  function Before(t: Token, c: Stream): Stream {
    Stream([t] + c.tokens, c.error)
  }

  lemma {:induction false} WrittenIsRead(ps: seq<Piece>, tail: Tail)
    requires Legal(ps, tail)
    ensures Scan(Print(ps, tail)) == Stream(Tokens(ps), None)
  {
    if ps == [] {
      SkipsTail(tail);
    } else {
      WrittenIsRead(ps[1..], tail);
      PieceStops(ps[0].token, ps[1..], tail);
      ReadsPiece(ps[0], Print(ps[1..], tail));
    }
  }

  lemma UngluedWhereStopped(t: Token, u: Token, rest: string)
    requires LegalToken(u) && Stops(t, TokenText(u) + rest)
    ensures !Glue(t, u)
  {
    if u.Numeral? {
      assert u.text[0] in u.text;
    }
  }

  /** A first piece, with the blanks that were skipped in front of it. */
  lemma FirstPiece(s: string) returns (p: Piece)
    requires Next(s).Accepted? && Next(s).value.0 != End
    ensures p.token == Next(s).value.0 && LegalGap(p.gap) && LegalToken(p.token) && Stops(p.token, Next(s).value.1)
    ensures s == GapText(p.gap) + TokenText(p.token) + Next(s).value.1
  {
    var t := SkippedBlank(s);
    LexemeWritten(SkipBlank(s));
    p := Piece(t.gap, Next(s).value.0);
    assert TailText(t) == GapText(p.gap);
  }

  lemma LegalStep(p: Piece, more: seq<Piece>, tail: Tail)
    requires LegalGap(p.gap) && LegalToken(p.token) && Legal(more, tail) && Stops(p.token, Print(more, tail))
    ensures Legal([p] + more, tail)
    ensures Print([p] + more, tail) == GapText(p.gap) + TokenText(p.token) + Print(more, tail)
    ensures Tokens([p] + more) == [p.token] + Tokens(more)
  {
    assert ([p] + more)[1..] == more;
    if more != [] && more[0].gap == [] {
      assert GapText(more[0].gap) + TokenText(more[0].token) == TokenText(more[0].token);
      UngluedWhereStopped(p.token, more[0].token, Print(more[1..], tail));
    }
  }

  lemma {:induction false} ReadWasWritten(s: string) returns (ps: seq<Piece>, tail: Tail)
    requires Scan(s).error.None?
    ensures Legal(ps, tail) && s == Print(ps, tail) && Scan(s).tokens == Tokens(ps)
    decreases |s|
  {
    if Next(s).value.0 == End {
      ps := [];
      tail := SkippedBlank(s);
      assert s == TailText(tail);
    } else {
      NextConsumes(s);
      var p := FirstPiece(s);
      var more;
      more, tail := ReadWasWritten(Next(s).value.1);
      LegalStep(p, more, tail);
      ps := [p] + more;
    }
  }

  // ---------------------------------------------------------------- the parser

  function Current(c: Stream): Token {
    if c.tokens == [] then End else c.tokens[0]
  }

  /** A stream whose next token, or end, has been read without an error. */
  predicate Fine(c: Stream) {
    c.tokens == [] ==> c.error.None?
  }

  function Check(c: Stream): Outcome<Stream> {
    if c.tokens == [] && c.error.Some? then Rejected(c.error.value) else Accepted(c)
  }

  function KindOf(t: Token): Token {
    match t
    case Ident(_) => IDENT
    case Quoted(_) => QUOTED
    case Numeral(_) => NUMERAL
    case _ => t
  }

  const IDENT := Ident("")
  const QUOTED := Quoted("")
  const NUMERAL := Numeral("")

  function TextOf(t: Token): string {
    if t.Quoted? then t.text else TokenText(t)
  }

  /** `d` is what is left of `c`. */
  predicate Later(c: Stream, d: Stream) {
    Fine(d) && |d.tokens| < |c.tokens| && d.error == c.error
  }

  /** Takes a token of the given kind; the token after it is read at once. */
  function Expect(c: Stream, kind: Token): (r: Outcome<(string, Stream)>)
    requires kind != End
    ensures r.Accepted? ==> Later(c, r.value.1)
  {
    if c.tokens == [] || KindOf(c.tokens[0]) != kind then Rejected(UnexpectedToken)
    else
      var next :- Check(Stream(c.tokens[1..], c.error));
      Accepted((TextOf(c.tokens[0]), next))
  }

  function ExpectWord(c: Stream, text: string): (r: Outcome<Stream>)
    ensures r.Accepted? ==> Later(c, r.value)
  {
    var t :- Expect(c, IDENT);
    if t.0 != text then Rejected(WrongKeyword) else Accepted(t.1)
  }

  function DigitValue(c: char): nat {
    if IsDigit(c) then c as int - '0' as int else 0
  }

  function NatOf(text: string): nat {
    if text == [] then 0 else 10 * NatOf(text[..|text| - 1]) + DigitValue(text[|text| - 1])
  }

  function SimpleType(name: string): Option<FieldType> {
    if name == "u8" then Some(U8)
    else if name == "char" then Some(Char)
    else if name == "u16_be" then Some(U16Be)
    else if name == "u32_be" then Some(U32Be)
    else if name == "price4" then Some(Price4)
    else if name == "u48_be" then Some(U48Be)
    else if name == "u64_be" then Some(U64Be)
    else if name == "price8" then Some(Price8)
    else None
  }

  function ParseWidth(c: Stream): (r: Outcome<(nat, Stream)>)
    ensures r.Accepted? ==> Later(c, r.value.1)
  {
    var open :- Expect(c, LBracket);
    var number :- Expect(open.1, NUMERAL);
    if NatOf(number.0) > U64_MAX then Rejected(NumberOutOfRange)
    else
      var close :- Expect(number.1, RBracket);
      if NatOf(number.0) == 0 then Rejected(EmptyText) else Accepted((NatOf(number.0), close.1))
  }

  function ParseType(c: Stream): (r: Outcome<(FieldType, Stream)>)
    ensures r.Accepted? ==> Later(c, r.value.1)
  {
    var name :- Expect(c, IDENT);
    if name.0 == "ascii" then
      var width :- ParseWidth(name.1);
      Accepted((Ascii(width.0), width.1))
    else if SimpleType(name.0).None? then Rejected(UnknownFieldType)
    else Accepted((SimpleType(name.0).value, name.1))
  }

  predicate HasField(fs: seq<FieldDecl>, name: string) {
    exists f :: f in fs && f.name == name
  }

  predicate HasMessage(ms: seq<MessageDecl>, name: string) {
    exists m :: m in ms && m.name == name
  }

  predicate HasTag(ms: seq<MessageDecl>, tag: char) {
    exists m :: m in ms && m.tag == tag
  }

  function ParseTypeEnd(c: Stream): (r: Outcome<(FieldType, Stream)>)
    ensures r.Accepted? ==> Later(c, r.value.1)
  {
    var ty :- ParseType(c);
    var semicolon :- Expect(ty.1, Semicolon);
    Accepted((ty.0, semicolon.1))
  }

  function ParseField(c: Stream, done: seq<FieldDecl>): (r: Outcome<(FieldDecl, Stream)>)
    ensures r.Accepted? ==> Later(c, r.value.1)
  {
    var name :- Expect(c, IDENT);
    if HasField(done, name.0) then Rejected(DuplicateField)
    else
      var colon :- Expect(name.1, Colon);
      var ty :- ParseTypeEnd(colon.1);
      Accepted((FieldDecl(name.0, ty.0), ty.1))
  }

  function ParseFields(c: Stream, done: seq<FieldDecl>): (r: Outcome<(seq<FieldDecl>, Stream)>)
    requires Fine(c)
    ensures r.Accepted? ==> r.value.1 == c || Later(c, r.value.1)
    decreases |c.tokens|
  {
    if Current(c) == RBrace then Accepted((done, c))
    else
      var f :- ParseField(c, done);
      ParseFields(f.1, done + [f.0])
  }

  function ParseHead(c: Stream, done: seq<MessageDecl>): (r: Outcome<(string, char, Stream)>)
    ensures r.Accepted? ==> Later(c, r.value.2)
  {
    var word :- ExpectWord(c, "message");
    var name :- Expect(word, IDENT);
    var tag :- Expect(name.1, QUOTED);
    if |tag.0| != 1 then Rejected(MessageTypeNotOneByte)
    else if HasTag(done, tag.0[0]) then Rejected(DuplicateMessageType)
    else if HasMessage(done, name.0) then Rejected(DuplicateMessageName)
    else
      var brace :- Expect(tag.1, LBrace);
      Accepted((name.0, tag.0[0], brace.1))
  }

  function ParseBody(c: Stream): (r: Outcome<(seq<FieldDecl>, Stream)>)
    requires Fine(c)
    ensures r.Accepted? ==> Later(c, r.value.1)
  {
    var fields :- ParseFields(c, []);
    var brace :- Expect(fields.1, RBrace);
    Accepted((fields.0, brace.1))
  }

  function ParseMessage(c: Stream, done: seq<MessageDecl>): (r: Outcome<(MessageDecl, Stream)>)
    ensures r.Accepted? ==> Later(c, r.value.1)
  {
    var head :- ParseHead(c, done);
    var body :- ParseBody(head.2);
    Accepted((MessageDecl(head.0, head.1, body.0), body.1))
  }

  function ParseMessages(c: Stream, done: seq<MessageDecl>): (r: Outcome<seq<MessageDecl>>)
    requires Fine(c)
    ensures r.Accepted? ==> c.error.None?
    decreases |c.tokens|
  {
    if c.tokens == [] then Accepted(done)
    else
      var m :- ParseMessage(c, done);
      ParseMessages(m.1, done + [m.0])
  }

  function ParseOpening(c: Stream): (r: Outcome<(string, Stream)>)
    ensures r.Accepted? ==> Later(c, r.value.1)
  {
    var word :- ExpectWord(c, "protocol");
    var name :- Expect(word, IDENT);
    var semicolon :- Expect(name.1, Semicolon);
    Accepted((name.0, semicolon.1))
  }

  function ParseProtocol(c: Stream): (r: Outcome<ProtocolDecl>)
    ensures r.Accepted? ==> c.error.None?
  {
    var opening :- ParseOpening(c);
    var messages :- ParseMessages(opening.1, []);
    Accepted(ProtocolDecl(opening.0, messages))
  }

  /** The whole parser: what a schema text declares, or the first error in it. */
  function ParseText(s: string): Outcome<ProtocolDecl> {
    var c :- Check(Scan(s));
    ParseProtocol(c)
  }

  // ---------------------------------------------------------------- how declarations are spelled

  function TypeLength(ty: FieldType): nat {
    if ty.Ascii? then 4 else 1
  }

  predicate StartsType(ts: seq<Token>, ty: FieldType) {
    && |ts| >= TypeLength(ty)
    && if ty.Ascii? then ts[0] == Ident("ascii") && StartsWidth(ts[1..], ty.chars)
       else ts[0].Ident? && SimpleType(ts[0].text) == Some(ty)
  }

  predicate StartsWidth(ts: seq<Token>, n: nat) {
    |ts| >= 3 && ts[0] == LBracket && ts[1].Numeral? && NatOf(ts[1].text) == n && ts[2] == RBracket
  }

  predicate StartsTypeEnd(ts: seq<Token>, ty: FieldType) {
    StartsType(ts, ty) && |ts| > TypeLength(ty) && ts[TypeLength(ty)] == Semicolon
  }

  function FieldLength(f: FieldDecl): nat {
    3 + TypeLength(f.ty)
  }

  predicate StartsField(ts: seq<Token>, f: FieldDecl) {
    |ts| >= FieldLength(f) && ts[0] == Ident(f.name) && ts[1] == Colon && StartsTypeEnd(ts[2..], f.ty)
  }

  /** `ts` spells out the fields `fs`, and then goes on with `rest`. */
  predicate SpellsFields(ts: seq<Token>, fs: seq<FieldDecl>, rest: seq<Token>) {
    if fs == [] then ts == rest
    else StartsField(ts, fs[0]) && SpellsFields(ts[FieldLength(fs[0])..], fs[1..], rest)
  }

  predicate StartsHead(ts: seq<Token>, name: string, tag: char) {
    |ts| >= 4 && ts[0] == Ident("message") && ts[1] == Ident(name) && ts[2] == Quoted([tag]) && ts[3] == LBrace
  }

  predicate SpellsMessage(ts: seq<Token>, m: MessageDecl, rest: seq<Token>) {
    StartsHead(ts, m.name, m.tag) && SpellsFields(ts[4..], m.fields, [RBrace] + rest)
  }

  function FieldsLength(fs: seq<FieldDecl>): nat {
    if fs == [] then 0 else FieldLength(fs[0]) + FieldsLength(fs[1..])
  }

  function MessageLength(m: MessageDecl): nat {
    5 + FieldsLength(m.fields)
  }

  predicate SpellsMessages(ts: seq<Token>, ms: seq<MessageDecl>) {
    if ms == [] then ts == []
    else
      && |ts| >= MessageLength(ms[0])
      && SpellsMessage(ts, ms[0], ts[MessageLength(ms[0])..])
      && SpellsMessages(ts[MessageLength(ms[0])..], ms[1..])
  }

  predicate StartsOpening(ts: seq<Token>, name: string) {
    |ts| >= 3 && ts[0] == Ident("protocol") && ts[1] == Ident(name) && ts[2] == Semicolon
  }

  predicate Spells(ts: seq<Token>, p: ProtocolDecl) {
    StartsOpening(ts, p.name) && SpellsMessages(ts[3..], p.messages)
  }

  // ---------------------------------------------------------------- what the parser checks

  predicate LegalType(ty: FieldType) {
    ty.Ascii? ==> 1 <= ty.chars <= U64_MAX
  }

  predicate WellFormedFields(fs: seq<FieldDecl>) {
    && (forall i :: 0 <= i < |fs| ==> LegalType(fs[i].ty))
    && (forall i, j :: 0 <= i < j < |fs| ==> fs[i].name != fs[j].name)
  }

  predicate WellFormedMessages(ms: seq<MessageDecl>) {
    && (forall i :: 0 <= i < |ms| ==> WellFormedFields(ms[i].fields))
    && (forall i, j :: 0 <= i < j < |ms| ==> ms[i].name != ms[j].name)
    && (forall i, j :: 0 <= i < j < |ms| ==> ms[i].tag != ms[j].tag)
  }

  predicate WellFormedProtocol(p: ProtocolDecl) {
    WellFormedMessages(p.messages)
  }

  lemma OneMoreField(fs: seq<FieldDecl>, f: FieldDecl)
    requires WellFormedFields(fs) && LegalType(f.ty) && !HasField(fs, f.name)
    ensures WellFormedFields(fs + [f])
  {
  }

  lemma OneMoreMessage(ms: seq<MessageDecl>, m: MessageDecl)
    requires WellFormedMessages(ms) && WellFormedFields(m.fields) && !HasMessage(ms, m.name) && !HasTag(ms, m.tag)
    ensures WellFormedMessages(ms + [m])
  {
  }

  /** The next field of a well-formed list passes the checks made against the fields before it. */
  lemma NextFieldPasses(done: seq<FieldDecl>, fs: seq<FieldDecl>)
    requires fs != [] && WellFormedFields(done + fs)
    ensures LegalType(fs[0].ty) && !HasField(done, fs[0].name) && WellFormedFields(done + [fs[0]] + fs[1..])
    ensures done + [fs[0]] + fs[1..] == done + fs
  {
    var all, n := done + fs, |done|;
    assert done + [fs[0]] + fs[1..] == all && all[n] == fs[0];
    forall f | f in done ensures f.name != fs[0].name {
      var i :| 0 <= i < n && done[i] == f;
      assert all[i].name != all[n].name;
    }
  }

  lemma NextMessagePasses(done: seq<MessageDecl>, ms: seq<MessageDecl>)
    requires ms != [] && WellFormedMessages(done + ms)
    ensures WellFormedFields(ms[0].fields) && !HasTag(done, ms[0].tag) && !HasMessage(done, ms[0].name)
    ensures WellFormedMessages(done + [ms[0]] + ms[1..]) && done + [ms[0]] + ms[1..] == done + ms
  {
    var all, n := done + ms, |done|;
    assert done + [ms[0]] + ms[1..] == all && all[n] == ms[0];
    forall m | m in done ensures m.name != ms[0].name && m.tag != ms[0].tag {
      var i :| 0 <= i < n && done[i] == m;
      assert all[i].name != all[n].name && all[i].tag != all[n].tag;
    }
  }


  // ---------------------------------------------------------------- what each part of the parser takes

  /** A text without errors in its tokens. */
  function Whole(ts: seq<Token>): Stream {
    Stream(ts, None)
  }

  lemma ExpectTakes(ts: seq<Token>, kind: Token)
    requires kind != End
    ensures Expect(Whole(ts), kind)
            == if ts != [] && KindOf(ts[0]) == kind then Accepted((TextOf(ts[0]), Whole(ts[1..])))
               else Rejected(UnexpectedToken)
  {
  }

  lemma WidthIff(ts: seq<Token>, n: nat, d: Stream)
    ensures ParseWidth(Whole(ts)) == Accepted((n, d)) <==>
                StartsWidth(ts, n) && 1 <= n <= U64_MAX && d == Whole(ts[3..])
  {
    ExpectTakes(ts, LBracket);
    if |ts| >= 2 {
      ExpectTakes(ts[1..], NUMERAL);
      assert ts[1..][1..] == ts[2..];
      ExpectTakes(ts[2..], RBracket);
      assert |ts| >= 3 ==> ts[2..][1..] == ts[3..];
    }
  }

  lemma TypeIff(ts: seq<Token>, ty: FieldType, d: Stream)
    ensures ParseType(Whole(ts)) == Accepted((ty, d)) <==>
            StartsType(ts, ty) && LegalType(ty) && d == Whole(ts[TypeLength(ty)..])
  {
    ExpectTakes(ts, IDENT);
    if ts != [] && ts[0] == Ident("ascii") {
      WidthIff(ts[1..], if ty.Ascii? then ty.chars else 0, d);
      assert |ts| >= 4 ==> ts[1..][3..] == ts[4..];
    }
  }

  /** An accepted type is taken off the front. */
  lemma TypeTaken(ts: seq<Token>)
    ensures ParseType(Whole(ts)).Accepted? ==>
              var (ty, d) := ParseType(Whole(ts)).value; StartsType(ts, ty) && d == Whole(ts[TypeLength(ty)..])
  {
    if ParseType(Whole(ts)).Accepted? {
      var (ty, d) := ParseType(Whole(ts)).value;
      TypeIff(ts, ty, d);
    }
  }

  lemma TypeEndIff(ts: seq<Token>, ty: FieldType, d: Stream)
    ensures ParseTypeEnd(Whole(ts)) == Accepted((ty, d)) <==>
            StartsTypeEnd(ts, ty) && LegalType(ty) && d == Whole(ts[TypeLength(ty) + 1..])
  {
    TypeTaken(ts);
    var n := TypeLength(ty);
    if n <= |ts| {
      TypeIff(ts, ty, Whole(ts[n..]));
      ExpectTakes(ts[n..], Semicolon);
      assert n < |ts| ==> ts[n..][1..] == ts[n + 1..];
    }
  }

  predicate StartsName(ts: seq<Token>) {
    |ts| >= 2 && ts[0].Ident? && ts[1] == Colon
  }

  /** A field is its name, a colon, and the rest. */
  lemma FieldTakes(ts: seq<Token>, done: seq<FieldDecl>)
    ensures StartsName(ts) && !HasField(done, ts[0].text) ==>
              ParseField(Whole(ts), done)
              == match ParseTypeEnd(Whole(ts[2..]))
                 case Accepted((ty, d)) => Accepted((FieldDecl(ts[0].text, ty), d))
                 case Rejected(e) => Rejected(e)
    ensures !StartsName(ts) || HasField(done, ts[0].text) ==> ParseField(Whole(ts), done).Rejected?
  {
    ExpectTakes(ts, IDENT);
    if |ts| >= 2 {
      ExpectTakes(ts[1..], Colon);
      PartsOfSuffix(ts, 1, 1);
    }
  }

  lemma FieldIff(ts: seq<Token>, done: seq<FieldDecl>, f: FieldDecl, d: Stream)
    ensures ParseField(Whole(ts), done) == Accepted((f, d)) <==>
            StartsField(ts, f) && LegalType(f.ty) && !HasField(done, f.name) && d == Whole(ts[FieldLength(f)..])
  {
    FieldTakes(ts, done);
    if |ts| >= 2 {
      TypeEndIff(ts[2..], f.ty, d);
      if FieldLength(f) <= |ts| {
        PartsOfSuffix(ts, 2, TypeLength(f.ty) + 1);
      }
    }
  }

  lemma {:induction false} FieldsSound(ts: seq<Token>, done: seq<FieldDecl>)
      returns (fs: seq<FieldDecl>, rest: seq<Token>)
    requires WellFormedFields(done) && ParseFields(Whole(ts), done).Accepted?
    ensures ParseFields(Whole(ts), done).value == (done + fs, Whole(rest)) && WellFormedFields(done + fs)
    ensures SpellsFields(ts, fs, rest)
    decreases |ts|
  {
    if ts != [] && ts[0] == RBrace {
      fs, rest := [], ts;
      assert done + fs == done;
    } else {
      var (f, d) := ParseField(Whole(ts), done).value;
      FieldIff(ts, done, f, d);
      OneMoreField(done, f);
      var more;
      more, rest := FieldsSound(ts[FieldLength(f)..], done + [f]);
      fs := [f] + more;
      Regrouped(done, f, more);
    }
  }

  lemma {:induction false} FieldsComplete(ts: seq<Token>, done: seq<FieldDecl>, fs: seq<FieldDecl>, rest: seq<Token>)
    requires SpellsFields(ts, fs, rest) && rest != [] && rest[0] == RBrace
    requires WellFormedFields(done + fs)
    ensures ParseFields(Whole(ts), done) == Accepted((done + fs, Whole(rest)))
    decreases fs
  {
    if fs == [] {
      assert done + fs == done;
    } else {
      var f := fs[0];
      NextFieldPasses(done, fs);
      FieldIff(ts, done, f, Whole(ts[FieldLength(f)..]));
      FieldsComplete(ts[FieldLength(f)..], done + [f], fs[1..], rest);
    }
  }

  lemma HeadIff(ts: seq<Token>, done: seq<MessageDecl>, name: string, tag: char, d: Stream)
    ensures ParseHead(Whole(ts), done) == Accepted((name, tag, d)) <==>
            StartsHead(ts, name, tag) && !HasTag(done, tag) && !HasMessage(done, name) && d == Whole(ts[4..])
  {
    ExpectTakes(ts, IDENT);
    if |ts| >= 4 {
      ExpectTakes(ts[1..], IDENT);
      assert ts[1..][1..] == ts[2..];
      ExpectTakes(ts[2..], QUOTED);
      assert ts[2..][1..] == ts[3..];
      ExpectTakes(ts[3..], LBrace);
      assert ts[3..][1..] == ts[4..];
    }
  }

  lemma {:induction false} FieldsSpan(ts: seq<Token>, fs: seq<FieldDecl>, rest: seq<Token>)
    requires SpellsFields(ts, fs, rest)
    ensures |ts| == FieldsLength(fs) + |rest| && ts[FieldsLength(fs)..] == rest
  {
    if fs != [] {
      FieldsSpan(ts[FieldLength(fs[0])..], fs[1..], rest);
      assert ts[FieldsLength(fs)..] == ts[FieldLength(fs[0])..][FieldsLength(fs[1..])..];
    }
  }

  lemma MessageSpan(ts: seq<Token>, m: MessageDecl, rest: seq<Token>)
    requires SpellsMessage(ts, m, rest)
    ensures |ts| == MessageLength(m) + |rest| && ts[MessageLength(m)..] == rest
  {
    FieldsSpan(ts[4..], m.fields, [RBrace] + rest);
    assert ts[MessageLength(m)..] == ts[4..][FieldsLength(m.fields)..][1..];
  }

  lemma BodyTakes(ts: seq<Token>, fs: seq<FieldDecl>, more: seq<Token>)
    requires ParseFields(Whole(ts), []) == Accepted((fs, Whole(more)))
    ensures ParseBody(Whole(ts))
            == if more != [] && more[0] == RBrace then Accepted((fs, Whole(more[1..]))) else Rejected(UnexpectedToken)
  {
    ExpectTakes(more, RBrace);
  }

  lemma BodySound(ts: seq<Token>) returns (fs: seq<FieldDecl>, rest: seq<Token>)
    requires ParseBody(Whole(ts)).Accepted?
    ensures ParseBody(Whole(ts)).value == (fs, Whole(rest)) && WellFormedFields(fs)
    ensures SpellsFields(ts, fs, [RBrace] + rest)
  {
    var more;
    fs, more := FieldsSound(ts, []);
    NothingBefore(fs);
    BodyTakes(ts, fs, more);
    FirstAndRest(more);
    rest := more[1..];
  }

  lemma BodyComplete(ts: seq<Token>, fs: seq<FieldDecl>, rest: seq<Token>)
    requires SpellsFields(ts, fs, [RBrace] + rest) && WellFormedFields(fs)
    ensures ParseBody(Whole(ts)) == Accepted((fs, Whole(rest)))
  {
    NothingBefore(fs);
    FieldsComplete(ts, [], fs, [RBrace] + rest);
    BodyTakes(ts, fs, [RBrace] + rest);
    Regrouped([], RBrace, rest);
  }

  lemma MessageSound(ts: seq<Token>, done: seq<MessageDecl>) returns (m: MessageDecl, rest: seq<Token>)
    requires ParseMessage(Whole(ts), done).Accepted?
    ensures ParseMessage(Whole(ts), done).value == (m, Whole(rest)) && SpellsMessage(ts, m, rest)
    ensures WellFormedFields(m.fields) && !HasTag(done, m.tag) && !HasMessage(done, m.name)
  {
    var (name, tag, d) := ParseHead(Whole(ts), done).value;
    HeadIff(ts, done, name, tag, d);
    var fs;
    fs, rest := BodySound(ts[4..]);
    m := MessageDecl(name, tag, fs);
  }

  lemma MessageComplete(ts: seq<Token>, done: seq<MessageDecl>, m: MessageDecl, rest: seq<Token>)
    requires SpellsMessage(ts, m, rest)
    requires WellFormedFields(m.fields) && !HasTag(done, m.tag) && !HasMessage(done, m.name)
    ensures ParseMessage(Whole(ts), done) == Accepted((m, Whole(rest)))
  {
    HeadIff(ts, done, m.name, m.tag, Whole(ts[4..]));
    BodyComplete(ts[4..], m.fields, rest);
  }

  lemma {:induction false} MessagesSound(ts: seq<Token>, done: seq<MessageDecl>) returns (ms: seq<MessageDecl>)
    requires WellFormedMessages(done) && ParseMessages(Whole(ts), done).Accepted?
    ensures ParseMessages(Whole(ts), done).value == done + ms && WellFormedMessages(done + ms) && SpellsMessages(ts, ms)
    decreases |ts|
  {
    if ts == [] {
      ms := [];
      assert done + ms == done;
    } else {
      var m, rest := MessageSound(ts, done);
      MessageSpan(ts, m, rest);
      OneMoreMessage(done, m);
      var more := MessagesSound(rest, done + [m]);
      ms := [m] + more;
      Regrouped(done, m, more);
    }
  }

  lemma {:induction false} MessagesComplete(ts: seq<Token>, done: seq<MessageDecl>, ms: seq<MessageDecl>)
    requires SpellsMessages(ts, ms) && WellFormedMessages(done + ms)
    ensures ParseMessages(Whole(ts), done) == Accepted(done + ms)
    decreases ms
  {
    if ms == [] {
      assert done + ms == done;
    } else {
      var m := ms[0];
      NextMessagePasses(done, ms);
      MessageComplete(ts, done, m, ts[MessageLength(m)..]);
      MessagesComplete(ts[MessageLength(m)..], done + [m], ms[1..]);
    }
  }

  lemma OpeningIff(ts: seq<Token>, name: string, d: Stream)
    ensures ParseOpening(Whole(ts)) == Accepted((name, d)) <==> StartsOpening(ts, name) && d == Whole(ts[3..])
  {
    ExpectTakes(ts, IDENT);
    if |ts| >= 3 {
      ExpectTakes(ts[1..], IDENT);
      assert ts[1..][1..] == ts[2..];
      ExpectTakes(ts[2..], Semicolon);
      assert ts[2..][1..] == ts[3..];
    }
  }

  lemma ProtocolIff(ts: seq<Token>, p: ProtocolDecl)
    ensures ParseProtocol(Whole(ts)) == Accepted(p) <==> WellFormedProtocol(p) && Spells(ts, p)
  {
    if ParseProtocol(Whole(ts)) == Accepted(p) {
      var (name, d) := ParseOpening(Whole(ts)).value;
      OpeningIff(ts, name, d);
      var ms := MessagesSound(ts[3..], []);
      NothingBefore(ms);
    }
    if WellFormedProtocol(p) && Spells(ts, p) {
      OpeningIff(ts, p.name, Whole(ts[3..]));
      NothingBefore(p.messages);
      MessagesComplete(ts[3..], [], p.messages);
    }
  }

  // ---------------------------------------------------------------- the language of schemas

  /** `s` is a way of writing `p`: its tokens in order, with any legal blanks between them. */
  ghost predicate Writes(s: string, p: ProtocolDecl) {
    exists ps, tail :: Legal(ps, tail) && s == Print(ps, tail) && Spells(Tokens(ps), p)
  }

  /**
   The parser accepts exactly the written forms of well-formed protocols, and gives back the protocol:
   printing a protocol with any blanks and comments and parsing the text returns it.
   */
  lemma AcceptsExactlyWritten(s: string, p: ProtocolDecl)
    ensures ParseText(s) == Accepted(p) <==> WellFormedProtocol(p) && Writes(s, p)
  {
    if ParseText(s) == Accepted(p) {
      var ps, tail := ReadWasWritten(s);
      ProtocolIff(Tokens(ps), p);
    }
    if WellFormedProtocol(p) && Writes(s, p) {
      var ps, tail :| Legal(ps, tail) && s == Print(ps, tail) && Spells(Tokens(ps), p);
      WrittenIsRead(ps, tail);
      ProtocolIff(Tokens(ps), p);
    }
  }
}
