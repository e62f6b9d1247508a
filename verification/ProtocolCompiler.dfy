/**
 The front end of the protocol compiler as it runs: a lexer that moves through the text and a parser
 with one token of lookahead that computes offsets and sizes as it goes (tools/protocolc/main.cpp:20-180).
 */
module ProtocolCompiler {
  import opened Types
  import opened Sequences
  import opened Bytes
  import opened SchemaText
  import opened Schema
  import opened SchemaGrammar

  // ---------------------------------------------------------------- lines

  function Newlines(s: string): nat {
    if s == [] then 0 else Newlines(s[..|s| - 1]) + if s[|s| - 1] == '\n' then 1 else 0
  }

  lemma NewlinesStep(s: string, n: nat)
    requires n < |s|
    ensures Newlines(s[..n + 1]) == Newlines(s[..n]) + if s[n] == '\n' then 1 else 0
  {
    assert s[..n + 1][..n] == s[..n];
  }

  // ---------------------------------------------------------------- the lexer

  function Shifted(k: nat, n: Outcome<nat>): Outcome<nat> {
    if n.Accepted? then Accepted(k + n.value) else n
  }

  lemma {:induction false} ClosingStep(k: nat, s: string)
    requires s != [] && s[0] != '"' && s[0] != '\n'
    ensures Shifted(k, Closing(s)) == Shifted(k + 1, Closing(s[1..]))
  {
  }

  lemma QuotedLexeme(s: string)
    requires s != [] && s[0] == '"'
    ensures Lexeme(s) == match Closing(s[1..])
                         case Accepted(n) => Accepted((Quoted(s[1..][..n]), s[1..][n..][1..]))
                         case Rejected(e) => Rejected(e)
  {
    if Closing(s[1..]).Accepted? {
      var n := Closing(s[1..]).value;
      assert s[1..][..n] == s[1..n + 1] && s[1..][n..][1..] == s[n + 2..];
    }
  }

  class Lexer {
    const input: string
    var pos: nat
    var line: nat

    /** `line` is the number of the line that `pos` is on. */
    ghost predicate Valid()
      reads this
    {
      pos <= |input| && line == 1 + Newlines(input[..pos])
    }

    ghost function Rest(): string
      reads this
      requires Valid()
    {
      input[pos..]
    }

    constructor (input: string)
      ensures Valid() && Rest() == input
    {
      this.input := input;
      pos := 0;
      line := 1;
    }

    /** One character that is not a line break. */
    method Step()
      requires Valid() && Rest() != [] && Rest()[0] != '\n'
      modifies this`pos
      ensures Valid() && pos == old(pos) + 1 && Rest() == old(Rest())[1..]
    {
      NewlinesStep(input, pos);
      pos := pos + 1;
    }

    /** The rest of a comment, up to its line break. */
    method SkipLine()
      requires Valid()
      modifies this`pos
      ensures Valid() && pos >= old(pos) && Rest() == old(Rest())[Line(old(Rest()))..]
    {
      while pos < |input| && input[pos] != '\n'
        invariant Valid() && pos >= old(pos)
        invariant Rest()[Line(Rest())..] == old(Rest())[Line(old(Rest()))..]
      {
        Step();
      }
    }

    method SkipComment()
      requires Valid() && StartsComment(Rest())
      modifies this`pos
      ensures Valid() && pos > old(pos) && SkipBlank(Rest()) == SkipBlank(old(Rest()))
    {
      Step();
      Step();
      assert Rest() == old(Rest())[2..];
      SkipLine();
    }

    method SkipLineBreak()
      requires Valid() && Rest() != [] && Rest()[0] == '\n'
      modifies this
      ensures Valid() && pos > old(pos) && SkipBlank(Rest()) == SkipBlank(old(Rest()))
    {
      NewlinesStep(input, pos);
      line, pos := line + 1, pos + 1;
      assert Rest() == old(Rest())[1..];
    }

    method SkipBlanks()
      requires Valid()
      modifies this
      ensures Valid() && Rest() == SkipBlank(old(Rest()))
    {
      while pos < |input|
        invariant Valid() && SkipBlank(Rest()) == SkipBlank(old(Rest()))
        decreases |input| - pos
      {
        if input[pos] == '\n' {
          SkipLineBreak();
        } else if IsSpace(input[pos]) {
          Step();
        } else if input[pos] == '/' && pos + 1 < |input| && input[pos + 1] == '/' {
          SkipComment();
        } else {
          break;
        }
      }
    }

    method WordToken(numeral: bool) returns (t: Token)
      requires Valid() && Rest() != [] && Continues(numeral, Rest()[0])
      modifies this`pos
      ensures Valid() && (t, Rest()) == Word(numeral, old(Rest()))
    {
      ghost var s := Rest();
      var start := pos;
      Step();
      while pos < |input| && Continues(numeral, input[pos])
        invariant Valid() && start < pos
        invariant Span(numeral, s[1..]) == pos - start - 1 + Span(numeral, Rest())
      {
        Step();
      }
      PartsOfSuffix(input, start, pos - start);
      t := if numeral then Numeral(input[start..pos]) else Ident(input[start..pos]);
    }

    /** The characters up to the closing quote. */
    method QuotedText() returns (r: Outcome<string>)
      requires Valid()
      modifies this`pos
      ensures Valid() && pos >= old(pos)
      ensures r.Accepted? ==> Rest() != [] && Rest()[0] == '"'
      ensures match r
              case Accepted(x) =>
                Closing(old(Rest())) == Accepted(|x|) && x == old(Rest())[..|x|] && Rest() == old(Rest())[|x|..]
              case Rejected(e) => Closing(old(Rest())) == Rejected(e)
    {
      ghost var s, start := Rest(), pos;
      var out := "";
      while pos < |input| && input[pos] != '"'
        invariant Valid() && start <= pos && out == input[start..pos]
        invariant Closing(s) == Shifted(pos - start, Closing(Rest()))
        decreases |input| - pos
      {
        if input[pos] == '\n' {
          return Rejected(NewlineInString);
        }
        ClosingStep(pos - start, Rest());
        out := out + [input[pos]];
        Step();
      }
      return if pos >= |input| then Rejected(UnterminatedString) else Accepted(out);
    }

    method StringToken() returns (r: Outcome<Token>)
      requires Valid() && Rest() != [] && Rest()[0] == '"'
      modifies this`pos
      ensures Valid() && match r
                         case Accepted(t) => Lexeme(old(Rest())) == Accepted((t, Rest()))
                         case Rejected(e) => Lexeme(old(Rest())) == Rejected(e)
    {
      QuotedLexeme(Rest());
      Step();
      var out :- QuotedText();
      Step();
      return Accepted(Quoted(out));
    }

    method NextToken() returns (r: Outcome<Token>)
      requires Valid()
      modifies this
      ensures Valid() && match r
                         case Accepted(t) => Next(old(Rest())) == Accepted((t, Rest()))
                         case Rejected(e) => Next(old(Rest())) == Rejected(e)
    {
      SkipBlanks();
      if pos >= |input| {
        return Accepted(End);
      }
      var c := input[pos];
      if Mark(c).Some? {
        Step();
        return Accepted(Mark(c).value);
      } else if c == '"' {
        r := StringToken();
      } else if IsDigit(c) {
        var t := WordToken(true);
        return Accepted(t);
      } else if StartsWord(c) {
        var t := WordToken(false);
        return Accepted(t);
      } else {
        return Rejected(UnexpectedCharacter);
      }
    }
  }

  // ---------------------------------------------------------------- the parser

  /** A method that moved on from one stream to another did what the specification says. */
  ghost predicate Does<T(!new)>(spec: Outcome<(T, Stream)>, r: Outcome<T>, after: Stream) {
    spec == if r.Accepted? then Accepted((r.value, after)) else Rejected(r.error)
  }

  ghost function FieldNames(fs: seq<FieldDecl>): set<string> {
    set f | f in fs :: f.name
  }

  ghost function MessageNames(ms: seq<MessageDecl>): set<string> {
    set m | m in ms :: m.name
  }

  ghost function MessageTags(ms: seq<MessageDecl>): set<char> {
    set m | m in ms :: m.tag
  }

  /** The stream when a token has been read ahead of `rest`. */
  ghost function Ahead(t: Token, rest: string): (c: Stream)
    ensures Fine(c)
  {
    if t == End then Stream([], None) else Before(t, Scan(rest))
  }

  lemma AheadIsScan(s: string)
    ensures Next(s).Accepted? ==> Check(Scan(s)) == Accepted(Ahead(Next(s).value.0, Next(s).value.1))
    ensures Next(s).Rejected? ==> Check(Scan(s)) == Rejected(Next(s).error)
  {
  }

  function Declared(f: Field): FieldDecl {
    FieldDecl(f.name, f.ty)
  }

  /** Sizes are of type `size_t`. */
  function Enlarged(size: nat, width: nat): nat {
    (size + width) % WORD
  }

  lemma OneMoreLaidOut(fs: seq<FieldDecl>, f: FieldDecl)
    ensures LaidOutFields(fs + [f]) == LaidOutFields(fs) + [Field(f.name, f.ty, Width(f.ty), Size(fs))]
    ensures Size(fs + [f]) == Enlarged(Size(fs), Width(f.ty))
    ensures FieldNames(fs + [f]) == FieldNames(fs) + {f.name}
  {
    assert (fs + [f])[..|fs|] == fs;
  }

  /** One more turn of the loop over the fields. */
  lemma FieldsTurn(c: Stream, fs: seq<FieldDecl>, r: Outcome<FieldDecl>, d: Stream)
    requires Fine(c) && Fine(d) && Current(c) != RBrace && Does(ParseField(c, fs), r, d)
    ensures r.Rejected? ==> ParseFields(c, fs) == Rejected(r.error)
    ensures r.Accepted? ==> ParseFields(c, fs) == ParseFields(d, fs + [r.value]) && |d.tokens| < |c.tokens|
  {
  }

  lemma MessagesTurn(c: Stream, ms: seq<MessageDecl>, r: Outcome<MessageDecl>, d: Stream)
    requires Fine(c) && Fine(d) && c.tokens != [] && Does(ParseMessage(c, ms), r, d)
    ensures r.Rejected? ==> ParseMessages(c, ms) == Rejected(r.error)
    ensures r.Accepted? ==> ParseMessages(c, ms) == ParseMessages(d, ms + [r.value]) && |d.tokens| < |c.tokens|
  {
  }

  lemma OneMoreMessageLaidOut(ms: seq<MessageDecl>, m: MessageDecl)
    ensures LaidOutAll(ms + [m]) == LaidOutAll(ms) + [LaidOut(m)]
    ensures MessageTags(ms + [m]) == MessageTags(ms) + {m.tag} && MessageNames(ms + [m]) == MessageNames(ms) + {m.name}
  {
    assert (ms + [m])[..|ms|] == ms;
  }

  class Parser {
    const lexer: Lexer
    var current: Token

    ghost predicate Valid()
      reads this, lexer
    {
      lexer.Valid()
    }

    /** What is left to parse. */
    ghost function S(): (c: Stream)
      reads this, lexer
      requires Valid()
      ensures Fine(c) && (c.tokens == [] <==> current == End) && (current != End ==> Current(c) == current)
    {
      Ahead(current, lexer.Rest())
    }

    constructor (lexer: Lexer, first: Token)
      requires lexer.Valid()
      ensures Valid() && S() == Ahead(first, lexer.Rest()) && this.lexer == lexer
    {
      this.lexer := lexer;
      current := first;
    }

    method Take(kind: Token) returns (r: Outcome<string>)
      requires Valid() && kind != End
      modifies this, lexer
      ensures Valid() && Does(Expect(old(S()), kind), r, S())
    {
      if KindOf(current) != kind {
        return Rejected(UnexpectedToken);
      }
      var text := TextOf(current);
      AheadIsScan(lexer.Rest());
      assert S().tokens[1..] == Scan(lexer.Rest()).tokens;
      current :- lexer.NextToken();
      return Accepted(text);
    }

    method TakeWord(text: string) returns (r: Outcome<()>)
      requires Valid()
      modifies this, lexer
      ensures Valid()
      ensures ExpectWord(old(S()), text) == if r.Accepted? then Accepted(S()) else Rejected(r.error)
    {
      var word :- Take(IDENT);
      return if word != text then Rejected(WrongKeyword) else Accepted(());
    }

    method TakeWidth() returns (r: Outcome<nat>)
      requires Valid()
      modifies this, lexer
      ensures Valid() && Does(ParseWidth(old(S())), r, S())
    {
      var _ :- Take(LBracket);
      var number :- Take(NUMERAL);
      var width := NatOf(number);
      if width > U64_MAX {
        return Rejected(NumberOutOfRange);
      }
      var _ :- Take(RBracket);
      return if width == 0 then Rejected(EmptyText) else Accepted(width);
    }

    method TakeType() returns (r: Outcome<FieldType>)
      requires Valid()
      modifies this, lexer
      ensures Valid() && Does(ParseType(old(S())), r, S())
    {
      var name :- Take(IDENT);
      if name == "ascii" {
        var width :- TakeWidth();
        return Accepted(Ascii(width));
      }
      return if SimpleType(name).None? then Rejected(UnknownFieldType) else Accepted(SimpleType(name).value);
    }

    /** One field, placed at the end of the message so far. */
    method TakeField(names: set<string>, size: nat, ghost done: seq<FieldDecl>) returns (r: Outcome<Field>)
      requires Valid() && names == FieldNames(done) && size == Size(done)
      modifies this, lexer
      ensures Valid()
      ensures Does(ParseField(old(S()), done),
                   if r.Accepted? then Accepted(Declared(r.value)) else Rejected(r.error), S())
      ensures r.Accepted? ==> r.value.width == Width(r.value.ty) && r.value.offset == size
    {
      var name :- Take(IDENT);
      if name in names {
        return Rejected(DuplicateField);
      }
      var _ :- Take(Colon);
      var ty :- TakeType();
      var _ :- Take(Semicolon);
      return Accepted(Field(name, ty, Width(ty), size));
    }

    /** All fields of a message, with their offsets, and the size of the message. */
    method TakeFields() returns (r: Outcome<(seq<Field>, nat)>, ghost fs: seq<FieldDecl>)
      requires Valid()
      modifies this, lexer
      ensures Valid()
      ensures Does(ParseFields(old(S()), []), if r.Accepted? then Accepted(fs) else Rejected(r.error), S())
      ensures r.Accepted? ==> r.value == (LaidOutFields(fs), Size(fs))
    {
      var fields, size, names := [], 1, {};
      fs := [];
      while current != RBrace
        invariant Valid() && ParseFields(old(S()), []) == ParseFields(S(), fs)
        invariant fields == LaidOutFields(fs) && size == Size(fs) && names == FieldNames(fs)
        decreases |S().tokens|
      {
        ghost var before := S();
        var next := TakeField(names, size, fs);
        FieldsTurn(before, fs, if next.Accepted? then Accepted(Declared(next.value)) else Rejected(next.error), S());
        if next.Rejected? {
          return Rejected(next.error), fs;
        }
        var f := next.value;
        OneMoreLaidOut(fs, Declared(f));
        fields, names, size := fields + [f], names + {f.name}, Enlarged(size, f.width);
        fs := fs + [Declared(f)];
      }
      return Accepted((fields, size)), fs;
    }

    /** The name and type of a message, and its opening brace. */
    method TakeHead(tags: set<char>, names: set<string>, ghost done: seq<MessageDecl>)
        returns (r: Outcome<(string, char)>)
      requires Valid() && tags == MessageTags(done) && names == MessageNames(done)
      modifies this, lexer
      ensures Valid()
      ensures ParseHead(old(S()), done)
              == if r.Accepted? then Accepted((r.value.0, r.value.1, S())) else Rejected(r.error)
    {
      var _ :- TakeWord("message");
      var name :- Take(IDENT);
      var tag :- Take(QUOTED);
      if |tag| != 1 {
        return Rejected(MessageTypeNotOneByte);
      }
      if tag[0] in tags {
        return Rejected(DuplicateMessageType);
      }
      if name in names {
        return Rejected(DuplicateMessageName);
      }
      var _ :- Take(LBrace);
      return Accepted((name, tag[0]));
    }

    method TakeMessage(tags: set<char>, names: set<string>, ghost done: seq<MessageDecl>)
        returns (r: Outcome<Message>, ghost m: MessageDecl)
      requires Valid() && tags == MessageTags(done) && names == MessageNames(done)
      modifies this, lexer
      ensures Valid()
      ensures Does(ParseMessage(old(S()), done), if r.Accepted? then Accepted(m) else Rejected(r.error), S())
      ensures r.Accepted? ==> r.value == LaidOut(m)
    {
      m := MessageDecl("", 'x', []);
      var head :- TakeHead(tags, names, done);
      var body, fs := TakeFields();
      if body.Rejected? {
        return Rejected(body.error), m;
      }
      var _ :- Take(RBrace);
      m := MessageDecl(head.0, head.1, fs);
      return Accepted(Message(head.0, head.1, body.value.0, body.value.1)), m;
    }

    method TakeMessages() returns (r: Outcome<seq<Message>>, ghost ms: seq<MessageDecl>)
      requires Valid()
      modifies this, lexer
      ensures Valid()
      ensures ParseMessages(old(S()), []) == if r.Accepted? then Accepted(ms) else Rejected(r.error)
      ensures r.Accepted? ==> r.value == LaidOutAll(ms)
    {
      var messages, tags, names := [], {}, {};
      ms := [];
      while current != End
        invariant Valid() && ParseMessages(old(S()), []) == ParseMessages(S(), ms)
        invariant messages == LaidOutAll(ms) && tags == MessageTags(ms) && names == MessageNames(ms)
        decreases |S().tokens|
      {
        ghost var before := S();
        var next, decl := TakeMessage(tags, names, ms);
        MessagesTurn(before, ms, if next.Accepted? then Accepted(decl) else Rejected(next.error), S());
        if next.Rejected? {
          return Rejected(next.error), ms;
        }
        var m := next.value;
        OneMoreMessageLaidOut(ms, decl);
        messages, tags, names := messages + [m], tags + {m.tag}, names + {m.name};
        ms := ms + [decl];
      }
      return Accepted(messages), ms;
    }

    method TakeProtocol() returns (r: Outcome<Protocol>)
      requires Valid()
      modifies this, lexer
      ensures Valid() && r == Compiled(ParseProtocol(old(S())))
    {
      var _ :- TakeWord("protocol");
      var name :- Take(IDENT);
      var _ :- Take(Semicolon);
      var messages, ms := TakeMessages();
      return if messages.Accepted? then Accepted(Protocol(name, messages.value)) else Rejected(messages.error);
    }
  }

  function Compiled(r: Outcome<ProtocolDecl>): Outcome<Protocol> {
    if r.Accepted? then Accepted(Layout(r.value)) else Rejected(r.error)
  }

  /**
   Parsing a schema text: one pass over the characters gives the layout of exactly the protocol that
   the grammar says the text declares, or its first error.
   */
  method Parse(input: string) returns (r: Outcome<Protocol>)
    ensures r == Compiled(ParseText(input))
  {
    var lexer := new Lexer(input);
    AheadIsScan(input);
    var first :- lexer.NextToken();
    var parser := new Parser(lexer, first);
    r := parser.TakeProtocol();
  }

  // ---------------------------------------------------------------- from schema text to the meaning of bytes

  lemma {:induction false} LaidOutAt(ms: seq<MessageDecl>, i: nat)
    requires i < |ms|
    ensures LaidOutAll(ms)[i] == LaidOut(ms[i])
  {
    if i < |ms| - 1 {
      LaidOutAt(ms[..|ms| - 1], i);
    }
  }

  /** The accessor emitted for field `j` gives what the schema says that its bytes mean. */
  predicate Right(fs: seq<FieldDecl>, j: nat, f: Field, b: Data)
    requires j < |fs|
  {
    TotalWidth(fs) <= |b| && Eval(AccessorFor(f), b) == Ok(Meaning(fs[j].ty, FieldBytes(fs, j, b)))
  }

  /**
   Compiler correctness, from text to bytes: if a text writes a well-formed protocol, it compiles, and every
   accessor of every message that fits, on bytes that its view accepts, gives what the schema says and never fails.
   */
  lemma CompiledAccessorCorrect(s: string, p: ProtocolDecl, i: nat, j: nat, b: Data)
    requires WellFormedProtocol(p) && Writes(s, p) && i < |p.messages| && j < |p.messages[i].fields|
    requires TotalWidth(p.messages[i].fields) < WORD
    ensures Compiled(ParseText(s)) == Accepted(Layout(p))
    ensures var m := LaidOut(p.messages[i]);
            && Layout(p).messages[i] == m && Tiles(m)
            && (ViewAccepts(m, b) ==> Right(p.messages[i].fields, j, m.fields[j], b))
  {
    AcceptsExactlyWritten(s, p);
    LaidOutAt(p.messages, i);
    TilesIffFits(p.messages[i]);
    if ViewAccepts(LaidOut(p.messages[i]), b) {
      AccessorCorrect(p.messages[i], j, b);
    }
  }

  /** The emitted `message_size`: a switch over the message types. */
  function MessageSize(ms: seq<Message>, tag: char): Option<nat> {
    if ms == [] then None else if ms[0].tag == tag then Some(ms[0].size) else MessageSize(ms[1..], tag)
  }

  lemma {:induction false} MessageSizeFound(ms: seq<Message>, i: nat)
    requires i < |ms| && forall j :: 0 <= j < |ms| && ms[j].tag == ms[i].tag ==> j == i
    ensures MessageSize(ms, ms[i].tag) == Some(ms[i].size)
  {
    if i > 0 {
      forall j | 0 <= j < |ms[1..]| && ms[1..][j].tag == ms[i].tag ensures j == i - 1 {
        assert ms[j + 1].tag == ms[i].tag;
      }
      MessageSizeFound(ms[1..], i - 1);
    }
  }

  lemma {:induction false} MessageSizeAbsent(ms: seq<Message>, tag: char)
    requires forall i :: 0 <= i < |ms| ==> ms[i].tag != tag
    ensures MessageSize(ms, tag) == None
  {
    if ms != [] {
      MessageSizeAbsent(ms[1..], tag);
    }
  }

  /** For an accepted schema, the switch gives every message its own size, and no size to other types. */
  lemma MessageSizesRight(s: string, p: ProtocolDecl, tag: char)
    requires ParseText(s) == Accepted(p)
    ensures forall i :: 0 <= i < |p.messages| && p.messages[i].tag == tag ==>
              MessageSize(Layout(p).messages, tag) == Some(Size(p.messages[i].fields))
    ensures !HasTag(p.messages, tag) ==> MessageSize(Layout(p).messages, tag) == None
  {
    AcceptsExactlyWritten(s, p);
    var ms := Layout(p).messages;
    forall i | 0 <= i < |ms| ensures ms[i] == LaidOut(p.messages[i]) {
      LaidOutAt(p.messages, i);
    }
    forall i | 0 <= i < |ms| && p.messages[i].tag == tag
      ensures MessageSize(ms, tag) == Some(Size(p.messages[i].fields))
    {
      MessageSizeFound(ms, i);
    }
    if !HasTag(p.messages, tag) {
      MessageSizeAbsent(ms, tag);
    }
  }
}
