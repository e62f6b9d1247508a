/**
 The text of a schema: its tokens, what may stand between them, and how the lexer takes them apart
 (tools/protocolc/main.cpp:14-84). A character stands for one byte.
 */
module SchemaText {
  import opened Types
  import opened Sequences

  datatype Token =
    | Ident(text: string)
    | Quoted(text: string)
    | Numeral(text: string)
    | LBrace
    | RBrace
    | LBracket
    | RBracket
    | Colon
    | Semicolon
    | End

  datatype SchemaError =
    | UnexpectedCharacter
    | NewlineInString
    | UnterminatedString
    | UnexpectedToken
    | WrongKeyword
    | MessageTypeNotOneByte
    | DuplicateMessageType
    | DuplicateMessageName
    | DuplicateField
    | UnknownFieldType
    | NumberOutOfRange
    | EmptyText

  datatype Outcome<+T> = Accepted(value: T) | Rejected(error: SchemaError) {
    predicate IsFailure() {
      Rejected?
    }

    function PropagateFailure<U>(): Outcome<U>
      requires IsFailure()
    {
      Rejected(error)
    }

    function Extract(): T
      requires !IsFailure()
    {
      value
    }
  }

  // ---------------------------------------------------------------- characters

  predicate IsSpace(c: char) {
    c == ' ' || '\t' <= c <= '\r'
  }

  predicate IsDigit(c: char) {
    '0' <= c <= '9'
  }

  predicate StartsWord(c: char) {
    'a' <= c <= 'z' || 'A' <= c <= 'Z' || c == '_'
  }

  /** The characters that continue a numeral or an identifier. */
  predicate Continues(numeral: bool, c: char) {
    IsDigit(c) || (!numeral && StartsWord(c))
  }

  function Mark(c: char): (t: Option<Token>) {
    match c
    case '{' => Some(LBrace)
    case '}' => Some(RBrace)
    case '[' => Some(LBracket)
    case ']' => Some(RBracket)
    case ':' => Some(Colon)
    case ';' => Some(Semicolon)
    case _ => None
  }

  // ---------------------------------------------------------------- the lexer, as a function of the text that is left

  predicate StartsComment(s: string) {
    |s| >= 2 && s[0] == '/' && s[1] == '/'
  }

  /** How many characters are left of the line, without the line break. */
  function Line(s: string): (n: nat)
    ensures n <= |s|
  {
    if s == [] || s[0] == '\n' then 0 else 1 + Line(s[1..])
  }

  function SkipBlank(s: string): (r: string)
    ensures |r| <= |s|
    decreases |s|
  {
    if s == [] then []
    else if IsSpace(s[0]) then SkipBlank(s[1..])
    else if StartsComment(s) then SkipBlank(s[2..][Line(s[2..])..])
    else s
  }

  /** How many characters from the start continue a numeral or identifier. */
  function Span(numeral: bool, s: string): (n: nat)
    ensures n <= |s|
  {
    if s == [] || !Continues(numeral, s[0]) then 0 else 1 + Span(numeral, s[1..])
  }

  /** The length of the string literal whose opening quote has been read. */
  function Closing(s: string): (n: Outcome<nat>)
    ensures n.Accepted? ==> n.value < |s|
  {
    if s == [] then Rejected(UnterminatedString)
    else if s[0] == '"' then Accepted(0)
    else if s[0] == '\n' then Rejected(NewlineInString)
    else
      var n :- Closing(s[1..]);
      Accepted(n + 1)
  }

  function Word(numeral: bool, s: string): (Token, string)
    requires s != []
  {
    var n := 1 + Span(numeral, s[1..]);
    (if numeral then Numeral(s[..n]) else Ident(s[..n]), s[n..])
  }

  /** The token at the very start of a text that has been rid of blanks. */
  function Lexeme(s: string): Outcome<(Token, string)> {
    if s == [] then Accepted((End, []))
    else if Mark(s[0]).Some? then Accepted((Mark(s[0]).value, s[1..]))
    else if s[0] == '"' then
      var n :- Closing(s[1..]);
      Accepted((Quoted(s[1..n + 1]), s[n + 2..]))
    else if IsDigit(s[0]) then Accepted(Word(true, s))
    else if StartsWord(s[0]) then Accepted(Word(false, s))
    else Rejected(UnexpectedCharacter)
  }

  /** The next token, and the text after it. */
  function Next(s: string): Outcome<(Token, string)> {
    Lexeme(SkipBlank(s))
  }

  /** Every token but the last uses up text. */
  lemma NextConsumes(s: string)
    ensures Next(s).Accepted? && Next(s).value.0 != End ==> |Next(s).value.1| < |s|
  {
  }

  // ---------------------------------------------------------------- writing tokens

  datatype Blank = Space(c: char) | Comment(text: string)

  predicate LegalBlank(b: Blank) {
    if b.Space? then IsSpace(b.c) else '\n' !in b.text
  }

  function BlankText(b: Blank): string {
    if b.Space? then [b.c] else "//" + b.text + "\n"
  }

  function GapText(g: seq<Blank>): string {
    if g == [] then "" else BlankText(g[0]) + GapText(g[1..])
  }

  predicate LegalGap(g: seq<Blank>) {
    forall b :: b in g ==> LegalBlank(b)
  }

  predicate LegalToken(t: Token) {
    match t
    case Ident(x) => x != [] && StartsWord(x[0]) && forall c :: c in x ==> Continues(false, c)
    case Numeral(x) => x != [] && forall c :: c in x ==> Continues(true, c)
    case Quoted(x) => '"' !in x && '\n' !in x
    case End => false
    case _ => true
  }

  function TokenText(t: Token): string {
    match t
    case Ident(x) => x
    case Numeral(x) => x
    case Quoted(x) => "\"" + x + "\""
    case LBrace => "{"
    case RBrace => "}"
    case LBracket => "["
    case RBracket => "]"
    case Colon => ":"
    case Semicolon => ";"
    case End => ""
  }

  /** The token ends where `rest` begins. */
  predicate Stops(t: Token, rest: string) {
    rest != [] ==> (t.Ident? ==> !Continues(false, rest[0])) && (t.Numeral? ==> !Continues(true, rest[0]))
  }

  /** A token and the blanks in front of it. */
  datatype Piece = Piece(gap: seq<Blank>, token: Token)

  /** What follows the last token: blanks, and possibly a comment that the text's end cuts off. */
  datatype Tail = Tail(gap: seq<Blank>, comment: Option<string>)

  function TailText(t: Tail): string {
    GapText(t.gap) + CutComment(t.comment)
  }

  function CutComment(comment: Option<string>): string {
    if comment.Some? then "//" + comment.value else ""
  }

  predicate LegalTail(t: Tail) {
    LegalGap(t.gap) && (t.comment.Some? ==> '\n' !in t.comment.value)
  }

  function Print(ps: seq<Piece>, tail: Tail): string {
    if ps == [] then TailText(tail)
    else GapText(ps[0].gap) + TokenText(ps[0].token) + Print(ps[1..], tail)
  }

  function Tokens(ps: seq<Piece>): (ts: seq<Token>)
    ensures |ts| == |ps|
  {
    if ps == [] then [] else [ps[0].token] + Tokens(ps[1..])
  }

  /** Would two tokens, written without a blank between them, be read as one? */
  predicate Glue(t: Token, u: Token) {
    (t.Ident? && (u.Ident? || u.Numeral?)) || (t.Numeral? && u.Numeral?)
  }

  /** Legal tokens and blanks, with a blank wherever two tokens would run together. */
  predicate Legal(ps: seq<Piece>, tail: Tail) {
    if ps == [] then LegalTail(tail)
    else
      && LegalGap(ps[0].gap) && LegalToken(ps[0].token)
      && (|ps| > 1 && ps[1].gap == [] ==> !Glue(ps[0].token, ps[1].token))
      && Legal(ps[1..], tail)
  }

  // ---------------------------------------------------------------- what is written is read back

  lemma {:induction false} LineStops(text: string, rest: string)
    requires '\n' !in text && (rest == [] || rest[0] == '\n')
    ensures Line(text + rest) == |text|
  {
    if text == [] {
      assert text + rest == rest;
    } else {
      LineStops(text[1..], rest);
      assert (text + rest)[1..] == text[1..] + rest;
    }
  }

  lemma SkipsComment(text: string, rest: string)
    requires '\n' !in text && (rest == [] || rest[0] == '\n')
    ensures SkipBlank("//" + text + rest) == SkipBlank(rest)
  {
    var s := "//" + text + rest;
    assert s[2..] == text + rest;
    LineStops(text, rest);
    assert (text + rest)[|text|..] == rest;
  }

  lemma SkipsBlank(b: Blank, rest: string)
    requires LegalBlank(b)
    ensures SkipBlank(BlankText(b) + rest) == SkipBlank(rest)
  {
    if b.Space? {
      assert (BlankText(b) + rest)[1..] == rest;
    } else {
      SkipsComment(b.text, "\n" + rest);
      Assoc("//" + b.text, "\n", rest);
      assert ("\n" + rest)[1..] == rest;
    }
  }

  lemma {:induction false} SkipsGap(g: seq<Blank>, rest: string)
    requires LegalGap(g)
    ensures SkipBlank(GapText(g) + rest) == SkipBlank(rest)
  {
    if g == [] {
      assert GapText(g) + rest == rest;
    } else {
      SkipsBlank(g[0], GapText(g[1..]) + rest);
      Assoc(BlankText(g[0]), GapText(g[1..]), rest);
      SkipsGap(g[1..], rest);
    }
  }

  lemma SkipsTail(t: Tail)
    requires LegalTail(t)
    ensures SkipBlank(TailText(t)) == []
  {
    var rest := CutComment(t.comment);
    SkipsGap(t.gap, rest);
    if t.comment.Some? {
      SkipsComment(t.comment.value, "");
      assert rest == "//" + t.comment.value + "";
    }
  }

  lemma {:induction false} SpanOfWord(numeral: bool, x: string, rest: string)
    requires forall c :: c in x ==> Continues(numeral, c)
    requires rest == [] || !Continues(numeral, rest[0])
    ensures Span(numeral, x + rest) == |x|
  {
    if x == [] {
      assert x + rest == rest;
    } else {
      SpanOfWord(numeral, x[1..], rest);
      assert (x + rest)[1..] == x[1..] + rest;
    }
  }

  lemma {:induction false} ClosingOfQuoted(x: string, rest: string)
    requires '"' !in x && '\n' !in x
    ensures Closing(x + "\"" + rest) == Accepted(|x|)
  {
    if x == [] {
      assert x + "\"" + rest == "\"" + rest;
    } else {
      ClosingOfQuoted(x[1..], rest);
      assert (x + "\"" + rest)[1..] == x[1..] + "\"" + rest;
    }
  }

  lemma ReadsWord(numeral: bool, x: string, rest: string)
    requires x != [] && forall c :: c in x ==> Continues(numeral, c)
    requires rest == [] || !Continues(numeral, rest[0])
    ensures Word(numeral, x + rest) == (if numeral then Numeral(x) else Ident(x), rest)
  {
    SpanOfWord(numeral, x[1..], rest);
    assert (x + rest)[1..] == x[1..] + rest;
    assert (x + rest)[..|x|] == x && (x + rest)[|x|..] == rest;
  }

  lemma ReadsQuoted(x: string, rest: string)
    requires '"' !in x && '\n' !in x
    ensures Lexeme("\"" + x + "\"" + rest) == Accepted((Quoted(x), rest))
  {
    var s := "\"" + x + "\"" + rest;
    assert s[1..] == x + "\"" + rest;
    ClosingOfQuoted(x, rest);
    assert s[1..|x| + 1] == x && s[|x| + 2..] == rest;
  }

  lemma ReadsToken(t: Token, rest: string)
    requires LegalToken(t) && Stops(t, rest)
    ensures Lexeme(TokenText(t) + rest) == Accepted((t, rest))
    ensures SkipBlank(TokenText(t) + rest) == TokenText(t) + rest
  {
    var s := TokenText(t) + rest;
    assert |TokenText(t)| == 1 ==> s[1..] == rest;
    match t
    case Ident(x) => ReadsWord(false, x, rest);
    case Numeral(x) =>
      assert x[0] in x;
      ReadsWord(true, x, rest);
    case Quoted(x) => ReadsQuoted(x, rest);
    case _ =>
  }

  /** A legal token after a legal gap is read as that token, if it ends there. */
  lemma ReadsPiece(p: Piece, rest: string)
    requires LegalGap(p.gap) && LegalToken(p.token) && Stops(p.token, rest)
    ensures Next(GapText(p.gap) + TokenText(p.token) + rest) == Accepted((p.token, rest))
  {
    SkipsGap(p.gap, TokenText(p.token) + rest);
    Assoc(GapText(p.gap), TokenText(p.token), rest);
    ReadsToken(p.token, rest);
  }

  /** Where a token ends depends on the next character alone. */
  lemma StopsBefore(t: Token, first: string, rest: string)
    requires first != [] && Stops(t, first)
    ensures Stops(t, first + rest)
  {
  }

  lemma GapStops(t: Token, g: seq<Blank>)
    requires LegalGap(g) && g != []
    ensures GapText(g) != [] && Stops(t, GapText(g))
  {
    assert LegalBlank(g[0]);
    StopsBefore(t, BlankText(g[0]), GapText(g[1..]));
  }

  lemma TokenStops(t: Token, u: Token)
    requires LegalToken(u) && !Glue(t, u)
    ensures TokenText(u) != [] && Stops(t, TokenText(u))
  {
  }

  lemma TailStops(t: Token, tail: Tail)
    requires LegalTail(tail)
    ensures Stops(t, TailText(tail))
  {
    if tail.gap != [] {
      GapStops(t, tail.gap);
    }
  }

  lemma PieceStops(t: Token, ps: seq<Piece>, tail: Tail)
    requires Legal(ps, tail) && (ps != [] && ps[0].gap == [] ==> !Glue(t, ps[0].token))
    ensures Stops(t, Print(ps, tail))
  {
    if ps == [] {
      TailStops(t, tail);
    } else {
      var gap, word, rest := GapText(ps[0].gap), TokenText(ps[0].token), Print(ps[1..], tail);
      if ps[0].gap == [] {
        TokenStops(t, ps[0].token);
        assert gap + word == word;
      } else {
        GapStops(t, ps[0].gap);
        StopsBefore(t, gap, word);
      }
      StopsBefore(t, gap + word, rest);
    }
  }

  // ---------------------------------------------------------------- what is read was so written

  lemma {:induction false} LineEnds(s: string)
    ensures '\n' !in s[..Line(s)]
    ensures Line(s) < |s| ==> s[Line(s)] == '\n'
  {
    if s != [] && s[0] != '\n' {
      LineEnds(s[1..]);
      assert s[..Line(s)] == [s[0]] + s[1..][..Line(s[1..])];
    }
  }

  lemma SkipsLine(s: string)
    requires StartsComment(s)
    ensures SkipBlank(s) == SkipBlank(s[Line(s[2..]) + 2..])
  {
    PartsOfSuffix(s, 2, Line(s[2..]));
  }

  lemma SkipsLineBreak(s: string, n: nat)
    requires n < |s| && s[n] == '\n'
    ensures SkipBlank(s[n..]) == SkipBlank(s[n + 1..])
  {
    PartsOfSuffix(s, n, 1);
  }

  lemma CommentText(s: string)
    requires StartsComment(s)
    ensures var n := Line(s[2..]);
            && '\n' !in s[2..n + 2]
            && (n + 2 == |s| ==> s == "//" + s[2..n + 2])
            && (n + 2 < |s| ==> s[n + 2] == '\n' && s == BlankText(Comment(s[2..n + 2])) + s[n + 3..])
  {
    var n := Line(s[2..]);
    LineEnds(s[2..]);
    PartsOfSuffix(s, 2, n);
    assert n + 2 < |s| ==> s[2..][n] == s[n + 2];
  }

  /** A comment and the text after it. */
  lemma CommentSplit(s: string) returns (text: string, cut: bool, rest: string)
    requires StartsComment(s)
    ensures '\n' !in text && SkipBlank(s) == SkipBlank(rest) && |rest| < |s|
    ensures if cut then rest == [] && s == "//" + text else s == BlankText(Comment(text)) + rest
  {
    var n := Line(s[2..]);
    SkipsLine(s);
    CommentText(s);
    text, cut := s[2..n + 2], n + 2 == |s|;
    if cut {
      rest := s[n + 2..];
    } else {
      SkipsLineBreak(s, n + 2);
      rest := s[n + 3..];
    }
  }

  /** Whatever was skipped is a legal gap, and at the end of the text perhaps a comment. */
  lemma {:induction false} SkippedBlank(s: string) returns (t: Tail)
    ensures LegalTail(t) && s == TailText(t) + SkipBlank(s)
    ensures t.comment.Some? ==> SkipBlank(s) == []
    decreases |s|
  {
    t := Tail([], None);
    if s != [] && IsSpace(s[0]) {
      t := SkippedBlank(s[1..]);
      t := PrependBlank(s, Space(s[0]), s[1..], t);
    } else if StartsComment(s) {
      var text, cut, rest := CommentSplit(s);
      if cut {
        t := Tail([], Some(text));
        assert s == TailText(t);
      } else {
        t := SkippedBlank(rest);
        t := PrependBlank(s, Comment(text), rest, t);
      }
    }
  }

  lemma PrependBlank(s: string, b: Blank, rest: string, t: Tail) returns (t': Tail)
    requires LegalBlank(b) && LegalTail(t) && s == BlankText(b) + rest && rest == TailText(t) + SkipBlank(rest)
    ensures LegalTail(t') && t'.comment == t.comment && s == TailText(t') + SkipBlank(rest)
  {
    t' := Tail([b] + t.gap, t.comment);
    assert ([b] + t.gap)[1..] == t.gap;
    Assoc(BlankText(b), TailText(t), SkipBlank(rest));
    Assoc(BlankText(b), GapText(t.gap), CutComment(t.comment));
  }

  lemma {:induction false} SpanContinues(numeral: bool, s: string)
    ensures forall c :: c in s[..Span(numeral, s)] ==> Continues(numeral, c)
    ensures Span(numeral, s) < |s| ==> !Continues(numeral, s[Span(numeral, s)])
  {
    if s != [] && Continues(numeral, s[0]) {
      SpanContinues(numeral, s[1..]);
      assert s[..Span(numeral, s)] == [s[0]] + s[1..][..Span(numeral, s[1..])];
    }
  }

  lemma {:induction false} ClosingCloses(s: string)
    requires Closing(s).Accepted?
    ensures var n := Closing(s).value; s[n] == '"' && '"' !in s[..n] && '\n' !in s[..n]
  {
    if s[0] != '"' {
      ClosingCloses(s[1..]);
      var n := Closing(s).value;
      assert s[..n] == [s[0]] + s[1..][..n - 1];
    }
  }

  lemma WordWritten(numeral: bool, s: string)
    requires s != [] && (if numeral then IsDigit(s[0]) else StartsWord(s[0]))
    ensures var (t, rest) := Word(numeral, s); LegalToken(t) && Stops(t, rest) && s == TokenText(t) + rest
  {
    SpanContinues(numeral, s[1..]);
    var n := 1 + Span(numeral, s[1..]);
    FirstAndPart(s, n);
    SplitJoins(s, n);
  }

  lemma QuotedWritten(s: string)
    requires s != [] && s[0] == '"' && Lexeme(s).Accepted?
    ensures var (t, rest) := Lexeme(s).value; LegalToken(t) && Stops(t, rest) && s == TokenText(t) + rest
  {
    ClosingCloses(s[1..]);
    var n := Closing(s[1..]).value;
    assert s[1..][..n] == s[1..n + 1];
    assert s == "\"" + s[1..n + 1] + "\"" + s[n + 2..];
  }

  lemma LexemeWritten(s: string)
    requires s != [] && Lexeme(s).Accepted?
    ensures var (t, rest) := Lexeme(s).value; LegalToken(t) && Stops(t, rest) && s == TokenText(t) + rest
  {
    if Mark(s[0]).Some? {
      assert s == [s[0]] + s[1..];
    } else if s[0] == '"' {
      QuotedWritten(s);
    } else if IsDigit(s[0]) {
      WordWritten(true, s);
    } else {
      WordWritten(false, s);
    }
  }
}
