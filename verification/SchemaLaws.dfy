/**
 The schema language in plain terms: characters, tokens, type names, widths, offsets and accessors, each as a value
 (tools/protocolc/main.cpp:24-208).
 */
module SchemaLaws {
  import opened Types
  import opened Sequences
  import opened Bytes
  import opened Schema
  import opened SchemaText
  import opened SchemaGrammar

  // ---------------------------------------------------------------- characters

  /** Space, tab, line feed, vertical tab, form feed and carriage return are blank. */
  lemma BlanksSkipped(s: string)
    ensures SkipBlank([' '] + s) == SkipBlank(s) && SkipBlank(['\t'] + s) == SkipBlank(s)
    ensures SkipBlank(['\n'] + s) == SkipBlank(s) && SkipBlank(['\U{00000B}'] + s) == SkipBlank(s)
    ensures SkipBlank(['\U{00000C}'] + s) == SkipBlank(s) && SkipBlank(['\r'] + s) == SkipBlank(s)
  {
    BlankSkipped(' ', s);
    BlankSkipped('\t', s);
    BlankSkipped('\n', s);
    BlankSkipped('\U{00000B}', s);
    BlankSkipped('\U{00000C}', s);
    BlankSkipped('\r', s);
  }

  lemma BlankSkipped(c: char, s: string)
    requires IsSpace(c)
    ensures SkipBlank([c] + s) == SkipBlank(s)
  {
    assert ([c] + s)[1..] == s;
  }

  /** Nothing else is, but for comments. */
  lemma OthersNotSkipped(c: char, s: string)
    requires c != ' ' && c != '\t' && c != '\n' && c != '\U{00000B}' && c != '\U{00000C}' && c != '\r' && c != '/'
    ensures SkipBlank([c] + s) == [c] + s
  {
  }

  /** What a text of one character is. */
  lemma LexemeOfOne(c: char)
    ensures Lexeme([c])
            == if 'a' <= c <= 'z' || 'A' <= c <= 'Z' || c == '_' then Accepted((Ident([c]), []))
               else if '0' <= c <= '9' then Accepted((Numeral([c]), []))
               else if c == '{' then Accepted((LBrace, [])) else if c == '}' then Accepted((RBrace, []))
               else if c == '[' then Accepted((LBracket, [])) else if c == ']' then Accepted((RBracket, []))
               else if c == ':' then Accepted((Colon, [])) else if c == ';' then Accepted((Semicolon, []))
               else if c == '"' then Rejected(UnterminatedString) else Rejected(UnexpectedCharacter)
  {
    assert [c][1..] == [];
    assert [c][..1] == [c];
  }

  /** An identifier goes on with letters, digits and underscores, a numeral with digits. */
  lemma LexemeOfTwo(c: char, d: char)
    requires 'a' <= c <= 'z' || 'A' <= c <= 'Z' || c == '_' || '0' <= c <= '9'
    ensures var letter := 'a' <= d <= 'z' || 'A' <= d <= 'Z' || d == '_';
            var digit := '0' <= d <= '9';
            Lexeme([c, d])
            == if '0' <= c <= '9'
               then if digit then Accepted((Numeral([c, d]), [])) else Accepted((Numeral([c]), [d]))
               else if letter || digit then Accepted((Ident([c, d]), [])) else Accepted((Ident([c]), [d]))
  {
    var s := [c, d];
    assert s[1..] == [d] && [d][1..] == [];
    assert s[..1] == [c] && s[..2] == [c, d] && s[2..] == [];
  }

  /** A string literal runs to the next quote, on one line. */
  lemma LexemeOfString(c: char)
    ensures Lexeme(['"']) == Rejected(UnterminatedString)
    ensures Lexeme(['"', c, '"'])
            == if c == '"' then Accepted((Quoted([]), ['"']))
               else if c == '\n' then Rejected(NewlineInString) else Accepted((Quoted([c]), []))
  {
    var s := ['"', c, '"'];
    if c == '"' {
      ReadsQuoted([], ['"']);
      assert "\"" + [] + "\"" + ['"'] == s;
    } else if c == '\n' {
      assert s[1..] == [c, '"'];
    } else {
      ReadsQuoted([c], []);
      assert "\"" + [c] + "\"" + [] == s;
    }
  }

  /** A comment starts with two slashes and ends with its line. */
  lemma CommentsSkipped(s: string)
    ensures SkipBlank(['/', '/', 'x', '\n'] + s) == SkipBlank(s)
    ensures SkipBlank(['/', '/', 'x']) == [] && Lexeme(['/', 'x']) == Rejected(UnexpectedCharacter)
  {
    SkipsComment(['x'], ['\n'] + s);
    assert "//" + ['x'] + (['\n'] + s) == ['/', '/', 'x', '\n'] + s;
    BlankSkipped('\n', s);
    SkipsComment(['x'], []);
    assert "//" + ['x'] + [] == ['/', '/', 'x'];
  }

  /** Numerals are decimal. */
  lemma DecimalNumerals(text: string, c: char)
    requires '0' <= c <= '9'
    ensures NatOf([]) == 0 && NatOf(text + [c]) == 10 * NatOf(text) + (c as int - '0' as int)
  {
    ButLastOfConcat(text, [c]);
    NothingAfter(text);
  }

  // ---------------------------------------------------------------- types

  /** The names of the types. */
  lemma ShortTypeNames(ts: seq<Token>)
    ensures ParseType(Whole([Ident("u8")] + ts)) == Accepted((U8, Whole(ts)))
    ensures ParseType(Whole([Ident("char")] + ts)) == Accepted((Char, Whole(ts)))
    ensures ParseType(Whole([Ident("u16_be")] + ts)) == Accepted((U16Be, Whole(ts)))
    ensures ParseType(Whole([Ident("u32_be")] + ts)) == Accepted((U32Be, Whole(ts)))
  {
    SimpleTypeTaken("u8", U8, ts);
    SimpleTypeTaken("char", Char, ts);
    SimpleTypeTaken("u16_be", U16Be, ts);
    SimpleTypeTaken("u32_be", U32Be, ts);
  }

  lemma LongTypeNames(ts: seq<Token>)
    ensures ParseType(Whole([Ident("price4")] + ts)) == Accepted((Price4, Whole(ts)))
    ensures ParseType(Whole([Ident("u48_be")] + ts)) == Accepted((U48Be, Whole(ts)))
    ensures ParseType(Whole([Ident("u64_be")] + ts)) == Accepted((U64Be, Whole(ts)))
    ensures ParseType(Whole([Ident("price8")] + ts)) == Accepted((Price8, Whole(ts)))
  {
    SimpleTypeTaken("price4", Price4, ts);
    SimpleTypeTaken("u48_be", U48Be, ts);
    SimpleTypeTaken("u64_be", U64Be, ts);
    SimpleTypeTaken("price8", Price8, ts);
  }

  lemma SimpleTypeTaken(name: string, ty: FieldType, ts: seq<Token>)
    requires name != "ascii" && SimpleType(name) == Some(ty)
    ensures ParseType(Whole([Ident(name)] + ts)) == Accepted((ty, Whole(ts)))
  {
    ExpectTakes([Ident(name)] + ts, IDENT);
    assert ([Ident(name)] + ts)[1..] == ts;
  }

  /** A text has a width of its own, from 1 to 2^64 - 1. */
  lemma TextType(numeral: string, ts: seq<Token>)
    ensures ParseType(Whole([Ident("ascii"), LBracket, Numeral(numeral), RBracket] + ts))
            == if NatOf(numeral) > 0xFFFF_FFFF_FFFF_FFFF then Rejected(NumberOutOfRange)
               else if NatOf(numeral) == 0 then Rejected(EmptyText)
               else Accepted((Ascii(NatOf(numeral)), Whole(ts)))
  {
    var all := [Ident("ascii"), LBracket, Numeral(numeral), RBracket] + ts;
    ExpectTakes(all, IDENT);
    ExpectTakes(all[1..], LBracket);
    PartsOfSuffix(all, 1, 1);
    ExpectTakes(all[2..], NUMERAL);
    PartsOfSuffix(all, 2, 1);
    ExpectTakes(all[3..], RBracket);
    PartsOfSuffix(all, 3, 1);
    assert all[4..] == ts;
  }

  /** Any other name is rejected. */
  lemma OtherTypeRejected(name: string, ts: seq<Token>)
    requires name !in {"u8", "char", "u16_be", "u32_be", "price4", "u48_be", "u64_be", "price8", "ascii"}
    ensures ParseType(Whole([Ident(name)] + ts)) == Rejected(UnknownFieldType)
  {
    ExpectTakes([Ident(name)] + ts, IDENT);
  }

  /** The widths. */
  lemma Widths(n: nat)
    ensures Width(U8) == 1 && Width(Char) == 1 && Width(U16Be) == 2 && Width(U32Be) == 4 && Width(Price4) == 4
    ensures Width(U48Be) == 6 && Width(U64Be) == 8 && Width(Price8) == 8 && Width(Ascii(n)) == n
  {
  }

  // ---------------------------------------------------------------- a protocol in tokens

  /** The words and marks of a protocol with one message of one text field, in their order. */
  lemma ProtocolInTokens(name: string, message: string, tag: char, field: string, numeral: string)
    requires 1 <= NatOf(numeral) <= U64_MAX
    ensures ParseProtocol(Whole([Ident("protocol"), Ident(name), Semicolon]
                                + ([Ident("message"), Ident(message), Quoted([tag]), LBrace]
                                   + [Ident(field), Colon, Ident("ascii"), LBracket, Numeral(numeral), RBracket,
                                      Semicolon, RBrace])))
            == Accepted(ProtocolDecl(name, [MessageDecl(message, tag, [FieldDecl(field, Ascii(NatOf(numeral)))])]))
  {
    var f := FieldDecl(field, Ascii(NatOf(numeral)));
    var m := MessageDecl(message, tag, [f]);
    var ft := [Ident(field), Colon, Ident("ascii"), LBracket, Numeral(numeral), RBracket, Semicolon, RBrace];
    var mt := [Ident("message"), Ident(message), Quoted([tag]), LBrace] + ft;
    FieldSpelledOut(f, numeral, ft);
    MessageSpelledOut(m, ft, mt);
    OneMessageParses(name, m, mt);
  }

  lemma OneMessageParses(name: string, m: MessageDecl, mt: seq<Token>)
    requires SpellsMessages(mt, [m]) && WellFormedFields(m.fields)
    ensures ParseProtocol(Whole([Ident("protocol"), Ident(name), Semicolon] + mt)) == Accepted(ProtocolDecl(name, [m]))
  {
    var ts := [Ident("protocol"), Ident(name), Semicolon] + mt;
    assert ts[3..] == mt;
    ProtocolIff(ts, ProtocolDecl(name, [m]));
  }

  lemma MessageSpelledOut(m: MessageDecl, ft: seq<Token>, mt: seq<Token>)
    requires SpellsFields(ft, m.fields, [RBrace])
    requires mt == [Ident("message"), Ident(m.name), Quoted([m.tag]), LBrace] + ft
    ensures SpellsMessages(mt, [m])
  {
    assert mt[4..] == ft;
    NothingAfter([RBrace]);
    MessageSpan(mt, m, []);
    assert mt[MessageLength(m)..] == [] && [m][1..] == [];
  }

  lemma FieldSpelledOut(f: FieldDecl, numeral: string, ft: seq<Token>)
    requires f.ty == Ascii(NatOf(numeral))
    requires ft == [Ident(f.name), Colon, Ident("ascii"), LBracket, Numeral(numeral), RBracket, Semicolon, RBrace]
    ensures SpellsFields(ft, [f], [RBrace])
  {
    var tt := ft[2..];
    assert tt[1..] == ft[3..];
    assert StartsWidth(tt[1..], f.ty.chars);
    assert StartsField(ft, f);
    assert ft[7..] == [RBrace] && [f][1..] == [];
  }

  /** An accepted schema has no two messages with one name or type, no two fields with one name, and no empty text. */
  lemma AcceptedIsSound(s: string, p: ProtocolDecl)
    requires ParseText(s) == Accepted(p)
    ensures forall i, j :: 0 <= i < j < |p.messages| ==>
              p.messages[i].name != p.messages[j].name && p.messages[i].tag != p.messages[j].tag
    ensures forall k, i, j :: 0 <= k < |p.messages| && 0 <= i < j < |p.messages[k].fields| ==>
              p.messages[k].fields[i].name != p.messages[k].fields[j].name
    ensures forall k, i :: 0 <= k < |p.messages| && 0 <= i < |p.messages[k].fields|
                           && p.messages[k].fields[i].ty.Ascii? ==>
              1 <= p.messages[k].fields[i].ty.chars <= 0xFFFF_FFFF_FFFF_FFFF
  {
    AcceptsExactlyWritten(s, p);
    forall k | 0 <= k < |p.messages| ensures WellFormedFields(p.messages[k].fields) {
    }
  }

  // ---------------------------------------------------------------- layout

  /** The first field follows the type byte, each other the field before it, and the size is where the last ends. */
  lemma OffsetsLaw(m: MessageDecl, i: nat)
    requires i < |m.fields|
    ensures LaidOut(m).name == m.name && LaidOut(m).tag == m.tag && |LaidOut(m).fields| == |m.fields|
    ensures var f := LaidOut(m).fields[i];
            && f.name == m.fields[i].name && f.ty == m.fields[i].ty && f.width == Width(m.fields[i].ty)
            && (i == 0 ==> f.offset == 1)
            && (if i + 1 < |m.fields| then LaidOut(m).fields[i + 1].offset else LaidOut(m).size)
               == (f.offset + f.width) % 0x1_0000_0000_0000_0000
  {
    LaidOutFieldAt(m.fields, i);
    SizeAfter(m.fields, i);
    assert m.fields[..0] == [];
    if i + 1 < |m.fields| {
      LaidOutFieldAt(m.fields, i + 1);
    } else {
      assert m.fields[..i + 1] == m.fields;
    }
  }

  /** A message without fields has one byte. */
  lemma EmptyMessageLaw(name: string, tag: char)
    ensures LaidOut(MessageDecl(name, tag, [])) == Message(name, tag, [], 1)
  {
  }

  // ---------------------------------------------------------------- accessors

  /** What each accessor reads, inside the bytes. */
  lemma AccessorValues(name: string, b: Data, o: nat, n: nat)
    requires o + 8 <= |b| && o + n <= |b|
    ensures Eval(AccessorFor(Field(name, U8, 1, o)), b) == Ok(Number(b[o]))
    ensures Eval(AccessorFor(Field(name, Char, 1, o)), b) == Ok(Character(b[o]))
    ensures Eval(AccessorFor(Field(name, U16Be, 2, o)), b) == Ok(Number(BigEndian(b[o..o + 2])))
    ensures Eval(AccessorFor(Field(name, U32Be, 4, o)), b) == Ok(Number(BigEndian(b[o..o + 4])))
    ensures Eval(AccessorFor(Field(name, Price4, 4, o)), b) == Ok(Number(BigEndian(b[o..o + 4])))
    ensures Eval(AccessorFor(Field(name, U48Be, 6, o)), b) == Ok(Number(BigEndian(b[o..o + 6])))
    ensures Eval(AccessorFor(Field(name, U64Be, 8, o)), b) == Ok(Number(BigEndian(b[o..o + 8])))
    ensures Eval(AccessorFor(Field(name, Price8, 8, o)), b) == Ok(Number(BigEndian(b[o..o + 8])))
    ensures Eval(AccessorFor(Field(name, Ascii(n), n, o)), b) == Ok(Text(b[o..o + n]))
  {
    SmallReadersRead(b, o);
  }

  /** A view takes exactly the messages of its type and size. */
  lemma ViewLaw(m: Message, b: Data)
    ensures ViewAccepts(m, b) <==> |b| == m.size && b != [] && b[0] as int == m.tag as int
  {
  }
}
