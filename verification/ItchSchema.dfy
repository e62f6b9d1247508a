/** The seven book-changing messages of schemas/itch50.efe as a schema of their own, and that its text compiles. */
module ItchSchema {
  import opened Schema
  import opened SchemaText
  import opened SchemaGrammar
  import opened SchemaPrinter
  import opened Itch
  import opened CompiledItch

  const BOOK_SCHEMA := ProtocolDecl("NasdaqITCH50", [
    ADD_ORDER, ADD_ORDER_WITH_MPID, ORDER_EXECUTED, ORDER_EXECUTED_WITH_PRICE, ORDER_CANCEL, ORDER_DELETE,
    ORDER_REPLACE])

  predicate Word(x: string) {
    LegalToken(Ident(x))
  }

  lemma HeaderWords()
    ensures Word("stock_locate") && Word("tracking_number")
  {
  }

  lemma ReferenceWords()
    ensures Word("timestamp") && Word("order_reference")
  {
  }

  lemma AddWords()
    ensures Word("side") && Word("shares") && Word("stock") && Word("price") && Word("attribution")
  {
  }

  lemma ExecuteWords()
    ensures Word("executed_shares") && Word("match_number")
  {
  }

  lemma PriceWords()
    ensures Word("printable") && Word("execution_price")
  {
  }

  lemma ChangeWords()
    ensures Word("canceled_shares") && Word("new_order_reference")
  {
  }

  lemma ReplaceWords()
    ensures Word("original_order_reference")
  {
  }

  lemma AddTitles()
    ensures Word("AddOrder") && Word("AddOrderWithMpid")
  {
  }

  lemma ExecuteTitles()
    ensures Word("OrderExecuted") && Word("OrderExecutedWithPrice")
  {
  }

  lemma ChangeTitles()
    ensures Word("OrderCancel") && Word("OrderDelete")
  {
  }

  lemma OtherTitles()
    ensures Word("OrderReplace") && Word("NasdaqITCH50")
  {
  }

  lemma AddOrderLegal()
    ensures LegalMessageNames(ADD_ORDER)
  {
    HeaderWords();
    ReferenceWords();
    AddTitles();
    AddWords();
    assert forall i :: 0 <= i < |ADD_ORDER.fields| ==> Word(ADD_ORDER.fields[i].name);
  }

  lemma AddOrderDistinct()
    ensures WellFormedFields(ADD_ORDER.fields)
  {
  }

  lemma AddOrderWithMpidLegal()
    ensures LegalMessageNames(ADD_ORDER_WITH_MPID)
  {
    HeaderWords();
    ReferenceWords();
    AddTitles();
    AddWords();
    assert forall i :: 0 <= i < |ADD_ORDER_WITH_MPID.fields| ==> Word(ADD_ORDER_WITH_MPID.fields[i].name);
  }

  lemma AddOrderWithMpidDistinct()
    ensures WellFormedFields(ADD_ORDER_WITH_MPID.fields)
  {
  }

  lemma OrderExecutedLegal()
    ensures LegalMessageNames(ORDER_EXECUTED)
  {
    HeaderWords();
    ReferenceWords();
    ExecuteTitles();
    ExecuteWords();
    assert forall i :: 0 <= i < |ORDER_EXECUTED.fields| ==> Word(ORDER_EXECUTED.fields[i].name);
  }

  lemma OrderExecutedDistinct()
    ensures WellFormedFields(ORDER_EXECUTED.fields)
  {
  }

  lemma OrderExecutedWithPriceLegal()
    ensures LegalMessageNames(ORDER_EXECUTED_WITH_PRICE)
  {
    HeaderWords();
    ReferenceWords();
    ExecuteTitles();
    ExecuteWords();
    PriceWords();
    assert forall i :: 0 <= i < |ORDER_EXECUTED_WITH_PRICE.fields| ==> Word(ORDER_EXECUTED_WITH_PRICE.fields[i].name);
  }

  lemma OrderExecutedWithPriceDistinct()
    ensures WellFormedFields(ORDER_EXECUTED_WITH_PRICE.fields)
  {
  }

  lemma OrderCancelLegal()
    ensures LegalMessageNames(ORDER_CANCEL)
  {
    HeaderWords();
    ReferenceWords();
    ChangeTitles();
    ChangeWords();
    assert forall i :: 0 <= i < |ORDER_CANCEL.fields| ==> Word(ORDER_CANCEL.fields[i].name);
  }

  lemma OrderCancelDistinct()
    ensures WellFormedFields(ORDER_CANCEL.fields)
  {
  }

  lemma OrderDeleteLegal()
    ensures LegalMessageNames(ORDER_DELETE)
  {
    HeaderWords();
    ReferenceWords();
    ChangeTitles();
    assert forall i :: 0 <= i < |ORDER_DELETE.fields| ==> Word(ORDER_DELETE.fields[i].name);
  }

  lemma OrderDeleteDistinct()
    ensures WellFormedFields(ORDER_DELETE.fields)
  {
  }

  lemma OrderReplaceLegal()
    ensures LegalMessageNames(ORDER_REPLACE)
  {
    HeaderWords();
    ReferenceWords();
    OtherTitles();
    AddWords();
    ChangeWords();
    ReplaceWords();
    assert forall i :: 0 <= i < |ORDER_REPLACE.fields| ==> Word(ORDER_REPLACE.fields[i].name);
  }

  lemma OrderReplaceDistinct()
    ensures WellFormedFields(ORDER_REPLACE.fields)
  {
  }

  lemma MessagesDiffer()
    ensures var ms := BOOK_SCHEMA.messages;
            forall i, j :: 0 <= i < j < |ms| ==> ms[i].name != ms[j].name && ms[i].tag != ms[j].tag
  {
  }

  lemma MessageSound(i: nat)
    requires i < |BOOK_SCHEMA.messages|
    ensures LegalMessageNames(BOOK_SCHEMA.messages[i]) && WellFormedFields(BOOK_SCHEMA.messages[i].fields)
  {
    if i == 0 {
      AddOrderLegal();
      AddOrderDistinct();
    } else if i == 1 {
      AddOrderWithMpidLegal();
      AddOrderWithMpidDistinct();
    } else if i == 2 {
      OrderExecutedLegal();
      OrderExecutedDistinct();
    } else if i == 3 {
      OrderExecutedWithPriceLegal();
      OrderExecutedWithPriceDistinct();
    } else if i == 4 {
      OrderCancelLegal();
      OrderCancelDistinct();
    } else if i == 5 {
      OrderDeleteLegal();
      OrderDeleteDistinct();
    } else {
      OrderReplaceLegal();
      OrderReplaceDistinct();
    }
  }

  lemma BookSchemaLegal()
    ensures LegalNames(BOOK_SCHEMA)
  {
    OtherTitles();
    forall i | 0 <= i < |BOOK_SCHEMA.messages| ensures LegalMessageNames(BOOK_SCHEMA.messages[i]) {
      MessageSound(i);
    }
  }

  lemma BookSchemaWellFormed()
    ensures WellFormedProtocol(BOOK_SCHEMA)
  {
    MessagesDiffer();
    forall i | 0 <= i < |BOOK_SCHEMA.messages| ensures WellFormedFields(BOOK_SCHEMA.messages[i].fields) {
      MessageSound(i);
    }
  }

  lemma BookSchemaDeclares()
    ensures DeclaresBookMessages(BOOK_SCHEMA)
  {
    var ms := BOOK_SCHEMA.messages;
    assert ms[0] in ms && ms[1] in ms && ms[2] in ms && ms[3] in ms && ms[4] in ms && ms[5] in ms && ms[6] in ms;
  }

  /** The results about compiled decoders apply: this schema declares the messages, and its text is accepted. */
  lemma BookSchemaParses()
    ensures ParseText(Render(BOOK_SCHEMA)) == Accepted(BOOK_SCHEMA) && DeclaresBookMessages(BOOK_SCHEMA)
  {
    BookSchemaLegal();
    BookSchemaWellFormed();
    BookSchemaDeclares();
    RenderedParsesBack(BOOK_SCHEMA);
  }
}
