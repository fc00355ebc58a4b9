/** The lexer on small inputs: what `tokenize` returns or throws for each, derived from the
    hand-written classifier one position at a time. */
module Samples {
  import opened Patterns
  import opened Tokenizer
  import opened Classification

  /** The scan table of a fresh lexer holds what the classifier gives. */
  lemma Entry(input: string, p: nat)
    requires p <= |input|
    ensures ScanTable(input)[p] == Classify(input, p)
  {
    assert ScanTable(input)[p] == Scan(input, p);
    ScanIsClassify(input, p);
  }

  /** A character that is not white space and starts a token: the token is pushed on the
      current line and lexing goes on right after it. */
  lemma TokenNext(input: string, hits: seq<Option<Hit>>, pos: nat, line: nat, kind: TokenKind, n: nat)
    requires HitsFit(input, hits) && pos < |input| && !IsWhitespace(input[pos])
    requires hits[pos] == Some(Hit(kind, n))
    ensures var rest := LexFrom(input, hits, pos + n, line);
            LexFrom(input, hits, pos, line) == Outcome([Token(kind, input[pos..pos + n], line)] + rest.tokens, rest.error)
  {
    assert input[pos..pos] == [];
    LexFromToken(input, hits, pos, line, pos, line);
  }

  /** A character that is not white space and that no rule matches stops the lexer. */
  lemma NoMatch(input: string, hits: seq<Option<Hit>>, pos: nat, line: nat)
    requires HitsFit(input, hits) && pos < |input| && !IsWhitespace(input[pos]) && hits[pos].None?
    ensures LexFrom(input, hits, pos, line) == Outcome([], Some(UnexpectedCharacter(input[pos], line)))
  {
    assert input[pos..pos] == [];
    ErrorRound(input, hits, pos, line, pos, line);
  }

  // ---------------------------------------------------------------------------
  // The class of some words

  lemma ClassWord()
    ensures WordKind("class") == Keyword
  {
    assert Keywords[11] == "class";
  }

  lemma IntWord()
    ensures WordKind("int") == DataType
  {
    assert "int" !in Keywords;
    assert DataTypes[0] == "int";
  }

  lemma ListWord()
    ensures WordKind("List") == AbstractDataType
  {
    assert "List" !in Keywords && "List" !in DataTypes;
    assert AbstractDataTypes[0] == "List";
  }

  lemma IntegerWord()
    ensures WordKind("integer") == Identifier
  {
    assert "integer" !in Keywords;
  }

  lemma TrueWord()
    ensures WordKind("true") == Identifier
  {
    assert "true" !in Keywords;
  }

  lemma PrintWord()
    ensures WordKind("print") == Identifier
  {
    PrintIsNotKeyword();
  }

  lemma AWord()
    ensures WordKind("a") == Identifier
  {
    assert "a" !in Keywords;
  }

  lemma BWord()
    ensures WordKind("b") == Identifier
  {
    assert "b" !in Keywords;
  }

  // ---------------------------------------------------------------------------
  // Operators: the first listed spelling wins

  lemma LessEqualsTable()
    ensures ScanTable("<=")[0] == Some(Hit(Operator, 1)) && ScanTable("<=")[1] == Some(Hit(Operator, 1))
  {
    Entry("<=", 0); Entry("<=", 1);
  }

  /** "<=" is not one token: '<' is listed before "<=". */
  lemma LessEqualsSplits()
    ensures Lex("<=") == Ok([Token(Operator, "<", 1), Token(Operator, "=", 1)])
  {
    var s, hits := "<=", ScanTable("<=");
    LessEqualsTable();
    TokenNext(s, hits, 0, 1, Operator, 1);
    TokenNext(s, hits, 1, 1, Operator, 1);
    EndRound(s, hits, 2, 1);
    assert s[0..1] == "<" && s[1..2] == "=";
    assert LexFrom(s, hits, 1, 1) == Outcome([Token(Operator, "=", 1)], None);

    assert LexFrom(s, hits, 0, 1) == Outcome([Token(Operator, "<", 1), Token(Operator, "=", 1)], None);
  }

  lemma EqualsEqualsTable()
    ensures ScanTable("==")[0] == Some(Hit(Operator, 2))
  {
    Entry("==", 0);
  }

  /** "==" is one token: it is listed before the "=" that would split it. */
  lemma EqualsEqualsIsOneToken()
    ensures Lex("==") == Ok([Token(Operator, "==", 1)])
  {
    var s, hits := "==", ScanTable("==");
    EqualsEqualsTable();
    TokenNext(s, hits, 0, 1, Operator, 2);
    EndRound(s, hits, 2, 1);
    assert s[0..2] == "==";

    assert LexFrom(s, hits, 0, 1) == Outcome([Token(Operator, "==", 1)], None);
  }

  lemma PlusEqualsTable()
    ensures ScanTable("+=")[0] == Some(Hit(Operator, 1)) && ScanTable("+=")[1] == Some(Hit(Operator, 1))
  {
    Entry("+=", 0); Entry("+=", 1);
  }

  /** "+=" is '+' then '='. */
  lemma PlusEqualsSplits()
    ensures Lex("+=") == Ok([Token(Operator, "+", 1), Token(Operator, "=", 1)])
  {
    var s, hits := "+=", ScanTable("+=");
    PlusEqualsTable();
    TokenNext(s, hits, 0, 1, Operator, 1);
    TokenNext(s, hits, 1, 1, Operator, 1);
    EndRound(s, hits, 2, 1);
    assert s[0..1] == "+" && s[1..2] == "=";
    assert LexFrom(s, hits, 1, 1) == Outcome([Token(Operator, "=", 1)], None);

    assert LexFrom(s, hits, 0, 1) == Outcome([Token(Operator, "+", 1), Token(Operator, "=", 1)], None);
  }

  lemma ShiftAssignTable()
    ensures var h := ScanTable("<<=");
            h[0] == Some(Hit(Operator, 1)) && h[1] == Some(Hit(Operator, 1)) && h[2] == Some(Hit(Operator, 1))
  {
    Entry("<<=", 0); Entry("<<=", 1); Entry("<<=", 2);
  }

  /** "<<=" is '<', '<' then '='. */
  lemma ShiftAssignSplits()
    ensures Lex("<<=") == Ok([Token(Operator, "<", 1), Token(Operator, "<", 1), Token(Operator, "=", 1)])
  {
    var s, hits := "<<=", ScanTable("<<=");
    ShiftAssignTable();
    TokenNext(s, hits, 0, 1, Operator, 1);
    TokenNext(s, hits, 1, 1, Operator, 1);
    TokenNext(s, hits, 2, 1, Operator, 1);
    EndRound(s, hits, 3, 1);
    assert s[0..1] == "<" && s[1..2] == "<" && s[2..3] == "=";
    assert LexFrom(s, hits, 2, 1) == Outcome([Token(Operator, "=", 1)], None);
    assert LexFrom(s, hits, 1, 1) == Outcome([Token(Operator, "<", 1), Token(Operator, "=", 1)], None);

    assert LexFrom(s, hits, 0, 1) == Outcome([Token(Operator, "<", 1), Token(Operator, "<", 1), Token(Operator, "=", 1)], None);
  }

  // ---------------------------------------------------------------------------
  // Words: the whole word is classed by the first table that holds it

  lemma ClassTable()
    ensures ScanTable("class")[0] == Some(Hit(Keyword, 5))
  {
    Entry("class", 0);
    WordRunIs("class", 0, 5);
    assert "class"[0..5] == "class";
    ClassWord();
  }

  /** "class" is a keyword. */
  lemma ClassIsKeyword()
    ensures Lex("class") == Ok([Token(Keyword, "class", 1)])
  {
    var s, hits := "class", ScanTable("class");
    ClassTable();
    TokenNext(s, hits, 0, 1, Keyword, 5);
    EndRound(s, hits, 5, 1);
    assert s[0..5] == s;

    assert LexFrom(s, hits, 0, 1) == Outcome([Token(Keyword, "class", 1)], None);
  }

  lemma IntegerTable()
    ensures ScanTable("integer")[0] == Some(Hit(Identifier, 7))
  {
    Entry("integer", 0);
    WordRunIs("integer", 0, 7);
    assert "integer"[0..7] == "integer";
    IntegerWord();
  }

  /** "integer" is one identifier, not the data type "int" followed by more. */
  lemma IntegerIsIdentifier()
    ensures Lex("integer") == Ok([Token(Identifier, "integer", 1)])
  {
    var s, hits := "integer", ScanTable("integer");
    IntegerTable();
    TokenNext(s, hits, 0, 1, Identifier, 7);
    EndRound(s, hits, 7, 1);
    assert s[0..7] == s;

    assert LexFrom(s, hits, 0, 1) == Outcome([Token(Identifier, "integer", 1)], None);
  }

  lemma TrueTable()
    ensures ScanTable("true")[0] == Some(Hit(Identifier, 4))
  {
    Entry("true", 0);
    WordRunIs("true", 0, 4);
    assert "true"[0..4] == "true";
    TrueWord();
  }

  /** "true" is an identifier: IDENTIFIER comes before BOOLEAN_LITERAL in the table. */
  lemma TrueIsIdentifier()
    ensures Lex("true") == Ok([Token(Identifier, "true", 1)])
  {
    var s, hits := "true", ScanTable("true");
    TrueTable();
    TokenNext(s, hits, 0, 1, Identifier, 4);
    EndRound(s, hits, 4, 1);
    assert s[0..4] == s;

    assert LexFrom(s, hits, 0, 1) == Outcome([Token(Identifier, "true", 1)], None);
  }

  lemma PrintTable()
    ensures ScanTable("print")[0] == Some(Hit(Identifier, 5))
  {
    Entry("print", 0);
    WordRunIs("print", 0, 5);
    assert "print"[0..5] == "print";
    PrintWord();
  }

  /** "print" is an identifier: the keyword table only holds " print". */
  lemma PrintIsIdentifier()
    ensures Lex("print") == Ok([Token(Identifier, "print", 1)])
  {
    var s, hits := "print", ScanTable("print");
    PrintTable();
    TokenNext(s, hits, 0, 1, Identifier, 5);
    EndRound(s, hits, 5, 1);
    assert s[0..5] == s;

    assert LexFrom(s, hits, 0, 1) == Outcome([Token(Identifier, "print", 1)], None);
  }

  lemma IntTable()
    ensures ScanTable("int List")[0] == Some(Hit(DataType, 3))
  {
    Entry("int List", 0);
    WordRunIs("int List", 0, 3);
    assert "int List"[0..3] == "int";
    IntWord();
  }

  lemma ListTable()
    ensures ScanTable("int List")[4] == Some(Hit(AbstractDataType, 4))
  {
    Entry("int List", 4);
    WordRunIs("int List", 4, 4);
    assert "int List"[4..8] == "List";
    ListWord();
  }

  /** From the space after "int": the abstract data type "List". */
  lemma TypeNamesLastRound()
    ensures LexFrom("int List", ScanTable("int List"), 3, 1) == Outcome([Token(AbstractDataType, "List", 1)], None)
  {
    var s, hits := "int List", ScanTable("int List");
    ListTable();
    assert SkipEnd(s, 3) == 4 && s[3..4] == " ";
    assert Newlines(s[3..4]) == 0;
    LexFromToken(s, hits, 3, 1, 4, 1);
    EndRound(s, hits, 8, 1);
    assert s[4..8] == "List";
  }

  /** "int List" is a data type and then an abstract data type. */
  lemma TypeNames()
    ensures Lex("int List") == Ok([Token(DataType, "int", 1), Token(AbstractDataType, "List", 1)])
  {
    var s, hits := "int List", ScanTable("int List");
    IntTable();
    TokenNext(s, hits, 0, 1, DataType, 3);
    TypeNamesLastRound();
    assert s[0..3] == "int";
    assert LexFrom(s, hits, 0, 1) == Outcome([Token(DataType, "int", 1), Token(AbstractDataType, "List", 1)], None);
  }

  // ---------------------------------------------------------------------------
  // Literals

  lemma LiteralThenSymbolTable()
    ensures ScanTable("789;")[0] == Some(Hit(Literal, 3)) && ScanTable("789;")[3] == Some(Hit(Symbol, 1))
  {
    Entry("789;", 0); Entry("789;", 3);
    WordRunIs("789;", 0, 3);
    assert DigitRunLength("789;", 0) == 3;
  }

  /** "789;" is the literal 789 and then the symbol ';'. */
  lemma LiteralThenSymbol()
    ensures Lex("789;") == Ok([Token(Literal, "789", 1), Token(Symbol, ";", 1)])
  {
    var s, hits := "789;", ScanTable("789;");
    LiteralThenSymbolTable();
    TokenNext(s, hits, 0, 1, Literal, 3);
    TokenNext(s, hits, 3, 1, Symbol, 1);
    EndRound(s, hits, 4, 1);
    assert s[0..3] == "789" && s[3..4] == ";";
    assert LexFrom(s, hits, 3, 1) == Outcome([Token(Symbol, ";", 1)], None);

    assert LexFrom(s, hits, 0, 1) == Outcome([Token(Literal, "789", 1), Token(Symbol, ";", 1)], None);
  }

  lemma DecimalTable()
    ensures ScanTable("1.5")[0] == Some(Hit(Literal, 1)) && ScanTable("1.5")[1] == None
  {
    Entry("1.5", 0); Entry("1.5", 1);
    WordRunIs("1.5", 0, 1);
  }

  /** "1.5" is the literal 1 and then an error on '.': the decimal alternative is never
      reached. */
  lemma DecimalFails()
    ensures Lex("1.5") == Err(UnexpectedCharacter('.', 1))
  {
    var s, hits := "1.5", ScanTable("1.5");
    DecimalTable();
    TokenNext(s, hits, 0, 1, Literal, 1);
    NoMatch(s, hits, 1, 1);
  }

  // ---------------------------------------------------------------------------
  // Errors and lines

  /** "@" matches no rule. */
  lemma AtSignFails()
    ensures Lex("@") == Err(UnexpectedCharacter('@', 1))
  {
    var s, hits := "@", ScanTable("@");
    Entry(s, 0);
    NoMatch(s, hits, 0, 1);
  }

  lemma UnterminatedStringTable()
    ensures ScanTable("\"abc")[0] == None
  {
    Entry("\"abc", 0);
    assert FindChar("\"abc", 1, '"') == None;
  }

  /** A string literal that is never closed is an error on its opening quote. */
  lemma UnterminatedStringFails()
    ensures Lex("\"abc") == Err(UnexpectedCharacter('"', 1))
  {
    var s, hits := "\"abc", ScanTable("\"abc");
    UnterminatedStringTable();
    NoMatch(s, hits, 0, 1);
  }

  /** Two identifiers around a string literal that holds a line feed, with a line feed
      and a space between the tokens. */
  const LinesInput: string := "a\n\"x\ny\" b"

  lemma LinesFirstTable()
    ensures ScanTable(LinesInput)[0] == Some(Hit(Identifier, 1))
  {
    Entry(LinesInput, 0);
    WordRunIs(LinesInput, 0, 1);
    assert LinesInput[0..1] == "a";
    AWord();
  }

  lemma LinesLastTable()
    ensures ScanTable(LinesInput)[8] == Some(Hit(Identifier, 1))
  {
    Entry(LinesInput, 8);
    WordRunIs(LinesInput, 8, 1);
    assert LinesInput[8..9] == "b";
    BWord();
  }

  lemma LinesStringTable()
    ensures ScanTable(LinesInput)[2] == Some(Hit(StringLiteral, 5))
  {
    Entry(LinesInput, 2);
    assert FindChar(LinesInput, 3, '"') == Some(6);
  }

  /** From the space after the string literal: "b", still on line 2. */
  lemma LinesLastRound()
    ensures LexFrom(LinesInput, ScanTable(LinesInput), 7, 2) == Outcome([Token(Identifier, "b", 2)], None)
  {
    var s, hits := LinesInput, ScanTable(LinesInput);
    LinesLastTable();
    assert SkipEnd(s, 7) == 8 && s[7..8] == " ";
    assert Newlines(s[7..8]) == 0;
    LexFromToken(s, hits, 7, 2, 8, 2);
    EndRound(s, hits, 9, 2);
    assert s[8..9] == "b";
  }

  /** From the line feed after "a": the string literal on line 2, and then "b". */
  lemma LinesMiddleRound()
    ensures LexFrom(LinesInput, ScanTable(LinesInput), 1, 1)
            == Outcome([Token(StringLiteral, "\"x\ny\"", 2), Token(Identifier, "b", 2)], None)
  {
    var s, hits := LinesInput, ScanTable(LinesInput);
    LinesStringTable();
    assert SkipEnd(s, 1) == 2 && s[1..2] == "\n";
    assert Newlines(s[1..2]) == 1;
    LexFromToken(s, hits, 1, 1, 2, 2);
    LinesLastRound();
    assert s[2..7] == "\"x\ny\"";
  }

  /** A line feed in white space counts a line; one inside a string literal does not. */
  lemma LinesSkipStrings()
    ensures Lex(LinesInput)
            == Ok([Token(Identifier, "a", 1), Token(StringLiteral, "\"x\ny\"", 2), Token(Identifier, "b", 2)])
  {
    var s, hits := LinesInput, ScanTable(LinesInput);
    LinesFirstTable();
    TokenNext(s, hits, 0, 1, Identifier, 1);
    LinesMiddleRound();
    assert s[0..1] == "a";
    assert LexFrom(s, hits, 0, 1)
           == Outcome([Token(Identifier, "a", 1), Token(StringLiteral, "\"x\ny\"", 2), Token(Identifier, "b", 2)], None);
  }
}
