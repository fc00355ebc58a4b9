/** What the pattern table actually does, stated as a hand-written classifier with one
    branch per class of leading character, and the proof that the table-driven scan and
    this classifier agree at every position. */
module Classification {
  import opened Patterns

  // ---------------------------------------------------------------------------
  // The word tables

  /** A spelling in a `\b(...)\b` alternation: non-empty, not starting with a digit, and
      either made of word characters only or starting with a non-word character. */
  predicate WordSpelling(w: string) {
    |w| > 0 && !IsDigit(w[0]) && (AllWordChars(w) || !IsWordChar(w[0]))
  }

  predicate WordSpellings(alts: seq<string>) {
    forall j :: 0 <= j < |alts| ==> WordSpelling(alts[j])
  }

  lemma KeywordsA()
    ensures forall j :: 0 <= j < 12 ==> WordSpelling(Keywords[j])
  {
  }
  lemma KeywordsB()
    ensures forall j :: 12 <= j < 24 ==> WordSpelling(Keywords[j])
  {
  }
  lemma KeywordsC()
    ensures forall j :: 24 <= j < 35 ==> WordSpelling(Keywords[j])
  {
  }
  lemma KeywordsAreWordSpellings()
    ensures WordSpellings(Keywords)
  {
    KeywordsA(); KeywordsB(); KeywordsC();
  }

  lemma TypeWordsAreWordSpellings()
    ensures WordSpellings(DataTypes) && WordSpellings(AbstractDataTypes) && WordSpellings(BooleanWords)
  {
  }

  /** A run of m word characters at pos that cannot be extended is the word run at pos. */
  lemma WordRunIs(input: string, pos: nat, m: nat)
    requires pos + m <= |input|
    requires forall k :: pos <= k < pos + m ==> IsWordChar(input[k])
    requires pos + m == |input| || !IsWordChar(input[pos + m])
    ensures WordRunLength(input, pos) == m
  {
  }

  /** `\b(w0|w1|...)\b` matches at pos exactly when the maximal run of word characters at pos
      is one of the alternatives, and then it consumes that whole run. */
  lemma WordAlternationIsWholeWord(alts: seq<string>, input: string, pos: nat)
    requires pos <= |input| && WordSpellings(alts)
    ensures WordAlternationMatch(alts, input, pos) ==
              var n := WordRunLength(input, pos);
              if n > 0 && input[pos..pos + n] in alts then Some(n) else None
  {
    var n := WordRunLength(input, pos);
    if Boundary(input, pos, pos) {
      match FirstAlternative(alts, 0, input, pos, true)
      case Some(j) =>
        var w := alts[j];
        assert input[pos] == input[pos..pos + |w|][0] == w[0];
        forall k | pos <= k < pos + |w|
          ensures IsWordChar(input[k])
        {
          assert input[k] == input[pos..pos + |w|][k - pos] == w[k - pos];
        }
        WordRunIs(input, pos, |w|);
      case None =>
        if n > 0 && input[pos..pos + n] in alts {
          var j :| 0 <= j < |alts| && alts[j] == input[pos..pos + n];
          assert Accepts(alts[j], input, pos, true);
        }
    }
  }

  /** The identifier rule consumes the whole word run at pos when it starts with a letter or '_'. */
  lemma IdentifierIsWholeWord(input: string, pos: nat)
    requires pos <= |input|
    ensures IdentifierMatch(input, pos) ==
              if pos < |input| && IsIdentifierStart(input[pos]) then Some(WordRunLength(input, pos)) else None
  {
    if pos < |input| && IsIdentifierStart(input[pos]) {
      var k := WordRunLength(input, pos + 1);
      assert WordRunLength(input, pos) == 1 + k;
      assert Boundary(input, pos, pos + 1 + k);
    }
  }

  /** `\b\d+\b` matches at pos exactly when the word run at pos is made of digits only. */
  lemma IntegerIsWholeWord(input: string, pos: nat)
    requires pos <= |input|
    ensures IntegerMatch(input, pos) ==
              if pos < |input| && IsDigit(input[pos]) && DigitRunLength(input, pos) == WordRunLength(input, pos)
              then Some(DigitRunLength(input, pos)) else None
  {
    var d := DigitRunLength(input, pos);
    if pos < |input| && IsDigit(input[pos]) {
      if pos + d == |input| || !IsWordChar(input[pos + d]) {
        WordRunIs(input, pos, d);
        assert Boundary(input, pos, pos + d);
      } else {
        assert forall i :: pos + 1 <= i <= pos + d ==> !Boundary(input, pos, i);
      }
    }
  }

  lemma {:induction false} DecimalNeedsDot(input: string, pos: nat, k: nat)
    requires pos + k <= |input|
    ensures DecimalFrom(input, pos, k).Some? ==>
              exists i :: pos < i <= pos + k && i < |input| && input[i] == '.'
    decreases k
  {
    if k > 0 && DecimalFrom(input, pos, k).Some? {
      if pos + k < |input| && input[pos + k] == '.'
         && BackOff(input, pos, pos + k + 1, DigitRunLength(input, pos + k + 1), 1).Some? {
      } else {
        assert DecimalFrom(input, pos, k) == DecimalFrom(input, pos, k - 1);
        DecimalNeedsDot(input, pos, k - 1);
        var i :| pos < i <= pos + k - 1 && i < |input| && input[i] == '.';
        assert pos < i <= pos + k;
      }
    }
  }

  /** The decimal alternative of LITERAL never decides a match: whenever it would match, the
      integer alternative listed before it matches too. */
  lemma DecimalAlternativeUnreachable(input: string, pos: nat)
    requires pos <= |input|
    ensures DecimalMatch(input, pos).Some? ==> IntegerMatch(input, pos).Some?
    ensures LiteralMatch(input, pos) == IntegerMatch(input, pos)
  {
    var d := DigitRunLength(input, pos);
    if DecimalMatch(input, pos).Some? {
      DecimalNeedsDot(input, pos, d);
      var i :| pos < i <= pos + d && i < |input| && input[i] == '.';
      assert i == pos + d;
      IntegerIsWholeWord(input, pos);
      WordRunIs(input, pos, d);
    }
  }

  // ---------------------------------------------------------------------------
  // The operator list

  /** The first character of each operator spelling, in list order. */
  const OperatorHeads: string := "+-*//%=!><><&|!&|^~<>=+-/%&|^<>"

  lemma OperatorHeadsAgree()
    ensures |OperatorHeads| == |Operators|
    ensures forall j :: 0 <= j < |Operators| ==> |Operators[j]| > 0 && Operators[j][0] == OperatorHeads[j]
  {
  }

  /** If spelling j begins the input and every spelling listed before it starts with another
      character, or (at index d) is rejected, spelling j is the one chosen. */
  lemma OperatorChosen(input: string, pos: nat, d: nat, j: nat)
    requires pos < |input| && j < |Operators|
    requires Accepts(Operators[j], input, pos, false)
    requires d < j ==> !Accepts(Operators[d], input, pos, false)
    requires forall i :: 0 <= i < j && i != d ==> OperatorHeads[i] != input[pos]
    ensures FirstAlternative(Operators, 0, input, pos, false) == Some(j)
  {
    OperatorHeadsAgree();
    FirstByHead(Operators, OperatorHeads, input, pos, d, j);
  }

  /** In a list of spellings whose first characters are heads, spelling j is the first
      alternative taken when it matches and every earlier spelling starts with another
      character, except one (at index d) that is rejected. */
  lemma FirstByHead(alts: seq<string>, heads: string, input: string, pos: nat, d: nat, j: nat)
    requires pos < |input| && j < |alts| && |heads| == |alts|
    requires forall i :: 0 <= i < |alts| ==> |alts[i]| > 0 && alts[i][0] == heads[i]
    requires Accepts(alts[j], input, pos, false)
    requires d < j ==> !Accepts(alts[d], input, pos, false)
    requires forall i :: 0 <= i < j && i != d ==> heads[i] != input[pos]
    ensures FirstAlternative(alts, 0, input, pos, false) == Some(j)
  {
    var r := FirstAlternative(alts, 0, input, pos, false);
    assert r.Some?;
    AcceptedHead(alts[r.value], input, pos);
  }

  /** A non-empty spelling accepted at pos begins with the character at pos. */
  lemma AcceptedHead(w: string, input: string, pos: nat)
    requires |w| > 0 && Accepts(w, input, pos, false)
    ensures w[0] == input[pos]
  {
    assert input[pos..pos + |w|][0] == input[pos];
  }

  lemma OperatorLength(input: string, pos: nat, d: nat, j: nat)
    requires pos < |input| && j < |Operators|
    requires Accepts(Operators[j], input, pos, false)
    requires d < j ==> !Accepts(Operators[d], input, pos, false)
    requires forall i :: 0 <= i < j && i != d ==> OperatorHeads[i] != input[pos]
    ensures OperatorMatch(input, pos) == Some(|Operators[j]|)
  {
    OperatorChosen(input, pos, d, j);
  }

  lemma PlusMinusStar(input: string, pos: nat)
    requires pos < |input| && (input[pos] == '+' || input[pos] == '-' || input[pos] == '*')
    ensures OperatorMatch(input, pos) == Some(1)
  {
    if input[pos] == '+' { OperatorLength(input, pos, 0, 0); }
    else if input[pos] == '-' { OperatorLength(input, pos, 1, 1); }
    else { OperatorLength(input, pos, 2, 2); }
  }

  /** '/' is matched before "//" is ever tried. */
  lemma SlashPercent(input: string, pos: nat)
    requires pos < |input| && (input[pos] == '/' || input[pos] == '%')
    ensures OperatorMatch(input, pos) == Some(1)
  {
    if input[pos] == '/' { OperatorLength(input, pos, 3, 3); }
    else { OperatorLength(input, pos, 5, 5); }
  }

  /** '>' and '<' are matched before ">=", "<=", ">>", "<<", ">>=" and "<<=" are ever tried. */
  lemma GreaterLess(input: string, pos: nat)
    requires pos < |input| && (input[pos] == '>' || input[pos] == '<')
    ensures OperatorMatch(input, pos) == Some(1)
  {
    if input[pos] == '>' { OperatorLength(input, pos, 8, 8); }
    else { OperatorLength(input, pos, 9, 9); }
  }

  lemma CaretTilde(input: string, pos: nat)
    requires pos < |input| && (input[pos] == '^' || input[pos] == '~')
    ensures OperatorMatch(input, pos) == Some(1)
  {
    if input[pos] == '^' { OperatorLength(input, pos, 17, 17); }
    else { OperatorLength(input, pos, 18, 18); }
  }

  /** Whether the character after pos completes the two-character operator that begins with
      input[pos]: "==", "!=", "&&" or "||". */
  predicate Doubled(input: string, pos: nat)
    requires pos < |input|
  {
    var c := input[pos];
    pos + 1 < |input| && input[pos + 1] == (if c == '!' then '=' else c)
  }

  lemma SpellsTwo(input: string, pos: nat, w: string)
    requires pos + 1 < |input| && |w| == 2 && input[pos] == w[0] && input[pos + 1] == w[1]
    ensures SpellsAt(w, input, pos)
  {
    assert input[pos..pos + 2] == [input[pos], input[pos + 1]];
  }

  /** "=" is tried first, so "==" is taken whole, but "=" is taken before "+=" and the rest. */
  lemma EqualsOperator(input: string, pos: nat)
    requires pos < |input| && input[pos] == '='
    ensures OperatorMatch(input, pos) == Some(if Doubled(input, pos) then 2 else 1)
  {
    if Doubled(input, pos) { SpellsTwo(input, pos, "=="); OperatorLength(input, pos, 6, 6); }
    else { OperatorLength(input, pos, 6, 21); }
  }

  lemma BangOperator(input: string, pos: nat)
    requires pos < |input| && input[pos] == '!'
    ensures OperatorMatch(input, pos) == Some(if Doubled(input, pos) then 2 else 1)
  {
    if Doubled(input, pos) { SpellsTwo(input, pos, "!="); OperatorLength(input, pos, 7, 7); }
    else { OperatorLength(input, pos, 7, 14); }
  }

  lemma AmpersandOperator(input: string, pos: nat)
    requires pos < |input| && input[pos] == '&'
    ensures OperatorMatch(input, pos) == Some(if Doubled(input, pos) then 2 else 1)
  {
    if Doubled(input, pos) { SpellsTwo(input, pos, "&&"); OperatorLength(input, pos, 12, 12); }
    else { OperatorLength(input, pos, 12, 15); }
  }

  lemma BarOperator(input: string, pos: nat)
    requires pos < |input| && input[pos] == '|'
    ensures OperatorMatch(input, pos) == Some(if Doubled(input, pos) then 2 else 1)
  {
    if Doubled(input, pos) { SpellsTwo(input, pos, "||"); OperatorLength(input, pos, 13, 13); }
    else { OperatorLength(input, pos, 13, 16); }
  }

  predicate SingleOperatorHead(c: char) {
    c == '+' || c == '-' || c == '*' || c == '/' || c == '%' || c == '<' || c == '>' || c == '^' || c == '~'
  }

  predicate DoubledOperatorHead(c: char) {
    c == '=' || c == '!' || c == '&' || c == '|'
  }

  lemma NoOperatorAt(input: string, pos: nat)
    requires pos < |input|
    requires !SingleOperatorHead(input[pos]) && !DoubledOperatorHead(input[pos])
    ensures OperatorMatch(input, pos) == None
  {
    OperatorHeadsAgree();
    assert input[pos] !in OperatorHeads;
  }

  /** The operator list as it behaves: one character, except that "==", "!=", "&&" and "||"
      are taken whole. */
  function OperatorSpelling(input: string, pos: nat): (r: Option<nat>)
    requires pos <= |input|
    ensures r.Some? ==> 1 <= r.value <= 2 && pos + r.value <= |input|
  {
    if pos == |input| then None
    else if DoubledOperatorHead(input[pos]) then Some(if Doubled(input, pos) then 2 else 1)
    else if SingleOperatorHead(input[pos]) then Some(1)
    else None
  }

  lemma SingleOperators(input: string, pos: nat)
    requires pos < |input| && SingleOperatorHead(input[pos])
    ensures OperatorMatch(input, pos) == Some(1)
  {
    var c := input[pos];
    if c == '+' || c == '-' || c == '*' { PlusMinusStar(input, pos); }
    else if c == '/' || c == '%' { SlashPercent(input, pos); }
    else if c == '>' || c == '<' { GreaterLess(input, pos); }
    else { CaretTilde(input, pos); }
  }

  lemma DoubledOperators(input: string, pos: nat)
    requires pos < |input| && DoubledOperatorHead(input[pos])
    ensures OperatorMatch(input, pos) == Some(if Doubled(input, pos) then 2 else 1)
  {
    if input[pos] == '=' { EqualsOperator(input, pos); }
    else if input[pos] == '!' { BangOperator(input, pos); }
    else if input[pos] == '&' { AmpersandOperator(input, pos); }
    else { BarOperator(input, pos); }
  }

  lemma OperatorMatchIsSpelling(input: string, pos: nat)
    requires pos <= |input|
    ensures OperatorMatch(input, pos) == OperatorSpelling(input, pos)
  {
    if pos < |input| {
      if SingleOperatorHead(input[pos]) { SingleOperators(input, pos); }
      else if DoubledOperatorHead(input[pos]) { DoubledOperators(input, pos); }
      else { NoOperatorAt(input, pos); }
    }
  }

  // ---------------------------------------------------------------------------
  // The classifier

  /** The class a word takes: the first of the keyword, data type and abstract data type
      tables that holds it, and Identifier otherwise. */
  function WordKind(w: string): (k: TokenKind)
    ensures k.Keyword? || k.DataType? || k.AbstractDataType? || k.Identifier?
  {
    if Listed(w, Keywords) then Keyword
    else if Listed(w, DataTypes) then DataType
    else if Listed(w, AbstractDataTypes) then AbstractDataType
    else Identifier
  }

  /** w is an entry of table. */
  predicate Listed(w: string, table: seq<string>) {
    exists i :: 0 <= i < |table| && table[i] == w
  }

  /** The token at pos as the character class of input[pos] decides it:
      - a letter or '_' starts a word that runs to the next non-word character, classed by
        the word tables;
      - a digit starts a Literal only when the word it begins is all digits;
      - an operator character gives the spelling `OperatorSpelling` describes;
      - a quote gives a StringLiteral up to the next equal quote, if there is one;
      - a character of `{}()[],;:` gives a one-character Symbol;
      - anything else, and the end of the input, give nothing. */
  function Classify(input: string, pos: nat): (r: Option<Hit>)
    requires pos <= |input|
    ensures r.Some? ==> 0 < r.value.length && pos + r.value.length <= |input|
    ensures r.Some? ==> !IsWhitespace(input[pos]) && r.value.kind != BooleanLiteral
  {
    if pos == |input| then None
    else
      var c := input[pos];
      if IsIdentifierStart(c) then
        var n := WordRunLength(input, pos);
        Some(Hit(WordKind(input[pos..pos + n]), n))
      else if IsDigit(c) then
        if DigitRunLength(input, pos) == WordRunLength(input, pos) then Some(Hit(Literal, DigitRunLength(input, pos)))
        else None
      else match OperatorSpelling(input, pos)
        case Some(n) => Some(Hit(Operator, n))
        case None =>
          if c == '"' || c == '\'' then
            match FindChar(input, pos + 1, c)
            case Some(j) => Some(Hit(StringLiteral, j + 1 - pos))
            case None => None
          else if c in SymbolChars then Some(Hit(Symbol, 1))
          else None
  }

  /** A word that starts with a digit is in none of the word tables. */
  lemma DigitWordNotInTable(alts: seq<string>, w: string)
    requires WordSpellings(alts) && |w| > 0 && IsDigit(w[0])
    ensures w !in alts
  {
    forall j | 0 <= j < |alts|
      ensures alts[j] != w
    {
      assert WordSpelling(alts[j]);
    }
  }

  /** A word starting with a letter or '_' begins at pos, and that whole word is one of alts. */
  predicate WordInTable(alts: seq<string>, input: string, pos: nat)
    requires pos <= |input|
  {
    pos < |input| && IsIdentifierStart(input[pos]) && input[pos..pos + WordRunLength(input, pos)] in alts
  }

  /** A word table rule matches exactly the words of its table that start with a letter or
      '_', and takes the whole word. */
  lemma TableRule(alts: seq<string>, input: string, pos: nat)
    requires pos <= |input| && WordSpellings(alts)
    ensures WordAlternationMatch(alts, input, pos) ==
              if WordInTable(alts, input, pos) then Some(WordRunLength(input, pos)) else None
  {
    WordAlternationIsWholeWord(alts, input, pos);
    var n := WordRunLength(input, pos);
    if pos < |input| && IsDigit(input[pos]) {
      assert n > 0 && input[pos..pos + n][0] == input[pos];
      DigitWordNotInTable(alts, input[pos..pos + n]);
    }
  }

  lemma KeywordRule(input: string, pos: nat)
    requires pos <= |input|
    ensures Match(Keyword, input, pos) ==
              if WordInTable(Keywords, input, pos) then Some(WordRunLength(input, pos)) else None
  {
    KeywordsAreWordSpellings();
    TableRule(Keywords, input, pos);
  }

  lemma DataTypeRule(input: string, pos: nat)
    requires pos <= |input|
    ensures Match(DataType, input, pos) ==
              if WordInTable(DataTypes, input, pos) then Some(WordRunLength(input, pos)) else None
  {
    TypeWordsAreWordSpellings();
    TableRule(DataTypes, input, pos);
  }

  lemma AbstractDataTypeRule(input: string, pos: nat)
    requires pos <= |input|
    ensures Match(AbstractDataType, input, pos) ==
              if WordInTable(AbstractDataTypes, input, pos) then Some(WordRunLength(input, pos)) else None
  {
    TypeWordsAreWordSpellings();
    TableRule(AbstractDataTypes, input, pos);
  }

  lemma BooleanLiteralRule(input: string, pos: nat)
    requires pos <= |input|
    ensures Match(BooleanLiteral, input, pos) ==
              if WordInTable(BooleanWords, input, pos) then Some(WordRunLength(input, pos)) else None
  {
    TypeWordsAreWordSpellings();
    TableRule(BooleanWords, input, pos);
  }

  lemma LiteralRule(input: string, pos: nat)
    requires pos <= |input|
    ensures Match(Literal, input, pos) ==
              if pos < |input| && IsDigit(input[pos]) && DigitRunLength(input, pos) == WordRunLength(input, pos)
              then Some(DigitRunLength(input, pos)) else None
  {
    DecimalAlternativeUnreachable(input, pos);
    IntegerIsWholeWord(input, pos);
  }

  lemma ScanAtWordStart(input: string, pos: nat)
    requires pos < |input| && IsIdentifierStart(input[pos])
    ensures Scan(input, pos) == Classify(input, pos)
  {
    ScanInTableOrder(input, pos);
    KeywordRule(input, pos);
    DataTypeRule(input, pos);
    AbstractDataTypeRule(input, pos);
    IdentifierIsWholeWord(input, pos);
  }

  /** On a digit every word table rule fails. */
  lemma DigitWordOutcomes(input: string, pos: nat)
    requires pos < |input| && IsDigit(input[pos])
    ensures Match(Keyword, input, pos).None? && Match(DataType, input, pos).None?
    ensures Match(AbstractDataType, input, pos).None? && Match(BooleanLiteral, input, pos).None?
  {
    KeywordRule(input, pos);
    DataTypeRule(input, pos);
    AbstractDataTypeRule(input, pos);
    BooleanLiteralRule(input, pos);
  }

  /** On a digit OPERATOR, STRING_LITERAL and SYMBOL fail. */
  lemma DigitNonWordOutcomes(input: string, pos: nat)
    requires pos < |input| && IsDigit(input[pos])
    ensures Match(Operator, input, pos).None? && Match(StringLiteral, input, pos).None?
    ensures Match(Symbol, input, pos).None?
  {
    NoOperatorAt(input, pos);
    StringRule(input, pos);
    assert input[pos] !in SymbolChars;
  }

  /** On a digit every rule but LITERAL fails. */
  lemma DigitOutcomes(input: string, pos: nat)
    requires pos < |input| && IsDigit(input[pos])
    ensures Match(Keyword, input, pos).None? && Match(DataType, input, pos).None?
    ensures Match(AbstractDataType, input, pos).None? && Match(Identifier, input, pos).None?
    ensures Match(Operator, input, pos).None? && Match(StringLiteral, input, pos).None?
    ensures Match(BooleanLiteral, input, pos).None? && Match(Symbol, input, pos).None?
  {
    DigitWordOutcomes(input, pos);
    IdentifierIsWholeWord(input, pos);
    DigitNonWordOutcomes(input, pos);
  }

  lemma ScanAtDigit(input: string, pos: nat)
    requires pos < |input| && IsDigit(input[pos])
    ensures Scan(input, pos) ==
              if DigitRunLength(input, pos) == WordRunLength(input, pos) then Some(Hit(Literal, DigitRunLength(input, pos)))
              else None
  {
    ScanInTableOrder(input, pos);
    DigitOutcomes(input, pos);
    LiteralRule(input, pos);
  }

  /** Where no word starts, none of the word rules and not LITERAL match. */
  lemma OtherOutcomes(input: string, pos: nat)
    requires pos <= |input| && (pos == |input| || !IsWordChar(input[pos]))
    ensures Match(Keyword, input, pos).None? && Match(DataType, input, pos).None?
    ensures Match(AbstractDataType, input, pos).None? && Match(Identifier, input, pos).None?
    ensures Match(Literal, input, pos).None? && Match(BooleanLiteral, input, pos).None?
  {
    KeywordRule(input, pos);
    DataTypeRule(input, pos);
    AbstractDataTypeRule(input, pos);
    IdentifierIsWholeWord(input, pos);
    LiteralRule(input, pos);
    BooleanLiteralRule(input, pos);
  }

  /** STRING_LITERAL matches at a quote exactly when the same quote occurs later, and then
      runs up to the first such one. */
  lemma StringRule(input: string, pos: nat)
    requires pos < |input|
    ensures Match(StringLiteral, input, pos) ==
              if input[pos] == '"' || input[pos] == '\'' then
                match FindChar(input, pos + 1, input[pos])
                case Some(j) => Some(j + 1 - pos)
                case None => None
              else None
  {
  }

  lemma ScanAtOther(input: string, pos: nat)
    requires pos <= |input| && (pos == |input| || !IsWordChar(input[pos]))
    ensures Scan(input, pos) == Classify(input, pos)
  {
    ScanInTableOrder(input, pos);
    OtherOutcomes(input, pos);
    OperatorMatchIsSpelling(input, pos);
    if pos < |input| {
      StringRule(input, pos);
    }
  }

  /** The table-driven scan and the classifier agree at every position. */
  lemma ScanIsClassify(input: string, pos: nat)
    requires pos <= |input|
    ensures Scan(input, pos) == Classify(input, pos)
  {
    if pos < |input| && IsIdentifierStart(input[pos]) {
      ScanAtWordStart(input, pos);
    } else if pos < |input| && IsDigit(input[pos]) {
      ScanAtDigit(input, pos);
    } else {
      ScanAtOther(input, pos);
    }
  }

  // ---------------------------------------------------------------------------
  // A token's own text

  lemma DigitRunIs(input: string, pos: nat, m: nat)
    requires pos + m <= |input|
    requires forall k :: pos <= k < pos + m ==> IsDigit(input[k])
    requires pos + m == |input| || !IsDigit(input[pos + m])
    ensures DigitRunLength(input, pos) == m
  {
  }

  lemma FindCharIs(input: string, from: nat, q: char, j: nat)
    requires from <= j < |input| && input[j] == q
    requires forall k :: from <= k < j ==> input[k] != q
    ensures FindChar(input, from, q) == Some(j)
  {
  }

  lemma ClassifyAtWord(input: string, pos: nat)
    requires pos < |input| && IsIdentifierStart(input[pos])
    ensures var n := WordRunLength(input, pos); Classify(input, pos) == Some(Hit(WordKind(input[pos..pos + n]), n))
  {
  }

  /** What the classifier gives at a word start: the whole word, with its class. */
  lemma WordHitOf(input: string, s: nat, k: TokenKind, n: nat)
    requires s < |input| && IsIdentifierStart(input[s]) && Classify(input, s) == Some(Hit(k, n))
    ensures n == WordRunLength(input, s) && s + n <= |input| && k == WordKind(input[s..s + n])
  {
    ClassifyAtWord(input, s);
  }

  /** A word alone is the word it was, so it has the same class. */
  lemma WordAlone(input: string, s: nat, k: TokenKind, n: nat)
    requires s < |input| && IsIdentifierStart(input[s])
    requires n == WordRunLength(input, s) && s + n <= |input| && k == WordKind(input[s..s + n])
    ensures Classify(input[s..s + n], 0) == Some(Hit(k, n))
  {
    var w := input[s..s + n];
    WordRunIs(w, 0, n);
    assert w[0..n] == w;
    ClassifyAtWord(w, 0);
  }

  /** An all-digit word alone is still all digits. */
  lemma NumberAlone(input: string, s: nat, k: TokenKind, n: nat)
    requires s < |input| && IsDigit(input[s]) && Classify(input, s) == Some(Hit(k, n))
    ensures s + n <= |input| && Classify(input[s..s + n], 0) == Some(Hit(k, n))
  {
    var w := input[s..s + n];
    WordRunIs(w, 0, n);
    DigitRunIs(w, 0, n);
  }

  /** An operator spelling alone is the same spelling: the second character of a doubled
      operator is still there, and a single one has nothing after it. */
  lemma OperatorAlone(input: string, s: nat, k: TokenKind, n: nat)
    requires s < |input| && !IsIdentifierStart(input[s]) && !IsDigit(input[s])
    requires OperatorSpelling(input, s).Some? && Classify(input, s) == Some(Hit(k, n))
    ensures s + n <= |input| && Classify(input[s..s + n], 0) == Some(Hit(k, n))
  {
    assert OperatorSpelling(input[s..s + n], 0) == Some(n);
  }

  /** A quoted string alone still ends at its closing quote. */
  lemma StringAlone(input: string, s: nat, k: TokenKind, n: nat)
    requires s < |input| && (input[s] == '"' || input[s] == '\'') && Classify(input, s) == Some(Hit(k, n))
    ensures s + n <= |input| && Classify(input[s..s + n], 0) == Some(Hit(k, n))
  {
    var j := n - 1 + s;
    assert FindChar(input, s + 1, input[s]) == Some(j);
    FindCharIs(input[s..j + 1], 1, input[s], j - s);
  }

  /** A symbol alone is the same symbol. */
  lemma SymbolAlone(input: string, s: nat, k: TokenKind, n: nat)
    requires s < |input| && !IsIdentifierStart(input[s]) && !IsDigit(input[s]) && OperatorSpelling(input, s).None?
    requires input[s] != '"' && input[s] != '\'' && Classify(input, s) == Some(Hit(k, n))
    ensures s + n <= |input| && Classify(input[s..s + n], 0) == Some(Hit(k, n))
  {
    assert input[s..s + n] == [input[s]];
  }

  /** Classifying the text of a hit on its own gives the same hit: the classifier looks at
      nothing beyond the token it finds. */
  lemma ClassifyOwnText(input: string, s: nat, k: TokenKind, n: nat)
    requires s <= |input| && Classify(input, s) == Some(Hit(k, n))
    ensures s + n <= |input| && Classify(input[s..s + n], 0) == Some(Hit(k, n))
  {
    var c := input[s];
    if IsIdentifierStart(c) {
      WordHitOf(input, s, k, n);
      WordAlone(input, s, k, n);
    } else if IsDigit(c) {
      NumberAlone(input, s, k, n);
    } else if OperatorSpelling(input, s).Some? {
      OperatorAlone(input, s, k, n);
    } else if c == '"' || c == '\'' {
      StringAlone(input, s, k, n);
    } else {
      SymbolAlone(input, s, k, n);
    }
  }

  // ---------------------------------------------------------------------------
  // Consequences of the table order

  /** No token is ever classed BOOLEAN_LITERAL: IDENTIFIER precedes it in the table. */
  lemma NoBooleanLiteralToken(input: string, pos: nat)
    requires pos <= |input|
    ensures Scan(input, pos).Some? ==> Scan(input, pos).value.kind != BooleanLiteral
  {
    ScanIsClassify(input, pos);
  }

  /** Whatever BOOLEAN_LITERAL would match, IDENTIFIER matches too, with the same length. */
  lemma BooleanLiteralShadowed(input: string, pos: nat)
    requires pos <= |input|
    ensures Match(BooleanLiteral, input, pos).Some? ==> Match(Identifier, input, pos) == Match(BooleanLiteral, input, pos)
  {
    BooleanLiteralRule(input, pos);
    IdentifierIsWholeWord(input, pos);
  }

  /** The keyword alternative written with a leading space never matches: a keyword match
      always starts with a letter or '_'. */
  lemma SpacePrintNeverMatches(input: string, pos: nat)
    requires pos <= |input|
    ensures Match(Keyword, input, pos).Some? ==>
              pos < |input| && IsIdentifierStart(input[pos])
              && input[pos..pos + Match(Keyword, input, pos).value] != " print"
  {
    KeywordRule(input, pos);
    if Match(Keyword, input, pos).Some? {
      var w := input[pos..pos + WordRunLength(input, pos)];
      assert w[0] == input[pos];
      assert w != " print" by { assert " print"[0] == ' '; }
    }
  }

  /** The word "print" itself is not in the keyword table. */
  lemma PrintIsNotKeyword()
    ensures "print" !in Keywords
  {
    assert forall j :: 0 <= j < |Keywords| ==> Keywords[j] != "print" by {
      forall j | 0 <= j < |Keywords|
        ensures Keywords[j] != "print"
      {
        if j < 34 {
          if |Keywords[j]| == 5 {
            assert Keywords[j][0] != 'p';
          }
        } else {
          assert Keywords[j][0] == ' ';
        }
      }
    }
  }
}
