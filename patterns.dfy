/** The nine token rules of the lexer, each written as an explicit matcher that
    reproduces what its regular expression does when it is applied to the slice
    input[pos..] and only a match at offset 0 of that slice is accepted. */
module Patterns {

  datatype Option<T> = None | Some(value: T)

  /** The token classes, one per key of the pattern table. */
  datatype TokenKind =
    | Keyword
    | DataType
    | AbstractDataType
    | Identifier
    | Operator
    | Literal
    | StringLiteral
    | BooleanLiteral
    | Symbol

  /** The pattern table in its iteration order: rules are tried strictly in this order. */
  const Rules: seq<TokenKind> :=
    [Keyword, DataType, AbstractDataType, Identifier, Operator, Literal, StringLiteral, BooleanLiteral, Symbol]

  /** The alternatives of the KEYWORD pattern, in order. The last one has a leading space. */
  const Keywords: seq<string> :=
    ["if", "elif", "else", "switch", "case", "default", "while", "for", "break", "continue",
     "return", "class", "extends", "implements", "pub", "priv", "protected", "static",
     "constructor", "this", "super", "let", "const", "fn", "async", "await", "yield", "imp",
     "exp", "try", "catch", "throw", "finally", "new", " print"]

  /** The alternatives of the DATA_TYPE pattern. */
  const DataTypes: seq<string> := ["int", "float", "double", "char", "bool", "string"]

  /** The alternatives of the ABSTRACT_DATA_TYPE pattern. */
  const AbstractDataTypes: seq<string> := ["List", "Array", "Dictionaries"]

  /** The alternatives of the OPERATOR pattern, in the order they are listed. */
  const Operators: seq<string> :=
    ["+", "-", "*", "/", "//", "%", "==", "!=", ">", "<", ">=", "<=", "&&", "||", "!", "&",
     "|", "^", "~", "<<", ">>", "=", "+=", "-=", "/=", "%=", "&=", "|=", "^=", "<<=", ">>="]

  /** The alternatives of the BOOLEAN_LITERAL pattern. */
  const BooleanWords: seq<string> := ["true", "false"]

  /** The character class of the SYMBOL pattern. */
  const SymbolChars: string := "{}()[],;:"

  // ---------------------------------------------------------------------------
  // Character classes

  /** `\w`: an ASCII letter, digit or underscore. */
  predicate IsWordChar(c: char) {
    'a' <= c <= 'z' || 'A' <= c <= 'Z' || '0' <= c <= '9' || c == '_'
  }

  /** `\d`. */
  predicate IsDigit(c: char) {
    '0' <= c <= '9'
  }

  /** `[a-zA-Z_]`, the first character of an identifier. */
  predicate IsIdentifierStart(c: char) {
    'a' <= c <= 'z' || 'A' <= c <= 'Z' || c == '_'
  }

  /** `\s`: the ECMAScript white space and line terminator characters. */
  predicate IsWhitespace(c: char) {
    c == '\t' || c == '\n' || c == '\U{000B}' || c == '\U{000C}' || c == '\r' || c == ' '
    || c == '\U{00A0}' || c == '\U{1680}' || ('\U{2000}' <= c <= '\U{200A}')
    || c == '\U{2028}' || c == '\U{2029}' || c == '\U{202F}' || c == '\U{205F}'
    || c == '\U{3000}' || c == '\U{FEFF}'
  }

  lemma OperatorsNonEmpty()
    ensures forall j :: 0 <= j < |Operators| ==> |Operators[j]| > 0
  {
  }

  predicate AllWordChars(w: string) {
    forall k :: 0 <= k < |w| ==> IsWordChar(w[k])
  }

  // ---------------------------------------------------------------------------
  // Building blocks of the regular expressions

  /** Whether index i of input holds a word character, reading input as the slice input[pos..]:
      an index before pos lies outside the slice. */
  predicate WordAt(input: string, pos: nat, i: int) {
    pos <= i < |input| && IsWordChar(input[i])
  }

  /** `\b` at index i of the slice input[pos..]: exactly one of the two sides is a word character. */
  predicate Boundary(input: string, pos: nat, i: int): (b: bool)
    ensures b ==> pos <= i <= |input|
    ensures i == pos ==> (b <==> pos < |input| && IsWordChar(input[pos]))
  {
    WordAt(input, pos, i - 1) != WordAt(input, pos, i)
  }

  /** The literal w occurs in input at index i. */
  predicate SpellsAt(w: string, input: string, i: nat) {
    i + |w| <= |input| && input[i..i + |w|] == w
  }

  /** The alternative w matches at pos; when bounded, a `\b` must follow it. */
  predicate Accepts(w: string, input: string, pos: nat, bounded: bool) {
    SpellsAt(w, input, pos) && (bounded ==> Boundary(input, pos, pos + |w|))
  }

  /** Ordered alternation `(w0|w1|...)`, optionally followed by `\b`, tried at pos from
      alternative i on: the index of the first alternative that matches there (a later
      alternative is only tried when every earlier one fails). */
  function FirstAlternative(alts: seq<string>, i: nat, input: string, pos: nat, bounded: bool): (r: Option<nat>)
    requires i <= |alts|
    ensures r.Some? ==> i <= r.value < |alts| && Accepts(alts[r.value], input, pos, bounded)
    ensures r.Some? ==> forall j :: i <= j < r.value ==> !Accepts(alts[j], input, pos, bounded)
    ensures r.None? ==> forall j :: i <= j < |alts| ==> !Accepts(alts[j], input, pos, bounded)
    decreases |alts| - i
  {
    if i == |alts| then None
    else if Accepts(alts[i], input, pos, bounded) then Some(i)
    else FirstAlternative(alts, i + 1, input, pos, bounded)
  }

  /** The length of the run of word characters that starts at index i. */
  function WordRunLength(input: string, i: nat): (n: nat)
    requires i <= |input|
    ensures i + n <= |input|
    ensures forall k :: i <= k < i + n ==> IsWordChar(input[k])
    ensures i + n == |input| || !IsWordChar(input[i + n])
    decreases |input| - i
  {
    if i < |input| && IsWordChar(input[i]) then 1 + WordRunLength(input, i + 1) else 0
  }

  /** The length of the run of digits that starts at index i. */
  function DigitRunLength(input: string, i: nat): (n: nat)
    requires i <= |input|
    ensures i + n <= |input|
    ensures forall k :: i <= k < i + n ==> IsDigit(input[k])
    ensures i + n == |input| || !IsDigit(input[i + n])
    decreases |input| - i
  {
    if i < |input| && IsDigit(input[i]) then 1 + DigitRunLength(input, i + 1) else 0
  }

  /** A greedy quantifier over a run of k characters from start, followed by `\b`: the
      whole run is tried first and then characters are given back one at a time, never
      going below min, until `\b` holds. The result is the length of the run kept. */
  function BackOff(input: string, pos: nat, start: nat, k: nat, min: nat): (r: Option<nat>)
    ensures r.Some? ==> min <= r.value <= k && Boundary(input, pos, start + r.value)
    ensures r.Some? ==> forall i :: start + r.value < i <= start + k ==> !Boundary(input, pos, i)
    ensures r.None? ==> forall i :: start + min <= i <= start + k ==> !Boundary(input, pos, i)
    decreases k
  {
    if k < min then None
    else if Boundary(input, pos, start + k) then Some(k)
    else if k == 0 then None
    else BackOff(input, pos, start, k - 1, min)
  }

  /** The first index j >= from at which q occurs. */
  function FindChar(input: string, from: nat, q: char): (r: Option<nat>)
    requires from <= |input|
    ensures r.Some? ==> from <= r.value < |input| && input[r.value] == q
    ensures r.Some? ==> forall k :: from <= k < r.value ==> input[k] != q
    ensures r.None? ==> forall k :: from <= k < |input| ==> input[k] != q
    decreases |input| - from
  {
    if from == |input| then None
    else if input[from] == q then Some(from)
    else FindChar(input, from + 1, q)
  }

  // ---------------------------------------------------------------------------
  // The nine matchers. Each yields the length of the match at pos, if there is one.

  /** `\b(w0|w1|...)\b` anchored at pos. */
  function WordAlternationMatch(alts: seq<string>, input: string, pos: nat): (r: Option<nat>)
    requires pos <= |input|
    requires forall j :: 0 <= j < |alts| ==> |alts[j]| > 0
    ensures r.Some? ==> 0 < r.value && pos + r.value <= |input|
  {
    if Boundary(input, pos, pos) then
      match FirstAlternative(alts, 0, input, pos, true)
      case Some(j) => Some(|alts[j]|)
      case None => None
    else None
  }

  /** `\b[a-zA-Z_][a-zA-Z0-9_]*\b` anchored at pos. */
  function IdentifierMatch(input: string, pos: nat): (r: Option<nat>)
    requires pos <= |input|
    ensures r.Some? ==> 0 < r.value && pos + r.value <= |input|
  {
    if Boundary(input, pos, pos) && pos < |input| && IsIdentifierStart(input[pos]) then
      match BackOff(input, pos, pos + 1, WordRunLength(input, pos + 1), 0)
      case Some(j) => Some(1 + j)
      case None => None
    else None
  }

  /** The OPERATOR pattern: a plain ordered alternation, so the first listed spelling that
      begins the remaining input wins. */
  function OperatorMatch(input: string, pos: nat): (r: Option<nat>)
    requires pos <= |input|
    ensures r.Some? ==> 0 < r.value && pos + r.value <= |input|
  {
    OperatorsNonEmpty();
    match FirstAlternative(Operators, 0, input, pos, false)
    case Some(j) => Some(|Operators[j]|)
    case None => None
  }

  /** The first alternative of LITERAL, `\b\d+\b`. */
  function IntegerMatch(input: string, pos: nat): (r: Option<nat>)
    requires pos <= |input|
    ensures r.Some? ==> 0 < r.value && pos + r.value <= |input|
  {
    if Boundary(input, pos, pos) then BackOff(input, pos, pos, DigitRunLength(input, pos), 1)
    else None
  }

  /** The second alternative of LITERAL, `\b\d+\.\d+\b`. Here k is the length of the
      integer part still being tried: the greedy `\d+` starts from the whole digit run and
      gives digits back while no '.' follows or the fraction part fails. */
  function DecimalFrom(input: string, pos: nat, k: nat): (r: Option<nat>)
    requires pos + k <= |input|
    ensures r.Some? ==> 0 < r.value && pos + r.value <= |input|
    decreases k
  {
    if k == 0 then None
    else if pos + k < |input| && input[pos + k] == '.' then
      match BackOff(input, pos, pos + k + 1, DigitRunLength(input, pos + k + 1), 1)
      case Some(f) => Some(k + 1 + f)
      case None => DecimalFrom(input, pos, k - 1)
    else DecimalFrom(input, pos, k - 1)
  }

  function DecimalMatch(input: string, pos: nat): (r: Option<nat>)
    requires pos <= |input|
    ensures r.Some? ==> 0 < r.value && pos + r.value <= |input|
  {
    if Boundary(input, pos, pos) then DecimalFrom(input, pos, DigitRunLength(input, pos))
    else None
  }

  /** `\b\d+\b|\b\d+\.\d+\b` anchored at pos. */
  function LiteralMatch(input: string, pos: nat): (r: Option<nat>)
    requires pos <= |input|
    ensures r.Some? ==> 0 < r.value && pos + r.value <= |input|
  {
    match IntegerMatch(input, pos)
    case Some(n) => Some(n)
    case None => DecimalMatch(input, pos)
  }

  /** `q[^q]*q` anchored at pos: the greedy `[^q]*` stops at the first q after the opening
      one; there is no shorter run to fall back on that is followed by q. */
  function QuotedMatch(input: string, pos: nat, q: char): (r: Option<nat>)
    requires pos <= |input|
    ensures r.Some? ==> 1 < r.value && pos + r.value <= |input|
  {
    if pos < |input| && input[pos] == q then
      match FindChar(input, pos + 1, q)
      case Some(j) => Some(j + 1 - pos)
      case None => None
    else None
  }

  /** `"[^"]*"|'[^']*'` anchored at pos. */
  function StringMatch(input: string, pos: nat): (r: Option<nat>)
    requires pos <= |input|
    ensures r.Some? ==> 1 < r.value && pos + r.value <= |input|
  {
    match QuotedMatch(input, pos, '"')
    case Some(n) => Some(n)
    case None => QuotedMatch(input, pos, '\'')
  }

  /** `[{}()\[\],;:]` anchored at pos. */
  function SymbolMatch(input: string, pos: nat): (r: Option<nat>)
    requires pos <= |input|
    ensures r.Some? <==> pos < |input| && input[pos] in SymbolChars
    ensures r.Some? ==> r.value == 1
  {
    if pos < |input| && input[pos] in SymbolChars then Some(1) else None
  }

  /** The matcher of each entry of the pattern table. */
  function Match(kind: TokenKind, input: string, pos: nat): (r: Option<nat>)
    requires pos <= |input|
    ensures r.Some? ==> 0 < r.value && pos + r.value <= |input|
  {
    match kind
    case Keyword => WordAlternationMatch(Keywords, input, pos)
    case DataType => WordAlternationMatch(DataTypes, input, pos)
    case AbstractDataType => WordAlternationMatch(AbstractDataTypes, input, pos)
    case Identifier => IdentifierMatch(input, pos)
    case Operator => OperatorMatch(input, pos)
    case Literal => LiteralMatch(input, pos)
    case StringLiteral => StringMatch(input, pos)
    case BooleanLiteral => WordAlternationMatch(BooleanWords, input, pos)
    case Symbol => SymbolMatch(input, pos)
  }

  // ---------------------------------------------------------------------------
  // The rule table

  /** The kind and length of the token that starts at a position. */
  datatype Hit = Hit(kind: TokenKind, length: nat)

  /** The outcome of every entry of the pattern table tried at pos, in table order. */
  function Matches(input: string, pos: nat): (ms: seq<Option<nat>>)
    requires pos <= |input|
    ensures |ms| == |Rules|
    ensures forall j :: 0 <= j < |Rules| ==> ms[j] == Match(Rules[j], input, pos)
  {
    seq(|Rules|, j requires 0 <= j < |Rules| => Match(Rules[j], input, pos))
  }

  /** The first entry, from the i-th on, whose outcome in ms is a match: rule order decides,
      not match length. */
  function FirstRule(ms: seq<Option<nat>>, i: nat): (r: Option<Hit>)
    requires |ms| == |Rules| && i <= |Rules|
    ensures r.Some? ==> exists j :: i <= j < |Rules| && Rules[j] == r.value.kind && ms[j] == Some(r.value.length)
    decreases |Rules| - i
  {
    if i == |Rules| then None
    else match ms[i]
      case Some(n) => Some(Hit(Rules[i], n))
      case None => FirstRule(ms, i + 1)
  }

  /** The walk from entry i finds nothing exactly when every entry from i on failed, and
      otherwise finds the first entry from i on that matched, with its kind and length. */
  lemma {:induction false} FirstRuleIsFirst(ms: seq<Option<nat>>, i: nat)
    requires |ms| == |Rules| && i <= |Rules|
    ensures FirstRule(ms, i).None? <==> forall j :: i <= j < |Rules| ==> ms[j].None?
    ensures FirstRule(ms, i).Some? ==>
              exists j :: i <= j < |Rules| && Rules[j] == FirstRule(ms, i).value.kind
                       && ms[j] == Some(FirstRule(ms, i).value.length)
                       && forall j' :: i <= j' < j ==> ms[j'].None?
    decreases |Rules| - i
  {
    if i < |Rules| && ms[i].None? {
      FirstRuleIsFirst(ms, i + 1);
      if FirstRule(ms, i).Some? {
        var h := FirstRule(ms, i).value;
        var j :| i + 1 <= j < |Rules| && Rules[j] == h.kind && ms[j] == Some(h.length)
                 && forall j' :: i + 1 <= j' < j ==> ms[j'].None?;
        assert forall j' :: i <= j' < j ==> ms[j'].None?;
      }
    }
  }

  /** The token the pattern table produces at pos: the first rule in table order that
      matches there. */
  function Scan(input: string, pos: nat): (r: Option<Hit>)
    requires pos <= |input|
    ensures r.Some? ==> 0 < r.value.length && pos + r.value.length <= |input|
  {
    var ms := Matches(input, pos);
    FirstRuleIsFirst(ms, 0);
    FirstRule(ms, 0)
  }

  /** Scan yields the first rule in table order whose matcher succeeds at pos, and nothing
      exactly when no rule matches there. */
  lemma ScanIsFirstMatch(input: string, pos: nat)
    requires pos <= |input|
    ensures Scan(input, pos).None? <==> forall j :: 0 <= j < |Rules| ==> Match(Rules[j], input, pos).None?
    ensures Scan(input, pos).Some? ==>
              exists j :: 0 <= j < |Rules| && Rules[j] == Scan(input, pos).value.kind
                       && Match(Rules[j], input, pos) == Some(Scan(input, pos).value.length)
                       && forall j' :: 0 <= j' < j ==> Match(Rules[j'], input, pos).None?
  {
    var ms := Matches(input, pos);
    FirstRuleIsFirst(ms, 0);
    if Scan(input, pos).Some? {
      var h := Scan(input, pos).value;
      var j :| 0 <= j < |Rules| && Rules[j] == h.kind && ms[j] == Some(h.length)
               && forall j' :: 0 <= j' < j ==> ms[j'].None?;
      assert Match(Rules[j], input, pos) == Some(h.length);
    }
  }

  /** One step of the table walk: rule i either matches or hands over to rule i + 1. */
  lemma FirstRuleStep(ms: seq<Option<nat>>, i: nat)
    requires |ms| == |Rules| && i < |Rules|
    ensures FirstRule(ms, i) == if ms[i].Some? then Some(Hit(Rules[i], ms[i].value)) else FirstRule(ms, i + 1)
  {
  }

  /** The whole table walk written out in table order. */
  lemma {:induction false} FirstRuleUnrolled(ms: seq<Option<nat>>)
    requires |ms| == |Rules|
    ensures FirstRule(ms, 0) ==
              if ms[0].Some? then Some(Hit(Keyword, ms[0].value))
              else if ms[1].Some? then Some(Hit(DataType, ms[1].value))
              else if ms[2].Some? then Some(Hit(AbstractDataType, ms[2].value))
              else if ms[3].Some? then Some(Hit(Identifier, ms[3].value))
              else if ms[4].Some? then Some(Hit(Operator, ms[4].value))
              else if ms[5].Some? then Some(Hit(Literal, ms[5].value))
              else if ms[6].Some? then Some(Hit(StringLiteral, ms[6].value))
              else if ms[7].Some? then Some(Hit(BooleanLiteral, ms[7].value))
              else if ms[8].Some? then Some(Hit(Symbol, ms[8].value))
              else None
  {
    FirstRuleStep(ms, 0); FirstRuleStep(ms, 1); FirstRuleStep(ms, 2);
    FirstRuleStep(ms, 3); FirstRuleStep(ms, 4); FirstRuleStep(ms, 5);
    FirstRuleStep(ms, 6); FirstRuleStep(ms, 7); FirstRuleStep(ms, 8);
  }

  /** The scan tries the rules in the order of the table and keeps the first that matches. */
  lemma ScanInTableOrder(input: string, pos: nat)
    requires pos <= |input|
    ensures var k := Match(Keyword, input, pos);
            var d := Match(DataType, input, pos);
            var a := Match(AbstractDataType, input, pos);
            var id := Match(Identifier, input, pos);
            var op := Match(Operator, input, pos);
            var l := Match(Literal, input, pos);
            var st := Match(StringLiteral, input, pos);
            var b := Match(BooleanLiteral, input, pos);
            var sy := Match(Symbol, input, pos);
            Scan(input, pos) ==
              if k.Some? then Some(Hit(Keyword, k.value))
              else if d.Some? then Some(Hit(DataType, d.value))
              else if a.Some? then Some(Hit(AbstractDataType, a.value))
              else if id.Some? then Some(Hit(Identifier, id.value))
              else if op.Some? then Some(Hit(Operator, op.value))
              else if l.Some? then Some(Hit(Literal, l.value))
              else if st.Some? then Some(Hit(StringLiteral, st.value))
              else if b.Some? then Some(Hit(BooleanLiteral, b.value))
              else if sy.Some? then Some(Hit(Symbol, sy.value))
              else None
  {
    var ms := Matches(input, pos);
    FirstRuleUnrolled(ms);
    assert ms[0] == Match(Keyword, input, pos) && ms[1] == Match(DataType, input, pos);
    assert ms[2] == Match(AbstractDataType, input, pos) && ms[3] == Match(Identifier, input, pos);
    assert ms[4] == Match(Operator, input, pos) && ms[5] == Match(Literal, input, pos);
    assert ms[6] == Match(StringLiteral, input, pos) && ms[7] == Match(BooleanLiteral, input, pos);
    assert ms[8] == Match(Symbol, input, pos);
  }
}
