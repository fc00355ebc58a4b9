# A verified model of the `Lexer` class of lexer.js

`lexer.js` holds a hand-written tokenizer for a small C-like scripting language. Its `Lexer`
class keeps the input text, a cursor `position`, a `line` counter that starts at 1 and the
array of `tokens` pushed so far. `tokenize` loops: it skips white space (counting line
feeds), tries the nine entries of the static `patterns` table in order at the cursor, pushes
the first match as a token `{type, value, line}` and moves past it. It throws
`Unexpected character` when no entry matches.

The Dafny project models that class and proves what its output means.

- `patterns.dfy` (module `Patterns`): the nine regular expressions of the pattern table, each
  written out as an explicit matcher on `input[pos..]`.
  - The matchers reproduce ordered alternation (`FirstAlternative`), `\b` on the slice
    (`Boundary`), and greedy runs that give characters back until `\b` holds (`BackOff`).
  - `match && match.index === 0` on the slice is the same as a match anchored at the cursor,
    since the leftmost match is the one found at offset 0 when there is one.
  - `Scan` walks the table in its iteration order and keeps the first rule that matches.
- `classification.dfy` (module `Classification`): a hand-written classifier `Classify` with one
  branch per class of leading character, and the proof `ScanIsClassify` that the table-driven
  scan equals it at every position. The consequences of the table's order are proved there:
  - the word rules take whole words only;
  - operators are the first listed spelling, not the longest;
  - `BOOLEAN_LITERAL` and the decimal alternative of `LITERAL` never decide a token;
  - the keyword `" print"` never matches.
- `tokenizer.dfy` (module `Tokenizer`): the class `Lexer` with the fields `input`, `position`,
  `line` and `tokens` and the methods `SkipWhitespace`, `TokenizeUsingPatterns` and `Tokenize`.
  - Each method is proved against a specification function: `SkipEnd` and `Newlines` for the
    white-space loop, `Scan` for the table walk, `LexFrom` for the whole tokenizer.
  - The lexer carries a ghost table `hits`, fixed when it is made, holding `Scan` at every
    position of the input (`ScanTable`). `LexFrom` is stated over any such table (`HitsFit`).
  - The thrown error is the value `Err(UnexpectedCharacter(c, line))` of a `Result`.
- `properties.dfy` (module `LexingProperties`): what the output means. `Lexes` describes the
  input as white space, token, white space, and so on, up to a point where `Halts` says why the
  lexer stops. It is proved that the lexer's result is exactly the one such layout:
  `LexFromIffLaidOut`, `LexOkIffLaidOut` and `LexErrIffLaidOut`. The consequences:
  - white-space-only input gives no token and no error;
  - every token is a non-empty slice of the input, classified as `Classify` says, never a
    boolean literal;
  - tokens come in input order without overlapping, and their lines never decrease;
  - the text of any token, lexed on its own, gives back that one token (`TokenRelexes`).
- `samples.dfy` (module `Samples`): `tokenize` on small inputs, derived through the classifier:
  - `<=`, `+=` and `<<=` split into one-character operators, while `==` is one token;
  - `class` is a keyword, `int` and `List` are types, `integer`, `true` and `print` are identifiers;
  - `789;` is a literal and a symbol, while `1.5` fails on `.`;
  - `@` and an unterminated string fail;
  - a line feed inside a string literal is not counted as a line.

Where the language's documented intent and the code differ, the model follows the code:
- Operators are matched by their listed order (`+` before `+=`, `<` before `<=` and `<<=`), so
  compound operators such as `<=`, `+=` and `<<=` come out as several tokens. Only `==`, `!=`,
  `&&` and the doubled bar are taken whole (`Classification.OperatorMatchIsSpelling`).
- The keyword list spells `" print"` with a leading space, so `print` is an identifier.
- `IDENTIFIER` precedes `BOOLEAN_LITERAL`, so `true` and `false` are identifiers.
- The integer alternative of `LITERAL` is tried first and fails only where the decimal one
  fails too, so `1.5` is the literal `1` followed by an error on `.`.
- A string literal may contain line feeds, and those do not advance `line`.

## Model

| member | source | states |
|---|---|---|
| Patterns.FirstAlternative | lexer.js:11-18 | ordered alternation: the first alternative in listed order that matches at the position (followed by `\b` when bounded); none exactly when no alternative matches |
| Patterns.Boundary | lexer.js:11-18 | `\b` on the slice from the cursor: it holds only inside the slice or at its end, and at the cursor exactly when the slice starts with a word character |
| Patterns.WordRunLength | lexer.js:14 | the length of the maximal run of `\w` characters from an index: all of it is word characters and the next character is not |
| Patterns.DigitRunLength | lexer.js:16 | the length of the maximal run of `\d` characters from an index |
| Patterns.BackOff | lexer.js:14-16 | a greedy run followed by `\b` keeps the longest prefix, not shorter than the minimum, at whose end `\b` holds; none when `\b` holds nowhere in that range |
| Patterns.FindChar | lexer.js:17 | the first index from a start that holds the quote character; none when it occurs nowhere after the start |
| Patterns.WordAlternationMatch | lexer.js:11-13 | a KEYWORD, DATA_TYPE or ABSTRACT_DATA_TYPE match is non-empty and ends inside the input |
| Patterns.IdentifierMatch | lexer.js:14 | an IDENTIFIER match is non-empty and ends inside the input |
| Patterns.OperatorMatch | lexer.js:15 | an OPERATOR match is non-empty and ends inside the input |
| Patterns.IntegerMatch | lexer.js:16 | a match of `\b\d+\b` is non-empty and ends inside the input |
| Patterns.DecimalFrom | lexer.js:16 | a match of `\d+\.\d+\b`, trying shorter integer parts in turn, is non-empty and ends inside the input |
| Patterns.DecimalMatch | lexer.js:16 | a match of `\b\d+\.\d+\b` is non-empty and ends inside the input |
| Patterns.LiteralMatch | lexer.js:16 | a LITERAL match is non-empty and ends inside the input |
| Patterns.QuotedMatch | lexer.js:17 | a quoted match spans at least both quotes and ends inside the input |
| Patterns.StringMatch | lexer.js:17 | a STRING_LITERAL match spans at least both quotes and ends inside the input |
| Patterns.SymbolMatch | lexer.js:19 | SYMBOL matches exactly when the character at the cursor is one of `{}()[],;:`, and then has length 1 |
| Patterns.Match | lexer.js:10-20 | the matcher of every table entry yields a non-empty match inside the input, if any |
| Patterns.OperatorsNonEmpty | lexer.js:15 | every operator spelling is non-empty |
| Patterns.FirstRule | lexer.js:38-51 | what the table walk finds is the kind and match length of some entry from the starting one on |
| Patterns.FirstRuleIsFirst | lexer.js:38-51 | the table walk finds nothing exactly when every entry failed; otherwise it finds the first entry that matched, with its kind and length |
| Patterns.FirstRuleUnrolled | lexer.js:38-51 | the whole walk written out as one decision in table order |
| Patterns.Scan | lexer.js:38-51 | the token found at a position is non-empty and ends inside the input |
| Patterns.ScanIsFirstMatch | lexer.js:38-51 | the scan is the first rule in table order that matches, and nothing exactly when no rule does |
| Patterns.ScanInTableOrder | lexer.js:10-20 | the scan as an if-chain over the nine rules in the order of the table |
| Classification.KeywordsAreWordSpellings | lexer.js:11 | every keyword spelling is non-empty, does not start with a digit, and is all word characters or starts with a non-word character |
| Classification.TypeWordsAreWordSpellings | lexer.js:12-18 | the same for the data type, abstract data type and boolean spellings |
| Classification.WordRunIs | lexer.js:14 | a run of word characters that cannot be extended is the word run |
| Classification.WordAlternationIsWholeWord | lexer.js:11-13 | an alternation of spellings between two `\b` matches exactly when the whole word at the cursor is one of the spellings, and then consumes that word |
| Classification.IdentifierIsWholeWord | lexer.js:14 | IDENTIFIER consumes the whole word at the cursor when it starts with a letter or `_`, and fails otherwise |
| Classification.IntegerIsWholeWord | lexer.js:16 | `\b\d+\b` matches exactly when the whole word at the cursor is digits, and consumes it |
| Classification.DecimalNeedsDot | lexer.js:16 | a match of the decimal alternative needs a `.` after the cursor, within the integer part tried |
| Classification.DecimalAlternativeUnreachable | lexer.js:16 | where the decimal alternative would match, the integer one matches first, so LITERAL is the integer alternative |
| Classification.OperatorHeadsAgree | lexer.js:15 | the first characters of the operator spellings, in list order |
| Classification.OperatorChosen | lexer.js:15 | an operator spelling that matches is chosen when every spelling listed before it starts differently or fails |
| Classification.FirstByHead | lexer.js:15 | the same for any list of spellings and their first characters |
| Classification.AcceptedHead | lexer.js:15 | a spelling that matches at the cursor begins with the character there |
| Classification.OperatorLength | lexer.js:15 | the OPERATOR match length when spelling j is the one chosen |
| Classification.PlusMinusStar | lexer.js:15 | `+`, `-` and `*` always give a one-character operator: `+=` and `-=` are never tried |
| Classification.SlashPercent | lexer.js:15 | `/` and `%` give one character: `//`, `/=` and `%=` are never taken |
| Classification.GreaterLess | lexer.js:15 | `>` and `<` give one character: `>=`, `<=`, `>>`, `<<`, `>>=` and `<<=` are never taken |
| Classification.CaretTilde | lexer.js:15 | `^` and `~` give one character |
| Classification.SpellsTwo | lexer.js:15 | two characters at the cursor spell the two-character operator made of them |
| Classification.EqualsOperator | lexer.js:15 | `=` gives `==` when another `=` follows, and one character otherwise |
| Classification.BangOperator | lexer.js:15 | `!` gives `!=` when `=` follows, and one character otherwise |
| Classification.AmpersandOperator | lexer.js:15 | `&` gives `&&` when another `&` follows, and one character otherwise |
| Classification.BarOperator | lexer.js:15 | the bar gives the doubled bar when another bar follows, and one character otherwise |
| Classification.NoOperatorAt | lexer.js:15 | a character that starts no operator spelling gives no OPERATOR match |
| Classification.SingleOperators | lexer.js:15 | every one-character-only operator head gives length 1 |
| Classification.DoubledOperators | lexer.js:15 | `=`, `!`, `&` and the bar give 2 exactly when the character after them completes `==`, `!=`, `&&` or the doubled bar |
| Classification.OperatorMatchIsSpelling | lexer.js:15 | OPERATOR equals the reference `OperatorSpelling`: one character, except `==`, `!=`, `&&` and the doubled bar |
| Classification.OperatorSpelling | lexer.js:15 | the operator length as the list behaves: one or two characters, inside the input; the doubled operators are the only two-character ones |
| Classification.DigitWordNotInTable | lexer.js:11-13 | a word that starts with a digit is in no word table |
| Classification.WordKind | lexer.js:11-14 | a word is classed Keyword, DataType, AbstractDataType or Identifier, never anything else; `ScanAtWordStart` proves this is what the word rules decide |
| Classification.Classify | lexer.js:10-20 | a hit of the classifier is non-empty, ends inside the input, never starts at white space and is never BOOLEAN_LITERAL; `ScanIsClassify` proves it equals the pattern table |
| Classification.TableRule | lexer.js:11-13 | a word table rule matches exactly the table's words that start at a word start, with their length |
| Classification.KeywordRule | lexer.js:11 | KEYWORD matches exactly when the whole word at the cursor is in the keyword list |
| Classification.DataTypeRule | lexer.js:12 | DATA_TYPE matches exactly when the whole word at the cursor is a data type name |
| Classification.AbstractDataTypeRule | lexer.js:13 | ABSTRACT_DATA_TYPE matches exactly when the whole word at the cursor is `List`, `Array` or `Dictionaries` |
| Classification.BooleanLiteralRule | lexer.js:18 | BOOLEAN_LITERAL matches exactly when the whole word at the cursor is `true` or `false` |
| Classification.LiteralRule | lexer.js:16 | LITERAL matches exactly when the whole word at the cursor is digits |
| Classification.ScanAtWordStart | lexer.js:10-20 | at a letter or `_` the scan is the classifier's word token |
| Classification.DigitWordOutcomes | lexer.js:11-18 | at a digit every word rule fails |
| Classification.DigitNonWordOutcomes | lexer.js:15-19 | at a digit OPERATOR, STRING_LITERAL and SYMBOL fail |
| Classification.DigitOutcomes | lexer.js:10-20 | at a digit every rule but LITERAL fails |
| Classification.ScanAtDigit | lexer.js:16 | at a digit the scan is a literal of the digit run when the word there is all digits, and nothing otherwise |
| Classification.OtherOutcomes | lexer.js:11-18 | where no word starts, the word rules and LITERAL fail |
| Classification.ScanAtOther | lexer.js:15-19 | elsewhere the scan is the operator, string or symbol the classifier gives |
| Classification.ScanIsClassify | lexer.js:10-20 | the table-driven scan equals the hand-written classifier at every position |
| Classification.WordAlone | lexer.js:11-14 | the word alone is classified as it was in the input |
| Classification.NumberAlone | lexer.js:16 | an all-digit word alone is the same literal |
| Classification.OperatorAlone | lexer.js:15 | an operator alone is the same operator, with the same length |
| Classification.StringAlone | lexer.js:17 | a quoted string alone still ends at its closing quote |
| Classification.SymbolAlone | lexer.js:19 | a symbol alone is the same symbol |
| Classification.ClassifyOwnText | lexer.js:10-20 | the classifier gives the same hit on the text of a hit alone as in the input: no rule looks past the token it matches |
| Classification.NoBooleanLiteralToken | lexer.js:14-18 | the scan never yields BOOLEAN_LITERAL |
| Classification.BooleanLiteralShadowed | lexer.js:14-18 | whatever BOOLEAN_LITERAL would match, IDENTIFIER matches with the same length |
| Classification.SpacePrintNeverMatches | lexer.js:11 | a KEYWORD match starts with a letter or `_` and is never `" print"` |
| Classification.PrintIsNotKeyword | lexer.js:11 | the word `print` is not in the keyword list |
| Tokenizer.ScansFit | lexer.js:42-48 | in such a table every hit is non-empty and ends inside the input |
| Tokenizer.WalkGivesEntry | lexer.js:38-51 | the walk from the first rule at the cursor gives the table entry there |
| Tokenizer.NewlinesAppend | lexer.js:25-27 | line feeds of a concatenation add up |
| Tokenizer.SkipEnd | lexer.js:22-33 | the end of the white-space run at a position: everything before it is white space and it is the end of the input or not white space |
| Tokenizer.NewlinesStep | lexer.js:25-31 | passing one more character counts it when it is a line feed |
| Tokenizer.LexFrom | lexer.js:56-67 | the specification of `tokenize` from a position and line: at most one token per remaining character, and an error it stops on lies on that line or a later one |
| Tokenizer.LexAt | lexer.js:57-65 | the same bound where no white space is left to skip |
| Tokenizer.Emit | lexer.js:42-48 | the same bound once a scan is taken at the position |
| Tokenizer.LexEnd | lexer.js:56-67 | where `tokenize` from a position and line leaves the cursor and the line: never before the start, at the end of the input or on a position no rule matches |
| Tokenizer.LexEndIsStop | lexer.js:56-70 | the lexer stops at the end of the input exactly when it raises no error; otherwise the error names the character where it stops, with the line it reached |
| Tokenizer.Lex | lexer.js:56-70 | `tokenize` on a fresh lexer returns no more tokens than the input has characters, and an error it throws names a line from 1 up |
| Tokenizer.LexFromToken | lexer.js:42-48 | a token found after the white space is pushed with the line reached there, and lexing resumes after it |
| Tokenizer.TokenRound | lexer.js:56-67 | one round of `tokenize` extends the tokens pushed by that token and keeps the final outcome and the place where the lexer stops |
| Tokenizer.ErrorRound | lexer.js:64-65 | when no rule matches after the white space the lexer stops with the character there and its line |
| Tokenizer.Lexer.constructor | lexer.js:2-7 | a fresh lexer holds the input, position 0, line 1 and no tokens |
| Tokenizer.Lexer.SkipWhitespace | lexer.js:22-33 | the cursor moves to the end of the white-space run, the line grows by the line feeds passed, and nothing else changes |
| Tokenizer.Lexer.TokenizeUsingPatterns | lexer.js:35-54 | returns whether a rule matches at the cursor; if so the first one's token is pushed on the current line and the cursor moves past it, otherwise nothing changes |
| Tokenizer.Lexer.Tokenize | lexer.js:56-70 | the tokens pushed are those `LexFrom` gives from the starting cursor and line, and the result is the token list or the error that stopped it; on success the cursor is at the end of the input, and on an error it rests on the character no rule matches, which the error names with the current line; the final cursor and line are those `LexEnd` gives |
| Tokenizer.TokenizeCode | lexer.js:79-80 | a fresh lexer run to the end returns `Lex` of the code |
| LexingProperties.SkipEndOfBlank | lexer.js:22-33 | white space up to a character that is not white space is exactly what the skip passes |
| LexingProperties.BlankToSkipEnd | lexer.js:22-33 | everything the skip passes is white space |
| LexingProperties.LexesCons | lexer.js:56-67 | a token after white space, followed by a layout, is a layout |
| LexingProperties.LaidOutCons | lexer.js:56-67 | when the outcome after a token is laid out, so is the outcome before it |
| LexingProperties.LaidOutWithoutToken | lexer.js:57-65 | an outcome that ends at the end of the input, or at an unmatched character, after white space is laid out |
| LexingProperties.LexFromLaysOut | lexer.js:56-70 | the lexer's outcome reads the input as white space and tokens and stops as `Halts` says |
| LexingProperties.LayoutIsLexFrom | lexer.js:56-70 | any such layout is the lexer's outcome: there is only one |
| LexingProperties.LexesBounds | lexer.js:42-48 | every token lies in the laid-out stretch, is the input slice at its start, is the table entry there, and its line lies between the first and the last line |
| LexingProperties.LexesOrdered | lexer.js:42-48 | consecutive tokens follow one another without overlapping and their lines never decrease |
| LexingProperties.LexFromIffLaidOut | lexer.js:56-70 | the lexer's outcome is o exactly when o is laid out and stops as `Halts` says |
| LexingProperties.LexOkIffLaidOut | lexer.js:56-70 | `tokenize` returns ts exactly when the whole input is laid out as ts |
| LexingProperties.LexErrIffLaidOut | lexer.js:64-65 | `tokenize` throws err exactly when a prefix is laid out and followed by an unmatched character that err names with its line |
| LexingProperties.NoTokensIffBlank | lexer.js:57-62 | `tokenize` returns no tokens and no error exactly when the input is all white space |
| LexingProperties.TableEntryClassified | lexer.js:10-20 | a scan-table entry is what the classifier gives and never BOOLEAN_LITERAL |
| LexingProperties.LexTokensClassified | lexer.js:38-51 | every token returned is a non-empty input slice classified as `Classify` says, never a boolean literal, on a line from 1 up, with lines non-decreasing |
| LexingProperties.SingleToken | lexer.js:56-67 | an input that is one token from its first character lexes as that token on line 1 |
| LexingProperties.RelexToken | lexer.js:56-70 | a text the classifier takes whole lexes as that one token |
| LexingProperties.TokenStart | lexer.js:38-51 | every token returned starts at some position of the input where the classifier gives it |
| LexingProperties.TokenClassifiedAlone | lexer.js:10-20 | the text of every token returned is classified alone as that token |
| LexingProperties.TokenRelexes | lexer.js:56-70 | lexing the text of any returned token on its own gives back exactly that token, on line 1: the class of a token depends on its text only |
| Samples.Entry | lexer.js:38-51 | the scan table of a fresh lexer is the classifier at each position |
| Samples.TokenNext | lexer.js:42-48 | a token right at the cursor is pushed on the current line |
| Samples.NoMatch | lexer.js:64-65 | a character no rule matches is the error, with the current line |
| Samples.LessEqualsSplits | lexer.js:15 | `<=` lexes as `<`, `=` |
| Samples.EqualsEqualsIsOneToken | lexer.js:15 | `==` is one operator token |
| Samples.PlusEqualsSplits | lexer.js:15 | `+=` lexes as `+`, `=` |
| Samples.ShiftAssignSplits | lexer.js:15 | `<<=` lexes as `<`, `<`, `=` |
| Samples.ClassIsKeyword | lexer.js:11 | `class` is a keyword token |
| Samples.IntegerIsIdentifier | lexer.js:14 | `integer` is a single identifier |
| Samples.TrueIsIdentifier | lexer.js:14-18 | `true` is an identifier, not a boolean literal |
| Samples.PrintIsIdentifier | lexer.js:11-14 | `print` is an identifier |
| Samples.TypeNames | lexer.js:12-13 | `int List` is a data type then an abstract data type |
| Samples.LiteralThenSymbol | lexer.js:16-19 | `789;` is the literal `789` then the symbol `;` |
| Samples.DecimalFails | lexer.js:16 | `1.5` is the literal `1` then an error on `.` at line 1 |
| Samples.AtSignFails | lexer.js:64-65 | `@` fails with `@` on line 1 |
| Samples.UnterminatedStringFails | lexer.js:17 | `"abc` fails on `"` on line 1 |
| Samples.LinesSkipStrings | lexer.js:22-27 | a line feed in white space advances the line; one inside a string literal does not |

## Left out

- The DOM click handler, the page rendering and the output formatting (lexer.js:73-93): they are
  presentation around the lexer. `TokenizeCode` stands for its one use of the class
  (`new Lexer(codeInput).tokenize()`).
- The commented sample program (lexer.js:95-103): it is not code.
- The general JavaScript RegExp engine and the `new RegExp(pattern)` copy of each pattern
  (lexer.js:39): only the nine fixed patterns are modelled, as explicit matchers.
- The exact error message text and the exception mechanism: the error is the value
  `UnexpectedCharacter(character, line)` returned as `Err`. As in the source, the tokens pushed
  before the error stay in the object's `tokens` field, and the result carries only the error.
- JavaScript strings are sequences of UTF-16 code units; the model's strings are sequences of
  Unicode scalar values. A character outside the Basic Multilingual Plane is one position here
  and two in the source, which changes positions and the character an error names.
- JavaScript numbers are doubles; `position` and `line` are unbounded naturals here. Inputs of
  2^53 characters or more are not modelled.
- `tokenize` returns the object's own `tokens` array, so the caller and the lexer share it and a
  later change to one is seen by the other. `Tokenizer.Lexer.Tokenize` returns the token
  sequence as a value; that sharing is not modelled.
- `Tokenizer.Lexer.TokenizeUsingPatterns`: the source breaks out of the loop and returns its
  `matched` flag; the model returns from inside the loop, with the same result and state.
- `Tokenizer.Lexer.Tokenize`: it and `TokenizeUsingPatterns` require `TableOfScans()`, which
  says that the ghost field `hits` holds `Scan` at every position. The constructor establishes
  this and nothing changes it, as `input` is never changed. The source has no such field: it is
  how the specification function `LexFrom` is stated over a precomputed scan table.
