/** The lexer object: its state (input, position, line, tokens so far), the three methods
    that drive the pattern table over the input, and the functions that say what they
    compute. */
module Tokenizer {
  import opened Patterns

  /** One token: its class, the matched text and the line it was found on. */
  datatype Token = Token(kind: TokenKind, value: string, line: nat)

  /** The error raised when no rule matches: the offending character and its line. */
  datatype LexError = UnexpectedCharacter(character: char, line: nat)

  datatype Result<T> = Ok(value: T) | Err(error: LexError)

  /** What a run of the lexer leaves behind: the tokens pushed, in order, and the error
      that stopped it, if any. */
  datatype Outcome = Outcome(tokens: seq<Token>, error: Option<LexError>)

  // ---------------------------------------------------------------------------
  // Scan results

  /** A table of scan results, one per position of input and one for its end, such as
      the pattern table gives: every hit is non-empty and ends inside the input. */
  predicate HitsFit(input: string, hits: seq<Option<Hit>>) {
    && |hits| == |input| + 1
    && forall p :: 0 <= p <= |input| && hits[p].Some? ==> 0 < hits[p].value.length && p + hits[p].value.length <= |input|
  }

  /** hits is what the pattern table gives at every position of input. */
  ghost predicate HitsAreScans(input: string, hits: seq<Option<Hit>>) {
    && |hits| == |input| + 1
    && forall p {:trigger Scan(input, p)} :: 0 <= p <= |input| ==> hits[p] == Scan(input, p)
  }

  lemma ScansExist(input: string)
    ensures exists hits :: HitsAreScans(input, hits)
  {
    var hits := seq(|input| + 1, p requires 0 <= p <= |input| => Scan(input, p));
    assert HitsAreScans(input, hits);
  }

  lemma ScansFit(input: string, hits: seq<Option<Hit>>)
    requires HitsAreScans(input, hits)
    ensures HitsFit(input, hits)
  {
    forall p | 0 <= p <= |input| && hits[p].Some?
      ensures 0 < hits[p].value.length && p + hits[p].value.length <= |input|
    {
      assert hits[p] == Scan(input, p);
    }
  }

  /** The table walk at pos, from the first rule on, gives the entry of hits at pos. */
  lemma WalkGivesEntry(input: string, hits: seq<Option<Hit>>, pos: nat)
    requires HitsAreScans(input, hits) && pos <= |input|
    ensures FirstRule(Matches(input, pos), 0) == hits[pos]
  {
    assert hits[pos] == Scan(input, pos);
  }

  /** The first rule of the walk from i that matches is the i-th one when it matches. */
  lemma WalkStopsAt(input: string, hits: seq<Option<Hit>>, pos: nat, i: nat, m: Option<nat>)
    requires pos <= |input| && i < |Rules| && |hits| == |input| + 1
    requires FirstRule(Matches(input, pos), i) == hits[pos]
    requires m == Match(Rules[i], input, pos) && m.Some?
    ensures hits[pos] == Some(Hit(Rules[i], m.value))
  {
    FirstRuleStep(Matches(input, pos), i);
  }

  /** The results of the pattern table at every position of input. */
  ghost function ScanTable(input: string): (hits: seq<Option<Hit>>)
    ensures HitsAreScans(input, hits) && HitsFit(input, hits)
  {
    ScansExist(input);
    var hits :| HitsAreScans(input, hits);
    ScansFit(input, hits);
    hits
  }

  // ---------------------------------------------------------------------------
  // White space and lines

  /** The number of line feeds in s. */
  function Newlines(s: string): nat {
    if s == [] then 0 else Newlines(s[..|s| - 1]) + (if s[|s| - 1] == '\n' then 1 else 0)
  }

  lemma {:induction false} NewlinesAppend(a: string, b: string)
    ensures Newlines(a + b) == Newlines(a) + Newlines(b)
    decreases |b|
  {
    if b != [] {
      assert (a + b)[..|a + b| - 1] == a + b[..|b| - 1];
      NewlinesAppend(a, b[..|b| - 1]);
    } else {
      assert a + b == a;
    }
  }

  /** Where the run of white space that starts at pos ends. */
  function SkipEnd(input: string, pos: nat): (e: nat)
    requires pos <= |input|
    ensures pos <= e <= |input|
    ensures forall k :: pos <= k < e ==> IsWhitespace(input[k])
    ensures e == |input| || !IsWhitespace(input[e])
    decreases |input| - pos
  {
    if pos < |input| && IsWhitespace(input[pos]) then SkipEnd(input, pos + 1) else pos
  }

  /** Passing one more character of the input counts the line feed it may be. */
  lemma NewlinesStep(input: string, start: nat, pos: nat)
    requires start <= pos < |input|
    ensures Newlines(input[start..pos + 1]) == Newlines(input[start..pos]) + (if input[pos] == '\n' then 1 else 0)
  {
    assert input[start..pos + 1] == input[start..pos] + [input[pos]];
    NewlinesAppend(input[start..pos], [input[pos]]);
    assert Newlines([input[pos]]) == Newlines([]) + (if input[pos] == '\n' then 1 else 0);
  }

  // ---------------------------------------------------------------------------
  // The lexer as a function

  /** The tokens the lexer pushes from pos on, starting on the given line, and the error
      that stops it, where hits[p] is what the pattern table gives at p: white space is
      skipped first, each line feed in it counting a line. */
  function LexFrom(input: string, hits: seq<Option<Hit>>, pos: nat, line: nat): (o: Outcome)
    requires HitsFit(input, hits) && pos <= |input|
    ensures |o.tokens| <= |input| - pos
    ensures o.error.Some? ==> line <= o.error.value.line
    decreases |input| - pos, 2
  {
    var e := SkipEnd(input, pos);
    LexAt(input, hits, e, line + Newlines(input[pos..e]))
  }

  /** Lexing where no white space is left to skip: the end of the input stops the lexer,
      anything else is looked up in hits. */
  function LexAt(input: string, hits: seq<Option<Hit>>, pos: nat, line: nat): (o: Outcome)
    requires HitsFit(input, hits) && pos <= |input|
    ensures |o.tokens| <= |input| - pos
    ensures o.error.Some? ==> line <= o.error.value.line
    decreases |input| - pos, 1
  {
    if pos == |input| then Outcome([], None) else Emit(input, hits, pos, line)
  }

  /** What the scan at pos leads to: no match is an error naming the character at pos and
      the current line; a match pushes its token and lexing resumes after it. */
  function Emit(input: string, hits: seq<Option<Hit>>, pos: nat, line: nat): (o: Outcome)
    requires HitsFit(input, hits) && pos < |input|
    ensures |o.tokens| <= |input| - pos
    ensures o.error.Some? ==> line <= o.error.value.line
    decreases |input| - pos, 0
  {
    match hits[pos]
    case None => Outcome([], Some(UnexpectedCharacter(input[pos], line)))
    case Some(h) =>
      var rest := LexFrom(input, hits, pos + h.length, line);
      Outcome([Token(h.kind, input[pos..pos + h.length], line)] + rest.tokens, rest.error)
  }

  /** The value of `tokenize` on a fresh lexer: the token list, or the error it throws. */
  ghost function Lex(input: string): (r: Result<seq<Token>>)
    ensures r.Ok? ==> |r.value| <= |input|
    ensures r.Err? ==> 1 <= r.error.line
  {
    var o := LexFrom(input, ScanTable(input), 0, 1);
    if o.error.None? then Ok(o.tokens) else Err(o.error.value)
  }

  /** Where the lexer stops from pos on the given line, and the line it has reached there:
      white space is skipped, and the end of the input or a position without a match stops
      it; a match moves it past the token. */
  function LexEnd(input: string, hits: seq<Option<Hit>>, pos: nat, line: nat): (r: (nat, nat))
    requires HitsFit(input, hits) && pos <= |input|
    ensures pos <= r.0 <= |input| && line <= r.1
    ensures r.0 < |input| ==> hits[r.0].None?
    decreases |input| - pos
  {
    var e := SkipEnd(input, pos);
    var l := line + Newlines(input[pos..e]);
    if e == |input| || hits[e].None? then (e, l)
    else LexEnd(input, hits, e + hits[e].value.length, l)
  }

  /** One round of LexEnd: the white space from pos ends at e, on line l. */
  lemma LexEndStep(input: string, hits: seq<Option<Hit>>, pos: nat, line: nat, e: nat, l: nat)
    requires HitsFit(input, hits) && pos <= |input|
    requires e == SkipEnd(input, pos) && l == line + Newlines(input[pos..e])
    ensures LexEnd(input, hits, pos, line)
            == if e == |input| || hits[e].None? then (e, l) else LexEnd(input, hits, e + hits[e].value.length, l)
  {
  }

  /** The lexer stops where its outcome says it does: at the end of the input exactly when
      there is no error, and otherwise at the character the error names, on its line. */
  lemma {:induction false} LexEndIsStop(input: string, hits: seq<Option<Hit>>, pos: nat, line: nat)
    requires HitsFit(input, hits) && pos <= |input|
    ensures var o, r := LexFrom(input, hits, pos, line), LexEnd(input, hits, pos, line);
            && (o.error.None? <==> r.0 == |input|)
            && (o.error.Some? ==> r.0 < |input| && o.error.value == UnexpectedCharacter(input[r.0], r.1))
    decreases |input| - pos
  {
    var e := SkipEnd(input, pos);
    var l := line + Newlines(input[pos..e]);
    LexFromSkips(input, hits, pos, line);
    LexEndStep(input, hits, pos, line, e, l);
    if e < |input| {
      LexAtEmits(input, hits, e, l);
      if hits[e].Some? {
        LexEndIsStop(input, hits, e + hits[e].value.length, l);
      }
    }
  }

  lemma LexFromSkips(input: string, hits: seq<Option<Hit>>, pos: nat, line: nat)
    requires HitsFit(input, hits) && pos <= |input|
    ensures LexFrom(input, hits, pos, line)
            == LexAt(input, hits, SkipEnd(input, pos), line + Newlines(input[pos..SkipEnd(input, pos)]))
  {
  }

  lemma LexAtEmits(input: string, hits: seq<Option<Hit>>, pos: nat, line: nat)
    requires HitsFit(input, hits) && pos < |input|
    ensures LexAt(input, hits, pos, line) == Emit(input, hits, pos, line)
  {
  }

  /** What one token found at e, after the white space from pos, makes of the outcome. */
  lemma LexFromToken(input: string, hits: seq<Option<Hit>>, pos: nat, line: nat, e: nat, l: nat)
    requires HitsFit(input, hits) && pos <= |input|
    requires e == SkipEnd(input, pos) && l == line + Newlines(input[pos..e])
    requires e < |input| && hits[e].Some?
    ensures var h := hits[e].value;
            var rest := LexFrom(input, hits, e + h.length, l);
            LexFrom(input, hits, pos, line) == Outcome([Token(h.kind, input[e..e + h.length], l)] + rest.tokens, rest.error)
  {
    LexFromSkips(input, hits, pos, line);
    LexAtEmits(input, hits, e, l);
  }

  /** One round of the lexer from pos: white space is skipped up to e, where the line is
      l, the token found at e is pushed after the tokens ts already pushed, and lexing
      resumes at next, just after it. */
  lemma TokenRound(input: string, hits: seq<Option<Hit>>, pos: nat, line: nat, e: nat, l: nat, next: nat, ts: seq<Token>)
    requires HitsFit(input, hits) && pos <= |input|
    requires e == SkipEnd(input, pos) && l == line + Newlines(input[pos..e])
    requires e < |input| && hits[e].Some? && next == e + hits[e].value.length
    ensures && ts + LexFrom(input, hits, pos, line).tokens
               == (ts + [Token(hits[e].value.kind, input[e..next], l)]) + LexFrom(input, hits, next, l).tokens
            && LexFrom(input, hits, pos, line).error == LexFrom(input, hits, next, l).error
            && LexEnd(input, hits, pos, line) == LexEnd(input, hits, next, l)
  {
    LexFromToken(input, hits, pos, line, e, l);
    LexEndStep(input, hits, pos, line, e, l);
  }

  /** The round that ends the lexer: only white space is left. */
  lemma EndRound(input: string, hits: seq<Option<Hit>>, pos: nat, line: nat)
    requires HitsFit(input, hits) && pos <= |input| && SkipEnd(input, pos) == |input|
    ensures LexFrom(input, hits, pos, line) == Outcome([], None)
  {
    LexFromSkips(input, hits, pos, line);
  }

  /** ... and there the lexer stops at the end, on the line reached past the white space. */
  lemma EndRoundStop(input: string, hits: seq<Option<Hit>>, pos: nat, line: nat)
    requires HitsFit(input, hits) && pos <= |input| && SkipEnd(input, pos) == |input|
    ensures LexEnd(input, hits, pos, line) == (|input|, line + Newlines(input[pos..|input|]))
  {
    LexEndStep(input, hits, pos, line, |input|, line + Newlines(input[pos..|input|]));
  }

  /** At the end of the input the lexer stops where it is. */
  lemma EndStops(input: string, hits: seq<Option<Hit>>, line: nat)
    requires HitsFit(input, hits)
    ensures LexEnd(input, hits, |input|, line) == (|input|, line)
  {
    assert input[|input|..|input|] == [];
    LexEndStep(input, hits, |input|, line, |input|, line);
  }

  /** The round that fails: no rule matches at e, where the white space from pos ends and
      the line is l. */
  lemma ErrorRound(input: string, hits: seq<Option<Hit>>, pos: nat, line: nat, e: nat, l: nat)
    requires HitsFit(input, hits) && pos <= |input|
    requires e == SkipEnd(input, pos) && l == line + Newlines(input[pos..e])
    requires e < |input| && hits[e].None?
    ensures LexFrom(input, hits, pos, line) == Outcome([], Some(UnexpectedCharacter(input[e], l)))
  {
    LexFromSkips(input, hits, pos, line);
    LexAtEmits(input, hits, e, l);
  }

  /** ... and the lexer stops at e, on line l. */
  lemma ErrorRoundStop(input: string, hits: seq<Option<Hit>>, pos: nat, line: nat, e: nat, l: nat)
    requires HitsFit(input, hits) && pos <= |input|
    requires e == SkipEnd(input, pos) && l == line + Newlines(input[pos..e])
    requires e < |input| && hits[e].None?
    ensures LexEnd(input, hits, pos, line) == (e, l)
  {
    LexEndStep(input, hits, pos, line, e, l);
  }

  class Lexer {
    const input: string
    /** What the pattern table gives at each position of input. */
    ghost const hits: seq<Option<Hit>>
    var position: nat
    var line: nat
    var tokens: seq<Token>

    /** The position lies inside the input and lines are counted from 1. */
    ghost predicate Valid()
      reads this
    {
      position <= |input| && line >= 1
    }

    /** hits holds the result of the pattern table at each position of input; it is fixed
        when the lexer is made, as input is. */
    ghost predicate TableOfScans() {
      HitsFit(input, hits) && HitsAreScans(input, hits)
    }

    constructor(inputCode: string)
      ensures Valid() && TableOfScans()
      ensures input == inputCode && hits == ScanTable(inputCode)
      ensures position == 0 && line == 1 && tokens == []
    {
      input := inputCode;
      hits := ScanTable(inputCode);
      position := 0;
      line := 1;
      tokens := [];
    }

    /** Advances past white space, counting the line feeds it passes. */
    method SkipWhitespace()
      requires Valid()
      modifies this`position, this`line
      ensures Valid()
      ensures position == SkipEnd(input, old(position))
      ensures line == old(line) + Newlines(input[old(position)..position])
    {
      ghost var start, passed := position, 0;
      while position < |input|
        invariant start <= position <= |input|
        invariant SkipEnd(input, position) == SkipEnd(input, start)
        invariant passed == Newlines(input[start..position])
        invariant line == old(line) + passed
        decreases |input| - position
      {
        var c := input[position];
        if c == '\n' {
          line := line + 1;
        }
        if !IsWhitespace(c) {
          break;
        }
        NewlinesStep(input, start, position);
        passed := passed + if c == '\n' then 1 else 0;
        position := position + 1;
      }
    }

    /** Tries the rules in table order at the current position; the first that matches
        pushes its token and moves past it. What it finds is hits[position], that is
        Scan(input, position). */
    method TokenizeUsingPatterns() returns (matched: bool)
      requires Valid() && TableOfScans()
      modifies this`position, this`tokens
      ensures Valid()
      ensures matched == hits[old(position)].Some?
      ensures !matched ==> position == old(position) && tokens == old(tokens)
      ensures matched ==>
                var h := hits[old(position)].value;
                position == old(position) + h.length
                && tokens == old(tokens) + [Token(h.kind, input[old(position)..position], line)]
    {
      var start := position;
      WalkGivesEntry(input, hits, start);
      for i := 0 to |Rules|
        invariant FirstRule(Matches(input, start), i) == hits[start]
        invariant position == start && tokens == old(tokens)
      {
        var m := Match(Rules[i], input, start);
        if m.Some? {
          WalkStopsAt(input, hits, start, i, m);
          tokens := tokens + [Token(Rules[i], input[start..start + m.value], line)];
          position := start + m.value;
          assert Token(Rules[i], input[start..start + m.value], line)
              == Token(hits[old(position)].value.kind, input[old(position)..position], line);
          return true;
        }
      }
      return false;
    }

    /** Lexes the rest of the input: the tokens pushed are those of LexFrom, and the result
        is the token list or the error that stopped the lexer. */
    method Tokenize() returns (r: Result<seq<Token>>)
      requires Valid() && TableOfScans()
      modifies this
      ensures Valid()
      ensures var o := LexFrom(input, hits, old(position), old(line));
              && tokens == old(tokens) + o.tokens
              && r == (if o.error.None? then Ok(tokens) else Err(o.error.value))
              && (o.error.None? ==> position == |input|)
              && (o.error.Some? ==>
                    && position < |input| && hits[position].None?
                    && o.error.value == UnexpectedCharacter(input[position], line))
      ensures (position, line) == LexEnd(input, hits, old(position), old(line))
    {
      ghost var o, stop := LexFrom(input, hits, position, line), LexEnd(input, hits, position, line);
      while position < |input|
        invariant Valid()
        invariant stop == LexEnd(input, hits, position, line)
        invariant old(tokens) + o.tokens == tokens + LexFrom(input, hits, position, line).tokens
        invariant o.error == LexFrom(input, hits, position, line).error
        decreases |input| - position
      {
        ghost var p0, l0, ts := position, line, tokens;
        SkipWhitespace();
        if position >= |input| {
          EndRound(input, hits, p0, l0);
          break;
        }
        ghost var e, l := position, line;
        var ok := TokenizeUsingPatterns();
        if !ok {
          ErrorRound(input, hits, p0, l0, e, l);
          return Err(UnexpectedCharacter(input[position], line));
        }
        TokenRound(input, hits, p0, l0, e, l, position, ts);
      }
      EndStops(input, hits, line);
      return Ok(tokens);
    }
  }

  /** A fresh lexer over code, run to the end. */
  method TokenizeCode(code: string) returns (r: Result<seq<Token>>)
    ensures r == Lex(code)
  {
    var lexer := new Lexer(code);
    r := lexer.Tokenize();
    assert [] + LexFrom(code, ScanTable(code), 0, 1).tokens == LexFrom(code, ScanTable(code), 0, 1).tokens;
  }
}
