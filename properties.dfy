/** What the lexer's output means: the input read as white space, token, white space, ...,
    with every token the rule table's match at the first character after the white space,
    and the end of the input or an unmatched character where it stops. */
module LexingProperties {
  import opened Patterns
  import opened Tokenizer
  import Classification

  /** Every character of s is white space. */
  predicate Blank(s: string) {
    forall k :: 0 <= k < |s| ==> IsWhitespace(s[k])
  }

  /** input[from..stop] reads as the tokens toks, the i-th beginning at starts[i]: before
      each token a run of white space that ends at a character which is not white space,
      the token being the match hits gives there, on the line reached by the line feeds of
      the white space; then white space up to stop, the line there being endLine. */
  predicate Lexes(input: string, hits: seq<Option<Hit>>, from: nat, stop: nat, line: nat, endLine: nat,
                  toks: seq<Token>, starts: seq<nat>)
    requires |hits| == |input| + 1
    decreases |toks|
  {
    && from <= stop <= |input| && |starts| == |toks|
    && if toks == [] then
         Blank(input[from..stop]) && endLine == line + Newlines(input[from..stop])
       else
         var s, n := starts[0], |toks[0].value|;
         && from <= s && 0 < n && s + n <= stop
         && hits[s] == Some(Hit(toks[0].kind, n))
         && Blank(input[from..s]) && !IsWhitespace(input[s])
         && toks[0].value == input[s..s + n]
         && toks[0].line == line + Newlines(input[from..s])
         && Lexes(input, hits, s + n, stop, toks[0].line, endLine, toks[1..], starts[1..])
  }

  /** Why the lexer stops at stop: with no error, at the end of the input; with an error,
      at a character that is not white space and that no rule matches, the error naming
      that character and the line there. */
  predicate Halts(input: string, hits: seq<Option<Hit>>, stop: nat, error: Option<LexError>, endLine: nat)
    requires |hits| == |input| + 1 && stop <= |input|
  {
    if error.None? then stop == |input|
    else stop < |input| && !IsWhitespace(input[stop]) && hits[stop].None?
         && error.value == UnexpectedCharacter(input[stop], endLine)
  }

  lemma {:induction false} SkipEndOfBlank(input: string, pos: nat, stop: nat)
    requires pos <= stop <= |input| && Blank(input[pos..stop])
    requires stop == |input| || !IsWhitespace(input[stop])
    ensures SkipEnd(input, pos) == stop
    decreases stop - pos
  {
    if pos < stop {
      assert IsWhitespace(input[pos..stop][0]);
      forall k | pos + 1 <= k < stop
        ensures IsWhitespace(input[k])
      {
        assert input[k] == input[pos..stop][k - pos];
      }
      assert Blank(input[pos + 1..stop]);
      SkipEndOfBlank(input, pos + 1, stop);
    }
  }

  lemma BlankToSkipEnd(input: string, pos: nat)
    requires pos <= |input|
    ensures Blank(input[pos..SkipEnd(input, pos)])
  {
  }

  /** The outcome o of lexing from pos on the given line is a layout that stops as Halts
      says. */
  ghost predicate LaidOut(input: string, hits: seq<Option<Hit>>, pos: nat, line: nat, o: Outcome)
    requires |hits| == |input| + 1
  {
    exists stop, endLine, starts :: Lexes(input, hits, pos, stop, line, endLine, o.tokens, starts)
                                    && Halts(input, hits, stop, o.error, endLine)
  }

  /** A token after white space, followed by a layout, is a layout. */
  lemma LexesCons(input: string, hits: seq<Option<Hit>>, pos: nat, line: nat, e: nat, l: nat, h: Hit,
                  stop: nat, endLine: nat, toks: seq<Token>, starts: seq<nat>)
    requires HitsFit(input, hits) && pos <= |input|
    requires e == SkipEnd(input, pos) && l == line + Newlines(input[pos..e]) && e < |input| && hits[e] == Some(h)
    requires Lexes(input, hits, e + h.length, stop, l, endLine, toks, starts)
    ensures Lexes(input, hits, pos, stop, line, endLine, [Token(h.kind, input[e..e + h.length], l)] + toks, [e] + starts)
  {
    var tok := Token(h.kind, input[e..e + h.length], l);
    BlankToSkipEnd(input, pos);
    assert ([tok] + toks)[1..] == toks;
    assert ([e] + starts)[1..] == starts;
  }

  /** When white space runs from pos to a token at e, and the lexer's outcome after that
      token is laid out, so is the lexer's outcome from pos. */
  lemma LaidOutCons(input: string, hits: seq<Option<Hit>>, pos: nat, line: nat, e: nat, l: nat)
    requires HitsFit(input, hits) && pos <= |input|
    requires e == SkipEnd(input, pos) && l == line + Newlines(input[pos..e]) && e < |input| && hits[e].Some?
    requires LaidOut(input, hits, e + hits[e].value.length, l, LexFrom(input, hits, e + hits[e].value.length, l))
    ensures LaidOut(input, hits, pos, line, LexFrom(input, hits, pos, line))
  {
    var h := hits[e].value;
    var o := LexFrom(input, hits, e + h.length, l);
    LexFromToken(input, hits, pos, line, e, l);
    var stop, endLine, starts :| Lexes(input, hits, e + h.length, stop, l, endLine, o.tokens, starts)
                                 && Halts(input, hits, stop, o.error, endLine);
    LexesCons(input, hits, pos, line, e, l, h, stop, endLine, o.tokens, starts);
  }

  /** The lexer's outcome from pos is laid out as Lexes says and stops as Halts says. */
  lemma {:induction false} LexFromLaysOut(input: string, hits: seq<Option<Hit>>, pos: nat, line: nat)
    requires HitsFit(input, hits) && pos <= |input|
    ensures LaidOut(input, hits, pos, line, LexFrom(input, hits, pos, line))
    decreases |input| - pos
  {
    var e := SkipEnd(input, pos);
    var l := line + Newlines(input[pos..e]);
    if e == |input| || hits[e].None? {
      LaidOutWithoutToken(input, hits, pos, line, e, l);
    } else {
      LexFromLaysOut(input, hits, e + hits[e].value.length, l);
      LaidOutCons(input, hits, pos, line, e, l);
    }
  }

  /** When white space runs to the end of the input, or to a character no rule matches,
      the lexer's outcome has no token and is laid out. */
  lemma LaidOutWithoutToken(input: string, hits: seq<Option<Hit>>, pos: nat, line: nat, e: nat, l: nat)
    requires HitsFit(input, hits) && pos <= |input|
    requires e == SkipEnd(input, pos) && l == line + Newlines(input[pos..e])
    requires e == |input| || hits[e].None?
    ensures LaidOut(input, hits, pos, line, LexFrom(input, hits, pos, line))
  {
    BlankToSkipEnd(input, pos);
    assert Lexes(input, hits, pos, e, line, l, [], []);
    if e == |input| {
      EndRound(input, hits, pos, line);
      assert Halts(input, hits, e, None, l);
    } else {
      ErrorRound(input, hits, pos, line, e, l);
      assert Halts(input, hits, e, Some(UnexpectedCharacter(input[e], l)), l);
    }
  }

  /** A layout that stops as Halts says is the lexer's outcome: there is only one. */
  lemma {:induction false} LayoutIsLexFrom(input: string, hits: seq<Option<Hit>>, pos: nat, line: nat, stop: nat,
                                           endLine: nat, toks: seq<Token>, starts: seq<nat>, error: Option<LexError>)
    requires HitsFit(input, hits)
    requires Lexes(input, hits, pos, stop, line, endLine, toks, starts) && Halts(input, hits, stop, error, endLine)
    ensures LexFrom(input, hits, pos, line) == Outcome(toks, error)
    decreases |toks|
  {
    if toks == [] {
      SkipEndOfBlank(input, pos, stop);
      if stop < |input| {
        ErrorRound(input, hits, pos, line, stop, endLine);
      } else {
        EndRound(input, hits, pos, line);
      }
    } else {
      var s, n := starts[0], |toks[0].value|;
      SkipEndOfBlank(input, pos, s);
      LexFromToken(input, hits, pos, line, s, toks[0].line);
      LayoutIsLexFrom(input, hits, s + n, toks[0].line, stop, endLine, toks[1..], starts[1..], error);
      assert toks == [toks[0]] + toks[1..];
    }
  }

  /** The tokens of a layout, one by one: each lies inside the laid-out stretch, is the
      slice of the input at its start and is what hits gives there, and its line lies
      between the first and the last line of the stretch. */
  lemma {:induction false} LexesBounds(input: string, hits: seq<Option<Hit>>, from: nat, stop: nat, line: nat,
                                       endLine: nat, toks: seq<Token>, starts: seq<nat>)
    requires HitsFit(input, hits) && Lexes(input, hits, from, stop, line, endLine, toks, starts)
    ensures forall i :: 0 <= i < |toks| ==>
              && from <= starts[i] && starts[i] + |toks[i].value| <= stop
              && hits[starts[i]] == Some(Hit(toks[i].kind, |toks[i].value|))
              && toks[i].value == input[starts[i]..starts[i] + |toks[i].value|]
              && line <= toks[i].line <= endLine
    ensures line <= endLine
    decreases |toks|
  {
    if toks != [] {
      var s, n := starts[0], |toks[0].value|;
      var rest, restStarts := toks[1..], starts[1..];
      LexesBounds(input, hits, s + n, stop, toks[0].line, endLine, rest, restStarts);
      forall i | 0 < i < |toks|
        ensures && from <= starts[i] && starts[i] + |toks[i].value| <= stop
                && hits[starts[i]] == Some(Hit(toks[i].kind, |toks[i].value|))
                && toks[i].value == input[starts[i]..starts[i] + |toks[i].value|]
                && line <= toks[i].line <= endLine
      {
        assert toks[i] == rest[i - 1] && starts[i] == restStarts[i - 1];
      }
    }
  }

  /** Consecutive tokens of a layout follow one another in the input without overlapping,
      and their lines never decrease. */
  lemma {:induction false} LexesOrdered(input: string, hits: seq<Option<Hit>>, from: nat, stop: nat, line: nat,
                                        endLine: nat, toks: seq<Token>, starts: seq<nat>)
    requires |hits| == |input| + 1 && Lexes(input, hits, from, stop, line, endLine, toks, starts)
    ensures forall i :: 0 < i < |toks| ==>
              starts[i - 1] + |toks[i - 1].value| <= starts[i] && toks[i - 1].line <= toks[i].line
    decreases |toks|
  {
    if toks != [] {
      var s, n := starts[0], |toks[0].value|;
      var rest, restStarts := toks[1..], starts[1..];
      LexesOrdered(input, hits, s + n, stop, toks[0].line, endLine, rest, restStarts);
      forall i | 0 < i < |toks|
        ensures starts[i - 1] + |toks[i - 1].value| <= starts[i] && toks[i - 1].line <= toks[i].line
      {
        assert toks[i] == rest[i - 1] && starts[i] == restStarts[i - 1];
        if i > 1 {
          assert toks[i - 1] == rest[i - 2] && starts[i - 1] == restStarts[i - 2];
        }
      }
    }
  }

  // ---------------------------------------------------------------------------
  // The lexer over a whole input

  /** The outcome of the lexer from pos is o exactly when o is laid out as Lexes says and
      stops as Halts says. */
  lemma LexFromIffLaidOut(input: string, hits: seq<Option<Hit>>, pos: nat, line: nat, o: Outcome)
    requires HitsFit(input, hits) && pos <= |input|
    ensures LexFrom(input, hits, pos, line) == o <==> LaidOut(input, hits, pos, line, o)
  {
    LexFromLaysOut(input, hits, pos, line);
    if LaidOut(input, hits, pos, line, o) {
      var stop, endLine, starts :| Lexes(input, hits, pos, stop, line, endLine, o.tokens, starts)
                                   && Halts(input, hits, stop, o.error, endLine);
      LayoutIsLexFrom(input, hits, pos, line, stop, endLine, o.tokens, starts, o.error);
    }
  }

  /** tokenize returns ts exactly when the whole input is laid out as the tokens ts. */
  lemma LexOkIffLaidOut(input: string, ts: seq<Token>)
    ensures Lex(input) == Ok(ts) <==> LaidOut(input, ScanTable(input), 0, 1, Outcome(ts, None))
  {
    LexFromIffLaidOut(input, ScanTable(input), 0, 1, Outcome(ts, None));
  }

  /** tokenize throws err exactly when the input up to some point is laid out as tokens
      and is followed by a character that no rule matches, which err names with its line. */
  lemma LexErrIffLaidOut(input: string, err: LexError)
    ensures Lex(input) == Err(err) <==> exists ts :: LaidOut(input, ScanTable(input), 0, 1, Outcome(ts, Some(err)))
  {
    var o := LexFrom(input, ScanTable(input), 0, 1);
    LexFromIffLaidOut(input, ScanTable(input), 0, 1, o);
    if exists ts :: LaidOut(input, ScanTable(input), 0, 1, Outcome(ts, Some(err))) {
      var ts :| LaidOut(input, ScanTable(input), 0, 1, Outcome(ts, Some(err)));
      LexFromIffLaidOut(input, ScanTable(input), 0, 1, Outcome(ts, Some(err)));
    }
  }

  /** tokenize returns no token and no error exactly when the input is all white space. */
  lemma NoTokensIffBlank(input: string)
    ensures Lex(input) == Ok([]) <==> Blank(input)
  {
    LexOkIffLaidOut(input, []);
    assert input[0..|input|] == input;
    if Blank(input) {
      assert Lexes(input, ScanTable(input), 0, |input|, 1, 1 + Newlines(input), [], []);
    }
  }

  /** An entry of the scan table is what the hand-written classifier gives, and never a
      boolean literal. */
  lemma TableEntryClassified(input: string, s: nat, kind: TokenKind, n: nat)
    requires s <= |input| && ScanTable(input)[s] == Some(Hit(kind, n))
    ensures Classification.Classify(input, s) == Some(Hit(kind, n)) && kind != BooleanLiteral
  {
    assert ScanTable(input)[s] == Scan(input, s);
    Classification.ScanIsClassify(input, s);
    Classification.NoBooleanLiteralToken(input, s);
  }

  /** Every token tokenize returns is a non-empty slice of the input that the hand-written
      classifier gives at its start, never a boolean literal, on a line from 1 up; the
      tokens come in input order and their lines never decrease. */
  lemma LexTokensClassified(input: string, ts: seq<Token>)
    requires Lex(input) == Ok(ts)
    ensures forall i :: 0 <= i < |ts| ==>
              exists s: nat :: && s + |ts[i].value| <= |input|
                          && Classification.Classify(input, s) == Some(Hit(ts[i].kind, |ts[i].value|))
                          && ts[i].value == input[s..s + |ts[i].value|]
    ensures forall i :: 0 <= i < |ts| ==> ts[i].value != [] && ts[i].kind != BooleanLiteral && 1 <= ts[i].line
    ensures forall i :: 0 < i < |ts| ==> ts[i - 1].line <= ts[i].line
  {
    var hits := ScanTable(input);
    LexOkIffLaidOut(input, ts);
    var stop, endLine, starts :| Lexes(input, hits, 0, stop, 1, endLine, ts, starts)
                                 && Halts(input, hits, stop, None, endLine);
    LexesBounds(input, hits, 0, stop, 1, endLine, ts, starts);
    LexesOrdered(input, hits, 0, stop, 1, endLine, ts, starts);
    forall i | 0 <= i < |ts|
      ensures exists s: nat :: && s + |ts[i].value| <= |input|
                          && Classification.Classify(input, s) == Some(Hit(ts[i].kind, |ts[i].value|))
                          && ts[i].value == input[s..s + |ts[i].value|]
      ensures ts[i].value != [] && ts[i].kind != BooleanLiteral
    {
      TableEntryClassified(input, starts[i], ts[i].kind, |ts[i].value|);
    }
  }

  /** One token that fills the whole input, with nothing before it to skip. */
  lemma SingleToken(w: string, hits: seq<Option<Hit>>, kind: TokenKind)
    requires HitsFit(w, hits) && |w| > 0 && !IsWhitespace(w[0]) && hits[0] == Some(Hit(kind, |w|))
    ensures LexFrom(w, hits, 0, 1) == Outcome([Token(kind, w, 1)], None)
  {
    assert SkipEnd(w, 0) == 0;
    assert w[0..0] == [];
    LexFromToken(w, hits, 0, 1, 0, 1);
    EndRound(w, hits, |w|, 1);
    assert w[0..|w|] == w;
  }

  /** A text the classifier takes whole at its first character lexes as that one token. */
  lemma RelexToken(w: string, kind: TokenKind)
    requires |w| > 0 && Classification.Classify(w, 0) == Some(Hit(kind, |w|))
    ensures Lex(w) == Ok([Token(kind, w, 1)])
  {
    var hits := ScanTable(w);
    assert hits[0] == Some(Hit(kind, |w|)) by {
      assert hits[0] == Scan(w, 0);
      Classification.ScanIsClassify(w, 0);
    }
    SingleToken(w, hits, kind);
  }

  /** A token returned by the lexer is, on its own, classified as it was in the input. */
  lemma TokenClassifiedAlone(input: string, ts: seq<Token>, i: nat)
    requires Lex(input) == Ok(ts) && i < |ts|
    ensures |ts[i].value| > 0 && Classification.Classify(ts[i].value, 0) == Some(Hit(ts[i].kind, |ts[i].value|))
  {
    var v := ts[i].value;
    var s: nat := TokenStart(input, ts, i);
    Classification.ClassifyOwnText(input, s, ts[i].kind, |v|);
  }

  /** Where a token returned by the lexer starts in the input. */
  lemma TokenStart(input: string, ts: seq<Token>, i: nat) returns (s: nat)
    requires Lex(input) == Ok(ts) && i < |ts|
    ensures s + |ts[i].value| <= |input| && ts[i].value == input[s..s + |ts[i].value|]
    ensures Classification.Classify(input, s) == Some(Hit(ts[i].kind, |ts[i].value|))
  {
    LexTokensClassified(input, ts);
    s :| && s + |ts[i].value| <= |input|
         && Classification.Classify(input, s) == Some(Hit(ts[i].kind, |ts[i].value|))
         && ts[i].value == input[s..s + |ts[i].value|];
  }

  /** Lexing the text of any token on its own gives back that token alone, on line 1:
      the class a token gets depends on its own text only. */
  lemma TokenRelexes(input: string, ts: seq<Token>, i: nat)
    requires Lex(input) == Ok(ts) && i < |ts|
    ensures Lex(ts[i].value) == Ok([Token(ts[i].kind, ts[i].value, 1)])
  {
    TokenClassifiedAlone(input, ts, i);
    RelexToken(ts[i].value, ts[i].kind);
  }
}
