/**
 Words, numerals, blanks, comments and positions, told character by character (graph-forge/src/lexer.ts, lines 61-256).
 */
module LexerLaws {
  import opened Outcomes
  import opened Tokens
  import opened LexerSpec

  // ---------------------------------------------------------------------------------------------
  // Positions
  // ---------------------------------------------------------------------------------------------

  /** The line is one more than the newlines before, and the column one more than the characters since the last. */
  lemma {:induction false} PositionInNumbers(src: string, i: nat)
    requires i <= |src|
    ensures LineAt(src, i) == 1 + multiset(src[..i])['\n']
    ensures var start := i - (ColumnAt(src, i) - 1);
            0 <= start <= i && '\n' !in src[start..i] && (start == 0 || src[start - 1] == '\n')
  {
    if i > 0 {
      PositionInNumbers(src, i - 1);
      assert src[..i] == src[..i - 1] + [src[i - 1]];
      if src[i - 1] != '\n' {
        var start := i - (ColumnAt(src, i) - 1);
        assert src[start..i] == src[start..i - 1] + [src[i - 1]];
      }
    }
  }

  // ---------------------------------------------------------------------------------------------
  // Sources of one token
  // ---------------------------------------------------------------------------------------------

  predicate Letter(c: char) {
    'a' <= c <= 'z' || 'A' <= c <= 'Z' || c == '_'
  }

  predicate Reserved(w: string) {
    w in ["graph", "node", "edge", "directive", "analysis", "true", "false"]
  }

  /** The source is scanned as the one token `s`, from its beginning to its end. */
  predicate IsOneToken(src: string, s: Symbol) {
    Lex(src) == Ok([Token(s, 1, 1, 0), Token(Symbol(Eof, "", NoLiteral), 1, 1 + |src|, |src|)])
  }

  lemma {:induction false} OneLine(src: string, i: nat)
    requires i <= |src| && '\n' !in src
    ensures LineAt(src, i) == 1 && ColumnAt(src, i) == 1 + i
  {
    if i > 0 {
      OneLine(src, i - 1);
      assert src[i - 1] in src;
    }
  }

  lemma OneEmission(src: string, s: Symbol)
    requires src != "" && '\n' !in src && ScanOne(src, 0) == Emit(s, |src|)
    ensures IsOneToken(src, s)
  {
    hide ScanOne;
    OneLine(src, 0);
    OneLine(src, |src|);
    assert LexFrom(src, |src|) == Ok([EofAt(src)]);
    assert Lex(src) == Prepend([TokenAt(src, 0, s)], LexFrom(src, |src|));
    assert [TokenAt(src, 0, s)] + [EofAt(src)] == [Token(s, 1, 1, 0), EofAt(src)];
  }

  /** Letters, underscores and digits, not a digit first, make one identifier, unless the word is reserved. */
  lemma WordIsOneToken(w: string)
    requires w != "" && Letter(w[0]) && !Reserved(w)
    requires forall k :: 0 <= k < |w| ==> Letter(w[k]) || '0' <= w[k] <= '9'
    ensures IsOneToken(w, Symbol(Identifier, w, NoLiteral))
  {
    SpanEndIs(w, 0, IsAlphaNumeric, |w|);
    assert w[0..|w|] == w;
    PlainWord(w);
    OneEmission(w, Symbol(Identifier, w, NoLiteral));
  }

  lemma PlainWord(w: string)
    requires !Reserved(w)
    ensures WordSymbol(w) == Symbol(Identifier, w, NoLiteral)
  {
  }

  /** Digits make one number. */
  lemma DigitsAreOneToken(w: string)
    requires w != "" && forall k :: 0 <= k < |w| ==> '0' <= w[k] <= '9'
    ensures IsOneToken(w, Symbol(Number, w, Digits(w)))
  {
    SpanEndIs(w, 0, IsDigit, |w|);
    assert w[0..|w|] == w;
    OneEmission(w, Symbol(Number, w, Digits(w)));
  }

  // ---------------------------------------------------------------------------------------------
  // Sources of no token
  // ---------------------------------------------------------------------------------------------

  lemma {:induction false} BlanksFrom(src: string, i: nat)
    requires i <= |src|
    requires forall k :: i <= k < |src| ==> src[k] == ' ' || src[k] == '\t' || src[k] == '\r' || src[k] == '\n'
    ensures LexFrom(src, i) == Ok([EofAt(src)])
    decreases |src| - i
  {
    if i < |src| {
      BlanksFrom(src, i + 1);
    }
  }

  /** Blanks, tabs, carriage returns and newlines make no token, and neither does a line comment. */
  lemma NothingToScan(src: string)
    requires
      || (forall k :: 0 <= k < |src| ==> src[k] == ' ' || src[k] == '\t' || src[k] == '\r' || src[k] == '\n')
      || (|src| >= 2 && src[0] == '/' && src[1] == '/' && '\n' !in src)
    ensures Lex(src).Ok? && |Lex(src).value| == 1 && Lex(src).value[0].symbol.kind == Eof
  {
    if forall k :: 0 <= k < |src| ==> src[k] == ' ' || src[k] == '\t' || src[k] == '\r' || src[k] == '\n' {
      BlanksFrom(src, 0);
    } else {
      assert forall k :: 0 <= k < |src| ==> src[k] in src;
      SpanEndIs(src, 2, NotNewline, |src|);
      assert LexFrom(src, |src|) == Ok([EofAt(src)]);
    }
  }

  /** Any other first character is an error at the first position. */
  lemma ForeignCharacterIsRejected(src: string)
    requires src != "" && !Letter(src[0]) && !('0' <= src[0] <= '9')
    requires src[0] !in [' ', '\t', '\r', '\n', '/', '-', '"', '{', '}', '(', ')', ':', ',', ';', '@']
    ensures Lex(src) == Err(LexError(UnexpectedCharacter(src[0]), Position(1, 1)))
  {
  }
}
