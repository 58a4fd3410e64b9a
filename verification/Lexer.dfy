/**
 The scanner itself (graph-forge/src/lexer.ts, lines 50-284): a cursor with a running line and column,
 proved against `LexerSpec.Lex`, whose locations are counted from the text instead.
 */
module GraphForgeLexer {
  import opened Outcomes
  import opened Tokens
  import opened LexerSpec

  class Lexer {
    const source: string
    var tokens: seq<Token>
    var start: nat
    var startLine: nat
    var startColumn: nat
    var current: nat
    var line: nat
    var column: nat

    constructor (source: string)
      ensures this.source == source && tokens == [] && current == 0 && Located()
    {
      this.source := source;
      tokens := [];
      start, startLine, startColumn := 0, 1, 1;
      current, line, column := 0, 1, 1;
    }

    /** The running line and column are those of the cursor. */
    ghost predicate Located()
      reads this
    {
      current <= |source| && Position(line, column) == PositionAt(source, current)
    }

    /** The saved line and column are those of the token start. */
    ghost predicate Started()
      reads this
    {
      start <= |source| && Position(startLine, startColumn) == PositionAt(source, start)
    }

    method ScanTokens() returns (r: Result<seq<Token>, LexError>)
      requires Located() && current == 0 && tokens == []
      modifies this
      ensures r == Lex(source)
    {
      hide ScanOne;
      PrependNothing(Lex(source));
      while current < |source|
        invariant Located()
        invariant Lex(source) == Prepend(tokens, LexFrom(source, current))
        decreases |source| - current
      {
        start, startLine, startColumn := current, line, column;
        label before:
        var outcome := ScanToken();
        if outcome.Err? {
          return Err(outcome.error);
        }
        LexStep(source, start, old@before(tokens));
      }
      tokens := tokens + [Token(Symbol(Eof, "", NoLiteral), line, column, current)];
      return Ok(tokens);
    }

    /** Scans one token, blank or comment: the step `ScanOne` of the specification. */
    method ScanToken() returns (r: Result<(), LexError>)
      requires Located() && Started() && start == current < |source|
      modifies this`tokens, this`current, this`line, this`column
      ensures match ScanOne(source, start)
              case Skip(next) => r.Ok? && current == next && Located() && tokens == old(tokens)
              case Emit(symbol, next) =>
                r.Ok? && current == next && Located() && tokens == old(tokens) + [TokenAt(source, start, symbol)]
              case Fail(error) => r == Err(error)
    {
      hide WordSymbol;
      var c := Advance();
      r := Ok(());
      if PunctuationKind(c).Some? {
        AddToken(PunctuationKind(c).value, NoLiteral);
      } else if c == '-' {
        var arrow := Match('>');
        if arrow {
          AddToken(Arrow, NoLiteral);
        } else {
          return Err(LexError(StrayDash, Position(startLine, startColumn)));
        }
      } else if c == '\n' {
        line, column := line + 1, 1;
      } else if c == ' ' || c == '\r' || c == '\t' {
      } else if c == '/' {
        var comment := Match('/');
        if comment {
          ConsumeWhile(NotNewline);
        } else {
          return Err(LexError(StraySlash, Position(startLine, startColumn)));
        }
      } else if c == '"' {
        r := String();
      } else if IsDigit(c) {
        Number();
      } else if IsAlpha(c) {
        Identifier();
      } else {
        return Err(LexError(UnexpectedCharacter(c), Position(startLine, startColumn)));
      }
    }

    method Identifier()
      requires Located() && Started() && start < current <= |source| && IsAlpha(source[start]) && current == start + 1
      modifies this`tokens, this`current, this`line, this`column
      ensures current == SpanEnd(source, start, IsAlphaNumeric) && Located()
      ensures tokens == old(tokens) + [TokenAt(source, start, WordSymbol(source[start..current]))]
    {
      hide TokenAt, PositionAt;
      ConsumeWhile(IsAlphaNumeric);
      assert current == SpanEnd(source, start, IsAlphaNumeric);
      var text := source[start..current];
      if text == "analysis" {
        AddToken(Analysis, NoLiteral);
        return;
      }
      match text
      case "graph" => AddToken(Graph, NoLiteral);
      case "node" => AddToken(Node, NoLiteral);
      case "edge" => AddToken(Edge, NoLiteral);
      case "directive" => AddToken(Directive, NoLiteral);
      case "true" => AddToken(Boolean, Truth(true));
      case "false" => AddToken(Boolean, Truth(false));
      case _ => AddToken(TokenKind.Identifier, NoLiteral);
    }

    method Number()
      requires Located() && Started() && start < current <= |source| && IsDigit(source[start]) && current == start + 1
      modifies this`tokens, this`current, this`line, this`column
      ensures current == NumeralEnd(source, start) && Located()
      ensures tokens == old(tokens)
                     + [TokenAt(source, start,
                          Symbol(TokenKind.Number, source[start..current], Digits(source[start..current])))]
    {
      hide TokenAt, PositionAt;
      ConsumeWhile(IsDigit);
      assert current == SpanEnd(source, start, IsDigit);
      if current < |source| && source[current] == '.' && current + 1 < |source| && IsDigit(source[current + 1]) {
        var _ := Advance();
        ConsumeWhile(IsDigit);
      }
      AddToken(TokenKind.Number, Digits(source[start..current]));
    }

    method String() returns (r: Result<(), LexError>)
      requires Located() && Started() && current == start + 1
      modifies this`tokens, this`current, this`line, this`column
      ensures match ScanString(source, start)
              case Emit(symbol, next) =>
                r.Ok? && current == next && Located() && tokens == old(tokens) + [TokenAt(source, start, symbol)]
              case Fail(error) => r == Err(error)
              case Skip(_) => false
    {
      hide Unescaped, EscapeFault, ReadSoFar, ClosingQuote, Decoded;
      var value := "";
      ghost var open := current;
      ReadNothing(source, start, open);
      while current < |source|
        invariant open <= current && Located() && tokens == old(tokens)
        invariant ReadSoFar(source, start, open, current, value)
        decreases |source| - current
      {
        ghost var at := current;
        ReadOneMore(source, start, open, at, value);
        var ch := Advance();
        if ch == '"' {
          AddToken(TokenKind.String, Text(value));
          return Ok(());
        }
        if ch == '\n' {
          line, column := line + 1, 1;
          value := value + "\n";
        } else if ch == '\\' {
          var plain :- Escape();
          value := value + [plain];
        } else {
          value := value + [ch];
        }
      }
      ReadEverything(source, start, open, value);
      return Err(LexError(UnterminatedString, Position(startLine, startColumn)));
    }

    /** The character an escape stands for; the cursor is just after the backslash. */
    method Escape() returns (r: Result<char, LexError>)
      requires Located() && 0 < current && source[current - 1] == '\\'
      modifies this`current, this`column
      ensures match r
              case Ok(plain) =>
                && old(current) < |source| && Unescaped(source[old(current)]) == Some(plain)
                && current == old(current) + 1 && Located()
              case Err(error) =>
                && (old(current) < |source| ==> Unescaped(source[old(current)]).None?)
                && error == EscapeFault(source, old(current) - 1)
    {
      if current == |source| {
        // `advance` past the end yields the empty string and still moves the column.
        return Err(LexError(UnsupportedEscape(""), Position(line, column)));
      }
      var next := Advance();
      match Unescaped(next)
      case Some(plain) =>
        return Ok(plain);
      case None =>
        return Err(LexError(UnsupportedEscape([next]), Position(line, column - 1)));
    }

    method AddToken(kind: TokenKind, literal: Literal)
      requires Started() && start <= current <= |source|
      modifies this`tokens
      ensures tokens == old(tokens) + [TokenAt(source, start, Symbol(kind, source[start..current], literal))]
    {
      var lexeme := source[start..current];
      tokens := tokens + [Token(Symbol(kind, lexeme, literal), startLine, startColumn, start)];
    }

    /** Moves over a run of characters that holds no newline (both loops of the scanner have this shape). */
    method ConsumeWhile(p: char -> bool)
      requires Located() && !p('\n')
      modifies this`current, this`line, this`column
      ensures current == SpanEnd(source, old(current), p) && Located()
    {
      while current < |source| && p(source[current])
        invariant Located()
        invariant SpanEnd(source, old(current), p) == SpanEnd(source, current, p)
        decreases |source| - current
      {
        var _ := Advance();
      }
    }

    /** Over a newline the location is left for the caller to move. */
    method Advance() returns (c: char)
      requires Located() && current < |source|
      modifies this`current, this`column
      ensures current == old(current) + 1 && c == source[old(current)]
      ensures column == if c == '\n' then old(column) else old(column) + 1
      ensures c != '\n' ==> Located()
    {
      c := source[current];
      current := current + 1;
      if c != '\n' {
        column := column + 1;
      }
    }

    method Match(expected: char) returns (matched: bool)
      requires Located()
      modifies this`current, this`line, this`column
      ensures matched == Ahead(source, old(current), expected)
      ensures current == if matched then old(current) + 1 else old(current)
      ensures Located()
    {
      if current == |source| || source[current] != expected {
        return false;
      }
      current := current + 1;
      if expected == '\n' {
        line, column := line + 1, 1;
      } else {
        column := column + 1;
      }
      return true;
    }
  }

  lemma LexStep(src: string, i: nat, front: seq<Token>)
    requires i < |src|
    ensures ScanOne(src, i).Skip? ==>
              Prepend(front, LexFrom(src, i)) == Prepend(front, LexFrom(src, ScanOne(src, i).next))
    ensures ScanOne(src, i).Emit? ==>
              Prepend(front, LexFrom(src, i)) ==
              Prepend(front + [TokenAt(src, i, ScanOne(src, i).symbol)], LexFrom(src, ScanOne(src, i).next))
    ensures ScanOne(src, i).Fail? ==> Prepend(front, LexFrom(src, i)) == Err(ScanOne(src, i).error)
  {
    hide ScanOne;
    if ScanOne(src, i).Emit? && LexFrom(src, ScanOne(src, i).next).Ok? {
      var t := [TokenAt(src, i, ScanOne(src, i).symbol)];
      var rest := LexFrom(src, ScanOne(src, i).next).value;
      assert front + (t + rest) == front + t + rest;
    }
  }

  /** `value` is what the string opened at `start` holds between offsets `open` and `at`. */
  ghost predicate ReadSoFar(src: string, start: nat, open: nat, at: nat, value: string)
    requires start < open <= at <= |src|
  {
    var close := ClosingQuote(src, start, open);
    && close == ClosingQuote(src, start, at)
    && (close.Ok? ==>
          && Decoded(src[at..close.value]).Some?
          && Decoded(src[open..close.value]) == Some(value + Decoded(src[at..close.value]).value))
  }

  lemma ReadNothing(src: string, start: nat, open: nat)
    requires start < open <= |src|
    ensures ReadSoFar(src, start, open, open, "")
  {
    var close := ClosingQuote(src, start, open);
    if close.Ok? {
      ClosedStringDecodes(src, start, open);
      var d := Decoded(src[open..close.value]).value;
      assert "" + d == d;
    }
  }

  lemma ReadEverything(src: string, start: nat, open: nat, value: string)
    requires start < open <= |src| && ReadSoFar(src, start, open, |src|, value)
    ensures ClosingQuote(src, start, open) == Err(LexError(UnterminatedString, PositionAt(src, start)))
  {
  }

  /** One character or escape moves from the text still to read to the value read so far. */
  lemma ReadOneMore(src: string, start: nat, open: nat, j: nat, value: string)
    requires start < open <= j < |src| && ReadSoFar(src, start, open, j, value)
    ensures src[j] == '"' ==>
              ClosingQuote(src, start, open) == Ok(j) && Decoded(src[open..j]) == Some(value)
    ensures src[j] == '\\' ==>
              if j + 1 < |src| && Unescaped(src[j + 1]).Some?
              then ReadSoFar(src, start, open, j + 2, value + [Unescaped(src[j + 1]).value])
              else ClosingQuote(src, start, open) == Err(EscapeFault(src, j))
    ensures src[j] != '"' && src[j] != '\\' ==> ReadSoFar(src, start, open, j + 1, value + [src[j]])
  {
    hide Unescaped, EscapeFault;
    var close := ClosingQuote(src, start, open);
    if src[j] == '"' {
      assert value + "" == value;
    } else if close.Ok? {
      var e := close.value;
      var body := src[j..e];
      var step := if src[j] == '\\' then 2 else 1;
      assert body[0] == src[j];
      if src[j] == '\\' {
        assert |body| >= 2 && body[1] == src[j + 1];
      }
      SliceOfSlice(src, j, e, step, |body|);
      var head := if src[j] == '\\' then [Unescaped(src[j + 1]).value] else [src[j]];
      var rest := Decoded(src[j + step..e]).value;
      assert value + (head + rest) == value + head + rest;
    }
  }
}
